/**
 * The pool as seen by all its users at once: any number of checkouts, returns and closes,
 * interleaved step by step. A step is what happens between two points where another user may
 * get in between; a cancelled operation is one whose next step gives up.
 */
module PoolSteps {
  import opened Message

  datatype Conn = Conn(id: nat, createdAt: nat)

  datatype Entry = Entry(conn: Conn, idledAt: nat)

  datatype Config = Config(maxSize: nat, idleTimeout: Option<nat>, maxLifetime: Option<nat>)

  /** The slots of the semaphore. */
  function Slots(config: Config): nat {
    if config.maxSize < 1 then 1 else config.maxSize
  }

  /** Too old at time `now` to be used again. */
  predicate Expired(config: Config, createdAt: nat, idledAt: nat, now: nat) {
    || (config.idleTimeout.Some? && now - idledAt > config.idleTimeout.value)
    || (config.maxLifetime.Some? && now - createdAt > config.maxLifetime.value)
  }

  /** An idle connection may be used again until both limits are over, and at those moments still. */
  lemma UsableUntil(config: Config, createdAt: nat, idledAt: nat, now: nat)
    ensures !Expired(config, createdAt, idledAt, now) <==>
            && (config.idleTimeout.None? || now <= idledAt + config.idleTimeout.value)
            && (config.maxLifetime.None? || now <= createdAt + config.maxLifetime.value)
  {
  }

  /**
   * `free` permits are available. The holders of the others are `looking` for an idle
   * connection, `probing` one, `minting` one, `holding` one, `returning` one (it was found
   * fit to be reused while the pool was open, but is not back yet) or `leaving`, with the
   * permit still in hand. `closing` were idle when the pool was closed; `born` are all
   * connections ever minted and `gone` those that left the pool's care for good.
   */
  datatype State = State(
    now: nat,
    closed: bool,
    free: nat,
    idle: seq<Entry>,
    looking: nat,
    probing: multiset<Conn>,
    minting: nat,
    holding: multiset<Conn>,
    returning: multiset<Conn>,
    leaving: nat,
    closing: multiset<Conn>,
    born: seq<Conn>,
    gone: multiset<Conn>,
    failedMints: nat)

  function Start(config: Config): State {
    State(0, false, Slots(config), [], 0, multiset{}, 0, multiset{}, multiset{}, 0, multiset{}, [], multiset{}, 0)
  }

  datatype Step =
    | Tick
    | Acquire
    | Look
    | Probed(conn: Conn, ok: bool)
    | ProbeCancelled(conn: Conn)
    | Minted
    | MintFailed
    | Detach(conn: Conn)
    | Discard(conn: Conn)
    | Keep(conn: Conn)
    | Push(conn: Conn)
    | Release
    | Close
    | TakeIdle
    | Closed(conn: Conn)

  predicate Enabled(s: State, step: Step) {
    match step
    case Tick => true
    case Acquire => !s.closed && s.free > 0
    case Look => s.looking > 0
    case Probed(c, _) => c in s.probing
    case ProbeCancelled(c) => c in s.probing
    case Minted => s.minting > 0
    case MintFailed => s.minting > 0
    case Detach(c) => c in s.holding
    case Discard(c) => c in s.holding
    case Keep(c) => c in s.holding && !s.closed
    case Push(c) => c in s.returning
    case Release => s.leaving > 0
    case Close => true
    case TakeIdle => s.closed
    case Closed(c) => c in s.closing
  }

  /** The step taken; `Look` pops the newest idle connection, if there is one. */
  function Apply(config: Config, s: State, step: Step): State
    requires Enabled(s, step)
  {
    match step
    case Tick => s.(now := s.now + 1)
    case Acquire => s.(free := s.free - 1, looking := s.looking + 1)
    case Look =>
      if s.idle == [] then s.(looking := s.looking - 1, minting := s.minting + 1)
      else
        var entry := s.idle[|s.idle| - 1];
        var rest := s.idle[..|s.idle| - 1];
        if Expired(config, entry.conn.createdAt, entry.idledAt, s.now) then
          s.(idle := rest, gone := s.gone + multiset{entry.conn})
        else s.(idle := rest, looking := s.looking - 1, probing := s.probing + multiset{entry.conn})
    case Probed(c, ok) =>
      if ok then s.(probing := s.probing - multiset{c}, holding := s.holding + multiset{c})
      else s.(probing := s.probing - multiset{c}, gone := s.gone + multiset{c}, looking := s.looking + 1)
    case ProbeCancelled(c) =>
      s.(probing := s.probing - multiset{c}, gone := s.gone + multiset{c}, leaving := s.leaving + 1)
    case Minted =>
      var c := Conn(|s.born|, s.now);
      s.(minting := s.minting - 1, born := s.born + [c], holding := s.holding + multiset{c})
    case MintFailed => s.(minting := s.minting - 1, failedMints := s.failedMints + 1, leaving := s.leaving + 1)
    case Detach(c) =>
      s.(holding := s.holding - multiset{c}, gone := s.gone + multiset{c}, leaving := s.leaving + 1)
    case Discard(c) =>
      s.(holding := s.holding - multiset{c}, gone := s.gone + multiset{c}, leaving := s.leaving + 1)
    case Keep(c) => s.(holding := s.holding - multiset{c}, returning := s.returning + multiset{c})
    case Push(c) =>
      s.(returning := s.returning - multiset{c}, idle := s.idle + [Entry(c, s.now)], leaving := s.leaving + 1)
    case Release => s.(leaving := s.leaving - 1, free := s.free + 1)
    case Close => s.(closed := true)
    case TakeIdle => s.(idle := [], closing := s.closing + Conns(s.idle))
    case Closed(c) => s.(closing := s.closing - multiset{c}, gone := s.gone + multiset{c})
  }

  function Conns(idle: seq<Entry>): multiset<Conn> {
    if idle == [] then multiset{} else Conns(idle[..|idle| - 1]) + multiset{idle[|idle| - 1].conn}
  }

  lemma {:induction false} ConnsCount(idle: seq<Entry>)
    ensures |Conns(idle)| == |idle|
  {
    if idle != [] {
      ConnsCount(idle[..|idle| - 1]);
    }
  }

  /** Holders of a permit that have, or are about to have, a connection. */
  function Active(s: State): nat {
    |s.probing| + s.minting + |s.holding| + |s.returning|
  }

  /** Where every connection that was ever minted is now. */
  function Everywhere(s: State): multiset<Conn> {
    Conns(s.idle) + s.probing + s.holding + s.returning + s.closing + s.gone
  }

  /** Every permit is accounted for, and idle connections and active users share the slots. */
  predicate Bounded(config: Config, s: State) {
    && s.free + s.looking + Active(s) + s.leaving == Slots(config)
    && |s.idle| + Active(s) <= Slots(config)
  }

  /** Every connection ever minted is in exactly one place, and no two are the same. */
  predicate Conserved(s: State) {
    Everywhere(s) == multiset(s.born) && Numbered(s.born)
  }

  predicate Numbered(born: seq<Conn>) {
    forall i :: 0 <= i < |born| ==> born[i].id == i
  }

  lemma StepBounded(config: Config, s: State, step: Step)
    requires Bounded(config, s) && Enabled(s, step)
    ensures Bounded(config, Apply(config, s, step))
  {
    hide Bounded, Enabled, Apply;
    match step
    case Probed(_, _) => ProbeBounded(config, s, step);
    case ProbeCancelled(_) => ProbeBounded(config, s, step);
    case Detach(_) => HeldBounded(config, s, step);
    case Discard(_) => HeldBounded(config, s, step);
    case Keep(c) => KeepBounded(config, s, c);
    case Push(c) => PushBounded(config, s, c);
    case Look => LookBounded(config, s);
    case Minted => MintBounded(config, s, step);
    case MintFailed => MintBounded(config, s, step);
    case _ => FreeBounded(config, s, step);
  }

  lemma MintBounded(config: Config, s: State, step: Step)
    requires step.Minted? || step.MintFailed?
    requires Bounded(config, s) && Enabled(s, step)
    ensures Bounded(config, Apply(config, s, step))
  {
    hide Conns, Expired, Slots;
  }

  lemma LookBounded(config: Config, s: State)
    requires Bounded(config, s) && Enabled(s, Look)
    ensures Bounded(config, Apply(config, s, Look))
  {
    hide Conns, Expired, Slots;
  }

  lemma FreeBounded(config: Config, s: State, step: Step)
    requires step.Tick? || step.Acquire? || step.Release? || step.Close? || step.TakeIdle? || step.Closed?
    requires Bounded(config, s) && Enabled(s, step)
    ensures Bounded(config, Apply(config, s, step))
  {
    hide Conns, Expired, Slots;
  }

  lemma ProbeBounded(config: Config, s: State, step: Step)
    requires step.Probed? || step.ProbeCancelled?
    requires Bounded(config, s) && Enabled(s, step)
    ensures Bounded(config, Apply(config, s, step))
  {
    hide Conns, Expired, Slots;
  }

  lemma HeldBounded(config: Config, s: State, step: Step)
    requires step.Detach? || step.Discard?
    requires Bounded(config, s) && Enabled(s, step)
    ensures Bounded(config, Apply(config, s, step))
  {
    hide Conns, Expired, Slots;
  }

  lemma KeepBounded(config: Config, s: State, c: Conn)
    requires Bounded(config, s) && Enabled(s, Keep(c))
    ensures Bounded(config, Apply(config, s, Keep(c)))
  {
    hide Conns, Expired, Slots;
    assert Active(Apply(config, s, Keep(c))) == Active(s);
  }

  lemma PushBounded(config: Config, s: State, c: Conn)
    requires Bounded(config, s) && Enabled(s, Push(c))
    ensures Bounded(config, Apply(config, s, Push(c)))
  {
    hide Conns, Expired, Slots;
    assert Active(Apply(config, s, Push(c))) == Active(s) - 1;
  }

  /** How often `c` is somewhere. */
  function At(s: State, c: Conn): nat {
    Conns(s.idle)[c] + s.probing[c] + s.holding[c] + s.returning[c] + s.closing[c] + s.gone[c]
  }

  lemma StepConserved(config: Config, s: State, step: Step)
    requires Conserved(s) && Enabled(s, step)
    ensures Conserved(Apply(config, s, step))
  {
    hide Enabled, Apply, At, Everywhere;
    var s' := Apply(config, s, step);
    StepBorn(config, s, step);
    assert multiset(s'.born) == multiset(s.born) + if step.Minted? then multiset{Newborn(s)} else multiset{};
    forall c
      ensures Everywhere(s')[c] == multiset(s'.born)[c]
    {
      EverywhereAt(s, c);
      EverywhereAt(s', c);
      StepMoves(config, s, step, c);
    }
  }

  lemma EverywhereAt(s: State, c: Conn)
    ensures Everywhere(s)[c] == At(s, c)
  {
    hide Conns;
  }

  /** The connection a mint makes. */
  function Newborn(s: State): Conn {
    Conn(|s.born|, s.now)
  }

  /** A step moves a connection or leaves it where it is; only a mint makes one. */
  lemma StepMoves(config: Config, s: State, step: Step, c: Conn)
    requires Enabled(s, step)
    ensures At(Apply(config, s, step), c) == At(s, c) + if step.Minted? && c == Newborn(s) then 1 else 0
  {
    hide Enabled, Apply, At;
    match step
    case Look => LookMoves(config, s, c);
    case Push(pushed) => PushMoves(config, s, pushed, c);
    case TakeIdle => TakeMoves(config, s, c);
    case Probed(_, _) => ProbeMoves(config, s, step, c);
    case ProbeCancelled(_) => ProbeMoves(config, s, step, c);
    case Detach(_) => HeldMoves(config, s, step, c);
    case Discard(_) => HeldMoves(config, s, step, c);
    case Keep(_) => HeldMoves(config, s, step, c);
    case Closed(_) => HeldMoves(config, s, step, c);
    case _ => OtherMoves(config, s, step, c);
  }

  lemma LookMoves(config: Config, s: State, c: Conn)
    requires Enabled(s, Look)
    ensures At(Apply(config, s, Look), c) == At(s, c)
  {
    hide Conns, Expired;
    if s.idle != [] {
      ConnsSplit(s.idle, c);
    }
  }

  lemma PushMoves(config: Config, s: State, pushed: Conn, c: Conn)
    requires Enabled(s, Push(pushed))
    ensures At(Apply(config, s, Push(pushed)), c) == At(s, c)
  {
    hide Conns, Expired;
    var idle := s.idle + [Entry(pushed, s.now)];
    ConnsSplit(idle, c);
    assert idle[..|idle| - 1] == s.idle;
  }

  lemma TakeMoves(config: Config, s: State, c: Conn)
    requires Enabled(s, TakeIdle)
    ensures At(Apply(config, s, TakeIdle), c) == At(s, c)
  {
    assert Conns([]) == multiset{};
    hide Expired;
  }

  lemma ProbeMoves(config: Config, s: State, step: Step, c: Conn)
    requires Enabled(s, step) && (step.Probed? || step.ProbeCancelled?)
    ensures At(Apply(config, s, step), c) == At(s, c)
  {
    hide Conns, Expired;
  }

  lemma HeldMoves(config: Config, s: State, step: Step, c: Conn)
    requires Enabled(s, step) && (step.Detach? || step.Discard? || step.Keep? || step.Closed?)
    ensures At(Apply(config, s, step), c) == At(s, c)
  {
    hide Conns, Expired;
  }

  lemma OtherMoves(config: Config, s: State, step: Step, c: Conn)
    requires Enabled(s, step)
    requires step.Tick? || step.Acquire? || step.Minted? || step.MintFailed? || step.Release? || step.Close?
    ensures At(Apply(config, s, step), c) == At(s, c) + if step.Minted? && c == Newborn(s) then 1 else 0
  {
    hide Conns, Expired;
  }

  lemma StepBorn(config: Config, s: State, step: Step)
    requires Enabled(s, step)
    ensures Apply(config, s, step).born == if step.Minted? then s.born + [Newborn(s)] else s.born
  {
    hide Conns, Expired;
  }

  lemma ConnsSplit(idle: seq<Entry>, c: Conn)
    requires idle != []
    ensures Conns(idle)[c] == Conns(idle[..|idle| - 1])[c] + if idle[|idle| - 1].conn == c then 1 else 0
  {
  }

  // ---- runs ----

  /** Where a run gets to, if each of its steps is enabled when it comes. */
  function Run(config: Config, s: State, steps: seq<Step>): Option<State>
    decreases |steps|
  {
    if steps == [] then Some(s)
    else if Enabled(s, steps[0]) then Run(config, Apply(config, s, steps[0]), steps[1..])
    else None
  }

  /**
   * At every point of every run: idle connections together with the users that probe, mint or
   * hold one never exceed the slots; every connection is in one place; and no more mints have
   * been started than there are slots, failed mints, and connections that left.
   */
  lemma {:induction false} EveryRun(config: Config, steps: seq<Step>)
    requires Run(config, Start(config), steps).Some?
    ensures var s, slots := Run(config, Start(config), steps).value, if config.maxSize == 0 then 1 else config.maxSize;
      && |s.idle| + Active(s) <= slots
      && Conserved(s)
      && MintsStarted(s) == s.minting + s.failedMints + |s.idle| + |s.probing| + |s.holding| + |s.returning|
                            + |s.closing| + |s.gone|
      && MintsStarted(s) <= slots + s.failedMints + |s.closing| + |s.gone|
  {
    assert Conserved(Start(config));
    RunKeeps(config, Start(config), steps);
    var s := Run(config, Start(config), steps).value;
    ConnsCount(s.idle);
    assert |multiset(s.born)| == |s.born|;
  }

  function MintsStarted(s: State): nat {
    |s.born| + s.minting + s.failedMints
  }

  lemma {:induction false} RunKeeps(config: Config, s: State, steps: seq<Step>)
    requires Bounded(config, s) && Conserved(s) && Run(config, s, steps).Some?
    ensures Bounded(config, Run(config, s, steps).value) && Conserved(Run(config, s, steps).value)
    decreases |steps|
  {
    hide Bounded, Conserved, Apply, Enabled;
    if steps != [] {
      StepBounded(config, s, steps[0]);
      StepConserved(config, s, steps[0]);
      RunKeeps(config, Apply(config, s, steps[0]), steps[1..]);
    }
  }

  /** A connection is in one place only: none is ever held twice, or held and idle. */
  lemma OnePlace(s: State, c: Conn)
    requires Conserved(s)
    ensures Everywhere(s)[c] <= 1
    ensures Everywhere(s)[c] == 1 <==> c in s.born
  {
    NoDuplicates(s.born, c);
  }

  lemma {:induction false} NoDuplicates(born: seq<Conn>, c: Conn)
    requires Numbered(born)
    ensures multiset(born)[c] == if c in born then 1 else 0
  {
    if born != [] {
      var n := |born| - 1;
      assert born == born[..n] + [born[n]];
      NoDuplicates(born[..n], c);
    }
  }

  // ---- closing ----

  lemma ClosedStep(config: Config, s: State, step: Step)
    requires s.closed && Enabled(s, step)
    ensures var s' := Apply(config, s, step);
      s'.closed && |s'.idle| + |s'.returning| <= |s.idle| + |s.returning| && !step.Acquire? && !step.Keep?
  {
    hide Conns, Expired;
  }

  /**
   * After the idle connections of a closed pool have been taken, no step adds to those that are
   * idle or on their way back, and no permit is handed out.
   */
  lemma {:induction false} ClosedRun(config: Config, s: State, steps: seq<Step>)
    requires s.closed && Run(config, s, steps).Some?
    ensures var s' := Run(config, s, steps).value;
      s'.closed && |s'.idle| + |s'.returning| <= |s.idle| + |s.returning| && Acquire !in steps
    decreases |steps|
  {
    hide Apply, Enabled;
    if steps != [] {
      ClosedStep(config, s, steps[0]);
      ClosedRun(config, Apply(config, s, steps[0]), steps[1..]);
    }
  }

  /**
   * Once a closed pool has no idle connection, it stays so exactly if nobody is between the
   * check that the pool is open and the return of a connection.
   */
  lemma StaysEmpty(config: Config, s: State)
    requires s.closed && s.idle == []
    ensures s.returning == multiset{} <==> forall steps :: EmptyAfter(config, s, steps)
  {
    if s.returning == multiset{} {
      assert |s.returning| == 0;
      forall steps
        ensures EmptyAfter(config, s, steps)
      {
        if Run(config, s, steps).Some? {
          ClosedRun(config, s, steps);
        }
      }
    } else {
      var c :| c in s.returning;
      var steps := [Push(c)];
      assert Run(config, Apply(config, s, Push(c)), []) == Some(Apply(config, s, Push(c)));
      assert steps[1..] == [] && !EmptyAfter(config, s, steps);
    }
  }

  /** If the run is possible, it leaves no connection idle. */
  predicate EmptyAfter(config: Config, s: State, steps: seq<Step>) {
    Run(config, s, steps).Some? ==> Run(config, s, steps).value.idle == []
  }
}
