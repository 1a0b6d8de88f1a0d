/**
 * The pool of a cluster: a routing table, a pool for each server, and a cursor for each role
 * that picks the server a checkout starts with. What a router or a server's pool answers is
 * open. Operations are modelled one at a time.
 */
module Routed {
  import opened Message
  import opened Division

  type Address = string

  datatype Role = Reader | Writer

  /** Machine words are taken modulo this. */
  const WORD := 0x1_0000_0000_0000_0000

  /** No list is longer than a word can count. */
  type Servers = s: seq<Address> | |s| < WORD

  datatype Table = Table(ttlSeconds: int, routers: Servers, readers: Servers, writers: Servers) {
    function Servers(role: Role): Servers {
      if role.Reader? then readers else writers
    }

    /** The table without a server. */
    function Remove(addr: Address): Table {
      Table(ttlSeconds, Without(routers, addr), Without(readers, addr), Without(writers, addr))
    }
  }

  function Without(addrs: seq<Address>, addr: Address): (r: seq<Address>)
    ensures |r| <= |addrs| && addr !in r
    ensures forall a :: a in r <==> a in addrs && a != addr
  {
    if addrs == [] then []
    else (if addrs[0] == addr then [] else [addrs[0]]) + Without(addrs[1..], addr)
  }

  /** The order of the others stays. */
  lemma {:induction false} WithoutBoth(a: seq<Address>, b: seq<Address>, addr: Address)
    ensures Without(a + b, addr) == Without(a, addr) + Without(b, addr)
  {
    if a == [] {
      assert a + b == b;
    } else {
      var first := if a[0] == addr then [] else [a[0]];
      assert (a + b)[1..] == a[1..] + b;
      WithoutBoth(a[1..], b, addr);
      assert Without(a + b, addr) == first + Without(a[1..] + b, addr);
      assert Without(a, addr) == first + Without(a[1..], addr);
    }
  }

  lemma {:induction false} WithoutNone(a: seq<Address>, addr: Address)
    requires addr !in a
    ensures Without(a, addr) == a
  {
    if a != [] {
      WithoutNone(a[1..], addr);
      assert a == [a[0]] + a[1..];
    }
  }

  // ---- round robin ----

  /** The index the `i`-th try of a lap over `n` servers goes to. */
  function Turn(start: nat, i: nat, n: nat): (j: nat)
    requires n > 0
    ensures j < n
  {
    (start + i) % WORD % n
  }

  /** The lap tries each of the `n` servers exactly once. */
  ghost predicate FairLap(start: nat, n: nat)
    requires n > 0
  {
    && (forall i, k :: 0 <= i < k < n ==> Turn(start, i, n) != Turn(start, k, n))
    && (forall j :: 0 <= j < n ==> Visits(start, n, j))
  }

  ghost predicate Visits(start: nat, n: nat, j: nat)
    requires n > 0
  {
    exists i :: 0 <= i < n && Turn(start, i, n) == j
  }

  /** No word overflows in the lap, or overflowing does not matter. */
  predicate Unwrapped(start: nat, n: nat)
    requires n > 0
  {
    start + n <= WORD || WORD % n == 0
  }

  /** A lap is fair exactly if the cursor does not wrap within it, or `n` divides 2^64. */
  lemma LapIsFair(start: nat, n: nat)
    requires 0 < n <= WORD && start < WORD
    ensures FairLap(start, n) <==> Unwrapped(start, n)
    ensures Unwrapped(start, n) <==>
      start + n <= 18_446_744_073_709_551_616 || 18_446_744_073_709_551_616 % n == 0
  {
    if Unwrapped(start, n) {
      forall i, k | 0 <= i < k < n
        ensures Turn(start, i, n) != Turn(start, k, n)
      {
        TurnUnwrapped(start, i, n);
        TurnUnwrapped(start, k, n);
        TurnsDiffer(start, i, k, n);
      }
      forall j | 0 <= j < n
        ensures Visits(start, n, j)
      {
        var i := TurnTo(start, j, n);
        TurnUnwrapped(start, i, n);
      }
    } else {
      var i, k := TurnsCollide(start, n);
    }
  }

  lemma TurnUnwrapped(start: nat, i: nat, n: nat)
    requires i < n <= WORD && start < WORD && Unwrapped(start, n)
    ensures Turn(start, i, n) == (start + i) % n
  {
    if start + i >= WORD {
      var x := start + i - WORD;
      Split(WORD, n);
      Split(x, n);
      assert start + i == (WORD / n + x / n) * n + x % n;
      Rest(WORD / n + x / n, n, x % n);
    }
  }

  lemma TurnsDiffer(start: nat, i: nat, k: nat, n: nat)
    requires i < k < n
    ensures (start + i) % n != (start + k) % n
  {
    var r := (start + i) % n;
    var q := (start + i) / n;
    Split(start + i, n);
    if r + (k - i) < n {
      Rest(q, n, r + (k - i));
    } else {
      assert start + k == (q + 1) * n + (r + (k - i) - n);
      Rest(q + 1, n, r + (k - i) - n);
    }
  }

  lemma TurnTo(start: nat, j: nat, n: nat) returns (i: nat)
    requires j < n
    ensures i < n && (start + i) % n == j
  {
    var r := start % n;
    var q := start / n;
    Split(start, n);
    if j >= r {
      i := j - r;
      Rest(q, n, j);
    } else {
      i := j + n - r;
      assert start + i == (q + 1) * n + j;
      Rest(q + 1, n, j);
    }
  }

  /** When the cursor wraps and `n` does not divide the word, a server is tried twice. */
  lemma TurnsCollide(start: nat, n: nat) returns (i: nat, k: nat)
    requires 0 < n <= WORD && start < WORD && !Unwrapped(start, n)
    ensures i < k < n && Turn(start, i, n) == Turn(start, k, n)
  {
    var x, y;
    i, k, x, y := Collision(WORD, start, n);
    TurnAt(start, i, n, x);
    TurnAt(start, k, n, y);
  }

  /** Words `x` before the wrap and `y` after it that leave the same rest. */
  lemma Collision(word: nat, start: nat, n: nat) returns (i: nat, k: nat, x: nat, y: nat)
    requires 0 < n <= word && start < word < start + n && word % n != 0
    ensures i < k < n && start + i == x < word && start + k == y + word && y < word
    ensures x % n == y % n
  {
    var q, r, left := word / n, word % n, word - start;
    Split(word, n);
    if r <= left {
      i, k, x, y := left - r, left, word - r, 0;
      Rest(q, n, 0);
    } else {
      i, k, x, y := 0, r, start, r - left;
      assert start == q * n + (r - left);
      Rest(q, n, r - left);
      Rest(0, n, r - left);
    }
  }

  /** Then, too, a server is not tried at all. */
  lemma TurnMissed(start: nat, n: nat) returns (j: nat)
    requires 0 < n <= WORD && start < WORD && !Unwrapped(start, n)
    ensures j < n && forall i :: 0 <= i < n ==> Turn(start, i, n) != j
  {
    var r, left := WORD % n, WORD - start;
    j := if r >= left then n - 1 else if r >= n - left then r else n - left;
    forall i | 0 <= i < n
      ensures Turn(start, i, n) != j
    {
      if start + i < WORD {
        RestBefore(WORD, n, left - i);
      } else {
        Rest(0, n, i - left);
      }
    }
  }

  /** The rest of the number that is `d` less than `word`. */
  lemma RestBefore(word: nat, n: nat, d: nat)
    requires 0 < n <= word && 0 < d < n
    ensures (word - d) % n == if word % n >= d then word % n - d else n + word % n - d
  {
    var q, r := word / n, word % n;
    Split(word, n);
    if r >= d {
      Rest(q, n, r - d);
    } else {
      assert word - d == (q - 1) * n + (n + r - d);
      Rest(q - 1, n, n + r - d);
    }
  }

  lemma TurnAt(start: nat, i: nat, n: nat, x: nat)
    requires n > 0 && x < WORD && (start + i == x || start + i == x + WORD)
    ensures Turn(start, i, n) == x % n
  {
  }

  /** How many of `m` consecutive cursor values make a checkout start at index `j` of `n`. */
  function Starts(cursor: nat, m: nat, n: nat, j: nat): nat
    requires n > 0
    decreases m
  {
    if m == 0 then 0 else (if Turn(cursor, 0, n) == j then 1 else 0) + Starts(cursor + 1, m - 1, n, j)
  }

  /**
   * Any `n * k` consecutive checkouts start at each of `n` servers exactly `k` times, unless the
   * cursor wraps in between and `n` does not divide the word.
   */
  lemma {:induction false} StartsEvenly(cursor: nat, n: nat, k: nat, j: nat)
    requires j < n <= WORD && (cursor + n * k <= WORD || WORD % n == 0)
    ensures Starts(cursor, n * k, n, j) == k
  {
    StartsIn(cursor, n * k, n, k, j);
  }

  lemma {:induction false} StartsIn(cursor: nat, m: nat, n: nat, k: nat, j: nat)
    requires j < n <= WORD && m == n * k && (cursor + m <= WORD || WORD % n == 0)
    ensures Starts(cursor, m, n, j) == k
    decreases k
  {
    hide Turn;
    if k == 0 {
    } else {
      OneLess(n, k);
      StartsSplit(cursor, n, m - n, n, j);
      var t := TurnTo(cursor, j, n);
      StartsInWindow(cursor, n, n, j, t);
      StartsIn(cursor + n, m - n, n, k - 1, j);
    }
  }

  /**
   * The exact condition for checkouts that do not go round the word: they start at each server
   * `k` times if and only if the cursor does not wrap in between, or that does not matter to the
   * number of servers, or a multiple of that number of checkouts comes after it.
   */
  lemma StartsEvenlyExactly(cursor: nat, n: nat, k: nat)
    requires 0 < n && 0 < k && cursor < WORD && n * k <= WORD
    ensures (forall j :: 0 <= j < n ==> Starts(cursor, n * k, n, j) == k)
       <==> cursor + n * k <= WORD || WORD % n == 0 || (cursor + n * k - WORD) % n == 0
  {
    Multiple(k, n);
    if cursor + n * k <= WORD || WORD % n == 0 {
      forall j | 0 <= j < n
        ensures Starts(cursor, n * k, n, j) == k
      {
        StartsEvenly(cursor, n, k, j);
      }
    } else {
      StartsEvenlyAcross(cursor, n * k, n, k);
    }
  }

  lemma StartsEvenlyAcross(cursor: nat, m: nat, n: nat, k: nat)
    requires 0 < n <= WORD && cursor < WORD < cursor + m && m == n * k <= WORD && WORD % n != 0
    ensures (forall j :: 0 <= j < n ==> Starts(cursor, m, n, j) == k) <==> (cursor + m - WORD) % n == 0
  {
    hide Starts;
    var a, e := Parts(WORD - cursor, n);
    var b, s := Parts(cursor + m - WORD, n);
    Shares(m, n, k, a, e, b, s);
    StartsShared(cursor, m, n, k, a, e, b, s);
  }

  lemma StartsShared(cursor: nat, m: nat, n: nat, k: nat, a: nat, e: nat, b: nat, s: nat)
    requires 0 < n <= WORD && s < n && e < n && WORD % n != 0
    requires m == a * n + e + (b * n + s) && cursor + (a * n + e) == WORD && b * n + s <= WORD
    requires if s == 0 then e == 0 && a + b == k else e == n - s && a + b + 1 == k
    ensures (forall j :: 0 <= j < n ==> Starts(cursor, m, n, j) == k) <==> s == 0
  {
    hide Starts;
    if s == 0 {
      forall j | 0 <= j < n
        ensures Starts(cursor, m, n, j) == k
      {
        var t := TurnTo(WORD, j, n);
        StartsAcross(cursor, m, n, a, e, b, s, j, t);
      }
    } else {
      var j := StartsUnevenly(cursor, m, n, a, e, b, s);
    }
  }

  /** A server that checkouts start at once too often or once too seldom. */
  lemma StartsUnevenly(cursor: nat, m: nat, n: nat, a: nat, e: nat, b: nat, s: nat) returns (j: nat)
    requires 0 < s < n <= WORD && e == n - s && WORD % n != 0
    requires m == a * n + e + (b * n + s) && cursor + (a * n + e) == WORD && b * n + s <= WORD
    ensures j < n && Starts(cursor, m, n, j) != a + b + 1
  {
    hide Starts;
    var r := WORD % n;
    if r <= s {
      j := r - 1;
      RestBefore(WORD, n, 1);
      StartsAcross(cursor, m, n, a, e, b, s, j, e - 1);
    } else {
      j := r;
      StartsAcross(cursor, m, n, a, e, b, s, j, e);
    }
  }

  /** What the two parts of `n * k` values leave over makes up one more lap, or nothing. */
  lemma Shares(m: nat, n: nat, k: nat, a: nat, e: nat, b: nat, s: nat)
    requires e < n && s < n && a * n + e + (b * n + s) == m == n * k
    ensures if s == 0 then e == 0 && a + b == k else e == n - s && a + b + 1 == k
  {
    Quotient(m, n, k);
    if e + s < n {
      assert (a + b) * n + (e + s) == m;
      Quotient(m, n, a + b);
    } else {
      assert (a + b + 1) * n + (e + s - n) == m;
      Quotient(m, n, a + b + 1);
    }
  }

  /** How often index `j` comes up in `a` laps and `e` values up to the wrap, and `b` laps and `s` values after it. */
  lemma StartsAcross(cursor: nat, m: nat, n: nat, a: nat, e: nat, b: nat, s: nat, j: nat, t: nat)
    requires j < n <= WORD && e < n && s < n && t < n && (WORD - e + t) % n == j
    requires m == a * n + e + (b * n + s) && cursor + (a * n + e) == WORD && b * n + s <= WORD
    ensures Starts(cursor, m, n, j) == a + b + (if t < e then 1 else 0) + if j < s then 1 else 0
  {
    hide *;
    var before, after := a * n + e, b * n + s;
    StartsUpTo(cursor, n, a, e, j, t);
    StartsFrom(n, b, s, j);
    assert m == before + after && cursor + before == WORD;
    StartsSplit(cursor, before, after, n, j);
  }

  lemma StartsUpTo(cursor: nat, n: nat, a: nat, e: nat, j: nat, t: nat)
    requires j < n <= WORD && e < n && t < n && (WORD - e + t) % n == j && cursor + (a * n + e) == WORD
    ensures Starts(cursor, a * n + e, n, j) == a + if t < e then 1 else 0
  {
    hide Starts;
    StartsSplit(cursor, a * n, e, n, j);
    StartsIn(cursor, a * n, n, a, j);
    StartsInWindow(WORD - e, e, n, j, t);
  }

  lemma StartsFrom(n: nat, b: nat, s: nat, j: nat)
    requires j < n <= WORD && s < n && b * n + s <= WORD
    ensures Starts(WORD, b * n + s, n, j) == b + if j < s then 1 else 0
  {
    hide Starts;
    StartsAgain(0, b * n + s, n, j);
    StartsSplit(0, b * n, s, n, j);
    StartsIn(0, b * n, n, b, j);
    Rest(b, n, j);
    StartsInWindow(b * n, s, n, j, j);
  }

  /** A word later everything is the same. */
  lemma {:induction false} StartsAgain(cursor: nat, m: nat, n: nat, j: nat)
    requires n > 0
    ensures Starts(cursor + WORD, m, n, j) == Starts(cursor, m, n, j)
    decreases m
  {
    hide Turn;
    if m > 0 {
      TurnAgain(cursor, n);
      assert cursor + WORD + 1 == cursor + 1 + WORD;
      StartsAgain(cursor + 1, m - 1, n, j);
    }
  }

  lemma TurnAgain(cursor: nat, n: nat)
    requires n > 0
    ensures Turn(cursor + WORD, 0, n) == Turn(cursor, 0, n)
  {
    assert (cursor + WORD) % WORD == cursor % WORD;
  }

  lemma OneLess(n: nat, k: nat)
    requires k > 0
    ensures n * k - n == n * (k - 1) >= 0
  {
  }

  lemma {:induction false} StartsSplit(cursor: nat, a: nat, b: nat, n: nat, j: nat)
    requires n > 0
    ensures Starts(cursor, a + b, n, j) == Starts(cursor, a, n, j) + Starts(cursor + a, b, n, j)
    decreases a
  {
    if a > 0 {
      StartsSplit(cursor + 1, a - 1, b, n, j);
    }
  }

  /** No more than `n` values in a row: index `j` comes up once if its turn does. */
  lemma {:induction false} StartsInWindow(cursor: nat, m: nat, n: nat, j: nat, t: nat)
    requires m <= n <= WORD && t < n && (cursor + t) % n == j && (cursor + m <= WORD || WORD % n == 0)
    ensures Starts(cursor, m, n, j) == if t < m then 1 else 0
    decreases m
  {
    hide Turn;
    if m > 0 {
      FirstTurn(cursor, n);
      if t == 0 {
        FullTurn(cursor, n);
        assert cursor + 1 + (n - 1) == cursor + n;
        StartsInWindow(cursor + 1, m - 1, n, j, n - 1);
      } else {
        TurnsDiffer(cursor, 0, t, n);
        StartsInWindow(cursor + 1, m - 1, n, j, t - 1);
      }
    }
  }

  lemma FullTurn(cursor: nat, n: nat)
    requires n > 0
    ensures (cursor + n) % n == cursor % n
  {
    SameRest(cursor + n, n, 1, cursor, 1, n);
  }

  lemma FirstTurn(cursor: nat, n: nat)
    requires 0 < n <= WORD && (cursor < WORD || WORD % n == 0)
    ensures Turn(cursor, 0, n) == cursor % n
  {
    if cursor >= WORD {
      var x, laps, q := cursor % WORD, cursor / WORD, WORD / n;
      Split(WORD, n);
      Split(x, n);
      SameRest(cursor, WORD, laps, x, q, n);
    }
  }

  lemma SameRest(cursor: nat, word: nat, laps: nat, x: nat, q: nat, n: nat)
    requires n > 0 && cursor == laps * word + x && word == q * n
    ensures cursor % n == x % n
  {
    Split(x, n);
    assert cursor == (laps * q + x / n) * n + x % n;
    Rest(laps * q + x / n, n, x % n);
  }

  // ---- bookmarks ----

  const MAX_BOOKMARKS := 16

  /** A new bookmark goes last; beyond the limit the oldest go. */
  function Merge(bookmarks: seq<string>, bookmark: string): seq<string> {
    if bookmark in bookmarks then bookmarks
    else
      var all := bookmarks + [bookmark];
      if |all| > MAX_BOOKMARKS then all[|all| - MAX_BOOKMARKS..] else all
  }

  function MergeAll(bookmarks: seq<string>, commits: seq<string>): seq<string> {
    if commits == [] then bookmarks
    else Merge(MergeAll(bookmarks, commits[..|commits| - 1]), commits[|commits| - 1])
  }

  predicate Distinct(list: seq<string>) {
    forall i, j :: 0 <= i < j < |list| ==> list[i] != list[j]
  }

  /**
   * However many commits there were: no duplicates, not too many, nothing but what was there or
   * was committed, and the latest commit's bookmark is among them.
   */
  lemma {:induction false} BookmarksKept(bookmarks: seq<string>, commits: seq<string>)
    requires Distinct(bookmarks) && |bookmarks| <= 16
    ensures var merged := MergeAll(bookmarks, commits);
      && Distinct(merged) && |merged| <= 16
      && (forall b | b in merged :: b in bookmarks || b in commits)
      && (commits != [] ==> commits[|commits| - 1] in merged)
  {
    if commits != [] {
      BookmarksKept(bookmarks, commits[..|commits| - 1]);
      MergeKept(MergeAll(bookmarks, commits[..|commits| - 1]), commits[|commits| - 1]);
    }
  }

  lemma MergeKept(bookmarks: seq<string>, bookmark: string)
    requires Distinct(bookmarks) && |bookmarks| <= MAX_BOOKMARKS
    ensures var merged := Merge(bookmarks, bookmark);
      && Distinct(merged) && |merged| <= MAX_BOOKMARKS && bookmark in merged
      && (bookmark !in bookmarks ==> merged[|merged| - 1] == bookmark)
      && forall b | b in merged :: b in bookmarks || b == bookmark
  {
    var merged := Merge(bookmarks, bookmark);
    assert bookmark !in bookmarks ==> merged[|merged| - 1] == bookmark;
  }

  /** A bookmark outlives any fewer than 16 commits after its own. */
  lemma {:induction false} BookmarkSurvives(bookmarks: seq<string>, bookmark: string, commits: seq<string>)
    requires Distinct(bookmarks) && |bookmarks| <= 16 && |commits| < 16 && bookmark !in bookmarks
    ensures bookmark in MergeAll(Merge(bookmarks, bookmark), commits)
    ensures var merged := MergeAll(Merge(bookmarks, bookmark), commits);
      bookmark in merged[if |merged| > |commits| + 1 then |merged| - |commits| - 1 else 0..]
  {
    var first := Merge(bookmarks, bookmark);
    MergeKept(bookmarks, bookmark);
    if commits == [] {
      assert first[|first| - 1] == bookmark;
    } else {
      var before := commits[..|commits| - 1];
      BookmarkSurvives(bookmarks, bookmark, before);
      BookmarksKept(first, before);
      var merged := MergeAll(first, before);
      assert MergeAll(first, commits) == Merge(merged, commits[|commits| - 1]);
      var from := if |merged| > |commits| then |merged| - |commits| else 0;
      var i :| from <= i < |merged| && merged[i] == bookmark;
      SurvivesOne(merged, i, commits[|commits| - 1]);
    }
  }

  /** One merge moves an entry towards the front by at most one place, counted from the back. */
  lemma SurvivesOne(merged: seq<string>, i: nat, commit: string)
    requires i < |merged| <= MAX_BOOKMARKS && |merged| - i < MAX_BOOKMARKS
    ensures var after := Merge(merged, commit);
      exists k: nat :: k < |after| && after[k] == merged[i] && |after| - k <= |merged| - i + 1
  {
    var after := Merge(merged, commit);
    var k := |after| - (|merged| - i) - if commit in merged then 0 else 1;
    assert after[k] == merged[i];
  }

  // ---- whom the pool asked ----

  /** What was asked for; nobody could be reached; somebody was and refused; or cancelled. */
  datatype Reply<+T> = Got(value: T) | Down | Refused | Cancelled

  /** A router asked for its table, or a server's pool for a connection. */
  datatype Contact = Router(addr: Address, table: Reply<Table>) | Server(addr: Address, conn: Reply<()>)

  const NO_TABLE := Table(0, [], [], [])

  /** The table as the contacts leave it: the last one fetched, less the servers found down since. */
  function TableAfter(table: Table, contacts: seq<Contact>): Table {
    if contacts == [] then table
    else
      var before := TableAfter(table, contacts[..|contacts| - 1]);
      match contacts[|contacts| - 1]
      case Router(_, Got(fetched)) => fetched
      case Server(addr, Down) => before.Remove(addr)
      case _ => before
  }

  /** The servers there is a pool for: those tried and not found down since. */
  function PoolsAfter(pools: set<Address>, contacts: seq<Contact>): set<Address> {
    if contacts == [] then pools
    else
      var before := PoolsAfter(pools, contacts[..|contacts| - 1]);
      match contacts[|contacts| - 1]
      case Router(_, _) => before
      case Server(addr, Down) => before - {addr}
      case Server(addr, _) => before + {addr}
  }

  lemma AfterOne(table: Table, pools: set<Address>, contacts: seq<Contact>, c: Contact)
    ensures TableAfter(table, contacts + [c]) == TableAfter(TableAfter(table, contacts), [c])
    ensures PoolsAfter(pools, contacts + [c]) == PoolsAfter(PoolsAfter(pools, contacts), [c])
  {
    assert (contacts + [c])[..|contacts|] == contacts;
    assert [c][..0] == [];
  }

  lemma AfterServer(table: Table, pools: set<Address>, contacts: seq<Contact>, addr: Address, r: Reply<()>)
    ensures var before, after := TableAfter(table, contacts), TableAfter(table, contacts + [Server(addr, r)]);
      after == if r.Down? then before.Remove(addr) else before
    ensures var before, after := PoolsAfter(pools, contacts), PoolsAfter(pools, contacts + [Server(addr, r)]);
      after == if r.Down? then before - {addr} else before + {addr}
  {
    assert (contacts + [Server(addr, r)])[..|contacts|] == contacts;
  }

  lemma {:induction false} AfterBoth(table: Table, pools: set<Address>, a: seq<Contact>, b: seq<Contact>)
    ensures TableAfter(table, a + b) == TableAfter(TableAfter(table, a), b)
    ensures PoolsAfter(pools, a + b) == PoolsAfter(PoolsAfter(pools, a), b)
    decreases |b|
  {
    if b == [] {
      assert a + b == a;
    } else {
      var n := |b| - 1;
      AfterBoth(table, pools, a, b[..n]);
      assert b == b[..n] + [b[n]] && a + b == (a + b[..n]) + [b[n]];
      AfterOne(table, pools, a + b[..n], b[n]);
      AfterOne(TableAfter(table, a), PoolsAfter(pools, a), b[..n], b[n]);
    }
  }

  /** Routers asked in order until one answers, or none is left. */
  predicate Asked(contacts: seq<Contact>, candidates: seq<Address>, r: Reply<Table>) {
    && |contacts| <= |candidates|
    && (forall i :: 0 <= i < |contacts| ==> contacts[i].Router? && contacts[i].addr == candidates[i])
    && (forall i :: 0 <= i < |contacts| - 1 ==> contacts[i].table.Down? || contacts[i].table.Refused?)
    && match r
       case Down =>
         && |contacts| == |candidates|
         && forall i :: 0 <= i < |contacts| ==> contacts[i].table.Down? || contacts[i].table.Refused?
       case Refused => false
       case _ => contacts != [] && contacts[|contacts| - 1].table == r
  }

  /** Servers tried in order until one answers, or all are down. */
  predicate Tried(contacts: seq<Contact>, order: seq<Address>, r: Reply<Address>) {
    && |contacts| <= |order|
    && (forall i :: 0 <= i < |contacts| ==> contacts[i].Server? && contacts[i].addr == order[i])
    && (forall i :: 0 <= i < |contacts| - 1 ==> contacts[i].conn.Down?)
    && match r
       case Down => |contacts| == |order| && forall i :: 0 <= i < |contacts| ==> contacts[i].conn.Down?
       case Got(addr) => contacts != [] && contacts[|contacts| - 1].addr == addr && contacts[|contacts| - 1].conn.Got?
       case Refused => contacts != [] && contacts[|contacts| - 1].conn == Refused
       case Cancelled => contacts != [] && contacts[|contacts| - 1].conn == Cancelled
  }

  datatype Acquired = Checkout(addr: Address) | PoolClosed | NoTable | Unreachable | Denied | Stopped

  /** What a lap's end means for the checkout, which goes on if all servers are down. */
  function Outcome(r: Reply<Address>): Option<Acquired> {
    match r
    case Got(addr) => Some(Checkout(addr))
    case Refused => Some(Denied)
    case Cancelled => Some(Stopped)
    case Down => None
  }

  /** A lap over `addrs` that begins with the cursor at `start`; none if there are no servers. */
  ghost predicate LapTried(contacts: seq<Contact>, addrs: seq<Address>, start: nat, r: Option<Acquired>) {
    if addrs == [] then contacts == [] && r == None
    else exists reply :: Tried(contacts, LapOrder(addrs, start), reply) && r == Outcome(reply)
  }

  /**
   * One round of a checkout: if need be a table is fetched, and then there is a lap over the
   * servers of the role it lists.
   */
  ghost predicate RoundMade(
    contacts: seq<Contact>, table: Table, fetch: bool, seeds: seq<Address>, role: Role, start: nat, r: Option<Acquired>)
  {
    if !fetch then LapTried(contacts, table.Servers(role), start, r)
    else exists k: nat :: k <= |contacts| && FetchThenLap(contacts, k, table.routers + seeds, role, start, r)
  }

  ghost predicate FetchThenLap(
    contacts: seq<Contact>, k: nat, candidates: seq<Address>, role: Role, start: nat, r: Option<Acquired>)
    requires k <= |contacts|
  {
    || (r == Some(NoTable) && k == |contacts| && Asked(contacts, candidates, Down))
    || (r == Some(Stopped) && k == |contacts| && Asked(contacts, candidates, Cancelled))
    || (k > 0 && contacts[k - 1].Router? && contacts[k - 1].table.Got?
        && Asked(contacts[..k], candidates, contacts[k - 1].table)
        && LapTried(contacts[k..], contacts[k - 1].table.value.Servers(role), start, r))
  }

  /** The cursor after a round: a lap that was begun took one value. */
  function CursorAfter(start: nat, contacts: seq<Contact>): nat {
    if exists i :: 0 <= i < |contacts| && contacts[i].Server? then (start + 1) % WORD else start
  }

  /**
   * A whole checkout: one round, which fetches a table only if the old one is stale, and if that
   * finds nobody a second one, which always fetches.
   */
  ghost predicate TwoRounds(
    contacts: seq<Contact>, k: nat, table: Table, stale: bool, seeds: seq<Address>, role: Role, start: nat, r: Acquired)
    requires k <= |contacts|
  {
    var first, second := contacts[..k], contacts[k..];
    || (second == [] && RoundMade(first, table, stale, seeds, role, start, Some(r)))
    || (RoundMade(first, table, stale, seeds, role, start, None)
        && RoundMade(second, TableAfter(table, first), true, seeds, role, CursorAfter(start, first),
                 if r.Unreachable? then None else Some(r)))
  }

  // ---- the pool ----

  class RoutedPool {
    const seeds: seq<Address>
    var table: Table
    /** When the table was fetched, in seconds. */
    var fetchedAt: Option<nat>
    /** The servers there is a pool for. */
    var pools: set<Address>
    var readCursor: nat
    var writeCursor: nat
    var bookmarks: seq<string>
    var closed: bool
    var now: nat
    /** Everybody asked so far, with the answers. */
    ghost var contacts: seq<Contact>

    /** Table and pools are what the contacts left behind. */
    ghost predicate Valid()
      reads this
    {
      && readCursor < WORD && writeCursor < WORD && Distinct(bookmarks) && |bookmarks| <= MAX_BOOKMARKS
      && table == TableAfter(NO_TABLE, contacts) && pools == PoolsAfter({}, contacts)
      && (fetchedAt.Some? ==> fetchedAt.value <= now)
    }

    constructor (seeds: seq<Address>)
      ensures Valid() && this.seeds == seeds && contacts == [] && bookmarks == [] && !closed && fetchedAt == None
    {
      this.seeds := seeds;
      table, fetchedAt, pools := NO_TABLE, None, {};
      readCursor, writeCursor, bookmarks, closed, now := 0, 0, [], false, 0;
      contacts := [];
    }

    function Cursor(role: Role): nat
      reads this
    {
      if role.Reader? then readCursor else writeCursor
    }

    /** The bookmark of a commit joins those the next transaction must observe. */
    method Committed(bookmark: Option<string>)
      requires Valid()
      modifies this`bookmarks
      ensures Valid()
      ensures bookmarks == if bookmark.Some? then Merge(old(bookmarks), bookmark.value) else old(bookmarks)
    {
      if bookmark.Some? && bookmark.value !in bookmarks {
        MergeKept(bookmarks, bookmark.value);
        bookmarks := bookmarks + [bookmark.value];
        var excess := if |bookmarks| > MAX_BOOKMARKS then |bookmarks| - MAX_BOOKMARKS else 0;
        bookmarks := bookmarks[excess..];
      }
    }

    /** Asks a router for its table, which replaces the old one. */
    method RouteVia(addr: Address) returns (r: Reply<Table>)
      requires Valid()
      modifies this`table, this`fetchedAt, this`contacts
      ensures Valid() && contacts == old(contacts) + [Router(addr, r)]
      ensures if r.Got? then table == r.value && fetchedAt == Some(now)
              else table == old(table) && fetchedAt == old(fetchedAt)
    {
      r := Ask();
      AfterOne(NO_TABLE, {}, contacts, Router(addr, r));
      contacts := contacts + [Router(addr, r)];
      if r.Got? {
        table, fetchedAt := r.value, Some(now);
      }
    }

    /** Asks the known routers and then the seeds, in order, until one answers. */
    method Refresh() returns (r: Reply<Table>)
      requires Valid()
      modifies this`table, this`fetchedAt, this`contacts
      ensures Valid() && old(contacts) <= contacts
      ensures Asked(contacts[|old(contacts)|..], old(table.routers) + seeds, r)
      ensures if r.Got? then table == r.value && fetchedAt == Some(now)
              else table == old(table) && fetchedAt == old(fetchedAt)
    {
      hide TableAfter, PoolsAfter;
      var candidates := table.routers + seeds;
      ghost var asked: seq<Contact> := [];
      for i := 0 to |candidates|
        invariant Valid() && table == old(table) && fetchedAt == old(fetchedAt)
        invariant contacts == old(contacts) + asked && |asked| == i
        invariant forall k :: 0 <= k < i ==>
          asked[k].Router? && asked[k].addr == candidates[k] && (asked[k].table.Down? || asked[k].table.Refused?)
      {
        var answer := RouteVia(candidates[i]);
        asked := asked + [Router(candidates[i], answer)];
        assert contacts[|old(contacts)|..] == asked;
        if answer.Got? || answer.Cancelled? {
          return answer;
        }
      }
      assert contacts[|old(contacts)|..] == asked;
      r := Down;
    }

    /** Whether the table has never been fetched or has outlived its time to live. */
    predicate Stale()
      reads this
    {
      fetchedAt.None? || now - fetchedAt.value >= if table.ttlSeconds > 0 then table.ttlSeconds else 0
    }

    /** A table stays fresh for its time to live, in seconds from when it was fetched. */
    lemma FreshUntil()
      requires Valid()
      ensures !Stale() <==> fetchedAt.Some? && fetchedAt.value <= now < fetchedAt.value + table.ttlSeconds
    {
    }

    /** Nobody is asked unless the table is stale. */
    method EnsureFresh() returns (r: Reply<()>)
      requires Valid()
      modifies this`table, this`fetchedAt, this`contacts
      ensures Valid() && old(contacts) <= contacts
      ensures !old(Stale()) ==>
        r == Got(()) && contacts == old(contacts) && table == old(table) && fetchedAt == old(fetchedAt)
      ensures old(Stale()) ==>
        && Asked(contacts[|old(contacts)|..], old(table.routers) + seeds, Answer(r, table))
        && (r.Got? ==> fetchedAt == Some(now)) && (!r.Got? ==> table == old(table))
    {
      hide TableAfter, PoolsAfter, Asked;
      if Stale() {
        var fetched := Refresh();
        r := match fetched case Got(_) => Got(()) case Cancelled => Cancelled case _ => Down;
        NeverRefused(contacts[|old(contacts)|..], old(table.routers) + seeds, fetched);
      } else {
        r := Got(());
      }
    }

    /** Forgets a server: it is in no role, and has no pool. */
    method Evict(addr: Address)
      modifies this`table, this`pools
      ensures table == old(table).Remove(addr) && pools == old(pools) - {addr}
      ensures addr !in table.routers && addr !in table.readers && addr !in table.writers
      ensures forall other | other != addr ::
        && (other in table.routers <==> other in old(table.routers))
        && (other in table.readers <==> other in old(table.readers))
        && (other in table.writers <==> other in old(table.writers))
    {
      table := table.Remove(addr);
      pools := pools - {addr};
    }

    /** Takes the next value of the role's cursor. */
    method Advance(role: Role) returns (start: nat)
      requires Valid()
      modifies this`readCursor, this`writeCursor
      ensures Valid() && start == old(Cursor(role)) && Cursor(role) == (start + 1) % WORD
      ensures forall other | other != role :: Cursor(other) == old(Cursor(other))
    {
      if role.Reader? {
        start := readCursor;
        readCursor := (readCursor + 1) % WORD;
      } else {
        start := writeCursor;
        writeCursor := (writeCursor + 1) % WORD;
      }
    }

    /** Asks a server's pool, which is made if there is none, and evicts the server if it is down. */
    method Try(addr: Address) returns (r: Reply<()>)
      requires Valid()
      modifies this`table, this`pools, this`contacts
      ensures Valid() && contacts == old(contacts) + [Server(addr, r)] && (!r.Down? ==> addr in pools)
    {
      hide TableAfter, PoolsAfter, Distinct;
      pools := pools + {addr};
      r := Ask();
      AfterServer(NO_TABLE, {}, contacts, addr, r);
      contacts := contacts + [Server(addr, r)];
      if r.Down? {
        assert old(pools) + {addr} - {addr} == old(pools) - {addr};
        Evict(addr);
      }
    }

    /** One lap over the servers of a role, as they were when it began. */
    method Lap(role: Role, start: nat) returns (r: Reply<Address>)
      requires Valid() && start < WORD && table.Servers(role) != []
      modifies this`table, this`pools, this`contacts
      ensures Valid() && old(contacts) <= contacts
      ensures Tried(contacts[|old(contacts)|..], LapOrder(old(table.Servers(role)), start), r)
      ensures r.Got? ==> r.value in pools
    {
      hide TableAfter, PoolsAfter, LapOrder, Tried, Turn, Distinct;
      var addrs := table.Servers(role);
      ghost var order := LapOrder(addrs, start);
      ghost var tried: seq<Contact> := [];
      for i := 0 to |addrs|
        invariant Valid() && contacts == old(contacts) + tried && |tried| == i
        invariant forall k :: 0 <= k < i ==> tried[k] == Server(order[k], Down)
      {
        var addr := addrs[Turn(start, i, |addrs|)];
        InOrder(addrs, start, i);
        var answer := Try(addr);
        tried := tried + [Server(addr, answer)];
        assert contacts[|old(contacts)|..] == tried;
        TriedUpTo(tried, order, i);
        match answer {
          case Got(_) => return Got(addr);
          case Refused => return Refused;
          case Cancelled => return Cancelled;
          case Down =>
        }
      }
      assert contacts[|old(contacts)|..] == tried;
      TriedAll(tried, order);
      r := Down;
    }

    /** Fetches a table if need be, and tries the servers of the role; `None` if nobody answers. */
    method Round(role: Role, fetch: bool) returns (r: Option<Acquired>)
      requires Valid()
      modifies this`table, this`fetchedAt, this`pools, this`readCursor, this`writeCursor, this`contacts
      ensures Valid() && old(contacts) <= contacts
      ensures RoundMade(
        contacts[|old(contacts)|..], old(table), fetch || old(Stale()), seeds, role, old(Cursor(role)), r)
      ensures Cursor(role) == CursorAfter(old(Cursor(role)), contacts[|old(contacts)|..])
      ensures r == None && fetch ==> fetchedAt == Some(now)
      ensures r.Some? ==> !r.value.Unreachable? && !r.value.PoolClosed? && (r.value.Checkout? ==> r.value.addr in pools)
    {
      hide TableAfter, PoolsAfter, Distinct, Asked, Tried, RoundMade, LapTried, CursorAfter;
      ghost var was, table0, must, start := contacts, table, fetch || Stale(), Cursor(role);
      var current: Reply<()>;
      if fetch {
        var fetched := Refresh();
        NeverRefused(contacts[|was|..], table0.routers + seeds, fetched);
        current := match fetched case Got(_) => Got(()) case Cancelled => Cancelled case _ => Down;
      } else {
        current := EnsureFresh();
      }
      ghost var asked, between := contacts[|was|..], contacts;
      if current.Cancelled? {
        RoundFails(asked, table0, seeds, role, start, Cancelled);
        return Some(Stopped);
      }
      if !current.Got? {
        if current.Refused? {
          NeverRefused(asked, table0.routers + seeds, Refused);
        }
        RoundFails(asked, table0, seeds, role, start, Down);
        return Some(NoTable);
      }
      if table.Servers(role) == [] {
        NoLap([], start);
        assert asked + [] == asked;
        RoundLaps(asked, [], table0, must, table, seeds, role, start, None);
        return None;
      }
      ghost var table1 := table;
      var first := Advance(role);
      var reply := Lap(role, first);
      ghost var tried := contacts[|between|..];
      OneLap(tried, table1.Servers(role), start, reply);
      assert contacts[|was|..] == asked + tried;
      r := Outcome(reply);
      RoundLaps(asked, tried, table0, must, table1, seeds, role, start, r);
    }

    /**
     * A server of the role to check out from. Whom a checkout asks, in which order and with what
     * result is exactly `TwoRounds`: in particular only servers that the table of the moment lists
     * for the role. If nobody can be reached, no server that was tried has a pool left, and
     * `LastLapLeft` says when the role is left without servers.
     */
    method Acquire(role: Role) returns (r: Acquired)
      requires Valid()
      modifies this
      ensures Valid() && old(contacts) <= contacts && bookmarks == old(bookmarks) && closed == old(closed)
      ensures old(closed) <==> r.PoolClosed?
      ensures old(closed) ==> contacts == old(contacts)
      ensures !old(closed) ==>
        Made(contacts[|old(contacts)|..], old(table), old(Stale()), seeds, role, old(Cursor(role)), r)
      ensures FromRole(contacts[|old(contacts)|..], old(table), role, r)
      ensures r.Checkout? ==> r.addr in pools
      ensures r.Unreachable? ==> fetchedAt == Some(now)
      ensures r.Unreachable? ==> forall c | c in contacts[|old(contacts)|..] && c.Server? :: c.addr !in pools
      ensures r.Unreachable? ==> LastLapLeft(contacts[|old(contacts)|..], role, Cursor(role), table.Servers(role))
    {
      hide TableAfter, PoolsAfter, Distinct, RoundMade, CursorAfter, LastLapLeft, FromRole, Made,
        LapTried, TwoRounds, LastTable;
      if closed {
        NobodyAsked(contacts, table, role);
        return PoolClosed;
      }
      ghost var was, table0, pools0, start := contacts, table, pools, Cursor(role);
      ghost var first, second: seq<Contact> := [], [];
      for lap := 0 to 2
        invariant Valid() && !closed && bookmarks == old(bookmarks)
        invariant contacts == was + first + second && (lap < 2 ==> second == []) && (lap < 1 ==> first == [])
        invariant lap == 0 ==> table == table0 && pools == pools0 && Cursor(role) == start && Stale() == old(Stale())
        invariant lap > 0 ==> RoundMade(first, table0, old(Stale()), seeds, role, start, None)
        invariant lap == 1 ==> table == TableAfter(table0, first) && pools == PoolsAfter(pools0, first)
        invariant lap == 1 ==> Cursor(role) == CursorAfter(start, first) < WORD
        invariant lap == 2 ==>
          && RoundMade(second, TableAfter(table0, first), true, seeds, role, CursorAfter(start, first), None)
          && table == TableAfter(TableAfter(table0, first), second)
          && pools == PoolsAfter(PoolsAfter(pools0, first), second)
          && CursorAfter(start, first) < WORD && Cursor(role) == CursorAfter(CursorAfter(start, first), second)
          && fetchedAt == Some(now)
      {
        ghost var before := contacts;
        var found := Round(role, lap > 0);
        ghost var made := contacts[|before|..];
        AfterBoth(NO_TABLE, {}, before, made);
        assert contacts == before + made;
        if lap == 0 {
          first := made;
          assert contacts == was + first + second && was + first == contacts;
        } else {
          second := made;
          assert contacts == was + first + second;
        }
        if found.Some? {
          assert contacts[|was|..] == first + second;
          EndsHere(first, second, table0, old(Stale()), seeds, role, start, found.value);
          MadeOfRole(contacts[|was|..], table0, old(Stale()), seeds, role, start, found.value);
          return found.value;
        }
      }
      assert contacts[|was|..] == first + second;
      GaveUp(first, second, table0, pools0, old(Stale()), seeds, role, start);
      MadeOfRole(contacts[|was|..], table0, old(Stale()), seeds, role, start, Unreachable);
      r := Unreachable;
    }
  }

  /** A whole checkout, wherever its first round ends. */
  ghost predicate Made(
    contacts: seq<Contact>, table: Table, stale: bool, seeds: seq<Address>, role: Role, start: nat, r: Acquired)
  {
    exists k: nat :: k <= |contacts| && TwoRounds(contacts, k, table, stale, seeds, role, start, r)
  }

  /** The servers asked since the last router. */
  function LastLap(contacts: seq<Contact>): seq<Contact> {
    if contacts == [] || contacts[|contacts| - 1].Router? then []
    else LastLap(contacts[..|contacts| - 1]) + [contacts[|contacts| - 1]]
  }

  function CursorBefore(cursor: nat): nat {
    (cursor + WORD - 1) % WORD
  }

  /**
   * After a checkout that reached nobody: the last lap was over the role of the table fetched
   * last, and all of it was down. Nobody is left in the role if the cursor did not wrap within
   * that lap, or it does not matter to the number of servers; and if that table had no server
   * twice in the role, then only so.
   */
  ghost predicate LastLapLeft(contacts: seq<Contact>, role: Role, cursor: nat, left: seq<Address>) {
    var tried := LastLap(contacts);
    && |tried| < |contacts|
    && var last := contacts[|contacts| - |tried| - 1];
    && last.Router? && last.table.Got?
    && var addrs := last.table.value.Servers(role);
    && LapLeft(tried, addrs, CursorBefore(cursor), left)
  }

  ghost predicate LapLeft(tried: seq<Contact>, addrs: seq<Address>, start: nat, left: seq<Address>) {
    && |tried| == |addrs| && (forall c | c in tried :: c.Server? && c.conn.Down?)
    && (forall a :: a in left <==> a in addrs && a !in Addrs(tried))
    && (addrs == [] || Unwrapped(start, |addrs|) ==> left == [])
    && (Distinct(addrs) && left == [] ==> addrs == [] || Unwrapped(start, |addrs|))
  }

  lemma {:induction false} LastLapIs(before: seq<Contact>, tried: seq<Contact>)
    requires before != [] && before[|before| - 1].Router? && forall c | c in tried :: c.Server?
    ensures LastLap(before + tried) == tried
    decreases |tried|
  {
    if tried == [] {
      assert before + tried == before;
    } else {
      var n := |tried| - 1;
      assert (before + tried)[..|before| + n] == before + tried[..n];
      assert tried[n] in tried;
      LastLapIs(before, tried[..n]);
    }
  }

  /** The table in force after some contacts: the last one fetched. */
  function LastTable(contacts: seq<Contact>, table: Table): Table {
    if contacts == [] then table
    else
      match contacts[|contacts| - 1]
      case Router(_, Got(fetched)) => fetched
      case _ => LastTable(contacts[..|contacts| - 1], table)
  }

  /** Whenever a server was tried, the table last fetched listed it as a reader. */
  ghost predicate OnlyReaders(contacts: seq<Contact>, table: Table) {
    forall i :: 0 <= i < |contacts| && contacts[i].Server? ==>
      contacts[i].addr in LastTable(contacts[..i], table).readers
  }

  ghost predicate OnlyWriters(contacts: seq<Contact>, table: Table) {
    forall i :: 0 <= i < |contacts| && contacts[i].Server? ==>
      contacts[i].addr in LastTable(contacts[..i], table).writers
  }

  ghost predicate OfRole(contacts: seq<Contact>, table: Table, role: Role) {
    forall i :: 0 <= i < |contacts| ==> Listed(contacts, i, table, role)
  }

  ghost predicate Listed(contacts: seq<Contact>, i: nat, table: Table, role: Role)
    requires i < |contacts|
  {
    contacts[i].Server? ==> contacts[i].addr in LastTable(contacts[..i], table).Servers(role)
  }

  /** Readers are asked for reading and writers for writing, and the last one asked is handed out. */
  ghost predicate FromRole(contacts: seq<Contact>, table: Table, role: Role, r: Acquired) {
    && (role == Reader ==> OnlyReaders(contacts, table))
    && (role == Writer ==> OnlyWriters(contacts, table))
    && (r.Checkout? ==>
          && contacts != [] && contacts[|contacts| - 1].Server? && contacts[|contacts| - 1].conn.Got?
          && contacts[|contacts| - 1].addr == r.addr)
  }

  lemma NobodyAsked(contacts: seq<Contact>, table: Table, role: Role)
    ensures FromRole(contacts[|contacts|..], table, role, PoolClosed)
  {
  }

  lemma MadeOfRole(
    contacts: seq<Contact>, table: Table, stale: bool, seeds: seq<Address>, role: Role, start: nat, r: Acquired)
    requires Made(contacts, table, stale, seeds, role, start, r)
    ensures FromRole(contacts, table, role, r)
  {
    hide RoundMade, TableAfter, CursorAfter, LastTable, OfRole, FromRole;
    var k: nat :| k <= |contacts| && TwoRounds(contacts, k, table, stale, seeds, role, start, r);
    var first, second := contacts[..k], contacts[k..];
    assert contacts == first + second;
    if second == [] && RoundMade(first, table, stale, seeds, role, start, Some(r)) {
      RoundOfRole(first, table, stale, seeds, role, start, Some(r), table);
      assert contacts == first;
    } else {
      var end := if r.Unreachable? then None else Some(r);
      RoundOfRole(first, table, stale, seeds, role, start, None, table);
      RoundOfRole(
        second, TableAfter(table, first), true, seeds, role, CursorAfter(start, first), end, LastTable(first, table));
      OfRoleBoth(first, second, table, role);
    }
    RoleMeans(contacts, table, role, r);
  }

  lemma RoleMeans(contacts: seq<Contact>, table: Table, role: Role, r: Acquired)
    requires OfRole(contacts, table, role)
    requires r.Checkout? ==>
      && contacts != [] && contacts[|contacts| - 1].Server? && contacts[|contacts| - 1].conn.Got?
      && contacts[|contacts| - 1].addr == r.addr
    ensures FromRole(contacts, table, role, r)
  {
    hide LastTable;
    forall i | 0 <= i < |contacts| && contacts[i].Server?
      ensures contacts[i].addr in LastTable(contacts[..i], table).Servers(role)
    {
      assert Listed(contacts, i, table, role);
    }
  }

  lemma OfRoleBoth(first: seq<Contact>, second: seq<Contact>, table: Table, role: Role)
    requires OfRole(first, table, role) && OfRole(second, LastTable(first, table), role)
    ensures OfRole(first + second, table, role)
  {
    hide Listed, LastTable;
    forall i | 0 <= i < |first + second|
      ensures Listed(first + second, i, table, role)
    {
      if i < |first| {
        ListedFirst(first, second, i, table, role);
      } else {
        assert Listed(second, i - |first|, LastTable(first, table), role);
        ListedSecond(first, second, i - |first|, table, role);
      }
    }
  }

  lemma ListedFirst(first: seq<Contact>, second: seq<Contact>, i: nat, table: Table, role: Role)
    requires i < |first| && Listed(first, i, table, role)
    ensures Listed(first + second, i, table, role)
  {
    assert (first + second)[..i] == first[..i];
  }

  lemma ListedSecond(first: seq<Contact>, second: seq<Contact>, k: nat, table: Table, role: Role)
    requires k < |second| && Listed(second, k, LastTable(first, table), role)
    ensures Listed(first + second, |first| + k, table, role)
  {
    hide LastTable;
    assert (first + second)[..|first| + k] == first + second[..k];
    LastTableBoth(first, second[..k], table);
  }

  lemma {:induction false} LastTableBoth(first: seq<Contact>, second: seq<Contact>, table: Table)
    ensures LastTable(first + second, table) == LastTable(second, LastTable(first, table))
    decreases |second|
  {
    if second == [] {
      assert first + second == first;
    } else {
      var n := |second| - 1;
      assert (first + second)[..|first| + n] == first + second[..n];
      LastTableBoth(first, second[..n], table);
    }
  }

  /** A round that fetches goes by what it fetched, whatever was in force before. */
  lemma RoundOfRole(
    contacts: seq<Contact>, table: Table, fetch: bool, seeds: seq<Address>, role: Role, start: nat,
    r: Option<Acquired>, before: Table)
    requires RoundMade(contacts, table, fetch, seeds, role, start, r) && (!fetch ==> before == table)
    ensures OfRole(contacts, before, role)
    ensures r.Some? && r.value.Checkout? ==>
      && contacts != [] && contacts[|contacts| - 1].Server? && contacts[|contacts| - 1].conn.Got?
      && contacts[|contacts| - 1].addr == r.value.addr
  {
    hide LapTried, LastTable, OfRole, FetchThenLap;
    if fetch {
      var k: nat :| k <= |contacts| && FetchThenLap(contacts, k, table.routers + seeds, role, start, r);
      FetchOfRole(contacts, k, table.routers + seeds, role, start, r, before);
    } else {
      LapOfRole(contacts, table, role, start, r);
    }
  }

  lemma FetchOfRole(
    contacts: seq<Contact>, k: nat, candidates: seq<Address>, role: Role, start: nat, r: Option<Acquired>,
    before: Table)
    requires k <= |contacts| && FetchThenLap(contacts, k, candidates, role, start, r)
    ensures OfRole(contacts, before, role)
    ensures r.Some? && r.value.Checkout? ==>
      && contacts != [] && contacts[|contacts| - 1].Server? && contacts[|contacts| - 1].conn.Got?
      && contacts[|contacts| - 1].addr == r.value.addr
  {
    hide LapTried, LastTable, OfRole;
    var asked, tried := contacts[..k], contacts[k..];
    assert contacts == asked + tried;
    RoutersOfRole(asked, before, role);
    if k == |contacts| && r.Some? && (r.value.NoTable? || r.value.Stopped?) {
      assert contacts == asked;
    } else {
      LastFetched(asked, before);
      LapOfRole(tried, LastTable(asked, before), role, start, r);
      OfRoleBoth(asked, tried, before, role);
    }
  }

  lemma RoutersOfRole(asked: seq<Contact>, before: Table, role: Role)
    ensures (forall i :: 0 <= i < |asked| ==> asked[i].Router?) ==> OfRole(asked, before, role)
  {
  }

  lemma LastFetched(asked: seq<Contact>, before: Table)
    requires asked != [] && asked[|asked| - 1].Router? && asked[|asked| - 1].table.Got?
    ensures LastTable(asked, before) == asked[|asked| - 1].table.value
  {
  }

  lemma LapOfRole(tried: seq<Contact>, table: Table, role: Role, start: nat, r: Option<Acquired>)
    requires LapTried(tried, table.Servers(role), start, r)
    ensures OfRole(tried, table, role)
    ensures r.Some? && r.value.Checkout? ==>
      && tried != [] && tried[|tried| - 1].Server? && tried[|tried| - 1].conn.Got?
      && tried[|tried| - 1].addr == r.value.addr
  {
    hide Turn;
    var addrs := table.Servers(role);
    if addrs != [] {
      forall i | 0 <= i < |tried|
        ensures Listed(tried, i, table, role)
      {
        InOrder(addrs, start, i);
        NoneFetched(tried[..i], table);
      }
    }
  }

  lemma {:induction false} NoneFetched(tried: seq<Contact>, table: Table)
    requires forall i :: 0 <= i < |tried| ==> tried[i].Server?
    ensures LastTable(tried, table) == table
    decreases |tried|
  {
    if tried != [] {
      NoneFetched(tried[..|tried| - 1], table);
    }
  }

  lemma EndsHere(
    first: seq<Contact>, second: seq<Contact>, table: Table, stale: bool, seeds: seq<Address>, role: Role, start: nat,
    r: Acquired)
    requires !r.Unreachable?
    requires
      || (second == [] && RoundMade(first, table, stale, seeds, role, start, Some(r)))
      || (RoundMade(first, table, stale, seeds, role, start, None)
          && RoundMade(second, TableAfter(table, first), true, seeds, role, CursorAfter(start, first), Some(r)))
    ensures Made(first + second, table, stale, seeds, role, start, r)
  {
    hide RoundMade, TableAfter, CursorAfter;
    var contacts := first + second;
    assert contacts[..|first|] == first && contacts[|first|..] == second;
    assert TwoRounds(contacts, |first|, table, stale, seeds, role, start, r);
  }

  /** Nobody was reached in either round. */
  lemma GaveUp(
    first: seq<Contact>, second: seq<Contact>, table: Table, pools: set<Address>, stale: bool, seeds: seq<Address>,
    role: Role, start: nat)
    requires start < WORD && CursorAfter(start, first) < WORD
    requires RoundMade(first, table, stale, seeds, role, start, None)
    requires RoundMade(second, TableAfter(table, first), true, seeds, role, CursorAfter(start, first), None)
    ensures Made(first + second, table, stale, seeds, role, start, Unreachable)
    ensures var left := PoolsAfter(PoolsAfter(pools, first), second);
      forall c | c in first + second && c.Server? :: c.addr !in left
    ensures LastLapLeft(
      first + second, role, CursorAfter(CursorAfter(start, first), second),
      TableAfter(TableAfter(table, first), second).Servers(role))
  {
    hide RoundMade, TableAfter, PoolsAfter, CursorAfter, LapLeft, LastLap;
    var contacts := first + second;
    assert contacts[..|first|] == first && contacts[|first|..] == second;
    assert TwoRounds(contacts, |first|, table, stale, seeds, role, start, Unreachable);
    RoundEmpties(table, pools, first, stale, seeds, role, start);
    RoundEmpties(
      TableAfter(table, first), PoolsAfter(pools, first), second, true, seeds, role, CursorAfter(start, first));
    RefetchLeaves(table, pools, first, second, seeds, role, start);
  }

  /** After a round that found nobody. */
  lemma RoundEmpties(
    table: Table, pools: set<Address>, contacts: seq<Contact>, fetch: bool, seeds: seq<Address>, role: Role, start: nat)
    requires RoundMade(contacts, table, fetch, seeds, role, start, None) && start < WORD
    ensures PoolsAfter(pools, contacts) <= pools
    ensures forall c | c in contacts && c.Server? :: c.addr !in PoolsAfter(pools, contacts)
  {
    hide PoolsAfter, LapTried, LapLeft;
    if fetch {
      var asked, tried := FetchedRound(table, contacts, seeds, role, start);
      AfterBoth(table, pools, asked, tried);
      RoutersOnly(pools, asked);
      LapEmpties(asked[|asked| - 1].table.value, pools, tried, role, start);
      assert forall c | c in contacts && c.Server? :: c in tried;
    } else {
      LapEmpties(table, pools, contacts, role, start);
    }
  }

  /** The two parts of a round that fetched a table and found nobody. */
  lemma FetchedRound(table: Table, contacts: seq<Contact>, seeds: seq<Address>, role: Role, start: nat)
    returns (asked: seq<Contact>, tried: seq<Contact>)
    requires RoundMade(contacts, table, true, seeds, role, start, None)
    ensures contacts == asked + tried && asked != [] && forall i :: 0 <= i < |asked| ==> asked[i].Router?
    ensures var last := asked[|asked| - 1]; last.table.Got? && TableAfter(table, asked) == last.table.value
    ensures LapTried(tried, asked[|asked| - 1].table.value.Servers(role), start, None)
  {
    hide LapTried;
    var k: nat :| k <= |contacts| && FetchThenLap(contacts, k, table.routers + seeds, role, start, None);
    asked, tried := contacts[..k], contacts[k..];
  }

  /** After the second round, which always fetches. */
  lemma RefetchLeaves(
    table: Table, pools: set<Address>, first: seq<Contact>, second: seq<Contact>, seeds: seq<Address>, role: Role,
    start: nat)
    requires var table1, start1 := TableAfter(table, first), CursorAfter(start, first);
      RoundMade(second, table1, true, seeds, role, start1, None) && start1 < WORD
    ensures var table1, start1 := TableAfter(table, first), CursorAfter(start, first);
      LastLapLeft(first + second, role, CursorAfter(start1, second), TableAfter(table1, second).Servers(role))
  {
    hide RoundMade, LapTried, LapLeft, LastLap, TableAfter, PoolsAfter, CursorAfter;
    var table1, start1 := TableAfter(table, first), CursorAfter(start, first);
    var asked, tried := FetchedRound(table1, second, seeds, role, start1);
    AfterBoth(table1, pools, asked, tried);
    LapEmpties(asked[|asked| - 1].table.value, pools, tried, role, start1);
    assert first + second == (first + asked) + tried;
    LastLapIs(first + asked, tried);
    CursorMoves(start1, asked, tried);
    EmptyLap(start1, CursorAfter(start1, second), tried, asked[|asked| - 1].table.value.Servers(role),
             TableAfter(table1, second).Servers(role));
  }

  /** The cursor was at `start` before a lap, if there was one. */
  lemma EmptyLap(start: nat, cursor: nat, tried: seq<Contact>, addrs: seq<Address>, left: seq<Address>)
    requires LapLeft(tried, addrs, start, left) && start < WORD && (tried != [] ==> cursor == (start + 1) % WORD)
    ensures LapLeft(tried, addrs, CursorBefore(cursor), left)
  {
    if tried != [] {
      assert CursorBefore(cursor) == start;
    }
  }

  lemma CursorMoves(start: nat, asked: seq<Contact>, tried: seq<Contact>)
    requires forall c :: c in tried ==> c.Server?
    ensures tried != [] ==> CursorAfter(start, asked + tried) == (start + 1) % WORD
  {
    if tried != [] {
      assert (asked + tried)[|asked|] == tried[0] && tried[0] in tried;
    }
  }

  lemma {:induction false} RoutersOnly(pools: set<Address>, asked: seq<Contact>)
    requires forall i :: 0 <= i < |asked| ==> asked[i].Router?
    ensures PoolsAfter(pools, asked) == pools
    decreases |asked|
  {
    if asked != [] {
      RoutersOnly(pools, asked[..|asked| - 1]);
    }
  }

  lemma OrderTried(tried: seq<Contact>, order: seq<Address>)
    requires |tried| == |order| && forall i :: 0 <= i < |order| ==> tried[i].addr == order[i]
    ensures forall a | a in order :: a in Addrs(tried)
  {
    forall a | a in order
      ensures a in Addrs(tried)
    {
      var i :| 0 <= i < |order| && order[i] == a;
      assert tried[i] in tried;
    }
  }

  /** After a lap that found nobody: whether anybody is left in the role depends on the cursor. */
  lemma LapEmpties(table: Table, pools: set<Address>, tried: seq<Contact>, role: Role, start: nat)
    requires LapTried(tried, table.Servers(role), start, None) && start < WORD
    ensures PoolsAfter(pools, tried) == pools - Addrs(tried) && forall c :: c in tried ==> c.Server?
    ensures LapLeft(tried, table.Servers(role), start, TableAfter(table, tried).Servers(role))
  {
    hide Unwrapped, Turn, TableAfter, PoolsAfter, LapLeft, LapOrder;
    var addrs := table.Servers(role);
    AllDown(table, pools, tried, role);
    if addrs == [] {
      NobodyTried(start);
      HasElement(TableAfter(table, tried).Servers(role));
    } else {
      var reply :| Tried(tried, LapOrder(addrs, start), reply) && None == Outcome(reply);
      LapDecides(addrs, start, tried, TableAfter(table, tried).Servers(role));
    }
  }

  lemma NobodyTried(start: nat)
    ensures LapLeft([], [], start, [])
  {
  }

  /** Whether everybody was tried decides whether anybody is left. */
  lemma LapDecides(addrs: seq<Address>, start: nat, tried: seq<Contact>, left: seq<Address>)
    requires 0 < |addrs| == |tried| <= WORD && start < WORD
    requires forall i :: 0 <= i < |addrs| ==>
      tried[i].Server? && tried[i].conn.Down? && tried[i].addr == LapOrder(addrs, start)[i]
    requires forall a :: a in left <==> a in addrs && a !in Addrs(tried)
    ensures LapLeft(tried, addrs, start, left)
  {
    hide Unwrapped, Turn, LapOrder;
    HasElement(left);
    if Unwrapped(start, |addrs|) {
      LapTriesAll(addrs, start);
      OrderTried(tried, LapOrder(addrs, start));
    } else if Distinct(addrs) {
      var j := TurnMissed(start, |addrs|);
      NotTried(tried, addrs, start, j);
      assert addrs[j] in left;
    }
  }

  /** A server that is not in the role twice, and whose turn does not come. */
  lemma NotTried(tried: seq<Contact>, addrs: seq<Address>, start: nat, j: nat)
    requires j < |addrs| == |tried| && Distinct(addrs)
    requires forall i :: 0 <= i < |addrs| ==> tried[i].addr == LapOrder(addrs, start)[i]
    requires forall i :: 0 <= i < |addrs| ==> Turn(start, i, |addrs|) != j
    ensures addrs[j] !in Addrs(tried)
  {
    hide Turn;
    forall c | c in tried
      ensures c.addr != addrs[j]
    {
      var i :| 0 <= i < |tried| && tried[i] == c;
      InOrder(addrs, start, i);
    }
  }

  lemma RoundFails(
    asked: seq<Contact>, table: Table, seeds: seq<Address>, role: Role, start: nat, r: Reply<Table>)
    requires Asked(asked, table.routers + seeds, r) && (r.Down? || r.Cancelled?)
    ensures RoundMade(asked, table, true, seeds, role, start, Some(if r.Down? then NoTable else Stopped))
    ensures CursorAfter(start, asked) == start
  {
    assert asked[..|asked|] == asked;
    assert FetchThenLap(
      asked, |asked|, table.routers + seeds, role, start, Some(if r.Down? then NoTable else Stopped));
  }

  lemma NoLap(contacts: seq<Contact>, start: nat)
    ensures contacts == [] ==> LapTried(contacts, [], start, None)
  {
  }

  lemma OneLap(tried: seq<Contact>, addrs: seq<Address>, start: nat, reply: Reply<Address>)
    requires addrs != [] && Tried(tried, LapOrder(addrs, start), reply)
    ensures LapTried(tried, addrs, start, Outcome(reply)) && tried != []
  {
  }

  lemma RoundLaps(
    asked: seq<Contact>, tried: seq<Contact>, table: Table, fetch: bool, fetched: Table, seeds: seq<Address>,
    role: Role, start: nat, r: Option<Acquired>)
    requires if fetch then Asked(asked, table.routers + seeds, Got(fetched)) else asked == [] && fetched == table
    requires LapTried(tried, fetched.Servers(role), start, r)
    ensures RoundMade(asked + tried, table, fetch, seeds, role, start, r)
    ensures CursorAfter(start, asked + tried) == if tried == [] then start else (start + 1) % WORD
  {
    var contacts := asked + tried;
    if tried != [] {
      assert contacts[|asked|] == tried[0] && tried[0].Server?;
    }
    if fetch {
      assert contacts[..|asked|] == asked && contacts[|asked|..] == tried;
      assert FetchThenLap(contacts, |asked|, table.routers + seeds, role, start, r);
    } else {
      assert contacts == tried;
    }
  }

  function Addrs(contacts: seq<Contact>): set<Address> {
    set c | c in contacts :: c.addr
  }

  /** Everybody in a lap was down: none of them is in a role or has a pool. */
  lemma {:induction false} AllDown(table: Table, pools: set<Address>, tried: seq<Contact>, role: Role)
    requires forall i :: 0 <= i < |tried| ==> tried[i].Server? && tried[i].conn.Down?
    ensures var left := TableAfter(table, tried).Servers(role);
      forall a :: a in left <==> a in table.Servers(role) && a !in Addrs(tried)
    ensures PoolsAfter(pools, tried) == pools - Addrs(tried)
    decreases |tried|
  {
    if tried != [] {
      var n := |tried| - 1;
      AllDown(table, pools, tried[..n], role);
      assert tried == tried[..n] + [tried[n]];
      assert Addrs(tried) == Addrs(tried[..n]) + {tried[n].addr};
    }
  }

  lemma TriedUpTo(tried: seq<Contact>, order: seq<Address>, i: nat)
    requires |tried| == i + 1 <= |order| && tried[i].Server? && tried[i].addr == order[i]
    requires forall k :: 0 <= k < i ==> tried[k] == Server(order[k], Down)
    ensures tried[i].conn.Got? ==> Tried(tried, order, Got(order[i]))
    ensures tried[i].conn == Refused ==> Tried(tried, order, Refused)
    ensures tried[i].conn == Cancelled ==> Tried(tried, order, Cancelled)
  {
  }

  lemma TriedAll(tried: seq<Contact>, order: seq<Address>)
    requires |tried| == |order| && forall k :: 0 <= k < |order| ==> tried[k] == Server(order[k], Down)
    ensures Tried(tried, order, Down)
  {
  }

  /** What a router said, if it was asked for a table that has become `table`. */
  function Answer(r: Reply<()>, table: Table): Reply<Table> {
    match r
    case Got(_) => Got(table)
    case Cancelled => Cancelled
    case Down => Down
    case Refused => Refused
  }

  lemma NeverRefused(contacts: seq<Contact>, candidates: seq<Address>, r: Reply<Table>)
    requires Asked(contacts, candidates, r)
    ensures !r.Refused?
  {
  }

  /** Anything may come back. */
  method Ask<T(0)>() returns (r: Reply<T>) {
    var value: T := *;
    if * {
      r := Got(value);
    } else if * {
      r := Down;
    } else if * {
      r := Refused;
    } else {
      r := Cancelled;
    }
  }

  lemma HasElement(addrs: seq<Address>)
    ensures addrs != [] ==> exists a :: a in addrs
  {
    if addrs != [] {
      assert addrs[0] in addrs;
    }
  }

  /** The servers in the order a lap tries them. */
  function LapOrder(addrs: seq<Address>, start: nat): (order: seq<Address>)
    requires addrs != []
    ensures |order| == |addrs|
  {
    seq(|addrs|, i requires 0 <= i < |addrs| => addrs[Turn(start, i, |addrs|)])
  }

  /** The cursor and how far the lap is decide whose turn it is. */
  lemma InOrder(addrs: seq<Address>, start: nat, i: nat)
    requires i < |addrs|
    ensures LapOrder(addrs, start)[i] == addrs[Turn(start, i, |addrs|)]
    ensures start + i < 18_446_744_073_709_551_616 ==> LapOrder(addrs, start)[i] == addrs[(start + i) % |addrs|]
  {
  }

  /** A fair lap tries all of them. */
  lemma LapTriesAll(addrs: seq<Address>, start: nat)
    requires 0 < |addrs| <= WORD && start < WORD && Unwrapped(start, |addrs|)
    ensures forall a | a in addrs :: a in LapOrder(addrs, start)
  {
    var n := |addrs|;
    LapIsFair(start, n);
    forall a | a in addrs
      ensures a in LapOrder(addrs, start)
    {
      var j :| 0 <= j < n && addrs[j] == a;
      assert Visits(start, n, j);
      var i :| 0 <= i < n && Turn(start, i, n) == j;
      assert LapOrder(addrs, start)[i] == a;
    }
  }
}
