/** Connection URIs and server addresses. */
module Uri {
  import opened Values
  import opened Message

  datatype Scheme = Bolt | BoltS | BoltSsc | Neo4j | Neo4jS | Neo4jSsc

  datatype Auth = Auth(user: string, pass: string)

  datatype Config = Config(scheme: Scheme, host: string, port: nat, auth: Option<Auth>, db: Option<string>)

  datatype UriError =
    | MissingSeparator
    | UnknownScheme
    | BadUserinfo
    | UnclosedBracket
    | JunkAfterHost
    | UnbracketedIpv6
    | BadPort
    | EmptyHost

  const DEFAULT_PORT := 7687

  // ---- splitting ----

  /** Around the first `c`. */
  function SplitOnce(s: string, c: char): (r: Option<(string, string)>)
    ensures r.None? <==> c !in s
    ensures r.Some? ==> s == r.value.0 + [c] + r.value.1 && c !in r.value.0
  {
    if s == "" then None
    else if s[0] == c then Some(("", s[1..]))
    else
      assert c in s <==> c in s[1..];
      match SplitOnce(s[1..], c)
      case None => None
      case Some((before, after)) => Some(([s[0]] + before, after))
  }

  /** Around the last `c`. */
  function RSplitOnce(s: string, c: char): (r: Option<(string, string)>)
    ensures r.None? <==> c !in s
    ensures r.Some? ==> s == r.value.0 + [c] + r.value.1 && c !in r.value.1
  {
    if s == "" then None
    else
      var n := |s| - 1;
      assert s == s[..n] + [s[n]];
      if s[n] == c then Some((s[..n], ""))
      else
        match RSplitOnce(s[..n], c)
        case None => None
        case Some((before, after)) => Some((before, after + [s[n]]))
  }

  /** Around the first "://". */
  function SplitScheme(s: string): (r: Option<(string, string)>)
    ensures r.Some? ==> s == r.value.0 + "://" + r.value.1
  {
    if |s| < 3 then None
    else if s[..3] == "://" then Some(("", s[3..]))
    else
      match SplitScheme(s[1..])
      case None => None
      case Some((before, after)) => Some(([s[0]] + before, after))
  }

  lemma {:induction false} SplitOnceAt(before: string, c: char, after: string)
    requires c !in before
    ensures SplitOnce(before + [c] + after, c) == Some((before, after))
  {
    var s := before + [c] + after;
    var split := SplitOnce(s, c).value;
    assert s[|before|] == c == s[|split.0|];
    assert forall i :: 0 <= i < |before| ==> s[i] == before[i];
    assert forall i :: 0 <= i < |split.0| ==> s[i] == split.0[i];
    assert split.0 == s[..|before|] == before;
    assert split.1 == s[|before| + 1..] == after;
  }

  lemma {:induction false} RSplitOnceAt(before: string, c: char, after: string)
    requires c !in after
    ensures RSplitOnce(before + [c] + after, c) == Some((before, after))
  {
    var s := before + [c] + after;
    var split := RSplitOnce(s, c).value;
    assert s[|before|] == c == s[|split.0|];
    assert forall i :: |before| < i < |s| ==> s[i] == after[i - |before| - 1];
    assert forall i :: |split.0| < i < |s| ==> s[i] == split.1[i - |split.0| - 1];
    assert split.0 == s[..|before|] == before;
    assert split.1 == s[|before| + 1..] == after;
  }

  lemma {:induction false} SplitSchemeAt(before: string, after: string)
    requires ':' !in before
    ensures SplitScheme(before + "://" + after) == Some((before, after))
  {
    var s := before + "://" + after;
    if before == "" {
      assert s[..3] == "://" && s[3..] == after;
    } else {
      assert s[0] == before[0] != ':' && s[..3][0] == s[0];
      assert s[1..] == before[1..] + "://" + after;
      SplitSchemeAt(before[1..], after);
      assert [before[0]] + before[1..] == before;
    }
  }

  // ---- ports ----

  predicate IsDigit(c: char) {
    '0' <= c <= '9'
  }

  function Digit(d: nat): char
    requires d < 10
  {
    '0' + d as char
  }

  function DigitValue(c: char): nat
    requires IsDigit(c)
  {
    c as int - '0' as int
  }

  function Decimal(n: nat): (s: string)
    ensures s != "" && AllDigits(s)
  {
    if n < 10 then [Digit(n)] else Decimal(n / 10) + [Digit(n % 10)]
  }

  predicate AllDigits(s: string) {
    forall i :: 0 <= i < |s| ==> IsDigit(s[i])
  }

  function Digits(s: string): nat
    requires AllDigits(s)
  {
    if s == "" then 0 else 10 * Digits(s[..|s| - 1]) + DigitValue(s[|s| - 1])
  }

  /** A 16-bit decimal number: a leading `+` and leading zeros are accepted. */
  function ParsePort(s: string): Result<nat, UriError> {
    var digits := if s != "" && s[0] == '+' then s[1..] else s;
    if digits != "" && AllDigits(digits) && Digits(digits) < 65_536
    then Ok(Digits(digits))
    else Err(BadPort)
  }

  lemma {:induction false} DigitsOfDecimal(n: nat)
    ensures Digits(Decimal(n)) == n
  {
    var s := Decimal(n);
    if n < 10 {
      assert s[..0] == "";
    } else {
      assert s[..|s| - 1] == Decimal(n / 10);
      DigitsOfDecimal(n / 10);
    }
  }

  /** A number is printed digit by digit. */
  lemma DecimalIs(n: nat)
    ensures n < 10 ==> Decimal(n) == ["0123456789"[n]]
    ensures n >= 10 ==> Decimal(n) == Decimal(n / 10) + ["0123456789"[n % 10]]
  {
    var digits := "0123456789";
    assert forall d :: 0 <= d < 10 ==> digits[d] == Digit(d);
  }

  lemma PortRoundTrip(n: nat)
    requires n < 65_536
    ensures ParsePort(Decimal(n)) == Ok(n)
    ensures ':' !in Decimal(n) && ']' !in Decimal(n) && Decimal(n) != ""
  {
    DigitsOfDecimal(n);
  }

  // ---- addresses ----

  /** `host[:port]` or `[ipv6][:port]`: the host without brackets, and the port if there is one. */
  function SplitHostPort(s: string): (r: Result<(string, Option<nat>), UriError>)
    ensures r.Ok? ==> r.value.0 != "" && (r.value.1.Some? ==> r.value.1.value < 65_536)
  {
    var (host, port) :-
      if s != "" && s[0] == '[' then
        match SplitOnce(s[1..], ']')
        case None => Err(UnclosedBracket)
        case Some((host, after)) =>
          if after == "" then Ok((host, None))
          else if after[0] == ':' then
            var port :- ParsePort(after[1..]);
            Ok((host, Some(port)))
          else Err(JunkAfterHost)
      else
        match SplitOnce(s, ':')
        case None => Ok((s, None))
        case Some((host, p)) =>
          if ':' in p then Err(UnbracketedIpv6)
          else
            var port :- ParsePort(p);
            Ok((host, Some(port)));
    if host == "" then Err(EmptyHost) else Ok((host, port))
  }

  function Zeros(k: nat): string {
    seq(k, _ => '0')
  }

  /** A port below 65536 as it is printed, perhaps after zeros, and those perhaps after a `+`. */
  ghost predicate PortText(s: string, n: nat) {
    n < 65_536 && exists k: nat :: Spells(s, k, n)
  }

  predicate Spells(s: string, k: nat, n: nat) {
    s == Zeros(k) + Decimal(n) || s == "+" + (Zeros(k) + Decimal(n))
  }

  lemma {:induction false} LeadingZeros(k: nat, s: string)
    requires AllDigits(s)
    ensures AllDigits(Zeros(k) + s) && Digits(Zeros(k) + s) == Digits(s)
    decreases |s|, k
  {
    var t := Zeros(k) + s;
    if s != "" {
      assert t[..|t| - 1] == Zeros(k) + s[..|s| - 1];
      LeadingZeros(k, s[..|s| - 1]);
    } else if k > 0 {
      assert t[..|t| - 1] == Zeros(k - 1) + s;
      LeadingZeros(k - 1, s);
    }
  }

  /** Digits spell their value as it is printed, after some zeros. */
  lemma {:induction false} DigitsSpell(s: string) returns (k: nat)
    requires s != "" && AllDigits(s)
    ensures s == Zeros(k) + Decimal(Digits(s))
    decreases |s|
  {
    var m := |s| - 1;
    var v := DigitValue(s[m]);
    assert s == s[..m] + [s[m]] && s[m] == Digit(v);
    if m == 0 {
      assert s[..0] == "";
      k := 0;
    } else {
      var n := Digits(s[..m]);
      k := DigitsSpell(s[..m]);
      assert (10 * n + v) / 10 == n && (10 * n + v) % 10 == v;
      if n == 0 {
        assert s[..m] == Zeros(k + 1);
        k := k + 1;
      } else {
        assert Decimal(Digits(s)) == Decimal(n) + [Digit(v)];
      }
    }
  }

  /** A port is read from exactly those texts. */
  lemma PortGrammar(s: string, n: nat)
    ensures ParsePort(s) == Ok(n) <==> PortText(s, n)
    ensures PortText(s, n) ==> ':' !in s
  {
    if PortText(s, n) {
      var k: nat :| Spells(s, k, n);
      DigitsOfDecimal(n);
      LeadingZeros(k, Decimal(n));
      SpelledIsRead(s, Zeros(k) + Decimal(n), n);
    }
    if ParsePort(s) == Ok(n) {
      var digits := if s[0] == '+' then s[1..] else s;
      var k := DigitsSpell(digits);
      assert Spells(s, k, n);
    }
  }

  lemma SpelledIsRead(s: string, digits: string, n: nat)
    requires digits != "" && AllDigits(digits) && Digits(digits) == n < 65_536 && (s == digits || s == "+" + digits)
    ensures ParsePort(s) == Ok(n) && ':' !in s
  {
    assert IsDigit(digits[0]);
    assert s != digits ==> s[0] == '+' && s[1..] == digits;
  }

  /** `text` is what follows a host: nothing, or a colon and a port. */
  ghost predicate PortSuffix(text: string, port: Option<nat>) {
    match port
    case None => text == ""
    case Some(n) => text != "" && text[0] == ':' && PortText(text[1..], n)
  }

  /** What counts as a host and perhaps a port: the host in brackets, or one without colons. */
  ghost predicate HostPortText(s: string, host: string, port: Option<nat>) {
    host != "" && exists suffix :: PortSuffix(suffix, port) && HostThen(s, host, suffix)
  }

  predicate HostThen(s: string, host: string, suffix: string)
    requires host != ""
  {
    || (']' !in host && s == "[" + host + "]" + suffix)
    || (':' !in host && host[0] != '[' && s == host + suffix)
  }

  /** The splitter accepts exactly those, and finds the host and the port in them. */
  lemma HostPortGrammar(s: string, host: string, port: Option<nat>)
    ensures SplitHostPort(s) == Ok((host, port)) <==> HostPortText(s, host, port)
  {
    hide ParsePort, PortText;
    if HostPortText(s, host, port) {
      var suffix :| PortSuffix(suffix, port) && HostThen(s, host, suffix);
      SplitReads(s, host, port, suffix);
    }
    if SplitHostPort(s) == Ok((host, port)) {
      SplitSays(s);
    }
  }

  lemma SplitReads(s: string, host: string, port: Option<nat>, suffix: string)
    requires host != "" && PortSuffix(suffix, port) && HostThen(s, host, suffix)
    ensures SplitHostPort(s) == Ok((host, port))
  {
    hide ParsePort, PortText;
    if port.Some? {
      PortGrammar(suffix[1..], port.value);
    }
    if ']' !in host && s == "[" + host + "]" + suffix {
      assert s[1..] == host + [']'] + suffix;
      SplitOnceAt(host, ']', suffix);
    } else {
      assert s[0] == host[0];
      if port.Some? {
        assert s == host + [':'] + suffix[1..];
        SplitOnceAt(host, ':', suffix[1..]);
      } else {
        assert s == host;
      }
    }
  }

  lemma SplitSays(s: string)
    requires SplitHostPort(s).Ok?
    ensures var (host, port) := SplitHostPort(s).value; HostPortText(s, host, port)
  {
    hide ParsePort, PortText;
    var (host, port) := SplitHostPort(s).value;
    var suffix;
    if s != "" && s[0] == '[' {
      suffix := SplitOnce(s[1..], ']').value.1;
      assert s == "[" + host + "]" + suffix;
    } else {
      suffix := match SplitOnce(s, ':') case None => "" case Some((_, p)) => ":" + p;
      assert s == host + suffix;
    }
    if port.Some? {
      PortGrammar(suffix[1..], port.value);
    }
    assert PortSuffix(suffix, port) && HostThen(s, host, suffix);
  }

  function Addr(host: string, port: nat): string {
    if ':' in host then "[" + host + "]:" + Decimal(port) else host + ":" + Decimal(port)
  }

  /** A host whose address can be read back. */
  predicate Addressable(host: string) {
    host != "" && if ':' in host then ']' !in host else host[0] != '['
  }

  /** An address gives back its host exactly if the host is addressable, and then its port too. */
  lemma AddrRoundTrip(host: string, port: nat)
    requires port < 65_536
    ensures Addressable(host) <==> SplitHostPort(Addr(host, port)) == Ok((host, Some(port)))
    ensures Addressable(host) <==>
      SplitHostPort(Addr(host, port)).Ok? && SplitHostPort(Addr(host, port)).value.0 == host
  {
    hide Decimal, AllDigits, ParsePort;
    var digits := Decimal(port);
    PortRoundTrip(port);
    var s := Addr(host, port);
    if ':' in host {
      assert s[1..] == host + [']'] + ([':'] + digits);
      if ']' !in host {
        SplitOnceAt(host, ']', [':'] + digits);
        assert ([':'] + digits)[1..] == digits;
      }
    } else if host != "" && host[0] == '[' {
      assert s[0] == '[' && s[1..] == host[1..] + ([':'] + digits);
      var split := SplitOnce(s[1..], ']');
      if split.Some? {
        BracketInHost(host[1..], [':'] + digits);
      }
    } else {
      assert s == host + [':'] + digits;
      SplitOnceAt(host, ':', digits);
      if host == "" {
        assert s[0] == ':';
      }
    }
  }

  /** No `]` after the host: what precedes the first one is shorter than the host. */
  lemma BracketInHost(host: string, tail: string)
    requires ']' in host + tail && ']' !in tail
    ensures |SplitOnce(host + tail, ']').value.0| < |host|
  {
    var split := SplitOnce(host + tail, ']').value;
    var s := host + tail;
    assert s[|split.0|] == ']';
    assert forall i :: |host| <= i < |s| ==> s[i] == tail[i - |host|];
  }

  // ---- URIs ----

  function SchemeName(scheme: Scheme): (s: string)
    ensures ':' !in s
  {
    match scheme
    case Bolt => "bolt"
    case BoltS => "bolt+s"
    case BoltSsc => "bolt+ssc"
    case Neo4j => "neo4j"
    case Neo4jS => "neo4j+s"
    case Neo4jSsc => "neo4j+ssc"
  }

  function ParseScheme(s: string): Result<Scheme, UriError> {
    if s == "bolt" then Ok(Bolt)
    else if s == "bolt+s" then Ok(BoltS)
    else if s == "bolt+ssc" then Ok(BoltSsc)
    else if s == "neo4j" then Ok(Neo4j)
    else if s == "neo4j+s" then Ok(Neo4jS)
    else if s == "neo4j+ssc" then Ok(Neo4jSsc)
    else Err(UnknownScheme)
  }

  lemma SchemeRoundTrip(scheme: Scheme)
    ensures ParseScheme(SchemeName(scheme)) == Ok(scheme)
  {
    var s := SchemeName(scheme);
    assert |s| == match scheme
      case Bolt => 4
      case BoltS => 6
      case BoltSsc => 8
      case Neo4j => 5
      case Neo4jS => 7
      case Neo4jSsc => 9;
  }

  /** The value of the first `db=` item of a query. */
  function FindDb(query: string): Option<string>
    decreases |query|
  {
    match SplitOnce(query, '&')
    case None => DbItem(query)
    case Some((item, rest)) => if DbItem(item).Some? then DbItem(item) else FindDb(rest)
  }

  function DbItem(item: string): Option<string> {
    if "db=" <= item then Some(item[3..]) else None
  }

  /** Items separated by `&`. */
  function Join(items: seq<string>): string
    requires items != []
  {
    if |items| == 1 then items[0] else items[0] + ['&'] + Join(items[1..])
  }

  predicate Separate(items: seq<string>) {
    forall i :: 0 <= i < |items| ==> '&' !in items[i]
  }

  /** The first item that names a database names this one. */
  ghost predicate Names(items: seq<string>, db: Option<string>) {
    match db
    case None => forall i :: 0 <= i < |items| ==> !("db=" <= items[i])
    case Some(name) => exists k :: NamedAt(items, k, name)
  }

  predicate NamedAt(items: seq<string>, k: int, name: string) {
    0 <= k < |items| && items[k] == "db=" + name && forall i :: 0 <= i < k ==> !("db=" <= items[i])
  }

  /** What a query says about the database. */
  ghost predicate QueryText(query: Option<string>, db: Option<string>) {
    match query
    case None => db == None
    case Some(q) => exists items :: Lists(q, items) && Names(items, db)
  }

  predicate Lists(query: string, items: seq<string>) {
    items != [] && query == Join(items) && Separate(items)
  }

  lemma QueryGrammar(query: string, db: Option<string>)
    ensures FindDb(query) == db <==> QueryText(Some(query), db)
  {
    if FindDb(query) == db {
      var items := QuerySays(query);
    }
    if QueryText(Some(query), db) {
      var items :| Lists(query, items) && Names(items, db);
      QueryReads(items, db);
    }
  }

  lemma {:induction false} QuerySays(query: string) returns (items: seq<string>)
    ensures Lists(query, items) && Names(items, FindDb(query))
    decreases |query|
  {
    match SplitOnce(query, '&')
    case None =>
      items := [query];
      ItemNames(query, items);
    case Some((item, rest)) =>
      var others := QuerySays(rest);
      items := [item] + others;
      assert items[1..] == others;
      if DbItem(item).Some? {
        ItemNames(item, items);
      } else {
        LaterNames(item, others, FindDb(rest));
      }
  }

  lemma ItemNames(item: string, items: seq<string>)
    requires items != [] && items[0] == item
    ensures DbItem(item).Some? ==> Names(items, DbItem(item))
  {
    if DbItem(item).Some? {
      assert item == "db=" + item[3..];
      assert NamedAt(items, 0, item[3..]);
    }
  }

  lemma LaterNames(item: string, others: seq<string>, db: Option<string>)
    requires DbItem(item).None?
    ensures Names([item] + others, db) <==> Names(others, db)
  {
    var items := [item] + others;
    assert forall i :: 0 < i < |items| ==> items[i] == others[i - 1];
    if db.Some? {
      if Names(others, db) {
        var k :| NamedAt(others, k, db.value);
        assert NamedAt(items, k + 1, db.value);
      }
      if Names(items, db) {
        var k :| NamedAt(items, k, db.value);
        assert items[k][..3] == "db=" && k > 0;
        assert forall i :: 0 <= i < k - 1 ==> others[i] == items[i + 1];
        assert NamedAt(others, k - 1, db.value);
      }
    } else if Names(items, db) {
      assert forall i :: 0 <= i < |others| ==> others[i] == items[i + 1];
    }
  }

  lemma {:induction false} QueryReads(items: seq<string>, db: Option<string>)
    requires items != [] && Separate(items) && Names(items, db)
    ensures FindDb(Join(items)) == db
    decreases |items|
  {
    var item := items[0];
    if |items| > 1 {
      SplitOnceAt(item, '&', Join(items[1..]));
      assert items == [item] + items[1..];
    }
    if DbItem(item).Some? {
      FirstNames(items, db);
    } else {
      LaterNames(item, items[1..], db);
      assert items == [item] + items[1..];
      if |items| > 1 {
        QueryReads(items[1..], db);
      } else {
        NoneNamed(db);
      }
    }
  }

  lemma FirstNames(items: seq<string>, db: Option<string>)
    requires items != [] && DbItem(items[0]).Some? && Names(items, db)
    ensures db == DbItem(items[0])
  {
    if db.Some? {
      var k :| NamedAt(items, k, db.value);
      assert k == 0 && items[0][3..] == db.value;
    }
  }

  lemma NoneNamed(db: Option<string>)
    requires Names([], db)
    ensures db == None
  {
  }

  function ParseAuth(rest: string): Result<(Option<Auth>, string), UriError> {
    match RSplitOnce(rest, '@')
    case None => Ok((None, rest))
    case Some((userinfo, hostport)) =>
      match SplitOnce(userinfo, ':')
      case None => Err(BadUserinfo)
      case Some((user, pass)) => Ok((Some(Auth(user, pass)), hostport))
  }

  /** `scheme://[user:pass@]host[:port][?db=name]`. */
  function FromUri(uri: string): Result<Config, UriError> {
    match SplitScheme(uri)
    case None => Err(MissingSeparator)
    case Some((name, rest)) =>
      var scheme :- ParseScheme(name);
      var (authority, query) := match SplitOnce(rest, '?')
        case Some((r, q)) => (r, Some(q))
        case None => (rest, None);
      var (auth, hostport) :- ParseAuth(authority);
      var (host, port) :- SplitHostPort(hostport);
      Ok(Config(
        scheme, host, if port.Some? then port.value else DEFAULT_PORT, auth,
        if query.Some? then FindDb(query.value) else None))
  }

  function Authority(c: Config): string {
    Userinfo(c.auth) + Addr(c.host, c.port)
  }

  function Render(c: Config): string {
    SchemeName(c.scheme) + "://" + (Authority(c) + if c.db.Some? then "?" + ("db=" + c.db.value) else "")
  }

  /** Nothing in a part ends it early: note that a password may hold any of `:`, `@`, `/` and `&`. */
  predicate Separable(c: Config) {
    && (c.auth.Some? ==> ':' !in c.auth.value.user && '?' !in c.auth.value.user && '?' !in c.auth.value.pass)
    && '?' !in c.host && '@' !in c.host
    && (c.db.Some? ==> '&' !in c.db.value)
  }

  /** What counts as a URI for `c`, part by part. */
  ghost predicate UriText(uri: string, c: Config) {
    exists authority, hostport, port, query ::
      Parts(uri, c, authority, hostport, port, query)
  }

  ghost predicate Parts(
    uri: string, c: Config, authority: string, hostport: string, port: Option<nat>, query: Option<string>)
  {
    && uri == SchemeName(c.scheme) + "://" + (authority + if query.Some? then "?" + query.value else "")
    && '?' !in authority && '@' !in hostport
    && authority == Userinfo(c.auth) + hostport && (c.auth.Some? ==> ':' !in c.auth.value.user)
    && HostPortText(hostport, c.host, port) && c.port == (if port.Some? then port.value else 7687)
    && QueryText(query, c.db)
  }

  function Userinfo(auth: Option<Auth>): string {
    if auth.Some? then auth.value.user + ":" + auth.value.pass + "@" else ""
  }

  /** Exactly those are accepted, with exactly that meaning. */
  lemma UriGrammar(uri: string, c: Config)
    ensures FromUri(uri) == Ok(c) <==> UriText(uri, c)
  {
    hide FromUri, Parts;
    if UriText(uri, c) {
      var authority, hostport, port, query :| Parts(uri, c, authority, hostport, port, query);
      UriReads(uri, c, authority, hostport, port, query);
    }
    if FromUri(uri) == Ok(c) {
      UriSays(uri, c);
    }
  }

  lemma UriReads(
    uri: string, c: Config, authority: string, hostport: string, port: Option<nat>, query: Option<string>)
    requires Parts(uri, c, authority, hostport, port, query)
    ensures FromUri(uri) == Ok(c)
  {
    hide SplitScheme, SplitOnce, RSplitOnce, SchemeName, ParseScheme, SplitHostPort, HostPortText, FindDb, Names;
    var rest := authority + if query.Some? then "?" + query.value else "";
    SplitSchemeAt(SchemeName(c.scheme), rest);
    SchemeRoundTrip(c.scheme);
    HostPortGrammar(hostport, c.host, port);
    if query.Some? {
      QueryGrammar(query.value, c.db);
      assert rest == authority + ['?'] + query.value;
      SplitOnceAt(authority, '?', query.value);
    } else {
      assert rest == authority;
    }
    AuthReads(c.auth, hostport);
  }

  lemma AuthReads(auth: Option<Auth>, hostport: string)
    requires '@' !in hostport && (auth.Some? ==> ':' !in auth.value.user)
    ensures ParseAuth(Userinfo(auth) + hostport) == Ok((auth, hostport))
  {
    if auth.Some? {
      var (user, pass) := (auth.value.user, auth.value.pass);
      assert Userinfo(auth) + hostport == (user + [':'] + pass) + ['@'] + hostport;
      RSplitOnceAt(user + [':'] + pass, '@', hostport);
      SplitOnceAt(user, ':', pass);
    } else {
      assert Userinfo(auth) + hostport == hostport;
    }
  }

  lemma UriSays(uri: string, c: Config)
    requires FromUri(uri) == Ok(c)
    ensures UriText(uri, c)
  {
    hide SplitScheme, SplitOnce, RSplitOnce, SplitHostPort, HostPortText, FindDb, Names;
    var (name, rest) := SplitScheme(uri).value;
    assert name == SchemeName(c.scheme);
    var (authority, query) := match SplitOnce(rest, '?')
      case Some((r, q)) => (r, Some(q))
      case None => (rest, None);
    assert rest == authority + if query.Some? then "?" + query.value else "";
    var (auth, hostport) := ParseAuth(authority).value;
    AuthSays(authority);
    var (host, port) := SplitHostPort(hostport).value;
    HostPortGrammar(hostport, host, port);
    if query.Some? {
      QueryGrammar(query.value, c.db);
    }
    assert Parts(uri, c, authority, hostport, port, query);
  }

  lemma AuthSays(authority: string)
    requires ParseAuth(authority).Ok?
    ensures var (auth, hostport) := ParseAuth(authority).value;
      && authority == Userinfo(auth) + hostport && '@' !in hostport
      && (auth.Some? ==> ':' !in auth.value.user)
  {
    hide SplitOnce, RSplitOnce;
  }

  /** The scheme is what the URI starts with. */
  lemma SchemeIs(uri: string)
    requires FromUri(uri).Ok?
    ensures var scheme := FromUri(uri).value.scheme;
      && (scheme == Bolt <==> "bolt" + "://" <= uri)
      && (scheme == BoltS <==> "bolt+s" + "://" <= uri)
      && (scheme == BoltSsc <==> "bolt+ssc" + "://" <= uri)
      && (scheme == Neo4j <==> "neo4j" + "://" <= uri)
      && (scheme == Neo4jS <==> "neo4j+s" + "://" <= uri)
      && (scheme == Neo4jSsc <==> "neo4j+ssc" + "://" <= uri)
  {
    var scheme := FromUri(uri).value.scheme;
    SchemeNames();
    hide *;
    Prefixes(Bolt, "bolt", scheme, uri);
    Prefixes(BoltS, "bolt+s", scheme, uri);
    Prefixes(BoltSsc, "bolt+ssc", scheme, uri);
    Prefixes(Neo4j, "neo4j", scheme, uri);
    Prefixes(Neo4jS, "neo4j+s", scheme, uri);
    Prefixes(Neo4jSsc, "neo4j+ssc", scheme, uri);
  }

  lemma SchemeNames()
    ensures SchemeName(Bolt) == "bolt" && SchemeName(BoltS) == "bolt+s" && SchemeName(BoltSsc) == "bolt+ssc"
    ensures SchemeName(Neo4j) == "neo4j" && SchemeName(Neo4jS) == "neo4j+s" && SchemeName(Neo4jSsc) == "neo4j+ssc"
  {
  }

  lemma Prefixes(scheme: Scheme, name: string, read: Scheme, uri: string)
    requires FromUri(uri).Ok? && FromUri(uri).value.scheme == read && SchemeName(scheme) == name
    ensures read == scheme <==> name + "://" <= uri
  {
    hide FromUri, SchemeName, ParseScheme, SplitScheme;
    var rest := SchemeStarts(uri);
    SchemeRoundTrip(read);
    SchemeRoundTrip(scheme);
    SplitSchemeAt(SchemeName(read), rest);
    if name + "://" <= uri {
      assert uri == name + "://" + uri[|name| + 3..];
      SplitSchemeAt(name, uri[|name| + 3..]);
    }
    if read == scheme {
      assert uri[..|name| + 3] == name + "://";
    }
  }

  lemma SchemeStarts(uri: string) returns (rest: string)
    requires FromUri(uri).Ok?
    ensures uri == SchemeName(FromUri(uri).value.scheme) + "://" + rest
  {
    hide SplitOnce, ParseAuth, SplitHostPort, FindDb;
    rest := SplitScheme(uri).value.1;
  }

  /** A URI with every part, and the shortest kind. */
  lemma Spelt()
    ensures FromUri("bolt+s://me:pw@db:7688?x&db=all") ==
            Ok(Config(BoltS, "db", 7688, Some(Auth("me", "pw")), Some("all")))
    ensures FromUri("neo4j://[::1]") == Ok(Config(Neo4j, "::1", 7687, None, None))
    ensures Addr("::1", 7687) == "[::1]:7687" && Addr("db", 7688) == "db:7688"
  {
    hide *;
    SpeltFull();
    SpeltShort();
    SpeltAddrs();
  }

  lemma SpeltPorts()
    ensures Decimal(7687) == "7687" && Decimal(7688) == "7688"
  {
    assert Decimal(76) == "76";
    assert Decimal(768) == "76" + [Digit(8)];
    assert Decimal(7687) == Decimal(768) + [Digit(7)];
    assert Decimal(7688) == Decimal(768) + [Digit(8)];
  }

  lemma SpeltAddrs()
    ensures Addr("::1", 7687) == "[::1]:7687" && Addr("db", 7688) == "db:7688"
  {
    hide Decimal;
    SpeltPorts();
    assert "::1"[0] == ':';
    assert ':' !in "db";
  }

  lemma SpeltShort()
    ensures FromUri("neo4j://[::1]") == Ok(Config(Neo4j, "::1", 7687, None, None))
  {
    hide FromUri;
    var c := Config(Neo4j, "::1", 7687, None, None);
    assert PortSuffix("", None) && HostThen("[::1]", "::1", "") && HostPortText("[::1]", "::1", None);
    hide HostPortText;
    assert Parts("neo4j://[::1]", c, "[::1]", "[::1]", None, None);
    UriGrammar("neo4j://[::1]", c);
  }

  lemma SpeltFull()
    ensures FromUri("bolt+s://me:pw@db:7688?x&db=all") ==
            Ok(Config(BoltS, "db", 7688, Some(Auth("me", "pw")), Some("all")))
  {
    hide *;
    var uri := "bolt+s://me:pw@db:7688?x&db=all";
    var c := Config(BoltS, "db", 7688, Some(Auth("me", "pw")), Some("all"));
    SpeltParts();
    UriReads(uri, c, "me:pw@db:7688", "db:7688", Some(7688), Some("x&db=all"));
  }

  lemma SpeltParts()
    ensures Parts(
      "bolt+s://me:pw@db:7688?x&db=all",
      Config(BoltS, "db", 7688, Some(Auth("me", "pw")), Some("all")),
      "me:pw@db:7688", "db:7688", Some(7688), Some("x&db=all"))
  {
    hide HostPortText, QueryText, SchemeName;
    SchemeNames();
    SpeltHost();
    SpeltQuery();
    SpeltText();
    SpeltChars();
  }

  lemma SpeltText()
    ensures "bolt+s://me:pw@db:7688?x&db=all" == "bolt+s" + "://" + ("me:pw@db:7688" + ("?" + "x&db=all"))
  {
  }

  lemma SpeltChars()
    ensures "me:pw@db:7688" == "me" + ":" + "pw" + "@" + "db:7688"
    ensures '?' !in "me:pw@db:7688" && '@' !in "db:7688" && ':' !in "me"
  {
  }

  lemma SpeltHost()
    ensures HostPortText("db:7688", "db", Some(7688))
  {
    hide Decimal;
    SpeltPorts();
    assert Zeros(0) + "7688" == "7688";
    assert Spells("7688", 0, 7688);
    assert ":7688"[1..] == "7688";
    assert PortSuffix(":7688", Some(7688)) && HostThen("db:7688", "db", ":7688");
  }

  lemma SpeltQuery()
    ensures QueryText(Some("x&db=all"), Some("all"))
  {
    var items := ["x", "db=all"];
    assert items[1..] == ["db=all"] && Join(items) == "x&db=all";
    assert Lists("x&db=all", items);
    assert "db=" + "all" == "db=all" && items[0][0] == 'x';
    assert NamedAt(items, 1, "all");
  }

  /** What every accepted URI says. */
  lemma Accepted(uri: string)
    requires FromUri(uri).Ok?
    ensures var c := FromUri(uri).value;
      Separable(c) && c.host != "" && (':' in c.host ==> ']' !in c.host)
  {
    var rest := SplitScheme(uri).value.1;
    var authority := match SplitOnce(rest, '?') case Some((r, _)) => r case None => rest;
    var (auth, hostport) := ParseAuth(authority).value;
    AuthParts(authority);
    HostParts(hostport);
    if SplitOnce(rest, '?').Some? {
      DbHasNoSeparator(SplitOnce(rest, '?').value.1);
    }
  }

  lemma AuthParts(authority: string)
    requires ParseAuth(authority).Ok?
    ensures var (auth, hostport) := ParseAuth(authority).value;
      && '@' !in hostport && (forall c | c in hostport :: c in authority)
      && (auth.Some? ==> ':' !in auth.value.user
                         && forall c | c in auth.value.user || c in auth.value.pass :: c in authority)
  {
  }

  lemma HostParts(hostport: string)
    requires SplitHostPort(hostport).Ok?
    ensures var host := SplitHostPort(hostport).value.0;
      && host != "" && (':' in host ==> ']' !in host) && forall c | c in host :: c in hostport
  {
    if hostport != "" && hostport[0] == '[' {
      assert forall c | c in hostport[1..] :: c in hostport;
    }
  }

  lemma {:induction false} DbHasNoSeparator(query: string)
    ensures FindDb(query).Some? ==> '&' !in FindDb(query).value
    decreases |query|
  {
    var split := SplitOnce(query, '&');
    if split.Some? {
      DbHasNoSeparator(split.value.1);
    }
  }

  /** A configuration is read back from its URI exactly if it is separable and its host addressable. */
  lemma UriRoundTrip(c: Config)
    requires c.port < 65_536
    ensures FromUri(Render(c)) == Ok(c) <==> Separable(c) && Addressable(c.host)
  {
    if FromUri(Render(c)) == Ok(c) {
      Accepted(Render(c));
    }
    if Separable(c) {
      Reads(c);
    }
  }

  /** The parts of a separable configuration are found again; what its address gives decides. */
  lemma Reads(c: Config)
    requires c.port < 65_536 && Separable(c)
    ensures FromUri(Render(c)) == Ok(c) <==> Addressable(c.host)
  {
    hide SplitScheme, SplitOnce, ParseScheme, SchemeName, ParseAuth, SplitHostPort, Authority, FindDb, Addr,
      Addressable, Separable;
    var query := if c.db.Some? then "?" + ("db=" + c.db.value) else "";
    var rest := Authority(c) + query;
    SplitSchemeAt(SchemeName(c.scheme), rest);
    SchemeRoundTrip(c.scheme);
    AuthorityParts(c);
    AddrRoundTrip(c.host, c.port);
    if c.db.Some? {
      SplitOnceAt(Authority(c), '?', "db=" + c.db.value);
      assert rest == Authority(c) + ['?'] + ("db=" + c.db.value);
      SeparableDb(c);
      DbFound(c.db.value);
    } else {
      assert rest == Authority(c);
    }
  }

  lemma SeparableDb(c: Config)
    requires Separable(c)
    ensures c.db.Some? ==> '&' !in c.db.value
  {
  }

  lemma DbFound(db: string)
    requires '&' !in db
    ensures FindDb("db=" + db) == Some(db)
  {
    var item := "db=" + db;
    assert item[..3] == "db=" && item[3..] == db;
    assert '&' !in item;
  }

  lemma AuthorityParts(c: Config)
    requires Separable(c)
    ensures '?' !in Authority(c)
    ensures ParseAuth(Authority(c)) == Ok((c.auth, Addr(c.host, c.port)))
  {
    AddrChars(c.host, c.port);
    AuthReads(c.auth, Addr(c.host, c.port));
  }

  lemma AddrChars(host: string, port: nat)
    requires '?' !in host && '@' !in host
    ensures '?' !in Addr(host, port) && '@' !in Addr(host, port)
  {
    assert forall c | c in Decimal(port) :: IsDigit(c);
  }

  /**
   * Reading a URI, printing and reading again gives the same configuration exactly if the host
   * that was read is not a bracketed one that starts with a bracket of its own.
   */
  lemma Reprinted(uri: string)
    requires FromUri(uri).Ok?
    ensures var c := FromUri(uri).value;
      FromUri(Render(c)) == Ok(c) <==> ':' in c.host || c.host[0] != '['
  {
    Accepted(uri);
    PortInRange(uri);
    UriRoundTrip(FromUri(uri).value);
  }

  lemma PortInRange(uri: string)
    requires FromUri(uri).Ok?
    ensures FromUri(uri).value.port < 65_536
  {
  }

  /** Such a URI is accepted, but the address made from it is not. */
  lemma DoubleBracket()
    ensures FromUri("bolt://[[abc]") == Ok(Config(Bolt, "[abc", 7687, None, None))
    ensures SplitHostPort(Addr("[abc", 7687)) == Err(UnclosedBracket)
  {
    hide SplitScheme, SplitOnce, RSplitOnce, SplitHostPort, Addr;
    SplitSchemeAt("bolt", "[[abc]");
    assert "bolt" + "://" + "[[abc]" == "bolt://[[abc]";
    assert '?' !in "[[abc]" && '@' !in "[[abc]";
    DoubleBracketHost();
    UnclosedAddr("[abc", 7687);
  }

  lemma DoubleBracketHost()
    ensures SplitHostPort("[[abc]") == Ok(("[abc", None))
  {
    hide SplitOnce;
    SplitOnceAt("[abc", ']', "");
    assert "[abc" + [']'] + "" == "[[abc]"[1..];
  }

  lemma UnclosedAddr(host: string, port: nat)
    requires host != "" && host[0] == '[' && ':' !in host && ']' !in host
    ensures SplitHostPort(Addr(host, port)) == Err(UnclosedBracket)
  {
    var s := Addr(host, port);
    assert s[0] == '[' && s[1..] == host[1..] + ":" + Decimal(port);
    assert ']' !in s[1..];
  }
}
