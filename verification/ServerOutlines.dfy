/** The same for the machine of the server part. */
module ServerOutlines {
  import opened Bytes
  import opened UrlGrammar
  import opened UrlScans
  import opened UrlOutlines

  // ---------------------------------------------------------------------------
  // The characters of the parts.

  predicate UserinfoText(t: text) { forall c :: c in t ==> IsUserinfoChar(c) }

  predicate NameText(t: text) { forall c :: c in t ==> IsHostChar(c) }

  /** The characters of an address in brackets. */
  predicate AddressText(t: text) { forall c :: c in t ==> IsHexDigit(c) || c == COLON || c == DOT }

  predicate ZoneText(t: text) { forall c :: c in t ==> IsZoneChar(c) }

  predicate IsZoneChar(c: byte) { IsAlphaNum(c) || c == 37 || c == 46 || c == 45 || c == 95 || c == 126 }

  predicate DigitText(t: text) { forall c :: c in t ==> IsDigit(c) }

  const DOT: byte := 46

  // ---------------------------------------------------------------------------
  // Outlines of a server part.

  datatype Authority = Authority(
    userinfo: text, at: bool, open: bool, host: text, zone: Option<text>, close: bool, colon: bool, port: text)

  const NOTHING := Authority([], false, false, [], None, false, false, [])

  function Mark(yes: bool, c: byte): text {
    if yes then [c] else []
  }

  function Zoned(zone: Option<text>): text {
    if zone.Some? then [ZONE] + zone.value else []
  }

  function LeadText(o: Authority): text {
    o.userinfo + Mark(o.at, AT) + Mark(o.open, OPEN)
  }

  function HostText(o: Authority): text {
    o.host + Zoned(o.zone)
  }

  function PortText(o: Authority): text {
    Mark(o.close, CLOSE) + Mark(o.colon, COLON) + o.port
  }

  function ServerOf(o: Authority): text {
    LeadText(o) + HostText(o) + PortText(o)
  }

  /** The `@` stands behind the userinfo if there is one in the server part. */
  predicate Lead(found: bool, o: Authority) {
    o.at == found && UserinfoText(o.userinfo) && (!found ==> o.userinfo == [])
  }

  predicate Named(o: Authority) {
    !o.open && !o.close && o.host != [] && NameText(o.host) && o.zone == None
  }

  predicate Addressed(o: Authority) {
    o.open && o.host != [] && AddressText(o.host)
  }

  predicate ZoneOk(o: Authority) {
    o.zone.Some? ==> o.zone.value != [] && ZoneText(o.zone.value)
  }

  predicate NoPort(o: Authority) { !o.colon && o.port == [] }

  /** The host is complete. */
  predicate Located(o: Authority) {
    Named(o) || (Addressed(o) && ZoneOk(o) && o.close)
  }

  predicate ServerShaped(found: bool, o: Authority, s: HostState) {
    match s
    case UserinfoStart => found && o == NOTHING
    case Userinfo => found && o == NOTHING.(userinfo := o.userinfo) && o.userinfo != [] && UserinfoText(o.userinfo)
    case HostStart => Lead(found, o) && o == NOTHING.(userinfo := o.userinfo, at := o.at)
    case V6Start => Lead(found, o) && o == NOTHING.(userinfo := o.userinfo, at := o.at, open := true)
    case Host => Lead(found, o) && Named(o) && NoPort(o)
    case V6 => Lead(found, o) && Addressed(o) && o.zone == None && !o.close && NoPort(o)
    case V6ZoneStart => Lead(found, o) && Addressed(o) && o.zone == Some([]) && !o.close && NoPort(o)
    case V6Zone => Lead(found, o) && Addressed(o) && o.zone.Some? && ZoneOk(o) && !o.close && NoPort(o)
    case V6End => Lead(found, o) && Addressed(o) && ZoneOk(o) && o.close && NoPort(o)
    case PortStart => Lead(found, o) && Located(o) && o.colon && o.port == []
    case Port => Lead(found, o) && Located(o) && o.colon && o.port != [] && DigitText(o.port)
    case HostDead => false
  }

  ghost predicate ServerFits(found: bool, o: Authority, s: HostState) {
    forall r :: r == s ==> ServerShaped(found, o, r)
  }

  function ServerPush(o: Authority, t: HostState, ch: byte): Authority {
    match t
    case Userinfo => o.(userinfo := o.userinfo + [ch])
    case HostStart => o.(at := true)
    case V6Start => o.(open := true)
    case Host => o.(host := o.host + [ch])
    case V6 => o.(host := o.host + [ch])
    case V6ZoneStart => o.(zone := Some([]))
    case V6Zone => o.(zone := Some((if o.zone.Some? then o.zone.value else []) + [ch]))
    case V6End => o.(close := true)
    case PortStart => o.(colon := true)
    case Port => o.(port := o.port + [ch])
    case _ => o
  }

  /** Nothing stands behind the place where a character that leads to state t is put. */
  predicate Behind(o: Authority, t: HostState, ch: byte) {
    match t
    case Userinfo => o == NOTHING.(userinfo := o.userinfo)
    case HostStart => o == NOTHING.(userinfo := o.userinfo) && ch == AT
    case V6Start => o == NOTHING.(userinfo := o.userinfo, at := o.at) && ch == OPEN
    case Host => o.zone == None && !o.close && NoPort(o)
    case V6 => o.zone == None && !o.close && NoPort(o)
    case V6ZoneStart => o.zone == None && !o.close && NoPort(o) && ch == ZONE
    case V6Zone => o.zone.Some? && !o.close && NoPort(o)
    case V6End => !o.close && NoPort(o) && ch == CLOSE
    case PortStart => NoPort(o) && ch == COLON
    case Port => o.colon
    case _ => false
  }

  lemma PushBehind(found: bool, o: Authority, s: HostState, ch: byte)
    requires ServerShaped(found, o, s) && HostNext(s, ch) != HostDead
    ensures Behind(o, HostNext(s, ch), ch)
  {
  }

  lemma ServerPushShaped(found: bool, o: Authority, s: HostState, ch: byte)
    requires ServerShaped(found, o, s) && HostNext(s, ch) != HostDead
    ensures ServerShaped(found, ServerPush(o, HostNext(s, ch), ch), HostNext(s, ch))
  {
  }

  lemma LeadPushText(o: Authority, t: HostState, ch: byte)
    requires Behind(o, t, ch) && HostRank(t) <= 3
    ensures LeadText(ServerPush(o, t, ch)) == LeadText(o) + [ch]
    ensures HostText(o) == HostText(ServerPush(o, t, ch)) == [] && PortText(o) == PortText(ServerPush(o, t, ch)) == []
  {
  }

  lemma HostPushText(o: Authority, t: HostState, ch: byte)
    requires Behind(o, t, ch) && 4 <= HostRank(t) <= 7
    ensures LeadText(ServerPush(o, t, ch)) == LeadText(o) && HostText(ServerPush(o, t, ch)) == HostText(o) + [ch]
    ensures PortText(o) == PortText(ServerPush(o, t, ch)) == []
  {
  }

  lemma PortPushText(o: Authority, t: HostState, ch: byte)
    requires Behind(o, t, ch) && 8 <= HostRank(t)
    ensures LeadText(ServerPush(o, t, ch)) == LeadText(o) && HostText(ServerPush(o, t, ch)) == HostText(o)
    ensures PortText(ServerPush(o, t, ch)) == PortText(o) + [ch]
  {
  }

  lemma ServerPushText(o: Authority, t: HostState, ch: byte)
    requires Behind(o, t, ch)
    ensures ServerOf(ServerPush(o, t, ch)) == ServerOf(o) + [ch]
  {
    if HostRank(t) <= 3 {
      LeadPushText(o, t, ch);
    } else if HostRank(t) <= 7 {
      HostPushText(o, t, ch);
    } else {
      PortPushText(o, t, ch);
    }
  }

  /** The outline and the state before the last character. */
  function ServerBefore(o: Authority, s: HostState): (Authority, HostState)
    requires s == V6Zone ==> o.zone.Some?
  {
    match s
    case Userinfo => var t := Init(o.userinfo); (o.(userinfo := t), if t == [] then UserinfoStart else Userinfo)
    case HostStart => (o.(at := false), if o.userinfo == [] then UserinfoStart else Userinfo)
    case V6Start => (o.(open := false), HostStart)
    case Host => var t := Init(o.host); (o.(host := t), if t == [] then HostStart else Host)
    case V6 => var t := Init(o.host); (o.(host := t), if t == [] then V6Start else V6)
    case V6ZoneStart => (o.(zone := None), V6)
    case V6Zone => var t := Init(o.zone.value); (o.(zone := Some(t)), if t == [] then V6ZoneStart else V6Zone)
    case V6End => (o.(close := false), if o.zone == None then V6 else V6Zone)
    case PortStart => (o.(colon := false), if o.open then V6End else Host)
    case Port => var t := Init(o.port); (o.(port := t), if t == [] then PortStart else Port)
    case _ => (o, s)
  }

  function ServerLatest(o: Authority, s: HostState): byte
    requires s == V6Zone ==> o.zone.Some?
  {
    match s
    case Userinfo => Last(o.userinfo)
    case HostStart => AT
    case V6Start => OPEN
    case Host => Last(o.host)
    case V6 => Last(o.host)
    case V6ZoneStart => ZONE
    case V6Zone => Last(o.zone.value)
    case V6End => CLOSE
    case PortStart => COLON
    case Port => Last(o.port)
    case _ => 0
  }

  predicate ServerComes(found: bool, o: Authority, s: HostState)
    requires s == V6Zone ==> o.zone.Some?
  {
    var ((p, r), ch) := (ServerBefore(o, s), ServerLatest(o, s));
    ServerShaped(found, p, r) && HostNext(r, ch) == s && ServerPush(p, s, ch) == o
  }

  lemma MarkComes(found: bool, o: Authority, s: HostState)
    requires ServerShaped(found, o, s)
    requires s == V6Start || s == V6ZoneStart || s == V6End || s == PortStart || (s == HostStart && found)
    ensures ServerComes(found, o, s)
  {
  }

  lemma UserinfoComes(found: bool, o: Authority)
    requires ServerShaped(found, o, Userinfo)
    ensures ServerComes(found, o, Userinfo)
  {
    InitLast(o.userinfo);
    assert Last(o.userinfo) in o.userinfo;
  }

  lemma NameComes(found: bool, o: Authority)
    requires ServerShaped(found, o, Host)
    ensures ServerComes(found, o, Host)
  {
    InitLast(o.host);
    assert Last(o.host) in o.host;
  }

  lemma AddressComes(found: bool, o: Authority)
    requires ServerShaped(found, o, V6)
    ensures ServerComes(found, o, V6)
  {
    InitLast(o.host);
    assert Last(o.host) in o.host;
  }

  lemma ZoneComes(found: bool, o: Authority)
    requires ServerShaped(found, o, V6Zone)
    ensures ServerComes(found, o, V6Zone)
  {
    InitLast(o.zone.value);
    assert Last(o.zone.value) in o.zone.value;
  }

  lemma PortComes(found: bool, o: Authority)
    requires ServerShaped(found, o, Port)
    ensures ServerComes(found, o, Port)
  {
    InitLast(o.port);
    assert Last(o.port) in o.port;
  }

  predicate Starts(found: bool, s: HostState) {
    s == if found then UserinfoStart else HostStart
  }

  lemma ServerComesFrom(found: bool, o: Authority, s: HostState) returns (p: Authority, r: HostState, ch: byte)
    requires ServerFits(found, o, s) && !Starts(found, s)
    ensures ServerFits(found, p, r) && HostNext(r, ch) == s != HostDead && ServerPush(p, s, ch) == o
    ensures ServerOf(o) == ServerOf(p) + [ch]
  {
    assert ServerShaped(found, o, s);
    match s {
      case Userinfo => UserinfoComes(found, o);
      case Host => NameComes(found, o);
      case V6 => AddressComes(found, o);
      case V6Zone => ZoneComes(found, o);
      case Port => PortComes(found, o);
      case _ => MarkComes(found, o, s);
    }
    var b := ServerBefore(o, s);
    p, r, ch := b.0, b.1, ServerLatest(o, s);
    PushBehind(found, p, r, ch);
    ServerPushText(p, s, ch);
  }

  // ---------------------------------------------------------------------------
  // Where the parts of an outline are.

  function ServerPartOf(o: Authority, f: Field): text {
    match f
    case FUserinfo => o.userinfo
    case FHost => o.host + Zoned(o.zone)
    case FPort => o.port
    case _ => []
  }

  function ServerOffset(o: Authority, f: Field): nat {
    var host := |o.userinfo| + |Mark(o.at, AT)| + |Mark(o.open, OPEN)|;
    match f
    case FHost => host
    case FPort => host + |o.host| + |Zoned(o.zone)| + |Mark(o.close, CLOSE)| + 1
    case _ => 0
  }

  /** The runs of the parts of a server part that begins at `first`. */
  function ServerRuns(o: Authority, first: nat): Url {
    map f | f in {FUserinfo, FHost, FPort} && ServerPartOf(o, f) != [] ::
      Run(first + ServerOffset(o, f), |ServerPartOf(o, f)|)
  }

  function ServerLength(o: Authority): nat {
    |o.userinfo| + |Mark(o.at, AT)| + |Mark(o.open, OPEN)| + |o.host| + |Zoned(o.zone)| + |Mark(o.close, CLOSE)| +
    |Mark(o.colon, COLON)| + |o.port|
  }

  lemma ServerLengthIs(o: Authority)
    ensures |ServerOf(o)| == ServerLength(o)
  {
  }

  lemma ServerPushPart(o: Authority, t: HostState, ch: byte, f: Field)
    requires Behind(o, t, ch) && (t == V6ZoneStart ==> o.host != [])
    ensures var p := ServerPush(o, t, ch);
            if HostFieldOf(t) == Some(f) then
              && ServerPartOf(p, f) == ServerPartOf(o, f) + [ch]
              && ServerOffset(p, f) + |ServerPartOf(o, f)| == ServerLength(o)
              && (ServerPartOf(o, f) != [] ==> ServerOffset(p, f) == ServerOffset(o, f))
            else
              && ServerPartOf(p, f) == ServerPartOf(o, f)
              && (ServerPartOf(o, f) != [] ==> ServerOffset(p, f) == ServerOffset(o, f))
  {
    match f
    case FUserinfo =>
    case FHost =>
    case FPort =>
    case _ =>
  }

  lemma ServerRunOf(o: Authority, first: nat, f: Field)
    ensures f in ServerRuns(o, first) <==> ServerPartOf(o, f) != []
    ensures f in ServerRuns(o, first) ==>
              ServerRuns(o, first)[f] == Run(first + ServerOffset(o, f), |ServerPartOf(o, f)|)
  {
  }

  lemma ServerPartGrows(found: bool, buf: text, first: nat, n: nat, u: Url, v: Url, f: Field)
    requires first <= n < |buf| && HostPartExact(found, buf, first, u, n, f)
    requires HostPartAt(found, buf, first, n) == Some(f) ==>
               f in v && v[f] == (if f in u then Run(u[f].off, u[f].len + 1) else Run(n, 1)) &&
                 (f in u ==> End(u[f]) == n)
    requires HostPartAt(found, buf, first, n) != Some(f) ==> SamePart(u, v, f)
    ensures HostPartExact(found, buf, first, v, n + 1, f)
  {
  }

  lemma ServerPushExact(found: bool, buf: text, first: nat, n: nat, o: Authority)
    requires first <= n < |buf| && Behind(o, HostStateAt(found, buf, first, n + 1), buf[n])
    requires HostStateAt(found, buf, first, n + 1) == V6ZoneStart ==> o.host != []
    requires ServerLength(o) == n - first && HostExact(found, buf, first, ServerRuns(o, first), n)
    ensures HostExact(found, buf, first, ServerRuns(ServerPush(o, HostStateAt(found, buf, first, n + 1), buf[n]),
            first),
              n + 1)
  {
    var p, m := ServerPush(o, HostStateAt(found, buf, first, n + 1), buf[n]), n + 1;
    forall f ensures HostPartExact(found, buf, first, ServerRuns(p, first), m, f) {
      ServerPushPart(o, HostStateAt(found, buf, first, n + 1), buf[n], f);
      assert HostPartExact(found, buf, first, ServerRuns(o, first), n, f);
      ServerRunOf(o, first, f);
      ServerRunOf(p, first, f);
      ServerPartGrows(found, buf, first, n, ServerRuns(o, first), ServerRuns(p, first), f);
    }
  }

  // ---------------------------------------------------------------------------
  // The machine reads these outlines, and nothing else.

  ghost predicate ReadsServer(found: bool, buf: text, first: nat, n: nat, o: Authority) {
    first <= n <= |buf| && forall f :: ServerFact(found, buf, first, n, o, f)
  }

  ghost predicate ServerFact(found: bool, buf: text, first: nat, n: nat, o: Authority, f: Field)
    requires first <= n <= |buf|
  {
    && ServerShaped(found, o, HostStateAt(found, buf, first, n)) && ServerOf(o) == buf[first..n]
    && HostPartExact(found, buf, first, ServerRuns(o, first), n, f)
  }

  lemma ReadsServerMeans(found: bool, buf: text, first: nat, n: nat, o: Authority)
    ensures ReadsServer(found, buf, first, n, o) <==>
            && first <= n <= |buf| && ServerShaped(found, o, HostStateAt(found, buf, first, n))
            && ServerOf(o) == buf[first..n] && HostExact(found, buf, first, ServerRuns(o, first), n)
  {
    if ReadsServer(found, buf, first, n, o) {
      assert ServerFact(found, buf, first, n, o, FHost);
      forall f ensures HostPartExact(found, buf, first, ServerRuns(o, first), n, f) {
        assert ServerFact(found, buf, first, n, o, f);
      }
    }
  }

  lemma ReadsNoServer(found: bool, buf: text, first: nat)
    requires first <= |buf|
    ensures ReadsServer(found, buf, first, first, NOTHING)
  {
    assert ServerOf(NOTHING) == [];
    forall f ensures HostPartExact(found, buf, first, ServerRuns(NOTHING, first), first, f) {
    }
    ReadsServerMeans(found, buf, first, first, NOTHING);
  }

  lemma ReadsMoreServer(found: bool, buf: text, first: nat, n: nat, o: Authority)
    requires n < |buf| && ReadsServer(found, buf, first, n, o) && HostStateAt(found, buf, first, n + 1) != HostDead
    ensures ReadsServer(found, buf, first, n + 1, ServerPush(o, HostStateAt(found, buf, first, n + 1), buf[n]))
  {
    var s, t := HostStateAt(found, buf, first, n), HostStateAt(found, buf, first, n + 1);
    ReadsServerMeans(found, buf, first, n, o);
    ServerLengthIs(o);
    ServerPushShaped(found, o, s, buf[n]);
    PushBehind(found, o, s, buf[n]);
    ServerPushText(o, t, buf[n]);
    ServerPushExact(found, buf, first, n, o);
    assert buf[first..n + 1] == buf[first..n] + [buf[n]];
    ReadsServerMeans(found, buf, first, n + 1, ServerPush(o, t, buf[n]));
  }

  lemma {:induction false} ReadsSomeServer(found: bool, buf: text, first: nat, n: nat) returns (o: Authority)
    requires first <= n <= |buf| && HostStateAt(found, buf, first, n) != HostDead
    ensures ReadsServer(found, buf, first, n, o)
    decreases n - first
  {
    if n == first {
      ReadsNoServer(found, buf, first);
      o := NOTHING;
    } else {
      var p := ReadsSomeServer(found, buf, first, n - 1);
      ReadsMoreServer(found, buf, first, n - 1, p);
      o := ServerPush(p, HostStateAt(found, buf, first, n), buf[n - 1]);
    }
  }

  lemma LastBehind(buf: text, first: nat, n: nat, t: text, ch: byte)
    requires first <= n <= |buf| && buf[first..n] == t + [ch]
    ensures first < n && buf[n - 1] == ch && buf[first..n - 1] == t
  {
    assert |buf[first..n]| == |t| + 1;
    assert buf[first..n][|t|] == ch;
    assert buf[first..n - 1] == buf[first..n][..|t|];
  }

  lemma {:induction false} ReadsEachServer(found: bool, buf: text, first: nat, n: nat, o: Authority, s: HostState)
    requires first <= n <= |buf| && ServerFits(found, o, s) && ServerOf(o) == buf[first..n]
    ensures HostStateAt(found, buf, first, n) == s && ReadsServer(found, buf, first, n, o)
    decreases n - first
  {
    if Starts(found, s) {
      FirstServer(found, o, s);
      ReadsNoServer(found, buf, first);
    } else {
      var p, r, ch := ServerComesFrom(found, o, s);
      LastBehind(buf, first, n, ServerOf(p), ch);
      ReadsEachServer(found, buf, first, n - 1, p, r);
      ReadsThatServer(found, buf, first, n - 1, p, r, o, s);
    }
  }

  lemma FirstServer(found: bool, o: Authority, s: HostState)
    requires ServerFits(found, o, s) && Starts(found, s)
    ensures o == NOTHING && |ServerOf(NOTHING)| == 0
  {
    assert ServerShaped(found, o, s);
  }

  lemma ReadsThatServer(found: bool, buf: text, first: nat, n: nat, p: Authority, r: HostState, o: Authority,
                        s: HostState)
    requires n < |buf| && ReadsServer(found, buf, first, n, p) && HostStateAt(found, buf, first, n) == r
    requires HostNext(r, buf[n]) == s != HostDead && ServerPush(p, s, buf[n]) == o
    ensures HostStateAt(found, buf, first, n + 1) == s && ReadsServer(found, buf, first, n + 1, o)
  {
    ReadsMoreServer(found, buf, first, n, p);
  }
}
