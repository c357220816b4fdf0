/** The two scans of the URL parser, the value of a port, and the parts that a URL has. */
module UrlScans {
  import opened Bytes
  import opened UrlGrammar

  /** A run of characters. */
  datatype Run = Run(off: nat, len: nat)

  function End(r: Run): nat { r.off + r.len }

  type Url = map<Field, Run>

  /** The place of a part among the others. */
  function Place(f: Field): nat {
    match f
    case FScheme => 1
    case FUserinfo => 2
    case FHost => 3
    case FPort => 4
    case FPath => 5
    case FQuery => 6
    case FFragment => 7
  }

  // ---------------------------------------------------------------------------
  // The first scan.

  /** The rank of the states of a part. */
  function RankOf(f: Field): nat {
    match f
    case FScheme => 1
    case FHost => 5
    case FPath => 6
    case FQuery => 8
    case FFragment => 10
    case _ => 12
  }

  /** A part is set exactly when some character belongs to it, and then it is the run of all that do. */
  predicate Exact(connect: bool, buf: seq<byte>, u: Url, n: nat)
    requires n <= |buf|
  {
    forall f :: PartExact(connect, buf, u, n, f)
  }

  predicate PartExact(connect: bool, buf: seq<byte>, u: Url, n: nat, f: Field)
    requires n <= |buf|
  {
    && (f in u ==> 0 < u[f].len && End(u[f]) <= n)
    && forall k :: 0 <= k < n ==> (PartAt(connect, buf, k) == Some(f) <==> f in u && u[f].off <= k < End(u[f]))
  }

  /** Parts that come later in a URL are set behind those that come earlier. */
  predicate InOrder(u: Url) {
    forall f, g :: f in u && g in u && Place(f) < Place(g) ==> End(u[f]) <= u[g].off
  }

  /** What is known of the parts after `n` characters, in state `s`. */
  predicate Known(u: Url, s: State, n: nat, last: Option<Field>) {
    && (forall f :: f in u ==> RankOf(f) <= Rank(s) && End(u[f]) <= n && (RankOf(f) == Rank(s) ==> End(u[f]) == n))
    && match last
       case None => u == map[]
       case Some(f) => f in u && forall g :: g in u ==> RankOf(g) <= RankOf(f)
  }

  /** The parts after one character more, which belongs to `f`. */
  function Noted(u: Url, f: Field, i: nat, last: Option<Field>): Url {
    if last == Some(f) && f in u then u[f := Run(u[f].off, u[f].len + 1)] else u[f := Run(i, 1)]
  }

  lemma SkipKnown(u: Url, s: State, ch: byte, n: nat, last: Option<Field>)
    requires Known(u, s, n, last) && FieldOf(Next(s, ch)) == None && Next(s, ch) != Dead
    ensures Known(u, Next(s, ch), n + 1, last)
  {
    RankGrows(s, ch);
  }

  /** The character either goes on with the last part, or begins a part that is not set. */
  lemma NotedKnown(u: Url, s: State, ch: byte, n: nat, last: Option<Field>, f: Field)
    requires Known(u, s, n, last) && FieldOf(Next(s, ch)) == Some(f)
    ensures Known(Noted(u, f, n, last), Next(s, ch), n + 1, Some(f))
    ensures f in u ==> last == Some(f) && End(u[f]) == n
  {
    var v, t := Noted(u, f, n, last), Next(s, ch);
    RankGrows(s, ch);
    assert Rank(t) == RankOf(f);
    forall g | g in v ensures RankOf(g) <= Rank(t) && End(v[g]) <= n + 1 &&
      (RankOf(g) == Rank(t) ==> End(v[g]) == n + 1) {
      if g != f {
        assert g in u && RankOf(g) <= Rank(s);
      }
    }
  }

  lemma NotedExact(connect: bool, buf: seq<byte>, u: Url, n: nat, last: Option<Field>, f: Field)
    requires n < |buf| && Exact(connect, buf, u, n) && PartAt(connect, buf, n) == Some(f)
    requires f in u ==> last == Some(f) && End(u[f]) == n
    ensures Exact(connect, buf, Noted(u, f, n, last), n + 1)
  {
    var m, v := n + 1, Noted(u, f, n, last);
    forall g ensures PartExact(connect, buf, v, m, g) {
      assert PartExact(connect, buf, u, n, g);
    }
  }

  lemma SkipExact(connect: bool, buf: seq<byte>, u: Url, n: nat)
    requires n < |buf| && Exact(connect, buf, u, n) && PartAt(connect, buf, n) == None
    ensures Exact(connect, buf, u, n + 1)
  {
    var m := n + 1;
    forall g ensures PartExact(connect, buf, u, m, g) {
      assert PartExact(connect, buf, u, n, g);
    }
  }

  lemma PlaceRank(f: Field, g: Field)
    requires RankOf(f) <= 10 && RankOf(g) <= 10
    ensures Place(f) < Place(g) <==> RankOf(f) < RankOf(g)
  {
  }

  lemma NotedInOrder(u: Url, s: State, ch: byte, n: nat, last: Option<Field>, f: Field)
    requires Known(u, s, n, last) && FieldOf(Next(s, ch)) == Some(f) && InOrder(u)
    ensures InOrder(Noted(u, f, n, last))
  {
    NotedKnown(u, s, ch, n, last, f);
    var v := Noted(u, f, n, last);
    forall g, h | g in v && h in v && Place(g) < Place(h) ensures End(v[g]) <= v[h].off {
      NotedIsLast(u, s, ch, n, last, f, g);
      NotedIsLast(u, s, ch, n, last, f, h);
      PlaceRank(g, h);
      assert g != f && g in u;
    }
  }

  /** No part that is set comes after the one the character belongs to. */
  lemma NotedIsLast(u: Url, s: State, ch: byte, n: nat, last: Option<Field>, f: Field, g: Field)
    requires Known(u, s, n, last) && FieldOf(Next(s, ch)) == Some(f) && g in Noted(u, f, n, last)
    ensures RankOf(g) <= RankOf(f) <= 10 && (g in u ==> End(u[g]) <= n)
  {
    RankGrows(s, ch);
    assert Rank(Next(s, ch)) == RankOf(f);
  }

  /** What the loop has found after `n` characters. */
  predicate Scanned(connect: bool, buf: seq<byte>, n: nat, u: Url, last: Option<Field>, foundAt: bool)
    requires n <= |buf|
  {
    forall f :: ScanFact(connect, buf, n, u, last, foundAt, f)
  }

  predicate ScanFact(connect: bool, buf: seq<byte>, n: nat, u: Url, last: Option<Field>, foundAt: bool, f: Field)
    requires n <= |buf|
  {
    && PartExact(connect, buf, u, n, f) && InOrder(u) && Known(u, StateAt(connect, buf, n), n, last)
    && (foundAt <==> AtSeen(connect, buf, n))
  }

  lemma ScannedMeans(connect: bool, buf: seq<byte>, n: nat, u: Url, last: Option<Field>, foundAt: bool)
    requires n <= |buf|
    ensures Scanned(connect, buf, n, u, last, foundAt) <==>
            && Exact(connect, buf, u, n) && InOrder(u) && Known(u, StateAt(connect, buf, n), n, last)
            && (foundAt <==> AtSeen(connect, buf, n))
  {
    if Scanned(connect, buf, n, u, last, foundAt) {
      assert ScanFact(connect, buf, n, u, last, foundAt, FHost);
      forall f ensures PartExact(connect, buf, u, n, f) {
        assert ScanFact(connect, buf, n, u, last, foundAt, f);
      }
    }
  }

  lemma ScanSkips(connect: bool, buf: seq<byte>, n: nat, u: Url, last: Option<Field>, foundAt: bool)
    requires n < |buf| && Scanned(connect, buf, n, u, last, foundAt)
    requires PartAt(connect, buf, n) == None && StateAt(connect, buf, n + 1) != Dead
    ensures Scanned(connect, buf, n + 1, u, last, foundAt)
  {
    ScannedMeans(connect, buf, n, u, last, foundAt);
    ScannedMeans(connect, buf, n + 1, u, last, foundAt);
    SkipKnown(u, StateAt(connect, buf, n), buf[n], n, last);
    SkipExact(connect, buf, u, n);
  }

  lemma ScanNotes(connect: bool, buf: seq<byte>, n: nat, u: Url, last: Option<Field>, foundAt: bool, f: Field)
    requires n < |buf| && Scanned(connect, buf, n, u, last, foundAt) && PartAt(connect, buf, n) == Some(f)
    ensures Scanned(connect, buf, n + 1, Noted(u, f, n, last), Some(f), foundAt ||
            StateAt(connect, buf, n + 1) == ServerWithAt)
    ensures last == Some(f) ==> f in u
  {
    var s := StateAt(connect, buf, n);
    ScannedMeans(connect, buf, n, u, last, foundAt);
    ScannedMeans(connect, buf, n + 1, Noted(u, f, n, last), Some(f), foundAt ||
      StateAt(connect, buf, n + 1) == ServerWithAt);
    NotedKnown(u, s, buf[n], n, last, f);
    NotedExact(connect, buf, u, n, last, f);
    NotedInOrder(u, s, buf[n], n, last, f);
  }

  method Scan(connect: bool, buf: seq<byte>) returns (ok: bool, u: Url, foundAt: bool)
    ensures ok <==> StateAt(connect, buf, |buf|) != Dead
    ensures ok ==> Exact(connect, buf, u, |buf|) && InOrder(u) && (foundAt <==> AtSeen(connect, buf, |buf|))
  {
    var s := if connect then ServerStart else BeforeUrl;
    var last: Option<Field> := None;
    u, foundAt := map[], false;
    ScannedMeans(connect, buf, 0, u, last, foundAt);
    for i := 0 to |buf|
      invariant s == StateAt(connect, buf, i) && s != Dead
      invariant Scanned(connect, buf, i, u, last, foundAt)
    {
      s := Next(s, buf[i]);
      if s == Dead {
        DeadStays(connect, buf, i + 1, |buf|);
        return false, u, foundAt;
      }
      var uf := FieldOf(s);
      if uf == None {
        ScanSkips(connect, buf, i, u, last, foundAt);
        continue;
      }
      ScanNotes(connect, buf, i, u, last, foundAt, uf.value);
      if s == ServerWithAt {
        foundAt := true;
      }
      u := Noted(u, uf.value, i, last);
      last := uf;
    }
    ScannedMeans(connect, buf, |buf|, u, last, foundAt);
    ok := true;
  }

  // ---------------------------------------------------------------------------
  // The second scan, of the server part.

  /** As in the first scan, for the characters from `first` on. */
  predicate HostExact(at: bool, buf: seq<byte>, first: nat, v: Url, n: nat)
    requires first <= n <= |buf|
  {
    forall f :: HostPartExact(at, buf, first, v, n, f)
  }

  predicate HostPartExact(at: bool, buf: seq<byte>, first: nat, v: Url, n: nat, f: Field)
    requires first <= n <= |buf|
  {
    && (f in v ==> 0 < v[f].len && first <= v[f].off && End(v[f]) <= n)
    && forall k :: first <= k < n ==> (HostPartAt(at, buf, first, k) == Some(f) <==>
       f in v && v[f].off <= k < End(v[f]))
  }

  /** The ranks of the states of a part. */
  function Lowest(f: Field): nat {
    match f
    case FUserinfo => 1
    case FHost => 4
    case FPort => 10
    case _ => 12
  }

  predicate HostKnown(v: Url, s: HostState, n: nat) {
    && (forall f :: f in v ==>
          Lowest(f) <= HostRank(s) && End(v[f]) <= n && (HostFieldOf(s) == Some(f) ==> End(v[f]) == n))
    && (forall f :: HostFieldOf(s) == Some(f) ==> f in v)
    && (4 <= HostRank(s) <= 10 ==> FHost in v)
  }

  /** The length of a run so far. */
  function Length(v: Url, f: Field): nat {
    if f in v then v[f].len else 0
  }

  function Offset(v: Url, f: Field): nat {
    if f in v then v[f].off else 0
  }

  /** The parts after a character at `p` that leads from `s` to `t`. */
  function HostNoted(v: Url, s: HostState, t: HostState, p: nat): Url {
    match t
    case Host => v[FHost := Run(if s != Host then p else Offset(v, FHost), Length(v, FHost) + 1)]
    case V6 => v[FHost := Run(if s != V6 then p else Offset(v, FHost), Length(v, FHost) + 1)]
    case V6ZoneStart => v[FHost := Run(Offset(v, FHost), Length(v, FHost) + 1)]
    case V6Zone => v[FHost := Run(Offset(v, FHost), Length(v, FHost) + 1)]
    case Port => v[FPort := if s != Port then Run(p, 1) else Run(Offset(v, FPort), Length(v, FPort) + 1)]
    case Userinfo => v[FUserinfo := if s != Userinfo then Run(p, 1)
      else Run(Offset(v, FUserinfo), Length(v, FUserinfo) + 1)]
    case _ => v
  }

  /** A part is gone on with from its own states, and begun from states before them. */
  lemma HostStep(s: HostState, ch: byte, f: Field)
    requires HostFieldOf(HostNext(s, ch)) == Some(f)
    ensures HostFieldOf(s) == Some(f) || HostRank(s) < Lowest(f)
    ensures Lowest(f) <= HostRank(HostNext(s, ch))
  {
  }

  lemma HostNotedIs(v: Url, s: HostState, ch: byte, p: nat, f: Field)
    requires HostKnown(v, s, p) && HostFieldOf(HostNext(s, ch)) == Some(f)
    ensures HostNoted(v, s, HostNext(s, ch), p) == v[f := if f in v then Run(v[f].off, v[f].len + 1) else Run(p, 1)]
    ensures f in v ==> HostFieldOf(s) == Some(f) && End(v[f]) == p
  {
    HostStep(s, ch, f);
  }

  lemma HostNotedKnown(v: Url, s: HostState, ch: byte, p: nat)
    requires HostKnown(v, s, p) && HostNext(s, ch) != HostDead
    ensures HostKnown(HostNoted(v, s, HostNext(s, ch), p), HostNext(s, ch), p + 1)
  {
    var t := HostNext(s, ch);
    HostRankGrows(s, ch);
    if HostFieldOf(t).Some? {
      var f := HostFieldOf(t).value;
      HostNotedIs(v, s, ch, p, f);
      HostStep(s, ch, f);
    }
  }

  lemma HostNotedExact(at: bool, buf: seq<byte>, first: nat, v: Url, n: nat)
    requires first <= n < |buf| && HostExact(at, buf, first, v, n)
    requires HostKnown(v, HostStateAt(at, buf, first, n), n) && HostStateAt(at, buf, first, n + 1) != HostDead
    ensures HostExact(at, buf, first, HostNoted(v, HostStateAt(at, buf, first, n),
            HostStateAt(at, buf, first, n + 1), n), n + 1)
  {
    var s, t, m := HostStateAt(at, buf, first, n), HostStateAt(at, buf, first, n + 1), n + 1;
    var w := HostNoted(v, s, t, n);
    assert HostPartAt(at, buf, first, n) == HostFieldOf(t);
    if HostFieldOf(t).Some? {
      HostNotedIs(v, s, buf[n], n, HostFieldOf(t).value);
    }
    forall f ensures HostPartExact(at, buf, first, w, m, f) {
      assert HostPartExact(at, buf, first, v, n, f);
    }
  }

  lemma HostNotedInOrder(v: Url, s: HostState, ch: byte, p: nat)
    requires HostKnown(v, s, p) && InOrder(v)
    ensures InOrder(HostNoted(v, s, HostNext(s, ch), p))
  {
    var t := HostNext(s, ch);
    if HostFieldOf(t).Some? {
      var f := HostFieldOf(t).value;
      HostNotedIs(v, s, ch, p, f);
      HostStep(s, ch, f);
      var w := HostNoted(v, s, t, p);
      forall g, h | g in w && h in w && Place(g) < Place(h) ensures End(w[g]) <= w[h].off {
        assert g != f ==> g in v;
      }
    }
  }

  predicate HostScanned(at: bool, buf: seq<byte>, first: nat, n: nat, v: Url)
    requires first <= n <= |buf|
  {
    forall f :: HostFact(at, buf, first, n, v, f)
  }

  /** What is known of one part. */
  predicate HostFact(at: bool, buf: seq<byte>, first: nat, n: nat, v: Url, f: Field)
    requires first <= n <= |buf|
  {
    HostPartExact(at, buf, first, v, n, f) && InOrder(v) && HostKnown(v, HostStateAt(at, buf, first, n), n)
  }

  lemma HostScannedMeans(at: bool, buf: seq<byte>, first: nat, n: nat, v: Url)
    requires first <= n <= |buf|
    ensures HostScanned(at, buf, first, n, v) <==>
            HostExact(at, buf, first, v, n) && InOrder(v) && HostKnown(v, HostStateAt(at, buf, first, n), n)
  {
    if HostScanned(at, buf, first, n, v) {
      assert HostFact(at, buf, first, n, v, FHost);
      forall f ensures HostPartExact(at, buf, first, v, n, f) {
        assert HostFact(at, buf, first, n, v, f);
      }
    }
  }

  lemma HostScanStep(at: bool, buf: seq<byte>, first: nat, n: nat, v: Url)
    requires first <= n < |buf| && HostScanned(at, buf, first, n, v) && HostStateAt(at, buf, first, n + 1) != HostDead
    ensures HostScanned(at, buf, first, n + 1, HostNoted(v, HostStateAt(at, buf, first, n),
            HostStateAt(at, buf, first, n + 1), n))
  {
    var s := HostStateAt(at, buf, first, n);
    HostScannedMeans(at, buf, first, n, v);
    HostScannedMeans(at, buf, first, n + 1, HostNoted(v, s, HostStateAt(at, buf, first, n + 1), n));
    HostNotedKnown(v, s, buf[n], n);
    HostNotedExact(at, buf, first, v, n);
    HostNotedInOrder(v, s, buf[n], n);
  }

  /** The loop of `http_parse_host`, with the state it ends in. */
  method ScanServer(at: bool, buf: seq<byte>, first: nat, last: nat) returns (s: HostState, v: Url)
    requires first <= last <= |buf|
    ensures s == HostStateAt(at, buf, first, last)
    ensures s != HostDead ==> HostScanned(at, buf, first, last, v)
  {
    s := if at then UserinfoStart else HostStart;
    v := map[];
    var p := first;
    HostScannedMeans(at, buf, first, first, v);
    while p < last && s != HostDead
      invariant first <= p <= last && s == HostStateAt(at, buf, first, p)
      invariant s != HostDead ==> HostScanned(at, buf, first, p, v)
    {
      var t := HostNext(s, buf[p]);
      if t != HostDead {
        v := NoteHost(at, buf, first, p, s, t, v);
      }
      s := t;
      p := p + 1;
    }
    if s == HostDead {
      HostDeadStays(at, buf, first, p, last);
    }
  }

  /** The switch in the loop. */
  method NoteHost(ghost at: bool, ghost buf: seq<byte>, ghost first: nat, p: nat, s: HostState, t: HostState, v: Url)
    returns (w: Url)
    requires first <= p < |buf| && HostScanned(at, buf, first, p, v)
    requires s == HostStateAt(at, buf, first, p) && t == HostStateAt(at, buf, first, p + 1) && t != HostDead
    ensures HostScanned(at, buf, first, p + 1, w)
  {
    HostScanStep(at, buf, first, p, v);
    w := HostNoted(v, s, t, p);
  }

  /** The states a server part must not end in. */
  predicate Unfinished(s: HostState) {
    match s
    case HostStart => true
    case V6Start => true
    case V6 => true
    case V6ZoneStart => true
    case V6Zone => true
    case PortStart => true
    case Userinfo => true
    case UserinfoStart => true
    case _ => false
  }

  /** `http_parse_host` on the server part. */
  method ScanHost(at: bool, buf: seq<byte>, server: Run) returns (ok: bool, v: Url)
    requires End(server) <= |buf|
    ensures ok <==> Ends(HostStateAt(at, buf, server.off, End(server)))
    ensures ok ==> HostExact(at, buf, server.off, v, End(server)) && InOrder(v) && FHost in v
  {
    var s;
    s, v := ScanServer(at, buf, server.off, End(server));
    HostScannedMeans(at, buf, server.off, End(server), v);
    ok := s != HostDead && !Unfinished(s);
  }

  // ---------------------------------------------------------------------------
  // The port.

  predicate Digits(buf: seq<byte>, r: Run) {
    End(r) <= |buf| && forall k :: r.off <= k < End(r) ==> IsDigit(buf[k])
  }

  lemma PortDigits(at: bool, buf: seq<byte>, first: nat, n: nat, v: Url)
    requires first <= n <= |buf| && HostExact(at, buf, first, v, n) && FPort in v
    ensures Digits(buf, v[FPort])
  {
    assert HostPartExact(at, buf, first, v, n, FPort);
    forall k | v[FPort].off <= k < End(v[FPort]) ensures IsDigit(buf[k]) {
      assert HostPartAt(at, buf, first, k) == Some(FPort);
      assert HostStateAt(at, buf, first, k + 1) == HostNext(HostStateAt(at, buf, first, k), buf[k]);
    }
  }

  function PortNumber(buf: seq<byte>, r: Run): nat
    requires Digits(buf, r)
  {
    Decimal(buf, r.off, End(r))
  }

  /** Stops as soon as the value is too large. */
  method PortValue(buf: seq<byte>, r: Run) returns (ok: bool, value: nat)
    requires Digits(buf, r)
    ensures ok <==> PortNumber(buf, r) <= 0xffff
    ensures ok ==> value == PortNumber(buf, r)
  {
    value := 0;
    for p := r.off to End(r)
      invariant value == Decimal(buf, r.off, p) <= 0xffff
    {
      value := value * 10;
      value := value + (buf[p] as int - 48);
      if value > 0xffff {
        DecimalGrows(buf, r.off, p + 1, End(r));
        return false, 0;
      }
    }
    ok := true;
  }

  // ---------------------------------------------------------------------------
  // The whole.

  /** The server part is the run of the characters that belong to it, if there are any. */
  predicate ServerPart(connect: bool, buf: seq<byte>, server: Option<Run>) {
    && (server.Some? ==> 0 < server.value.len && End(server.value) <= |buf|)
    && forall k :: 0 <= k < |buf| ==>
         (PartAt(connect, buf, k) == Some(FHost) <==> server.Some? && server.value.off <= k < End(server.value))
  }

  /** The parts of the server part. */
  function HostParts(u: Url): Url {
    map f | f in u && (f == FUserinfo || f == FHost || f == FPort) :: u[f]
  }

  /** Every part is the run of the characters that belong to it. */
  predicate Parsed(connect: bool, buf: seq<byte>, server: Option<Run>, u: Url) {
    && ServerPart(connect, buf, server)
    && (forall f :: f == FScheme || f == FPath || f == FQuery || f == FFragment ==>
       PartExact(connect, buf, u, |buf|, f))
    && (if server.None? then HostParts(u) == map[]
        else FHost in u && HostExact(AtSeen(connect, buf, |buf|), buf, server.value.off, HostParts(u),
          End(server.value)))
  }

  /** Neither machine fails, and a scheme comes with a server part. */
  predicate Scannable(connect: bool, buf: seq<byte>, server: Option<Run>, u: Url) {
    && StateAt(connect, buf, |buf|) != Dead
    && (FScheme in u ==> server.Some?)
    && (server.Some? ==>
          && End(server.value) <= |buf|
          && Ends(HostStateAt(AtSeen(connect, buf, |buf|), buf, server.value.off, End(server.value))))
  }

  /** Only a host and a port are allowed with CONNECT, and a port is less than 65536. */
  predicate Permitted(connect: bool, buf: seq<byte>, u: Url) {
    && (connect ==> u.Keys == {FHost, FPort})
    && (FPort in u ==> Digits(buf, u[FPort]) && PortNumber(buf, u[FPort]) <= 0xffff)
  }

  /** What makes a URL with these parts acceptable. */
  predicate Acceptable(connect: bool, buf: seq<byte>, server: Option<Run>, u: Url) {
    buf != [] && Scannable(connect, buf, server, u) && Permitted(connect, buf, u)
  }

  /** What makes a URL acceptable: its parts do. */
  ghost predicate Accepts(connect: bool, buf: seq<byte>) {
    exists server, u :: Parsed(connect, buf, server, u) && Acceptable(connect, buf, server, u)
  }

  // The parts of a URL are determined by it.

  lemma SameRun(a: Run, b: Run, first: nat, n: nat)
    requires 0 < a.len && 0 < b.len && first <= a.off && first <= b.off && End(a) <= n && End(b) <= n
    requires forall k :: first <= k < n ==> (InRun(a, k) <==> InRun(b, k))
    ensures a == b
  {
    assert InRun(a, a.off) && InRun(a, End(a) - 1);
    assert InRun(b, b.off) && InRun(b, End(b) - 1);
  }

  predicate InRun(r: Run, k: int) {
    r.off <= k < End(r)
  }

  lemma ServerUnique(connect: bool, buf: seq<byte>, a: Option<Run>, b: Option<Run>)
    requires ServerPart(connect, buf, a) && ServerPart(connect, buf, b)
    ensures a == b
  {
    if a.Some? {
      assert PartAt(connect, buf, a.value.off) == Some(FHost);
    }
    if b.Some? {
      assert PartAt(connect, buf, b.value.off) == Some(FHost);
    }
    if a.Some? && b.Some? {
      forall k | 0 <= k < |buf| ensures InRun(a.value, k) <==> InRun(b.value, k) {
        assert PartAt(connect, buf, k) == Some(FHost) <==> InRun(a.value, k);
      }
      SameRun(a.value, b.value, 0, |buf|);
    }
  }

  /** Both have the part, with one run, or neither has it. */
  predicate SamePart(u: Url, v: Url, f: Field) {
    (f in u <==> f in v) && (f in u && f in v ==> u[f] == v[f])
  }

  lemma PartUnique(connect: bool, buf: seq<byte>, u: Url, v: Url, f: Field)
    requires PartExact(connect, buf, u, |buf|, f) && PartExact(connect, buf, v, |buf|, f)
    ensures SamePart(u, v, f)
  {
    if f in u {
      assert PartAt(connect, buf, u[f].off) == Some(f);
    }
    if f in v {
      assert PartAt(connect, buf, v[f].off) == Some(f);
    }
    if f in u && f in v {
      forall k | 0 <= k < |buf| ensures InRun(u[f], k) <==> InRun(v[f], k) {
        assert PartAt(connect, buf, k) == Some(f) <==> InRun(u[f], k);
      }
      SameRun(u[f], v[f], 0, |buf|);
    }
  }

  lemma HostPartUnique(at: bool, buf: seq<byte>, first: nat, n: nat, u: Url, v: Url, f: Field)
    requires first <= n <= |buf| && HostPartExact(at, buf, first, u, n, f) && HostPartExact(at, buf, first, v, n, f)
    ensures SamePart(u, v, f)
  {
    if f in u {
      assert HostPartAt(at, buf, first, u[f].off) == Some(f);
    }
    if f in v {
      assert HostPartAt(at, buf, first, v[f].off) == Some(f);
    }
    if f in u && f in v {
      forall k | first <= k < n ensures InRun(u[f], k) <==> InRun(v[f], k) {
        assert HostPartAt(at, buf, first, k) == Some(f) <==> InRun(u[f], k);
      }
      SameRun(u[f], v[f], first, n);
    }
  }

  /** A URL has one server part and one map of parts. */
  lemma ParsedUnique(connect: bool, buf: seq<byte>, a: Option<Run>, u: Url, b: Option<Run>, v: Url)
    requires Parsed(connect, buf, a, u) && Parsed(connect, buf, b, v)
    ensures a == b && u == v
  {
    ServerUnique(connect, buf, a, b);
    forall f ensures SamePart(u, v, f) {
      if f == FScheme || f == FPath || f == FQuery || f == FFragment {
        PartUnique(connect, buf, u, v, f);
      } else {
        assert f in u <==> f in HostParts(u);
        assert f in v <==> f in HostParts(v);
        if a.Some? {
          var at, first, n := AtSeen(connect, buf, |buf|), a.value.off, End(a.value);
          assert HostPartExact(at, buf, first, HostParts(u), n, f) && HostPartExact(at, buf, first, HostParts(v), n, f);
          HostPartUnique(at, buf, first, n, HostParts(u), HostParts(v), f);
        }
      }
    }
    SameParts(u, v);
  }

  lemma SameParts(u: Url, v: Url)
    requires forall f :: SamePart(u, v, f)
    ensures u == v
  {
    forall f | f in u.Keys ensures f in v.Keys && u[f] == v[f] {
      assert SamePart(u, v, f);
    }
    forall f | f in v.Keys ensures f in u.Keys {
      assert SamePart(u, v, f);
    }
  }

  /** The parts that the first scan sets. */
  lemma ScanSets(connect: bool, buf: seq<byte>, u: Url, f: Field)
    requires Exact(connect, buf, u, |buf|) && f in u
    ensures f != FUserinfo && f != FPort && 0 < u[f].len && End(u[f]) <= |buf|
  {
    assert PartExact(connect, buf, u, |buf|, f);
    assert PartAt(connect, buf, u[f].off) == Some(f);
  }

  /** The parts with those of the server part in its place. */
  function Merged(u: Url, v: Url): Url {
    u - {FHost} + v
  }

  lemma MergedInOrder(connect: bool, at: bool, buf: seq<byte>, u: Url, v: Url)
    requires Exact(connect, buf, u, |buf|) && InOrder(u) && FHost in u && End(u[FHost]) <= |buf|
    requires HostExact(at, buf, u[FHost].off, v, End(u[FHost])) && InOrder(v)
    ensures InOrder(Merged(u, v))
  {
    var w := Merged(u, v);
    forall f, g | f in w && g in w && Place(f) < Place(g) ensures End(w[f]) <= w[g].off {
      HostSets(at, buf, u[FHost].off, End(u[FHost]), v, f);
      HostSets(at, buf, u[FHost].off, End(u[FHost]), v, g);
      if f in u {
        ScanSets(connect, buf, u, f);
      }
      if g in u {
        ScanSets(connect, buf, u, g);
      }
    }
  }

  lemma HostSets(at: bool, buf: seq<byte>, first: nat, n: nat, v: Url, f: Field)
    requires first <= n <= |buf| && HostExact(at, buf, first, v, n)
    ensures f in v ==> f == FUserinfo || f == FHost || f == FPort
    ensures f in v ==> 0 < v[f].len && first <= v[f].off && End(v[f]) <= n
  {
    assert HostPartExact(at, buf, first, v, n, f);
    if f in v {
      assert HostPartAt(at, buf, first, v[f].off) == Some(f);
    }
  }

  lemma MergedParsed(connect: bool, buf: seq<byte>, u: Url, v: Url)
    requires Exact(connect, buf, u, |buf|) && FHost in u && FHost in v && End(u[FHost]) <= |buf|
    requires HostExact(AtSeen(connect, buf, |buf|), buf, u[FHost].off, v, End(u[FHost]))
    ensures Parsed(connect, buf, Some(u[FHost]), Merged(u, v))
  {
    var w, at := Merged(u, v), AtSeen(connect, buf, |buf|);
    assert PartExact(connect, buf, u, |buf|, FHost);
    forall f | f == FScheme || f == FPath || f == FQuery || f == FFragment
      ensures PartExact(connect, buf, w, |buf|, f) {
      HostSets(at, buf, u[FHost].off, End(u[FHost]), v, f);
      assert PartExact(connect, buf, u, |buf|, f);
    }
    assert HostParts(w) == v by {
      forall f ensures f in HostParts(w) <==> f in v {
        HostSets(at, buf, u[FHost].off, End(u[FHost]), v, f);
        if f in u {
          ScanSets(connect, buf, u, f);
        }
      }
    }
  }

  lemma PlainParsed(connect: bool, buf: seq<byte>, u: Url)
    requires Exact(connect, buf, u, |buf|) && FHost !in u
    ensures Parsed(connect, buf, None, u)
  {
    assert PartExact(connect, buf, u, |buf|, FHost);
    forall f ensures f !in HostParts(u) {
      if f in u {
        ScanSets(connect, buf, u, f);
      }
    }
    assert HostParts(u) == map[];
  }

  lemma PartsInside(connect: bool, buf: seq<byte>, server: Option<Run>, u: Url, f: Field)
    requires Parsed(connect, buf, server, u) && f in u
    ensures 0 < u[f].len && End(u[f]) <= |buf|
  {
    if f == FScheme || f == FPath || f == FQuery || f == FFragment {
      assert PartExact(connect, buf, u, |buf|, f);
    } else {
      assert f in HostParts(u);
      HostSets(AtSeen(connect, buf, |buf|), buf, server.value.off, End(server.value), HostParts(u), f);
    }
  }

  /** The parts found decide, since there are no others. */
  lemma Decides(connect: bool, buf: seq<byte>, server: Option<Run>, u: Url)
    requires Parsed(connect, buf, server, u)
    ensures Accepts(connect, buf) <==> Acceptable(connect, buf, server, u)
  {
    if Accepts(connect, buf) {
      var s, v :| Parsed(connect, buf, s, v) && Acceptable(connect, buf, s, v);
      ParsedUnique(connect, buf, server, u, s, v);
    }
  }
}
