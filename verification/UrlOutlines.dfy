/**
 * What the two machines read, as texts: an outline is the parts read so far, and a machine is in a state exactly
 * when the characters read are those of an outline of that state's shape.
 */
module UrlOutlines {
  import opened Bytes
  import opened UrlGrammar
  import opened UrlScans

  type text = seq<byte>

  const COLON: byte := 58
  const AT: byte := 64
  const HASH: byte := 35
  const STAR: byte := 42
  const OPEN: byte := 91
  const CLOSE: byte := 93
  const ZONE: byte := 37

  // ---------------------------------------------------------------------------
  // The characters of the parts.

  predicate Letters(t: text) { forall c :: c in t ==> IsAlpha(c) }

  /** Nothing but printable characters without `?` and `#`. */
  predicate UrlText(t: text) { forall c :: c in t ==> IsUrlChar(c) }

  predicate QueryText(t: text) { forall c :: c in t ==> IsUrlChar(c) || c == QUESTION }

  /** A fragment, or none: it does not begin with `#`. */
  predicate FragmentText(t: text) {
    (t != [] ==> t[0] != HASH) && forall c :: c in t ==> IsUrlChar(c) || c == QUESTION || c == HASH
  }

  /** What the first machine lets through as a server part. */
  predicate ServerText(t: text) {
    && (forall c :: c in t ==> IsUserinfoChar(c) || c == AT || c == OPEN || c == CLOSE)
    && forall i :: 0 <= i < |t| - 1 ==> !(t[i] == AT && t[i + 1] == AT)
  }

  // ---------------------------------------------------------------------------
  // Outlines of a URL.

  /** `slashes` counts the characters read of `://`, and `hashes` those before the fragment. */
  datatype Outline = Outline(
    scheme: text, slashes: nat, server: text, path: text, query: Option<text>, hashes: nat, fragment: text)

  const EMPTY := Outline([], 0, [], [], None, 0, [])

  function Delimiter(n: nat): text
    requires n <= 3
  {
    [COLON, SLASH, SLASH][..n]
  }

  function Hashes(n: nat): (t: text)
    ensures |t| == n
  {
    seq(n, _ => HASH)
  }

  function Asked(query: Option<text>): text {
    if query.Some? then [QUESTION] + query.value else []
  }

  function FrontText(o: Outline): text
    requires o.slashes <= 3
  {
    o.scheme + Delimiter(o.slashes) + o.server
  }

  function TailText(o: Outline): text {
    Asked(o.query) + (Hashes(o.hashes) + o.fragment)
  }

  function OutlineText(o: Outline): text
    requires o.slashes <= 3
  {
    FrontText(o) + o.path + TailText(o)
  }

  /** There is a scheme, or none is needed. */
  predicate Front(connect: bool, o: Outline) {
    if connect then o.scheme == [] && o.slashes == 0 else o.scheme != [] && Letters(o.scheme) && o.slashes == 3
  }

  /** The path may begin here. */
  predicate Base(connect: bool, o: Outline) {
    if o.scheme == [] && !connect then o.slashes == 0 && o.server == [] else Front(connect, o) && ServerText(o.server)
  }

  predicate PathOk(connect: bool, o: Outline) {
    && UrlText(o.path)
    && if o.scheme == [] && !connect then o.path != [] && (o.path[0] == SLASH || o.path[0] == STAR)
       else o.path == [] || o.path[0] == SLASH
  }

  predicate QueryOk(o: Outline) {
    o.query.Some? ==> QueryText(o.query.value)
  }

  /** No part has been read behind the server part, the path, the query. */
  predicate EndsAtServer(o: Outline) { o.path == [] && EndsAtPath(o) }

  predicate EndsAtPath(o: Outline) { o.query == None && EndsAtQuery(o) }

  predicate EndsAtQuery(o: Outline) { o.hashes == 0 && o.fragment == [] }

  predicate Shaped(connect: bool, o: Outline, s: State) {
    && o.slashes <= 3
    && match s
       case BeforeUrl => !connect && o == EMPTY
       case Schema => !connect && o == EMPTY.(scheme := o.scheme) && o.scheme != [] && Letters(o.scheme)
       case SchemaSlash =>
         !connect && o == EMPTY.(scheme := o.scheme, slashes := 1) && o.scheme != [] && Letters(o.scheme)
       case SchemaSlashSlash =>
         !connect && o == EMPTY.(scheme := o.scheme, slashes := 2) && o.scheme != [] && Letters(o.scheme)
       case ServerStart => Front(connect, o) && o.server == [] && EndsAtServer(o)
       case Server =>
         Front(connect, o) && o.server != [] && ServerText(o.server) && o.server[|o.server| - 1] != AT &&
           EndsAtServer(o)
       case ServerWithAt =>
         Front(connect, o) && o.server != [] && ServerText(o.server) && o.server[|o.server| - 1] == AT &&
           EndsAtServer(o)
       case Path => Base(connect, o) && o.path != [] && PathOk(connect, o) && EndsAtPath(o)
       case QueryStart => Base(connect, o) && PathOk(connect, o) && o.query == Some([]) && EndsAtQuery(o)
       case Query =>
         && Base(connect, o) && PathOk(connect, o) && o.query.Some? && o.query.value != [] && QueryOk(o)
         && EndsAtQuery(o)
       case FragmentStart =>
         && Base(connect, o) && PathOk(connect, o) && QueryOk(o) && (o.path != [] || o.query.Some?)
         && o.hashes > 0 && o.fragment == []
       case Fragment =>
         && Base(connect, o) && PathOk(connect, o) && QueryOk(o) && (o.path != [] || o.query.Some?)
         && o.hashes > 0 && o.fragment != [] && FragmentText(o.fragment)
       case Dead => false
  }

  ghost predicate Fits(connect: bool, o: Outline, s: State) {
    forall r :: r == s ==> Shaped(connect, o, r)
  }

  /** The outline after one character more, which leads to state t. */
  function Push(o: Outline, t: State, ch: byte): Outline {
    match t
    case Schema => o.(scheme := o.scheme + [ch])
    case SchemaSlash => o.(slashes := o.slashes + 1)
    case SchemaSlashSlash => o.(slashes := o.slashes + 1)
    case ServerStart => o.(slashes := o.slashes + 1)
    case Server => o.(server := o.server + [ch])
    case ServerWithAt => o.(server := o.server + [ch])
    case Path => o.(path := o.path + [ch])
    case QueryStart => o.(query := Some([]))
    case Query => o.(query := Some((if o.query.Some? then o.query.value else []) + [ch]))
    case FragmentStart => o.(hashes := o.hashes + 1)
    case Fragment => o.(fragment := o.fragment + [ch])
    case _ => o
  }

  /** Nothing stands behind the place where a character that leads to state t is put. */
  predicate Bare(o: Outline, t: State, ch: byte) {
    match t
    case Schema => o == EMPTY.(scheme := o.scheme)
    case SchemaSlash => o == EMPTY.(scheme := o.scheme) && ch == COLON
    case SchemaSlashSlash => o == EMPTY.(scheme := o.scheme, slashes := 1) && ch == SLASH
    case ServerStart => o == EMPTY.(scheme := o.scheme, slashes := 2) && ch == SLASH
    case Server => EndsAtServer(o)
    case ServerWithAt => EndsAtServer(o)
    case Path => EndsAtPath(o)
    case QueryStart => EndsAtPath(o) && ch == QUESTION
    case Query => o.query.Some? && EndsAtQuery(o)
    case FragmentStart => o.fragment == [] && ch == HASH
    case Fragment => true
    case _ => false
  }

  lemma PushBare(connect: bool, o: Outline, s: State, ch: byte)
    requires Shaped(connect, o, s) && Next(s, ch) != Dead
    ensures Bare(o, Next(s, ch), ch)
  {
  }

  lemma PushScheme(connect: bool, o: Outline, s: State, ch: byte)
    requires Shaped(connect, o, s) && Rank(Next(s, ch)) <= 4
    ensures Shaped(connect, Push(o, Next(s, ch), ch), Next(s, ch))
  {
  }

  lemma PushServer(connect: bool, o: Outline, s: State, ch: byte)
    requires Shaped(connect, o, s) && Rank(Next(s, ch)) == 5
    ensures Shaped(connect, Push(o, Next(s, ch), ch), Next(s, ch))
  {
    ServerMore(o.server, ch);
  }

  lemma ServerMore(t: text, ch: byte)
    requires ServerText(t) && (IsUserinfoChar(ch) || ch == AT || ch == OPEN || ch == CLOSE)
    requires t != [] && t[|t| - 1] == AT ==> ch != AT
    ensures ServerText(t + [ch])
  {
    var u := t + [ch];
    forall i | 0 <= i < |u| - 1 ensures !(u[i] == AT && u[i + 1] == AT) {
      if i < |t| - 1 {
        assert !(t[i] == AT && t[i + 1] == AT);
      }
    }
  }

  lemma PushPath(connect: bool, o: Outline, s: State, ch: byte)
    requires Shaped(connect, o, s) && Next(s, ch) == Path
    ensures Shaped(connect, Push(o, Next(s, ch), ch), Next(s, ch))
  {
  }

  lemma PushQuery(connect: bool, o: Outline, s: State, ch: byte)
    requires Shaped(connect, o, s) && 7 <= Rank(Next(s, ch)) <= 8
    ensures Shaped(connect, Push(o, Next(s, ch), ch), Next(s, ch))
  {
  }

  lemma PushFragment(connect: bool, o: Outline, s: State, ch: byte)
    requires Shaped(connect, o, s) && 9 <= Rank(Next(s, ch)) <= 10
    ensures Shaped(connect, Push(o, Next(s, ch), ch), Next(s, ch))
  {
  }

  lemma PushShaped(connect: bool, o: Outline, s: State, ch: byte)
    requires Shaped(connect, o, s) && Next(s, ch) != Dead
    ensures Shaped(connect, Push(o, Next(s, ch), ch), Next(s, ch))
  {
    var n := Rank(Next(s, ch));
    if n <= 4 {
      PushScheme(connect, o, s, ch);
    } else if n == 5 {
      PushServer(connect, o, s, ch);
    } else if n == 6 {
      PushPath(connect, o, s, ch);
    } else if n <= 8 {
      PushQuery(connect, o, s, ch);
    } else {
      PushFragment(connect, o, s, ch);
    }
  }

  lemma FrontPushText(o: Outline, t: State, ch: byte)
    requires o.slashes <= 3 && Bare(o, t, ch) && Rank(t) <= 5
    ensures Push(o, t, ch).slashes <= 3 && FrontText(Push(o, t, ch)) == FrontText(o) + [ch]
    ensures o.path == Push(o, t, ch).path == [] && TailText(o) == TailText(Push(o, t, ch)) == []
  {
    assert Rank(t) <= 4 ==> o.server == [];
  }

  lemma TailPushText(o: Outline, t: State, ch: byte)
    requires Bare(o, t, ch) && 7 <= Rank(t)
    ensures Push(o, t, ch).path == o.path && TailText(Push(o, t, ch)) == TailText(o) + [ch]
  {
  }

  lemma PushText(o: Outline, t: State, ch: byte)
    requires o.slashes <= 3 && Bare(o, t, ch)
    ensures Push(o, t, ch).slashes <= 3 && OutlineText(Push(o, t, ch)) == OutlineText(o) + [ch]
  {
    if Rank(t) <= 5 {
      FrontPushText(o, t, ch);
    } else if t == Path {
      assert TailText(o) == [];
    } else {
      TailPushText(o, t, ch);
    }
  }

  /** The state behind a server part. */
  function AfterServer(server: text): State {
    if server == [] then ServerStart else if server[|server| - 1] == AT then ServerWithAt else Server
  }

  /** The state behind a path or a query. */
  function AfterQuery(o: Outline): State {
    if o.query == None then (if o.path == [] then AfterServer(o.server) else Path)
    else if o.query == Some([]) then QueryStart else Query
  }

  /** The outline and the state before the last character. */
  function Before(connect: bool, o: Outline, s: State): (Outline, State)
    requires s == Query ==> o.query.Some?
  {
    match s
    case Schema => var t := Init(o.scheme); (o.(scheme := t), if t == [] then BeforeUrl else Schema)
    case SchemaSlash => (o.(slashes := 0), Schema)
    case SchemaSlashSlash => (o.(slashes := 1), SchemaSlash)
    case ServerStart => (o.(slashes := 2), SchemaSlashSlash)
    case Server => var t := Init(o.server); (o.(server := t), AfterServer(t))
    case ServerWithAt => var t := Init(o.server); (o.(server := t), AfterServer(t))
    case Path =>
      var t := Init(o.path);
      (o.(path := t), if t != [] then Path else if o.scheme == [] && !connect then BeforeUrl else AfterServer(o.server))
    case QueryStart => (o.(query := None), AfterQuery(o.(query := None)))
    case Query => var t := Init(o.query.value); (o.(query := Some(t)), if t == [] then QueryStart else Query)
    case FragmentStart =>
      if o.hashes > 1 then (o.(hashes := o.hashes - 1), FragmentStart) else (o.(hashes := 0), AfterQuery(o))
    case Fragment => var t := Init(o.fragment); (o.(fragment := t), if t == [] then FragmentStart else Fragment)
    case _ => (o, s)
  }

  function Init(t: text): text {
    if t == [] then [] else t[..|t| - 1]
  }

  /** The last character. */
  function Latest(o: Outline, s: State): byte
    requires s == Query ==> o.query.Some?
  {
    match s
    case Schema => Last(o.scheme)
    case SchemaSlash => COLON
    case Server => Last(o.server)
    case ServerWithAt => AT
    case Path => Last(o.path)
    case QueryStart => QUESTION
    case Query => Last(o.query.value)
    case FragmentStart => HASH
    case Fragment => Last(o.fragment)
    case _ => SLASH
  }

  function Last(t: text): byte {
    if t == [] then 0 else t[|t| - 1]
  }

  lemma InitLast(t: text)
    requires t != []
    ensures t == Init(t) + [Last(t)]
  {
  }

  /** An outline that comes from one with a character less. */
  predicate Comes(connect: bool, o: Outline, s: State)
    requires s == Query ==> o.query.Some?
  {
    var ((p, r), ch) := (Before(connect, o, s), Latest(o, s));
    Shaped(connect, p, r) && Next(r, ch) == s && Push(p, s, ch) == o
  }

  lemma SchemeComes(connect: bool, o: Outline, s: State)
    requires Shaped(connect, o, s) && Rank(s) <= 4 && s != BeforeUrl && !(connect && s == ServerStart)
    ensures Comes(connect, o, s)
  {
    if s == Schema {
      InitLast(o.scheme);
      assert Last(o.scheme) in o.scheme;
    }
  }

  lemma ServerComes(connect: bool, o: Outline, s: State)
    requires Shaped(connect, o, s) && Rank(s) == 5
    ensures Comes(connect, o, s)
  {
    var p := o.(server := Init(o.server));
    InitLast(o.server);
    ServerNext(o.server);
    assert Shaped(connect, p, AfterServer(p.server));
    assert Before(connect, o, s) == (p, AfterServer(p.server)) && Latest(o, s) == Last(o.server);
  }

  lemma ServerNext(t: text)
    requires t != [] && ServerText(t)
    ensures ServerText(Init(t)) && Next(AfterServer(Init(t)), Last(t)) == AfterServer(t)
  {
    ServerInit(t);
  }

  lemma ServerInit(t: text)
    requires t != [] && ServerText(t)
    ensures ServerText(Init(t)) && (Init(t) != [] && Last(Init(t)) == AT ==> Last(t) != AT)
    ensures IsUserinfoChar(Last(t)) || Last(t) == AT || Last(t) == OPEN || Last(t) == CLOSE
  {
    var u := Init(t);
    assert Last(t) in t;
    assert forall c :: c in u ==> c in t;
    forall i | 0 <= i < |u| - 1 ensures !(u[i] == AT && u[i + 1] == AT) {
      assert u[i] == t[i] && u[i + 1] == t[i + 1];
    }
    if u != [] {
      var i := |u| - 1;
      assert !(t[i] == AT && t[i + 1] == AT);
    }
  }

  lemma PathComes(connect: bool, o: Outline, s: State)
    requires Shaped(connect, o, s) && s == Path
    ensures Comes(connect, o, s)
  {
    InitLast(o.path);
    assert Last(o.path) in o.path;
  }

  lemma QueryComes(connect: bool, o: Outline, s: State)
    requires Shaped(connect, o, s) && 7 <= Rank(s) <= 8
    ensures Comes(connect, o, s)
  {
    if s == Query {
      InitLast(o.query.value);
      assert Last(o.query.value) in o.query.value;
    }
  }

  lemma HashComes(connect: bool, o: Outline)
    requires Shaped(connect, o, FragmentStart)
    ensures Comes(connect, o, FragmentStart)
  {
  }

  lemma FragmentComes(connect: bool, o: Outline)
    requires Shaped(connect, o, Fragment)
    ensures Comes(connect, o, Fragment)
  {
    InitLast(o.fragment);
    FragmentInit(o.fragment);
  }

  lemma FragmentInit(t: text)
    requires t != [] && FragmentText(t)
    ensures FragmentText(Init(t)) && Next(if Init(t) == [] then FragmentStart else Fragment, Last(t)) == Fragment
  {
    assert Last(t) in t;
  }

  /** Every outline but the first of a machine does. */
  lemma EachComes(connect: bool, o: Outline, s: State)
    requires Shaped(connect, o, s) && s != BeforeUrl && !(connect && s == ServerStart)
    ensures Comes(connect, o, s)
  {
    if Rank(s) <= 4 {
      SchemeComes(connect, o, s);
    } else if Rank(s) == 5 {
      ServerComes(connect, o, s);
    } else if s == Path {
      PathComes(connect, o, s);
    } else if Rank(s) <= 8 {
      QueryComes(connect, o, s);
    } else if s == FragmentStart {
      HashComes(connect, o);
    } else {
      FragmentComes(connect, o);
    }
  }

  // ---------------------------------------------------------------------------
  // Where the parts of an outline are.

  function PartOf(o: Outline, f: Field): text {
    match f
    case FScheme => o.scheme
    case FHost => o.server
    case FPath => o.path
    case FQuery => if o.query.Some? then o.query.value else []
    case FFragment => o.fragment
    case _ => []
  }

  function PlaceOf(o: Outline, f: Field): nat {
    match f
    case FHost => |o.scheme| + o.slashes
    case FPath => |o.scheme| + o.slashes + |o.server|
    case FQuery => |o.scheme| + o.slashes + |o.server| + |o.path| + 1
    case FFragment => |o.scheme| + o.slashes + |o.server| + |o.path| + |Asked(o.query)| + o.hashes
    case _ => 0
  }

  function OutlineRuns(o: Outline): Url {
    map f | f in {FScheme, FHost, FPath, FQuery, FFragment} && PartOf(o, f) != [] :: Run(PlaceOf(o, f), |PartOf(o, f)|)
  }

  function OutlineLength(o: Outline): nat {
    |o.scheme| + o.slashes + |o.server| + |o.path| + |Asked(o.query)| + o.hashes + |o.fragment|
  }

  lemma OutlineLengthIs(o: Outline)
    requires o.slashes <= 3
    ensures |OutlineText(o)| == OutlineLength(o)
  {
  }

  /** A character that belongs to a part is put at its end, and every other part stays where it is. */
  lemma PushPart(o: Outline, t: State, ch: byte, f: Field)
    requires Bare(o, t, ch)
    ensures var p := Push(o, t, ch);
            if FieldOf(t) == Some(f) then
              && PartOf(p, f) == PartOf(o, f) + [ch] && PlaceOf(p, f) + |PartOf(o, f)| == OutlineLength(o)
              && (PartOf(o, f) != [] ==> PlaceOf(p, f) == PlaceOf(o, f))
            else PartOf(p, f) == PartOf(o, f) && (PartOf(o, f) != [] ==> PlaceOf(p, f) == PlaceOf(o, f))
  {
    match f
    case FScheme =>
    case FHost =>
    case FPath =>
    case FQuery =>
    case FFragment =>
    case _ =>
  }

  lemma PushExact(connect: bool, buf: text, n: nat, o: Outline)
    requires n < |buf| && Bare(o, StateAt(connect, buf, n + 1), buf[n]) && OutlineLength(o) == n
    requires Exact(connect, buf, OutlineRuns(o), n)
    ensures Exact(connect, buf, OutlineRuns(Push(o, StateAt(connect, buf, n + 1), buf[n])), n + 1)
  {
    var p, m := Push(o, StateAt(connect, buf, n + 1), buf[n]), n + 1;
    forall f ensures PartExact(connect, buf, OutlineRuns(p), m, f) {
      PushPart(o, StateAt(connect, buf, n + 1), buf[n], f);
      assert PartExact(connect, buf, OutlineRuns(o), n, f);
      RunOf(o, f);
      RunOf(p, f);
      PartGrows(connect, buf, n, OutlineRuns(o), OutlineRuns(p), f);
    }
  }

  lemma RunOf(o: Outline, f: Field)
    ensures f in OutlineRuns(o) <==> PartOf(o, f) != []
    ensures f in OutlineRuns(o) ==> OutlineRuns(o)[f] == Run(PlaceOf(o, f), |PartOf(o, f)|)
  {
  }

  lemma PartGrows(connect: bool, buf: text, n: nat, u: Url, v: Url, f: Field)
    requires n < |buf| && PartExact(connect, buf, u, n, f)
    requires PartAt(connect, buf, n) == Some(f) ==>
               f in v && v[f] == (if f in u then Run(u[f].off, u[f].len + 1) else Run(n, 1)) &&
                 (f in u ==> End(u[f]) == n)
    requires PartAt(connect, buf, n) != Some(f) ==> SamePart(u, v, f)
    ensures PartExact(connect, buf, v, n + 1, f)
  {
  }

  // ---------------------------------------------------------------------------
  // The machine reads outlines, and nothing else.

  /** The first n characters are those of the outline, with its parts where the machine finds them. */
  ghost predicate Reads(connect: bool, buf: text, n: nat, o: Outline) {
    n <= |buf| && o.slashes <= 3 && forall f :: ReadFact(connect, buf, n, o, f)
  }

  ghost predicate ReadFact(connect: bool, buf: text, n: nat, o: Outline, f: Field)
    requires n <= |buf| && o.slashes <= 3
  {
    && Shaped(connect, o, StateAt(connect, buf, n)) && OutlineText(o) == buf[..n]
    && PartExact(connect, buf, OutlineRuns(o), n, f)
    && (AtSeen(connect, buf, n) <==> AT in o.server)
  }

  lemma ReadsMeans(connect: bool, buf: text, n: nat, o: Outline)
    ensures Reads(connect, buf, n, o) <==>
            && n <= |buf| && Shaped(connect, o, StateAt(connect, buf, n)) && OutlineText(o) == buf[..n]
            && Exact(connect, buf, OutlineRuns(o), n) && (AtSeen(connect, buf, n) <==> AT in o.server)
  {
    if Reads(connect, buf, n, o) {
      assert ReadFact(connect, buf, n, o, FHost);
      forall f ensures PartExact(connect, buf, OutlineRuns(o), n, f) {
        assert ReadFact(connect, buf, n, o, f);
      }
    }
  }

  lemma ReadsNothing(connect: bool, buf: text)
    ensures Reads(connect, buf, 0, EMPTY)
  {
    assert OutlineText(EMPTY) == [];
    forall f ensures PartExact(connect, buf, OutlineRuns(EMPTY), 0, f) {
    }
    ReadsMeans(connect, buf, 0, EMPTY);
  }

  lemma ReadsMore(connect: bool, buf: text, n: nat, o: Outline)
    requires n < |buf| && Reads(connect, buf, n, o) && StateAt(connect, buf, n + 1) != Dead
    ensures Reads(connect, buf, n + 1, Push(o, StateAt(connect, buf, n + 1), buf[n]))
  {
    var s, t := StateAt(connect, buf, n), StateAt(connect, buf, n + 1);
    ReadsMeans(connect, buf, n, o);
    OutlineLengthIs(o);
    PushShaped(connect, o, s, buf[n]);
    PushBare(connect, o, s, buf[n]);
    PushText(o, t, buf[n]);
    PushExact(connect, buf, n, o);
    PushAt(connect, o, s, buf[n]);
    assert buf[..n + 1] == buf[..n] + [buf[n]];
    ReadsMeans(connect, buf, n + 1, Push(o, t, buf[n]));
  }

  lemma PushAt(connect: bool, o: Outline, s: State, ch: byte)
    requires Shaped(connect, o, s) && Next(s, ch) != Dead
    ensures AT in Push(o, Next(s, ch), ch).server <==> AT in o.server || Next(s, ch) == ServerWithAt
  {
  }

  /** Whatever the machine reads is some outline. */
  lemma {:induction false} ReadsSome(connect: bool, buf: text, n: nat) returns (o: Outline)
    requires n <= |buf| && StateAt(connect, buf, n) != Dead
    ensures Reads(connect, buf, n, o)
  {
    if n == 0 {
      ReadsNothing(connect, buf);
      o := EMPTY;
    } else {
      var p := ReadsSome(connect, buf, n - 1);
      ReadsMore(connect, buf, n - 1, p);
      o := Push(p, StateAt(connect, buf, n), buf[n - 1]);
    }
  }

  /** Whatever outline is given is read. */
  lemma {:induction false} ReadsEach(connect: bool, buf: text, n: nat, o: Outline, s: State)
    requires n <= |buf| && o.slashes <= 3 && Fits(connect, o, s) && OutlineText(o) == buf[..n]
    ensures StateAt(connect, buf, n) == s && Reads(connect, buf, n, o)
  {
    if s == BeforeUrl || (connect && s == ServerStart) {
      FirstOutline(connect, o, s);
      ReadsNothing(connect, buf);
    } else {
      var p, r, ch := ComesFrom(connect, o, s);
      LastOff(buf, n, OutlineText(p), ch);
      ReadsEach(connect, buf, n - 1, p, r);
      ReadsThat(connect, buf, n - 1, p, r, o, s);
    }
  }

  lemma FirstOutline(connect: bool, o: Outline, s: State)
    requires Fits(connect, o, s) && (s == BeforeUrl || (connect && s == ServerStart))
    ensures o == EMPTY && OutlineText(EMPTY) == [] && s == if connect then ServerStart else BeforeUrl
  {
    assert Shaped(connect, o, s);
  }

  lemma ReadsThat(connect: bool, buf: text, n: nat, p: Outline, r: State, o: Outline, s: State)
    requires n < |buf| && Reads(connect, buf, n, p) && StateAt(connect, buf, n) == r && Next(r, buf[n]) == s != Dead
    requires Push(p, s, buf[n]) == o
    ensures StateAt(connect, buf, n + 1) == s && Reads(connect, buf, n + 1, o)
  {
    ReadsMore(connect, buf, n, p);
  }

  lemma LastOff(buf: text, n: nat, t: text, ch: byte)
    requires n <= |buf| && buf[..n] == t + [ch]
    ensures 0 < n && buf[n - 1] == ch && buf[..n - 1] == t
  {
    assert |buf[..n]| == |t| + 1;
    assert buf[..n][|t|] == ch;
    assert buf[..n - 1] == buf[..n][..|t|];
  }

  lemma ComesFrom(connect: bool, o: Outline, s: State) returns (p: Outline, r: State, ch: byte)
    requires o.slashes <= 3 && Fits(connect, o, s) && s != BeforeUrl && !(connect && s == ServerStart)
    ensures p.slashes <= 3 && Fits(connect, p, r) && Next(r, ch) == s != Dead && Push(p, s, ch) == o
    ensures OutlineText(o) == OutlineText(p) + [ch]
  {
    assert Shaped(connect, o, s);
    var b := Before(connect, o, s);
    p, r, ch := b.0, b.1, Latest(o, s);
    EachComes(connect, o, s);
    PushBare(connect, p, r, ch);
    PushText(p, s, ch);
  }
}
