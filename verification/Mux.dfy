/** The request multiplexer: redirects to cleaned paths, and the choice of a handler by longest pattern. */
module Mux {
  import opened Bytes
  import opened Paths
  import Percent
  import PathJoin

  // ---------------------------------------------------------------------------
  // Request targets.

  /** A target as `split_path` leaves it. */
  datatype Target = Target(path: seq<byte>, rawPath: seq<byte>, rawQuery: seq<byte>)

  /** The index of the first question mark, or the length. */
  function QueryMark(s: seq<byte>): (i: nat)
    ensures i <= |s| && (i < |s| ==> s[i] == QUESTION)
    ensures forall j :: 0 <= j < i ==> s[j] != QUESTION
  {
    MarkFrom(s, 0)
  }

  function MarkFrom(s: seq<byte>, i: nat): (r: nat)
    requires i <= |s|
    ensures i <= r <= |s| && (r < |s| ==> s[r] == QUESTION)
    ensures forall j :: i <= j < r ==> s[j] != QUESTION
    decreases |s| - i
  {
    if i == |s| || s[i] == QUESTION then i else MarkFrom(s, i + 1)
  }

  function SplitAt(s: seq<byte>, i: nat): Target
    requires i <= |s|
  {
    Target(Percent.Decode(s[..i]), s[..i], if i == |s| then [] else s[i + 1..])
  }

  function Split(s: seq<byte>): Target {
    SplitAt(s, QueryMark(s))
  }

  method SplitPath(s: seq<byte>) returns (t: Target)
    ensures t == Split(s)
  {
    var pathLast := 0;
    while pathLast < |s| && s[pathLast] != QUESTION
      invariant pathLast <= |s| && MarkFrom(s, pathLast) == QueryMark(s)
    {
      pathLast := pathLast + 1;
    }
    var queryFirst := if pathLast == |s| then pathLast else pathLast + 1;
    var path := Percent.DecodePath(s[..pathLast]);
    t := Target(path, s[..pathLast], s[queryFirst..]);
  }

  /** The redirect target for a cleaned path. */
  function Location(path: seq<byte>, rawQuery: seq<byte>): seq<byte> {
    Percent.Encode(path) + PathJoin.Query(rawQuery)
  }

  predicate NoMark(s: seq<byte>) {
    forall i :: 0 <= i < |s| ==> s[i] != QUESTION
  }

  lemma MarkFound(head: seq<byte>, query: seq<byte>)
    requires NoMark(head)
    ensures var s := head + PathJoin.Query(query); QueryMark(s) == |head|
  {
    var s := head + PathJoin.Query(query);
    var i := QueryMark(s);
    assert forall j :: 0 <= j < |head| ==> s[j] == head[j];
    assert query != [] ==> s[|head|] == QUESTION;
  }

  lemma JoinedParts(head: seq<byte>, query: seq<byte>)
    ensures var s, n := head + PathJoin.Query(query), |head|;
            && s[..n] == head
            && if query == [] then |s| == n else |s| > n && s[n + 1..] == query
  {
    var s := head + PathJoin.Query(query);
    if query == [] {
      assert s == head;
    } else {
      assert s == head + ([QUESTION] + query);
    }
  }

  lemma SplitParts(head: seq<byte>, query: seq<byte>)
    ensures SplitAt(head + PathJoin.Query(query), |head|) == Target(Percent.Decode(head), head, query)
  {
    JoinedParts(head, query);
  }

  /** A target is split at its first question mark, and only what is before it is decoded. */
  lemma SplitTarget(path: seq<byte>, query: seq<byte>)
    requires NoMark(path)
    ensures Split(path) == Target(Percent.Decode(path), path, [])
    ensures Split(path + [QUESTION] + query) == Target(Percent.Decode(path), path, query)
  {
    MarkFound(path, []);
    SplitParts(path, []);
    assert path + [] == path;
    var s := path + [QUESTION] + query;
    assert forall j :: 0 <= j < |path| ==> s[j] == path[j];
    assert s[|path|] == QUESTION && s[..|path|] == path && s[|path| + 1..] == query;
    var i := QueryMark(s);
    assert i == |path|;
  }

  /** Splitting a redirect target gives back the path and the query it was made from. */
  lemma SplitLocation(path: seq<byte>, rawQuery: seq<byte>)
    ensures Split(Location(path, rawQuery)) == Target(path, Percent.Encode(path), rawQuery)
  {
    Percent.EncodedBytes(path);
    forall i | 0 <= i < |Percent.Encode(path)| ensures Percent.Encode(path)[i] != QUESTION {
      assert Percent.EncodedAt(Percent.Encode(path), i);
    }
    MarkFound(Percent.Encode(path), rawQuery);
    SplitParts(Percent.Encode(path), rawQuery);
    Percent.RoundTrip(path);
  }

  // ---------------------------------------------------------------------------
  // Redirects.

  datatype Step = Redirect(location: seq<byte>) | Dispatch

  /** The first part of `serve_mux::handler`: any path that is not clean is redirected. */
  function Route(connect: bool, t: Target): Step {
    if !connect && Clean(t.path) != t.path then Redirect(Location(Clean(t.path), t.rawQuery)) else Dispatch
  }

  /**
   * The request that follows a redirect is redirected again exactly when cleaning its path left an empty
   * segment behind.
   */
  lemma RedirectedAgain(raw: seq<byte>)
    requires Route(false, Split(raw)).Redirect?
    ensures var t := Split(raw); var next := Split(Route(false, t).location);
            && next.path == Clean(t.path) && next.rawQuery == t.rawQuery
            && (Route(false, next) == Dispatch <==> !Doubled(SkipSlashes(t.path)))
  {
    var t := Split(raw);
    SplitLocation(Clean(t.path), t.rawQuery);
    CleanTwice(t.path);
  }

  /** A redirect is never followed by another when the decoded path has no adjacent slashes. */
  lemma RedirectSettles(raw: seq<byte>)
    requires Route(false, Split(raw)).Redirect? && !Adjacent(Split(raw).path)
    ensures Route(false, Split(Route(false, Split(raw)).location)) == Dispatch
  {
    var t := Split(raw);
    SplitLocation(Clean(t.path), t.rawQuery);
    CleanIdempotent(t.path);
  }

  /** A path cleaned twice is clean. */
  lemma CleanThrice(path: seq<byte>)
    ensures Clean(Clean(Clean(path))) == Clean(Clean(path))
  {
    var s := Clean(path);
    CleanTidy(path);
    CleanTidy(s);
    var rest := SkipSlashes(s);
    var k := OtherFrom(s, 0);
    PlainTail(s, k);
    PlainAdjacent(rest);
    CleanTwice(s);
  }

  /** For every request whatsoever, the third of a row of requests is not redirected. */
  lemma AtMostTwoRedirects(raw: seq<byte>)
    requires Route(false, Split(raw)).Redirect?
    requires Route(false, Split(Route(false, Split(raw)).location)).Redirect?
    ensures var second := Split(Route(false, Split(raw)).location);
            Route(false, Split(Route(false, second).location)) == Dispatch
  {
    var t := Split(raw);
    SplitLocation(Clean(t.path), t.rawQuery);
    SplitLocation(Clean(Clean(t.path)), t.rawQuery);
    CleanThrice(t.path);
  }

  /** A target of kept bytes is its own path, and its own redirect target. */
  lemma PlainTarget(s: seq<byte>)
    requires forall i :: 0 <= i < |s| ==> Percent.Kept(s[i])
    ensures Split(s) == Target(s, s, []) && Location(s, []) == s
  {
    Percent.KeptUnchanged(s);
    assert forall i :: 0 <= i < |s| ==> s[i] != QUESTION;
    assert QueryMark(s) == |s|;
    assert s[..|s|] == s && s + [] == s;
  }

  lemma PlainRoute(s: seq<byte>, cleaned: seq<byte>)
    requires forall i :: 0 <= i < |s| ==> Percent.Kept(s[i])
    requires forall i :: 0 <= i < |cleaned| ==> Percent.Kept(cleaned[i])
    requires Clean(s) == cleaned
    ensures Route(false, Split(s)) == if cleaned == s then Dispatch else Redirect(cleaned)
  {
    PlainTarget(s);
    PlainTarget(cleaned);
  }

  /** The target "/.//a" is redirected to "//a", and that to "/a", which is clean. */
  lemma RedirectedTwice()
    ensures Route(false, Split([SLASH, DOT, SLASH, SLASH, 97])) == Redirect([SLASH, SLASH, 97])
    ensures Route(false, Split([SLASH, SLASH, 97])) == Redirect([SLASH, 97])
    ensures Route(false, Split([SLASH, 97])) == Dispatch
  {
    CleanNotIdempotent();
    CleanThrice([SLASH, DOT, SLASH, SLASH, 97]);
    RoutedTwice([SLASH, DOT, SLASH, SLASH, 97], [SLASH, SLASH, 97], [SLASH, 97]);
  }

  lemma RoutedTwice(a: seq<byte>, b: seq<byte>, c: seq<byte>)
    requires forall s, i :: s in {a, b, c} && 0 <= i < |s| ==> Percent.Kept(s[i])
    requires Clean(a) == b != a && Clean(b) == c != b && Clean(c) == c
    ensures Route(false, Split(a)) == Redirect(b) && Route(false, Split(b)) == Redirect(c)
    ensures Route(false, Split(c)) == Dispatch
  {
    PlainRoute(a, b);
    PlainRoute(b, c);
    PlainRoute(c, c);
  }

  // ---------------------------------------------------------------------------
  // Patterns.

  predicate StartsWith(s: seq<byte>, prefix: seq<byte>) {
    |prefix| <= |s| && s[..|prefix|] == prefix
  }

  /** A pattern that ends in a slash stands for everything below it. */
  predicate PathMatch(pattern: seq<byte>, path: seq<byte>)
    requires pattern != []
  {
    if pattern[|pattern| - 1] != SLASH then pattern == path else StartsWith(path, pattern)
  }

  /** `best` is the longest of the patterns that match. */
  predicate Longest(patterns: set<seq<byte>>, path: seq<byte>, best: seq<byte>) {
    && best in patterns && best != [] && PathMatch(best, path)
    && forall p :: p in patterns && p != [] && PathMatch(p, path) ==> |p| <= |best|
  }

  predicate NoneMatch(patterns: set<seq<byte>>, path: seq<byte>) {
    forall p :: p in patterns && p != [] ==> !PathMatch(p, path)
  }

  /** There is no tie: two patterns of the same length that match a path are the same. */
  lemma LongestUnique(patterns: set<seq<byte>>, path: seq<byte>, a: seq<byte>, b: seq<byte>)
    requires Longest(patterns, path, a) && Longest(patterns, path, b)
    ensures a == b
  {
    assert |a| == |b|;
    assert path[..|a|] == a && path[..|b|] == b;
  }

  // What the patterns mean, said of the texts themselves.

  lemma MatchMeans(pattern: seq<byte>, path: seq<byte>)
    requires pattern != []
    ensures PathMatch(pattern, path) <==>
            exists rest :: path == pattern + rest && (rest == [] || pattern[|pattern| - 1] == SLASH)
  {
    if PathMatch(pattern, path) {
      assert path == pattern + path[|pattern|..];
    }
    if rest :| path == pattern + rest && (rest == [] || pattern[|pattern| - 1] == SLASH) {
      assert path[..|pattern|] == pattern;
    }
  }

  /** Some pattern matches when the path is a pattern, or begins with one that ends in a slash. */
  lemma SomeMatches(patterns: set<seq<byte>>, path: seq<byte>)
    ensures !NoneMatch(patterns, path) <==>
            exists p, rest ::
              p in patterns && p != [] && path == p + rest && (rest == [] || p[|p| - 1] == SLASH)
  {
    if !NoneMatch(patterns, path) {
      var p :| p in patterns && p != [] && PathMatch(p, path);
      MatchMeans(p, path);
    }
    if p, rest :| p in patterns && p != [] && path == p + rest && (rest == [] || p[|p| - 1] == SLASH) {
      MatchMeans(p, path);
    }
  }

  /** The longest match is such a pattern, and no other of them is longer. */
  lemma LongestMeans(patterns: set<seq<byte>>, path: seq<byte>, best: seq<byte>)
    ensures Longest(patterns, path, best) <==>
            && best in patterns && best != []
            && (exists rest :: path == best + rest && (rest == [] || best[|best| - 1] == SLASH))
            && (forall p, rest ::
                  p in patterns && p != [] && path == p + rest && (rest == [] || p[|p| - 1] == SLASH) ==>
                    |p| <= |best|)
  {
    if best != [] {
      MatchMeans(best, path);
    }
    forall p | p in patterns && p != []
      ensures PathMatch(p, path) <==> exists rest :: path == p + rest && (rest == [] || p[|p| - 1] == SLASH)
    {
      MatchMeans(p, path);
    }
  }

  /** With "/" among the patterns, every path that begins with a slash is matched. */
  lemma RootMatches(patterns: set<seq<byte>>, path: seq<byte>)
    requires [SLASH] in patterns && path != [] && path[0] == SLASH
    ensures !NoneMatch(patterns, path)
  {
    assert path == [SLASH] + path[1..];
    SomeMatches(patterns, path);
  }

  datatype Callback = User(id: int) | RedirectTo(path: seq<byte>) | Status(code: int)

  datatype Entry = Entry(userDefined: bool, callback: Callback, pattern: seq<byte>)

  function Listed(order: seq<seq<byte>>): set<seq<byte>> {
    set p | p in order
  }

  type Entries = map<seq<byte>, Entry>

  /** The path a pattern that ends in a slash redirects to: the pattern without its host part. */
  function PathPart(pattern: seq<byte>): (r: seq<byte>)
    requires pattern != []
    ensures pattern[|pattern| - 1] == SLASH ==> r != [] && r[0] == SLASH && r[|r| - 1] == SLASH
  {
    if pattern[0] == SLASH then pattern else pattern[FindSlash(pattern)..]
  }

  /** What is before its first slash is dropped. */
  lemma PathPartOf(host: seq<byte>, path: seq<byte>)
    requires path != [] && path[0] == SLASH && forall i :: 0 <= i < |host| ==> host[i] != SLASH
    ensures PathPart(host + path) == path
  {
    var pattern := host + path;
    assert pattern[|host|] == SLASH && forall j :: 0 <= j < |host| ==> pattern[j] == host[j];
    assert FindSlash(pattern) == |host|;
    assert pattern[|host|..] == path;
  }

  /** When `serve_mux::handle` accepts a pattern. */
  predicate Accepts(mux: Entries, pattern: seq<byte>) {
    pattern != [] && (pattern in mux ==> !mux[pattern].userDefined)
  }

  /** The entries after it has accepted one. */
  function Registered(mux: Entries, pattern: seq<byte>, id: int): Entries
    requires pattern != []
  {
    var init := pattern[..|pattern| - 1];
    var redirects := |pattern| >= 2 && pattern[|pattern| - 1] == SLASH && (init in mux ==> !mux[init].userDefined);
    var with := if redirects then mux[init := Entry(false, RedirectTo(PathPart(pattern)), pattern)] else mux;
    if pattern in with then with else with[pattern := Entry(true, User(id), pattern)]
  }

  /** For a new pattern p and the pattern of everything below it: both are accepted in either order, and both are
      installed if p comes first. If it comes second, it still leads to the implicit redirect. */
  lemma OrderMatters(mux: Entries, p: seq<byte>, i: int, j: int)
    requires p != [] && p !in mux && p + [SLASH] !in mux
    ensures var below := p + [SLASH];
            var before, after := Registered(mux, p, i), Registered(mux, below, j);
            && Accepts(mux, p) && Accepts(before, below) && Accepts(mux, below) && Accepts(after, p)
            && Registered(before, below, j)[p] == Entry(true, User(i), p)
            && Registered(before, below, j)[below] == Entry(true, User(j), below)
            && Registered(after, p, i)[p] == Entry(false, RedirectTo(PathPart(below)), below)
  {
    var below := p + [SLASH];
    assert below[..|below| - 1] == p;
    assert p[..|p| - 1] != below && below != p;
  }

  /** A handler for "/a/", then one for "/a": both are accepted, but "/a" still leads to the implicit redirect. */
  lemma AcceptedNotInstalled(first: int, second: int)
    ensures var below, path := [SLASH, 97, SLASH], [SLASH, 97];
            var after := Registered(map[], below, first);
            && Accepts(map[], below) && Accepts(after, path)
            && Registered(after, path, second)[path] == Entry(false, RedirectTo(below), below)
  {
    OrderMatters(map[], [SLASH, 97], second, first);
    assert [SLASH, 97] + [SLASH] == [SLASH, 97, SLASH];
  }

  class ServeMux {
    var mux: Entries

    ghost predicate Valid()
      reads this
    {
      [] !in mux && forall p :: p in mux ==> !mux[p].callback.Status?
    }

    constructor ()
      ensures Valid() && mux == map[]
    {
      mux := map[];
    }

    method Handle(pattern: seq<byte>, id: int) returns (ok: bool)
      requires Valid()
      modifies this
      ensures Valid()
      ensures ok == Accepts(old(mux), pattern)
      ensures mux == if ok then Registered(old(mux), pattern, id) else old(mux)
      // no entry of a user is ever replaced or lost
      ensures forall p :: p in old(mux) && old(mux)[p].userDefined ==> p in mux && mux[p] == old(mux)[p]
      // the accepted handler is installed exactly when no implicit redirect stands in its place
      ensures ok ==> (mux[pattern] == Entry(true, User(id), pattern) <==> pattern !in old(mux))
    {
      if pattern == [] || (pattern in mux && mux[pattern].userDefined) {
        return false;
      }
      if |pattern| >= 2 && pattern[|pattern| - 1] == SLASH {
        var redirect := pattern[..|pattern| - 1];
        if redirect !in mux || !mux[redirect].userDefined {
          var path := if pattern[0] == SLASH then pattern else pattern[FindSlash(pattern)..];
          mux := mux[redirect := Entry(false, RedirectTo(path), pattern)];
        }
      }
      if pattern !in mux {
        mux := mux[pattern := Entry(true, User(id), pattern)];
      }
      return true;
    }

    /** The loop visits every entry once, in whatever order. */
    method Match(order: seq<seq<byte>>, path: seq<byte>) returns (r: Option<Callback>)
      requires Valid() && mux.Keys == Listed(order)
      ensures r == None <==> NoneMatch(mux.Keys, path)
      ensures forall best :: Longest(mux.Keys, path, best) ==> r == Some(mux[best].callback)
      ensures r.Some? ==> exists best :: Longest(mux.Keys, path, best)
      // there is a callback exactly when the path is a pattern, or begins with one that ends in a slash
      ensures r.Some? <==> exists p, rest ::
                             p in mux && p != [] && path == p + rest && (rest == [] || p[|p| - 1] == SLASH)
      // and then it is that of the longest such pattern
      ensures forall p, rest ::
                && p in mux && p != [] && path == p + rest && (rest == [] || p[|p| - 1] == SLASH)
                && (forall q, more ::
                      q in mux && q != [] && path == q + more && (more == [] || q[|q| - 1] == SLASH) ==> |q| <= |p|) ==>
                  r == Some(mux[p].callback)
    {
      SomeMatches(mux.Keys, path);
      var best: seq<byte> := [];
      for i := 0 to |order|
        invariant best == [] ==> forall p :: p in order[..i] && p != [] ==> !PathMatch(p, path)
        invariant best != [] ==> Longest(Listed(order[..i]), path, best)
      {
        assert order[..i + 1] == order[..i] + [order[i]];
        var pattern := order[i];
        assert pattern in Listed(order);
        if PathMatch(pattern, path) {
          if best == [] || |best| < |pattern| {
            best := pattern;
          }
        }
      }
      assert order[..|order|] == order;
      if best == [] {
        return None;
      }
      forall p ensures Longest(mux.Keys, path, p) <==>
          && p in mux && p != [] && (exists rest :: path == p + rest && (rest == [] || p[|p| - 1] == SLASH))
          && (forall q, more ::
                q in mux && q != [] && path == q + more && (more == [] || q[|q| - 1] == SLASH) ==> |q| <= |p|)
      {
        LongestMeans(mux.Keys, path, p);
      }
      forall other | Longest(mux.Keys, path, other) ensures other == best {
        LongestUnique(mux.Keys, path, other, best);
      }
      return Some(mux[best].callback);
    }

    /** The first part of `serve_mux::handler`. */
    method Redirected(connect: bool, t: Target) returns (step: Step)
      ensures step == Route(connect, t)
      ensures step.Redirect? <==> !connect && Clean(t.path) != t.path
    {
      if !connect {
        var buffer, n := PathJoin.Run([], [], t.path, []);
        PathJoin.JoinCleans(t.path, []);
        var cleanPath := buffer[..n];
        assert cleanPath == Clean(t.path);
        if cleanPath != t.path {
          var uri := Percent.EncodePath(cleanPath);
          if t.rawQuery != [] {
            uri := uri + [QUESTION];
            uri := uri + t.rawQuery;
          }
          assert uri == Location(cleanPath, t.rawQuery);
          return Redirect(uri);
        }
      }
      return Dispatch;
    }

    /** The whole of `serve_mux::handler`. */
    method Handler(order: seq<seq<byte>>, connect: bool, host: seq<byte>, t: Target) returns (r: Callback)
      requires Valid() && mux.Keys == Listed(order)
      ensures Route(connect, t).Redirect? ==> r == RedirectTo(Route(connect, t).location)
      ensures Route(connect, t) == Dispatch ==>
                forall best :: Longest(mux.Keys, host + t.path, best) ==> r == mux[best].callback
      ensures Route(connect, t) == Dispatch && NoneMatch(mux.Keys, host + t.path) ==>
                forall best :: Longest(mux.Keys, t.path, best) ==> r == mux[best].callback
      ensures Route(connect, t) == Dispatch && NoneMatch(mux.Keys, host + t.path) && NoneMatch(mux.Keys, t.path) ==>
                r == Status(404)
      ensures [SLASH] in mux && t.path != [] && t.path[0] == SLASH ==> r != Status(404)
    {
      if [SLASH] in mux && t.path != [] && t.path[0] == SLASH {
        RootMatches(mux.Keys, t.path);
      }
      var step := Redirected(connect, t);
      if step.Redirect? {
        return RedirectTo(step.location);
      }
      var cb := Match(order, host + t.path);
      if cb.Some? {
        return cb.value;
      }
      cb := Match(order, t.path);
      if cb.Some? {
        return cb.value;
      }
      return Status(404);
    }
  }
}
