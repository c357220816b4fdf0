/**
 * `path_join` as it runs: the result is built in a buffer of a size fixed in advance, with a write cursor
 * that `eat_file` and `eat_dir` move back.
 */
module PathJoin {
  import opened Bytes
  import opened Paths

  const TERMINATOR: byte := 0

  // ---------------------------------------------------------------------------
  // What the buffer holds in front of the cursor.

  /** `eat_file`: back to the last slash; a buffer without one becomes a single slash. */
  function FileEaten(out: seq<byte>): (r: seq<byte>)
    ensures r != [] && r[|r| - 1] == SLASH && (out != [] ==> |r| <= |out|)
  {
    if out == [] then [SLASH]
    else if out[|out| - 1] == SLASH then out
    else FileEaten(out[..|out| - 1])
  }

  /** `eat_dir`. */
  function DirEaten(out: seq<byte>): (r: seq<byte>)
    ensures r != [] && (out != [] ==> |r| <= |out|)
  {
    var o := FileEaten(out);
    FileEaten(o[..|o| - 1])
  }

  /** The segment from `i` to `j` is made of `n` dots, for n = 1 or 2. */
  predicate Dots(rel: seq<byte>, i: nat, j: nat, n: nat) {
    j == i + n <= |rel| && (n > 0 ==> rel[i] == DOT) && (n > 1 ==> rel[i + 1] == DOT)
  }

  /** Where the loop goes on after the segment at `i`, which is followed by a slash. */
  function Onward(rel: seq<byte>, i: nat): (k: nat)
    requires i <= |rel| && SlashFrom(rel, i) < |rel|
    ensures i < k <= |rel|
  {
    var j := SlashFrom(rel, i);
    if Dots(rel, i, j, 1) || Dots(rel, i, j, 2) then j + 1 else OtherFrom(rel, j + 1)
  }

  /** The buffer after the segment at `i` and the slash that follows it, if there is one. */
  function Onto(rel: seq<byte>, i: nat, out: seq<byte>): (r: seq<byte>)
    requires i <= |rel| && out != []
    ensures r != []
  {
    var j := SlashFrom(rel, i);
    if Dots(rel, i, j, 1) then out
    else if Dots(rel, i, j, 2) then DirEaten(out)
    else FileEaten(out) + rel[i..if j < |rel| then j + 1 else j]
  }

  /** The loop, from any place in the relative path and for any buffer. */
  function Continue(rel: seq<byte>, i: nat, out: seq<byte>): seq<byte>
    requires i <= |rel| && out != []
    decreases |rel| - i
  {
    if i == |rel| then out
    else if SlashFrom(rel, i) < |rel| then Continue(rel, Onward(rel, i), Onto(rel, i, out))
    else Onto(rel, i, out)
  }

  function Query(query: seq<byte>): seq<byte> {
    if query == [] then [] else [QUESTION] + query
  }

  /** The path the loop starts from. */
  function Start(base: seq<byte>, rel: seq<byte>): (r: seq<byte>)
    ensures r != []
  {
    if base == [] || (rel != [] && rel[0] == SLASH) then [SLASH] else base
  }

  function Join(base: seq<byte>, baseQuery: seq<byte>, rel: seq<byte>, relQuery: seq<byte>): seq<byte> {
    var query := if rel == [] && relQuery == [] then baseQuery else relQuery;
    Continue(rel, OtherFrom(rel, 0), Start(base, rel)) + Query(query)
  }

  // ---------------------------------------------------------------------------
  // With an empty base path this is the cleaned relative path.

  lemma {:induction false} FileEatenIs(out: seq<byte>)
    requires out == [] || out[|out| - 1] != SLASH
    ensures FileEaten(out) == DropLast(out) + [SLASH]
  {
    if out != [] {
      var init := out[..|out| - 1];
      if init != [] && init[|init| - 1] == SLASH {
        assert DropLast(init) + [SLASH] == init;
      } else {
        FileEatenIs(init);
      }
    }
  }

  lemma DirEatenIs(out: seq<byte>)
    requires out != [] && out[|out| - 1] == SLASH
    ensures DirEaten(out) == EatDir(out)
  {
    var o := out[..|out| - 1];
    if o != [] && o[|o| - 1] == SLASH {
      assert DropLast(o) + [SLASH] == o;
    } else {
      FileEatenIs(o);
    }
  }

  lemma {:induction false} SlashFromShifted(rel: seq<byte>, i: nat, k: nat)
    requires i + k <= |rel|
    ensures SlashFrom(rel[i..], k) + i == SlashFrom(rel, i + k)
    decreases |rel| - k
  {
    if i + k < |rel| && rel[i + k] != SLASH {
      SlashFromShifted(rel, i, k + 1);
    }
  }

  lemma {:induction false} OtherFromShifted(rel: seq<byte>, i: nat, k: nat)
    requires i + k <= |rel|
    ensures OtherFrom(rel[i..], k) + i == OtherFrom(rel, i + k)
    decreases |rel| - k
  {
    if i + k < |rel| && rel[i + k] == SLASH {
      OtherFromShifted(rel, i, k + 1);
    }
  }

  /** The first segment of the rest of a path, by its place in the path. */
  lemma SegmentPlace(rel: seq<byte>, i: nat)
    requires i <= |rel|
    ensures Segment(rel[i..]) == rel[i..SlashFrom(rel, i)]
  {
    SlashFromShifted(rel, i, 0);
  }

  lemma SkipPlace(rel: seq<byte>, i: nat)
    requires i <= |rel|
    ensures SkipSlashes(rel[i..]) == rel[OtherFrom(rel, i)..]
  {
    OtherFromShifted(rel, i, 0);
    var k := OtherFrom(rel, i);
    assert rel[i..][k - i..] == rel[k..];
  }

  lemma SameDots(rel: seq<byte>, i: nat)
    requires i <= |rel|
    ensures var j, segment := SlashFrom(rel, i), Segment(rel[i..]);
            && |segment| == j - i
            && (segment == [DOT] <==> Dots(rel, i, j, 1))
            && (segment == [DOT, DOT] <==> Dots(rel, i, j, 2))
  {
    SegmentPlace(rel, i);
  }

  lemma Slices(s: seq<byte>, i: nat, k: nat)
    requires i + k <= |s|
    ensures s[i..][k..] == s[i + k..] && s[i..][..k] == s[i..i + k]
  {
  }

  lemma SameMore(rel: seq<byte>, i: nat)
    requires i <= |rel| && SlashFrom(rel, i) < |rel|
    ensures |Segment(rel[i..])| < |rel[i..]| && More(rel[i..]) == rel[Onward(rel, i)..]
  {
    var j, k := SlashFrom(rel, i), Onward(rel, i);
    assert |Segment(rel[i..])| < |rel[i..]| && More(rel[i..]) == rel[k..] by {
      if Dots(rel, i, j, 1) || Dots(rel, i, j, 2) {
        assert k == j + 1;
        SameMoreDots(rel, i, j);
      } else {
        assert k == OtherFrom(rel, j + 1);
        SameMoreOther(rel, i, j);
      }
    }
  }

  lemma SameMoreDots(rel: seq<byte>, i: nat, j: nat)
    requires i <= |rel| && j == SlashFrom(rel, i) < |rel| && (Dots(rel, i, j, 1) || Dots(rel, i, j, 2))
    ensures |Segment(rel[i..])| < |rel[i..]| && More(rel[i..]) == rel[j + 1..]
  {
    SameDots(rel, i);
    MoreAfter(rel, i, j);
  }

  lemma SameMoreOther(rel: seq<byte>, i: nat, j: nat)
    requires i <= |rel| && j == SlashFrom(rel, i) < |rel| && !Dots(rel, i, j, 1) && !Dots(rel, i, j, 2)
    ensures |Segment(rel[i..])| < |rel[i..]| && More(rel[i..]) == rel[OtherFrom(rel, j + 1)..]
  {
    SameDots(rel, i);
    MoreSkips(rel, i, j);
  }

  lemma MoreSkips(rel: seq<byte>, i: nat, j: nat)
    requires i <= j < |rel| && |Segment(rel[i..])| == j - i && !IsDots(Segment(rel[i..]))
    ensures More(rel[i..]) == rel[OtherFrom(rel, j + 1)..]
  {
    MoreAfter(rel, i, j);
    SkipPlace(rel, j + 1);
  }

  lemma MoreAfter(rel: seq<byte>, i: nat, j: nat)
    requires i <= j < |rel| && |Segment(rel[i..])| == j - i
    ensures More(rel[i..]) == if IsDots(Segment(rel[i..])) then rel[j + 1..] else SkipSlashes(rel[j + 1..])
  {
    Slices(rel, i, j - i + 1);
  }

  lemma SameNext(rel: seq<byte>, i: nat, out: seq<byte>)
    requires i <= |rel| && SlashFrom(rel, i) < |rel| && out != [] && out[|out| - 1] == SLASH
    requires |Segment(rel[i..])| < |rel[i..]|
    ensures Onto(rel, i, out) == Next(rel[i..], out)
  {
    SameDots(rel, i);
    DirEatenIs(out);
    Slices(rel, i, SlashFrom(rel, i) - i + 1);
  }

  lemma SameLast(rel: seq<byte>, i: nat, out: seq<byte>)
    requires i <= |rel| && SlashFrom(rel, i) == |rel| && out != [] && out[|out| - 1] == SLASH
    ensures |Segment(rel[i..])| == |rel[i..]| && Last(rel[i..], out) == if i == |rel| then out else Onto(rel, i, out)
  {
    SameDots(rel, i);
    SegmentPlace(rel, i);
    DirEatenIs(out);
    assert rel[i..|rel|] == rel[i..];
    assert i == |rel| ==> out + rel[i..] == out;
  }

  lemma WalkOn(rel: seq<byte>, i: nat, out: seq<byte>)
    requires i <= |rel| && SlashFrom(rel, i) < |rel| && out != [] && out[|out| - 1] == SLASH
    ensures var next := Onto(rel, i, out);
            next[|next| - 1] == SLASH &&
            Walk(rel[i..], out) == Walk(rel[Onward(rel, i)..], next)
  {
    SameMore(rel, i);
    SameNext(rel, i, out);
    NextLast(rel[i..], out);
  }

  lemma {:induction false} ContinueWalks(rel: seq<byte>, i: nat, out: seq<byte>)
    requires i <= |rel| && out != [] && out[|out| - 1] == SLASH
    ensures Continue(rel, i, out) == Walk(rel[i..], out)
    decreases |rel| - i
  {
    if SlashFrom(rel, i) < |rel| {
      WalkOn(rel, i, out);
      ContinueWalks(rel, Onward(rel, i), Onto(rel, i, out));
    } else {
      SameLast(rel, i, out);
    }
  }

  // With another base path, the relative path is put in the place of its last segment.

  /** The path is made of dot segments only. */
  predicate OnlyDots(t: seq<byte>)
    decreases |t|
  {
    t == [] || t == [DOT] || (|t| >= 2 && t[0] == DOT && t[1] == SLASH && OnlyDots(t[2..]))
  }

  lemma OntoFolder(rel: seq<byte>, i: nat, base: seq<byte>)
    requires i < |rel| && base != [] && !Dots(rel, i, SlashFrom(rel, i), 1)
    ensures Onto(rel, i, base) == Onto(rel, i, FileEaten(base))
  {
    EatenTwice(base);
  }

  lemma EatenTwice(base: seq<byte>)
    ensures FileEaten(FileEaten(base)) == FileEaten(base) && DirEaten(FileEaten(base)) == DirEaten(base)
  {
  }

  lemma DotSegment(rel: seq<byte>, i: nat)
    requires i < |rel| && Dots(rel, i, SlashFrom(rel, i), 1)
    ensures rel[i..] == if i + 1 == |rel| then [DOT] else [DOT, SLASH] + rel[i + 2..]
    ensures i + 1 < |rel| ==> Onward(rel, i) == i + 2 && (OnlyDots(rel[i..]) <==> OnlyDots(rel[i + 2..]))
  {
    if i + 1 < |rel| {
      assert rel[i..][2..] == rel[i + 2..];
    }
  }

  lemma NoDotSegment(rel: seq<byte>, i: nat)
    requires i < |rel| && !Dots(rel, i, SlashFrom(rel, i), 1)
    ensures !OnlyDots(rel[i..])
  {
    DotSegments(rel, i);
  }

  /** Unless the relative path is dots only, it does not matter whether the file has been taken off the base path. */
  lemma {:induction false} ContinueFolder(rel: seq<byte>, i: nat, base: seq<byte>)
    requires i <= |rel| && base != []
    ensures Continue(rel, i, base) == if OnlyDots(rel[i..]) then base else Continue(rel, i, FileEaten(base))
    decreases |rel| - i
  {
    if i < |rel| {
      if Dots(rel, i, SlashFrom(rel, i), 1) {
        DotSegment(rel, i);
        if i + 1 < |rel| {
          ContinueFolder(rel, i + 2, base);
        }
      } else {
        NoDotSegment(rel, i);
        OntoFolder(rel, i, base);
      }
    }
  }

  /** The base path up to its last slash is `folder`; without a slash, it is all file. */
  predicate IsFolder(base: seq<byte>, folder: seq<byte>, file: seq<byte>) {
    && (forall i :: 0 <= i < |file| ==> file[i] != SLASH)
    && (base == folder + [SLASH] + file || (folder == [] && base == file))
  }

  lemma {:induction false} FolderEaten(base: seq<byte>, folder: seq<byte>, file: seq<byte>)
    requires base != [] && IsFolder(base, folder, file)
    ensures FileEaten(base) == folder + [SLASH]
    decreases |file|
  {
    if file == [] {
      assert base == folder + [SLASH];
    } else {
      var init, less := base[..|base| - 1], file[..|file| - 1];
      assert base[|base| - 1] == file[|file| - 1];
      if init != [] {
        assert base == folder + [SLASH] + file ==> init == folder + [SLASH] + less;
        assert base == file ==> init == less;
        FolderEaten(init, folder, less);
      } else {
        assert folder == [];
      }
    }
  }

  /** With a base path and a relative path that is not rooted, the relative path without the slashes that the loop skips
      is put behind the folder of the base path, and section 5.2.4 of RFC 3986 is applied to it. A relative path of
      dots only leaves the base path as it is, file and all. */
  lemma JoinMerges(base: seq<byte>, baseQuery: seq<byte>, rel: seq<byte>, relQuery: seq<byte>,
                   folder: seq<byte>, file: seq<byte>)
    requires base != [] && IsFolder(base, folder, file) && rel != [] && rel[0] != SLASH
    ensures Join(base, baseQuery, rel, relQuery) ==
            (if OnlyDots(rel) then base else RemoveDotSegments([SLASH] + Squash(rel), folder)) + Query(relQuery)
  {
    assert rel[0..] == rel;
    ContinueFolder(rel, 0, base);
    FolderEaten(base, folder, file);
    ContinueWalks(rel, 0, folder + [SLASH]);
    WalkFollowsRfc(rel, folder);
  }

  /** A rooted relative path replaces the base path, and an empty one leaves it; then the base query stays too, unless
      there is a relative query. */
  lemma JoinOthers(base: seq<byte>, baseQuery: seq<byte>, rel: seq<byte>, relQuery: seq<byte>)
    ensures rel != [] && rel[0] == SLASH ==> Join(base, baseQuery, rel, relQuery) == Clean(rel) + Query(relQuery)
    ensures rel == [] && base != [] ==>
              Join(base, baseQuery, rel, relQuery) == base + Query(if relQuery == [] then baseQuery else relQuery)
  {
    if rel != [] && rel[0] == SLASH {
      ContinueWalks(rel, OtherFrom(rel, 0), [SLASH]);
      SkipPlace(rel, 0);
      assert rel[0..] == rel;
    }
  }

  /** With an empty base path, the result is the cleaned relative path and the relative query. */
  lemma JoinCleans(rel: seq<byte>, query: seq<byte>)
    ensures Join([], [], rel, query) == Clean(rel) + Query(query)
  {
    ContinueWalks(rel, OtherFrom(rel, 0), [SLASH]);
  }

  // ---------------------------------------------------------------------------
  // The steps on the buffer.

  method EatFile(res: array<byte>, last: nat) returns (p: nat)
    requires last <= res.Length && res.Length > 0
    modifies res
    ensures p <= res.Length && res[..p] == FileEaten(old(res[..last]))
  {
    if last == 0 {
      res[0] := SLASH;
      return 1;
    }
    p := last;
    while p > 0 && res[p - 1] != SLASH
      invariant p <= last
      invariant FileEaten(res[..p]) == FileEaten(res[..last])
    {
      assert res[..p][..p - 1] == res[..p - 1];
      p := p - 1;
    }
    if p == 0 {
      res[0] := SLASH;
      return 1;
    }
  }

  method EatDirectory(res: array<byte>, last: nat) returns (p: nat)
    requires last <= res.Length && res.Length > 0
    modifies res
    ensures p <= res.Length && res[..p] == DirEaten(old(res[..last]))
  {
    p := EatFile(res, last);
    assert res[p - 1] == SLASH;
    assert res[..p][..p - 1] == res[..p - 1];
    p := EatFile(res, p - 1);
  }

  method Copy(s: seq<byte>, first: nat, last: nat, res: array<byte>, at: nat) returns (p: nat)
    requires first <= last <= |s| && at + (last - first) <= res.Length
    modifies res
    ensures p == at + (last - first) && res[..p] == old(res[..at]) + s[first..last]
  {
    p := at;
    for i := first to last
      invariant p == at + (i - first) && res[..p] == old(res[..at]) + s[first..i]
    {
      res[p] := s[i];
      p := p + 1;
      assert res[..p] == res[..p - 1] + [s[i]];
      assert s[first..i + 1] == s[first..i] + [s[i]];
    }
  }

  method Find(s: seq<byte>, first: nat) returns (i: nat)
    requires first <= |s|
    ensures i == SlashFrom(s, first)
  {
    i := first;
    while i < |s| && s[i] != SLASH
      invariant first <= i <= |s| && SlashFrom(s, i) == SlashFrom(s, first)
    {
      i := i + 1;
    }
  }

  method Skip(s: seq<byte>, first: nat) returns (i: nat)
    requires first <= |s|
    ensures i == OtherFrom(s, first)
  {
    i := first;
    while i < |s| && s[i] == SLASH
      invariant first <= i <= |s| && OtherFrom(s, i) == OtherFrom(s, first)
    {
      i := i + 1;
    }
  }

  // ---------------------------------------------------------------------------
  // The loop, a turn at a time.

  method AddSegment(rel: seq<byte>, first: nat, res: array<byte>, at: nat) returns (next: nat, p: nat)
    requires first < |rel| && 0 < at && at + (|rel| - first) <= res.Length
    requires var j := SlashFrom(rel, first); !Dots(rel, first, j, 1) && !Dots(rel, first, j, 2)
    modifies res
    ensures first < next <= |rel| && 0 < p && p + (|rel| - next) <= at + (|rel| - first)
    ensures next == if SlashFrom(rel, first) < |rel| then Onward(rel, first) else |rel|
    ensures res[..p] == Onto(rel, first, old(res[..at]))
  {
    p := at;
    if res[p - 1] != SLASH {
      p := EatFile(res, p);
    }
    assert res[..p] == FileEaten(old(res[..at]));
    var slash := Find(rel, first);
    if slash == |rel| {
      p := Copy(rel, first, |rel|, res, p);
      next := |rel|;
      return;
    }
    p := Copy(rel, first, slash + 1, res, p);
    next := Skip(rel, slash + 1);
  }

  /** The comparisons of the loop recognise the dot segments. */
  lemma DotSegments(rel: seq<byte>, i: nat)
    requires i < |rel|
    ensures var j := SlashFrom(rel, i);
            && (Dots(rel, i, j, 1) <==> rel[i] == DOT && (i + 1 == |rel| || rel[i + 1] == SLASH))
            && (Dots(rel, i, j, 2) <==>
                  |rel| > i + 1 && rel[i] == DOT && rel[i + 1] == DOT && (i + 2 == |rel| || rel[i + 2] == SLASH))
  {
    var j := SlashFrom(rel, i);
    assert j == i || j == i + 1 || j == i + 2 || j > i + 2;
  }

  /** One turn of the loop. */
  method Turn(rel: seq<byte>, first: nat, res: array<byte>, at: nat) returns (next: nat, p: nat)
    requires first < |rel| && 0 < at && at + (|rel| - first) <= res.Length
    modifies res
    ensures first < next <= |rel| && 0 < p && p + (|rel| - next) <= at + (|rel| - first)
    ensures next == if SlashFrom(rel, first) < |rel| then Onward(rel, first) else |rel|
    ensures res[..p] == Onto(rel, first, old(res[..at]))
  {
    DotSegments(rel, first);
    if rel[first] == DOT {
      if first + 1 == |rel| {
        return |rel|, at;
      }
      if rel[first + 1] == SLASH {
        return first + 2, at;
      }
      if rel[first + 1] == DOT {
        if first + 2 == |rel| {
          p := EatDirectory(res, at);
          return |rel|, p;
        }
        if rel[first + 2] == SLASH {
          p := EatDirectory(res, at);
          return first + 3, p;
        }
      }
    }
    next, p := AddSegment(rel, first, res, at);
  }

  method JoinLoop(rel: seq<byte>, start: nat, res: array<byte>, at: nat) returns (p: nat)
    requires start <= |rel| && 0 < at && at + (|rel| - start) <= res.Length
    modifies res
    ensures 0 < p <= at + (|rel| - start)
    ensures res[..p] == Continue(rel, start, old(res[..at]))
  {
    var first := start;
    p := at;
    while first < |rel|
      invariant start <= first <= |rel| && 0 < p && p + (|rel| - first) <= at + (|rel| - start)
      invariant Continue(rel, first, res[..p]) == Continue(rel, start, old(res[..at]))
      decreases |rel| - first
    {
      first, p := Turn(rel, first, res, p);
    }
  }

  method AddQuery(query: seq<byte>, res: array<byte>, at: nat) returns (p: nat)
    requires at + 1 + |query| < res.Length
    modifies res
    ensures p < res.Length && res[..p] == old(res[..at]) + Query(query) && res[p] == TERMINATOR
  {
    p := at;
    if query != [] {
      res[p] := QUESTION;
      assert res[..p + 1] == old(res[..at]) + [QUESTION];
      p := Copy(query, 0, |query|, res, p + 1);
    }
    res[p] := TERMINATOR;
  }

  /** The whole of `path_join`: the buffer holds the joined path, and its terminator fits. */
  method Run(base: seq<byte>, baseQuery: seq<byte>, rel: seq<byte>, relQuery: seq<byte>)
    returns (res: array<byte>, p: nat)
    ensures p < res.Length && res[..p] == Join(base, baseQuery, rel, relQuery) && res[p] == TERMINATOR
    ensures res.Length == (if |base| > 1 then |base| else 1) + |rel| + 1
                          + (if |baseQuery| > |relQuery| then |baseQuery| else |relQuery|) + 1
  {
    var room := if |base| > 1 then |base| else 1;
    var query := if |baseQuery| > |relQuery| then |baseQuery| else |relQuery|;
    res := new byte[room + |rel| + 1 + query + 1];
    p := 0;
    var first := 0;
    if base == [] || (rel != [] && rel[0] == SLASH) {
      res[p] := SLASH;
      p := p + 1;
    } else {
      p := Copy(base, 0, |base|, res, p);
    }
    assert res[..p] == Start(base, rel);
    if rel == [] {
      p := AddQuery(if relQuery == [] then baseQuery else relQuery, res, p);
      return;
    }
    first := Skip(rel, 0);
    p := JoinLoop(rel, first, res, p);
    p := AddQuery(relQuery, res, p);
  }
}
