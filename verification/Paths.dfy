/**
 * Cleaning of request paths: `path_join` with an empty base path, against the algorithm of section
 * 5.2.4 of RFC 3986.
 */
module Paths {
  import opened Bytes

  const DOT: byte := 46

  /** The index of the first slash from `i` on, or the length. */
  function SlashFrom(s: seq<byte>, i: nat): (r: nat)
    requires i <= |s|
    ensures i <= r <= |s| && (r < |s| ==> s[r] == SLASH)
    ensures forall j :: i <= j < r ==> s[j] != SLASH
    decreases |s| - i
  {
    if i == |s| || s[i] == SLASH then i else SlashFrom(s, i + 1)
  }

  function FindSlash(s: seq<byte>): (i: nat)
    ensures i <= |s| && (i < |s| ==> s[i] == SLASH)
    ensures forall j :: 0 <= j < i ==> s[j] != SLASH
  {
    SlashFrom(s, 0)
  }

  /** The index of the first byte from `i` on that is not a slash, or the length. */
  function OtherFrom(s: seq<byte>, i: nat): (r: nat)
    requires i <= |s|
    ensures i <= r <= |s| && (r < |s| ==> s[r] != SLASH)
    ensures forall j :: i <= j < r ==> s[j] == SLASH
    decreases |s| - i
  {
    if i < |s| && s[i] == SLASH then OtherFrom(s, i + 1) else i
  }

  /** s without its leading slashes. */
  function SkipSlashes(s: seq<byte>): (r: seq<byte>)
    ensures |r| <= |s| && (r != [] ==> r[0] != SLASH)
  {
    s[OtherFrom(s, 0)..]
  }

  /** The path segment s begins with: everything before the first slash. */
  function Segment(s: seq<byte>): seq<byte> {
    s[..FindSlash(s)]
  }

  predicate IsDots(segment: seq<byte>) {
    segment == [DOT] || segment == [DOT, DOT]
  }

  // ---------------------------------------------------------------------------
  // Section 5.2.4 of RFC 3986, rule by rule.

  /** The output without its last segment and the slash before it, if any. */
  function DropLast(output: seq<byte>): (r: seq<byte>)
    ensures |r| <= |output|
  {
    if output == [] then []
    else if output[|output| - 1] == SLASH then output[..|output| - 1]
    else DropLast(output[..|output| - 1])
  }

  /** The length of the first segment of the input, with its initial slash if it has one. */
  function FirstSegment(input: seq<byte>): (k: nat)
    requires input != []
    ensures 1 <= k <= |input|
  {
    1 + FindSlash(input[1..])
  }

  /** The input begins with a segment of that many dots, with a slash before it if `rooted`. */
  predicate Leads(input: seq<byte>, rooted: bool, dots: nat) {
    var n := if rooted then 1 else 0;
    && |input| >= n + dots
    && (rooted ==> input[0] == SLASH)
    && (forall i :: n <= i < n + dots ==> input[i] == DOT)
    && (|input| == n + dots || input[n + dots] == SLASH)
  }

  /** What is left of the input, and the output, after the first rule that applies. */
  function Rule(input: seq<byte>, output: seq<byte>): (r: (seq<byte>, seq<byte>))
    requires input != []
    ensures |r.0| < |input|
  {
    // A: a prefix of "../" or "./" is removed
    if Leads(input, false, 2) && |input| > 2 then (input[3..], output)
    else if Leads(input, false, 1) && |input| > 1 then (input[2..], output)
    // B: a prefix of "/./", or a whole input of "/.", is replaced by "/"
    else if Leads(input, true, 1) then ([SLASH] + input[if |input| == 2 then 2 else 3..], output)
    // C: a prefix of "/../", or a whole input of "/..", is replaced by "/", and the output loses its last segment
    else if Leads(input, true, 2) then ([SLASH] + input[if |input| == 3 then 3 else 4..], DropLast(output))
    // D: a whole input of "." or ".." is removed
    else if input == [DOT] || input == [DOT, DOT] then ([], output)
    // E: the first segment moves to the output
    else (input[FirstSegment(input)..], output + input[..FirstSegment(input)])
  }

  function RemoveDotSegments(input: seq<byte>, output: seq<byte>): seq<byte>
    decreases |input|
  {
    if input == [] then output
    else
      var (rest, next) := Rule(input, output);
      RemoveDotSegments(rest, next)
  }

  // ---------------------------------------------------------------------------
  // What the loop of `path_join` does, from the place it has reached in the path.

  /** `eat_dir` on a buffer that ends with a slash. */
  function EatDir(out: seq<byte>): seq<byte>
    requires out != []
  {
    DropLast(out[..|out| - 1]) + [SLASH]
  }

  /** What the loop goes on with after a first segment that is followed by a slash. */
  function More(rest: seq<byte>): (more: seq<byte>)
    requires |Segment(rest)| < |rest|
    ensures |more| < |rest|
  {
    var tail := rest[|Segment(rest)| + 1..];
    if IsDots(Segment(rest)) then tail else SkipSlashes(tail)
  }

  /** The buffer after a first segment that is followed by a slash. */
  function Next(rest: seq<byte>, out: seq<byte>): (r: seq<byte>)
    requires out != [] && |Segment(rest)| < |rest|
    ensures r != []
  {
    var segment := Segment(rest);
    if segment == [DOT] then out
    else if segment == [DOT, DOT] then EatDir(out)
    else out + rest[..|segment| + 1]
  }

  /** The buffer after the last segment. */
  function Last(segment: seq<byte>, out: seq<byte>): seq<byte>
    requires out != []
  {
    if segment == [DOT] then out else if segment == [DOT, DOT] then EatDir(out) else out + segment
  }

  function Walk(rest: seq<byte>, out: seq<byte>): seq<byte>
    requires out != []
    decreases |rest|
  {
    if |Segment(rest)| < |rest| then Walk(More(rest), Next(rest, out)) else Last(rest, out)
  }

  /** `path_join` with an empty base path and no queries. */
  function Clean(path: seq<byte>): seq<byte> {
    Walk(SkipSlashes(path), [SLASH])
  }

  // ---------------------------------------------------------------------------
  // The loop follows the RFC, on the path without the slashes that it skips.

  /** The slashes that follow a slash are dropped, except directly after a dot segment. */
  function Squash(rest: seq<byte>): seq<byte>
    decreases |rest|
  {
    var i := |Segment(rest)|;
    if i < |rest| then rest[..i + 1] + Squash(More(rest)) else rest
  }

  predicate NoSlash(s: seq<byte>) {
    forall i :: 0 <= i < |s| ==> s[i] != SLASH
  }

  lemma SlashFound(segment: seq<byte>, tail: seq<byte>)
    requires NoSlash(segment) && (tail == [] || tail[0] == SLASH)
    ensures FindSlash(segment + tail) == |segment|
  {
    var s := segment + tail;
    assert forall j :: 0 <= j < |segment| ==> s[j] == segment[j];
    assert tail != [] ==> s[|segment|] == SLASH;
  }

  /** Rules B and C look for whole segments. */
  lemma LeadingDots(segment: seq<byte>, tail: seq<byte>, dots: nat)
    requires NoSlash(segment) && (tail == [] || tail[0] == SLASH)
    ensures Leads([SLASH] + segment + tail, true, dots) <==>
            |segment| == dots && forall i :: 0 <= i < dots ==> segment[i] == DOT
  {
    var input := [SLASH] + segment + tail;
    assert forall j :: 0 <= j < |segment| ==> input[1 + j] == segment[j];
    assert tail != [] ==> input[1 + |segment|] == SLASH;
    assert forall j :: 0 <= j < |segment| ==> segment[j] == input[1 + j];
  }

  lemma FirstOf(segment: seq<byte>, tail: seq<byte>)
    requires NoSlash(segment) && (tail == [] || tail[0] == SLASH)
    ensures var input, k := [SLASH] + segment + tail, 1 + |segment|;
            FirstSegment(input) == k && input[k..] == tail && input[..k] == [SLASH] + segment
  {
    assert ([SLASH] + segment + tail)[1..] == segment + tail;
    SlashFound(segment, tail);
  }

  lemma OtherRule(segment: seq<byte>, tail: seq<byte>)
    requires NoSlash(segment) && !IsDots(segment) && (tail == [] || tail[0] == SLASH)
    ensures var input := [SLASH] + segment + tail; !Leads(input, true, 1) && !Leads(input, true, 2)
  {
    var input := [SLASH] + segment + tail;
    LeadingDots(segment, tail, 1);
    LeadingDots(segment, tail, 2);
    assert Leads(input, true, 1) ==> segment == [DOT];
    assert Leads(input, true, 2) ==> segment == [DOT, DOT];
  }

  /** Rule E on an ordinary segment. */
  lemma RuleE(segment: seq<byte>, tail: seq<byte>, output: seq<byte>)
    requires NoSlash(segment) && !IsDots(segment) && (tail == [] || tail[0] == SLASH)
    ensures Rule([SLASH] + segment + tail, output) == (tail, output + [SLASH] + segment)
  {
    var input := [SLASH] + segment + tail;
    OtherRule(segment, tail);
    FirstOf(segment, tail);
    assert input[0] == SLASH && input != [DOT] && input != [DOT, DOT];
    assert !Leads(input, false, 1) && !Leads(input, false, 2);
    assert output + ([SLASH] + segment) == output + [SLASH] + segment;
  }

  /** Rules B and C. */
  lemma RuleBC(segment: seq<byte>, tail: seq<byte>, output: seq<byte>)
    requires IsDots(segment) && (tail == [] || tail[0] == SLASH)
    ensures Rule([SLASH] + segment + tail, output)
         == (if tail == [] then [SLASH] else tail, if segment == [DOT] then output else DropLast(output))
  {
    var input := [SLASH] + segment + tail;
    LeadingDots(segment, tail, 1);
    LeadingDots(segment, tail, 2);
    if tail != [] {
      assert [SLASH] + input[|segment| + 2..] == tail;
    } else {
      assert [SLASH] + input[|segment| + 1..] == [SLASH];
    }
  }

  lemma Applied(input: seq<byte>, output: seq<byte>, rest: seq<byte>, next: seq<byte>)
    requires input != [] && Rule(input, output) == (rest, next)
    ensures RemoveDotSegments(input, output) == RemoveDotSegments(rest, next)
  {
  }

  /** The first segment of a path, and what follows it. */
  lemma Split(rest: seq<byte>)
    ensures var i := |Segment(rest)|;
            NoSlash(Segment(rest)) && rest == Segment(rest) + rest[i..] &&
            (i < |rest| ==> rest[i] == SLASH)
  {
  }

  lemma DropLastSlash(o: seq<byte>)
    ensures EatDir(o + [SLASH]) == DropLast(o) + [SLASH]
  {
    assert (o + [SLASH])[..|o|] == o;
  }

  /** The output after a first segment. */
  function Moved(segment: seq<byte>, output: seq<byte>): seq<byte> {
    if segment == [DOT] then output
    else if segment == [DOT, DOT] then DropLast(output)
    else output + [SLASH] + segment
  }

  lemma WalkStep(rest: seq<byte>, output: seq<byte>)
    requires |Segment(rest)| < |rest|
    ensures Walk(rest, output + [SLASH]) == Walk(More(rest), Moved(Segment(rest), output) + [SLASH])
  {
    var i := |Segment(rest)|;
    DropLastSlash(output);
    assert output + [SLASH] + rest[..i + 1] == output + [SLASH] + Segment(rest) + [SLASH];
  }

  lemma SquashStep(rest: seq<byte>)
    requires |Segment(rest)| < |rest|
    ensures [SLASH] + Squash(rest) == [SLASH] + Segment(rest) + ([SLASH] + Squash(More(rest)))
  {
    HeadSlash(rest, Squash(More(rest)));
  }

  lemma HeadSlash(rest: seq<byte>, tail: seq<byte>)
    requires |Segment(rest)| < |rest|
    ensures [SLASH] + (rest[..|Segment(rest)| + 1] + tail) == [SLASH] + Segment(rest) + ([SLASH] + tail)
  {
    var head := Segment(rest);
    assert rest[..|head| + 1] == head + [SLASH];
  }

  lemma RfcStep(segment: seq<byte>, tail: seq<byte>, output: seq<byte>)
    requires NoSlash(segment)
    ensures RemoveDotSegments([SLASH] + segment + ([SLASH] + tail), output)
         == RemoveDotSegments([SLASH] + tail, Moved(segment, output))
  {
    if IsDots(segment) {
      RuleBC(segment, [SLASH] + tail, output);
    } else {
      RuleE(segment, [SLASH] + tail, output);
    }
    Applied([SLASH] + segment + ([SLASH] + tail), output, [SLASH] + tail, Moved(segment, output));
  }

  /** The loop, from any place in the path, gives what the RFC gives for the rest of the path. */
  lemma {:induction false} WalkFollowsRfc(rest: seq<byte>, output: seq<byte>)
    ensures Walk(rest, output + [SLASH]) == RemoveDotSegments([SLASH] + Squash(rest), output)
    decreases |rest|
  {
    Split(rest);
    if |Segment(rest)| == |rest| {
      EndOfPath(rest, output);
    } else {
      WalkStep(rest, output);
      SquashStep(rest);
      RfcStep(Segment(rest), Squash(More(rest)), output);
      WalkFollowsRfc(More(rest), Moved(Segment(rest), output));
    }
  }

  lemma EndOfPath(rest: seq<byte>, output: seq<byte>)
    requires NoSlash(rest) && Segment(rest) == rest
    ensures Walk(rest, output + [SLASH]) == RemoveDotSegments([SLASH] + rest, output)
  {
    DropLastSlash(output);
    if IsDots(rest) {
      EndInDots(rest, output);
    } else {
      EndInName(rest, output);
    }
  }

  lemma EndInName(rest: seq<byte>, output: seq<byte>)
    requires NoSlash(rest) && !IsDots(rest)
    ensures RemoveDotSegments([SLASH] + rest, output) == output + [SLASH] + rest
  {
    RuleE(rest, [], output);
    assert [SLASH] + rest + [] == [SLASH] + rest;
    Applied([SLASH] + rest, output, [], output + [SLASH] + rest);
  }

  lemma EndInDots(rest: seq<byte>, output: seq<byte>)
    requires IsDots(rest)
    ensures RemoveDotSegments([SLASH] + rest, output) == (if rest == [DOT] then output else DropLast(output)) + [SLASH]
  {
    var o := if rest == [DOT] then output else DropLast(output);
    RuleBC(rest, [], output);
    assert [SLASH] + rest + [] == [SLASH] + rest;
    Applied([SLASH] + rest, output, [SLASH], o);
    EndInName([], o);
    assert [SLASH] + [] == [SLASH] && o + [SLASH] + [] == o + [SLASH];
  }

  // ---------------------------------------------------------------------------

  /** Two slashes stand next to each other. */
  ghost predicate Adjacent(s: seq<byte>) {
    exists i :: PairAt(s, i)
  }

  predicate PairAt(s: seq<byte>, i: int) {
    0 <= i < |s| - 1 && s[i] == SLASH && s[i + 1] == SLASH
  }

  lemma PairInTail(s: seq<byte>, k: nat, i: int)
    requires k <= |s| && PairAt(s[k..], i)
    ensures PairAt(s, k + i)
  {
  }

  lemma TailNotAdjacent(s: seq<byte>, k: nat)
    requires !Adjacent(s) && k <= |s|
    ensures !Adjacent(s[k..])
    ensures 0 < k < |s| && s[k - 1] == SLASH ==> s[k] != SLASH
  {
    forall i ensures !PairAt(s[k..], i) {
      if PairAt(s[k..], i) {
        PairInTail(s, k, i);
      }
    }
    assert !PairAt(s, k - 1);
  }

  /** Without adjacent slashes, the loop goes on directly behind a segment. */
  lemma MoreKept(rest: seq<byte>)
    requires !Adjacent(rest) && |Segment(rest)| < |rest|
    ensures More(rest) == rest[|Segment(rest)| + 1..] && !Adjacent(More(rest))
    ensures More(rest) != [] ==> More(rest)[0] != SLASH
  {
    var i := |Segment(rest)| + 1;
    var tail := rest[i..];
    TailNotAdjacent(rest, i);
    assert tail != [] ==> tail[0] == rest[i] != SLASH;
    assert SkipSlashes(tail) == tail by {
      assert OtherFrom(tail, 0) == 0;
    }
  }

  lemma {:induction false} SquashKeeps(rest: seq<byte>)
    requires !Adjacent(rest)
    ensures Squash(rest) == rest
    decreases |rest|
  {
    var i := |Segment(rest)|;
    if i < |rest| {
      MoreKept(rest);
      SquashKeeps(More(rest));
      assert rest == rest[..i + 1] + More(rest);
    }
  }

  function Rooted(path: seq<byte>): seq<byte> {
    if path != [] && path[0] == SLASH then path else [SLASH] + path
  }

  /** For every path, the result is the RFC's for the path without the slashes that are skipped. */
  lemma CleanFollowsRfc(path: seq<byte>)
    ensures Clean(path) == RemoveDotSegments([SLASH] + Squash(SkipSlashes(path)), [])
  {
    WalkFollowsRfc(SkipSlashes(path), []);
    assert [] + [SLASH] == [SLASH];
  }

  /** Without adjacent slashes, the result is the RFC's for the path as it is. */
  lemma CleanIsRfc(path: seq<byte>)
    requires !Adjacent(path)
    ensures Clean(path) == RemoveDotSegments(Rooted(path), [])
  {
    CleanFollowsRfc(path);
    var rest := SkipSlashes(path);
    if path != [] && path[0] == SLASH {
      TailNotAdjacent(path, 1);
      assert rest == path[1..];
      assert path == [SLASH] + rest;
    }
    SquashKeeps(rest);
  }

  // ---------------------------------------------------------------------------
  // Every result is rooted and free of dot segments.

  /** No slash is followed by a dot segment. */
  ghost predicate NoDots(s: seq<byte>) {
    forall i :: !DotsAt(s, i)
  }

  predicate DotsAt(s: seq<byte>, i: int) {
    0 <= i < |s| && s[i] == SLASH && IsDots(Segment(s[i + 1..]))
  }

  /** A buffer as the loop leaves it: rooted, ending in a slash, without dot segments. */
  ghost predicate Tidy(out: seq<byte>) {
    out != [] && out[0] == SLASH && out[|out| - 1] == SLASH && NoDots(out)
  }

  lemma FirstSlash(s: seq<byte>, i: nat)
    requires i < |s| && s[i] == SLASH && forall j :: 0 <= j < i ==> s[j] != SLASH
    ensures FindSlash(s) == i
  {
  }

  /** A slash later in s ends the segment wherever s is continued. */
  lemma SegmentWithin(s: seq<byte>, more: seq<byte>)
    requires FindSlash(s) < |s|
    ensures Segment(s + more) == Segment(s)
  {
    FirstSlash(s + more, FindSlash(s));
  }

  lemma DotsExtended(out: seq<byte>, more: seq<byte>, i: int)
    requires 0 <= i < |out| - 1 && out[|out| - 1] == SLASH
    ensures DotsAt(out + more, i) == DotsAt(out, i)
  {
    var t := out[i + 1..];
    assert (out + more)[i + 1..] == t + more;
    assert t[|out| - i - 2] == SLASH;
    SegmentWithin(t, more);
  }

  lemma DotsAdded(out: seq<byte>, segment: seq<byte>, tail: seq<byte>, i: int)
    requires out != [] && NoSlash(segment) && !IsDots(segment) && (tail == [] || tail == [SLASH]) && i >= |out| - 1
    ensures !DotsAt(out + (segment + tail), i)
  {
    var s := out + (segment + tail);
    if i == |out| - 1 {
      assert s[i + 1..] == segment + tail;
      SlashFound(segment, tail);
      assert (segment + tail)[..|segment|] == segment;
    } else if i < |s| - 1 {
      assert s[i] == segment[i - |out|];
    } else if i == |s| - 1 {
      assert s[i + 1..] == [];
    }
  }

  lemma TidyExtended(out: seq<byte>, segment: seq<byte>, tail: seq<byte>)
    requires Tidy(out) && NoSlash(segment) && !IsDots(segment) && (tail == [] || tail == [SLASH])
    ensures NoDots(out + segment + tail)
  {
    var s := out + (segment + tail);
    assert out + segment + tail == s;
    forall i ensures !DotsAt(s, i) {
      if 0 <= i < |out| - 1 {
        DotsExtended(out, segment + tail, i);
      } else if i >= |out| - 1 {
        DotsAdded(out, segment, tail, i);
      }
    }
  }

  lemma SegmentOfPrefix(out: seq<byte>, k: nat, i: nat)
    requires i + 1 < k <= |out| && out[k - 1] == SLASH
    ensures Segment(out[..k][i + 1..]) == Segment(out[i + 1..])
  {
    var s := out[..k][i + 1..];
    assert out[i + 1..] == s + out[k..];
    assert s[k - i - 2] == SLASH;
    SegmentWithin(s, out[k..]);
  }

  lemma TidyPrefix(out: seq<byte>, k: nat)
    requires Tidy(out) && 1 <= k <= |out| && out[k - 1] == SLASH
    ensures Tidy(out[..k])
  {
    var s := out[..k];
    forall i ensures !DotsAt(s, i) {
      assert !DotsAt(out, i);
      if 0 <= i < k - 1 {
        SegmentOfPrefix(out, k, i);
      } else if i == k - 1 {
        assert s[i + 1..] == [];
      }
    }
  }

  lemma {:induction false} DropLastPrefix(o: seq<byte>) returns (k: nat)
    requires o == [] || o[0] == SLASH
    ensures k <= |o| && DropLast(o) == o[..k] && (k < |o| ==> o[k] == SLASH) && (k == |o| ==> o == [])
  {
    if o == [] {
      k := 0;
    } else if o[|o| - 1] == SLASH {
      k := |o| - 1;
    } else {
      k := DropLastPrefix(o[..|o| - 1]);
    }
  }

  lemma TidyEaten(out: seq<byte>)
    requires Tidy(out)
    ensures Tidy(EatDir(out)) && |EatDir(out)| <= |out|
  {
    var o := out[..|out| - 1];
    var k := DropLastPrefix(o);
    assert EatDir(out) == out[..k + 1];
    TidyPrefix(out, k + 1);
  }

  lemma NextTidy(rest: seq<byte>, out: seq<byte>)
    requires Tidy(out) && |Segment(rest)| < |rest|
    ensures Tidy(Next(rest, out)) && |Next(rest, out)| + |More(rest)| <= |out| + |rest|
    ensures Walk(rest, out) == Walk(More(rest), Next(rest, out))
  {
    var segment := Segment(rest);
    Split(rest);
    if segment == [DOT, DOT] {
      TidyEaten(out);
    } else if segment != [DOT] {
      TidyExtended(out, segment, [SLASH]);
      assert out + segment + [SLASH] == out + rest[..|segment| + 1];
    }
  }

  lemma {:induction false} WalkTidy(rest: seq<byte>, out: seq<byte>)
    requires Tidy(out)
    ensures var r := Walk(rest, out); r != [] && r[0] == SLASH && NoDots(r) && |r| <= |out| + |rest|
    decreases |rest|
  {
    Split(rest);
    if |Segment(rest)| < |rest| {
      NextTidy(rest, out);
      WalkTidy(More(rest), Next(rest, out));
    } else if IsDots(rest) {
      TidyEaten(out);
    } else {
      TidyExtended(out, rest, []);
      assert out + rest + [] == out + rest;
    }
  }

  /** Every cleaned path begins with a slash, has no dot segment, and is at most one byte longer. */
  lemma CleanTidy(path: seq<byte>)
    ensures Clean(path) != [] && Clean(path)[0] == SLASH && NoDots(Clean(path)) && |Clean(path)| <= |path| + 1
  {
    WalkTidy(SkipSlashes(path), [SLASH]);
  }

  // ---------------------------------------------------------------------------
  // Cleaning a clean path. A slash directly after a dot segment makes an empty segment, so cleaning twice
  // can differ from cleaning once: exactly when such a segment is left in the result.

  /** How many of the segments before `rest` the double-dot segments in it remove. */
  function Excess(rest: seq<byte>): nat
    decreases |rest|
  {
    var segment := Segment(rest);
    var later := if |segment| == |rest| then 0 else Excess(More(rest));
    if segment == [DOT] then later
    else if segment == [DOT, DOT] then later + 1
    else if later > 0 then later - 1
    else 0
  }

  /** Some empty segment of `rest` is followed by a slash and not removed by a later double-dot segment. */
  predicate Doubled(rest: seq<byte>)
    decreases |rest|
  {
    |Segment(rest)| < |rest| && ((Segment(rest) == [] && Excess(More(rest)) == 0) || Doubled(More(rest)))
  }

  function Eaten(out: seq<byte>, n: nat): (r: seq<byte>)
    requires out != []
    decreases n
  {
    if n == 0 then out else Eaten(EatDir(out), n - 1)
  }

  /** Dropping the segment just added gives the buffer back. */
  lemma {:induction false} EatenBack(out: seq<byte>, segment: seq<byte>)
    requires out != [] && out[|out| - 1] == SLASH && NoSlash(segment)
    ensures DropLast(out + segment) + [SLASH] == out
  {
    var s := out + segment;
    if segment == [] {
      assert s == out;
    } else {
      EatenBack(out, segment[..|segment| - 1]);
      assert s[..|s| - 1] == out + segment[..|segment| - 1];
    }
  }

  lemma AdjacentExtended(out: seq<byte>, segment: seq<byte>)
    requires out != [] && out[|out| - 1] == SLASH && NoSlash(segment)
    ensures Adjacent(out + segment) <==> Adjacent(out)
    ensures Adjacent(out + segment + [SLASH]) <==> Adjacent(out) || segment == []
  {
    var s := out + segment;
    var t := s + [SLASH];
    if Adjacent(out) {
      var i :| PairAt(out, i);
      assert PairAt(s, i) && PairAt(t, i);
    }
    if segment == [] {
      assert PairAt(t, |out| - 1);
    }
    if Adjacent(t) {
      var i :| PairAt(t, i);
      assert forall j :: 0 <= j < |segment| ==> t[|out| + j] == segment[j];
      assert segment == [] || PairAt(out, i);
    }
    if Adjacent(s) {
      var i :| PairAt(s, i);
      assert forall j :: 0 <= j < |segment| ==> s[|out| + j] == segment[j];
      assert PairAt(out, i);
    }
  }

  lemma NextPlain(rest: seq<byte>, out: seq<byte>)
    requires out != [] && out[|out| - 1] == SLASH && |Segment(rest)| < |rest| && !IsDots(Segment(rest))
    ensures EatDir(Next(rest, out)) == out && (Adjacent(Next(rest, out)) <==> Adjacent(out) || Segment(rest) == [])
  {
    var segment := Segment(rest);
    Split(rest);
    var next := out + segment + [SLASH];
    assert next == Next(rest, out) by {
      assert next == out + rest[..|segment| + 1];
    }
    AdjacentExtended(out, segment);
    EatenBack(out, segment);
    assert next[..|next| - 1] == out + segment;
  }

  lemma NextLast(rest: seq<byte>, out: seq<byte>)
    requires out != [] && out[|out| - 1] == SLASH && |Segment(rest)| < |rest|
    ensures Next(rest, out) != [] && Next(rest, out)[|Next(rest, out)| - 1] == SLASH
    ensures Walk(rest, out) == Walk(More(rest), Next(rest, out))
  {
    assert rest[|Segment(rest)|] == SLASH;
  }

  lemma NextAdjacent(rest: seq<byte>, out: seq<byte>)
    requires out != [] && out[|out| - 1] == SLASH && |Segment(rest)| < |rest|
    ensures Adjacent(Eaten(Next(rest, out), Excess(More(rest)))) || Doubled(More(rest))
       <==> Adjacent(Eaten(out, Excess(rest))) || Doubled(rest)
  {
    var next, later := Next(rest, out), Excess(More(rest));
    if Segment(rest) == [DOT] {
      assert next == out && Excess(rest) == later;
    } else if Segment(rest) == [DOT, DOT] {
      EatenOnce(out, later + 1);
      assert next == EatDir(out) && Excess(rest) == later + 1;
    } else {
      NextPlain(rest, out);
      if later > 0 {
        EatenOnce(next, later);
        assert Excess(rest) == later - 1;
      } else {
        assert Excess(rest) == 0 && Eaten(next, 0) == next && Eaten(out, 0) == out;
      }
    }
  }

  lemma EatenOnce(out: seq<byte>, n: nat)
    requires out != [] && n > 0
    ensures Eaten(out, n) == Eaten(EatDir(out), n - 1)
  {
  }

  lemma {:induction false} WalkAdjacent(rest: seq<byte>, out: seq<byte>)
    requires out != [] && out[|out| - 1] == SLASH
    ensures Adjacent(Walk(rest, out)) <==> Adjacent(Eaten(out, Excess(rest))) || Doubled(rest)
    decreases |rest|
  {
    Split(rest);
    if |Segment(rest)| < |rest| {
      NextLast(rest, out);
      NextAdjacent(rest, out);
      WalkAdjacent(More(rest), Next(rest, out));
    } else {
      LastAdjacent(rest, out);
    }
  }

  lemma LastAdjacent(rest: seq<byte>, out: seq<byte>)
    requires out != [] && out[|out| - 1] == SLASH && Segment(rest) == rest && NoSlash(rest)
    ensures Adjacent(Last(rest, out)) <==> Adjacent(Eaten(out, Excess(rest)))
    ensures !Doubled(rest)
  {
    if rest == [DOT, DOT] {
      assert Eaten(out, 1) == Eaten(EatDir(out), 0);
    } else if rest != [DOT] {
      AdjacentExtended(out, rest);
    }
  }

  lemma {:induction false} EatenRoot(n: nat)
    ensures Eaten([SLASH], n) == [SLASH]
  {
    if n > 0 {
      assert EatDir([SLASH]) == [SLASH];
      EatenRoot(n - 1);
    }
  }

  /** Adjacent slashes are left in the result exactly when an empty segment is left. */
  lemma CleanAdjacent(path: seq<byte>)
    ensures Adjacent(Clean(path)) <==> Doubled(SkipSlashes(path))
  {
    WalkAdjacent(SkipSlashes(path), [SLASH]);
    EatenRoot(Excess(SkipSlashes(path)));
  }

  lemma {:induction false} NotDoubled(rest: seq<byte>)
    requires !Adjacent(rest) && (rest != [] ==> rest[0] != SLASH)
    ensures !Doubled(rest)
    decreases |rest|
  {
    if |Segment(rest)| < |rest| {
      MoreKept(rest);
      assert Segment(rest) != [];
      NotDoubled(More(rest));
    }
  }

  /** `rest` has no dot segment, at its beginning or later. */
  ghost predicate Plain(rest: seq<byte>) {
    !IsDots(Segment(rest)) && NoDots(rest)
  }

  lemma PlainTail(rest: seq<byte>, k: nat)
    requires NoDots(rest) && 1 <= k <= |rest| && rest[k - 1] == SLASH
    ensures Plain(rest[k..])
  {
    var t := rest[k..];
    assert !DotsAt(rest, k - 1);
    forall i ensures !DotsAt(t, i) {
      assert !DotsAt(rest, k + i);
      if 0 <= i < |t| {
        assert t[i + 1..] == rest[k + i + 1..];
      }
    }
  }

  lemma SkippedAt(s: seq<byte>, i: nat)
    requires 0 < i <= |s| && s[i - 1] == SLASH
    ensures var k := |s| - |SkipSlashes(s[i..])|; 0 < k <= |s| && SkipSlashes(s[i..]) == s[k..] && s[k - 1] == SLASH
  {
    var t := s[i..];
    var k := OtherFrom(t, 0);
    assert t[k..] == s[i + k..];
    assert k > 0 ==> t[k - 1] == s[i + k - 1];
  }

  lemma PlainMore(rest: seq<byte>)
    requires Plain(rest) && |Segment(rest)| < |rest|
    ensures Plain(More(rest)) && (More(rest) != [] ==> More(rest)[0] != SLASH)
  {
    var i := |Segment(rest)| + 1;
    var k := |rest| - |SkipSlashes(rest[i..])|;
    SkippedAt(rest, i);
    assert More(rest) == rest[k..];
    PlainTail(rest, k);
  }

  lemma {:induction false} PlainAdjacent(rest: seq<byte>)
    requires Plain(rest) && (rest != [] ==> rest[0] != SLASH)
    ensures !Doubled(rest)
    decreases |rest|
  {
    if |Segment(rest)| < |rest| {
      PlainMore(rest);
      PlainAdjacent(More(rest));
    }
  }

  lemma NextKeeps(rest: seq<byte>, out: seq<byte>)
    requires !IsDots(Segment(rest)) && !Adjacent(rest) && out != [] && |Segment(rest)| < |rest|
    ensures Next(rest, out) + More(rest) == out + rest
  {
    MoreKept(rest);
    NextOrdinary(rest, out);
    Rejoined(rest, out, |Segment(rest)| + 1);
  }

  lemma NextOrdinary(rest: seq<byte>, out: seq<byte>)
    requires !IsDots(Segment(rest)) && out != [] && |Segment(rest)| < |rest|
    ensures Next(rest, out) == out + rest[..|Segment(rest)| + 1]
  {
  }

  lemma Rejoined(rest: seq<byte>, out: seq<byte>, i: nat)
    requires i <= |rest|
    ensures out + rest[..i] + rest[i..] == out + rest
  {
  }

  lemma KeepsOn(rest: seq<byte>, out: seq<byte>)
    requires Plain(rest) && !Adjacent(rest) && out != [] && out[|out| - 1] == SLASH && |Segment(rest)| < |rest|
    ensures var more, next := More(rest), Next(rest, out);
            Plain(more) && !Adjacent(more) && next[|next| - 1] == SLASH && next + more == out + rest
  {
    MoreKept(rest);
    PlainMore(rest);
    NextLast(rest, out);
    NextKeeps(rest, out);
  }

  lemma {:induction false} WalkKeeps(rest: seq<byte>, out: seq<byte>)
    requires Plain(rest) && !Adjacent(rest) && out != [] && out[|out| - 1] == SLASH
    ensures Walk(rest, out) == out + rest
    decreases |rest|
  {
    if |Segment(rest)| < |rest| {
      KeepsOn(rest, out);
      WalkKeeps(More(rest), Next(rest, out));
    } else {
      assert Segment(rest) == rest;
    }
  }

  /** A rooted path without dot segments is left unchanged exactly when it has no adjacent slashes. */
  lemma FixedPoint(s: seq<byte>)
    requires s != [] && s[0] == SLASH && NoDots(s)
    ensures Clean(s) == s <==> !Adjacent(s)
  {
    var rest := SkipSlashes(s);
    PlainTail(s, |s| - |rest|);
    PlainAdjacent(rest);
    CleanAdjacent(s);
    if !Adjacent(s) {
      TailNotAdjacent(s, 1);
      assert rest == s[1..];
      WalkKeeps(rest, [SLASH]);
      assert s == [SLASH] + rest;
    }
  }

  /** Cleaning twice is cleaning once exactly when no empty segment is left. */
  lemma CleanTwice(path: seq<byte>)
    ensures Clean(Clean(path)) == Clean(path) <==> !Doubled(SkipSlashes(path))
  {
    CleanTidy(path);
    FixedPoint(Clean(path));
    CleanAdjacent(path);
  }

  /** In particular whenever the path has no adjacent slashes. */
  lemma CleanIdempotent(path: seq<byte>)
    requires !Adjacent(path)
    ensures Clean(Clean(path)) == Clean(path) && !Adjacent(Clean(path))
  {
    var rest := SkipSlashes(path);
    TailNotAdjacent(path, |path| - |rest|);
    NotDoubled(rest);
    CleanTwice(path);
    CleanAdjacent(path);
  }

  lemma Skipped(s: seq<byte>, k: nat)
    requires k < |s| && s[k] != SLASH && forall i :: 0 <= i < k ==> s[i] == SLASH
    ensures SkipSlashes(s) == s[k..]
  {
    assert OtherFrom(s, 0) == k;
  }

  lemma WalkName(out: seq<byte>)
    requires out != []
    ensures Walk([97], out) == out + [97]
  {
    assert FindSlash([97]) == 1;
    assert Segment([97]) == [97];
  }

  lemma WalkEmptySegment()
    ensures Walk([SLASH, 97], [SLASH]) == [SLASH, SLASH, 97]
  {
    var b := [SLASH, 97];
    FirstSlash(b, 0);
    assert Segment(b) == [] && b[1..] == [97] && b[..1] == [SLASH];
    Skipped([97], 0);
    assert Next(b, [SLASH]) == [SLASH, SLASH];
    WalkName([SLASH, SLASH]);
  }

  lemma WalkDotSegment()
    ensures Walk([DOT, SLASH, SLASH, 97], [SLASH]) == Walk([SLASH, 97], [SLASH])
  {
    var c := [DOT, SLASH, SLASH, 97];
    FirstSlash(c, 1);
    assert Segment(c) == [DOT] && c[2..] == [SLASH, 97];
  }

  /** The path "/.//a" is cleaned to "//a", and that to "/a". */
  lemma CleanNotIdempotent()
    ensures Clean([SLASH, DOT, SLASH, SLASH, 97]) == [SLASH, SLASH, 97] && Clean([SLASH, SLASH, 97]) == [SLASH, 97]
  {
    Skipped([SLASH, DOT, SLASH, SLASH, 97], 1);
    WalkDotSegment();
    WalkEmptySegment();
    Skipped([SLASH, SLASH, 97], 2);
    WalkName([SLASH]);
  }
}
