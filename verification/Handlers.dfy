/**
 * What the two connection handlers hand to a write: the HTTP/2 handler the frames its session has to send,
 * the HTTP/1 handler the responses that are next in request order.
 */
module Handlers {

  // ---------------------------------------------------------------------------
  // HTTP/2: the session is a queue of chunks.

  function Flat(chunks: seq<seq<int>>): seq<int> {
    if chunks == [] then [] else chunks[0] + Flat(chunks[1..])
  }

  lemma {:induction false} FlatAppend(a: seq<seq<int>>, b: seq<seq<int>>)
    ensures Flat(a + b) == Flat(a) + Flat(b)
  {
    if a == [] {
      assert a + b == b;
    } else {
      FlatAppend(a[1..], b);
      assert (a + b)[1..] == a[1..] + b && (a + b)[0] == a[0];
      assert a[0] + (Flat(a[1..]) + Flat(b)) == a[0] + Flat(a[1..]) + Flat(b);
    }
  }

  /** Chunks are not empty and fit an output buffer of the given size. */
  predicate Fit(chunks: seq<seq<int>>, size: nat) {
    forall i :: 0 <= i < |chunks| ==> 0 < |chunks[i]| <= size
  }

  /** What one call of `on_write` puts into the buffer, the chunk it holds back, and what it leaves in the session. */
  datatype Filled = Filled(out: seq<int>, held: seq<int>, rest: seq<seq<int>>)

  /** Chunks are taken until one does not fit behind those already in the buffer: that one is held back. */
  function Fill(session: seq<seq<int>>, out: seq<int>, size: nat): Filled
    decreases |session|
  {
    if session == [] then Filled(out, [], [])
    else if |out| + |session[0]| > size then Filled(out, session[0], session[1..])
    else Fill(session[1..], out + session[0], size)
  }

  /** Nothing is lost, repeated or reordered. */
  lemma {:induction false} FillConserves(session: seq<seq<int>>, out: seq<int>, size: nat)
    ensures var f := Fill(session, out, size); f.out + f.held + Flat(f.rest) == out + Flat(session)
    decreases |session|
  {
    if session != [] {
      var tail := session[1..];
      if |out| + |session[0]| <= size {
        FillConserves(tail, out + session[0], size);
      }
      assert out + session[0] + Flat(tail) == out + Flat(session);
    } else {
      assert out + [] + [] == out;
    }
  }

  /** The buffer does not overflow, and what is left still fits. */
  lemma {:induction false} FillFits(session: seq<seq<int>>, out: seq<int>, size: nat)
    requires Fit(session, size) && |out| <= size
    ensures var f := Fill(session, out, size); |f.out| <= size && |f.held| <= size && Fit(f.rest, size)
    ensures |Fill(session, out, size).out| >= |out|
    decreases |session|
  {
    if session != [] && |out| + |session[0]| <= size {
      FillFits(session[1..], out + session[0], size);
    }
  }

  /** Something is written whenever there is something to write. */
  lemma FillProgress(session: seq<seq<int>>, out: seq<int>, size: nat)
    requires Fit(session, size) && |out| <= size
    ensures Fill(session, out, size).out == [] <==> out == [] && session == []
    ensures Fill(session, out, size).out == [] ==>
            Fill(session, out, size).held == [] && Fill(session, out, size).rest == []
  {
    FillFits(session, out, size);
    if session != [] && out == [] {
      assert |session[0]| <= size;
      assert out + session[0] == session[0];
      FillFits(session[1..], session[0], size);
    }
  }

  /** Once a chunk is held back, the chunks behind it do not matter. */
  lemma {:induction false} FillPrefix(session: seq<seq<int>>, k: nat, out: seq<int>, size: nat)
    requires k <= |session| && Fit(session, size) && Fill(session[..k], out, size).held != []
    ensures var f := Fill(session[..k], out, size);
            Fill(session, out, size) == Filled(f.out, f.held, f.rest + session[k..])
    decreases |session|
  {
    if k > 0 {
      var tail := session[1..];
      assert session[..k][1..] == tail[..k - 1] && session[..k][0] == session[0] && tail[k - 1..] == session[k..];
      if |out| + |session[0]| <= size {
        FillPrefix(tail, k - 1, out + session[0], size);
      } else {
        assert tail == tail[..k - 1] + tail[k - 1..];
      }
    }
  }

  // ---------------------------------------------------------------------------
  // HTTP/1: stream ids in increasing order, as `std::map` and `std::set` keep them.

  predicate Sorted(s: seq<nat>) {
    forall i, j :: 0 <= i < j < |s| ==> s[i] < s[j]
  }

  predicate Within(a: seq<nat>, b: seq<nat>) {
    forall x :: x in a ==> x in b
  }

  function Insert(s: seq<nat>, x: nat): seq<nat> {
    if s == [] || x < s[0] then [x] + s
    else if x == s[0] then s
    else [s[0]] + Insert(s[1..], x)
  }

  lemma {:induction false} InsertSorted(s: seq<nat>, x: nat)
    requires Sorted(s)
    ensures Sorted(Insert(s, x)) && forall y :: y in Insert(s, x) <==> y == x || y in s
  {
    if s != [] && x > s[0] {
      InsertSorted(s[1..], x);
      assert s == [s[0]] + s[1..];
      forall j | 1 <= j < |Insert(s, x)| ensures s[0] < Insert(s, x)[j] {
        assert Insert(s, x)[j] in Insert(s[1..], x);
      }
    }
  }

  function Erase(s: seq<nat>, x: nat): seq<nat> {
    if s == [] then [] else if s[0] == x then s[1..] else [s[0]] + Erase(s[1..], x)
  }

  lemma {:induction false} EraseSorted(s: seq<nat>, x: nat)
    requires Sorted(s)
    ensures Sorted(Erase(s, x)) && forall y :: y in Erase(s, x) <==> y != x && y in s
  {
    if s != [] {
      assert s == [s[0]] + s[1..];
      if s[0] != x {
        EraseSorted(s[1..], x);
        forall j | 1 <= j < |Erase(s, x)| ensures s[0] < Erase(s, x)[j] {
          assert Erase(s, x)[j] in Erase(s[1..], x);
        }
      }
    }
  }

  /** How many ids from the front of `ready` follow each other without a gap. */
  function RunFrom(ready: seq<nat>, k: nat): (r: nat)
    requires 0 < k <= |ready|
    ensures k <= r <= |ready|
    ensures forall i :: k <= i < r ==> ready[i] == ready[i - 1] + 1
    decreases |ready| - k
  {
    if k < |ready| && ready[k] == ready[k - 1] + 1 then RunFrom(ready, k + 1) else k
  }

  /** The ids `get_consecutive_stream_ids_to_respond` takes from the front of `ready`. */
  function Consecutive(open: seq<nat>, ready: seq<nat>): (k: nat)
    ensures k <= |ready|
  {
    if ready != [] && open != [] && ready[0] == open[0] then RunFrom(ready, 1) else 0
  }

  function EraseAll(open: seq<nat>, ids: seq<nat>): seq<nat>
    decreases |ids|
  {
    if ids == [] then open else EraseAll(Erase(open, ids[0]), ids[1..])
  }

  lemma {:induction false} EraseAllEnd(open: seq<nat>, ids: seq<nat>)
    requires ids != []
    ensures EraseAll(open, ids) == Erase(EraseAll(open, ids[..|ids| - 1]), ids[|ids| - 1])
    decreases |ids|
  {
    if |ids| > 1 {
      EraseAllEnd(Erase(open, ids[0]), ids[1..]);
      assert ids[1..][..|ids| - 2] == ids[..|ids| - 1][1..];
    }
  }

  lemma {:induction false} EraseHead(open: seq<nat>, k: nat)
    requires k <= |open|
    ensures EraseAll(open, open[..k]) == open[k..]
  {
    if k > 0 {
      EraseHead(open[1..], k - 1);
      assert open[..k][1..] == open[1..][..k - 1];
      assert open[1..][k - 1..] == open[k..];
    }
  }

  /** The place of an id in a sorted sequence is at least its distance from the first. */
  lemma {:induction false} NextIn(open: seq<nat>, ready: seq<nat>, k: nat)
    requires Sorted(open) && Sorted(ready) && Within(ready, open)
    requires open != [] && ready != [] && ready[0] == open[0] && 0 < k <= RunFrom(ready, 1)
    ensures k <= |open| && forall i :: 0 <= i < k ==> open[i] == ready[i]
  {
    if k > 1 {
      NextIn(open, ready, k - 1);
      assert ready[k - 1] in ready && ready[k - 1] == ready[k - 2] + 1;
      var j :| 0 <= j < |open| && open[j] == ready[k - 1];
      assert j > k - 2;
      assert j > k - 1 ==> open[k - 2] < open[k - 1] < open[j];
    }
  }

  /** The ids taken are the first open streams, in order. */
  lemma RunIsHead(open: seq<nat>, ready: seq<nat>)
    requires Sorted(open) && Sorted(ready) && Within(ready, open)
    ensures var k := Consecutive(open, ready);
            k <= |open| && ready[..k] == open[..k] &&
            EraseAll(open, ready[..k]) == open[k..]
    ensures Sorted(open[Consecutive(open, ready)..]) && Sorted(ready[Consecutive(open, ready)..])
    ensures Within(ready[Consecutive(open, ready)..], open[Consecutive(open, ready)..])
  {
    var k := Consecutive(open, ready);
    if k > 0 {
      NextIn(open, ready, k);
      assert ready[..k] == open[..k];
      WithinRest(open, ready, k);
    } else {
      assert ready[..0] == open[..0] && ready[0..] == ready && open[0..] == open;
    }
    SortedRest(open, k);
    SortedRest(ready, k);
    EraseHead(open, k);
  }

  lemma SortedRest(s: seq<nat>, k: nat)
    requires Sorted(s) && k <= |s|
    ensures Sorted(s[k..])
  {
  }

  lemma WithinRest(open: seq<nat>, ready: seq<nat>, k: nat)
    requires Sorted(ready) && Within(ready, open) && k <= |open| && k <= |ready|
    requires forall i :: 0 <= i < k ==> open[i] == ready[i]
    ensures Within(ready[k..], open[k..])
  {
    forall x | x in ready[k..] ensures x in open[k..] {
      var i :| k <= i < |ready| && ready[i] == x;
      assert x in ready;
      var j :| 0 <= j < |open| && open[j] == x;
      assert forall m :: 0 <= m < k ==> open[m] == ready[m] && ready[m] < ready[i];
      assert open[k..][j - k] == x;
    }
  }

  // ---------------------------------------------------------------------------
  // Repeated writes, with nothing else happening.

  /** The ids written by call after call of `on_write`, until a call writes nothing. */
  function Drain(open: seq<nat>, ready: seq<nat>): seq<nat>
    decreases |ready|
  {
    var k := Consecutive(open, ready);
    if k == 0 then [] else ready[..k] + Drain(EraseAll(open, ready[..k]), ready[k..])
  }

  /** The open streams that are ready, with every open stream before them ready. */
  function AtHead(open: seq<nat>, ready: seq<nat>): (n: nat)
    ensures n <= |open|
  {
    if open != [] && open[0] in ready then 1 + AtHead(open[1..], ready) else 0
  }

  lemma {:induction false} AtHeadMeans(open: seq<nat>, ready: seq<nat>, i: nat)
    requires i < |open|
    ensures i < AtHead(open, ready) <==> forall j :: 0 <= j <= i ==> open[j] in ready
  {
    if open[0] in ready && i > 0 {
      AtHeadMeans(open[1..], ready, i - 1);
      assert forall j :: 1 <= j <= i ==> open[j] == open[1..][j - 1];
      assert forall j :: 0 <= j <= i - 1 ==> open[1..][j] == open[j + 1];
    }
  }

  lemma NextSame(open: seq<nat>, ready: seq<nat>, k: nat)
    requires 0 < k <= |open| && k <= |ready| && ready[..k] == open[..k]
    ensures ready[0] == open[0] && ready[1..][..k - 1] == open[1..][..k - 1]
  {
    assert ready[0] == ready[..k][0];
    assert ready[1..][..k - 1] == ready[..k][1..];
    assert open[1..][..k - 1] == open[..k][1..];
  }

  lemma {:induction false} AtHeadSkips(open: seq<nat>, ready: seq<nat>, k: nat)
    requires Sorted(open) && Sorted(ready) && k <= |open| && k <= |ready| && ready[..k] == open[..k]
    ensures AtHead(open, ready) == k + AtHead(open[k..], ready[k..])
  {
    if k > 0 {
      NextSame(open, ready, k);
      AtHeadForgets(open[1..], ready);
      SortedRest(open, 1);
      SortedRest(ready, 1);
      AtHeadSkips(open[1..], ready[1..], k - 1);
      RestOfRest(open, k);
      RestOfRest(ready, k);
    } else {
      assert open[0..] == open && ready[0..] == ready;
    }
  }

  lemma RestOfRest(s: seq<nat>, k: nat)
    requires 0 < k <= |s|
    ensures s[1..][k - 1..] == s[k..]
  {
  }

  lemma {:induction false} AtHeadForgets(open: seq<nat>, ready: seq<nat>)
    requires ready != [] && ready[0] !in open
    ensures AtHead(open, ready) == AtHead(open, ready[1..])
  {
    if open != [] {
      assert ready == [ready[0]] + ready[1..];
      assert open[0] in ready <==> open[0] in ready[1..];
      AtHeadForgets(open[1..], ready);
    }
  }

  lemma DrainStep(open: seq<nat>, ready: seq<nat>)
    requires Sorted(open) && Sorted(ready) && Within(ready, open) && Consecutive(open, ready) > 0
    ensures var k := Consecutive(open, ready);
            k <= |open| && Drain(open, ready) == open[..k] + Drain(open[k..], ready[k..]) &&
              AtHead(open, ready) == k + AtHead(open[k..], ready[k..])
  {
    RunIsHead(open, ready);
    AtHeadSkips(open, ready, Consecutive(open, ready));
  }

  lemma NoneAtHead(open: seq<nat>, ready: seq<nat>)
    requires Sorted(open) && Sorted(ready) && Within(ready, open)
    ensures Consecutive(open, ready) == 0 <==> AtHead(open, ready) == 0
  {
    if open != [] && open[0] in ready {
      assert ready[0] in ready && ready[0] in open;
      assert ready[0] == open[0];
    }
  }

  lemma Prefixes(s: seq<nat>, k: nat, n: nat)
    requires k + n <= |s|
    ensures s[..k] + s[k..][..n] == s[..k + n]
  {
  }

  /** Repeated writes send exactly the streams at the head, across ids closed without a response. */
  lemma {:induction false} DrainsHead(open: seq<nat>, ready: seq<nat>)
    requires Sorted(open) && Sorted(ready) && Within(ready, open)
    ensures Drain(open, ready) == open[..AtHead(open, ready)]
    decreases |ready|
  {
    var k := Consecutive(open, ready);
    NoneAtHead(open, ready);
    if k > 0 {
      RunIsHead(open, ready);
      DrainStep(open, ready);
      DrainsHead(open[k..], ready[k..]);
      Prefixes(open, k, AtHead(open[k..], ready[k..]));
    }
  }
}
