/**
 * The memory behind chunked byte queues: fixed-size chunks, the free list and the queues' lists
 * that their links form, and what moving a chunk does to them.
 *
 * A chunk is known by its index in `mem`, and links are such indices, with -1 for the null pointer.
 */
module ChunkLists {
  import opened Bytes

  /** A buffer with a filled part from `pos` to `last`. */
  datatype Chunk = Chunk(buf: seq<byte>, pos: nat, last: nat, next: int) {
    ghost predicate Ok(size: nat) {
      pos <= last <= |buf| == size
    }

    ghost function Live(): seq<byte> {
      if pos <= last <= |buf| then buf[pos..last] else []
    }

    /** The chunk with data copied in behind what it holds. */
    function Put(data: seq<byte>): Chunk
      requires last + |data| <= |buf|
    {
      this.(buf := buf[..last] + data + buf[last + |data|..], last := last + |data|)
    }
  }

  lemma PutLive(c: Chunk, size: nat, data: seq<byte>)
    requires c.Ok(size) && c.last + |data| <= size
    ensures c.Put(data).Ok(size) && c.Put(data).Live() == c.Live() + data
  {
  }

  datatype Queue = Queue(head: int, tail: int, len: nat)

  // ---------------------------------------------------------------------------
  // The lists that the links form: list 0 is the free list, list q + 1 the chunks of queue q.
  // `seat` says in which list a chunk is, and on which ticket; tickets are counted from `base`.

  datatype Seat = Seat(list: nat, ticket: int)

  datatype Lists = Lists(lists: seq<seq<nat>>, seat: seq<Seat>, base: seq<int>)

  function At(ids: seq<nat>, p: int): int {
    if 0 <= p < |ids| then ids[p] else -1
  }

  /** The chunk in place p of a list leads to the next one. */
  ghost predicate Link(mem: seq<Chunk>, ids: seq<nat>, p: nat) {
    p < |ids| && ids[p] < |mem| && mem[ids[p]].next == At(ids, p + 1)
  }

  ghost predicate Linked(mem: seq<Chunk>, ids: seq<nat>) {
    forall p :: 0 <= p < |ids| ==> Link(mem, ids, p)
  }

  /** The chunk in place p of list l has the seat of that place. */
  ghost predicate Sits(g: Lists, l: int, p: int) {
    0 <= l < |g.lists| && l < |g.base| && 0 <= p < |g.lists[l]| ==>
      g.lists[l][p] < |g.seat| && g.seat[g.lists[l][p]] == Seat(l, g.base[l] + p)
  }

  /** A chunk is in the place its seat says. */
  ghost predicate Housed(g: Lists, id: int) {
    0 <= id < |g.seat| ==>
      var s := g.seat[id];
      && s.list < |g.lists| && s.list < |g.base|
      && 0 <= s.ticket - g.base[s.list] < |g.lists[s.list]|
      && g.lists[s.list][s.ticket - g.base[s.list]] == id
  }

  ghost predicate Seated(g: Lists, n: nat) {
    && |g.seat| == n && |g.base| == |g.lists|
    && (forall l, p :: Sits(g, l, p))
    && (forall id :: Housed(g, id))
  }

  /** Every list is linked in order, no chunk is in two places, and every chunk is in one. */
  ghost predicate Threaded(mem: seq<Chunk>, g: Lists) {
    && Seated(g, |mem|)
    && (forall l :: 0 <= l < |g.lists| ==> Linked(mem, g.lists[l]))
  }

  ghost function LiveOf(mem: seq<Chunk>, id: int): seq<byte> {
    if 0 <= id < |mem| then mem[id].Live() else []
  }

  /** The bytes of a list of chunks, in order. */
  ghost function Content(mem: seq<Chunk>, ids: seq<nat>): seq<byte> {
    if ids == [] then [] else LiveOf(mem, ids[0]) + Content(mem, ids[1..])
  }

  lemma {:induction false} ContentSame(mem: seq<Chunk>, mem1: seq<Chunk>, ids: seq<nat>)
    requires forall p :: 0 <= p < |ids| ==> LiveOf(mem1, ids[p]) == LiveOf(mem, ids[p])
    ensures Content(mem1, ids) == Content(mem, ids)
  {
    if ids != [] {
      ContentSame(mem, mem1, ids[1..]);
    }
  }

  lemma Associate<T>(a: seq<T>, b: seq<T>, c: seq<T>)
    ensures a + (b + c) == a + b + c
  {
  }

  lemma {:induction false} ContentConcat(mem: seq<Chunk>, a: seq<nat>, b: seq<nat>)
    ensures Content(mem, a + b) == Content(mem, a) + Content(mem, b)
  {
    if a == [] {
      assert a + b == b;
    } else {
      var first, rest := LiveOf(mem, a[0]), Content(mem, a[1..]);
      calc {
        Content(mem, a + b);
        { assert (a + b)[0] == a[0] && (a + b)[1..] == a[1..] + b; }
        first + Content(mem, a[1..] + b);
        { ContentConcat(mem, a[1..], b); }
        first + (rest + Content(mem, b));
        { Associate(first, rest, Content(mem, b)); }
        first + rest + Content(mem, b);
      }
    }
  }

  // ---------------------------------------------------------------------------
  // The three ways chunks move.

  /** The links after chunk `id`, alone, is put behind the chunks of a list. */
  function Tied(mem: seq<Chunk>, ids: seq<nat>, id: nat): seq<Chunk> {
    var last := At(ids, |ids| - 1);
    if 0 <= last < |mem| then mem[last := mem[last].(next := id)] else mem
  }

  /** A new chunk is made and linked behind list l. */
  ghost function Made(mem: seq<Chunk>, g: Lists, l: nat, c: Chunk): (seq<Chunk>, Lists)
    requires l < |g.lists| == |g.base|
  {
    var id := |mem|;
    var ids := g.lists[l];
    (Tied(mem + [c.(next := -1)], ids, id),
     Lists(g.lists[l := ids + [id]], g.seat + [Seat(l, g.base[l] + |ids|)], g.base))
  }

  lemma MadeThreaded(mem: seq<Chunk>, g: Lists, l: nat, c: Chunk)
    requires Threaded(mem, g) && l < |g.lists|
    ensures var (mem1, g1) := Made(mem, g, l, c); Threaded(mem1, g1)
  {
    var (mem1, g1) := Made(mem, g, l, c);
    forall k, p ensures Sits(g1, k, p) {
      assert Sits(g, k, p);
    }
    forall id ensures Housed(g1, id) {
      assert Housed(g, id);
    }
    forall k | 0 <= k < |g1.lists| ensures Linked(mem1, g1.lists[k]) {
      forall p | 0 <= p < |g1.lists[k]| ensures Link(mem1, g1.lists[k], p) {
        assert Sits(g, l, |g.lists[l]| - 1);
        if p < |g.lists[k]| {
          assert Link(mem, g.lists[k], p);
          assert Sits(g, k, p);
        }
      }
    }
  }

  /** The first free chunk is emptied and linked behind list l. */
  ghost function Reused(mem: seq<Chunk>, g: Lists, l: nat): (seq<Chunk>, Lists)
    requires 0 < l < |g.lists| == |g.base| && g.lists[0] != [] && g.lists[0][0] < |mem| == |g.seat|
  {
    var id := g.lists[0][0];
    var ids := g.lists[l];
    (Tied(mem[id := mem[id].(pos := 0, last := 0, next := -1)], ids, id),
     Lists(g.lists[0 := g.lists[0][1..]][l := ids + [id]],
           g.seat[id := Seat(l, g.base[l] + |ids|)],
           g.base[0 := g.base[0] + 1]))
  }

  lemma ReusedSeated(mem: seq<Chunk>, g: Lists, l: nat)
    requires Seated(g, |mem|) && 0 < l < |g.lists| && g.lists[0] != [] && g.lists[0][0] < |mem|
    ensures var (mem1, g1) := Reused(mem, g, l); Seated(g1, |mem1|)
  {
    var (mem1, g1) := Reused(mem, g, l);
    assert Sits(g, 0, 0);
    forall k, p ensures Sits(g1, k, p) {
      assert Sits(g, k, if k == 0 then p + 1 else p);
    }
    forall id ensures Housed(g1, id) {
      assert Housed(g, id);
    }
  }

  lemma ReusedThreaded(mem: seq<Chunk>, g: Lists, l: nat)
    requires Threaded(mem, g) && 0 < l < |g.lists| && g.lists[0] != [] && g.lists[0][0] < |mem|
    ensures var (mem1, g1) := Reused(mem, g, l); Threaded(mem1, g1)
  {
    ReusedSeated(mem, g, l);
    var (mem1, g1) := Reused(mem, g, l);
    forall k | 0 <= k < |g1.lists| ensures Linked(mem1, g1.lists[k]) {
      forall p | 0 <= p < |g1.lists[k]| ensures Link(mem1, g1.lists[k], p) {
        ReusedLink(mem, g, l, k, p);
      }
    }
  }

  lemma ReusedLink(mem: seq<Chunk>, g: Lists, l: nat, k: nat, p: nat)
    requires Threaded(mem, g) && 0 < l < |g.lists| && g.lists[0] != [] && g.lists[0][0] < |mem| && k < |g.lists|
    requires p < |Reused(mem, g, l).1.lists[k]|
    ensures Link(Reused(mem, g, l).0, Reused(mem, g, l).1.lists[k], p)
  {
    assert Sits(g, 0, 0) && Sits(g, l, |g.lists[l]| - 1);
    var p0 := if k == 0 then p + 1 else p;
    if p0 < |g.lists[k]| {
      assert Link(mem, g.lists[k], p0);
      assert Sits(g, k, p0);
    }
  }

  /** The first chunk of list l is put before the free ones. */
  ghost function Recycled(mem: seq<Chunk>, g: Lists, l: nat): (seq<Chunk>, Lists)
    requires 0 < l < |g.lists| == |g.base| && g.lists[l] != [] && g.lists[l][0] < |mem| == |g.seat|
  {
    var id := g.lists[l][0];
    (mem[id := mem[id].(next := At(g.lists[0], 0))],
     Lists(g.lists[0 := [id] + g.lists[0]][l := g.lists[l][1..]],
           g.seat[id := Seat(0, g.base[0] - 1)],
           g.base[0 := g.base[0] - 1][l := g.base[l] + 1]))
  }

  lemma RecycledSeated(mem: seq<Chunk>, g: Lists, l: nat)
    requires Seated(g, |mem|) && 0 < l < |g.lists| && g.lists[l] != [] && g.lists[l][0] < |mem|
    ensures var (mem1, g1) := Recycled(mem, g, l); Seated(g1, |mem1|)
  {
    var (mem1, g1) := Recycled(mem, g, l);
    assert Sits(g, l, 0);
    forall k, p ensures Sits(g1, k, p) {
      assert Sits(g, k, if k == 0 then p - 1 else if k == l then p + 1 else p);
    }
    forall id ensures Housed(g1, id) {
      assert Housed(g, id);
    }
  }

  lemma RecycledThreaded(mem: seq<Chunk>, g: Lists, l: nat)
    requires Threaded(mem, g) && 0 < l < |g.lists| && g.lists[l] != [] && g.lists[l][0] < |mem|
    ensures var (mem1, g1) := Recycled(mem, g, l); Threaded(mem1, g1)
  {
    RecycledSeated(mem, g, l);
    var (mem1, g1) := Recycled(mem, g, l);
    forall k | 0 <= k < |g1.lists| ensures Linked(mem1, g1.lists[k]) {
      forall p | 0 <= p < |g1.lists[k]| ensures Link(mem1, g1.lists[k], p) {
        RecycledLink(mem, g, l, k, p);
      }
    }
  }

  lemma RecycledLink(mem: seq<Chunk>, g: Lists, l: nat, k: nat, p: nat)
    requires Threaded(mem, g) && 0 < l < |g.lists| && g.lists[l] != [] && g.lists[l][0] < |mem| && k < |g.lists|
    requires p < |Recycled(mem, g, l).1.lists[k]|
    ensures Link(Recycled(mem, g, l).0, Recycled(mem, g, l).1.lists[k], p)
  {
    var ids, ids1 := g.lists[k], Recycled(mem, g, l).1.lists[k];
    assert Sits(g, l, 0);
    if k == 0 && p == 0 {
      assert At(ids1, 1) == At(ids, 0);
    } else {
      var p0 := if k == 0 then p - 1 else if k == l then p + 1 else p;
      assert Link(mem, ids, p0);
      assert Sits(g, k, p0);
      assert At(ids, p0 + 1) == At(ids1, p + 1);
    }
  }

  /** All chunks of list l are linked behind those of list d. */
  ghost function Spliced(mem: seq<Chunk>, g: Lists, l: nat, d: nat): (seq<Chunk>, Lists)
    requires 0 < l < |g.lists| == |g.base| && 0 < d < |g.lists| && l != d && g.lists[l] != []
  {
    var ids, onto := g.lists[l], g.lists[d];
    (Tied(mem, onto, ids[0]),
     Lists(g.lists[d := onto + ids][l := []],
           seq(|g.seat|, i requires 0 <= i < |g.seat| =>
             if g.seat[i].list == l then Seat(d, g.seat[i].ticket - g.base[l] + |onto| + g.base[d]) else g.seat[i]),
           g.base))
  }

  lemma SplicedSeated(mem: seq<Chunk>, g: Lists, l: nat, d: nat)
    requires Seated(g, |mem|) && 0 < l < |g.lists| && 0 < d < |g.lists| && l != d && g.lists[l] != []
    ensures var (mem1, g1) := Spliced(mem, g, l, d); Seated(g1, |mem1|)
  {
    var (mem1, g1) := Spliced(mem, g, l, d);
    var n := |g.lists[d]|;
    forall k, p ensures Sits(g1, k, p) {
      assert Sits(g, if k == d && p >= n then l else k, if k == d && p >= n then p - n else p);
    }
    forall id ensures Housed(g1, id) {
      assert Housed(g, id);
    }
  }

  lemma SplicedThreaded(mem: seq<Chunk>, g: Lists, l: nat, d: nat)
    requires Threaded(mem, g) && 0 < l < |g.lists| && 0 < d < |g.lists| && l != d && g.lists[l] != []
    ensures var (mem1, g1) := Spliced(mem, g, l, d); Threaded(mem1, g1)
  {
    SplicedSeated(mem, g, l, d);
    var (mem1, g1) := Spliced(mem, g, l, d);
    forall k | 0 <= k < |g1.lists| ensures Linked(mem1, g1.lists[k]) {
      forall p | 0 <= p < |g1.lists[k]| ensures Link(mem1, g1.lists[k], p) {
        SplicedLink(mem, g, l, d, k, p);
      }
    }
  }

  lemma SplicedLink(mem: seq<Chunk>, g: Lists, l: nat, d: nat, k: nat, p: nat)
    requires Threaded(mem, g) && 0 < l < |g.lists| && 0 < d < |g.lists| && l != d && g.lists[l] != [] && k < |g.lists|
    requires p < |Spliced(mem, g, l, d).1.lists[k]|
    ensures Link(Spliced(mem, g, l, d).0, Spliced(mem, g, l, d).1.lists[k], p)
  {
    var n := |g.lists[d]|;
    var k0, p0 := if k == d && p >= n then l else k, if k == d && p >= n then p - n else p;
    assert Link(mem, g.lists[k0], p0);
    assert Sits(g, k0, p0) && Sits(g, d, n - 1);
  }

  // ---------------------------------------------------------------------------
  // What the movements do to the contents.

  /** Linking an empty chunk at the end of a list adds nothing. */
  lemma ContentTied(mem: seq<Chunk>, mem1: seq<Chunk>, ids: seq<nat>, id: nat)
    requires forall p :: 0 <= p < |ids| ==> LiveOf(mem1, ids[p]) == LiveOf(mem, ids[p])
    requires LiveOf(mem1, id) == []
    ensures Content(mem1, ids + [id]) == Content(mem, ids)
  {
    ContentSame(mem, mem1, ids);
    ContentConcat(mem1, ids, [id]);
    assert Content(mem1, [id]) == [];
  }

  /** Giving one chunk new contents changes the list it is in, and no other. */
  lemma ContentElsewhere(mem: seq<Chunk>, mem1: seq<Chunk>, g: Lists, id: nat, l: nat)
    requires Seated(g, |mem|) && id < |mem| && l < |g.lists| && g.seat[id].list != l
    requires forall i :: 0 <= i < |mem| && i != id ==> LiveOf(mem1, i) == LiveOf(mem, i)
    ensures Content(mem1, g.lists[l]) == Content(mem, g.lists[l])
  {
    var ids := g.lists[l];
    forall p | 0 <= p < |ids| ensures LiveOf(mem1, ids[p]) == LiveOf(mem, ids[p]) {
      assert Sits(g, l, p);
    }
    ContentSame(mem, mem1, ids);
  }

  // ---------------------------------------------------------------------------
  // The pool and the queues together. `view` is the sequence of bytes each queue stands for.

  datatype State = State(mem: seq<Chunk>, freelist: int, poolsize: nat, freelistsize: nat, queues: seq<Queue>)

  /** n chunks of a size, in bytes. */
  ghost function Times(size: nat, n: nat): nat {
    if n == 0 then 0 else size + Times(size, n - 1)
  }

  ghost predicate AllOk(size: nat, mem: seq<Chunk>) {
    forall id :: 0 <= id < |mem| ==> mem[id].Ok(size)
  }

  /** The free list begins where the pool says, and both byte counts are exact. */
  ghost predicate PoolOk(size: nat, s: State, g: Lists) {
    && |g.lists| > 0
    && s.freelist == At(g.lists[0], 0)
    && s.freelistsize == Times(size, |g.lists[0]|) && s.poolsize == Times(size, |s.mem|)
  }

  /** Queue l - 1 has its ends and its length right, and holds the bytes the view says. */
  ghost predicate Shown(mem: seq<Chunk>, g: Lists, queues: seq<Queue>, view: seq<seq<byte>>, l: nat) {
    && 1 <= l < |g.lists| && l <= |queues| && l <= |view|
    && Ends(queues[l - 1], g.lists[l])
    && queues[l - 1].len == |view[l - 1]|
    && view[l - 1] == Content(mem, g.lists[l])
  }

  ghost predicate Ends(q: Queue, ids: seq<nat>) {
    q.head == At(ids, 0) && q.tail == At(ids, |ids| - 1)
  }

  ghost predicate AllShown(mem: seq<Chunk>, g: Lists, queues: seq<Queue>, view: seq<seq<byte>>) {
    && |g.lists| == |queues| + 1 == |view| + 1
    && forall l :: 1 <= l < |g.lists| ==> Shown(mem, g, queues, view, l)
  }

  /** The links, the pool's counts and the queues are right; a chunk in use may be empty. */
  ghost predicate Shape(size: nat, s: State, g: Lists, view: seq<seq<byte>>) {
    Threaded(s.mem, g) && AllOk(size, s.mem) && PoolOk(size, s, g) && AllShown(s.mem, g, s.queues, view)
  }

  /** The end pointers of a queue are null together, or lead to chunks of its list; its bytes begin
      with those of its first chunk. */
  lemma QueueFacts(size: nat, s: State, g: Lists, view: seq<seq<byte>>, q: nat)
    requires Shape(size, s, g, view) && q < |s.queues|
    ensures var queue, ids := s.queues[q], g.lists[q + 1];
            && (queue.head == -1 <==> ids == []) && (queue.tail == -1 <==> ids == [])
            && (ids != [] ==>
                  && 0 <= queue.head < |s.mem| && queue.head == ids[0] && s.mem[queue.head].Ok(size)
                  && 0 <= queue.tail < |s.mem| && queue.tail == ids[|ids| - 1] && s.mem[queue.tail].Ok(size)
                  && g.seat[queue.head].list == q + 1 && g.seat[queue.tail].list == q + 1)
            && queue.len == |view[q]| && view[q] == Content(s.mem, ids)
            && (ids == [] ==> view[q] == [])
            && LiveOf(s.mem, queue.head) <= view[q]
  {
    assert Shown(s.mem, g, s.queues, view, q + 1);
    assert Sits(g, q + 1, 0) && Sits(g, q + 1, |g.lists[q + 1]| - 1);
    if g.lists[q + 1] != [] {
      HeadContent(s.mem, g.lists[q + 1]);
    }
  }

  lemma HeadContent(mem: seq<Chunk>, ids: seq<nat>)
    requires ids != []
    ensures LiveOf(mem, ids[0]) <= Content(mem, ids)
  {
  }

  // ---------------------------------------------------------------------------
  // Linking an empty chunk behind a queue.

  /** Appending a chunk to a queue's record. */
  function Tailed(q: Queue, m: nat): Queue {
    if q.tail == -1 then q.(head := m, tail := m) else q.(tail := m)
  }

  /** g1 is g, apart from the free list, with a chunk added at the end of list l. */
  ghost predicate AddsTo(g: Lists, g1: Lists, l: nat, id: nat) {
    && l < |g.lists| == |g1.lists| && g1.lists[l] == g.lists[l] + [id]
    && forall k :: 1 <= k < |g.lists| && k != l ==> g1.lists[k] == g.lists[k]
  }

  /** A list has the bytes it had. */
  ghost predicate SameContent(mem: seq<Chunk>, g: Lists, mem1: seq<Chunk>, g1: Lists, k: int) {
    1 <= k < |g.lists| && k < |g1.lists| ==> Content(mem1, g1.lists[k]) == Content(mem, g.lists[k])
  }

  lemma AddedContents(mem: seq<Chunk>, g: Lists, mem1: seq<Chunk>, g1: Lists, l: nat, id: nat)
    requires Seated(g, |mem|) && 1 <= l && AddsTo(g, g1, l, id)
    requires LiveOf(mem1, id) == []
    requires forall i :: 0 <= i < |mem| && g.seat[i].list != 0 ==> LiveOf(mem1, i) == LiveOf(mem, i)
    ensures forall k :: SameContent(mem, g, mem1, g1, k)
  {
    forall k ensures SameContent(mem, g, mem1, g1, k) {
      if 1 <= k < |g.lists| {
        var ids := g.lists[k];
        forall p | 0 <= p < |ids| ensures LiveOf(mem1, ids[p]) == LiveOf(mem, ids[p]) {
          assert Sits(g, k, p);
        }
        if k == l {
          ContentTied(mem, mem1, ids, id);
        } else {
          ContentSame(mem, mem1, ids);
        }
      }
    }
  }

  /** What linking an empty chunk m behind the last of queue q comes to. */
  ghost predicate Extends(s: State, g: Lists, s1: State, g1: Lists, q: nat, m: nat) {
    && q < |s.queues| && AddsTo(g, g1, q + 1, m) && s1.queues == s.queues[q := Tailed(s.queues[q], m)]
    && |s.mem| <= |s1.mem| && |g.seat| == |s.mem| && m < |s1.mem| && LiveOf(s1.mem, m) == []
    && forall i :: 0 <= i < |s.mem| && g.seat[i].list != 0 ==> LiveOf(s1.mem, i) == LiveOf(s.mem, i)
  }

  /** The new state is well-formed when its chunks and the pool are, whichever chunk was linked. */
  lemma ExtendedShape(size: nat, s: State, g: Lists, view: seq<seq<byte>>, s1: State, g1: Lists, q: nat, m: nat)
    requires Shape(size, s, g, view) && Extends(s, g, s1, g1, q, m)
    requires Threaded(s1.mem, g1) && AllOk(size, s1.mem) && PoolOk(size, s1, g1)
    ensures Shape(size, s1, g1, view)
  {
    AddedContents(s.mem, g, s1.mem, g1, q + 1, m);
    AddedShown(s.mem, g, s.queues, view, s1.mem, g1, q, m);
  }

  lemma AddedShown(mem: seq<Chunk>, g: Lists, queues: seq<Queue>, view: seq<seq<byte>>, mem1: seq<Chunk>, g1: Lists,
                   q: nat, m: nat)
    requires AllShown(mem, g, queues, view) && q < |queues| && AddsTo(g, g1, q + 1, m)
    requires forall k :: SameContent(mem, g, mem1, g1, k)
    ensures AllShown(mem1, g1, queues[q := Tailed(queues[q], m)], view)
  {
    var queues1 := queues[q := Tailed(queues[q], m)];
    forall l | 1 <= l < |g1.lists| ensures Shown(mem1, g1, queues1, view, l) {
      assert Shown(mem, g, queues, view, l);
      assert SameContent(mem, g, mem1, g1, l);
      if l == q + 1 {
        TailedEnds(queues[q], g.lists[l], m);
        ShownAgain(mem, g, queues, view, mem1, g1, queues1, l);
      } else {
        ShownStill(mem, g, queues, view, mem1, g1, queues1, view, l);
      }
    }
  }

  lemma TailedEnds(queue: Queue, ids: seq<nat>, m: nat)
    requires Ends(queue, ids)
    ensures Ends(Tailed(queue, m), ids + [m])
  {
  }

  lemma ReusedExtends(size: nat, s: State, g: Lists, s1: State, g1: Lists, q: nat)
    requires Threaded(s.mem, g) && AllOk(size, s.mem) && q < |s.queues| && |g.lists| == |s.queues| + 1 &&
             g.lists[0] != [] && g.lists[0][0] < |s.mem|
    requires (s1.mem, g1) == Reused(s.mem, g, q + 1) && s1.queues == s.queues[q := Tailed(s.queues[q], g.lists[0][0])]
    ensures Extends(s, g, s1, g1, q, g.lists[0][0]) && AllOk(size, s1.mem)
  {
    ReusedLive(size, s.mem, g, q + 1);
    ReusedAdds(s.mem, g, q + 1);
  }

  lemma ReusedAdds(mem: seq<Chunk>, g: Lists, l: nat)
    requires |g.base| == |g.lists| && |g.seat| == |mem| && 0 < l < |g.lists| && g.lists[0] != [] &&
             g.lists[0][0] < |mem|
    ensures AddsTo(g, Reused(mem, g, l).1, l, g.lists[0][0])
  {
  }

  lemma ReusedLive(size: nat, mem: seq<Chunk>, g: Lists, l: nat)
    requires Seated(g, |mem|) && AllOk(size, mem) && 0 < l < |g.lists| && g.lists[0] != [] && g.lists[0][0] < |mem|
    ensures var mem1 := Reused(mem, g, l).0;
            && |mem1| == |mem| && AllOk(size, mem1) && LiveOf(mem1, g.lists[0][0]) == []
            && forall i :: 0 <= i < |mem| && g.seat[i].list != 0 ==> LiveOf(mem1, i) == LiveOf(mem, i)
  {
    assert Sits(g, 0, 0) && Sits(g, l, |g.lists[l]| - 1);
  }

  lemma MadeExtends(size: nat, s: State, g: Lists, s1: State, g1: Lists, q: nat, c: Chunk)
    requires Threaded(s.mem, g) && AllOk(size, s.mem) && q < |s.queues| && |g.lists| == |s.queues| + 1
    requires c.Ok(size) && c.Live() == []
    requires (s1.mem, g1) == Made(s.mem, g, q + 1, c) && s1.queues == s.queues[q := Tailed(s.queues[q], |s.mem|)]
    ensures Extends(s, g, s1, g1, q, |s.mem|) && AllOk(size, s1.mem)
  {
  }

  // ---------------------------------------------------------------------------
  // Changing the contents of a chunk.

  /** Links are unaffected by what chunks contain. */
  lemma ThreadedSame(mem: seq<Chunk>, mem1: seq<Chunk>, g: Lists)
    requires Threaded(mem, g) && |mem1| == |mem| && forall id :: 0 <= id < |mem| ==> mem1[id].next == mem[id].next
    ensures Threaded(mem1, g)
  {
    forall l | 0 <= l < |g.lists| ensures Linked(mem1, g.lists[l]) {
      forall p | 0 <= p < |g.lists[l]| ensures Link(mem1, g.lists[l], p) {
        assert Link(mem, g.lists[l], p);
      }
    }
  }

  /** Giving the chunk m of queue q other contents, and adjusting the length. */
  lemma ChangedShape(size: nat, s: State, g: Lists, view: seq<seq<byte>>, s1: State, q: nat, m: int, content: seq<byte>)
    requires Shape(size, s, g, view) && q < |s.queues|
    requires 0 <= m < |s.mem| && g.seat[m].list == q + 1
    requires |s1.mem| == |s.mem| && forall id :: 0 <= id < |s.mem| && id != m ==> s1.mem[id] == s.mem[id]
    requires s1.mem[m].Ok(size) && s1.mem[m].next == s.mem[m].next
    requires Content(s1.mem, g.lists[q + 1]) == content
    requires s1 == s.(mem := s1.mem, queues := s.queues[q := s.queues[q].(len := |content|)])
    ensures Shape(size, s1, g, view[q := content])
  {
    ThreadedSame(s.mem, s1.mem, g);
    ChangedShown(s.mem, g, s.queues, view, s1.mem, q, m, content);
  }

  lemma ChangedShown(mem: seq<Chunk>, g: Lists, queues: seq<Queue>, view: seq<seq<byte>>, mem1: seq<Chunk>, q: nat,
                     m: nat, content: seq<byte>)
    requires Seated(g, |mem|) && AllShown(mem, g, queues, view) && q < |queues|
    requires m < |mem| && g.seat[m].list == q + 1
    requires |mem1| == |mem| && forall id :: 0 <= id < |mem| && id != m ==> mem1[id] == mem[id]
    requires Content(mem1, g.lists[q + 1]) == content
    ensures AllShown(mem1, g, queues[q := queues[q].(len := |content|)], view[q := content])
  {
    var queues1, view1 := queues[q := queues[q].(len := |content|)], view[q := content];
    forall l | 1 <= l < |g.lists| ensures Shown(mem1, g, queues1, view1, l) {
      assert Shown(mem, g, queues, view, l);
      if l != q + 1 {
        ShownElsewhere(mem, g, queues, view, mem1, queues1, view1, m, l);
      } else {
        ShownChanged(mem, g, queues, view, mem1, q, content);
      }
    }
  }

  lemma ShownElsewhere(mem: seq<Chunk>, g: Lists, queues: seq<Queue>, view: seq<seq<byte>>, mem1: seq<Chunk>,
                       queues1: seq<Queue>, view1: seq<seq<byte>>, m: nat, l: nat)
    requires Seated(g, |mem|) && Shown(mem, g, queues, view, l) && l <= |queues1| && l <= |view1|
    requires m < |mem| == |mem1| && g.seat[m].list != l
    requires forall id :: 0 <= id < |mem| && id != m ==> mem1[id] == mem[id]
    requires queues1[l - 1] == queues[l - 1] && view1[l - 1] == view[l - 1]
    ensures Shown(mem1, g, queues1, view1, l)
  {
    ContentElsewhere(mem, mem1, g, m, l);
    ShownStill(mem, g, queues, view, mem1, g, queues1, view1, l);
  }

  lemma ShownChanged(mem: seq<Chunk>, g: Lists, queues: seq<Queue>, view: seq<seq<byte>>, mem1: seq<Chunk>, q: nat,
                     content: seq<byte>)
    requires Shown(mem, g, queues, view, q + 1) && Content(mem1, g.lists[q + 1]) == content
    ensures Shown(mem1, g, queues[q := queues[q].(len := |content|)], view[q := content], q + 1)
  {
  }

  /** A queue whose record, list and bytes are the same is shown as before. */
  lemma ShownStill(mem: seq<Chunk>, g: Lists, queues: seq<Queue>, view: seq<seq<byte>>,
                   mem1: seq<Chunk>, g1: Lists, queues1: seq<Queue>, view1: seq<seq<byte>>, l: nat)
    requires Shown(mem, g, queues, view, l) && l < |g1.lists| && l <= |queues1| && l <= |view1|
    requires queues1[l - 1] == queues[l - 1] && view1[l - 1] == view[l - 1] && g1.lists[l] == g.lists[l]
    requires Content(mem1, g.lists[l]) == Content(mem, g.lists[l])
    ensures Shown(mem1, g1, queues1, view1, l)
  {
  }

  /** The memory differs in chunk m only, where n bytes have been added. */
  ghost predicate FillsOnly(mem: seq<Chunk>, mem1: seq<Chunk>, m: int, n: nat) {
    && |mem1| == |mem| && 0 <= m < |mem|
    && mem1[m].pos == mem[m].pos && mem1[m].last == mem[m].last + n
    && forall id :: 0 <= id < |mem| && id != m ==> mem1[id] == mem[id]
  }

  /** Bytes added to the last chunk of a list are added to its contents. */
  lemma ContentFilled(mem: seq<Chunk>, mem1: seq<Chunk>, g: Lists, l: nat, data: seq<byte>)
    requires Seated(g, |mem|) && 1 <= l < |g.lists| && g.lists[l] != []
    requires var m := g.lists[l][|g.lists[l]| - 1];
             && m < |mem| && LiveOf(mem1, m) == LiveOf(mem, m) + data
             && forall i :: 0 <= i < |mem| && i != m ==> LiveOf(mem1, i) == LiveOf(mem, i)
    ensures Content(mem1, g.lists[l]) == Content(mem, g.lists[l]) + data
  {
    var ids := g.lists[l];
    var front, m := ids[..|ids| - 1], ids[|ids| - 1];
    assert ids == front + [m];
    forall p | 0 <= p < |front| ensures LiveOf(mem1, front[p]) == LiveOf(mem, front[p]) {
      assert Sits(g, l, p) && Sits(g, l, |ids| - 1);
    }
    ContentSame(mem, mem1, front);
    ContentConcat(mem, front, [m]);
    ContentConcat(mem1, front, [m]);
    assert Content(mem, [m]) == LiveOf(mem, m) && Content(mem1, [m]) == LiveOf(mem1, m);
    Associate(Content(mem, front), LiveOf(mem, m), data);
  }

  lemma FilledContent(mem: seq<Chunk>, g: Lists, l: nat, data: seq<byte>)
    requires Seated(g, |mem|) && 1 <= l < |g.lists| && g.lists[l] != []
    requires var m := g.lists[l][|g.lists[l]| - 1];
             m < |mem| && mem[m].Ok(|mem[m].buf|) &&
             mem[m].last + |data| <= |mem[m].buf|
    ensures var m := g.lists[l][|g.lists[l]| - 1];
            Content(mem[m := mem[m].Put(data)], g.lists[l]) == Content(mem, g.lists[l]) + data
  {
    var m := g.lists[l][|g.lists[l]| - 1];
    PutLive(mem[m], |mem[m].buf|, data);
    ContentFilled(mem, mem[m := mem[m].Put(data)], g, l, data);
  }

  /** Copying data into the last chunk of queue q. */
  function FillState(s: State, q: nat, data: seq<byte>): State {
    if q < |s.queues| && 0 <= s.queues[q].tail < |s.mem| &&
      s.mem[s.queues[q].tail].last + |data| <= |s.mem[s.queues[q].tail].buf| then
      var m := s.queues[q].tail;
      s.(mem := s.mem[m := s.mem[m].Put(data)], queues := s.queues[q := s.queues[q].(len := s.queues[q].len + |data|)])
    else s
  }

  lemma FilledShape(size: nat, s: State, g: Lists, view: seq<seq<byte>>, q: nat, data: seq<byte>)
    requires Shape(size, s, g, view) && q < |s.queues| && 0 <= s.queues[q].tail < |s.mem|
    requires s.mem[s.queues[q].tail].last + |data| <= size
    ensures Shape(size, FillState(s, q, data), g, view[q := view[q] + data])
    ensures FillsOnly(s.mem, FillState(s, q, data).mem, s.queues[q].tail, |data|)
  {
    var m := s.queues[q].tail;
    QueueFacts(size, s, g, view, q);
    FilledState(size, s, q, data, view[q] + data);
    FilledContent(s.mem, g, q + 1, data);
    ChangedShape(size, s, g, view, FillState(s, q, data), q, m, view[q] + data);
  }

  /** What the copy comes to. */
  lemma FilledState(size: nat, s: State, q: nat, data: seq<byte>, content: seq<byte>)
    requires q < |s.queues| && 0 <= s.queues[q].tail < |s.mem| && s.mem[s.queues[q].tail].Ok(size)
    requires s.mem[s.queues[q].tail].last + |data| <= size && |content| == s.queues[q].len + |data|
    ensures var t, m := FillState(s, q, data), s.queues[q].tail;
            && t.mem == s.mem[m := s.mem[m].Put(data)]
            && t.mem[m].Ok(size) && t.mem[m].next == s.mem[m].next
            && t == s.(mem := t.mem, queues := s.queues[q := s.queues[q].(len := |content|)])
            && FillsOnly(s.mem, t.mem, m, |data|)
  {
    PutLive(s.mem[s.queues[q].tail], size, data);
  }

  /** The memory differs in chunk m only, whose start has moved by n. */
  ghost predicate DropsOnly(mem: seq<Chunk>, mem1: seq<Chunk>, m: int, n: nat) {
    && |mem1| == |mem| && 0 <= m < |mem|
    && mem1[m] == mem[m].(pos := mem[m].pos + n)
    && forall id :: 0 <= id < |mem| && id != m ==> mem1[id] == mem[id]
  }

  /** s without its first n bytes. */
  function Dropped(s: seq<byte>, n: nat): seq<byte> {
    if n <= |s| then s[n..] else []
  }

  lemma DropFront(a: seq<byte>, b: seq<byte>, n: nat)
    requires n <= |a|
    ensures (a + b)[n..] == a[n..] + b
  {
  }

  lemma ContentHead(mem: seq<Chunk>, ids: seq<nat>)
    requires ids != []
    ensures Content(mem, ids) == LiveOf(mem, ids[0]) + Content(mem, ids[1..])
  {
  }

  /** A change to the first chunk of a list leaves the contents of the others. */
  lemma ContentRest(mem: seq<Chunk>, mem1: seq<Chunk>, g: Lists, l: nat, n: nat)
    requires Seated(g, |mem|) && 1 <= l < |g.lists| && g.lists[l] != [] && DropsOnly(mem, mem1, g.lists[l][0], n)
    ensures Content(mem1, g.lists[l][1..]) == Content(mem, g.lists[l][1..])
  {
    var ids := g.lists[l];
    assert Sits(g, l, 0);
    forall p | 0 <= p < |ids[1..]| ensures LiveOf(mem1, ids[1..][p]) == LiveOf(mem, ids[1..][p]) {
      assert Sits(g, l, p + 1);
    }
    ContentSame(mem, mem1, ids[1..]);
  }

  /** Passing over the first n bytes of a list's first chunk. */
  lemma AdvancedContent(mem: seq<Chunk>, mem1: seq<Chunk>, g: Lists, l: nat, n: nat)
    requires Seated(g, |mem|) && 1 <= l < |g.lists| && g.lists[l] != []
    requires DropsOnly(mem, mem1, g.lists[l][0], n) && n <= |LiveOf(mem, g.lists[l][0])|
    ensures Content(mem1, g.lists[l]) == Dropped(Content(mem, g.lists[l]), n)
  {
    var ids := g.lists[l];
    var first, rest := LiveOf(mem, ids[0]), Content(mem, ids[1..]);
    ContentRest(mem, mem1, g, l, n);
    ContentHead(mem, ids);
    ContentHead(mem1, ids);
    assert LiveOf(mem1, ids[0]) == first[n..];
    DropFront(first, rest, n);
  }

  /** `m->pos += n; len -= n` on the first chunk of queue q. */
  function AdvanceState(s: State, q: nat, n: nat): State {
    if q < |s.queues| && 0 <= s.queues[q].head < |s.mem| && n <= s.queues[q].len then
      var m := s.queues[q].head;
      s.(mem := s.mem[m := s.mem[m].(pos := s.mem[m].pos + n)],
        queues := s.queues[q := s.queues[q].(len := s.queues[q].len - n)])
    else s
  }

  lemma AdvancedShape(size: nat, s: State, g: Lists, view: seq<seq<byte>>, q: nat, n: nat)
    requires Shape(size, s, g, view) && q < |s.queues| && g.lists[q + 1] != []
    requires n <= |LiveOf(s.mem, s.queues[q].head)|
    ensures Shape(size, AdvanceState(s, q, n), g, view[q := Dropped(view[q], n)])
    ensures DropsOnly(s.mem, AdvanceState(s, q, n).mem, s.queues[q].head, n)
  {
    var s1 := AdvanceState(s, q, n);
    QueueFacts(size, s, g, view, q);
    AdvancedMemory(s, q, n);
    AdvancedContent(s.mem, s1.mem, g, q + 1, n);
    assert |Dropped(view[q], n)| == s.queues[q].len - n;
    assert g.seat[s.queues[q].head].list == q + 1 && s1.mem[s.queues[q].head].Ok(size);
    ChangedShape(size, s, g, view, s1, q, s.queues[q].head, Dropped(view[q], n));
  }

  lemma AdvancedMemory(s: State, q: nat, n: nat)
    requires q < |s.queues| && 0 <= s.queues[q].head < |s.mem| && n <= s.queues[q].len
    ensures var s1, m := AdvanceState(s, q, n), s.queues[q].head;
            && DropsOnly(s.mem, s1.mem, m, n) && s1.mem[m].next == s.mem[m].next
            && s1 == s.(mem := s1.mem, queues := s.queues[q := s.queues[q].(len := s.queues[q].len - n)])
  {
  }

  // ---------------------------------------------------------------------------
  // Recycling an empty chunk, and moving a whole list.

  /** g1 is g, apart from the free list, without the first chunk of list l. */
  ghost predicate DropsFrom(g: Lists, g1: Lists, l: nat) {
    && l < |g.lists| == |g1.lists| && g.lists[l] != [] && g1.lists[l] == g.lists[l][1..]
    && forall k :: 1 <= k < |g.lists| && k != l ==> g1.lists[k] == g.lists[k]
  }

  /** Links apart, the chunks are the same. */
  ghost predicate SameFill(mem: seq<Chunk>, mem1: seq<Chunk>) {
    && |mem1| == |mem|
    && forall id :: 0 <= id < |mem| ==> mem1[id] == mem[id].(next := mem1[id].next)
  }

  /** Removing the empty first chunk of a list changes no contents. */
  lemma ReleasedContents(mem: seq<Chunk>, g: Lists, mem1: seq<Chunk>, g1: Lists, l: nat)
    requires 1 <= l && DropsFrom(g, g1, l) && SameFill(mem, mem1) && LiveOf(mem, g.lists[l][0]) == []
    ensures forall k :: SameContent(mem, g, mem1, g1, k)
  {
    forall k ensures SameContent(mem, g, mem1, g1, k) {
      if 1 <= k < |g.lists| {
        ContentSame(mem, mem1, g1.lists[k]);
        if k == l {
          assert Content(mem, g.lists[k]) == Content(mem, g.lists[k][1..]);
        }
      }
    }
  }

  /** The end pointers of a queue after its first chunk has been unlinked. */
  function Headless(queue: Queue, next: int): Queue {
    queue.(head := next, tail := if next == -1 then -1 else queue.tail)
  }

  lemma RecycledFacts(size: nat, mem: seq<Chunk>, g: Lists, l: nat)
    requires Seated(g, |mem|) && 0 < l < |g.lists| && g.lists[l] != [] && g.lists[l][0] < |mem| && AllOk(size, mem)
    ensures var (mem1, g1) := Recycled(mem, g, l);
            && DropsFrom(g, g1, l) && SameFill(mem, mem1) && AllOk(size, mem1)
            && g1.lists[0] == [g.lists[l][0]] + g.lists[0]
  {
  }

  lemma ReleasedShape(size: nat, s: State, g: Lists, view: seq<seq<byte>>, s1: State, g1: Lists, q: nat)
    requires Shape(size, s, g, view) && q < |s.queues| && DropsFrom(g, g1, q + 1) && SameFill(s.mem, s1.mem)
    requires LiveOf(s.mem, g.lists[q + 1][0]) == []
    requires Threaded(s1.mem, g1) && AllOk(size, s1.mem) && PoolOk(size, s1, g1)
    requires s1.queues == s.queues[q := Headless(s.queues[q], At(g.lists[q + 1], 1))]
    ensures Shape(size, s1, g1, view)
  {
    ReleasedContents(s.mem, g, s1.mem, g1, q + 1);
    ReleasedShown(s.mem, g, s.queues, view, s1.mem, g1, q);
  }

  lemma ReleasedShown(mem: seq<Chunk>, g: Lists, queues: seq<Queue>, view: seq<seq<byte>>, mem1: seq<Chunk>,
                      g1: Lists, q: nat)
    requires AllShown(mem, g, queues, view) && q < |queues| && DropsFrom(g, g1, q + 1)
    requires forall k :: SameContent(mem, g, mem1, g1, k)
    ensures AllShown(mem1, g1, queues[q := Headless(queues[q], At(g.lists[q + 1], 1))], view)
  {
    var queues1 := queues[q := Headless(queues[q], At(g.lists[q + 1], 1))];
    forall l | 1 <= l < |g1.lists| ensures Shown(mem1, g1, queues1, view, l) {
      assert Shown(mem, g, queues, view, l);
      assert SameContent(mem, g, mem1, g1, l);
      if l == q + 1 {
        ReleasedShownAt(mem, g, queues, view, mem1, g1, q);
      } else {
        ShownStill(mem, g, queues, view, mem1, g1, queues1, view, l);
      }
    }
  }

  lemma ReleasedShownAt(mem: seq<Chunk>, g: Lists, queues: seq<Queue>, view: seq<seq<byte>>, mem1: seq<Chunk>,
                        g1: Lists, q: nat)
    requires q < |queues| && Shown(mem, g, queues, view, q + 1) && DropsFrom(g, g1, q + 1)
    requires SameContent(mem, g, mem1, g1, q + 1)
    ensures Shown(mem1, g1, queues[q := Headless(queues[q], At(g.lists[q + 1], 1))], view, q + 1)
  {
    var queue := Headless(queues[q], At(g.lists[q + 1], 1));
    HeadlessEnds(queues[q], g.lists[q + 1]);
    ShownAgain(mem, g, queues, view, mem1, g1, queues[q := queue], q + 1);
  }

  /** A queue that keeps its length and its bytes is shown as before. */
  lemma ShownAgain(mem: seq<Chunk>, g: Lists, queues: seq<Queue>, view: seq<seq<byte>>, mem1: seq<Chunk>, g1: Lists,
                   queues1: seq<Queue>, l: nat)
    requires Shown(mem, g, queues, view, l) && l < |g1.lists| && l <= |queues1|
    requires Ends(queues1[l - 1], g1.lists[l]) && queues1[l - 1].len == queues[l - 1].len
    requires Content(mem1, g1.lists[l]) == Content(mem, g.lists[l])
    ensures Shown(mem1, g1, queues1, view, l)
  {
  }

  lemma HeadlessEnds(queue: Queue, ids: seq<nat>)
    requires ids != [] && Ends(queue, ids)
    ensures Ends(Headless(queue, At(ids, 1)), ids[1..])
  {
  }

  lemma SpliceEnds(from: Queue, a: seq<nat>, to: Queue, b: seq<nat>)
    requires a != [] && Ends(from, a) && Ends(to, b)
    ensures Ends(Queue(if to.tail == -1 then from.head else to.head, from.tail, to.len + from.len), b + a)
  {
  }

  /** All of queue q linked behind queue d: the records of the two queues. */
  function SpliceQueues(queues: seq<Queue>, q: nat, d: nat): seq<Queue>
    requires q < |queues| && d < |queues|
  {
    var from, to := queues[q], queues[d];
    queues[d := Queue(if to.tail == -1 then from.head
      else to.head, from.tail, to.len + from.len)][q := Queue(-1, -1, 0)]
  }

  lemma SplicedShape(size: nat, s: State, g: Lists, view: seq<seq<byte>>, s1: State, g1: Lists, q: nat, d: nat)
    requires Shape(size, s, g, view) && q < |s.queues| && d < |s.queues| && q != d && g.lists[q + 1] != []
    requires (s1.mem, g1) == Spliced(s.mem, g, q + 1, d + 1) && Threaded(s1.mem, g1)
    requires s1 == s.(mem := s1.mem, queues := SpliceQueues(s.queues, q, d))
    ensures Shape(size, s1, g1, view[d := view[d] + view[q]][q := []]) && SameFill(s.mem, s1.mem)
  {
    assert SameFill(s.mem, s1.mem);
    assert AllOk(size, s1.mem);
    SplicedShown(s.mem, g, s.queues, view, s1.mem, g1, q, d);
  }

  /** g1 is g with list l moved behind list d. */
  ghost predicate Joins(g: Lists, g1: Lists, l: nat, d: nat) {
    && l < |g.lists| == |g1.lists| && d < |g.lists| && l != d
    && g1.lists[d] == g.lists[d] + g.lists[l] && g1.lists[l] == []
    && forall k :: 1 <= k < |g.lists| && k != l && k != d ==> g1.lists[k] == g.lists[k]
  }

  lemma SplicedShown(mem: seq<Chunk>, g: Lists, queues: seq<Queue>, view: seq<seq<byte>>, mem1: seq<Chunk>,
                     g1: Lists, q: nat, d: nat)
    requires AllShown(mem, g, queues, view) && q < |queues| && d < |queues| && g.lists[q + 1] != []
    requires Joins(g, g1, q + 1, d + 1) && SameFill(mem, mem1)
    ensures AllShown(mem1, g1, SpliceQueues(queues, q, d), view[d := view[d] + view[q]][q := []])
  {
    var view1, queues1 := view[d := view[d] + view[q]][q := []], SpliceQueues(queues, q, d);
    assert Shown(mem, g, queues, view, q + 1) && Shown(mem, g, queues, view, d + 1);
    forall l | 1 <= l < |g1.lists| ensures Shown(mem1, g1, queues1, view1, l) {
      if l == d + 1 {
        SplicedOnto(mem, g, queues, view, mem1, g1, q, d);
      } else if l == q + 1 {
        assert Content(mem1, []) == [];
      } else {
        assert Shown(mem, g, queues, view, l);
        SplicedBeside(mem, g, queues, view, mem1, g1, q, d, l);
      }
    }
  }

  lemma SplicedBeside(mem: seq<Chunk>, g: Lists, queues: seq<Queue>, view: seq<seq<byte>>, mem1: seq<Chunk>,
                      g1: Lists, q: nat, d: nat, l: nat)
    requires Shown(mem, g, queues, view, l) && l != q + 1 && l != d + 1
    requires q < |queues| && d < |queues| && q < |view| && d < |view| && Joins(g, g1, q + 1, d + 1) &&
             SameFill(mem, mem1)
    ensures Shown(mem1, g1, SpliceQueues(queues, q, d), view[d := view[d] + view[q]][q := []], l)
  {
    ContentJoined(mem, mem1, g.lists[l], []);
    ShownStill(mem, g, queues, view, mem1, g1, SpliceQueues(queues, q, d), view[d := view[d] + view[q]][q := []], l);
  }

  lemma SplicedOnto(mem: seq<Chunk>, g: Lists, queues: seq<Queue>, view: seq<seq<byte>>, mem1: seq<Chunk>, g1: Lists,
                    q: nat, d: nat)
    requires Shown(mem, g, queues, view, q + 1) && Shown(mem, g, queues, view, d + 1) && g.lists[q + 1] != []
    requires Joins(g, g1, q + 1, d + 1) && SameFill(mem, mem1)
    ensures Shown(mem1, g1, SpliceQueues(queues, q, d), view[d := view[d] + view[q]][q := []], d + 1)
  {
    SpliceEnds(queues[q], g.lists[q + 1], queues[d], g.lists[d + 1]);
    ContentJoined(mem, mem1, g.lists[d + 1], g.lists[q + 1]);
  }

  lemma ContentJoined(mem: seq<Chunk>, mem1: seq<Chunk>, a: seq<nat>, b: seq<nat>)
    requires SameFill(mem, mem1)
    ensures Content(mem1, a + b) == Content(mem, a) + Content(mem, b)
    ensures b == [] ==> Content(mem1, a) == Content(mem, a)
  {
    assert forall id :: LiveOf(mem1, id) == LiveOf(mem, id);
    ContentSame(mem, mem1, a + b);
    ContentSame(mem, mem1, a);
    ContentConcat(mem, a, b);
  }

  // ---------------------------------------------------------------------------
  // Which chunks are not empty.

  /** No chunk of a list is empty. */
  ghost predicate Full(mem: seq<Chunk>, ids: seq<nat>) {
    forall p :: 0 <= p < |ids| ==> LiveOf(mem, ids[p]) != []
  }

  ghost predicate FullBut(mem: seq<Chunk>, ids: seq<nat>) {
    forall p :: 0 <= p < |ids| - 1 ==> LiveOf(mem, ids[p]) != []
  }

  ghost predicate FullAt(mem: seq<Chunk>, g: Lists, k: int) {
    1 <= k < |g.lists| ==> Full(mem, g.lists[k])
  }

  /** No chunk of a queue is empty, except perhaps the last of list l. */
  ghost predicate FilledBut(mem: seq<Chunk>, g: Lists, l: nat) {
    && (forall k :: k != l ==> FullAt(mem, g, k))
    && (l < |g.lists| ==> FullBut(mem, g.lists[l]))
  }

  /** No chunk of a queue is empty. */
  ghost predicate AllFilled(mem: seq<Chunk>, g: Lists) {
    forall k :: FullAt(mem, g, k)
  }

  ghost predicate Blank(mem: seq<Chunk>, id: int) {
    0 <= id < |mem| && mem[id].pos == mem[id].last == 0
  }

  lemma ExtendedFilled(s: State, g: Lists, s1: State, g1: Lists, q: nat, m: nat)
    requires Seated(g, |s.mem|) && Extends(s, g, s1, g1, q, m) && AllFilled(s.mem, g)
    ensures FilledBut(s1.mem, g1, q + 1)
  {
    forall k, p | 1 <= k < |g.lists| && 0 <= p < |g.lists[k]| ensures LiveOf(s1.mem, g.lists[k][p]) != [] {
      assert FullAt(s.mem, g, k);
      assert Sits(g, k, p);
    }
    forall k | k != q + 1 ensures FullAt(s1.mem, g1, k) {
      assert 1 <= k < |g.lists| ==> g1.lists[k] == g.lists[k];
    }
  }

  lemma FilledUp(mem: seq<Chunk>, mem1: seq<Chunk>, g: Lists, l: nat)
    requires Seated(g, |mem|) && 1 <= l < |g.lists| && g.lists[l] != [] && FilledBut(mem, g, l)
    requires var m := g.lists[l][|g.lists[l]| - 1];
             LiveOf(mem1, m) != [] && forall i :: 0 <= i < |mem| && i != m ==> LiveOf(mem1, i) == LiveOf(mem, i)
    ensures AllFilled(mem1, g)
  {
    var m := g.lists[l][|g.lists[l]| - 1];
    assert Sits(g, l, |g.lists[l]| - 1);
    forall k ensures FullAt(mem1, g, k) {
      assert k != l ==> FullAt(mem, g, k);
      if 1 <= k < |g.lists| {
        forall p | 0 <= p < |g.lists[k]| ensures LiveOf(mem1, g.lists[k][p]) != [] {
          assert Sits(g, k, p);
        }
      }
    }
  }

  /** After bytes have been copied into the last chunk of queue q, no chunk is empty, and other queues are unchanged. */
  lemma FilledAll(size: nat, s: State, g: Lists, view: seq<seq<byte>>, q: nat, data: seq<byte>)
    requires Shape(size, s, g, view) && q < |s.queues| && 0 <= s.queues[q].tail < |s.mem|
    requires s.mem[s.queues[q].tail].last + |data| <= size && FilledBut(s.mem, g, q + 1)
    requires LiveOf(s.mem, s.queues[q].tail) + data != []
    ensures AllFilled(FillState(s, q, data).mem, g) && Spares(s.mem, g, FillState(s, q, data).mem, g, q + 1)
  {
    var m := s.queues[q].tail;
    QueueFacts(size, s, g, view, q);
    FilledState(size, s, q, data, view[q] + data);
    PutLive(s.mem[m], size, data);
    FilledLists(s.mem, FillState(s, q, data).mem, g, q + 1, m, |data|);
  }

  lemma FilledLists(mem: seq<Chunk>, mem1: seq<Chunk>, g: Lists, l: nat, m: nat, n: nat)
    requires Seated(g, |mem|) && FillsOnly(mem, mem1, m, n) && g.seat[m].list == l && FilledBut(mem, g, l)
    requires 1 <= l < |g.lists| && g.lists[l] != [] && g.lists[l][|g.lists[l]| - 1] == m && LiveOf(mem1, m) != []
    ensures AllFilled(mem1, g) && Spares(mem, g, mem1, g, l)
  {
    FilledUp(mem, mem1, g, l);
    FilledSpares(mem, mem1, g, l, m, n);
  }

  /** After the first chunk of list l has been shortened, the others are as they were. */
  lemma FilledRest(mem: seq<Chunk>, mem1: seq<Chunk>, g: Lists, l: nat)
    requires Seated(g, |mem|) && 1 <= l < |g.lists| && g.lists[l] != [] && AllFilled(mem, g)
    requires forall i :: 0 <= i < |mem| && i != g.lists[l][0] ==> LiveOf(mem1, i) == LiveOf(mem, i)
    ensures forall k :: k != l ==> FullAt(mem1, g, k)
    ensures Full(mem1, g.lists[l][1..])
    ensures LiveOf(mem1, g.lists[l][0]) != [] ==> AllFilled(mem1, g)
  {
    assert Sits(g, l, 0);
    forall k, p | 1 <= k < |g.lists| && 0 <= p < |g.lists[k]| && (k != l || p > 0)
      ensures LiveOf(mem1, g.lists[k][p]) != [] {
      assert FullAt(mem, g, k);
      assert Sits(g, k, p);
    }
  }

  /** After the empty first chunk of a queue has been unlinked, no chunk is empty. */
  lemma ReleasedFilled(mem: seq<Chunk>, g: Lists, mem1: seq<Chunk>, g1: Lists, l: nat)
    requires 1 <= l < |g.lists| && DropsFrom(g, g1, l) && SameFill(mem, mem1)
    requires forall k :: k != l ==> FullAt(mem, g, k)
    requires Full(mem, g.lists[l][1..])
    ensures AllFilled(mem1, g1)
  {
    assert forall id :: 0 <= id < |mem| ==> LiveOf(mem1, id) == LiveOf(mem, id);
    forall k ensures FullAt(mem1, g1, k) {
      assert k != l ==> FullAt(mem, g, k);
      assert 1 <= k < |g.lists| ==> Full(mem, g1.lists[k]);
    }
  }

  lemma SplicedFilled(mem: seq<Chunk>, g: Lists, l: nat, d: nat)
    requires 0 < l < |g.lists| == |g.base| && 0 < d < |g.lists| && l != d && g.lists[l] != []
    requires AllFilled(mem, g) && SameFill(mem, Spliced(mem, g, l, d).0)
    ensures AllFilled(Spliced(mem, g, l, d).0, Spliced(mem, g, l, d).1)
  {
    var (mem1, g1) := Spliced(mem, g, l, d);
    assert FullAt(mem, g, l) && FullAt(mem, g, d);
    forall k ensures FullAt(mem1, g1, k) {
      assert FullAt(mem, g, k);
      assert 1 <= k < |g.lists| ==> Full(mem, g1.lists[k]);
    }
  }

  // ---------------------------------------------------------------------------
  // What working on one queue leaves alone.

  /** The list ids is linked as before, through chunks that hold what they held. */
  ghost predicate SameList(mem: seq<Chunk>, ids: seq<nat>, mem1: seq<Chunk>, ids1: seq<nat>) {
    ids1 == ids && forall p :: 0 <= p < |ids| ==> LiveOf(mem1, ids[p]) == LiveOf(mem, ids[p])
  }

  ghost predicate Spares(mem: seq<Chunk>, g: Lists, mem1: seq<Chunk>, g1: Lists, l: nat) {
    && |g1.lists| == |g.lists|
    && forall k :: k != l ==> SameAt(mem, g, mem1, g1, k)
  }

  ghost predicate SameAt(mem: seq<Chunk>, g: Lists, mem1: seq<Chunk>, g1: Lists, k: int) {
    1 <= k < |g.lists| && k < |g1.lists| ==> SameList(mem, g.lists[k], mem1, g1.lists[k])
  }

  lemma SparesTwice(a: seq<Chunk>, g: Lists, b: seq<Chunk>, h: Lists, c: seq<Chunk>, k: Lists, l: nat)
    requires Spares(a, g, b, h, l) && Spares(b, h, c, k, l)
    ensures Spares(a, g, c, k, l)
  {
    forall i | i != l ensures SameAt(a, g, c, k, i) {
      assert SameAt(a, g, b, h, i) && SameAt(b, h, c, k, i);
    }
  }

  lemma ExtendedSpares(s: State, g: Lists, s1: State, g1: Lists, q: nat, m: nat)
    requires Seated(g, |s.mem|) && Extends(s, g, s1, g1, q, m)
    ensures Spares(s.mem, g, s1.mem, g1, q + 1)
  {
    forall k | k != q + 1 ensures SameAt(s.mem, g, s1.mem, g1, k) {
      if 1 <= k < |g.lists| {
        forall p | 0 <= p < |g.lists[k]| ensures LiveOf(s1.mem, g.lists[k][p]) == LiveOf(s.mem, g.lists[k][p]) {
          assert Sits(g, k, p);
        }
      }
    }
  }

  lemma FilledSpares(mem: seq<Chunk>, mem1: seq<Chunk>, g: Lists, l: nat, m: nat, n: nat)
    requires Seated(g, |mem|) && FillsOnly(mem, mem1, m, n) && g.seat[m].list == l
    ensures Spares(mem, g, mem1, g, l)
  {
    forall k | k != l ensures SameAt(mem, g, mem1, g, k) {
      if 1 <= k < |g.lists| {
        forall p | 0 <= p < |g.lists[k]| ensures LiveOf(mem1, g.lists[k][p]) == LiveOf(mem, g.lists[k][p]) {
          assert Sits(g, k, p);
        }
      }
    }
  }

  lemma SparesNothing(mem: seq<Chunk>, g: Lists, l: nat)
    ensures Spares(mem, g, mem, g, l)
  {
  }

  /** The bytes of a list from place p on, one chunk at a time. */
  lemma ContentFrom(mem: seq<Chunk>, ids: seq<nat>, p: nat)
    requires p < |ids|
    ensures Content(mem, ids[..p + 1]) == Content(mem, ids[..p]) + LiveOf(mem, ids[p])
  {
    assert ids[..p + 1] == ids[..p] + [ids[p]];
    ContentConcat(mem, ids[..p], [ids[p]]);
    assert Content(mem, [ids[p]]) == LiveOf(mem, ids[p]);
  }

  /** The state after queue q has been linked behind queue d. */
  function SpliceState(s: State, q: nat, d: nat): State {
    if q < |s.queues| && d < |s.queues| then
      var to := s.queues[d].tail;
      var mem := if 0 <= to < |s.mem| then s.mem[to := s.mem[to].(next := s.queues[q].head)] else s.mem;
      s.(mem := mem, queues := SpliceQueues(s.queues, q, d))
    else s
  }

  lemma SpliceStateMem(size: nat, s: State, g: Lists, view: seq<seq<byte>>, q: nat, d: nat)
    requires Shape(size, s, g, view)
    requires q < |s.queues| && d < |s.queues| && q != d && g.lists[q + 1] != []
    ensures SpliceState(s, q, d).mem == Spliced(s.mem, g, q + 1, d + 1).0
    ensures SameFill(s.mem, SpliceState(s, q, d).mem)
  {
    QueueFacts(size, s, g, view, q);
    QueueFacts(size, s, g, view, d);
  }

  lemma SpliceStateShape(size: nat, s: State, g: Lists, view: seq<seq<byte>>, q: nat, d: nat)
    requires Shape(size, s, g, view)
    requires q < |s.queues| && d < |s.queues| && q != d && g.lists[q + 1] != []
    ensures Shape(size, SpliceState(s, q, d), Spliced(s.mem, g, q + 1, d + 1).1, view[d := view[d] + view[q]][q := []])
  {
    SpliceStateMem(size, s, g, view, q, d);
    SplicedThreaded(s.mem, g, q + 1, d + 1);
    SplicedShape(size, s, g, view, SpliceState(s, q, d), Spliced(s.mem, g, q + 1, d + 1).1, q, d);
  }

  lemma SpliceStateFilled(size: nat, s: State, g: Lists, view: seq<seq<byte>>, q: nat, d: nat)
    requires Shape(size, s, g, view) && AllFilled(s.mem, g)
    requires q < |s.queues| && d < |s.queues| && q != d && g.lists[q + 1] != []
    ensures AllFilled(SpliceState(s, q, d).mem, Spliced(s.mem, g, q + 1, d + 1).1)
  {
    SpliceStateMem(size, s, g, view, q, d);
    SplicedFilled(s.mem, g, q + 1, d + 1);
  }
}
