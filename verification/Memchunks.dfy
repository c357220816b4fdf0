/**
 * Byte queues made of linked fixed-size chunks, which come from and return to a shared pool.
 */
module Memchunks {
  import opened Bytes
  import opened ChunkLists

  /** v with s added at the end of sequence q. */
  function Plus(v: seq<seq<byte>>, q: nat, s: seq<byte>): seq<seq<byte>> {
    if q < |v| then v[q := v[q] + s] else v
  }

  /** v without the first n bytes of sequence q. */
  function Minus(v: seq<seq<byte>>, q: nat, n: nat): seq<seq<byte>> {
    if q < |v| then v[q := Dropped(v[q], n)] else v
  }

  lemma PlusNothing(v: seq<seq<byte>>, q: nat, none: seq<byte>)
    requires none == []
    ensures Plus(v, q, none) == v
  {
    assert q < |v| ==> v[q] + none == v[q];
  }

  lemma PlusPlus(v: seq<seq<byte>>, q: nat, a: seq<byte>, b: seq<byte>)
    ensures Plus(Plus(v, q, a), q, b) == Plus(v, q, a + b)
  {
    assert q < |v| ==> v[q] + a + b == v[q] + (a + b);
  }

  lemma PlusSlices(v: seq<seq<byte>>, q: nat, data: seq<byte>, i: nat, n: nat)
    requires i + n <= |data|
    ensures Plus(Plus(v, q, data[..i]), q, data[i..][..n]) == Plus(v, q, data[..i + n])
  {
    PlusPlus(v, q, data[..i], data[i..][..n]);
    assert data[..i] + data[i..][..n] == data[..i + n];
  }

  lemma MinusNothing(v: seq<seq<byte>>, q: nat)
    ensures Minus(v, q, 0) == v
  {
  }

  lemma MinusMinus(v: seq<seq<byte>>, q: nat, a: nat, b: nat)
    requires q < |v| ==> a + b <= |v[q]|
    ensures Minus(Minus(v, q, a), q, b) == Minus(v, q, a + b)
  {
  }

  lemma NextSlice(whole: seq<byte>, a: seq<byte>, b: seq<byte>)
    requires a <= whole && b <= Dropped(whole, |a|)
    ensures a + b <= whole
  {
    assert whole == a + whole[|a|..];
  }

  class Store {
    const size: nat
    var mem: seq<Chunk>
    var freelist: int
    var poolsize: nat
    var freelistsize: nat
    var queues: seq<Queue>
    ghost var g: Lists
    // the bytes each queue holds
    ghost var view: seq<seq<byte>>

    ghost function Now(): State
      reads this
    {
      State(mem, freelist, poolsize, freelistsize, queues)
    }

    ghost predicate Shaped()
      reads this
    {
      size > 0 && Shape(size, Now(), g, view)
    }

    ghost predicate Valid()
      reads this
    {
      Shaped() && AllFilled(mem, g)
    }

    constructor (size: nat, n: nat)
      requires size > 0
      ensures Valid() && this.size == size && view == seq(n, _ => [])
    {
      this.size := size;
      mem, freelist, poolsize, freelistsize := [], -1, 0, 0;
      queues := seq(n, _ => Queue(-1, -1, 0));
      g := Lists(seq(n + 1, _ => []), [], seq(n + 1, _ => 0));
      view := seq(n, _ => []);
    }

    /** `Pool::get` when the free list is not empty, and the linking of the chunk behind queue q. */
    method ExtendReused(q: nat)
      requires Shaped() && q < |queues| && freelist != -1
      modifies this
      ensures Shaped() && view == old(view)
      ensures Extends(old(Now()), old(g), Now(), g, q, old(freelist)) && Blank(mem, old(freelist))
    {
      ghost var s0, g0, m := Now(), g, freelist;
      QueueFacts(size, s0, g0, view, q);
      assert Link(mem, g.lists[0], 0) && Sits(g, 0, 0);
      TakeFree(q);
      g := Reused(s0.mem, g0, q + 1).1;
      ReusedThreaded(s0.mem, g0, q + 1);
      ReusedExtends(size, s0, g0, Now(), g, q);
      ExtendedShape(size, s0, g0, view, Now(), g, q, m);
    }

    /** The writes of that branch. */
    method TakeFree(q: nat)
      requires q < |queues| && 0 <= freelist < |mem| == |g.seat| && freelistsize >= size
      requires q + 1 < |g.lists| == |g.base| && g.lists[0] != [] && g.lists[0][0] == freelist
      requires var ids := g.lists[q + 1];
               if queues[q].tail == -1 then ids == [] else ids != [] && queues[q].tail == ids[|ids| - 1] < |mem|
      modifies this`mem, this`freelist, this`freelistsize, this`queues
      ensures mem == Reused(old(mem), g, q + 1).0
      ensures queues == old(queues)[q := Tailed(old(queues)[q], old(freelist))]
      ensures freelist == old(mem)[old(freelist)].next && freelistsize == old(freelistsize) - size
    {
      var tail, m := queues[q].tail, freelist;
      freelist := mem[m].next;
      mem := mem[m := mem[m].(pos := 0, last := 0, next := -1)];
      freelistsize := freelistsize - size;
      if tail == -1 {
        queues := queues[q := queues[q].(head := m, tail := m)];
      } else {
        mem := mem[tail := mem[tail].(next := m)];
        queues := queues[q := queues[q].(tail := m)];
      }
    }

    /** `Pool::get` when the free list is empty. */
    method ExtendMade(q: nat)
      requires Shaped() && q < |queues|
      modifies this
      ensures Shaped() && view == old(view)
      ensures Extends(old(Now()), old(g), Now(), g, q, old(|mem|)) && Blank(mem, old(|mem|))
    {
      ghost var s0, g0 := Now(), g;
      QueueFacts(size, s0, g0, view, q);
      var chunk := Chunk(seq(size, _ => 0), 0, 0, -1);
      var tail, m := queues[q].tail, |mem|;
      mem := mem + [chunk];
      poolsize := poolsize + size;
      if tail == -1 {
        queues := queues[q := queues[q].(head := m, tail := m)];
      } else {
        mem := mem[tail := mem[tail].(next := m)];
        queues := queues[q := queues[q].(tail := m)];
      }
      g := Made(s0.mem, g0, q + 1, chunk).1;
      assert mem == Made(s0.mem, g0, q + 1, chunk).0;
      MadeThreaded(s0.mem, g0, q + 1, chunk);
      MadeExtends(size, s0, g0, Now(), g, q, chunk);
      ExtendedShape(size, s0, g0, view, Now(), g, q, m);
    }

    /** Queue q has a last chunk to copy into. */
    ghost predicate Fillable(q: nat)
      reads this
    {
      && Shaped() && q < |queues| && 0 <= queues[q].tail < |mem|
      && FilledBut(mem, g, q + 1)
      && (LiveOf(mem, queues[q].tail) != [] || Blank(mem, queues[q].tail))
    }

    /** `Pool::get`, and the linking of the chunk behind queue q. */
    method Extend(q: nat)
      requires Valid() && q < |queues|
      modifies this
      ensures Fillable(q) && |queues| == |old(queues)| && view == old(view) && Blank(mem, queues[q].tail)
      ensures Spares(old(mem), old(g), mem, g, q + 1)
    {
      ghost var s0, g0 := Now(), g;
      ghost var m := if freelist != -1 then freelist else |mem|;
      if freelist != -1 {
        ExtendReused(q);
      } else {
        ExtendMade(q);
      }
      ExtendedFilled(s0, g0, Now(), g, q, m);
      ExtendedSpares(s0, g0, Now(), g, q, m);
      QueueFacts(size, Now(), g, view, q);
    }

    /** As much of src as the last chunk of queue q has room for. */
    method Fill(q: nat, src: seq<byte>) returns (n: nat)
      requires Fillable(q) && |src| > 0
      modifies this`mem, this`queues, this`view
      ensures Valid() && |queues| == |old(queues)| && n <= |src|
      ensures n > 0 || !old(Blank(mem, queues[q].tail))
      ensures view == Plus(old(view), q, src[..n])
      ensures Spares(old(mem), g, mem, g, q + 1)
    {
      ghost var s0 := Now();
      QueueFacts(size, s0, g, view, q);
      var m := queues[q].tail;
      var c := mem[m];
      n := Least(|src|, size - c.last);
      PutLive(c, size, src[..n]);
      FilledShape(size, s0, g, view, q, src[..n]);
      FilledAll(size, s0, g, view, q, src[..n]);
      mem := mem[m := c.Put(src[..n])];
      queues := queues[q := queues[q].(len := queues[q].len + n)];
      view := Plus(view, q, src[..n]);
      assert Now() == FillState(s0, q, src[..n]);
    }

    /** `append` */
    method Append(q: nat, data: seq<byte>)
      requires Valid() && q < |queues|
      modifies this
      ensures Valid() && |queues| == |old(queues)|
      ensures view == Plus(old(view), q, data)
      ensures Spares(old(mem), old(g), mem, g, q + 1)
    {
      ghost var v := view;
      PlusNothing(v, q, data[..0]);
      SparesNothing(mem, g, q + 1);
      assert data[..|data|] == data;
      if |data| == 0 {
        return;
      }
      if queues[q].tail == -1 {
        Extend(q);
      } else {
        ReadyToFill(q);
      }
      var i := 0;
      while true
        invariant Fillable(q) && |queues| == |old(queues)| && i < |data|
        invariant view == Plus(v, q, data[..i])
        invariant Spares(old(mem), old(g), mem, g, q + 1)
        decreases |data| - i, if Blank(mem, queues[q].tail) then 0 else 1
      {
        i := FillFrom(q, data, i, v, old(mem), old(g));
        if i == |data| {
          break;
        }
        ghost var mem1, g1 := mem, g;
        Extend(q);
        SparesTwice(old(mem), old(g), mem1, g1, mem, g, q + 1);
      }
    }

    /** One round of the loop of `append`. */
    method FillFrom(q: nat, data: seq<byte>, i: nat, ghost v: seq<seq<byte>>, ghost mem0: seq<Chunk>, ghost g0: Lists)
      returns (j: nat)
      requires Fillable(q) && i < |data| && view == Plus(v, q, data[..i]) && Spares(mem0, g0, mem, g, q + 1)
      modifies this`mem, this`queues, this`view
      ensures Valid() && |queues| == |old(queues)| && i <= j <= |data|
      ensures j > i || !old(Blank(mem, queues[q].tail))
      ensures view == Plus(v, q, data[..j]) && Spares(mem0, g0, mem, g, q + 1)
    {
      ghost var mem1 := mem;
      var n := Fill(q, data[i..]);
      PlusSlices(v, q, data, i, n);
      SparesTwice(mem0, g0, mem1, g, mem, g, q + 1);
      j := i + n;
    }

    lemma ReadyToFill(q: nat)
      requires Valid() && q < |queues| && queues[q].tail != -1
      ensures Fillable(q)
    {
      QueueFacts(size, Now(), g, view, q);
      assert FullAt(mem, g, q + 1);
    }

    /** Passes over the first n bytes of the first chunk of queue q. */
    method Advance(q: nat, n: nat)
      requires Shaped() && q < |queues| && queues[q].head != -1
      requires n <= |LiveOf(mem, queues[q].head)|
      modifies this`mem, this`queues, this`view
      ensures Shaped() && |queues| == |old(queues)| && queues[q].head == old(queues[q].head)
      ensures view == Minus(old(view), q, n)
      ensures DropsOnly(old(mem), mem, queues[q].head, n)
    {
      ghost var s0 := Now();
      QueueFacts(size, s0, g, view, q);
      AdvancedShape(size, s0, g, view, q, n);
      var m := queues[q].head;
      mem := mem[m := mem[m].(pos := mem[m].pos + n)];
      queues := queues[q := queues[q].(len := queues[q].len - n)];
      view := Minus(view, q, n);
      assert Now() == AdvanceState(s0, q, n);
    }

    /** `Pool::recycle` of the first chunk of queue q, which has become empty. */
    method Release(q: nat)
      requires Shaped() && q < |queues| && queues[q].head != -1
      requires LiveOf(mem, queues[q].head) == []
      modifies this
      ensures Shaped() && |queues| == |old(queues)| && view == old(view)
      ensures DropsFrom(old(g), g, q + 1) && SameFill(old(mem), mem)
    {
      ghost var s0, g0 := Now(), g;
      QueueFacts(size, s0, g0, view, q);
      var m := queues[q].head;
      assert Link(mem, g.lists[q + 1], 0);
      var next := mem[m].next;
      mem := mem[m := mem[m].(next := freelist)];
      freelist := m;
      freelistsize := freelistsize + size;
      queues := queues[q := Headless(queues[q], next)];
      g := Recycled(s0.mem, g0, q + 1).1;
      assert mem == Recycled(s0.mem, g0, q + 1).0;
      RecycledThreaded(s0.mem, g0, q + 1);
      RecycledFacts(size, s0.mem, g0, q + 1);
      ReleasedShape(size, s0, g0, view, Now(), g, q);
    }

    /** The number of chunks of queue q. */
    ghost function Count(q: nat): nat
      reads this
    {
      if q + 1 < |g.lists| then |g.lists[q + 1]| else 0
    }

    /** The first bytes of the first chunk of queue q, at most `limit`. */
    function Front(q: nat, limit: nat): (out: seq<byte>)
      requires Valid() && q < |queues| && queues[q].head != -1
      reads this
      ensures out <= view[q] && |out| <= limit
      ensures |out| == Least(limit, |LiveOf(mem, queues[q].head)|)
    {
      QueueFacts(size, Now(), g, view, q);
      var c := mem[queues[q].head];
      c.buf[c.pos..c.pos + Least(limit, c.last - c.pos)]
    }

    /** One round of the loops of `remove` and `drain`: at most `limit` bytes of the first chunk are
        passed over, and the chunk is recycled if none are left in it. */
    method TakeHead(q: nat, limit: nat) returns (n: nat, emptied: bool)
      requires Valid() && q < |queues| && queues[q].head != -1
      modifies this
      ensures Valid() && |queues| == |old(queues)|
      ensures n == |old(Front(q, limit))| <= |old(view[q])|
      ensures view == Minus(old(view), q, n)
      ensures emptied ==> Count(q) < old(Count(q))
      ensures !emptied ==> n == limit
    {
      ghost var s0 := Now();
      QueueFacts(size, s0, g, view, q);
      var m := queues[q].head;
      n := Least(limit, mem[m].last - mem[m].pos);
      Advance(q, n);
      FilledRest(s0.mem, mem, g, q + 1);
      emptied := mem[m].pos == mem[m].last;
      if emptied {
        ghost var s1, g1 := Now(), g;
        Release(q);
        ReleasedFilled(s1.mem, g1, mem, g, q + 1);
      }
    }

    lemma HeadlessEmpty(q: nat)
      requires Valid() && q < |queues|
      ensures |view| == |queues|
      ensures queues[q].head == -1 ==> view[q] == []
      ensures queues[q].tail == -1 ==> view[q] == []
    {
      QueueFacts(size, Now(), g, view, q);
    }

    /** A round after `done` bytes have been passed over. */
    method TakeMore(q: nat, limit: nat, ghost v: seq<seq<byte>>, ghost done: nat) returns (n: nat, emptied: bool)
      requires Valid() && q < |queues| && queues[q].head != -1
      requires |v| == |queues| && done <= |v[q]| && view == Minus(v, q, done)
      modifies this
      ensures Valid() && |queues| == |old(queues)|
      ensures n == |old(Front(q, limit))| && n <= limit && done + n <= |v[q]| && view == Minus(v, q, done + n)
      ensures emptied ==> Count(q) < old(Count(q))
      ensures !emptied ==> n == limit
    {
      n, emptied := TakeHead(q, limit);
      MinusMinus(v, q, done, n);
    }

    /** `drain`: passes over at most count bytes. */
    method Drain(q: nat, count: nat) returns (ret: nat)
      requires Valid() && q < |queues|
      modifies this
      ensures Valid() && |queues| == |old(queues)|
      ensures ret == Least(count, |old(view[q])|) && view == Minus(old(view), q, ret)
    {
      ghost var v := view;
      MinusNothing(v, q);
      HeadlessEmpty(q);
      var left: nat := count;
      ret := 0;
      while queues[q].head != -1
        invariant Valid() && |queues| == |old(queues)| && left + ret == count
        invariant ret <= |v[q]| && view == Minus(v, q, ret)
        decreases Count(q)
      {
        var n, emptied := TakeMore(q, left, v, ret);
        left, ret := left - n, ret + n;
        if !emptied {
          break;
        }
      }
      HeadlessEmpty(q);
    }

    /** `remove` into a buffer: takes at most count bytes off the front. */
    method Remove(q: nat, count: nat) returns (dest: seq<byte>)
      requires Valid() && q < |queues|
      modifies this
      ensures Valid() && |queues| == |old(queues)|
      ensures dest == old(view[q])[..Least(count, |old(view[q])|)]
      ensures view == Minus(old(view), q, |dest|)
    {
      ghost var v := view;
      MinusNothing(v, q);
      HeadlessEmpty(q);
      dest := [];
      if queues[q].tail == -1 || count == 0 {
        return;
      }
      while queues[q].head != -1
        invariant Valid() && |queues| == |old(queues)|
        invariant |dest| <= count && dest <= v[q] && view == Minus(v, q, |dest|)
        decreases Count(q)
      {
        var out := Front(q, count - |dest|);
        NextSlice(v[q], dest, out);
        var n, emptied := TakeMore(q, count - |dest|, v, |dest|);
        dest := dest + out;
        if !emptied {
          break;
        }
      }
      HeadlessEmpty(q);
    }

    /** `copy`: appends the bytes of queue q to queue d, chunk by chunk. */
    method Copy(q: nat, d: nat) returns (ret: nat)
      requires Valid() && q < |queues| && d < |queues| && q != d
      modifies this
      ensures Valid() && |queues| == |old(queues)|
      ensures ret == |old(view[q])| && view == Plus(old(view), d, old(view[q]))
    {
      ghost var v, mem0, g0, p: nat := view, mem, g, 0;
      ghost var ids := g.lists[q + 1];
      QueueFacts(size, Now(), g, view, q);
      PlusNothing(v, d, Content(mem0, ids[..0]));
      SparesNothing(mem, g, d + 1);
      var m := queues[q].head;
      while m != -1
        invariant Valid() && |queues| == |old(queues)| && p <= |ids| && m == At(ids, p)
        invariant Spares(mem0, g0, mem, g, d + 1)
        invariant view == Plus(v, d, Content(mem0, ids[..p]))
        decreases |ids| - p
      {
        m := CopyChunk(q, d, m, v, mem0, g0, ids, p);
        p := p + 1;
      }
      assert ids[..p] == ids;
      QueueFacts(size, Now(), g, view, q);
      ret := queues[q].len;
    }

    /** One round of the loop of `copy`. */
    method CopyChunk(ghost q: nat, d: nat, m: int, ghost v: seq<seq<byte>>, ghost mem0: seq<Chunk>, ghost g0: Lists,
                     ghost ids: seq<nat>, ghost p: nat) returns (next: int)
      requires Valid() && q < |queues| && d < |queues| && q != d && |g0.lists| == |g.lists| && ids == g0.lists[q + 1]
      requires p < |ids| && m == ids[p] && Spares(mem0, g0, mem, g, d + 1)
      requires view == Plus(v, d, Content(mem0, ids[..p]))
      modifies this
      ensures Valid() && |queues| == |old(queues)| && next == At(ids, p + 1)
      ensures Spares(mem0, g0, mem, g, d + 1) && view == Plus(v, d, Content(mem0, ids[..p + 1]))
    {
      ghost var mem1, g1 := mem, g;
      assert SameAt(mem0, g0, mem, g, q + 1);
      assert Link(mem, g.lists[q + 1], p);
      Append(d, mem[m].buf[mem[m].pos..mem[m].last]);
      ContentFrom(mem0, ids, p);
      PlusPlus(v, d, Content(mem0, ids[..p]), LiveOf(mem0, ids[p]));
      SparesTwice(mem0, g0, mem1, g1, mem, g, d + 1);
      assert SameAt(mem0, g0, mem, g, q + 1);
      assert Link(mem, g.lists[q + 1], p);
      next := mem[m].next;
    }

    /** `remove` into another queue of the same pool: moves at most count bytes. */
    method RemoveTo(q: nat, d: nat, count: nat) returns (ret: nat)
      requires Valid() && q < |queues| && d < |queues| && q != d
      modifies this
      ensures Valid() && |queues| == |old(queues)|
      ensures ret == Least(count, |old(view[q])|)
      ensures view == Minus(Plus(old(view), d, old(view[q])[..ret]), q, ret)
    {
      ghost var v := view;
      MoveNothing(v, q, d);
      HeadlessEmpty(q);
      ret := 0;
      if queues[q].tail == -1 || count == 0 {
        return;
      }
      while queues[q].head != -1
        invariant Valid() && |queues| == |old(queues)|
        invariant ret <= count && ret <= |v[q]| && view == Minus(Plus(v, d, v[q][..ret]), q, ret)
        decreases Count(q)
      {
        var n, emptied := MoveSome(q, d, count - ret, v, ret);
        ret := ret + n;
        if !emptied {
          break;
        }
      }
      HeadlessEmpty(q);
    }

    /** One round of the loop of `remove` into another queue. */
    method MoveSome(q: nat, d: nat, limit: nat, ghost v: seq<seq<byte>>, ghost done: nat)
      returns (n: nat, emptied: bool)
      requires Valid() && q < |queues| && d < |queues| && q != d && queues[q].head != -1
      requires |v| == |queues| && done <= |v[q]| && view == Minus(Plus(v, d, v[q][..done]), q, done)
      modifies this
      ensures Valid() && |queues| == |old(queues)|
      ensures n <= limit && done + n <= |v[q]| && view == Minus(Plus(v, d, v[q][..done + n]), q, done + n)
      ensures emptied ==> Count(q) < old(Count(q))
      ensures !emptied ==> n == limit
    {
      ghost var mem0, g0 := mem, g;
      QueueFacts(size, Now(), g, view, q);
      var out := Front(q, limit);
      Append(d, out);
      assert SameAt(mem0, g0, mem, g, q + 1);
      QueueFacts(size, Now(), g, view, q);
      n, emptied := TakeHead(q, limit);
      MoveMore(v, q, d, done, out, n);
    }

    /** `remove` of everything into another queue of the same pool: only links change. */
    method Splice(q: nat, d: nat) returns (n: nat)
      requires Valid() && q < |queues| && d < |queues| && q != d
      modifies this
      ensures Valid() && |queues| == |old(queues)| && n == |old(view[q])|
      ensures view == Plus(old(view), d, old(view[q]))[q := []]
    {
      QueueFacts(size, Now(), g, view, q);
      QueueFacts(size, Now(), g, view, d);
      if queues[q].head == -1 {
        PlusNothing(view, d, view[q]);
        return 0;
      }
      n := queues[q].len;
      SpliceLinks(q, d);
    }

    method SpliceLinks(q: nat, d: nat)
      requires Valid() && q < |queues| && d < |queues| && q != d && g.lists[q + 1] != []
      modifies this
      ensures Valid() && |queues| == |old(queues)|
      ensures view == Plus(old(view), d, old(view[q]))[q := []]
    {
      ghost var s0 := Now();
      ghost var s1, g1 := SpliceState(s0, q, d), Spliced(mem, g, q + 1, d + 1).1;
      SpliceStateShape(size, s0, g, view, q, d);
      SpliceStateFilled(size, s0, g, view, q, d);
      QueueFacts(size, s0, g, view, d);
      var from, to := queues[q], queues[d];
      if to.tail != -1 {
        mem := mem[to.tail := mem[to.tail].(next := from.head)];
      }
      var head := if to.tail == -1 then from.head else to.head;
      queues := queues[d := Queue(head, from.tail, to.len + from.len)][q := Queue(-1, -1, 0)];
      assert Now() == s1;
      g, view := g1, Plus(view, d, view[q])[q := []];
    }
  }

  lemma MoveNothing(v: seq<seq<byte>>, q: nat, d: nat)
    requires q < |v|
    ensures Minus(Plus(v, d, v[q][..0]), q, 0) == v
  {
    PlusNothing(v, d, v[q][..0]);
    MinusNothing(v, q);
  }

  lemma MoveMore(v: seq<seq<byte>>, q: nat, d: nat, done: nat, out: seq<byte>, n: nat)
    requires q < |v| && d < |v| && q != d && done + n <= |v[q]| && n == |out|
    requires out <= Dropped(v[q], done)
    ensures Minus(Plus(Minus(Plus(v, d, v[q][..done]), q, done), d, out), q, n)
         == Minus(Plus(v, d, v[q][..done + n]), q, done + n)
  {
    assert v[q][..done] + out == v[q][..done + n];
    assert v[d] + v[q][..done] + out == v[d] + v[q][..done + n];
    assert Dropped(Dropped(v[q], done), n) == Dropped(v[q], done + n);
  }
}
