/** The geometry of the block allocator: blocks, and the regions cut from them with their length headers. */
module Regions {
  import opened Bytes

  /** The bookkeeping in front of a block, and the length in front of a region. */
  const BLOCK_HEADER: nat := 32
  const LENGTH_HEADER: nat := 8

  /** A block of memory by its addresses: the buffer is from `begin` to `end`, and `last` is where the next region
      goes. */
  datatype Block = Block(base: nat, begin: nat, last: nat, end: nat)

  /** A region handed out: its address, its length, and the block it was cut from. */
  datatype Region = Region(addr: nat, len: nat, block: nat)

  function Low(r: Region): int { r.addr - LENGTH_HEADER }

  function High(r: Region): int { r.addr + r.len }

  /** The next multiple of 16. */
  function Aligned(x: nat): (r: nat)
    ensures x <= r < x + 16 && r % 16 == 0
  {
    (x + 15) / 16 * 16
  }

  datatype Heap = Heap(blocks: seq<Block>, head: Option<nat>, regions: seq<Region>)

  /** The addresses from `base` on, for a block of `size`, belong to no block. */
  predicate Unused(blocks: seq<Block>, base: nat, size: nat) {
    forall i :: 0 <= i < |blocks| ==> base + BLOCK_HEADER + size <= blocks[i].base || blocks[i].end <= base
  }

  function NewBlock(base: nat, size: nat): Block {
    Block(base, base + BLOCK_HEADER, base + BLOCK_HEADER, base + BLOCK_HEADER + size)
  }

  // ---------------------------------------------------------------------------
  // What every allocation keeps.

  predicate BlocksApart(blocks: seq<Block>) {
    && (forall i :: 0 <= i < |blocks| ==> blocks[i].begin == blocks[i].base + BLOCK_HEADER <= blocks[i].end)
    && (forall i, j :: 0 <= i < j < |blocks| ==> blocks[i].end <= blocks[j].base || blocks[j].end <= blocks[i].base)
  }

  predicate Inside(r: Region, blocks: seq<Block>) {
    r.block < |blocks| && blocks[r.block].begin <= Low(r) && High(r) <= blocks[r.block].end
  }

  predicate Disjoint(a: Region, b: Region) {
    High(a) <= Low(b) || High(b) <= Low(a)
  }

  predicate RegionsApart(regions: seq<Region>) {
    forall i, j :: 0 <= i < j < |regions| ==> Disjoint(regions[i], regions[j])
  }

  lemma OneMoreApart(regions: seq<Region>, r: Region)
    requires RegionsApart(regions) && forall i :: 0 <= i < |regions| ==> Disjoint(regions[i], r)
    ensures RegionsApart(regions + [r])
  {
  }

  predicate Valid(h: Heap) {
    && BlocksApart(h.blocks)
    && (forall i :: 0 <= i < |h.regions| ==> Inside(h.regions[i], h.blocks))
    && RegionsApart(h.regions)
    && (h.head.Some? ==> h.head.value < |h.blocks| && h.blocks[h.head.value].begin <= h.blocks[h.head.value].last)
    && (forall i :: 0 <= i < |h.regions| && h.head == Some(h.regions[i].block) ==>
       High(h.regions[i]) <= h.blocks[h.regions[i].block].last)
  }

  // ---------------------------------------------------------------------------
  // Allocation.

  predicate Isolated(size: nat, threshold: nat) {
    size + LENGTH_HEADER >= threshold
  }

  /** There is no room in the current block. `last` can be past its end. */
  predicate NeedsBlock(h: Heap, size: nat) {
    h.head.None? || h.head.value >= |h.blocks|
    || h.blocks[h.head.value].end as int - h.blocks[h.head.value].last as int < size + LENGTH_HEADER
  }

  function Max(a: nat, b: nat): nat {
    if a >= b then a else b
  }

  /** The size of the block that is asked of the system, if one is. */
  function BlockNeeded(size: nat, threshold: nat, blockSize: nat): nat {
    if Isolated(size, threshold) then Max(16, size) + LENGTH_HEADER else blockSize
  }

  function WithBlock(h: Heap, base: nat, size: nat): Heap {
    h.(blocks := h.blocks + [NewBlock(base, size)])
  }

  /** A region in a block of its own. */
  function AllocIsolated(h: Heap, size: nat, base: nat): Heap {
    var len := Max(16, size);
    var b := NewBlock(base, len + LENGTH_HEADER);
    Heap(h.blocks + [b.(last := b.end)], h.head, h.regions + [Region(b.begin + LENGTH_HEADER, len, |h.blocks|)])
  }

  /** A region at the end of what is used of the current block. */
  function AllocHere(h: Heap, size: nat): Heap
    requires h.head.Some? && h.head.value < |h.blocks|
  {
    var k := h.head.value;
    var b := h.blocks[k];
    var r := Region(b.last + LENGTH_HEADER, size, k);
    Heap(h.blocks[k := b.(last := Aligned(b.last + LENGTH_HEADER + size))], h.head, h.regions + [r])
  }

  function Alloc(h: Heap, size: nat, threshold: nat, blockSize: nat, base: nat): Heap {
    if Isolated(size, threshold) then AllocIsolated(h, size, base)
    else if NeedsBlock(h, size) then AllocHere(WithBlock(h, base, blockSize).(head := Some(|h.blocks|)), size)
    else AllocHere(h, size)
  }

  lemma IsolatedValid(h: Heap, size: nat, base: nat)
    requires Valid(h) && Unused(h.blocks, base, Max(16, size) + LENGTH_HEADER)
    ensures Valid(AllocIsolated(h, size, base))
  {
    var t := AllocIsolated(h, size, base);
    var r := t.regions[|h.regions|];
    forall i | 0 <= i < |h.regions| ensures Inside(h.regions[i], t.blocks) && Disjoint(h.regions[i], r) {
      assert Inside(h.regions[i], h.blocks);
    }
    OneMoreApart(h.regions, r);
  }

  lemma NewHeadValid(h: Heap, size: nat, base: nat)
    requires Valid(h) && Unused(h.blocks, base, size)
    ensures Valid(WithBlock(h, base, size).(head := Some(|h.blocks|)))
  {
    assert forall i :: 0 <= i < |h.regions| ==> Inside(h.regions[i], h.blocks);
  }

  lemma HereValid(h: Heap, size: nat)
    requires Valid(h) && !NeedsBlock(h, size) && h.head.Some?
    ensures Valid(AllocHere(h, size))
  {
    var t := AllocHere(h, size);
    var r := t.regions[|h.regions|];
    SameBlocks(h, size);
    forall i | 0 <= i < |h.regions| ensures Inside(h.regions[i], t.blocks) && Disjoint(h.regions[i], r) {
      HereApart(h, size, i);
    }
    OneMoreApart(h.regions, r);
  }

  /** Only `last` changes in the block. */
  lemma SameBlocks(h: Heap, size: nat)
    requires BlocksApart(h.blocks) && h.head.Some? && h.head.value < |h.blocks|
    ensures BlocksApart(AllocHere(h, size).blocks)
  {
  }

  lemma HereApart(h: Heap, size: nat, i: nat)
    requires Valid(h) && !NeedsBlock(h, size) && h.head.Some? && i < |h.regions|
    ensures var t := AllocHere(h, size);
            Inside(h.regions[i], t.blocks) && Disjoint(h.regions[i], t.regions[|h.regions|])
  {
    var j, k := h.regions[i].block, h.head.value;
    assert Inside(h.regions[i], h.blocks);
    assert j != k ==> h.blocks[j].end <= h.blocks[k].base || h.blocks[k].end <= h.blocks[j].base;
  }

  /**
   * Every allocation keeps all regions inside their own blocks and pairwise disjoint, headers included, even
   * when alignment puts `last` past the end of a block. The new region is at least as long as asked.
   */
  lemma AllocValid(h: Heap, size: nat, threshold: nat, blockSize: nat, base: nat)
    requires Valid(h) && threshold <= blockSize && Unused(h.blocks, base, BlockNeeded(size, threshold, blockSize))
    ensures var t := Alloc(h, size, threshold, blockSize, base);
            && Valid(t) && |t.regions| == |h.regions| + 1 && t.regions[..|h.regions|] == h.regions
            && t.regions[|h.regions|].len >= size
  {
    if Isolated(size, threshold) {
      IsolatedValid(h, size, base);
    } else if NeedsBlock(h, size) {
      var u := WithBlock(h, base, blockSize).(head := Some(|h.blocks|));
      NewHeadValid(h, blockSize, base);
      HereValid(u, size);
    } else {
      HereValid(h, size);
    }
  }

  /** The system's blocks begin at multiples of 16. Then the next region, without its header, does too, and each region
      begins 8 behind one. */
  predicate OnGrid(h: Heap) {
    && (forall i :: 0 <= i < |h.blocks| ==> h.blocks[i].begin % 16 == 0)
    && (h.head.Some? ==> h.head.value < |h.blocks| && h.blocks[h.head.value].last % 16 == 0)
    && (forall i :: 0 <= i < |h.regions| ==> h.regions[i].addr % 16 == 8)
  }

  lemma AllocOnGrid(h: Heap, size: nat, threshold: nat, blockSize: nat, base: nat)
    requires OnGrid(h) && base % 16 == 0
    ensures OnGrid(Alloc(h, size, threshold, blockSize, base))
  {
    if Isolated(size, threshold) {
      IsolatedOnGrid(h, size, base);
    } else if NeedsBlock(h, size) {
      var u := WithBlock(h, base, blockSize).(head := Some(|h.blocks|));
      assert u.blocks[|h.blocks|] == NewBlock(base, blockSize);
      HereOnGrid(u, size);
    } else {
      HereOnGrid(h, size);
    }
  }

  lemma IsolatedOnGrid(h: Heap, size: nat, base: nat)
    requires OnGrid(h) && base % 16 == 0
    ensures OnGrid(AllocIsolated(h, size, base))
  {
    assert (base + BLOCK_HEADER) % 16 == 0 && (base + BLOCK_HEADER + LENGTH_HEADER) % 16 == 8;
  }

  lemma HereOnGrid(h: Heap, size: nat)
    requires OnGrid(h) && h.head.Some?
    ensures OnGrid(AllocHere(h, size))
  {
  }

  /** A sequence of requests, each with the place the system gives for a block. */
  datatype Request = Request(size: nat, base: nat)

  function AllocAll(h: Heap, requests: seq<Request>, threshold: nat, blockSize: nat): Heap
    decreases |requests|
  {
    if requests == [] then h
    else AllocAll(Alloc(h, requests[0].size, threshold, blockSize, requests[0].base), requests[1..], threshold,
      blockSize)
  }

  /** The system gives only places that are not in use. */
  predicate Granted(h: Heap, requests: seq<Request>, threshold: nat, blockSize: nat)
    decreases |requests|
  {
    requests != [] ==>
      && Unused(h.blocks, requests[0].base, BlockNeeded(requests[0].size, threshold, blockSize))
      && Granted(Alloc(h, requests[0].size, threshold, blockSize, requests[0].base), requests[1..], threshold,
         blockSize)
  }

  /** Over any sequence of requests, all regions handed out stay inside their blocks and pairwise disjoint. */
  lemma {:induction false} AllocAllValid(h: Heap, requests: seq<Request>, threshold: nat, blockSize: nat)
    requires Valid(h) && threshold <= blockSize && Granted(h, requests, threshold, blockSize)
    ensures var t := AllocAll(h, requests, threshold, blockSize);
            Valid(t) && |t.regions| == |h.regions| + |requests| && t.regions[..|h.regions|] == h.regions
    decreases |requests|
  {
    if requests != [] {
      var u := Alloc(h, requests[0].size, threshold, blockSize, requests[0].base);
      AllocValid(h, requests[0].size, threshold, blockSize, requests[0].base);
      AllocAllValid(u, requests[1..], threshold, blockSize);
      var t := AllocAll(h, requests, threshold, blockSize);
      assert t.regions[..|h.regions|] == t.regions[..|u.regions|][..|h.regions|];
    }
  }
  /** And each region begins 8 behind a multiple of 16, if the system's blocks begin at multiples of 16. */
  lemma {:induction false} AllocAllOnGrid(h: Heap, requests: seq<Request>, threshold: nat, blockSize: nat)
    requires OnGrid(h) && forall i :: 0 <= i < |requests| ==> requests[i].base % 16 == 0
    ensures OnGrid(AllocAll(h, requests, threshold, blockSize))
    decreases |requests|
  {
    if requests != [] {
      AllocOnGrid(h, requests[0].size, threshold, blockSize, requests[0].base);
      AllocAllOnGrid(Alloc(h, requests[0].size, threshold, blockSize, requests[0].base), requests[1..], threshold,
        blockSize);
    }
  }
}
