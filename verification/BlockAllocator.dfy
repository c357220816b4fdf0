/** The block allocator on memory: lengths are written in front of the regions, contents are copied. */
module BlockAllocator {
  import opened Bytes
  import opened Regions

  /** The number stored in `k` bytes, the least significant first. */
  function Word(m: seq<byte>, a: nat, k: nat): nat
    requires a + k <= |m|
    decreases k
  {
    if k == 0 then 0 else m[a] as nat + 256 * Word(m, a + 1, k - 1)
  }

  /** The first number that does not fit `k` bytes. */
  function Limit(k: nat): nat {
    if k == 0 then 1 else 256 * Limit(k - 1)
  }

  /** The two memories agree outside the addresses from `low` to `high`. */
  predicate SameOutside(m: seq<byte>, n: seq<byte>, low: int, high: int) {
    |m| == |n| && forall i :: 0 <= i < |m| && !(low <= i < high) ==> m[i] == n[i]
  }

  lemma {:induction false} WordSame(m: seq<byte>, n: seq<byte>, a: nat, k: nat, low: int, high: int)
    requires SameOutside(m, n, low, high) && a + k <= |m| && (a + k <= low || high <= a)
    ensures Word(m, a, k) == Word(n, a, k)
    decreases k
  {
    if k > 0 {
      WordSame(m, n, a + 1, k - 1, low, high);
    }
  }

  /** The lengths written in front of the regions. */
  predicate Labelled(m: seq<byte>, regions: seq<Region>) {
    forall i :: 0 <= i < |regions| ==> LabelOk(m, regions[i])
  }

  predicate LabelOk(m: seq<byte>, r: Region) {
    LENGTH_HEADER <= r.addr && High(r) <= |m| && Word(m, r.addr - LENGTH_HEADER, LENGTH_HEADER) == r.len
  }

  /** A write inside one region leaves the header of a region disjoint from it. */
  lemma LabelKept(m: seq<byte>, n: seq<byte>, r: Region, s: Region)
    requires LabelOk(m, r) && Disjoint(r, s) && SameOutside(m, n, Low(s), High(s))
    ensures LabelOk(n, r)
  {
    WordSame(m, n, r.addr - LENGTH_HEADER, LENGTH_HEADER, Low(s), High(s));
  }

  /** What a region holds. */
  function Contents(m: seq<byte>, r: Region): seq<byte>
    requires High(r) <= |m|
  {
    m[r.addr..r.addr + r.len]
  }

  lemma ContentsKept(m: seq<byte>, n: seq<byte>, r: Region, s: Region)
    requires High(r) <= |m| && Disjoint(r, s) && SameOutside(m, n, Low(s), High(s))
    ensures High(r) <= |n| && Contents(m, r) == Contents(n, r)
  {
  }

  class Allocator {
    const blockSize: nat
    const isolationThreshold: nat
    const mem: array<byte>
    var blocks: seq<Block>
    var head: Option<nat>
    ghost var regions: seq<Region>

    ghost function Now(): Heap
      reads this
    {
      Heap(blocks, head, regions)
    }

    ghost predicate Valid()
      reads this, mem
    {
      && isolationThreshold <= blockSize
      && Regions.Valid(Now())
      && (forall i :: 0 <= i < |blocks| ==> blocks[i].end <= mem.Length)
      && Labelled(mem[..], regions)
    }

    constructor (blockSize: nat, isolationThreshold: nat, mem: array<byte>)
      ensures this.blockSize == blockSize && this.mem == mem && Valid() && regions == [] && blocks == []
      ensures this.isolationThreshold == if blockSize <= isolationThreshold then blockSize else isolationThreshold
    {
      this.blockSize := blockSize;
      this.isolationThreshold := if blockSize <= isolationThreshold then blockSize else isolationThreshold;
      this.mem := mem;
      blocks, head, regions := [], None, [];
    }

    /** Stores a length in front of a region. */
    method StoreLength(sp: nat, len: nat)
      requires sp + LENGTH_HEADER <= mem.Length && len < Limit(LENGTH_HEADER)
      modifies mem
      ensures SameOutside(old(mem[..]), mem[..], sp, sp + LENGTH_HEADER) && Word(mem[..], sp, LENGTH_HEADER) == len
    {
      StoreFrom(sp, len, LENGTH_HEADER);
    }

    method StoreFrom(sp: nat, n: nat, k: nat)
      requires sp + k <= mem.Length && n < Limit(k)
      modifies mem
      ensures SameOutside(old(mem[..]), mem[..], sp, sp + k) && Word(mem[..], sp, k) == n
      decreases k
    {
      if k > 0 {
        StoreFrom(sp + 1, n / 256, k - 1);
        ghost var m := mem[..];
        mem[sp] := (n % 256) as byte;
        WordSame(m, mem[..], sp + 1, k - 1, sp, sp + 1);
      }
    }

    method LoadFrom(sp: nat, k: nat) returns (n: nat)
      requires sp + k <= mem.Length
      ensures n == Word(mem[..], sp, k)
      decreases k
    {
      if k == 0 {
        return 0;
      }
      var rest := LoadFrom(sp + 1, k - 1);
      return mem[sp] as nat + 256 * rest;
    }

    /** `alloc_mem_block`: the system gives the place. */
    method AllocMemBlock(size: nat, base: nat)
      modifies this`blocks
      ensures blocks == old(blocks) + [NewBlock(base, size)]
    {
      blocks := blocks + [NewBlock(base, size)];
    }

    /** A region in a block of its own. */
    method AllocAlone(size: nat, base: nat) returns (addr: nat, ghost r: Region)
      requires Valid() && Max(16, size) < Limit(LENGTH_HEADER)
      requires Unused(blocks, base, Max(16, size) + LENGTH_HEADER)
      requires base + BLOCK_HEADER + Max(16, size) + LENGTH_HEADER <= mem.Length
      modifies this, mem
      ensures Valid() && Now() == AllocIsolated(old(Now()), size, base)
      ensures Handed(old(regions), regions, old(mem[..]), mem[..], addr, r) && r.len >= size
    {
      ghost var m, h := mem[..], Now();
      IsolatedValid(h, size, base);
      var len := if 16 >= size then 16 else size;
      AllocMemBlock(len + LENGTH_HEADER, base);
      var k := |blocks| - 1;
      addr := blocks[k].begin + LENGTH_HEADER;
      StoreLength(blocks[k].begin, len);
      blocks := blocks[k := blocks[k].(last := blocks[k].end)];
      r := Region(addr, len, k);
      regions := regions + [r];
      assert blocks == AllocIsolated(h, size, base).blocks && Now() == AllocIsolated(h, size, base);
      LabelsKept(m, mem[..], h.regions, Now(), r);
    }

    /** A region in the current block. */
    method AllocInHead(size: nat) returns (addr: nat, ghost r: Region)
      requires Valid() && head.Some? && !NeedsBlock(Now(), size) && size < Limit(LENGTH_HEADER)
      modifies this, mem
      ensures Valid() && Now() == AllocHere(old(Now()), size)
      ensures Handed(old(regions), regions, old(mem[..]), mem[..], addr, r) && r.len == size
    {
      ghost var m, h := mem[..], Now();
      HereValid(h, size);
      var k := head.value;
      var b := blocks[k];
      addr := b.last + LENGTH_HEADER;
      StoreLength(b.last, size);
      blocks := blocks[k := b.(last := Aligned(addr + size))];
      r := Region(addr, size, k);
      regions := regions + [r];
      assert blocks == AllocHere(h, size).blocks && Now() == AllocHere(h, size);
      LabelsKept(m, mem[..], h.regions, Now(), r);
    }

    method Alloc(size: nat, base: nat) returns (addr: nat, ghost r: Region)
      requires Valid() && Max(16, size) < Limit(LENGTH_HEADER)
      requires Unused(blocks, base, BlockNeeded(size, isolationThreshold, blockSize))
      requires base + BLOCK_HEADER + BlockNeeded(size, isolationThreshold, blockSize) <= mem.Length
      modifies this, mem
      ensures Valid()
      ensures Now() == Regions.Alloc(old(Now()), size, isolationThreshold, blockSize, base)
      ensures Handed(old(regions), regions, old(mem[..]), mem[..], addr, r) && r.len >= size
    {
      if size + LENGTH_HEADER >= isolationThreshold {
        addr, r := AllocAlone(size, base);
        return;
      }
      if head == None || blocks[head.value].end as int - blocks[head.value].last as int < size + LENGTH_HEADER {
        NewHeadValid(Now(), blockSize, base);
        head := Some(|blocks|);
        AllocMemBlock(blockSize, base);
      }
      addr, r := AllocInHead(size);
    }

    method GetAllocLength(addr: nat, ghost r: Region) returns (len: nat)
      requires Valid() && r in regions && r.addr == addr
      ensures len == r.len
    {
      ghost var i :| 0 <= i < |regions| && regions[i] == r;
      assert LabelOk(mem[..], regions[i]);
      len := LoadFrom(addr - LENGTH_HEADER, LENGTH_HEADER);
    }

    /** The length that `realloc` allocates for a region of this length. */
    function Grown(len: nat, size: nat): nat {
      Max(size + 1, len * 2)
    }

    /** The system has a place for an allocation of this size. */
    predicate Granted(size: nat, base: nat)
      reads this
    {
      && Max(16, size) < Limit(LENGTH_HEADER)
      && Unused(blocks, base, BlockNeeded(size, isolationThreshold, blockSize))
      && base + BLOCK_HEADER + BlockNeeded(size, isolationThreshold, blockSize) <= mem.Length
    }

    /** `memcpy`. */
    method CopyBytes(src: nat, dst: nat, n: nat)
      requires src + n <= mem.Length && dst + n <= mem.Length && (src + n <= dst || dst + n <= src)
      modifies mem
      ensures SameOutside(old(mem[..]), mem[..], dst, dst + n) && mem[..][dst..dst + n] == old(mem[..])[src..src + n]
    {
      ghost var m := mem[..];
      for i := 0 to n
        invariant SameOutside(m, mem[..], dst, dst + i) && mem[dst..dst + i] == m[src..src + i]
      {
        assert mem[..][src + i] == m[src + i];
        mem[dst + i] := mem[src + i];
        assert mem[dst..dst + i + 1] == mem[dst..dst + i] + [m[src + i]];
      }
      assert mem[..][dst..dst + n] == mem[dst..dst + n];
    }

    /** An allocation, away from the region that is to be copied. */
    method AllocBeside(size: nat, base: nat, ghost other: Region) returns (addr: nat, ghost r: Region)
      requires Valid() && other in regions && Granted(size, base)
      modifies this, mem
      ensures Valid() && Handed(old(regions), regions, old(mem[..]), mem[..], addr, r) && r.len >= size
      ensures Disjoint(other, r) && High(other) <= mem.Length && High(r) <= mem.Length && r in regions
      ensures Labelled(mem[..], regions)
    {
      ghost var i :| 0 <= i < |regions| && regions[i] == other;
      ghost var k := |regions|;
      addr, r := Alloc(size, base);
      NewApart(mem[..], Now(), k, i);
    }

    /** The region is copied to the front of a new one. */
    method Grow(ptr: nat, alloclen: nat, size: nat, base: nat, ghost was: Region) returns (addr: nat, ghost r: Region)
      requires Valid() && was in regions && was.addr == ptr && was.len == alloclen < size
      requires Granted(Grown(alloclen, size), base)
      modifies this, mem
      ensures Valid() && regions == old(regions) + [r] && r.addr == addr && r.len > size && r.len >= 2 * alloclen
      ensures SameOutside(old(mem[..]), mem[..], Low(r), High(r)) && Begins(mem[..], addr, old(mem[..]), was)
    {
      ghost var m := mem[..];
      addr, r := AllocBeside(Grown(alloclen, size), base, was);
      ghost var m1 := mem[..];
      CopyRegion(ptr, addr, alloclen, was, r);
      Copied(m, m1, mem[..], was, r);
    }

    method CopyRegion(ptr: nat, addr: nat, alloclen: nat, ghost was: Region, ghost r: Region)
      requires Valid() && r in regions && Disjoint(was, r) && High(was) <= mem.Length && High(r) <= mem.Length
      requires was.addr == ptr && was.len == alloclen <= r.len && r.addr == addr
      modifies mem
      ensures Valid() && SameOutside(old(mem[..]), mem[..], addr, addr + alloclen)
      ensures Begins(mem[..], addr, old(mem[..]), was)
    {
      ghost var m := mem[..];
      CopyBytes(ptr, addr, alloclen);
      BodyWritten(m, mem[..], Now(), r);
    }

    /**
     * The region keeps its place when it is long enough. Otherwise it is copied to the front of a new one. No
     * region loses its contents.
     */
    method Realloc(ptr: Option<nat>, size: nat, base: nat, ghost was: Region) returns (addr: nat, ghost r: Region)
      requires Valid() && (ptr.Some? ==> was in regions && was.addr == ptr.value)
      requires ptr.None? ==> Granted(size, base)
      requires ptr.Some? && size > was.len ==> Granted(Grown(was.len, size), base)
      modifies this, mem
      ensures Valid() && r.addr == addr && r.len >= size
      ensures if ptr.Some? && size <= was.len then r == was && regions == old(regions) && mem[..] == old(mem[..])
              else regions == old(regions) + [r] && SameOutside(old(mem[..]), mem[..], Low(r), High(r))
      ensures ptr.Some? ==> Begins(mem[..], addr, old(mem[..]), was)
      ensures ptr.Some? && size > was.len ==> r.len > size && r.len >= 2 * was.len
    {
      if ptr == None {
        addr, r := Alloc(size, base);
        return;
      }
      var alloclen := GetAllocLength(ptr.value, was);
      if size <= alloclen {
        addr, r := ptr.value, was;
        BeginsItself(mem[..], regions, was);
        return;
      }
      addr, r := Grow(ptr.value, alloclen, size, base, was);
    }

    /** The addresses of the regions, in the order they were handed out. */
    ghost predicate Holds(held: seq<nat>)
      reads this
    {
      |held| == |regions| && forall i :: 0 <= i < |held| ==> held[i] == regions[i].addr
    }

    /** `realloc` for a caller who holds these addresses, or `alloc` when it names none of them. */
    method Get(held: seq<nat>, k: Option<nat>, size: nat, base: nat) returns (after: seq<nat>)
      requires Valid() && Holds(held) && (k.Some? ==> k.value < |held|)
      requires k.None? ==> Granted(size, base)
      requires k.Some? && size > regions[k.value].len ==> Granted(Grown(regions[k.value].len, size), base)
      modifies this, mem
      ensures Valid() && Holds(after) && Survive(old(mem[..]), mem[..], old(regions), regions, {})
    {
      ghost var m, before := mem[..], regions;
      ghost var was := if k.Some? then regions[k.value] else Region(0, 0, 0);
      SurvivesAll(m, regions);
      var addr, r := Realloc(if k.Some? then Some(held[k.value]) else None, size, base, was);
      assert regions != before ==> regions == before + [r] && (k.Some? ==> Disjoint(before[k.value], r)) by {
        assert regions != before && k.Some? ==> Disjoint(regions[k.value], regions[|before|]);
      }
      if k.Some? && addr == held[k.value] {
        return held;
      }
      assert regions[..|before|] == before;
      GrownSurvives(m, mem[..], Now(), |before|);
      after := held + [addr];
    }

    /** The caller's writes to the front of a region. */
    method Put(addr: nat, data: seq<byte>, ghost k: nat)
      requires Valid() && k < |regions| && addr == regions[k].addr && |data| <= regions[k].len
      modifies mem
      ensures Valid() && mem[addr..addr + |data|] == data
      ensures Survive(old(mem[..]), mem[..], regions, regions, {k})
    {
      ghost var m, r := mem[..], regions[k];
      assert LabelOk(m, r);
      for i := 0 to |data|
        invariant SameOutside(m, mem[..], addr, addr + i) && mem[addr..addr + i] == data[..i]
      {
        mem[addr + i] := data[i];
        assert mem[addr..addr + i + 1] == mem[addr..addr + i] + [data[i]];
      }
      assert data[..|data|] == data;
      BodyWritten(m, mem[..], Now(), r);
      WrittenSurvives(m, mem[..], Now(), k);
    }

    /** One use by a caller who holds these addresses. Refused when the address is not held, the data do not fit, or
        the system has no place. */
    method Perform(held: seq<nat>, u: Use) returns (ok: bool, after: seq<nat>)
      requires Valid() && Holds(held)
      modifies this, mem
      ensures Valid() && Holds(after)
      ensures Survive(old(mem[..]), mem[..], old(regions), regions, WrittenBy(u))
      ensures !ok ==> mem[..] == old(mem[..]) && regions == old(regions)
    {
      if u.Ask? {
        ok := Granted(u.size, u.base);
      } else {
        ok := u.k < |held|;
        if ok {
          assert LabelOk(mem[..], regions[u.k]);
          var len := GetAllocLength(held[u.k], regions[u.k]);
          ok := if u.Fill? then |u.data| <= len else u.size <= len || Granted(Grown(len, u.size), u.base);
        }
      }
      SurvivesAll(mem[..], regions);
      after := held;
      if ok && u.Fill? {
        Put(held[u.k], u.data, u.k);
      } else if ok {
        after := Get(held, if u.Ask? then None else Some(u.k), u.size, u.base);
      }
    }

    /** Over any sequence of uses, up to the first that is refused, every region keeps its address, its length and,
        unless the caller writes to it, its contents. */
    method PerformAll(held: seq<nat>, uses: seq<Use>) returns (done: nat, after: seq<nat>)
      requires Valid() && Holds(held)
      modifies this, mem
      ensures Valid() && Holds(after) && done <= |uses|
      ensures Survive(old(mem[..]), mem[..], old(regions), regions, Written(uses[..done]))
    {
      ghost var m, regions0 := mem[..], regions;
      done, after := 0, held;
      SurvivesAll(m, regions);
      while done < |uses|
        invariant Valid() && Holds(after) && done <= |uses|
        invariant Survive(m, mem[..], regions0, regions, Written(uses[..done]))
      {
        ghost var m1, regions1 := mem[..], regions;
        var ok;
        ok, after := Perform(after, uses[done]);
        if !ok {
          break;
        }
        SurvivesBoth(m, m1, mem[..], regions0, regions1, regions, Written(uses[..done]), WrittenBy(uses[done]));
        WrittenNext(uses, done);
        done := done + 1;
      }
    }
  }

  /** What a caller does: ask for a region, have one reallocated, or write to the front of one. Regions are named by
      their place in the order they were handed out; `base` is the place the system would give for a block. */
  datatype Use =
    | Ask(size: nat, base: nat)
    | Regrow(k: nat, size: nat, base: nat)
    | Fill(k: nat, data: seq<byte>)

  function WrittenBy(u: Use): set<nat> {
    if u.Fill? then {u.k} else {}
  }

  function Written(uses: seq<Use>): set<nat> {
    if uses == [] then {} else Written(uses[..|uses| - 1]) + WrittenBy(uses[|uses| - 1])
  }

  lemma WrittenNext(uses: seq<Use>, n: nat)
    requires n < |uses|
    ensures Written(uses[..n + 1]) == Written(uses[..n]) + WrittenBy(uses[n])
  {
    assert uses[..n + 1][..n] == uses[..n];
  }

  /** The regions are still there, and those not written to hold what they held. */
  ghost predicate Survive(m: seq<byte>, n: seq<byte>, before: seq<Region>, after: seq<Region>, written: set<nat>) {
    && |before| <= |after| && after[..|before|] == before
    && forall i :: 0 <= i < |before| && i !in written ==> Survives(m, n, before[i])
  }

  ghost predicate Survives(m: seq<byte>, n: seq<byte>, r: Region) {
    High(r) <= |m| && High(r) <= |n| && Contents(n, r) == Contents(m, r)
  }

  lemma SurvivesAll(m: seq<byte>, regions: seq<Region>)
    requires Labelled(m, regions)
    ensures Survive(m, m, regions, regions, {})
  {
    forall i | 0 <= i < |regions| ensures Survives(m, m, regions[i]) {
      assert LabelOk(m, regions[i]);
    }
  }

  lemma GrownSurvives(m: seq<byte>, n: seq<byte>, h: Heap, k: nat)
    requires Regions.Valid(h) && |h.regions| == k + 1 && Labelled(m, h.regions[..k])
    requires SameOutside(m, n, Low(h.regions[k]), High(h.regions[k]))
    ensures Survive(m, n, h.regions[..k], h.regions, {})
  {
    forall i | 0 <= i < k ensures Survives(m, n, h.regions[..k][i]) {
      assert LabelOk(m, h.regions[..k][i]);
      ContentsKept(m, n, h.regions[i], h.regions[k]);
    }
  }

  lemma WrittenSurvives(m: seq<byte>, n: seq<byte>, h: Heap, k: nat)
    requires Regions.Valid(h) && k < |h.regions| && Labelled(m, h.regions)
    requires SameOutside(m, n, h.regions[k].addr, High(h.regions[k]))
    ensures Survive(m, n, h.regions, h.regions, {k})
  {
    forall i | 0 <= i < |h.regions| && i != k ensures Survives(m, n, h.regions[i]) {
      assert LabelOk(m, h.regions[i]);
      OthersKept(m, n, h, k, i);
    }
  }

  lemma SurvivesBoth(m: seq<byte>, n: seq<byte>, o: seq<byte>, a: seq<Region>, b: seq<Region>, c: seq<Region>,
                     first: set<nat>, second: set<nat>)
    requires Survive(m, n, a, b, first) && Survive(n, o, b, c, second)
    ensures Survive(m, o, a, c, first + second)
  {
    assert c[..|a|] == c[..|b|][..|a|] == b[..|a|];
    forall i | 0 <= i < |a| && i !in first + second ensures Survives(m, o, a[i]) {
      assert Survives(m, n, a[i]) && b[..|a|][i] == b[i] && Survives(n, o, b[i]);
    }
  }

  /** A new region is away from the others. */
  lemma NewApart(m: seq<byte>, h: Heap, k: nat, i: nat)
    requires Regions.Valid(h) && i < k < |h.regions| && Labelled(m, h.regions)
    ensures Disjoint(h.regions[i], h.regions[k]) && High(h.regions[i]) <= |m| && High(h.regions[k]) <= |m|
  {
    assert LabelOk(m, h.regions[i]) && LabelOk(m, h.regions[k]);
  }

  /** The header of a new region was written, then the contents of an older one were copied into it. */
  lemma Copied(m: seq<byte>, m1: seq<byte>, m2: seq<byte>, was: Region, r: Region)
    requires Disjoint(was, r) && was.len <= r.len && High(was) <= |m|
    requires SameOutside(m, m1, Low(r), r.addr) && SameOutside(m1, m2, r.addr, r.addr + was.len)
    requires Begins(m2, r.addr, m1, was)
    ensures SameOutside(m1, m2, r.addr, High(r)) && SameOutside(m, m2, Low(r), High(r)) && Begins(m2, r.addr, m, was)
  {
    assert SameOutside(m, m1, Low(r), High(r));
    ContentsKept(m, m1, was, r);
  }

  /** At this address are the contents a region had. */
  ghost predicate Begins(n: seq<byte>, addr: nat, m: seq<byte>, r: Region) {
    High(r) <= |m| && addr + r.len <= |n| && n[addr..addr + r.len] == Contents(m, r)
  }

  lemma BeginsItself(m: seq<byte>, regions: seq<Region>, r: Region)
    requires Labelled(m, regions) && r in regions
    ensures Begins(m, r.addr, m, r)
  {
    var i :| 0 <= i < |regions| && regions[i] == r;
    assert LabelOk(m, regions[i]);
  }

  /** A write inside the body of a region leaves all headers. */
  lemma BodyWritten(m: seq<byte>, n: seq<byte>, h: Heap, s: Region)
    requires Regions.Valid(h) && s in h.regions && Labelled(m, h.regions) && SameOutside(m, n, s.addr, High(s))
    ensures Labelled(n, h.regions)
  {
    var k :| 0 <= k < |h.regions| && h.regions[k] == s;
    forall i | 0 <= i < |h.regions| ensures LabelOk(n, h.regions[i]) {
      var r := h.regions[i];
      assert LabelOk(m, r);
      if i == k {
        WordSame(m, n, r.addr - LENGTH_HEADER, LENGTH_HEADER, s.addr, High(s));
      } else {
        LabelKept(m, n, r, s);
      }
    }
  }

  /** A write inside one region leaves the contents of all others. */
  lemma OthersKept(m: seq<byte>, n: seq<byte>, h: Heap, k: nat, j: nat)
    requires Regions.Valid(h) && k < |h.regions| && j < |h.regions| && j != k && High(h.regions[j]) <= |m|
    requires SameOutside(m, n, Low(h.regions[k]), High(h.regions[k]))
    ensures High(h.regions[j]) <= |n| && Contents(n, h.regions[j]) == Contents(m, h.regions[j])
  {
    ContentsKept(m, n, h.regions[j], h.regions[k]);
  }

  /** One region more was handed out, and only its header was written. */
  predicate Handed(before: seq<Region>, after: seq<Region>, m: seq<byte>, n: seq<byte>, addr: nat, r: Region) {
    after == before + [r] && r.addr == addr && SameOutside(m, n, Low(r), addr)
  }

  /** The new region was labelled by a write to its header, so all regions are labelled. */
  lemma LabelsKept(m: seq<byte>, n: seq<byte>, before: seq<Region>, h: Heap, r: Region)
    requires Regions.Valid(h) && h.regions == before + [r] && Labelled(m, before)
    requires SameOutside(m, n, Low(r), r.addr) && LabelOk(n, r)
    ensures Labelled(n, h.regions)
  {
    assert h.regions[|before|] == r;
    forall i | 0 <= i < |before| ensures LabelOk(n, h.regions[i]) {
      assert LabelOk(m, before[i]) && h.regions[i] == before[i];
      assert Disjoint(h.regions[i], h.regions[|before|]);
      LabelKept(m, n, before[i], r);
    }
  }
}
