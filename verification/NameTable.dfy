/**
 * The protobuf library's interned names: a chained hash table that grows by doubling, with
 * reference counts, and a two-way cache of hashes keyed by the address of the string looked up.
 */
module NameTable {
  import opened Bytes
  import HashTable

  const MIN_BUCKETS: nat := 16
  const CACHE_SIZE: nat := 53

  // ---------------------------------------------------------------------------

  function Xor(a: nat, b: nat): nat {
    if a == 0 && b == 0 then 0 else (a % 2 + b % 2) % 2 + 2 * Xor(a / 2, b / 2)
  }

  /** `pbN_calchash`: every step-th byte from the end, mixed into the length in 32 bits. */
  function Mix(s: seq<byte>, len: nat, step: nat, h: nat): nat
    requires len <= |s| && step >= 1
    decreases len
  {
    if len < step then h
    else Mix(s, len - step, step, Xor(h, (h * 32 + h / 4 + s[len - 1]) % WORD32))
  }

  function CalcHash(s: seq<byte>): nat {
    Mix(s, |s|, |s| / 32 + 1, |s| % WORD32)
  }

  datatype Entry = Entry(name: seq<byte>, hash: nat, refcount: nat) {
    /** The 16-bit length field. */
    function Length(): nat {
      |name| % 0x1_0000
    }
  }

  /** All entries of all buckets. */
  ghost function All(buckets: seq<seq<Entry>>): multiset<Entry> {
    if buckets == [] then multiset{} else multiset(buckets[0]) + All(buckets[1..])
  }

  lemma {:induction false} AllUpdate(buckets: seq<seq<Entry>>, i: nat, list: seq<Entry>)
    requires i < |buckets|
    ensures All(buckets) >= multiset(buckets[i])
    ensures All(buckets[i := list]) == All(buckets) - multiset(buckets[i]) + multiset(list)
  {
    if i == 0 {
      assert buckets[i := list][1..] == buckets[1..];
    } else {
      AllUpdate(buckets[1..], i - 1, list);
      assert buckets[i := list][1..] == buckets[1..][i - 1 := list];
    }
  }

  lemma {:induction false} InSomeBucket(buckets: seq<seq<Entry>>, e: Entry) returns (i: nat)
    requires e in All(buckets)
    ensures i < |buckets| && e in buckets[i]
  {
    if e in buckets[0] {
      i := 0;
    } else {
      i := InSomeBucket(buckets[1..], e);
      i := i + 1;
    }
  }

  lemma InAll(buckets: seq<seq<Entry>>, i: nat, e: Entry)
    requires i < |buckets| && e in buckets[i]
    ensures e in All(buckets)
  {
    AllUpdate(buckets, i, []);
    assert e in multiset(buckets[i]);
  }

  /** Each entry is in the bucket its hash selects, under the hash of its name. */
  ghost predicate Placed(hashOf: seq<byte> -> nat, buckets: seq<seq<Entry>>) {
    forall i, j :: 0 <= i < |buckets| && 0 <= j < |buckets[i]| ==>
      Hashed(hashOf, buckets[i][j]) && HashTable.Mask(buckets[i][j].hash, |buckets|) == i
  }

  ghost predicate Hashed(hashOf: seq<byte> -> nat, e: Entry) {
    e.hash == hashOf(e.name) && |e.name| < 0x1_0000
  }

  lemma PushFront(hashOf: seq<byte> -> nat, buckets: seq<seq<Entry>>, e: Entry)
    requires |buckets| > 0 && Placed(hashOf, buckets) && Hashed(hashOf, e)
    ensures var k := HashTable.Mask(e.hash, |buckets|);
            var b := buckets[k := [e] + buckets[k]];
            Placed(hashOf, b) && All(b) == All(buckets) + multiset{e}
  {
    var k := HashTable.Mask(e.hash, |buckets|);
    AllUpdate(buckets, k, [e] + buckets[k]);
    var b := buckets[k := [e] + buckets[k]];
    forall i, j | 0 <= i < |b| && 0 <= j < |b[i]| ensures Hashed(hashOf, b[i][j]) &&
      HashTable.Mask(b[i][j].hash, |b|) == i {
      if i == k && j > 0 {
        assert b[i][j] == buckets[i][j - 1];
      }
    }
  }

  ghost function EntryOf(hashOf: seq<byte> -> nat, refs: map<seq<byte>, nat>, n: seq<byte>): Entry
    requires n in refs
  {
    Entry(n, hashOf(n), refs[n])
  }

  /** The entries are those of the map from names to reference counts, once each. */
  ghost predicate Holds(hashOf: seq<byte> -> nat, all: multiset<Entry>, refs: map<seq<byte>, nat>) {
    && (forall n :: n in refs ==> EntryOf(hashOf, refs, n) in all)
    && (forall e :: e in all ==> e.name in refs && e == EntryOf(hashOf, refs, e.name) && all[e] == 1)
  }

  /** The table holds the names of the map, each in its bucket. */
  ghost predicate Sound(hashOf: seq<byte> -> nat, buckets: seq<seq<Entry>>, count: nat, refs: map<seq<byte>, nat>) {
    && Placed(hashOf, buckets) && Holds(hashOf, All(buckets), refs)
    && count == |All(buckets)|
    && (|buckets| == 0 || (|buckets| >= MIN_BUCKETS && HashTable.PowerOfTwo(|buckets|)))
  }

  lemma SoundAdded(hashOf: seq<byte> -> nat, buckets: seq<seq<Entry>>, count: nat, refs: map<seq<byte>, nat>, e: Entry)
    requires Sound(hashOf, buckets, count, refs) && |buckets| > 0 && e.name !in refs && Hashed(hashOf, e)
    ensures var k := HashTable.Mask(e.hash, |buckets|);
            Sound(hashOf, buckets[k := [e] + buckets[k]], count + 1, refs[e.name := e.refcount])
  {
    PushFront(hashOf, buckets, e);
    HoldsAdd(hashOf, All(buckets), refs, e.name, e.refcount);
  }

  lemma SoundChanged(hashOf: seq<byte> -> nat, buckets: seq<seq<Entry>>, count: nat, refs: map<seq<byte>, nat>,
                     s: seq<byte>, i: nat, j: nat, e: Entry)
    requires Sound(hashOf, buckets, count, refs) && s in refs
    requires i < |buckets| && j < |buckets[i]| && buckets[i][j] == EntryOf(hashOf, refs, s) &&
             e == Entry(s, hashOf(s), e.refcount)
    ensures Sound(hashOf, buckets[i := buckets[i][j := e]], count, refs[s := e.refcount])
  {
    ReplaceEntry(hashOf, buckets, i, j, e);
    HoldsChange(hashOf, All(buckets), refs, s, e.refcount);
  }

  lemma SoundRemoved(hashOf: seq<byte> -> nat, buckets: seq<seq<Entry>>, count: nat, refs: map<seq<byte>, nat>,
                     s: seq<byte>, i: nat, j: nat)
    requires Sound(hashOf, buckets, count, refs) && s in refs
    requires i < |buckets| && j < |buckets[i]| && buckets[i][j] == EntryOf(hashOf, refs, s)
    ensures count > 0 && Sound(hashOf, buckets[i := buckets[i][..j] + buckets[i][j + 1..]], count - 1, refs - {s})
  {
    RemoveEntry(hashOf, buckets, i, j);
    HoldsRemove(hashOf, All(buckets), refs, s);
  }

  /** A name of the map is in a bucket. */
  lemma Somewhere(hashOf: seq<byte> -> nat, buckets: seq<seq<Entry>>, refs: map<seq<byte>, nat>, s: seq<byte>)
    returns (i: nat)
    requires Holds(hashOf, All(buckets), refs) && s in refs
    ensures i < |buckets| && EntryOf(hashOf, refs, s) in buckets[i]
  {
    i := InSomeBucket(buckets, EntryOf(hashOf, refs, s));
  }

  /** What is in a bucket is the entry of a name of the map. */
  lemma Here(hashOf: seq<byte> -> nat, buckets: seq<seq<Entry>>, refs: map<seq<byte>, nat>, i: nat, j: nat)
    requires Placed(hashOf, buckets) && Holds(hashOf, All(buckets), refs) && i < |buckets| && j < |buckets[i]|
    ensures var e := buckets[i][j]; e.name in refs && e == EntryOf(hashOf, refs, e.name) && |e.name| < 0x1_0000
  {
    InAll(buckets, i, buckets[i][j]);
  }

  // ---------------------------------------------------------------------------

  /** A remembered hash for the string at an address; the string there may have changed since. */
  datatype CacheSlot = CacheSlot(address: nat, hash: nat)

  datatype CacheRow = CacheRow(first: CacheSlot, second: CacheSlot)

  function RowOf(address: nat): (i: nat)
    ensures i < CACHE_SIZE
  {
    address * HashTable.MULTIPLIER % WORD64 % CACHE_SIZE
  }

  class Cache {
    var rows: seq<CacheRow>
    var hash: nat

    constructor (rows: seq<CacheRow>, hash: nat)
      ensures this.rows == rows && this.hash == hash
    {
      this.rows, this.hash := rows, hash;
    }
  }

  /** The 16-bit reference count after one more use. */
  function Bumped(r: nat): nat {
    (r + 1) % 0x1_0000
  }

  class Names {
    // PB_MAX_HASHSIZE in units of bucket heads
    const maxBuckets: nat
    // the hash of a name; `CalcHash` in the library, but nothing depends on which
    const hashOf: seq<byte> -> nat
    var buckets: seq<seq<Entry>>
    var count: nat
    ghost var refs: map<seq<byte>, nat>

    ghost predicate Valid()
      reads this
    {
      Sound(hashOf, buckets, count, refs)
    }

    constructor (maxBuckets: nat, hashOf: seq<byte> -> nat)
      ensures Valid() && refs == map[] && this.maxBuckets == maxBuckets && this.hashOf == hashOf
    {
      this.maxBuckets, this.hashOf := maxBuckets, hashOf;
      buckets, count := [], 0;
      refs := map[];
    }

    /** `pbN_getname`: the entry of a name, if the table has it and h is its hash. */
    method Get(s: seq<byte>, h: nat) returns (entry: Option<Entry>)
      requires Valid()
      ensures entry == if s in refs && h == hashOf(s) then Some(EntryOf(hashOf, refs, s)) else None
    {
      ghost var found := s in refs && h == hashOf(s);
      if |buckets| == 0 {
        if found {
          var i := Somewhere(hashOf, buckets, refs, s);
        }
        return None;
      }
      var k := HashTable.Mask(h, |buckets|);
      for j := 0 to |buckets[k]|
        invariant forall m :: 0 <= m < j ==> !(buckets[k][m].hash == h && buckets[k][m].name == s)
      {
        var e := buckets[k][j];
        Here(hashOf, buckets, refs, k, j);
        if e.hash == h && e.Length() == |s| && s == e.name[..|s|] {
          assert s == e.name;
          return Some(e);
        }
        assert e.name == s ==> e.Length() == |s| && e.name[..|s|] == s;
      }
      if found {
        var i := Somewhere(hashOf, buckets, refs, s);
        assert false;
      }
      entry := None;
    }

    /** The size limit or the allocator forbids a table for this request. */
    predicate CannotGrow(size: nat, limit: nat) {
      var n := HashTable.NewSize(MIN_BUCKETS, size, maxBuckets);
      n < size || limit < n
    }

    /** A new name has a place: there are fewer names than buckets, or the table can be doubled. */
    predicate HasPlace(limit: nat)
      reads this
    {
      count < |buckets| || !CannotGrow(2 * |buckets|, limit)
    }

    /** `pbN_resize`: every entry is moved to the front of its bucket in a larger table. 0 when the
        size limit or the allocator forbids it. */
    method Resize(size: nat, limit: nat) returns (newsize: nat)
      requires Valid()
      modifies this
      ensures Valid() && refs == old(refs) && count == old(count)
      ensures newsize == 0 <==> CannotGrow(size, limit)
      ensures newsize == 0 ==> buckets == old(buckets)
      ensures newsize > 0 ==> |buckets| == newsize == HashTable.NewSize(MIN_BUCKETS, size, maxBuckets)
    {
      var n := ChooseSize(size);
      if n < size || limit < n {
        return 0;
      }
      var table := Redistributed(n);
      buckets := table;
      newsize := n;
    }

    method ChooseSize(size: nat) returns (n: nat)
      ensures n >= MIN_BUCKETS && HashTable.PowerOfTwo(n) && n == HashTable.NewSize(MIN_BUCKETS, size, maxBuckets)
    {
      n := MIN_BUCKETS;
      while n < maxBuckets && n < size
        invariant n >= MIN_BUCKETS && HashTable.PowerOfTwo(n)
        invariant HashTable.NewSize(n, size, maxBuckets) == HashTable.NewSize(MIN_BUCKETS, size, maxBuckets)
      {
        HashTable.PowerDoubled(n);
        n := 2 * n;
      }
    }

    method Redistributed(n: nat) returns (table: seq<seq<Entry>>)
      requires Placed(hashOf, buckets) && n > 0
      ensures |table| == n && Placed(hashOf, table) && All(table) == All(buckets)
    {
      table := seq(n, _ => []);
      AllEmpty(table);
      for i := 0 to |buckets|
        invariant |table| == n && Placed(hashOf, table)
        invariant All(table) == All(buckets[..i])
      {
        table := MoveList(table, buckets[i]);
        AllSnoc(buckets, i);
      }
      assert buckets[..|buckets|] == buckets;
    }

    method MoveList(before: seq<seq<Entry>>, list: seq<Entry>) returns (table: seq<seq<Entry>>)
      requires |before| > 0 && Placed(hashOf, before)
      requires forall j :: 0 <= j < |list| ==> Hashed(hashOf, list[j])
      ensures |table| == |before| && Placed(hashOf, table) && All(table) == All(before) + multiset(list)
    {
      table := before;
      for j := 0 to |list|
        invariant |table| == |before| && Placed(hashOf, table)
        invariant All(table) == All(before) + multiset(list[..j])
      {
        var k := HashTable.Mask(list[j].hash, |table|);
        PushFront(hashOf, table, list[j]);
        table := table[k := [list[j]] + table[k]];
        assert list[..j + 1] == list[..j] + [list[j]];
      }
      assert list[..|list|] == list;
    }

    /** `pb_name`: the name of a string at an address. Whatever the cache holds, the answer is the one
        a lookup without it gives, and the cache then remembers the right hash for the address. */
    method Lookup(address: nat, s: seq<byte>, cache: Cache?) returns (name: Option<seq<byte>>)
      requires Valid() && (cache != null ==> |cache.rows| == CACHE_SIZE)
      modifies cache
      ensures name == if address != 0 && s in refs then Some(s) else None
      ensures address != 0 && cache != null ==>
                && cache.hash == hashOf(s)
                && |cache.rows| == CACHE_SIZE
                && var row := cache.rows[RowOf(address)];
                   CacheSlot(address, hashOf(s)) in {row.first, row.second} &&
                   cache.rows == old(cache.rows)[RowOf(address) := row]
    {
      if address == 0 {
        return None;
      }
      var entry: Option<Entry> := None;
      if cache == null {
        entry := Get(s, hashOf(s));
      } else {
        var k := RowOf(address);
        var row := cache.rows[k];
        var inSecond := false;
        if row.first.address == address {
          cache.hash := row.first.hash;
          entry := Get(s, cache.hash);
        } else if row.second.address == address {
          inSecond := true;
          cache.hash := row.second.hash;
          entry := Get(s, cache.hash);
        } else {
          row := CacheRow(CacheSlot(address, row.first.hash), row.first);
        }
        if entry == None {
          cache.hash := hashOf(s);
          row := if inSecond then row.(second := CacheSlot(address, cache.hash))
                 else row.(first := CacheSlot(address, cache.hash));
          entry := Get(s, cache.hash);
        }
        cache.rows := cache.rows[k := row];
      }
      name := if entry == None then None else Some(entry.value.name);
    }

    /** Where the entry of a name is linked. */
    method Locate(s: seq<byte>) returns (i: nat, j: nat)
      requires Valid() && s in refs
      ensures i < |buckets| && j < |buckets[i]| && buckets[i][j] == EntryOf(hashOf, refs, s)
    {
      ghost var k := InSomeBucket(buckets, EntryOf(hashOf, refs, s));
      i := HashTable.Mask(hashOf(s), |buckets|);
      j := 0;
      while buckets[i][j].name != s
        invariant j < |buckets[i]|
        invariant exists m :: j <= m < |buckets[i]| && buckets[i][m] == EntryOf(hashOf, refs, s)
        decreases |buckets[i]| - j
      {
        j := j + 1;
      }
      InAll(buckets, i, buckets[i][j]);
    }

    /** `pbN_newname`: a new entry with no references, linked at the front of its bucket. `granted` says
        whether the allocator gives memory for the entry. */
    method Add(s: seq<byte>, limit: nat, granted: bool) returns (ok: bool)
      requires Valid() && s !in refs && |s| < 0x1_0000
      modifies this
      ensures Valid() && refs == if ok then old(refs)[s := 0] else old(refs)
      ensures ok <==> granted && old(HasPlace(limit))
    {
      if count >= |buckets| {
        var r := Resize(2 * |buckets|, limit);
        if r == 0 {
          return false;
        }
      }
      if !granted {
        return false;
      }
      var e := Entry(s, hashOf(s), 0);
      var k := HashTable.Mask(e.hash, |buckets|);
      SoundAdded(hashOf, buckets, count, refs, e);
      buckets := buckets[k := [e] + buckets[k]];
      count := count + 1;
      refs := refs[s := 0];
      ok := true;
    }

    /** `pb_usename`: one more reference, in a 16-bit field. */
    method Use(s: seq<byte>)
      requires Valid() && s in refs
      modifies this
      ensures Valid() && refs == old(refs)[s := Bumped(old(refs[s]))]
      ensures old(refs[s]) < 0xffff ==> refs[s] == old(refs[s]) + 1
    {
      var i, j := Locate(s);
      SetCount(s, i, j, Bumped(buckets[i][j].refcount));
    }

    method SetCount(s: seq<byte>, i: nat, j: nat, r: nat)
      requires Valid() && s in refs
      requires i < |buckets| && j < |buckets[i]| && buckets[i][j] == EntryOf(hashOf, refs, s)
      modifies this
      ensures Valid() && refs == old(refs)[s := r]
    {
      var e := buckets[i][j].(refcount := r);
      SoundChanged(hashOf, buckets, count, refs, s, i, j, e);
      buckets := buckets[i := buckets[i][j := e]];
      refs := refs[s := r];
    }

    /** `pb_newname`: the name of a string, created if needed, with one more reference. */
    method Intern(s: seq<byte>, limit: nat, granted: bool) returns (ok: bool)
      requires Valid() && |s| < 0x1_0000
      modifies this
      ensures Valid()
      ensures ok ==> refs == old(refs)[s := Bumped(if s in old(refs) then old(refs[s]) else 0)]
      // one reference for a new name, and one more for one that has fewer than 65535
      ensures ok && s !in old(refs) ==> refs == old(refs)[s := 1]
      ensures ok && s in old(refs) && old(refs[s]) < 0xffff ==> refs == old(refs)[s := old(refs[s]) + 1]
      ensures !ok ==> refs == old(refs)
      ensures ok <==> s in old(refs) || (granted && old(HasPlace(limit)))
    {
      var h := hashOf(s);
      var entry := Get(s, h);
      if entry != None {
        Use(s);
        return true;
      }
      ghost var before := refs;
      ok := Add(s, limit, granted);
      if ok {
        Use(s);
        UpdatedTwice(before, s, 0, Bumped(0));
      }
    }

    /** `pb_delname`: one reference less; the last one unlinks the entry. */
    method Delete(s: seq<byte>)
      requires Valid() && s in refs
      modifies this
      ensures Valid()
      ensures refs == if old(refs[s]) <= 1 then old(refs) - {s} else old(refs)[s := old(refs[s]) - 1]
    {
      var i, j := Locate(s);
      if buckets[i][j].refcount > 1 {
        SetCount(s, i, j, buckets[i][j].refcount - 1);
      } else {
        Unlink(s, i, j);
      }
    }

    method Unlink(s: seq<byte>, i: nat, j: nat)
      requires Valid() && s in refs
      requires i < |buckets| && j < |buckets[i]| && buckets[i][j] == EntryOf(hashOf, refs, s)
      modifies this
      ensures Valid() && refs == old(refs) - {s}
    {
      SoundRemoved(hashOf, buckets, count, refs, s, i, j);
      buckets := buckets[i := buckets[i][..j] + buckets[i][j + 1..]];
      count := count - 1;
      refs := refs - {s};
    }
  }

  /** `pbN_init`: an empty table under the library's hash. */
  method NewNames(maxBuckets: nat) returns (names: Names)
    ensures fresh(names) && names.Valid() && names.refs == map[] && names.hashOf == CalcHash
  {
    names := new Names(maxBuckets, CalcHash);
  }

  lemma UpdatedTwice<K, V>(m: map<K, V>, k: K, a: V, b: V)
    ensures m[k := a][k := b] == m[k := b]
  {
  }

  lemma WithoutOne(list: seq<Entry>, j: nat)
    requires j < |list|
    ensures list[j] in multiset(list)
    ensures multiset(list[..j] + list[j + 1..]) == multiset(list) - multiset{list[j]}
  {
    assert list == list[..j] + [list[j]] + list[j + 1..];
  }

  lemma WithOther(list: seq<Entry>, j: nat, e: Entry)
    requires j < |list|
    ensures multiset(list[j := e]) == multiset(list) - multiset{list[j]} + multiset{e}
  {
    WithoutOne(list, j);
    assert list[j := e] == list[..j] + [e] + list[j + 1..];
  }

  lemma Exchange(all: multiset<Entry>, part: multiset<Entry>, x: Entry, other: multiset<Entry>)
    requires part <= all && x in part
    ensures x in all && all - part + (part - multiset{x} + other) == all - multiset{x} + other
  {
  }

  lemma PlacedUpdate(hashOf: seq<byte> -> nat, buckets: seq<seq<Entry>>, i: nat, list: seq<Entry>)
    requires Placed(hashOf, buckets) && i < |buckets|
    requires forall k :: 0 <= k < |list| ==> Hashed(hashOf, list[k]) && HashTable.Mask(list[k].hash, |buckets|) == i
    ensures Placed(hashOf, buckets[i := list])
  {
  }

  lemma ReplaceEntry(hashOf: seq<byte> -> nat, buckets: seq<seq<Entry>>, i: nat, j: nat, e: Entry)
    requires Placed(hashOf, buckets) && i < |buckets| && j < |buckets[i]|
    requires e.name == buckets[i][j].name && e.hash == buckets[i][j].hash
    ensures var b := buckets[i := buckets[i][j := e]];
            Placed(hashOf, b) && buckets[i][j] in All(buckets) &&
              All(b) == All(buckets) - multiset{buckets[i][j]} + multiset{e}
  {
    PlacedUpdate(hashOf, buckets, i, buckets[i][j := e]);
    AllReplaced(buckets, i, j, e);
  }

  lemma AllReplaced(buckets: seq<seq<Entry>>, i: nat, j: nat, e: Entry)
    requires i < |buckets| && j < |buckets[i]|
    ensures buckets[i][j] in All(buckets)
    ensures All(buckets[i := buckets[i][j := e]]) == All(buckets) - multiset{buckets[i][j]} + multiset{e}
  {
    AllUpdate(buckets, i, buckets[i][j := e]);
    WithOther(buckets[i], j, e);
    Exchange(All(buckets), multiset(buckets[i]), buckets[i][j], multiset{e});
  }

  lemma RemoveEntry(hashOf: seq<byte> -> nat, buckets: seq<seq<Entry>>, i: nat, j: nat)
    requires Placed(hashOf, buckets) && i < |buckets| && j < |buckets[i]|
    ensures var b := buckets[i := buckets[i][..j] + buckets[i][j + 1..]];
            Placed(hashOf, b) && buckets[i][j] in All(buckets) && All(b) == All(buckets) - multiset{buckets[i][j]}
  {
    var list := buckets[i][..j] + buckets[i][j + 1..];
    assert forall k :: 0 <= k < |list| ==> list[k] == buckets[i][if k < j then k else k + 1];
    PlacedUpdate(hashOf, buckets, i, list);
    AllRemoved(buckets, i, j);
  }

  lemma AllRemoved(buckets: seq<seq<Entry>>, i: nat, j: nat)
    requires i < |buckets| && j < |buckets[i]|
    ensures buckets[i][j] in All(buckets)
    ensures All(buckets[i := buckets[i][..j] + buckets[i][j + 1..]]) == All(buckets) - multiset{buckets[i][j]}
  {
    AllUpdate(buckets, i, buckets[i][..j] + buckets[i][j + 1..]);
    WithoutOne(buckets[i], j);
    Exchange(All(buckets), multiset(buckets[i]), buckets[i][j], multiset{});
  }

  lemma HoldsAdd(hashOf: seq<byte> -> nat, all: multiset<Entry>, refs: map<seq<byte>, nat>, s: seq<byte>, r: nat)
    requires Holds(hashOf, all, refs) && s !in refs
    ensures Holds(hashOf, all + multiset{Entry(s, hashOf(s), r)}, refs[s := r])
  {
    var refs1 := refs[s := r];
    assert forall n :: n in refs ==> EntryOf(hashOf, refs1, n) == EntryOf(hashOf, refs, n);
  }

  lemma HoldsRemove(hashOf: seq<byte> -> nat, all: multiset<Entry>, refs: map<seq<byte>, nat>, s: seq<byte>)
    requires Holds(hashOf, all, refs) && s in refs
    ensures Holds(hashOf, all - multiset{EntryOf(hashOf, refs, s)}, refs - {s})
  {
    var refs1 := refs - {s};
    assert forall n :: n in refs1 ==> EntryOf(hashOf, refs1, n) == EntryOf(hashOf, refs, n);
  }

  lemma HoldsChange(hashOf: seq<byte> -> nat, all: multiset<Entry>, refs: map<seq<byte>, nat>, s: seq<byte>, r: nat)
    requires Holds(hashOf, all, refs) && s in refs
    ensures Holds(hashOf, all - multiset{EntryOf(hashOf, refs, s)} + multiset{Entry(s, hashOf(s), r)}, refs[s := r])
  {
    HoldsRemove(hashOf, all, refs, s);
    HoldsAdd(hashOf, all - multiset{EntryOf(hashOf, refs, s)}, refs - {s}, s, r);
    assert refs[s := r] == (refs - {s})[s := r];
  }

  lemma {:induction false} AllEmpty(buckets: seq<seq<Entry>>)
    requires forall i :: 0 <= i < |buckets| ==> buckets[i] == []
    ensures All(buckets) == multiset{}
  {
    if buckets != [] {
      AllEmpty(buckets[1..]);
    }
  }

  lemma {:induction false} AllSnoc(buckets: seq<seq<Entry>>, i: nat)
    requires i < |buckets|
    ensures All(buckets[..i + 1]) == All(buckets[..i]) + multiset(buckets[i])
    decreases i
  {
    assert buckets[..i + 1][1..] == buckets[1..][..i];
    if i == 0 {
      assert buckets[..1][1..] == [];
    } else {
      assert buckets[..i][1..] == buckets[1..][..i - 1];
      AllSnoc(buckets[1..], i - 1);
    }
  }
}
