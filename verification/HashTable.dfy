/**
 * The protobuf library's hash table (`pb_Table`): open slots, relative `next` links, a
 * downward-moving `lastfree` cursor, displacement of entries that sit in another key's
 * main slot, and rehashing by doubling.
 *
 * Slots are counted in entries rather than bytes, so a link is a difference of indices.
 */
module HashTable {
  import opened Bytes

  const MIN_SIZE: nat := 8
  const MULTIPLIER: nat := 2654435761

  datatype Entry<V> = Entry(next: int, key: int, value: V)

  predicate PowerOfTwo(n: nat) {
    n == 1 || (n > 1 && n % 2 == 0 && PowerOfTwo(n / 2))
  }

  lemma PowerDoubled(n: nat)
    requires n >= 1
    ensures PowerOfTwo(2 * n) == PowerOfTwo(n)
  {
    Halved(n);
  }

  lemma Halved(n: nat)
    ensures 2 * n / 2 == n && 2 * n % 2 == 0
  {
  }

  /** Between a power of two and its double there is none. */
  lemma {:induction false} PowersApart(a: nat, b: nat)
    requires PowerOfTwo(a) && PowerOfTwo(b) && a < b
    ensures 2 * a <= b
  {
    if a > 1 {
      PowersApart(a / 2, b / 2);
    }
  }

  /** The low bits of h that `size - 1` selects, for a size that is a power of two. */
  function Mask(h: nat, size: nat): (r: nat)
    requires size >= 1
    ensures r < size
  {
    if size == 1 then 0 else h % 2 + 2 * Mask(h / 2, size / 2)
  }

  /** The main slot of a key, from the table's size and the key; slot 0 is kept for key 0. */
  function MaskedProduct(size: nat, key: int): (h: nat)
    ensures size >= 2 && key != 0 ==> 0 < h < size
  {
    if size == 0 then 0 else
    var h := Mask(key % WORD64 * MULTIPLIER % WORD64, size);
    if key != 0 && h == 0 then 1 else h
  }

  /** Any assignment of main slots that keeps nonzero keys out of slot 0. */
  type Hash = h: (nat, int) -> nat | forall n: nat, k: int :: n >= 2 && k != 0 ==> 0 < h(n, k) < n
    witness MaskedProduct

  // ---------------------------------------------------------------------------
  // The shape of the slots. `height[i]` is the number of links from slot i to the end of
  // its chain, and `at` says which slot holds a key.

  ghost predicate Occupied<V>(s: seq<Entry<V>>, i: int) {
    0 <= i < |s| && s[i].key != 0
  }

  ghost function MainOf<V>(hash: Hash, s: seq<Entry<V>>, i: int): nat
    requires 0 <= i < |s|
  {
    hash(|s|, s[i].key)
  }

  /** Slot i, if it is occupied, is in the chain of its key's main slot, at most as far from the end as the head is. */
  ghost predicate Node<V>(hash: Hash, s: seq<Entry<V>>, height: seq<nat>, i: int)
    requires |height| == |s| >= 2
  {
    Occupied(s, i) ==>
    var m := MainOf(hash, s, i);
    && m < |s|
    && s[m].key != 0
    && MainOf(hash, s, m) == m
    && height[i] <= height[m]
    && (s[i].next == 0 <==> height[i] == 0)
    && (s[i].next != 0 ==>
          var t := i + s[i].next;
          && 0 <= t < |s|
          && s[t].key != 0
          && MainOf(hash, s, t) == m
          && height[t] == height[i] - 1)
  }

  /** In each chain the heights are pairwise different. */
  ghost predicate Unforked<V>(hash: Hash, s: seq<Entry<V>>, height: seq<nat>)
    requires |height| == |s|
  {
    forall i, j ::
      Occupied(s, i) && Occupied(s, j) && MainOf(hash, s, i) == MainOf(hash, s, j) && height[i] == height[j] ==> i == j
  }

  ghost predicate Nodes<V>(hash: Hash, s: seq<Entry<V>>, height: seq<nat>)
    requires |height| == |s| >= 2
  {
    forall i :: Node(hash, s, height, i)
  }

  ghost predicate Linked<V>(hash: Hash, s: seq<Entry<V>>, height: seq<nat>)
    requires |s| >= 2
  {
    && |height| == |s|
    && s[0].key == 0
    && (forall i :: 0 <= i < |s| && s[i].key == 0 ==> s[i].next == 0)
    && Nodes(hash, s, height)
    && Unforked(hash, s, height)
  }

  ghost predicate Indexed<V>(s: seq<Entry<V>>, at: map<int, nat>) {
    && (forall k :: k in at ==> k != 0 && at[k] < |s| && s[at[k]].key == k)
    && (forall i :: Occupied(s, i) ==> s[i].key in at && at[s[i].key] == i)
  }

  /** The key-value pairs the slots stand for. */
  ghost function ContentsOf<V>(s: seq<Entry<V>>, at: map<int, nat>): map<int, V>
    requires Indexed(s, at)
  {
    map k | k in at :: s[at[k]].value
  }

  // ---------------------------------------------------------------------------
  // The two ways a colliding key is placed.

  /** The slots after the resident of `mp`, which belongs to the chain of another slot and is
      reached from `on`, has been moved to the free slot `f`, and `key` put in its place. */
  ghost function Displaced<V>(s: seq<Entry<V>>, mp: nat, on: nat, f: nat, key: int, zero: V): seq<Entry<V>>
    requires mp < |s| && on < |s| && f < |s|
  {
    var moved := Entry(if s[mp].next != 0 then s[mp].next + mp - f else 0, s[mp].key, s[mp].value);
    s[on := s[on].(next := f - on)][f := moved][mp := Entry(0, key, zero)]
  }

  /** What holds when `key` finds the resident of another chain in its main slot. */
  ghost predicate Misplaced<V>(hash: Hash, s: seq<Entry<V>>, height: seq<nat>, mp: nat, on: nat, f: nat, key: int) {
    && |s| >= 2 && Linked(hash, s, height)
    && key != 0 && mp == hash(|s|, key)
    && Occupied(s, mp) && MainOf(hash, s, mp) != mp
    && Occupied(s, on) && s[on].next != 0 && on + s[on].next == mp
    && 0 < f < |s| && s[f].key == 0
  }

  lemma MisplacedFacts<V>(hash: Hash, s: seq<Entry<V>>, height: seq<nat>, mp: nat, on: nat, f: nat, key: int)
    requires Misplaced(hash, s, height, mp, on, f, key)
    ensures forall i :: Occupied(s, i) ==> MainOf(hash, s, i) != mp
    ensures forall i :: Occupied(s, i) && s[i].next != 0 && i + s[i].next == mp ==> i == on
    ensures MainOf(hash, s, on) == MainOf(hash, s, mp) && height[on] == height[mp] + 1
  {
    assert Node(hash, s, height, mp) && Node(hash, s, height, on);
    forall i | Occupied(s, i) ensures MainOf(hash, s, i) != mp {
      assert Node(hash, s, height, i);
    }
    forall i | Occupied(s, i) && s[i].next != 0 && i + s[i].next == mp ensures i == on {
      assert Node(hash, s, height, i);
    }
  }

  lemma DisplacedNode<V>(hash: Hash, s: seq<Entry<V>>, height: seq<nat>, mp: nat, on: nat, f: nat, key: int, zero: V,
                         i: nat)
    requires Misplaced(hash, s, height, mp, on, f, key)
    requires Occupied(Displaced(s, mp, on, f, key, zero), i)
    ensures Node(hash, Displaced(s, mp, on, f, key, zero), height[f := height[mp]][mp := 0], i)
  {
    MisplacedFacts(hash, s, height, mp, on, f, key);
    var i0 := if i == f then mp else i;
    assert Node(hash, s, height, i0);
  }

  lemma DisplacedLinked<V>(hash: Hash, s: seq<Entry<V>>, height: seq<nat>, mp: nat, on: nat, f: nat, key: int, zero: V)
    requires Misplaced(hash, s, height, mp, on, f, key)
    ensures Linked(hash, Displaced(s, mp, on, f, key, zero), height[f := height[mp]][mp := 0])
  {
    var s1 := Displaced(s, mp, on, f, key, zero);
    var h1 := height[f := height[mp]][mp := 0];
    forall i | Occupied(s1, i) ensures Node(hash, s1, h1, i) {
      DisplacedNode(hash, s, height, mp, on, f, key, zero, i);
    }
    assert Unforked(hash, s1, h1) by {
      MisplacedFacts(hash, s, height, mp, on, f, key);
      forall i, j | Occupied(s1, i) && Occupied(s1, j) && MainOf(hash, s1, i) == MainOf(hash, s1, j) && h1[i] == h1[j]
        ensures i == j
      {
        var i0, j0 := if i == f then mp else i, if j == f then mp else j;
        assert Occupied(s, i0) && Occupied(s, j0);
        assert i != mp ==> MainOf(hash, s1, i) == MainOf(hash, s, i0);
        assert j != mp ==> MainOf(hash, s1, j) == MainOf(hash, s, j0);
      }
    }
  }

  /** The slots after `key` has been put in the free slot `f`, linked directly after its main slot. */
  ghost function Appended<V>(s: seq<Entry<V>>, mp: nat, f: nat, key: int, zero: V): seq<Entry<V>>
    requires mp < |s| && f < |s|
  {
    s[f := Entry(if s[mp].next != 0 then mp - f + s[mp].next else 0, key, zero)][mp := s[mp].(next := f - mp)]
  }

  /** A key that is to be appended to the chain of its main slot, in the free slot `f`. */
  ghost predicate Appendable<V>(hash: Hash, s: seq<Entry<V>>, height: seq<nat>, mp: nat, f: nat, key: int) {
    && |s| >= 2 && Linked(hash, s, height)
    && key != 0 && mp == hash(|s|, key)
    && Occupied(s, mp) && MainOf(hash, s, mp) == mp
    && 0 < f < |s| && s[f].key == 0
  }

  /** A main slot is the highest of its chain. */
  lemma HighestMain<V>(hash: Hash, s: seq<Entry<V>>, height: seq<nat>, mp: nat, i: nat)
    requires |s| >= 2 && Linked(hash, s, height) && Occupied(s, i) && MainOf(hash, s, i) == mp && i != mp
    ensures height[i] < height[mp]
  {
    assert Node(hash, s, height, i);
  }

  lemma AppendedNode<V>(hash: Hash, s: seq<Entry<V>>, height: seq<nat>, mp: nat, f: nat, key: int, zero: V, i: nat)
    requires Appendable(hash, s, height, mp, f, key) && Occupied(Appended(s, mp, f, key, zero), i)
    ensures Node(hash, Appended(s, mp, f, key, zero), height[f := height[mp]][mp := height[mp] + 1], i)
  {
    assert Node(hash, s, height, mp);
    if i != mp && i != f {
      assert Node(hash, s, height, i);
    }
  }

  lemma AppendedUnforked<V>(hash: Hash, s: seq<Entry<V>>, height: seq<nat>, mp: nat, f: nat, key: int, zero: V,
                            i: nat, j: nat)
    requires Appendable(hash, s, height, mp, f, key)
    requires var s1, h1 := Appended(s, mp, f, key, zero), height[f := height[mp]][mp := height[mp] + 1];
             Occupied(s1, i) && Occupied(s1, j) && MainOf(hash, s1, i) == MainOf(hash, s1, j) && h1[i] == h1[j]
    ensures i == j
  {
    var s1 := Appended(s, mp, f, key, zero);
    assert i != f ==> Occupied(s, i) && MainOf(hash, s1, i) == MainOf(hash, s, i);
    assert j != f ==> Occupied(s, j) && MainOf(hash, s1, j) == MainOf(hash, s, j);
    if i != f && i != mp && MainOf(hash, s, i) == mp {
      HighestMain(hash, s, height, mp, i);
    }
    if j != f && j != mp && MainOf(hash, s, j) == mp {
      HighestMain(hash, s, height, mp, j);
    }
  }

  lemma AppendedLinked<V>(hash: Hash, s: seq<Entry<V>>, height: seq<nat>, mp: nat, f: nat, key: int, zero: V)
    requires Appendable(hash, s, height, mp, f, key)
    ensures Linked(hash, Appended(s, mp, f, key, zero), height[f := height[mp]][mp := height[mp] + 1])
  {
    var s1 := Appended(s, mp, f, key, zero);
    var h1 := height[f := height[mp]][mp := height[mp] + 1];
    forall i | Occupied(s1, i) ensures Node(hash, s1, h1, i) {
      AppendedNode(hash, s, height, mp, f, key, zero, i);
    }
    forall i, j | Occupied(s1, i) && Occupied(s1, j) && MainOf(hash, s1, i) == MainOf(hash, s1, j) && h1[i] == h1[j]
      ensures i == j
    {
      AppendedUnforked(hash, s, height, mp, f, key, zero, i, j);
    }
  }

  /** Putting `key` in its empty main slot. */
  lemma PlacedLinked<V>(hash: Hash, s: seq<Entry<V>>, height: seq<nat>, mp: nat, key: int, zero: V)
    requires |s| >= 2 && Linked(hash, s, height)
    requires key != 0 && mp == hash(|s|, key)
    requires s[mp].key == 0
    ensures Linked(hash, s[mp := Entry(0, key, zero)], height[mp := 0])
  {
    var s1 := s[mp := Entry(0, key, zero)];
    var h1 := height[mp := 0];
    forall i | Occupied(s, i) ensures MainOf(hash, s, i) != mp {
      assert Node(hash, s, height, i);
    }
    forall i | Occupied(s1, i) ensures Node(hash, s1, h1, i) {
      if i != mp {
        assert Node(hash, s, height, i);
      }
    }
    assert Unforked(hash, s1, h1) by {
      forall i, j | Occupied(s1, i) && Occupied(s1, j) && MainOf(hash, s1, i) == MainOf(hash, s1, j) && h1[i] == h1[j]
        ensures i == j
      {
        assert i != mp ==> Occupied(s, i) && MainOf(hash, s1, i) == MainOf(hash, s, i);
        assert j != mp ==> Occupied(s, j) && MainOf(hash, s1, j) == MainOf(hash, s, j);
      }
    }
  }

  // What each placement does to the key-value pairs.

  lemma SameContents<V>(a: map<int, V>, b: map<int, V>)
    requires forall k :: k in a <==> k in b
    requires forall k :: k in b ==> a[k] == b[k]
    ensures a == b
  {
    assert forall k | k in a.Keys :: k in b.Keys;
    assert forall k | k in b.Keys :: k in a.Keys && a[k] == b[k];
  }

  lemma PlacedContents<V>(s: seq<Entry<V>>, at: map<int, nat>, mp: nat, key: int, zero: V)
    requires Indexed(s, at) && key != 0 && key !in at
    requires mp < |s| && s[mp].key == 0
    ensures Indexed(s[mp := Entry(0, key, zero)], at[key := mp])
    ensures ContentsOf(s[mp := Entry(0, key, zero)], at[key := mp]) == ContentsOf(s, at)[key := zero]
  {
    var s1 := s[mp := Entry(0, key, zero)];
    assert forall i :: Occupied(s1, i) && i != mp ==> Occupied(s, i);
    SameContents(ContentsOf(s1, at[key := mp]), ContentsOf(s, at)[key := zero]);
  }

  lemma AppendedContents<V>(s: seq<Entry<V>>, at: map<int, nat>, mp: nat, f: nat, key: int, zero: V)
    requires Indexed(s, at) && key != 0 && key !in at
    requires Occupied(s, mp) && f < |s| && s[f].key == 0
    ensures Indexed(Appended(s, mp, f, key, zero), at[key := f])
    ensures ContentsOf(Appended(s, mp, f, key, zero), at[key := f]) == ContentsOf(s, at)[key := zero]
  {
    var s1 := Appended(s, mp, f, key, zero);
    assert forall i :: Occupied(s1, i) && i != f ==> Occupied(s, i) && s1[i].key == s[i].key;
    SameContents(ContentsOf(s1, at[key := f]), ContentsOf(s, at)[key := zero]);
  }

  lemma DisplacedContents<V>(s: seq<Entry<V>>, at: map<int, nat>, mp: nat, on: nat, f: nat, key: int, zero: V)
    requires Indexed(s, at) && key != 0 && key !in at
    requires Occupied(s, mp) && Occupied(s, on) && on != mp && f < |s| && s[f].key == 0
    ensures Indexed(Displaced(s, mp, on, f, key, zero), at[s[mp].key := f][key := mp])
    ensures ContentsOf(Displaced(s, mp, on, f, key, zero), at[s[mp].key := f][key := mp]) ==
            ContentsOf(s, at)[key := zero]
  {
    var s1 := Displaced(s, mp, on, f, key, zero);
    assert forall i :: Occupied(s1, i) && i != f && i != mp ==> Occupied(s, i) && s1[i].key == s[i].key;
    SameContents(ContentsOf(s1, at[s[mp].key := f][key := mp]), ContentsOf(s, at)[key := zero]);
  }

  // ---------------------------------------------------------------------------
  // Counting: a table whose slots are all taken holds as many keys as it has usable slots.

  ghost predicate Full<V>(s: seq<Entry<V>>) {
    forall i :: 0 < i < |s| ==> s[i].key != 0
  }

  lemma {:induction false} KeysBelow<V>(s: seq<Entry<V>>, at: map<int, nat>, n: nat) returns (keys: set<int>)
    requires Indexed(s, at) && Full(s) && n < |s|
    ensures |keys| == n
    ensures keys <= at.Keys && forall k :: k in keys ==> at[k] <= n
    decreases n
  {
    if n == 0 {
      keys := {};
    } else {
      var rest := KeysBelow(s, at, n - 1);
      assert Occupied(s, n);
      keys := rest + {s[n].key};
    }
  }

  lemma {:induction false} SubsetSize<T>(a: set<T>, b: set<T>)
    requires a <= b
    ensures |a| <= |b|
  {
    if a != {} {
      var x :| x in a;
      SubsetSize(a - {x}, b - {x});
    }
  }

  lemma FullCount<V>(s: seq<Entry<V>>, at: map<int, nat>)
    requires |s| >= 2 && Indexed(s, at) && Full(s)
    ensures |at| + 1 >= |s|
  {
    var keys := KeysBelow(s, at, |s| - 1);
    SubsetSize(keys, at.Keys);
  }

  lemma {:induction false} KeysCounted<V>(s: seq<Entry<V>>, at: map<int, nat>, n: nat)
    requires Indexed(s, at) && 1 <= n <= |s| && s[0].key == 0
    ensures |set k | k in at && at[k] < n| < n
    decreases n
  {
    var below := set k | k in at && at[k] < n;
    if n == 1 {
      assert forall k :: k !in below;
      SubsetSize(below, {});
    } else {
      KeysCounted(s, at, n - 1);
      var rest := set k | k in at && at[k] < n - 1;
      forall k | k in below ensures k in rest + {s[n - 1].key} {
      }
      SubsetSize(below, rest + {s[n - 1].key});
    }
  }

  /** Slot 0 never holds a nonzero key, so there are fewer keys than slots. */
  lemma KeysFit<V>(s: seq<Entry<V>>, at: map<int, nat>)
    requires Indexed(s, at) && |s| >= 2 && s[0].key == 0
    ensures |at| < |s|
  {
    KeysCounted(s, at, |s|);
    var below := set k | k in at && at[k] < |s|;
    forall k | k in at.Keys ensures k in below {
    }
    SubsetSize(at.Keys, below);
  }

  lemma EmptyIndexed<V>(s: seq<Entry<V>>, at: map<int, nat>)
    requires Indexed(s, at) && s == []
    ensures |at| == 0
  {
    assert forall k :: k !in at.Keys;
    SubsetSize(at.Keys, {});
  }

  /** The pairs held by the first n slots. */
  ghost function Below<V>(s: seq<Entry<V>>, at: map<int, nat>, n: nat): map<int, V>
    requires Indexed(s, at)
  {
    map k | k in at && at[k] < n :: s[at[k]].value
  }

  lemma BelowStep<V>(s: seq<Entry<V>>, at: map<int, nat>, n: nat)
    requires Indexed(s, at) && n < |s|
    ensures s[n].key !in Below(s, at, n)
    ensures Below(s, at, n + 1) == if s[n].key == 0 then Below(s, at, n) else Below(s, at, n)[s[n].key := s[n].value]
  {
    assert s[n].key != 0 ==> Occupied(s, n);
    var was := Below(s, at, n);
    SameContents(Below(s, at, n + 1), if s[n].key == 0 then was else was[s[n].key := s[n].value]);
  }

  lemma BelowSize<V>(s: seq<Entry<V>>, at: map<int, nat>, n: nat)
    requires Indexed(s, at)
    ensures |Below(s, at, n)| <= |at|
  {
    assert forall k | k in Below(s, at, n).Keys :: k in at.Keys;
    SubsetSize(Below(s, at, n).Keys, at.Keys);
  }

  lemma ContentsSize<V>(s: seq<Entry<V>>, at: map<int, nat>)
    requires Indexed(s, at)
    ensures |ContentsOf(s, at)| == |at|
  {
    assert forall k | k in ContentsOf(s, at).Keys :: k in at.Keys;
    assert forall k | k in at.Keys :: k in ContentsOf(s, at).Keys;
    SubsetSize(ContentsOf(s, at).Keys, at.Keys);
    SubsetSize(at.Keys, ContentsOf(s, at).Keys);
  }

  lemma SameSizes<V>(s: seq<Entry<V>>, at: map<int, nat>, t: seq<Entry<V>>, on: map<int, nat>)
    requires Indexed(s, at) && Indexed(t, on) && ContentsOf(s, at) == ContentsOf(t, on)
    ensures |at| == |on|
  {
    ContentsSize(s, at);
    ContentsSize(t, on);
  }

  lemma BelowAll<V>(s: seq<Entry<V>>, at: map<int, nat>)
    requires Indexed(s, at)
    ensures Below(s, at, |s|) == ContentsOf(s, at)
  {
    SameContents(Below(s, at, |s|), ContentsOf(s, at));
  }

  /** Links and keys alone decide the shape, and which slot a payload is in the contents. */
  lemma Relabelled<V>(hash: Hash, s: seq<Entry<V>>, s1: seq<Entry<V>>, height: seq<nat>, at: map<int, nat>)
    requires |s| == |s1| && forall i :: 0 <= i < |s| ==> s1[i].key == s[i].key && s1[i].next == s[i].next
    requires |s| >= 2 && Linked(hash, s, height) && Indexed(s, at)
    ensures Linked(hash, s1, height) && Indexed(s1, at)
  {
    assert forall i :: Occupied(s1, i) ==> Occupied(s, i);
    forall i | Occupied(s1, i) ensures Node(hash, s1, height, i) {
      assert Node(hash, s, height, i);
    }
    forall i, j | Occupied(s1, i) && Occupied(s1, j) && MainOf(hash, s1, i) == MainOf(hash, s1, j) &&
      height[i] == height[j]
      ensures i == j
    {
      assert MainOf(hash, s, i) == MainOf(hash, s, j);
    }
  }

  /** The size a table is given for a request: doubled from the smallest until it suffices or
      the limit on sizes is met. */
  function NewSize(from: nat, size: nat, maxSlots: nat): (r: nat)
    requires from >= 1
    ensures r >= from
    ensures PowerOfTwo(from) ==> PowerOfTwo(r)
    ensures r > from ==> r / 2 < size
    decreases size - from
  {
    if from < maxSlots && from < size then
      PowerDoubled(from);
      Halved(from);
      NewSize(2 * from, size, maxSlots)
    else from
  }

  /** The size after the next doubling. */
  function NextSize(length: nat): nat {
    if length == 0 then MIN_SIZE else 2 * length
  }

  /** A table of n slots is within what the allocator grants and, unless it is the smallest, within the size limit. */
  predicate Grants(n: nat, limit: nat, maxSlots: nat) {
    n <= limit && (n == MIN_SIZE || n / 2 < maxSlots)
  }

  lemma {:induction false} NewSizeReaches(from: nat, size: nat, maxSlots: nat)
    requires from >= 1 && PowerOfTwo(from) && PowerOfTwo(size) && from <= size
    ensures NewSize(from, size, maxSlots) <= size
    ensures NewSize(from, size, maxSlots) == size <==> from == size || size / 2 < maxSlots
    decreases size - from
  {
    if from < size {
      PowersApart(from, size);
      PowerDoubled(from);
      if from < maxSlots {
        NewSizeReaches(2 * from, size, maxSlots);
      }
    }
  }

  /** Exactly when a table cannot grow, and what it grows to if it can. */
  lemma GrowsTo(length: nat, limit: nat, maxSlots: nat)
    requires length == 0 || (length >= MIN_SIZE && PowerOfTwo(length))
    ensures var n := NewSize(MIN_SIZE, 2 * length, maxSlots);
            if n < 2 * length || limit < n then !Grants(NextSize(length), limit, maxSlots)
            else n == NextSize(length) && Grants(n, limit, maxSlots)
  {
    if length > 0 {
      PowerDoubled(length);
      assert PowerOfTwo(MIN_SIZE) by {
        assert PowerOfTwo(1) && PowerOfTwo(2) && PowerOfTwo(4);
      }
      NewSizeReaches(MIN_SIZE, 2 * length, maxSlots);
      Halved(length);
    }
  }

  // ---------------------------------------------------------------------------

  /** The payload that a rehash leaves in slot 0: every slot whose key field is 0 is inserted
      again as key 0, and the last one wins. */
  ghost function {:induction false} ZeroPayload<V>(s: seq<Entry<V>>): V
    requires |s| > 0 && s[0].key == 0
  {
    var last := s[|s| - 1];
    if last.key == 0 then last.value else ZeroPayload(s[..|s| - 1])
  }

  /** What a table shows: its nonzero keys, whether it has key 0, the payload of slot 0, and its size. */
  datatype Look<V> = Look(contents: map<int, V>, hasZero: bool, first: V, length: nat)

  /** The map m, up to the key 0 that a rehash brings in. */
  ghost predicate Stands<V>(t: Look<V>, m: map<int, V>, zero: V) {
    && t.contents == Nonzero(m)
    && (0 in m ==> t.length > 0)
    && t.hasZero == (0 in m || t.length > MIN_SIZE)
    && (t.hasZero ==> t.first == if 0 in m then m[0] else zero)
    && (t.length > MIN_SIZE ==> |t.contents| >= MIN_SIZE && t.length <= 2 * |t.contents|)
    && (if t.length > 0 then |t.contents| < t.length else |t.contents| == 0)
  }

  /** Key 0 is found when it is in the map, and also as soon as there are too many other keys for the smallest size. */
  lemma StandsZero<V>(t: Look<V>, m: map<int, V>, zero: V)
    requires Stands(t, m, zero) && (t.length == 0 || t.length >= MIN_SIZE)
    ensures t.hasZero <==> 0 in m || |Nonzero(m)| >= MIN_SIZE
  {
  }

  /** What a successful `pb_settable` does. */
  ghost predicate IsSet<V>(before: Look<V>, after: Look<V>, key: int, zero: V) {
    && after.contents == (if key == 0 || key in before.contents then before.contents else before.contents[key := zero])
    && (before.length == 0 || !before.hasZero || after.first == before.first)
    && (!before.hasZero ==> after.first == zero)
    && after.hasZero == (before.hasZero || key == 0 || 0 < before.length < after.length)
    && (0 < before.length ==> MIN_SIZE <= before.length)
    && (after.length == before.length > 0 || after.length == NextSize(before.length))
    && (0 < before.length < after.length ==> |after.contents| >= before.length)
    && |after.contents| < after.length
  }

  /** When `pb_settable` may fail: the key is new, every slot but slot 0 has one already or there are no slots, and
      the table cannot grow. */
  ghost predicate Refused<V>(t: Look<V>, key: int, limit: nat, maxSlots: nat) {
    && (if key == 0 then !t.hasZero else key !in t.contents)
    && (t.length == 0 || (key != 0 && |t.contents| + 1 == t.length))
    && !Grants(NextSize(t.length), limit, maxSlots)
  }

  /** What the write of the payload does. */
  ghost predicate IsStored<V>(before: Look<V>, after: Look<V>, key: int, value: V) {
    && before.length > 0
    && after == if key == 0 then before.(first := value) else before.(contents := before.contents[key := value])
  }

  lemma InsertStands<V>(before: Look<V>, middle: Look<V>, after: Look<V>, m: map<int, V>, key: int, value: V, zero: V)
    requires Stands(before, m, zero) && IsSet(before, middle, key, zero) && IsStored(middle, after, key, value)
    ensures Stands(after, m[key := value], zero)
  {
    NonzeroStep(m, key, value);
    if key != 0 {
      SameContents(after.contents, Nonzero(m)[key := value]);
    }
    if key != 0 {
      assert middle.contents.Keys + {key} == after.contents.Keys;
      assert key in middle.contents.Keys;
      assert middle.contents.Keys == after.contents.Keys;
    }
    SubsetSize(before.contents.Keys, middle.contents.Keys);
  }

  class Table<V> {
    const hash: Hash
    const zero: V
    // PB_MAX_HASHSIZE in units of this table's entries
    const maxSlots: nat
    var slots: array<Entry<V>>
    var lastfree: nat
    var hasZero: bool
    ghost var height: seq<nat>
    ghost var at: map<int, nat>

    ghost predicate Valid()
      reads this, slots
    {
      && Indexed(slots[..], at)
      && if slots.Length == 0 then !hasZero else
           Chained() && Swept(lastfree) && (!hasZero ==> slots[0].value == zero)
    }

    ghost predicate Chained()
      reads this, slots
    {
      && slots.Length >= MIN_SIZE && PowerOfTwo(slots.Length)
      && 1 <= lastfree <= slots.Length
      && Linked(hash, slots[..], height)
    }

    /** No slot from `start` on is free. */
    ghost predicate Swept(start: nat)
      reads this, slots
    {
      forall i :: start <= i < slots.Length ==> slots[i].key != 0
    }

    /** The nonzero keys with their payloads. */
    ghost function Contents(): map<int, V>
      requires Valid()
      reads this, slots
    {
      ContentsOf(slots[..], at)
    }

    constructor (hash: Hash, zero: V, maxSlots: nat)
      ensures Valid() && fresh(slots)
      ensures this.hash == hash && this.zero == zero && this.maxSlots == maxSlots
      ensures slots.Length == 0 && Contents() == map[] && !hasZero
    {
      this.hash, this.zero, this.maxSlots := hash, zero, maxSlots;
      slots := new Entry<V>[0];
      lastfree, hasZero := 0, false;
      height, at := [], map[];
    }

    /** `pb_gettable`: the slot of a key, or -1. */
    method Get(key: int) returns (slot: int)
      requires Valid()
      ensures -1 <= slot < slots.Length
      ensures key == 0 ==> slot == if hasZero then 0 else -1
      ensures key != 0 ==> (slot >= 0 <==> key in Contents())
      ensures key != 0 && slot >= 0 ==> slots[slot].key == key && slots[slot].value == Contents()[key]
    {
      if slots.Length == 0 {
        return -1;
      }
      if key == 0 {
        return if hasZero then 0 else -1;
      }
      ghost var s := slots[..];
      slot := hash(slots.Length, key);
      assert key in at ==> Node(hash, s, height, at[key]);
      while slots[slot].key != key
        invariant 0 <= slot < slots.Length
        invariant key in at ==>
                    && slots[slot].key != 0
                    && MainOf(hash, s, slot) == hash(slots.Length, key)
                    && height[at[key]] <= height[slot]
        decreases height[slot]
      {
        assert slots[slot].key != 0 ==> Node(hash, s, height, slot);
        assert key in at ==> Occupied(s, at[key]) && Occupied(s, slot);
        if slots[slot].next == 0 {
          return -1;
        }
        slot := slot + slots[slot].next;
      }
    }

    /** `pbT_newkey`'s search for a free slot, downwards from the cursor. */
    method FindFree() returns (f: int)
      requires Valid() && slots.Length > 0
      modifies `lastfree
      ensures Chained()
      ensures f >= 0 ==> 0 < f < slots.Length && slots[f].key == 0 && lastfree == f && Swept(f + 1)
      ensures f < 0 ==> Swept(lastfree) && Full(slots[..])
    {
      while lastfree > 1
        invariant Chained() && Swept(lastfree)
      {
        lastfree := lastfree - 1;
        if slots[lastfree].key == 0 && slots[lastfree].next == 0 {
          return lastfree;
        }
      }
      f := -1;
    }

    /** The slot in the chain of the resident of `mp` whose link leads to `mp`. */
    method Predecessor(mp: nat) returns (on: nat)
      requires slots.Length > 0 && Chained()
      requires mp < slots.Length && slots[mp].key != 0 && MainOf(hash, slots[..], mp) != mp
      ensures Occupied(slots[..], on) && slots[on].next != 0 && on + slots[on].next == mp
    {
      ghost var s := slots[..];
      on := hash(slots.Length, slots[mp].key);
      assert Node(hash, s, height, mp);
      while on + slots[on].next != mp
        invariant Occupied(s, on) && on != mp
        invariant MainOf(hash, s, on) == MainOf(hash, s, mp) && height[mp] <= height[on]
        decreases height[on]
      {
        assert Node(hash, s, height, on);
        assert Occupied(s, mp);
        on := on + slots[on].next;
      }
    }

    /** The branch of `pbT_newkey` that moves the resident of `mp` to the free slot `f`. */
    method Displace(key: int, mp: nat, f: nat)
      requires slots.Length > 0 && Chained() && Indexed(slots[..], at)
      requires key != 0 && key !in at && mp == hash(slots.Length, key)
      requires slots[mp].key != 0 && MainOf(hash, slots[..], mp) != mp
      requires 0 < f < slots.Length && slots[f].key == 0
      modifies this, slots
      ensures slots == old(slots) && hasZero == old(hasZero) && lastfree == old(lastfree)
      ensures Chained() && Indexed(slots[..], at) && slots[mp].key == key && slots[0] == old(slots[0])
      ensures forall i :: 0 <= i < slots.Length && old(slots[i].key) != 0 ==> slots[i].key != 0
      ensures slots[f].key != 0
      ensures ContentsOf(slots[..], at) == old(ContentsOf(slots[..], at))[key := zero]
    {
      ghost var s := slots[..];
      var on := Predecessor(mp);
      slots[on] := slots[on].(next := f - on);
      slots[f] := slots[mp];
      if slots[mp].next != 0 {
        slots[f] := slots[f].(next := slots[f].next + (mp - f));
      }
      slots[mp] := Entry(0, key, zero);
      DisplacedLinked(hash, s, height, mp, on, f, key, zero);
      DisplacedContents(s, at, mp, on, f, key, zero);
      assert slots[..] == Displaced(s, mp, on, f, key, zero);
      height, at := height[f := height[mp]][mp := 0], at[s[mp].key := f][key := mp];
    }

    /** The branch of `pbT_newkey` that links the key in the free slot `f` behind its main slot. */
    method Append(key: int, mp: nat, f: nat)
      requires slots.Length > 0 && Chained() && Indexed(slots[..], at)
      requires key != 0 && key !in at && mp == hash(slots.Length, key)
      requires slots[mp].key != 0 && MainOf(hash, slots[..], mp) == mp
      requires 0 < f < slots.Length && slots[f].key == 0
      modifies this, slots
      ensures slots == old(slots) && hasZero == old(hasZero) && lastfree == old(lastfree)
      ensures Chained() && Indexed(slots[..], at) && slots[f].key == key && slots[0] == old(slots[0])
      ensures forall i :: 0 <= i < slots.Length && old(slots[i].key) != 0 ==> slots[i].key != 0
      ensures ContentsOf(slots[..], at) == old(ContentsOf(slots[..], at))[key := zero]
    {
      AppendedLinked(hash, slots[..], height, mp, f, key, zero);
      AppendedContents(slots[..], at, mp, f, key, zero);
      Link(key, mp, f);
      height, at := height[f := height[mp]][mp := height[mp] + 1], at[key := f];
    }

    /** The writes of that branch. */
    method Link(key: int, mp: nat, f: nat)
      requires mp < slots.Length && f < slots.Length && mp != f && slots[f].next == 0
      modifies slots
      ensures slots[..] == Appended(old(slots[..]), mp, f, key, zero)
    {
      if slots[mp].next != 0 {
        slots[f] := slots[f].(next := mp - f + slots[mp].next);
      }
      slots[mp] := slots[mp].(next := f - mp);
      slots[f] := Entry(slots[f].next, key, zero);
    }

    /** `pbT_newkey` for a nonzero key in an allocated table: the key takes its main slot if that
        is empty or if its resident belongs elsewhere and can be moved; otherwise it is linked
        behind the resident. -1 when there is a collision and no free slot. */
    method Place(key: int) returns (slot: int)
      requires Valid() && slots.Length > 0 && key != 0 && key !in Contents()
      modifies this, slots
      ensures Valid() && slots == old(slots) && hasZero == old(hasZero) && slots[0] == old(slots[0])
      ensures slot < 0 ==> slots[..] == old(slots[..]) && at == old(at) && Full(slots[..])
      ensures slot >= 0 ==>
                && slot < slots.Length && slots[slot].key == key
                && Contents() == old(Contents())[key := zero]
    {
      var mp := hash(slots.Length, key);
      if slots[mp].key == 0 {
        ghost var s := slots[..];
        slots[mp] := Entry(0, key, zero);
        PlacedLinked(hash, s, height, mp, key, zero);
        PlacedContents(s, at, mp, key, zero);
        assert slots[..] == s[mp := Entry(0, key, zero)];
        height, at := height[mp := 0], at[key := mp];
        return mp;
      }
      var f := FindFree();
      if f < 0 {
        return -1;
      }
      if hash(slots.Length, slots[mp].key) != mp {
        Displace(key, mp, f);
        slot := mp;
      } else {
        Append(key, mp, f);
        slot := f;
      }
    }

    /** Fewer keys than slots for them: `Place` then always succeeds. */
    ghost predicate Roomy()
      reads this, slots
    {
      |at| + 1 < slots.Length
    }

    /** The size limit or the allocator forbids a table for this request. */
    predicate CannotGrow(size: nat, limit: nat) {
      var n := NewSize(MIN_SIZE, size, maxSlots);
      n < size || limit < n
    }

    /** `pbT_newkey`. `limit` is the largest table the allocator grants at this moment. */
    method NewKey(key: int, limit: nat) returns (slot: int)
      requires Valid()
      requires key != 0 ==> key !in Contents()
      modifies this, slots
      ensures Valid() && (slots == old(slots) || fresh(slots))
      ensures slots.Length == old(slots.Length) || old(Full(slots[..]))
      ensures -1 <= slot < slots.Length
      ensures slot < 0 ==> Contents() == old(Contents())
      ensures slot < 0 ==> slots.Length == old(slots.Length) && CannotGrow(2 * slots.Length, limit)
      ensures slot < 0 ==> slots.Length == 0 || (key != 0 && Full(slots[..]))
      ensures slots.Length != old(slots.Length) ==> !CannotGrow(2 * old(slots.Length), limit)
      ensures slot >= 0 ==>
                && slots[slot].key == key
                && Contents() == if key == 0 then old(Contents()) else old(Contents())[key := zero]
      ensures hasZero == (old(hasZero) || (key == 0 && slot >= 0) || 0 < old(slots.Length) < slots.Length)
      ensures key == 0 && slot >= 0 ==> slot == 0 && slots[0].value == zero
      ensures key != 0 && old(slots.Length) > 0 ==> slots[0].value == old(slots[0].value)
      ensures slots.Length == old(slots.Length) ||
              slots.Length == NewSize(MIN_SIZE, 2 * old(slots.Length), maxSlots) >= 2 * old(slots.Length)
      ensures 0 < old(slots.Length) < slots.Length ==> |Contents()| >= old(slots.Length)
      ensures old(Roomy()) ==> slot >= 0 && slots == old(slots)
      decreases if Roomy() then 0 else 2
    {
      if slots.Length == 0 {
        EmptyIndexed(slots[..], at);
        var r := Resize(2 * slots.Length, limit);
        if r == 0 {
          return -1;
        }
      }
      if key == 0 {
        ghost var s := slots[..];
        slots[0] := Entry(slots[0].next, 0, zero);
        hasZero := true;
        Relabelled(hash, s, slots[..], height, at);
        SameContents(Contents(), ContentsOf(s, at));
        return 0;
      }
      slot := Place(key);
      if slot < 0 {
        FullCount(slots[..], at);
        KeysFit(slots[..], at);
        FullZeroPayload(slots[..]);
        var r := Resize(2 * slots.Length, limit);
        if r == 0 {
          return -1;
        }
        slot := NewKey(key, limit);
        ContentsSize(old(slots[..]), old(at));
      }
    }

    /** `pb_resizetable`: rehash into a new table of at least `size` slots. 0 when the size limit or
        the allocator forbids it. */
    method Resize(size: nat, limit: nat) returns (newsize: nat)
      requires Valid()
      requires |at| + 1 < size || |at| + 1 < MIN_SIZE
      modifies this
      ensures Valid()
      ensures newsize == 0 ==>
                slots == old(slots) && hasZero == old(hasZero) && CannotGrow(size, limit)
      ensures newsize > 0 ==>
                && fresh(slots) && slots.Length == newsize == NewSize(MIN_SIZE, size, maxSlots) &&
                   !CannotGrow(size, limit)
                && hasZero == (old(slots.Length) > 0)
                && (old(slots.Length) > 0 ==> slots[0].value == old(ZeroPayload(slots[..])))
      ensures |at| == old(|at|) && Contents() == old(Contents())
      decreases 1, 4
    {
      var n := ChooseSize(size);
      if n < size || limit < n {
        return 0;
      }
      var nt := Rehashed(n, limit);
      slots, lastfree, hasZero, height, at := nt.slots, nt.lastfree, nt.hasZero, nt.height, nt.at;
      newsize := n;
    }

    method ChooseSize(size: nat) returns (n: nat)
      ensures n == NewSize(MIN_SIZE, size, maxSlots)
    {
      n := MIN_SIZE;
      while n < maxSlots && n < size
        invariant n >= MIN_SIZE
        invariant NewSize(MIN_SIZE, size, maxSlots) == NewSize(n, size, maxSlots)
      {
        n := 2 * n;
      }
    }

    /** `pb_resizetable`'s copying loop: every slot is inserted again, empty ones as key 0. */
    method Rehashed(n: nat, limit: nat) returns (nt: Table<V>)
      requires Valid() && n >= MIN_SIZE && PowerOfTwo(n) && |at| + 1 < n
      ensures nt.Valid() && fresh(nt) && fresh(nt.slots)
      ensures nt.hash == hash && nt.zero == zero && nt.maxSlots == maxSlots
      ensures nt.slots.Length == n && |nt.at| == |at| && nt.Contents() == Contents()
      ensures nt.hasZero == (slots.Length > 0)
      ensures slots.Length > 0 ==> nt.slots[0].value == ZeroPayload(slots[..])
      decreases 1, 3
    {
      nt := new Table<V>.Sized(hash, zero, maxSlots, n);
      ReinsertInto(nt, limit);
      BelowAll(slots[..], at);
      SameSizes(slots[..], at, nt.slots[..], nt.at);
      assert slots[..slots.Length] == slots[..];
    }

    /** The loop itself, into a table of no pairs. */
    method ReinsertInto(nt: Table<V>, limit: nat)
      requires Valid() && nt.Valid() && nt != this && nt.slots != slots
      requires |at| + 1 < nt.slots.Length && nt.Took(slots[..], at, 0)
      modifies nt, nt.slots
      ensures nt.Valid() && nt.slots == old(nt.slots) && nt.Took(slots[..], at, slots.Length)
      decreases 1, 2
    {
      for i := 0 to slots.Length
        invariant nt.Valid() && nt.slots == old(nt.slots)
        invariant nt.Took(slots[..], at, i)
      {
        nt.ReinsertNext(slots[i], slots[..], at, i, limit);
      }
    }

    /** The slots before `n` of a table being copied are in this one. */
    ghost predicate Took(s: seq<Entry<V>>, from: map<int, nat>, n: nat)
      requires Valid() && Indexed(s, from) && n <= |s| && (|s| > 0 ==> s[0].key == 0)
      reads this, slots
    {
      && Contents() == Below(s, from, n)
      && hasZero == (n > 0)
      && (n > 0 ==> slots.Length > 0 && slots[0].value == ZeroPayload(s[..n]))
    }

    /** One round of `pb_resizetable`'s copying loop, for the slot `n` of the table copied. */
    method ReinsertNext(e: Entry<V>, ghost s: seq<Entry<V>>, ghost from: map<int, nat>, ghost n: nat, limit: nat)
      requires Valid() && Indexed(s, from) && |from| + 1 < slots.Length
      requires n < |s| && s[n] == e && s[0].key == 0 && Took(s, from, n)
      modifies this, slots
      ensures Valid() && slots == old(slots) && Took(s, from, n + 1)
      decreases 1, 1
    {
      BelowStep(s, from, n);
      BelowSize(s, from, n);
      Reinsert(e, limit);
      assert s[..n + 1][..n] == s[..n];
    }

    /** The slot is inserted again and its payload written. */
    method Reinsert(e: Entry<V>, limit: nat)
      requires Valid() && |Contents()| + 1 < slots.Length && e.key !in Contents()
      modifies this, slots
      ensures Valid() && slots == old(slots)
      ensures Contents() == if e.key == 0 then old(Contents()) else old(Contents())[e.key := e.value]
      ensures hasZero == (old(hasZero) || e.key == 0)
      ensures slots[0].value == if e.key == 0 then e.value else old(slots[0].value)
      decreases 1, 0
    {
      ContentsSize(slots[..], at);
      ghost var was := Contents();
      var slot := NewKey(e.key, limit);
      Store(slot, e.value);
      SameContents(Contents(), if e.key == 0 then was else was[e.key := e.value]);
    }

    /** A table with all its slots empty. */
    constructor Sized(hash: Hash, zero: V, maxSlots: nat, size: nat)
      requires size >= MIN_SIZE && PowerOfTwo(size)
      ensures Valid() && fresh(slots)
      ensures this.hash == hash && this.zero == zero && this.maxSlots == maxSlots
      ensures slots.Length == size && at == map[] && !hasZero
    {
      this.hash, this.zero, this.maxSlots := hash, zero, maxSlots;
      slots := new Entry<V>[size](_ => Entry(0, 0, zero));
      lastfree, hasZero := size, false;
      height, at := seq(size, _ => 0), map[];
    }

    /** `pb_settable`: the slot of a key, inserted with a zero payload if it is new; -1 if there is
        no memory for it. */
    method Set(key: int, limit: nat) returns (slot: int)
      requires Valid()
      modifies this, slots
      ensures Valid() && (slots == old(slots) || fresh(slots))
      ensures -1 <= slot < slots.Length
      ensures slot < 0 ==> slots.Length == old(slots.Length) && Refused(old(Shown()), key, limit, maxSlots)
      ensures slots.Length == old(slots.Length) ||
              (slots.Length == NextSize(old(slots.Length)) && Grants(slots.Length, limit, maxSlots))
      ensures slot >= 0 ==> slots[slot].key == key && (key == 0 ==> slot == 0 && hasZero)
      ensures Contents() == if slot < 0 || key == 0 || key in old(Contents()) then old(Contents())
                            else old(Contents())[key := zero]
      ensures old(slots.Length) == 0 || old(!hasZero) || slots[0].value == old(slots[0].value)
      ensures old(!hasZero) && slots.Length > 0 ==> slots[0].value == zero
      ensures hasZero == (old(hasZero) || (key == 0 && slot >= 0) || 0 < old(slots.Length) < slots.Length)
      ensures 0 < old(slots.Length) < slots.Length ==> |Contents()| >= old(slots.Length)
    {
      slot := Get(key);
      if slot < 0 {
        GrowsTo(slots.Length, limit, maxSlots);
        slot := NewKey(key, limit);
        if slot < 0 {
          AllInUse();
        }
      }
    }

    /** A full table has a nonzero key in every slot but slot 0. */
    lemma AllInUse()
      requires Valid() && Full(slots[..])
      ensures slots.Length > 0 ==> |Contents()| + 1 == slots.Length
    {
      ContentsSize(slots[..], at);
      if slots.Length > 0 {
        FullCount(slots[..], at);
        KeysFit(slots[..], at);
      }
    }

    /** The caller's write through the entry it was given. */
    method Store(slot: nat, value: V)
      requires Valid() && slot < slots.Length && (slots[slot].key == 0 ==> slot == 0 && hasZero)
      modifies slots
      ensures forall i :: 0 <= i < slots.Length && i != slot ==> slots[i] == old(slots[i])
      ensures Valid() && slots[slot].value == value
      ensures slots[slot].key != 0 ==> Contents() == old(Contents())[slots[slot].key := value]
      ensures slots[slot].key == 0 ==> Contents() == old(Contents())
    {
      ghost var s := slots[..];
      slots[slot] := slots[slot].(value := value);
      Relabelled(hash, s, slots[..], height, at);
      ghost var was := ContentsOf(s, at);
      assert Occupied(s, slot) || s[slot].key == 0;
      SameContents(Contents(), if s[slot].key == 0 then was else was[s[slot].key := value]);
    }

    ghost function Shown(): Look<V>
      requires Valid()
      reads this, slots
    {
      Look(Contents(), hasZero, if slots.Length > 0 then slots[0].value else zero, slots.Length)
    }

    /** The table stands for the map m, up to the key 0 that a rehash brings in. */
    ghost predicate Models(m: map<int, V>)
      requires Valid()
      reads this, slots
    {
      Stands(Shown(), m, zero)
    }

    /** An insertion as its callers make it: `pb_settable`, then a write of the payload. */
    method Insert(key: int, value: V, limit: nat, ghost m: map<int, V>) returns (ok: bool)
      requires Valid() && Models(m)
      modifies this, slots
      ensures Valid() && (slots == old(slots) || fresh(slots))
      ensures ok ==> Models(m[key := value])
      ensures !ok ==> Models(m) && Refused(Shown(), key, limit, maxSlots)
      ensures slots.Length == old(slots.Length) || Grants(slots.Length, limit, maxSlots)
    {
      ghost var before := Shown();
      ghost var middle;
      ok, middle := Put(key, value, limit);
      if ok {
        InsertStands(before, middle, Shown(), m, key, value, zero);
      }
    }

    /** The two calls of an insertion. */
    method Put(key: int, value: V, limit: nat) returns (ok: bool, ghost middle: Look<V>)
      requires Valid()
      modifies this, slots
      ensures Valid() && (slots == old(slots) || fresh(slots))
      ensures if ok then IsSet(old(Shown()), middle, key, zero) && IsStored(middle, Shown(), key, value)
              else Shown() == old(Shown()) && Refused(Shown(), key, limit, maxSlots)
      ensures slots.Length == old(slots.Length) || Grants(slots.Length, limit, maxSlots)
    {
      var slot := SetShown(key, limit);
      ok, middle := slot >= 0, Shown();
      if ok {
        StoreShown(slot, value);
      }
    }

    method SetShown(key: int, limit: nat) returns (slot: int)
      requires Valid()
      modifies this, slots
      ensures Valid() && (slots == old(slots) || fresh(slots))
      ensures -1 <= slot < slots.Length
      ensures slot < 0 ==> Shown() == old(Shown()) && Refused(Shown(), key, limit, maxSlots)
      ensures slots.Length == old(slots.Length) || Grants(slots.Length, limit, maxSlots)
      ensures slot >= 0 ==> slots[slot].key == key && (key == 0 ==> slot == 0 && hasZero)
      ensures slot >= 0 ==> IsSet(old(Shown()), Shown(), key, zero)
    {
      slot := Set(key, limit);
      Room();
    }

    method StoreShown(slot: nat, value: V)
      requires Valid() && slot < slots.Length && (slots[slot].key == 0 ==> slot == 0 && hasZero)
      modifies slots
      ensures Valid()
      ensures Shown() == if slots[slot].key == 0 then old(Shown()).(first := value)
                         else old(Shown()).(contents := old(Contents())[old(slots[slot].key) := value])
    {
      Store(slot, value);
      assert slot != 0 ==> slots[0] == old(slots[0]);
      assert slots[0].key == 0;
    }

    /** At least one slot has no nonzero key. */
    lemma Room()
      requires Valid()
      ensures if slots.Length > 0 then |Contents()| < slots.Length else |Contents()| == 0
    {
      ContentsSize(slots[..], at);
      if slots.Length > 0 {
        KeysFit(slots[..], at);
      } else {
        EmptyIndexed(slots[..], at);
      }
    }
  }

  lemma {:induction false} FullZeroPayload<V>(s: seq<Entry<V>>)
    requires |s| > 0 && s[0].key == 0 && Full(s)
    ensures ZeroPayload(s) == s[0].value
  {
    if |s| > 1 {
      FullZeroPayload(s[..|s| - 1]);
    }
  }

  // ---------------------------------------------------------------------------
  // Whole runs.

  /** The key-value pairs after a sequence of insertions, the last for a key winning. */
  function {:induction false} Applied<V>(ops: seq<(int, V)>): map<int, V> {
    if ops == [] then map[] else Applied(ops[..|ops| - 1])[ops[|ops| - 1].0 := ops[|ops| - 1].1]
  }

  /** The pairs of m whose key is not 0. */
  function Nonzero<V>(m: map<int, V>): map<int, V> {
    map k | k in m && k != 0 :: m[k]
  }

  /** A table of n slots has room for that many nonzero keys, and may be had. */
  predicate Enough(n: nat, keys: nat, limit: nat, maxSlots: nat) {
    n >= MIN_SIZE && PowerOfTwo(n) && keys < n && Grants(n, limit, maxSlots)
  }

  /** Some table that may be had has room for that many nonzero keys. */
  ghost predicate SomeEnough(keys: nat, limit: nat, maxSlots: nat) {
    exists n :: Enough(n, keys, limit, maxSlots)
  }

  lemma AppliedNext<V>(ops: seq<(int, V)>, n: nat)
    requires n < |ops|
    ensures Applied(ops[..n + 1]) == Applied(ops[..n])[ops[n].0 := ops[n].1]
  {
    assert ops[..n + 1][..n] == ops[..n];
  }

  /** Keys once inserted stay. */
  lemma {:induction false} AppliedGrows<V>(ops: seq<(int, V)>, i: nat, n: nat)
    requires i <= n <= |ops|
    ensures Nonzero(Applied(ops[..i])).Keys <= Nonzero(Applied(ops[..n])).Keys
  {
    if i < n {
      AppliedGrows(ops, i, n - 1);
      AppliedNext(ops, n - 1);
    }
  }

  /** A refused insertion needs more room than any table that may be had. */
  lemma TooMany<V>(t: Look<V>, ops: seq<(int, V)>, done: nat, limit: nat, maxSlots: nat, zero: V, n: nat)
    requires done < |ops| && Stands(t, Applied(ops[..done]), zero) && Refused(t, ops[done].0, limit, maxSlots)
    requires t.length == 0 || (t.length >= MIN_SIZE && PowerOfTwo(t.length))
    ensures !Enough(n, |Nonzero(Applied(ops))|, limit, maxSlots)
  {
    if t.length > 0 && PowerOfTwo(n) && |Nonzero(Applied(ops))| < n {
      AppliedNext(ops, done);
      NonzeroStep(Applied(ops[..done]), ops[done].0, ops[done].1);
      AppliedGrows(ops, done + 1, |ops|);
      assert ops[..|ops|] == ops;
      var next := Nonzero(Applied(ops[..done + 1])).Keys;
      assert next == t.contents.Keys + {ops[done].0};
      SubsetSize(next, Nonzero(Applied(ops)).Keys);
      PowersApart(t.length, n);
    }
  }

  /** The table that took all insertions is one that has room for them. */
  lemma TookAll<V>(t: Look<V>, ops: seq<(int, V)>, limit: nat, maxSlots: nat, zero: V)
    requires ops != [] && Stands(t, Applied(ops), zero)
    requires t.length == 0 || (t.length >= MIN_SIZE && PowerOfTwo(t.length) && Grants(t.length, limit, maxSlots))
    ensures Enough(t.length, |Nonzero(Applied(ops))|, limit, maxSlots)
  {
    var (k, v) := ops[|ops| - 1];
    assert k in Applied(ops);
    if k != 0 {
      assert k in t.contents.Keys;
    }
  }

  /** One insertion after another, up to the first that is refused. */
  method InsertEach<V>(t: Table<V>, ops: seq<(int, V)>, limit: nat) returns (done: nat)
    requires t.Valid() && t.slots.Length == 0 && t.Models(map[])
    modifies t, t.slots
    ensures t.Valid() && done <= |ops| && t.Models(Applied(ops[..done]))
    ensures done < |ops| ==> Refused(t.Shown(), ops[done].0, limit, t.maxSlots)
    ensures t.slots.Length == 0 || Grants(t.slots.Length, limit, t.maxSlots)
  {
    done := 0;
    while done < |ops|
      invariant done <= |ops|
      invariant t.Valid() && (t.slots == old(t.slots) || fresh(t.slots))
      invariant t.Models(Applied(ops[..done]))
      invariant t.slots.Length == 0 || Grants(t.slots.Length, limit, t.maxSlots)
    {
      var ok := t.Insert(ops[done].0, ops[done].1, limit, Applied(ops[..done]));
      if !ok {
        break;
      }
      AppliedNext(ops, done);
      done := done + 1;
    }
  }

  /** Any sequence of insertions into an empty table, up to the first that is refused. None is refused
      exactly when some table that may be had has room for all the nonzero keys. Nonzero keys are
      exactly the inserted ones, with their last payloads. Key 0 is found when it was inserted, and
      also, without having been inserted, as soon as a rehash has taken place, which is when the table
      holds at least as many other keys as the smallest size. */
  method InsertAll<V>(hash: Hash, zero: V, maxSlots: nat, ops: seq<(int, V)>, limit: nat)
    returns (t: Table<V>, done: nat)
    ensures t.Valid() && fresh(t) && t.hash == hash && t.zero == zero && t.maxSlots == maxSlots
    ensures done <= |ops| && t.Models(Applied(ops[..done]))
    ensures done == |ops| <==> ops == [] || SomeEnough(|Nonzero(Applied(ops))|, limit, maxSlots)
    ensures done < |ops| ==> Refused(t.Shown(), ops[done].0, limit, maxSlots)
    ensures t.Contents() == Nonzero(Applied(ops[..done]))
    ensures t.slots.Length <= MIN_SIZE || t.slots.Length <= 2 * |t.Contents()|
    ensures t.hasZero <==> 0 in Applied(ops[..done]) || |Nonzero(Applied(ops[..done]))| >= MIN_SIZE
    ensures t.hasZero ==> t.slots[0].value == if 0 in Applied(ops[..done]) then Applied(ops[..done])[0] else zero
  {
    t := new Table<V>(hash, zero, maxSlots);
    t.Room();
    done := InsertEach(t, ops, limit);
    ghost var look := t.Shown();
    StandsZero(look, Applied(ops[..done]), zero);
    ghost var keys := |Nonzero(Applied(ops))|;
    if done < |ops| {
      forall n: nat ensures !Enough(n, keys, limit, maxSlots) {
        TooMany(look, ops, done, limit, maxSlots, zero, n);
      }
      assert !SomeEnough(keys, limit, maxSlots);
    } else if ops != [] {
      assert ops[..done] == ops;
      TookAll(look, ops, limit, maxSlots, zero);
      assert SomeEnough(keys, limit, maxSlots);
    }
  }

  /** The insertions of the keys 1 to n. */
  function FirstKeys<V>(n: nat, value: V): seq<(int, V)> {
    if n == 0 then [] else FirstKeys(n - 1, value) + [(n, value)]
  }

  lemma {:induction false} FirstKeysApplied<V>(n: nat, value: V)
    ensures |FirstKeys(n, value)| == n && (forall k :: k in Applied(FirstKeys(n, value)) <==> 1 <= k <= n)
  {
    if n > 0 {
      FirstKeysApplied(n - 1, value);
      FirstKeysNext(n, value);
    }
  }

  lemma FirstKeysNext<V>(n: nat, value: V)
    requires n > 0
    ensures Applied(FirstKeys(n, value)) == Applied(FirstKeys(n - 1, value))[n := value]
  {
    var ops, next := FirstKeys(n - 1, value), FirstKeys(n, value);
    assert next[..|next| - 1] == ops && next[|next| - 1] == (n, value);
  }

  lemma {:induction false} FirstKeysCounted<V>(n: nat, value: V)
    ensures |Nonzero(Applied(FirstKeys(n, value)))| == n
  {
    if n > 0 {
      FirstKeysCounted(n - 1, value);
      FirstKeysApplied(n - 1, value);
      FirstKeysNext(n, value);
      NonzeroStep(Applied(FirstKeys(n - 1, value)), n, value);
      OneMore(Nonzero(Applied(FirstKeys(n - 1, value))), n, value);
    }
  }

  /** After the keys 1 to 8 have been inserted into a new table, and no other, key 0 is found. */
  method KeyZeroAppears<V>(hash: Hash, zero: V, value: V) returns (t: Table<V>, slot: int)
    ensures t.Valid() && t.hash == hash && t.zero == zero && fresh(t)
    ensures t.Models(Applied(FirstKeys(8, value))) && (forall k :: k in t.Contents() <==> 1 <= k <= 8)
    ensures t.hasZero && slot == if t.hasZero then 0 else -1
  {
    var ops := FirstKeys(8, value);
    FirstKeysApplied(8, value);
    FirstKeysCounted(8, value);
    assert Enough(16, 8, 16, 16) by {
      assert PowerOfTwo(1) && PowerOfTwo(2) && PowerOfTwo(4) && PowerOfTwo(8);
    }
    var done;
    t, done := InsertAll(hash, zero, 16, ops, 16);
    assert ops[..done] == ops;
    slot := t.Get(0);
  }

  lemma OneMore<V>(m: map<int, V>, k: int, v: V)
    requires k !in m
    ensures |m[k := v]| == |m| + 1
  {
    assert m[k := v].Keys == m.Keys + {k};
  }

  lemma NonzeroStep<V>(m: map<int, V>, k: int, v: V)
    ensures Nonzero(m[k := v]) == if k == 0 then Nonzero(m) else Nonzero(m)[k := v]
  {
    SameContents(Nonzero(m[k := v]), if k == 0 then Nonzero(m) else Nonzero(m)[k := v]);
  }
}
