/** Sets kept in order, as `std::set` and `std::map` keep them: an element equivalent to one present is not added. */
module OrderedSets {

  /** A strict weak order. */
  ghost predicate Order<T(!new)>(less: (T, T) -> bool) {
    && (forall a :: !less(a, a))
    && (forall a, b, c :: less(a, b) && less(b, c) ==> less(a, c))
    && (forall a, b, c :: less(a, c) ==> less(a, b) || less(b, c))
  }

  predicate Same<T>(less: (T, T) -> bool, a: T, b: T) {
    !less(a, b) && !less(b, a)
  }

  predicate Increasing<T>(less: (T, T) -> bool, s: seq<T>) {
    forall i, j :: 0 <= i < j < |s| ==> less(s[i], s[j])
  }

  function Insert<T>(less: (T, T) -> bool, s: seq<T>, x: T): seq<T>
    decreases |s|
  {
    if s == [] || less(x, s[0]) then [x] + s
    else if less(s[0], x) then [s[0]] + Insert(less, s[1..], x)
    else s
  }

  ghost predicate Has<T(!new)>(less: (T, T) -> bool, s: seq<T>, x: T) {
    exists i :: 0 <= i < |s| && Same(less, s[i], x)
  }

  lemma {:induction false} InsertMembers<T(!new)>(less: (T, T) -> bool, s: seq<T>, x: T)
    ensures forall y :: y in s ==> y in Insert(less, s, x)
    ensures forall y :: y in Insert(less, s, x) ==> y == x || y in s
    decreases |s|
  {
    if s != [] {
      assert s == [s[0]] + s[1..];
      InsertMembers(less, s[1..], x);
    }
  }

  lemma {:induction false} InsertIncreasing<T(!new)>(less: (T, T) -> bool, s: seq<T>, x: T)
    requires Order(less) && Increasing(less, s)
    ensures Increasing(less, Insert(less, s, x))
    decreases |s|
  {
    if s != [] && !less(x, s[0]) && less(s[0], x) {
      var tail := Insert(less, s[1..], x);
      InsertIncreasing(less, s[1..], x);
      InsertMembers(less, s[1..], x);
      forall j | 0 <= j < |tail| ensures less(s[0], tail[j]) {
        assert tail[j] in tail;
        if tail[j] != x {
          var k :| 0 <= k < |s[1..]| && s[1..][k] == tail[j];
          assert s[k + 1] == tail[j];
        }
      }
    }
  }

  lemma HasMore<T(!new)>(less: (T, T) -> bool, s: seq<T>, x: T)
    requires s != []
    ensures Has(less, s, x) <==> Same(less, s[0], x) || Has(less, s[1..], x)
  {
    if Has(less, s[1..], x) {
      var i :| 0 <= i < |s[1..]| && Same(less, s[1..][i], x);
      assert Same(less, s[i + 1], x);
    }
    if Has(less, s, x) && !Same(less, s[0], x) {
      var i :| 0 <= i < |s| && Same(less, s[i], x);
      assert Same(less, s[1..][i - 1], x);
    }
  }

  /** An element is equivalent to one of the new set exactly when it is to the inserted one or to one before. */
  lemma {:induction false} InsertHas<T(!new)>(less: (T, T) -> bool, s: seq<T>, x: T, y: T)
    requires Order(less) && Increasing(less, s)
    ensures Has(less, Insert(less, s, x), y) <==> Same(less, x, y) || Has(less, s, y)
    decreases |s|
  {
    var r := Insert(less, s, x);
    HasMore(less, r, y);
    if s == [] || less(x, s[0]) {
      assert r[1..] == s;
    } else {
      HasMore(less, s, y);
      if less(s[0], x) {
        assert r[1..] == Insert(less, s[1..], x);
        InsertHas(less, s[1..], x, y);
      }
    }
  }

  /** The place `find` gives, by its distance from the beginning. */
  function Place<T>(less: (T, T) -> bool, s: seq<T>, x: T): (i: nat)
    ensures i <= |s| && (i < |s| ==> Same(less, s[i], x))
    ensures forall j :: 0 <= j < i ==> !Same(less, s[j], x)
  {
    if s == [] || Same(less, s[0], x) then 0 else 1 + Place(less, s[1..], x)
  }

  /** Two elements are found at the same place exactly when they are equivalent. */
  lemma SamePlace<T(!new)>(less: (T, T) -> bool, s: seq<T>, x: T, y: T)
    requires Order(less) && Increasing(less, s) && Has(less, s, x) && Has(less, s, y)
    ensures Place(less, s, x) < |s| && (Place(less, s, x) == Place(less, s, y) <==> Same(less, x, y))
  {
    var i, j := Place(less, s, x), Place(less, s, y);
    assert i < |s| && j < |s|;
    assert i < j ==> less(s[i], s[j]);
    assert j < i ==> less(s[j], s[i]);
  }

  lemma SameFirst<T(!new)>(less: (T, T) -> bool, a: seq<T>, b: seq<T>)
    requires Order(less) && Increasing(less, a) && Increasing(less, b) && (forall x :: x in a <==> x in b) &&
             a != [] && b != []
    ensures a[0] == b[0]
  {
    assert a[0] in b && b[0] in a;
    var k :| 0 <= k < |b| && b[k] == a[0];
    var j :| 0 <= j < |a| && a[j] == b[0];
  }

  lemma NoMembers<T(!new)>(s: seq<T>)
    ensures s == [] || exists x :: x in s
  {
    if s != [] {
      assert s[0] in s;
    }
  }

  /** A set has one order. */
  lemma {:induction false} OneOrder<T(!new)>(less: (T, T) -> bool, a: seq<T>, b: seq<T>)
    requires Order(less) && Increasing(less, a) && Increasing(less, b) && forall x :: x in a <==> x in b
    ensures a == b
    decreases |a|
  {
    if a == [] {
      NoMembers(b);
    } else {
      assert a[0] in b;
      SameFirst(less, a, b);
      var s, t := a[1..], b[1..];
      assert a == [a[0]] + s && b == [b[0]] + t;
      assert forall i :: 0 <= i < |s| ==> less(a[0], s[i]);
      assert forall i :: 0 <= i < |t| ==> less(b[0], t[i]);
      assert a[0] !in s && b[0] !in t;
      forall x ensures x in s <==> x in t {
        assert x in a <==> x == a[0] || x in s;
        assert x in b <==> x == b[0] || x in t;
      }
      OneOrder(less, s, t);
    }
  }

  // ---------------------------------------------------------------------------
  // Sequences in the order of their elements, from the last to the first.

  predicate BackLess<T>(less: (T, T) -> bool, a: seq<T>, b: seq<T>, n: nat)
    requires n <= |a| && n <= |b|
  {
    n > 0 && (less(a[n - 1], b[n - 1]) || (!less(b[n - 1], a[n - 1]) && BackLess(less, a, b, n - 1)))
  }

  lemma {:induction false} BackIrreflexive<T(!new)>(less: (T, T) -> bool, a: seq<T>, n: nat)
    requires Order(less) && n <= |a|
    ensures !BackLess(less, a, a, n)
  {
    if n > 0 {
      BackIrreflexive(less, a, n - 1);
    }
  }

  lemma {:induction false} BackTransitive<T(!new)>(less: (T, T) -> bool, a: seq<T>, b: seq<T>, c: seq<T>, n: nat)
    requires Order(less) && n <= |a| && n <= |b| && n <= |c| && BackLess(less, a, b, n) && BackLess(less, b, c, n)
    ensures BackLess(less, a, c, n)
  {
    var x, y, z := a[n - 1], b[n - 1], c[n - 1];
    if !less(x, y) && !less(y, z) {
      BackTransitive(less, a, b, c, n - 1);
      assert less(z, x) ==> less(z, y) || less(y, x);
    }
  }

  lemma {:induction false} BackBetween<T(!new)>(less: (T, T) -> bool, a: seq<T>, b: seq<T>, c: seq<T>, n: nat)
    requires Order(less) && n <= |a| && n <= |b| && n <= |c| && BackLess(less, a, c, n)
    ensures BackLess(less, a, b, n) || BackLess(less, b, c, n)
  {
    var x, y, z := a[n - 1], b[n - 1], c[n - 1];
    if less(x, z) {
      assert less(x, y) || less(y, z);
    } else {
      BackBetween(less, a, b, c, n - 1);
      assert less(y, x) ==> less(y, z) || less(z, x);
      assert less(z, y) ==> less(z, x) || less(x, y);
    }
  }

  lemma {:induction false} BackSame<T(!new)>(less: (T, T) -> bool, a: seq<T>, b: seq<T>, n: nat)
    requires n <= |a| && n <= |b|
    ensures !BackLess(less, a, b, n) && !BackLess(less, b, a, n) <==> forall i :: 0 <= i < n ==> Same(less, a[i], b[i])
  {
    if n > 0 {
      BackSame(less, a, b, n - 1);
    }
  }
}
