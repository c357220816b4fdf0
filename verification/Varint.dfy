/**
 * Base-128 varints: the bounds-checked loop, the unrolled readers for 32 and 64 bits, and the
 * writers.
 */
module Varint {
  import opened Bytes

  type uint32 = x: int | 0 <= x < WORD32

  // ---------------------------------------------------------------------------
  // The arithmetic definition.

  /** The index of the first byte from i on without the continuation bit, or the length. */
  function Terminator(s: seq<byte>, i: nat): (t: nat)
    requires i <= |s|
    ensures i <= t <= |s|
    ensures forall j :: i <= j < t ==> s[j] >= 128
    ensures t < |s| ==> s[t] < 128
    decreases |s| - i
  {
    if i == |s| || s[i] < 128 then i else Terminator(s, i + 1)
  }

  /** Seven bits from each of the first k bytes, the least significant first. */
  function Value(s: seq<byte>, k: nat): nat
    requires k <= |s|
  {
    if k == 0 then 0 else Value(s, k - 1) + Low(s[k - 1]) * Pow128(k - 1)
  }

  function Low(b: byte): nat {
    b % 128
  }

  function Pow128(n: nat): (p: nat)
    ensures p >= 1
  {
    if n == 0 then 1 else 128 * Pow128(n - 1)
  }

  datatype Reading = Reading(value: nat, length: nat)

  /** A varint is at most ten bytes long. */
  function Read(s: seq<byte>): Option<Reading> {
    var t := Terminator(s, 0);
    if t < |s| && t < 10 then Some(Reading(Value(s, t + 1), t + 1)) else None
  }

  function Encode(n: nat): (s: seq<byte>)
    ensures |s| >= 1
  {
    if n < 128 then [n] else [n % 128 + 128] + Encode(n / 128)
  }

  lemma {:induction false} TerminatorUnique(s: seq<byte>, i: nat, t: nat)
    requires i <= t < |s| && s[t] < 128 && forall j :: i <= j < t ==> s[j] >= 128
    ensures Terminator(s, i) == t
    decreases t - i
  {
    if i < t {
      TerminatorUnique(s, i + 1, t);
    }
  }

  /** The value depends on the first k bytes only. */
  lemma {:induction false} ValueAgrees(s: seq<byte>, u: seq<byte>, k: nat)
    requires k <= |s| && k <= |u| && forall i :: 0 <= i < k ==> s[i] == u[i]
    ensures Value(s, k) == Value(u, k)
  {
    if k > 0 {
      ValueAgrees(s, u, k - 1);
    }
  }

  lemma {:induction false} ValueBound(s: seq<byte>, k: nat)
    requires k <= |s|
    ensures Value(s, k) < Pow128(k)
  {
    if k > 0 {
      ValueBound(s, k - 1);
      Scale(Low(s[k - 1]), 127, Pow128(k - 1));
    }
  }

  lemma Scale(a: nat, b: nat, c: nat)
    requires a <= b
    ensures a * c <= b * c
  {
  }

  lemma Associate(a: nat, b: nat, c: nat)
    ensures a * (b * c) == (a * b) * c
  {
  }

  lemma Distribute(a: nat, b: nat, c: nat)
    ensures a * (b + c) == a * b + a * c
  {
  }

  lemma {:induction false} PowAdd(a: nat, b: nat)
    ensures Pow128(a + b) == Pow128(a) * Pow128(b)
    decreases a
  {
    if a > 0 {
      PowAdd(a - 1, b);
      Associate(128, Pow128(a - 1), Pow128(b));
    }
  }

  /** The bytes after the first a weigh 128^a times more. */
  lemma {:induction false} ValueSplit(s: seq<byte>, a: nat, k: nat)
    requires a + k <= |s|
    ensures Value(s, a + k) == Value(s, a) + Pow128(a) * Value(s[a..], k)
    decreases k
  {
    if k > 0 {
      ValueSplit(s, a, k - 1);
      PowAdd(a, k - 1);
      var d, p, q, v := Low(s[a + k - 1]), Pow128(a), Pow128(k - 1), Value(s[a..], k - 1);
      Distribute(p, v, d * q);
      Regroup(d, p, q);
    }
  }

  lemma Regroup(d: nat, p: nat, q: nat)
    ensures d * (p * q) == p * (d * q)
  {
  }

  // ---------------------------------------------------------------------------
  // Reading back what was written.

  lemma ValueCons(s: seq<byte>)
    requires |s| >= 1
    ensures Value(s, |s|) == Low(s[0]) + 128 * Value(s[1..], |s| - 1)
  {
    ValueSplit(s, 1, |s| - 1);
    assert Value(s, 1) == Value(s, 0) + Low(s[0]) * Pow128(0);
    assert Pow128(1) == 128 * Pow128(0);
  }

  lemma LowOfContinued(n: nat)
    ensures Low(n % 128 + 128) == n % 128
  {
  }

  lemma {:induction false} EncodeShape(n: nat, k: nat)
    requires k >= 1 && n < Pow128(k)
    ensures |Encode(n)| <= k
    ensures Value(Encode(n), |Encode(n)|) == n
    ensures var s := Encode(n); s[|s| - 1] < 128 && forall i :: 0 <= i < |s| - 1 ==> s[i] >= 128
    decreases k
  {
    if n >= 128 {
      EncodeShape(n / 128, k - 1);
      ValueCons(Encode(n));
      LowOfContinued(n);
      assert Encode(n)[1..] == Encode(n / 128);
    }
  }

  /** Written values below 2^64 are read back, with their exact length, whatever follows them. */
  lemma ReadEncoded(n: nat, rest: seq<byte>)
    requires n < WORD64
    ensures Read(Encode(n) + rest) == Some(Reading(n, |Encode(n)|))
    ensures |Encode(n)| <= 10 && (n < WORD32 ==> |Encode(n)| <= 5)
  {
    PowTable();
    EncodeShape(n, 10);
    if n < WORD32 {
      EncodeShape(n, 5);
    }
    var s := Encode(n) + rest;
    TerminatorUnique(s, 0, |Encode(n)| - 1);
    ValueAgrees(s, Encode(n), |Encode(n)|);
  }

  lemma PowTable()
    ensures Pow128(1) == 0x80 && Pow128(2) == 0x4000 && Pow128(3) == 0x20_0000
    ensures Pow128(4) == 0x1000_0000 && Pow128(5) == 0x8_0000_0000
    ensures Pow128(8) == 0x100_0000_0000_0000 && Pow128(9) == 0x8000_0000_0000_0000
    ensures Pow128(10) == 0x40_0000_0000_0000_0000
  {
    assert Pow128(5) == 0x8_0000_0000;
    PowAdd(4, 4);
    PowAdd(4, 5);
    PowAdd(5, 5);
  }

  // ---------------------------------------------------------------------------
  // The readers.

  /** A cursor over bytes; nothing at or after the end of `data` may be read. */
  class Slice {
    const data: seq<byte>
    var p: nat

    ghost predicate Valid()
      reads this
    {
      p <= |data|
    }

    ghost function Rest(): seq<byte>
      requires Valid()
      reads this
    {
      data[p..]
    }

    constructor (data: seq<byte>)
      ensures this.data == data && p == 0 && Valid()
    {
      this.data, p := data, 0;
    }
  }

  lemma {:induction false} PowMonotone(a: nat, b: nat)
    requires a <= b
    ensures Pow128(a) <= Pow128(b)
  {
    if a < b {
      PowMonotone(a, b - 1);
    }
  }

  /** Nine bytes fit in 63 bits, so adding the next seven bits sets bits that were clear; the tenth
      byte contributes only its lowest bit. */
  lemma SlowStep(s: seq<byte>, i: nat)
    requires i < 10 && i < |s|
    ensures i < 9 ==> Value(s, i) + (Low(s[i]) * Pow128(i)) % WORD64 == Value(s, i + 1) < WORD64
    ensures i == 9 ==> Value(s, i) + (Low(s[i]) * Pow128(i)) % WORD64 == Value(s, i + 1) % WORD64
  {
    PowTable();
    if i < 9 {
      ValueBound(s, i + 1);
      PowMonotone(i + 1, 9);
      SmallRemainder(Low(s[i]) * Pow128(i), WORD64);
    } else {
      ValueBound(s, 9);
      TopBit(Low(s[9]), Value(s, 9));
    }
  }

  lemma SmallRemainder(a: nat, m: nat)
    requires a < m
    ensures a % m == a
  {
  }

  lemma TopBit(d: nat, v: nat)
    requires v < 0x8000_0000_0000_0000
    ensures v + (d * 0x8000_0000_0000_0000) % WORD64 == (v + d * 0x8000_0000_0000_0000) % WORD64
  {
    var h, e := d / 2, d % 2;
    var x := d * 0x8000_0000_0000_0000;
    assert x == h * WORD64 + e * 0x8000_0000_0000_0000;
    Remainder64(x, h, e * 0x8000_0000_0000_0000);
    Remainder64(v + x, h, v + e * 0x8000_0000_0000_0000);
  }

  lemma Remainder64(x: int, k: int, b: nat)
    requires x == k * WORD64 + b && b < WORD64
    ensures x % WORD64 == b
  {
  }

  lemma Finished(s: seq<byte>, k: nat)
    requires 1 <= k <= 10 && k <= |s|
    requires s[k - 1] < 128 && forall i :: 0 <= i < k - 1 ==> s[i] >= 128
    ensures Read(s) == Some(Reading(Value(s, k), k))
  {
    TerminatorUnique(s, 0, k - 1);
  }

  /** `pb_readvarint_slow` */
  method ReadSlow(s: Slice) returns (ret: nat, pv: nat)
    requires s.Valid()
    modifies s
    ensures s.Valid()
    ensures Read(old(s.Rest())) == None ==> ret == 0 && s.p == old(s.p)
    ensures Read(old(s.Rest())).Some? ==>
              var r := Read(old(s.Rest())).value;
              ret == r.length && s.p == old(s.p) + ret && pv == r.value % WORD64
  {
    ghost var r := s.Rest();
    var p := s.p;
    var n, i := 0, 0;
    pv := 0;
    while s.p < |s.data| && i < 10
      invariant s.Valid() && i <= 10 && s.p == p + i
      invariant i < 10 ==> n == Value(r, i)
      invariant forall j :: 0 <= j < i ==> r[j] >= 128
    {
      var b := s.data[s.p];
      s.p := s.p + 1;
      SlowStep(r, i);
      n := n + (Low(b) * Pow128(i)) % WORD64;
      i := i + 1;
      if b < 128 {
        Finished(r, i);
        return i, n;
      }
    }
    s.p := p;
    ret := 0;
  }

  function Wrap32(n: int): (r: nat)
    ensures r < WORD32
  {
    n % WORD32
  }

  /** What the unrolled readers rely on instead of bounds checks: enough bytes for any varint, or a
      final byte that ends one. */
  ghost predicate Guarded(s: seq<byte>) {
    |s| > 0 && (|s| >= 10 || s[|s| - 1] < 128)
  }

  /** The first k bytes all have the continuation bit. */
  ghost predicate Running(s: seq<byte>, k: nat) {
    k <= |s| && forall i :: 0 <= i < k ==> s[i] >= 128
  }

  /** No byte beyond the end is touched: a further byte exists, unless ten have been read. */
  lemma Continue(s: seq<byte>, k: nat)
    requires Guarded(s) && 1 <= k <= 10 && Running(s, k - 1) && k <= |s| && s[k - 1] >= 128
    ensures Running(s, k)
    ensures k < 10 ==> k < |s|
    ensures k == 10 ==> Read(s) == None
  {
  }

  lemma ContinueGroup(s: seq<byte>, a: nat, k: nat)
    requires Running(s, a) && 1 <= k && Running(s[a..], k - 1)
    ensures Running(s, a + k - 1)
  {
    assert forall i :: a <= i < a + k - 1 ==> s[i] == s[a..][i - a];
  }

  ghost predicate ReadsAs(s: seq<byte>, k: nat, n: nat, modulus: nat)
    requires modulus > 0
  {
    k <= |s| && Read(s) == Some(Reading(Value(s, k), k)) && n == Value(s, k) % modulus
  }

  lemma Finish(s: seq<byte>, k: nat, n: nat, modulus: nat)
    requires modulus > 0
    requires 1 <= k <= 10 && k <= |s|
    requires s[k - 1] < 128 && Running(s, k - 1)
    requires n == Value(s, k) % modulus
    ensures ReadsAs(s, k, n, modulus)
  {
    Finished(s, k);
  }

  /** The value of the first k bytes, at most four, written out. */
  function Digits(s: seq<byte>, k: nat): nat
    requires k <= 4 && k <= |s|
  {
    (if k > 0 then Low(s[0]) else 0)
    + (if k > 1 then Low(s[1]) * 0x80 else 0)
    + (if k > 2 then Low(s[2]) * 0x4000 else 0)
    + (if k > 3 then Low(s[3]) * 0x20_0000 else 0)
  }

  lemma DigitsValue(s: seq<byte>, k: nat)
    requires k <= 4 && k <= |s|
    ensures Digits(s, k) == Value(s, k) < 0x1000_0000
  {
    PowTable();
    if k > 1 {
      assert Value(s, 1) == Low(s[0]);
      assert Value(s, 2) == Value(s, 1) + Low(s[1]) * 0x80;
    }
    if k > 2 {
      assert Value(s, 3) == Value(s, 2) + Low(s[2]) * 0x4000;
    }
  }

  lemma Fifth(s: seq<byte>, n: nat)
    requires 4 < |s| && n == Digits(s, 4)
    ensures Wrap32(n + s[4] as nat * 0x1000_0000) == Value(s, 5) % WORD32
  {
    DigitsValue(s, 4);
    PowTable();
    var b: nat := s[4];
    WrapHigh(n, b, Low(s[4]));
  }

  lemma WrapHigh(n: nat, b: nat, low: nat)
    requires b < 256 && low == b % 128
    ensures Wrap32(n + b * 0x1000_0000) == (n + low * 0x1000_0000) % WORD32
  {
    var h := b / 128;
    assert n + b * 0x1000_0000 == n + low * 0x1000_0000 + h * 8 * WORD32;
  }

  lemma HighIgnored(s: seq<byte>, k: nat)
    requires 5 <= k < 10 && k < |s|
    ensures Value(s, k + 1) % WORD32 == Value(s, k) % WORD32
  {
    PowTable();
    PowAdd(5, k - 5);
    var v, d, c := Value(s, k), Low(s[k]), Pow128(k - 5);
    Regroup(d, 8 * WORD32, c);
    Remainder32(v + 8 * WORD32 * (d * c), v / WORD32 + 8 * (d * c), v % WORD32);
  }

  lemma Remainder32(x: int, k: int, b: nat)
    requires x == k * WORD32 + b && b < WORD32
    ensures x % WORD32 == b
  {
  }

  lemma LowIs()
    ensures forall b: byte :: Low(b) == if b < 128 then b else b - 128
  {
  }

  /** The four lines that fill one accumulator, as both unrolled readers repeat them: a byte is added
      whole, and its continuation bit taken off again before the next. None of these operations wraps. */
  method Quad(r: seq<byte>) returns (n: uint32, k: nat, done: bool)
    requires |r| > 0 && (|r| >= 4 || r[|r| - 1] < 128)
    ensures 1 <= k <= 4 && k <= |r| && n == Digits(r, k)
    ensures done ==> Running(r, k - 1) && r[k - 1] < 128
    ensures !done ==> k == 4 && Running(r, 4)
  {
    LowIs();
    var b: nat;
    b := r[0]; n := b;
    if b < 128 { return n, 1, true; }
    n := n - 0x80;
    assert n == Digits(r, 1) < 0x80;
    b := r[1]; n := n + b * 0x80;
    if b < 128 { return n, 2, true; }
    n := n - 0x4000;
    assert n == Digits(r, 2) < 0x4000;
    b := r[2]; n := n + b * 0x4000;
    if b < 128 { return n, 3, true; }
    n := n - 0x200000;
    assert n == Digits(r, 3) < 0x200000;
    b := r[3]; n := n + b * 0x200000;
    if b < 128 { return n, 4, true; }
    n := n - 0x10000000;
    assert n == Digits(r, 4);
    return n, 4, false;
  }

  /** `pb_readvarint32_fallback`, from the cursor on: bits beyond the fifth byte's are dropped. */
  method Unrolled32(r: seq<byte>) returns (ret: nat, pv: nat)
    requires Guarded(r) && r[0] >= 128
    ensures Read(r) == None ==> ret == 0
    ensures Read(r).Some? ==> ret == Read(r).value.length && pv == Read(r).value.value % WORD32
  {
    var n, k, done := Quad(r);
    DigitsValue(r, k);
    if done {
      Finish(r, k, n, WORD32);
      return k, n;
    }
    Continue(r, 4);
    Fifth(r, n);
    var b: nat := r[4];
    n := Wrap32(n + b * 0x1000_0000);
    if b < 128 { Finish(r, 5, n, WORD32); return 5, n; }
    Continue(r, 5); HighIgnored(r, 5);
    if r[5] < 128 { Finish(r, 6, n, WORD32); return 6, n; }
    Continue(r, 6); HighIgnored(r, 6);
    if r[6] < 128 { Finish(r, 7, n, WORD32); return 7, n; }
    Continue(r, 7); HighIgnored(r, 7);
    if r[7] < 128 { Finish(r, 8, n, WORD32); return 8, n; }
    Continue(r, 8); HighIgnored(r, 8);
    if r[8] < 128 { Finish(r, 9, n, WORD32); return 9, n; }
    Continue(r, 9); HighIgnored(r, 9);
    if r[9] < 128 { Finish(r, 10, n, WORD32); return 10, n; }
    Continue(r, 10);
    return 0, 0;
  }

  /** The three accumulators of the 64-bit reader, put together. */
  function Whole(n1: nat, n2: nat, n3: nat): nat {
    n1 + n2 * 0x1000_0000 + n3 * 0x100_0000_0000_0000
  }

  /** The accumulators hold bytes 0 to 3, 4 to 7 and 8 to 9. */
  lemma Join(s: seq<byte>, k: nat, n1: nat, n2: nat, n3: nat)
    requires k <= 10 && k <= |s|
    requires n1 == Digits(s, if k < 4 then k else 4)
    requires n2 == if k <= 4 then 0 else Digits(s[4..], if k < 8 then k - 4 else 4)
    requires n3 == if k <= 8 then 0 else Digits(s[8..], k - 8)
    ensures Whole(n1, n2, n3) == Value(s, k)
    // so the shifted accumulators share no bits, and combining them with `|` is addition
    ensures n1 < 0x1000_0000 && n2 < 0x1000_0000
  {
    PowTable();
    DigitsValue(s, if k < 4 then k else 4);
    if k > 4 {
      var j := if k < 8 then k - 4 else 4;
      DigitsValue(s[4..], j);
      ValueSplit(s, 4, j);
      if k > 8 {
        DigitsValue(s[8..], k - 8);
        ValueSplit(s, 8, k - 8);
      }
    }
  }

  lemma FinishJoined(s: seq<byte>, k: nat, n1: nat, n2: nat, n3: nat)
    requires 1 <= k <= 10 && k <= |s| && s[k - 1] < 128 && Running(s, k - 1)
    requires n1 == Digits(s, if k < 4 then k else 4)
    requires n2 == if k <= 4 then 0 else Digits(s[4..], if k < 8 then k - 4 else 4)
    requires n3 == if k <= 8 then 0 else Digits(s[8..], k - 8)
    ensures ReadsAs(s, k, Whole(n1, n2, n3) % WORD64, WORD64)
  {
    Join(s, k, n1, n2, n3);
    Finish(s, k, Whole(n1, n2, n3) % WORD64, WORD64);
  }

  /** The two lines that fill the last accumulator. */
  method Pair(r: seq<byte>) returns (n: uint32, k: nat, done: bool)
    requires |r| > 0 && (|r| >= 2 || r[|r| - 1] < 128)
    ensures 1 <= k <= 2 && k <= |r| && n == Digits(r, k)
    ensures done ==> Running(r, k - 1) && r[k - 1] < 128
    ensures !done ==> k == 2 && Running(r, 2)
  {
    var b: nat := r[0];
    n := b;
    if b < 128 { return n, 1, true; }
    n := n - 0x80;
    b := r[1]; n := n + b * 0x80;
    if b < 128 { return n, 2, true; }
    return n - 0x4000, 2, false;
  }

  /** The result and the value that the 64-bit reader gives. */
  ghost predicate Result64(s: seq<byte>, ret: nat, pv: nat) {
    match Read(s)
    case None => ret == 0
    case Some(r) => ret == r.length && pv == r.value % WORD64
  }

  /** The last two bytes of the 64-bit reader. */
  method Last64(r: seq<byte>, n1: uint32, n2: uint32) returns (ret: nat, pv: nat)
    requires Guarded(r) && Running(r, 8) && 8 < |r| && n1 == Digits(r, 4) && n2 == Digits(r[4..], 4)
    ensures Result64(r, ret, pv)
  {
    Suffix(r, 8);
    var n3, k, done := Pair(r[8..]);
    ContinueGroup(r, 8, if done then k else 3);
    if !done {
      Continue(r, 10);
      return 0, 0;
    }
    FinishJoined(r, 8 + k, n1, n2, n3);
    return 8 + k, Whole(n1, n2, n3) % WORD64;
  }

  /** The bytes behind the first four. */
  method Rest64(r: seq<byte>, n1: uint32) returns (ret: nat, pv: nat)
    requires Guarded(r) && Running(r, 4) && 4 < |r| && n1 == Digits(r, 4)
    ensures Result64(r, ret, pv)
  {
    Suffix(r, 4);
    var n2, k, done := Quad(r[4..]);
    ContinueGroup(r, 4, if done then k else 5);
    if done {
      FinishJoined(r, 4 + k, n1, n2, 0);
      return 4 + k, Whole(n1, n2, 0) % WORD64;
    }
    Continue(r, 8);
    ret, pv := Last64(r, n1, n2);
  }

  /** `pb_readvarint64_fallback`, from the cursor on. */
  method Unrolled64(r: seq<byte>) returns (ret: nat, pv: nat)
    requires Guarded(r) && r[0] >= 128
    ensures Result64(r, ret, pv)
  {
    var n1, k, done := Quad(r);
    if done {
      FinishJoined(r, k, n1, 0, 0);
      return k, Whole(n1, 0, 0) % WORD64;
    }
    Continue(r, 4);
    ret, pv := Rest64(r, n1);
  }

  lemma Suffix(s: seq<byte>, a: nat)
    requires Guarded(s) && a < |s| && a <= 9
    ensures |s[a..]| >= 10 - a || s[a..][|s[a..]| - 1] < 128
  {
  }

  /** `pb_readvarint32` */
  method ReadVarint32(s: Slice) returns (ret: nat, pv: nat)
    requires s.Valid()
    modifies s
    ensures s.Valid()
    ensures Read(old(s.Rest())) == None ==> ret == 0 && s.p == old(s.p)
    ensures Read(old(s.Rest())).Some? ==>
              var r := Read(old(s.Rest())).value;
              ret == r.length && s.p == old(s.p) + ret && pv == r.value % WORD32
  {
    ghost var r := s.Rest();
    pv := 0;
    if s.p >= |s.data| {
      return 0, 0;
    }
    if s.data[s.p] < 128 {
      Finished(r, 1);
      pv := s.data[s.p];
      s.p := s.p + 1;
      return 1, pv;
    }
    if |s.data| - s.p >= 10 || s.data[|s.data| - 1] < 128 {
      ret, pv := Unrolled32(s.data[s.p..]);
      s.p := s.p + ret;
      return;
    }
    var u64;
    ret, u64 := ReadSlow(s);
    if ret != 0 {
      pv := u64 % WORD32;
      Truncated(r);
    }
  }

  /** `pb_readvarint64` */
  method ReadVarint64(s: Slice) returns (ret: nat, pv: nat)
    requires s.Valid()
    modifies s
    ensures s.Valid()
    ensures Read(old(s.Rest())) == None ==> ret == 0 && s.p == old(s.p)
    ensures Read(old(s.Rest())).Some? ==>
              var r := Read(old(s.Rest())).value;
              ret == r.length && s.p == old(s.p) + ret && pv == r.value % WORD64
  {
    ghost var r := s.Rest();
    pv := 0;
    if s.p >= |s.data| {
      return 0, 0;
    }
    if s.data[s.p] < 128 {
      Finished(r, 1);
      pv := s.data[s.p];
      s.p := s.p + 1;
      return 1, pv;
    }
    if |s.data| - s.p >= 10 || s.data[|s.data| - 1] < 128 {
      ret, pv := Unrolled64(s.data[s.p..]);
      s.p := s.p + ret;
      return;
    }
    ret, pv := ReadSlow(s);
  }

  lemma Truncated(s: seq<byte>)
    ensures Read(s).Some? ==> Read(s).value.value % WORD64 % WORD32 == Read(s).value.value % WORD32
  {
    if Read(s).Some? {
      var v := Read(s).value.value;
      assert v == v / WORD64 * WORD64 + v % WORD64;
      var q, r := v / WORD64, v % WORD64;
      Remainder32(v, q * WORD32 + r / WORD32, r % WORD32);
    }
  }

  // ---------------------------------------------------------------------------
  // The writers.

  /** b with w written at the given place. */
  function Patched(b: seq<byte>, at: nat, w: seq<byte>): (r: seq<byte>)
    requires at + |w| <= |b|
    ensures |r| == |b|
  {
    b[..at] + w + b[at + |w|..]
  }

  lemma PatchedNext(b: seq<byte>, at: nat, w: seq<byte>, x: byte)
    requires at + |w| < |b|
    ensures Patched(b, at, w)[at + |w| := x] == Patched(b, at, w + [x])
  {
  }

  /** One byte of the encoding, and the rest. */
  lemma EncodeNext(w: seq<byte>, m: nat)
    ensures if m < 128 then w + [m] == w + Encode(m) else w + [m % 128 + 128] + Encode(m / 128) == w + Encode(m)
  {
  }

  lemma FewerBytes(m: nat, k: nat)
    requires m >= 128 && m < Pow128(k)
    ensures k > 1 && m / 128 < Pow128(k - 1)
  {
  }

  /** The lines that both writers repeat, as a loop; k bytes are enough for n. */
  method WriteBytes(buff: array<byte>, at: nat, n: nat, ghost k: nat) returns (c: nat)
    requires k >= 1 && n < Pow128(k) && at + k <= buff.Length
    modifies buff
    ensures c == |Encode(n)| <= k && buff[..] == Patched(old(buff[..]), at, Encode(n))
  {
    var m: nat := n;
    ghost var b: seq<byte>, w: seq<byte>, left: nat := buff[..], [], k;
    c := 0;
    while m / 128 != 0
      invariant left >= 1 && c + left == k && m < Pow128(left) && c == |w|
      invariant w + Encode(m) == Encode(n) && buff[..] == Patched(b, at, w)
      decreases m
    {
      FewerBytes(m, left);
      EncodeNext(w, m);
      PatchedNext(b, at, w, m % 128 + 128);
      buff[at + c] := m % 128 + 128;
      w, left := w + [m % 128 + 128], left - 1;
      m := m / 128;
      c := c + 1;
    }
    EncodeNext(w, m);
    PatchedNext(b, at, w, m);
    buff[at + c] := m;
    c := c + 1;
  }

  /** `pb_write32` */
  method Write32(buff: array<byte>, at: nat, n: nat) returns (c: nat)
    requires n < WORD32 && at + 5 <= buff.Length
    modifies buff
    ensures c == |Encode(n)| <= 5 && buff[..] == Patched(old(buff[..]), at, Encode(n))
  {
    PowTable();
    c := WriteBytes(buff, at, n, 5);
  }

  /** `pb_write64` */
  method Write64(buff: array<byte>, at: nat, n: nat) returns (c: nat)
    requires n < WORD64 && at + 10 <= buff.Length
    modifies buff
    ensures c == |Encode(n)| <= 10 && buff[..] == Patched(old(buff[..]), at, Encode(n))
  {
    PowTable();
    c := WriteBytes(buff, at, n, 10);
  }
}
