/**
 * Percent-encoding of section 2.1 of RFC 3986, as the server writes it into redirect targets and reads it
 * from request paths.
 */
module Percent {
  import opened Bytes

  const PERCENT: byte := 37

  // ---------------------------------------------------------------------------
  // Characters.

  /** A letter, a digit, or one of `-._~`. */
  predicate Unreserved(c: byte) {
    IsAlpha(c) || IsDigit(c) || c == 45 || c == 46 || c == 95 || c == 126
  }

  /** One of `!$&'()*+,;=`. */
  predicate SubDelim(c: byte) {
    c == 33 || c == 36 || 38 <= c <= 44 || c == 59 || c == 61
  }

  /** The bytes of a path that stand for themselves. */
  predicate Kept(c: byte) {
    Unreserved(c) || SubDelim(c) || c == SLASH
  }

  /** A `char`: from -128 where it is signed, up to 255 where it is not. */
  type char8 = c: int | -128 <= c < 256

  /** `hex_to_uint`: the differences are converted to an unsigned 32-bit number. */
  function HexToUint(c: char8): nat {
    if c <= 57 then (c - 48) % WORD32
    else if c <= 90 then (c - 65 + 10) % WORD32
    else if c <= 122 then (c - 97 + 10) % WORD32
    else 256
  }

  /** The header promises 256 for every other character. It is what those above `z` get, and no others. */
  lemma NotHexGets256(c: char8)
    requires !IsHexDigit(c)
    ensures HexToUint(c) == 256 <==> c > 122
  {
  }

  /** The promise fails for `G`, which gets 16, and for `[`, which even gets the value of a digit. */
  lemma HexPromiseFails()
    ensures !IsHexDigit(71) && HexToUint(71) == 16
    ensures !IsHexDigit(91) && HexToUint(91) == 4
  {
  }

  function HexValue(c: byte): nat
    requires IsHexDigit(c)
  {
    HexToUint(c)
  }

  /** `UPPER_XDIGITS`. */
  function UpperDigit(n: nat): (c: byte)
    requires n < 16
    ensures IsUpperHex(c) && HexValue(c) == n
  {
    if n < 10 then (48 + n) as byte else (55 + n) as byte
  }

  predicate IsUpperHex(c: byte) { IsDigit(c) || 65 <= c <= 70 }

  lemma HexValueSmall(c: byte)
    requires IsHexDigit(c)
    ensures 0 <= HexValue(c) < 16
  {
  }

  // ---------------------------------------------------------------------------
  // Encoding and decoding.

  function EncodeByte(c: byte): seq<byte> {
    if Kept(c) then [c] else [PERCENT, UpperDigit(c as nat / 16), UpperDigit(c as nat % 16)]
  }

  function Encode(s: seq<byte>): seq<byte> {
    if s == [] then [] else EncodeByte(s[0]) + Encode(s[1..])
  }

  /** A percent sign with two hexadecimal digits behind it. */
  predicate Triplet(s: seq<byte>) {
    |s| >= 3 && s[0] == PERCENT && IsHexDigit(s[1]) && IsHexDigit(s[2])
  }

  function DecodeTriplet(s: seq<byte>): byte
    requires Triplet(s)
  {
    HexValueSmall(s[1]);
    HexValueSmall(s[2]);
    (HexValue(s[1]) * 16 + HexValue(s[2])) as byte
  }

  /** A percent sign without two hexadecimal digits behind it stands for itself. */
  function Decode(s: seq<byte>): (r: seq<byte>)
    ensures |r| <= |s|
  {
    if s == [] then [] else if Triplet(s) then [DecodeTriplet(s)] + Decode(s[3..]) else [s[0]] + Decode(s[1..])
  }

  lemma DecodeNext(c: byte, rest: seq<byte>)
    ensures Decode(EncodeByte(c) + rest) == [c] + Decode(rest)
  {
    var s := EncodeByte(c) + rest;
    assert s[|EncodeByte(c)|..] == rest;
  }

  /** What is encoded is decoded to itself. */
  lemma {:induction false} RoundTrip(s: seq<byte>)
    ensures Decode(Encode(s)) == s
  {
    if s != [] {
      RoundTrip(s[1..]);
      DecodeNext(s[0], Encode(s[1..]));
    }
  }

  /** The byte at i stands for itself, or is a percent sign with two upper-case digits behind it. */
  predicate EncodedAt(e: seq<byte>, i: int) {
    0 <= i < |e| ==>
      if e[i] == PERCENT then i + 2 < |e| && IsUpperHex(e[i + 1]) && IsUpperHex(e[i + 2]) else Kept(e[i])
  }

  lemma EncodedFirst(c: byte, rest: seq<byte>, i: int)
    requires EncodedAt(rest, i - |EncodeByte(c)|)
    ensures EncodedAt(EncodeByte(c) + rest, i)
  {
    var e := EncodeByte(c) + rest;
    var n := |EncodeByte(c)|;
    if n <= i < |e| {
      assert e[i] == rest[i - n];
      assert e[i] == PERCENT ==> e[i + 1] == rest[i - n + 1] && e[i + 2] == rest[i - n + 2];
    }
  }

  /** Every byte of an encoding is one that stands for itself, or part of a triplet in upper case. */
  lemma {:induction false} EncodedBytes(s: seq<byte>)
    ensures forall i :: EncodedAt(Encode(s), i)
    ensures |Encode(s)| <= 3 * |s|
  {
    if s != [] {
      EncodedBytes(s[1..]);
      forall i ensures EncodedAt(Encode(s), i) {
        EncodedFirst(s[0], Encode(s[1..]), i);
      }
    }
  }

  /** A path of kept bytes is its own encoding, and decoded to itself. */
  lemma {:induction false} KeptUnchanged(s: seq<byte>)
    requires forall i :: 0 <= i < |s| ==> Kept(s[i])
    ensures Encode(s) == s && Decode(s) == s
  {
    if s != [] {
      KeptUnchanged(s[1..]);
      RoundTrip(s);
    }
  }

  /** Decoding the encoding is the only way back: different paths have different encodings. */
  lemma EncodeInjective(s: seq<byte>, t: seq<byte>)
    requires Encode(s) == Encode(t)
    ensures s == t
  {
    RoundTrip(s);
    RoundTrip(t);
  }

  // ---------------------------------------------------------------------------
  // The loops.

  lemma EncodeAt(done: seq<byte>, s: seq<byte>, i: nat)
    requires i < |s|
    ensures done + Encode(s[i..]) == done + EncodeByte(s[i]) + Encode(s[i + 1..])
  {
    assert s[i..][1..] == s[i + 1..];
    assert done + (EncodeByte(s[i]) + Encode(s[i + 1..])) == done + EncodeByte(s[i]) + Encode(s[i + 1..]);
  }

  method EncodePath(s: seq<byte>) returns (dest: seq<byte>)
    ensures dest == Encode(s)
  {
    dest := [];
    for i := 0 to |s|
      invariant dest + Encode(s[i..]) == Encode(s)
    {
      EncodeAt(dest, s, i);
      var c := s[i];
      if Kept(c) {
        dest := dest + [c];
        continue;
      }
      var triplet := [PERCENT, UpperDigit(c as nat / 16), UpperDigit(c as nat % 16)];
      dest := dest + triplet;
    }
  }

  lemma DecodeAt(s: seq<byte>, i: nat)
    requires i < |s|
    ensures Triplet(s[i..]) <==> i + 3 <= |s| && s[i] == PERCENT && IsHexDigit(s[i + 1]) && IsHexDigit(s[i + 2])
    ensures Triplet(s[i..]) ==> Decode(s[i..]) == [DecodeTriplet(s[i..])] + Decode(s[i + 3..])
    ensures !Triplet(s[i..]) ==> Decode(s[i..]) == [s[i]] + Decode(s[i + 1..])
  {
    if Triplet(s[i..]) {
      assert s[i..][3..] == s[i + 3..];
    } else {
      assert s[i..][1..] == s[i + 1..];
    }
  }

  /** A hexadecimal digit of this value, in upper or lower case. */
  predicate Spells(c: byte, n: nat) {
    (n < 10 && c == 48 + n) || (10 <= n < 16 && (c == 65 + (n - 10) || c == 97 + (n - 10)))
  }

  /** A byte is decoded from each of its spellings. */
  lemma DecodeSpelling(c: byte, high: byte, low: byte, rest: seq<byte>)
    requires Spells(high, c as nat / 16) && Spells(low, c as nat % 16)
    ensures Decode([PERCENT, high, low] + rest) == [c] + Decode(rest)
  {
    var s := [PERCENT, high, low] + rest;
    SpelledValue(high, c as nat / 16);
    SpelledValue(low, c as nat % 16);
    assert Triplet(s) && s[3..] == rest;
    assert DecodeTriplet(s) == c;
  }

  lemma SpelledValue(c: byte, n: nat)
    requires Spells(c, n)
    ensures IsHexDigit(c) && HexValue(c) == n
  {
  }

  /** The bytes that stay as they are: letters, digits, the slash and these. */
  lemma KeptBytes(c: byte)
    ensures Kept(c) <==> 48 <= c <= 57 || 65 <= c <= 90 || 97 <= c <= 122 || c as char in "-._~!$&'()*+,;=/"
  {
  }

  /** One turn of the loop: the byte that is written, and how many were read. */
  method DecodeByte(s: seq<byte>, first: nat) returns (c: byte, n: nat)
    requires first < |s|
    ensures 0 < n && first + n <= |s| && Decode(s[first..]) == [c] + Decode(s[first + n..])
  {
    DecodeAt(s, first);
    if s[first] != PERCENT {
      return s[first], 1;
    }
    if first + 1 != |s| && first + 2 != |s| && IsHexDigit(s[first + 1]) && IsHexDigit(s[first + 2]) {
      HexValueSmall(s[first + 1]);
      HexValueSmall(s[first + 2]);
      return (HexValue(s[first + 1]) * 16 + HexValue(s[first + 2])) as byte, 3;
    }
    return s[first], 1;
  }

  method DecodePath(s: seq<byte>) returns (decoded: seq<byte>)
    ensures decoded == Decode(s)
  {
    var result := new byte[|s|];
    var p, first := 0, 0;
    ghost var out: seq<byte> := [];
    NothingYet(s);
    while first < |s|
      invariant p <= first <= |s| && result[..p] == out && Sofar(s, first, out)
    {
      var c, n := DecodeByte(s, first);
      Put(result, p, c);
      Turn(s, first, n, out, c);
      out := out + [c];
      p := p + 1;
      first := first + n;
    }
    NothingLeft(s);
    decoded := result[..p];
  }

  method Put(result: array<byte>, p: nat, c: byte)
    requires p < result.Length
    modifies result
    ensures result[..p + 1] == old(result[..p]) + [c]
  {
    result[p] := c;
  }

  /** The characters before `first` have been decoded. */
  ghost predicate Sofar(s: seq<byte>, first: nat, out: seq<byte>) {
    first <= |s| && out + Decode(s[first..]) == Decode(s)
  }

  lemma NothingYet(s: seq<byte>)
    ensures Sofar(s, 0, [])
  {
    assert s[0..] == s;
  }

  lemma NothingLeft(s: seq<byte>)
    ensures forall out :: Sofar(s, |s|, out) ==> out == Decode(s)
  {
  }

  lemma Turn(s: seq<byte>, first: nat, n: nat, out: seq<byte>, c: byte)
    requires first + n <= |s| && Decode(s[first..]) == [c] + Decode(s[first + n..]) && Sofar(s, first, out)
    ensures Sofar(s, first + n, out + [c])
  {
  }
}
