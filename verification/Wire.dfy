/**
 * Skipping values of the protobuf wire format, with groups nested to any depth.
 */
module Wire {
  import opened Bytes
  import opened Varint

  const VARINT := 0
  const BITS64 := 1
  const BYTES := 2
  const GSTART := 3
  const GEND := 4
  const BITS32 := 5

  // ---------------------------------------------------------------------------
  // The format: a value is a tree, and `Flat` its bytes. Varints are any that the readers accept,
  // not only the shortest.

  datatype Value =
    | Number(raw: seq<byte>)
    | Fixed(raw: seq<byte>)
    | Delimited(length: seq<byte>, payload: seq<byte>)
    | Group(fields: Fields, end: seq<byte>)

  datatype Fields = Nil | Cons(key: seq<byte>, value: Value, rest: Fields)

  function Flat(v: Value): seq<byte> {
    match v
    case Number(raw) => raw
    case Fixed(raw) => raw
    case Delimited(length, payload) => length + payload
    case Group(fields, end) => FlatFields(fields) + end
  }

  function FlatFields(fs: Fields): seq<byte> {
    match fs
    case Nil => []
    case Cons(key, value, rest) => key + Flat(value) + FlatFields(rest)
  }

  /** All of s is one varint. */
  predicate IsVarint(s: seq<byte>) {
    Read(s).Some? && Read(s).value.length == |s|
  }

  function Tag(key: seq<byte>): nat
    requires IsVarint(key)
  {
    Read(key).value.value % WORD32
  }

  /** v is a well-formed value for the field whose key is `tag`. */
  predicate Fits(v: Value, tag: nat) {
    match v
    case Number(raw) => tag % 8 == VARINT && Terminator(raw, 0) + 1 == |raw|
    case Fixed(raw) => (tag % 8 == BITS64 && |raw| == 8) || (tag % 8 == BITS32 && |raw| == 4)
    case Delimited(length, payload) =>
      tag % 8 == BYTES && IsVarint(length) && Read(length).value.value % WORD64 == |payload|
    case Group(fields, end) =>
      tag % 8 == GSTART && FieldsFit(fields) && Closes(end, tag / 8)
  }

  /** The key that ends a group of that number. */
  predicate Closes(end: seq<byte>, number: nat) {
    IsVarint(end) && Tag(end) % 8 == GEND && Tag(end) / 8 == number
  }

  predicate FieldsFit(fs: Fields) {
    match fs
    case Nil => true
    case Cons(key, value, rest) => IsVarint(key) && Tag(key) % 8 != GEND && Fits(value, Tag(key)) && FieldsFit(rest)
  }

  // ---------------------------------------------------------------------------
  // How many bytes the skipping functions consume; 0 is failure.

  function SkipLength(s: seq<byte>, tag: nat): (n: nat)
    ensures n <= |s|
    decreases |s|, 1
  {
    if tag % 8 == VARINT then (if Terminator(s, 0) < |s| then Terminator(s, 0) + 1 else 0)
    else if tag % 8 == BITS64 then (if 8 <= |s| then 8 else 0)
    else if tag % 8 == BYTES then SkipBytesLength(s)
    else if tag % 8 == BITS32 then (if 4 <= |s| then 4 else 0)
    else if tag % 8 == GSTART then GroupLength(s, tag / 8)
    else 0
  }

  function SkipBytesLength(s: seq<byte>): (n: nat)
    ensures n <= |s|
  {
    match Read(s)
    case None => 0
    case Some(r) => if r.value % WORD64 <= |s| - r.length then r.length + r.value % WORD64 else 0
  }

  function GroupLength(s: seq<byte>, number: nat): (n: nat)
    ensures n <= |s|
    decreases |s|, 0
  {
    match Read(s)
    case None => 0
    case Some(r) =>
      var tag := r.value % WORD32;
      if tag % 8 == GEND then (if tag / 8 == number then r.length else 0)
      else
        var body := s[r.length..];
        var n := SkipLength(body, tag);
        if n == 0 then 0 else
        var m := GroupLength(body[n..], number);
        if m == 0 then 0 else r.length + n + m
  }

  /** What is skipped for each kind of key: 0 a varint, 1 eight bytes, 2 a length and its bytes, 3 a group, 5 four
      bytes, and nothing for the others. */
  lemma SkippedKinds(s: seq<byte>, tag: nat)
    ensures tag % 8 == 0 ==> SkipLength(s, tag) == if Terminator(s, 0) < |s| then Terminator(s, 0) + 1 else 0
    ensures tag % 8 == 1 ==> SkipLength(s, tag) == if |s| >= 8 then 8 else 0
    ensures tag % 8 == 2 ==> SkipLength(s, tag) == SkipBytesLength(s)
    ensures tag % 8 == 3 ==> SkipLength(s, tag) == GroupLength(s, tag / 8)
    ensures tag % 8 == 5 ==> SkipLength(s, tag) == if |s| >= 4 then 4 else 0
    ensures tag % 8 == 4 || tag % 8 >= 6 ==> SkipLength(s, tag) == 0
  {
  }

  // ---------------------------------------------------------------------------
  // The skipping functions accept exactly the encodings.

  lemma ReadPrefix(key: seq<byte>, rest: seq<byte>)
    requires IsVarint(key)
    ensures Read(key + rest) == Read(key)
  {
    TerminatorUnique(key + rest, 0, |key| - 1);
    ValueAgrees(key + rest, key, |key|);
  }

  lemma DelimitedComplete(length: seq<byte>, payload: seq<byte>, rest: seq<byte>)
    requires IsVarint(length) && Read(length).value.value % WORD64 == |payload|
    ensures SkipBytesLength(length + (payload + rest)) == |length| + |payload| > 0
  {
    ReadPrefix(length, payload + rest);
  }

  lemma LeafComplete(v: Value, tag: nat, rest: seq<byte>)
    requires Fits(v, tag) && !v.Group?
    ensures SkipLength(Flat(v) + rest, tag) == |Flat(v)| > 0
  {
    match v
    case Number(raw) =>
      TerminatorUnique(raw + rest, 0, |raw| - 1);
    case Fixed(raw) =>
    case Delimited(length, payload) =>
      assert Flat(v) + rest == length + (payload + rest);
      DelimitedComplete(length, payload, rest);
  }

  lemma SkipGroup(s: seq<byte>, tag: nat)
    requires tag % 8 == GSTART
    ensures SkipLength(s, tag) == GroupLength(s, tag / 8)
  {
  }

  /** One field of a group. */
  lemma GroupStep(s: seq<byte>, number: nat, r: Reading, n: nat)
    requires Read(s) == Some(r) && r.value % WORD32 % 8 != GEND
    requires n == SkipLength(s[r.length..], r.value % WORD32) > 0
    ensures var m := GroupLength(s[r.length..][n..], number);
            GroupLength(s, number) == if m == 0 then 0 else r.length + n + m
  {
  }

  /** Every well-formed value is skipped exactly, whatever follows it. */
  lemma {:induction false} SkipComplete(v: Value, tag: nat, rest: seq<byte>)
    requires Fits(v, tag)
    ensures SkipLength(Flat(v) + rest, tag) == |Flat(v)| > 0
    decreases v
  {
    if v.Group? {
      assert Flat(v) + rest == FlatFields(v.fields) + (v.end + rest);
      GroupComplete(v.fields, v.end, tag / 8, rest);
      SkipGroup(Flat(v) + rest, tag);
    } else {
      LeafComplete(v, tag, rest);
    }
  }

  lemma {:induction false} GroupComplete(fs: Fields, end: seq<byte>, number: nat, rest: seq<byte>)
    requires FieldsFit(fs) && Closes(end, number)
    ensures GroupLength(FlatFields(fs) + (end + rest), number) == |FlatFields(fs)| + |end| > 0
    decreases fs
  {
    match fs
    case Nil =>
      assert FlatFields(fs) + (end + rest) == end + rest;
      ReadPrefix(end, rest);
    case Cons(key, value, more) =>
      var tail := FlatFields(more) + (end + rest);
      var s := FlatFields(fs) + (end + rest);
      assert s == key + (Flat(value) + tail);
      ReadPrefix(key, Flat(value) + tail);
      assert s[|key|..] == Flat(value) + tail;
      SkipComplete(value, Tag(key), tail);
      assert (Flat(value) + tail)[|Flat(value)|..] == tail;
      GroupComplete(more, end, number, rest);
      GroupStep(s, number, Read(key).value, |Flat(value)|);
  }

  lemma VarintPrefix(s: seq<byte>)
    requires Read(s).Some?
    ensures var n := Read(s).value.length; n <= |s| && IsVarint(s[..n]) && Read(s[..n]) == Read(s)
  {
    var n := Read(s).value.length;
    TerminatorUnique(s[..n], 0, n - 1);
    ValueAgrees(s[..n], s, n);
  }

  /** Whatever is skipped is a well-formed value. */
  lemma {:induction false} SkipSound(s: seq<byte>, tag: nat) returns (v: Value)
    requires SkipLength(s, tag) > 0
    ensures Fits(v, tag) && Flat(v) == s[..SkipLength(s, tag)]
    decreases |s|, 1
  {
    var n := SkipLength(s, tag);
    if tag % 8 == VARINT {
      v := Number(s[..n]);
      TerminatorUnique(s[..n], 0, n - 1);
    } else if tag % 8 == BYTES {
      VarintPrefix(s);
      var k := Read(s).value.length;
      v := Delimited(s[..k], s[k..n]);
    } else if tag % 8 == GSTART {
      var fields, end := GroupSound(s, tag / 8);
      v := Group(fields, end);
    } else {
      v := Fixed(s[..n]);
    }
  }

  lemma Pieces(s: seq<byte>, k: nat, n: nat, m: nat)
    requires k + n + m <= |s|
    ensures s[..k] + s[k..][..n] + s[k..][n..][..m] == s[..k + n + m]
  {
  }

  /** What a skipped group begins with. */
  lemma GroupInverse(s: seq<byte>, number: nat)
    returns (k: nat, last: bool, tag: nat, body: seq<byte>, n: nat, more: seq<byte>, m: nat)
    requires GroupLength(s, number) > 0
    ensures k <= |s| && IsVarint(s[..k]) && tag == Tag(s[..k])
    ensures last ==> Closes(s[..k], number) && GroupLength(s, number) == k
    ensures !last ==>
              && tag % 8 != GEND && body == s[k..] && |body| < |s| && 0 < n == SkipLength(body, tag)
              && more == body[n..] && |more| < |body|
              && 0 < m == GroupLength(more, number) && GroupLength(s, number) == k + n + m
  {
    VarintPrefix(s);
    k := Read(s).value.length;
    tag := Read(s).value.value % WORD32;
    last := tag % 8 == GEND;
    body := s[k..];
    n := SkipLength(body, tag);
    more := body[n..];
    m := GroupLength(more, number);
  }

  lemma {:induction false} GroupSound(s: seq<byte>, number: nat) returns (fs: Fields, end: seq<byte>)
    requires GroupLength(s, number) > 0
    ensures FieldsFit(fs) && Closes(end, number)
    ensures FlatFields(fs) + end == s[..GroupLength(s, number)]
    decreases |s|, 0
  {
    var k, last, tag, body, n, more, m := GroupInverse(s, number);
    if last {
      fs, end := Nil, s[..k];
      FlatNil(end);
    } else {
      var v := SkipSound(body, tag);
      var rest;
      rest, end := GroupSound(more, number);
      fs := Cons(s[..k], v, rest);
      FlatCons(s, k, n, m, GroupLength(s, number), v, rest, end);
    }
  }

  lemma FlatNil(end: seq<byte>)
    ensures FieldsFit(Nil) && FlatFields(Nil) + end == end
  {
  }

  lemma FlatCons(s: seq<byte>, k: nat, n: nat, m: nat, whole: nat, v: Value, rest: Fields, end: seq<byte>)
    requires k + n + m == whole <= |s| && Flat(v) == s[k..][..n] && FlatFields(rest) + end == s[k..][n..][..m]
    requires IsVarint(s[..k]) && Tag(s[..k]) % 8 != GEND && Fits(v, Tag(s[..k])) && FieldsFit(rest)
    ensures FieldsFit(Cons(s[..k], v, rest)) && FlatFields(Cons(s[..k], v, rest)) + end == s[..whole]
  {
    Pieces(s, k, n, m);
    assert s[..k] + Flat(v) + FlatFields(rest) + end == s[..k] + Flat(v) + (FlatFields(rest) + end);
  }

  // ---------------------------------------------------------------------------
  // The functions themselves. Each leaves the cursor where it was when it fails.

  /** `pb_skipvarint` */
  method SkipVarint(s: Slice) returns (ret: nat)
    requires s.Valid()
    modifies s
    ensures s.Valid() && s.p == old(s.p) + ret
    ensures ret == var r := old(s.Rest()); if Terminator(r, 0) < |r| then Terminator(r, 0) + 1 else 0
  {
    ghost var r := s.Rest();
    var p := s.p;
    while p < |s.data| && s.data[p] >= 128
      invariant s.p <= p <= |s.data|
      invariant forall i :: 0 <= i < p - s.p ==> r[i] >= 128
    {
      p := p + 1;
    }
    if p >= |s.data| {
      return 0;
    }
    TerminatorUnique(r, 0, p - s.p);
    ret := p + 1 - s.p;
    s.p := p + 1;
  }

  /** `pb_skipslice` */
  method SkipSlice(s: Slice, len: nat) returns (ret: nat)
    requires s.Valid()
    modifies s
    ensures s.Valid() && s.p == old(s.p) + ret
    ensures ret == if old(s.p) + len <= |s.data| then len else 0
  {
    if s.p + len > |s.data| {
      return 0;
    }
    s.p := s.p + len;
    ret := len;
  }

  /** `pb_skipbytes` */
  method SkipBytes(s: Slice) returns (ret: nat)
    requires s.Valid()
    modifies s
    ensures s.Valid() && s.p == old(s.p) + ret
    ensures ret == SkipBytesLength(old(s.Rest()))
  {
    var p := s.p;
    var count, n := ReadVarint64(s);
    if count == 0 {
      return 0;
    }
    if |s.data| - s.p < n {
      s.p := p;
      return 0;
    }
    s.p := s.p + n;
    ret := s.p - p;
  }

  /** `rest` is what data has from p on. */
  predicate IsSuffix(rest: seq<byte>, data: seq<byte>, p: nat) {
    p <= |data| && rest == data[p..]
  }

  /** The value at p of the field with this key is n bytes long; 0 if there is none. */
  ghost predicate SkipIs(data: seq<byte>, p: nat, tag: nat, n: nat) {
    forall rest :: IsSuffix(rest, data, p) ==> SkipLength(rest, tag) == n
  }

  /** `pb_skipvalue` */
  method SkipValue(s: Slice, tag: nat) returns (ret: nat)
    requires s.Valid()
    modifies s
    ensures s.Valid() && s.p == old(s.p) + ret
    ensures ret == SkipLength(old(s.Rest()), tag)
  {
    ghost var rest, p := s.Rest(), s.p;
    ret := SkipAny(s, tag);
    assert IsSuffix(rest, s.data, p);
  }

  /** Its switch over the kinds of values. */
  method SkipAny(s: Slice, tag: nat) returns (ret: nat)
    requires s.Valid()
    modifies s
    ensures s.Valid() && s.p == old(s.p) + ret
    ensures SkipIs(s.data, old(s.p), tag, ret)
    decreases |s.data| - s.p, 3
  {
    var p := s.p;
    ret := 0;
    if tag % 8 == VARINT {
      ret := SkipVarint(s);
    } else if tag % 8 == BITS64 {
      ret := SkipSlice(s, 8);
    } else if tag % 8 == BYTES {
      ret := SkipBytes(s);
    } else if tag % 8 == BITS32 {
      ret := SkipSlice(s, 4);
    } else if tag % 8 == GSTART {
      var contentEnd;
      ret, contentEnd := ReadGroup(s, tag);
    }
    if ret == 0 {
      s.p := p;
    }
  }

  /** What one round of `pb_readgroup`'s loop comes to. */
  datatype Round = Broken | Closed(count: nat) | Skipped

  /** The group whose fields begin at p is n bytes long from there; 0 if there is none. */
  ghost predicate GroupIs(data: seq<byte>, p: nat, number: nat, n: nat) {
    forall rest :: IsSuffix(rest, data, p) ==> GroupLength(rest, number) == n
  }

  /** The bytes from a to b are a closing key. */
  ghost predicate ClosesAt(data: seq<byte>, a: nat, b: nat, number: nat) {
    forall key :: IsSlice(key, data, a, b) ==> Closes(key, number)
  }

  predicate IsSlice(key: seq<byte>, data: seq<byte>, a: nat, b: nat) {
    a <= b <= |data| && key == data[a..b]
  }

  /** The length of a group of which n bytes have been passed over, with `left` bytes behind them. */
  function Longer(n: nat, left: nat): nat {
    if left == 0 then 0 else n + left
  }

  /** What a field before the rest of a group does to its length. */
  ghost predicate FieldBetween(data: seq<byte>, p: nat, q: nat, number: nat)
    requires p <= q <= |data|
  {
    forall left :: GroupIs(data, q, number, left) ==> GroupIs(data, p, number, Longer(q - p, left))
  }

  lemma GroupStepAt(data: seq<byte>, p: nat, r: Reading, q: nat, number: nat)
    requires p + r.length < q <= |data| && Read(data[p..]) == Some(r) && r.value % WORD32 % 8 != GEND
    requires SkipLength(data[p + r.length..], r.value % WORD32) == q - p - r.length
    ensures GroupLength(data[p..], number) == Longer(q - p, GroupLength(data[q..], number))
  {
    var rest, n := data[p..], q - p - r.length;
    assert rest[r.length..] == data[p + r.length..] && rest[r.length..][n..] == data[q..];
    GroupStep(rest, number, r, n);
  }

  lemma GroupIsLength(data: seq<byte>, p: nat, number: nat, n: nat)
    requires p <= |data|
    ensures GroupIs(data, p, number, n) <==> GroupLength(data[p..], number) == n
  {
    assert IsSuffix(data[p..], data, p);
  }

  lemma SkipIsLength(data: seq<byte>, p: nat, tag: nat, n: nat)
    requires p <= |data| && SkipIs(data, p, tag, n)
    ensures SkipLength(data[p..], tag) == n
  {
    assert IsSuffix(data[p..], data, p);
  }

  lemma FieldPassed(data: seq<byte>, p: nat, r: Reading, q: nat, number: nat)
    requires p + r.length < q <= |data| && Read(data[p..]) == Some(r) && r.value % WORD32 % 8 != GEND
    requires SkipIs(data, p + r.length, r.value % WORD32, q - p - r.length)
    ensures FieldBetween(data, p, q, number)
  {
    FieldLengthens(data, p, q, number) by {
      SkipIsLength(data, p + r.length, r.value % WORD32, q - p - r.length);
      GroupStepAt(data, p, r, q, number);
    }
  }

  lemma FieldLengthens(data: seq<byte>, p: nat, q: nat, number: nat)
    requires p <= q <= |data|
    requires GroupLength(data[p..], number) == Longer(q - p, GroupLength(data[q..], number))
    ensures FieldBetween(data, p, q, number)
  {
    forall left | GroupIs(data, q, number, left) ensures GroupIs(data, p, number, Longer(q - p, left)) {
      GroupIsLength(data, q, number, left);
      GroupIsLength(data, p, number, Longer(q - p, left));
    }
  }

  lemma GroupUnread(data: seq<byte>, p: nat, number: nat)
    requires p <= |data| && Read(data[p..]) == None
    ensures GroupIs(data, p, number, 0)
  {
  }

  lemma GroupMisclosed(data: seq<byte>, p: nat, r: Reading, number: nat)
    requires p <= |data| && Read(data[p..]) == Some(r)
    requires r.value % WORD32 % 8 == GEND && r.value % WORD32 / 8 != number
    ensures GroupIs(data, p, number, 0)
  {
  }

  lemma GroupUnskipped(data: seq<byte>, p: nat, r: Reading, number: nat)
    requires p <= |data| && Read(data[p..]) == Some(r)
    requires r.value % WORD32 % 8 != GEND && SkipIs(data, p + r.length, r.value % WORD32, 0)
    ensures GroupIs(data, p, number, 0)
  {
    assert data[p..][r.length..] == data[p + r.length..];
    assert IsSuffix(data[p..][r.length..], data, p + r.length);
  }

  lemma GroupClosed(data: seq<byte>, p: nat, r: Reading, number: nat)
    requires p <= |data| && Read(data[p..]) == Some(r)
    requires r.value % WORD32 % 8 == GEND && r.value % WORD32 / 8 == number
    ensures p + r.length <= |data| && GroupIs(data, p, number, r.length) && ClosesAt(data, p, p + r.length, number)
  {
    VarintPrefix(data[p..]);
    assert data[p..][..r.length] == data[p..p + r.length];
  }

  method GroupRound(s: Slice, tag: nat) returns (round: Round)
    requires s.Valid()
    modifies s
    ensures s.Valid() && old(s.p) <= s.p
    ensures round == Broken ==> GroupIs(s.data, old(s.p), tag / 8, 0)
    ensures round.Closed? ==>
              && 0 < round.count == s.p - old(s.p) && GroupIs(s.data, old(s.p), tag / 8, round.count)
              && ClosesAt(s.data, s.p - round.count, s.p, tag / 8)
    ensures round == Skipped ==> old(s.p) < s.p && FieldBetween(s.data, old(s.p), s.p, tag / 8)
    decreases |s.data| - s.p, 0
  {
    ghost var p := s.p;
    ghost var reading := Read(s.Rest());
    var count, newtag := ReadVarint32(s);
    if count == 0 {
      GroupUnread(s.data, p, tag / 8);
      return Broken;
    }
    if newtag % 8 == GEND {
      if newtag / 8 != tag / 8 {
        GroupMisclosed(s.data, p, reading.value, tag / 8);
        return Broken;
      }
      GroupClosed(s.data, p, reading.value, tag / 8);
      return Closed(count);
    }
    var skipped := SkipAny(s, newtag);
    if skipped == 0 {
      GroupUnskipped(s.data, p, reading.value, tag / 8);
      return Broken;
    }
    FieldPassed(s.data, p, reading.value, s.p, tag / 8);
    return Skipped;
  }

  lemma FieldsBetween(data: seq<byte>, p: nat, q: nat, r: nat, number: nat)
    requires p < q <= r <= |data| && FieldBetween(data, p, q, number) && FieldBetween(data, q, r, number)
    ensures FieldBetween(data, p, r, number)
  {
    forall left | GroupIs(data, r, number, left) ensures GroupIs(data, p, number, Longer(r - p, left)) {
      assert GroupIs(data, q, number, Longer(r - q, left));
    }
  }

  /** The loop: the last round, and the cursor behind it. */
  method GroupRounds(s: Slice, tag: nat) returns (round: Round)
    requires s.Valid()
    modifies s
    ensures s.Valid() && old(s.p) <= s.p && round != Skipped
    ensures round == Broken ==> GroupIs(s.data, old(s.p), tag / 8, 0)
    ensures round.Closed? ==>
              && 0 < round.count <= s.p - old(s.p) && GroupIs(s.data, old(s.p), tag / 8, s.p - old(s.p))
              && ClosesAt(s.data, s.p - round.count, s.p, tag / 8)
    decreases |s.data| - s.p, 1
  {
    ghost var p := s.p;
    round := GroupRound(s, tag);
    while round == Skipped
      invariant s.Valid() && p <= s.p && (round == Skipped ==> p < s.p && FieldBetween(s.data, p, s.p, tag / 8))
      invariant round == Broken ==> GroupIs(s.data, p, tag / 8, 0)
      invariant round.Closed? ==>
                  && 0 < round.count <= s.p - p && GroupIs(s.data, p, tag / 8, s.p - p)
                  && ClosesAt(s.data, s.p - round.count, s.p, tag / 8)
      decreases |s.data| - s.p, round == Skipped
    {
      ghost var q := s.p;
      round := GroupRound(s, tag);
      match round {
        case Broken => assert GroupIs(s.data, p, tag / 8, Longer(q - p, 0));
        case Closed(count) => assert GroupIs(s.data, p, tag / 8, Longer(q - p, count));
        case Skipped => FieldsBetween(s.data, p, q, s.p, tag / 8);
      }
    }
  }

  lemma ClosingKey(data: seq<byte>, a: nat, b: nat, number: nat)
    requires a <= b <= |data| && ClosesAt(data, a, b, number)
    ensures Closes(data[a..b], number)
  {
    assert IsSlice(data[a..b], data, a, b);
  }

  /** `pb_readgroup`: also returns where the group's fields end and its closing key begins. */
  method ReadGroup(s: Slice, tag: nat) returns (ret: nat, contentEnd: nat)
    requires s.Valid() && tag % 8 == GSTART
    modifies s
    ensures s.Valid() && s.p == old(s.p) + ret
    ensures ret == GroupLength(old(s.Rest()), tag / 8)
    ensures ret > 0 ==> old(s.p) <= contentEnd <= s.p && Closes(s.data[contentEnd..s.p], tag / 8)
    decreases |s.data| - s.p, 2
  {
    var p := s.p;
    var round := GroupRounds(s, tag);
    match round {
      case Broken =>
        GroupIsLength(s.data, p, tag / 8, 0);
        s.p := p;
        return 0, p;
      case Closed(count) =>
        ret, contentEnd := s.p - p, s.p - count;
        GroupIsLength(s.data, p, tag / 8, ret);
        ClosingKey(s.data, contentEnd, s.p, tag / 8);
    }
  }
}
