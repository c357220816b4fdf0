/** The life of a response: its head, its body, its trailers, and the moment the handler is told to start. */
module Responses {
  import opened Bytes

  type Headers = map<seq<byte>, seq<byte>>

  datatype Phase = Initial | HeaderDone | BodyStarted

  /** The generator: deferred, a string of which `left` bytes are left, or none any more. */
  datatype Body = Deferred | Text(data: seq<byte>, left: nat) | Finished

  /** `starts` counts the calls of the handler's `start_response`, and `submitted` is the trailers given to it. */
  datatype Value = Value(
    phase: Phase, status: nat, header: Headers, trailers: Headers, body: Body, payloadSize: nat,
    pushed: bool, promiseSent: bool,
    starts: nat, submitted: seq<Headers>)

  predicate ExpectBody(head: bool, status: nat) {
    !head && (status == 101 || (status / 100 != 1 && status != 304 && status != 204))
  }

  /** There is no body in the answer to HEAD, with the status 204 or 304, nor with an informational one but 101. */
  lemma Bodiless(head: bool, status: nat)
    ensures !ExpectBody(head, status) <==>
            head || status == 204 || status == 304 || (100 <= status < 200 && status != 101)
  {
  }

  // ---------------------------------------------------------------------------
  // The operations. `head` says that the request's method is HEAD.

  function Begun(head: bool, v: Value): Value {
    v.(phase := if ExpectBody(head, v.status) then v.phase else BodyStarted, starts := v.starts + 1)
  }

  function WriteHead(head: bool, v: Value, status: nat, header: Headers): Value {
    if v.phase != Initial then v
    else
      var w := v.(status := status, header := header, phase := HeaderDone);
      if v.pushed && !v.promiseSent then w else Begun(head, w)
  }

  function End(head: bool, v: Value, data: seq<byte>): Value {
    var w := v.(payloadSize := |data|);
    if v.phase == BodyStarted then w
    else
      var u := w.(body := Text(data, |data|));
      (if v.phase == Initial then WriteHead(head, u, v.status, map[]) else u).(phase := BodyStarted)
  }

  function PromiseSent(head: bool, v: Value): Value {
    if v.promiseSent then v
    else
      var w := v.(promiseSent := true);
      if v.phase == Initial then w else Begun(head, w)
  }

  function SendTrailer(v: Value): Value {
    if v.trailers == map[] then v else v.(submitted := v.submitted + [v.trailers], trailers := map[])
  }

  function WriteTrailer(v: Value, trailers: Headers): Value {
    var w := v.(trailers := trailers);
    if v.body == Finished then SendTrailer(w) else w
  }

  /** What a read of at most `len` bytes gives. `noEnd` says that trailers follow. */
  datatype Read = Read(bytes: seq<byte>, deferred: bool, eof: bool, noEnd: bool)

  /** The string generator. */
  function Generate(data: seq<byte>, left: nat, len: nat): (r: (seq<byte>, nat))
    requires left <= |data|
    ensures r.1 <= left && |r.0| == left - r.1
  {
    var n := Least(len, left);
    (data[|data| - left..|data| - left + n], left - n)
  }

  predicate Sound(v: Value) {
    v.body.Text? ==> v.body.left <= |v.body.data|
  }

  function CallRead(v: Value, len: nat): (Value, Read)
    requires Sound(v)
  {
    match v.body
    case Deferred => (v, Read([], true, false, false))
    case Text(data, left) =>
      var (bytes, after) := Generate(data, left, len);
      if after > 0 then (v.(body := Text(data, after)), Read(bytes, false, false, false))
      else (SendTrailer(v.(body := Finished)), Read(bytes, false, true, v.trailers != map[]))
    case Finished => (SendTrailer(v), Read([], false, true, v.trailers != map[]))
  }

  // ---------------------------------------------------------------------------
  // Runs of calls.

  datatype Call =
    | HeadCall(status: nat, header: Headers)
    | EndCall(data: seq<byte>)
    | PromiseCall
    | TrailerCall(trailers: Headers)
    | ReadCall(len: nat)

  function Step(head: bool, v: Value, c: Call): Value
    requires Sound(v)
  {
    match c
    case HeadCall(status, header) => WriteHead(head, v, status, header)
    case EndCall(data) => End(head, v, data)
    case PromiseCall => PromiseSent(head, v)
    case TrailerCall(trailers) => WriteTrailer(v, trailers)
    case ReadCall(len) => CallRead(v, len).0
  }

  lemma StepSound(head: bool, v: Value, c: Call)
    requires Sound(v)
    ensures Sound(Step(head, v, c))
  {
  }

  function Run(head: bool, v: Value, calls: seq<Call>): (r: Value)
    requires Sound(v)
    ensures Sound(r)
    decreases |calls|
  {
    if calls == [] then v
    else
      StepSound(head, v, calls[0]);
      Run(head, Step(head, v, calls[0]), calls[1..])
  }

  function New(pushed: bool): Value {
    Value(Initial, 200, map[], map[], Deferred, 0, pushed, false, 0, [])
  }

  /** The handler was told to start exactly when the head is there and, for a pushed stream, the promise was sent. */
  predicate Counted(v: Value) {
    v.starts == if v.phase != Initial && (v.pushed ==> v.promiseSent) then 1 else 0
  }

  /** The promise of a pushed stream only is sent. */
  predicate Proper(v: Value, c: Call) {
    c.PromiseCall? ==> v.pushed
  }

  /** `promiseSent` on a stream that is not pushed starts the response again, if its head is there. */
  lemma StepCounted(head: bool, v: Value, c: Call)
    requires Sound(v) && Counted(v) && (v.pushed || !v.promiseSent)
    ensures Counted(Step(head, v, c)) <==> Proper(v, c) || v.phase == Initial
    ensures Step(head, v, c).pushed == v.pushed
  {
  }

  predicate AllProper(v: Value, calls: seq<Call>) {
    forall i :: 0 <= i < |calls| ==> Proper(v, calls[i])
  }

  /** What every proper call keeps. */
  predicate Fit(v: Value) {
    Sound(v) && Counted(v) && (v.pushed || !v.promiseSent)
  }

  lemma StepFit(head: bool, v: Value, c: Call)
    requires Fit(v) && Proper(v, c)
    ensures Fit(Step(head, v, c)) && Step(head, v, c).pushed == v.pushed
  {
    StepSound(head, v, c);
    StepCounted(head, v, c);
  }

  lemma {:induction false} RunCounted(head: bool, v: Value, calls: seq<Call>)
    requires Fit(v) && AllProper(v, calls)
    ensures Counted(Run(head, v, calls))
    decreases |calls|
  {
    if calls != [] {
      StepFit(head, v, calls[0]);
      var w := Step(head, v, calls[0]);
      assert AllProper(w, calls[1..]);
      RunCounted(head, w, calls[1..]);
    }
  }

  /** In any order of calls, the handler is told to start at most once. */
  lemma StartsAtMostOnce(head: bool, pushed: bool, calls: seq<Call>)
    requires AllProper(New(pushed), calls)
    ensures Run(head, New(pushed), calls).starts <= 1
  {
    RunCounted(head, New(pushed), calls);
  }

  /** The head that the first call of `write_head` or `end` fixes, if there is one. */
  function FirstHead(calls: seq<Call>): Option<(nat, Headers)>
    decreases |calls|
  {
    if calls == [] then None
    else match calls[0]
      case HeadCall(status, header) => Some((status, header))
      case EndCall(_) => Some((200, map[]))
      case _ => FirstHead(calls[1..])
  }

  lemma StepHead(head: bool, v: Value, c: Call)
    requires Sound(v)
    ensures var w := Step(head, v, c);
            if v.phase != Initial then w.phase != Initial && w.status == v.status && w.header == v.header
            else match c
              case HeadCall(status, header) => w.phase != Initial && w.status == status && w.header == header
              case EndCall(_) => w.phase != Initial && w.status == v.status && w.header == map[]
              case _ => w.phase == Initial && w.status == v.status && w.header == v.header && w.starts == v.starts
  {
    match c
    case HeadCall(_, _) =>
    case EndCall(_) =>
    case PromiseCall =>
    case TrailerCall(_) =>
    case ReadCall(_) =>
  }

  lemma {:induction false} HeadKept(head: bool, v: Value, calls: seq<Call>)
    requires Sound(v) && v.phase != Initial
    ensures var w := Run(head, v, calls); w.phase != Initial && w.status == v.status && w.header == v.header
    decreases |calls|
  {
    if calls != [] {
      StepSound(head, v, calls[0]);
      StepHead(head, v, calls[0]);
      HeadKept(head, Step(head, v, calls[0]), calls[1..]);
    }
  }

  lemma {:induction false} HeadFixedFrom(head: bool, v: Value, calls: seq<Call>)
    requires Sound(v) && v.phase == Initial && v.status == 200 && v.header == map[]
    ensures var w := Run(head, v, calls);
            match FirstHead(calls)
            case None => w.phase == Initial && w.starts == v.starts
            case Some((status, header)) => w.phase != Initial && w.status == status && w.header == header
    decreases |calls|
  {
    if calls != [] {
      var u := Step(head, v, calls[0]);
      StepSound(head, v, calls[0]);
      StepHead(head, v, calls[0]);
      if u.phase == Initial {
        HeadFixedFrom(head, u, calls[1..]);
      } else {
        HeadKept(head, u, calls[1..]);
      }
    }
  }

  /** Status and headers are those of the first call of `write_head`, or those of `end` before any. */
  lemma HeadFixed(head: bool, pushed: bool, calls: seq<Call>)
    ensures var w := Run(head, New(pushed), calls);
            match FirstHead(calls)
            case None => w.phase == Initial && w.starts == 0
            case Some((status, header)) => w.phase != Initial && w.status == status && w.header == header
  {
    HeadFixedFrom(head, New(pushed), calls);
  }

  // ---------------------------------------------------------------------------
  // Reads of a string body.

  function Sum(sizes: seq<nat>): nat {
    if sizes == [] then 0 else sizes[0] + Sum(sizes[1..])
  }

  /** The results of reads of the given sizes, one after another. */
  function Reads(v: Value, sizes: seq<nat>): (r: seq<Read>)
    requires Sound(v)
    ensures |r| == |sizes|
    decreases |sizes|
  {
    if sizes == [] then []
    else
      var (w, first) := CallRead(v, sizes[0]);
      [first] + Reads(w, sizes[1..])
  }

  function Joined(results: seq<Read>): seq<byte>
    decreases |results|
  {
    if results == [] then [] else results[0].bytes + Joined(results[1..])
  }

  lemma {:induction false} ReadsAfterEnd(v: Value, sizes: seq<nat>)
    requires v.body == Finished
    ensures Joined(Reads(v, sizes)) == [] && forall i :: 0 <= i < |sizes| ==> Reads(v, sizes)[i].eof
    decreases |sizes|
  {
    if sizes != [] {
      ReadsAfterEnd(CallRead(v, sizes[0]).0, sizes[1..]);
    }
  }

  /** The part of the text that is left. */
  function Remaining(v: Value): seq<byte>
    requires Sound(v) && v.body.Text?
  {
    v.body.data[|v.body.data| - v.body.left..]
  }

  lemma GenerateNext(data: seq<byte>, left: nat, len: nat, more: nat)
    requires left <= |data|
    ensures var (bytes, after) := Generate(data, left, len);
            bytes + data[|data| - after..][..Least(more, after)] == data[|data| - left..][..Least(len + more, left)]
  {
    var n := Least(len, left);
    var rest := data[|data| - left..];
    assert data[|data| - left..|data| - left + n] == rest[..n];
    assert data[|data| - (left - n)..] == rest[n..];
    var m := Least(more, left - n);
    assert rest[n..][..m] == rest[n..n + m];
    assert rest[..n] + rest[n..n + m] == rest[..n + m];
  }

  /** The pieces that the string generator gives for reads of these sizes. */
  function Pieces(data: seq<byte>, left: nat, sizes: seq<nat>): seq<byte>
    requires left <= |data|
    decreases |sizes|
  {
    if sizes == [] then []
    else
      var (bytes, after) := Generate(data, left, sizes[0]);
      bytes + Pieces(data, after, sizes[1..])
  }

  lemma {:induction false} PiecesJoin(data: seq<byte>, left: nat, sizes: seq<nat>)
    requires left <= |data|
    ensures Pieces(data, left, sizes) == data[|data| - left..][..Least(Sum(sizes), left)]
    decreases |sizes|
  {
    if sizes != [] {
      var after := Generate(data, left, sizes[0]).1;
      PiecesJoin(data, after, sizes[1..]);
      PiecesStep(data, left, sizes);
      GenerateNext(data, left, sizes[0], Sum(sizes[1..]));
    }
  }

  lemma PiecesStep(data: seq<byte>, left: nat, sizes: seq<nat>)
    requires left <= |data| && sizes != []
    ensures Sum(sizes) == sizes[0] + Sum(sizes[1..])
    ensures var (bytes, after) := Generate(data, left, sizes[0]);
            Pieces(data, left, sizes) == bytes + Pieces(data, after, sizes[1..])
  {
  }

  lemma {:induction false} ReadsArePieces(v: Value, sizes: seq<nat>)
    requires Sound(v) && v.body.Text?
    ensures Joined(Reads(v, sizes)) == Pieces(v.body.data, v.body.left, sizes)
    decreases |sizes|
  {
    if sizes != [] {
      var after, w := Generate(v.body.data, v.body.left, sizes[0]).1, CallRead(v, sizes[0]).0;
      FirstRead(v, sizes);
      if after > 0 {
        ReadsArePieces(w, sizes[1..]);
      } else {
        ReadsAfterEnd(w, sizes[1..]);
        PiecesJoin(v.body.data, 0, sizes[1..]);
      }
    }
  }

  /** Reads of any sizes give the text piece by piece, and the end exactly with its last byte. */
  lemma ReadsJoin(v: Value, sizes: seq<nat>)
    requires Sound(v) && v.body.Text?
    ensures Joined(Reads(v, sizes)) == Remaining(v)[..Least(Sum(sizes), v.body.left)]
  {
    ReadsArePieces(v, sizes);
    PiecesJoin(v.body.data, v.body.left, sizes);
  }

  lemma FirstRead(v: Value, sizes: seq<nat>)
    requires Sound(v) && sizes != []
    ensures var (w, first) := CallRead(v, sizes[0]);
            && Joined(Reads(v, sizes)) == first.bytes + Joined(Reads(w, sizes[1..]))
            && (v.body.Text? ==> first.bytes == Generate(v.body.data, v.body.left, sizes[0]).0)
  {
    var (w, first) := CallRead(v, sizes[0]);
    assert ([first] + Reads(w, sizes[1..]))[1..] == Reads(w, sizes[1..]);
  }

  lemma {:induction false} ReadsEnd(v: Value, sizes: seq<nat>, i: nat)
    requires Sound(v) && v.body.Text? && i < |sizes|
    ensures Reads(v, sizes)[i].eof <==> Sum(sizes[..i + 1]) >= v.body.left
    decreases |sizes|
  {
    var w := CallRead(v, sizes[0]).0;
    assert sizes[..i + 1][1..] == sizes[1..][..i];
    if i > 0 {
      if w.body.Text? {
        ReadsEnd(w, sizes[1..], i - 1);
      } else {
        ReadsAfterEnd(w, sizes[1..]);
      }
    }
  }

  /** The whole payload: reads that are long enough in all give it, and only then the end. */
  lemma PayloadRead(v: Value, data: seq<byte>, sizes: seq<nat>)
    requires v.body == Text(data, |data|)
    ensures Joined(Reads(v, sizes)) == data[..Least(Sum(sizes), |data|)]
    ensures Sum(sizes) >= |data| ==> Joined(Reads(v, sizes)) == data
    ensures forall i :: 0 <= i < |sizes| ==> (Reads(v, sizes)[i].eof <==> Sum(sizes[..i + 1]) >= |data|)
  {
    ReadsJoin(v, sizes);
    assert data[|data| - |data|..] == data;
    forall i | 0 <= i < |sizes| ensures Reads(v, sizes)[i].eof <==> Sum(sizes[..i + 1]) >= |data| {
      ReadsEnd(v, sizes, i);
    }
  }

  // ---------------------------------------------------------------------------
  // What is read in a run of calls is what was given to `end`.

  /** The sizes of the reads among the calls. */
  function Sizes(calls: seq<Call>): seq<nat>
    decreases |calls|
  {
    if calls == [] then []
    else (if calls[0].ReadCall? then [calls[0].len] else []) + Sizes(calls[1..])
  }

  /** The results of the reads among the calls. */
  function Results(head: bool, v: Value, calls: seq<Call>): seq<Read>
    requires Sound(v)
    decreases |calls|
  {
    if calls == [] then []
    else
      StepSound(head, v, calls[0]);
      (if calls[0].ReadCall? then [CallRead(v, calls[0].len).1] else []) +
      Results(head, Step(head, v, calls[0]), calls[1..])
  }

  predicate NoEnd(calls: seq<Call>) {
    forall i :: 0 <= i < |calls| ==> !calls[i].EndCall?
  }

  predicate Promised(calls: seq<Call>) {
    exists i :: 0 <= i < |calls| && calls[i].PromiseCall?
  }

  /** The head among these calls has closed the body: it is there, the response was started with it, and there is no
      body for HEAD, 204, 304 and the informational statuses but 101. */
  predicate Closes(head: bool, pushed: bool, calls: seq<Call>) {
    match FirstHead(calls)
    case None => false
    case Some((status, _)) =>
      && (head || status == 204 || status == 304 || (100 <= status < 200 && status != 101))
      && (pushed ==> Promised(calls))
  }

  lemma {:induction false} RunAppend(head: bool, v: Value, a: seq<Call>, b: seq<Call>)
    requires Sound(v)
    ensures Run(head, v, a + b) == Run(head, Run(head, v, a), b)
    decreases |a|
  {
    if a == [] {
      assert a + b == b;
    } else {
      assert (a + b)[0] == a[0] && (a + b)[1..] == a[1..] + b;
      StepSound(head, v, a[0]);
      RunAppend(head, Step(head, v, a[0]), a[1..], b);
    }
  }

  lemma {:induction false} FirstHeadAppend(a: seq<Call>, c: Call)
    ensures FirstHead(a + [c]) == if FirstHead(a).Some? then FirstHead(a) else FirstHead([c])
    decreases |a|
  {
    if a == [] {
      assert a + [c] == [c];
    } else {
      assert (a + [c])[0] == a[0] && (a + [c])[1..] == a[1..] + [c];
      FirstHeadAppend(a[1..], c);
    }
  }

  /** What is known of a response before its end. */
  predicate Unended(head: bool, pushed: bool, v: Value, calls: seq<Call>) {
    && v.body == Deferred && v.pushed == pushed && (v.promiseSent <==> Promised(calls))
    && (v.phase == Initial <==> FirstHead(calls) == None)
    && (FirstHead(calls).Some? ==> v.status == FirstHead(calls).value.0)
    && (v.phase == BodyStarted <==> Closes(head, pushed, calls))
  }

  lemma UnendedStep(head: bool, pushed: bool, v: Value, calls: seq<Call>, c: Call)
    requires Unended(head, pushed, v, calls) && !c.EndCall?
    ensures Unended(head, pushed, Step(head, v, c), calls + [c])
  {
    FirstHeadAppend(calls, c);
    PromisedAppend(calls, c);
    Bodiless(head, v.status);
    if c.HeadCall? {
      Bodiless(head, c.status);
    }
  }

  lemma PromisedAppend(calls: seq<Call>, c: Call)
    ensures Promised(calls + [c]) <==> Promised(calls) || c.PromiseCall?
  {
    var more := calls + [c];
    if Promised(calls) {
      var i :| 0 <= i < |calls| && calls[i].PromiseCall?;
      assert more[i].PromiseCall?;
    }
    if c.PromiseCall? {
      assert more[|calls|].PromiseCall?;
    }
  }

  lemma {:induction false} UnendedRun(head: bool, pushed: bool, calls: seq<Call>)
    requires NoEnd(calls)
    ensures Unended(head, pushed, Run(head, New(pushed), calls), calls)
    decreases |calls|
  {
    if calls != [] {
      var init, c := calls[..|calls| - 1], calls[|calls| - 1];
      assert calls == init + [c];
      UnendedRun(head, pushed, init);
      UnendedStep(head, pushed, Run(head, New(pushed), init), init, c);
      RunAppend(head, New(pushed), init, [c]);
    }
  }

  /** Once the body has started, the calls around the reads do not change what they give. */
  lemma BodyFixed(head: bool, v: Value, c: Call)
    requires Sound(v) && v.phase == BodyStarted
    ensures Step(head, v, c).phase == BodyStarted
    ensures !c.ReadCall? ==> Step(head, v, c).body == v.body
    ensures c.ReadCall? && v.body.Text? ==>
              var (bytes, after) := Generate(v.body.data, v.body.left, c.len);
              && CallRead(v, c.len).1.bytes == bytes
              && Step(head, v, c).body == if after > 0 then Text(v.body.data, after) else Finished
    ensures c.ReadCall? && !v.body.Text? ==> CallRead(v, c.len).1.bytes == [] && Step(head, v, c).body == v.body
  {
  }

  lemma ResultsStep(head: bool, v: Value, calls: seq<Call>)
    requires Sound(v) && calls != []
    ensures Sound(Step(head, v, calls[0]))
    ensures Results(head, v, calls) ==
            (if calls[0].ReadCall? then [CallRead(v, calls[0].len).1] else []) +
            Results(head, Step(head, v, calls[0]), calls[1..])
  {
    StepSound(head, v, calls[0]);
  }

  lemma ResultsNext(head: bool, v: Value, calls: seq<Call>)
    requires Sound(v) && calls != []
    ensures Sound(Step(head, v, calls[0]))
    ensures Joined(Results(head, v, calls)) ==
            (if calls[0].ReadCall? then CallRead(v, calls[0].len).1.bytes else []) +
            Joined(Results(head, Step(head, v, calls[0]), calls[1..]))
  {
    ResultsStep(head, v, calls);
    var rest := Results(head, Step(head, v, calls[0]), calls[1..]);
    if calls[0].ReadCall? {
      assert ([CallRead(v, calls[0].len).1] + rest)[1..] == rest;
    } else {
      assert [] + rest == rest;
    }
  }

  lemma SizesNext(calls: seq<Call>)
    requires calls != []
    ensures calls[0].ReadCall? ==> Sizes(calls) != [] && Sizes(calls)[0] == calls[0].len &&
                                   Sizes(calls)[1..] == Sizes(calls[1..])
    ensures !calls[0].ReadCall? ==> Sizes(calls) == Sizes(calls[1..])
  {
  }

  lemma {:induction false} NothingToRead(head: bool, v: Value, calls: seq<Call>)
    requires v.phase == BodyStarted && !v.body.Text?
    ensures Joined(Results(head, v, calls)) == []
    decreases |calls|
  {
    if calls != [] {
      BodyFixed(head, v, calls[0]);
      ResultsNext(head, v, calls);
      NothingToRead(head, Step(head, v, calls[0]), calls[1..]);
    }
  }

  lemma {:induction false} ResultsArePieces(head: bool, v: Value, calls: seq<Call>)
    requires Sound(v) && v.phase == BodyStarted && v.body.Text?
    ensures Joined(Results(head, v, calls)) == Pieces(v.body.data, v.body.left, Sizes(calls))
    decreases |calls|
  {
    if calls != [] {
      var w := Step(head, v, calls[0]);
      BodyFixed(head, v, calls[0]);
      ResultsNext(head, v, calls);
      if w.body.Text? {
        ResultsArePieces(head, w, calls[1..]);
      } else {
        NothingToRead(head, w, calls[1..]);
        PiecesJoin(v.body.data, 0, Sizes(calls[1..]));
      }
      PiecesNext(v.body.data, v.body.left, calls);
    }
  }

  lemma PiecesNext(data: seq<byte>, left: nat, calls: seq<Call>)
    requires left <= |data| && calls != []
    ensures Pieces(data, left, Sizes(calls)) ==
            if calls[0].ReadCall? then
              var (bytes, after) := Generate(data, left, calls[0].len); bytes + Pieces(data, after, Sizes(calls[1..]))
            else Pieces(data, left, Sizes(calls[1..]))
  {
    SizesNext(calls);
  }

  /** What the first `end` does after calls without one. */
  lemma EndTakes(head: bool, pushed: bool, v: Value, calls: seq<Call>, data: seq<byte>)
    requires Unended(head, pushed, v, calls)
    ensures var w := Step(head, v, EndCall(data));
            w.phase == BodyStarted && w.body == if Closes(head, pushed, calls) then Deferred else Text(data, |data|)
  {
  }

  /** The reads after the first `end`, whatever other calls stand before it, between them and behind them, join to the
      data that `end` was given; they give nothing when a head before it had closed the body. */
  lemma DataRead(head: bool, pushed: bool, before: seq<Call>, data: seq<byte>, after: seq<Call>)
    requires NoEnd(before)
    ensures var v := Run(head, New(pushed), before + [EndCall(data)]);
            Joined(Results(head, v, after)) ==
            if Closes(head, pushed, before) then [] else data[..Least(Sum(Sizes(after)), |data|)]
  {
    var v, e := Run(head, New(pushed), before), EndCall(data);
    UnendedRun(head, pushed, before);
    RunAppend(head, New(pushed), before, [e]);
    EndTakes(head, pushed, v, before, data);
    var w := Step(head, v, e);
    assert Run(head, v, [e]) == w;
    if Closes(head, pushed, before) {
      NothingToRead(head, w, after);
    } else {
      ResultsArePieces(head, w, after);
      PiecesJoin(data, |data|, Sizes(after));
      assert data[|data| - |data|..] == data;
    }
  }

  /** The size of the data of the last `end`, whether they were taken or not. */
  function LastSize(calls: seq<Call>): nat
    decreases |calls|
  {
    if calls == [] then 0
    else
      var last := calls[|calls| - 1];
      if last.EndCall? then |last.data| else LastSize(calls[..|calls| - 1])
  }

  lemma {:induction false} PayloadSize(head: bool, pushed: bool, calls: seq<Call>)
    ensures Run(head, New(pushed), calls).payloadSize == LastSize(calls)
    decreases |calls|
  {
    if calls != [] {
      var init, c := calls[..|calls| - 1], calls[|calls| - 1];
      assert calls == init + [c];
      PayloadSize(head, pushed, init);
      RunAppend(head, New(pushed), init, [c]);
      SizeStep(head, Run(head, New(pushed), init), c);
    }
  }

  lemma SizeStep(head: bool, v: Value, c: Call)
    requires Sound(v)
    ensures Step(head, v, c).payloadSize == if c.EndCall? then |c.data| else v.payloadSize
  {
  }

  // ---------------------------------------------------------------------------
  // Trailers.

  /** The trailers set last, if any call sets them. */
  function LastTrailer(was: Headers, calls: seq<Call>): Headers
    decreases |calls|
  {
    if calls == [] then was
    else LastTrailer(if calls[0].TrailerCall? then calls[0].trailers else was, calls[1..])
  }

  /** The trailers of the calls that set some. */
  function TrailersSet(calls: seq<Call>): seq<Headers>
    decreases |calls|
  {
    if calls == [] then []
    else SetBy(calls[0]) + TrailersSet(calls[1..])
  }

  function SetBy(c: Call): seq<Headers> {
    if c.TrailerCall? && c.trailers != map[] then [c.trailers] else []
  }

  /** A body other than the deferred one is fixed. */
  predicate Settled(v: Value) {
    Sound(v) && (v.body != Deferred ==> v.phase == BodyStarted) && (v.body == Finished ==> v.trailers == map[])
  }

  /** Before the end of the body a call only keeps the trailers it sets, and nothing is submitted. */
  lemma TrailerKept(head: bool, v: Value, c: Call)
    requires Settled(v) && v.body != Finished && !c.ReadCall?
    ensures var w := Step(head, v, c);
            Settled(w) && w.body != Finished && w.submitted == v.submitted &&
            w.trailers == if c.TrailerCall? then c.trailers else v.trailers
  {
  }

  lemma TrailerRead(head: bool, v: Value, n: nat)
    requires Settled(v) && v.body != Finished
    ensures var w := Step(head, v, ReadCall(n));
            && Settled(w) && (w.body == Finished <==> CallRead(v, n).1.eof)
            && (w.body != Finished ==> w.submitted == v.submitted && w.trailers == v.trailers)
            && (w.body == Finished ==>
                  w.submitted == v.submitted + if v.trailers != map[] then [v.trailers] else [])
  {
  }

  /** After it, trailers are submitted as soon as they are set. */
  lemma TrailerSubmitted(head: bool, v: Value, c: Call)
    requires Settled(v) && v.body == Finished
    ensures var w := Step(head, v, c); Settled(w) && w.body == Finished && w.submitted == v.submitted + SetBy(c)
  {
  }

  predicate NoEof(results: seq<Read>) {
    forall i :: 0 <= i < |results| ==> !results[i].eof
  }

  lemma {:induction false} TrailersKept(head: bool, v: Value, calls: seq<Call>)
    requires Settled(v) && v.body != Finished && NoEof(Results(head, v, calls))
    ensures var w := Run(head, v, calls);
            Settled(w) && w.body != Finished && w.submitted == v.submitted &&
              w.trailers == LastTrailer(v.trailers, calls)
    decreases |calls|
  {
    if calls != [] {
      var c, w := calls[0], Step(head, v, calls[0]);
      NoEofNext(head, v, calls);
      if c.ReadCall? {
        TrailerRead(head, v, c.len);
      } else {
        TrailerKept(head, v, c);
      }
      TrailersKept(head, w, calls[1..]);
    }
  }

  lemma NoEofNext(head: bool, v: Value, calls: seq<Call>)
    requires Sound(v) && calls != [] && NoEof(Results(head, v, calls))
    ensures Sound(Step(head, v, calls[0])) && NoEof(Results(head, Step(head, v, calls[0]), calls[1..]))
    ensures calls[0].ReadCall? ==> !CallRead(v, calls[0].len).1.eof
  {
    ResultsStep(head, v, calls);
    var first := if calls[0].ReadCall? then [CallRead(v, calls[0].len).1] else [];
    NoEofParts(first, Results(head, Step(head, v, calls[0]), calls[1..]));
    assert first != [] ==> !first[0].eof;
  }

  lemma NoEofParts(a: seq<Read>, b: seq<Read>)
    requires NoEof(a + b)
    ensures NoEof(a) && NoEof(b)
  {
    assert forall i :: 0 <= i < |a| ==> a[i] == (a + b)[i];
    assert forall i :: 0 <= i < |b| ==> b[i] == (a + b)[|a| + i];
  }

  lemma {:induction false} TrailersSubmitted(head: bool, v: Value, calls: seq<Call>)
    requires Settled(v) && v.body == Finished
    ensures Run(head, v, calls).submitted == v.submitted + TrailersSet(calls)
    decreases |calls|
  {
    if calls != [] {
      TrailerSubmitted(head, v, calls[0]);
      TrailersSubmitted(head, Step(head, v, calls[0]), calls[1..]);
    }
  }

  /** Over every run: nothing is submitted before a read has given the end; with the first such read the trailers set
      last are, and afterwards each that is set. */
  lemma TrailersGiven(head: bool, pushed: bool, before: seq<Call>, n: nat, after: seq<Call>)
    requires NoEof(Results(head, New(pushed), before)) && CallRead(Run(head, New(pushed), before), n).1.eof
    ensures var last := LastTrailer(map[], before);
            && Run(head, New(pushed), before).submitted == []
            && Run(head, New(pushed), before + [ReadCall(n)] + after).submitted ==
               (if last != map[] then [last] else []) + TrailersSet(after)
  {
    var v := Run(head, New(pushed), before);
    TrailersKept(head, New(pushed), before);
    TrailerRead(head, v, n);
    var w := Step(head, v, ReadCall(n));
    assert Run(head, v, [ReadCall(n)]) == w;
    RunAppend(head, New(pushed), before, [ReadCall(n)]);
    RunAppend(head, New(pushed), before + [ReadCall(n)], after);
    TrailersSubmitted(head, w, after);
  }

  // ---------------------------------------------------------------------------
  // The object.

  class Response {
    const head: bool
    var state: Phase
    var statusCode: nat
    var header: Headers
    var trailers: Headers
    var generator: Body
    var payloadSize: nat
    const pushed: bool
    var pushPromiseSent: bool
    // the calls of the handler
    ghost var starts: nat
    ghost var submitted: seq<Headers>

    ghost function Now(): Value
      reads this
    {
      Value(state, statusCode, header, trailers, generator, payloadSize, pushed, pushPromiseSent, starts, submitted)
    }

    constructor (head: bool, pushed: bool)
      ensures this.head == head && Now() == New(pushed)
    {
      this.head, this.pushed := head, pushed;
      state, statusCode, header, trailers, generator := Initial, 200, map[], map[], Deferred;
      payloadSize, pushPromiseSent, starts, submitted := 0, false, 0, [];
    }

    method StartResponse()
      modifies this`state, this`starts
      ensures Now() == Begun(head, old(Now()))
    {
      if !ExpectBody(head, statusCode) {
        state := BodyStarted;
      }
      starts := starts + 1;
    }

    method SetHead(status: nat, h: Headers)
      modifies this
      ensures Now() == WriteHead(head, old(Now()), status, h)
    {
      if state != Initial {
        return;
      }
      statusCode := status;
      header := h;
      state := HeaderDone;
      if pushed && !pushPromiseSent {
        return;
      }
      StartResponse();
    }

    method Finish(data: seq<byte>)
      modifies this
      ensures Now() == End(head, old(Now()), data)
    {
      payloadSize := |data|;
      if state == BodyStarted {
        return;
      }
      generator := Text(data, |data|);
      if state == Initial {
        SetHead(statusCode, map[]);
      }
      state := BodyStarted;
    }

    method PushPromiseSent()
      modifies this
      ensures Now() == PromiseSent(head, old(Now()))
    {
      if pushPromiseSent {
        return;
      }
      pushPromiseSent := true;
      if state == Initial {
        return;
      }
      StartResponse();
    }

    method GiveTrailer()
      modifies this`trailers, this`submitted
      ensures Now() == SendTrailer(old(Now()))
    {
      if trailers != map[] {
        submitted := submitted + [trailers];
        trailers := map[];
      }
    }

    method SetTrailer(h: Headers)
      modifies this`trailers, this`submitted
      ensures Now() == WriteTrailer(old(Now()), h)
    {
      trailers := h;
      if generator == Finished {
        GiveTrailer();
      }
    }

    /** The call of the generator: the bytes go to the front of the buffer. */
    method Produce(buf: array<byte>, len: nat) returns (n: nat, eof: bool)
      requires Sound(Now()) && generator.Text? && len <= buf.Length
      modifies this`generator, buf
      ensures var (bytes, after) := Generate(old(generator).data, old(generator).left, len);
              && n == |bytes| && buf[..n] == bytes && generator == Text(old(generator).data, after) &&
                 eof == (after == 0)
    {
      var data, left := generator.data, generator.left;
      n := Least(len, left);
      for i := 0 to n
        invariant buf[..i] == data[|data| - left..|data| - left + i] && generator == old(generator)
      {
        buf[i] := data[|data| - left + i];
      }
      generator := Text(data, left - n);
      eof := left - n == 0;
    }

    method ReadBody(buf: array<byte>, len: nat) returns (n: nat, deferred: bool, eof: bool, noEnd: bool)
      requires Sound(Now()) && len <= buf.Length
      modifies this, buf
      ensures n <= buf.Length
      ensures var (w, r) := CallRead(old(Now()), len); Now() == w && Read(buf[..n], deferred, eof, noEnd) == r
    {
      n, deferred, eof, noEnd := 0, false, false, false;
      match generator {
        case Deferred => deferred := true;
        case Text(_, _) =>
          n, eof := Produce(buf, len);
          if eof {
            generator := Finished;
          }
        case Finished => eof := true;
      }
      if eof && trailers != map[] {
        noEnd := true;
        GiveTrailer();
      }
    }
  }
}
