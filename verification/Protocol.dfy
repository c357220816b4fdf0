/**
 * A server connection as a step machine. The steps are the completions the event loop delivers: a read, a
 * write, the posted `initiate_write`, the deadline, and an application's response arriving outside any
 * callback. Between two steps nothing runs.
 */
module Protocol {
  import opened Bytes
  import opened Handlers

  /** The size of the output buffer. */
  const OUT_SIZE: nat := 65536

  /**
   * Over HTTP/2, the chunks the session has to send and the chunk held back (empty for none).
   * Over HTTP/1, the number of requests begun, the open streams and the streams whose response has started.
   */
  datatype Handler =
    | Http2(session: seq<seq<int>>, held: seq<int>)
    | Http1(count: nat, open: seq<nat>, ready: seq<nat>)

  /**
   * The connection with its handler. What is written are bytes over HTTP/2, and over HTTP/1 stream ids, each
   * for a whole response.
   *
   * `posted` counts the `initiate_write` calls in the event loop, `pendingReads` and `pendingWrites` the operations in
   * flight. A write in flight refers to the first `nwrite` units of `outbuf`. Three histories are kept: what
   * the session produced, what was handed to writes, and what completed writes took out of the buffer.
   * `unread` says that no read has completed, `broken` that an assertion of `enter_callback` or
   * `leave_callback` failed.
   */
  datatype State = State(
    h: Handler,
    inside: bool, signaled: bool, armed: bool, posted: nat,
    writing: bool, stopped: bool, pendingReads: nat, pendingWrites: nat,
    outbuf: seq<int>, nwrite: nat,
    produced: seq<int>, handed: seq<int>, delivered: seq<int>,
    unread: bool, broken: bool)

  // ---------------------------------------------------------------------------
  // The handler.

  function Enter(s: State): State {
    s.(inside := true, broken := s.broken || s.inside)
  }

  function Leave(s: State): State {
    s.(inside := false, broken := s.broken || !s.inside)
  }

  function Signal(s: State): State {
    if !s.inside && !s.signaled then s.(signaled := true, posted := s.posted + 1) else s
  }

  /** What the session, the parser or an application does to the handler. */
  datatype Action =
    | Enqueue(chunks: seq<seq<int>>)
    | Begin
    | Start(id: nat)
    | Close(id: nat)

  function Act(s: State, a: Action): State {
    match (s.h, a)
    case (Http2(session, held), Enqueue(chunks)) =>
      Signal(s.(h := Http2(session + chunks, held), produced := s.produced + Flat(chunks)))
    case (Http1(count, open, ready), Begin) =>
      s.(h := Http1(count + 1, open + [count + 1], ready))
    case (Http1(count, open, ready), Start(id)) =>
      if id in open then Signal(s.(h := Http1(count, open, Insert(ready, id)))) else s
    case (Http1(count, open, ready), Close(id)) =>
      s.(h := Http1(count, Erase(open, id), ready))
    case _ => s
  }

  function Acts(s: State, actions: seq<Action>): State
    decreases |actions|
  {
    if actions == [] then s else Acts(Act(s, actions[0]), actions[1..])
  }

  function OnRead(s: State, actions: seq<Action>): State {
    Leave(Acts(Enter(s), actions))
  }

  /**
   * What surrounds one call of `on_write`: the chunks the session adds during it, the number of chunks it
   * gives before it fails, and the answer of `should_stop`.
   */
  datatype Around = Around(more: seq<seq<int>>, fails: Option<nat>, stop: bool)

  /** How many chunks the session gives, if no chunk is held back before. */
  function Given(all: seq<seq<int>>, fails: Option<nat>): (k: nat)
    ensures k <= |all|
  {
    if fails.Some? && fails.value < |all| then fails.value else |all|
  }

  /** The handler after `on_write`, and what it put into the buffer. */
  function Emit(h: Handler, w: Around): (Handler, seq<int>) {
    match h
    case Http2(session, held) =>
      var all := session + w.more;
      var k := Given(all, w.fails);
      var f := Fill(all[..k], held, OUT_SIZE);
      (Http2(f.rest + all[k..], f.held), f.out)
    case Http1(count, open, ready) =>
      var k := Consecutive(open, ready);
      (Http1(count, EraseAll(open, ready[..k]), ready[k..]), ready[..k])
  }

  /** The buffer with its front overwritten. */
  function Overwritten(outbuf: seq<int>, out: seq<int>): seq<int> {
    out + if |out| <= |outbuf| then outbuf[|out|..] else []
  }

  function OnWrite(s: State, w: Around): State {
    var e := Enter(s);
    var (h, out) := Emit(e.h, w);
    var added := if e.h.Http2? then Flat(w.more) else [];
    Leave(e.(h := h, outbuf := Overwritten(s.outbuf, out), produced := s.produced + added))
  }

  function Written(s: State, w: Around): seq<int> {
    Emit(s.h, w).1
  }

  /** The session fails, unless a chunk is held back before. */
  predicate Fails(s: State, w: Around) {
    s.h.Http2? && w.fails.Some? && w.fails.value <= |s.h.session + w.more| && Emit(s.h, w).0.held == []
  }

  // ---------------------------------------------------------------------------
  // The connection.

  function Stop(s: State): State {
    if s.stopped then s else s.(stopped := true, armed := false)
  }

  function DoRead(s: State): State {
    if s.stopped then s else s.(pendingReads := s.pendingReads + 1)
  }

  function DoWrite(s: State, w: Around): State {
    if s.stopped || s.writing then s
    else
      var t := OnWrite(s, w);
      var out := Written(s, w);
      if Fails(s, w) then Stop(t)
      else if out == [] then (if w.stop then Stop(t) else t)
      else t.(writing := true, pendingWrites := t.pendingWrites + 1, nwrite := |out|, handed := t.handed + out)
  }

  datatype Event =
    | ReadDone(error: bool, actions: seq<Action>, failed: bool, around: Around, stop: bool)
    | WriteDone(error: bool, around: Around)
    | InitiateWrite(around: Around)
    | Application(action: Action)
    | Deadline

  /** The read is no longer in flight. */
  function ReadTaken(s: State): State {
    s.(pendingReads := if s.pendingReads > 0 then s.pendingReads - 1 else 0)
  }

  function WriteTaken(s: State): State {
    s.(pendingWrites := if s.pendingWrites > 0 then s.pendingWrites - 1 else 0)
  }

  /** The write has taken its units out of the buffer. */
  function WriteCompleted(s: State): State {
    var sent := if s.nwrite <= |s.outbuf| then s.outbuf[..s.nwrite] else s.outbuf;
    WriteTaken(s).(writing := false, delivered := s.delivered + sent)
  }

  function PostTaken(s: State): State {
    s.(posted := if s.posted > 0 then s.posted - 1 else 0, signaled := false)
  }

  function ReadHandled(s: State, actions: seq<Action>): State {
    OnRead(ReadTaken(s), actions).(unread := false)
  }

  /** The rest of the completion of a read. */
  function ReadOn(s: State, stop: bool): State {
    if !s.writing && stop then Stop(s) else DoRead(s)
  }

  function Step(s: State, e: Event): State {
    match e
    case ReadDone(error, actions, failed, around, stop) =>
      if error then Stop(ReadTaken(s))
      else if failed then Stop(ReadHandled(s, actions))
      else ReadOn(DoWrite(ReadHandled(s, actions), around), stop)
    case WriteDone(error, around) =>
      if error then Stop(WriteTaken(s)) else DoWrite(WriteCompleted(s), around)
    case InitiateWrite(around) =>
      if s.armed then DoWrite(PostTaken(s), around) else PostTaken(s)
    case Application(action) => Act(s, action)
    case Deadline => Stop(s)
  }

  function Zeros(): (z: seq<int>)
    ensures |z| == OUT_SIZE
  {
    seq(OUT_SIZE, _ => 0)
  }

  /** A connection that has just started to read; the settings frame is in the session. */
  function Started(h: Handler): State {
    State(h, false, false, true, 0, false, false, 1, 0, Zeros(), 0, if h.Http2? then Flat(h.session)
      else [], [], [], true, false)
  }

  predicate Initial(s: State) {
    && s == Started(s.h)
    && match s.h
       case Http2(session, held) => Fit(session, OUT_SIZE) && held == []
       case Http1(count, open, ready) => count == 0 && open == [] && ready == []
  }

  // ---------------------------------------------------------------------------
  // Which events can happen.

  /** Chunks fit the buffer; a stream is not closed once its response has started. */
  predicate Possible(h: Handler, a: Action) {
    match a
    case Enqueue(chunks) => h.Http2? && Fit(chunks, OUT_SIZE)
    case Begin => h.Http1?
    case Start(id) => h.Http1?
    case Close(id) => h.Http1? && id !in h.ready
  }

  predicate AllPossible(s: State, actions: seq<Action>)
    decreases |actions|
  {
    actions != [] ==> Possible(s.h, actions[0]) && AllPossible(Act(s, actions[0]), actions[1..])
  }

  /** There is something that `on_write` would put into the buffer. */
  predicate Pending(h: Handler) {
    match h
    case Http2(session, held) => held != [] || session != []
    case Http1(count, open, ready) => Consecutive(open, ready) > 0
  }

  /** Closing this stream makes the response behind it the next, and nothing is on its way to write it. */
  predicate Strands(s: State, id: nat) {
    && s.h.Http1? && !s.stopped && !s.writing && !s.signaled
    && |s.h.open| > 1 && s.h.open[0] == id && s.h.ready != [] && s.h.ready[0] == s.h.open[1]
  }

  predicate Enabled(s: State, e: Event) {
    match e
    case ReadDone(error, actions, failed, around, stop) => s.pendingReads > 0 &&
      AllPossible(Enter(ReadTaken(s)), actions) && Fit(around.more, OUT_SIZE)
    case WriteDone(error, around) => s.pendingWrites > 0 && Fit(around.more, OUT_SIZE)
    case InitiateWrite(around) => s.posted > 0 && Fit(around.more, OUT_SIZE)
    case Application(action) => !action.Begin? && Possible(s.h, action) && (action.Close? ==> !Strands(s, action.id))
    case Deadline => true
  }

  /** A run: every event is enabled where it happens. */
  predicate Allowed(s: State, events: seq<Event>)
    decreases |events|
  {
    events != [] ==> Enabled(s, events[0]) && Allowed(Step(s, events[0]), events[1..])
  }

  function Run(s: State, events: seq<Event>): State
    decreases |events|
  {
    if events == [] then s else Run(Step(s, events[0]), events[1..])
  }

  // ---------------------------------------------------------------------------
  // What every step keeps.

  predicate WellFormed(h: Handler) {
    match h
    case Http2(session, held) => Fit(session, OUT_SIZE) && |held| <= OUT_SIZE
    case Http1(count, open, ready) =>
      Sorted(open) && Sorted(ready) && Within(ready, open) && forall i :: 0 <= i < |open| ==> 0 < open[i] <= count
  }

  /** The flags, the posted call and the write in flight agree. */
  predicate Control(s: State) {
    && !s.broken
    && s.posted == (if s.signaled then 1 else 0)
    && s.pendingReads <= 1 && s.pendingWrites <= 1
    && (s.armed <==> !s.stopped)
    && (s.pendingWrites == 1 ==> s.writing)
    && (!s.stopped && s.writing ==> s.pendingWrites == 1)
  }

  /** A write in flight finds in the buffer what was handed to it. */
  predicate Buffer(s: State) {
    && (s.pendingWrites == 1 ==> 0 < s.nwrite <= |s.outbuf| && s.delivered + s.outbuf[..s.nwrite] == s.handed)
    && (!s.stopped && !s.writing ==> s.delivered == s.handed)
    && s.delivered <= s.handed
    && (s.h.Http2? ==> |s.outbuf| == OUT_SIZE)
  }

  /** Everything the session produced was handed to writes, or is held back, or is still in the session. */
  predicate Conserved(s: State) {
    s.h.Http2? && !s.stopped ==> s.handed + s.h.held + Flat(s.h.session) == s.produced
  }

  /** The ids increase, and every open stream comes after all of them. */
  predicate InOrder(ids: seq<int>, open: seq<nat>, count: nat) {
    && (forall i, j :: 0 <= i < j < |ids| ==> ids[i] < ids[j])
    && (forall i, j :: 0 <= i < |ids| && 0 <= j < |open| ==> ids[i] < open[j])
    && (forall i :: 0 <= i < |ids| ==> ids[i] <= count)
  }

  /** Responses were handed to writes in request order, and none of them is behind an open stream. */
  predicate Ordered(s: State) {
    s.h.Http1? ==> InOrder(s.handed, s.h.open, s.h.count)
  }

  predicate Core(s: State) {
    WellFormed(s.h) && Control(s) && Buffer(s) && Conserved(s) && Ordered(s)
  }

  /** Nothing that could be written waits without a write in flight or a posted call. */
  predicate Awake(s: State) {
    !s.stopped && !s.unread && Pending(s.h) ==> s.writing || s.signaled
  }

  predicate Invariant(s: State) {
    Core(s) && !s.inside && Awake(s) && (!s.stopped ==> s.pendingReads == 1)
    && (s.unread && s.h.Http1? ==> s.h.open == [] && s.h.ready == [])
  }
}
