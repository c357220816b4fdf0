/** What holds over every run of the connection's steps. */
module Runs {
  import opened Bytes
  import opened Handlers
  import opened Protocol

  // ---------------------------------------------------------------------------
  // Actions on the handler.

  lemma FitAppend(a: seq<seq<int>>, b: seq<seq<int>>)
    requires Fit(a, OUT_SIZE) && Fit(b, OUT_SIZE)
    ensures Fit(a + b, OUT_SIZE)
  {
  }

  lemma ActWellFormed(s: State, a: Action)
    requires WellFormed(s.h) && Possible(s.h, a)
    ensures WellFormed(Act(s, a).h)
  {
    match a
    case Enqueue(chunks) => FitAppend(s.h.session, chunks);
    case Begin =>
    case Start(id) => InsertSorted(s.h.ready, id);
    case Close(id) =>
      EraseSorted(s.h.open, id);
      assert forall i :: 0 <= i < |Erase(s.h.open, id)| ==> Erase(s.h.open, id)[i] in s.h.open;
  }

  lemma ActConserves(s: State, a: Action)
    requires Conserved(s) && Possible(s.h, a)
    ensures Conserved(Act(s, a))
  {
    if a.Enqueue? {
      FlatAppend(s.h.session, a.chunks);
      assert s.handed + s.h.held + (Flat(s.h.session) + Flat(a.chunks)) ==
             s.handed + s.h.held + Flat(s.h.session) + Flat(a.chunks);
    }
  }

  lemma InOrderErased(ids: seq<int>, open: seq<nat>, count: nat, id: nat)
    requires InOrder(ids, open, count) && Sorted(open)
    ensures InOrder(ids, Erase(open, id), count)
  {
    EraseSorted(open, id);
    forall i, j | 0 <= i < |ids| && 0 <= j < |Erase(open, id)| ensures ids[i] < Erase(open, id)[j] {
      assert Erase(open, id)[j] in open;
    }
  }

  lemma InOrderBegun(ids: seq<int>, open: seq<nat>, count: nat)
    requires InOrder(ids, open, count)
    ensures InOrder(ids, open + [count + 1], count + 1)
  {
  }

  lemma InOrderMoved(ids: seq<int>, open: seq<nat>, count: nat, k: nat)
    requires InOrder(ids, open, count) && Sorted(open) && k <= |open| && forall i :: 0 <= i < |open| ==>
             open[i] <= count
    ensures InOrder(ids + open[..k], open[k..], count)
  {
  }

  lemma ActOrders(s: State, a: Action)
    requires WellFormed(s.h) && Ordered(s) && Possible(s.h, a)
    ensures Ordered(Act(s, a))
  {
    if a.Close? {
      InOrderErased(s.handed, s.h.open, s.h.count, a.id);
    } else if a.Begin? {
      InOrderBegun(s.handed, s.h.open, s.h.count);
    }
  }

  lemma ActCore(s: State, a: Action)
    requires Core(s) && Possible(s.h, a)
    ensures Core(Act(s, a))
  {
    ActWellFormed(s, a);
    ActConserves(s, a);
    ActOrders(s, a);
  }

  /** An action touches neither the connection's flags nor its buffer; inside a callback it posts nothing. */
  predicate SameConnection(s: State, t: State) {
    && s.h.Http2? == t.h.Http2? && s.inside == t.inside && s.writing == t.writing && s.stopped == t.stopped
    && s.pendingReads == t.pendingReads && s.unread == t.unread
    && (s.inside ==> s.signaled == t.signaled) && (s.signaled ==> t.signaled)
  }

  lemma ActSame(s: State, a: Action)
    ensures SameConnection(s, Act(s, a))
  {
  }

  lemma {:induction false} ActsCore(s: State, actions: seq<Action>)
    requires Core(s) && AllPossible(s, actions)
    ensures Core(Acts(s, actions)) && SameConnection(s, Acts(s, actions))
    decreases |actions|
  {
    if actions != [] {
      ActCore(s, actions[0]);
      ActSame(s, actions[0]);
      ActsCore(Act(s, actions[0]), actions[1..]);
    }
  }

  // ---------------------------------------------------------------------------
  // Actions outside a callback.

  /** The first open stream is ready after another was closed. */
  lemma CloseExposes(open: seq<nat>, ready: seq<nat>, id: nat)
    requires Sorted(open) && Sorted(ready) && Within(ready, open) && id !in ready
    ensures Consecutive(Erase(open, id), ready) > 0 <==>
            Consecutive(open, ready) > 0 || (|open| > 1 && open[0] == id && ready != [] && ready[0] == open[1])
  {
    if open != [] && open[0] == id {
      assert ready != [] ==> ready[0] in ready && ready[0] in open;
    }
  }

  /**
   * Closing a stream without a response posts no write. Everything that can be written is still on its way
   * exactly when the closed stream was not all that held back a started response.
   */
  lemma CloseAwake(s: State, id: nat)
    requires Invariant(s) && s.h.Http1? && id !in s.h.ready
    ensures Awake(Act(s, Close(id))) <==> !Strands(s, id)
  {
    CloseExposes(s.h.open, s.h.ready, id);
  }

  lemma ActAwake(s: State, a: Action)
    requires Invariant(s) && Enabled(s, Application(a))
    ensures Awake(Act(s, a))
  {
    match a
    case Enqueue(chunks) =>
    case Start(id) =>
    case Close(id) => CloseAwake(s, id);
  }

  // ---------------------------------------------------------------------------
  // Writes.

  lemma EmitFits(h: Handler, w: Around)
    requires WellFormed(h) && h.Http2? && Fit(w.more, OUT_SIZE)
    ensures WellFormed(Emit(h, w).0) && |Emit(h, w).1| <= OUT_SIZE
  {
    var all := h.session + w.more;
    FitAppend(h.session, w.more);
    var k := Given(all, w.fails);
    FillFits(all[..k], h.held, OUT_SIZE);
    FitAppend(Fill(all[..k], h.held, OUT_SIZE).rest, all[k..]);
  }

  lemma EmitFills(h: Handler, w: Around)
    requires WellFormed(h) && h.Http2? && Fit(w.more, OUT_SIZE)
    requires w.fails.Some? && w.fails.value <= |h.session + w.more| ==> Emit(h, w).0.held != []
    ensures var (t, out) := Emit(h, w);
            t.Http2? &&
            Fill(h.session + w.more, h.held, OUT_SIZE) == Filled(out, t.held, t.session)
  {
    var all := h.session + w.more;
    FitAppend(h.session, w.more);
    var k := Given(all, w.fails);
    var f := Fill(all[..k], h.held, OUT_SIZE);
    if k < |all| {
      FillPrefix(all, k, h.held, OUT_SIZE);
    } else {
      assert all[..k] == all && all[k..] == [];
      assert f.rest + [] == f.rest;
    }
  }

  lemma EmitBytes(h: Handler, w: Around)
    requires WellFormed(h) && h.Http2? && Fit(w.more, OUT_SIZE)
    requires w.fails.Some? && w.fails.value <= |h.session + w.more| ==> Emit(h, w).0.held != []
    ensures var (t, out) := Emit(h, w);
            && t.Http2? && out + t.held + Flat(t.session) == h.held + Flat(h.session) + Flat(w.more)
            && (out == [] ==> !Pending(t))
  {
    var all := h.session + w.more;
    EmitFills(h, w);
    FitAppend(h.session, w.more);
    FillConserves(all, h.held, OUT_SIZE);
    FillProgress(all, h.held, OUT_SIZE);
    FlatAppend(h.session, w.more);
    assert h.held + (Flat(h.session) + Flat(w.more)) == h.held + Flat(h.session) + Flat(w.more);
  }

  lemma EmitIds(h: Handler, w: Around)
    requires WellFormed(h) && h.Http1?
    ensures var (t, out) := Emit(h, w); var k := |out|;
            && WellFormed(t) && t.Http1? && k <= |h.open| && out == h.open[..k] && t.open == h.open[k..] &&
               t.count == h.count
            && (out == [] ==> !Pending(t))
  {
    RunIsHead(h.open, h.ready);
    var k := Consecutive(h.open, h.ready);
    assert forall i :: 0 <= i < |h.open[k..]| ==> h.open[k..][i] == h.open[k + i];
    if k == 0 {
      assert h.open[0..] == h.open && h.ready[0..] == h.ready;
    }
  }

  lemma Overwrites(outbuf: seq<int>, out: seq<int>)
    ensures |out| <= |Overwritten(outbuf, out)| && Overwritten(outbuf, out)[..|out|] == out
  {
  }

  /** A write that is begun keeps the order of responses. */
  lemma WriteOrders(s: State, w: Around)
    requires WellFormed(s.h) && Ordered(s)
    ensures Ordered(OnWrite(s, w).(handed := s.handed + Written(s, w)))
  {
    if s.h.Http1? {
      EmitIds(s.h, w);
      InOrderMoved(s.handed, s.h.open, s.h.count, |Written(s, w)|);
    }
  }

  lemma Regroup(p: seq<int>, a: seq<int>, b: seq<int>, c: seq<int>)
    ensures p + a + b + c == p + (a + b + c)
  {
  }

  lemma BytesConservedBy(s: State, w: Around, t: Handler, out: seq<int>)
    requires WellFormed(s.h) && Conserved(s) && Fit(w.more, OUT_SIZE) && !Fails(s, w) && !s.stopped && s.h.Http2?
    requires Emit(s.h, w) == (t, out)
    ensures t.Http2? && s.handed + out + t.held + Flat(t.session) == s.produced + Flat(w.more) &&
            (out == [] ==> !Pending(t))
  {
    EmitBytes(s.h, w);
    Regroup(s.handed, out, t.held, Flat(t.session));
    Regroup(s.handed, s.h.held, Flat(s.h.session), Flat(w.more));
  }

  lemma WriteConserves(s: State, w: Around)
    requires WellFormed(s.h) && Conserved(s) && Fit(w.more, OUT_SIZE) && !Fails(s, w) && !s.stopped
    ensures Conserved(OnWrite(s, w).(handed := s.handed + Written(s, w)))
    ensures Written(s, w) == [] ==> !Pending(OnWrite(s, w).h)
  {
    if s.h.Http2? {
      BytesConservedBy(s, w, Emit(s.h, w).0, Emit(s.h, w).1);
    } else {
      EmitIds(s.h, w);
    }
  }

  lemma WriteFits(s: State, w: Around)
    requires WellFormed(s.h) && Fit(w.more, OUT_SIZE)
    ensures WellFormed(OnWrite(s, w).h) && OnWrite(s, w).h.Http1? == s.h.Http1?
    ensures s.h.Http2? ==> |Written(s, w)| <= OUT_SIZE
  {
    if s.h.Http2? {
      EmitFits(s.h, w);
    } else {
      EmitIds(s.h, w);
    }
  }

  /** The buffer is written only when no write refers to it. */
  lemma WriteBuffers(s: State, w: Around)
    requires WellFormed(s.h) && Control(s) && Buffer(s) && Fit(w.more, OUT_SIZE) && !s.inside && !s.stopped &&
             !s.writing
    ensures Control(DoWrite(s, w)) && Buffer(DoWrite(s, w))
  {
    WriteFits(s, w);
    Overwrites(s.outbuf, Written(s, w));
  }

  /** `do_write` leaves nothing to be written, unless a write is in flight. */
  lemma DoWriteCore(s: State, w: Around)
    requires Core(s) && !s.inside && Fit(w.more, OUT_SIZE)
    ensures var t := DoWrite(s, w);
            && Core(t) && !t.inside && t.pendingReads == s.pendingReads && t.unread == s.unread &&
               t.signaled == s.signaled
            && t.h.Http1? == s.h.Http1?
            && (t.stopped || t.writing || !Pending(t.h))
  {
    if !s.stopped && !s.writing {
      WriteFits(s, w);
      WriteBuffers(s, w);
      WriteOrders(s, w);
      if !Fails(s, w) {
        WriteConserves(s, w);
      }
      assert s.handed + [] == s.handed;
    }
  }

  // ---------------------------------------------------------------------------
  // Steps.

  lemma HandledCore(s: State, actions: seq<Action>)
    requires Core(s) && !s.inside && AllPossible(Enter(ReadTaken(s)), actions)
    ensures var t := ReadHandled(s, actions);
            && Core(t) && !t.inside && t.pendingReads == ReadTaken(s).pendingReads && t.stopped == s.stopped
            && t.h.Http1? == s.h.Http1?
  {
    var r := Enter(ReadTaken(s));
    assert Core(r);
    ActsCore(r, actions);
    var u := Acts(r, actions);
    assert Core(Leave(u));
  }

  lemma ReadOnKeeps(t: State, stop: bool)
    requires Core(t) && !t.inside && !t.unread && (t.stopped || t.writing || !Pending(t.h)) && t.pendingReads == 0
    ensures Invariant(ReadOn(t, stop))
  {
  }

  lemma ReadKeeps(s: State, e: Event)
    requires Invariant(s) && Enabled(s, e) && e.ReadDone?
    ensures Invariant(Step(s, e))
  {
    if !e.error {
      HandledCore(s, e.actions);
      if !e.failed {
        DoWriteCore(ReadHandled(s, e.actions), e.around);
        ReadOnKeeps(DoWrite(ReadHandled(s, e.actions), e.around), e.stop);
      }
    }
  }

  lemma CompletedCore(s: State)
    requires Core(s) && s.pendingWrites > 0
    ensures Core(WriteCompleted(s))
  {
  }

  lemma WriteKeeps(s: State, e: Event)
    requires Invariant(s) && Enabled(s, e) && e.WriteDone?
    ensures Invariant(Step(s, e))
  {
    if !e.error {
      CompletedCore(s);
      DoWriteCore(WriteCompleted(s), e.around);
    }
  }

  lemma InitiateKeeps(s: State, e: Event)
    requires Invariant(s) && Enabled(s, e) && e.InitiateWrite?
    ensures Invariant(Step(s, e))
  {
    assert Core(PostTaken(s));
    DoWriteCore(PostTaken(s), e.around);
  }

  lemma ApplicationKeeps(s: State, a: Action)
    requires Invariant(s) && Enabled(s, Application(a))
    ensures Invariant(Act(s, a))
  {
    ActCore(s, a);
    ActSame(s, a);
    ActAwake(s, a);
  }

  lemma StepKeeps(s: State, e: Event)
    requires Invariant(s) && Enabled(s, e)
    ensures Invariant(Step(s, e))
  {
    match e
    case ReadDone(_, _, _, _, _) => ReadKeeps(s, e);
    case WriteDone(_, _) => WriteKeeps(s, e);
    case InitiateWrite(_) => InitiateKeeps(s, e);
    case Application(a) => ApplicationKeeps(s, a);
    case Deadline =>
  }

  lemma {:induction false} RunKeeps(s: State, events: seq<Event>)
    requires Invariant(s) && Allowed(s, events)
    ensures Invariant(Run(s, events))
    decreases |events|
  {
    if events != [] {
      StepKeeps(s, events[0]);
      RunKeeps(Step(s, events[0]), events[1..]);
    }
  }

  lemma InitialInvariant(s: State)
    requires Initial(s)
    ensures Invariant(s)
  {
    if s.h.Http2? {
      assert [] + [] + Flat(s.h.session) == Flat(s.h.session);
    }
  }

  // ---------------------------------------------------------------------------
  // Main results. The runs start from a connection that has just started.

  /** No assertion about callbacks fails, and at most one read, one write and one posted call are outstanding. */
  lemma OneOfEach(s: State, events: seq<Event>)
    requires Initial(s) && Allowed(s, events)
    ensures var t := Run(s, events);
            !t.broken && !t.inside && t.pendingReads <= 1 && t.pendingWrites <= 1 &&
            t.posted <= 1
  {
    InitialInvariant(s);
    RunKeeps(s, events);
  }

  /**
   * The buffer is not written while a write refers to it: what completed writes took out of it is what was
   * handed to them, and what a write in flight would take out now is the rest.
   */
  lemma BufferUntouched(s: State, events: seq<Event>)
    requires Initial(s) && Allowed(s, events)
    ensures var t := Run(s, events);
            && t.delivered <= t.handed
            && (t.pendingWrites == 1 ==> t.nwrite <= |t.outbuf| && t.delivered + t.outbuf[..t.nwrite] == t.handed)
            && (t.pendingWrites == 0 && !t.stopped ==> t.delivered == t.handed)
  {
    InitialInvariant(s);
    RunKeeps(s, events);
  }

  /** Over HTTP/2 the bytes written and the held-back chunk are the bytes produced, except for those still in the
      session. */
  lemma BytesConserved(s: State, events: seq<Event>)
    requires Initial(s) && Allowed(s, events) && s.h.Http2? && !Run(s, events).stopped
    ensures var t := Run(s, events); t.h.Http2? && t.handed + t.h.held + Flat(t.h.session) == t.produced
  {
    InitialInvariant(s);
    RunKeeps(s, events);
    ProtocolKept(s, events);
  }

  lemma StepProtocol(s: State, e: Event)
    requires Invariant(s) && Enabled(s, e)
    ensures Step(s, e).h.Http1? == s.h.Http1?
  {
    match e
    case ReadDone(_, actions, _, around, _) =>
      if !e.error {
        HandledCore(s, actions);
        if !e.failed {
          DoWriteCore(ReadHandled(s, actions), around);
        }
      }
    case WriteDone(_, around) =>
      if !e.error {
        CompletedCore(s);
        DoWriteCore(WriteCompleted(s), around);
      }
    case InitiateWrite(around) => DoWriteCore(PostTaken(s), around);
    case Application(a) => ActSame(s, a);
    case Deadline =>
  }

  lemma {:induction false} ProtocolKept(s: State, events: seq<Event>)
    requires Invariant(s) && Allowed(s, events)
    ensures Run(s, events).h.Http1? == s.h.Http1?
    decreases |events|
  {
    if events != [] {
      StepKeeps(s, events[0]);
      StepProtocol(s, events[0]);
      ProtocolKept(Step(s, events[0]), events[1..]);
    }
  }

  /**
   * Over HTTP/1 responses are written in request order: the written ids strictly increase, so none is written
   * twice, and no stream that is open comes before one that was written.
   */
  lemma ResponsesInOrder(s: State, events: seq<Event>)
    requires Initial(s) && Allowed(s, events) && s.h.Http1?
    ensures var t := Run(s, events); t.h.Http1? && InOrder(t.handed, t.h.open, t.h.count)
  {
    InitialInvariant(s);
    RunKeeps(s, events);
    ProtocolKept(s, events);
  }

  /** What could be written is on its way, unless nothing has happened to the handler `h` before the first read. */
  predicate Roused(s: State, h: Handler) {
    !s.stopped && Pending(s.h) ==> s.writing || s.signaled || (s.unread && s.h == h)
  }

  lemma StepRoused(s: State, e: Event, h: Handler)
    requires Invariant(s) && Enabled(s, e) && Roused(s, h)
    ensures Roused(Step(s, e), h)
  {
    StepKeeps(s, e);
    match e
    case ReadDone(_, actions, _, around, _) =>
      if !e.error && !e.failed {
        HandledCore(s, actions);
        DoWriteCore(ReadHandled(s, actions), around);
      }
    case WriteDone(_, around) =>
      if !e.error {
        CompletedCore(s);
        DoWriteCore(WriteCompleted(s), around);
      }
    case InitiateWrite(around) => DoWriteCore(PostTaken(s), around);
    case Application(a) => ActSame(s, a);
    case Deadline =>
  }

  lemma {:induction false} RunRoused(s: State, events: seq<Event>, h: Handler)
    requires Invariant(s) && Allowed(s, events) && Roused(s, h)
    ensures Roused(Run(s, events), h)
    decreases |events|
  {
    if events != [] {
      StepKeeps(s, events[0]);
      StepRoused(s, events[0], h);
      RunRoused(Step(s, events[0]), events[1..], h);
    }
  }

  /**
   * No wakeup is lost: what could be written is on its way, by a write in flight or a posted call. The one
   * exception is the settings frame of a handler to which nothing has happened: it waits for the first read.
   */
  lemma NothingStranded(s: State, events: seq<Event>)
    requires Initial(s) && Allowed(s, events)
    ensures var t := Run(s, events);
            !t.stopped && Pending(t.h) ==>
              t.pendingWrites == 1 || t.posted == 1 || (t.unread && t.h == s.h && t.h.Http2?)
  {
    InitialInvariant(s);
    RunKeeps(s, events);
    RunRoused(s, events, s.h);
  }

  // ---------------------------------------------------------------------------
  // What is on its way arrives.

  /** Nothing new comes up during a write. */
  const QUIET := Around([], None, false)

  /** Everything that could be written before anything new happens. */
  function Target(s: State): seq<int> {
    match s.h
    case Http2(session, held) => s.handed + held + Flat(session)
    case Http1(count, open, ready) => s.handed + Drain(open, ready)
  }

  function Left(h: Handler): nat {
    match h
    case Http2(session, held) => |held| + |Flat(session)|
    case Http1(count, open, ready) => |ready|
  }

  /** What is left for writes after `h` has emitted, and before. */
  function Rest(h: Handler): seq<int> {
    match h
    case Http2(session, held) => held + Flat(session)
    case Http1(count, open, ready) => Drain(open, ready)
  }

  lemma QuietBytes(h: Handler)
    requires WellFormed(h) && h.Http2?
    ensures var (t, out) := Emit(h, QUIET); t.Http2? && out + Rest(t) == Rest(h) && Left(t) + |out| == Left(h)
  {
    EmitBytes(h, QUIET);
    var (t, out) := Emit(h, QUIET);
    assert h.held + Flat(h.session) + [] == h.held + Flat(h.session);
    assert out + (t.held + Flat(t.session)) == out + t.held + Flat(t.session);
  }

  lemma QuietIds(h: Handler)
    requires WellFormed(h) && h.Http1?
    ensures var (t, out) := Emit(h, QUIET); t.Http1? && out + Rest(t) == Rest(h) && Left(t) + |out| == Left(h)
  {
    EmitIds(h, QUIET);
    var k := Consecutive(h.open, h.ready);
    if k == 0 {
      assert EraseAll(h.open, h.ready[..0]) == h.open && h.ready[0..] == h.ready;
    }
  }

  lemma TargetIs(s: State)
    ensures Target(s) == s.handed + Rest(s.h)
  {
    if s.h.Http2? {
      assert s.handed + s.h.held + Flat(s.h.session) == s.handed + (s.h.held + Flat(s.h.session));
    }
  }

  lemma QuietEmit(h: Handler, t: Handler, out: seq<int>)
    requires WellFormed(h) && Emit(h, QUIET) == (t, out)
    ensures out + Rest(t) == Rest(h) && Left(t) + |out| == Left(h)
  {
    if h.Http2? {
      QuietBytes(h);
    } else {
      QuietIds(h);
    }
  }

  lemma QuietShape(s: State, h: Handler, out: seq<int>)
    requires !s.stopped && !s.writing && Emit(s.h, QUIET) == (h, out)
    ensures var t := DoWrite(s, QUIET);
            !t.stopped && t.h == h && t.handed == s.handed + out &&
            (t.writing <==> out != [])
  {
    assert s.handed + [] == s.handed;
  }

  lemma QuietWrite(s: State)
    requires Core(s) && !s.inside && !s.stopped && !s.writing
    ensures var t := DoWrite(s, QUIET); !t.stopped && Target(t) == Target(s)
    ensures var t := DoWrite(s, QUIET); if t.writing then Left(t.h) < Left(s.h) else Left(t.h) == Left(s.h)
  {
    var (h, out) := Emit(s.h, QUIET);
    QuietEmit(s.h, h, out);
    QuietShape(s, h, out);
    SameTarget(s, DoWrite(s, QUIET), out);
  }

  lemma SameTarget(s: State, t: State, out: seq<int>)
    requires t.handed == s.handed + out && out + Rest(t.h) == Rest(s.h)
    ensures Target(t) == Target(s)
  {
    TargetIs(s);
    TargetIs(t);
    assert s.handed + (out + Rest(t.h)) == s.handed + out + Rest(t.h);
  }

  /** What could be written is on its way. */
  predicate OnItsWay(s: State) {
    Pending(s.h) ==> s.pendingWrites > 0 || s.posted > 0
  }

  /** With nothing left on its way, everything that could be written has been. */
  lemma AllDelivered(s: State)
    requires Invariant(s) && !s.stopped && !Pending(s.h) && s.pendingWrites == 0
    ensures s.delivered == Target(s)
  {
    if s.h.Http2? {
      assert s.handed + [] + [] == s.handed;
    } else {
      assert s.handed + [] == s.handed;
    }
  }

  /** The completion of something on its way, with nothing new happening. */
  predicate IsCompletion(e: Event) {
    e == InitiateWrite(QUIET) || e == WriteDone(false, QUIET)
  }

  /** A bound on the completions that can follow each other. */
  function Distance(s: State): nat {
    3 * Left(s.h) + s.pendingWrites + s.posted
  }

  /** A completion loses nothing and brings everything nearer. */
  predicate Nearer(s: State, t: State) {
    !t.stopped && Target(t) == Target(s) && OnItsWay(t) && Distance(t) < Distance(s)
  }

  lemma PostedStep(s: State)
    requires Invariant(s) && !s.stopped && s.posted > 0
    ensures Nearer(s, DoWrite(PostTaken(s), QUIET))
  {
    var t := PostTaken(s);
    assert Target(t) == Target(s);
    DoWriteCore(t, QUIET);
    if !s.writing {
      QuietWrite(t);
    }
  }

  lemma WrittenStep(s: State)
    requires Invariant(s) && !s.stopped && s.pendingWrites > 0
    ensures Nearer(s, DoWrite(WriteCompleted(s), QUIET))
  {
    var t := WriteCompleted(s);
    CompletedCore(s);
    assert Target(t) == Target(s);
    QuietWrite(t);
    DoWriteCore(t, QUIET);
  }

  lemma CompletionStep(s: State, e: Event)
    requires Invariant(s) && !s.stopped && IsCompletion(e) && Enabled(s, e)
    ensures Invariant(Step(s, e)) && Nearer(s, Step(s, e))
  {
    StepKeeps(s, e);
    if e.InitiateWrite? {
      PostedStep(s);
    } else {
      WrittenStep(s);
    }
  }

  /** Completions in any order: each is one of finitely many, and none changes where they lead. */
  lemma {:induction false} CompletionRow(s: State, events: seq<Event>)
    requires Invariant(s) && !s.stopped && OnItsWay(s) && Allowed(s, events)
    requires forall e :: e in events ==> IsCompletion(e)
    ensures var t := Run(s, events);
            && Invariant(t) && !t.stopped && OnItsWay(t) && Target(t) == Target(s)
            && Distance(t) + |events| <= Distance(s)
    decreases |events|
  {
    if events != [] {
      assert events[0] in events;
      CompletionStep(s, events[0]);
      CompletionRow(Step(s, events[0]), events[1..]);
    }
  }

  /**
   * From any state of a run in which what could be written is on its way, completions in any order, until none is
   * left, deliver everything the session has produced, or every response at the head of the open streams.
   */
  lemma EveryRowSettles(s: State, events: seq<Event>)
    requires Invariant(s) && !s.stopped && OnItsWay(s) && Allowed(s, events)
    requires forall e :: e in events ==> IsCompletion(e)
    requires forall e :: IsCompletion(e) ==> !Enabled(Run(s, events), e)
    ensures Run(s, events).delivered == Target(s) && |events| <= Distance(s)
  {
    CompletionRow(s, events);
    var t := Run(s, events);
    assert !Enabled(t, InitiateWrite(QUIET)) && !Enabled(t, WriteDone(false, QUIET));
    AllDelivered(t);
  }

  /** There is such a row of completions. */
  lemma {:induction false} Settles(s: State) returns (events: seq<Event>)
    requires Invariant(s) && !s.stopped && OnItsWay(s)
    ensures Allowed(s, events) && forall e :: e in events ==> IsCompletion(e)
    ensures forall e :: IsCompletion(e) ==> !Enabled(Run(s, events), e)
    decreases Distance(s)
  {
    if s.pendingWrites == 0 && s.posted == 0 {
      events := [];
    } else {
      var e := if s.posted > 0 then InitiateWrite(QUIET) else WriteDone(false, QUIET);
      CompletionStep(s, e);
      var rest := Settles(Step(s, e));
      events := [e] + rest;
      assert events[1..] == rest;
    }
  }

  /** What is delivered then, over HTTP/2 and over HTTP/1. */
  lemma TargetMeans(s: State)
    requires Invariant(s) && !s.stopped
    ensures match s.h
            case Http2(_, _) => Target(s) == s.produced
            case Http1(_, open, ready) => Target(s) == s.handed + open[..AtHead(open, ready)]
  {
    if s.h.Http1? {
      DrainsHead(s.h.open, s.h.ready);
    }
  }

  const NO_STREAMS := Started(Http1(0, [], []))
  const TWO_OPEN := NO_STREAMS.(h := Http1(2, [1, 2], []), unread := false)
  const SECOND_READY := TWO_OPEN.(h := Http1(2, [1, 2], [2]))
  const STRANDING: seq<Event> := [ReadDone(false, [Begin, Begin], false, QUIET, false), Application(Start(2)),
    InitiateWrite(QUIET)]

  /**
   * A response can be stranded by closing the stream before it without a response: with two requests read,
   * the second answered and nothing to write, closing the first leaves the second unwritten.
   */
  lemma StrandedByClose()
    ensures Initial(NO_STREAMS) && Allowed(NO_STREAMS, STRANDING)
    ensures var t := Act(Run(NO_STREAMS, STRANDING), Close(1));
            Pending(t.h) && !t.stopped && t.pendingWrites == 0 &&
            t.posted == 0
  {
    StrandingRun();
    assert Erase([1, 2], 1) == [2];
  }

  lemma StrandingRun()
    ensures Allowed(NO_STREAMS, STRANDING) && Run(NO_STREAMS, STRANDING) == SECOND_READY
  {
    StrandingEnd();
    TwoRead(NO_STREAMS, TWO_OPEN);
    OneMore(NO_STREAMS, STRANDING[0], TWO_OPEN, STRANDING[1..], SECOND_READY);
    assert [STRANDING[0]] + STRANDING[1..] == STRANDING;
  }

  lemma StrandingEnd()
    ensures Allowed(TWO_OPEN, STRANDING[1..]) && Run(TWO_OPEN, STRANDING[1..]) == SECOND_READY
  {
    var signaled := SECOND_READY.(signaled := true, posted := 1);
    var last: seq<Event> := [InitiateWrite(QUIET)];
    IdleWrite(SECOND_READY);
    OneMore(signaled, InitiateWrite(QUIET), SECOND_READY, [], SECOND_READY);
    assert [InitiateWrite(QUIET)] + [] == last;
    OneMore(TWO_OPEN, Application(Start(2)), signaled, last, SECOND_READY);
    assert [Application(Start(2))] + last == STRANDING[1..];
  }

  lemma OneMore(s: State, e: Event, t: State, events: seq<Event>, end: State)
    requires Enabled(s, e) && Step(s, e) == t && Allowed(t, events) && Run(t, events) == end
    ensures Allowed(s, [e] + events) && Run(s, [e] + events) == end
  {
    assert ([e] + events)[1..] == events;
  }

  lemma TwoRead(s: State, t: State)
    requires s == Started(Http1(0, [], [])) && t == s.(h := Http1(2, [1, 2], []), unread := false)
    ensures var e := ReadDone(false, [Begin, Begin], false, QUIET, false); Enabled(s, e) && Step(s, e) == t
  {
    TwoBegun(Enter(ReadTaken(s)));
    IdleWrite(t.(pendingReads := 0));
  }

  lemma TwoBegun(r: State)
    requires r.h == Http1(0, [], [])
    ensures AllPossible(r, [Begin, Begin]) && Acts(r, [Begin, Begin]) == r.(h := Http1(2, [1, 2], []))
  {
    var r1 := r.(h := Http1(1, [1], []));
    assert [] + [1 as nat] == [1] && [1 as nat] + [2] == [1, 2];
    assert Act(r, Begin) == r1;
    assert Act(r1, Begin) == r.(h := Http1(2, [1, 2], []));
    assert [Begin, Begin][1..] == [Begin] && [Begin][1..] == [];
    assert Acts(r1, [Begin]) == Act(r1, Begin);
  }

  /** A write with nothing to write changes nothing. */
  lemma IdleWrite(s: State)
    requires s.h.Http1? && Consecutive(s.h.open, s.h.ready) == 0 && !s.inside && !s.broken &&
             s.produced + [] == s.produced
    ensures DoWrite(s, QUIET) == s
  {
    assert s.h.ready[0..] == s.h.ready;
    assert Overwritten(s.outbuf, []) == s.outbuf;
  }
}
