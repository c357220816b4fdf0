/** The runs of a connection as its peers see them: what comes in with the events, and what is written. */
module Offers {
  import opened Bytes
  import opened Handlers
  import opened Protocol
  import opened Runs

  // ---------------------------------------------------------------------------
  // HTTP/2: the chunks that come in.

  /** The chunks of the actions, in order. */
  function Submitted(actions: seq<Action>): seq<seq<int>>
    decreases |actions|
  {
    if actions == [] then []
    else (if actions[0].Enqueue? then actions[0].chunks else []) + Submitted(actions[1..])
  }

  /** The chunks that come with an event: those of its actions, and those the session adds while `on_write` runs,
      which is not called when a write is in flight. */
  function ChunksOf(e: Event, writing: bool): seq<seq<int>> {
    match e
    case ReadDone(_, actions, _, around, _) => Submitted(actions) + if writing then [] else around.more
    case WriteDone(_, around) => around.more
    case InitiateWrite(around) => if writing then [] else around.more
    case Application(action) => Submitted([action])
    case Deadline => []
  }

  function Offered(s: State, events: seq<Event>): seq<seq<int>>
    decreases |events|
  {
    if events == [] then [] else ChunksOf(events[0], s.writing) + Offered(Step(s, events[0]), events[1..])
  }

  lemma ActProduces(s: State, a: Action)
    requires s.h.Http2?
    ensures Act(s, a).h.Http2? && Act(s, a).produced == s.produced + Flat(Submitted([a]))
  {
    assert [a][1..] == [];
    if a.Enqueue? {
      assert Submitted([a]) == a.chunks + [] == a.chunks;
    }
  }

  lemma SubmittedNext(actions: seq<Action>)
    requires actions != []
    ensures Submitted(actions) == Submitted([actions[0]]) + Submitted(actions[1..])
  {
    assert [actions[0]][1..] == [];
    var first := if actions[0].Enqueue? then actions[0].chunks else [];
    assert Submitted([actions[0]]) == first + [] == first;
  }

  lemma Extends(p: seq<int>, a: seq<seq<int>>, b: seq<seq<int>>)
    ensures p + Flat(a) + Flat(b) == p + Flat(a + b)
  {
    FlatAppend(a, b);
    assert p + Flat(a) + Flat(b) == p + (Flat(a) + Flat(b));
  }

  lemma {:induction false} ActsProduce(s: State, actions: seq<Action>)
    requires s.h.Http2?
    ensures Acts(s, actions).h.Http2? && Acts(s, actions).produced == s.produced + Flat(Submitted(actions))
    decreases |actions|
  {
    if actions != [] {
      ActProduces(s, actions[0]);
      ActsProduce(Act(s, actions[0]), actions[1..]);
      SubmittedNext(actions);
      Extends(s.produced, Submitted([actions[0]]), Submitted(actions[1..]));
    }
  }

  lemma DoWriteProduces(s: State, w: Around)
    requires s.h.Http2? && !DoWrite(s, w).stopped
    ensures var t := DoWrite(s, w);
            t.h.Http2? && !s.stopped && t.produced == s.produced + Flat(if s.writing then [] else w.more)
  {
  }

  lemma ReadProduces(s: State, e: Event)
    requires s.h.Http2? && e.ReadDone? && !Step(s, e).stopped
    ensures Step(s, e).produced == s.produced + Flat(ChunksOf(e, s.writing))
  {
    var r := Enter(ReadTaken(s));
    var u := ReadHandled(s, e.actions);
    ActsProduce(r, e.actions);
    ActsKeep(r, e.actions);
    assert u.writing == s.writing;
    DoWriteProduces(u, e.around);
    Extends(s.produced, Submitted(e.actions), if s.writing then [] else e.around.more);
  }

  /** An action begins no read and no write, and stops nothing. */
  predicate Untouched(s: State, t: State) {
    && t.writing == s.writing && t.stopped == s.stopped && t.handed == s.handed
    && t.pendingReads == s.pendingReads && t.pendingWrites == s.pendingWrites
  }

  lemma ActKeeps(s: State, a: Action)
    ensures Untouched(s, Act(s, a))
  {
  }

  lemma {:induction false} ActsKeep(s: State, actions: seq<Action>)
    ensures Untouched(s, Acts(s, actions))
    decreases |actions|
  {
    if actions != [] {
      ActKeeps(s, actions[0]);
      ActsKeep(Act(s, actions[0]), actions[1..]);
    }
  }

  lemma StepProduces(s: State, e: Event)
    requires Invariant(s) && Enabled(s, e) && s.h.Http2? && !Step(s, e).stopped
    ensures Step(s, e).produced == s.produced + Flat(ChunksOf(e, s.writing))
  {
    match e
    case ReadDone(_, _, _, _, _) => ReadProduces(s, e);
    case WriteDone(_, around) => DoWriteProduces(WriteCompleted(s), around);
    case InitiateWrite(around) => DoWriteProduces(PostTaken(s), around);
    case Application(a) => ActProduces(s, a);
    case Deadline =>
  }

  /** Once stopped, a connection stays so, begins no read and no write, and puts nothing into one. */
  predicate Idle(s: State, t: State) {
    t.stopped && t.pendingReads <= s.pendingReads && t.pendingWrites <= s.pendingWrites && t.handed == s.handed
  }

  lemma ReadStopped(s: State, e: Event)
    requires s.stopped && e.ReadDone?
    ensures Idle(s, Step(s, e))
  {
    var u := ReadHandled(s, e.actions);
    ActsKeep(Enter(ReadTaken(s)), e.actions);
    assert Idle(s, u);
    assert DoWrite(u, e.around) == u;
  }

  lemma StepStopped(s: State, e: Event)
    requires s.stopped
    ensures Idle(s, Step(s, e))
  {
    match e
    case ReadDone(_, _, _, _, _) => ReadStopped(s, e);
    case WriteDone(_, _) =>
    case InitiateWrite(_) =>
    case Application(a) => ActKeeps(s, a);
    case Deadline =>
  }

  lemma {:induction false} StaysStopped(s: State, events: seq<Event>)
    requires s.stopped
    ensures Idle(s, Run(s, events))
    decreases |events|
  {
    if events != [] {
      StepStopped(s, events[0]);
      StaysStopped(Step(s, events[0]), events[1..]);
    }
  }

  lemma {:induction false} ProducedIsOffered(s: State, events: seq<Event>)
    requires Invariant(s) && Allowed(s, events) && s.h.Http2? && !Run(s, events).stopped
    ensures Run(s, events).produced == s.produced + Flat(Offered(s, events))
    decreases |events|
  {
    if events != [] {
      var t := Step(s, events[0]);
      if t.stopped {
        StaysStopped(t, events[1..]);
      }
      StepKeeps(s, events[0]);
      StepProtocol(s, events[0]);
      StepProduces(s, events[0]);
      ProducedIsOffered(t, events[1..]);
      Extends(s.produced, ChunksOf(events[0], s.writing), Offered(t, events[1..]));
    }
  }

  /** While the connection runs, what was handed to writes, the held-back chunk and what the session still has are the
      settings followed by all chunks that came in, in order. */
  lemma OfferedConserved(s: State, events: seq<Event>)
    requires Initial(s) && Allowed(s, events) && s.h.Http2? && !Run(s, events).stopped
    ensures var t := Run(s, events);
            t.h.Http2? && t.handed + t.h.held + Flat(t.h.session) == Flat(s.h.session) + Flat(Offered(s, events))
  {
    InitialInvariant(s);
    BytesConserved(s, events);
    ProducedIsOffered(s, events);
  }

  /** After completions in any order until none is left, all of it has been delivered. */
  lemma EverythingArrives(s: State, events: seq<Event>, row: seq<Event>)
    requires Initial(s) && Allowed(s, events) && s.h.Http2?
    requires var t := Run(s, events);
             && !t.stopped && !t.unread && Allowed(t, row) && (forall e :: e in row ==> IsCompletion(e))
             && forall e :: IsCompletion(e) ==> !Enabled(Run(t, row), e)
    ensures Run(Run(s, events), row).delivered == Flat(s.h.session) + Flat(Offered(s, events))
  {
    var t := Run(s, events);
    InitialInvariant(s);
    RunKeeps(s, events);
    NothingStranded(s, events);
    EveryRowSettles(t, row);
    OfferedConserved(s, events);
  }

  // ---------------------------------------------------------------------------
  // HTTP/1: the streams that are started.

  function ActionsOf(e: Event): seq<Action> {
    match e
    case ReadDone(error, actions, _, _, _) => if error then [] else actions
    case Application(action) => [action]
    case _ => []
  }

  /** All actions of a row of events. */
  function AllActions(events: seq<Event>): seq<Action>
    decreases |events|
  {
    if events == [] then [] else ActionsOf(events[0]) + AllActions(events[1..])
  }

  function Begun(actions: seq<Action>): nat
    decreases |actions|
  {
    if actions == [] then 0
    else Begun(actions[..|actions| - 1]) + if actions[|actions| - 1].Begin? then 1 else 0
  }

  /** The stream was begun, and has not been closed since. */
  predicate OpenIn(actions: seq<Action>, id: nat)
    decreases |actions|
  {
    actions != [] &&
    var init, last := actions[..|actions| - 1], actions[|actions| - 1];
    (last.Begin? && id == Begun(init) + 1) || (last != Close(id) && OpenIn(init, id))
  }

  /** The response was started while the stream was open. */
  predicate StartedIn(actions: seq<Action>, id: nat)
    decreases |actions|
  {
    actions != [] &&
    var init, last := actions[..|actions| - 1], actions[|actions| - 1];
    (last == Start(id) && OpenIn(init, id)) || StartedIn(init, id)
  }

  lemma OneMoreAction(actions: seq<Action>, a: Action, id: nat)
    ensures Begun(actions + [a]) == Begun(actions) + if a.Begin? then 1 else 0
    ensures OpenIn(actions + [a], id) <==>
            (a.Begin? && id == Begun(actions) + 1) || (a != Close(id) && OpenIn(actions, id))
    ensures StartedIn(actions + [a], id) <==> (a == Start(id) && OpenIn(actions, id)) || StartedIn(actions, id)
  {
    assert (actions + [a])[..|actions|] == actions;
  }

  /** The open streams are those begun and not closed, apart from those already written; and those started are ready
      or written. */
  ghost predicate Tracked(s: State, actions: seq<Action>) {
    && s.h.Http1? && s.h.count == Begun(actions)
    && forall id: nat :: TrackedAt(s, actions, id)
  }

  predicate TrackedAt(s: State, actions: seq<Action>, id: nat)
    requires s.h.Http1?
  {
    && (id in s.h.open <==> OpenIn(actions, id) && id !in s.handed)
    && (StartedIn(actions, id) <==> id in s.h.ready || id in s.handed)
  }

  lemma ActTracked(s: State, actions: seq<Action>, a: Action)
    requires Core(s) && Possible(s.h, a) && Tracked(s, actions)
    ensures Tracked(Act(s, a), actions + [a])
  {
    var t := Act(s, a);
    OneMoreAction(actions, a, 0);
    forall id: nat ensures TrackedAt(t, actions + [a], id) {
      OneMoreAction(actions, a, id);
      assert TrackedAt(s, actions, id);
      match a
      case Begin => NotWritten(s, id);
      case Start(x) => InsertSorted(s.h.ready, x);
      case Close(x) => EraseSorted(s.h.open, x);
    }
  }

  lemma NotWritten(s: State, id: nat)
    requires Core(s) && s.h.Http1?
    ensures id in s.handed ==> id <= s.h.count
  {
  }

  lemma {:induction false} ActsTracked(s: State, before: seq<Action>, actions: seq<Action>)
    requires Core(s) && AllPossible(s, actions) && Tracked(s, before)
    ensures Tracked(Acts(s, actions), before + actions)
    decreases |actions|
  {
    if actions == [] {
      assert before + actions == before;
    } else {
      ActTracked(s, before, actions[0]);
      ActCore(s, actions[0]);
      ActsTracked(Act(s, actions[0]), before + [actions[0]], actions[1..]);
      assert before + [actions[0]] + actions[1..] == before + actions;
    }
  }

  lemma DoWriteTracked(s: State, w: Around, actions: seq<Action>)
    requires Core(s) && Tracked(s, actions)
    ensures Tracked(DoWrite(s, w), actions)
  {
    if !s.stopped && !s.writing {
      var k := Consecutive(s.h.open, s.h.ready);
      RunIsHead(s.h.open, s.h.ready);
      MovedOut(s.h, k);
      WriteMoves(s, w, k);
      forall id: nat ensures TrackedAt(DoWrite(s, w), actions, id) {
        assert TrackedAt(s, actions, id);
      }
    }
  }

  lemma WriteMoves(s: State, w: Around, k: nat)
    requires s.h.Http1? && !s.stopped && !s.writing && k == Consecutive(s.h.open, s.h.ready)
    requires k <= |s.h.open| && EraseAll(s.h.open, s.h.ready[..k]) == s.h.open[k..]
    ensures var t := DoWrite(s, w);
            && t.h == Http1(s.h.count, s.h.open[k..], s.h.ready[k..])
            && forall id: nat :: id in t.handed <==> id in s.handed || id in s.h.ready[..k]
  {
    assert s.handed + [] == s.handed;
  }

  /** What leaves the front of both lists is in neither afterwards. */
  lemma MovedOut(h: Handler, k: nat)
    requires WellFormed(h) && h.Http1? && k <= |h.open| && k <= |h.ready| && h.ready[..k] == h.open[..k]
    ensures forall id :: id in h.open[k..] <==> id in h.open && id !in h.ready[..k]
    ensures forall id :: id in h.ready <==> id in h.ready[..k] || id in h.ready[k..]
  {
    assert h.open == h.open[..k] + h.open[k..] && h.ready == h.ready[..k] + h.ready[k..];
  }

  lemma StepTracked(s: State, e: Event, actions: seq<Action>)
    requires Invariant(s) && Enabled(s, e) && Tracked(s, actions)
    ensures Tracked(Step(s, e), actions + ActionsOf(e))
  {
    assert actions + [] == actions;
    match e
    case ReadDone(error, acts, failed, around, stop) =>
      if !error {
        var r := Enter(ReadTaken(s));
        SameTracked(s, r, actions);
        assert Core(r);
        ActsTracked(r, actions, acts);
        HandledCore(s, acts);
        SameTracked(Acts(r, acts), ReadHandled(s, acts), actions + acts);
        DoWriteTracked(ReadHandled(s, acts), around, actions + acts);
        SameTracked(ReadHandled(s, acts), Protocol.Stop(ReadHandled(s, acts)), actions + acts);
        var u := DoWrite(ReadHandled(s, acts), around);
        SameTracked(u, ReadOn(u, stop), actions + acts);
      } else {
        SameTracked(s, Step(s, e), actions);
      }
    case WriteDone(error, around) =>
      CompletedCore(s);
      SameTracked(s, WriteCompleted(s), actions);
      SameTracked(s, Protocol.Stop(WriteTaken(s)), actions);
      DoWriteTracked(WriteCompleted(s), around, actions);
    case InitiateWrite(around) =>
      SameTracked(s, PostTaken(s), actions);
      assert Core(PostTaken(s));
      DoWriteTracked(PostTaken(s), around, actions);
    case Application(a) => ActTracked(s, actions, a);
    case Deadline => SameTracked(s, Step(s, e), actions);
  }

  lemma SameTracked(s: State, t: State, actions: seq<Action>)
    requires Tracked(s, actions) && t.h == s.h && t.handed == s.handed
    ensures Tracked(t, actions)
  {
    forall id: nat ensures TrackedAt(t, actions, id) {
      assert TrackedAt(s, actions, id);
    }
  }

  lemma {:induction false} RunTracked(s: State, events: seq<Event>, before: seq<Action>)
    requires Invariant(s) && Allowed(s, events) && Tracked(s, before)
    ensures Tracked(Run(s, events), before + AllActions(events))
    decreases |events|
  {
    if events == [] {
      assert before + [] == before;
    } else {
      StepTracked(s, events[0], before);
      StepKeeps(s, events[0]);
      RunTracked(Step(s, events[0]), events[1..], before + ActionsOf(events[0]));
      assert before + ActionsOf(events[0]) + AllActions(events[1..]) ==
             before + (ActionsOf(events[0]) + AllActions(events[1..]));
    }
  }

  /** Over every run, the streams that are ready or were handed to a write are exactly those whose response was started
      while they were open. */
  lemma StartedAreKept(s: State, events: seq<Event>, id: nat)
    requires Initial(s) && Allowed(s, events) && s.h.Http1?
    ensures var t := Run(s, events);
            t.h.Http1? && (id in t.h.ready || id in t.handed <==> StartedIn(AllActions(events), id))
  {
    TrackedFromStart(s, events);
    assert TrackedAt(Run(s, events), AllActions(events), id);
  }

  lemma TrackedFromStart(s: State, events: seq<Event>)
    requires Initial(s) && Allowed(s, events) && s.h.Http1?
    ensures Tracked(Run(s, events), AllActions(events))
  {
    InitialInvariant(s);
    assert Tracked(s, []) by {
      forall id: nat ensures TrackedAt(s, [], id) {
      }
    }
    RunTracked(s, events, []);
    assert [] + AllActions(events) == AllActions(events);
  }

  /** After completions in any order until none is left, a response has been delivered exactly when it was started and
      so were those of all streams before it that were not closed. */
  lemma ResponsesArrive(s: State, events: seq<Event>, row: seq<Event>, id: nat)
    requires Initial(s) && Allowed(s, events) && s.h.Http1?
    requires var t := Run(s, events);
             && !t.stopped && Allowed(t, row) && (forall e :: e in row ==> IsCompletion(e))
             && forall e :: IsCompletion(e) ==> !Enabled(Run(t, row), e)
    ensures id in Run(Run(s, events), row).delivered <==>
            StartedIn(AllActions(events), id) && NoneBefore(AllActions(events), id)
  {
    var t := Run(s, events);
    InitialInvariant(s);
    RunKeeps(s, events);
    NothingStranded(s, events);
    TrackedFromStart(s, events);
    EveryRowSettles(t, row);
    TargetMeans(t);
    AtHeadIs(t, AllActions(events), id);
  }

  lemma AtHeadIs(t: State, actions: seq<Action>, id: nat)
    requires Core(t) && Tracked(t, actions)
    ensures id in t.handed + t.h.open[..AtHead(t.h.open, t.h.ready)] <==>
            StartedIn(actions, id) && NoneBefore(actions, id)
  {
    var n := AtHead(t.h.open, t.h.ready);
    assert TrackedAt(t, actions, id);
    AllInReady(t.h.open, t.h.ready, n);
    if id in t.handed {
      forall j: nat | j < id ensures NotWaiting(actions, j) {
        assert TrackedAt(t, actions, j);
      }
    } else if id in t.h.ready {
      var i :| 0 <= i < |t.h.open| && t.h.open[i] == id;
      PlaceInHead(t.h.open, n, i);
      ReadyAtHead(t, actions, i);
    }
  }

  lemma PlaceInHead(open: seq<nat>, n: nat, i: nat)
    requires Sorted(open) && n <= |open| && i < |open|
    ensures open[i] in open[..n] <==> i < n
  {
    assert i < n ==> open[..n][i] == open[i];
    if open[i] in open[..n] {
      var k :| 0 <= k < n && open[k] == open[i];
    }
  }

  /** No stream before this one is open without its response having been started. */
  ghost predicate NoneBefore(actions: seq<Action>, id: nat) {
    forall j: nat :: j < id ==> NotWaiting(actions, j)
  }

  predicate NotWaiting(actions: seq<Action>, j: nat) {
    OpenIn(actions, j) ==> StartedIn(actions, j)
  }

  /** An open stream is at the head exactly when all before it, closed ones apart, were started. */
  lemma ReadyAtHead(t: State, actions: seq<Action>, i: nat)
    requires Core(t) && Tracked(t, actions) && i < |t.h.open| && t.h.open[i] in t.h.ready
    ensures i < AtHead(t.h.open, t.h.ready) <==>
            NoneBefore(actions, t.h.open[i])
  {
    var open, ready := t.h.open, t.h.ready;
    AtHeadMeans(open, ready, i);
    if i < AtHead(open, ready) {
      forall j: nat | j < open[i] ensures NotWaiting(actions, j) {
        assert TrackedAt(t, actions, j);
        if j in open {
          var k :| 0 <= k < |open| && open[k] == j;
          assert k <= i;
        }
      }
    } else {
      var m :| 0 <= m <= i && open[m] !in ready;
      var j := open[m];
      assert m < i && j < open[i] && j in open;
      assert TrackedAt(t, actions, j);
      assert !NotWaiting(actions, j);
    }
  }

  lemma AllInReady(open: seq<nat>, ready: seq<nat>, n: nat)
    requires n <= AtHead(open, ready)
    ensures forall x :: x in open[..n] ==> x in ready
  {
    forall i | 0 <= i < n ensures open[i] in ready {
      AtHeadMeans(open, ready, i);
    }
  }

  // ---------------------------------------------------------------------------
  // Stopping.

  /** A connection that runs is stopped by the deadline, an error, a failure of the parser or the session, or a yes of
      `should_stop` where no write is in flight; by nothing else. */
  lemma StopsExactly(s: State, e: Event)
    requires Invariant(s) && Enabled(s, e) && !s.stopped
    ensures var t := Step(s, e);
            match e
            case Deadline => t.stopped
            case ReadDone(error, actions, failed, around, stop) =>
              && (error || failed ==> t.stopped)
              && (stop ==> t.stopped || t.writing)
              && (t.stopped ==> error || failed || stop || around.stop || around.fails.Some?)
            case WriteDone(error, around) =>
              && (error ==> t.stopped)
              && (around.stop ==> t.stopped || t.writing)
              && (t.stopped ==> error || around.stop || around.fails.Some?)
            case InitiateWrite(around) =>
              && (around.stop ==> t.stopped || t.writing)
              && (t.stopped ==> around.stop || around.fails.Some?)
            case Application(_) => !t.stopped
  {
    if e.ReadDone? {
      ActsKeep(Enter(ReadTaken(s)), e.actions);
    }
  }

  /** After the deadline nothing is read or written any more. */
  lemma DeadlineStops(s: State, before: seq<Event>, after: seq<Event>)
    requires Initial(s) && Allowed(s, before)
    ensures var t, u := Run(s, before), Run(Step(Run(s, before), Deadline), after);
            u.stopped && u.pendingReads <= t.pendingReads && u.pendingWrites <= t.pendingWrites && u.handed == t.handed
  {
    StaysStopped(Step(Run(s, before), Deadline), after);
  }
}
