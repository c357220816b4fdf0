/**
 * The handlers and the connection as they run. Every method is proved to take the step of the machine in
 * module Protocol that it implements.
 */
module Connection {
  import opened Bytes
  import opened Handlers
  import opened Protocol
  import opened Runs

  /** One turn of the loop of the HTTP/2 `on_write`. */
  lemma FillStep(all: seq<seq<int>>, i: nat, k: nat, out: seq<int>)
    requires i < k <= |all|
    ensures Fill(all[i..k], out, OUT_SIZE) ==
            if |out| + |all[i]| > OUT_SIZE then Filled(out, all[i], all[i + 1..k])
              else Fill(all[i + 1..k], out + all[i], OUT_SIZE)
    ensures all[i..][1..] == all[i + 1..] && all[i + 1..k] + all[k..] == all[i + 1..]
  {
    assert all[i..k][1..] == all[i + 1..k];
  }

  lemma EnterCore(s: State, actions: seq<Action>)
    requires Core(s) && !s.inside && AllPossible(Enter(s), actions)
    ensures Core(Enter(s)) && Acts(Enter(s), actions).inside
  {
    ActsCore(Enter(s), actions);
  }

  lemma OneMoved(s: seq<nat>, n: nat)
    requires n < |s|
    ensures s[n..][0] == s[n] && s[..n] + [s[n]] == s[..n + 1] && s[n..][1..] == s[n + 1..]
  {
  }

  /** The buffer after `data` was copied to the given place. */
  function Placed(buffer: seq<int>, at: nat, data: seq<int>): seq<int>
    requires at + |data| <= |buffer|
  {
    buffer[..at] + data + buffer[at + |data|..]
  }

  lemma PlacedNext(buffer: seq<int>, out: seq<int>, data: seq<int>)
    requires |out| + |data| <= |buffer|
    ensures |Overwritten(buffer, out)| == |buffer| &&
            Placed(Overwritten(buffer, out), |out|, data) == Overwritten(buffer, out + data)
  {
    var b := Overwritten(buffer, out);
    assert b[..|out|] == out;
    assert b[|out| + |data|..] == buffer[|out| + |data|..];
  }

  /** `base_handler` with the two handlers derived from it. */
  class ServerHandler {
    const http2: bool
    var insideCallback: bool
    var writeSignaled: bool
    var hasWriteFun: bool
    // HTTP/2: the session's chunks, and the chunk held back
    var session: seq<seq<int>>
    var held: seq<int>
    // HTTP/1: the streams by id, and the ids whose response has started
    var requestCount: nat
    var streams: seq<nat>
    var streamIdsToRespond: seq<nat>
    // the calls of `initiate_write` in the event loop, and everything the session has produced
    ghost var posted: nat
    ghost var produced: seq<int>

    ghost function Value(): (h: Handler)
      reads this
      ensures h.Http2? <==> http2
    {
      if http2 then Http2(session, held) else Http1(requestCount, streams, streamIdsToRespond)
    }

    constructor (http2: bool, settings: seq<seq<int>>)
      ensures this.http2 == http2 && !insideCallback && !writeSignaled && hasWriteFun && posted == 0
      ensures Value() == if http2 then Http2(settings, []) else Http1(0, [], [])
      ensures produced == if http2 then Flat(settings) else []
    {
      this.http2 := http2;
      insideCallback, writeSignaled, hasWriteFun, posted := false, false, true, 0;
      session, held := settings, [];
      requestCount, streams, streamIdsToRespond := 0, [], [];
      produced := if http2 then Flat(settings) else [];
    }

    method EnterCallback()
      requires !insideCallback
      modifies this`insideCallback
      ensures insideCallback
    {
      insideCallback := true;
    }

    method LeaveCallback()
      requires insideCallback
      modifies this`insideCallback
      ensures !insideCallback
    {
      insideCallback := false;
    }

    method SignalWrite()
      modifies this`writeSignaled, this`posted
      ensures writeSignaled == (old(writeSignaled) || !insideCallback)
      ensures posted == old(posted) + if !insideCallback && !old(writeSignaled) then 1 else 0
    {
      if !insideCallback && !writeSignaled {
        writeSignaled := true;
        posted := posted + 1;
      }
    }

    /** Any call that gives the session frames to send: a response, a resumed body, trailers, a push, an error. */
    method Submit(chunks: seq<seq<int>>)
      requires http2
      modifies this`session, this`produced, this`writeSignaled, this`posted
      ensures session == old(session) + chunks && produced == old(produced) + Flat(chunks)
      ensures writeSignaled == (old(writeSignaled) || !insideCallback)
      ensures posted == old(posted) + if !insideCallback && !old(writeSignaled) then 1 else 0
    {
      session := session + chunks;
      produced := produced + Flat(chunks);
      SignalWrite();
    }

    /** `create_stream` with the next id: its assertion that the id is new holds. */
    method MessageBegin()
      requires !http2 && WellFormed(Value())
      modifies this`requestCount, this`streams
      ensures requestCount == old(requestCount) + 1 && streams == old(streams) + [requestCount]
      ensures requestCount !in old(streams)
    {
      requestCount := requestCount + 1;
      assert requestCount !in streams;
      streams := streams + [requestCount];
    }

    method StartResponse(id: nat)
      requires !http2
      modifies this`streamIdsToRespond, this`writeSignaled, this`posted
      ensures streamIdsToRespond == Insert(old(streamIdsToRespond), id)
      ensures writeSignaled == (old(writeSignaled) || !insideCallback)
      ensures posted == old(posted) + if !insideCallback && !old(writeSignaled) then 1 else 0
    {
      streamIdsToRespond := Insert(streamIdsToRespond, id);
      SignalWrite();
    }

    /** The stream is gone, if it was there, and every other stays in its place in the order. */
    method CloseStream(id: nat)
      requires Sorted(streams)
      modifies this`streams
      ensures streams == Erase(old(streams), id)
      ensures Sorted(streams) && forall other :: other in streams <==> other in old(streams) && other != id
    {
      EraseSorted(streams, id);
      streams := Erase(streams, id);
    }

    /** `get_consecutive_stream_ids_to_respond`. */
    method ConsecutiveIds() returns (ids: seq<nat>)
      modifies this`streamIdsToRespond
      ensures var k := Consecutive(streams, old(streamIdsToRespond));
              ids == old(streamIdsToRespond)[..k] && streamIdsToRespond == old(streamIdsToRespond)[k..]
    {
      ids := [];
      ghost var was := streamIdsToRespond;
      if |streamIdsToRespond| > 0 && |streams| > 0 && streamIdsToRespond[0] == streams[0] {
        ids := [streamIdsToRespond[0]];
        streamIdsToRespond := streamIdsToRespond[1..];
        while streamIdsToRespond != [] && streamIdsToRespond[0] as int - ids[|ids| - 1] as int == 1
          invariant 0 < |ids| <= |was| && ids == was[..|ids|] && streamIdsToRespond == was[|ids|..]
          invariant RunFrom(was, |ids|) == RunFrom(was, 1)
          decreases |streamIdsToRespond|
        {
          OneMoved(was, |ids|);
          ids := ids + [streamIdsToRespond[0]];
          streamIdsToRespond := streamIdsToRespond[1..];
        }
      }
    }

    /** The id loop of the HTTP/1 `on_write`: each id's stream is found, written and closed. */
    method OnWriteIds(buffer: seq<int>) returns (after: seq<int>, len: nat)
      requires !http2 && WellFormed(Value()) && !insideCallback
      modifies this`streamIdsToRespond, this`streams, this`insideCallback
      ensures !insideCallback
      ensures var (h, out) := Emit(old(Value()), QUIET);
              Value() == h && len == |out| &&
              after == Overwritten(buffer, out)
    {
      EnterCallback();
      ghost var open, ready := streams, streamIdsToRespond;
      ghost var k := Consecutive(open, ready);
      RunIsHead(open, ready);
      var ids := ConsecutiveIds();
      var out: seq<int> := [];
      len := 0;
      while ids != []
        invariant insideCallback && streamIdsToRespond == ready[k..]
        invariant len <= k <= |open| && streams == open[len..] && ids == open[len..k] && out == open[..len]
        decreases |ids|
      {
        var id := ids[0];
        ids := ids[1..];
        assert id in streams;
        out := out + [id];
        len := len + 1;
        CloseStream(id);
      }
      after := Overwritten(buffer, out);
      LeaveCallback();
    }

    /** The HTTP/2 `on_write`. The result says whether the session failed. */
    method OnWriteBytes(buffer: seq<int>, around: Around) returns (after: seq<int>, len: nat, failed: bool)
      requires http2 && WellFormed(Value()) && !insideCallback && |buffer| == OUT_SIZE && Fit(around.more, OUT_SIZE)
      modifies this`session, this`held, this`produced, this`insideCallback
      ensures !insideCallback && produced == old(produced) + Flat(around.more)
      ensures var (h, out) := Emit(old(Value()), around);
              Value() == h && len == |out| &&
              after == Overwritten(buffer, out)
      ensures failed <==> around.fails.Some? && around.fails.value <= |old(session) + around.more| && held == []
    {
      EnterCallback();
      session, produced := session + around.more, produced + Flat(around.more);
      FitAppend(old(session), around.more);
      after := buffer;
      len := 0;
      ghost var out := held;
      if held != [] {
        after := Placed(after, len, held);
        len := len + |held|;
        held := [];
      }
      after, len, failed := TakeChunks(buffer, after, len, around.fails, out);
      LeaveCallback();
    }

    /** The loop: `out` is what the buffer holds at its beginning. */
    method TakeChunks(ghost buffer: seq<int>, start: seq<int>, at: nat, fails: Option<nat>, ghost first: seq<int>)
      returns (after: seq<int>, len: nat, failed: bool)
      requires http2 && |buffer| == OUT_SIZE && start == Overwritten(buffer, first) && at == |first| <= OUT_SIZE &&
               held == []
      requires Fit(session, OUT_SIZE)
      modifies this`session, this`held
      ensures var f := Fill(old(session)[..Given(old(session), fails)], first, OUT_SIZE);
              && session == f.rest + old(session)[Given(old(session), fails)..] && held == f.held
              && len == |f.out| && after == Overwritten(buffer, f.out)
      ensures failed <==> fails.Some? && fails.value <= |old(session)| && held == []
    {
      ghost var all, k, out := session, Given(session, fails), first;
      after, len, failed := start, at, false;
      var taken := 0;
      assert all[0..k] == all[..k];
      while true
        invariant held == [] && taken <= k && session == all[taken..]
        invariant len == |out| <= OUT_SIZE && after == Overwritten(buffer, out)
        invariant Fill(all[taken..k], out, OUT_SIZE) == Fill(all[..k], first, OUT_SIZE)
        decreases |session|
      {
        if fails == Some(taken) {
          failed := true;
          break;
        }
        if session == [] {
          break;
        }
        FillStep(all, taken, k, out);
        var data := session[0];
        session := session[1..];
        taken := taken + 1;
        if len + |data| > |after| {
          held := data;
          break;
        }
        PlacedNext(buffer, out, data);
        out := out + data;
        after := Placed(after, len, data);
        len := len + |data|;
      }
      assert session == (if held == [] then [] else all[taken..k]) + all[k..];
    }
  }

  class ServerConnection {
    const handler: ServerHandler
    var writing: bool
    var stopped: bool
    var outbuf: seq<int>
    // the operations in flight, and the histories
    ghost var pendingReads: nat
    ghost var pendingWrites: nat
    ghost var nwritten: nat
    ghost var handed: seq<int>
    ghost var delivered: seq<int>
    ghost var unread: bool

    /** The connection as a state of the step machine. That no assertion has failed is what the methods below are
        verified for. */
    ghost function Now(): (s: State)
      reads this, handler
      ensures s.h.Http2? <==> handler.http2
    {
      State(handler.Value(),
            handler.insideCallback, handler.writeSignaled, handler.hasWriteFun, handler.posted,
            writing, stopped, pendingReads, pendingWrites,
            outbuf, nwritten,
            handler.produced, handed, delivered,
            unread, false)
    }

    constructor (http2: bool, settings: seq<seq<int>>)
      requires Fit(settings, OUT_SIZE)
      ensures fresh(handler) && Now() == Started(if http2 then Http2(settings, []) else Http1(0, [], []))
      ensures Initial(Now())
    {
      handler := new ServerHandler(http2, settings);
      writing, stopped, outbuf := false, false, Zeros();
      pendingReads, pendingWrites, nwritten, handed, delivered, unread := 1, 0, 0, [], [], true;
    }

    method Perform(a: Action)
      requires WellFormed(handler.Value()) && Possible(handler.Value(), a)
      modifies handler
      ensures Now() == Act(old(Now()), a)
    {
      match a
      case Enqueue(chunks) => handler.Submit(chunks);
      case Begin => handler.MessageBegin();
      case Start(id) =>
        if id in handler.streams {
          handler.StartResponse(id);
        }
      case Close(id) => handler.CloseStream(id);
    }

    method PerformAll(actions: seq<Action>)
      requires Core(Now()) && AllPossible(Now(), actions)
      modifies handler
      ensures Now() == Acts(old(Now()), actions)
    {
      for i := 0 to |actions|
        invariant Core(Now()) && AllPossible(Now(), actions[i..])
        invariant Acts(Now(), actions[i..]) == Acts(old(Now()), actions)
      {
        assert actions[i..][1..] == actions[i + 1..];
        ActCore(Now(), actions[i]);
        Perform(actions[i]);
      }
    }

    /** The handler's `on_read`; the actions are what its callbacks do. */
    method HandleRead(actions: seq<Action>)
      requires Core(Now()) && !handler.insideCallback && AllPossible(Enter(Now()), actions)
      modifies handler, this`unread
      ensures Now() == OnRead(old(Now()), actions).(unread := false)
    {
      ghost var s := Now();
      EnterCore(s, actions);
      handler.EnterCallback();
      assert Now() == Enter(s);
      PerformAll(actions);
      handler.LeaveCallback();
      unread := false;
    }

    method Stop()
      modifies this`stopped, handler`hasWriteFun
      ensures Now() == Protocol.Stop(old(Now()))
    {
      if stopped {
        return;
      }
      stopped := true;
      handler.hasWriteFun := false;
    }

    method DoRead()
      modifies this`pendingReads
      ensures Now() == Protocol.DoRead(old(Now()))
    {
      if stopped {
        return;
      }
      pendingReads := pendingReads + 1;
    }

    method HandleWrite(around: Around) returns (len: nat, failed: bool)
      requires Core(Now()) && !handler.insideCallback && Fit(around.more, OUT_SIZE)
      modifies this`outbuf, handler
      ensures Now() == OnWrite(old(Now()), around)
      ensures len == |Written(old(Now()), around)| && failed == Fails(old(Now()), around)
    {
      if handler.http2 {
        outbuf, len, failed := handler.OnWriteBytes(outbuf, around);
      } else {
        outbuf, len := handler.OnWriteIds(outbuf);
        failed := false;
      }
    }

    method DoWrite(around: Around)
      requires Core(Now()) && !handler.insideCallback && Fit(around.more, OUT_SIZE)
      modifies this, handler
      ensures Now() == Protocol.DoWrite(old(Now()), around)
    {
      if stopped {
        return;
      }
      if writing {
        return;
      }
      ghost var before := Now();
      var nwrite, failed := HandleWrite(around);
      if failed {
        Stop();
        return;
      }
      if nwrite == 0 {
        if around.stop {
          Stop();
        }
        return;
      }
      writing := true;
      // an asynchronous write of the first `nwrite` units of the buffer begins
      pendingWrites, nwritten, handed := pendingWrites + 1, nwrite, handed + Written(before, around);
    }

    // The four methods that follow take the steps of the machine, so by StepKeeps they keep its invariant.

    /** The completion of a read. */
    method ReadCompletion(e: Event)
      requires Invariant(Now()) && e.ReadDone? && Enabled(Now(), e)
      modifies this, handler
      ensures Now() == Step(old(Now()), e)
    {
      ghost var s := Now();
      pendingReads := pendingReads - 1;
      assert Now() == ReadTaken(s);
      if e.error {
        Stop();
        return;
      }
      HandledCore(s, e.actions);
      HandleRead(e.actions);
      assert Now() == ReadHandled(s, e.actions);
      if e.failed {
        Stop();
        return;
      }
      FinishRead(e.around, e.stop);
    }

    method FinishRead(around: Around, stop: bool)
      requires Core(Now()) && !handler.insideCallback && Fit(around.more, OUT_SIZE)
      modifies this, handler
      ensures Now() == ReadOn(Protocol.DoWrite(old(Now()), around), stop)
    {
      DoWrite(around);
      if !writing && stop {
        Stop();
        return;
      }
      DoRead();
    }

    /** The completion of a write: it has taken its units out of the buffer as the buffer is now. */
    method WriteCompletion(e: Event)
      requires Invariant(Now()) && e.WriteDone? && Enabled(Now(), e)
      modifies this, handler
      ensures Now() == Step(old(Now()), e)
    {
      ghost var s := Now();
      pendingWrites := pendingWrites - 1;
      if e.error {
        Stop();
        return;
      }
      delivered := delivered + outbuf[..nwritten];
      writing := false;
      CompletedCore(s);
      assert Now() == WriteCompleted(s);
      DoWrite(e.around);
    }

    /** The posted `initiate_write`, with the write function it calls unless the connection has stopped. */
    method PostedWrite(e: Event)
      requires Invariant(Now()) && e.InitiateWrite? && Enabled(Now(), e)
      modifies this, handler
      ensures Now() == Step(old(Now()), e)
    {
      handler.posted := handler.posted - 1;
      handler.writeSignaled := false;
      if handler.hasWriteFun {
        DoWrite(e.around);
      }
    }

    /** An application acts on a stream outside any callback. */
    method ApplicationAct(a: Action)
      requires Invariant(Now()) && Enabled(Now(), Application(a))
      modifies handler
      ensures Now() == Step(old(Now()), Application(a))
    {
      Perform(a);
    }
  }
}
