/**
 The streamed JSON response: heartbeats and one final payload go through a socket that may push back.
 While it is blocked, chunks wait in a bounded queue and a payload that finds no room waits beside it.
 A run is any interleaving of heartbeats, finish calls, drain events and a close, with arbitrary answers
 of the socket to every write.
 */
module StreamingResponse {
  import opened Options

  const MCP_STREAM_CHANNEL_CAPACITY: nat := 2

  datatype Chunk = Chunk(payload: string, final: bool)

  const Heartbeat := Chunk("\n", false)

  /** `wire` is what was written, `ends` how often the response was ended. */
  datatype State = State(
    queue: seq<Chunk>,
    blocked: bool,
    closed: bool,
    finalWritten: bool,
    pendingFinal: Option<string>,
    timer: bool,
    listening: bool,
    wire: seq<Chunk>,
    ends: nat)

  const Initial := State([], false, false, false, None, true, false, [], 0)

  // ----- the bounded queue -----

  predicate HasFinal(queue: seq<Chunk>) {
    exists i :: 0 <= i < |queue| && queue[i].final
  }

  predicate HasRoom(queue: seq<Chunk>, capacity: nat) {
    |queue| < capacity && !HasFinal(queue)
  }

  function Enqueue(queue: seq<Chunk>, capacity: nat, chunk: Chunk): seq<Chunk> {
    if HasRoom(queue, capacity) then queue + [chunk] else queue
  }

  // ----- the steps -----

  /** `ready` answers the write of a step; a drain has `accepted` writes answered ready and the next one not. */
  datatype Step =
    | Beat(ready: bool)
    | Finish(payload: string, ready: bool)
    | Drain(accepted: nat)
    | Close

  /** The timer beats only while it runs, a drain reaches only a listener, and JSON is never empty. */
  predicate Enabled(s: State, step: Step) {
    match step
    case Beat(_) => s.timer
    case Finish(payload, _) => payload != ""
    case Drain(_) => s.listening
    case Close => true
  }

  function End(s: State): State {
    if s.closed then s else s.(timer := false, listening := false, ends := s.ends + 1)
  }

  function Write(s: State, chunk: Chunk, ready: bool): State {
    if s.closed then s
    else
      var written := s.(wire := s.wire + [chunk], finalWritten := s.finalWritten || chunk.final);
      if !ready then written.(blocked := true, listening := true)
      else if chunk.final then End(written)
      else written
  }

  /** A waiting payload moves into the queue as soon as the queue is short enough, if the queue takes it. */
  function AdmitPending(s: State): State {
    if s.pendingFinal.Some? && |s.queue| < MCP_STREAM_CHANNEL_CAPACITY then
      s.(queue := Enqueue(s.queue, MCP_STREAM_CHANNEL_CAPACITY, Chunk(s.pendingFinal.value, true)),
         pendingFinal := None)
    else s
  }

  function AfterLoop(s: State, accepted: nat): State {
    if s.pendingFinal.Some? && !s.blocked then
      Write(s.(pendingFinal := None), Chunk(s.pendingFinal.value, true), 0 < accepted)
    else if s.finalWritten && !s.blocked then End(s)
    else s
  }

  function DrainLoop(s: State, accepted: nat): State
    decreases |s.queue| + if s.pendingFinal.Some? then 1 else 0
  {
    var admitted := AdmitPending(s);
    if admitted.queue == [] then AfterLoop(admitted, accepted)
    else
      var chunk := admitted.queue[0];
      var written := Write(admitted.(queue := admitted.queue[1..]), chunk, 0 < accepted);
      if chunk.final then written
      else if accepted == 0 then AfterLoop(written, 0)
      else DrainLoop(written, accepted - 1)
  }

  function Apply(s: State, step: Step): State
    requires Enabled(s, step)
  {
    match step
    case Beat(ready) =>
      if s.closed || s.finalWritten then s
      else if s.blocked then s.(queue := Enqueue(s.queue, MCP_STREAM_CHANNEL_CAPACITY, Heartbeat))
      else Write(s, Heartbeat, ready)
    case Finish(payload, ready) =>
      if s.closed || s.finalWritten then s
      else
        var stopped := s.(timer := false);
        if !s.blocked then Write(stopped, Chunk(payload, true), ready)
        else if HasRoom(s.queue, MCP_STREAM_CHANNEL_CAPACITY) then
          stopped.(queue := s.queue + [Chunk(payload, true)])
        else stopped.(pendingFinal := Some(payload))
    case Drain(accepted) =>
      if s.closed then s.(listening := false)
      else DrainLoop(s.(blocked := false, listening := false), accepted)
    case Close =>
      if s.closed then s
      else s.(closed := true, timer := false, queue := [], pendingFinal := None, listening := false)
  }

  // ----- heartbeats -----

  /**
   Every beat of an open response whose payload is not out writes a newline at once, or, while the socket is
   blocked, queues one as long as there is room and no payload is queued; any other beat does nothing.
   */
  lemma BeatIsWrittenOrQueued(s: State, ready: bool)
    requires s.timer
    ensures var s' := Apply(s, Beat(ready));
            && (!s.closed && !s.finalWritten && !s.blocked ==>
                  && s'.wire == s.wire + [Chunk("\n", false)] && s'.queue == s.queue
                  && s'.blocked == !ready && (!ready ==> s'.listening) && s'.ends == s.ends)
            && (!s.closed && !s.finalWritten && s.blocked ==>
                  && s'.wire == s.wire && s'.blocked && s'.ends == s.ends
                  && s'.queue == (if |s.queue| < 2 && (forall i :: 0 <= i < |s.queue| ==> !s.queue[i].final)
                                  then s.queue + [Chunk("\n", false)] else s.queue))
            && (s.closed || s.finalWritten ==> s' == s)
            && s'.pendingFinal == s.pendingFinal && s'.timer == s.timer && s'.closed == s.closed
  {
  }

  // ----- the invariant -----

  /** Heartbeats and nothing else, except that the last chunk may be a payload. */
  ghost predicate BeatsThenFinal(chunks: seq<Chunk>) {
    forall i :: 0 <= i < |chunks| ==> chunks[i] == Heartbeat || (i == |chunks| - 1 && chunks[i].final)
  }

  /** What holds between steps and also inside the drain loop, where the socket may be unblocked early. */
  ghost predicate LoopInv(s: State) {
    && |s.queue| <= MCP_STREAM_CHANNEL_CAPACITY
    && BeatsThenFinal(s.queue)
    && BeatsThenFinal(s.wire)
    && (s.finalWritten <==> HasFinal(s.wire))
    && (s.finalWritten ==> s.queue == [] && s.pendingFinal.None? && !s.timer)
    && (HasFinal(s.queue) || s.pendingFinal.Some? ==> !s.timer)
    && (s.closed ==> s.queue == [] && s.pendingFinal.None? && !s.timer && !s.listening)
    && (!s.closed ==> s.listening == s.blocked)
    && s.ends <= 1
    && (s.ends == 1 ==> s.finalWritten && !s.blocked)
  }

  /** An open, unblocked response has nothing waiting, and has been ended once its payload is out. */
  ghost predicate Inv(s: State) {
    && LoopInv(s)
    && (!s.closed && !s.blocked ==> s.queue == [] && s.pendingFinal.None? && (s.finalWritten <==> s.ends == 1))
  }

  lemma WriteKeepsInv(s: State, chunk: Chunk, ready: bool)
    requires LoopInv(s) && !s.closed && !s.blocked && !s.finalWritten && s.ends == 0
    requires chunk == Heartbeat || (chunk.final && s.queue == [] && s.pendingFinal.None? && !s.timer)
    ensures LoopInv(Write(s, chunk, ready))
    ensures Write(s, chunk, ready).finalWritten == chunk.final
    ensures Write(s, chunk, ready).ends == if chunk.final && ready then 1 else 0
  {
    var s' := Write(s, chunk, ready);
    assert s'.wire == s.wire + [chunk];
    assert s'.wire[|s.wire|] == chunk;
  }

  lemma AdmitKeepsInv(s: State)
    requires LoopInv(s)
    ensures LoopInv(AdmitPending(s))
    ensures AdmitPending(s).queue != [] && AdmitPending(s).queue[0].final ==>
              |AdmitPending(s).queue| == 1 && AdmitPending(s).pendingFinal.None?
    ensures AdmitPending(s).queue == [] ==> s.queue == [] && s.pendingFinal.None?
  {
    var s' := AdmitPending(s);
    if s'.queue != s.queue {
      assert s'.queue[|s.queue|].final;
    }
  }

  /** The state inside the drain loop: open, not blocked and not ended. */
  ghost predicate Draining(s: State) {
    LoopInv(s) && !s.closed && !s.blocked && s.ends == 0
  }

  /** Writing the head of the queue leaves a state the loop can go on with. */
  lemma WriteHeadKeepsInv(s: State, accepted: nat)
    requires Draining(s) && !s.finalWritten && s.queue != []
    requires s.queue[0].final ==> |s.queue| == 1 && s.pendingFinal.None?
    ensures var s' := Write(s.(queue := s.queue[1..]), s.queue[0], 0 < accepted);
            && LoopInv(s') && s'.finalWritten == s.queue[0].final
            && s'.ends == (if s.queue[0].final && 0 < accepted then 1 else 0)
            && s'.blocked == (accepted == 0) && !s'.closed
            && s'.queue == s.queue[1..] && s'.pendingFinal == s.pendingFinal
  {
    var rest := s.(queue := s.queue[1..]);
    assert forall i :: 0 <= i < |rest.queue| ==> rest.queue[i] == s.queue[i + 1];
    assert HasFinal(rest.queue) ==> HasFinal(s.queue);
    assert s.queue[0].final ==> HasFinal(s.queue);
    WriteKeepsInv(rest, s.queue[0], 0 < accepted);
  }

  lemma {:induction false} DrainKeepsInv(s: State, accepted: nat)
    requires Draining(s)
    ensures Inv(DrainLoop(s, accepted)) && !DrainLoop(s, accepted).closed
    decreases |s.queue| + if s.pendingFinal.Some? then 1 else 0
  {
    AdmitKeepsInv(s);
    var admitted := AdmitPending(s);
    if admitted.queue != [] {
      WriteHeadKeepsInv(admitted, accepted);
      var written := Write(admitted.(queue := admitted.queue[1..]), admitted.queue[0], 0 < accepted);
      if !admitted.queue[0].final && accepted != 0 {
        DrainKeepsInv(written, accepted - 1);
      }
    }
  }

  lemma StepKeepsInv(s: State, step: Step)
    requires Inv(s) && Enabled(s, step)
    ensures Inv(Apply(s, step))
  {
    match step
    case Beat(ready) =>
      if !s.closed && !s.finalWritten {
        if !s.blocked {
          WriteKeepsInv(s, Heartbeat, ready);
        } else {
          var s' := Apply(s, step);
          assert HasFinal(s'.queue) ==> HasFinal(s.queue);
        }
      }
    case Finish(payload, ready) =>
      if !s.closed && !s.finalWritten && !s.blocked {
        assert !HasFinal([]);
        WriteKeepsInv(s.(timer := false), Chunk(payload, true), ready);
      }
    case Drain(accepted) =>
      DrainKeepsInv(s.(blocked := false, listening := false), accepted);
    case Close => assert !HasFinal([]);
  }

  // ----- runs -----

  ghost predicate Run(s: State, steps: seq<Step>, end: State)
    decreases |steps|
  {
    if steps == [] then s == end
    else Enabled(s, steps[0]) && Run(Apply(s, steps[0]), steps[1..], end)
  }

  lemma {:induction false} RunKeepsInv(s: State, steps: seq<Step>, end: State)
    requires Inv(s) && Run(s, steps, end)
    ensures Inv(end)
    decreases |steps|
  {
    if steps != [] {
      StepKeepsInv(s, steps[0]);
      RunKeepsInv(Apply(s, steps[0]), steps[1..], end);
    }
  }

  /**
   After any run the bytes are newlines followed by at most one payload and nothing after it, and the
   response has been ended at most once, and only when the payload was accepted.
   */
  lemma WireIsBeatsThenOnePayload(steps: seq<Step>, s: State)
    requires Run(Initial, steps, s)
    ensures BeatsThenFinal(s.wire)
    ensures s.ends <= 1
    ensures s.ends == 1 ==> s.wire != [] && s.wire[|s.wire| - 1].final && !s.blocked
  {
    RunKeepsInv(Initial, steps, s);
  }

  // ----- closing -----

  /** Behind a close nothing more is written or ended, whatever happens, and the timer is off. */
  lemma {:induction false} ClosedStaysSilent(s: State, steps: seq<Step>, end: State)
    requires Run(s, steps, end) && s.closed && !s.timer
    ensures end.closed && !end.timer && end.wire == s.wire && end.ends == s.ends
    decreases |steps|
  {
    if steps != [] {
      ClosedStaysSilent(Apply(s, steps[0]), steps[1..], end);
    }
  }

  /** A close silences a response: what was waiting is dropped, and the wire stays as it is. */
  lemma CloseSilences(before: seq<Step>, s: State, after: seq<Step>, end: State)
    requires Run(Initial, before, s) && Run(Apply(s, Close), after, end)
    ensures end.wire == s.wire && end.ends == s.ends
    ensures !Enabled(end, Beat(true)) && !Enabled(end, Beat(false))
    ensures var closed := Apply(s, Close);
            closed.queue == [] && closed.pendingFinal.None? && !Enabled(closed, Drain(0))
  {
    RunKeepsInv(Initial, before, s);
    ClosedStaysSilent(Apply(s, Close), after, end);
  }

  // ----- delivery -----

  /** A payload is on its way: queued, waiting beside the queue or already written. */
  ghost predicate Offered(s: State) {
    s.finalWritten || HasFinal(s.queue) || s.pendingFinal.Some?
  }

  /** How many drain events it takes at most until the response has ended. */
  ghost function Remaining(s: State): nat {
    if s.finalWritten then (if s.blocked then 1 else 0)
    else |s.queue| + (if s.pendingFinal.Some? && !HasFinal(s.queue) then 1 else 0) + 1
  }

  /** The payloads that are written, queued or pending. */
  ghost predicate Carries(s: State, payload: string) {
    || Chunk(payload, true) in s.wire
    || Chunk(payload, true) in s.queue
    || s.pendingFinal == Some(payload)
  }

  lemma {:induction false} DrainLoopDelivers(s: State, accepted: nat)
    requires Draining(s) && Offered(s)
    ensures var s' := DrainLoop(s, accepted);
            && Offered(s')
            && Remaining(s') < Remaining(s.(blocked := true))
            && forall payload :: Carries(s', payload) ==> Carries(s, payload)
    decreases |s.queue| + if s.pendingFinal.Some? then 1 else 0
  {
    AdmitKeepsInv(s);
    var admitted := AdmitPending(s);
    AdmitKeepsOffer(s);
    if admitted.queue != [] {
      WriteHeadKeepsInv(admitted, accepted);
      var written := Write(admitted.(queue := admitted.queue[1..]), admitted.queue[0], 0 < accepted);
      WriteHeadKeepsOffer(admitted, accepted);
      if !admitted.queue[0].final && accepted != 0 {
        DrainLoopDelivers(written, accepted - 1);
      }
    }
  }

  lemma AdmitKeepsOffer(s: State)
    requires Draining(s) && Offered(s)
    ensures var s' := AdmitPending(s);
            && Offered(s') && Draining(s')
            && Remaining(s'.(blocked := true)) <= Remaining(s.(blocked := true))
            && forall payload :: Carries(s', payload) ==> Carries(s, payload)
  {
    AdmitKeepsInv(s);
    var s' := AdmitPending(s);
    if s'.queue != s.queue {
      assert s'.queue[|s.queue|].final;
    }
  }

  lemma WriteHeadKeepsOffer(s: State, accepted: nat)
    requires Draining(s) && Offered(s) && s.queue != []
    requires s.queue[0].final ==> |s.queue| == 1 && s.pendingFinal.None?
    ensures var s' := Write(s.(queue := s.queue[1..]), s.queue[0], 0 < accepted);
            && Offered(s')
            && Remaining(s'.(blocked := true)) < Remaining(s.(blocked := true))
            && Remaining(s') < Remaining(s.(blocked := true))
            && forall payload :: Carries(s', payload) ==> Carries(s, payload)
  {
    WriteHeadKeepsInv(s, accepted);
    var s' := Write(s.(queue := s.queue[1..]), s.queue[0], 0 < accepted);
    assert HasFinal(s.queue) <==> s.queue[0].final || HasFinal(s'.queue) by {
      if HasFinal(s'.queue) {
        var i :| 0 <= i < |s'.queue| && s'.queue[i].final;
        assert s.queue[i + 1].final;
      }
      if HasFinal(s.queue) && !s.queue[0].final {
        var i :| 0 <= i < |s.queue| && s.queue[i].final;
        assert s'.queue[i - 1].final;
      }
    }
  }

  /** On an open response an offered payload stays offered, and only drains bring it closer, each by at least one. */
  lemma StepKeepsOffer(s: State, step: Step)
    requires Inv(s) && Enabled(s, step) && !s.closed && Offered(s) && !step.Close?
    ensures var s' := Apply(s, step);
            && !s'.closed && Offered(s')
            && Remaining(s') + (if step.Drain? then 1 else 0) <= Remaining(s)
  {
    match step
    case Beat(_) =>
    case Finish(payload, _) =>
      if !s.finalWritten {
        var s' := Apply(s, step);
        assert s.blocked;
        if HasRoom(s.queue, MCP_STREAM_CHANNEL_CAPACITY) {
          assert s'.queue[|s.queue|].final;
        }
      }
    case Drain(accepted) =>
      var unblocked := s.(blocked := false, listening := false);
      DrainKeepsInv(unblocked, accepted);
      DrainLoopDelivers(unblocked, accepted);
  }

  /** A finish call on an open response without payload offers one. */
  lemma FinishOffers(s: State, payload: string, ready: bool)
    requires Inv(s) && !s.closed && payload != ""
    ensures Offered(Apply(s, Finish(payload, ready))) && Remaining(Apply(s, Finish(payload, ready))) <= 4
  {
    var s' := Apply(s, Finish(payload, ready));
    if !s.finalWritten && s.blocked && HasRoom(s.queue, MCP_STREAM_CHANNEL_CAPACITY) {
      assert s'.queue[|s.queue|].final;
    }
  }

  function Drains(steps: seq<Step>): nat {
    if steps == [] then 0 else (if steps[0].Drain? then 1 else 0) + Drains(steps[1..])
  }

  lemma {:induction false} RunKeepsOffer(s: State, steps: seq<Step>, end: State)
    requires Inv(s) && Run(s, steps, end) && !s.closed && Offered(s)
    requires forall step :: step in steps ==> !step.Close?
    ensures Inv(end) && !end.closed && Offered(end)
    ensures Remaining(end) + Drains(steps) <= Remaining(s)
    decreases |steps|
  {
    if steps != [] {
      assert steps[0] in steps;
      StepKeepsInv(s, steps[0]);
      StepKeepsOffer(s, steps[0]);
      RunKeepsOffer(Apply(s, steps[0]), steps[1..], end);
    }
  }

  /**
   No finished, unclosed response loses its payload: whatever else happens after a finish call, at most
   four drain events can follow, and once no more are due the payload has been accepted and the response ended.
   */
  lemma FinishIsDelivered(before: seq<Step>, s: State, payload: string, ready: bool, after: seq<Step>, end: State)
    requires Run(Initial, before, s) && !s.closed && payload != ""
    requires Run(Apply(s, Finish(payload, ready)), after, end)
    requires forall step :: step in after ==> !step.Close?
    ensures Drains(after) <= 4
    ensures !end.listening ==> end.ends == 1 && end.wire != [] && end.wire[|end.wire| - 1].final
    ensures Drains(after) == 4 ==> !end.listening
  {
    RunKeepsInv(Initial, before, s);
    StepKeepsInv(s, Finish(payload, ready));
    FinishOffers(s, payload, ready);
    var offered := Apply(s, Finish(payload, ready));
    RunKeepsOffer(offered, after, end);
    OfferEndsInPayload(end);
  }

  lemma OfferEndsInPayload(s: State)
    requires Inv(s) && !s.closed && Offered(s)
    ensures !s.listening ==> s.ends == 1 && s.wire != [] && s.wire[|s.wire| - 1].final
    ensures Remaining(s) == 0 ==> !s.listening
  {
  }

  /** A step carries no payload that was not carried before or handed to it. */
  lemma StepCarries(s: State, step: Step, payload: string)
    requires Inv(s) && Enabled(s, step) && Carries(Apply(s, step), payload)
    ensures Carries(s, payload) || (step.Finish? && step.payload == payload)
  {
    if step.Drain? && !s.closed {
      var unblocked := s.(blocked := false, listening := false);
      if Offered(s) {
        DrainLoopDelivers(unblocked, step.accepted);
      } else {
        DrainWithoutOffer(unblocked, step.accepted, payload);
      }
    }
  }

  lemma {:induction false} DrainWithoutOffer(s: State, accepted: nat, payload: string)
    requires Draining(s) && !Offered(s)
    ensures Carries(DrainLoop(s, accepted), payload) ==> Carries(s, payload)
    decreases |s.queue|
  {
    if s.queue != [] {
      assert !s.queue[0].final;
      WriteHeadKeepsInv(s, accepted);
      var written := Write(s.(queue := s.queue[1..]), s.queue[0], 0 < accepted);
      if accepted != 0 {
        DrainWithoutOffer(written, accepted - 1, payload);
      }
    }
  }

  /** The payload on the wire is one that was passed to finish; with a single finish call it is that one. */
  lemma {:induction false} PayloadComesFromFinish(s: State, steps: seq<Step>, end: State, payload: string)
    requires Inv(s) && Run(s, steps, end) && Carries(end, payload)
    ensures Carries(s, payload) || exists i :: 0 <= i < |steps| && steps[i].Finish? && steps[i].payload == payload
    decreases |steps|
  {
    if steps != [] {
      StepKeepsInv(s, steps[0]);
      PayloadComesFromFinish(Apply(s, steps[0]), steps[1..], end, payload);
      if Carries(Apply(s, steps[0]), payload) {
        StepCarries(s, steps[0], payload);
      } else {
        var i :| 0 <= i < |steps[1..]| && steps[1..][i].Finish? && steps[1..][i].payload == payload;
        assert steps[i + 1] == steps[1..][i];
      }
    }
  }

  // ----- the objects -----

  /** The bounded queue of chunks. */
  class BoundedMcpStreamQueue {
    const capacity: nat
    var chunks: seq<Chunk>

    constructor (capacity: nat)
      requires 1 <= capacity
      ensures this.capacity == capacity && chunks == []
    {
      this.capacity := capacity;
      chunks := [];
    }

    method ContainsFinal() returns (found: bool)
      ensures found == HasFinal(chunks)
    {
      for i := 0 to |chunks|
        invariant !HasFinal(chunks[..i])
      {
        if chunks[i].final {
          return true;
        }
      }
      assert chunks[..|chunks|] == chunks;
      return false;
    }

    method EnqueueHeartbeat() returns (queued: bool)
      modifies this
      ensures queued == HasRoom(old(chunks), capacity)
      ensures chunks == Enqueue(old(chunks), capacity, Heartbeat)
    {
      queued := EnqueueChunk(Heartbeat);
    }

    method EnqueueFinal(payload: string) returns (queued: bool)
      modifies this
      ensures queued == HasRoom(old(chunks), capacity)
      ensures chunks == Enqueue(old(chunks), capacity, Chunk(payload, true))
    {
      queued := EnqueueChunk(Chunk(payload, true));
    }

    method EnqueueChunk(chunk: Chunk) returns (queued: bool)
      modifies this
      ensures queued == HasRoom(old(chunks), capacity)
      ensures chunks == Enqueue(old(chunks), capacity, chunk)
    {
      var final := ContainsFinal();
      queued := |chunks| < capacity && !final;
      if queued {
        chunks := chunks + [chunk];
      }
    }

    method Shift() returns (chunk: Option<Chunk>)
      modifies this
      ensures if old(chunks) == [] then chunk.None? && chunks == []
              else chunk == Some(old(chunks)[0]) && chunks == old(chunks)[1..]
    {
      if chunks == [] {
        return None;
      }
      chunk := Some(chunks[0]);
      chunks := chunks[1..];
    }

    method Clear()
      modifies this
      ensures chunks == []
    {
      chunks := [];
    }
  }

  /** The response; `wire`, `ends`, `timer` and `listening` stand for the socket and its listeners. */
  class StreamingJsonResponse {
    const queue: BoundedMcpStreamQueue
    var blocked: bool
    var closed: bool
    var finalWritten: bool
    var pendingFinal: Option<string>
    var timer: bool
    var listening: bool
    var wire: seq<Chunk>
    var ends: nat

    function View(): State
      reads this, queue
    {
      State(queue.chunks, blocked, closed, finalWritten, pendingFinal, timer, listening, wire, ends)
    }

    ghost predicate Valid()
      reads this, queue
    {
      queue.capacity == MCP_STREAM_CHANNEL_CAPACITY && Inv(View())
    }

    constructor ()
      ensures Valid() && View() == Initial && fresh(queue)
    {
      queue := new BoundedMcpStreamQueue(MCP_STREAM_CHANNEL_CAPACITY);
      blocked, closed, finalWritten, pendingFinal := false, false, false, None;
      timer, listening, wire, ends := true, false, [], 0;
    }

    /** `#end`. */
    method EndResponse()
      modifies this
      ensures View() == End(old(View()))
    {
      if !closed {
        timer, listening := false, false;
        ends := ends + 1;
      }
    }

    /** `#write`, with the answer of the socket. */
    method WriteChunk(chunk: Chunk, ready: bool)
      modifies this
      ensures View() == Write(old(View()), chunk, ready)
    {
      if closed {
        return;
      }
      wire := wire + [chunk];
      if chunk.final {
        finalWritten := true;
      }
      if !ready {
        blocked := true;
        listening := true;
        return;
      }
      if chunk.final {
        EndResponse();
      }
    }

    /** `#heartbeat`, run by the interval timer. */
    method OnBeat(ready: bool)
      requires Valid() && timer
      modifies this, queue
      ensures Valid() && View() == Apply(old(View()), Beat(ready))
    {
      StepKeepsInv(View(), Beat(ready));
      if closed || finalWritten {
        return;
      }
      if blocked {
        var _ := queue.EnqueueHeartbeat();
      } else {
        WriteChunk(Heartbeat, ready);
      }
    }

    method FinishWith(payload: string, ready: bool)
      requires Valid() && payload != ""
      modifies this, queue
      ensures Valid() && View() == Apply(old(View()), Finish(payload, ready))
    {
      StepKeepsInv(View(), Finish(payload, ready));
      if closed || finalWritten {
        return;
      }
      timer := false;
      if blocked {
        var queued := queue.EnqueueFinal(payload);
        if !queued {
          pendingFinal := Some(payload);
        }
      } else {
        WriteChunk(Chunk(payload, true), ready);
      }
    }

    /** Moves the waiting payload into the queue when it is short enough. */
    method AdmitPendingFinal()
      requires queue.capacity == MCP_STREAM_CHANNEL_CAPACITY
      modifies this, queue
      ensures View() == AdmitPending(old(View()))
    {
      if pendingFinal.Some? && |queue.chunks| < queue.capacity {
        var _ := queue.EnqueueFinal(pendingFinal.value);
        pendingFinal := None;
      }
    }

    /** What the drain handler does once its loop has stopped. */
    method FinishDrain(accepted: nat)
      modifies this
      ensures View() == AfterLoop(old(View()), accepted)
    {
      if pendingFinal.Some? && !blocked {
        var payload := pendingFinal.value;
        pendingFinal := None;
        WriteChunk(Chunk(payload, true), 0 < accepted);
      } else if finalWritten && !blocked {
        EndResponse();
      }
    }

    /** One turn of the drain loop: the chunk it wrote, or nothing when the queue was empty. */
    method DrainTurn(accepted: nat) returns (chunk: Option<Chunk>)
      requires queue.capacity == MCP_STREAM_CHANNEL_CAPACITY
      modifies this, queue
      ensures var admitted := AdmitPending(old(View()));
              if admitted.queue == [] then chunk.None? && View() == admitted
              else chunk == Some(admitted.queue[0])
                   && View() == Write(admitted.(queue := admitted.queue[1..]), admitted.queue[0], 0 < accepted)
    {
      AdmitPendingFinal();
      chunk := queue.Shift();
      if chunk.Some? {
        WriteChunk(chunk.value, 0 < accepted);
      }
    }

    /** Runs the loop and what follows it. */
    method DrainQueue(accepted: nat)
      requires queue.capacity == MCP_STREAM_CHANNEL_CAPACITY && !closed && !blocked
      modifies this, queue
      ensures View() == DrainLoop(old(View()), accepted)
    {
      ghost var result := DrainLoop(View(), accepted);
      var answers := accepted;
      while !blocked
        invariant !closed && (blocked ==> answers == 0)
        invariant result == if blocked then AfterLoop(View(), 0) else DrainLoop(View(), answers)
        decreases !blocked, |queue.chunks| + if pendingFinal.Some? then 1 else 0
      {
        var chunk := DrainTurn(answers);
        if chunk.None? {
          break;
        }
        if chunk.value.final {
          return;
        }
        answers := if answers == 0 then 0 else answers - 1;
      }
      FinishDrain(answers);
    }

    /** `#drain`: writes what is waiting until the socket pushes back or the payload is out. */
    method OnDrain(accepted: nat)
      requires Valid() && listening
      modifies this, queue
      ensures Valid() && View() == Apply(old(View()), Drain(accepted))
    {
      ghost var before := View();
      listening := false;
      if !closed {
        blocked := false;
        DrainQueue(accepted);
      }
      StepKeepsInv(before, Drain(accepted));
    }

    /** `#handleClose`. */
    method OnClose()
      requires Valid()
      modifies this, queue
      ensures Valid() && View() == Apply(old(View()), Close)
    {
      StepKeepsInv(View(), Close);
      if closed {
        return;
      }
      closed, timer, listening, pendingFinal := true, false, false, None;
      queue.Clear();
    }
  }
}
