/** Which payload a streamed response delivers when it is finished, and that it is not lost. */
module StreamingDelivery {
  import opened Options
  import opened StreamingResponse

  // ----- the payload that is on its way -----

  /** The payload at the end of a list of chunks, where alone one can be. */
  function FinalOf(chunks: seq<Chunk>): Option<string> {
    if chunks != [] && chunks[|chunks| - 1].final then Some(chunks[|chunks| - 1].payload) else None
  }

  /** A payload is queued or written, not only waiting beside the queue. */
  predicate IsPlaced(s: State) {
    FinalOf(s.wire).Some? || FinalOf(s.queue).Some?
  }

  /** The payload that wins: the written one, else the queued one, else the waiting one. */
  function Winner(s: State): Option<string> {
    if FinalOf(s.wire).Some? then FinalOf(s.wire)
    else if FinalOf(s.queue).Some? then FinalOf(s.queue)
    else s.pendingFinal
  }

  lemma FinalIsLast(chunks: seq<Chunk>)
    requires BeatsThenFinal(chunks)
    ensures HasFinal(chunks) <==> FinalOf(chunks).Some?
  {
  }

  lemma FinalOfMore(chunks: seq<Chunk>, chunk: Chunk)
    ensures FinalOf(chunks + [chunk]) == if chunk.final then Some(chunk.payload) else None
  {
  }

  lemma AdmitKeepsWinner(s: State)
    requires Draining(s)
    ensures Winner(AdmitPending(s)) == Winner(s)
  {
    FinalIsLast(s.queue);
    if s.pendingFinal.Some? {
      FinalOfMore(s.queue, Chunk(s.pendingFinal.value, true));
    }
  }

  lemma WriteHeadKeepsWinner(s: State, accepted: nat)
    requires Draining(s) && !s.finalWritten && s.queue != []
    requires s.queue[0].final ==> |s.queue| == 1 && s.pendingFinal.None?
    ensures Winner(Write(s.(queue := s.queue[1..]), s.queue[0], 0 < accepted)) == Winner(s)
  {
    FinalIsLast(s.wire);
    FinalOfMore(s.wire, s.queue[0]);
    if 1 < |s.queue| {
      assert s.queue[1..][|s.queue| - 2] == s.queue[|s.queue| - 1];
    }
  }

  lemma AfterLoopKeepsWinner(s: State, accepted: nat)
    requires LoopInv(s) && !s.closed && (!s.blocked ==> s.queue == [])
    ensures Winner(AfterLoop(s, accepted)) == Winner(s)
  {
    FinalIsLast(s.wire);
    if s.pendingFinal.Some? {
      FinalOfMore(s.wire, Chunk(s.pendingFinal.value, true));
    }
  }

  /** Draining delivers the winner and nobody else. */
  lemma {:induction false} DrainKeepsWinner(s: State, accepted: nat)
    requires Draining(s)
    ensures Winner(DrainLoop(s, accepted)) == Winner(s)
    decreases |s.queue| + if s.pendingFinal.Some? then 1 else 0
  {
    AdmitKeepsInv(s);
    AdmitKeepsWinner(s);
    var admitted := AdmitPending(s);
    if admitted.queue == [] {
      AfterLoopKeepsWinner(admitted, accepted);
    } else {
      WriteHeadKeepsInv(admitted, accepted);
      WriteHeadKeepsWinner(admitted, accepted);
      var written := Write(admitted.(queue := admitted.queue[1..]), admitted.queue[0], 0 < accepted);
      if !admitted.queue[0].final {
        if accepted == 0 {
          AfterLoopKeepsWinner(written, 0);
        } else {
          DrainKeepsWinner(written, accepted - 1);
        }
      }
    }
  }

  /**
   A finish call wins exactly while no payload is queued or written; no other step on an open response
   changes the winner.
   */
  lemma StepDecidesWinner(s: State, step: Step)
    requires Inv(s) && Enabled(s, step) && !s.closed && !step.Close?
    ensures Winner(Apply(s, step)) ==
              if step.Finish? && !IsPlaced(s) then Some(step.payload) else Winner(s)
  {
    FinalIsLast(s.wire);
    FinalIsLast(s.queue);
    match step
    case Beat(ready) =>
      FinalOfMore(s.queue, Heartbeat);
      FinalOfMore(s.wire, Heartbeat);
    case Finish(payload, ready) =>
      FinalOfMore(s.queue, Chunk(payload, true));
      FinalOfMore(s.wire, Chunk(payload, true));
    case Drain(accepted) =>
      DrainKeepsWinner(s.(blocked := false, listening := false), accepted);
  }

  // ----- whole runs -----

  /** The payload of the last finish call that was made while no payload was queued or written. */
  ghost function LastOffer(s: State, steps: seq<Step>, end: State): Option<string>
    requires Run(s, steps, end)
    decreases |steps|
  {
    if steps == [] then None
    else
      var later := LastOffer(Apply(s, steps[0]), steps[1..], end);
      if later.Some? then later
      else if steps[0].Finish? && !IsPlaced(s) then Some(steps[0].payload) else None
  }

  ghost predicate NeverCloses(steps: seq<Step>) {
    forall step :: step in steps ==> !step.Close?
  }

  ghost predicate NeverFinishes(steps: seq<Step>) {
    forall step :: step in steps ==> !step.Finish?
  }

  lemma StepStaysOpen(s: State, step: Step)
    requires Inv(s) && Enabled(s, step) && !s.closed && !step.Close?
    ensures Inv(Apply(s, step)) && !Apply(s, step).closed
  {
    StepKeepsInv(s, step);
    if step.Drain? {
      DrainKeepsInv(s.(blocked := false, listening := false), step.accepted);
    }
  }

  /** On an open response the winner is the last offer, or the one there was. */
  lemma {:induction false} WinnerIsLastOffer(s: State, steps: seq<Step>, end: State)
    requires Inv(s) && Run(s, steps, end) && !s.closed && NeverCloses(steps)
    ensures Winner(end) == if LastOffer(s, steps, end).Some? then LastOffer(s, steps, end) else Winner(s)
    decreases |steps|
  {
    if steps != [] {
      assert steps[0] in steps;
      StepStaysOpen(s, steps[0]);
      StepDecidesWinner(s, steps[0]);
      WinnerIsLastOffer(Apply(s, steps[0]), steps[1..], end);
    }
  }

  /** Once no drain is due, the winner has been written as the last chunk. */
  lemma WinnerIsWritten(s: State)
    requires Inv(s) && !s.closed && !s.listening && Offered(s)
    ensures Winner(s).Some? && s.wire != [] && s.wire[|s.wire| - 1] == Chunk(Winner(s).value, true)
  {
    FinalIsLast(s.wire);
  }

  /**
   The delivered payload, exactly: a finish call on an open response is followed by at most four drains,
   and when none is due any more the wire ends in the payload of the last finish call that was made while
   none was queued or written, and in the one that was placed before if there is no such call.
   */
  lemma LastOfferIsDelivered(before: seq<Step>, s: State, payload: string, ready: bool, after: seq<Step>, end: State)
    requires Run(Initial, before, s) && !s.closed && payload != ""
    requires Run(Apply(s, Finish(payload, ready)), after, end) && NeverCloses(after)
    ensures Drains(after) <= 4 && (Drains(after) == 4 ==> !end.listening)
    ensures var next := Apply(s, Finish(payload, ready)); var later := LastOffer(next, after, end);
            !end.listening ==>
              && Winner(next).Some? && end.wire != []
              && Winner(next) == (if IsPlaced(s) then Winner(s) else Some(payload))
              && end.wire[|end.wire| - 1] == Chunk(if later.Some? then later.value else Winner(next).value, true)
  {
    var next := Apply(s, Finish(payload, ready));
    RunKeepsInv(Initial, before, s);
    StepStaysOpen(s, Finish(payload, ready));
    StepDecidesWinner(s, Finish(payload, ready));
    FinishIsDelivered(before, s, payload, ready, after, end);
    FinishOffers(s, payload, ready);
    RunKeepsOffer(next, after, end);
    WinnerIsLastOffer(next, after, end);
    if !end.listening {
      WinnerIsWritten(end);
      FinalIsLast(next.wire);
      FinalIsLast(next.queue);
    }
  }

  /**
   A payload that is passed to one finish call only is the one delivered if and only if none was queued or
   written at that call, and no later finish call comes while it is only waiting.
   */
  lemma FinishIsDeliveredExactlyWhen(before: seq<Step>, s: State, payload: string, ready: bool, after: seq<Step>,
                                     end: State)
    requires Run(Initial, before, s) && !s.closed && payload != "" && !end.listening
    requires Run(Apply(s, Finish(payload, ready)), after, end) && NeverCloses(after)
    requires !Carries(s, payload) && forall step :: step in after && step.Finish? ==> step.payload != payload
    ensures end.wire != []
    ensures end.wire[|end.wire| - 1] == Chunk(payload, true) <==>
              !IsPlaced(s) && NobodyOvertakes(Apply(s, Finish(payload, ready)), after, end)
  {
    var next := Apply(s, Finish(payload, ready));
    LastOfferIsDelivered(before, s, payload, ready, after, end);
    OffersAreOvertakings(next, after, end, payload);
    if IsPlaced(s) {
      WinnerIsCarried(s);
    }
  }

  /** Every finish call of the run finds a payload queued or written. */
  ghost predicate NobodyOvertakes(s: State, steps: seq<Step>, end: State)
    requires Run(s, steps, end)
    decreases |steps|
  {
    steps == [] ||
    ((steps[0].Finish? ==> IsPlaced(s)) && NobodyOvertakes(Apply(s, steps[0]), steps[1..], end))
  }

  lemma {:induction false} OffersAreOvertakings(s: State, steps: seq<Step>, end: State, payload: string)
    requires Run(s, steps, end) && forall step :: step in steps && step.Finish? ==> step.payload != payload
    ensures LastOffer(s, steps, end).None? <==> NobodyOvertakes(s, steps, end)
    ensures LastOffer(s, steps, end) != Some(payload)
    decreases |steps|
  {
    if steps != [] {
      assert steps[0] in steps;
      OffersAreOvertakings(Apply(s, steps[0]), steps[1..], end, payload);
    }
  }

  lemma WinnerIsCarried(s: State)
    requires IsPlaced(s)
    ensures Winner(s).Some? && Carries(s, Winner(s).value)
  {
    if FinalOf(s.wire).Some? {
      assert s.wire[|s.wire| - 1] in s.wire;
    } else {
      assert s.queue[|s.queue| - 1] in s.queue;
    }
  }

  /** With one finish call the wire ends in exactly its payload: an open response never loses it. */
  lemma SoleFinishIsDelivered(before: seq<Step>, s: State, payload: string, ready: bool, after: seq<Step>, end: State)
    requires Run(Initial, before, s) && !s.closed && payload != "" && NeverFinishes(before)
    requires Run(Apply(s, Finish(payload, ready)), after, end) && NeverCloses(after) && NeverFinishes(after)
    ensures Drains(after) <= 4 && (Drains(after) == 4 ==> !end.listening)
    ensures !end.listening ==> end.ends == 1 && end.wire != [] && end.wire[|end.wire| - 1] == Chunk(payload, true)
  {
    RunKeepsInv(Initial, before, s);
    if IsPlaced(s) {
      WinnerIsCarried(s);
      PayloadComesFromFinish(Initial, before, s, Winner(s).value);
    }
    LastOfferIsDelivered(before, s, payload, ready, after, end);
    FinishIsDelivered(before, s, payload, ready, after, end);
    SilentRunOffersNothing(Apply(s, Finish(payload, ready)), after, end);
  }

  lemma {:induction false} SilentRunOffersNothing(s: State, steps: seq<Step>, end: State)
    requires Run(s, steps, end) && NeverFinishes(steps)
    ensures LastOffer(s, steps, end).None?
    decreases |steps|
  {
    if steps != [] {
      assert steps[0] in steps;
      SilentRunOffersNothing(Apply(s, steps[0]), steps[1..], end);
    }
  }

  /** A blocked response with a full queue on which finish is called twice: the first payload is lost. */
  lemma SecondFinishOvertakes()
    ensures var steps := [Beat(false), Beat(true), Beat(true), Finish("a", true), Finish("b", true), Drain(9)];
            Run(Initial, steps, Overtaken)
    ensures Overtaken.wire == [Heartbeat, Heartbeat, Heartbeat, Chunk("b", true)] && Overtaken.ends == 1
  {
    var blocked := State([], true, false, false, None, true, true, [Heartbeat], 0);
    var one, two := blocked.(queue := [Heartbeat]), blocked.(queue := [Heartbeat, Heartbeat]);
    var a := two.(timer := false, pendingFinal := Some("a"));
    var b := a.(pendingFinal := Some("b"));
    assert Apply(Initial, Beat(false)) == blocked;
    assert Apply(blocked, Beat(true)) == one;
    assert Apply(one, Beat(true)) == two;
    assert Apply(two, Finish("a", true)) == a;
    assert Apply(a, Finish("b", true)) == b;
    QueueIsWrittenOut(b);
    assert Run(b, [Drain(9)], Overtaken);
    assert Run(a, [Finish("b", true), Drain(9)], Overtaken);
    assert Run(two, [Finish("a", true), Finish("b", true), Drain(9)], Overtaken);
    assert Run(one, [Beat(true), Finish("a", true), Finish("b", true), Drain(9)], Overtaken);
    assert Run(blocked, [Beat(true), Beat(true), Finish("a", true), Finish("b", true), Drain(9)], Overtaken);
  }

  const Overtaken := State([], false, false, true, None, false, false,
                           [Heartbeat, Heartbeat, Heartbeat, Chunk("b", true)], 1)

  lemma QueueIsWrittenOut(s: State)
    requires s == State([Heartbeat, Heartbeat], true, false, false, Some("b"), false, true, [Heartbeat], 0)
    ensures Apply(s, Drain(9)) == Overtaken
  {
    var open := s.(blocked := false, listening := false);
    var first := open.(queue := [Heartbeat], wire := [Heartbeat, Heartbeat]);
    var second := open.(queue := [Chunk("b", true)], pendingFinal := None, wire := [Heartbeat, Heartbeat, Heartbeat]);
    assert Write(open.(queue := [Heartbeat]), Heartbeat, true) == first;
    assert DrainLoop(open, 9) == DrainLoop(first, 8);
    assert AdmitPending(first) == first.(queue := [Heartbeat, Chunk("b", true)], pendingFinal := None);
    assert DrainLoop(first, 8) == DrainLoop(second, 7);
    assert DrainLoop(second, 7) == Write(second.(queue := []), Chunk("b", true), true);
  }
}
