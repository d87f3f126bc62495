/**
 The admission semaphore: a counter of grants and a queue of waiters. A run is any interleaving of
 acquire calls, releases (also repeated ones), timeouts and aborts.
 */
module Semaphore {
  import opened Options

  /** What has become of one `acquire` call. Only a waiting call is unsettled. */
  datatype Outcome = Waiting | Granted(grant: nat) | TimedOut | Aborted

  /** One release function handed out: the call it went to and its `released` flag. */
  datatype Grant = Grant(call: nat, released: bool)

  /** Calls and grants are numbered in the order they are made. */
  datatype State = State(limit: nat, active: int, waiters: seq<nat>, calls: seq<Outcome>, grants: seq<Grant>)

  function Initial(limit: nat): State {
    State(limit, 0, [], [], [])
  }

  datatype Step =
    | Acquire(aborted: bool)
    | Release(grant: nat)
    | Timeout(call: nat)
    | Abort(call: nat)

  predicate Enabled(s: State, step: Step) {
    match step
    case Acquire(_) => true
    case Release(g) => g < |s.grants|
    case Timeout(c) => c < |s.calls|
    case Abort(c) => c < |s.calls|
  }

  /** `indexOf` followed by `splice`: drops the first occurrence, if there is one. */
  function Remove(waiters: seq<nat>, w: nat): seq<nat> {
    if waiters == [] then []
    else if waiters[0] == w then waiters[1..]
    else [waiters[0]] + Remove(waiters[1..], w)
  }

  lemma PassOver(waiters: seq<nat>, i: nat, w: nat)
    requires i < |waiters| && waiters[i] != w
    ensures waiters[..i] + Remove(waiters[i..], w) == waiters[..i + 1] + Remove(waiters[i + 1..], w)
  {
    assert waiters[i..][1..] == waiters[i + 1..];
    assert waiters[..i + 1] == waiters[..i] + [waiters[i]];
  }

  /** Shifts the queue and hands a new grant to the waiter; a settled waiter gives it straight back. */
  function GrantNext(s: State): State
    decreases |s.waiters|, 0
  {
    if s.waiters == [] then s
    else
      var w, g := s.waiters[0], |s.grants|;
      var granted := s.(waiters := s.waiters[1..], active := s.active + 1, grants := s.grants + [Grant(w, false)]);
      if w < |s.calls| && s.calls[w] == Waiting then granted.(calls := s.calls[w := Granted(g)])
      else ReleaseGrant(granted, g)
  }

  function ReleaseGrant(s: State, g: nat): State
    requires g < |s.grants|
    decreases |s.waiters|, 1
  {
    if s.grants[g].released then s
    else GrantNext(s.(active := s.active - 1, grants := s.grants[g := s.grants[g].(released := true)]))
  }

  function Settle(s: State, c: nat, outcome: Outcome): State
    requires c < |s.calls|
  {
    if s.calls[c] != Waiting then s
    else s.(calls := s.calls[c := outcome], waiters := Remove(s.waiters, c))
  }

  function Apply(s: State, step: Step): State
    requires Enabled(s, step)
  {
    match step
    case Acquire(aborted) =>
      var c := |s.calls|;
      if aborted then s.(calls := s.calls + [Aborted])
      else if s.active < s.limit then
        s.(active := s.active + 1, calls := s.calls + [Granted(|s.grants|)], grants := s.grants + [Grant(c, false)])
      else s.(calls := s.calls + [Waiting], waiters := s.waiters + [c])
    case Release(g) => ReleaseGrant(s, g)
    case Timeout(c) => Settle(s, c, TimedOut)
    case Abort(c) => Settle(s, c, Aborted)
  }

  // ----- the invariant -----

  function Unreleased(grants: seq<Grant>): nat {
    if grants == [] then 0
    else Unreleased(grants[..|grants| - 1]) + if grants[|grants| - 1].released then 0 else 1
  }

  lemma {:induction false} UnreleasedUpdate(grants: seq<Grant>, g: nat)
    requires g < |grants| && !grants[g].released
    ensures Unreleased(grants[g := grants[g].(released := true)]) == Unreleased(grants) - 1
  {
    var n := |grants| - 1;
    var updated := grants[g := grants[g].(released := true)];
    if g < n {
      UnreleasedUpdate(grants[..n], g);
      assert updated[..n] == grants[..n][g := grants[g].(released := true)];
    } else {
      assert updated[..n] == grants[..n];
    }
  }

  ghost predicate Increasing(xs: seq<nat>) {
    forall i, j :: 0 <= i < j < |xs| ==> xs[i] < xs[j]
  }

  /** The queue holds exactly the unsettled calls, in arrival order. */
  ghost predicate QueueIsUnsettledCalls(s: State) {
    && Increasing(s.waiters)
    && (forall w :: w in s.waiters <==> 0 <= w < |s.calls| && s.calls[w] == Waiting)
  }

  /** Grants were handed out in arrival order, each to one call, and before any call that still waits. */
  ghost predicate GrantsInArrivalOrder(s: State) {
    && (forall g, h :: 0 <= g < h < |s.grants| ==> s.grants[g].call < s.grants[h].call)
    && (forall g :: 0 <= g < |s.grants| ==>
          s.grants[g].call < |s.calls| && s.calls[s.grants[g].call] == Granted(g))
    && (forall c :: 0 <= c < |s.calls| && s.calls[c].Granted? ==>
          s.calls[c].grant < |s.grants| && s.grants[s.calls[c].grant].call == c)
    && (forall g, w :: 0 <= g < |s.grants| && w in s.waiters ==> s.grants[g].call < w)
  }

  ghost predicate Inv(s: State) {
    && 1 <= s.limit
    && s.active == Unreleased(s.grants)
    && s.active <= s.limit
    && (s.waiters != [] ==> s.active == s.limit)
    && QueueIsUnsettledCalls(s)
    && GrantsInArrivalOrder(s)
  }

  lemma {:induction false} RemoveFromIncreasing(waiters: seq<nat>, w: nat)
    requires Increasing(waiters)
    ensures Increasing(Remove(waiters, w))
    ensures forall v :: v in Remove(waiters, w) <==> v in waiters && v != w
  {
    if waiters != [] {
      assert forall v :: v in waiters <==> v == waiters[0] || v in waiters[1..];
      RemoveFromIncreasing(waiters[1..], w);
      if waiters[0] == w {
        assert w !in waiters[1..];
      } else {
        var rest := Remove(waiters[1..], w);
        assert forall i :: 0 <= i < |rest| ==> rest[i] in waiters[1..];
      }
    }
  }

  /** The slot of grant `g` goes to the head of the queue, or is freed when nobody waits. */
  function HandedOver(s: State, g: nat): State
    requires g < |s.grants|
  {
    var grants := s.grants[g := s.grants[g].(released := true)];
    if s.waiters == [] then s.(active := s.active - 1, grants := grants)
    else
      var w := s.waiters[0];
      s.(waiters := s.waiters[1..], grants := grants + [Grant(w, false)],
         calls := if w < |s.calls| then s.calls[w := Granted(|s.grants|)] else s.calls)
  }

  /** In a reachable state a first release serves exactly the head of the queue; a second does nothing. */
  lemma ReleaseServesHead(s: State, g: nat)
    requires Inv(s) && g < |s.grants|
    ensures ReleaseGrant(s, g) == if s.grants[g].released then s else HandedOver(s, g)
  {
    if s.waiters != [] {
      assert s.waiters[0] in s.waiters;
    }
  }

  lemma HandOverKeepsQueue(s: State, g: nat)
    requires Inv(s) && g < |s.grants|
    ensures QueueIsUnsettledCalls(HandedOver(s, g))
  {
    if s.waiters != [] {
      assert forall v :: v in s.waiters <==> v == s.waiters[0] || v in s.waiters[1..];
    }
  }

  /** The grants go to the same calls, and no call has been granted or joined the queue out of turn. */
  lemma SameGrantsKeepOrder(s: State, s': State)
    requires GrantsInArrivalOrder(s)
    requires |s'.grants| == |s.grants| && forall g :: 0 <= g < |s.grants| ==> s'.grants[g].call == s.grants[g].call
    requires |s.calls| <= |s'.calls| && forall c :: 0 <= c < |s.calls| ==> s'.calls[c] == s.calls[c]
    requires forall c :: |s.calls| <= c < |s'.calls| ==> !s'.calls[c].Granted?
    requires forall w :: w in s'.waiters ==> w in s.waiters || |s.calls| <= w
    ensures GrantsInArrivalOrder(s')
  {
  }

  /** One more grant, to a call behind all granted ones and before all waiting ones. */
  lemma {:induction false} OneMoreGrantKeepsOrder(s: State, s': State, c: nat)
    requires GrantsInArrivalOrder(s)
    requires |s'.grants| == |s.grants| + 1 && s'.grants[|s.grants|].call == c
    requires forall g :: 0 <= g < |s.grants| ==> s'.grants[g].call == s.grants[g].call < c
    requires |s.calls| <= |s'.calls| && c < |s'.calls| && s'.calls[c] == Granted(|s.grants|)
    requires forall d :: 0 <= d < |s.calls| && d != c ==> s'.calls[d] == s.calls[d]
    requires forall d :: |s.calls| <= d < |s'.calls| && d != c ==> !s'.calls[d].Granted?
    requires forall w :: w in s'.waiters ==> w in s.waiters && c < w
    ensures GrantsInArrivalOrder(s')
  {
    forall g | 0 <= g < |s'.grants|
      ensures s'.grants[g].call < |s'.calls| && s'.calls[s'.grants[g].call] == Granted(g)
    {
      if g < |s.grants| {
        assert s.calls[s.grants[g].call] == Granted(g);
      }
    }
    forall d | 0 <= d < |s'.calls| && s'.calls[d].Granted?
      ensures s'.calls[d].grant < |s'.grants| && s'.grants[s'.calls[d].grant].call == d
    {
      if d != c {
        assert s.calls[d].Granted?;
      }
    }
  }

  lemma HandOverKeepsOrder(s: State, g: nat)
    requires Inv(s) && g < |s.grants| && !s.grants[g].released
    ensures GrantsInArrivalOrder(HandedOver(s, g))
  {
    var s' := HandedOver(s, g);
    if s.waiters == [] {
      SameGrantsKeepOrder(s, s');
    } else {
      assert s.waiters[0] in s.waiters;
      assert forall w :: w in s'.waiters ==> w in s.waiters && s.waiters[0] < w;
      OneMoreGrantKeepsOrder(s, s', s.waiters[0]);
    }
  }

  lemma HandOverKeepsInv(s: State, g: nat)
    requires Inv(s) && g < |s.grants| && !s.grants[g].released
    ensures Inv(HandedOver(s, g))
  {
    UnreleasedUpdate(s.grants, g);
    HandOverKeepsQueue(s, g);
    HandOverKeepsOrder(s, g);
    var released := s.grants[g := s.grants[g].(released := true)];
    if s.waiters != [] {
      assert (released + [Grant(s.waiters[0], false)])[..|released|] == released;
    }
  }

  lemma AcquireKeepsQueue(s: State, aborted: bool)
    requires Inv(s)
    ensures QueueIsUnsettledCalls(Apply(s, Acquire(aborted)))
  {
    var s' := Apply(s, Acquire(aborted));
    assert forall i :: 0 <= i < |s.waiters| ==> s.waiters[i] in s.waiters;
    assert forall c :: 0 <= c < |s.calls| ==> s'.calls[c] == s.calls[c];
    forall w ensures w in s'.waiters <==> 0 <= w < |s'.calls| && s'.calls[w] == Waiting {
      assert w in s.waiters <==> 0 <= w < |s.calls| && s.calls[w] == Waiting;
    }
  }

  lemma AcquireKeepsOrder(s: State, aborted: bool)
    requires Inv(s)
    ensures GrantsInArrivalOrder(Apply(s, Acquire(aborted)))
  {
    var s' := Apply(s, Acquire(aborted));
    if !aborted && s.active < s.limit {
      assert s.waiters == [];
      OneMoreGrantKeepsOrder(s, s', |s.calls|);
    } else {
      SameGrantsKeepOrder(s, s');
    }
  }

  lemma AcquireKeepsInv(s: State, aborted: bool)
    requires Inv(s)
    ensures Inv(Apply(s, Acquire(aborted)))
  {
    AcquireKeepsQueue(s, aborted);
    AcquireKeepsOrder(s, aborted);
    assert (s.grants + [Grant(|s.calls|, false)])[..|s.grants|] == s.grants;
  }

  lemma SettleKeepsInv(s: State, c: nat, outcome: Outcome)
    requires Inv(s) && c < |s.calls| && (outcome.TimedOut? || outcome.Aborted?)
    ensures Inv(Settle(s, c, outcome))
  {
    RemoveFromIncreasing(s.waiters, c);
  }

  lemma StepKeepsInv(s: State, step: Step)
    requires Inv(s) && Enabled(s, step)
    ensures Inv(Apply(s, step))
  {
    match step
    case Acquire(aborted) => AcquireKeepsInv(s, aborted);
    case Release(g) =>
      ReleaseServesHead(s, g);
      if !s.grants[g].released { HandOverKeepsInv(s, g); }
    case Timeout(c) => SettleKeepsInv(s, c, TimedOut);
    case Abort(c) => SettleKeepsInv(s, c, Aborted);
  }

  // ----- runs -----

  ghost predicate Run(s: State, steps: seq<Step>, end: State)
    decreases |steps|
  {
    if steps == [] then s == end
    else Enabled(s, steps[0]) && Run(Apply(s, steps[0]), steps[1..], end)
  }

  lemma {:induction false} RunKeepsInv(s: State, steps: seq<Step>, end: State)
    requires Inv(s) && Run(s, steps, end)
    ensures Inv(end)
    decreases |steps|
  {
    if steps != [] {
      StepKeepsInv(s, steps[0]);
      RunKeepsInv(Apply(s, steps[0]), steps[1..], end);
    }
  }

  /**
   After any run the counter equals the grants still out and respects the limit, and nobody waits while
   a slot is free: there is no lost wake-up and no call can overtake the queue.
   */
  lemma SlotsAreAccountedFor(limit: nat, steps: seq<Step>, s: State)
    requires 1 <= limit && Run(Initial(limit), steps, s)
    ensures s.active == Unreleased(s.grants) <= s.limit
    ensures s.waiters != [] ==> s.active == s.limit
    ensures forall w :: w in s.waiters ==> w < |s.calls| && s.calls[w] == Waiting
  {
    RunKeepsInv(Initial(limit), steps, s);
  }

  /** When a later call has been granted, an earlier one was granted before it, timed out or was aborted. */
  lemma GrantsFollowArrival(limit: nat, steps: seq<Step>, s: State, earlier: nat, later: nat)
    requires 1 <= limit && Run(Initial(limit), steps, s)
    requires earlier < later < |s.calls| && s.calls[later].Granted?
    ensures s.calls[earlier] != Waiting
    ensures s.calls[earlier].Granted? ==> s.calls[earlier].grant < s.calls[later].grant
  {
    RunKeepsInv(Initial(limit), steps, s);
    assert s.calls[earlier] == Waiting ==> earlier in s.waiters;
  }

  // ----- what becomes of a call -----

  /**
   A new call is answered by the number of slots that are out: granted if and only if one is free, else put at the
   end of the queue; an aborted one is turned away. Nothing else changes.
   */
  lemma CallIsAnswered(s: State, aborted: bool)
    requires Inv(s)
    ensures var s', c := Apply(s, Acquire(aborted)), |s.calls|;
            && |s'.calls| == c + 1 && s'.calls[..c] == s.calls && s'.limit == s.limit
            && (s'.calls[c].Aborted? <==> aborted)
            && (s'.calls[c] == Granted(|s.grants|) <==> !aborted && Unreleased(s.grants) < s.limit)
            && (s'.calls[c] == Waiting <==> !aborted && s.limit <= Unreleased(s.grants))
            && s'.grants == (if s'.calls[c].Granted? then s.grants + [Grant(c, false)] else s.grants)
            && s'.waiters == (if s'.calls[c] == Waiting then s.waiters + [c] else s.waiters)
  {
  }

  /**
   A waiting call that times out or is aborted is settled so and leaves the queue, in which the others keep their
   order; a call that is settled already stays as it is. No other call and no grant is touched.
   */
  lemma SettlingLeavesQueue(s: State, step: Step, c: nat)
    requires Inv(s) && c < |s.calls| && (step == Timeout(c) || step == Abort(c))
    ensures var s', waited := Apply(s, step), s.calls[c] == Waiting;
            && s'.calls == (if waited then s.calls[c := if step.Timeout? then TimedOut else Aborted] else s.calls)
            && s'.grants == s.grants && s'.active == s.active && s'.limit == s.limit
            && (forall w :: w in s'.waiters <==> w in s.waiters && w != c)
            && (waited ==> exists i :: 0 <= i < |s.waiters| && s.waiters[i] == c
                                       && s'.waiters == s.waiters[..i] + s.waiters[i + 1..])
            && (!waited ==> s'.waiters == s.waiters)
  {
    RemoveFromIncreasing(s.waiters, c);
    if s.calls[c] == Waiting {
      assert c in s.waiters;
      var i := RemovedAt(s.waiters, c);
    }
  }

  lemma {:induction false} RemovedAt(waiters: seq<nat>, w: nat) returns (i: nat)
    requires w in waiters
    ensures i < |waiters| && waiters[i] == w && Remove(waiters, w) == waiters[..i] + waiters[i + 1..]
  {
    if waiters[0] == w {
      i := 0;
    } else {
      i := RemovedAt(waiters[1..], w);
      i := i + 1;
      assert waiters[..i] == [waiters[0]] + waiters[1..][..i - 1];
      assert waiters[1..][i..] == waiters[i + 1..];
    }
  }

  /** What a call has been answered is final: no later step takes a grant away, or grants a call that gave up. */
  lemma {:induction false} AnswerIsFinal(s: State, steps: seq<Step>, end: State, c: nat)
    requires Inv(s) && Run(s, steps, end) && c < |s.calls| && s.calls[c] != Waiting
    ensures c < |end.calls| && end.calls[c] == s.calls[c]
    decreases |steps|
  {
    if steps != [] {
      StepKeepsInv(s, steps[0]);
      StepKeepsAnswer(s, steps[0], c);
      AnswerIsFinal(Apply(s, steps[0]), steps[1..], end, c);
    }
  }

  lemma StepKeepsAnswer(s: State, step: Step, c: nat)
    requires Inv(s) && Enabled(s, step) && c < |s.calls| && s.calls[c] != Waiting
    ensures c < |Apply(s, step).calls| && Apply(s, step).calls[c] == s.calls[c]
  {
    if step.Release? {
      ReleaseServesHead(s, step.grant);
      assert forall i :: 0 <= i < |s.waiters| ==> s.waiters[i] in s.waiters;
    }
  }

  /** Every release in the list is the first one of its grant at the time it is made. */
  ghost predicate FirstReleases(s: State, releases: seq<nat>, end: State)
    decreases |releases|
  {
    if releases == [] then s == end
    else
      && releases[0] < |s.grants| && !s.grants[releases[0]].released
      && FirstReleases(ReleaseGrant(s, releases[0]), releases[1..], end)
  }

  /** Releases keep every grant already made. */
  lemma {:induction false} ReleasesKeepGrants(s: State, releases: seq<nat>, end: State, c: nat)
    requires Inv(s) && FirstReleases(s, releases, end)
    requires c < |s.calls| && s.calls[c].Granted?
    ensures |end.calls| == |s.calls| && end.calls[c] == s.calls[c]
    decreases |releases|
  {
    if releases != [] {
      var next := ReleaseKeepsGrant(s, releases[0], c);
      ReleasesKeepGrants(next, releases[1..], end, c);
    }
  }

  lemma ReleaseKeepsGrant(s: State, g: nat, c: nat) returns (next: State)
    requires Inv(s) && g < |s.grants| && !s.grants[g].released && c < |s.calls| && s.calls[c].Granted?
    ensures next == ReleaseGrant(s, g) && Inv(next)
    ensures |next.calls| == |s.calls| && next.calls[c] == s.calls[c]
  {
    ReleaseServesHead(s, g);
    HandOverKeepsInv(s, g);
    assert forall i :: 0 <= i < |s.waiters| ==> s.waiters[i] in s.waiters;
    next := HandedOver(s, g);
  }

  /** As many first releases as there are waiters serve the whole queue, in arrival order. */
  lemma {:induction false} ReleasesServeQueueInOrder(s: State, releases: seq<nat>, end: State, i: nat)
    requires Inv(s) && FirstReleases(s, releases, end) && i < |releases| <= |s.waiters|
    ensures end.waiters == s.waiters[|releases|..] && end.active == s.active
    ensures s.waiters[i] < |end.calls| && end.calls[s.waiters[i]] == Granted(|s.grants| + i)
    decreases |releases|
  {
    var g := releases[0];
    ReleaseServesHead(s, g);
    HandOverKeepsInv(s, g);
    var next := HandedOver(s, g);
    assert s.waiters[0] in s.waiters;
    if i == 0 {
      ReleasesKeepGrants(next, releases[1..], end, s.waiters[0]);
    }
    if 1 < |releases| {
      ReleasesServeQueueInOrder(next, releases[1..], end, if i == 0 then 0 else i - 1);
      assert next.waiters[|releases| - 1..] == s.waiters[|releases|..];
    }
  }

  // ----- the object -----

  /** The semaphore with its counter, its queue and the `settled` and `released` flags of its closures. */
  class Semaphore {
    const limit: nat
    var active: int
    var waiters: seq<nat>
    var calls: seq<Outcome>
    var grants: seq<Grant>

    function View(): State
      reads this
    {
      State(limit, active, waiters, calls, grants)
    }

    ghost predicate Valid()
      reads this
    {
      Inv(View())
    }

    constructor (requested: real)
      ensures Valid() && View() == Initial(Max(1, requested.Floor))
    {
      limit := Max(1, requested.Floor);
      active, waiters, calls, grants := 0, [], [], [];
    }

    method Acquire(aborted: bool) returns (c: nat)
      requires Valid()
      modifies this
      ensures Valid() && View() == Apply(old(View()), Step.Acquire(aborted)) && c == |old(calls)|
    {
      ghost var before := View();
      c := |calls|;
      Enter(aborted);
      AcquireKeepsInv(before, aborted);
    }

    /** A new call is turned away, granted a slot, or put into the queue. */
    method Enter(aborted: bool)
      modifies this
      ensures View() == Apply(old(View()), Step.Acquire(aborted))
    {
      if aborted {
        calls := calls + [Aborted];
      } else if active < limit {
        active := active + 1;
        grants := grants + [Grant(|calls|, false)];
        calls := calls + [Granted(|grants| - 1)];
      } else {
        waiters := waiters + [|calls|];
        calls := calls + [Waiting];
      }
    }

    /** The closure returned by `#grant`. */
    method Release(g: nat)
      requires g < |grants|
      modifies this
      ensures View() == ReleaseGrant(old(View()), g)
      ensures old(Valid()) ==> Valid()
      decreases |waiters|, 1
    {
      ghost var before := View();
      if !grants[g].released {
        grants := grants[g := grants[g].(released := true)];
        active := active - 1;
        WakeNext();
      }
      if Inv(before) {
        StepKeepsInv(before, Step.Release(g));
      }
    }

    /** Shifts the queue, grants a slot and calls the waiter with it. */
    method WakeNext()
      modifies this
      ensures View() == GrantNext(old(View()))
      decreases |waiters|, 0
    {
      if waiters != [] {
        var w, g := waiters[0], |grants|;
        waiters := waiters[1..];
        active := active + 1;
        grants := grants + [Grant(w, false)];
        if w < |calls| && calls[w] == Waiting {
          calls := calls[w := Granted(g)];
        } else {
          Release(g);
        }
      }
    }

    method Timeout(c: nat)
      requires Valid() && c < |calls|
      modifies this
      ensures Valid() && View() == Apply(old(View()), Step.Timeout(c))
    {
      StepKeepsInv(View(), Step.Timeout(c));
      if calls[c] == Waiting {
        calls := calls[c := TimedOut];
        RemoveWaiter(c);
      }
    }

    method Abort(c: nat)
      requires Valid() && c < |calls|
      modifies this
      ensures Valid() && View() == Apply(old(View()), Step.Abort(c))
    {
      StepKeepsInv(View(), Step.Abort(c));
      if calls[c] == Waiting {
        calls := calls[c := Aborted];
        RemoveWaiter(c);
      }
    }

    method RemoveWaiter(w: nat)
      modifies this`waiters
      ensures waiters == Remove(old(waiters), w)
    {
      var index := 0;
      while index < |waiters| && waiters[index] != w
        invariant index <= |waiters| && waiters == old(waiters)
        invariant Remove(waiters, w) == waiters[..index] + Remove(waiters[index..], w)
      {
        PassOver(waiters, index, w);
        index := index + 1;
      }
      if index < |waiters| {
        assert waiters[index..][1..] == waiters[index + 1..];
        waiters := waiters[..index] + waiters[index + 1..];
      }
    }
  }
}
