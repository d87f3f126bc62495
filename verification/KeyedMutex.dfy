/**
 The keyed mutex: a caller takes its keys one at a time in sorted order, each through a first-in
 first-out chain of promises. A run is any interleaving of the atomic steps between two awaits: a caller
 arrives, requests its next key, enters the key once the promise chain before it has settled, releases
 everything it holds, or the asynchronous cleanup of a released ticket runs.
 */
module KeyedMutex {
  import opened Options

  type Key = string

  /**
   One `#acquireOne` call. `previous` is the tail found in the map (nothing stands for an already
   resolved promise); `released` says that `current` is resolved; `cleaned` that the `finally` ran.
   */
  datatype Ticket = Ticket(key: Key, caller: nat, index: nat, previous: Option<nat>,
                           entered: bool, released: bool, cleaned: bool)

  /** One `acquire` call: its normalised keys and the tickets it has requested so far. */
  datatype Caller = Caller(keys: seq<Key>, tickets: seq<nat>, released: bool)

  datatype State = State(tickets: seq<Ticket>, tails: map<Key, nat>, callers: seq<Caller>)

  const Initial := State([], map[], [])

  // ----- key order and normalisation -----

  /** A fixed strict order on keys, character by character; any such order serves the locking. */
  predicate Below(a: Key, b: Key) {
    if b == "" then false
    else if a == "" then true
    else if a[0] != b[0] then a[0] < b[0]
    else Below(a[1..], b[1..])
  }

  lemma {:induction false} BelowIsStrict(a: Key, b: Key)
    ensures !(Below(a, b) && Below(b, a))
    ensures a != b ==> Below(a, b) || Below(b, a)
    ensures a == b ==> !Below(a, b)
  {
    if a != "" && b != "" && a[0] == b[0] {
      BelowIsStrict(a[1..], b[1..]);
      assert a == [a[0]] + a[1..] && b == [b[0]] + b[1..];
    }
  }

  lemma {:induction false} BelowIsTransitive(a: Key, b: Key, c: Key)
    requires Below(a, b) && Below(b, c)
    ensures Below(a, c)
  {
    if a != "" && a[0] == b[0] && b[0] == c[0] {
      BelowIsTransitive(a[1..], b[1..], c[1..]);
    }
  }

  ghost predicate Ascending(keys: seq<Key>) {
    forall i, j :: 0 <= i < j < |keys| ==> Below(keys[i], keys[j])
  }

  /** Puts a key in its place, unless it is already there. */
  function InsertKey(key: Key, sorted: seq<Key>): (result: seq<Key>)
    requires Ascending(sorted)
    ensures Ascending(result)
    ensures forall k :: k in result <==> k == key || k in sorted
  {
    if sorted == [] then [key]
    else
      BelowIsStrict(key, sorted[0]);
      if key == sorted[0] then sorted
      else if Below(key, sorted[0]) then
        assert forall i :: 0 <= i < |sorted| ==> Below(key, sorted[i]) by {
          forall i | 0 < i < |sorted| ensures Below(key, sorted[i]) {
            BelowIsTransitive(key, sorted[0], sorted[i]);
          }
        }
        [key] + sorted
      else
        var rest := InsertKey(key, sorted[1..]);
        assert forall i :: 0 <= i < |rest| ==> rest[i] == key || rest[i] in sorted[1..];
        [sorted[0]] + rest
  }

  /** `[...new Set(keys.filter(Boolean))].sort()`. */
  function Normalize(keys: seq<Key>): (sorted: seq<Key>)
    ensures Ascending(sorted)
    ensures forall k :: k in sorted <==> k in keys && k != ""
  {
    if keys == [] then []
    else
      assert keys == [keys[0]] + keys[1..];
      var rest := Normalize(keys[1..]);
      if keys[0] == "" then rest else InsertKey(keys[0], rest)
  }

  // ----- the step system -----

  datatype Step =
    | Arrive(keys: seq<Key>)
    | Request(caller: nat)
    | Enter(caller: nat)
    | Release(caller: nat)
    | Cleanup(ticket: nat)

  /** The promise `tail` of a ticket has settled: the ticket and everything chained before it is released. */
  predicate TailSettled(tickets: seq<Ticket>, t: nat)
    requires t < |tickets|
  {
    && tickets[t].released
    && (tickets[t].previous.Some? && tickets[t].previous.value < t ==>
          TailSettled(tickets, tickets[t].previous.value))
  }

  predicate PreviousSettled(tickets: seq<Ticket>, t: nat)
    requires t < |tickets|
  {
    tickets[t].previous.Some? && tickets[t].previous.value < t ==> TailSettled(tickets, tickets[t].previous.value)
  }

  /** The caller awaits the chain before its latest ticket. */
  predicate Waiting(s: State, c: nat)
    requires c < |s.callers|
  {
    var caller := s.callers[c];
    caller.tickets != [] &&
    var t := caller.tickets[|caller.tickets| - 1];
    t < |s.tickets| && !s.tickets[t].entered
  }

  /** The caller holds every key it asked for. */
  predicate Full(s: State, c: nat)
    requires c < |s.callers|
  {
    !Waiting(s, c) && |s.callers[c].tickets| == |s.callers[c].keys|
  }

  /** The ticket a waiting caller waits on. */
  function Pending(s: State, c: nat): (t: nat)
    requires c < |s.callers| && Waiting(s, c)
    ensures t < |s.tickets| && !s.tickets[t].entered
  {
    s.callers[c].tickets[|s.callers[c].tickets| - 1]
  }

  predicate Enabled(s: State, step: Step) {
    match step
    case Arrive(_) => true
    case Request(c) => c < |s.callers| && !Waiting(s, c) && |s.callers[c].tickets| < |s.callers[c].keys|
    case Enter(c) => c < |s.callers| && Waiting(s, c) && PreviousSettled(s.tickets, Pending(s, c))
    case Release(c) => c < |s.callers| && Full(s, c)
    case Cleanup(t) => t < |s.tickets| && TailSettled(s.tickets, t) && !s.tickets[t].cleaned
  }

  /** The tickets with those of one caller released. */
  function ReleaseAll(tickets: seq<Ticket>, c: nat): seq<Ticket> {
    seq(|tickets|, i requires 0 <= i < |tickets| =>
      if tickets[i].caller == c then tickets[i].(released := true) else tickets[i])
  }

  /** The tickets with those of one caller from position `i` on released. */
  function ReleaseFrom(tickets: seq<Ticket>, c: nat, i: nat): seq<Ticket> {
    seq(|tickets|, t requires 0 <= t < |tickets| =>
      if tickets[t].caller == c && i <= tickets[t].index then tickets[t].(released := true) else tickets[t])
  }

  function Apply(s: State, step: Step): State
    requires Enabled(s, step)
  {
    match step
    case Arrive(keys) => s.(callers := s.callers + [Caller(Normalize(keys), [], false)])
    case Request(c) =>
      var caller := s.callers[c];
      var index := |caller.tickets|;
      var key := caller.keys[index];
      var previous := if key in s.tails then Some(s.tails[key]) else None;
      s.(tickets := s.tickets + [Ticket(key, c, index, previous, false, false, false)],
         tails := s.tails[key := |s.tickets|],
         callers := s.callers[c := caller.(tickets := caller.tickets + [|s.tickets|])])
    case Enter(c) =>
      var t := Pending(s, c);
      s.(tickets := s.tickets[t := s.tickets[t].(entered := true)])
    case Release(c) =>
      s.(tickets := ReleaseAll(s.tickets, c),
         callers := s.callers[c := s.callers[c].(released := true)])
    case Cleanup(t) =>
      var key := s.tickets[t].key;
      s.(tickets := s.tickets[t := s.tickets[t].(cleaned := true)],
         tails := if key in s.tails && s.tails[key] == t then s.tails - {key} else s.tails)
  }

  // ----- the invariant -----

  /** Tickets and callers refer to each other, and a caller enters and releases its tickets in order. */
  ghost predicate Linked(s: State) {
    && (forall t :: 0 <= t < |s.tickets| ==> TicketLinked(s, t))
    && (forall c :: 0 <= c < |s.callers| ==> CallerLinked(s, c))
  }

  ghost predicate TicketLinked(s: State, t: nat)
    requires t < |s.tickets|
  {
    var ticket := s.tickets[t];
    && ticket.caller < |s.callers|
    && ticket.index < |s.callers[ticket.caller].tickets|
    && s.callers[ticket.caller].tickets[ticket.index] == t
    && (ticket.released ==> ticket.entered)
    && (ticket.released <==> s.callers[ticket.caller].released)
  }

  ghost predicate CallerLinked(s: State, c: nat)
    requires c < |s.callers|
  {
    var caller := s.callers[c];
    && Ascending(caller.keys)
    && |caller.tickets| <= |caller.keys|
    && (forall i :: 0 <= i < |caller.tickets| ==>
          && caller.tickets[i] < |s.tickets|
          && s.tickets[caller.tickets[i]].caller == c
          && s.tickets[caller.tickets[i]].index == i
          && s.tickets[caller.tickets[i]].key == caller.keys[i]
          && (i < |caller.tickets| - 1 ==> s.tickets[caller.tickets[i]].entered))
    && (caller.released ==> Full(s, c))
  }

  /** All tickets of `key` below position `n` are released. */
  ghost predicate ReleasedBelow(tickets: seq<Ticket>, key: Key, n: int) {
    forall i :: 0 <= i < n && i < |tickets| && tickets[i].key == key ==> tickets[i].released
  }

  /** The chain: every ticket is tied to the latest earlier ticket of its key, or nothing earlier is live. */
  ghost predicate Chained(s: State) {
    forall t :: 0 <= t < |s.tickets| ==> ChainedAt(s.tickets, t)
  }

  ghost predicate ChainedAt(tickets: seq<Ticket>, t: nat)
    requires t < |tickets|
  {
    && (tickets[t].entered ==> ReleasedBelow(tickets, tickets[t].key, t))
    && match tickets[t].previous
       case None => ReleasedBelow(tickets, tickets[t].key, t)
       case Some(p) =>
         && p < t && tickets[p].key == tickets[t].key
         && (forall i :: p < i < t ==> tickets[i].key != tickets[t].key)
  }

  /** A map entry is the last ticket of its key, and a key without an entry has no live ticket. */
  ghost predicate TailsCurrent(s: State) {
    && (forall k :: k in s.tails ==>
          && s.tails[k] < |s.tickets| && s.tickets[s.tails[k]].key == k && !s.tickets[s.tails[k]].cleaned
          && (forall i :: s.tails[k] < i < |s.tickets| ==> s.tickets[i].key != k))
    && (forall i :: 0 <= i < |s.tickets| && s.tickets[i].key !in s.tails ==> s.tickets[i].released)
  }

  ghost predicate Inv(s: State) {
    Linked(s) && Chained(s) && TailsCurrent(s)
  }

  /** A ticket's promise chain has settled exactly when every ticket of its key up to it is released. */
  lemma {:induction false} SettledMeansReleased(s: State, t: nat)
    requires t < |s.tickets| && Chained(s)
    ensures TailSettled(s.tickets, t) <==> ReleasedBelow(s.tickets, s.tickets[t].key, t + 1)
  {
    assert ChainedAt(s.tickets, t);
    match s.tickets[t].previous
    case None =>
    case Some(p) => SettledMeansReleased(s, p);
  }

  lemma PreviousSettledMeansReleased(s: State, t: nat)
    requires t < |s.tickets| && Chained(s)
    ensures PreviousSettled(s.tickets, t) <==> ReleasedBelow(s.tickets, s.tickets[t].key, t)
  {
    assert ChainedAt(s.tickets, t);
    match s.tickets[t].previous
    case None =>
    case Some(p) => SettledMeansReleased(s, p);
  }

  lemma RequestKeepsLinked(s: State, c: nat)
    requires Inv(s) && Enabled(s, Request(c))
    ensures Linked(Apply(s, Request(c)))
  {
    var s' := Apply(s, Request(c));
    forall d | 0 <= d < |s'.callers| ensures CallerLinked(s', d) {
      assert CallerLinked(s, d);
    }
    forall t | 0 <= t < |s'.tickets| ensures TicketLinked(s', t) {
      RequestKeepsTicketLinked(s, c, t);
    }
  }

  lemma RequestKeepsTicketLinked(s: State, c: nat, t: nat)
    requires Inv(s) && Enabled(s, Request(c)) && t < |Apply(s, Request(c)).tickets|
    ensures TicketLinked(Apply(s, Request(c)), t)
  {
    assert CallerLinked(s, c);
    if t < |s.tickets| {
      assert TicketLinked(s, t);
    }
  }

  lemma RequestKeepsInv(s: State, c: nat)
    requires Inv(s) && Enabled(s, Request(c))
    ensures Inv(Apply(s, Request(c)))
  {
    var s' := Apply(s, Request(c));
    RequestKeepsLinked(s, c);
    assert s'.tickets[..|s.tickets|] == s.tickets;
    forall t | 0 <= t < |s'.tickets| ensures ChainedAt(s'.tickets, t) {
      if t < |s.tickets| {
        assert ChainedAt(s.tickets, t);
      }
    }
  }

  lemma EnterKeepsInv(s: State, c: nat)
    requires Inv(s) && Enabled(s, Enter(c))
    ensures Inv(Apply(s, Enter(c)))
  {
    var s' := Apply(s, Enter(c));
    PreviousSettledMeansReleased(s, Pending(s, c));
    forall t | 0 <= t < |s'.tickets| ensures TicketLinked(s', t) && ChainedAt(s'.tickets, t) {
      assert TicketLinked(s, t) && ChainedAt(s.tickets, t);
    }
    forall d | 0 <= d < |s'.callers| ensures CallerLinked(s', d) {
      assert CallerLinked(s, d);
    }
  }

  lemma ReleaseKeepsLinked(s: State, c: nat)
    requires Inv(s) && Enabled(s, Release(c))
    ensures Linked(Apply(s, Release(c)))
  {
    var s' := Apply(s, Release(c));
    assert CallerLinked(s, c);
    forall t | 0 <= t < |s'.tickets| ensures TicketLinked(s', t) {
      assert TicketLinked(s, t);
      assert s.tickets[t].caller == c ==> s.callers[c].tickets[s.tickets[t].index] == t;
    }
    forall d | 0 <= d < |s'.callers| ensures CallerLinked(s', d) {
      assert CallerLinked(s, d);
    }
  }

  lemma ReleaseKeepsInv(s: State, c: nat)
    requires Inv(s) && Enabled(s, Release(c))
    ensures Inv(Apply(s, Release(c)))
  {
    var s' := Apply(s, Release(c));
    ReleaseKeepsLinked(s, c);
    forall t | 0 <= t < |s'.tickets| ensures ChainedAt(s'.tickets, t) {
      assert ChainedAt(s.tickets, t);
    }
  }

  lemma CleanupKeepsInv(s: State, t: nat)
    requires Inv(s) && Enabled(s, Cleanup(t))
    ensures Inv(Apply(s, Cleanup(t)))
  {
    var s' := Apply(s, Cleanup(t));
    SettledMeansReleased(s, t);
    forall i | 0 <= i < |s'.tickets| ensures TicketLinked(s', i) && ChainedAt(s'.tickets, i) {
      assert TicketLinked(s, i) && ChainedAt(s.tickets, i);
    }
    forall d | 0 <= d < |s'.callers| ensures CallerLinked(s', d) {
      assert CallerLinked(s, d);
    }
  }

  lemma StepKeepsInv(s: State, step: Step)
    requires Inv(s) && Enabled(s, step)
    ensures Inv(Apply(s, step))
  {
    match step
    case Arrive(keys) =>
      var s' := Apply(s, step);
      forall t | 0 <= t < |s'.tickets| ensures TicketLinked(s', t) && ChainedAt(s'.tickets, t) {
        assert TicketLinked(s, t) && ChainedAt(s.tickets, t);
      }
      forall d | 0 <= d < |s'.callers| ensures CallerLinked(s', d) {
        if d < |s.callers| {
          assert CallerLinked(s, d);
        }
      }
    case Request(c) => RequestKeepsInv(s, c);
    case Enter(c) => EnterKeepsInv(s, c);
    case Release(c) => ReleaseKeepsInv(s, c);
    case Cleanup(t) => CleanupKeepsInv(s, t);
  }

  // ----- runs -----

  ghost predicate Run(s: State, steps: seq<Step>, end: State)
    decreases |steps|
  {
    if steps == [] then s == end
    else Enabled(s, steps[0]) && Run(Apply(s, steps[0]), steps[1..], end)
  }

  lemma {:induction false} RunKeepsInv(s: State, steps: seq<Step>, end: State)
    requires Inv(s) && Run(s, steps, end)
    ensures Inv(end)
    decreases |steps|
  {
    if steps != [] {
      StepKeepsInv(s, steps[0]);
      RunKeepsInv(Apply(s, steps[0]), steps[1..], end);
    }
  }

  /** Tickets are numbered in request order: a key is entered only after every earlier request gave it back. */
  lemma EntersInRequestOrder(steps: seq<Step>, s: State, earlier: nat, later: nat)
    requires Run(Initial, steps, s)
    requires earlier < later < |s.tickets| && s.tickets[earlier].key == s.tickets[later].key
    requires s.tickets[later].entered
    ensures s.tickets[earlier].entered && s.tickets[earlier].released
  {
    RunKeepsInv(Initial, steps, s);
    assert ChainedAt(s.tickets, later) && TicketLinked(s, earlier);
  }

  ghost predicate Holds(s: State, c: nat, key: Key) {
    exists t :: 0 <= t < |s.tickets| && s.tickets[t].caller == c && s.tickets[t].key == key
                && s.tickets[t].entered && !s.tickets[t].released
  }

  /** At most one caller holds a key, after any interleaving. */
  lemma AtMostOneHolder(steps: seq<Step>, s: State, key: Key, c: nat, d: nat)
    requires Run(Initial, steps, s)
    requires Holds(s, c, key) && Holds(s, d, key)
    ensures c == d
  {
    var t :| 0 <= t < |s.tickets| && s.tickets[t].caller == c && s.tickets[t].key == key
             && s.tickets[t].entered && !s.tickets[t].released;
    var u :| 0 <= u < |s.tickets| && s.tickets[u].caller == d && s.tickets[u].key == key
             && s.tickets[u].entered && !s.tickets[u].released;
    if t < u {
      EntersInRequestOrder(steps, s, t, u);
    } else if u < t {
      EntersInRequestOrder(steps, s, u, t);
    }
  }

  /** A caller that holds everything it asked for holds exactly its normalised keys until it releases. */
  lemma FullHoldsAllKeys(steps: seq<Step>, s: State, c: nat, key: Key)
    requires Run(Initial, steps, s)
    requires c < |s.callers| && Full(s, c) && !s.callers[c].released
    ensures Holds(s, c, key) <==> key in s.callers[c].keys
  {
    RunKeepsInv(Initial, steps, s);
    assert CallerLinked(s, c);
    var caller := s.callers[c];
    if key in caller.keys {
      var i :| 0 <= i < |caller.keys| && caller.keys[i] == key;
      assert TicketLinked(s, caller.tickets[i]);
    }
    if Holds(s, c, key) {
      var t :| 0 <= t < |s.tickets| && s.tickets[t].caller == c && s.tickets[t].key == key
               && s.tickets[t].entered && !s.tickets[t].released;
      assert TicketLinked(s, t);
    }
  }

  lemma {:induction false} RunKeepsKeys(s: State, steps: seq<Step>, end: State, c: nat)
    requires Run(s, steps, end) && c < |s.callers|
    ensures c < |end.callers| && end.callers[c].keys == s.callers[c].keys
    decreases |steps|
  {
    if steps != [] {
      RunKeepsKeys(Apply(s, steps[0]), steps[1..], end, c);
    }
  }

  lemma {:induction false} RunsJoin(s: State, a: seq<Step>, middle: State, b: seq<Step>, end: State)
    requires Run(s, a, middle) && Run(middle, b, end)
    ensures Run(s, a + b, end)
    decreases |a|
  {
    if a == [] {
      assert a + b == b;
    } else {
      assert (a + b)[1..] == a[1..] + b;
      RunsJoin(Apply(s, a[0]), a[1..], middle, b, end);
    }
  }

  lemma ArrivalRuns(before: seq<Step>, s: State, keys: seq<Key>, after: seq<Step>, end: State)
    requires Run(Initial, before, s) && Run(Apply(s, Arrive(keys)), after, end)
    ensures Run(Initial, before + ([Arrive(keys)] + after), end)
  {
    var all := [Arrive(keys)] + after;
    assert all[1..] == after;
    RunsJoin(Initial, before, s, all, end);
  }

  /** In whatever run an acquire call is made, once it has returned it holds exactly the non-empty keys it was given. */
  lemma AcquireHoldsWhatWasAsked(before: seq<Step>, s: State, keys: seq<Key>, after: seq<Step>, end: State, key: Key)
    requires Run(Initial, before, s) && Run(Apply(s, Arrive(keys)), after, end)
    ensures var c := |s.callers|;
            && c < |end.callers|
            && (Full(end, c) && !end.callers[c].released ==> (Holds(end, c, key) <==> key in keys && key != ""))
  {
    var c := |s.callers|;
    RunKeepsKeys(Apply(s, Arrive(keys)), after, end, c);
    if Full(end, c) && !end.callers[c].released {
      ArrivalRuns(before, s, keys, after, end);
      FullHoldsAllKeys(before + ([Arrive(keys)] + after), end, c, key);
    }
  }

  /** Two acquire calls that were given a common key are never both past it: one has released when the other returns. */
  lemma CommonKeyExcludes(before: seq<Step>, s: State, first: seq<Key>, between: seq<Step>, t: State,
                          second: seq<Key>, after: seq<Step>, end: State, key: Key)
    requires Run(Initial, before, s) && Run(Apply(s, Arrive(first)), between, t)
    requires Run(Apply(t, Arrive(second)), after, end)
    requires key in first && key in second && key != ""
    ensures var c, d := |s.callers|, |t.callers|;
            && c < d < |end.callers|
            && !(Full(end, c) && Full(end, d) && !end.callers[c].released && !end.callers[d].released)
  {
    var c, d := |s.callers|, |t.callers|;
    RunKeepsKeys(Apply(s, Arrive(first)), between, t, c);
    ArrivalRuns(before, s, first, between, t);
    var earlier := before + ([Arrive(first)] + between);
    AcquireHoldsWhatWasAsked(earlier, t, second, after, end, key);
    var later := between + ([Arrive(second)] + after);
    assert ([Arrive(second)] + after)[1..] == after;
    RunsJoin(Apply(s, Arrive(first)), between, t, [Arrive(second)] + after, end);
    AcquireHoldsWhatWasAsked(before, s, first, later, end, key);
    if Full(end, c) && Full(end, d) && !end.callers[c].released && !end.callers[d].released {
      ArrivalRuns(before, s, first, later, end);
      AtMostOneHolder(before + ([Arrive(first)] + later), end, key, c, d);
    }
  }

  /** Cleanup never drops a live chain: whoever asks for a live key next has to wait for it. */
  lemma LiveChainBlocksNewcomers(steps: seq<Step>, s: State, live: nat, c: nat)
    requires Run(Initial, steps, s)
    requires live < |s.tickets| && !s.tickets[live].released
    requires Enabled(s, Request(c))
    requires s.callers[c].keys[|s.callers[c].tickets|] == s.tickets[live].key
    ensures !Enabled(Apply(s, Request(c)), Enter(c))
  {
    RunKeepsInv(Initial, steps, s);
    var s' := Apply(s, Request(c));
    StepKeepsInv(s, Request(c));
    assert Waiting(s', c) && Pending(s', c) == |s.tickets|;
    PreviousSettledMeansReleased(s', |s.tickets|);
    assert !s'.tickets[live].released;
  }

  // ----- progress -----

  /** Some caller can act: take its next key, ask for it, or give everything back. */
  ghost predicate CanAct(s: State, c: nat) {
    && c < |s.callers|
    && !s.callers[c].released
    && (Enabled(s, Request(c)) || Enabled(s, Enter(c)) || Enabled(s, Release(c)))
  }

  /** Callers that wait for a key above `key`. */
  ghost function WaitingAbove(s: State, key: Key): set<nat> {
    set c | 0 <= c < |s.callers| && Waiting(s, c) && Below(key, s.tickets[Pending(s, c)].key)
  }

  /** The earliest live ticket of a key. */
  ghost function FirstLive(tickets: seq<Ticket>, key: Key, from: nat, limit: nat): (t: nat)
    requires from <= limit <= |tickets|
    requires exists i :: from <= i < limit && tickets[i].key == key && !tickets[i].released
    ensures from <= t < limit && tickets[t].key == key && !tickets[t].released
    ensures forall i :: from <= i < t && tickets[i].key == key ==> tickets[i].released
    decreases limit - from
  {
    if tickets[from].key == key && !tickets[from].released then from
    else FirstLive(tickets, key, from + 1, limit)
  }

  /**
   From a waiting caller, follow the owner of the earliest live ticket of the awaited key. Either that
   owner can act, or it waits for a larger key itself; keys only grow along the walk, so the walk ends.
   */
  lemma {:induction false} FollowTheWait(s: State, c: nat) returns (actor: nat)
    requires Inv(s) && c < |s.callers| && Waiting(s, c)
    ensures CanAct(s, actor)
    decreases WaitingAbove(s, s.tickets[Pending(s, c)].key)
  {
    actor := OwnerAhead(s, c);
    if !CanAct(s, actor) {
      FewerWaitAbove(s, s.tickets[Pending(s, c)].key, actor);
      actor := FollowTheWait(s, actor);
    }
  }

  /** Who a waiting caller waits for: itself or another caller that can act, or one that waits for a larger key. */
  lemma OwnerAhead(s: State, c: nat) returns (owner: nat)
    requires Inv(s) && c < |s.callers| && Waiting(s, c)
    ensures owner < |s.callers|
    ensures CanAct(s, owner)
         || (Waiting(s, owner) && Below(s.tickets[Pending(s, c)].key, s.tickets[Pending(s, owner)].key))
  {
    var t := Pending(s, c);
    var key := s.tickets[t].key;
    assert CallerLinked(s, c) && TicketLinked(s, t);
    PreviousSettledMeansReleased(s, t);
    if ReleasedBelow(s.tickets, key, t) {
      return c;
    }
    var first := FirstLive(s.tickets, key, 0, t);
    owner := FirstOwnerActsOrWaitsAbove(s, first);
  }

  lemma FirstOwnerActsOrWaitsAbove(s: State, t: nat) returns (owner: nat)
    requires Inv(s) && t < |s.tickets| && !s.tickets[t].released && ReleasedBelow(s.tickets, s.tickets[t].key, t)
    ensures owner < |s.callers|
    ensures CanAct(s, owner) || (Waiting(s, owner) && Below(s.tickets[t].key, s.tickets[Pending(s, owner)].key))
  {
    owner := s.tickets[t].caller;
    assert TicketLinked(s, t) && CallerLinked(s, owner);
    if Waiting(s, owner) {
      PreviousSettledMeansReleased(s, t);
      assert TicketLinked(s, Pending(s, owner));
    }
  }

  lemma FewerWaitAbove(s: State, key: Key, owner: nat)
    requires Inv(s) && owner < |s.callers| && Waiting(s, owner) && Below(key, s.tickets[Pending(s, owner)].key)
    ensures WaitingAbove(s, s.tickets[Pending(s, owner)].key) < WaitingAbove(s, key)
  {
    var larger := s.tickets[Pending(s, owner)].key;
    assert owner in WaitingAbove(s, key);
    assert owner !in WaitingAbove(s, larger) by {
      BelowIsStrict(larger, larger);
    }
    forall d | d in WaitingAbove(s, larger) ensures d in WaitingAbove(s, key) {
      BelowIsTransitive(key, larger, s.tickets[Pending(s, d)].key);
    }
  }

  /** No deadlock: as long as some caller has not released, some caller can act. */
  lemma NoDeadlock(steps: seq<Step>, s: State, c: nat)
    requires Run(Initial, steps, s)
    requires c < |s.callers| && !s.callers[c].released
    ensures exists actor :: CanAct(s, actor)
  {
    RunKeepsInv(Initial, steps, s);
    assert CallerLinked(s, c);
    if Waiting(s, c) {
      var actor := FollowTheWait(s, c);
    } else {
      assert CanAct(s, c);
    }
  }

  // ----- every run of the callers present comes to an end -----

  /** A step that is not an arrival and not a repeated release. */
  predicate Advances(s: State, step: Step) {
    match step
    case Arrive(_) => false
    case Release(c) => c < |s.callers| && !s.callers[c].released
    case _ => true
  }

  function CallerWork(caller: Caller): int {
    3 * (|caller.keys| - |caller.tickets|) + if caller.released then 0 else 1
  }

  function TicketWork(ticket: Ticket): int {
    (if ticket.entered then 0 else 1) + (if ticket.cleaned then 0 else 1)
  }

  function CallersWork(callers: seq<Caller>): int {
    if callers == [] then 0 else CallersWork(callers[..|callers| - 1]) + CallerWork(callers[|callers| - 1])
  }

  function TicketsWork(tickets: seq<Ticket>): int {
    if tickets == [] then 0 else TicketsWork(tickets[..|tickets| - 1]) + TicketWork(tickets[|tickets| - 1])
  }

  /** The number of steps still to be taken on behalf of the callers present. */
  function Work(s: State): int {
    CallersWork(s.callers) + TicketsWork(s.tickets)
  }

  lemma {:induction false} CallersWorkUpdate(callers: seq<Caller>, c: nat, caller: Caller)
    requires c < |callers|
    ensures CallersWork(callers[c := caller]) == CallersWork(callers) - CallerWork(callers[c]) + CallerWork(caller)
  {
    var n := |callers| - 1;
    if c < n {
      CallersWorkUpdate(callers[..n], c, caller);
      assert callers[c := caller][..n] == callers[..n][c := caller];
    } else {
      assert callers[c := caller][..n] == callers[..n];
    }
  }

  lemma {:induction false} TicketsWorkUpdate(tickets: seq<Ticket>, t: nat, ticket: Ticket)
    requires t < |tickets|
    ensures TicketsWork(tickets[t := ticket]) == TicketsWork(tickets) - TicketWork(tickets[t]) + TicketWork(ticket)
  {
    var n := |tickets| - 1;
    if t < n {
      TicketsWorkUpdate(tickets[..n], t, ticket);
      assert tickets[t := ticket][..n] == tickets[..n][t := ticket];
    } else {
      assert tickets[t := ticket][..n] == tickets[..n];
    }
  }

  lemma {:induction false} ReleaseAllKeepsWork(tickets: seq<Ticket>, c: nat)
    ensures TicketsWork(ReleaseAll(tickets, c)) == TicketsWork(tickets)
  {
    if tickets != [] {
      var n := |tickets| - 1;
      ReleaseAllKeepsWork(tickets[..n], c);
      assert ReleaseAll(tickets, c)[..n] == ReleaseAll(tickets[..n], c);
    }
  }

  lemma {:induction false} WorkIsNonNegative(s: State)
    requires forall c :: 0 <= c < |s.callers| ==> |s.callers[c].tickets| <= |s.callers[c].keys|
    ensures 0 <= CallersWork(s.callers) && 0 <= TicketsWork(s.tickets)
    decreases |s.callers| + |s.tickets|
  {
    if s.callers != [] {
      WorkIsNonNegative(s.(callers := s.callers[..|s.callers| - 1]));
    }
    if s.tickets != [] {
      WorkIsNonNegative(s.(tickets := s.tickets[..|s.tickets| - 1]));
    }
  }

  lemma StepDoesOneUnitOfWork(s: State, step: Step)
    requires Inv(s) && Enabled(s, step) && Advances(s, step)
    ensures Work(Apply(s, step)) == Work(s) - 1
  {
    match step
    case Request(c) =>
      var s' := Apply(s, step);
      CallersWorkUpdate(s.callers, c, s'.callers[c]);
      assert s'.tickets[..|s.tickets|] == s.tickets;
    case Enter(c) =>
      var t := Pending(s, c);
      TicketsWorkUpdate(s.tickets, t, s.tickets[t].(entered := true));
    case Release(c) =>
      CallersWorkUpdate(s.callers, c, s.callers[c].(released := true));
      ReleaseAllKeepsWork(s.tickets, c);
    case Cleanup(t) =>
      TicketsWorkUpdate(s.tickets, t, s.tickets[t].(cleaned := true));
  }

  ghost predicate AdvancingRun(s: State, steps: seq<Step>, end: State)
    decreases |steps|
  {
    if steps == [] then s == end
    else Enabled(s, steps[0]) && Advances(s, steps[0]) && AdvancingRun(Apply(s, steps[0]), steps[1..], end)
  }

  lemma {:induction false} AdvancingRunWork(s: State, steps: seq<Step>, end: State)
    requires Inv(s) && AdvancingRun(s, steps, end)
    ensures Inv(end) && |steps| == Work(s) - Work(end)
    decreases |steps|
  {
    if steps != [] {
      StepKeepsInv(s, steps[0]);
      StepDoesOneUnitOfWork(s, steps[0]);
      AdvancingRunWork(Apply(s, steps[0]), steps[1..], end);
    }
  }

  /** No step is left except arrivals and repeated releases. */
  ghost predicate Quiet(s: State) {
    forall step :: Enabled(s, step) ==> !Advances(s, step)
  }

  lemma QuietCallerIsReleased(s: State, c: nat)
    requires Inv(s) && c < |s.callers| && Quiet(s)
    ensures Full(s, c) && s.callers[c].released
  {
    assert CallerLinked(s, c);
    if !s.callers[c].released {
      var actor := c;
      if Waiting(s, c) {
        actor := FollowTheWait(s, c);
      }
      assert !Enabled(s, Request(actor)) by { assert Advances(s, Request(actor)); }
      assert !Enabled(s, Enter(actor)) by { assert Advances(s, Enter(actor)); }
      assert !Enabled(s, Release(actor)) by { assert Advances(s, Release(actor)); }
    }
  }

  lemma QuietTailIsGone(s: State, key: Key)
    requires Inv(s) && Quiet(s)
    ensures key !in s.tails
  {
    if key in s.tails {
      var t := s.tails[key];
      forall i | 0 <= i < |s.tickets| ensures s.tickets[i].released {
        assert TicketLinked(s, i);
        QuietCallerIsReleased(s, s.tickets[i].caller);
      }
      assert !TailSettled(s.tickets, t) by {
        assert Advances(s, Cleanup(t)) && !Enabled(s, Cleanup(t));
      }
      SettledMeansReleased(s, t);
    }
  }

  /**
   Once arrivals stop, every interleaving ends after at most `Work` steps, and where no step is left
   every caller has held all its keys and given them back, and the map of tails is empty again.
   */
  lemma EveryRunCompletes(before: seq<Step>, s: State, steps: seq<Step>, end: State)
    requires Run(Initial, before, s) && AdvancingRun(s, steps, end)
    ensures |steps| <= Work(s)
    ensures Quiet(end) ==>
              && (forall c :: 0 <= c < |end.callers| ==> Full(end, c) && end.callers[c].released)
              && (forall key :: key !in end.tails)
  {
    RunKeepsInv(Initial, before, s);
    AdvancingRunWork(s, steps, end);
    forall c | 0 <= c < |end.callers| ensures |end.callers[c].tickets| <= |end.callers[c].keys| {
      assert CallerLinked(end, c);
    }
    WorkIsNonNegative(end);
    if Quiet(end) {
      forall c | 0 <= c < |end.callers| ensures Full(end, c) && end.callers[c].released {
        QuietCallerIsReleased(end, c);
      }
      forall key ensures key !in end.tails {
        QuietTailIsGone(end, key);
      }
    }
  }

  // ----- the object -----

  /**
   The mutex itself. `acquire` suspends at every await, so its body is cut there: `Acquire` is the call,
   `RequestNext` the synchronous part of `#acquireOne`, `Enter` its continuation after the await, and
   `Cleanup` the `finally` callback. Each method takes exactly the step of the same name.
   */
  class Mutex {
    var tickets: seq<Ticket>
    var tails: map<Key, nat>
    var callers: seq<Caller>

    function View(): State
      reads this
    {
      State(tickets, tails, callers)
    }

    ghost predicate Valid()
      reads this
    {
      Inv(View())
    }

    constructor ()
      ensures Valid() && View() == Initial
    {
      tickets, tails, callers := [], map[], [];
    }

    method Acquire(keys: seq<Key>) returns (c: nat)
      requires Valid()
      modifies this
      ensures Valid() && View() == Apply(old(View()), Arrive(keys)) && c == |old(callers)|
    {
      StepKeepsInv(View(), Arrive(keys));
      c := |callers|;
      callers := callers + [Caller(Normalize(keys), [], false)];
    }

    method RequestNext(c: nat)
      requires Valid() && Enabled(View(), Request(c))
      modifies this
      ensures Valid() && View() == Apply(old(View()), Request(c))
    {
      StepKeepsInv(View(), Request(c));
      var caller := callers[c];
      var key := caller.keys[|caller.tickets|];
      var previous := if key in tails then Some(tails[key]) else None;
      var current := |tickets|;
      tickets := tickets + [Ticket(key, c, |caller.tickets|, previous, false, false, false)];
      tails := tails[key := current];
      callers := callers[c := caller.(tickets := caller.tickets + [current])];
    }

    method Enter(c: nat)
      requires Valid() && Enabled(View(), Step.Enter(c))
      modifies this
      ensures Valid() && View() == Apply(old(View()), Step.Enter(c))
    {
      StepKeepsInv(View(), Step.Enter(c));
      var t := Pending(View(), c);
      tickets := tickets[t := tickets[t].(entered := true)];
    }

    /** Runs the single releases in reverse order; each one ignores a second call. */
    method Release(c: nat)
      requires Valid() && Enabled(View(), Step.Release(c))
      modifies this
      ensures Valid() && View() == Apply(old(View()), Step.Release(c))
    {
      ghost var before := View();
      StepKeepsInv(before, Step.Release(c));
      assert CallerLinked(before, c);
      var held := callers[c].tickets;
      var i := |held|;
      forall t | 0 <= t < |tickets| ensures ReleaseFrom(tickets, c, i)[t] == tickets[t] {
        assert TicketLinked(before, t);
      }
      while 0 < i
        invariant 0 <= i <= |held|
        invariant tails == before.tails && callers == before.callers
        invariant tickets == ReleaseFrom(before.tickets, c, i)
      {
        i := i - 1;
        forall u | 0 <= u < |before.tickets| && before.tickets[u].caller == c && before.tickets[u].index == i
          ensures u == held[i]
        {
          assert TicketLinked(before, u);
        }
        if !tickets[held[i]].released {
          tickets := tickets[held[i] := tickets[held[i]].(released := true)];
        }
      }
      assert ReleaseFrom(before.tickets, c, 0) == ReleaseAll(before.tickets, c);
      callers := callers[c := callers[c].(released := true)];
    }

    method Cleanup(t: nat)
      requires Valid() && Enabled(View(), Step.Cleanup(t))
      modifies this
      ensures Valid() && View() == Apply(old(View()), Step.Cleanup(t))
    {
      StepKeepsInv(View(), Step.Cleanup(t));
      var key := tickets[t].key;
      if key in tails && tails[key] == t {
        tails := tails - {key};
      }
      tickets := tickets[t := tickets[t].(cleaned := true)];
    }
  }
}
