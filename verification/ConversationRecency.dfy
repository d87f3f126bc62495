/**
 Which contexts stay active: whatever the history of calls, they are the most recently used ones, as many as the
 capacity allows. The reference is a list of keys without any stamps.
 */
module ConversationRecency {
  import opened Options
  import opened ConversationState

  // ----- the reference -----

  function Filter(order: seq<ContextKey>, keep: ContextKey -> bool): seq<ContextKey> {
    if order == [] then [] else (if keep(order[0]) then [order[0]] else []) + Filter(order[1..], keep)
  }

  /** The keys other than one, in their order. */
  function Others(order: seq<ContextKey>, key: ContextKey): seq<ContextKey> {
    Filter(order, k => k != key)
  }

  /** A key that is used comes first, and a list that has become too long loses its last one. */
  function Use(order: seq<ContextKey>, capacity: nat, key: ContextKey): seq<ContextKey> {
    var longer := [key] + Others(order, key);
    if capacity < |longer| then longer[..capacity] else longer
  }

  /** The context a call uses. */
  function UsedBy(p: Plain, call: Call): Option<ContextKey> {
    match call
    case SelectFolder(c, f) => Some(Key(c, f))
    case CwdFor(c, f) => Some(Key(c, f))
    case SetFolderCwd(c, f, _) => Some(Key(c, f))
    case CurrentCwd(c) => SelectedKey(p, c)
    case SetCurrentCwd(c, _) => SelectedKey(p, c)
    case _ => None
  }

  function SelectedKey(p: Plain, conversation: string): Option<ContextKey> {
    if conversation in p.selections && p.selections[conversation] != ""
    then Some(Key(conversation, p.selections[conversation])) else None
  }

  function RecencyAfter(order: seq<ContextKey>, capacity: nat, p: Plain, call: Call): seq<ContextKey> {
    match call
    case DeleteConversation(c) => Filter(order, k => KeyConversation(k) != c)
    case Clear => []
    case _ =>
      match UsedBy(p, call)
      case None => order
      case Some(key) => Use(order, capacity, key)
  }

  function Recency(order: seq<ContextKey>, capacity: nat, p: Plain, calls: seq<Call>): seq<ContextKey>
    decreases |calls|
  {
    if calls == [] then order
    else Recency(RecencyAfter(order, capacity, p, calls[0]), capacity, PlainApply(p, calls[0]).0, calls[1..])
  }

  // ----- lists of active contexts -----

  predicate UsedLater(active: map<ContextKey, Context>, a: ContextKey, b: ContextKey) {
    a in active && b in active && active[b].lastUsed < active[a].lastUsed
  }

  predicate Descends(active: map<ContextKey, Context>, order: seq<ContextKey>) {
    forall i, j :: 0 <= i < j < |order| ==> UsedLater(active, order[i], order[j])
  }

  /** The active contexts, the last used one first. */
  ghost predicate Orders(active: map<ContextKey, Context>, order: seq<ContextKey>) {
    (forall key :: key in active <==> key in order) && Descends(active, order)
  }

  lemma {:induction false} Filtered(order: seq<ContextKey>, keep: ContextKey -> bool)
    ensures forall key :: key in Filter(order, keep) <==> key in order && keep(key)
  {
    if order != [] {
      Filtered(order[1..], keep);
      assert order == [order[0]] + order[1..];
    }
  }

  lemma DescendsInFront(active: map<ContextKey, Context>, head: ContextKey, rest: seq<ContextKey>)
    requires Descends(active, rest) && forall key :: key in rest ==> UsedLater(active, head, key)
    ensures Descends(active, [head] + rest)
  {
    forall i, j | 0 <= i < j < |[head] + rest|
      ensures UsedLater(active, ([head] + rest)[i], ([head] + rest)[j])
    {
      assert ([head] + rest)[j] == rest[j - 1] && rest[j - 1] in rest;
    }
  }

  lemma {:induction false} FilteredDescends(active: map<ContextKey, Context>, order: seq<ContextKey>,
                                            keep: ContextKey -> bool)
    requires Descends(active, order)
    ensures Descends(active, Filter(order, keep))
  {
    if order != [] {
      var head, rest := order[0], order[1..];
      forall i, j | 0 <= i < j < |rest|
        ensures UsedLater(active, rest[i], rest[j])
      {
        assert rest[i] == order[i + 1] && rest[j] == order[j + 1];
      }
      FilteredDescends(active, rest, keep);
      if keep(head) {
        Filtered(rest, keep);
        forall key | key in Filter(rest, keep)
          ensures UsedLater(active, head, key)
        {
          var i :| 0 <= i < |rest| && rest[i] == key;
          assert order[i + 1] == key;
        }
        DescendsInFront(active, head, Filter(rest, keep));
      } else {
        assert [] + Filter(rest, keep) == Filter(rest, keep);
      }
    }
  }

  lemma SameStampsDescend(active: map<ContextKey, Context>, next: map<ContextKey, Context>, order: seq<ContextKey>)
    requires Descends(active, order)
    requires forall key :: key in order ==> key in active && key in next && next[key].lastUsed == active[key].lastUsed
    ensures Descends(next, order)
  {
    forall i, j | 0 <= i < j < |order|
      ensures UsedLater(next, order[i], order[j])
    {
      assert order[i] in order && order[j] in order;
      assert UsedLater(active, order[i], order[j]);
    }
  }

  function KeySet(order: seq<ContextKey>): set<ContextKey> {
    set key <- order
  }

  lemma {:induction false} DistinctLength(order: seq<ContextKey>)
    requires forall i, j :: 0 <= i < j < |order| ==> order[i] != order[j]
    ensures |KeySet(order)| == |order|
    decreases |order|
  {
    if order != [] {
      var front, last := order[..|order| - 1], order[|order| - 1];
      assert order == front + [last];
      DistinctLength(front);
      assert KeySet(order) == KeySet(front) + {last} && last !in front;
    }
  }

  lemma OrderLength(active: map<ContextKey, Context>, order: seq<ContextKey>)
    requires Orders(active, order)
    ensures |order| == |active|
  {
    forall i, j | 0 <= i < j < |order|
      ensures order[i] != order[j]
    {
      assert UsedLater(active, order[i], order[j]);
    }
    DistinctLength(order);
    assert active.Keys == KeySet(order);
    assert |active| == |active.Keys|;
  }

  // ----- using a context -----

  /** One context gets a stamp later than all others. */
  lemma NewestFirst(active: map<ContextKey, Context>, next: map<ContextKey, Context>, order: seq<ContextKey>,
                    key: ContextKey)
    requires Orders(active, order) && key in next
    requires forall k :: k in next <==> k == key || k in active
    requires forall k :: k in active && k != key ==>
               next[k].lastUsed == active[k].lastUsed && next[k].lastUsed < next[key].lastUsed
    ensures Orders(next, [key] + Others(order, key))
  {
    var rest := Others(order, key);
    Filtered(order, k => k != key);
    FilteredDescends(active, order, k => k != key);
    SameStampsDescend(active, next, rest);
    DescendsInFront(next, key, rest);
  }

  lemma LastIsOldest(active: map<ContextKey, Context>, order: seq<ContextKey>, oldest: ContextKey)
    requires Orders(active, order) && order != [] && IsOldest(active, oldest)
    ensures oldest == order[|order| - 1]
  {
    var i :| 0 <= i < |order| && order[i] == oldest;
    assert i < |order| - 1 ==> UsedLater(active, order[i], order[|order| - 1]);
  }

  /** The context that is evicted is the last of the list. */
  lemma EvictedLast(s: State, order: seq<ContextKey>)
    requires s.active != map[] && Orders(s.active, order)
    ensures order != [] && Orders(Evict(s, Oldest(s.active)).active, order[..|order| - 1])
  {
    var n := |order| - 1;
    LastIsOldest(s.active, order, Oldest(s.active));
    var next := Evict(s, Oldest(s.active)).active;
    assert order == order[..n] + [order[n]];
    forall key | key in order[..n]
      ensures key in next && next[key] == s.active[key]
    {
      var i :| 0 <= i < n && order[i] == key;
      assert UsedLater(s.active, order[i], order[n]);
    }
    SameStampsDescend(s.active, next, order[..n]);
  }

  lemma RefreshUses(s: State, capacity: nat, conversation: string, folder: string, order: seq<ContextKey>)
    requires StampsInv(s) && |s.active| <= capacity && 1 <= capacity && Orders(s.active, order)
    requires Key(conversation, folder) in s.active
    ensures Orders(Touch(s, capacity, conversation, folder).active, Use(order, capacity, Key(conversation, folder)))
  {
    var key := Key(conversation, folder);
    var s' := Touch(s, capacity, conversation, folder);
    TouchCases(s, capacity, conversation, folder);
    RefreshKeepsStamps(s, key);
    NewestFirst(s.active, s'.active, order, key);
    OrderLength(s'.active, [key] + Others(order, key));
  }

  lemma AdmitUses(s: State, capacity: nat, conversation: string, folder: string, order: seq<ContextKey>)
    requires StampsInv(s) && |s.active| <= capacity && 1 <= capacity && Orders(s.active, order)
    requires Key(conversation, folder) !in s.active
    ensures Orders(Touch(s, capacity, conversation, folder).active, Use(order, capacity, Key(conversation, folder)))
  {
    var key, admitted := Key(conversation, folder), Admit(s, conversation, folder);
    var longer := [key] + Others(order, key);
    TouchCases(s, capacity, conversation, folder);
    NewestFirst(s.active, admitted.active, order, key);
    AdmitAddsOne(s, conversation, folder);
    OrderLength(admitted.active, longer);
    if |s.active| == capacity {
      EvictedLast(admitted, longer);
      assert Prune(admitted, 1) == Prune(Evict(admitted, Oldest(admitted.active)), 0);
    }
  }

  lemma TouchUses(s: State, capacity: nat, conversation: string, folder: string, order: seq<ContextKey>)
    requires StampsInv(s) && |s.active| <= capacity && 1 <= capacity && Orders(s.active, order)
    ensures Orders(Touch(s, capacity, conversation, folder).active, Use(order, capacity, Key(conversation, folder)))
  {
    if Key(conversation, folder) in s.active {
      RefreshUses(s, capacity, conversation, folder, order);
    } else {
      AdmitUses(s, capacity, conversation, folder, order);
    }
  }

  lemma AssignKeepsOrder(s: State, key: ContextKey, cwd: string, order: seq<ContextKey>)
    requires StampsInv(s) && Orders(s.active, order) && key in s.active && order != [] && order[0] == key
    ensures Orders(Assign(s, key, cwd).active, order)
  {
    var next := Assign(s, key, cwd).active;
    var rest := order[1..];
    assert order == [key] + rest;
    forall i | 0 <= i < |rest|
      ensures rest[i] == order[i + 1] && UsedLater(s.active, key, rest[i])
    {
    }
    forall i, j | 0 <= i < j < |rest|
      ensures UsedLater(s.active, rest[i], rest[j])
    {
      assert UsedLater(s.active, order[i + 1], order[j + 1]);
    }
    SameStampsDescend(s.active, next, rest);
    DescendsInFront(next, key, rest);
  }

  lemma ForgetFilters(s: State, conversation: string, order: seq<ContextKey>)
    requires KeysInv(s) && StampsInv(s) && NulFree(conversation) && Orders(s.active, order)
    ensures Orders(Forget(s, conversation).active, Filter(order, k => KeyConversation(k) != conversation))
  {
    var keep := (k: ContextKey) => KeyConversation(k) != conversation;
    ForgetDropsOneConversation(s, conversation);
    Filtered(order, keep);
    FilteredDescends(s.active, order, keep);
    SameStampsDescend(s.active, Forget(s, conversation).active, Filter(order, keep));
  }

  // ----- every call -----

  lemma SetCwdUses(s: State, capacity: nat, c: string, f: string, cwd: string, order: seq<ContextKey>)
    requires StampsInv(s) && |s.active| <= capacity && 1 <= capacity && Orders(s.active, order)
    ensures Orders(SetCwd(s, capacity, c, f, cwd).active, Use(order, capacity, Key(c, f)))
  {
    TouchKeepsStamps(s, capacity, c, f);
    TouchUses(s, capacity, c, f, order);
    AssignKeepsOrder(Touch(s, capacity, c, f), Key(c, f), cwd, Use(order, capacity, Key(c, f)));
  }

  lemma SelectedUses(s: State, capacity: nat, p: Plain, order: seq<ContextKey>, call: Call, c: string)
    requires StampsInv(s) && |s.active| <= capacity && 1 <= capacity && Orders(s.active, order)
    requires s.selections == p.selections && (call == CurrentCwd(c) || (call.SetCurrentCwd? && call.conversation == c))
    ensures Orders(Apply(s, capacity, call).0.active, RecencyAfter(order, capacity, p, call))
  {
    if SelectedKey(p, c).Some? {
      var f := s.selections[c];
      if call.CurrentCwd? {
        TouchUses(s, capacity, c, f, order);
      } else {
        SetCwdUses(s, capacity, c, f, call.cwd, order);
      }
    }
  }

  /** Every call moves the context it uses to the front, and only an eviction or a deletion takes any out. */
  lemma CallKeepsRecency(s: State, capacity: nat, p: Plain, order: seq<ContextKey>, call: Call)
    requires Good(s, capacity) && 1 <= capacity && Agree(s, p) && CallIsNulFree(call) && Orders(s.active, order)
    ensures Orders(Apply(s, capacity, call).0.active, RecencyAfter(order, capacity, p, call))
  {
    match call
    case SelectFolder(c, f) => TouchUses(s.(selections := s.selections[c := f]), capacity, c, f, order);
    case CwdFor(c, f) => TouchUses(s, capacity, c, f, order);
    case CurrentCwd(c) => SelectedUses(s, capacity, p, order, call, c);
    case SetCurrentCwd(c, _) => SelectedUses(s, capacity, p, order, call, c);
    case SetFolderCwd(c, f, cwd) => SetCwdUses(s, capacity, c, f, cwd, order);
    case DeleteConversation(c) => ForgetFilters(s, c, order);
    case SelectedFolder(_) =>
    case PeekCwdFor(_, _) =>
    case Clear =>
  }

  lemma {:induction false} HistoryKeepsRecency(s: State, capacity: nat, p: Plain, order: seq<ContextKey>,
                                               calls: seq<Call>)
    requires Good(s, capacity) && 1 <= capacity && Agree(s, p) && Orders(s.active, order)
    requires forall call :: call in calls ==> CallIsNulFree(call)
    ensures Orders(Answers(s, capacity, calls).0.active, Recency(order, capacity, p, calls))
    decreases |calls|
  {
    if calls != [] {
      assert calls[0] in calls;
      CallAgrees(s, capacity, p, calls[0]);
      CallKeepsRecency(s, capacity, p, order, calls[0]);
      HistoryKeepsRecency(Apply(s, capacity, calls[0]).0, capacity, PlainApply(p, calls[0]).0,
                          RecencyAfter(order, capacity, p, calls[0]), calls[1..]);
    }
  }

  /** After every history of calls to a fresh store the active contexts are the most recently used ones, in order. */
  lemma ActiveAreMostRecent(capacity: nat, calls: seq<Call>)
    requires 1 <= capacity
    requires forall call :: call in calls ==> CallIsNulFree(call)
    ensures Orders(Answers(Empty, capacity, calls).0.active, Recency([], capacity, Plain(map[], map[]), calls))
  {
    HistoryKeepsRecency(Empty, capacity, Plain(map[], map[]), [], calls);
  }
}
