/** The conversation store as the object whose methods update its maps and its clock in place. */
module ConversationStore {
  import opened Options
  import opened ConversationState
  import opened ConversationSnapshot

  /** Distinct stamps leave no choice of the victim. */
  lemma OldestIsUnique(s: State, j: ContextKey, k: ContextKey)
    requires StampsInv(s) && IsOldest(s.active, j) && IsOldest(s.active, k)
    ensures j == k
  {
  }

  lemma PruneStep(s: State, n: nat)
    requires 0 < n <= |s.active|
    ensures s.active != map[] && Prune(s, n) == Prune(Evict(s, Oldest(s.active)), n - 1)
  {
  }

  lemma {:induction false} NewestCandidateExists(s: State, remaining: set<ContextKey>)
    requires remaining != {} && forall key :: key in remaining ==> Known(s, key)
    ensures exists key :: IsNewestOf(s, remaining, key)
    decreases |remaining|
  {
    var k :| k in remaining;
    var rest := remaining - {k};
    if rest == {} {
      assert remaining == {k};
      assert IsNewestOf(s, remaining, k);
    } else {
      NewestCandidateExists(s, rest);
      var newest :| IsNewestOf(s, rest, newest);
      assert forall j :: j in remaining ==> j == k || j in rest;
      assert IsNewestOf(s, remaining, if Entry(s, newest).lastUsed < Entry(s, k).lastUsed then k else newest);
    }
  }

  predicate IsNewestOf(s: State, remaining: set<ContextKey>, key: ContextKey) {
    && key in remaining
    && (forall k :: k in remaining ==> Known(s, k))
    && (forall k :: k in remaining ==> Entry(s, k).lastUsed <= Entry(s, key).lastUsed)
  }

  lemma EntryKey(s: State, key: ContextKey)
    requires KeysInv(s) && Known(s, key)
    ensures ContextKeyOf(Entry(s, key)) == key
  {
    assert IsKey(key);
    assert key in s.active ==> RecordMatches(key, s.active[key]);
  }

  /** What is listed and what remains make up the candidates. */
  ghost predicate PartialCover(s: State, contexts: seq<Context>, remaining: set<ContextKey>) {
    && (forall key :: key in remaining ==> IsCandidate(s, key) && !Listed(contexts, key))
    && (forall key :: IsCandidate(s, key) ==> key in remaining || Listed(contexts, key))
  }

  /** The list holds the records of candidates, without repetition. */
  ghost predicate PartialRecords(s: State, contexts: seq<Context>) {
    && (forall i :: 0 <= i < |contexts| ==> IsRecord(s, contexts[i]))
    && (forall i, j :: 0 <= i < j < |contexts| ==> ContextKeyOf(contexts[i]) != ContextKeyOf(contexts[j]))
  }

  predicate IsRecord(s: State, context: Context) {
    IsCandidate(s, ContextKeyOf(context)) && context == Entry(s, ContextKeyOf(context))
  }

  /** The list is sorted and no older than what remains. */
  ghost predicate PartialOrder(s: State, contexts: seq<Context>, remaining: set<ContextKey>) {
    && (forall i, j :: 0 <= i < j < |contexts| ==> contexts[j].lastUsed <= contexts[i].lastUsed)
    && (forall key, i :: key in remaining && Known(s, key) && 0 <= i < |contexts| ==>
          Entry(s, key).lastUsed <= contexts[i].lastUsed)
  }

  lemma ListedGrows(contexts: seq<Context>, context: Context, key: ContextKey)
    ensures Listed(contexts + [context], key) <==> Listed(contexts, key) || key == ContextKeyOf(context)
  {
    var longer := contexts + [context];
    assert ContextKeyOf(longer[|contexts|]) == ContextKeyOf(context);
    if Listed(contexts, key) {
      var i :| 0 <= i < |contexts| && ContextKeyOf(contexts[i]) == key;
      assert ContextKeyOf(longer[i]) == key;
    }
  }

  lemma PartialCoverGrows(s: State, contexts: seq<Context>, remaining: set<ContextKey>, key: ContextKey)
    requires KeysInv(s) && PartialCover(s, contexts, remaining) && key in remaining
    ensures PartialCover(s, contexts + [Entry(s, key)], remaining - {key})
  {
    EntryKey(s, key);
    forall k ensures Listed(contexts + [Entry(s, key)], k) <==> Listed(contexts, k) || k == key {
      ListedGrows(contexts, Entry(s, key), k);
    }
  }

  lemma PartialRecordsGrow(s: State, contexts: seq<Context>, key: ContextKey)
    requires KeysInv(s) && PartialRecords(s, contexts) && IsCandidate(s, key) && !Listed(contexts, key)
    ensures PartialRecords(s, contexts + [Entry(s, key)])
  {
    EntryKey(s, key);
    assert IsRecord(s, Entry(s, key));
    assert forall i :: 0 <= i < |contexts| ==> ContextKeyOf(contexts[i]) != key;
  }

  lemma PartialOrderGrows(s: State, contexts: seq<Context>, remaining: set<ContextKey>, key: ContextKey)
    requires PartialOrder(s, contexts, remaining) && IsNewestOf(s, remaining, key)
    ensures PartialOrder(s, contexts + [Entry(s, key)], remaining - {key})
  {
  }

  function TakeLast<T>(items: seq<T>, n: nat): seq<T> {
    if |items| <= n then items else items[|items| - n..]
  }

  /** The pairs kept so far are exactly the supported selections whose conversation is no longer pending. */
  ghost predicate SelectionsSoFar(selections: map<string, string>, names: set<string>, retained: set<ContextKey>,
                                  kept: seq<(string, string)>) {
    && (forall i, j :: 0 <= i < j < |kept| ==> kept[i].0 != kept[j].0)
    && (forall i :: 0 <= i < |kept| ==>
          Supported(selections, names, retained, kept[i].0) && kept[i].1 == selections[kept[i].0])
    && (forall c :: Supported(selections, names, retained, c) ==> exists i :: 0 <= i < |kept| && kept[i].0 == c)
  }

  ghost predicate Supported(selections: map<string, string>, names: set<string>, retained: set<ContextKey>, c: string) {
    c in selections && c !in names && Key(c, selections[c]) in retained
  }

  lemma SelectionsGrow(selections: map<string, string>, names: set<string>, retained: set<ContextKey>,
                       kept: seq<(string, string)>, longer: seq<(string, string)>, c: string)
    requires names <= selections.Keys && c in names && SelectionsSoFar(selections, names, retained, kept)
    requires longer == if Key(c, selections[c]) in retained then kept + [(c, selections[c])] else kept
    ensures SelectionsSoFar(selections, names - {c}, retained, longer)
  {
    forall d | Supported(selections, names - {c}, retained, d)
      ensures exists i :: 0 <= i < |longer| && longer[i].0 == d
    {
      if d == c {
        assert longer[|kept|].0 == d;
      } else {
        assert Supported(selections, names, retained, d);
        var i :| 0 <= i < |kept| && kept[i].0 == d;
        assert longer[i].0 == d;
      }
    }
  }

  lemma SelectionsComplete(s: State, retained: set<ContextKey>, snapshot: Snapshot)
    requires forall key :: key in retained <==> Listed(snapshot.contexts, key)
    requires SelectionsSoFar(s.selections, {}, retained, snapshot.selections)
    ensures ListsSelections(s, snapshot)
  {
    forall c, f
      ensures (c, f) in snapshot.selections <==>
              c in s.selections && s.selections[c] == f && Listed(snapshot.contexts, Key(c, f))
    {
      if c in s.selections && s.selections[c] == f && Listed(snapshot.contexts, Key(c, f)) {
        assert Supported(s.selections, {}, retained, c);
        var i :| 0 <= i < |snapshot.selections| && snapshot.selections[i].0 == c;
        assert snapshot.selections[i] == (c, f);
      }
    }
  }

  class ConversationStore {
    const capacity: nat
    const rules: Rules
    var selections: map<string, string>
    var activeContexts: map<ContextKey, Context>
    var savedCwds: map<ContextKey, SavedCwd>
    var accessClock: nat

    function View(): State
      reads this
    {
      State(selections, activeContexts, savedCwds, accessClock)
    }

    ghost predicate Valid()
      reads this
    {
      1 <= capacity && Good(View(), capacity)
    }

    constructor (capacity: nat, rules: Rules)
      requires 1 <= capacity
      ensures Valid() && View() == Empty && this.capacity == capacity && this.rules == rules
    {
      this.capacity, this.rules := capacity, rules;
      selections, activeContexts, savedCwds, accessClock := map[], map[], map[], 0;
    }

    method NextAccess() returns (stamp: nat)
      modifies this`accessClock
      ensures accessClock == stamp == old(accessClock) + 1
    {
      accessClock := accessClock + 1;
      stamp := accessClock;
    }

    /** `ensureContext`: the key of the context, refreshed or created, with the overflow spilled. */
    method EnsureContext(conversation: string, folder: string) returns (key: ContextKey)
      requires 1 <= capacity && StampsInv(View()) && |activeContexts| <= capacity
      modifies this
      ensures View() == Touch(old(View()), capacity, conversation, folder)
      ensures key == Key(conversation, folder) && key in activeContexts
    {
      ghost var before := View();
      key := Key(conversation, folder);
      if key in activeContexts {
        Refresh(key);
      } else {
        CreateContext(conversation, folder);
        PruneActiveContexts();
      }
      TouchKeepsStamps(before, capacity, conversation, folder);
    }

    method Refresh(key: ContextKey)
      requires key in activeContexts
      modifies this`activeContexts, this`accessClock
      ensures var s := old(View());
              View() == s.(active := s.active[key := s.active[key].(lastUsed := s.clock + 1)], clock := s.clock + 1)
    {
      var stamp := NextAccess();
      activeContexts := activeContexts[key := activeContexts[key].(lastUsed := stamp)];
    }

    /** Takes the directory over from the saved map, or starts at ".". */
    method CreateContext(conversation: string, folder: string)
      requires StampsInv(View()) && Key(conversation, folder) !in activeContexts
      modifies this
      ensures View() == Admit(old(View()), conversation, folder)
      ensures StampsInv(View())
    {
      ghost var before := View();
      AdmitKeepsStamps(before, conversation, folder);
      var key, cwd := Key(conversation, folder), ".";
      if key in savedCwds {
        cwd := savedCwds[key].cwd;
      }
      savedCwds := savedCwds - {key};
      var stamp := NextAccess();
      activeContexts := activeContexts[key := Context(conversation, folder, cwd, stamp)];
    }

    /** Moves the least recently used contexts to the saved map until the capacity is met. */
    method PruneActiveContexts()
      requires StampsInv(View())
      modifies this
      ensures View() == PruneTo(old(View()), capacity)
    {
      if capacity < |activeContexts| {
        SpillMany(|activeContexts| - capacity);
      }
    }

    method SpillMany(removeCount: nat)
      requires StampsInv(View()) && removeCount <= |activeContexts|
      modifies this
      ensures View() == Prune(old(View()), removeCount)
    {
      ghost var pruned := Prune(View(), removeCount);
      for removed := 0 to removeCount
        invariant StampsInv(View()) && removeCount - removed <= |activeContexts|
        invariant Prune(View(), removeCount - removed) == pruned
      {
        PruneStep(View(), removeCount - removed);
        SpillOldest();
      }
    }

    method SpillOldest()
      requires StampsInv(View()) && activeContexts != map[]
      modifies this
      ensures View() == Evict(old(View()), Oldest(old(activeContexts)))
      ensures StampsInv(View()) && |activeContexts| == |old(activeContexts)| - 1
    {
      ghost var before := View();
      OldestExists(activeContexts);
      var victim :| victim in activeContexts &&
        forall k :: k in activeContexts ==> activeContexts[victim].lastUsed <= activeContexts[k].lastUsed;
      Spill(victim);
      OldestIsUnique(before, victim, Oldest(before.active));
      EvictKeepsStamps(before, victim);
      EvictsOne(before, victim);
    }

    method Spill(victim: ContextKey)
      requires victim in activeContexts
      modifies this`activeContexts, this`savedCwds, this`accessClock
      ensures View() == Evict(old(View()), victim)
    {
      var stamp := NextAccess();
      savedCwds := savedCwds[victim := SavedCwd(activeContexts[victim].cwd, stamp)];
      activeContexts := activeContexts - {victim};
    }

    method SelectFolder(conversation: string, folder: string) returns (cwd: string)
      requires Valid() && NulFree(conversation) && NulFree(folder)
      modifies this
      ensures Valid()
      ensures (View(), Text(cwd)) == Apply(old(View()), capacity, Call.SelectFolder(conversation, folder))
    {
      CallKeepsGood(View(), capacity, Call.SelectFolder(conversation, folder));
      ReselectKeepsContexts(View(), selections[conversation := folder]);
      selections := selections[conversation := folder];
      var key := EnsureContext(conversation, folder);
      cwd := activeContexts[key].cwd;
    }

    method CurrentCwd(conversation: string) returns (cwd: Option<string>)
      requires Valid() && NulFree(conversation)
      modifies this
      ensures Valid()
      ensures (View(), if cwd.Some? then Text(cwd.value) else Missing)
           == Apply(old(View()), capacity, Call.CurrentCwd(conversation))
    {
      CallKeepsGood(View(), capacity, Call.CurrentCwd(conversation));
      if conversation in selections && selections[conversation] != "" {
        var key := EnsureContext(conversation, selections[conversation]);
        cwd := Some(activeContexts[key].cwd);
      } else {
        cwd := None;
      }
    }

    method CwdFor(conversation: string, folder: string) returns (cwd: string)
      requires Valid() && NulFree(conversation) && NulFree(folder)
      modifies this
      ensures Valid()
      ensures (View(), Text(cwd)) == Apply(old(View()), capacity, Call.CwdFor(conversation, folder))
    {
      CallKeepsGood(View(), capacity, Call.CwdFor(conversation, folder));
      var key := EnsureContext(conversation, folder);
      cwd := activeContexts[key].cwd;
    }

    method SetCurrentCwd(conversation: string, cwd: string) returns (selected: bool)
      requires Valid() && NulFree(conversation)
      modifies this
      ensures Valid()
      ensures (View(), if selected then Done else FolderNotSelected)
           == Apply(old(View()), capacity, Call.SetCurrentCwd(conversation, cwd))
    {
      CallKeepsGood(View(), capacity, Call.SetCurrentCwd(conversation, cwd));
      selected := conversation in selections && selections[conversation] != "";
      if selected {
        SetFolderCwd(conversation, selections[conversation], cwd);
      }
    }

    method SetFolderCwd(conversation: string, folder: string, cwd: string)
      requires Valid() && NulFree(conversation) && NulFree(folder)
      modifies this
      ensures Valid() && View() == SetCwd(old(View()), capacity, conversation, folder, cwd)
    {
      ghost var before := View();
      var key := EnsureContext(conversation, folder);
      AssignCwd(key, cwd);
      SetCwdKeepsGood(before, capacity, conversation, folder, cwd);
    }

    method AssignCwd(key: ContextKey, cwd: string)
      requires key in activeContexts
      modifies this`activeContexts, this`accessClock
      ensures View() == Assign(old(View()), key, cwd)
    {
      var stamp := NextAccess();
      activeContexts := activeContexts[key := activeContexts[key].(cwd := cwd, lastUsed := stamp)];
    }

    method DeleteConversation(conversation: string) returns (existed: bool)
      requires Valid() && NulFree(conversation)
      modifies this
      ensures Valid()
      ensures View() == Forget(old(View()), conversation)
      ensures existed <==> conversation in old(selections)
    {
      ForgetKeepsGood(View(), capacity, conversation);
      existed := conversation in selections;
      DropConversation(conversation);
    }

    method DropConversation(conversation: string)
      modifies this`selections, this`activeContexts, this`savedCwds
      ensures View() == Forget(old(View()), conversation)
    {
      selections := selections - {conversation};
      DropActive(conversation);
      DropSaved(conversation);
    }

    method DropActive(conversation: string)
      modifies this`activeContexts
      ensures activeContexts == ActiveOfOthers(old(activeContexts), conversation)
    {
      var keys := activeContexts.Keys;
      while keys != {}
        invariant keys <= old(activeContexts).Keys
        invariant activeContexts == map k | k in old(activeContexts)
                    && (k in keys || old(activeContexts)[k].conversation != conversation) :: old(activeContexts)[k]
        decreases keys
      {
        var key :| key in keys;
        keys := keys - {key};
        if activeContexts[key].conversation == conversation {
          activeContexts := activeContexts - {key};
        }
      }
    }

    method DropSaved(conversation: string)
      modifies this`savedCwds
      ensures savedCwds == SavedOfOthers(old(savedCwds), conversation)
    {
      var keys := savedCwds.Keys;
      while keys != {}
        invariant keys <= old(savedCwds).Keys
        invariant savedCwds == map k | k in old(savedCwds)
                    && (k in keys || !EndsWith(k.text, "\0" + conversation)) :: old(savedCwds)[k]
        decreases keys
      {
        var key :| key in keys;
        keys := keys - {key};
        if EndsWith(key.text, "\0" + conversation) {
          savedCwds := savedCwds - {key};
        }
      }
    }

    /** `snapshot`: the newest contexts that may be written, and the selections they support. */
    method TakeSnapshot() returns (snapshot: Snapshot)
      requires Valid()
      ensures IsSnapshot(View(), snapshot)
    {
      var s := View();
      var contexts := NewestContexts();
      var kept := SelectionsWithContext(contexts);
      SelectionsFit(s, Snapshot(kept, contexts));
      snapshot := Snapshot(TakeLast(kept, MAX_PERSISTED_CONVERSATION_CONTEXTS), contexts);
    }

    method NewestContexts() returns (contexts: seq<Context>)
      requires Valid()
      ensures ListsNewest(View(), contexts)
    {
      var s := View();
      var remaining := Candidates(s);
      contexts := [];
      while remaining != {} && |contexts| < MAX_PERSISTED_CONVERSATION_CONTEXTS
        invariant |contexts| <= MAX_PERSISTED_CONVERSATION_CONTEXTS
        invariant PartialRecords(s, contexts)
        invariant PartialCover(s, contexts, remaining) && PartialOrder(s, contexts, remaining)
        decreases remaining
      {
        NewestCandidateExists(s, remaining);
        var key :| key in remaining &&
          forall k :: k in remaining ==> Entry(s, k).lastUsed <= Entry(s, key).lastUsed;
        PartialCoverGrows(s, contexts, remaining, key);
        PartialRecordsGrow(s, contexts, key);
        PartialOrderGrows(s, contexts, remaining, key);
        contexts := contexts + [Entry(s, key)];
        remaining := remaining - {key};
      }
    }

    /** The selections whose context has been retained. */
    method SelectionsWithContext(contexts: seq<Context>) returns (kept: seq<(string, string)>)
      ensures ListsSelections(View(), Snapshot(kept, contexts))
    {
      var retained := set key | key in KeysOf(contexts);
      assert forall key :: key in retained <==> Listed(contexts, key);
      kept := [];
      var names := selections.Keys;
      while names != {}
        invariant names <= selections.Keys
        invariant SelectionsSoFar(selections, names, retained, kept)
        decreases names
      {
        var c :| c in names;
        ghost var shorter := kept;
        if Key(c, selections[c]) in retained {
          kept := kept + [(c, selections[c])];
        }
        SelectionsGrow(selections, names, retained, shorter, kept, c);
        names := names - {c};
      }
      SelectionsComplete(View(), retained, Snapshot(kept, contexts));
    }

    /** `restore`, run once on a new store: every entry is checked before it is taken over. */
    method RestoreFrom(snapshot: Snapshot)
      requires View() == Empty
      modifies this
      ensures View() == Restore(rules, snapshot)
    {
      var contexts := Take(snapshot.contexts, MAX_PERSISTED_CONVERSATION_CONTEXTS);
      for i := 0 to |contexts|
        invariant View() == RestoreContexts(Empty, rules, contexts[..i])
      {
        var item := contexts[i];
        assert contexts[..i + 1][..i] == contexts[..i];
        if rules.Accepts(item) {
          savedCwds := savedCwds[ContextKeyOf(item) := SavedCwd(item.cwd, item.lastUsed)];
          accessClock := Max(accessClock, item.lastUsed);
        }
      }
      assert contexts[..|contexts|] == contexts;
      ghost var filled := View();
      var names := Take(snapshot.selections, MAX_PERSISTED_CONVERSATION_CONTEXTS);
      for i := 0 to |names|
        invariant View() == RestoreSelections(filled, rules, names[..i])
      {
        assert names[..i + 1][..i] == names[..i];
        if rules.AcceptsNames(names[i].0, names[i].1) {
          selections := selections[names[i].0 := names[i].1];
        }
      }
      assert names[..|names|] == names;
    }
  }
}
