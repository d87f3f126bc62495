/**
 Persisting the conversation store: the snapshot keeps the most recently used contexts and the
 selections that still have one; restoring checks every entry and fills the saved map.
 */
module ConversationSnapshot {
  import opened Options
  import opened ConversationState

  const MAX_PERSISTED_CONVERSATION_CONTEXTS: nat := 512
  const HANDLE_PREFIX := "ctmcp-handle:"

  datatype Snapshot = Snapshot(selections: seq<(string, string)>, contexts: seq<Context>)

  predicate IsHandle(conversation: string) {
    HANDLE_PREFIX <= conversation
  }

  /** The record written for a known context. */
  function Entry(s: State, key: ContextKey): Context
    requires Known(s, key)
  {
    if key in s.active then s.active[key]
    else Context(KeyConversation(key), KeyFolder(key), s.saved[key].cwd, s.saved[key].lastUsed)
  }

  /** The contexts that may be written: all known ones that do not belong to a handle. */
  predicate IsCandidate(s: State, key: ContextKey) {
    Known(s, key) && !IsHandle(Entry(s, key).conversation)
  }

  function Candidates(s: State): (keys: set<ContextKey>)
    ensures forall key :: key in keys <==> IsCandidate(s, key)
  {
    set key | key in s.active.Keys + s.saved.Keys && IsCandidate(s, key)
  }

  function ContextKeyOf(context: Context): ContextKey {
    Key(context.conversation, context.folder)
  }

  ghost predicate Listed(contexts: seq<Context>, key: ContextKey) {
    exists i :: 0 <= i < |contexts| && ContextKeyOf(contexts[i]) == key
  }

  /** Candidates without repetition, newest first; whatever is left out is no newer than what is listed. */
  ghost predicate ListsNewest(s: State, contexts: seq<Context>) {
    && |contexts| <= MAX_PERSISTED_CONVERSATION_CONTEXTS
    && (forall i :: 0 <= i < |contexts| ==>
          IsCandidate(s, ContextKeyOf(contexts[i])) && contexts[i] == Entry(s, ContextKeyOf(contexts[i])))
    && (forall i, j :: 0 <= i < j < |contexts| ==> ContextKeyOf(contexts[i]) != ContextKeyOf(contexts[j]))
    && (forall i, j :: 0 <= i < j < |contexts| ==> contexts[j].lastUsed <= contexts[i].lastUsed)
    && (forall key :: IsCandidate(s, key) && !Listed(contexts, key) ==>
          && |contexts| == MAX_PERSISTED_CONVERSATION_CONTEXTS
          && forall i :: 0 <= i < |contexts| ==> Entry(s, key).lastUsed <= contexts[i].lastUsed)
  }

  /** Exactly the selections whose context is listed, without repetition. */
  ghost predicate ListsSelections(s: State, snapshot: Snapshot) {
    && (forall i, j :: 0 <= i < j < |snapshot.selections| ==> snapshot.selections[i].0 != snapshot.selections[j].0)
    && (forall c, f :: (c, f) in snapshot.selections <==>
          c in s.selections && s.selections[c] == f && Listed(snapshot.contexts, Key(c, f)))
  }

  ghost predicate IsSnapshot(s: State, snapshot: Snapshot) {
    ListsNewest(s, snapshot.contexts) && ListsSelections(s, snapshot)
  }

  // ----- counting -----

  /** Distinct elements of a set are no more than the set has. */
  lemma {:induction false} DistinctFit<T>(items: seq<T>, room: set<T>)
    requires forall i, j :: 0 <= i < j < |items| ==> items[i] != items[j]
    requires forall i :: 0 <= i < |items| ==> items[i] in room
    ensures |items| <= |room|
  {
    if items != [] {
      var n := |items| - 1;
      DistinctFit(items[..n], room - {items[n]});
    }
  }

  function KeysOf(contexts: seq<Context>): (keys: seq<ContextKey>)
    ensures |keys| == |contexts|
    ensures forall i :: 0 <= i < |contexts| ==> keys[i] == ContextKeyOf(contexts[i])
  {
    seq(|contexts|, i requires 0 <= i < |contexts| => ContextKeyOf(contexts[i]))
  }

  /** With at most as many candidates as the snapshot holds, every candidate is listed. */
  lemma FewCandidatesAreAllListed(s: State, contexts: seq<Context>, key: ContextKey)
    requires ListsNewest(s, contexts)
    requires |Candidates(s)| <= MAX_PERSISTED_CONVERSATION_CONTEXTS
    requires IsCandidate(s, key)
    ensures Listed(contexts, key)
  {
    if !Listed(contexts, key) {
      DistinctFit(KeysOf(contexts), Candidates(s) - {key});
    }
  }

  // ----- restoring -----

  predicate IsSlash(c: char) {
    c == '/' || c == '\\'
  }

  /** Some part between slashes is "..". */
  predicate HasParentPart(path: string) {
    exists i {:trigger path[i]} :: 0 <= i < |path| - 1
      && path[i] == '.' && path[i + 1] == '.'
      && (i == 0 || IsSlash(path[i - 1]))
      && (i + 2 == |path| || IsSlash(path[i + 2]))
  }

  predicate ValidKey(text: string) {
    0 < |text| <= 512 && NulFree(text)
  }

  predicate ValidCwd(cwd: string, isAbsolute: string -> bool) {
    0 < |cwd| <= 4096 && NulFree(cwd) && !isAbsolute(cwd) && !HasParentPart(cwd)
  }

  /** What restoring checks against: the folders of the workspace and the platform's absolute paths. */
  datatype Rules = Rules(allowedFolders: Option<set<string>>, isAbsolute: string -> bool)
  {
    predicate AcceptsNames(conversation: string, folder: string) {
      && ValidKey(conversation) && ValidKey(folder)
      && !IsHandle(conversation)
      && (allowedFolders.Some? ==> folder in allowedFolders.value)
    }

    predicate Accepts(context: Context) {
      AcceptsNames(context.conversation, context.folder) && ValidCwd(context.cwd, isAbsolute)
    }
  }

  function Take<T>(items: seq<T>, n: nat): seq<T> {
    if |items| <= n then items else items[..n]
  }

  function RestoreContexts(s: State, rules: Rules, contexts: seq<Context>): State {
    if contexts == [] then s
    else
      var rest, last := RestoreContexts(s, rules, contexts[..|contexts| - 1]), contexts[|contexts| - 1];
      if rules.Accepts(last) then
        rest.(saved := rest.saved[ContextKeyOf(last) := SavedCwd(last.cwd, last.lastUsed)],
              clock := Max(rest.clock, last.lastUsed))
      else rest
  }

  function RestoreSelections(s: State, rules: Rules, selections: seq<(string, string)>): State {
    if selections == [] then s
    else
      var rest, last := RestoreSelections(s, rules, selections[..|selections| - 1]), selections[|selections| - 1];
      if rules.AcceptsNames(last.0, last.1) then rest.(selections := rest.selections[last.0 := last.1]) else rest
  }

  function Restore(rules: Rules, snapshot: Snapshot): State {
    RestoreSelections(
      RestoreContexts(Empty, rules, Take(snapshot.contexts, MAX_PERSISTED_CONVERSATION_CONTEXTS)),
      rules, Take(snapshot.selections, MAX_PERSISTED_CONVERSATION_CONTEXTS))
  }

  /** A context that is accepted is listed under the key. */
  ghost predicate ListedAndAccepted(rules: Rules, contexts: seq<Context>, key: ContextKey) {
    exists i :: 0 <= i < |contexts| && rules.Accepts(contexts[i]) && ContextKeyOf(contexts[i]) == key
  }

  lemma {:induction false} RestoredKeys(rules: Rules, contexts: seq<Context>, key: ContextKey)
    ensures var r := RestoreContexts(Empty, rules, contexts);
            && r.active == map[] && r.selections == map[]
            && (key in r.saved <==> ListedAndAccepted(rules, contexts, key))
            && (key in r.saved ==> r.saved[key].lastUsed <= r.clock)
  {
    if contexts != [] {
      var n := |contexts| - 1;
      RestoredKeys(rules, contexts[..n], key);
      assert ListedAndAccepted(rules, contexts, key) <==>
               ListedAndAccepted(rules, contexts[..n], key)
               || (rules.Accepts(contexts[n]) && key == ContextKeyOf(contexts[n]));
    }
  }

  lemma {:induction false} RestoredEntry(rules: Rules, contexts: seq<Context>, i: nat)
    requires i < |contexts| && rules.Accepts(contexts[i])
    requires forall j :: i < j < |contexts| ==> ContextKeyOf(contexts[j]) != ContextKeyOf(contexts[i])
    ensures var saved := RestoreContexts(Empty, rules, contexts).saved; var key := ContextKeyOf(contexts[i]);
            key in saved && saved[key] == SavedCwd(contexts[i].cwd, contexts[i].lastUsed)
  {
    var n := |contexts| - 1;
    if i < n {
      RestoredEntry(rules, contexts[..n], i);
    }
  }

  lemma {:induction false} RestoredSelections(s: State, rules: Rules, selections: seq<(string, string)>)
    requires s.selections == map[]
    requires forall i, j :: 0 <= i < j < |selections| ==> selections[i].0 != selections[j].0
    ensures var r := RestoreSelections(s, rules, selections);
            && r == s.(selections := r.selections)
            && forall c, f :: c in r.selections && r.selections[c] == f <==>
                 (c, f) in selections && rules.AcceptsNames(c, f)
  {
    if selections != [] {
      var n := |selections| - 1;
      RestoredSelections(s, rules, selections[..n]);
      assert selections == selections[..n] + [selections[n]];
    }
  }

  /** An accepted context answers as before, and any other one with the default. */
  lemma RestoredAnswer(s: State, rules: Rules, snapshot: Snapshot, key: ContextKey)
    requires IsSnapshot(s, snapshot)
    ensures var saved := RestoreContexts(Empty, rules, snapshot.contexts);
            CwdAt(saved, key) == if ListedAndAccepted(rules, snapshot.contexts, key) then CwdAt(s, key) else "."
    ensures ListedAndAccepted(rules, snapshot.contexts, key) <==>
              Listed(snapshot.contexts, key) && IsCandidate(s, key) && rules.Accepts(Entry(s, key))
  {
    RestoredKeys(rules, snapshot.contexts, key);
    if ListedAndAccepted(rules, snapshot.contexts, key) {
      var i :| 0 <= i < |snapshot.contexts| && rules.Accepts(snapshot.contexts[i])
               && ContextKeyOf(snapshot.contexts[i]) == key;
      RestoredEntry(rules, snapshot.contexts, i);
    }
    if Listed(snapshot.contexts, key) {
      var i :| 0 <= i < |snapshot.contexts| && ContextKeyOf(snapshot.contexts[i]) == key;
      assert snapshot.contexts[i] == Entry(s, key);
    }
  }

  /** The persisted selections fit as well: each one has its own listed context. */
  lemma SelectionsFit(s: State, snapshot: Snapshot)
    requires IsSnapshot(s, snapshot) && SelectionsInv(s)
    ensures |snapshot.selections| <= |snapshot.contexts|
  {
    var keys := seq(|snapshot.selections|, i requires 0 <= i < |snapshot.selections| =>
      Key(snapshot.selections[i].0, snapshot.selections[i].1));
    var listed := set k | k in KeysOf(snapshot.contexts);
    forall i | 0 <= i < |keys| ensures keys[i] in listed {
      assert snapshot.selections[i] in snapshot.selections;
      var (c, f) := snapshot.selections[i];
      assert Listed(snapshot.contexts, Key(c, f));
      var j :| 0 <= j < |snapshot.contexts| && ContextKeyOf(snapshot.contexts[j]) == Key(c, f);
      assert KeysOf(snapshot.contexts)[j] == keys[i];
    }
    forall i, j | 0 <= i < j < |keys| ensures keys[i] != keys[j] {
      assert snapshot.selections[i] in snapshot.selections && snapshot.selections[j] in snapshot.selections;
      KeyParts(snapshot.selections[i].0, snapshot.selections[i].1);
      KeyParts(snapshot.selections[j].0, snapshot.selections[j].1);
    }
    DistinctFit(keys, listed);
    ElementsAtMostLength(KeysOf(snapshot.contexts));
  }

  lemma {:induction false} ElementsAtMostLength<T>(items: seq<T>)
    ensures |set x | x in items| <= |items|
  {
    if items != [] {
      var n := |items| - 1;
      ElementsAtMostLength(items[..n]);
      assert (set x | x in items) == (set x | x in items[..n]) + {items[n]};
    }
  }

  /**
   Restoring a snapshot of at most 512 contexts, context by context: one that is accepted answers as before, any
   other one, a handle's included, with the default; a selection is back exactly if its names are accepted.
   */
  lemma RestoreAnswersAlike(s: State, capacity: nat, rules: Rules, snapshot: Snapshot, c: string, f: string)
    requires Good(s, capacity) && IsSnapshot(s, snapshot)
    requires |Candidates(s)| <= MAX_PERSISTED_CONVERSATION_CONTEXTS
    requires NulFree(c) && NulFree(f)
    ensures var r, key := Restore(rules, snapshot), Key(c, f);
            && Cwd(r, c, f) == (if Known(s, key) && rules.Accepts(Entry(s, key)) then Cwd(s, c, f) else ".")
            && (c in r.selections && r.selections[c] == f <==>
                 c in s.selections && s.selections[c] == f && rules.AcceptsNames(c, f))
  {
    RestoreAnswersCwdAlike(s, rules, snapshot, c, f);
    RestoreSelectsAlike(s, rules, snapshot, c, f);
  }

  lemma RestoreAnswersCwdAlike(s: State, rules: Rules, snapshot: Snapshot, c: string, f: string)
    requires KeysInv(s) && SelectionsInv(s) && IsSnapshot(s, snapshot)
    requires |Candidates(s)| <= MAX_PERSISTED_CONVERSATION_CONTEXTS
    requires NulFree(f)
    ensures var key := Key(c, f);
            Cwd(Restore(rules, snapshot), c, f) ==
              if Known(s, key) && rules.Accepts(Entry(s, key)) then Cwd(s, c, f) else "."
  {
    RestoreIsBoth(s, rules, snapshot);
    RestoredAnswer(s, rules, snapshot, Key(c, f));
    if IsCandidate(s, Key(c, f)) {
      FewCandidatesAreAllListed(s, snapshot.contexts, Key(c, f));
    }
  }

  lemma RestoreSelectsAlike(s: State, rules: Rules, snapshot: Snapshot, c: string, f: string)
    requires KeysInv(s) && SelectionsInv(s) && IsSnapshot(s, snapshot)
    requires |Candidates(s)| <= MAX_PERSISTED_CONVERSATION_CONTEXTS
    ensures var r := Restore(rules, snapshot);
            c in r.selections && r.selections[c] == f <==>
              c in s.selections && s.selections[c] == f && rules.AcceptsNames(c, f)
  {
    RestoredSelection(s, rules, snapshot, c, f);
    if rules.AcceptsNames(c, f) {
      SelectionIsListed(s, snapshot, c, f);
    }
  }

  lemma RestoredSelection(s: State, rules: Rules, snapshot: Snapshot, c: string, f: string)
    requires IsSnapshot(s, snapshot) && SelectionsInv(s) && KeysInv(s)
    ensures var selections := Restore(rules, snapshot).selections;
            c in selections && selections[c] == f <==> (c, f) in snapshot.selections && rules.AcceptsNames(c, f)
  {
    RestoreIsBoth(s, rules, snapshot);
  }

  /** The snapshot lists the selections of a conversation that is not a handle. */
  lemma SelectionIsListed(s: State, snapshot: Snapshot, c: string, f: string)
    requires KeysInv(s) && SelectionsInv(s) && IsSnapshot(s, snapshot) && !IsHandle(c)
    requires |Candidates(s)| <= MAX_PERSISTED_CONVERSATION_CONTEXTS
    ensures (c, f) in snapshot.selections <==> c in s.selections && s.selections[c] == f
  {
    if c in s.selections && s.selections[c] == f {
      CandidateOf(s, c, f);
      FewCandidatesAreAllListed(s, snapshot.contexts, Key(c, f));
    }
  }

  /** A known context of a conversation that is not a handle may be written. */
  lemma CandidateOf(s: State, c: string, f: string)
    requires KeysInv(s) && NulFree(f) && !IsHandle(c) && Known(s, Key(c, f))
    ensures IsCandidate(s, Key(c, f))
  {
    KeyParts(c, f);
    if Key(c, f) in s.active {
      assert RecordMatches(Key(c, f), s.active[Key(c, f)]);
    }
  }

  /** Neither list is cut: the accepted contexts and then the accepted selections are taken over. */
  lemma RestoreIsBoth(s: State, rules: Rules, snapshot: Snapshot)
    requires IsSnapshot(s, snapshot) && SelectionsInv(s) && KeysInv(s)
    ensures var r := Restore(rules, snapshot);
            && r == RestoreContexts(Empty, rules, snapshot.contexts).(selections := r.selections)
            && forall c, f :: c in r.selections && r.selections[c] == f <==>
                 (c, f) in snapshot.selections && rules.AcceptsNames(c, f)
  {
    SelectionsFit(s, snapshot);
    RestoredKeys(rules, snapshot.contexts, ContextKey(""));
    RestoredSelections(RestoreContexts(Empty, rules, snapshot.contexts), rules, snapshot.selections);
  }

  lemma RestoredContextsAreGood(s: State, rules: Rules, snapshot: Snapshot)
    requires IsSnapshot(s, snapshot) && KeysInv(s)
    ensures var r := RestoreContexts(Empty, rules, snapshot.contexts); KeysInv(r) && StampsInv(r)
  {
    var r := RestoreContexts(Empty, rules, snapshot.contexts);
    RestoredKeys(rules, snapshot.contexts, ContextKey(""));
    forall key | Known(r, key) ensures IsKey(key) {
      RestoredKeys(rules, snapshot.contexts, key);
      assert Known(s, key);
    }
    forall key | key in r.saved ensures r.saved[key].lastUsed <= r.clock {
      RestoredKeys(rules, snapshot.contexts, key);
    }
  }

  /** Every selection that is accepted has a context that is accepted too. */
  ghost predicate SelectionsKeepContexts(s: State, rules: Rules, snapshot: Snapshot) {
    forall c, f :: (c, f) in snapshot.selections && rules.AcceptsNames(c, f) ==>
      Known(s, Key(c, f)) && rules.Accepts(Entry(s, Key(c, f)))
  }

  /**
   The restored store is a valid one again, so it can be used, saved and restored in turn, if and only if no
   accepted selection has lost its context to a directory that is not accepted.
   */
  lemma RestoredStoreIsGood(s: State, capacity: nat, rules: Rules, snapshot: Snapshot)
    requires Good(s, capacity) && IsSnapshot(s, snapshot)
    ensures Good(Restore(rules, snapshot), capacity) <==> SelectionsKeepContexts(s, rules, snapshot)
  {
    RestoredKeysAndStamps(s, rules, snapshot);
    if SelectionsKeepContexts(s, rules, snapshot) {
      KeptContextsAreKnown(s, rules, snapshot);
    } else {
      LostContextIsUnknown(s, rules, snapshot);
    }
  }

  lemma RestoredKeysAndStamps(s: State, rules: Rules, snapshot: Snapshot)
    requires IsSnapshot(s, snapshot) && SelectionsInv(s) && KeysInv(s)
    ensures var r := Restore(rules, snapshot); KeysInv(r) && StampsInv(r) && r.active == map[]
  {
    RestoreIsBoth(s, rules, snapshot);
    RestoredContextsAreGood(s, rules, snapshot);
    ReselectKeepsContexts(RestoreContexts(Empty, rules, snapshot.contexts), Restore(rules, snapshot).selections);
    RestoredKeys(rules, snapshot.contexts, ContextKey(""));
  }

  lemma KeptContextsAreKnown(s: State, rules: Rules, snapshot: Snapshot)
    requires IsSnapshot(s, snapshot) && SelectionsInv(s) && KeysInv(s) && SelectionsKeepContexts(s, rules, snapshot)
    ensures SelectionsInv(Restore(rules, snapshot))
  {
    var r := Restore(rules, snapshot);
    forall c | c in r.selections
      ensures NulFree(c) && NulFree(r.selections[c]) && Known(r, Key(c, r.selections[c]))
    {
      RestoredSelection(s, rules, snapshot, c, r.selections[c]);
      SelectionKeepsContext(s, rules, snapshot, c, r.selections[c]);
    }
  }

  lemma LostContextIsUnknown(s: State, rules: Rules, snapshot: Snapshot)
    requires IsSnapshot(s, snapshot) && SelectionsInv(s) && KeysInv(s) && !SelectionsKeepContexts(s, rules, snapshot)
    ensures !SelectionsInv(Restore(rules, snapshot))
  {
    var c, f :| (c, f) in snapshot.selections && rules.AcceptsNames(c, f)
                && !(Known(s, Key(c, f)) && rules.Accepts(Entry(s, Key(c, f))));
    RestoredSelection(s, rules, snapshot, c, f);
    SelectionKeepsContext(s, rules, snapshot, c, f);
  }

  lemma SelectionKeepsContext(s: State, rules: Rules, snapshot: Snapshot, c: string, f: string)
    requires IsSnapshot(s, snapshot) && SelectionsInv(s) && KeysInv(s)
    requires (c, f) in snapshot.selections
    ensures NulFree(c) && NulFree(f) && Known(s, Key(c, f))
    ensures Known(Restore(rules, snapshot), Key(c, f)) <==> rules.Accepts(Entry(s, Key(c, f)))
    ensures Cwd(Restore(rules, snapshot), c, f) == if rules.Accepts(Entry(s, Key(c, f))) then Cwd(s, c, f) else "."
  {
    assert c in s.selections && s.selections[c] == f && Listed(snapshot.contexts, Key(c, f));
    RestoreIsBoth(s, rules, snapshot);
    RestoredKeys(rules, snapshot.contexts, Key(c, f));
    RestoredAnswer(s, rules, snapshot, Key(c, f));
  }

  /**
   However many contexts there are, every selection that is back is the one there was, and its context is back
   with its directory exactly if that is accepted.
   */
  lemma PersistedSelectionsKeepTheirContext(s: State, capacity: nat, rules: Rules, snapshot: Snapshot, c: string)
    requires Good(s, capacity) && IsSnapshot(s, snapshot)
    requires c in Restore(rules, snapshot).selections
    ensures var r := Restore(rules, snapshot); var f := r.selections[c];
            && c in s.selections && f == s.selections[c] && Known(s, Key(c, f))
            && (Known(r, Key(c, f)) <==> rules.Accepts(Entry(s, Key(c, f))))
            && Cwd(r, c, f) == if rules.Accepts(Entry(s, Key(c, f))) then Cwd(s, c, f) else "."
  {
    var r := Restore(rules, snapshot);
    RestoredSelection(s, rules, snapshot, c, r.selections[c]);
    SelectionKeepsContext(s, rules, snapshot, c, r.selections[c]);
  }
}
