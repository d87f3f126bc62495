/**
 The conversation store: working directories per (conversation, folder), kept in a least-recently-used
 map of active contexts that spills into a map of saved directories. The reference it is compared with
 is one plain map that never evicts anything.
 */
module ConversationState {
  import opened Options

  datatype Context = Context(conversation: string, folder: string, cwd: string, lastUsed: nat)
  datatype SavedCwd = SavedCwd(cwd: string, lastUsed: nat)

  datatype State = State(
    selections: map<string, string>,
    active: map<ContextKey, Context>,
    saved: map<ContextKey, SavedCwd>,
    clock: nat)

  const Empty := State(map[], map[], map[], 0)

  // ----- context keys -----

  predicate NulFree(text: string) {
    '\0' !in text
  }

  /** The string under which a context is kept. */
  datatype ContextKey = ContextKey(text: string)

  function Key(conversation: string, folder: string): ContextKey {
    ContextKey(folder + "\0" + conversation)
  }

  function IndexOfNul(text: string): (i: nat)
    ensures i <= |text|
    ensures i < |text| ==> text[i] == '\0'
    ensures forall j :: 0 <= j < i ==> text[j] != '\0'
  {
    if text == "" || text[0] == '\0' then 0 else IndexOfNul(text[1..]) + 1
  }

  function KeyFolder(key: ContextKey): string {
    key.text[..IndexOfNul(key.text)]
  }

  function KeyConversation(key: ContextKey): string {
    var i := IndexOfNul(key.text);
    if i < |key.text| then key.text[i + 1..] else key.text
  }

  /** A key gives back its parts, so NUL-free folders make keys injective. */
  lemma KeyParts(conversation: string, folder: string)
    requires NulFree(folder)
    ensures KeyFolder(Key(conversation, folder)) == folder
    ensures KeyConversation(Key(conversation, folder)) == conversation
  {
    var key := Key(conversation, folder).text;
    var i := IndexOfNul(key);
    assert key[|folder|] == '\0';
    assert forall j :: 0 <= j < |folder| ==> key[j] == folder[j];
    assert key[..|folder|] == folder && key[|folder| + 1..] == conversation;
  }

  predicate EndsWith(text: string, suffix: string) {
    |suffix| <= |text| && text[|text| - |suffix|..] == suffix
  }

  /** The suffix test of `deleteConversation` finds exactly the keys of one conversation. */
  lemma SuffixIdentifiesConversation(conversation: string, folder: string, other: string)
    requires NulFree(conversation) && NulFree(folder) && NulFree(other)
    ensures EndsWith(Key(conversation, folder).text, "\0" + other) <==> conversation == other
  {
    var key, suffix := Key(conversation, folder).text, "\0" + other;
    assert key[|folder|..] == "\0" + conversation;
    if EndsWith(key, suffix) {
      var start := |key| - |suffix|;
      assert key[start] == suffix[0] == '\0';
      assert forall j :: 0 <= j < |folder| ==> key[j] == folder[j];
      assert forall j :: 0 <= j < |conversation| ==> key[|folder| + 1 + j] == conversation[j];
      assert start == |folder|;
      assert suffix[1..] == other && ("\0" + conversation)[1..] == conversation;
    }
  }

  // ----- the operations as functions on the state -----

  /** `peekCwdFor`: what the store answers for a context, wherever it is kept. */
  function Cwd(s: State, conversation: string, folder: string): string {
    CwdAt(s, Key(conversation, folder))
  }

  function CwdAt(s: State, key: ContextKey): string {
    if key in s.active then s.active[key].cwd
    else if key in s.saved then s.saved[key].cwd
    else "."
  }

  ghost predicate IsOldest(active: map<ContextKey, Context>, key: ContextKey) {
    key in active && forall k :: k in active ==> active[key].lastUsed <= active[k].lastUsed
  }

  lemma {:induction false} OldestExists(active: map<ContextKey, Context>)
    requires active != map[]
    ensures exists key :: IsOldest(active, key)
    decreases |active|
  {
    var k :| k in active;
    var rest := active - {k};
    if rest == map[] {
      assert forall j :: j in active ==> j == k || j in rest;
      assert IsOldest(active, k);
    } else {
      OldestExists(rest);
      var oldest :| IsOldest(rest, oldest);
      assert forall j :: j in active ==> j == k || j in rest;
      assert IsOldest(active, if active[k].lastUsed < active[oldest].lastUsed then k else oldest);
    }
  }

  ghost function Oldest(active: map<ContextKey, Context>): (key: ContextKey)
    requires active != map[]
    ensures IsOldest(active, key)
  {
    OldestExists(active);
    var key :| IsOldest(active, key);
    key
  }

  function Evict(s: State, key: ContextKey): State
    requires key in s.active
  {
    s.(active := s.active - {key},
       saved := s.saved[key := SavedCwd(s.active[key].cwd, s.clock + 1)],
       clock := s.clock + 1)
  }

  /** Evicts the `n` least recently used contexts, the oldest first. */
  ghost function Prune(s: State, n: nat): State
    decreases n
  {
    if n == 0 || s.active == map[] then s
    else Prune(Evict(s, Oldest(s.active)), n - 1)
  }

  ghost function PruneTo(s: State, capacity: nat): State {
    if capacity < |s.active| then Prune(s, |s.active| - capacity) else s
  }

  /** `ensureContext`. */
  ghost function Touch(s: State, capacity: nat, conversation: string, folder: string): State {
    var key := Key(conversation, folder);
    if key in s.active then
      s.(active := s.active[key := s.active[key].(lastUsed := s.clock + 1)], clock := s.clock + 1)
    else
      var cwd := if key in s.saved then s.saved[key].cwd else ".";
      PruneTo(State(s.selections,
                    s.active[key := Context(conversation, folder, cwd, s.clock + 1)],
                    s.saved - {key},
                    s.clock + 1), capacity)
  }

  /** The assignments of `setFolderCwd` after `ensureContext`: they reach the map only if the context is still there. */
  function Assign(s: State, key: ContextKey, cwd: string): State {
    if key in s.active then
      s.(active := s.active[key := s.active[key].(cwd := cwd, lastUsed := s.clock + 1)], clock := s.clock + 1)
    else s.(clock := s.clock + 1)
  }

  ghost function SetCwd(s: State, capacity: nat, conversation: string, folder: string, cwd: string): State {
    Assign(Touch(s, capacity, conversation, folder), Key(conversation, folder), cwd)
  }

  function ActiveOfOthers(active: map<ContextKey, Context>, conversation: string): map<ContextKey, Context> {
    map k | k in active && active[k].conversation != conversation :: active[k]
  }

  function SavedOfOthers(saved: map<ContextKey, SavedCwd>, conversation: string): map<ContextKey, SavedCwd> {
    map k | k in saved && !EndsWith(k.text, "\0" + conversation) :: saved[k]
  }

  function Forget(s: State, conversation: string): State {
    State(s.selections - {conversation}, ActiveOfOthers(s.active, conversation), SavedOfOthers(s.saved, conversation),
          s.clock)
  }

  datatype Call =
    | SelectFolder(conversation: string, folder: string)
    | SelectedFolder(conversation: string)
    | CurrentCwd(conversation: string)
    | CwdFor(conversation: string, folder: string)
    | PeekCwdFor(conversation: string, folder: string)
    | SetCurrentCwd(conversation: string, cwd: string)
    | SetFolderCwd(conversation: string, folder: string, cwd: string)
    | DeleteConversation(conversation: string)
    | Clear

  datatype Answer = Text(text: string) | Missing | Flag(flag: bool) | Done | FolderNotSelected

  predicate CallIsNulFree(call: Call) {
    match call
    case SelectFolder(c, f) => NulFree(c) && NulFree(f)
    case SelectedFolder(c) => NulFree(c)
    case CurrentCwd(c) => NulFree(c)
    case CwdFor(c, f) => NulFree(c) && NulFree(f)
    case PeekCwdFor(c, f) => NulFree(c) && NulFree(f)
    case SetCurrentCwd(c, _) => NulFree(c)
    case SetFolderCwd(c, f, _) => NulFree(c) && NulFree(f)
    case DeleteConversation(c) => NulFree(c)
    case Clear => true
  }

  /** The selected folder, where an empty folder name counts as none. */
  function Selection(selections: map<string, string>, conversation: string): Option<string> {
    if conversation in selections && selections[conversation] != "" then Some(selections[conversation]) else None
  }

  ghost function Apply(s: State, capacity: nat, call: Call): (State, Answer) {
    match call
    case SelectFolder(c, f) =>
      var s' := Touch(s.(selections := s.selections[c := f]), capacity, c, f);
      (s', Text(Cwd(s', c, f)))
    case SelectedFolder(c) => (s, if c in s.selections then Text(s.selections[c]) else Missing)
    case CurrentCwd(c) =>
      (match Selection(s.selections, c)
       case None => (s, Missing)
       case Some(f) => var s' := Touch(s, capacity, c, f); (s', Text(Cwd(s', c, f))))
    case CwdFor(c, f) => var s' := Touch(s, capacity, c, f); (s', Text(Cwd(s', c, f)))
    case PeekCwdFor(c, f) => (s, Text(Cwd(s, c, f)))
    case SetCurrentCwd(c, cwd) =>
      (match Selection(s.selections, c)
       case None => (s, FolderNotSelected)
       case Some(f) => (SetCwd(s, capacity, c, f, cwd), Done))
    case SetFolderCwd(c, f, cwd) => (SetCwd(s, capacity, c, f, cwd), Done)
    case DeleteConversation(c) => (Forget(s, c), Flag(c in s.selections))
    case Clear => (Empty.(clock := s.clock), Done)
  }

  // ----- the plain map -----

  /** The reference: selections and one map of directories, with no capacity, no stamps and no spill. */
  datatype Plain = Plain(selections: map<string, string>, cwds: map<(string, string), string>)

  function PlainCwd(p: Plain, conversation: string, folder: string): string {
    if (conversation, folder) in p.cwds then p.cwds[(conversation, folder)] else "."
  }

  function PlainApply(p: Plain, call: Call): (Plain, Answer) {
    match call
    case SelectFolder(c, f) => (p.(selections := p.selections[c := f]), Text(PlainCwd(p, c, f)))
    case SelectedFolder(c) => (p, if c in p.selections then Text(p.selections[c]) else Missing)
    case CurrentCwd(c) =>
      if c !in p.selections || p.selections[c] == "" then (p, Missing)
      else (p, Text(PlainCwd(p, c, p.selections[c])))
    case CwdFor(c, f) => (p, Text(PlainCwd(p, c, f)))
    case PeekCwdFor(c, f) => (p, Text(PlainCwd(p, c, f)))
    case SetCurrentCwd(c, cwd) =>
      if c !in p.selections || p.selections[c] == "" then (p, FolderNotSelected)
      else (p.(cwds := p.cwds[(c, p.selections[c]) := cwd]), Done)
    case SetFolderCwd(c, f, cwd) => (p.(cwds := p.cwds[(c, f) := cwd]), Done)
    case DeleteConversation(c) =>
      (Plain(p.selections - {c}, map k | k in p.cwds && k.0 != c :: p.cwds[k]), Flag(c in p.selections))
    case Clear => (Plain(map[], map[]), Done)
  }

  ghost predicate Agree(s: State, p: Plain) {
    && s.selections == p.selections
    && forall c, f :: NulFree(c) && NulFree(f) ==> Cwd(s, c, f) == PlainCwd(p, c, f)
  }

  // ----- the invariant -----

  /** The context is kept in one of the two maps. */
  predicate Known(s: State, key: ContextKey) {
    key in s.active || key in s.saved
  }

  ghost predicate IsKey(key: ContextKey) {
    && NulFree(KeyFolder(key)) && NulFree(KeyConversation(key))
    && key == Key(KeyConversation(key), KeyFolder(key))
  }

  /** Every context is kept under its own key. */
  ghost predicate KeysInv(s: State) {
    && (forall k :: k in s.active ==> RecordMatches(k, s.active[k]))
    && (forall k :: Known(s, k) ==> IsKey(k))
  }

  ghost predicate RecordMatches(key: ContextKey, context: Context) {
    context.conversation == KeyConversation(key) && context.folder == KeyFolder(key)
  }

  /** A context is active or saved, stamps never run ahead of the clock, and active contexts never share one. */
  ghost predicate StampsInv(s: State) {
    && s.active.Keys !! s.saved.Keys
    && (forall k :: k in s.active ==> s.active[k].lastUsed <= s.clock)
    && (forall k :: k in s.saved ==> s.saved[k].lastUsed <= s.clock)
    && (forall j, k :: j in s.active && k in s.active && j != k ==> s.active[j].lastUsed != s.active[k].lastUsed)
  }

  /** Every selection has its context. */
  ghost predicate SelectionsInv(s: State) {
    forall c :: c in s.selections ==>
      NulFree(c) && NulFree(s.selections[c]) && Known(s, Key(c, s.selections[c]))
  }

  ghost predicate Inv(s: State) {
    KeysInv(s) && StampsInv(s) && SelectionsInv(s)
  }

  ghost predicate SameAnswers(s: State, s': State) {
    forall key :: CwdAt(s', key) == CwdAt(s, key)
  }

  /** Contexts may have moved to the saved map, but no answer, selection or active record has changed. */
  ghost predicate OnlySpilled(s: State, s': State) {
    && s'.selections == s.selections
    && (forall key :: Known(s', key) <==> Known(s, key))
    && SameAnswers(s, s')
    && (forall key :: key in s'.active ==> key in s.active && s'.active[key] == s.active[key])
  }

  lemma EvictKeepsStamps(s: State, key: ContextKey)
    requires StampsInv(s) && key in s.active
    ensures StampsInv(Evict(s, key))
    ensures |Evict(s, key).active| == |s.active| - 1
  {
    var s' := Evict(s, key);
    assert forall k :: k in s'.active ==> k in s.active && s'.active[k] == s.active[k];
    assert s'.active.Keys == s.active.Keys - {key};
  }

  /** Eviction is invisible: it moves one context to the saved map and keeps every answer. */
  lemma EvictOnlySpills(s: State, key: ContextKey)
    requires StampsInv(s) && key in s.active
    ensures OnlySpilled(s, Evict(s, key))
  {
    var s' := Evict(s, key);
  }

  ghost predicate IsNewest(active: map<ContextKey, Context>, key: ContextKey) {
    key in active && forall k :: k in active ==> active[k].lastUsed <= active[key].lastUsed
  }

  lemma SpillingTwice(s: State, s': State, s'': State)
    requires OnlySpilled(s, s') && OnlySpilled(s', s'')
    ensures OnlySpilled(s, s'')
  {
    assert forall key :: CwdAt(s'', key) == CwdAt(s', key) == CwdAt(s, key);
    assert forall key :: Known(s'', key) <==> Known(s', key);
  }

  /** The most recently used context survives pruning as long as one context may stay. */
  lemma {:induction false} PruneKeepsNewest(s: State, n: nat, newest: ContextKey)
    requires StampsInv(s) && n < |s.active| && IsNewest(s.active, newest)
    ensures StampsInv(Prune(s, n)) && newest in Prune(s, n).active
    decreases n
  {
    if n != 0 {
      var next := EvictOldestKeepsNewest(s, newest);
      PruneKeepsNewest(next, n - 1, newest);
      assert Prune(s, n) == Prune(next, n - 1);
    }
  }

  lemma EvictsOne(s: State, key: ContextKey)
    requires key in s.active
    ensures |Evict(s, key).active| == |s.active| - 1
  {
    assert s.active.Keys == Evict(s, key).active.Keys + {key};
    assert |s.active| == |s.active.Keys| && |Evict(s, key).active| == |Evict(s, key).active.Keys|;
  }

  lemma EvictOldestKeepsNewest(s: State, newest: ContextKey) returns (next: State)
    requires StampsInv(s) && 1 < |s.active| && IsNewest(s.active, newest)
    ensures next == Evict(s, Oldest(s.active))
    ensures StampsInv(next) && IsNewest(next.active, newest) && |next.active| == |s.active| - 1
  {
    var oldest := Oldest(s.active);
    NewestIsNotOldest(s, oldest, newest);
    EvictKeepsStamps(s, oldest);
    EvictsOne(s, oldest);
    next := Evict(s, oldest);
  }

  lemma EvictOldestOnlySpills(s: State) returns (next: State)
    requires StampsInv(s) && s.active != map[]
    ensures next == Evict(s, Oldest(s.active)) && StampsInv(next) && OnlySpilled(s, next)
  {
    var oldest := Oldest(s.active);
    EvictKeepsStamps(s, oldest);
    EvictOnlySpills(s, oldest);
    next := Evict(s, oldest);
  }

  lemma {:induction false} PruneOnlySpills(s: State, n: nat)
    requires StampsInv(s)
    ensures OnlySpilled(s, Prune(s, n))
    decreases n
  {
    if n != 0 && s.active != map[] {
      var next := EvictOldestOnlySpills(s);
      PruneOnlySpills(next, n - 1);
      SpillingTwice(s, next, Prune(next, n - 1));
    }
  }

  lemma {:induction false} PruneEvictsMany(s: State, n: nat)
    requires n <= |s.active|
    ensures |Prune(s, n).active| == |s.active| - n
    decreases n
  {
    if n != 0 {
      EvictsOne(s, Oldest(s.active));
      PruneEvictsMany(Evict(s, Oldest(s.active)), n - 1);
    }
  }

  /** Pruning meets the capacity and evicts no more than it has to. */
  lemma PruneMeetsCapacity(s: State, capacity: nat)
    ensures |PruneTo(s, capacity).active| == Min(capacity, |s.active|)
  {
    if capacity < |s.active| {
      PruneEvictsMany(s, |s.active| - capacity);
    }
  }

  lemma NewestIsNotOldest(s: State, oldest: ContextKey, newest: ContextKey)
    requires StampsInv(s) && 1 < |s.active| && IsOldest(s.active, oldest) && IsNewest(s.active, newest)
    ensures oldest != newest
  {
    var others := s.active.Keys - {newest};
    assert |others| == |s.active.Keys| - 1;
    var k :| k in others;
    assert s.active[k].lastUsed != s.active[newest].lastUsed;
  }

  /** `s'` answers like `s`, knows at most one more key, and keeps the names on all other records. */
  ghost predicate Extends(s: State, s': State, conversation: string, folder: string) {
    && s'.selections == s.selections
    && (forall k :: Known(s', k) <==> Known(s, k) || k == Key(conversation, folder))
    && Key(conversation, folder) in s'.active
    && KeepsNames(s, s', conversation, folder)
  }

  ghost predicate KeepsNames(s: State, s': State, conversation: string, folder: string) {
    forall k :: k in s'.active ==>
      if k in s.active then SameName(s'.active[k], s.active[k])
      else k == Key(conversation, folder) && SameName(s'.active[k], Context(conversation, folder, ".", 0))
  }

  predicate SameName(a: Context, b: Context) {
    a.conversation == b.conversation && a.folder == b.folder
  }

  lemma ExtensionKeepsKeys(s: State, s': State, conversation: string, folder: string)
    requires KeysInv(s) && Extends(s, s', conversation, folder)
    requires NulFree(conversation) && NulFree(folder)
    ensures KeysInv(s')
  {
    KeyParts(conversation, folder);
    forall k | Known(s', k) ensures IsKey(k) {
      assert Known(s, k) || k == Key(conversation, folder);
    }
    forall k | k in s'.active ensures RecordMatches(k, s'.active[k]) {
      if k in s.active {
        assert RecordMatches(k, s.active[k]);
      }
    }
  }

  /** The new state of `ensureContext` before pruning, for a context that is not active. */
  ghost function Admit(s: State, conversation: string, folder: string): State {
    var key := Key(conversation, folder);
    State(s.selections,
          s.active[key := Context(conversation, folder, CwdAt(s, key), s.clock + 1)],
          s.saved - {key},
          s.clock + 1)
  }

  lemma AdmitKeepsAnswers(s: State, conversation: string, folder: string)
    requires Key(conversation, folder) !in s.active
    ensures SameAnswers(s, Admit(s, conversation, folder))
  {
    var key, s' := Key(conversation, folder), Admit(s, conversation, folder);
    forall k ensures CwdAt(s', k) == CwdAt(s, k) {
      if k == key {
        assert CwdAt(s', k) == CwdAt(s, key);
      } else {
        assert k in s'.active <==> k in s.active;
        assert k in s'.saved <==> k in s.saved;
      }
    }
  }

  lemma AdmitKeepsStamps(s: State, conversation: string, folder: string)
    requires StampsInv(s) && Key(conversation, folder) !in s.active
    ensures StampsInv(Admit(s, conversation, folder))
    ensures IsNewest(Admit(s, conversation, folder).active, Key(conversation, folder))
  {
    var key, s' := Key(conversation, folder), Admit(s, conversation, folder);
    assert forall k :: k in s'.active && k != key ==> k in s.active && s'.active[k] == s.active[k];
  }

  lemma AdmitKeepsNames(s: State, conversation: string, folder: string)
    requires Key(conversation, folder) !in s.active
    ensures KeepsNames(s, Admit(s, conversation, folder), conversation, folder)
  {
  }

  lemma AdmitExtends(s: State, conversation: string, folder: string)
    requires Key(conversation, folder) !in s.active
    ensures Extends(s, Admit(s, conversation, folder), conversation, folder)
  {
    AdmitKeepsNames(s, conversation, folder);
  }

  lemma AdmitAddsOne(s: State, conversation: string, folder: string)
    requires Key(conversation, folder) !in s.active
    ensures |Admit(s, conversation, folder).active| == |s.active| + 1
  {
    assert Admit(s, conversation, folder).active.Keys == s.active.Keys + {Key(conversation, folder)};
  }

  /** What `ensureContext` does in one of its three cases: refresh, admit, or admit and evict one. */
  lemma TouchCases(s: State, capacity: nat, conversation: string, folder: string)
    requires StampsInv(s) && |s.active| <= capacity && 1 <= capacity
    ensures var s', key := Touch(s, capacity, conversation, folder), Key(conversation, folder);
            if key in s.active then
              s' == s.(active := s.active[key := s.active[key].(lastUsed := s.clock + 1)], clock := s.clock + 1)
            else
              s' == Prune(Admit(s, conversation, folder), if |s.active| < capacity then 0 else 1)
  {
    if Key(conversation, folder) !in s.active {
      AdmitAddsOne(s, conversation, folder);
    }
  }

  lemma RefreshKeepsStamps(s: State, key: ContextKey)
    requires StampsInv(s) && key in s.active
    ensures var s' := s.(active := s.active[key := s.active[key].(lastUsed := s.clock + 1)], clock := s.clock + 1);
            StampsInv(s') && |s'.active| == |s.active|
  {
    var s' := s.(active := s.active[key := s.active[key].(lastUsed := s.clock + 1)], clock := s.clock + 1);
    assert s'.active.Keys == s.active.Keys;
    assert |s'.active| == |s'.active.Keys|;
  }

  /** Touching never exceeds the capacity and never evicts the context just touched. */
  lemma TouchKeepsStamps(s: State, capacity: nat, conversation: string, folder: string)
    requires StampsInv(s) && |s.active| <= capacity && 1 <= capacity
    ensures var s' := Touch(s, capacity, conversation, folder);
            StampsInv(s') && |s'.active| <= capacity && Key(conversation, folder) in s'.active
  {
    var key := Key(conversation, folder);
    TouchCases(s, capacity, conversation, folder);
    if key in s.active {
      RefreshKeepsStamps(s, key);
    } else {
      AdmitKeepsStamps(s, conversation, folder);
      AdmitAddsOne(s, conversation, folder);
      if |s.active| == capacity {
        var pruned := EvictOldestKeepsNewest(Admit(s, conversation, folder), key);
        assert pruned == Prune(pruned, 0);
      }
    }
  }

  /** Touching keeps every answer. */
  lemma TouchKeepsAnswers(s: State, capacity: nat, conversation: string, folder: string)
    requires StampsInv(s) && |s.active| <= capacity && 1 <= capacity
    ensures SameAnswers(s, Touch(s, capacity, conversation, folder))
  {
    TouchCases(s, capacity, conversation, folder);
    if Key(conversation, folder) !in s.active {
      AdmitKeepsStamps(s, conversation, folder);
      AdmitKeepsAnswers(s, conversation, folder);
      PruneOnlySpills(Admit(s, conversation, folder), if |s.active| < capacity then 0 else 1);
    }
  }

  lemma TouchExtends(s: State, capacity: nat, conversation: string, folder: string)
    requires StampsInv(s) && |s.active| <= capacity && 1 <= capacity
    ensures Extends(s, Touch(s, capacity, conversation, folder), conversation, folder)
  {
    TouchCases(s, capacity, conversation, folder);
    TouchKeepsStamps(s, capacity, conversation, folder);
    if Key(conversation, folder) !in s.active {
      var admitted := Admit(s, conversation, folder);
      AdmitKeepsStamps(s, conversation, folder);
      AdmitExtends(s, conversation, folder);
      PruneOnlySpills(admitted, if |s.active| < capacity then 0 else 1);
      SpillKeepsExtension(s, admitted, Touch(s, capacity, conversation, folder), conversation, folder);
    }
  }

  lemma SpillKeepsExtension(s: State, s': State, s'': State, conversation: string, folder: string)
    requires Extends(s, s', conversation, folder) && OnlySpilled(s', s'')
    requires Key(conversation, folder) in s''.active
    ensures Extends(s, s'', conversation, folder)
  {
    assert forall key :: Known(s'', key) <==> Known(s', key);
  }

  lemma AssignSetsOneAnswer(s: State, key: ContextKey, cwd: string)
    requires StampsInv(s) && key in s.active
    ensures var s' := Assign(s, key, cwd);
            && StampsInv(s') && |s'.active| == |s.active|
            && s'.selections == s.selections
            && s'.active.Keys == s.active.Keys && s'.saved == s.saved
            && (forall k :: k in s'.active ==> SameName(s'.active[k], s.active[k]))
            && forall k :: CwdAt(s', k) == if k == key then cwd else CwdAt(s, k)
  {
    AssignKeepsStamps(s, key, cwd);
    AssignSetsAnswer(s, key, cwd);
  }

  lemma AssignSetsAnswer(s: State, key: ContextKey, cwd: string)
    requires key in s.active
    ensures var s' := Assign(s, key, cwd);
            && s'.active.Keys == s.active.Keys
            && (forall k :: k in s'.active ==> SameName(s'.active[k], s.active[k]))
            && forall k :: CwdAt(s', k) == if k == key then cwd else CwdAt(s, k)
  {
    assert Assign(s, key, cwd).active.Keys == s.active.Keys;
  }

  lemma AssignKeepsStamps(s: State, key: ContextKey, cwd: string)
    requires StampsInv(s) && key in s.active
    ensures StampsInv(Assign(s, key, cwd)) && |Assign(s, key, cwd).active| == |s.active|
  {
    var s' := Assign(s, key, cwd);
    assert s'.active.Keys == s.active.Keys;
    assert |s'.active| == |s'.active.Keys|;
  }

  lemma SetCwdSetsOneAnswer(s: State, capacity: nat, conversation: string, folder: string, cwd: string)
    requires StampsInv(s) && |s.active| <= capacity && 1 <= capacity
    ensures var s' := SetCwd(s, capacity, conversation, folder, cwd);
            && StampsInv(s') && |s'.active| <= capacity
            && Extends(s, s', conversation, folder)
            && forall k :: CwdAt(s', k) == if k == Key(conversation, folder) then cwd else CwdAt(s, k)
  {
    TouchKeepsStamps(s, capacity, conversation, folder);
    TouchKeepsAnswers(s, capacity, conversation, folder);
    TouchExtends(s, capacity, conversation, folder);
    AssignSetsOneAnswer(Touch(s, capacity, conversation, folder), Key(conversation, folder), cwd);
  }

  /** The two loops of `deleteConversation` drop exactly the contexts of one conversation. */
  lemma ForgetDropsOneConversation(s: State, conversation: string)
    requires KeysInv(s) && StampsInv(s) && NulFree(conversation)
    ensures var s' := Forget(s, conversation);
            && (forall k :: k in s'.active <==> k in s.active && KeyConversation(k) != conversation)
            && (forall k :: k in s'.saved <==> k in s.saved && KeyConversation(k) != conversation)
  {
    forall k | Known(s, k)
      ensures EndsWith(k.text, "\0" + conversation) <==> KeyConversation(k) == conversation
    {
      assert IsKey(k);
      SuffixIdentifiesConversation(KeyConversation(k), KeyFolder(k), conversation);
    }
    assert forall k :: k in s.active ==> RecordMatches(k, s.active[k]);
  }

  lemma ForgetKeepsStamps(s: State, conversation: string)
    requires StampsInv(s)
    ensures StampsInv(Forget(s, conversation)) && |Forget(s, conversation).active| <= |s.active|
  {
    var s' := Forget(s, conversation);
    assert forall k :: k in s'.active ==> k in s.active && s'.active[k] == s.active[k];
    SubsetIsNoLarger(s'.active.Keys, s.active.Keys);
  }

  lemma ForgetKeepsInv(s: State, conversation: string)
    requires Inv(s) && NulFree(conversation)
    ensures KeysInv(Forget(s, conversation)) && SelectionsInv(Forget(s, conversation))
  {
    var s' := Forget(s, conversation);
    ForgetDropsOneConversation(s, conversation);
    forall k | k in s'.active ensures RecordMatches(k, s'.active[k]) {
      assert RecordMatches(k, s.active[k]);
    }
    forall k | Known(s', k) ensures IsKey(k) {
      assert Known(s, k);
    }
    forall c | c in s'.selections
      ensures NulFree(c) && NulFree(s'.selections[c]) && Known(s', Key(c, s'.selections[c]))
    {
      ForgetKeepsSelection(s, conversation, c);
    }
  }

  lemma ForgetKeepsSelection(s: State, conversation: string, c: string)
    requires Inv(s) && NulFree(conversation) && c in s.selections && c != conversation
    ensures NulFree(c) && NulFree(s.selections[c])
    ensures Known(Forget(s, conversation), Key(c, s.selections[c]))
  {
    assert Known(s, Key(c, s.selections[c]));
    ForgetDropsOneConversation(s, conversation);
    KeyParts(c, s.selections[c]);
  }

  ghost predicate Good(s: State, capacity: nat) {
    Inv(s) && |s.active| <= capacity
  }

  /** Changing the selections leaves contexts and stamps alone. */
  lemma ReselectKeepsContexts(s: State, selections: map<string, string>)
    requires KeysInv(s) && StampsInv(s)
    ensures KeysInv(s.(selections := selections)) && StampsInv(s.(selections := selections))
    ensures SameAnswers(s, s.(selections := selections))
  {
    forall k ensures Known(s.(selections := selections), k) <==> Known(s, k) {
    }
  }

  lemma ExtensionKeepsSelections(s: State, s': State, c: string, f: string)
    requires Extends(s, s', c, f)
    requires forall d :: d in s.selections ==>
               && NulFree(d) && NulFree(s.selections[d])
               && (Known(s, Key(d, s.selections[d])) || (d == c && s.selections[d] == f))
    ensures SelectionsInv(s')
  {
  }

  lemma TouchKeepsGood(s: State, capacity: nat, c: string, f: string)
    requires KeysInv(s) && StampsInv(s) && |s.active| <= capacity && 1 <= capacity && NulFree(c) && NulFree(f)
    requires forall d :: d in s.selections ==>
               && NulFree(d) && NulFree(s.selections[d])
               && (Known(s, Key(d, s.selections[d])) || (d == c && s.selections[d] == f))
    ensures Good(Touch(s, capacity, c, f), capacity)
  {
    TouchKeepsStamps(s, capacity, c, f);
    TouchExtends(s, capacity, c, f);
    ExtensionKeepsKeys(s, Touch(s, capacity, c, f), c, f);
    ExtensionKeepsSelections(s, Touch(s, capacity, c, f), c, f);
  }

  lemma SameAnswersAgree(s: State, s': State, p: Plain)
    requires Agree(s, p) && SameAnswers(s, s')
    ensures Agree(s', p.(selections := s'.selections))
  {
    forall d, g | NulFree(d) && NulFree(g) ensures Cwd(s', d, g) == PlainCwd(p, d, g) {
      assert Cwd(s, d, g) == PlainCwd(p, d, g);
      assert CwdAt(s', Key(d, g)) == CwdAt(s, Key(d, g));
    }
  }

  lemma TouchAgrees(s: State, capacity: nat, p: Plain, c: string, f: string, selections: map<string, string>)
    requires Good(s, capacity) && 1 <= capacity && Agree(s, p) && NulFree(c) && NulFree(f)
    requires selections == s.selections || selections == s.selections[c := f]
    ensures var s' := Touch(s.(selections := selections), capacity, c, f);
            && Good(s', capacity) && Agree(s', p.(selections := selections)) && Cwd(s', c, f) == PlainCwd(p, c, f)
  {
    var start := s.(selections := selections);
    ReselectKeepsContexts(s, selections);
    SameAnswersAgree(s, start, p);
    TouchKeepsGood(start, capacity, c, f);
    TouchKeepsAnswers(start, capacity, c, f);
    TouchExtends(start, capacity, c, f);
    SameAnswersAgree(start, Touch(start, capacity, c, f), p.(selections := selections));
  }

  lemma SetCwdKeepsGood(s: State, capacity: nat, c: string, f: string, cwd: string)
    requires Good(s, capacity) && 1 <= capacity && NulFree(c) && NulFree(f)
    ensures Good(SetCwd(s, capacity, c, f, cwd), capacity)
  {
    SetCwdSetsOneAnswer(s, capacity, c, f, cwd);
    ExtensionKeepsKeys(s, SetCwd(s, capacity, c, f, cwd), c, f);
  }

  lemma SetCwdAgrees(s: State, capacity: nat, p: Plain, c: string, f: string, cwd: string)
    requires Good(s, capacity) && 1 <= capacity && Agree(s, p) && NulFree(c) && NulFree(f)
    ensures Good(SetCwd(s, capacity, c, f, cwd), capacity)
    ensures Agree(SetCwd(s, capacity, c, f, cwd), p.(cwds := p.cwds[(c, f) := cwd]))
  {
    var s' := SetCwd(s, capacity, c, f, cwd);
    SetCwdKeepsGood(s, capacity, c, f, cwd);
    SetCwdSetsOneAnswer(s, capacity, c, f, cwd);
    forall d, g | NulFree(d) && NulFree(g)
      ensures Cwd(s', d, g) == PlainCwd(p.(cwds := p.cwds[(c, f) := cwd]), d, g)
    {
      assert Cwd(s, d, g) == PlainCwd(p, d, g);
      OneAnswerSet(s, s', p, c, f, cwd, d, g);
    }
  }

  lemma OneAnswerSet(s: State, s': State, p: Plain, c: string, f: string, cwd: string, d: string, g: string)
    requires NulFree(c) && NulFree(f) && NulFree(d) && NulFree(g) && Cwd(s, d, g) == PlainCwd(p, d, g)
    requires forall k :: CwdAt(s', k) == if k == Key(c, f) then cwd else CwdAt(s, k)
    ensures Cwd(s', d, g) == PlainCwd(p.(cwds := p.cwds[(c, f) := cwd]), d, g)
  {
    KeyParts(d, g);
    KeyParts(c, f);
    assert CwdAt(s', Key(d, g)) == if Key(d, g) == Key(c, f) then cwd else CwdAt(s, Key(d, g));
  }

  lemma ForgetAnswers(s: State, c: string, d: string, g: string)
    requires KeysInv(s) && StampsInv(s) && NulFree(c) && NulFree(d) && NulFree(g)
    ensures Cwd(Forget(s, c), d, g) == if d == c then "." else Cwd(s, d, g)
  {
    ForgetDropsOneConversation(s, c);
    KeyParts(d, g);
  }

  lemma ForgetAgrees(s: State, capacity: nat, p: Plain, c: string)
    requires Good(s, capacity) && Agree(s, p) && NulFree(c)
    ensures Agree(Forget(s, c), PlainApply(p, DeleteConversation(c)).0)
  {
    var s', p' := Forget(s, c), PlainApply(p, DeleteConversation(c)).0;
    forall d, g | NulFree(d) && NulFree(g) ensures Cwd(s', d, g) == PlainCwd(p', d, g) {
      assert Cwd(s, d, g) == PlainCwd(p, d, g);
      ForgetAgreesAt(s, p, c, d, g);
    }
  }

  lemma ForgetAgreesAt(s: State, p: Plain, c: string, d: string, g: string)
    requires KeysInv(s) && StampsInv(s) && NulFree(c) && NulFree(d) && NulFree(g) && Cwd(s, d, g) == PlainCwd(p, d, g)
    ensures Cwd(Forget(s, c), d, g) == PlainCwd(PlainApply(p, DeleteConversation(c)).0, d, g)
  {
    ForgetAnswers(s, c, d, g);
    PlainForgets(p, c, d, g);
  }

  lemma PlainForgets(p: Plain, c: string, d: string, g: string)
    ensures PlainCwd(PlainApply(p, DeleteConversation(c)).0, d, g) == if d == c then "." else PlainCwd(p, d, g)
  {
    assert (d, g).0 == d;
  }

  lemma ForgetKeepsGood(s: State, capacity: nat, c: string)
    requires Good(s, capacity) && NulFree(c)
    ensures Good(Forget(s, c), capacity)
  {
    ForgetKeepsInv(s, c);
    ForgetKeepsStamps(s, c);
  }

  /** Every call keeps the invariant and the capacity. */
  lemma CallKeepsGood(s: State, capacity: nat, call: Call)
    requires Good(s, capacity) && 1 <= capacity && CallIsNulFree(call)
    ensures Good(Apply(s, capacity, call).0, capacity)
  {
    match call
    case SelectFolder(c, f) =>
      ReselectKeepsContexts(s, s.selections[c := f]);
      TouchKeepsGood(s.(selections := s.selections[c := f]), capacity, c, f);
    case CurrentCwd(c) =>
      if Selection(s.selections, c).Some? { TouchKeepsGood(s, capacity, c, s.selections[c]); }
    case CwdFor(c, f) => TouchKeepsGood(s, capacity, c, f);
    case SetCurrentCwd(c, cwd) =>
      if Selection(s.selections, c).Some? { SetCwdKeepsGood(s, capacity, c, s.selections[c], cwd); }
    case SetFolderCwd(c, f, cwd) => SetCwdKeepsGood(s, capacity, c, f, cwd);
    case DeleteConversation(c) => ForgetKeepsGood(s, capacity, c);
    case SelectedFolder(_) =>
    case PeekCwdFor(_, _) =>
    case Clear =>
  }

  /** One call gives the plain map's answer and keeps the two stores in agreement. */
  lemma CallAgrees(s: State, capacity: nat, p: Plain, call: Call)
    requires Good(s, capacity) && 1 <= capacity && Agree(s, p) && CallIsNulFree(call)
    ensures var (s', answer) := Apply(s, capacity, call); var (p', expected) := PlainApply(p, call);
            Good(s', capacity) && answer == expected && Agree(s', p')
  {
    CallKeepsGood(s, capacity, call);
    match call
    case SelectFolder(c, f) => TouchAgrees(s, capacity, p, c, f, s.selections[c := f]);
    case CurrentCwd(c) =>
      if Selection(s.selections, c).Some? { TouchAgrees(s, capacity, p, c, s.selections[c], s.selections); }
    case CwdFor(c, f) => TouchAgrees(s, capacity, p, c, f, s.selections);
    case SetCurrentCwd(c, cwd) =>
      if Selection(s.selections, c).Some? { SetCwdAgrees(s, capacity, p, c, s.selections[c], cwd); }
    case SetFolderCwd(c, f, cwd) => SetCwdAgrees(s, capacity, p, c, f, cwd);
    case DeleteConversation(c) => ForgetAgrees(s, capacity, p, c);
    case SelectedFolder(_) =>
    case PeekCwdFor(_, _) =>
    case Clear =>
  }

  lemma SubsetIsNoLarger<T>(a: set<T>, b: set<T>)
    requires a <= b
    ensures |a| <= |b|
  {
    assert |b| == |a| + |b - a|;
  }

  // ----- whole histories -----

  ghost function Answers(s: State, capacity: nat, calls: seq<Call>): (State, seq<Answer>)
    decreases |calls|
  {
    if calls == [] then (s, [])
    else
      var (next, answer) := Apply(s, capacity, calls[0]);
      var (end, answers) := Answers(next, capacity, calls[1..]);
      (end, [answer] + answers)
  }

  function PlainAnswers(p: Plain, calls: seq<Call>): (Plain, seq<Answer>)
    decreases |calls|
  {
    if calls == [] then (p, [])
    else
      var (next, answer) := PlainApply(p, calls[0]);
      var (end, answers) := PlainAnswers(next, calls[1..]);
      (end, [answer] + answers)
  }

  /** Whatever is evicted, every history of calls is answered as the plain map answers it. */
  lemma {:induction false} StoreIsPlainMap(s: State, capacity: nat, p: Plain, calls: seq<Call>)
    requires Good(s, capacity) && 1 <= capacity && Agree(s, p)
    requires forall call :: call in calls ==> CallIsNulFree(call)
    ensures var (s', answers) := Answers(s, capacity, calls); var (p', expected) := PlainAnswers(p, calls);
            Good(s', capacity) && answers == expected && Agree(s', p')
    decreases |calls|
  {
    if calls != [] {
      assert calls[0] in calls;
      CallAgrees(s, capacity, p, calls[0]);
      StoreIsPlainMap(Apply(s, capacity, calls[0]).0, capacity, PlainApply(p, calls[0]).0, calls[1..]);
    }
  }

  /** The two stores start in agreement, so whole histories are answered alike at every capacity. */
  lemma FreshStoreIsPlainMap(capacity: nat, calls: seq<Call>)
    requires 1 <= capacity
    requires forall call :: call in calls ==> CallIsNulFree(call)
    ensures Good(Answers(Empty, capacity, calls).0, capacity)
    ensures Answers(Empty, capacity, calls).1 == PlainAnswers(Plain(map[], map[]), calls).1
  {
    StoreIsPlainMap(Empty, capacity, Plain(map[], map[]), calls);
  }
}
