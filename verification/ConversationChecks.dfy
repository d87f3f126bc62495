/**
 What a restored conversation store can hold, whatever the file says: only checked names, and only directories that
 do not lead out of their folder. Directories of handles are neither written nor read back.
 */
module ConversationChecks {
  import opened ConversationState
  import opened ConversationSnapshot

  // ----- the parts of a path -----

  /** The parts between the slashes of either kind. */
  function Parts(path: string): (parts: seq<string>)
    ensures 0 < |parts|
  {
    if path == "" then [""]
    else
      var rest := Parts(path[1..]);
      if IsSlash(path[0]) then [""] + rest else [[path[0]] + rest[0]] + rest[1..]
  }

  /** The length of the first part. */
  function FirstSlash(path: string): (n: nat)
    ensures n <= |path| && (n < |path| ==> IsSlash(path[n]))
    ensures forall i :: 0 <= i < n ==> !IsSlash(path[i])
  {
    if path == "" || IsSlash(path[0]) then 0 else 1 + FirstSlash(path[1..])
  }

  lemma {:induction false} PartsBegin(path: string)
    ensures var n := FirstSlash(path);
            && Parts(path)[0] == path[..n]
            && Parts(path)[1..] == if n < |path| then Parts(path[n + 1..]) else []
  {
    if path != "" && !IsSlash(path[0]) {
      var n := FirstSlash(path[1..]);
      PartsBegin(path[1..]);
      assert path[..n + 1] == [path[0]] + path[1..][..n];
      assert n < |path[1..]| ==> path[1..][n + 1..] == path[n + 2..];
    }
  }

  /** A part that is the parent directory begins at `i`. */
  predicate IsParentAt(path: string, i: nat) {
    && i < |path| - 1 && path[i] == '.' && path[i + 1] == '.'
    && (i == 0 || IsSlash(path[i - 1])) && (i + 2 == |path| || IsSlash(path[i + 2]))
  }

  lemma ParentInFirst(path: string)
    ensures IsParentAt(path, 0) <==> path[..FirstSlash(path)] == ".."
  {
    var n := FirstSlash(path);
    if IsParentAt(path, 0) {
      assert n == 2;
      assert path[..2] == "..";
    }
    if path[..n] == ".." {
      assert path[0] == path[..n][0] && path[1] == path[..n][1];
    }
  }

  lemma ParentShifted(path: string, n: nat, k: nat)
    requires n < |path| && IsSlash(path[n])
    ensures IsParentAt(path, n + 1 + k) <==> IsParentAt(path[n + 1..], k)
  {
    var rest := path[n + 1..];
    assert |rest| == |path| - n - 1;
    if k < |rest| - 1 {
      assert rest[k] == path[n + 1 + k] && rest[k + 1] == path[n + 2 + k];
      assert k + 2 < |rest| ==> rest[k + 2] == path[n + 3 + k];
      assert 0 < k ==> rest[k - 1] == path[n + k];
    }
  }

  lemma NoParentInside(path: string, i: nat)
    requires 0 < i <= FirstSlash(path)
    ensures !IsParentAt(path, i)
  {
  }

  /** The rest behind the first slash, if there is one. */
  lemma ParentInRest(path: string)
    ensures var n := FirstSlash(path);
            HasParentPart(path) <==>
              IsParentAt(path, 0) || (n < |path| && HasParentPart(path[n + 1..]))
  {
    var n := FirstSlash(path);
    HasParentAt(path);
    if i: nat :| IsParentAt(path, i) && 0 < i {
      if i <= n {
        NoParentInside(path, i);
      } else {
        ParentShifted(path, n, i - n - 1);
        HasParentAt(path[n + 1..]);
      }
    }
    if n < |path| {
      var rest := path[n + 1..];
      HasParentAt(rest);
      if k: nat :| IsParentAt(rest, k) {
        ParentShifted(path, n, k);
      }
    }
  }

  lemma {:induction false} ParentIsPart(path: string)
    ensures HasParentPart(path) <==> ".." in Parts(path)
    decreases |path|
  {
    var n, parts := FirstSlash(path), Parts(path);
    PartsBegin(path);
    ParentInFirst(path);
    ParentInRest(path);
    if n < |path| {
      ParentIsPart(path[n + 1..]);
    }
    assert parts == [parts[0]] + parts[1..];
  }

  lemma HasParentAt(path: string)
    ensures HasParentPart(path) <==> exists i: nat :: IsParentAt(path, i)
  {
    if HasParentPart(path) {
      var i :| 0 <= i < |path| - 1 && path[i] == '.' && path[i + 1] == '.'
               && (i == 0 || IsSlash(path[i - 1])) && (i + 2 == |path| || IsSlash(path[i + 2]));
      assert IsParentAt(path, i);
    }
    if i: nat :| IsParentAt(path, i) {
      assert path[i] == '.';
    }
  }

  // ----- what a restored store holds -----

  /** A name that may be restored. */
  predicate IsChecked(conversation: string, folder: string, rules: Rules) {
    && 1 <= |conversation| <= 512 && '\0' !in conversation
    && 1 <= |folder| <= 512 && '\0' !in folder
    && !("ctmcp-handle:" <= conversation)
    && (rules.allowedFolders.Some? ==> folder in rules.allowedFolders.value)
  }

  /** A directory below its folder. */
  predicate StaysBelow(cwd: string, rules: Rules) {
    1 <= |cwd| <= 4096 && '\0' !in cwd && !rules.isAbsolute(cwd) && ".." !in Parts(cwd)
  }

  /** The context of a restored directory. */
  ghost predicate IsSource(rules: Rules, context: Context, key: ContextKey, cwd: string) {
    && key == Key(context.conversation, context.folder) && cwd == context.cwd
    && IsChecked(context.conversation, context.folder, rules) && StaysBelow(context.cwd, rules)
  }

  lemma {:induction false} RestoredFrom(rules: Rules, contexts: seq<Context>, key: ContextKey)
    returns (context: Context)
    requires key in RestoreContexts(Empty, rules, contexts).saved
    ensures IsSource(rules, context, key, RestoreContexts(Empty, rules, contexts).saved[key].cwd)
    decreases |contexts|
  {
    var front, last := contexts[..|contexts| - 1], contexts[|contexts| - 1];
    if rules.Accepts(last) && ContextKeyOf(last) == key {
      context := last;
      ParentIsPart(last.cwd);
    } else {
      context := RestoredFrom(rules, front, key);
    }
  }

  lemma {:induction false} SelectionsKeepSaved(s: State, rules: Rules, selections: seq<(string, string)>)
    ensures var r := RestoreSelections(s, rules, selections); r.saved == s.saved && r.active == s.active
    ensures var r := RestoreSelections(s, rules, selections);
            forall c :: c in r.selections && c !in s.selections ==> IsChecked(c, r.selections[c], rules)
    decreases |selections|
  {
    if selections != [] {
      SelectionsKeepSaved(s, rules, selections[..|selections| - 1]);
    }
  }

  lemma {:induction false} NothingActive(rules: Rules, contexts: seq<Context>)
    ensures var r := RestoreContexts(Empty, rules, contexts); r.active == map[] && r.selections == map[]
    decreases |contexts|
  {
    if contexts != [] {
      NothingActive(rules, contexts[..|contexts| - 1]);
    }
  }

  /**
   Whatever a file holds, what is restored from it is checked: every selection, and every directory, which belongs to
   a checked conversation and folder and does not lead out of the folder.
   */
  lemma RestoredIsChecked(rules: Rules, snapshot: Snapshot, conversation: string, folder: string)
    requires NulFree(folder)
    ensures var r := Restore(rules, snapshot);
            && (conversation in r.selections ==> IsChecked(conversation, r.selections[conversation], rules))
            && (Known(r, Key(conversation, folder)) ==> IsChecked(conversation, folder, rules))
            && (Cwd(r, conversation, folder) == "." || StaysBelow(Cwd(r, conversation, folder), rules))
  {
    var contexts := Take(snapshot.contexts, MAX_PERSISTED_CONVERSATION_CONTEXTS);
    var filled := RestoreContexts(Empty, rules, contexts);
    var key := Key(conversation, folder);
    NothingActive(rules, contexts);
    SelectionsKeepSaved(filled, rules, Take(snapshot.selections, MAX_PERSISTED_CONVERSATION_CONTEXTS));
    if key in filled.saved {
      var context := RestoredFrom(rules, contexts, key);
      KeyParts(conversation, folder);
      KeyParts(context.conversation, context.folder);
    }
  }

  /** Nothing of a handle is written. */
  lemma HandlesAreNotWritten(s: State, snapshot: Snapshot)
    requires IsSnapshot(s, snapshot) && KeysInv(s) && SelectionsInv(s)
    ensures forall i :: 0 <= i < |snapshot.contexts| ==> !("ctmcp-handle:" <= snapshot.contexts[i].conversation)
    ensures forall c, f :: (c, f) in snapshot.selections ==> !("ctmcp-handle:" <= c)
  {
    forall i | 0 <= i < |snapshot.contexts|
      ensures !("ctmcp-handle:" <= snapshot.contexts[i].conversation)
    {
      assert IsCandidate(s, ContextKeyOf(snapshot.contexts[i]));
    }
    forall c, f | (c, f) in snapshot.selections
      ensures !("ctmcp-handle:" <= c)
    {
      var i :| 0 <= i < |snapshot.contexts| && ContextKeyOf(snapshot.contexts[i]) == Key(c, f);
      SelectionHasContext(s, snapshot.contexts[i], c, f);
    }
  }

  lemma SelectionHasContext(s: State, context: Context, c: string, f: string)
    requires KeysInv(s) && SelectionsInv(s) && c in s.selections && s.selections[c] == f
    requires ContextKeyOf(context) == Key(c, f) && IsCandidate(s, Key(c, f)) && context == Entry(s, Key(c, f))
    ensures context.conversation == c
  {
    KeyParts(c, f);
    assert Known(s, Key(c, f));
  }
}
