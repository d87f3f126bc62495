/**
 Carrying out a plan on a machine that may stop behind any statement, and the clean-up that releases
 what is noted as held.
 */
module DesktopReplay {
  import opened Options
  import opened DesktopPlanner

  /** One statement of the generated script; an instruction that holds something is two statements. */
  datatype Statement =
    | PushKey(code: nat)
    | NoteKey(code: nat)
    | LiftKey(code: nat)
    | ForgetKey(code: nat)
    | PushButton(downFlag: nat)
    | NoteButton(upFlag: nat)
    | LiftButton(upFlag: nat)
    | ForgetButton(upFlag: nat)
    | Tap(codes: seq<nat>)
    | Other

  /** What is down, buttons by their up flags, and what the script has noted as held. */
  datatype Machine = Machine(keys: set<nat>, buttons: set<nat>, heldKeys: seq<nat>, heldButtons: seq<nat>)

  const Idle: Machine := Machine({}, {}, [], [])

  function StatementsOf(i: Instruction): seq<Statement> {
    match i
    case PressKey(code) => [PushKey(code), NoteKey(code)]
    case ReleaseKey(code) => [LiftKey(code), ForgetKey(code)]
    case PressButton(downFlag, upFlag) => [PushButton(downFlag), NoteButton(upFlag)]
    case ReleaseButton(upFlag) => [LiftButton(upFlag), ForgetButton(upFlag)]
    case Hotkey(codes) => [Tap(codes)]
    case _ => [Other]
  }

  function Script(plan: seq<Instruction>): seq<Statement> {
    if plan == [] then [] else Script(plan[..|plan| - 1]) + StatementsOf(plan[|plan| - 1])
  }

  /** The up flag of a button is twice its down flag. */
  function UpFlag(downFlag: nat): nat { 2 * downFlag }

  /** `List.Remove`: the first occurrence. */
  function RemoveFirst(held: seq<nat>, code: nat): seq<nat> {
    if held == [] then [] else if held[0] == code then held[1..] else [held[0]] + RemoveFirst(held[1..], code)
  }

  /** Nothing is pressed that is down and nothing is released that is up. */
  predicate IsProper(m: Machine, s: Statement) {
    match s
    case PushKey(code) => code !in m.keys
    case LiftKey(code) => code in m.keys
    case PushButton(downFlag) => UpFlag(downFlag) !in m.buttons
    case LiftButton(upFlag) => upFlag in m.buttons
    case Tap(codes) => Distinct(codes) && forall code :: code in codes ==> code !in m.keys
    case _ => true
  }

  /** A tap presses and releases its keys in one call. */
  function Execute(m: Machine, s: Statement): Machine {
    match s
    case PushKey(code) => m.(keys := m.keys + {code})
    case NoteKey(code) => m.(heldKeys := m.heldKeys + [code])
    case LiftKey(code) => m.(keys := m.keys - {code})
    case ForgetKey(code) => m.(heldKeys := RemoveFirst(m.heldKeys, code))
    case PushButton(downFlag) => m.(buttons := m.buttons + {UpFlag(downFlag)})
    case NoteButton(upFlag) => m.(heldButtons := m.heldButtons + [upFlag])
    case LiftButton(upFlag) => m.(buttons := m.buttons - {upFlag})
    case ForgetButton(upFlag) => m.(heldButtons := RemoveFirst(m.heldButtons, upFlag))
    case Tap(_) => m
    case Other => m
  }

  function Replay(m: Machine, script: seq<Statement>): Machine {
    if script == [] then m else Execute(Replay(m, script[..|script| - 1]), script[|script| - 1])
  }

  predicate RunsProperly(m: Machine, script: seq<Statement>) {
    forall n :: 0 <= n < |script| ==> IsProper(Replay(m, script[..n]), script[n])
  }

  /** The `finally` block: every noted button and key is released, the last one first. */
  function CleanUp(m: Machine): Machine
    decreases |m.heldKeys| + |m.heldButtons|
  {
    if m.heldButtons != [] then
      var last := m.heldButtons[|m.heldButtons| - 1];
      CleanUp(m.(buttons := m.buttons - {last}, heldButtons := m.heldButtons[..|m.heldButtons| - 1]))
    else if m.heldKeys != [] then
      var last := m.heldKeys[|m.heldKeys| - 1];
      CleanUp(m.(keys := m.keys - {last}, heldKeys := m.heldKeys[..|m.heldKeys| - 1]))
    else m
  }

  lemma {:induction false} CleanUpReleasesNoted(m: Machine)
    ensures CleanUp(m).keys == m.keys - (set k | k in m.heldKeys)
    ensures CleanUp(m).buttons == m.buttons - (set b | b in m.heldButtons)
    decreases |m.heldKeys| + |m.heldButtons|
  {
    if m.heldButtons != [] {
      var n := |m.heldButtons| - 1;
      CleanUpReleasesNoted(m.(buttons := m.buttons - {m.heldButtons[n]}, heldButtons := m.heldButtons[..n]));
      assert m.heldButtons == m.heldButtons[..n] + [m.heldButtons[n]];
    } else if m.heldKeys != [] {
      var n := |m.heldKeys| - 1;
      CleanUpReleasesNoted(m.(keys := m.keys - {m.heldKeys[n]}, heldKeys := m.heldKeys[..n]));
      assert m.heldKeys == m.heldKeys[..n] + [m.heldKeys[n]];
    }
  }

  // ----- what a plan has to keep to -----

  datatype Held = Held(keys: set<nat>, buttons: set<nat>)

  predicate IsAllowed(h: Held, i: Instruction) {
    match i
    case PressKey(code) => code !in h.keys
    case ReleaseKey(code) => code in h.keys
    case PressButton(downFlag, upFlag) => upFlag == UpFlag(downFlag) && upFlag !in h.buttons
    case ReleaseButton(upFlag) => upFlag in h.buttons
    case Hotkey(codes) => Distinct(codes) && forall code :: code in codes ==> code !in h.keys
    case _ => true
  }

  function Track(h: Held, i: Instruction): Held {
    match i
    case PressKey(code) => h.(keys := h.keys + {code})
    case ReleaseKey(code) => h.(keys := h.keys - {code})
    case PressButton(_, upFlag) => h.(buttons := h.buttons + {upFlag})
    case ReleaseButton(upFlag) => h.(buttons := h.buttons - {upFlag})
    case _ => h
  }

  /** The instructions are allowed one after the other and lead from one set of held things to another. */
  predicate Leads(h: Held, plan: seq<Instruction>, end: Held)
    decreases |plan|
  {
    if plan == [] then h == end
    else IsAllowed(h, plan[0]) && Leads(Track(h, plan[0]), plan[1..], end)
  }

  lemma {:induction false} LeadsOn(h: Held, a: seq<Instruction>, middle: Held, b: seq<Instruction>, end: Held)
    requires Leads(h, a, middle) && Leads(middle, b, end)
    ensures Leads(h, a + b, end)
    decreases |a|
  {
    if a == [] {
      assert a + b == b;
    } else {
      assert (a + b)[1..] == a[1..] + b;
      LeadsOn(Track(h, a[0]), a[1..], middle, b, end);
    }
  }

  lemma LeadsOne(h: Held, i: Instruction)
    requires IsAllowed(h, i)
    ensures Leads(h, [i], Track(h, i))
  {
    assert Leads(Track(h, i), [i][1..], Track(h, i));
  }

  // ----- the planner keeps to it -----

  function HeldBy(p: Planner): Held {
    Held(p.activeKeys, p.activeButtons)
  }

  /** The plan so far is allowed from nothing held and ends in what the planner believes to be held. */
  predicate IsSound(p: Planner) {
    Leads(Held({}, {}), p.instructions, HeldBy(p))
  }

  lemma EmitKeepsSound(p: Planner, more: seq<Instruction>, next: Planner)
    requires IsSound(p) && Leads(HeldBy(p), more, HeldBy(next)) && next.instructions == p.instructions + more
    ensures IsSound(next)
  {
    LeadsOn(Held({}, {}), p.instructions, HeldBy(p), more, HeldBy(next));
  }

  lemma {:induction false} HoldKeysKeepsSound(p: Planner, codes: seq<nat>)
    requires IsSound(p) && HoldKeys(p, codes).Some?
    ensures IsSound(HoldKeys(p, codes).value)
    decreases |codes|
  {
    if codes != [] {
      var next := p.(activeKeys := p.activeKeys + {codes[0]}, instructions := p.instructions + [PressKey(codes[0])]);
      LeadsOne(HeldBy(p), PressKey(codes[0]));
      EmitKeepsSound(p, [PressKey(codes[0])], next);
      HoldKeysKeepsSound(next, codes[1..]);
    }
  }

  lemma {:induction false} LetGoKeysKeepsSound(p: Planner, codes: seq<nat>)
    requires IsSound(p) && LetGoKeys(p, codes).Some?
    ensures IsSound(LetGoKeys(p, codes).value)
    decreases |codes|
  {
    if codes != [] {
      var last := codes[|codes| - 1];
      var next := p.(activeKeys := p.activeKeys - {last}, instructions := p.instructions + [ReleaseKey(last)]);
      LeadsOne(HeldBy(p), ReleaseKey(last));
      EmitKeepsSound(p, [ReleaseKey(last)], next);
      LetGoKeysKeepsSound(next, codes[..|codes| - 1]);
    }
  }

  lemma {:induction false} PressesLead(h: Held, codes: seq<nat>)
    requires Distinct(codes) && forall code :: code in codes ==> code !in h.keys
    ensures Leads(h, Presses(codes), h.(keys := h.keys + (set k | k in codes)))
    decreases |codes|
  {
    if codes == [] {
      assert h.keys + (set k | k in codes) == h.keys;
    } else {
      var next := Track(h, PressKey(codes[0]));
      assert Presses(codes)[1..] == Presses(codes[1..]);
      PressesLead(next, codes[1..]);
      assert codes == [codes[0]] + codes[1..];
      assert next.keys + (set k | k in codes[1..]) == h.keys + (set k | k in codes);
    }
  }

  lemma {:induction false} ReleasesLead(h: Held, codes: seq<nat>)
    requires Distinct(codes) && forall code :: code in codes ==> code in h.keys
    ensures Leads(h, Releases(codes), h.(keys := h.keys - (set k | k in codes)))
    decreases |codes|
  {
    if codes == [] {
      assert h.keys - (set k | k in codes) == h.keys;
    } else {
      var n := |codes| - 1;
      var next := Track(h, ReleaseKey(codes[n]));
      assert Releases(codes)[1..] == Releases(codes[..n]);
      ReleasesLead(next, codes[..n]);
      assert codes == codes[..n] + [codes[n]];
      assert next.keys - (set k | k in codes[..n]) == h.keys - (set k | k in codes);
    }
  }

  lemma {:induction false} IntroducedAreNew(codes: seq<nat>, active: set<nat>)
    requires Distinct(codes)
    ensures Distinct(Introduced(codes, active))
    ensures forall code :: code in Introduced(codes, active) ==> code in codes && code !in active
    decreases |codes|
  {
    if codes != [] {
      IntroducedAreNew(codes[1..], active);
      assert codes[0] !in codes[1..];
    }
  }

  /** Modifiers are pressed around the body and released again, so the body is all that counts. */
  lemma ScopedKeepsSound(p: Planner, modifiers: Option<Keys>, body: seq<Instruction>)
    requires IsSound(p) && Scoped(p, modifiers, body).Some?
    requires forall h: Held :: h.buttons == p.activeButtons ==> Leads(h, body, h)
    ensures IsSound(Scoped(p, modifiers, body).value)
  {
    var codes := if modifiers.None? then [] else KeyCodes(modifiers.value).value;
    var introduced := Introduced(codes, p.activeKeys);
    IntroducedAreNew(codes, p.activeKeys);
    ScopeLeads(HeldBy(p), introduced, body);
    var more := Presses(introduced) + body + Releases(introduced);
    Regroup(p.instructions, Presses(introduced), body, Releases(introduced));
    EmitKeepsSound(p, more, Scoped(p, modifiers, body).value);
  }

  lemma Regroup(a: seq<Instruction>, b: seq<Instruction>, c: seq<Instruction>, d: seq<Instruction>)
    ensures a + b + c + d == a + (b + c + d)
  {
  }

  lemma ScopeLeads(h: Held, introduced: seq<nat>, body: seq<Instruction>)
    requires Distinct(introduced) && forall code :: code in introduced ==> code !in h.keys
    requires forall g: Held :: g.buttons == h.buttons ==> Leads(g, body, g)
    ensures Leads(h, Presses(introduced) + body + Releases(introduced), h)
  {
    var pressed := h.(keys := h.keys + (set k | k in introduced));
    PressesLead(h, introduced);
    LeadsOn(h, Presses(introduced), pressed, body, pressed);
    ReleasesLead(pressed, introduced);
    assert pressed.keys - (set k | k in introduced) == h.keys;
    LeadsOn(h, Presses(introduced) + body, pressed, Releases(introduced), h);
  }

  predicate IsNeutral(i: Instruction) {
    i.TypeText? || i.MovePointer? || i.MovePath? || i.Wheel? || i.Sleep?
  }

  lemma {:induction false} NeutralLeads(h: Held, plan: seq<Instruction>)
    requires forall i :: i in plan ==> IsNeutral(i)
    ensures Leads(h, plan, h)
  {
    if plan != [] {
      assert plan[0] in plan && IsNeutral(plan[0]);
      assert forall i :: i in plan[1..] ==> i in plan;
      NeutralLeads(h, plan[1..]);
    }
  }

  lemma ButtonPairLeads(h: Held, flags: (nat, nat))
    requires flags.1 == UpFlag(flags.0) && flags.1 !in h.buttons
    ensures Leads(h, [PressButton(flags.0, flags.1), ReleaseButton(flags.1)], h)
  {
    var press, release := PressButton(flags.0, flags.1), ReleaseButton(flags.1);
    var down := Track(h, press);
    LeadsOne(h, press);
    LeadsOne(down, release);
    assert Track(down, release) == h;
    LeadsOn(h, [press], down, [release], h);
    assert [press] + [release] == [press, release];
  }

  lemma {:induction false} ClicksLead(h: Held, flags: (nat, nat), count: nat)
    requires flags.1 == UpFlag(flags.0) && flags.1 !in h.buttons
    ensures Leads(h, Clicks(flags, count), h)
  {
    if 0 < count {
      ClicksLead(h, flags, count - 1);
      ButtonPairLeads(h, flags);
      LeadsOn(h, Clicks(flags, count - 1), h, [PressButton(flags.0, flags.1), ReleaseButton(flags.1)], h);
    }
  }

  lemma DragLeads(h: Held, flags: (nat, nat), start: Point, path: Instruction)
    requires flags.1 == UpFlag(flags.0) && flags.1 !in h.buttons && IsNeutral(path)
    ensures Leads(h, [MovePointer(start), PressButton(flags.0, flags.1), path, ReleaseButton(flags.1)], h)
  {
    var move, press, release := MovePointer(start), PressButton(flags.0, flags.1), ReleaseButton(flags.1);
    var down := Track(h, press);
    LeadsOne(h, press);
    LeadsOne(down, path);
    LeadsOne(down, release);
    assert Track(down, release) == h;
    LeadsOn(h, [press], down, [path], down);
    LeadsOn(h, [press] + [path], down, [release], h);
    NeutralLeads(h, [move]);
    LeadsOn(h, [move], h, [press] + [path] + [release], h);
    assert [move] + ([press] + [path] + [release]) == [move, press, path, release];
  }

  lemma ButtonKeepsSound(p: Planner, locate: Locator, a: Action)
    requires IsSound(p) && (a.MouseDown? || a.MouseUp?) && PlanButton(p, locate, a).Some?
    ensures IsSound(PlanButton(p, locate, a).value)
  {
    var flags, move := ButtonFlags(a.button).value, OptionalMove(locate, a.where).value;
    var i := if a.MouseDown? then PressButton(flags.0, flags.1) else ReleaseButton(flags.1);
    var h := HeldBy(p);
    NeutralLeads(h, move);
    LeadsOne(h, i);
    LeadsOn(h, move, h, [i], Track(h, i));
    EmitKeepsSound(p, move + [i], PlanButton(p, locate, a).value);
  }

  lemma KeysKeepSound(p: Planner, a: Action)
    requires IsSound(p) && (a.KeyDown? || a.KeyUp? || a.Shortcut?) && PlanKeys(p, a).Some?
    ensures IsSound(PlanKeys(p, a).value)
  {
    var codes := KeyCodes(a.keys).value;
    if a.KeyDown? {
      HoldKeysKeepsSound(p, codes);
    } else if a.KeyUp? {
      LetGoKeysKeepsSound(p, codes);
    } else {
      LeadsOne(HeldBy(p), Hotkey(codes));
      EmitKeepsSound(p, [Hotkey(codes)], PlanKeys(p, a).value);
    }
  }

  lemma ClickKeepsSound(p: Planner, locate: Locator, a: Action)
    requires IsSound(p) && a.Click? && PlanClick(p, locate, a).Some?
    ensures IsSound(PlanClick(p, locate, a).value)
  {
    var flags, point := ButtonFlags(a.button).value, PointAt(locate, a.at, None, None).value;
    var count := Integer(a.clicks, 1, 3, Some(1)).value;
    forall h: Held | h.buttons == p.activeButtons
      ensures Leads(h, [MovePointer(point)] + Clicks(flags, count), h)
    {
      NeutralLeads(h, [MovePointer(point)]);
      ClicksLead(h, flags, count);
      LeadsOn(h, [MovePointer(point)], h, Clicks(flags, count), h);
    }
    ScopedKeepsSound(p, a.modifiers, [MovePointer(point)] + Clicks(flags, count));
  }

  lemma DragKeepsSound(p: Planner, locate: Locator, a: Action)
    requires IsSound(p) && a.Drag? && PlanDrag(p, locate, a).Some?
    ensures IsSound(PlanDrag(p, locate, a).value)
  {
    var flags, points := ButtonFlags(a.button).value, DragPoints(locate, a).value;
    var duration, steps := Integer(a.duration, 0, 5000, Some(300)).value, Integer(a.steps, 1, 120, Some(12)).value;
    var body := [MovePointer(points[0]), PressButton(flags.0, flags.1), MovePath(points, duration, steps),
                 ReleaseButton(flags.1)];
    forall h: Held | h.buttons == p.activeButtons
      ensures Leads(h, body, h)
    {
      DragLeads(h, flags, points[0], MovePath(points, duration, steps));
    }
    ScopedKeepsSound(p.(totalDuration := p.totalDuration + duration), a.modifiers, body);
  }

  lemma ScrollKeepsSound(p: Planner, locate: Locator, a: Action)
    requires IsSound(p) && a.Scroll? && PlanScroll(p, locate, a).Some?
    ensures IsSound(PlanScroll(p, locate, a).value)
  {
    var dx, dy := Integer(a.dx, -12000, 12000, Some(0)).value, Integer(a.dy, -12000, 12000, Some(0)).value;
    var body := OptionalMove(locate, a.where).value + (if dy != 0 then [Wheel(2048, dy)] else [])
                + (if dx != 0 then [Wheel(4096, dx)] else []);
    forall h: Held | h.buttons == p.activeButtons
      ensures Leads(h, body, h)
    {
      NeutralLeads(h, body);
    }
    ScopedKeepsSound(p, a.modifiers, body);
  }

  lemma ActionKeepsSound(p: Planner, locate: Locator, a: Action)
    requires IsSound(p) && PlanAction(p, locate, a).Some?
    ensures IsSound(PlanAction(p, locate, a).value)
  {
    match a
    case KeyDown(_) => KeysKeepSound(p, a);
    case KeyUp(_) => KeysKeepSound(p, a);
    case Shortcut(_) => KeysKeepSound(p, a);
    case MouseDown(_, _) => ButtonKeepsSound(p, locate, a);
    case MouseUp(_, _) => ButtonKeepsSound(p, locate, a);
    case Click(_, _, _, _) => ClickKeepsSound(p, locate, a);
    case Drag(_, _, _, _, _, _, _) => DragKeepsSound(p, locate, a);
    case Scroll(_, _, _, _) => ScrollKeepsSound(p, locate, a);
    case Type(text) => NeutralKeepsSound(p, TypeText(text), PlanAction(p, locate, a).value);
    case MoveTo(at) => NeutralKeepsSound(p, MovePointer(PointAt(locate, at, None, None).value),
                                         PlanAction(p, locate, a).value);
    case Wait(duration) => NeutralKeepsSound(p, Sleep(duration.value), PlanAction(p, locate, a).value);
    case Unsupported =>
  }

  lemma NeutralKeepsSound(p: Planner, i: Instruction, next: Planner)
    requires IsSound(p) && IsNeutral(i) && HeldBy(next) == HeldBy(p) && next.instructions == p.instructions + [i]
    ensures IsSound(next)
  {
    NeutralLeads(HeldBy(p), [i]);
    EmitKeepsSound(p, [i], next);
  }

  /** Every accepted list of actions is planned soundly, whatever is still held at its end. */
  lemma {:induction false} PlanKeepsSound(p: Planner, locate: Locator, actions: seq<Action>, i: nat)
    requires i <= |actions| && IsSound(p) && PlanFrom(p, locate, actions, i).Some?
    ensures IsSound(PlanFrom(p, locate, actions, i).value)
    decreases |actions| - i
  {
    if i < |actions| {
      ActionKeepsSound(p, locate, actions[i]);
      PlanKeepsSound(PlanAction(p, locate, actions[i]).value, locate, actions, i + 1);
    }
  }

  // ----- replaying a sound plan -----

  ghost predicate Notes(held: seq<nat>, down: set<nat>) {
    Distinct(held) && forall code :: code in held <==> code in down
  }

  /** Between instructions the machine, the script's notes and the planner's belief agree. */
  ghost predicate Agree(m: Machine, h: Held) {
    m.keys == h.keys && m.buttons == h.buttons && Notes(m.heldKeys, h.keys) && Notes(m.heldButtons, h.buttons)
  }

  lemma {:induction false} RemoveFirstRemoves(held: seq<nat>, code: nat)
    requires Distinct(held)
    ensures Distinct(RemoveFirst(held, code))
    ensures forall c :: c in RemoveFirst(held, code) <==> c in held && c != code
  {
    if held != [] && held[0] != code {
      RemoveFirstRemoves(held[1..], code);
      assert held == [held[0]] + held[1..];
      assert held[0] !in held[1..];
      assert held[0] !in RemoveFirst(held[1..], code);
    }
  }

  lemma NotesForget(held: seq<nat>, down: set<nat>, code: nat)
    requires Notes(held, down)
    ensures Notes(RemoveFirst(held, code), down - {code})
  {
    RemoveFirstRemoves(held, code);
  }

  lemma NotesAdd(held: seq<nat>, down: set<nat>, code: nat)
    requires Notes(held, down) && code !in down
    ensures Notes(held + [code], down + {code})
  {
  }

  /** The machine behind the first statement of an instruction. */
  function Half(m: Machine, i: Instruction): Machine {
    Execute(m, StatementsOf(i)[0])
  }

  function Whole(m: Machine, i: Instruction): Machine {
    if |StatementsOf(i)| == 1 then Half(m, i) else Execute(Half(m, i), StatementsOf(i)[1])
  }

  lemma InstructionRuns(m: Machine, h: Held, i: Instruction)
    requires Agree(m, h) && IsAllowed(h, i)
    ensures IsProper(m, StatementsOf(i)[0])
    ensures |StatementsOf(i)| == 2 ==> IsProper(Half(m, i), StatementsOf(i)[1])
    ensures Agree(Whole(m, i), Track(h, i))
  {
    match i
    case PressKey(code) => NotesAdd(m.heldKeys, h.keys, code);
    case ReleaseKey(code) => NotesForget(m.heldKeys, h.keys, code);
    case PressButton(_, upFlag) => NotesAdd(m.heldButtons, h.buttons, upFlag);
    case ReleaseButton(upFlag) => NotesForget(m.heldButtons, h.buttons, upFlag);
    case _ =>
  }

  lemma {:induction false} LeadsLast(h: Held, plan: seq<Instruction>, end: Held) returns (middle: Held)
    requires plan != [] && Leads(h, plan, end)
    ensures var n := |plan| - 1;
            Leads(h, plan[..n], middle) && IsAllowed(middle, plan[n]) && Track(middle, plan[n]) == end
    decreases |plan|
  {
    var n := |plan| - 1;
    if n == 0 {
      middle := h;
    } else {
      middle := LeadsLast(Track(h, plan[0]), plan[1..], end);
      assert plan[1..][..n - 1] == plan[..n][1..];
    }
  }

  lemma ReplayOneMore(m: Machine, script: seq<Statement>, s: Statement)
    ensures Replay(m, script + [s]) == Execute(Replay(m, script), s)
  {
    assert (script + [s])[..|script|] == script;
  }

  /** The end of a script and the places to stop in its last instruction. */
  lemma {:induction false} LastInstruction(front: seq<Statement>, i: Instruction)
    ensures Replay(Idle, front + StatementsOf(i)) == Whole(Replay(Idle, front), i)
    ensures Replay(Idle, (front + StatementsOf(i))[..|front| + 1]) == Half(Replay(Idle, front), i)
  {
    LastStatements(front, StatementsOf(i));
  }

  lemma {:induction false} LastStatements(front: seq<Statement>, last: seq<Statement>)
    requires 1 <= |last| <= 2
    ensures Replay(Idle, (front + last)[..|front| + 1]) == Execute(Replay(Idle, front), last[0])
    ensures |last| == 1 ==> Replay(Idle, front + last) == Execute(Replay(Idle, front), last[0])
    ensures |last| == 2 ==> Replay(Idle, front + last) == Execute(Execute(Replay(Idle, front), last[0]), last[1])
  {
    if |last| == 2 {
      ReplayTwoMore(front, last[0], last[1]);
      assert last == [last[0], last[1]];
    } else {
      ReplayOneMore(Idle, front, last[0]);
      assert last == [last[0]];
      assert (front + [last[0]])[..|front| + 1] == front + [last[0]];
    }
  }

  lemma {:induction false} ReplayTwoMore(front: seq<Statement>, first: Statement, second: Statement)
    ensures Replay(Idle, front + [first, second]) == Execute(Execute(Replay(Idle, front), first), second)
    ensures (front + [first, second])[..|front| + 1] == front + [first]
    ensures Replay(Idle, front + [first]) == Execute(Replay(Idle, front), first)
  {
    assert front + [first, second] == front + [first] + [second];
    ReplayOneMore(Idle, front, first);
    ReplayOneMore(Idle, front + [first], second);
  }

  /** At the end of a sound plan the machine holds what the planner believes, and every step was proper. */
  lemma {:induction false} SoundPlanRuns(plan: seq<Instruction>, end: Held)
    requires Leads(Held({}, {}), plan, end)
    ensures RunsProperly(Idle, Script(plan)) && Agree(Replay(Idle, Script(plan)), end)
    decreases |plan|
  {
    if plan != [] {
      var n := |plan| - 1;
      var middle := LeadsLast(Held({}, {}), plan, end);
      SoundPlanRuns(plan[..n], middle);
      var front, m := Script(plan[..n]), Replay(Idle, Script(plan[..n]));
      InstructionRuns(m, middle, plan[n]);
      LastInstruction(front, plan[n]);
      ProperFurther(front, plan[n]);
    }
  }

  lemma {:induction false} ProperFurther(front: seq<Statement>, i: Instruction)
    requires RunsProperly(Idle, front) && IsProper(Replay(Idle, front), StatementsOf(i)[0])
    requires |StatementsOf(i)| == 2 ==> IsProper(Half(Replay(Idle, front), i), StatementsOf(i)[1])
    ensures RunsProperly(Idle, front + StatementsOf(i))
  {
    var script := front + StatementsOf(i);
    LastInstruction(front, i);
    assert script[..|front|] == front;
    forall k | 0 <= k < |front|
      ensures IsProper(Replay(Idle, script[..k]), script[k])
    {
      assert script[..k] == front[..k];
      assert IsProper(Replay(Idle, front[..k]), front[k]);
    }
  }

  // ----- stopping anywhere -----

  /** The key or button that went down in a statement whose note was not written any more. */
  function LeftDownKeys(last: Statement): set<nat> {
    match last
    case PushKey(code) => {code}
    case _ => {}
  }

  function LeftDownButtons(last: Statement): set<nat> {
    match last
    case PushButton(downFlag) => {UpFlag(downFlag)}
    case _ => {}
  }

  lemma AgreementCleansUp(m: Machine, h: Held)
    requires Agree(m, h)
    ensures CleanUp(m).keys == {} && CleanUp(m).buttons == {}
  {
    CleanUpReleasesNoted(m);
  }

  lemma HalfwayCleansUp(m: Machine, h: Held, i: Instruction)
    requires Agree(m, h) && IsAllowed(h, i)
    ensures CleanUp(Half(m, i)).keys == LeftDownKeys(StatementsOf(i)[0])
    ensures CleanUp(Half(m, i)).buttons == LeftDownButtons(StatementsOf(i)[0])
  {
    CleanUpReleasesNoted(Half(m, i));
  }

  /**
   Stopping behind any statement and cleaning up leaves nothing down, but for the one key or button that
   was pressed by the very last statement: its note had not been written yet.
   */
  lemma {:induction false} StoppingCleansUp(plan: seq<Instruction>, end: Held, n: nat)
    requires Leads(Held({}, {}), plan, end) && n <= |Script(plan)|
    ensures var stopped := CleanUp(Replay(Idle, Script(plan)[..n]));
            && stopped.keys == (if n == 0 then {} else LeftDownKeys(Script(plan)[n - 1]))
            && stopped.buttons == (if n == 0 then {} else LeftDownButtons(Script(plan)[n - 1]))
    decreases |plan|
  {
    if plan == [] {
      assert Script(plan)[..n] == [];
      AgreementCleansUp(Idle, Held({}, {}));
    } else {
      var last := plan[|plan| - 1];
      var front := Script(plan[..|plan| - 1]);
      var middle := LeadsLast(Held({}, {}), plan, end);
      if n <= |front| {
        assert Script(plan)[..n] == front[..n];
        StoppingCleansUp(plan[..|plan| - 1], middle, n);
      } else {
        SoundPlanRuns(plan[..|plan| - 1], middle);
        StoppingInLast(front, last, middle, n);
      }
    }
  }

  lemma StoppingInLast(front: seq<Statement>, last: Instruction, middle: Held, n: nat)
    requires Agree(Replay(Idle, front), middle) && IsAllowed(middle, last)
    requires |front| < n <= |front + StatementsOf(last)|
    ensures var script := front + StatementsOf(last); var stopped := CleanUp(Replay(Idle, script[..n]));
            && stopped.keys == LeftDownKeys(script[n - 1])
            && stopped.buttons == LeftDownButtons(script[n - 1])
  {
    var script, m := front + StatementsOf(last), Replay(Idle, front);
    LastInstruction(front, last);
    if n == |front| + 1 {
      HalfwayCleansUp(m, middle, last);
    } else {
      assert n == |script| && script[..n] == script;
      InstructionRuns(m, middle, last);
      AgreementCleansUp(Whole(m, last), Track(middle, last));
    }
  }

  // ----- every accepted list of actions -----

  /** What the planner emits, it never takes back; so every list of fewer actions is planned by a prefix. */
  lemma {:induction false} PlannedByPrefix(p: Planner, locate: Locator, actions: seq<Action>, i: nat, j: nat)
    requires i <= j <= |actions| && PlanFrom(p, locate, actions, i).Some?
    ensures PlanFrom(p, locate, actions[..j], i).Some?
    ensures PlanFrom(PlanFrom(p, locate, actions[..j], i).value, locate, actions, j) == PlanFrom(p, locate, actions, i)
    decreases |actions| - i
  {
    if i < j {
      PlannedByPrefix(PlanAction(p, locate, actions[i]).value, locate, actions, i + 1, j);
    }
  }

  /** After each action the machine holds exactly what the planner has recorded as active. */
  lemma HeldAfterEachAction(locate: Locator, actions: seq<Action>, j: nat)
    requires Plan(locate, actions).Some? && j <= |actions|
    ensures var p := PlanFrom(Initial, locate, actions[..j], 0);
            p.Some? && Agree(Replay(Idle, Script(p.value.instructions)), HeldBy(p.value))
  {
    PlannedByPrefix(Initial, locate, actions, 0, j);
    PlanKeepsSound(Initial, locate, actions[..j], 0);
    var p := PlanFrom(Initial, locate, actions[..j], 0).value;
    SoundPlanRuns(p.instructions, HeldBy(p));
  }

  /**
   An accepted plan never presses what is down or releases what is up; stopping it anywhere and cleaning
   up leaves nothing down but a key or button pressed by the very last statement.
   */
  lemma AcceptedPlanIsSafe(locate: Locator, actions: seq<Action>, n: nat)
    requires Plan(locate, actions).Some? && n <= |Script(Plan(locate, actions).value)|
    ensures var script := Script(Plan(locate, actions).value); var stopped := CleanUp(Replay(Idle, script[..n]));
            && RunsProperly(Idle, script)
            && stopped.keys == (if n == 0 then {} else LeftDownKeys(script[n - 1]))
            && stopped.buttons == (if n == 0 then {} else LeftDownButtons(script[n - 1]))
  {
    var p := PlanFrom(Initial, locate, actions, 0).value;
    PlanKeepsSound(Initial, locate, actions, 0);
    SoundPlanRuns(p.instructions, HeldBy(p));
    StoppingCleansUp(p.instructions, HeldBy(p), n);
  }

  /** At a boundary between instructions, nothing is left down at all. */
  lemma StoppingBetweenInstructions(locate: Locator, actions: seq<Action>, k: nat)
    requires Plan(locate, actions).Some? && k <= |Plan(locate, actions).value|
    ensures var stopped := CleanUp(Replay(Idle, Script(Plan(locate, actions).value[..k])));
            stopped.keys == {} && stopped.buttons == {}
  {
    var p := PlanFrom(Initial, locate, actions, 0).value;
    PlanKeepsSound(Initial, locate, actions, 0);
    var middle := LeadsPrefix(Held({}, {}), p.instructions, HeldBy(p), k);
    SoundPlanRuns(p.instructions[..k], middle);
    AgreementCleansUp(Replay(Idle, Script(p.instructions[..k])), middle);
  }

  lemma {:induction false} LeadsPrefix(h: Held, plan: seq<Instruction>, end: Held, k: nat) returns (middle: Held)
    requires k <= |plan| && Leads(h, plan, end)
    ensures Leads(h, plan[..k], middle)
    decreases |plan|
  {
    if k == |plan| {
      assert plan[..k] == plan;
      middle := end;
    } else {
      var before := LeadsLast(h, plan, end);
      middle := LeadsPrefix(h, plan[..|plan| - 1], before, k);
      assert plan[..|plan| - 1][..k] == plan[..k];
    }
  }

  /** One key_down that stops behind its first statement: the key stays down. */
  lemma StoppingCanLeaveKeyDown(locate: Locator)
    ensures var plan := Plan(locate, [Action.KeyDown([Some(65)])]);
            && plan == Some([PressKey(65)]) && Script(plan.value) == [PushKey(65), NoteKey(65)]
            && CleanUp(Replay(Idle, Script(plan.value)[..1])) == Idle.(keys := {65})
  {
    var a := Action.KeyDown([Some(65)]);
    var held := Planner({65}, {}, [PressKey(65)], 0);
    assert a.keys[0] == Some(65) && KeyCodes(a.keys).Some? && KeyCodes(a.keys).value == [65];
    assert HoldKeys(held, []) == Some(held) && {} + {65} == {65} && [] + [PressKey(65)] == [PressKey(65)];
    assert HoldKeys(Initial, [65]) == Some(held);
    assert PlanAction(Initial, locate, a) == Some(held);
    assert PlanFrom(held, locate, [a], 1) == Some(held);
    assert PlanFrom(Initial, locate, [a], 0) == Some(held);
    assert Script([]) == [] && [PressKey(65)][..0] == [];
    var script := Script([PressKey(65)]);
    assert script == [PushKey(65), NoteKey(65)] && script[..1] == [PushKey(65)];
    assert [PushKey(65)][..0] == [];
    assert Replay(Idle, [PushKey(65)]) == Execute(Idle, PushKey(65));
  }
}
