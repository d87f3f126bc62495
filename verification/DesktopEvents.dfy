/**
 What a list of desktop actions does to the machine: the input events of each action, said without the
 planner's flags and instructions, and exactly which lists are accepted.
 */
module DesktopEvents {
  import opened Options
  import opened DesktopPlanner

  // ----- events -----

  datatype Event =
    | KeyFalls(code: nat)
    | KeyRises(code: nat)
    | ButtonFalls(button: Button)
    | ButtonRises(button: Button)
    | WheelTurns(upright: bool, delta: int)
    | PointerAt(at: Point)
    | PointerGlides(points: seq<Point>, duration: int, steps: int)
    | Typed(text: string)
    | Pause(duration: int)
    | UnknownEvent(flag: nat)

  /** The flags of the operating system's call for mouse events. */
  function MouseEvent(flag: nat, data: int): Event {
    match flag
    case 0x0002 => ButtonFalls(Left)
    case 0x0004 => ButtonRises(Left)
    case 0x0008 => ButtonFalls(Right)
    case 0x0010 => ButtonRises(Right)
    case 0x0020 => ButtonFalls(Middle)
    case 0x0040 => ButtonRises(Middle)
    case 0x0800 => WheelTurns(true, data)
    case 0x1000 => WheelTurns(false, data)
    case _ => UnknownEvent(flag)
  }

  function Falling(codes: seq<nat>): seq<Event> {
    seq(|codes|, i requires 0 <= i < |codes| => KeyFalls(codes[i]))
  }

  function Rising(codes: seq<nat>): seq<Event> {
    seq(|codes|, i requires 0 <= i < |codes| => KeyRises(codes[|codes| - 1 - i]))
  }

  /** What the machine does on an instruction. */
  function EventsOf(i: Instruction): seq<Event> {
    match i
    case PressKey(code) => [KeyFalls(code)]
    case ReleaseKey(code) => [KeyRises(code)]
    case PressButton(downFlag, _) => [MouseEvent(downFlag, 0)]
    case ReleaseButton(upFlag) => [MouseEvent(upFlag, 0)]
    case Hotkey(codes) => Falling(codes) + Rising(codes)
    case TypeText(text) => [Typed(text)]
    case MovePointer(to) => [PointerAt(to)]
    case MovePath(points, duration, steps) => [PointerGlides(points, duration, steps)]
    case Wheel(flag, delta) => [MouseEvent(flag, delta)]
    case Sleep(duration) => [Pause(duration)]
  }

  function Events(plan: seq<Instruction>): seq<Event> {
    if plan == [] then [] else Events(plan[..|plan| - 1]) + EventsOf(plan[|plan| - 1])
  }

  // ----- what an action asks for -----

  /** What is down when an action begins. */
  datatype Down = Down(keys: set<nat>, buttons: set<Button>)

  predicate AreCodes(keys: Keys, codes: seq<nat>) {
    && AreKeys(keys) && |codes| == |keys|
    && forall i :: 0 <= i < |keys| ==> keys[i] == Some(codes[i])
  }

  function Given(value: Option<int>, otherwise: int): int {
    if value.Some? then value.value else otherwise
  }

  /** The point of a place; a display or reference it lacks is the one of the place before. */
  predicate LiesAt(locate: Locator, at: Place, display: Option<int>, reference: Option<string>, point: Point) {
    && at.x.Some? && 0 <= at.x.value <= 1000000
    && at.y.Some? && 0 <= at.y.value <= 1000000
    && (at.display.Some? ==> 0 <= at.display.value <= 64)
    && locate(if at.display.Some? then at.display else display, at.x.value, at.y.value,
              if at.reference.Some? then at.reference else reference) == Some(point)
  }

  ghost predicate MovesTo(locate: Locator, where: Option<Place>, events: seq<Event>) {
    if where.None? then events == []
    else exists point :: LiesAt(locate, where.value, None, None, point) && events == [PointerAt(point)]
  }

  /** A place behind the start of a drag; on another display the reference of the drag is of no use. */
  predicate LiesBehind(locate: Locator, start: Point, reference: Option<string>, at: Place, point: Point) {
    if at.display.Some? && at.display.value != start.display then
      (reference.Some? ==> at.reference.Some?) && LiesAt(locate, at, None, None, point)
    else LiesAt(locate, at, Some(start.display), reference, point)
  }

  predicate IsRoute(locate: Locator, drag: Action, points: seq<Point>)
    requires drag.Drag?
  {
    var places := if drag.path.Some? then drag.path.value else [drag.to];
    && (drag.path.Some? ==> 1 <= |places| <= 32 && drag.to.x.None? && drag.to.y.None?)
    && |points| == |places| + 1
    && LiesAt(locate, drag.at, None, None, points[0])
    && forall i :: 0 <= i < |places| ==> LiesBehind(locate, points[0], drag.at.reference, places[i], points[i + 1])
  }

  /** The keys that are not down already, in their order. */
  function NotDown(codes: seq<nat>, down: set<nat>): seq<nat> {
    if codes == [] then []
    else NotDown(codes[..|codes| - 1], down) + if codes[|codes| - 1] in down then [] else [codes[|codes| - 1]]
  }

  /** The modifiers that are not down already are held around the events. */
  ghost predicate Around(down: set<nat>, modifiers: Option<Keys>, inner: seq<Event>, events: seq<Event>) {
    exists codes ::
      && (if modifiers.None? then codes == [] else AreCodes(modifiers.value, codes))
      && events == Falling(NotDown(codes, down)) + inner + Rising(NotDown(codes, down))
  }

  function Repeated(events: seq<Event>, count: nat): seq<Event> {
    if count == 0 then [] else Repeated(events, count - 1) + events
  }

  function Clicked(button: Button, point: Point, count: nat): seq<Event> {
    [PointerAt(point)] + Repeated([ButtonFalls(button), ButtonRises(button)], count)
  }

  predicate NoneDown(codes: seq<nat>, down: set<nat>) {
    forall code :: code in codes ==> code !in down
  }

  predicate AllDown(codes: seq<nat>, down: set<nat>) {
    forall code :: code in codes ==> code in down
  }

  /** The events of a drag along a route, without modifiers. */
  function Dragged(a: Action, points: seq<Point>): seq<Event>
    requires a.Drag? && points != []
  {
    [PointerAt(points[0]), ButtonFalls(a.button), PointerGlides(points, Given(a.duration, 300), Given(a.steps, 12)),
     ButtonRises(a.button)]
  }

  /** Within the limits of a drag. */
  predicate IsTimely(a: Action)
    requires a.Drag?
  {
    0 <= Given(a.duration, 300) <= 5000 && 1 <= Given(a.steps, 12) <= 120
  }

  predicate IsKnown(button: Button) {
    button != UnknownButton
  }

  ghost predicate DoesKeyDown(down: set<nat>, keys: Keys, events: seq<Event>) {
    exists codes :: AreCodes(keys, codes) && NoneDown(codes, down) && events == Falling(codes)
  }

  ghost predicate DoesKeyUp(down: set<nat>, keys: Keys, events: seq<Event>) {
    exists codes :: AreCodes(keys, codes) && AllDown(codes, down) && events == Rising(codes)
  }

  ghost predicate DoesShortcut(down: set<nat>, keys: Keys, events: seq<Event>) {
    exists codes :: AreCodes(keys, codes) && NoneDown(codes, down) && events == Falling(codes) + Rising(codes)
  }

  ghost predicate DoesMove(locate: Locator, at: Place, events: seq<Event>) {
    exists point :: LiesAt(locate, at, None, None, point) && events == [PointerAt(point)]
  }

  ghost predicate DoesButton(locate: Locator, where: Option<Place>, event: Event, events: seq<Event>) {
    exists move :: MovesTo(locate, where, move) && events == move + [event]
  }

  ghost predicate DoesClick(down: Down, locate: Locator, a: Action, events: seq<Event>)
    requires a.Click?
  {
    && 1 <= Given(a.clicks, 1) <= 3
    && exists point ::
         && LiesAt(locate, a.at, None, None, point)
         && Around(down.keys, a.modifiers, Clicked(a.button, point, Given(a.clicks, 1)), events)
  }

  ghost predicate DoesDrag(down: Down, locate: Locator, a: Action, events: seq<Event>)
    requires a.Drag?
  {
    && IsTimely(a)
    && exists points ::
         IsRoute(locate, a, points) && Around(down.keys, a.modifiers, Dragged(a, points), events)
  }

  ghost predicate DoesScroll(down: Down, locate: Locator, a: Action, events: seq<Event>)
    requires a.Scroll?
  {
    var dx, dy := Given(a.dx, 0), Given(a.dy, 0);
    && -12000 <= dx <= 12000 && -12000 <= dy <= 12000 && (dx != 0 || dy != 0)
    && exists move ::
         MovesTo(locate, a.where, move) && Around(down.keys, a.modifiers, move + Turned(dx, dy), events)
  }

  /** The events of an action that may be carried out; there are none if it may not. */
  ghost predicate Does(down: Down, locate: Locator, a: Action, events: seq<Event>) {
    match a
    case KeyDown(keys) => DoesKeyDown(down.keys, keys, events)
    case KeyUp(keys) => DoesKeyUp(down.keys, keys, events)
    case Shortcut(keys) => DoesShortcut(down.keys, keys, events)
    case Type(text) => |text| <= 16384 && events == [Typed(text)]
    case MoveTo(at) => DoesMove(locate, at, events)
    case MouseDown(button, where) =>
      IsKnown(button) && button !in down.buttons && DoesButton(locate, where, ButtonFalls(button), events)
    case MouseUp(button, where) =>
      IsKnown(button) && button in down.buttons && DoesButton(locate, where, ButtonRises(button), events)
    case Click(button, _, _, _) => IsKnown(button) && button !in down.buttons && DoesClick(down, locate, a, events)
    case Drag(button, _, _, _, _, _, _) =>
      IsKnown(button) && button !in down.buttons && DoesDrag(down, locate, a, events)
    case Scroll(_, _, _, _) => DoesScroll(down, locate, a, events)
    case Wait(duration) => duration.Some? && 0 <= duration.value <= 2000 && events == [Pause(duration.value)]
    case Unsupported => false
  }

  /** The upright wheel first. */
  function Turned(dx: int, dy: int): seq<Event> {
    (if dy != 0 then [WheelTurns(true, dy)] else []) + (if dx != 0 then [WheelTurns(false, dx)] else [])
  }

  function Named(keys: Keys): set<nat> {
    set key <- keys | key.Some? :: key.value
  }

  function After(down: Down, a: Action): Down {
    match a
    case KeyDown(keys) => down.(keys := down.keys + Named(keys))
    case KeyUp(keys) => down.(keys := down.keys - Named(keys))
    case MouseDown(button, _) => down.(buttons := down.buttons + {button})
    case MouseUp(button, _) => down.(buttons := down.buttons - {button})
    case _ => down
  }

  function Duration(a: Action): int {
    if a.Drag? then Given(a.duration, 300) else if a.Wait? then Given(a.duration, 0) else 0
  }

  // ----- the planner's view -----

  /** The planner keeps a button as the flag of its rising. */
  ghost predicate Knows(p: Planner, down: Down) {
    && p.activeKeys == down.keys
    && (forall button :: button in down.buttons ==> IsKnown(button))
    && (forall button, flag: nat {:trigger IsKnown(button), MouseEvent(flag, 0)} ::
          IsKnown(button) && MouseEvent(flag, 0) == ButtonRises(button) ==>
            (flag in p.activeButtons <==> button in down.buttons))
  }

  /** The planner accepts an action exactly when it has events, and adds instructions for just these. */
  ghost predicate Plans(p: Planner, next: Option<Planner>, down: Down, locate: Locator, a: Action,
                        events: seq<Event>) {
    && (next.Some? ==>
          && Knows(next.value, After(down, a))
          && next.value.totalDuration == p.totalDuration + Duration(a))
    && (Does(down, locate, a, events)
        <==> next.Some? && Events(next.value.instructions) == Events(p.instructions) + events)
  }

  // ----- events of instructions -----

  lemma EventsOfOneMore(plan: seq<Instruction>, i: Instruction)
    ensures Events(plan + [i]) == Events(plan) + EventsOf(i)
  {
    assert (plan + [i])[..|plan|] == plan;
  }

  lemma EventsRegroup(front: seq<Event>, first: seq<Event>, rest: seq<Event>)
    ensures front + (first + rest) == front + first + rest
  {
  }

  lemma InstructionsRegroup(front: seq<Instruction>, first: seq<Instruction>, rest: seq<Instruction>)
    ensures front + (first + rest) == front + first + rest
  {
  }

  lemma {:induction false} EventsOfBoth(front: seq<Instruction>, back: seq<Instruction>)
    ensures Events(front + back) == Events(front) + Events(back)
    decreases |back|
  {
    if back == [] {
      assert front + back == front;
    } else {
      var rest, last := back[..|back| - 1], back[|back| - 1];
      assert back == rest + [last];
      InstructionsRegroup(front, rest, [last]);
      EventsOfOneMore(front + rest, last);
      EventsOfOneMore(rest, last);
      EventsOfBoth(front, rest);
      EventsRegroup(Events(front), Events(rest), EventsOf(last));
    }
  }

  lemma EventsOfOne(i: Instruction)
    ensures Events([i]) == EventsOf(i)
  {
    EventsOfOneMore([], i);
    assert [] + [i] == [i];
  }

  lemma {:induction false} PressesFall(codes: seq<nat>)
    ensures Events(Presses(codes)) == Falling(codes)
    decreases |codes|
  {
    if codes != [] {
      var n := |codes| - 1;
      assert Presses(codes) == Presses(codes[..n]) + [PressKey(codes[n])];
      EventsOfOneMore(Presses(codes[..n]), PressKey(codes[n]));
      PressesFall(codes[..n]);
    }
  }

  lemma {:induction false} ReleasesRise(codes: seq<nat>)
    ensures Events(Releases(codes)) == Rising(codes)
    decreases |codes|
  {
    if codes != [] {
      assert Releases(codes) == Releases(codes[1..]) + [ReleaseKey(codes[0])];
      EventsOfOneMore(Releases(codes[1..]), ReleaseKey(codes[0]));
      ReleasesRise(codes[1..]);
    }
  }

  /** Appending instructions appends events, and no others. */
  lemma Appended(p: Planner, more: seq<Instruction>, found: seq<Event>, events: seq<Event>)
    requires Events(more) == found
    ensures Events(p.instructions + more) == Events(p.instructions) + events <==> events == found
  {
    EventsOfBoth(p.instructions, more);
    var front := Events(p.instructions);
    assert (front + found)[|front|..] == found && (front + events)[|front|..] == events;
  }

  // ----- arguments -----

  lemma CodesAreGiven(keys: Keys, codes: seq<nat>)
    ensures KeyCodes(keys) == Some(codes) <==> AreCodes(keys, codes)
  {
    if AreCodes(keys, codes) {
      var given := KeyCodes(keys).value;
      assert forall i :: 0 <= i < |keys| ==> given[i] == codes[i];
      assert given == codes;
    }
  }

  lemma PointIsGiven(locate: Locator, at: Place, display: Option<int>, reference: Option<string>, point: Point)
    ensures PointAt(locate, at, display, reference) == Some(point) <==> LiesAt(locate, at, display, reference, point)
  {
  }

  lemma MoveIsGiven(locate: Locator, where: Option<Place>, events: seq<Event>)
    ensures var move := OptionalMove(locate, where);
            MovesTo(locate, where, events) <==> move.Some? && Events(move.value) == events
  {
    var move := OptionalMove(locate, where);
    if move.Some? && where.Some? {
      var point := PointAt(locate, where.value, None, None).value;
      PointIsGiven(locate, where.value, None, None, point);
      EventsOfOne(MovePointer(point));
    }
    if MovesTo(locate, where, events) && where.Some? {
      var point :| LiesAt(locate, where.value, None, None, point) && events == [PointerAt(point)];
      PointIsGiven(locate, where.value, None, None, point);
    }
  }

  lemma FlagsAreTheButtons(button: Button, flag: nat)
    ensures ButtonFlags(button).Some? <==> IsKnown(button)
    ensures IsKnown(button) ==>
              && MouseEvent(ButtonFlags(button).value.0, 0) == ButtonFalls(button)
              && (MouseEvent(flag, 0) == ButtonRises(button) <==> flag == ButtonFlags(button).value.1)
  {
  }

  lemma ButtonIsDown(p: Planner, down: Down, button: Button)
    requires Knows(p, down) && IsKnown(button)
    ensures ButtonFlags(button).Some? && (ButtonFlags(button).value.1 in p.activeButtons <==> button in down.buttons)
    ensures MouseEvent(ButtonFlags(button).value.0, 0) == ButtonFalls(button)
    ensures MouseEvent(ButtonFlags(button).value.1, 0) == ButtonRises(button)
  {
    FlagsAreTheButtons(button, ButtonFlags(button).value.1);
  }

  // ----- keys -----

  function CodeSet(codes: seq<nat>): set<nat> {
    set code <- codes
  }

  lemma OneKeyFirst(down: set<nat>, front: seq<Instruction>, head: nat, rest: seq<nat>)
    requires head !in down && head !in rest
    ensures NoneDown(rest, down + {head}) <==> NoneDown([head] + rest, down)
    ensures down + {head} + CodeSet(rest) == down + CodeSet([head] + rest)
    ensures front + [PressKey(head)] + Presses(rest) == front + Presses([head] + rest)
  {
    assert forall code :: code in [head] + rest <==> code == head || code in rest;
    assert Presses([head] + rest) == [PressKey(head)] + Presses(rest);
  }

  lemma {:induction false} HoldKeysHolds(p: Planner, codes: seq<nat>)
    requires Distinct(codes)
    ensures var next := HoldKeys(p, codes);
            && (next.Some? <==> NoneDown(codes, p.activeKeys))
            && (next.Some? ==>
                  next.value == Planner(p.activeKeys + CodeSet(codes), p.activeButtons,
                                        p.instructions + Presses(codes), p.totalDuration))
    decreases |codes|
  {
    if codes == [] {
      assert p.activeKeys + CodeSet(codes) == p.activeKeys && p.instructions + Presses(codes) == p.instructions;
    } else {
      var head, rest := codes[0], codes[1..];
      assert codes == [head] + rest && head !in rest;
      if head !in p.activeKeys {
        var next := p.(activeKeys := p.activeKeys + {head}, instructions := p.instructions + [PressKey(head)]);
        HoldKeysHolds(next, rest);
        OneKeyFirst(p.activeKeys, p.instructions, head, rest);
      } else {
        assert head in codes;
      }
    }
  }

  lemma OneKeyLast(down: set<nat>, front: seq<Instruction>, last: nat, rest: seq<nat>)
    requires last in down && last !in rest
    ensures AllDown(rest, down - {last}) <==> AllDown(rest + [last], down)
    ensures down - {last} - CodeSet(rest) == down - CodeSet(rest + [last])
    ensures front + [ReleaseKey(last)] + Releases(rest) == front + Releases(rest + [last])
  {
    assert forall code :: code in rest + [last] <==> code == last || code in rest;
    assert Releases(rest + [last]) == [ReleaseKey(last)] + Releases(rest);
  }

  lemma {:induction false} LetGoKeysLetsGo(p: Planner, codes: seq<nat>)
    requires Distinct(codes)
    ensures var next := LetGoKeys(p, codes);
            && (next.Some? <==> AllDown(codes, p.activeKeys))
            && (next.Some? ==>
                  next.value == Planner(p.activeKeys - CodeSet(codes), p.activeButtons,
                                        p.instructions + Releases(codes), p.totalDuration))
    decreases |codes|
  {
    if codes == [] {
      assert p.activeKeys - CodeSet(codes) == p.activeKeys && p.instructions + Releases(codes) == p.instructions;
    } else {
      var n := |codes| - 1;
      var last, rest := codes[n], codes[..n];
      assert codes == rest + [last] && last !in rest;
      if last in p.activeKeys {
        var next := p.(activeKeys := p.activeKeys - {last}, instructions := p.instructions + [ReleaseKey(last)]);
        LetGoKeysLetsGo(next, rest);
        OneKeyLast(p.activeKeys, p.instructions, last, rest);
      } else {
        assert last in codes;
      }
    }
  }

  lemma NamedAreCodes(keys: Keys, codes: seq<nat>)
    requires AreCodes(keys, codes)
    ensures Named(keys) == CodeSet(codes)
  {
    forall code
      ensures code in Named(keys) <==> code in CodeSet(codes)
    {
      if code in codes {
        var i :| 0 <= i < |codes| && codes[i] == code;
        assert keys[i] == Some(code) && keys[i] in keys;
      }
      if code in Named(keys) {
        var i :| 0 <= i < |keys| && keys[i] == Some(code);
        assert codes[i] == code;
      }
    }
  }

  lemma OnlyCodes(keys: Keys)
    ensures forall codes :: AreCodes(keys, codes) <==> KeyCodes(keys) == Some(codes)
  {
    forall codes
      ensures AreCodes(keys, codes) <==> KeyCodes(keys) == Some(codes)
    {
      CodesAreGiven(keys, codes);
    }
  }

  /** The keys of an action decide its events. */
  lemma KeysAreDecided(down: set<nat>, keys: Keys, events: seq<Event>)
    ensures var codes := KeyCodes(keys);
            && (DoesKeyDown(down, keys, events) <==>
                  codes.Some? && NoneDown(codes.value, down) && events == Falling(codes.value))
            && (DoesKeyUp(down, keys, events) <==>
                  codes.Some? && AllDown(codes.value, down) && events == Rising(codes.value))
            && (DoesShortcut(down, keys, events) <==>
                  codes.Some? && NoneDown(codes.value, down)
                  && events == Falling(codes.value) + Rising(codes.value))
  {
    OnlyCodes(keys);
  }

  lemma KeyDownPlans(p: Planner, down: Down, locate: Locator, a: Action, events: seq<Event>)
    requires a.KeyDown? && Knows(p, down)
    ensures Plans(p, PlanKeys(p, a), down, locate, a, events)
  {
    KeysAreDecided(down.keys, a.keys, events);
    if KeyCodes(a.keys).Some? {
      var codes := KeyCodes(a.keys).value;
      CodesAreGiven(a.keys, codes);
      NamedAreCodes(a.keys, codes);
      HoldKeysHolds(p, codes);
      PressesFall(codes);
      Appended(p, Presses(codes), Falling(codes), events);
    }
  }

  lemma KeyUpPlans(p: Planner, down: Down, locate: Locator, a: Action, events: seq<Event>)
    requires a.KeyUp? && Knows(p, down)
    ensures Plans(p, PlanKeys(p, a), down, locate, a, events)
  {
    KeysAreDecided(down.keys, a.keys, events);
    if KeyCodes(a.keys).Some? {
      var codes := KeyCodes(a.keys).value;
      CodesAreGiven(a.keys, codes);
      NamedAreCodes(a.keys, codes);
      LetGoKeysLetsGo(p, codes);
      ReleasesRise(codes);
      Appended(p, Releases(codes), Rising(codes), events);
    }
  }

  lemma HotkeyAppended(p: Planner, codes: seq<nat>, events: seq<Event>)
    ensures Events(p.instructions + [Hotkey(codes)]) == Events(p.instructions) + events <==>
            events == Falling(codes) + Rising(codes)
  {
    EventsOfOne(Hotkey(codes));
    Appended(p, [Hotkey(codes)], Falling(codes) + Rising(codes), events);
  }

  lemma ShortcutPlans(p: Planner, down: Down, locate: Locator, a: Action, events: seq<Event>)
    requires a.Shortcut? && Knows(p, down)
    ensures Plans(p, PlanKeys(p, a), down, locate, a, events)
  {
    KeysAreDecided(down.keys, a.keys, events);
    if KeyCodes(a.keys).Some? {
      var codes := KeyCodes(a.keys).value;
      HotkeyAppended(p, codes, events);
    }
  }

  // ----- pointer and buttons -----

  lemma TypePlans(p: Planner, down: Down, locate: Locator, a: Action, events: seq<Event>)
    requires a.Type? && Knows(p, down)
    ensures Plans(p, PlanAction(p, locate, a), down, locate, a, events)
  {
    EventsOfOne(TypeText(a.text));
    Appended(p, [TypeText(a.text)], [Typed(a.text)], events);
  }

  lemma WaitPlans(p: Planner, down: Down, locate: Locator, a: Action, events: seq<Event>)
    requires a.Wait? && Knows(p, down)
    ensures Plans(p, PlanAction(p, locate, a), down, locate, a, events)
  {
    if a.duration.Some? && 0 <= a.duration.value {
      EventsOfOne(Sleep(a.duration.value));
      Appended(p, [Sleep(a.duration.value)], [Pause(a.duration.value)], events);
    }
  }

  lemma OnlyPoint(locate: Locator, at: Place)
    ensures forall point :: LiesAt(locate, at, None, None, point) <==> PointAt(locate, at, None, None) == Some(point)
  {
  }

  lemma MoveIsDecided(locate: Locator, at: Place, events: seq<Event>)
    ensures var point := PointAt(locate, at, None, None);
            DoesMove(locate, at, events) <==> point.Some? && events == [PointerAt(point.value)]
  {
    OnlyPoint(locate, at);
  }

  lemma PointerAppended(p: Planner, point: Point, events: seq<Event>)
    ensures Events(p.instructions + [MovePointer(point)]) == Events(p.instructions) + events <==>
            events == [PointerAt(point)]
  {
    EventsOfOne(MovePointer(point));
    Appended(p, [MovePointer(point)], [PointerAt(point)], events);
  }

  lemma MoveToPlans(p: Planner, down: Down, locate: Locator, a: Action, events: seq<Event>)
    requires a.MoveTo? && Knows(p, down)
    ensures Plans(p, PlanAction(p, locate, a), down, locate, a, events)
  {
    var point := PointAt(locate, a.at, None, None);
    MoveIsDecided(locate, a.at, events);
    if point.Some? {
      PointerAppended(p, point.value, events);
    }
  }

  /** A button's event behind the move, if any. */
  lemma MoveThen(locate: Locator, where: Option<Place>, event: Event, events: seq<Event>)
    ensures DoesButton(locate, where, event, events)
            <==> (var move := OptionalMove(locate, where);
                  move.Some? && events == Events(move.value) + [event])
  {
    var move := OptionalMove(locate, where);
    if move.Some? {
      MoveIsGiven(locate, where, Events(move.value));
    }
    forall more | MovesTo(locate, where, more)
      ensures move.Some? && Events(move.value) == more
    {
      MoveIsGiven(locate, where, more);
    }
  }

  /** The instructions of a button behind its move have the events of a button behind that move. */
  lemma ButtonAppended(p: Planner, locate: Locator, where: Option<Place>, i: Instruction, event: Event,
                       events: seq<Event>)
    requires EventsOf(i) == [event]
    ensures DoesButton(locate, where, event, events)
            <==> (var move := OptionalMove(locate, where);
                  move.Some? && Events(p.instructions + (move.value + [i])) == Events(p.instructions) + events)
  {
    var move := OptionalMove(locate, where);
    MoveThen(locate, where, event, events);
    if move.Some? {
      EventsOfOneMore(move.value, i);
      Appended(p, move.value + [i], Events(move.value) + [event], events);
    }
  }

  lemma MouseDownPlans(p: Planner, down: Down, locate: Locator, a: Action, events: seq<Event>)
    requires a.MouseDown? && Knows(p, down)
    ensures Plans(p, PlanButton(p, locate, a), down, locate, a, events)
  {
    FlagsAreTheButtons(a.button, 0);
    if IsKnown(a.button) {
      ButtonIsDown(p, down, a.button);
      var flags, next := ButtonFlags(a.button).value, PlanButton(p, locate, a);
      ButtonAppended(p, locate, a.where, PressButton(flags.0, flags.1), ButtonFalls(a.button), events);
      if next.Some? {
        ButtonIsKept(p, down, next.value, a);
      }
    }
  }

  lemma MouseUpPlans(p: Planner, down: Down, locate: Locator, a: Action, events: seq<Event>)
    requires a.MouseUp? && Knows(p, down)
    ensures Plans(p, PlanButton(p, locate, a), down, locate, a, events)
  {
    FlagsAreTheButtons(a.button, 0);
    if IsKnown(a.button) {
      ButtonIsDown(p, down, a.button);
      var flags, next := ButtonFlags(a.button).value, PlanButton(p, locate, a);
      ButtonAppended(p, locate, a.where, ReleaseButton(flags.1), ButtonRises(a.button), events);
      if next.Some? {
        ButtonIsKept(p, down, next.value, a);
      }
    }
  }

  lemma ButtonIsKept(p: Planner, down: Down, next: Planner, a: Action)
    requires (a.MouseDown? || a.MouseUp?) && Knows(p, down) && IsKnown(a.button)
    requires next.activeKeys == p.activeKeys
    requires var flag := ButtonFlags(a.button).value.1;
             next.activeButtons == if a.MouseDown? then p.activeButtons + {flag} else p.activeButtons - {flag}
    ensures Knows(next, After(down, a))
  {
    forall button, flag: nat {:trigger IsKnown(button), MouseEvent(flag, 0)}
      | IsKnown(button) && MouseEvent(flag, 0) == ButtonRises(button)
      ensures flag in next.activeButtons <==> button in After(down, a).buttons
    {
      FlagsAreTheButtons(button, flag);
      FlagsAreTheButtons(a.button, flag);
    }
  }

  // ----- modifiers around an action -----

  lemma {:induction false} IntroducedOfOneMore(codes: seq<nat>, code: nat, active: set<nat>)
    ensures Introduced(codes + [code], active) == Introduced(codes, active) + if code in active then [] else [code]
    decreases |codes|
  {
    if codes == [] {
      assert [] + [code] == [code];
    } else {
      var head, last := if codes[0] in active then [] else [codes[0]], if code in active then [] else [code];
      assert (codes + [code])[1..] == codes[1..] + [code];
      IntroducedOfOneMore(codes[1..], code, active);
      assert head + (Introduced(codes[1..], active) + last) == head + Introduced(codes[1..], active) + last;
    }
  }

  lemma {:induction false} IntroducedAreNotDown(codes: seq<nat>, active: set<nat>)
    ensures Introduced(codes, active) == NotDown(codes, active)
    decreases |codes|
  {
    if codes != [] {
      var n := |codes| - 1;
      assert codes == codes[..n] + [codes[n]];
      IntroducedOfOneMore(codes[..n], codes[n], active);
      IntroducedAreNotDown(codes[..n], active);
    }
  }

  /** What an action is given as modifiers, unless they are not acceptable. */
  function GivenCodes(modifiers: Option<Keys>): Option<seq<nat>> {
    if modifiers.None? then Some([]) else KeyCodes(modifiers.value)
  }

  lemma AroundIsDecided(down: set<nat>, modifiers: Option<Keys>, inner: seq<Event>, events: seq<Event>)
    ensures var codes := GivenCodes(modifiers);
            Around(down, modifiers, inner, events) <==>
              codes.Some? && events == Falling(NotDown(codes.value, down)) + inner + Rising(NotDown(codes.value, down))
  {
    var codes := GivenCodes(modifiers);
    if codes.Some? && modifiers.Some? {
      CodesAreGiven(modifiers.value, codes.value);
    }
    forall other | modifiers.Some? && AreCodes(modifiers.value, other)
      ensures codes == Some(other)
    {
      CodesAreGiven(modifiers.value, other);
    }
  }

  lemma EventsAround(body: seq<Instruction>, introduced: seq<nat>)
    ensures Events(Presses(introduced) + body + Releases(introduced))
         == Falling(introduced) + Events(body) + Rising(introduced)
  {
    PressesFall(introduced);
    ReleasesRise(introduced);
    EventsOfBoth(Presses(introduced), body);
    EventsOfBoth(Presses(introduced) + body, Releases(introduced));
  }

  lemma ScopedAppended(p: Planner, modifiers: Option<Keys>, body: seq<Instruction>, inner: seq<Event>,
                       events: seq<Event>)
    requires Events(body) == inner
    ensures var next := Scoped(p, modifiers, body);
            && (Around(p.activeKeys, modifiers, inner, events) <==>
                  next.Some? && Events(next.value.instructions) == Events(p.instructions) + events)
            && (next.Some? ==> next.value == p.(instructions := next.value.instructions))
  {
    AroundIsDecided(p.activeKeys, modifiers, inner, events);
    var codes := GivenCodes(modifiers);
    if codes.Some? {
      var introduced := Introduced(codes.value, p.activeKeys);
      IntroducedAreNotDown(codes.value, p.activeKeys);
      EventsAround(body, introduced);
      InstructionsRegroup(p.instructions, Presses(introduced), body);
      InstructionsRegroup(p.instructions, Presses(introduced) + body, Releases(introduced));
      Appended(p, Presses(introduced) + body + Releases(introduced),
               Falling(introduced) + inner + Rising(introduced), events);
    }
  }

  // ----- clicks, drags and wheels -----

  lemma PairOfEvents(button: Button, flags: (nat, nat))
    requires MouseEvent(flags.0, 0) == ButtonFalls(button) && MouseEvent(flags.1, 0) == ButtonRises(button)
    ensures Events([PressButton(flags.0, flags.1), ReleaseButton(flags.1)])
         == [ButtonFalls(button), ButtonRises(button)]
  {
    var press, release := PressButton(flags.0, flags.1), ReleaseButton(flags.1);
    assert [press, release] == [press] + [release];
    EventsOfOneMore([press], release);
    EventsOfOne(press);
  }

  lemma {:induction false} ClicksRepeat(button: Button, flags: (nat, nat), count: nat)
    requires MouseEvent(flags.0, 0) == ButtonFalls(button) && MouseEvent(flags.1, 0) == ButtonRises(button)
    ensures Events(Clicks(flags, count)) == Repeated([ButtonFalls(button), ButtonRises(button)], count)
  {
    if 0 < count {
      ClicksRepeat(button, flags, count - 1);
      PairOfEvents(button, flags);
      EventsOfBoth(Clicks(flags, count - 1), [PressButton(flags.0, flags.1), ReleaseButton(flags.1)]);
    }
  }

  lemma ClickEvents(button: Button, flags: (nat, nat), point: Point, count: nat) returns (body: seq<Instruction>)
    requires MouseEvent(flags.0, 0) == ButtonFalls(button) && MouseEvent(flags.1, 0) == ButtonRises(button)
    ensures body == [MovePointer(point)] + Clicks(flags, count) && Events(body) == Clicked(button, point, count)
  {
    body := [MovePointer(point)] + Clicks(flags, count);
    ClicksRepeat(button, flags, count);
    EventsOfOne(MovePointer(point));
    EventsOfBoth([MovePointer(point)], Clicks(flags, count));
  }

  /** An accepted click is a body with the asked events in the scope of its modifiers. */
  lemma ClickIsScoped(p: Planner, down: Down, locate: Locator, a: Action) returns (body: seq<Instruction>)
    requires a.Click? && Knows(p, down)
    ensures var point, count := PointAt(locate, a.at, None, None), Given(a.clicks, 1);
            if a.button != UnknownButton && a.button !in down.buttons && 1 <= count <= 3 && point.Some?
            then PlanClick(p, locate, a) == Scoped(p, a.modifiers, body)
                 && Events(body) == Clicked(a.button, point.value, count)
            else PlanClick(p, locate, a).None?
  {
    FlagsAreTheButtons(a.button, 0);
    var point, count := PointAt(locate, a.at, None, None), Given(a.clicks, 1);
    body := [];
    if IsKnown(a.button) {
      ButtonIsDown(p, down, a.button);
      if 1 <= count <= 3 && point.Some? {
        body := ClickEvents(a.button, ButtonFlags(a.button).value, point.value, count);
      }
    }
  }

  lemma ClickPlans(p: Planner, down: Down, locate: Locator, a: Action, events: seq<Event>)
    requires a.Click? && Knows(p, down)
    ensures Plans(p, PlanClick(p, locate, a), down, locate, a, events)
  {
    var point, count := PointAt(locate, a.at, None, None), Given(a.clicks, 1);
    var body := ClickIsScoped(p, down, locate, a);
    OnlyPoint(locate, a.at);
    if point.Some? && 1 <= count {
      if Events(body) == Clicked(a.button, point.value, count) {
        ScopedAppended(p, a.modifiers, body, Clicked(a.button, point.value, count), events);
      }
    }
  }

  lemma WaypointIsGiven(locate: Locator, start: Point, reference: Option<string>, at: Place, point: Point)
    ensures var elsewhere := at.display.Some? && at.display.value != start.display;
            LiesBehind(locate, start, reference, at, point) <==>
              && !(elsewhere && reference.Some? && at.reference.None?)
              && PointAt(locate, at, Some(start.display), if elsewhere then None else reference) == Some(point)
  {
  }

  predicate AreWaypoints(locate: Locator, start: Point, reference: Option<string>, path: seq<Place>,
                         points: seq<Point>) {
    |points| == |path|
    && forall i :: 0 <= i < |path| ==> LiesBehind(locate, start, reference, path[i], points[i])
  }

  lemma {:induction false} WaypointsAreGiven(locate: Locator, start: Point, reference: Option<string>,
                                             path: seq<Place>, points: seq<Point>)
    ensures PathPoints(locate, start, reference, path) == Some(points)
            <==> AreWaypoints(locate, start, reference, path, points)
    decreases |path|
  {
    if path != [] && points != [] {
      WaypointIsGiven(locate, start, reference, path[0], points[0]);
      WaypointsAreGiven(locate, start, reference, path[1..], points[1..]);
      assert points == [points[0]] + points[1..];
      assert AreWaypoints(locate, start, reference, path, points) <==>
             LiesBehind(locate, start, reference, path[0], points[0])
             && AreWaypoints(locate, start, reference, path[1..], points[1..]);
    }
  }

  lemma RouteIsGiven(locate: Locator, drag: Action, points: seq<Point>)
    requires drag.Drag?
    ensures DragPoints(locate, drag) == Some(points) <==> IsRoute(locate, drag, points)
  {
    var start := PointAt(locate, drag.at, None, None);
    if start.Some? {
      PointIsGiven(locate, drag.at, None, None, start.value);
    }
    if points != [] {
      PointIsGiven(locate, drag.at, None, None, points[0]);
      var rest := points[1..];
      assert points == [points[0]] + rest;
      if drag.path.Some? {
        WaypointsAreGiven(locate, points[0], drag.at.reference, drag.path.value, rest);
        assert forall i :: 0 <= i < |rest| ==> points[i + 1] == rest[i];
      } else if |rest| == 1 {
        WaypointIsGiven(locate, points[0], drag.at.reference, drag.to, rest[0]);
        assert points == [points[0], rest[0]];
      }
    }
  }

  lemma DragEvents(button: Button, flags: (nat, nat), points: seq<Point>, duration: int, steps: int)
    requires MouseEvent(flags.0, 0) == ButtonFalls(button) && MouseEvent(flags.1, 0) == ButtonRises(button)
    requires points != []
    ensures Events([MovePointer(points[0]), PressButton(flags.0, flags.1), MovePath(points, duration, steps),
                    ReleaseButton(flags.1)])
         == [PointerAt(points[0]), ButtonFalls(button), PointerGlides(points, duration, steps), ButtonRises(button)]
  {
    var move, press, glide, release :=
      MovePointer(points[0]), PressButton(flags.0, flags.1), MovePath(points, duration, steps), ReleaseButton(flags.1);
    EventsOfOne(move);
    EventsOfOneMore([move], press);
    EventsOfOneMore([move] + [press], glide);
    EventsOfOneMore([move] + [press] + [glide], release);
    assert [move, press, glide, release] == [move] + [press] + [glide] + [release];
  }

  /** An accepted drag is a body with the asked events in the scope of its modifiers. */
  lemma DragIsScoped(p: Planner, down: Down, locate: Locator, a: Action)
    returns (body: seq<Instruction>, later: Planner)
    requires a.Drag? && Knows(p, down)
    ensures later == p.(totalDuration := p.totalDuration + Given(a.duration, 300))
    ensures var points := DragPoints(locate, a);
            if IsKnown(a.button) && a.button !in down.buttons && IsTimely(a) && points.Some?
            then PlanDrag(p, locate, a) == Scoped(later, a.modifiers, body) && Events(body) == Dragged(a, points.value)
            else PlanDrag(p, locate, a).None?
  {
    FlagsAreTheButtons(a.button, 0);
    body, later := [], p.(totalDuration := p.totalDuration + Given(a.duration, 300));
    var points := DragPoints(locate, a);
    if IsKnown(a.button) {
      ButtonIsDown(p, down, a.button);
      if IsTimely(a) && points.Some? {
        var flags := ButtonFlags(a.button).value;
        body := [MovePointer(points.value[0]), PressButton(flags.0, flags.1),
                 MovePath(points.value, Given(a.duration, 300), Given(a.steps, 12)), ReleaseButton(flags.1)];
        DragEvents(a.button, flags, points.value, Given(a.duration, 300), Given(a.steps, 12));
      }
    }
  }

  lemma OnlyRoute(locate: Locator, drag: Action)
    requires drag.Drag?
    ensures forall points :: IsRoute(locate, drag, points) <==> DragPoints(locate, drag) == Some(points)
  {
    forall points
      ensures IsRoute(locate, drag, points) <==> DragPoints(locate, drag) == Some(points)
    {
      RouteIsGiven(locate, drag, points);
    }
  }

  lemma DragPlans(p: Planner, down: Down, locate: Locator, a: Action, events: seq<Event>)
    requires a.Drag? && Knows(p, down)
    ensures Plans(p, PlanDrag(p, locate, a), down, locate, a, events)
  {
    var points := DragPoints(locate, a);
    var body, later := DragIsScoped(p, down, locate, a);
    OnlyRoute(locate, a);
    if points.Some? && Events(body) == Dragged(a, points.value) {
      ScopedAppended(later, a.modifiers, body, Dragged(a, points.value), events);
    }
  }

  /** The upright wheel's instruction first, as far as each is needed. */
  function Wheels(dx: int, dy: int): seq<Instruction> {
    (if dy != 0 then [Wheel(2048, dy)] else []) + (if dx != 0 then [Wheel(4096, dx)] else [])
  }

  lemma WheelsTurn(dx: int, dy: int)
    ensures Events(Wheels(dx, dy)) == Turned(dx, dy)
  {
    EventsOfOne(Wheel(2048, dy));
    EventsOfOne(Wheel(4096, dx));
    if dx != 0 && dy != 0 {
      EventsOfOneMore([Wheel(2048, dy)], Wheel(4096, dx));
    }
  }

  lemma OnlyMove(locate: Locator, where: Option<Place>)
    ensures var move := OptionalMove(locate, where);
            forall events :: MovesTo(locate, where, events) <==> move.Some? && Events(move.value) == events
  {
    forall events
      ensures var move := OptionalMove(locate, where);
              MovesTo(locate, where, events) <==> move.Some? && Events(move.value) == events
    {
      MoveIsGiven(locate, where, events);
    }
  }

  lemma ScrollIsScoped(p: Planner, locate: Locator, a: Action)
    requires a.Scroll?
    ensures var dx, dy := Given(a.dx, 0), Given(a.dy, 0);
            var move := OptionalMove(locate, a.where);
            PlanScroll(p, locate, a) ==
              if -12000 <= dx <= 12000 && -12000 <= dy <= 12000 && (dx != 0 || dy != 0) && move.Some?
              then Scoped(p, a.modifiers, move.value + Wheels(dx, dy)) else None
  {
    var dx, dy := Given(a.dx, 0), Given(a.dy, 0);
    var move := OptionalMove(locate, a.where);
    if move.Some? {
      assert move.value + Wheels(dx, dy)
          == move.value + (if dy != 0 then [Wheel(2048, dy)] else []) + (if dx != 0 then [Wheel(4096, dx)] else []);
    }
  }

  lemma ScrollIsDecided(down: Down, locate: Locator, a: Action, events: seq<Event>)
    requires a.Scroll?
    ensures var dx, dy, move := Given(a.dx, 0), Given(a.dy, 0), OptionalMove(locate, a.where);
            DoesScroll(down, locate, a, events) <==>
              && -12000 <= dx <= 12000 && -12000 <= dy <= 12000 && (dx != 0 || dy != 0) && move.Some?
              && Around(down.keys, a.modifiers, Events(move.value) + Turned(dx, dy), events)
  {
    OnlyMove(locate, a.where);
  }

  lemma ScrollPlans(p: Planner, down: Down, locate: Locator, a: Action, events: seq<Event>)
    requires a.Scroll? && Knows(p, down)
    ensures Plans(p, PlanScroll(p, locate, a), down, locate, a, events)
  {
    var dx, dy := Given(a.dx, 0), Given(a.dy, 0);
    var move := OptionalMove(locate, a.where);
    ScrollIsScoped(p, locate, a);
    ScrollIsDecided(down, locate, a, events);
    if move.Some? {
      WheelsTurn(dx, dy);
      EventsOfBoth(move.value, Wheels(dx, dy));
      ScopedAppended(p, a.modifiers, move.value + Wheels(dx, dy), Events(move.value) + Turned(dx, dy), events);
    }
  }

  // ----- every action -----

  /** An action is accepted exactly when it has events, and its instructions do just these. */
  lemma ActionPlans(p: Planner, down: Down, locate: Locator, a: Action, events: seq<Event>)
    requires Knows(p, down)
    ensures Plans(p, PlanAction(p, locate, a), down, locate, a, events)
  {
    match a
    case KeyDown(_) => KeyDownPlans(p, down, locate, a, events);
    case KeyUp(_) => KeyUpPlans(p, down, locate, a, events);
    case Shortcut(_) => ShortcutPlans(p, down, locate, a, events);
    case Type(_) => TypePlans(p, down, locate, a, events);
    case MoveTo(_) => MoveToPlans(p, down, locate, a, events);
    case MouseDown(_, _) => MouseDownPlans(p, down, locate, a, events);
    case MouseUp(_, _) => MouseUpPlans(p, down, locate, a, events);
    case Click(_, _, _, _) => ClickPlans(p, down, locate, a, events);
    case Drag(_, _, _, _, _, _, _) => DragPlans(p, down, locate, a, events);
    case Scroll(_, _, _, _) => ScrollPlans(p, down, locate, a, events);
    case Wait(_) => WaitPlans(p, down, locate, a, events);
    case Unsupported =>
  }

  // ----- all actions -----

  /** The actions have these events one after the other, each on what the ones before left down. */
  ghost predicate AllDo(down: Down, locate: Locator, actions: seq<Action>, events: seq<Event>)
    decreases |actions|
  {
    if actions == [] then events == []
    else exists first, rest ::
           && events == first + rest
           && Does(down, locate, actions[0], first)
           && AllDo(After(down, actions[0]), locate, actions[1..], rest)
  }

  function TotalDuration(actions: seq<Action>): int {
    if actions == [] then 0 else Duration(actions[0]) + TotalDuration(actions[1..])
  }

  lemma DurationIsNatural(down: Down, locate: Locator, a: Action, events: seq<Event>)
    requires Does(down, locate, a, events)
    ensures 0 <= Duration(a)
  {
  }

  lemma {:induction false} TotalIsNatural(down: Down, locate: Locator, actions: seq<Action>, events: seq<Event>)
    requires AllDo(down, locate, actions, events)
    ensures 0 <= TotalDuration(actions)
    decreases |actions|
  {
    if actions != [] {
      var first, rest :| events == first + rest && Does(down, locate, actions[0], first)
                         && AllDo(After(down, actions[0]), locate, actions[1..], rest);
      DurationIsNatural(down, locate, actions[0], first);
      TotalIsNatural(After(down, actions[0]), locate, actions[1..], rest);
    }
  }

  /** Planning adds instructions behind those there are. */
  lemma ActionExtends(p: Planner, locate: Locator, a: Action)
    ensures var next := PlanAction(p, locate, a); next.Some? ==> p.instructions <= next.value.instructions
  {
    if a.KeyDown? && KeyCodes(a.keys).Some? {
      HoldKeysHolds(p, KeyCodes(a.keys).value);
    } else if a.KeyUp? && KeyCodes(a.keys).Some? {
      LetGoKeysLetsGo(p, KeyCodes(a.keys).value);
    }
  }

  lemma EventsExtend(front: seq<Instruction>, all: seq<Instruction>) returns (more: seq<Event>)
    requires front <= all
    ensures Events(all) == Events(front) + more
  {
    more := Events(all[|front|..]);
    assert all == front + all[|front|..];
    EventsOfBoth(front, all[|front|..]);
  }

  lemma {:induction false} PlanExtends(p: Planner, locate: Locator, actions: seq<Action>, i: nat)
    requires i <= |actions|
    ensures var end := PlanFrom(p, locate, actions, i); end.Some? ==> p.instructions <= end.value.instructions
    decreases |actions| - i
  {
    if i < |actions| {
      var next := PlanAction(p, locate, actions[i]);
      ActionExtends(p, locate, actions[i]);
      if next.Some? && next.value.totalDuration <= MAX_DURATION {
        PlanExtends(next.value, locate, actions, i + 1);
      }
    }
  }

  /** What the list from number `i` on adds to a planner, if it is accepted. */
  ghost predicate Adds(p: Planner, locate: Locator, actions: seq<Action>, i: nat, events: seq<Event>)
    requires i <= |actions|
  {
    var end := PlanFrom(p, locate, actions, i);
    end.Some? && Events(end.value.instructions) == Events(p.instructions) + events
  }

  ghost predicate Asks(p: Planner, down: Down, locate: Locator, actions: seq<Action>, i: nat, events: seq<Event>)
    requires i <= |actions|
  {
    AllDo(down, locate, actions[i..], events) && p.totalDuration + TotalDuration(actions[i..]) <= MAX_DURATION
  }

  lemma AskedSplit(down: Down, locate: Locator, actions: seq<Action>, i: nat, events: seq<Event>)
    returns (first: seq<Event>, rest: seq<Event>)
    requires i < |actions| && AllDo(down, locate, actions[i..], events)
    ensures events == first + rest && Does(down, locate, actions[i], first)
    ensures AllDo(After(down, actions[i]), locate, actions[i + 1..], rest)
    ensures 0 <= TotalDuration(actions[i + 1..])
    ensures TotalDuration(actions[i..]) == Duration(actions[i]) + TotalDuration(actions[i + 1..])
  {
    var later := actions[i + 1..];
    assert actions[i..][0] == actions[i] && actions[i..][1..] == later;
    first, rest :| events == first + rest && Does(down, locate, actions[i], first)
                   && AllDo(After(down, actions[i]), locate, later, rest);
    TotalIsNatural(After(down, actions[i]), locate, later, rest);
  }

  lemma DoneIsPlanned(p: Planner, down: Down, locate: Locator, a: Action, events: seq<Event>) returns (next: Planner)
    requires Knows(p, down) && Does(down, locate, a, events)
    ensures PlanAction(p, locate, a) == Some(next) && Knows(next, After(down, a))
    ensures next.totalDuration == p.totalDuration + Duration(a)
    ensures Events(next.instructions) == Events(p.instructions) + events
  {
    ActionPlans(p, down, locate, a, events);
    next := PlanAction(p, locate, a).value;
  }

  /** One action further: it is accepted, and the others ask for what is left of the events. */
  lemma AskFurther(p: Planner, down: Down, locate: Locator, actions: seq<Action>, i: nat, events: seq<Event>)
    returns (next: Planner, first: seq<Event>, rest: seq<Event>)
    requires i < |actions| && Knows(p, down) && Asks(p, down, locate, actions, i, events)
    ensures PlanAction(p, locate, actions[i]) == Some(next) && Knows(next, After(down, actions[i]))
    ensures next.totalDuration <= MAX_DURATION && Asks(next, After(down, actions[i]), locate, actions, i + 1, rest)
    ensures Events(next.instructions) == Events(p.instructions) + first && events == first + rest
  {
    first, rest := AskedSplit(down, locate, actions, i, events);
    next := DoneIsPlanned(p, down, locate, actions[i], first);
  }

  lemma {:induction false} AskedIsAdded(p: Planner, down: Down, locate: Locator, actions: seq<Action>, i: nat,
                                        events: seq<Event>)
    requires i <= |actions| && Knows(p, down) && Asks(p, down, locate, actions, i, events)
    ensures Adds(p, locate, actions, i, events)
    decreases |actions| - i
  {
    if i == |actions| {
      assert Events(p.instructions) + events == Events(p.instructions);
    } else {
      var next, first, rest := AskFurther(p, down, locate, actions, i, events);
      EventsRegroup(Events(p.instructions), first, rest);
      AskedIsAdded(next, After(down, actions[i]), locate, actions, i + 1, rest);
    }
  }

  lemma {:induction false} AddedIsAsked(p: Planner, down: Down, locate: Locator, actions: seq<Action>, i: nat,
                                        events: seq<Event>)
    requires i <= |actions| && Knows(p, down) && Adds(p, locate, actions, i, events)
    requires p.totalDuration <= MAX_DURATION
    ensures Asks(p, down, locate, actions, i, events)
    decreases |actions| - i
  {
    if i == |actions| {
      assert (Events(p.instructions) + events)[|Events(p.instructions)|..] == events;
    } else {
      var a, later := actions[i], actions[i + 1..];
      assert actions[i..][0] == a && actions[i..][1..] == later;
      var next := PlanAction(p, locate, a).value;
      ActionExtends(p, locate, a);
      PlanExtends(next, locate, actions, i + 1);
      var end := PlanFrom(next, locate, actions, i + 1).value;
      var first := EventsExtend(p.instructions, next.instructions);
      var rest := EventsExtend(next.instructions, end.instructions);
      ActionPlans(p, down, locate, a, first);
      AddedIsAsked(next, After(down, a), locate, actions, i + 1, rest);
      SameBehind(Events(p.instructions), first, rest, events);
    }
  }

  lemma SameBehind(front: seq<Event>, first: seq<Event>, rest: seq<Event>, events: seq<Event>)
    requires front + first + rest == front + events
    ensures events == first + rest
  {
    assert (front + events)[|front|..] == events;
    assert (front + first + rest)[|front|..] == first + rest;
  }

  /**
   A list of actions is accepted exactly when every action may be carried out on what the ones before left
   down, and the list is neither too long nor takes too long; its script then has just the asked events.
   */
  lemma PlanDoesExactlyWhen(locate: Locator, actions: seq<Action>, events: seq<Event>)
    ensures var plan := Plan(locate, actions);
            plan.Some? && Events(plan.value) == events <==>
              && 1 <= |actions| <= 64
              && TotalDuration(actions) <= 20000
              && AllDo(Down({}, {}), locate, actions, events)
  {
    assert actions[0..] == actions;
    assert Events(Initial.instructions) + events == events;
    if Asks(Initial, Down({}, {}), locate, actions, 0, events) {
      AskedIsAdded(Initial, Down({}, {}), locate, actions, 0, events);
    }
    if Adds(Initial, locate, actions, 0, events) {
      AddedIsAsked(Initial, Down({}, {}), locate, actions, 0, events);
    }
  }
}
