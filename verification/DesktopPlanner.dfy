/**
 The planner of desktop input: it checks a whole list of actions, tracking held keys and buttons
 statically, and turns it into instructions before any of them is carried out.
 */
module DesktopPlanner {
  import opened Options

  const MAX_ACTIONS: nat := 64
  const MAX_KEYS: nat := 8
  const MAX_WAYPOINTS: nat := 32
  const MAX_DURATION: int := 20000

  // ----- actions -----

  /** A requested place; the display and the coordinate reference are optional. */
  datatype Place = Place(display: Option<int>, x: Option<int>, y: Option<int>, reference: Option<string>)

  datatype Point = Point(gx: int, gy: int, display: int)

  /** Looks up a display and maps a place on it; nothing where the source throws. */
  type Locator = (Option<int>, int, int, Option<string>) -> Option<Point>

  datatype Button = Left | Right | Middle | UnknownButton

  /** Key names as codes; nothing for an unsupported name. */
  type Keys = seq<Option<nat>>

  datatype Action =
    | KeyDown(keys: Keys)
    | KeyUp(keys: Keys)
    | Shortcut(keys: Keys)
    | Type(text: string)
    | MoveTo(at: Place)
    | MouseDown(button: Button, where: Option<Place>)
    | MouseUp(button: Button, where: Option<Place>)
    | Click(button: Button, at: Place, clicks: Option<int>, modifiers: Option<Keys>)
    | Drag(button: Button, at: Place, path: Option<seq<Place>>, to: Place, duration: Option<int>, steps: Option<int>,
           modifiers: Option<Keys>)
    | Scroll(dx: Option<int>, dy: Option<int>, where: Option<Place>, modifiers: Option<Keys>)
    | Wait(duration: Option<int>)
    | Unsupported

  // ----- instructions -----

  datatype Instruction =
    | PressKey(code: nat)
    | ReleaseKey(code: nat)
    | PressButton(downFlag: nat, upFlag: nat)
    | ReleaseButton(upFlag: nat)
    | Hotkey(codes: seq<nat>)
    | TypeText(text: string)
    | MovePointer(to: Point)
    | MovePath(points: seq<Point>, duration: int, steps: int)
    | Wheel(flag: nat, delta: int)
    | Sleep(duration: int)

  datatype Planner = Planner(activeKeys: set<nat>, activeButtons: set<nat>, instructions: seq<Instruction>,
                             totalDuration: int)

  const Initial: Planner := Planner({}, {}, [], 0)

  // ----- arguments -----

  function Integer(value: Option<int>, low: int, high: int, fallback: Option<int>): Option<int> {
    var given := if value.Some? then value else fallback;
    if given.None? || given.value < low || high < given.value then None else given
  }

  predicate Distinct(codes: seq<nat>) {
    forall i, j :: 0 <= i < j < |codes| ==> codes[i] != codes[j]
  }

  /** One to eight keys, all supported and none of them twice. */
  predicate AreKeys(keys: Keys) {
    && 1 <= |keys| <= MAX_KEYS
    && (forall i :: 0 <= i < |keys| ==> keys[i].Some?)
    && (forall i, j :: 0 <= i < j < |keys| ==> keys[i] != keys[j])
  }

  /** The codes of the keys in their order, or nothing exactly when they are not acceptable. */
  function KeyCodes(keys: Keys): (codes: Option<seq<nat>>)
    ensures codes.Some? <==> AreKeys(keys)
    ensures codes.Some? ==> |codes.value| == |keys| && forall i :: 0 <= i < |keys| ==> keys[i] == Some(codes.value[i])
    ensures codes.Some? ==> 1 <= |codes.value| <= MAX_KEYS && Distinct(codes.value)
  {
    if |keys| < 1 || MAX_KEYS < |keys| || None in keys then None
    else
      var codes := seq(|keys|, i requires 0 <= i < |keys| => if keys[i].Some? then keys[i].value else 0);
      assert forall i :: 0 <= i < |keys| ==> keys[i] in keys && keys[i] == Some(codes[i]);
      if Distinct(codes) then Some(codes) else None
  }

  /** The flags of a button: going down, and going up. */
  function ButtonFlags(button: Button): Option<(nat, nat)> {
    match button
    case Left => Some((2, 4))
    case Right => Some((8, 16))
    case Middle => Some((32, 64))
    case UnknownButton => None
  }

  function PointAt(locate: Locator, at: Place, fallbackDisplay: Option<int>,
                   fallbackReference: Option<string>): Option<Point> {
    var x, y := Integer(at.x, 0, 1000000, None), Integer(at.y, 0, 1000000, None);
    if (at.display.Some? && Integer(at.display, 0, 64, None).None?) || x.None? || y.None? then None
    else locate(if at.display.Some? then at.display else fallbackDisplay, x.value, y.value,
                if at.reference.Some? then at.reference else fallbackReference)
  }

  /** No instruction when no place is given. */
  function OptionalMove(locate: Locator, where: Option<Place>): Option<seq<Instruction>> {
    match where
    case None => Some([])
    case Some(at) =>
      match PointAt(locate, at, None, None)
      case None => None
      case Some(point) => Some([MovePointer(point)])
  }

  // ----- keys that stay down -----

  function HoldKeys(p: Planner, codes: seq<nat>): Option<Planner>
    decreases |codes|
  {
    if codes == [] then Some(p)
    else if codes[0] in p.activeKeys then None
    else HoldKeys(p.(activeKeys := p.activeKeys + {codes[0]}, instructions := p.instructions + [PressKey(codes[0])]),
                  codes[1..])
  }

  /** The keys are let go from the last to the first. */
  function LetGoKeys(p: Planner, codes: seq<nat>): Option<Planner>
    decreases |codes|
  {
    if codes == [] then Some(p)
    else
      var last := codes[|codes| - 1];
      if last !in p.activeKeys then None
      else LetGoKeys(p.(activeKeys := p.activeKeys - {last}, instructions := p.instructions + [ReleaseKey(last)]),
                     codes[..|codes| - 1])
  }

  // ----- modifiers around an action -----

  function Presses(codes: seq<nat>): seq<Instruction> {
    seq(|codes|, i requires 0 <= i < |codes| => PressKey(codes[i]))
  }

  function Releases(codes: seq<nat>): seq<Instruction> {
    seq(|codes|, i requires 0 <= i < |codes| => ReleaseKey(codes[|codes| - 1 - i]))
  }

  function Introduced(codes: seq<nat>, active: set<nat>): seq<nat> {
    if codes == [] then [] else (if codes[0] in active then [] else [codes[0]]) + Introduced(codes[1..], active)
  }

  function Scoped(p: Planner, modifiers: Option<Keys>, body: seq<Instruction>): Option<Planner> {
    var codes := if modifiers.None? then Some([]) else KeyCodes(modifiers.value);
    if codes.None? then None
    else
      var introduced := Introduced(codes.value, p.activeKeys);
      Some(p.(instructions := p.instructions + Presses(introduced) + body + Releases(introduced)))
  }

  // ----- dragging -----

  /** The waypoints behind the start; a place on another display needs a reference of its own. */
  function PathPoints(locate: Locator, start: Point, reference: Option<string>, path: seq<Place>): Option<seq<Point>> {
    if path == [] then Some([])
    else
      var at := path[0];
      var elsewhere := at.display.Some? && at.display.value != start.display;
      if elsewhere && reference.Some? && at.reference.None? then None
      else
        var point := PointAt(locate, at, Some(start.display), if elsewhere then None else reference);
        var rest := PathPoints(locate, start, reference, path[1..]);
        if point.None? || rest.None? then None else Some([point.value] + rest.value)
  }

  function DragPoints(locate: Locator, drag: Action): (points: Option<seq<Point>>)
    requires drag.Drag?
    ensures points.Some? ==> points.value != []
  {
    match PointAt(locate, drag.at, None, None)
    case None => None
    case Some(start) =>
      if drag.path.Some? then
        if |drag.path.value| < 1 || MAX_WAYPOINTS < |drag.path.value| || drag.to.x.Some? || drag.to.y.Some? then None
        else
          match PathPoints(locate, start, drag.at.reference, drag.path.value)
          case None => None
          case Some(points) => Some([start] + points)
      else
        var display := if drag.to.display.None? then Some(start.display) else Integer(drag.to.display, 0, 64, None);
        var elsewhere := display.Some? && display.value != start.display;
        if display.None? || (elsewhere && drag.at.reference.Some? && drag.to.reference.None?) then None
        else
          match PointAt(locate, drag.to, Some(start.display), if elsewhere then None else drag.at.reference)
          case None => None
          case Some(end) => Some([start, end])
  }

  // ----- one action -----

  /** `count` clicks of a button. */
  function Clicks(flags: (nat, nat), count: nat): seq<Instruction> {
    if count == 0 then [] else Clicks(flags, count - 1) + [PressButton(flags.0, flags.1), ReleaseButton(flags.1)]
  }

  function Emit(p: Planner, more: seq<Instruction>): Planner {
    p.(instructions := p.instructions + more)
  }

  function PlanKeys(p: Planner, a: Action): Option<Planner>
    requires a.KeyDown? || a.KeyUp? || a.Shortcut?
  {
    match KeyCodes(a.keys)
    case None => None
    case Some(codes) =>
      if a.KeyDown? then HoldKeys(p, codes)
      else if a.KeyUp? then LetGoKeys(p, codes)
      else if exists code :: code in codes && code in p.activeKeys then None
      else Some(Emit(p, [Hotkey(codes)]))
  }

  function PlanButton(p: Planner, locate: Locator, a: Action): Option<Planner>
    requires a.MouseDown? || a.MouseUp?
  {
    var flags, move := ButtonFlags(a.button), OptionalMove(locate, a.where);
    if flags.None? || a.MouseDown? == (flags.value.1 in p.activeButtons) || move.None? then None
    else if a.MouseDown? then
      Some(Emit(p, move.value + [PressButton(flags.value.0, flags.value.1)])
           .(activeButtons := p.activeButtons + {flags.value.1}))
    else
      Some(Emit(p, move.value + [ReleaseButton(flags.value.1)]).(activeButtons := p.activeButtons - {flags.value.1}))
  }

  function PlanClick(p: Planner, locate: Locator, a: Action): Option<Planner>
    requires a.Click?
  {
    var flags, point := ButtonFlags(a.button), PointAt(locate, a.at, None, None);
    var count := Integer(a.clicks, 1, 3, Some(1));
    if flags.None? || flags.value.1 in p.activeButtons || point.None? || count.None? then None
    else Scoped(p, a.modifiers, [MovePointer(point.value)] + Clicks(flags.value, count.value))
  }

  function PlanDrag(p: Planner, locate: Locator, a: Action): Option<Planner>
    requires a.Drag?
  {
    var flags, points := ButtonFlags(a.button), DragPoints(locate, a);
    var duration, steps := Integer(a.duration, 0, 5000, Some(300)), Integer(a.steps, 1, 120, Some(12));
    if flags.None? || flags.value.1 in p.activeButtons || points.None? || duration.None? || steps.None? then None
    else
      Scoped(p.(totalDuration := p.totalDuration + duration.value), a.modifiers,
             [MovePointer(points.value[0]), PressButton(flags.value.0, flags.value.1),
              MovePath(points.value, duration.value, steps.value), ReleaseButton(flags.value.1)])
  }

  function PlanScroll(p: Planner, locate: Locator, a: Action): Option<Planner>
    requires a.Scroll?
  {
    var dx, dy := Integer(a.dx, -12000, 12000, Some(0)), Integer(a.dy, -12000, 12000, Some(0));
    var move := OptionalMove(locate, a.where);
    if dx.None? || dy.None? || (dx.value == 0 && dy.value == 0) || move.None? then None
    else
      Scoped(p, a.modifiers,
             move.value + (if dy.value != 0 then [Wheel(2048, dy.value)] else [])
             + (if dx.value != 0 then [Wheel(4096, dx.value)] else []))
  }

  function PlanAction(p: Planner, locate: Locator, a: Action): Option<Planner> {
    match a
    case KeyDown(_) => PlanKeys(p, a)
    case KeyUp(_) => PlanKeys(p, a)
    case Shortcut(_) => PlanKeys(p, a)
    case Type(text) => if 16384 < |text| then None else Some(Emit(p, [TypeText(text)]))
    case MoveTo(at) =>
      (match PointAt(locate, at, None, None)
       case None => None
       case Some(point) => Some(Emit(p, [MovePointer(point)])))
    case MouseDown(_, _) => PlanButton(p, locate, a)
    case MouseUp(_, _) => PlanButton(p, locate, a)
    case Click(_, _, _, _) => PlanClick(p, locate, a)
    case Drag(_, _, _, _, _, _, _) => PlanDrag(p, locate, a)
    case Scroll(_, _, _, _) => PlanScroll(p, locate, a)
    case Wait(duration) =>
      (match Integer(duration, 0, 2000, None)
       case None => None
       case Some(ms) => Some(Emit(p, [Sleep(ms)]).(totalDuration := p.totalDuration + ms)))
    case Unsupported => None
  }

  /** The actions from number `i` on; the time limit is checked behind every action. */
  function PlanFrom(p: Planner, locate: Locator, actions: seq<Action>, i: nat): Option<Planner>
    requires i <= |actions|
    decreases |actions| - i
  {
    if i == |actions| then Some(p)
    else
      match PlanAction(p, locate, actions[i])
      case None => None
      case Some(next) => if MAX_DURATION < next.totalDuration then None else PlanFrom(next, locate, actions, i + 1)
  }

  function Plan(locate: Locator, actions: seq<Action>): Option<seq<Instruction>> {
    if |actions| < 1 || MAX_ACTIONS < |actions| then None
    else
      match PlanFrom(Initial, locate, actions, 0)
      case None => None
      case Some(p) => Some(p.instructions)
  }

  // ----- the loops -----

  /** `key_down`: every key in turn, unless it is held already. */
  method PlanKeyDown(p: Planner, codes: seq<nat>) returns (next: Option<Planner>)
    ensures next == HoldKeys(p, codes)
  {
    var activeKeys, instructions := p.activeKeys, p.instructions;
    for i := 0 to |codes|
      invariant HoldKeys(p, codes) == HoldKeys(p.(activeKeys := activeKeys, instructions := instructions), codes[i..])
    {
      assert codes[i..][1..] == codes[i + 1..];
      if codes[i] in activeKeys {
        return None;
      }
      activeKeys := activeKeys + {codes[i]};
      instructions := instructions + [PressKey(codes[i])];
    }
    next := Some(p.(activeKeys := activeKeys, instructions := instructions));
  }

  /** `key_up`: from the last key to the first. */
  method PlanKeyUp(p: Planner, codes: seq<nat>) returns (next: Option<Planner>)
    ensures next == LetGoKeys(p, codes)
  {
    var activeKeys, instructions := p.activeKeys, p.instructions;
    assert codes[..|codes|] == codes;
    for i := |codes| downto 0
      invariant LetGoKeys(p, codes) == LetGoKeys(p.(activeKeys := activeKeys, instructions := instructions), codes[..i])
    {
      assert codes[..i + 1][..i] == codes[..i];
      if codes[i] !in activeKeys {
        return None;
      }
      activeKeys := activeKeys - {codes[i]};
      instructions := instructions + [ReleaseKey(codes[i])];
    }
    next := Some(p.(activeKeys := activeKeys, instructions := instructions));
  }

  method PlanOneAction(p: Planner, locate: Locator, a: Action) returns (next: Option<Planner>)
    ensures next == PlanAction(p, locate, a)
  {
    if a.KeyDown? || a.KeyUp? {
      var codes := KeyCodes(a.keys);
      if codes.None? {
        return None;
      }
      if a.KeyDown? {
        next := PlanKeyDown(p, codes.value);
      } else {
        next := PlanKeyUp(p, codes.value);
      }
    } else {
      next := PlanAction(p, locate, a);
    }
  }

  /** `planDesktopInput` up to the list of instructions: all of them, or nothing. */
  method PlanDesktopInput(locate: Locator, actions: seq<Action>) returns (instructions: Option<seq<Instruction>>)
    ensures instructions == Plan(locate, actions)
  {
    if |actions| < 1 || MAX_ACTIONS < |actions| {
      return None;
    }
    var p := Initial;
    for i := 0 to |actions|
      invariant PlanFrom(Initial, locate, actions, 0) == PlanFrom(p, locate, actions, i)
    {
      var next := PlanOneAction(p, locate, actions[i]);
      if next.None? || MAX_DURATION < next.value.totalDuration {
        return None;
      }
      p := next.value;
    }
    instructions := Some(p.instructions);
  }
}
