/**
 The bounded line edit distance behind the blast-radius guard.

 The reference notion is an edit script that keeps, deletes and inserts lines. The loop keeps one
 frontier map per distance and lets its points run past the edges of the grid, so the proof works in a
 grid padded without bound to the right and below: matching cells exist only inside the real grid.
 */
module LineEditDistance {
  import opened Options

  /** An edit script, written from its last step back to its first. */
  datatype Script =
    | Start
    | Keep(previous: Script, line: string)
    | Delete(previous: Script, line: string)
    | Insert(previous: Script, line: string)

  /** The lines the script reads. */
  function Source(script: Script): seq<string> {
    match script
    case Start => []
    case Keep(previous, line) => Source(previous) + [line]
    case Delete(previous, line) => Source(previous) + [line]
    case Insert(previous, _) => Source(previous)
  }

  /** The lines the script leaves behind. */
  function Result(script: Script): seq<string> {
    match script
    case Start => []
    case Keep(previous, line) => Result(previous) + [line]
    case Delete(previous, _) => Result(previous)
    case Insert(previous, line) => Result(previous) + [line]
  }

  /** The number of deleted and inserted lines. */
  function Cost(script: Script): nat {
    match script
    case Start => 0
    case Keep(previous, _) => Cost(previous)
    case Delete(previous, _) => Cost(previous) + 1
    case Insert(previous, _) => Cost(previous) + 1
  }

  ghost predicate Turns(script: Script, before: seq<string>, after: seq<string>) {
    Source(script) == before && Result(script) == after
  }

  /** `d` is the least number of deleted plus inserted lines that turns `before` into `after`. */
  ghost predicate IsDistance(d: nat, before: seq<string>, after: seq<string>) {
    && (exists script :: Turns(script, before, after) && Cost(script) == d)
    && (forall script :: Turns(script, before, after) ==> d <= Cost(script))
  }

  // ----- the padded grid -----

  /** The cell that ends at (x, y) is a matching cell of the real grid. */
  predicate Match(before: seq<string>, after: seq<string>, x: nat, y: nat) {
    0 < x <= |before| && 0 < y <= |after| && before[x - 1] == after[y - 1]
  }

  /** Fewest horizontal and vertical steps from (0, 0) to (x, y) in the padded grid. */
  function Steps(before: seq<string>, after: seq<string>, x: nat, y: nat): nat
    decreases x + y
  {
    if x == 0 then y
    else if y == 0 then x
    else if Match(before, after, x, y) then Steps(before, after, x - 1, y - 1)
    else 1 + Min(Steps(before, after, x - 1, y), Steps(before, after, x, y - 1))
  }

  /** The cost to the corner of the real grid. */
  function Distance(before: seq<string>, after: seq<string>): nat {
    Steps(before, after, |before|, |after|)
  }

  /** One step right or down changes the cost by at most one; a diagonal never gets cheaper. */
  lemma {:induction false} StepsNeighbours(before: seq<string>, after: seq<string>, x: nat, y: nat)
    ensures Steps(before, after, x, y) - 1 <= Steps(before, after, x + 1, y) <= Steps(before, after, x, y) + 1
    ensures Steps(before, after, x, y) - 1 <= Steps(before, after, x, y + 1) <= Steps(before, after, x, y) + 1
    ensures Steps(before, after, x, y) <= Steps(before, after, x + 1, y + 1)
    decreases x + y
  {
    if 0 < y { StepsNeighbours(before, after, x, y - 1); }
    if 0 < x { StepsNeighbours(before, after, x - 1, y); }
    if 0 < x && 0 < y { StepsNeighbours(before, after, x - 1, y - 1); }
  }

  /** The cost is the sum of the coordinates less two for every matching cell passed. */
  lemma {:induction false} StepsParity(before: seq<string>, after: seq<string>, x: nat, y: nat) returns (kept: nat)
    ensures Steps(before, after, x, y) + 2 * kept == x + y
    ensures kept <= x && kept <= y
    decreases x + y
  {
    if x == 0 || y == 0 {
      kept := 0;
    } else if Match(before, after, x, y) {
      kept := StepsParity(before, after, x - 1, y - 1);
      kept := kept + 1;
    } else if Steps(before, after, x - 1, y) < Steps(before, after, x, y - 1) {
      kept := StepsParity(before, after, x - 1, y);
    } else {
      kept := StepsParity(before, after, x, y - 1);
    }
  }

  lemma {:induction false} StepsMonotoneOnDiagonal(before: seq<string>, after: seq<string>, x: nat, y: nat, n: nat)
    ensures Steps(before, after, x, y) <= Steps(before, after, x + n, y + n)
  {
    if 0 < n {
      StepsMonotoneOnDiagonal(before, after, x, y, n - 1);
      StepsNeighbours(before, after, x + n - 1, y + n - 1);
    }
  }

  /** Clamping: a point past the corner is never cheaper than the corner itself. */
  lemma {:induction false} Clamp(before: seq<string>, after: seq<string>, x: nat, y: nat)
    requires |before| <= x && |after| <= y
    ensures Distance(before, after) <= Steps(before, after, x, y)
    decreases x + y
  {
    if |before| < x && |after| < y {
      Clamp(before, after, x - 1, y);
      Clamp(before, after, x, y - 1);
    } else if |before| < x {
      Clamp(before, after, x - 1, y);
      if 0 < y {
        StepsNeighbours(before, after, x - 1, y - 1);
        StepsFarRight(before, after, x - 1, y);
      }
    } else if |after| < y {
      Clamp(before, after, x, y - 1);
      if 0 < x {
        StepsFarDown(before, after, x, y - 1);
      }
    }
  }

  /** Right of the real grid every further column costs exactly one more. */
  lemma {:induction false} StepsFarRight(before: seq<string>, after: seq<string>, x: nat, y: nat)
    requires |before| <= x
    ensures Steps(before, after, x + 1, y) == Steps(before, after, x, y) + 1
    decreases y
  {
    if 0 < y {
      StepsFarRight(before, after, x, y - 1);
      StepsNeighbours(before, after, x, y - 1);
    }
  }

  /** Below the real grid every further row costs exactly one more. */
  lemma {:induction false} StepsFarDown(before: seq<string>, after: seq<string>, x: nat, y: nat)
    requires |after| <= y
    ensures Steps(before, after, x, y + 1) == Steps(before, after, x, y) + 1
    decreases x
  {
    if 0 < x {
      StepsFarDown(before, after, x - 1, y);
      StepsNeighbours(before, after, x - 1, y);
    }
  }

  // ----- scripts and the grid -----

  /** A script between two prefixes costs at least the grid cost of their end point. */
  lemma {:induction false} ScriptCostsAtLeast(before: seq<string>, after: seq<string>, x: nat, y: nat, script: Script)
    requires x <= |before| && y <= |after|
    requires Turns(script, before[..x], after[..y])
    ensures Steps(before, after, x, y) <= Cost(script)
  {
    match script
    case Start =>
      assert x == |before[..x]| == 0 && y == |after[..y]| == 0;
    case Keep(previous, line) =>
      DropLast(before, x, Source(previous), line);
      DropLast(after, y, Result(previous), line);
      ScriptCostsAtLeast(before, after, x - 1, y - 1, previous);
    case Delete(previous, line) =>
      DropLast(before, x, Source(previous), line);
      ScriptCostsAtLeast(before, after, x - 1, y, previous);
      StepsNeighbours(before, after, x - 1, y);
    case Insert(previous, line) =>
      DropLast(after, y, Result(previous), line);
      ScriptCostsAtLeast(before, after, x, y - 1, previous);
      StepsNeighbours(before, after, x, y - 1);
  }

  lemma DropLast(lines: seq<string>, n: nat, init: seq<string>, last: string)
    requires n <= |lines| && lines[..n] == init + [last]
    ensures 0 < n && lines[n - 1] == last && lines[..n - 1] == init
  {
    assert |lines[..n]| == |init| + 1;
    assert lines[n - 1] == lines[..n][n - 1];
    assert lines[..n - 1] == lines[..n][..n - 1];
  }

  /** A script that reaches the grid cost of (x, y). */
  ghost function CheapestScript(before: seq<string>, after: seq<string>, x: nat, y: nat): (script: Script)
    requires x <= |before| && y <= |after|
    ensures Turns(script, before[..x], after[..y])
    ensures Cost(script) == Steps(before, after, x, y)
    decreases x + y
  {
    assert 0 < x ==> before[..x] == before[..x - 1] + [before[x - 1]];
    assert 0 < y ==> after[..y] == after[..y - 1] + [after[y - 1]];
    if x == 0 && y == 0 then Start
    else if x == 0 then Insert(CheapestScript(before, after, x, y - 1), after[y - 1])
    else if y == 0 then Delete(CheapestScript(before, after, x - 1, y), before[x - 1])
    else if Match(before, after, x, y) then Keep(CheapestScript(before, after, x - 1, y - 1), before[x - 1])
    else if Steps(before, after, x - 1, y) < Steps(before, after, x, y - 1) then
      Delete(CheapestScript(before, after, x - 1, y), before[x - 1])
    else Insert(CheapestScript(before, after, x, y - 1), after[y - 1])
  }

  /** The corner cost is the edit distance: some script reaches it and no script beats it. */
  lemma DistanceIsMinimum(before: seq<string>, after: seq<string>)
    ensures IsDistance(Distance(before, after), before, after)
  {
    assert before[..|before|] == before && after[..|after|] == after;
    var script := CheapestScript(before, after, |before|, |after|);
    assert Turns(script, before, after);
    forall script | Turns(script, before, after)
      ensures Distance(before, after) <= Cost(script)
    {
      ScriptCostsAtLeast(before, after, |before|, |after|, script);
    }
  }

  // ----- the frontier loop -----

  /** `x` is the furthest point of diagonal `k` reachable with `d` steps in the padded grid. */
  ghost predicate Furthest(before: seq<string>, after: seq<string>, d: int, k: int, x: int) {
    && 0 <= x && 0 <= x - k
    && Steps(before, after, x, x - k) <= d
    && d < Steps(before, after, x + 1, x + 1 - k)
  }

  /** A point strictly beyond the furthest one of its diagonal is out of reach. */
  lemma BeyondFurthest(before: seq<string>, after: seq<string>, d: int, k: int, furthest: int, x: int)
    requires Furthest(before, after, d, k, furthest)
    requires furthest < x
    ensures 0 <= x && 0 <= x - k && d < Steps(before, after, x, x - k)
  {
    StepsMonotoneOnDiagonal(before, after, furthest + 1, furthest + 1 - k, x - furthest - 1);
  }

  /** The frontier after `d` rounds: one furthest point per diagonal of the right parity. */
  ghost predicate Frontier(before: seq<string>, after: seq<string>, d: int, frontier: map<int, int>) {
    forall k {:trigger k in frontier} :: -d <= k <= d && (d + k) % 2 == 0 ==>
      k in frontier && Furthest(before, after, d, k, frontier[k])
  }

  /** Sliding along matching cells from the better neighbour gives the furthest point of the next round. */
  lemma NextFurthest(before: seq<string>, after: seq<string>, d: int, k: int, frontier: map<int, int>, x: nat)
    requires 0 < d && -d <= k <= d && (d + k) % 2 == 0
    requires Frontier(before, after, d - 1, frontier)
    requires 0 <= x - k && Steps(before, after, x, x - k) <= d
    requires !Match(before, after, x + 1, x + 1 - k)
    requires k != -d ==> k - 1 in frontier && frontier[k - 1] < x
    requires k != d ==> k + 1 in frontier && frontier[k + 1] <= x
    ensures Furthest(before, after, d, k, x)
  {
    DownIsBeyond(before, after, d, k, frontier, x);
    RightIsBeyond(before, after, d, k, frontier, x);
  }

  lemma DownIsBeyond(before: seq<string>, after: seq<string>, d: int, k: int, frontier: map<int, int>, x: nat)
    requires 0 < d && -d <= k <= d && (d + k) % 2 == 0 && 0 <= x - k
    requires Frontier(before, after, d - 1, frontier)
    requires k != -d ==> k - 1 in frontier && frontier[k - 1] < x
    ensures d <= Steps(before, after, x, x + 1 - k)
  {
    if k != -d {
      BeyondFurthest(before, after, d - 1, k - 1, frontier[k - 1], x);
    } else {
      var _ := StepsParity(before, after, x, x + 1 - k);
    }
  }

  lemma RightIsBeyond(before: seq<string>, after: seq<string>, d: int, k: int, frontier: map<int, int>, x: nat)
    requires 0 < d && -d <= k <= d && (d + k) % 2 == 0 && 0 <= x - k
    requires Frontier(before, after, d - 1, frontier)
    requires k != d ==> k + 1 in frontier && frontier[k + 1] <= x
    ensures d <= Steps(before, after, x + 1, x - k)
  {
    if k != d {
      BeyondFurthest(before, after, d - 1, k + 1, frontier[k + 1], x + 1);
    } else {
      var _ := StepsParity(before, after, x + 1, x - k);
    }
  }

  /** Every point of the frontier is still short of the corner. */
  ghost predicate ShortOfCorner(before: seq<string>, after: seq<string>, frontier: map<int, int>) {
    forall k :: k in frontier ==> frontier[k] < |before| || frontier[k] - k < |after|
  }

  /** A full round without an exit shows the distance is larger than the round number. */
  lemma RoundWithoutExit(before: seq<string>, after: seq<string>, d: nat, frontier: map<int, int>)
    requires Frontier(before, after, d, frontier)
    requires d <= Distance(before, after)
    requires ShortOfCorner(before, after, frontier)
    ensures d < Distance(before, after)
  {
    var k := |before| - |after|;
    var _ := StepsParity(before, after, |before|, |after|);
    if Distance(before, after) == d {
      assert k in frontier && Furthest(before, after, d, k, frontier[k]);
      BeyondFurthest(before, after, d, k, frontier[k], |before|);
    }
  }

  /** Where round `d` starts on diagonal `k`: one step from the better of the two neighbours. */
  function StartPoint(d: int, k: int, frontier: map<int, int>): int {
    var down := if k + 1 in frontier then Some(frontier[k + 1]) else None;
    var right := if k - 1 in frontier then Some(frontier[k - 1]) else None;
    if k == -d || (k != d && OrElse(right, -1) < OrElse(down, -1)) then OrElse(down, 0) else OrElse(right, 0) + 1
  }

  /** The `??` operator on a frontier lookup. */
  function OrElse(value: Option<int>, fallback: int): int {
    match value
    case Some(v) => v
    case None => fallback
  }

  /** The start point lies on or past both neighbours' points and is reachable in `d` steps. */
  lemma StartPointReachable(before: seq<string>, after: seq<string>, d: int, k: int, frontier: map<int, int>)
    requires 0 <= d && -d <= k <= d && (d + k) % 2 == 0
    requires if d == 0 then frontier == map[1 := 0] else Frontier(before, after, d - 1, frontier)
    ensures var x := StartPoint(d, k, frontier);
            && 0 <= x && 0 <= x - k
            && Steps(before, after, x, x - k) <= d
            && (0 < d && k != -d ==> k - 1 in frontier && frontier[k - 1] < x)
            && (0 < d && k != d ==> k + 1 in frontier && frontier[k + 1] <= x)
  {
    if 0 < d {
      if k != -d { StepRight(before, after, d, k, frontier); }
      if k != d { StepDown(before, after, d, k, frontier); }
    }
  }

  lemma StepDown(before: seq<string>, after: seq<string>, d: int, k: int, frontier: map<int, int>)
    requires -d <= k < d && (d + k) % 2 == 0 && Frontier(before, after, d - 1, frontier)
    ensures k + 1 in frontier && 0 <= frontier[k + 1] && 0 <= frontier[k + 1] - k
    ensures Steps(before, after, frontier[k + 1], frontier[k + 1] - k) <= d
  {
    assert k + 1 in frontier && Furthest(before, after, d - 1, k + 1, frontier[k + 1]);
    StepsNeighbours(before, after, frontier[k + 1], frontier[k + 1] - k - 1);
  }

  lemma StepRight(before: seq<string>, after: seq<string>, d: int, k: int, frontier: map<int, int>)
    requires -d < k <= d && (d + k) % 2 == 0 && Frontier(before, after, d - 1, frontier)
    ensures k - 1 in frontier && 0 <= frontier[k - 1] && 0 <= frontier[k - 1] + 1 - k
    ensures Steps(before, after, frontier[k - 1] + 1, frontier[k - 1] + 1 - k) <= d
  {
    assert k - 1 in frontier && Furthest(before, after, d - 1, k - 1, frontier[k - 1]);
    StepsNeighbours(before, after, frontier[k - 1], frontier[k - 1] + 1 - k);
  }

  /** Follows matching cells down a diagonal at no cost. */
  method Slide(before: seq<string>, after: seq<string>, start: nat, k: int) returns (x: nat)
    requires 0 <= start - k
    ensures start <= x
    ensures Steps(before, after, x, x - k) == Steps(before, after, start, start - k)
    ensures !Match(before, after, x + 1, x + 1 - k)
  {
    x := start;
    var y := x - k;
    while x < |before| && y < |after| && before[x] == after[y]
      invariant start <= x && y == x - k
      invariant Steps(before, after, x, y) == Steps(before, after, start, start - k)
    {
      x, y := x + 1, y + 1;
    }
  }

  /** The part of the frontier of round `d` that lies on the diagonals below `k`. */
  ghost predicate FrontierBelow(before: seq<string>, after: seq<string>, d: int, k: int, frontier: map<int, int>) {
    forall j {:trigger j in frontier} :: -d <= j < k && (d + j) % 2 == 0 ==>
      j in frontier && Furthest(before, after, d, j, frontier[j])
  }

  /** The end of a slide is the furthest point of its diagonal, in the first round as in all others. */
  lemma SlideEndsFurthest(before: seq<string>, after: seq<string>, d: int, k: int, frontier: map<int, int>, x: nat)
    requires 0 <= d && -d <= k <= d && (d + k) % 2 == 0
    requires if d == 0 then frontier == map[1 := 0] else Frontier(before, after, d - 1, frontier)
    requires 0 <= x - k && Steps(before, after, x, x - k) <= d
    requires !Match(before, after, x + 1, x + 1 - k)
    requires 0 < d && k != -d ==> k - 1 in frontier && frontier[k - 1] < x
    requires 0 < d && k != d ==> k + 1 in frontier && frontier[k + 1] <= x
    ensures Furthest(before, after, d, k, x)
  {
    if 0 < d {
      NextFurthest(before, after, d, k, frontier, x);
    }
  }

  /** The furthest point of a diagonal: one step from the better neighbour, then a slide. */
  method FurthestPoint(before: seq<string>, after: seq<string>, d: int, k: int, frontier: map<int, int>)
    returns (x: nat)
    requires 0 <= d && -d <= k <= d && (d + k) % 2 == 0
    requires if d == 0 then frontier == map[1 := 0] else Frontier(before, after, d - 1, frontier)
    ensures Furthest(before, after, d, k, x)
  {
    StartPointReachable(before, after, d, k, frontier);
    x := Slide(before, after, StartPoint(d, k, frontier), k);
    SlideEndsFurthest(before, after, d, k, frontier, x);
  }

  /** One round of the loop: the next frontier, or the news that a point reached the corner. */
  method Round(before: seq<string>, after: seq<string>, d: int, frontier: map<int, int>)
    returns (arrived: bool, next: map<int, int>)
    requires 0 <= d <= Distance(before, after)
    requires if d == 0 then frontier == map[1 := 0] else Frontier(before, after, d - 1, frontier)
    ensures arrived <==> Distance(before, after) == d
    ensures !arrived ==> Frontier(before, after, d, next)
  {
    next := map[];
    var k := -d;
    while k <= d
      invariant -d <= k <= d + 2 && (d + k) % 2 == 0
      invariant FrontierBelow(before, after, d, k, next)
      invariant ShortOfCorner(before, after, next)
    {
      var x := FurthestPoint(before, after, d, k, frontier);
      if x >= |before| && x - k >= |after| {
        Clamp(before, after, x, x - k);
        return true, next;
      }
      next := next[k := x];
      k := k + 2;
    }
    RoundWithoutExit(before, after, d, next);
    arrived := false;
  }

  /** `boundedLineEditDistance`: the exact distance when it is within the bound, nothing otherwise. */
  method BoundedLineEditDistance(before: seq<string>, after: seq<string>, maxDistance: int)
    returns (distance: Option<nat>)
    ensures distance.Some? ==> IsDistance(distance.value, before, after) && distance.value <= maxDistance
    ensures distance.None? ==> forall script :: Turns(script, before, after) ==> maxDistance < Cost(script)
  {
    DistanceIsMinimum(before, after);
    ghost var kept := StepsParity(before, after, |before|, |after|);
    var gap := |before| - |after|;
    if (if gap < 0 then -gap else gap) > maxDistance {
      return None;
    }
    var limit := Min(maxDistance, |before| + |after|);
    var frontier: map<int, int> := map[1 := 0];
    var d := 0;
    while d <= limit
      invariant 0 <= d <= limit + 1
      invariant d <= Distance(before, after)
      invariant if d == 0 then frontier == map[1 := 0] else Frontier(before, after, d - 1, frontier)
    {
      var arrived, next := Round(before, after, d, frontier);
      if arrived {
        return Some(d);
      }
      frontier := next;
      d := d + 1;
    }
    return None;
  }
}
