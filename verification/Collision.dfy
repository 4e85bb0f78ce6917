/** The collision game of examples/collision/collision.go, with exact real coordinates. */
module Collision {
  import opened Common

  datatype Rect = Rect(x: real, y: real, width: real, height: real)

  datatype State = State(player: Rect, collected: bv8, score: int)

  datatype Frame = Frame(dx: real, dy: real, reset: bool)

  const PLAYER_SIZE: real := 16.0

  const WALLS: seq<Rect> := [
    Rect(0.0, 0.0, 400.0, 8.0), Rect(0.0, 232.0, 400.0, 8.0), Rect(0.0, 0.0, 8.0, 240.0),
    Rect(392.0, 0.0, 8.0, 240.0), Rect(176.0, 64.0, 48.0, 112.0)]

  const COLLECTIBLES: seq<Rect> := [
    Rect(40.0, 40.0, 12.0, 12.0), Rect(340.0, 40.0, 12.0, 12.0), Rect(340.0, 188.0, 12.0, 12.0)]

  const INITIAL: State := State(Rect(24.0, 112.0, PLAYER_SIZE, PLAYER_SIZE), 0, 0)

  predicate Overlaps(a: Rect, b: Rect)
  {
    a.x < b.x + b.width && a.x + a.width > b.x && a.y < b.y + b.height && a.y + a.height > b.y
  }

  predicate Within(r: Rect, x: real, y: real)
  {
    r.x < x < r.x + r.width && r.y < y < r.y + r.height
  }

  /** Rectangles overlap exactly when some point is inside both. */
  lemma OverlapsExactly(a: Rect, b: Rect)
    requires a.width > 0.0 && a.height > 0.0 && b.width > 0.0 && b.height > 0.0
    ensures Overlaps(a, b) <==> exists x: real, y: real :: Within(a, x, y) && Within(b, x, y)
  {
    if Overlaps(a, b) {
      var x := Middle(a.x, a.x + a.width, b.x, b.x + b.width);
      var y := Middle(a.y, a.y + a.height, b.y, b.y + b.height);
      assert Within(a, x, y) && Within(b, x, y);
    }
  }

  /** A point inside two open intervals that meet. */
  lemma Middle(a: real, a': real, b: real, b': real) returns (m: real)
    requires a < a' && b < b' && a < b' && b < a'
    ensures a < m < a' && b < m < b'
  {
    var low, high := if a < b then b else a, if a' < b' then a' else b';
    m := (low + high) / 2.0;
  }

  ghost predicate Clear(walls: seq<Rect>, rect: Rect)
  {
    forall k :: 0 <= k < |walls| ==> !Overlaps(rect, walls[k])
  }

  // ------------------------------------------------------------- horizontal move

  /** The wall is level with the rectangle: line 132. */
  predicate Level(rect: Rect, wall: Rect)
  {
    rect.y < wall.y + wall.height && rect.y + rect.height > wall.y
  }

  /** One round of the loop of moveX. */
  function Block(rect: Rect, delta: real, goal: real, wall: Rect): real
  {
    if !Level(rect, wall) then goal
    else
      var first := if delta > 0.0 && rect.x + rect.width <= wall.x && goal + rect.width > wall.x then wall.x - rect.width else goal;
      if delta < 0.0 && rect.x >= wall.x + wall.width && first < wall.x + wall.width then wall.x + wall.width else first
  }

  function BlockAll(walls: seq<Rect>, rect: Rect, delta: real, goal: real): real
  {
    if walls == [] then goal else BlockAll(walls[1..], rect, delta, Block(rect, delta, goal, walls[0]))
  }

  /** moveX */
  function MovedX(walls: seq<Rect>, rect: Rect, delta: real): real
  {
    BlockAll(walls, rect, delta, rect.x + delta)
  }

  function Abs(r: real): real
  {
    if r < 0.0 then -r else r
  }

  function Least(a: real, b: real): real
  {
    if a < b then a else b
  }

  /** Everything the rectangle passes over on its way to `goal`. */
  function SweptX(rect: Rect, goal: real): Rect
  {
    Rect(Least(rect.x, goal), rect.y, rect.width + Abs(goal - rect.x), rect.height)
  }

  /** The wall lies ahead of a move. */
  predicate Ahead(rect: Rect, delta: real, wall: Rect)
  {
    Level(rect, wall) &&
    ((delta > 0.0 && rect.x + rect.width <= wall.x) || (delta < 0.0 && rect.x >= wall.x + wall.width))
  }

  /** The goal stops at or before a wall ahead. */
  predicate Stops(rect: Rect, delta: real, goal: real, wall: Rect)
  {
    if delta > 0.0 then goal + rect.width <= wall.x else goal >= wall.x + wall.width
  }

  /** `goal` is between the start and the end of the move. */
  predicate OnTheWay(rect: Rect, delta: real, goal: real)
  {
    if delta > 0.0 then rect.x <= goal <= rect.x + delta
    else if delta < 0.0 then rect.x + delta <= goal <= rect.x
    else goal == rect.x
  }

  /** `a` is no farther than `b`. */
  predicate NoFarther(delta: real, a: real, b: real)
  {
    if delta > 0.0 then a <= b else if delta < 0.0 then a >= b else a == b
  }

  /** The goal touches a wall ahead. */
  predicate Touches(rect: Rect, delta: real, goal: real, wall: Rect)
  {
    Ahead(rect, delta, wall) && if delta > 0.0 then goal + rect.width == wall.x else goal == wall.x + wall.width
  }

  lemma BlockSpec(rect: Rect, delta: real, goal: real, wall: Rect)
    requires OnTheWay(rect, delta, goal)
    ensures var r := Block(rect, delta, goal, wall);
            && OnTheWay(rect, delta, r) && NoFarther(delta, r, goal)
            && (Ahead(rect, delta, wall) ==> Stops(rect, delta, r, wall))
            && (r == goal || Touches(rect, delta, r, wall))
  {
  }

  lemma {:induction false} BlockAllSpec(walls: seq<Rect>, rect: Rect, delta: real, goal: real)
    requires OnTheWay(rect, delta, goal)
    ensures var r := BlockAll(walls, rect, delta, goal);
            && OnTheWay(rect, delta, r) && NoFarther(delta, r, goal)
            && (forall k :: 0 <= k < |walls| && Ahead(rect, delta, walls[k]) ==> Stops(rect, delta, r, walls[k]))
            && (r == goal || exists k :: 0 <= k < |walls| && Touches(rect, delta, r, walls[k]))
    decreases |walls|
  {
    if walls != [] {
      var next := Block(rect, delta, goal, walls[0]);
      BlockSpec(rect, delta, goal, walls[0]);
      BlockAllSpec(walls[1..], rect, delta, next);
      var r := BlockAll(walls[1..], rect, delta, next);
      if r != next {
        var k :| 0 <= k < |walls[1..]| && Touches(rect, delta, r, walls[1..][k]);
        assert Touches(rect, delta, r, walls[k + 1]);
      }
    }
  }

  /** Neither the moved rectangle nor what it swept over meets any wall. */
  lemma MoveXClear(walls: seq<Rect>, rect: Rect, delta: real)
    requires Clear(walls, rect)
    ensures var goal := MovedX(walls, rect, delta);
            Clear(walls, SweptX(rect, goal)) && Clear(walls, rect.(x := goal)) && OnTheWay(rect, delta, goal)
  {
    BlockAllSpec(walls, rect, delta, rect.x + delta);
    var goal := MovedX(walls, rect, delta);
    forall k | 0 <= k < |walls|
      ensures !Overlaps(SweptX(rect, goal), walls[k]) && !Overlaps(rect.(x := goal), walls[k])
    {
      assert !Overlaps(rect, walls[k]);
      OneWallClear(rect, delta, goal, walls[k]);
    }
  }

  lemma OneWallClear(rect: Rect, delta: real, goal: real, wall: Rect)
    requires !Overlaps(rect, wall) && OnTheWay(rect, delta, goal)
    requires Ahead(rect, delta, wall) ==> Stops(rect, delta, goal, wall)
    ensures !Overlaps(SweptX(rect, goal), wall) && !Overlaps(rect.(x := goal), wall)
  {
  }

  /** The move goes as far as it can: going on would sweep over a wall. */
  lemma MoveXFarthest(walls: seq<Rect>, rect: Rect, delta: real, further: real)
    requires Clear(walls, rect) && rect.width > 0.0
    requires forall k :: 0 <= k < |walls| ==> walls[k].width > 0.0
    requires OnTheWay(rect, delta, further) && !NoFarther(delta, further, MovedX(walls, rect, delta))
    ensures !Clear(walls, SweptX(rect, further))
  {
    BlockAllSpec(walls, rect, delta, rect.x + delta);
    var goal := MovedX(walls, rect, delta);
    assert goal != rect.x + delta;
    var k :| 0 <= k < |walls| && Touches(rect, delta, goal, walls[k]);
    assert Overlaps(SweptX(rect, further), walls[k]);
  }

  // --------------------------------------------------------------- vertical move

  /** The same picture with the axes exchanged. */
  function Turn(r: Rect): Rect
  {
    Rect(r.y, r.x, r.height, r.width)
  }

  function TurnAll(walls: seq<Rect>): (r: seq<Rect>)
    ensures |r| == |walls|
  {
    if walls == [] then [] else [Turn(walls[0])] + TurnAll(walls[1..])
  }

  lemma {:induction false} TurnAllAt(walls: seq<Rect>, k: nat)
    requires k < |walls|
    ensures TurnAll(walls)[k] == Turn(walls[k])
  {
    if k > 0 {
      TurnAllAt(walls[1..], k - 1);
    }
  }

  lemma TurnClear(walls: seq<Rect>, rect: Rect)
    ensures Clear(TurnAll(walls), Turn(rect)) <==> Clear(walls, rect)
  {
    forall k | 0 <= k < |walls| ensures Overlaps(Turn(rect), TurnAll(walls)[k]) <==> Overlaps(rect, walls[k]) {
      TurnAllAt(walls, k);
    }
  }

  /** moveY is moveX with the axes exchanged. */
  function MovedY(walls: seq<Rect>, rect: Rect, delta: real): real
  {
    MovedX(TurnAll(walls), Turn(rect), delta)
  }

  /** Everything the rectangle passes over on its way up or down to `goal`. */
  function SweptY(rect: Rect, goal: real): Rect
  {
    Rect(rect.x, Least(rect.y, goal), rect.width, rect.height + Abs(goal - rect.y))
  }

  lemma MoveYClear(walls: seq<Rect>, rect: Rect, delta: real)
    requires Clear(walls, rect)
    ensures var goal := MovedY(walls, rect, delta);
            Clear(walls, SweptY(rect, goal)) && Clear(walls, rect.(y := goal))
  {
    TurnClear(walls, rect);
    MoveXClear(TurnAll(walls), Turn(rect), delta);
    var goal := MovedY(walls, rect, delta);
    TurnClear(walls, SweptY(rect, goal));
    TurnClear(walls, rect.(y := goal));
    assert Turn(SweptY(rect, goal)) == SweptX(Turn(rect), goal);
    assert Turn(rect.(y := goal)) == Turn(rect).(x := goal);
  }

  // -------------------------------------------------------------- exact moves

  /** `goal` is the farthest point of the way up to which the rectangle sweeps over no wall. */
  ghost predicate SlidesX(walls: seq<Rect>, rect: Rect, delta: real, goal: real)
  {
    && OnTheWay(rect, delta, goal) && Clear(walls, SweptX(rect, goal))
    && forall further: real :: OnTheWay(rect, delta, further) && !NoFarther(delta, further, goal) ==> !Clear(walls, SweptX(rect, further))
  }

  /** `goal` is between the start and the end of the vertical move. */
  predicate OnTheWayY(rect: Rect, delta: real, goal: real)
  {
    if delta > 0.0 then rect.y <= goal <= rect.y + delta
    else if delta < 0.0 then rect.y + delta <= goal <= rect.y
    else goal == rect.y
  }

  ghost predicate SlidesY(walls: seq<Rect>, rect: Rect, delta: real, goal: real)
  {
    && OnTheWayY(rect, delta, goal) && Clear(walls, SweptY(rect, goal))
    && forall further: real :: OnTheWayY(rect, delta, further) && !NoFarther(delta, further, goal) ==> !Clear(walls, SweptY(rect, further))
  }

  ghost predicate Solid(rects: seq<Rect>)
  {
    forall k :: 0 <= k < |rects| ==> rects[k].width > 0.0 && rects[k].height > 0.0
  }

  /** From a clear start the horizontal move is the farthest clear one, and no other is. */
  lemma MoveXExactly(walls: seq<Rect>, rect: Rect, delta: real, goal: real)
    requires Clear(walls, rect) && rect.width > 0.0 && Solid(walls)
    ensures MovedX(walls, rect, delta) == goal <==> SlidesX(walls, rect, delta, goal)
  {
    MoveXClear(walls, rect, delta);
    hide Clear, SweptX, MovedX;
    forall further: real | OnTheWay(rect, delta, further) && !NoFarther(delta, further, MovedX(walls, rect, delta))
      ensures !Clear(walls, SweptX(rect, further))
    {
      MoveXFarthest(walls, rect, delta, further);
    }
  }

  lemma TurnSolid(walls: seq<Rect>)
    requires Solid(walls)
    ensures Solid(TurnAll(walls))
  {
    forall k | 0 <= k < |walls| ensures TurnAll(walls)[k].width > 0.0 && TurnAll(walls)[k].height > 0.0 {
      TurnAllAt(walls, k);
    }
  }

  lemma MoveYExactly(walls: seq<Rect>, rect: Rect, delta: real, goal: real)
    requires Clear(walls, rect) && rect.height > 0.0 && Solid(walls)
    ensures MovedY(walls, rect, delta) == goal <==> SlidesY(walls, rect, delta, goal)
  {
    TurnClear(walls, rect);
    TurnSolid(walls);
    MoveXExactly(TurnAll(walls), Turn(rect), delta, goal);
    forall y: real ensures Clear(TurnAll(walls), SweptX(Turn(rect), y)) <==> Clear(walls, SweptY(rect, y)) {
      TurnClear(walls, SweptY(rect, y));
      assert Turn(SweptY(rect, y)) == SweptX(Turn(rect), y);
    }
    hide Clear, SweptX, SweptY, MovedX;
  }

  // -------------------------------------------------------------- collectibles

  /** uint8(1 << index) */
  function BitOf(index: nat): bv8
    requires index < 8
  {
    1 << index
  }

  predicate Has(collected: bv8, index: nat)
    requires index < 8
  {
    collected & BitOf(index) != 0
  }

  /** The number of collected items among the first `n`. */
  function Count(collected: bv8, n: nat): nat
    requires n <= 8
  {
    if n == 0 then 0 else Count(collected, n - 1) + if Has(collected, n - 1) then 1 else 0
  }

  lemma SetBit(collected: bv8, index: nat, other: nat)
    requires index < 3 && other < 3
    ensures Has(collected | BitOf(index), other) <==> Has(collected, other) || index == other
  {
    assert BitOf(0) == 1 && BitOf(1) == 2 && BitOf(2) == 4;
  }

  lemma {:induction false} SetBitCounts(collected: bv8, index: nat, n: nat)
    requires index < 3 && n <= 3
    ensures Count(collected | BitOf(index), n) == Count(collected, n) + if index < n && !Has(collected, index) then 1 else 0
  {
    if n > 0 {
      SetBit(collected, index, n - 1);
      hide Has, BitOf;
      SetBitCounts(collected, index, n - 1);
    }
  }

  /** Lines 119 to 125 for the items from `index` on. */
  function Collect(items: seq<Rect>, player: Rect, collected: bv8, score: int, index: nat): (bv8, int)
    requires |items| <= 3 && index <= |items|
    decreases |items| - index
  {
    if index == |items| then (collected, score)
    else if !Has(collected, index) && Overlaps(player, items[index])
    then Collect(items, player, collected | BitOf(index), score + 1, index + 1)
    else Collect(items, player, collected, score, index + 1)
  }

  /** An item is collected afterwards exactly if it was before or the player overlaps it; each new one scores. */
  lemma {:induction false} CollectSpec(items: seq<Rect>, player: Rect, collected: bv8, score: int, index: nat)
    requires |items| <= 3 && index <= |items|
    ensures var (after, points) := Collect(items, player, collected, score, index);
            && (forall k :: 0 <= k < 3 ==>
                  (Has(after, k) <==> Has(collected, k) || (index <= k < |items| && Overlaps(player, items[k]))))
            && points - score == Count(after, 3) - Count(collected, 3)
    decreases |items| - index
  {
    if index < |items| {
      hide Has, Overlaps, BitOf;
      if !Has(collected, index) && Overlaps(player, items[index]) {
        forall k | 0 <= k < 3 ensures Has(collected | BitOf(index), k) <==> Has(collected, k) || index == k {
          SetBit(collected, index, k);
        }
        SetBitCounts(collected, index, 3);
        CollectSpec(items, player, collected | BitOf(index), score + 1, index + 1);
      } else {
        CollectSpec(items, player, collected, score, index + 1);
      }
    }
  }

  // --------------------------------------------------------------------- runs

  function PlayerAfter(walls: seq<Rect>, player: Rect, frame: Frame): Rect
  {
    var across := player.(x := MovedX(walls, player, frame.dx));
    across.(y := MovedY(walls, across, frame.dy))
  }

  function Stepped(walls: seq<Rect>, items: seq<Rect>, initial: State, state: State, frame: Frame): State
    requires |items| <= 3
  {
    if frame.reset then initial
    else
      var player := PlayerAfter(walls, state.player, frame);
      var (collected, score) := Collect(items, player, state.collected, state.score, 0);
      State(player, collected, score)
  }

  ghost predicate Good(walls: seq<Rect>, state: State)
  {
    Clear(walls, state.player) && state.score == Count(state.collected, 3)
  }

  /**
   * From a state that overlaps no wall a step sweeps over none on either axis,
   * and keeps the score equal to the number of collected items.
   */
  lemma StepGood(walls: seq<Rect>, items: seq<Rect>, initial: State, state: State, frame: Frame)
    requires |items| <= 3 && Good(walls, initial) && Good(walls, state)
    ensures Good(walls, Stepped(walls, items, initial, state, frame))
    ensures var across := state.player.(x := MovedX(walls, state.player, frame.dx));
            Clear(walls, SweptX(state.player, across.x)) && Clear(walls, SweptY(across, MovedY(walls, across, frame.dy)))
  {
    var across := state.player.(x := MovedX(walls, state.player, frame.dx));
    MoveXClear(walls, state.player, frame.dx);
    MoveYClear(walls, across, frame.dy);
    CollectSpec(items, PlayerAfter(walls, state.player, frame), state.collected, state.score, 0);
    hide Clear, MovedX, MovedY, Collect, Count, SweptX, SweptY;
  }

  /**
   * The player of a step slides as far as it can across, then as far as it can
   * up or down from there, and keeps its size; Reset starts over.
   */
  lemma StepSlides(walls: seq<Rect>, items: seq<Rect>, initial: State, state: State, frame: Frame)
    requires |items| <= 3 && Clear(walls, state.player) && Solid(walls)
    requires state.player.width > 0.0 && state.player.height > 0.0
    ensures var next, player := Stepped(walls, items, initial, state, frame), state.player;
            if frame.reset then next == initial
            else
              && next.player.width == player.width && next.player.height == player.height
              && SlidesX(walls, player, frame.dx, next.player.x)
              && SlidesY(walls, player.(x := next.player.x), frame.dy, next.player.y)
  {
    if !frame.reset {
      var across := state.player.(x := MovedX(walls, state.player, frame.dx));
      MoveXClear(walls, state.player, frame.dx);
      MoveXExactly(walls, state.player, frame.dx, across.x);
      MoveYExactly(walls, across, frame.dy, MovedY(walls, across, frame.dy));
      hide Clear, MovedX, MovedY, Collect, SlidesX, SlidesY;
    }
  }

  /** Without Reset what is collected stays collected, and items are collected exactly by overlapping them. */
  lemma StepCollects(walls: seq<Rect>, items: seq<Rect>, initial: State, state: State, frame: Frame, k: nat)
    requires |items| <= 3 && !frame.reset && k < 3
    ensures var next := Stepped(walls, items, initial, state, frame);
            Has(next.collected, k) <==> Has(state.collected, k) || (k < |items| && Overlaps(next.player, items[k]))
  {
    CollectSpec(items, PlayerAfter(walls, state.player, frame), state.collected, state.score, 0);
    hide Has, Overlaps, PlayerAfter, Collect;
  }

  function RunAll(walls: seq<Rect>, items: seq<Rect>, initial: State, state: State, frames: seq<Frame>): State
    requires |items| <= 3
    decreases |frames|
  {
    if frames == [] then state else RunAll(walls, items, initial, Stepped(walls, items, initial, state, frames[0]), frames[1..])
  }

  lemma {:induction false} RunGood(walls: seq<Rect>, items: seq<Rect>, initial: State, state: State, frames: seq<Frame>)
    requires |items| <= 3 && Good(walls, initial) && Good(walls, state)
    ensures Good(walls, RunAll(walls, items, initial, state, frames))
    decreases |frames|
  {
    if frames != [] {
      StepGood(walls, items, initial, state, frames[0]);
      hide Good, Stepped;
      RunGood(walls, items, initial, Stepped(walls, items, initial, state, frames[0]), frames[1..]);
    }
  }

  lemma {:induction false} RunCollects(walls: seq<Rect>, items: seq<Rect>, initial: State, state: State, frames: seq<Frame>, k: nat)
    requires |items| <= 3 && k < 3 && (forall i :: 0 <= i < |frames| ==> !frames[i].reset)
    requires Has(state.collected, k)
    ensures Has(RunAll(walls, items, initial, state, frames).collected, k)
    decreases |frames|
  {
    if frames != [] {
      StepCollects(walls, items, initial, state, frames[0], k);
      hide Has, Stepped;
      RunCollects(walls, items, initial, Stepped(walls, items, initial, state, frames[0]), frames[1..], k);
    }
  }

  lemma InitialGood()
    ensures Good(WALLS, INITIAL)
  {
    forall k | 0 <= k < |WALLS| ensures !Overlaps(INITIAL.player, WALLS[k]) {
    }
    assert Count(0, 0) == 0 && !Has(0, 0) && !Has(0, 1) && !Has(0, 2);
    assert Count(0, 1) == 0 && Count(0, 2) == 0;
  }

  /** Every run of the acceptance scene, resets included. */
  lemma SceneRuns(frames: seq<Frame>)
    ensures var last := RunAll(WALLS, COLLECTIBLES, INITIAL, INITIAL, frames);
            Clear(WALLS, last.player) && last.score == Count(last.collected, 3)
  {
    InitialGood();
    hide Good;
    RunGood(WALLS, COLLECTIBLES, INITIAL, INITIAL, frames);
    GoodMeans(WALLS, RunAll(WALLS, COLLECTIBLES, INITIAL, INITIAL, frames));
  }

  lemma GoodMeans(walls: seq<Rect>, state: State)
    requires Good(walls, state)
    ensures Clear(walls, state.player) && state.score == Count(state.collected, 3)
  {
  }

  // ------------------------------------------------------------------ the loops

  /** Lines 129 to 144. */
  method MoveX(walls: seq<Rect>, rect: Rect, delta: real) returns (goal: real)
    ensures goal == MovedX(walls, rect, delta)
  {
    goal := rect.x + delta;
    assert walls[0..] == walls;
    for k := 0 to |walls|
      invariant BlockAll(walls[k..], rect, delta, goal) == MovedX(walls, rect, delta)
    {
      var wall := walls[k];
      assert walls[k..][0] == wall && walls[k..][1..] == walls[k + 1..];
      var level := rect.y < wall.y + wall.height && rect.y + rect.height > wall.y;
      if !level {
        continue;
      }
      if delta > 0.0 && rect.x + rect.width <= wall.x && goal + rect.width > wall.x {
        goal := wall.x - rect.width;
      }
      if delta < 0.0 && rect.x >= wall.x + wall.width && goal < wall.x + wall.width {
        goal := wall.x + wall.width;
      }
    }
  }

  /** Lines 146 to 161. */
  method MoveY(walls: seq<Rect>, rect: Rect, delta: real) returns (goal: real)
    ensures goal == MovedY(walls, rect, delta)
  {
    goal := rect.y + delta;
    assert walls[0..] == walls;
    for k := 0 to |walls|
      invariant BlockAll(TurnAll(walls[k..]), Turn(rect), delta, goal) == MovedY(walls, rect, delta)
    {
      var wall := walls[k];
      assert walls[k..][0] == wall && walls[k..][1..] == walls[k + 1..];
      assert TurnAll(walls[k..])[1..] == TurnAll(walls[k + 1..]);
      var level := rect.x < wall.x + wall.width && rect.x + rect.width > wall.x;
      if !level {
        continue;
      }
      if delta > 0.0 && rect.y + rect.height <= wall.y && goal + rect.height > wall.y {
        goal := wall.y - rect.height;
      }
      if delta < 0.0 && rect.y >= wall.y + wall.height && goal < wall.y + wall.height {
        goal := wall.y + wall.height;
      }
    }
  }

  /** Lines 111 to 127. */
  method Step(state: State, frame: Frame) returns (next: State)
    ensures next == Stepped(WALLS, COLLECTIBLES, INITIAL, state, frame)
    ensures frame.reset ==> next == State(Rect(24.0, 112.0, 16.0, 16.0), 0, 0)
    ensures !frame.reset && Clear(WALLS, state.player) && state.player.width > 0.0 && state.player.height > 0.0 ==>
              && SlidesX(WALLS, state.player, frame.dx, next.player.x)
              && SlidesY(WALLS, state.player.(x := next.player.x), frame.dy, next.player.y)
  {
    if Clear(WALLS, state.player) && state.player.width > 0.0 && state.player.height > 0.0 {
      StepSlides(WALLS, COLLECTIBLES, INITIAL, state, frame);
    }
    hide SlidesX, SlidesY, Clear;
    if frame.reset {
      return INITIAL;
    }
    hide MovedX, MovedY;
    var player := state.player;
    var x := MoveX(WALLS, player, frame.dx);
    player := player.(x := x);
    var y := MoveY(WALLS, player, frame.dy);
    player := player.(y := y);
    var collected, score := CollectItems(COLLECTIBLES, player, state.collected, state.score);
    next := State(player, collected, score);
  }

  /** Lines 119 to 125. */
  method CollectItems(items: seq<Rect>, player: Rect, before: bv8, points: int) returns (collected: bv8, score: int)
    requires |items| <= 3
    ensures (collected, score) == Collect(items, player, before, points, 0)
  {
    collected, score := before, points;
    for index := 0 to |items|
      invariant Collect(items, player, collected, score, index) == Collect(items, player, before, points, 0)
    {
      hide Has, Overlaps, BitOf;
      var bit := BitOf(index);
      if !Has(collected, index) && Overlaps(player, items[index]) {
        collected := collected | bit;
        score := score + 1;
      }
    }
  }
}
