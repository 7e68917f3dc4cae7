/**
 * Rejection sampling of food and obstacle cells (`get_random_food_position`
 * and `generate_random_obstacles`). The random number generator is an oracle:
 * a sequence of candidate cells consumed in order. When the oracle runs out
 * before a cell is accepted the result is `None`; the program itself would
 * keep drawing.
 */
module Placement {
  import opened Basics
  import opened Grid

  /** `NUM_RANDOM_OBSTACLES`. */
  const ObstacleCount := 10

  /** `safe_radius` around the starting head. */
  const SafeRadius := 3

  /**
   * The first candidate that is not an obstacle. The program also asks that
   * the candidate, a tuple, is not in the snake's list of lists; a tuple never
   * equals a list, so that test never rejects and is absent here.
   */
  function FirstFree(obstacles: seq<Cell>, draws: seq<Cell>): (r: Option<Cell>)
    ensures r.Some? ==> r.value !in obstacles
    ensures r.Some? ==> exists k :: 0 <= k < |draws| && draws[k] == r.value &&
                                     forall j :: 0 <= j < k ==> draws[j] in obstacles
    ensures r.None? <==> forall k :: 0 <= k < |draws| ==> draws[k] in obstacles
    decreases |draws|
  {
    if draws == [] then None
    else if draws[0] !in obstacles then Some(draws[0])
    else
      var r := FirstFree(obstacles, draws[1..]);
      assert r.Some? ==> exists k :: 0 <= k < |draws[1..]| && draws[1..][k] == r.value &&
                                     forall j :: 0 <= j < k ==> draws[1..][j] in obstacles;
      assert r.Some? ==> exists k :: 1 <= k < |draws| && draws[k] == r.value &&
                                     forall j :: 0 <= j < k ==> draws[j] in obstacles;
      r
  }

  /** The loop of `get_random_food_position`, one candidate per iteration. */
  method PlaceFood(obstacles: seq<Cell>, draws: seq<Cell>) returns (food: Option<Cell>)
    ensures food == FirstFree(obstacles, draws)
  {
    var i := 0;
    while i < |draws|
      invariant 0 <= i <= |draws|
      invariant FirstFree(obstacles, draws[i..]) == FirstFree(obstacles, draws)
    {
      var c := draws[i];
      if c !in obstacles {
        return Some(c);
      }
      assert draws[i..][1..] == draws[i + 1..];
      i := i + 1;
    }
    return None;
  }

  /** Within the safe square around the starting head (`too_close_to_head`). */
  predicate TooClose(head: Cell, c: Cell) {
    Abs(c.x - head.x) < SafeRadius && Abs(c.y - head.y) < SafeRadius
  }

  /** Distinct obstacles, none in the safe square. */
  predicate Spread(head: Cell, obstacles: seq<Cell>) {
    Distinct(obstacles) && forall i :: 0 <= i < |obstacles| ==> !TooClose(head, obstacles[i])
  }

  /** Obstacle placement after `placed` has been accepted, on the remaining candidates. */
  function PlaceFrom(head: Cell, count: nat, placed: seq<Cell>, draws: seq<Cell>): (r: Option<seq<Cell>>)
    requires |placed| <= count
    ensures r.Some? ==> |r.value| == count && placed <= r.value
    ensures r.Some? && Spread(head, placed) ==> Spread(head, r.value)
    ensures r.Some? ==> forall i :: |placed| <= i < count ==> r.value[i] in draws
    decreases |draws|
  {
    if |placed| == count then Some(placed)
    else if draws == [] then None
    else
      var c := draws[0];
      if !TooClose(head, c) && c !in placed then
        var r := PlaceFrom(head, count, placed + [c], draws[1..]);
        assert r.Some? ==> r.value[|placed|] == c;
        r
      else PlaceFrom(head, count, placed, draws[1..])
  }

  /** `generate_random_obstacles(count, [head])`. */
  function Obstacles(head: Cell, count: nat, draws: seq<Cell>): Option<seq<Cell>> {
    PlaceFrom(head, count, [], draws)
  }

  /**
   * Placed obstacles: exactly `count` distinct drawn cells outside the safe
   * square, so never the starting head, and inside the field when the draws are.
   */
  lemma ObstaclesPlaced(a: Arena, head: Cell, count: nat, draws: seq<Cell>)
    requires Obstacles(head, count, draws).Some?
    ensures var obs := Obstacles(head, count, draws).value;
      |obs| == count && Distinct(obs) && head !in obs &&
      (forall i :: 0 <= i < |obs| ==> !TooClose(head, obs[i])) &&
      ((forall i :: 0 <= i < |draws| ==> InArena(a, draws[i])) ==>
        forall i :: 0 <= i < |obs| ==> InArena(a, obs[i]))
  {
    var obs := Obstacles(head, count, draws).value;
    assert Spread(head, []);
    if forall i :: 0 <= i < |draws| ==> InArena(a, draws[i]) {
      forall i | 0 <= i < |obs|
        ensures InArena(a, obs[i])
      {
        assert obs[i] in draws;
      }
    }
    assert TooClose(head, head);
  }

  /** The nested loops of `generate_random_obstacles`. */
  method GenerateObstacles(count: nat, head: Cell, draws: seq<Cell>) returns (obstacles: Option<seq<Cell>>)
    ensures obstacles == Obstacles(head, count, draws)
  {
    var placed: seq<Cell> := [];
    var i := 0;
    for n := 0 to count
      invariant |placed| == n && 0 <= i <= |draws|
      invariant PlaceFrom(head, count, placed, draws[i..]) == Obstacles(head, count, draws)
    {
      while true
        invariant |placed| == n && 0 <= i <= |draws|
        invariant PlaceFrom(head, count, placed, draws[i..]) == Obstacles(head, count, draws)
        decreases |draws| - i
      {
        if i == |draws| {
          return None;
        }
        var c := draws[i];
        assert draws[i..][1..] == draws[i + 1..];
        i := i + 1;
        if !TooClose(head, c) && c !in placed {
          placed := placed + [c];
          break;
        }
      }
    }
    return Some(placed);
  }
}
