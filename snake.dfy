/**
 * One round of Snake as values: the state `game_loop` keeps between ticks,
 * steering by key presses, and the two tick orders the versions use.
 *
 * Speed is counted in half frames per second, so the 0.5 FPS increment of
 * the ramp is one unit: 8 FPS is 16, 50 FPS is 100, the fixed FPS 10 of the
 * versions without a ramp is 20.
 */
module Snake {
  import opened Basics
  import opened Grid
  import opened Input
  import opened Placement

  /** `INITIAL_FPS = 8`. */
  const InitialSpeed := 16
  /** `MAX_FPS = 50`. */
  const MaxSpeed := 100
  /** `FPS = 10` of V1..V6, which never changes. */
  const FixedSpeed := 20
  /** Points per food. */
  const FoodScore := 10

  /** `current_game_mode`: "CLASSIC", "OBSTACLES", "BORDERLESS". */
  datatype Mode = ClassicMode | ObstaclesMode | BorderlessMode

  /**
   * What a version's tick depends on: the field, the mode, whether eating
   * speeds the game up, and whether the head is appended before the
   * collision tests (V1..V4) or tested first (V5 on).
   */
  datatype Rules = Rules(arena: Arena, mode: Mode, ramp: bool, appendFirst: bool)

  /**
   * `snake_list` (oldest cell first, head last), `snake_length`,
   * `current_direction`, `change_to_direction`, `score`, the speed,
   * `food_pos` and `obstacles`.
   */
  datatype Round = Round(body: seq<Cell>, length: int, dir: Dir, pending: Dir,
                         score: int, speed: int, food: Cell, obstacles: seq<Cell>)

  /** `Stalled`: the food loop ran out of candidate cells. */
  datatype Outcome = Moved | Ate | Collided | Stalled

  datatype Move = Move(next: Round, outcome: Outcome)

  // ---------------------------------------------------------------- steering

  /** The direction requested by W, A, S and D. */
  function Wanted(k: Key): Option<Dir> {
    match k
    case KeyA => Some(Left)
    case KeyD => Some(Right)
    case KeyW => Some(Up)
    case KeyS => Some(Down)
    case _ => None
  }

  /**
   * One key press during play: the requested direction becomes pending
   * unless it is the reverse of the current direction.
   */
  function Steer(current: Dir, pending: Dir, k: Key): (p: Dir)
    ensures p == pending || (Wanted(k) == Some(p) && p != Opposite(current))
    ensures Wanted(k).Some? && Wanted(k).value != Opposite(current) ==> p == Wanted(k).value
    ensures Wanted(k).Some? && Wanted(k).value == Opposite(current) ==> p == pending
  {
    match Wanted(k)
    case Some(d) => if current != Opposite(d) then d else pending
    case None => pending
  }

  /** How a play frame's event loop ended. */
  datatype Interrupt = Uninterrupted | QuitRequested | EscapeRequested

  datatype Scan = Scan(pending: Dir, stop: Interrupt)

  /**
   * The play event loop of V5 and later: keys steer in order; QUIT or ESC
   * ends the loop, and the events after it are not looked at.
   */
  function ScanPlay(current: Dir, pending: Dir, events: seq<Event>): (s: Scan)
    ensures pending != Opposite(current) ==> s.pending != Opposite(current)
    ensures s.stop == Uninterrupted <==>
      forall i :: 0 <= i < |events| ==> !IsQuit(events[i]) && !IsKey(events[i], Escape)
    decreases |events|
  {
    if events == [] then Scan(pending, Uninterrupted)
    else
      var rest := ScanPlay(current, if events[0].KeyDown? then Steer(current, pending, events[0].key) else pending, events[1..]);
      assert forall i :: 1 <= i < |events| ==> events[i] == events[1..][i - 1];
      match events[0]
      case Quit => Scan(pending, QuitRequested)
      case KeyDown(k, _) => if k == Escape then Scan(pending, EscapeRequested) else rest
      case _ => rest
  }

  /**
   * The play event loop of V1..V4: every event is handled; QUIT or ESC only
   * sets `game_over`, and the tick of this frame still runs.
   */
  function ScanLegacy(current: Dir, pending: Dir, events: seq<Event>): (s: Scan)
    ensures pending != Opposite(current) ==> s.pending != Opposite(current)
    ensures s.stop != EscapeRequested
    ensures s.stop == QuitRequested <==>
      exists i :: 0 <= i < |events| && (IsQuit(events[i]) || IsKey(events[i], Escape))
    decreases |events|
  {
    if events == [] then Scan(pending, Uninterrupted)
    else
      var p := if events[0].KeyDown? then Steer(current, pending, events[0].key) else pending;
      var rest := ScanLegacy(current, p, events[1..]);
      assert forall i :: 1 <= i < |events| ==> events[i] == events[1..][i - 1];
      if IsQuit(events[0]) || IsKey(events[0], Escape) then Scan(rest.pending, QuitRequested) else rest
  }

  /**
   * The first window close or ESC decides how the V5-on play loop ends, and
   * the pending direction is the one the keys before it steer to, read as
   * the V1..V4 loop reads them.
   */
  lemma {:induction false} ScanPlayFirstStop(current: Dir, pending: Dir, events: seq<Event>)
    ensures var k := FirstStop(events);
      var s := ScanPlay(current, pending, events);
      s.pending == ScanLegacy(current, pending, events[..k]).pending &&
      s.stop == (if k == |events| then Uninterrupted
                 else if IsQuit(events[k]) then QuitRequested else EscapeRequested)
    decreases |events|
  {
    if events == [] || IsStop(events[0]) {
      assert events[..FirstStop(events)] == [];
    } else {
      var e := events[0];
      var rest := events[1..];
      ScanPlayFirstStop(current, if e.KeyDown? then Steer(current, pending, e.key) else pending, rest);
      ScanStep(current, pending, e, rest);
      assert events == [e] + rest;
    }
  }

  /**
   * A key that is neither a window close nor ESC steers, in both play loops,
   * and the loop goes on; the first stop is one further on.
   */
  lemma ScanStep(current: Dir, pending: Dir, e: Event, rest: seq<Event>)
    requires !IsStop(e)
    ensures var p := if e.KeyDown? then Steer(current, pending, e.key) else pending;
      var k := FirstStop(rest);
      FirstStop([e] + rest) == k + 1 &&
      ([e] + rest)[..k + 1] == [e] + rest[..k] &&
      (k < |rest| ==> ([e] + rest)[k + 1] == rest[k]) &&
      ScanPlay(current, pending, [e] + rest) == ScanPlay(current, p, rest) &&
      ScanLegacy(current, pending, [e] + rest[..k]) == ScanLegacy(current, p, rest[..k])
  {
    var k := FirstStop(rest);
    assert ([e] + rest)[0] == e;
    assert ([e] + rest)[1..] == rest;
    assert ([e] + rest[..k])[0] == e;
    assert ([e] + rest[..k])[1..] == rest[..k];
  }

  // ------------------------------------------------------------------- ticks

  /** The speed after one food: `if fps < MAX_FPS: fps = min(fps + 0.5, MAX_FPS)`. */
  function Accelerate(rules: Rules, speed: int): int {
    if rules.ramp && speed < MaxSpeed then Min(speed + 1, MaxSpeed) else speed
  }

  /** The speed a round has after `eaten` foods. */
  function SpeedFor(rules: Rules, eaten: int): int {
    if rules.ramp then Min(InitialSpeed + eaten, MaxSpeed) else FixedSpeed
  }

  /** The new head: the pending direction applied to the head, wrapped in BORDERLESS mode. */
  function Target(rules: Rules, r: Round): Cell
    requires r.body != []
  {
    Advance(rules.arena, Last(r.body), r.pending, rules.mode == BorderlessMode)
  }

  /** `snake_list.append(head)`, then `del snake_list[0]` when over length. */
  function Grow(body: seq<Cell>, h: Cell, length: int): seq<Cell> {
    var grown := body + [h];
    if |grown| > length then grown[1..] else grown
  }

  /** After a move that did not collide: eat when the head reaches the food. */
  function Finish(rules: Rules, r: Round, body: seq<Cell>, h: Cell, draws: seq<Cell>): Move {
    if h != r.food then Move(r.(dir := r.pending, body := body), Moved)
    else
      match FirstFree(r.obstacles, draws)
      case None => Move(r.(dir := r.pending, body := body), Stalled)
      case Some(f) =>
        Move(Round(body, r.length + 1, r.pending, r.pending, r.score + FoodScore,
                   Accelerate(rules, r.speed), f, r.obstacles), Ate)
  }

  /** The collision test of V5 and later, made before the head is appended. */
  predicate HitsBefore(rules: Rules, r: Round, h: Cell) {
    (rules.mode != BorderlessMode && !InArena(rules.arena, h)) ||
    h in DropLast(r.body) ||
    (rules.mode == ObstaclesMode && h in r.obstacles)
  }

  /** The tick of V5..V9 and of the current version. */
  function StepPreMove(rules: Rules, r: Round, draws: seq<Cell>): Move
    requires r.body != []
  {
    var h := Target(rules, r);
    if HitsBefore(rules, r, h) then Move(r.(dir := r.pending), Collided)
    else Finish(rules, r, Grow(r.body, h, r.length), h, draws)
  }

  /** The tick of V1..V4: append and trim, then test the field and the body without the new head. */
  function StepAppendFirst(rules: Rules, r: Round, draws: seq<Cell>): Move
    requires r.body != []
  {
    var h := Shift(Last(r.body), r.pending);
    var body := Grow(r.body, h, r.length);
    if !InArena(rules.arena, h) || h in DropLast(body) then Move(r.(dir := r.pending, body := body), Collided)
    else Finish(rules, r, body, h, draws)
  }

  function Step(rules: Rules, r: Round, draws: seq<Cell>): Move
    requires r.body != []
  {
    if rules.appendFirst then StepAppendFirst(rules, r, draws) else StepPreMove(rules, r, draws)
  }

  /**
   * The state at the start of `game_loop` and after R: one cell at the
   * start, length 1, moving right, score 0, initial speed; obstacles in
   * OBSTACLES mode, then food.
   */
  function Fresh(rules: Rules, draws: seq<Cell>, obstacleDraws: seq<Cell>): Option<Round> {
    var start := Start(rules.arena);
    var placed := if rules.mode == ObstaclesMode then Obstacles(start, ObstacleCount, obstacleDraws) else Some([]);
    if placed.None? then None
    else
      match FirstFree(placed.value, draws)
      case None => None
      case Some(f) => Some(Round([start], 1, Right, Right, 0, SpeedFor(rules, 0), f, placed.value))
  }

  // -------------------------------------------------------------- invariant

  /**
   * What holds between ticks of a live round: the body holds `length` or
   * `length - 1` distinct cells of the field and no obstacle; the food is in
   * the field and not on an obstacle; the score and the speed are determined
   * by the number of foods eaten; the pending direction does not reverse the
   * current one.
   */
  predicate Good(rules: Rules, r: Round) {
    |r.body| >= 1 && r.length - 1 <= |r.body| <= r.length &&
    r.score == FoodScore * (r.length - 1) &&
    r.speed == SpeedFor(rules, r.length - 1) &&
    Distinct(r.body) &&
    (forall i :: 0 <= i < |r.body| ==> InArena(rules.arena, r.body[i]) && r.body[i] !in r.obstacles) &&
    InArena(rules.arena, r.food) && r.food !in r.obstacles &&
    (rules.mode != ObstaclesMode ==> r.obstacles == []) &&
    r.pending != Opposite(r.dir)
  }

  /** The rules every version uses: a roomy field, and the append-first tick only in CLASSIC. */
  predicate Sane(rules: Rules) {
    Roomy(rules.arena) && (rules.appendFirst ==> rules.mode == ClassicMode)
  }

  predicate AllIn(a: Arena, cells: seq<Cell>) {
    forall i :: 0 <= i < |cells| ==> InArena(a, cells[i])
  }

  // ------------------------------------------------------------------ lemmas

  lemma DistinctAppend(s: seq<Cell>, x: Cell)
    requires Distinct(s) && x !in s
    ensures Distinct(s + [x])
  {
    forall i, j | 0 <= i < j < |s + [x]|
      ensures (s + [x])[i] != (s + [x])[j]
    {
      if j == |s| {
        assert (s + [x])[i] == s[i];
      }
    }
  }

  lemma DistinctTail(s: seq<Cell>)
    requires Distinct(s) && s != []
    ensures Distinct(s[1..])
  {
    forall i, j | 0 <= i < j < |s[1..]|
      ensures s[1..][i] != s[1..][j]
    {
      assert s[1..][i] == s[i + 1] && s[1..][j] == s[j + 1];
    }
  }

  /** A body whose last cell is not among the others has no repeated cell. */
  lemma DistinctByLast(s: seq<Cell>)
    requires s != [] && Distinct(DropLast(s)) && Last(s) !in DropLast(s)
    ensures Distinct(s)
  {
    assert s == DropLast(s) + [Last(s)];
    DistinctAppend(DropLast(s), Last(s));
  }

  /** The food chosen when eating is a candidate, so it lies in the field when the candidates do. */
  lemma FoodInField(a: Arena, obstacles: seq<Cell>, draws: seq<Cell>)
    requires AllIn(a, draws) && FirstFree(obstacles, draws).Some?
    ensures InArena(a, FirstFree(obstacles, draws).value) && FirstFree(obstacles, draws).value !in obstacles
  {
    var k :| 0 <= k < |draws| && draws[k] == FirstFree(obstacles, draws).value;
  }

  /** `SpeedFor` counts the ramp's steps. */
  lemma SpeedStep(rules: Rules, eaten: int)
    requires eaten >= 0
    ensures Accelerate(rules, SpeedFor(rules, eaten)) == SpeedFor(rules, eaten + 1)
    ensures rules.ramp ==> InitialSpeed <= SpeedFor(rules, eaten) <= MaxSpeed
    ensures !rules.ramp ==> SpeedFor(rules, eaten) == FixedSpeed
  {
  }

  /**
   * The start of a round and R give the same round whatever came before:
   * one cell at the start, length 1, score 0, moving right, the initial
   * speed; in OBSTACLES mode `ObstacleCount` distinct obstacles outside the
   * safe square. That round satisfies `Good`.
   */
  lemma FreshRound(rules: Rules, draws: seq<Cell>, obstacleDraws: seq<Cell>)
    requires Sane(rules) && AllIn(rules.arena, draws) && AllIn(rules.arena, obstacleDraws)
    requires Fresh(rules, draws, obstacleDraws).Some?
    ensures var r := Fresh(rules, draws, obstacleDraws).value;
      Good(rules, r) && r.body == [Start(rules.arena)] && r.length == 1 && r.score == 0 &&
      r.dir == Right && r.pending == Right &&
      r.speed == (if rules.ramp then InitialSpeed else FixedSpeed) &&
      (rules.mode == ObstaclesMode ==>
        |r.obstacles| == ObstacleCount && Distinct(r.obstacles) &&
        forall i :: 0 <= i < |r.obstacles| ==> !TooClose(Start(rules.arena), r.obstacles[i]))
  {
    var start := Start(rules.arena);
    var r := Fresh(rules, draws, obstacleDraws).value;
    if rules.mode == ObstaclesMode {
      ObstaclesPlaced(rules.arena, start, ObstacleCount, obstacleDraws);
    }
    FoodInField(rules.arena, r.obstacles, draws);
    assert r.body == [start];
  }

  /** The facts about a move that did not collide, shared by both tick orders. */
  lemma FinishKeepsGood(rules: Rules, r: Round, h: Cell, draws: seq<Cell>)
    requires Sane(rules) && Good(rules, r) && AllIn(rules.arena, draws)
    requires InArena(rules.arena, h) && h !in r.obstacles
    requires Distinct(Grow(r.body, h, r.length))
    ensures var m := Finish(rules, r, Grow(r.body, h, r.length), h, draws);
      m.outcome != Collided && Good(rules, m.next)
  {
    var body := Grow(r.body, h, r.length);
    var m := Finish(rules, r, body, h, draws);
    assert |body| == r.length;
    forall i | 0 <= i < |body|
      ensures InArena(rules.arena, body[i]) && body[i] !in r.obstacles
    {
      if |r.body + [h]| > r.length {
        assert body[i] == (r.body + [h])[i + 1];
      } else {
        assert body[i] == (r.body + [h])[i];
      }
    }
    if h == r.food && FirstFree(r.obstacles, draws).Some? {
      FoodInField(rules.arena, r.obstacles, draws);
      SpeedStep(rules, r.length - 1);
    }
  }

  /**
   * Every tick that does not end the round keeps `Good`; so does a
   * collision in V5 and later, which leaves the body as it was.
   */
  lemma StepKeepsGood(rules: Rules, r: Round, draws: seq<Cell>)
    requires Sane(rules) && Good(rules, r) && AllIn(rules.arena, draws)
    ensures var m := Step(rules, r, draws);
      (m.outcome != Collided || !rules.appendFirst) ==> Good(rules, m.next)
  {
    var last := Last(r.body);
    var m := Step(rules, r, draws);
    if rules.appendFirst {
      var h := Shift(last, r.pending);
      var body := Grow(r.body, h, r.length);
      if m.outcome != Collided {
        assert InArena(rules.arena, h) && h !in DropLast(body);
        assert DropLast(body) == if |r.body + [h]| > r.length then r.body[1..] else r.body;
        if |r.body + [h]| > r.length {
          DistinctTail(r.body);
        }
        DistinctByLast(body);
        FinishKeepsGood(rules, r, h, draws);
      }
    } else {
      var h := Target(rules, r);
      if m.outcome != Collided {
        assert !HitsBefore(rules, r, h);
        if rules.mode == BorderlessMode {
          WrapStep(rules.arena, last, r.pending);
        }
        ShiftMoves(last, r.pending);
        assert h != last;
        assert r.body == DropLast(r.body) + [last];
        assert h !in r.body;
        DistinctAppend(r.body, h);
        if |r.body + [h]| > r.length {
          DistinctTail(r.body + [h]);
        }
        FinishKeepsGood(rules, r, h, draws);
      }
    }
  }

  /**
   * V5 on: the round ends exactly when the new head leaves the field in a
   * walled mode, lands on a cell of the body other than the current head
   * (the tail included), or lands on an obstacle in OBSTACLES mode; then
   * body, length, score, speed and food stay as they were.
   */
  lemma PreMoveCollision(rules: Rules, r: Round, draws: seq<Cell>)
    requires r.body != []
    ensures var h := Target(rules, r); var m := StepPreMove(rules, r, draws);
      (m.outcome == Collided <==>
        (rules.mode != BorderlessMode && !InArena(rules.arena, h)) ||
        (exists i :: 0 <= i < |r.body| - 1 && r.body[i] == h) ||
        (rules.mode == ObstaclesMode && h in r.obstacles)) &&
      (m.outcome == Collided ==> m.next == r.(dir := r.pending))
  {
    var h := Target(rules, r);
    assert DropLast(r.body) == r.body[..|r.body| - 1];
    assert h in DropLast(r.body) <==> exists i :: 0 <= i < |r.body| - 1 && r.body[i] == h;
  }

  /**
   * BORDERLESS: the new head is always in the field, and only the body ends
   * the round.
   */
  lemma BorderlessNeverHitsWall(rules: Rules, r: Round, draws: seq<Cell>)
    requires Sane(rules) && rules.mode == BorderlessMode && !rules.appendFirst && Good(rules, r)
    ensures InArena(rules.arena, Target(rules, r))
    ensures StepPreMove(rules, r, draws).outcome == Collided <==>
      exists i :: 0 <= i < |r.body| - 1 && r.body[i] == Target(rules, r)
  {
    WrapStep(rules.arena, Last(r.body), r.pending);
    PreMoveCollision(rules, r, draws);
  }

  /**
   * A move that does not end the round appends the new head and drops the
   * oldest cell only when the body is already `length` long. Growth shows
   * one tick late: after eating the body is one short of the new length.
   * Eating adds 10 points, one to the length and one ramp step to the speed,
   * and the new food is in the field and not on an obstacle.
   */
  lemma MoveEffects(rules: Rules, r: Round, draws: seq<Cell>)
    requires Sane(rules) && Good(rules, r) && AllIn(rules.arena, draws)
    requires Step(rules, r, draws).outcome in {Moved, Ate}
    ensures var m := Step(rules, r, draws);
      var h := Last(m.next.body);
      h == Target(rules, r) &&
      m.next.body == (if |r.body| == r.length then r.body[1..] else r.body) + [h] &&
      m.next.obstacles == r.obstacles && m.next.pending == r.pending &&
      m.next.dir == r.pending && m.next.dir != Opposite(r.dir) &&
      (m.outcome == Moved ==>
        |m.next.body| == m.next.length && m.next.length == r.length &&
        m.next.score == r.score && m.next.speed == r.speed && m.next.food == r.food) &&
      (m.outcome == Ate ==>
        h == r.food && |m.next.body| == m.next.length - 1 && m.next.length == r.length + 1 &&
        m.next.score == r.score + FoodScore &&
        m.next.speed == (if rules.ramp then Min(r.speed + 1, MaxSpeed) else r.speed) &&
        InArena(rules.arena, m.next.food) && m.next.food !in m.next.obstacles)
  {
    var m := Step(rules, r, draws);
    var h := if rules.appendFirst then Shift(Last(r.body), r.pending) else Target(rules, r);
    if rules.appendFirst {
      assert Target(rules, r) == h;
      assert m == Finish(rules, r, Grow(r.body, h, r.length), h, draws);
    } else {
      assert m == Finish(rules, r, Grow(r.body, h, r.length), h, draws);
    }
    if m.outcome == Ate {
      FoodInField(rules.arena, r.obstacles, draws);
    }
  }

  /**
   * The tail-chasing difference: when the head moves into the cell the tail
   * is about to leave, the append-first tick of V1..V4 lets the round go on
   * and the tick of V5 on ends it.
   */
  lemma TailChase(rules: Rules, r: Round, draws: seq<Cell>)
    requires Sane(rules) && rules.mode == ClassicMode && Good(rules, r)
    requires |r.body| == r.length >= 2
    requires InArena(rules.arena, Shift(Last(r.body), r.pending)) && Shift(Last(r.body), r.pending) == r.body[0]
    ensures StepAppendFirst(rules, r, draws).outcome != Collided
    ensures StepPreMove(rules, r, draws).outcome == Collided
  {
    var h := Shift(Last(r.body), r.pending);
    assert Grow(r.body, h, r.length) == r.body[1..] + [h];
    assert DropLast(r.body[1..] + [h]) == r.body[1..];
    assert h !in r.body[1..];
    assert r.body[0] in DropLast(r.body);
  }

  /**
   * Apart from the tail-chasing case and a head outside the field, the two
   * tick orders reach the same outcome in CLASSIC mode, and the same round
   * unless it ends, when only V1..V4 have appended the head.
   */
  lemma TickOrdersAgree(rules: Rules, r: Round, draws: seq<Cell>)
    requires Sane(rules) && rules.mode == ClassicMode && Good(rules, r)
    requires InArena(rules.arena, Shift(Last(r.body), r.pending))
    requires !(|r.body| == r.length && |r.body| >= 2 && Shift(Last(r.body), r.pending) == r.body[0])
    ensures StepAppendFirst(rules, r, draws).outcome == StepPreMove(rules, r, draws).outcome
    ensures StepPreMove(rules, r, draws).outcome != Collided ==>
      StepAppendFirst(rules, r, draws) == StepPreMove(rules, r, draws)
    ensures StepPreMove(rules, r, draws).outcome == Collided ==>
      StepAppendFirst(rules, r, draws).next ==
        StepPreMove(rules, r, draws).next.(body := Grow(r.body, Shift(Last(r.body), r.pending), r.length))
  {
    var last := Last(r.body);
    var h := Shift(last, r.pending);
    ShiftMoves(last, r.pending);
    var n := |r.body|;
    assert Target(rules, r) == h;
    assert r.body == DropLast(r.body) + [last];
    if |r.body + [h]| > r.length {
      assert DropLast(Grow(r.body, h, r.length)) == r.body[1..];
      if n >= 2 {
        assert r.body[1..] == r.body[1..n - 1] + [last];
        assert DropLast(r.body) == [r.body[0]] + r.body[1..n - 1];
      }
      assert h in r.body[1..] <==> h in DropLast(r.body);
    } else {
      assert DropLast(Grow(r.body, h, r.length)) == r.body;
      assert h in r.body <==> h in DropLast(r.body);
    }
    assert HitsBefore(rules, r, h) <==> h in DropLast(Grow(r.body, h, r.length));
  }

  /**
   * A head outside the field ends the round in both orders, but only the
   * append-first tick of V1..V4 has already appended it and trimmed the tail.
   */
  lemma OffFieldDiffers(rules: Rules, r: Round, draws: seq<Cell>)
    requires rules.mode == ClassicMode && r.body != []
    requires !InArena(rules.arena, Shift(Last(r.body), r.pending))
    ensures StepAppendFirst(rules, r, draws).outcome == Collided
    ensures StepAppendFirst(rules, r, draws).next.body == Grow(r.body, Shift(Last(r.body), r.pending), r.length)
    ensures StepPreMove(rules, r, draws).outcome == Collided
    ensures StepPreMove(rules, r, draws).next.body == r.body
  {
  }

  /** Food can land on the snake: a fresh round whose first candidate is the start cell puts the food under the head. */
  lemma FoodMayCoverSnake(rules: Rules, obstacleDraws: seq<Cell>)
    requires Sane(rules)
    requires Fresh(rules, [Start(rules.arena)], obstacleDraws).Some?
    ensures Fresh(rules, [Start(rules.arena)], obstacleDraws).value.food in
            Fresh(rules, [Start(rules.arena)], obstacleDraws).value.body
  {
    var start := Start(rules.arena);
    if rules.mode == ObstaclesMode {
      ObstaclesPlaced(rules.arena, start, ObstacleCount, obstacleDraws);
    }
  }
}
