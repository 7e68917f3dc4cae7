/**
 * `game_loop`'s round state as an object whose fields the loop updates in
 * place: the body list gets appended to and loses its first cell, the head
 * is moved coordinate by coordinate. Each method is proved to do what the
 * value-level definitions of module `Snake` say.
 */
module Play {
  import opened Basics
  import opened Grid
  import opened Input
  import opened Placement
  import opened Snake

  class Session {
    const rules: Rules
    /** `snake_list`, oldest cell first. */
    var snakeList: seq<Cell>
    /** `snake_head_pos`. */
    var head: Cell
    var snakeLength: int
    var direction: Dir
    var changeTo: Dir
    var score: int
    /** `current_game_fps`, in half frames per second. */
    var speed: int
    var food: Cell
    var obstacles: seq<Cell>
    /** `game_close_screen`: the round has ended. */
    var closed: bool

    function State(): Round
      reads this
    {
      Round(snakeList, snakeLength, direction, changeTo, score, speed, food, obstacles)
    }

    /** Between ticks of a live round the head variable is the last body cell. */
    ghost predicate Valid()
      reads this
    {
      snakeList != [] && (!closed ==> head == Last(snakeList))
    }

    /**
     * The start of `game_loop`. Its placement loops return only once a
     * candidate is accepted, so the candidates given here contain one.
     */
    constructor (rules: Rules, draws: seq<Cell>, obstacleDraws: seq<Cell>)
      requires Fresh(rules, draws, obstacleDraws).Some?
      ensures this.rules == rules && Valid() && !closed
      ensures State() == Fresh(rules, draws, obstacleDraws).value
    {
      this.rules := rules;
      var start := Start(rules.arena);
      var placed: seq<Cell> := [];
      if rules.mode == ObstaclesMode {
        var o := GenerateObstacles(ObstacleCount, start, obstacleDraws);
        placed := o.value;
      }
      var f := PlaceFood(placed, draws);
      head := start;
      snakeList := [start];
      snakeLength := 1;
      direction := Right;
      changeTo := Right;
      obstacles := placed;
      food := f.value;
      score := 0;
      speed := SpeedFor(rules, 0);
      closed := false;
    }

    /** R on the game-over screen: every round variable back to its start value. */
    method Restart(draws: seq<Cell>, obstacleDraws: seq<Cell>) returns (placed: bool)
      modifies this
      ensures placed <==> Fresh(rules, draws, obstacleDraws).Some?
      ensures placed ==> Valid() && !closed && State() == Fresh(rules, draws, obstacleDraws).value
      ensures !placed ==> State() == old(State()) && closed == old(closed) && head == old(head)
    {
      var start := Start(rules.arena);
      var obs: seq<Cell> := [];
      if rules.mode == ObstaclesMode {
        var o := GenerateObstacles(ObstacleCount, start, obstacleDraws);
        if o.None? {
          return false;
        }
        obs := o.value;
      }
      var f := PlaceFood(obs, draws);
      if f.None? {
        return false;
      }
      head := start;
      snakeList := [start];
      snakeLength := 1;
      direction := Right;
      changeTo := Right;
      obstacles := obs;
      food := f.value;
      score := 0;
      speed := SpeedFor(rules, 0);
      closed := false;
      return true;
    }

    /** The play event loop of V5 and later. */
    method HandleEvents(events: seq<Event>) returns (stop: Interrupt)
      modifies this
      ensures ScanPlay(old(direction), old(changeTo), events) == Scan(changeTo, stop)
      ensures State() == old(State()).(pending := changeTo)
      ensures head == old(head) && closed == old(closed)
    {
      stop := Uninterrupted;
      var i := 0;
      while i < |events| && stop == Uninterrupted
        invariant 0 <= i <= |events|
        invariant State() == old(State()).(pending := changeTo)
        invariant head == old(head) && closed == old(closed)
        invariant stop == Uninterrupted ==>
          ScanPlay(direction, changeTo, events[i..]) == ScanPlay(direction, old(changeTo), events)
        invariant stop != Uninterrupted ==>
          Scan(changeTo, stop) == ScanPlay(direction, old(changeTo), events)
      {
        var e := events[i];
        assert events[i..][1..] == events[i + 1..];
        if e.Quit? {
          stop := QuitRequested;
        } else if e.KeyDown? {
          if e.key == Escape {
            stop := EscapeRequested;
          } else if e.key == KeyA && direction != Right {
            changeTo := Left;
          } else if e.key == KeyD && direction != Left {
            changeTo := Right;
          } else if e.key == KeyW && direction != Down {
            changeTo := Up;
          } else if e.key == KeyS && direction != Up {
            changeTo := Down;
          }
        }
        i := i + 1;
      }
    }

    /** The play event loop of V1..V4: QUIT and ESC only raise `game_over`. */
    method HandleLegacyEvents(events: seq<Event>) returns (gameOver: bool)
      modifies this
      ensures ScanLegacy(old(direction), old(changeTo), events) ==
              Scan(changeTo, if gameOver then QuitRequested else Uninterrupted)
      ensures State() == old(State()).(pending := changeTo)
      ensures head == old(head) && closed == old(closed)
    {
      gameOver := false;
      for i := 0 to |events|
        invariant State() == old(State()).(pending := changeTo)
        invariant head == old(head) && closed == old(closed)
        invariant var rest := ScanLegacy(direction, changeTo, events[i..]);
          ScanLegacy(direction, old(changeTo), events) ==
          Scan(rest.pending, if gameOver || rest.stop == QuitRequested then QuitRequested else Uninterrupted)
      {
        var e := events[i];
        ghost var before := changeTo;
        assert events[i..][1..] == events[i + 1..];
        if e.Quit? {
          gameOver := true;
        }
        if e.KeyDown? {
          if e.key == KeyA && direction != Right {
            changeTo := Left;
          } else if e.key == KeyD && direction != Left {
            changeTo := Right;
          } else if e.key == KeyW && direction != Down {
            changeTo := Up;
          } else if e.key == KeyS && direction != Up {
            changeTo := Down;
          } else if e.key == Escape {
            gameOver := true;
          }
        }
        assert changeTo == if e.KeyDown? then Steer(direction, before, e.key) else before;
        assert ScanLegacy(direction, before, events[i..]) ==
          var rest := ScanLegacy(direction, changeTo, events[i + 1..]);
          if IsQuit(e) || IsKey(e, Escape) then Scan(rest.pending, QuitRequested) else rest;
      }
    }

    /** After a non-colliding move: the food test and what eating changes. */
    method EatIfFood(draws: seq<Cell>) returns (outcome: Outcome)
      requires snakeList != [] && direction == changeTo
      modifies this
      ensures Move(State(), outcome) == Finish(rules, old(State()), old(snakeList), old(head), draws)
      ensures head == old(head) && closed == old(closed) && snakeList == old(snakeList)
    {
      if head == food {
        var f := PlaceFood(obstacles, draws);
        if f.None? {
          return Stalled;
        }
        food := f.value;
        snakeLength := snakeLength + 1;
        score := score + FoodScore;
        if rules.ramp && speed < MaxSpeed {
          speed := speed + 1;
          speed := Min(speed, MaxSpeed);
        }
        return Ate;
      }
      return Moved;
    }

    /**
     * The first part of a tick of V5 and later: adopt the pending direction
     * and move the head, wrapping it in BORDERLESS mode and ending the round
     * when it leaves a walled field.
     */
    method MoveHead()
      requires Valid() && !closed
      modifies this
      ensures head == Target(rules, old(State())) && direction == changeTo
      ensures closed <==> rules.mode != BorderlessMode && !InArena(rules.arena, head)
      ensures State() == old(State()).(dir := changeTo)
    {
      direction := changeTo;
      var x := head.x + DX(direction);
      var y := head.y + DY(direction);
      if rules.mode == BorderlessMode {
        if x >= rules.arena.width { x := 0; } else if x < 0 { x := rules.arena.width - 1; }
        if y >= rules.arena.height { y := 0; } else if y < 0 { y := rules.arena.height - 1; }
      } else if !(0 <= x < rules.arena.width && 0 <= y < rules.arena.height) {
        closed := true;
      }
      head := Cell(x, y);
    }

    /** The first part of a tick of V1..V4: move the head, with no wrapping; leaving the field ends the round. */
    method MoveHeadLegacy()
      requires Valid() && !closed
      modifies this
      ensures head == Shift(Last(old(snakeList)), old(changeTo)) && direction == changeTo
      ensures closed <==> !InArena(rules.arena, head)
      ensures State() == old(State()).(dir := changeTo)
    {
      direction := changeTo;
      head := Cell(head.x + DX(direction), head.y + DY(direction));
      if head.x >= rules.arena.width || head.x < 0 || head.y >= rules.arena.height || head.y < 0 {
        closed := true;
      }
    }

    /** One tick of V5 and later (`main.py`'s, in all three modes). */
    method Tick(draws: seq<Cell>) returns (outcome: Outcome)
      requires Valid() && !closed && !rules.appendFirst
      modifies this
      ensures Move(State(), outcome) == StepPreMove(rules, old(State()), draws)
      ensures closed <==> outcome == Collided
      ensures head == Target(rules, old(State())) && snakeList != []
      ensures !closed ==> Valid()
    {
      MoveHead();
      if head in DropLast(snakeList) {
        closed := true;
      }
      if rules.mode == ObstaclesMode && head in obstacles {
        closed := true;
      }
      assert closed <==> HitsBefore(rules, old(State()), head);
      if closed {
        return Collided;
      }
      AppendHead();
      outcome := EatIfFood(draws);
    }

    /** `snake_list.append(head)` and, when over length, `del snake_list[0]`. */
    method AppendHead()
      modifies this
      ensures snakeList == Grow(old(snakeList), head, snakeLength)
      ensures State() == old(State()).(body := snakeList)
      ensures head == old(head) && closed == old(closed)
    {
      snakeList := snakeList + [head];
      if |snakeList| > snakeLength {
        snakeList := snakeList[1..];
      }
    }

    /** One tick of V1..V4: append and trim first, then the tests. */
    method TickAppendFirst(draws: seq<Cell>) returns (outcome: Outcome)
      requires Valid() && !closed && rules.appendFirst
      modifies this
      ensures Move(State(), outcome) == StepAppendFirst(rules, old(State()), draws)
      ensures closed <==> outcome == Collided
      ensures snakeList != [] && head == Last(snakeList)
    {
      MoveHeadLegacy();
      AppendHead();
      var bitten := Occurs(head, DropLast(snakeList));
      if bitten {
        closed := true;
      }
      if closed {
        return Collided;
      }
      outcome := EatIfFood(draws);
    }
  }

  /** `for segment in cells: if segment == c: ... break`: whether `c` is one of `cells`. */
  method Occurs(c: Cell, cells: seq<Cell>) returns (found: bool)
    ensures found <==> c in cells
    ensures found ==> exists i :: 0 <= i < |cells| && cells[i] == c
  {
    for i := 0 to |cells|
      invariant c !in cells[..i]
    {
      if cells[i] == c {
        return true;
      }
    }
    assert cells[..|cells|] == cells;
    return false;
  }
}
