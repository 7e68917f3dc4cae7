/** The ten versions of the program and the features each one has. */
module Versions {
  import opened Grid
  import opened Snake

  /** `Old/main_V1.py` .. `Old/main_V9.py` and `main.py` (`Current`). */
  datatype Version = V1 | V2 | V3 | V4 | V5 | V6 | V7 | V8 | V9 | Current

  /** V1..V4: no menus, a 30x20 field and the append-first tick. */
  predicate Legacy(v: Version) { v == V1 || v == V2 || v == V3 || v == V4 }

  /** V3 and V4 keep a single high score in a text file. */
  predicate KeepsHighScore(v: Version) { v == V3 || v == V4 }

  /** From V2 on the game-over sound plays when the game-over screen opens. */
  predicate SoundsGameOver(v: Version) { v != V1 }

  /** V5 keeps a list of bare scores. */
  predicate KeepsScoreList(v: Version) { v == V5 }

  /** V6 on keep named entries and ask for a name when a score qualifies. */
  predicate KeepsNames(v: Version) { v == V6 || v == V7 || v == V8 || v == V9 || v == Current }

  /** V7 on speed up by half a frame per second per food. */
  predicate Ramps(v: Version) { v == V7 || v == V8 || v == V9 || v == Current }

  /** V8 on open a pause menu on ESC; V5..V7 leave the round for the menu. */
  predicate Pauses(v: Version) { v == V8 || v == V9 || v == Current }

  /**
   * V5 has no `if game_over_flag: break` after its game-over loop, so after M
   * its game loop runs one more play poll before it returns to the menu.
   */
  predicate PassAfterMenu(v: Version) { v == V5 }

  /** Only the current version has game modes and a mode selection screen. */
  predicate HasModes(v: Version) { v == Current }

  function Field(v: Version): Arena { if Legacy(v) then Narrow else Wide }

  /** The tick rules of version `v` when `mode` is the selected mode (ignored before the current version). */
  function RulesFor(v: Version, mode: Mode): (rules: Rules)
    ensures Sane(rules)
    ensures rules.appendFirst <==> Legacy(v)
  {
    Rules(Field(v), if HasModes(v) then mode else ClassicMode, Ramps(v), Legacy(v))
  }

  /**
   * V7..V9 tick exactly as the current version does in CLASSIC mode; V5 and
   * V6 differ from it only in keeping the speed fixed.
   */
  lemma ClassicTicksAgree(v: Version, mode: Mode)
    requires !Legacy(v)
    ensures Ramps(v) ==> RulesFor(v, mode) == RulesFor(Current, ClassicMode) || v == Current
    ensures !Ramps(v) ==> RulesFor(v, mode) == RulesFor(Current, ClassicMode).(ramp := false)
  {
  }

  /** Without the ramp a tick is the ramped tick with the speed left alone. */
  lemma RampOnlyChangesSpeed(rules: Rules, r: Round, draws: seq<Cell>)
    requires r.body != []
    ensures var fixed := Step(rules.(ramp := false), r, draws);
            var ramped := Step(rules, r, draws);
      fixed.outcome == ramped.outcome && fixed.next == ramped.next.(speed := r.speed)
  {
  }
}
