/**
 * The screen state machine of V5 to main.py: `game_state` and the loop
 * that is running inside it, advanced one event poll (`Frame`) at a time.
 */
module Screens {
  import opened Basics
  import opened Grid
  import opened Input
  import opened Json
  import opened Snake
  import opened Versions
  import Leaderboard
  import ScoreList
  import NameEntry

  /** Volume in tenths: `current_volume` 0.0 .. 1.0 in steps of 0.1. */
  const MaxVolume := 10
  const InitialVolume := 5

  /** What `run_pause_menu` returns. */
  datatype PauseAction = Resume | ToMainMenu | Quitting

  /**
   * `Exited` is the end of the program (`sys.exit`, "Esci"). `Diverged`
   * means a placement loop used up the frame's candidate cells; the
   * program would keep drawing. `Crashed` is V5's uncaught `TypeError`.
   * `LeavingRound` is V5's last play poll after M on the game-over screen.
   */
  datatype Screen =
    | Menu
    | SelectMode
    | Playing(r: Round)
    | Paused(r: Round)
    | InPauseSettings(r: Round, after: Option<PauseAction>)
    | GameOver(r: Round)
    | BoardView
    | SettingsView
    | NameInput(buf: string, score: int)
    | LeavingRound
    | Exited
    | Diverged
    | Crashed

  /**
   * The program's state: its version, the last selected mode, the screen,
   * the volume, the leaderboard file and, from V6 on, the board the game
   * keeps in memory (`leaderboard_data`).
   */
  datatype App = App(version: Version, mode: Mode, screen: Screen, volume: int, file: File, board: seq<Leaderboard.Entry>)

  function RulesOf(app: App): Rules {
    RulesFor(app.version, app.mode)
  }

  /** Start-up: the board is loaded (and in V5 the load can crash), then the menu. */
  function Boot(v: Version, file: File): (app: App)
    requires !Legacy(v)
  {
    var board := if KeepsNames(v) then Leaderboard.Load(file) else [];
    var screen := if KeepsScoreList(v) && ScoreList.Load(file).Crash? then Crashed else Menu;
    App(v, ClassicMode, screen, InitialVolume, file, board)
  }

  // ---------------------------------------------------------------- volume

  /** The settings screen's "-" and "+": one tenth down or up, clamped to 0 and 10. */
  function Volume(v: int, f: Frame): (w: int)
    ensures 0 <= v <= MaxVolume ==> 0 <= w <= MaxVolume
    ensures ClickOn(f, VolumeDown) ==> w == Max(0, v - 1)
    ensures ClickOn(f, VolumeUp) ==> w == Min(MaxVolume, v + 1)
    ensures !ClickOn(f, VolumeDown) && !ClickOn(f, VolumeUp) ==> w == v
  {
    if ClickOn(f, VolumeDown) then Max(0, v - 1)
    else if ClickOn(f, VolumeUp) then Min(MaxVolume, v + 1)
    else v
  }

  /** A settings poll ends the screen on ESC or on its back button ("Indietro", or "OK" when modal). */
  predicate LeavesSettings(f: Frame) { HasKey(f.events, Escape) || ClickOn(f, Back) }

  // ----------------------------------------------------------------- rounds

  /** `game_loop` starting a round in `mode`; the frame's candidates place obstacles and food. */
  function StartRound(app: App, mode: Mode, f: Frame): App {
    var app1 := app.(mode := mode);
    match Fresh(RulesOf(app1), f.draws, f.obstacleDraws)
    case Some(r) => app1.(screen := Playing(r))
    case None => app1.(screen := Diverged)
  }

  /**
   * The first pass of the game-over loop: V5 saves a positive score; V6 on
   * go to the name entry when the score qualifies.
   */
  function EnterGameOver(app: App, r: Round): App {
    if KeepsScoreList(app.version) then
      if r.score > 0 then
        match ScoreList.Save(app.file, r.score)
        case Crash => app.(screen := Crashed)
        case Scores(s) => app.(screen := GameOver(r), file := Parsed(ScoreList.Dump(s)))
      else app.(screen := GameOver(r))
    else if Leaderboard.Qualifies(r.score, app.board) then app.(screen := NameInput("", r.score))
    else app.(screen := GameOver(r))
  }

  /** The movement part of a play frame. */
  function Tick(app: App, r: Round, f: Frame): App {
    // every live round has a head (`Good`), so the guard is never taken
    if r.body == [] then app
    else
      var m := Step(RulesOf(app), r, f.draws);
      match m.outcome
      case Collided => EnterGameOver(app, m.next)
      case Stalled => app.(screen := Diverged)
      case _ => app.(screen := Playing(m.next))
  }

  /** What the game loop does with the pause menu's answer. */
  function Act(app: App, r: Round, a: PauseAction, f: Frame): App {
    match a
    case Resume => Tick(app, r, f)
    case ToMainMenu => app.(screen := Menu)
    case Quitting => app.(screen := Exited)
  }

  // ------------------------------------------------------------------ polls

  /** The pause loop's events: the last window close (EXIT_GAME, `Quitting`) or ESC (RESUME), if any. */
  function PauseEvents(events: seq<Event>): (a: Option<PauseAction>)
    ensures a.None? <==> forall i :: 0 <= i < |events| ==> !IsQuit(events[i]) && !IsKey(events[i], Escape)
    ensures a == Some(ToMainMenu) ==> false
    decreases |events|
  {
    if events == [] then None
    else
      var e := Last(events);
      var init := events[..|events| - 1];
      assert forall i :: 0 <= i < |init| ==> init[i] == events[i];
      if IsQuit(e) then Some(Quitting)
      else if IsKey(e, Escape) then Some(Resume)
      else PauseEvents(init)
  }

  /** The pause loop's `for` over one poll; it agrees with `PauseEvents`. */
  method PollPause(events: seq<Event>) returns (action: Option<PauseAction>)
    ensures action == PauseEvents(events)
  {
    action := None;
    for i := 0 to |events|
      invariant action == PauseEvents(events[..i])
    {
      assert events[..i + 1][..i] == events[..i];
      if events[i].Quit? {
        action := Some(Quitting);
      } else if events[i].KeyDown? && events[i].key == Escape {
        action := Some(Resume);
      }
    }
    assert events[..|events|] == events;
  }

  /** The game-over screen's events: a window close exits, R restarts at once, M remembers the menu. */
  datatype OverChoice = OverQuit | OverRestart | OverMenu | OverStay

  function OverEvents(events: seq<Event>, menu: bool): (c: OverChoice)
    ensures c == OverStay ==> !menu
    decreases |events|
  {
    if events == [] then (if menu then OverMenu else OverStay)
    else if IsQuit(events[0]) then OverQuit
    else if IsKey(events[0], KeyR) then OverRestart
    else OverEvents(events[1..], menu || IsKey(events[0], KeyM))
  }

  /** A window close or R: the events that end a game-over poll at once. */
  predicate EndsOver(e: Event) { IsQuit(e) || IsKey(e, KeyR) }

  /** The position of the first window close or R of a poll, or its length when there is none. */
  function FirstOverKey(events: seq<Event>): (k: nat)
    ensures k <= |events|
    ensures forall i :: 0 <= i < k ==> !EndsOver(events[i])
    ensures k < |events| ==> EndsOver(events[k])
    decreases |events|
  {
    if events == [] || EndsOver(events[0]) then 0
    else
      var k := 1 + FirstOverKey(events[1..]);
      assert forall i :: 1 <= i < |events| ==> events[i] == events[1..][i - 1];
      k
  }

  /**
   * The pause poll's answer is decided by its last window close or ESC:
   * EXIT_GAME for a close, RESUME for an ESC, nothing when there is neither.
   */
  lemma {:induction false} PauseEventsLast(events: seq<Event>)
    ensures var k := LastStop(events);
      PauseEvents(events) == (if k < 0 then None else if IsQuit(events[k]) then Some(Quitting) else Some(Resume))
    decreases |events|
  {
    if events != [] && !IsStop(Last(events)) {
      var init := events[..|events| - 1];
      PauseEventsLast(init);
      assert LastStop(events) == LastStop(init);
      assert LastStop(init) >= 0 ==> init[LastStop(init)] == events[LastStop(init)];
    }
  }

  /**
   * The game-over poll follows its first window close or R; without either
   * it goes to the menu exactly when an M was pressed (or one was before).
   */
  lemma {:induction false} OverEventsFirst(events: seq<Event>, menu: bool)
    ensures var k := FirstOverKey(events);
      var c := OverEvents(events, menu);
      (k < |events| ==> c == (if IsQuit(events[k]) then OverQuit else OverRestart)) &&
      (k == |events| ==> c == (if menu || HasKey(events, KeyM) then OverMenu else OverStay))
    decreases |events|
  {
    if events != [] && !EndsOver(events[0]) {
      var m := menu || IsKey(events[0], KeyM);
      OverEventsFirst(events[1..], m);
      var k := FirstOverKey(events);
      assert events[1..][k - 1..] == events[k..];
      assert HasKey(events, KeyM) <==> IsKey(events[0], KeyM) || HasKey(events[1..], KeyM) by {
        if HasKey(events[1..], KeyM) {
          var j :| 0 <= j < |events[1..]| && IsKey(events[1..][j], KeyM);
          assert events[j + 1] == events[1..][j];
        }
        if HasKey(events, KeyM) && !IsKey(events[0], KeyM) {
          var j :| 0 <= j < |events| && IsKey(events[j], KeyM);
          assert events[1..][j - 1] == events[j];
        }
      }
    }
  }

  function MenuFrame(app: App, f: Frame): App {
    if HasQuit(f.events) then app.(screen := Exited)
    else if ClickOn(f, NewGame) then
      if HasModes(app.version) then app.(screen := SelectMode) else StartRound(app, ClassicMode, f)
    else if ClickOn(f, ShowScores) then
      // V5 reloads the list when its leaderboard screen opens
      if KeepsScoreList(app.version) && ScoreList.Load(app.file).Crash? then app.(screen := Crashed)
      else app.(screen := BoardView)
    else if ClickOn(f, OpenSettings) then app.(screen := SettingsView)
    else if ClickOn(f, ExitGame) then app.(screen := Exited)
    else app
  }

  function SelectFrame(app: App, f: Frame): App {
    if HasQuit(f.events) then app.(screen := Exited)
    else if ClickOn(f, PickClassic) then StartRound(app, ClassicMode, f)
    else if ClickOn(f, PickObstacles) then StartRound(app, ObstaclesMode, f)
    else if ClickOn(f, PickBorderless) then StartRound(app, BorderlessMode, f)
    else if ClickOn(f, PickBack) || HasKey(f.events, Escape) then app.(screen := Menu)
    else app
  }

  function PlayFrame(app: App, r: Round, f: Frame): App {
    var s := ScanPlay(r.dir, r.pending, f.events);
    match s.stop
    case QuitRequested => app.(screen := Exited)
    case EscapeRequested =>
      if Pauses(app.version) then app.(screen := Paused(r.(pending := s.pending))) else app.(screen := Menu)
    case Uninterrupted => Tick(app, r.(pending := s.pending), f)
  }

  function PauseFrame(app: App, r: Round, f: Frame): App {
    var ev := PauseEvents(f.events);
    if ClickOn(f, PauseResume) then Act(app, r, Resume, f)
    else if ClickOn(f, PauseSettings) then app.(screen := InPauseSettings(r, ev))
    else if ClickOn(f, PauseMainMenu) then Act(app, r, ToMainMenu, f)
    else if ClickOn(f, PauseExit) then Act(app, r, Quitting, f)
    else if ev.Some? then Act(app, r, ev.value, f)
    else app
  }

  /** The modal settings opened from the pause menu; leaving it returns to the pause loop, which may already have ended. */
  function PauseSettingsFrame(app: App, r: Round, after: Option<PauseAction>, f: Frame): App {
    if HasQuit(f.events) then app.(screen := Exited)
    else
      var app1 := app.(volume := Volume(app.volume, f));
      if !LeavesSettings(f) then app1
      else if after.None? then app1.(screen := Paused(r))
      else Act(app1, r, after.value, f)
  }

  function GameOverFrame(app: App, r: Round, f: Frame): App {
    match OverEvents(f.events, false)
    case OverQuit => app.(screen := Exited)
    case OverRestart => StartRound(app, app.mode, f)
    case OverMenu => if PassAfterMenu(app.version) then app.(screen := LeavingRound) else app.(screen := Menu)
    case OverStay => app
  }

  /**
   * V5's play poll that runs after M: a window close exits and ESC returns
   * at once, and otherwise the loop ends after its tick; either way the
   * round is dropped and the menu follows. Clicks and other keys are lost.
   */
  function LeavingFrame(app: App, f: Frame): App {
    var k := FirstStop(f.events);
    if k < |f.events| && IsQuit(f.events[k]) then app.(screen := Exited) else app.(screen := Menu)
  }

  function BoardFrame(app: App, f: Frame): App {
    if HasQuit(f.events) then app.(screen := Exited)
    else if HasKey(f.events, Escape) || ClickOn(f, Back) then app.(screen := Menu)
    else app
  }

  function SettingsFrame(app: App, f: Frame): App {
    if HasQuit(f.events) then app.(screen := Exited)
    else
      var app1 := app.(volume := Volume(app.volume, f));
      if LeavesSettings(f) then app1.(screen := Menu) else app1
  }

  /** The name entry poll; every RETURN rewrites the file and reloads the board. */
  function NameFrame(app: App, buf: string, score: int, f: Frame): App {
    AfterNames(app, NameEntry.Scan(NameEntry.NameScan(buf, app.file, None, false), score, f.events), score)
  }

  /** Where the name entry's poll `s` leaves the program. */
  function AfterNames(app: App, s: NameEntry.NameScan, score: int): App {
    var app1 := app.(file := s.file, board := if s.file == app.file then app.board else Leaderboard.Load(s.file));
    if s.quit then app1.(screen := Exited)
    else
      match s.leave
      case Some(ToBoard) => app1.(screen := BoardView)
      case Some(ToMenu) => app1.(screen := Menu)
      case None => app1.(screen := NameInput(s.buf, score))
  }

  /** One poll of whatever loop is running. */
  function Poll(app: App, f: Frame): App {
    match app.screen
    case Menu => MenuFrame(app, f)
    case SelectMode => SelectFrame(app, f)
    case Playing(r) => PlayFrame(app, r, f)
    case Paused(r) => PauseFrame(app, r, f)
    case InPauseSettings(r, after) => PauseSettingsFrame(app, r, after, f)
    case GameOver(r) => GameOverFrame(app, r, f)
    case BoardView => BoardFrame(app, f)
    case SettingsView => SettingsFrame(app, f)
    case NameInput(buf, score) => NameFrame(app, buf, score, f)
    case LeavingRound => LeavingFrame(app, f)
    case _ => app
  }

  function Run(app: App, frames: seq<Frame>): App
    decreases |frames|
  {
    if frames == [] then app else Run(Poll(app, frames[0]), frames[1..])
  }

  // -------------------------------------------------------------- invariant

  predicate HasRound(s: Screen) { s.Playing? || s.Paused? || s.InPauseSettings? || s.GameOver? }

  /**
   * Between polls: the volume is within 0..10; from V6 on the board in
   * memory is what the file holds; V5's file stays loadable unless the
   * program crashed on it, and no other version crashes; every round on
   * screen satisfies `Good` (and only main.py has other modes than classic); the name buffer is within bounds; each screen
   * exists only in the versions that have it.
   */
  predicate Inv(app: App) {
    !Legacy(app.version) &&
    (HasModes(app.version) || app.mode == ClassicMode) &&
    0 <= app.volume <= MaxVolume &&
    (KeepsNames(app.version) ==> app.board == Leaderboard.Load(app.file)) &&
    (KeepsScoreList(app.version) && !app.screen.Crashed? ==> ScoreList.Load(app.file).Scores?) &&
    (!KeepsScoreList(app.version) ==> !app.screen.Crashed?) &&
    (HasRound(app.screen) ==> Good(RulesOf(app), app.screen.r)) &&
    (app.screen.SelectMode? ==> HasModes(app.version)) &&
    ((app.screen.Paused? || app.screen.InPauseSettings?) ==> Pauses(app.version)) &&
    (app.screen.NameInput? ==> KeepsNames(app.version) && NameEntry.BufferOk(app.screen.buf)) &&
    (app.screen.LeavingRound? ==> PassAfterMenu(app.version))
  }

  lemma BootInv(v: Version, file: File)
    requires !Legacy(v)
    ensures Inv(Boot(v, file))
  {
  }

  /** The screens a poll acts on: everything but the three ends. */
  predicate Live(s: Screen) { !s.Exited? && !s.Diverged? && !s.Crashed? }

  lemma StartRoundInv(app: App, mode: Mode, f: Frame)
    requires Inv(app) && Live(app.screen) && DrawsIn(Field(app.version), f)
    requires HasModes(app.version) || mode == ClassicMode
    ensures Inv(StartRound(app, mode, f))
  {
    var app1 := app.(mode := mode);
    if Fresh(RulesOf(app1), f.draws, f.obstacleDraws).Some? {
      FreshRound(RulesOf(app1), f.draws, f.obstacleDraws);
    }
  }

  lemma EnterGameOverInv(app: App, r: Round)
    requires Inv(app) && Live(app.screen) && Good(RulesOf(app), r)
    ensures Inv(EnterGameOver(app, r))
  {
    if KeepsScoreList(app.version) && r.score > 0 {
      assert ScoreList.Save(app.file, r.score).Scores?;
      var s := ScoreList.Save(app.file, r.score).values;
      ScoreList.NonNegative(app.file, r.score);
      ScoreList.LoadDump(s);
    }
  }

  lemma TickInv(app: App, r: Round, f: Frame)
    requires Inv(app) && Live(app.screen) && Good(RulesOf(app), r) && DrawsIn(Field(app.version), f)
    ensures Inv(Tick(app, r, f))
  {
    StepKeepsGood(RulesOf(app), r, f.draws);
    var m := Step(RulesOf(app), r, f.draws);
    if m.outcome == Collided {
      EnterGameOverInv(app, m.next);
    }
  }

  lemma ActInv(app: App, r: Round, a: PauseAction, f: Frame)
    requires Inv(app) && Live(app.screen) && Good(RulesOf(app), r) && DrawsIn(Field(app.version), f)
    ensures Inv(Act(app, r, a, f))
  {
    if a == Resume {
      TickInv(app, r, f);
    }
  }

  lemma MenuFrameInv(app: App, f: Frame)
    requires Inv(app) && app.screen == Menu && DrawsIn(Field(app.version), f)
    ensures Inv(MenuFrame(app, f))
  {
    if HasQuit(f.events) {
    } else if ClickOn(f, NewGame) {
      if !HasModes(app.version) {
        StartRoundInv(app, ClassicMode, f);
      }
    } else if ClickOn(f, ShowScores) {
    } else {
    }
  }

  lemma SelectFrameInv(app: App, f: Frame)
    requires Inv(app) && app.screen == SelectMode && DrawsIn(Field(app.version), f)
    ensures Inv(SelectFrame(app, f))
  {
    if HasQuit(f.events) {
    } else if ClickOn(f, PickClassic) {
      StartRoundInv(app, ClassicMode, f);
    } else if ClickOn(f, PickObstacles) {
      StartRoundInv(app, ObstaclesMode, f);
    } else if ClickOn(f, PickBorderless) {
      StartRoundInv(app, BorderlessMode, f);
    } else {
    }
  }

  lemma PlayFrameInv(app: App, r: Round, f: Frame)
    requires Inv(app) && app.screen == Playing(r) && DrawsIn(Field(app.version), f)
    ensures Inv(PlayFrame(app, r, f))
  {
    var s := ScanPlay(r.dir, r.pending, f.events);
    assert Good(RulesOf(app), r.(pending := s.pending));
    TickInv(app, r.(pending := s.pending), f);
  }

  lemma PauseFrameInv(app: App, r: Round, f: Frame)
    requires Inv(app) && app.screen == Paused(r) && DrawsIn(Field(app.version), f)
    ensures Inv(PauseFrame(app, r, f))
  {
    var ev := PauseEvents(f.events);
    if ClickOn(f, PauseResume) {
      ActInv(app, r, Resume, f);
    } else if ClickOn(f, PauseSettings) {
    } else if ClickOn(f, PauseMainMenu) || ClickOn(f, PauseExit) {
    } else if ev.Some? {
      ActInv(app, r, ev.value, f);
    } else {
    }
  }

  lemma PauseSettingsFrameInv(app: App, r: Round, after: Option<PauseAction>, f: Frame)
    requires Inv(app) && app.screen == InPauseSettings(r, after) && DrawsIn(Field(app.version), f)
    ensures Inv(PauseSettingsFrame(app, r, after, f))
  {
    if !HasQuit(f.events) && LeavesSettings(f) && after.Some? {
      ActInv(app.(volume := Volume(app.volume, f)), r, after.value, f);
    }
  }

  lemma GameOverFrameInv(app: App, r: Round, f: Frame)
    requires Inv(app) && app.screen == GameOver(r) && DrawsIn(Field(app.version), f)
    ensures Inv(GameOverFrame(app, r, f))
  {
    if OverEvents(f.events, false) == OverRestart {
      StartRoundInv(app, app.mode, f);
    }
  }

  lemma AfterNamesInv(app: App, s: NameEntry.NameScan, score: int)
    requires Inv(app) && app.screen.NameInput? && NameEntry.BufferOk(s.buf)
    ensures Inv(AfterNames(app, s, score))
  {
    var app1 := app.(file := s.file, board := if s.file == app.file then app.board else Leaderboard.Load(s.file));
    assert KeepsNames(app.version) && !KeepsScoreList(app.version);
    if s.file == app.file {
      assert app1.board == app.board;
    }
    assert app1.board == Leaderboard.Load(app1.file);
    assert Inv(app1.(screen := Menu));
    if s.quit {
      assert AfterNames(app, s, score) == app1.(screen := Exited);
    } else if s.leave == Some(NameEntry.ToBoard) {
      assert AfterNames(app, s, score) == app1.(screen := BoardView);
    } else if s.leave == Some(NameEntry.ToMenu) {
      assert AfterNames(app, s, score) == app1.(screen := Menu);
    } else {
      assert AfterNames(app, s, score) == app1.(screen := NameInput(s.buf, score));
    }
  }

  lemma NameFrameInv(app: App, buf: string, score: int, f: Frame)
    requires Inv(app) && app.screen == NameInput(buf, score)
    ensures Inv(NameFrame(app, buf, score, f))
  {
    var st := NameEntry.NameScan(buf, app.file, None, false);
    NameEntry.ScanKeepsBuffer(st, score, f.events);
    AfterNamesInv(app, NameEntry.Scan(st, score, f.events), score);
  }

  /** Every poll keeps the invariant, whichever screen it reaches. */
  lemma PollInv(app: App, f: Frame)
    requires Inv(app) && DrawsIn(Field(app.version), f)
    ensures Inv(Poll(app, f))
  {
    match app.screen
    case Menu => PollMenusInv(app, f);
    case SelectMode => PollMenusInv(app, f);
    case NameInput(_, _) => PollMenusInv(app, f);
    case Playing(_) => PollRoundsInv(app, f);
    case Paused(_) => PollRoundsInv(app, f);
    case InPauseSettings(_, _) => PollRoundsInv(app, f);
    case GameOver(_) => PollRoundsInv(app, f);
    case BoardView => BoardFrameInv(app, f);
    case SettingsView => SettingsFrameInv(app, f);
    case LeavingRound => assert Poll(app, f) == LeavingFrame(app, f);
    case _ => assert Poll(app, f) == app;
  }

  lemma BoardFrameInv(app: App, f: Frame)
    requires Inv(app) && app.screen == BoardView
    ensures Inv(Poll(app, f))
  {
    assert Poll(app, f) == BoardFrame(app, f);
  }

  lemma SettingsFrameInv(app: App, f: Frame)
    requires Inv(app) && app.screen == SettingsView
    ensures Inv(Poll(app, f))
  {
    assert Poll(app, f) == SettingsFrame(app, f);
  }

  lemma PollMenusInv(app: App, f: Frame)
    requires Inv(app) && DrawsIn(Field(app.version), f)
    requires app.screen.Menu? || app.screen.SelectMode? || app.screen.NameInput?
    ensures Inv(Poll(app, f))
  {
    match app.screen
    case Menu =>
      assert Poll(app, f) == MenuFrame(app, f);
      MenuFrameInv(app, f);
    case SelectMode =>
      assert Poll(app, f) == SelectFrame(app, f);
      SelectFrameInv(app, f);
    case NameInput(buf, score) =>
      assert Poll(app, f) == NameFrame(app, buf, score, f);
      NameFrameInv(app, buf, score, f);
  }

  lemma PollRoundsInv(app: App, f: Frame)
    requires Inv(app) && DrawsIn(Field(app.version), f) && HasRound(app.screen)
    ensures Inv(Poll(app, f))
  {
    match app.screen
    case Playing(r) =>
      assert Poll(app, f) == PlayFrame(app, r, f);
      PlayFrameInv(app, r, f);
    case Paused(r) =>
      assert Poll(app, f) == PauseFrame(app, r, f);
      PauseFrameInv(app, r, f);
    case InPauseSettings(r, after) =>
      assert Poll(app, f) == PauseSettingsFrame(app, r, after, f);
      PauseSettingsFrameInv(app, r, after, f);
    case GameOver(r) =>
      assert Poll(app, f) == GameOverFrame(app, r, f);
      GameOverFrameInv(app, r, f);
  }

  lemma PollVersion(app: App, f: Frame)
    ensures Poll(app, f).version == app.version
  {
    match app.screen
    case Menu =>
    case SelectMode =>
    case Playing(r) =>
    case Paused(r) =>
    case InPauseSettings(r, after) =>
    case GameOver(r) =>
    case NameInput(buf, score) =>
    case _ =>
  }

  /** Any run of polls keeps the invariant. */
  lemma {:induction false} RunInv(app: App, frames: seq<Frame>)
    requires Inv(app) && forall i :: 0 <= i < |frames| ==> DrawsIn(Field(app.version), frames[i])
    ensures Inv(Run(app, frames))
    decreases |frames|
  {
    if frames != [] {
      PollInv(app, frames[0]);
      var next := Poll(app, frames[0]);
      assert next.version == app.version by {
        PollVersion(app, frames[0]);
      }
      assert forall i :: 0 <= i < |frames| - 1 ==> frames[1..][i] == frames[i + 1];
      RunInv(next, frames[1..]);
    }
  }

  // ------------------------------------------------------------ transitions

  /** The end screens stay as they are. */
  lemma EndsStay(app: App, f: Frame)
    requires !Live(app.screen)
    ensures Poll(app, f) == app
  {
  }

  /** A click on one of the four pause buttons. */
  predicate PauseButtonClicked(f: Frame) {
    ClickOn(f, PauseResume) || ClickOn(f, PauseSettings) || ClickOn(f, PauseMainMenu) || ClickOn(f, PauseExit)
  }

  /**
   * A window close anywhere in a poll ends the program on the menus, the
   * leaderboard, the settings and the name entry. In play, and in V5's last
   * play poll after M, it does so when no ESC comes first; in the pause menu when no ESC follows it and no
   * pause button is clicked; on the game-over screen when no R comes first.
   */
  lemma QuitExits(app: App, f: Frame)
    requires Live(app.screen) && HasQuit(f.events)
    ensures !app.screen.Playing? && !app.screen.Paused? && !app.screen.GameOver? && !app.screen.LeavingRound? ==>
      Poll(app, f).screen == Exited
    ensures (app.screen.Playing? || app.screen.LeavingRound?) && IsQuit(f.events[FirstStop(f.events)]) ==> Poll(app, f).screen == Exited
    ensures app.screen.Paused? && !PauseButtonClicked(f) && IsQuit(f.events[LastStop(f.events)]) ==>
      Poll(app, f).screen == Exited
    ensures app.screen.GameOver? && IsQuit(f.events[FirstOverKey(f.events)]) ==> Poll(app, f).screen == Exited
  {
    var j :| 0 <= j < |f.events| && IsQuit(f.events[j]);
    assert IsStop(f.events[j]) && EndsOver(f.events[j]);
    match app.screen
    case Playing(r) =>
      ScanPlayFirstStop(r.dir, r.pending, f.events);
    case Paused(r) =>
      PauseEventsLast(f.events);
    case GameOver(r) =>
      OverEventsFirst(f.events, false);
    case NameInput(buf, score) =>
      NameEntry.ScanQuits(NameEntry.NameScan(buf, app.file, None, false), score, f.events);
    case _ =>
  }

  /** "Nuova Partita" opens the mode selection in main.py and starts a classic round in V5 to V9. */
  lemma NewGameStarts(app: App, f: Frame)
    requires app.screen == Menu && !HasQuit(f.events) && ClickOn(f, NewGame)
    ensures HasModes(app.version) ==> Poll(app, f).screen == SelectMode
    ensures !HasModes(app.version) ==> Poll(app, f) == StartRound(app, ClassicMode, f)
  {
  }

  /** A mode button starts a round in that mode, even when ESC came in the same poll. */
  lemma ModeChosen(app: App, f: Frame)
    requires app.screen == SelectMode && !HasQuit(f.events) && ClickOn(f, PickObstacles)
    ensures Poll(app, f) == StartRound(app, ObstaclesMode, f)
    ensures Poll(app, f).mode == ObstaclesMode
  {
    assert !ClickOn(f, PickClassic);
    var r := StartRound(app, ObstaclesMode, f);
  }

  /**
   * A round starts in the middle of the arena, one cell long, heading
   * right, at the version's starting speed, or the placement diverges.
   */
  lemma StartRoundFresh(app: App, mode: Mode, f: Frame)
    ensures var next := StartRound(app, mode, f);
      next.mode == mode && (next.screen.Diverged? || next.screen.Playing?) &&
      (next.screen.Playing? ==>
        next.screen.r.body == [Start(Field(app.version))] && next.screen.r.length == 1 &&
        next.screen.r.score == 0 && next.screen.r.dir == Right)
  {
  }

  /**
   * An ESC while playing, with no window close before it, pauses from V8 on,
   * keeping the steering of the keys before it; before V8 it returns to the
   * menu. The events after it are not read.
   */
  lemma EscapeInPlay(app: App, r: Round, f: Frame)
    requires app.screen == Playing(r)
    requires FirstStop(f.events) < |f.events| && IsKey(f.events[FirstStop(f.events)], Escape)
    ensures var p := ScanLegacy(r.dir, r.pending, f.events[..FirstStop(f.events)]).pending;
      Pauses(app.version) ==> Poll(app, f).screen == Paused(r.(pending := p))
    ensures !Pauses(app.version) ==> Poll(app, f).screen == Menu
  {
    ScanPlayFirstStop(r.dir, r.pending, f.events);
  }

  /** Steering keys typed before ESC in the same poll are kept for the resumed round. */
  lemma SteerThenPause(app: App, r: Round, f: Frame, k: Key, t1: Option<char>, t2: Option<char>)
    requires app.screen == Playing(r) && Pauses(app.version)
    requires k != Escape && f.events == [KeyDown(k, t1), KeyDown(Escape, t2)]
    ensures Poll(app, f).screen == Paused(r.(pending := Steer(r.dir, r.pending, k)))
  {
    var p := Steer(r.dir, r.pending, k);
    assert f.events[1..] == [KeyDown(Escape, t2)];
    assert ScanPlay(r.dir, p, f.events[1..]) == Scan(p, EscapeRequested);
  }

  /**
   * In the pause menu, a poll whose last window close or ESC is an ESC
   * resumes when no pause button is clicked: the deferred tick runs in that
   * poll. A poll without either stays paused.
   */
  lemma EscapeResumes(app: App, r: Round, f: Frame)
    requires app.screen == Paused(r) && !PauseButtonClicked(f)
    ensures LastStop(f.events) >= 0 && IsKey(f.events[LastStop(f.events)], Escape) ==> Poll(app, f) == Tick(app, r, f)
    ensures LastStop(f.events) < 0 ==> Poll(app, f) == app
  {
    PauseEventsLast(f.events);
  }

  /** A click on "Riprendi" resumes, whatever keys came with it. */
  lemma PauseResumeClick(app: App, r: Round, f: Frame)
    requires app.screen == Paused(r) && ClickOn(f, PauseResume)
    ensures Poll(app, f) == Tick(app, r, f)
  {
  }

  /** A click on "Esci dal Gioco" ends the program, whatever keys came with it. */
  lemma PauseExitClick(app: App, r: Round, f: Frame)
    requires app.screen == Paused(r) && ClickOn(f, PauseExit)
    ensures Poll(app, f).screen == Exited
  {
  }

  /** A click on a pause button wins over a key in the same poll. */
  lemma PauseClickWins(app: App, r: Round, f: Frame)
    requires app.screen == Paused(r) && ClickOn(f, PauseMainMenu)
    ensures Poll(app, f).screen == Menu
  {
  }

  /** Leaving the modal settings goes back to the pause menu, or ends it as decided before the click. */
  lemma PauseSettingsLeave(app: App, r: Round, after: Option<PauseAction>, f: Frame)
    requires app.screen == InPauseSettings(r, after) && !HasQuit(f.events) && LeavesSettings(f)
    ensures after.None? ==> Poll(app, f).screen == Paused(r)
    ensures after == Some(Quitting) ==> Poll(app, f).screen == Exited
    ensures Poll(app, f).volume == Volume(app.volume, f)
  {
  }

  /** Only the two settings screens change the volume. */
  lemma VolumeOnlyInSettings(app: App, f: Frame)
    requires !app.screen.SettingsView? && !app.screen.InPauseSettings?
    ensures Poll(app, f).volume == app.volume
  {
    match app.screen
    case Menu =>
    case SelectMode =>
    case Playing(r) =>
      var s := ScanPlay(r.dir, r.pending, f.events);
      if s.stop == Uninterrupted {
        TickVolume(app, r.(pending := s.pending), f);
      }
    case Paused(r) =>
      TickVolume(app, r, f);
    case GameOver(r) =>
    case NameInput(buf, score) =>
    case _ =>
  }

  lemma TickVolume(app: App, r: Round, f: Frame)
    ensures Tick(app, r, f).volume == app.volume
  {
  }

  /** In V5 a round that ends with points rewrites the list with the score in it; one without points saves nothing. */
  lemma ScoreListSaved(app: App, r: Round)
    requires Inv(app) && Live(app.screen) && KeepsScoreList(app.version)
    ensures r.score > 0 ==>
      (EnterGameOver(app, r).screen == GameOver(r) &&
       ScoreList.Load(EnterGameOver(app, r).file) == ScoreList.Save(app.file, r.score))
    ensures r.score <= 0 ==> EnterGameOver(app, r) == app.(screen := GameOver(r))
  {
    if r.score > 0 {
      assert ScoreList.Save(app.file, r.score).Scores?;
      var s := ScoreList.Save(app.file, r.score).values;
      ScoreList.NonNegative(app.file, r.score);
      ScoreList.LoadDump(s);
    }
  }

  /** From V6 on the name entry opens exactly when the score would enter the board. */
  lemma BoardQualifies(app: App, r: Round)
    requires KeepsNames(app.version)
    ensures EnterGameOver(app, r).screen.NameInput? <==> Leaderboard.Qualifies(r.score, app.board)
    ensures EnterGameOver(app, r).screen.NameInput? ==> EnterGameOver(app, r).screen == NameInput("", r.score)
    ensures !EnterGameOver(app, r).screen.NameInput? ==> EnterGameOver(app, r) == app.(screen := GameOver(r))
  {
    assert !KeepsScoreList(app.version);
  }

  /**
   * On the game-over screen an R with no window close before it restarts in
   * the same mode, even after an M; without a close or R, an M goes to the
   * menu (in V5 through one more play poll), and otherwise the screen stays.
   */
  lemma GameOverKeys(app: App, r: Round, f: Frame)
    requires app.screen == GameOver(r)
    ensures FirstOverKey(f.events) < |f.events| && IsKey(f.events[FirstOverKey(f.events)], KeyR) ==>
      Poll(app, f) == StartRound(app, app.mode, f)
    ensures FirstOverKey(f.events) == |f.events| && HasKey(f.events, KeyM) ==>
      Poll(app, f).screen == (if PassAfterMenu(app.version) then LeavingRound else Menu)
    ensures FirstOverKey(f.events) == |f.events| && !HasKey(f.events, KeyM) ==> Poll(app, f) == app
  {
    OverEventsFirst(f.events, false);
  }

  /**
   * In V5, after M the game-over screen reaches the menu only through one
   * more play poll, whose clicks and keys are lost: a window close with no
   * ESC before it exits, and every other poll lands on the menu.
   */
  lemma MenuAfterPass(app: App, r: Round, f1: Frame, f2: Frame)
    requires app.screen == GameOver(r) && PassAfterMenu(app.version)
    requires FirstOverKey(f1.events) == |f1.events| && HasKey(f1.events, KeyM)
    ensures var k := FirstStop(f2.events);
      Run(app, [f1, f2]).screen == (if k < |f2.events| && IsQuit(f2.events[k]) then Exited else Menu)
  {
    GameOverKeys(app, r, f1);
    var app1 := Poll(app, f1);
    assert [f1, f2][1..] == [f2];
    assert Run(app, [f1, f2]) == Run(app1, [f2]);
    assert Run(app1, [f2]) == Run(Poll(app1, f2), []);
  }

  /** A poll of RETURN on the name entry saves the name and shows the board, which is the reloaded file. */
  lemma NameSubmitted(app: App, buf: string, score: int, f: Frame, text: Option<char>)
    requires Inv(app) && app.screen == NameInput(buf, score) && f.events == [KeyDown(Return, text)]
    ensures var next := Poll(app, f);
      next.screen == BoardView && next.file == NameEntry.Submit(app.file, buf, score) &&
      next.board == Leaderboard.Add(app.file, NameEntry.FinalName(buf), score)
  {
    var s := NameEntry.Scan(NameEntry.NameScan(buf, app.file, None, false), score, f.events);
    assert Poll(app, f) == AfterNames(app, s, score);
    NameEntry.ReturnSaves(buf, app.file, score, text);
    AfterNamesLeaves(app, s, score);
  }

  /**
   * Without a window close, the last RETURN or ESC of a name-entry poll
   * decides: RETURN shows the board, which is the reload of the file written
   * from the buffer at that RETURN; ESC goes to the menu.
   */
  lemma NameLeaves(app: App, buf: string, score: int, f: Frame)
    requires Inv(app) && app.screen == NameInput(buf, score) && !HasQuit(f.events)
    requires NameEntry.LastLeave(f.events) >= 0
    ensures var k := NameEntry.LastLeave(f.events);
      var before := NameEntry.Scan(NameEntry.NameScan(buf, app.file, None, false), score, f.events[..k]);
      var next := Poll(app, f);
      (IsKey(f.events[k], Return) ==>
        next.screen == BoardView && next.file == NameEntry.Submit(before.file, before.buf, score) &&
        next.board == Leaderboard.Add(before.file, NameEntry.FinalName(before.buf), score)) &&
      (IsKey(f.events[k], Escape) ==> next.screen == Menu && next.file == before.file)
  {
    var st := NameEntry.NameScan(buf, app.file, None, false);
    var s := NameEntry.Scan(st, score, f.events);
    assert Poll(app, f) == AfterNames(app, s, score);
    NameEntry.ScanLastLeave(st, score, f.events);
    var k := NameEntry.LastLeave(f.events);
    var before := NameEntry.Scan(st, score, f.events[..k]);
    if IsKey(f.events[k], Return) {
      NameEntry.SubmitLoads(before.file, before.buf, score);
      AfterNamesLeaves(app, s, score);
    }
  }

  /** An ESC with neither RETURN nor a window close leaves the name entry for the menu and changes nothing else. */
  lemma NameEscape(app: App, buf: string, score: int, f: Frame)
    requires app.screen == NameInput(buf, score)
    requires !HasQuit(f.events) && HasKey(f.events, Escape) && !HasKey(f.events, Return)
    ensures Poll(app, f) == app.(screen := Menu)
  {
    var st := NameEntry.NameScan(buf, app.file, None, false);
    NameEntry.EscapeKeepsFile(st, score, f.events);
    assert Poll(app, f) == AfterNames(app, NameEntry.Scan(st, score, f.events), score);
  }

  lemma AfterNamesLeaves(app: App, s: NameEntry.NameScan, score: int)
    requires Inv(app) && app.screen.NameInput? && !s.quit && s.leave == Some(NameEntry.ToBoard)
    ensures AfterNames(app, s, score) == app.(screen := BoardView, file := s.file, board := Leaderboard.Load(s.file))
  {
  }
}
