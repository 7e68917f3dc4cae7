/**
 * V1 to V4: one `game_loop` with no menus. A round plays until it
 * collides; the game-over screen then waits for R (a new round) or Q
 * (the end). V2 on play a sound on game over, V3 and V4 keep a high
 * score in a text file.
 */
module Classic {
  import opened Basics
  import opened Input
  import opened Snake
  import opened Versions
  import HighScore

  /** `Frozen` is food placement looking forever for a free cell the frame's draws do not hold. */
  datatype Screen = Playing(r: Round) | Over(r: Round) | Exited | Frozen

  /**
   * The program's state: the version, the screen, the high score in
   * memory (`current_high_score`) and its file, whether the sounds
   * loaded, and whether the game-over sound has played for this round.
   */
  datatype App = App(version: Version, screen: Screen, high: int, file: HighScore.TextFile, soundLoaded: bool, played: bool)

  function RulesOf(app: App): Rules {
    RulesFor(app.version, ClassicMode)
  }

  /** `game_loop` called afresh, at start-up and on R. */
  function StartRound(app: App, f: Frame): App {
    match Fresh(RulesOf(app), f.draws, f.obstacleDraws)
    case Some(r) => app.(screen := Playing(r), played := false)
    case None => app.(screen := Frozen)
  }

  /** Start-up: V3 and V4 read the high score file, then the first round starts. */
  function Boot(v: Version, file: HighScore.TextFile, soundLoaded: bool, f: Frame): App
    requires Legacy(v)
  {
    var high := if KeepsHighScore(v) then HighScore.Load(file) else 0;
    // the screen is replaced by the first round
    StartRound(App(v, Exited, high, file, soundLoaded, false), f)
  }

  /** The first pass of the game-over loop: record the high score (V3, V4) and play the sound once (V2 on). */
  function EnterOver(app: App, r: Round): App {
    var rec := if KeepsHighScore(app.version) then HighScore.Record(app.high, app.file, r.score) else (app.high, app.file);
    app.(screen := Over(r), high := rec.0, file := rec.1, played := SoundsGameOver(app.version) && app.soundLoaded)
  }

  /**
   * One pass of the play loop. Every event is read, the snake moves, and
   * only then does a window close or ESC end the program; a round that
   * collides in that pass never reaches the game-over screen.
   */
  function PlayPoll(app: App, r: Round, f: Frame): App {
    var s := ScanLegacy(r.dir, r.pending, f.events);
    var r1 := r.(pending := s.pending);
    // every live round has a head (`Good`), so the guard is never taken
    if r1.body == [] then app
    else
      var m := Step(RulesOf(app), r1, f.draws);
      if m.outcome == Stalled then app.(screen := Frozen)
      else if s.stop == QuitRequested then app.(screen := Exited)
      else if m.outcome == Collided then EnterOver(app, m.next)
      else app.(screen := Playing(m.next))
  }

  /** A poll of the game-over screen: an R anywhere restarts at once; otherwise a window close or Q ends the program. */
  function OverPoll(app: App, f: Frame): App {
    if HasKey(f.events, KeyR) then StartRound(app, f)
    else if HasQuit(f.events) || HasKey(f.events, KeyQ) then app.(screen := Exited)
    else app
  }

  function Poll(app: App, f: Frame): App {
    match app.screen
    case Playing(r) => PlayPoll(app, r, f)
    case Over(_) => OverPoll(app, f)
    case _ => app
  }

  function Run(app: App, frames: seq<Frame>): App
    decreases |frames|
  {
    if frames == [] then app else Run(Poll(app, frames[0]), frames[1..])
  }

  // -------------------------------------------------------------- invariant

  /**
   * Between polls: a round in play satisfies `Good` and has not sounded;
   * on the game-over screen the sound has played exactly when the version
   * has it and it loaded; V3 and V4 remember what the file holds, at
   * least the score just lost on the game-over screen; V1 and V2 keep 0.
   */
  predicate Inv(app: App) {
    Legacy(app.version) &&
    (app.screen.Playing? ==> Good(RulesOf(app), app.screen.r) && !app.played) &&
    (app.screen.Over? ==> app.played == (SoundsGameOver(app.version) && app.soundLoaded)) &&
    (app.screen.Over? && KeepsHighScore(app.version) ==> app.high >= app.screen.r.score) &&
    (KeepsHighScore(app.version) ==> app.high == HighScore.Load(app.file)) &&
    (!KeepsHighScore(app.version) ==> app.high == 0)
  }

  lemma StartRoundInv(app: App, f: Frame)
    requires Inv(app) && DrawsIn(Field(app.version), f)
    ensures Inv(StartRound(app, f))
    ensures StartRound(app, f).high == app.high && StartRound(app, f).file == app.file
  {
    if Fresh(RulesOf(app), f.draws, f.obstacleDraws).Some? {
      FreshRound(RulesOf(app), f.draws, f.obstacleDraws);
    }
  }

  lemma BootInv(v: Version, file: HighScore.TextFile, soundLoaded: bool, f: Frame)
    requires Legacy(v) && DrawsIn(Field(v), f)
    ensures Inv(Boot(v, file, soundLoaded, f))
  {
    var high := if KeepsHighScore(v) then HighScore.Load(file) else 0;
    StartRoundInv(App(v, Exited, high, file, soundLoaded, false), f);
  }

  lemma EnterOverInv(app: App, r: Round)
    requires Inv(app)
    ensures Inv(EnterOver(app, r))
    ensures EnterOver(app, r).high >= app.high
  {
    if KeepsHighScore(app.version) {
      HighScore.RecordInSync(app.high, app.file, r.score);
    }
  }

  lemma PlayPollInv(app: App, r: Round, f: Frame)
    requires Inv(app) && app.screen == Playing(r) && DrawsIn(Field(app.version), f)
    ensures Inv(PlayPoll(app, r, f))
    ensures PlayPoll(app, r, f).high >= app.high
  {
    var s := ScanLegacy(r.dir, r.pending, f.events);
    var r1 := r.(pending := s.pending);
    assert Good(RulesOf(app), r1);
    var m := Step(RulesOf(app), r1, f.draws);
    if m.outcome == Stalled {
      assert PlayPoll(app, r, f) == app.(screen := Frozen);
    } else if s.stop == QuitRequested {
      assert PlayPoll(app, r, f) == app.(screen := Exited);
    } else if m.outcome == Collided {
      assert PlayPoll(app, r, f) == EnterOver(app, m.next);
      EnterOverInv(app, m.next);
    } else {
      assert PlayPoll(app, r, f) == app.(screen := Playing(m.next));
      StepKeepsGood(RulesOf(app), r1, f.draws);
    }
  }

  lemma OverPollInv(app: App, f: Frame)
    requires Inv(app) && app.screen.Over? && DrawsIn(Field(app.version), f)
    ensures Inv(OverPoll(app, f))
    ensures OverPoll(app, f).high == app.high
  {
    if HasKey(f.events, KeyR) {
      StartRoundInv(app, f);
    }
  }

  /** Every poll keeps the invariant and never lowers the high score. */
  lemma PollInv(app: App, f: Frame)
    requires Inv(app) && DrawsIn(Field(app.version), f)
    ensures Inv(Poll(app, f)) && Poll(app, f).high >= app.high
  {
    match app.screen
    case Playing(r) =>
      assert Poll(app, f) == PlayPoll(app, r, f);
      PlayPollInv(app, r, f);
    case Over(_) =>
      assert Poll(app, f) == OverPoll(app, f);
      OverPollInv(app, f);
    case _ =>
  }

  lemma PollVersion(app: App, f: Frame)
    ensures Poll(app, f).version == app.version
  {
  }

  /** Any run keeps the invariant, and the high score only rises. */
  lemma {:induction false} RunInv(app: App, frames: seq<Frame>)
    requires Inv(app) && forall i :: 0 <= i < |frames| ==> DrawsIn(Field(app.version), frames[i])
    ensures Inv(Run(app, frames)) && Run(app, frames).high >= app.high
    decreases |frames|
  {
    if frames != [] {
      PollInv(app, frames[0]);
      PollVersion(app, frames[0]);
      assert forall i :: 0 <= i < |frames| - 1 ==> frames[1..][i] == frames[i + 1];
      RunInv(Poll(app, frames[0]), frames[1..]);
    }
  }

  // ------------------------------------------------------------ transitions

  /** Closing the window or pressing ESC while playing ends the program without the game-over screen, so nothing is saved. */
  lemma QuitSkipsSaving(app: App, r: Round, f: Frame)
    requires Inv(app) && app.screen == Playing(r)
    requires HasQuit(f.events) || HasKey(f.events, Escape)
    ensures Poll(app, f).screen == Exited || Poll(app, f).screen == Frozen
    ensures Poll(app, f).high == app.high && Poll(app, f).file == app.file
  {
    var s := ScanLegacy(r.dir, r.pending, f.events);
    assert s.stop == QuitRequested;
  }

  /** From V3 on, losing a round that beat the high score rewrites the file with it. */
  lemma BeatenHighScoreSaved(app: App, r: Round)
    requires KeepsHighScore(app.version) && r.score > app.high
    ensures EnterOver(app, r).high == r.score
    ensures EnterOver(app, r).file == HighScore.Save(r.score)
    ensures HighScore.Load(EnterOver(app, r).file) == r.score
  {
    HighScore.ParseShow(r.score);
  }

  /** A round that did not beat the high score leaves the file alone. */
  lemma UnbeatenKeepsFile(app: App, r: Round)
    requires r.score <= app.high
    ensures EnterOver(app, r).high == app.high && EnterOver(app, r).file == app.file
  {
  }

  /**
   * On the game-over screen an R anywhere in the poll restarts, even after a
   * window close or Q in the same poll; without an R, a window close or Q
   * ends the program, and otherwise the screen stays.
   */
  lemma OverKeys(app: App, f: Frame)
    requires app.screen.Over?
    ensures HasKey(f.events, KeyR) ==> Poll(app, f) == StartRound(app, f)
    ensures !HasKey(f.events, KeyR) && (HasQuit(f.events) || HasKey(f.events, KeyQ)) ==> Poll(app, f).screen == Exited
    ensures !HasKey(f.events, KeyR) && !HasQuit(f.events) && !HasKey(f.events, KeyQ) ==> Poll(app, f) == app
  {
  }

  /** The two polls that show the order does not matter: a close before R still restarts, and Q alone exits. */
  lemma OverKeyPolls(app: App, f: Frame, t: Option<char>)
    requires app.screen.Over?
    ensures f.events == [Quit, KeyDown(KeyR, t)] ==> Poll(app, f) == StartRound(app, f)
    ensures f.events == [KeyDown(KeyQ, t)] ==> Poll(app, f).screen == Exited
  {
    if f.events == [Quit, KeyDown(KeyR, t)] {
      assert IsKey(f.events[1], KeyR);
    }
    if f.events == [KeyDown(KeyQ, t)] {
      assert IsKey(f.events[0], KeyQ);
      assert !HasKey(f.events, KeyR);
    }
  }

  /** V1 never sounds; V2 on sound once when the sound loaded. */
  lemma OverSound(app: App, r: Round)
    ensures EnterOver(app, r).played <==> app.version != V1 && app.soundLoaded
  {
  }
}
