/**
 * Input as abstract values. One `Frame` is what one call of
 * `pygame.event.get()` returns, together with the button under the mouse
 * pointer while that frame's buttons are drawn and the random cells the
 * frame's placement loops draw.
 */
module Input {
  import opened Basics
  import opened Grid

  /** The keys the game reacts to; every other key is `OtherKey`. */
  datatype Key =
    | Escape | Return | Backspace
    | KeyA | KeyD | KeyW | KeyS
    | KeyR | KeyM | KeyQ
    | OtherKey

  /**
   * `KeyDown` carries the key and the character it types (pygame's
   * `event.unicode`), if any. `MouseDown` carries the mouse button number.
   */
  datatype Event =
    | Quit
    | KeyDown(key: Key, text: Option<char>)
    | MouseDown(button: int)
    | OtherEvent

  /** Every clickable button, named after the screen it is on. */
  datatype Button =
    // main menu: "Nuova Partita", "Leaderboard", "Impostazioni", "Esci"
    | NewGame | ShowScores | OpenSettings | ExitGame
    // mode selection: "Classica", "Ostacoli Casuali", "Senza Muri (Libera)", "Menu Principale"
    | PickClassic | PickObstacles | PickBorderless | PickBack
    // leaderboard "Indietro" and settings "Indietro" / modal "OK"
    | Back
    // settings volume "-" and "+"
    | VolumeDown | VolumeUp
    // pause menu: "Riprendi", "Impostazioni", "Menu Principale", "Esci dal Gioco"
    | PauseResume | PauseSettings | PauseMainMenu | PauseExit

  /**
   * `draws` feeds the food placement loop and `obstacleDraws` the obstacle
   * placement loop: each `random.randrange` pair becomes the next cell.
   */
  datatype Frame = Frame(events: seq<Event>, hover: Option<Button>, draws: seq<Cell>, obstacleDraws: seq<Cell>)

  predicate IsQuit(e: Event) { e.Quit? }

  predicate IsKey(e: Event, k: Key) { e.KeyDown? && e.key == k }

  /** A window close or ESC: the events that end the play and pause polls. */
  predicate IsStop(e: Event) { IsQuit(e) || IsKey(e, Escape) }

  /** The position of the first window close or ESC of a poll, or its length when there is none. */
  function FirstStop(events: seq<Event>): (k: nat)
    ensures k <= |events|
    ensures forall i :: 0 <= i < k ==> !IsStop(events[i])
    ensures k < |events| ==> IsStop(events[k])
    decreases |events|
  {
    if events == [] || IsStop(events[0]) then 0
    else
      var k := 1 + FirstStop(events[1..]);
      assert forall i :: 1 <= i < |events| ==> events[i] == events[1..][i - 1];
      k
  }

  /** The position of the last window close or ESC of a poll, or -1 when there is none. */
  function LastStop(events: seq<Event>): (k: int)
    ensures -1 <= k < |events|
    ensures forall i :: k < i < |events| ==> !IsStop(events[i])
    ensures k >= 0 ==> IsStop(events[k])
    decreases |events|
  {
    if events == [] then -1
    else if IsStop(events[|events| - 1]) then |events| - 1
    else
      var init := events[..|events| - 1];
      assert forall i :: 0 <= i < |init| ==> init[i] == events[i];
      LastStop(init)
  }

  /** A left-button press (`MOUSEBUTTONDOWN` with `button == 1`). */
  predicate IsClick(e: Event) { e.MouseDown? && e.button == 1 }

  predicate HasQuit(events: seq<Event>) { exists i :: 0 <= i < |events| && IsQuit(events[i]) }

  predicate HasKey(events: seq<Event>, k: Key) { exists i :: 0 <= i < |events| && IsKey(events[i], k) }

  /** `mouse_clicked_this_frame` after the frame's events are read. */
  predicate Clicked(events: seq<Event>) { exists i :: 0 <= i < |events| && IsClick(events[i]) }

  /** `draw_button(...) and mouse_clicked_this_frame` for button `b`. */
  predicate ClickOn(f: Frame, b: Button) { Clicked(f.events) && f.hover == Some(b) }

  /** Every drawn cell lies in the field, as `random.randrange(0, GRID_WIDTH)` guarantees. */
  predicate DrawsIn(a: Arena, f: Frame) {
    (forall i :: 0 <= i < |f.draws| ==> InArena(a, f.draws[i])) &&
    (forall i :: 0 <= i < |f.obstacleDraws| ==> InArena(a, f.obstacleDraws[i]))
  }
}
