# PySnake in Dafny

PySnake is a pygame Snake game kept in ten successive versions: `Old/main_V1.py` to `Old/main_V9.py` and the current `main.py`. This project models what the game computes, separately from what it draws. It covers:

- the per-tick snake step, in both tick orders the versions use;
- rejection sampling of food and obstacle cells;
- the ranked score files of V3/V4 (one high score), V5 (a list of bare scores) and V6 to `main.py` (a named leaderboard);
- the name-entry buffer;
- the volume setting;
- the screen state machines: V1–V4's single game loop, and the menu, game, pause, leaderboard, settings and name-entry screens of V5 to `main.py`.

Each module follows one part of the program:

| module | file | what it is |
|---|---|---|
| `Basics`, `Grid`, `Input`, `Text`, `Json` | basics.dfy, grid.dfy, input.dfy, text.dfy, json.dfy | cells, directions, field sizes; input events as values; the `str` operations the program uses (`strip`, `isdigit`, `isalnum`, `int()`, `str()`); parsed JSON values |
| `Placement` | placement.dfy | `get_random_food_position` and `generate_random_obstacles`, as functions and as the loops themselves |
| `Snake` | snake.dfy | one round as a value, steering, the two tick orders, and the round invariant `Good` |
| `Play` | play.dfy | `game_loop`'s round state as an object (`Session`), whose methods update `snake_list`, the head and the counters in place. Each method is proved equal to the value-level tick |
| `Versions` | versions.dfy | which version has which feature, and each version's tick rules |
| `Ranking` | ranking.dfy | Python's stable `sorted(..., reverse=True)` and slicing |
| `Leaderboard` | leaderboard.dfy | `load_leaderboard`, `add_entry_to_leaderboard` and `check_if_qualifies` of V6 to `main.py` |
| `ScoreList` | scorelist.dfy | V5's integer leaderboard |
| `HighScore` | highscore.dfy | V3/V4's `load_high_score`, `save_high_score` and the high-score update |
| `NameEntry` | names.dfy | `name_input_loop` |
| `Screens` | screens.dfy | the `game_state` machine of V5 to `main.py`, one event poll per step |
| `Classic` | classic.dfy | the V1–V4 program |

## How the model is built

- **Speed.** It is counted in half frames per second. The ramp's 0.5 step is then one unit: 8 FPS is 16 and 50 FPS is 100. The fixed 10 FPS of V1–V6 is 20. Every speed is exact.
- **Volume.** It is counted in integer tenths from 0 to 10, starting at 5.
- **Randomness.** Each `random.randrange` pair becomes the next cell of a candidate sequence that the step receives as input.
  - When the candidates run out before one is accepted, the result is `None`.
  - The screens then show `Diverged` (in `Classic`, `Frozen`).
  - The program itself would keep drawing.
- **Frame.** A `Frame` is one `pygame.event.get()` poll. Along with the events it carries the button under the mouse while that frame's buttons are drawn, and the candidate cells its placement loops draw.
- **JSON and files.** File contents arrive already parsed as a JSON `Value` or as text. A missing file and an unreadable file are values of their own. What a save writes is returned as a value.

Where the behaviour and the program's own comments or documentation disagree, the model follows the code:

- The food test `(x, y) not in snake_list` compares a tuple with lists and never rejects (`main.py:128`). Food may therefore appear under the snake (`Snake.FoodMayCoverSnake`). Obstacles are tuples, so the obstacle test does reject (`main.py:147`).
- `snake_length` grows after the trim, so growth shows one tick late (`main.py:400-404`, `Snake.MoveEffects`).
- A JSON `true`/`false` score passes `isinstance(..., int)` and ranks as 1/0 in V6 to `main.py`.
- In V5, a JSON number, bool or `null` as the whole file cannot be iterated. The `TypeError` is not caught, and the model ends in `Crashed`.
- V5 has no `if game_over_flag: break` after its game-over loop (V6 adds it, `Old/main_V6.py:325`). After M, V5 therefore runs one more play poll: a close exits, ESC returns, and other events, clicks included, are lost (`Screens.MenuAfterPass`).
- In V1–V4, a window close or ESC during play ends the program without the game-over screen, so V3/V4 save nothing (`Classic.QuitSkipsSaving`).

## Model

| member | source | states |
|---|---|---|
| Grid.Opposite | main.py:27 | the reverse of each direction negates both components of its vector |
| Grid.WrapStep | main.py:380-384 | a BORDERLESS step from a cell of the field stays in the field and never stays in place; it is the plain step when that is inside, and otherwise re-enters at the opposite edge in the same row or column |
| Grid.ShiftMoves | main.py:378 | a plain step always changes the head |
| Versions.RulesFor | main.py:16-18 | a version's rules have a field of at least 2x2 and use the append-first tick exactly in V1–V4 (30x20 field, `Old/main_V1.py:9-13`) |
| Versions.ClassicTicksAgree | Old/main_V9.py:405-418 | V7–V9 tick exactly as `main.py` does in CLASSIC mode; V5 and V6 differ only in having no speed ramp |
| Versions.RampOnlyChangesSpeed | main.py:406-408 | without the ramp a tick has the same outcome and the same round, except that the speed is left alone |
| Snake.Steer | main.py:370-373 | a W/A/S/D key makes its direction pending exactly when it is not the reverse of the current direction; any other key changes nothing |
| Snake.ScanPlay | main.py:361-373 | the V5-on play loop never makes a reversing direction pending; it is interrupted exactly when the poll holds a window close or an ESC |
| Snake.ScanPlayFirstStop | main.py:361-373 | the first window close or ESC of the poll decides the interruption (a close exits, an ESC pauses), and the pending direction is the one the keys before it steer to, as `ScanLegacy` reads them; the events after it are not read |
| Snake.ScanStep | main.py:370-373 | a key that is neither a close nor ESC steers in both play loops and the loop goes on, with the first stop one event further on |
| Snake.ScanLegacy | Old/main_V1.py:117-130 | the V1–V4 play loop never makes a reversing direction pending; it ends the game exactly when the poll holds a window close or an ESC, and it reads every event |
| Snake.SpeedStep | main.py:403-408 | one food is one ramp step: the speed after `n` foods is min(16+n, 100), and 20 without the ramp |
| Snake.FreshRound | main.py:309-325 | a new round is one cell in the middle of the field, length 1, score 0, heading right, at the starting speed; in OBSTACLES mode it has 10 distinct obstacles outside the safe square, and it satisfies `Good` |
| Snake.FinishKeepsGood | main.py:400-408 | a move that does not collide keeps the round invariant: at most `length` distinct cells, in the field and off the obstacles, with the score and speed matching the foods eaten |
| Snake.StepKeepsGood | main.py:377-408 | every tick that does not end the round keeps `Good`; from V5 on a colliding tick keeps it too, since it leaves the body untouched |
| Snake.PreMoveCollision | main.py:385-398 | from V5 on the round ends exactly when the new head leaves a walled field, hits a body cell other than the current head (the tail included) or hits an obstacle; then body, length, score, speed and food stay as they were |
| Snake.BorderlessNeverHitsWall | main.py:380-390 | in BORDERLESS mode the new head is always in the field, and only the body can end the round |
| Snake.MoveEffects | main.py:377-408 | a move appends the new head, which is the target cell of the pending direction (wrapped in BORDERLESS mode), and drops the oldest cell only when the body is full; eating adds 10 points, one to the length and one ramp step below the cap, and puts the new food in the field and off the obstacles; the obstacles and the pending direction are unchanged, and the new direction never reverses the old one |
| Snake.TailChase | Old/main_V1.py:146-157 | moving into the cell the tail is leaving is legal in the V1–V4 tick and fatal in the V5-on tick |
| Snake.TickOrdersAgree | Old/main_V4.py:206-226 | apart from that case and a head outside the field, the two tick orders give the same outcome in CLASSIC mode, and the same round unless it ends |
| Snake.OffFieldDiffers | Old/main_V4.py:212-226 | a head outside the field ends the round in both orders, but only V1–V4 have already appended it and trimmed the tail |
| Snake.FoodMayCoverSnake | main.py:122-129 | food can be placed on the snake: a first candidate equal to the start cell puts the food under the head |
| Placement.FirstFree | main.py:122-129 | the chosen food is the first candidate that is not an obstacle; there is none exactly when every candidate is an obstacle |
| Placement.PlaceFood | main.py:125-129 | the food loop returns the cell `FirstFree` specifies |
| Placement.PlaceFrom | main.py:138-148 | placement keeps the cells already accepted as a prefix, stops at exactly `count` cells, takes the new ones from the candidates, and keeps them distinct and outside the safe square |
| Placement.ObstaclesPlaced | main.py:132-149 | placed obstacles are exactly `count` distinct cells outside the 5x5 safe square, so never the starting head, and inside the field when the candidates are |
| Placement.GenerateObstacles | main.py:132-149 | the nested loops return the obstacles `Obstacles` specifies, or `None` when the candidates run out |
| Play.Session.constructor | main.py:309-325 | the start of `game_loop` builds exactly the round `Fresh` specifies, with the head on the body's last cell |
| Play.Session.Restart | main.py:348-356 | R resets every round variable to the value `Fresh` gives, and changes nothing when placement runs out of candidates |
| Play.Session.HandleEvents | main.py:361-373 | the V5-on event loop sets the pending direction and the interruption `ScanPlay` specifies, and changes no other field |
| Play.Session.HandleLegacyEvents | Old/main_V1.py:117-130 | the V1–V4 event loop sets the pending direction and `game_over` as `ScanLegacy` specifies, and changes no other field |
| Play.Session.MoveHead | main.py:377-387 | the head moves one step in the adopted direction, wrapping only in BORDERLESS; the round closes exactly when a walled head leaves the field |
| Play.Session.MoveHeadLegacy | Old/main_V1.py:132-143 | the V1–V4 head moves one step with no wrapping, and leaving the field closes the round |
| Play.Session.AppendHead | main.py:400-401 | the body gets the head appended and loses its first cell only when it is over length |
| Play.Session.EatIfFood | main.py:403-408 | the food test and its effects match `Finish` |
| Play.Session.Tick | main.py:377-408 | one V5-on tick in place gives the round and outcome `StepPreMove` specifies; the round closes exactly on a collision |
| Play.Session.TickAppendFirst | Old/main_V1.py:132-166 | one V1–V4 tick in place gives the round and outcome `StepAppendFirst` specifies |
| Play.Occurs | Old/main_V1.py:154-157 | the segment loop finds the head exactly when it is one of the cells |
| Text.Digits | Old/main_V4.py:86 | `str(n)` of a natural number is all digits, reads back as `n`, and has no leading zero |
| Text.StripLeft | main.py:176 | removing leading whitespace gives a suffix that does not start with whitespace, and only whitespace was removed |
| Text.StripRight | main.py:176 | removing trailing whitespace gives a prefix that does not end with whitespace, and only whitespace was removed |
| Text.Strip | main.py:176 | `strip()` neither starts nor ends with whitespace, and is empty exactly when the text is all whitespace |
| Text.StripUnchanged | main.py:176 | text without surrounding whitespace is its own strip |
| Json.Get | main.py:77-78 | a dict lookup finds a key exactly when the object has it, and returns the value of its last occurrence |
| HighScore.Ungroup | Old/main_V4.py:78 | taking the underscores out of `int()`'s grouped digits leaves only digits |
| HighScore.UngroupAppend | Old/main_V4.py:78 | taking out the underscores works piece by piece, so every other character stays, in its order |
| HighScore.UngroupSeparator | Old/main_V4.py:78 | a group separator adds nothing to the digits `int()` reads |
| HighScore.ParseInt | Old/main_V4.py:78 | `int(text)` succeeds only on non-blank text, is negative only with a minus sign, and accepts every grouped digit string |
| HighScore.ParseIntAccepts | Old/main_V4.py:78-81 | `int(text)` succeeds exactly when the stripped text is grouped digits, with or without one sign in front, and raises `ValueError` otherwise; without a minus sign the result is never negative; a plain digit string reads as its decimal value |
| HighScore.Show | Old/main_V4.py:86 | `str(n)` is never empty and has no surrounding whitespace |
| HighScore.Load | Old/main_V4.py:75-81 | the high score is the file's integer, or 0 when the file is missing, unreadable or not an integer |
| HighScore.ParseShow | Old/main_V4.py:78-86 | every score the game writes is read back as itself |
| HighScore.Record | Old/main_V4.py:159-161 | after game over the high score is max(old, score), and the file is rewritten only when the score beat it |
| HighScore.RecordInSync | Old/main_V3.py:121-123 | recording keeps the high score in memory equal to what the file holds |
| HighScore.RecordTwice | Old/main_V4.py:158-161 | the repeated passes of the game-over loop change nothing after the first |
| Ranking.Insert | main.py:84 | inserting adds exactly one item |
| Ranking.SortDesc | main.py:79 | the sort keeps the length |
| Ranking.Take | main.py:79 | `s[:n]` is a prefix of at most `n` items, the whole list when it is short enough |
| Ranking.Rank | main.py:84 | the rank of a key is a position within the list |
| Ranking.RankBelow | main.py:84 | the items before the rank have a key at least `k` |
| Ranking.RankAbove | main.py:84 | in a sorted list the items from the rank on have a key below `k` |
| Ranking.InsertAtRank | main.py:84 | insertion puts the new item at its rank |
| Ranking.SplicedSorted | main.py:84 | splicing an item in at its rank keeps the list sorted |
| Ranking.InsertSplits | main.py:84 | inserting into a sorted list splits it at the rank: the keys at least the new one, the new item, the rest; the result is sorted |
| Ranking.InsertPermutes | main.py:84 | insertion adds exactly the new item |
| Ranking.SortDescPermutes | main.py:79 | the sort only reorders |
| Ranking.SortDescSorted | main.py:79 | the sort's result is in non-increasing key order |
| Ranking.InsertAtEnd | main.py:84 | an item no larger than the last of a sorted list is inserted at the end |
| Ranking.SortDescOfSorted | main.py:79 | sorting a sorted list changes nothing |
| Ranking.WithKeyAppend | main.py:84 | the items with a given key of a concatenation are those of each part in turn |
| Ranking.InsertStable | main.py:84 | inserting into a sorted list puts the new item after every item with the same key |
| Ranking.SpliceStable | main.py:84 | an item spliced in front of items with smaller keys comes last among the items with its key |
| Ranking.SortDescStable | main.py:79 | the sort is stable: for every key, the items with that key keep their order |
| Leaderboard.AsEntryAccepts | main.py:77-78 | a record is accepted exactly when it is a dict with a string "name" and an integer (or bool) "score", and the entry carries those values |
| Leaderboard.Accepted | main.py:75-78 | the filter never yields more entries than the file holds |
| Leaderboard.AcceptedSound | main.py:75-78 | every accepted entry comes from a record of the file |
| Leaderboard.AcceptedComplete | main.py:75-78 | every record of the accepted shape is kept |
| Leaderboard.Load | main.py:70-80 | a loaded board is sorted by score, highest first, and has at most 10 entries; missing, unreadable and non-list files give the empty board |
| Leaderboard.Records | main.py:86 | what `json.dump` writes is exactly one record per entry, in order |
| Leaderboard.Add | main.py:82-87 | the board `add_entry_to_leaderboard` writes is sorted and at most 10 long |
| Leaderboard.Qualifies | main.py:89-92 | a score qualifies when the board has fewer than 10 entries, or else exactly when it beats the last entry |
| Leaderboard.RecordRead | main.py:83-86 | a record the game writes is read back as the same entry |
| Leaderboard.RecordsRead | main.py:86 | the records of a board are all accepted, in order |
| Leaderboard.LoadDump | main.py:70-87 | writing a ranked board and loading it again gives the same board |
| Leaderboard.LoadFilters | main.py:76-79 | loading never invents an entry: each comes from an accepted record |
| Leaderboard.AddInserts | main.py:82-92 | adding splits the loaded board at the new score, with ties staying ahead of the newcomer; the new entry survives the cut exactly when `check_if_qualifies` holds, at its rank, and otherwise the board is unchanged |
| Leaderboard.AddIsInsert | main.py:83-84 | appending and re-sorting a sorted board is inserting the new entry at its rank |
| Leaderboard.RankQualifies | main.py:89-92 | on a loaded board the new score ranks within the first 10 exactly when it qualifies |
| Leaderboard.QualifiesMonotone | main.py:89-92 | a qualifying score still qualifies when raised |
| ScoreList.Keys | Old/main_V5.py:94 | iterating a dict gives each key once, and only its keys |
| ScoreList.Strs | Old/main_V5.py:94 | the keys are iterated as strings |
| ScoreList.Chars | Old/main_V5.py:94 | iterating a string gives its characters |
| ScoreList.Elements | Old/main_V5.py:93-94 | `for score in data` fails exactly on a number, bool or null |
| ScoreList.Accept | Old/main_V5.py:94 | an item is kept exactly when it is a non-negative int or a string of digits, as its integer value |
| ScoreList.AcceptAll | Old/main_V5.py:94 | every kept score is non-negative |
| ScoreList.AcceptAllSound | Old/main_V5.py:94 | every kept score comes from an item of the file |
| ScoreList.AcceptAllComplete | Old/main_V5.py:94 | every item that passes the test is kept |
| ScoreList.Best | Old/main_V5.py:94-95 | `sorted(..., reverse=True)[:10]` is sorted, at most 10 long, and non-negative when its input is |
| ScoreList.Load | Old/main_V5.py:88-97 | the loaded list is sorted, highest first, non-negative and at most 10 long; loading crashes exactly on a file holding a bare number, bool or null |
| ScoreList.Squash | Old/main_V5.py:102 | deduplicating a sorted list keeps its members and its first item and makes it strictly decreasing |
| ScoreList.Save | Old/main_V5.py:99-108 | the saved list is strictly decreasing and at most 10 long; saving crashes exactly when loading does |
| ScoreList.Ints | Old/main_V5.py:106 | what `json.dump` writes is one number per score, in order |
| ScoreList.IntsRead | Old/main_V5.py:94-106 | written non-negative scores are read back in order |
| ScoreList.LoadDump | Old/main_V5.py:88-106 | a sorted list of at most 10 non-negative scores loads back unchanged once written |
| ScoreList.SquashStrict | Old/main_V5.py:102 | a list without repeats is left alone by deduplication |
| ScoreList.Ordered | Old/main_V5.py:102 | `sorted(set(l), reverse=True)` is strictly decreasing with the members of `l` |
| ScoreList.StrictUnique | Old/main_V5.py:102 | two strictly decreasing lists with the same members are equal |
| ScoreList.Saved | Old/main_V5.py:100-103 | the saved list is strictly decreasing and at most 10 long, holds only old scores and the new one, and holds the new one unless 10 higher scores fill it |
| ScoreList.SavedTwice | Old/main_V5.py:100-103 | saving the same score again leaves the list as it was |
| ScoreList.SaveTwice | Old/main_V5.py:99-108 | saving the same score twice writes what one save wrote |
| ScoreList.NonNegative | Old/main_V5.py:94-103 | every saved score is non-negative |
| NameEntry.FinalNameShape | main.py:176-177 | the saved name is never empty and has no surrounding space; an all-space buffer saves "Player"; otherwise it is the stripped buffer, at most 10 characters |
| NameEntry.PollNames | main.py:172-183 | the name loop's events after one poll give the buffer, file and next screen `Scan` specifies |
| NameEntry.ScanKeepsBuffer | main.py:181-182 | the buffer never holds more than 10 characters, each a letter, digit or space |
| NameEntry.ScanWithoutReturn | main.py:175-178 | a poll without RETURN leaves the leaderboard file alone |
| NameEntry.ScanReturnLeaves | main.py:175-180 | a poll with RETURN and no window close leaves the name entry |
| NameEntry.ScanQuits | main.py:173 | a window close anywhere in the poll ends the program, even after a RETURN has saved |
| NameEntry.LastLeave | main.py:175-183 | the position of the last RETURN or ESC of a poll: no RETURN or ESC follows it |
| NameEntry.ScanAppend | main.py:172-183 | reading a poll in two pieces, one after the other, is reading it whole |
| NameEntry.ScanNoQuit | main.py:172-173 | without a window close the loop never ends the program |
| NameEntry.ScanStaysIn | main.py:172-183 | events other than a close, RETURN and ESC change neither the file nor where the loop goes |
| NameEntry.ScanLastLeave | main.py:172-183 | without a close, the last RETURN or ESC of any poll decides: RETURN goes to the leaderboard with the file rewritten from the buffer as it was at that RETURN, ESC goes to the menu with the file as it was before it |
| NameEntry.EscapeKeepsFile | main.py:183 | any poll with an ESC and neither RETURN nor a close goes to the menu and leaves the file alone |
| NameEntry.LeaveStays | main.py:180-183 | once the loop has chosen to stop, later events of the same poll do not undo it |
| NameEntry.ReturnSaves | main.py:175-180 | a poll of just RETURN saves the final name with the score and goes to the leaderboard, whose reload is the new board |
| NameEntry.ReturnStep | main.py:175-180 | one RETURN rewrites the file with the added board and selects the leaderboard |
| NameEntry.SubmitLoads | main.py:178 | reloading the file RETURN wrote gives the board it added to |
| NameEntry.EscapeLeaves | main.py:183 | a poll of just ESC goes to the menu and leaves buffer and file as they were |
| Screens.Volume | main.py:258-263 | "-" and "+" move the volume one tenth, clamped to 0..10; nothing else changes it |
| Screens.PauseEvents | main.py:288-290 | the pause loop's events choose an action exactly when a window close or ESC occurs, and never choose the main menu |
| Screens.PauseEventsLast | main.py:288-290 | the last window close or ESC of the poll decides: EXIT_GAME for a close, RESUME for an ESC, no action without either |
| Screens.PollPause | main.py:288-291 | the pause loop's `for` gives the action `PauseEvents` specifies: the last close or ESC wins |
| Screens.OverEvents | main.py:344-357 | the game-over poll stays on its screen only when no M was pressed |
| Screens.OverEventsFirst | main.py:344-357 | the first window close or R of the poll decides (exit or restart); without either the poll goes to the menu exactly when an M was pressed, and stays otherwise |
| Screens.BootInv | main.py:492-497 | the program starts in a state satisfying the invariant |
| Screens.StartRoundInv | main.py:306-325 | starting a round keeps the invariant |
| Screens.EnterGameOverInv | main.py:330-335 | entering game over (V5's save, the qualify check from V6 on) keeps the invariant |
| Screens.TickInv | main.py:377-408 | a tick keeps the invariant |
| Screens.ActInv | main.py:366-369 | acting on the pause menu's answer keeps the invariant |
| Screens.MenuFrameInv | main.py:471-488 | a main-menu poll keeps the invariant |
| Screens.SelectFrameInv | main.py:437-456 | a mode-selection poll keeps the invariant |
| Screens.PlayFrameInv | main.py:361-408 | a play poll keeps the invariant |
| Screens.PauseFrameInv | main.py:283-301 | a pause poll keeps the invariant |
| Screens.PauseSettingsFrameInv | main.py:294-297 | a poll of the modal settings keeps the invariant |
| Screens.GameOverFrameInv | main.py:344-357 | a game-over poll keeps the invariant |
| Screens.AfterNamesInv | main.py:175-183 | leaving or staying in the name entry keeps the invariant |
| Screens.NameFrameInv | main.py:171-183 | a name-entry poll keeps the invariant |
| Screens.BoardFrameInv | main.py:191-199 | a leaderboard poll keeps the invariant |
| Screens.SettingsFrameInv | main.py:218-245 | a settings poll keeps the invariant |
| Screens.PollInv | main.py:498-503 | every poll of every screen keeps the invariant: volume in 0..10, the board in memory equal to the file, live rounds satisfying `Good`, the name buffer within bounds, each screen only in the versions that have it |
| Screens.PollMenusInv | main.py:498-503 | polls of the menu, mode-selection and name screens keep the invariant |
| Screens.PollRoundsInv | main.py:327-408 | polls of the play, pause and game-over screens keep the invariant |
| Screens.PollVersion | main.py:498-503 | a poll never changes the version |
| Screens.RunInv | main.py:498-503 | any run of polls keeps the invariant |
| Screens.EndsStay | main.py:488 | after the program exits, diverges or crashes nothing changes |
| Screens.QuitExits | main.py:173-474 | a window close anywhere in a poll ends the program on the menus, the leaderboard, the settings and the name entry; in play when no ESC comes before it, in the pause menu when no ESC follows it and no pause button is clicked, on the game-over screen when no R comes before it |
| Screens.NewGameStarts | main.py:480-481 | "Nuova Partita" opens the mode selection in `main.py` and starts a classic round in V5–V9 (`Old/main_V9.py:442-443`) |
| Screens.ModeChosen | main.py:451-452 | "Ostacoli Casuali" starts a round in OBSTACLES mode, even with ESC in the same poll |
| Screens.StartRoundFresh | main.py:309-325 | a round starts in the middle of the field, one cell long, score 0, heading right, or placement diverges |
| Screens.EscapeInPlay | main.py:361-373 | an ESC with no window close before it in the poll pauses from V8 on, keeping the steering of the keys before it, and returns to the menu in V5–V7 (`Old/main_V7.py:288`) |
| Screens.SteerThenPause | main.py:365-373 | a steering key read before ESC in the same poll is kept for the resumed round |
| Screens.EscapeResumes | main.py:288-301 | with no pause button clicked, a poll whose last window close or ESC is an ESC resumes, and the deferred tick runs in that poll; a poll with neither stays paused |
| Screens.PauseResumeClick | main.py:292-293 | "Riprendi" resumes, whatever keys came in the same poll |
| Screens.PauseExitClick | main.py:300-301 | "Esci dal Gioco" ends the program, whatever keys came in the same poll |
| Screens.PauseClickWins | main.py:298-299 | "Menu Principale" ends the round to the menu, whatever keys came in the same poll |
| Screens.PauseSettingsLeave | main.py:294-297 | leaving the modal settings returns to the pause menu, or ends it as a close or ESC before the click decided |
| Screens.VolumeOnlyInSettings | main.py:258-265 | only the two settings screens change the volume |
| Screens.TickVolume | main.py:377-408 | a tick never changes the volume |
| Screens.ScoreListSaved | Old/main_V5.py:276-282 | in V5 a round lost with points rewrites the list with the score saved; one without points writes nothing |
| Screens.BoardQualifies | main.py:330-335 | from V6 on the name entry opens, with an empty buffer, exactly when the score qualifies for the board in memory; otherwise the game-over screen shows |
| Screens.GameOverKeys | main.py:344-357 | an R with no window close before it restarts in the same mode, even after an M; without a close or R, an M goes to the menu (in V5 to its last play poll first) and otherwise the screen stays |
| Screens.MenuAfterPass | Old/main_V5.py:294-311 | in V5, after M the game loop runs one more play poll before it returns: a window close with no ESC before it exits, and any other poll (clicks included) lands on the menu |
| Screens.NameLeaves | main.py:172-183 | without a close, the last RETURN or ESC of any name-entry poll decides: RETURN shows the leaderboard, the file is written from the buffer at that RETURN and the board in memory is the added board; ESC goes to the menu |
| Screens.NameEscape | main.py:183 | any name-entry poll with an ESC and neither RETURN nor a close goes to the menu and changes nothing else |
| Screens.NameSubmitted | main.py:175-180 | a poll of just RETURN on the name entry saves the name, shows the leaderboard, and the board in memory is the added board |
| Screens.AfterNamesLeaves | main.py:178-180 | a name poll that chose the leaderboard shows it with the reloaded file |
| Classic.StartRoundInv | Old/main_V1.py:76-92 | a new round keeps the invariant and does not touch the high score |
| Classic.BootInv | Old/main_V4.py:90 | the program starts in a state satisfying the invariant |
| Classic.EnterOverInv | Old/main_V4.py:158-177 | entering the game-over screen keeps the invariant |
| Classic.PlayPollInv | Old/main_V1.py:116-166 | a play pass keeps the invariant |
| Classic.OverPollInv | Old/main_V1.py:104-114 | a game-over pass keeps the invariant |
| Classic.PollInv | Old/main_V1.py:94-166 | every pass keeps the invariant: live rounds satisfy `Good`, the sound has played exactly when the version has it and it loaded, and V3/V4's high score is what the file holds and at least the score just lost |
| Classic.PollVersion | Old/main_V1.py:94-166 | a pass never changes the version |
| Classic.RunInv | Old/main_V4.py:157-161 | any run keeps the invariant, and the high score never decreases |
| Classic.QuitSkipsSaving | Old/main_V4.py:191-204 | a window close or ESC during play ends the program without the game-over screen, so the high score file is untouched |
| Classic.BeatenHighScoreSaved | Old/main_V4.py:159-161 | a lost round that beat the high score becomes the high score and is written to the file, from which it reads back |
| Classic.UnbeatenKeepsFile | Old/main_V3.py:121-123 | a round that did not beat the high score leaves it and the file alone |
| Classic.OverKeys | Old/main_V1.py:104-114 | on the game-over screen an R anywhere in the poll restarts, even after a window close or Q; without an R a close or Q ends the program; otherwise the screen stays |
| Classic.OverKeyPolls | Old/main_V1.py:104-114 | the poll close-then-R restarts and the poll of just Q ends the program |
| Classic.OverSound | Old/main_V2.py:102-104 | V1 never plays the game-over sound; V2 on play it once, when the sound loaded |

## Left out

- HighScore.ParseInt, ScoreList.Accept: `int()`'s limit on the length of a digit string is not modelled. CPython 3.11 onwards raises `ValueError` on more than 4300 digits, and so do the security releases 3.7.14, 3.8.14, 3.9.14 and 3.10.7. Under such a Python, V4 would show a high score of 0 for such a file (`Old/main_V4.py:78-81`), and V5 would load an empty leaderboard (`Old/main_V5.py:94-97`). The model reads any length, as earlier Pythons do. The same limit on `str()` of so large a number is not modelled either, though the scores the game itself produces never come near it.
- Rendering, fonts, layout, the clock and the window: the `draw_*`, `display_*` and `blit` calls and `clock.tick`. `UI_FPS` is presentation only.
- Button geometry and hover detection through `pygame.mouse.get_pos()`: each frame carries the hovered button as an input. Only one button is ever hovered, because the buttons do not overlap.
- Audio: loading, `play()` and `set_volume()`. Only the volume value is kept, with V1–V4's `played` flag for the game-over sound.
- Floating point: the speed and volume are exact integers. Python's `round(..., 1)` on the volume is therefore not modelled.
- File I/O: `os.path.exists`, `open`, `json.load` and `json.dump`. The parsed value is an input and the written value an output. A write that fails with `IOError` is not modelled: every save succeeds.
- `random.randrange`: replaced by a sequence of candidate cells. The unbounded rejection loops become searches that fail when the candidates run out.
- The mouse-event flush after the modal settings (`main.py:296`). V8 lacks it; V8's pause loop also tests its later buttons after the modal settings closes (`Old/main_V8.py:286-292`). That re-test of the same click is not modelled, so V8's pause is modelled as V9's.
- V1–V4 run one more pass of their play loop after Q or a window close on the game-over screen (`Old/main_V1.py:104-132`). That pass can change the round's variables and play the eat sound, but nothing reads those variables afterwards: the loop ends, and the V3/V4 save sits inside the game-over loop, which is not entered again. The food placement in it cannot stall either, because its test never rejects a cell and V1–V4 have no obstacles. The pass is not modelled. V5's pass after M on the game-over screen (`Old/main_V5.py:294-335`) is modelled as the screen `LeavingRound`, but only its events: its move, its eat sound and its drawing are dropped, because the round is discarded when `game_loop` returns.
- The recursive restart `game_loop(); return` of V1–V5: R becomes a reset. Call-stack growth is not modelled.
- `main.py:484` assigns a function-local `leaderboard_data`, which affects only what is displayed. The board in memory is modelled as reloaded only where the global is assigned.
- Non-ASCII text: `isdigit`, `isalnum`, `isspace` and `int()` are modelled on ASCII characters. pygame's `event.unicode` is at most one character.
- Leaderboard.Records: a bool score read as 0/1 is written back as a number. Extra keys of a record are not kept when the board is rewritten.
- Snake.Round: the head variable after a collision is not kept. It is never read again before R resets it; `Play.Session` keeps it.
- ScoreList.Saved: states that the list holds only old scores and the new one, and the new one unless 10 higher scores fill it. It does not state that every old score above the cut is kept. `ScoreList.Ordered` and `ScoreList.StrictUnique` state the member set of the sorted, deduplicated list.
- Leaderboard.Accepted, ScoreList.AcceptAll: their own contracts state only length or sign. Soundness and completeness of the filter are the separate lemmas next to each.
