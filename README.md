# Flappy Bird core, modelled in Dafny

This project models the game logic of a pygame Flappy Bird clone, without its drawing:

- the screen-size presets and game constants (`code/settings.py`);
- the bird's free fall, jump and flap animation (`code/bird.py`);
- the pipe manager (`code/pipes.py`): it spawns pipe pairs, moves them, caps them at eight, drops the off-screen ones, credits a passed pipe once and detects collisions;
- the score system (`code/score_system.py`): the score, the floating "+1" messages, the high score, the name-entry form and the leaderboard rule (append, stable sort highest first, keep ten);
- the game controller (`code/game.py`): the state machine over running, paused, menu and countdown, the scrolling floor, the double-click pause, the per-frame update and the restart and menu buttons.

Modules follow the source files:

- `ScreenSettings` (settings.dfy);
- `Geometry` (geometry.dfy), pygame's `Rect` and `colliderect`;
- `BirdPhysics` (bird.dfy);
- `Pipes` (pipes.dfy);
- `Events` (events.dfy), the input events;
- `Sequences` (sequences.dfy), Python's `list.remove`;
- `Leaderboard` (leaderboard.dfy), the leaderboard rules of the score system;
- `Scoring` (scoring.dfy);
- `GameController` (game.dfy).

Objects that the Python code updates in place are classes, and their methods are proved against value-level functions:

- the bird is a class; its fall is stated by `Fall`;
- the pipe manager is a class; its lists are stated by `Advance`, `Visible` and `Without`;
- each score message is a class; the message list is stated by `Tick` over the messages' values;
- the score system and the game are classes.

The main invariants:

- A pipe is credited at most once over its whole life. The manager's `Valid` keeps a ghost set of every credited pipe. A credited pipe stays in `passedPipes` for as long as it is on screen.
- The score counts exactly the pipes credited in the current round (`Game.Valid`).
- The floor stays within one screen width.
- The leaderboard list is the first ten of a stable descending sort. A score qualifies for it exactly when adding it changes the board.

Where the code and its tests disagree, the model follows the code:

- `add_score` keeps ten entries (code/score_system.py:285). The test at testing/bird-test.py:156-163 expects seven.
- The eight-pipe cap applies only in `move_pipes` (code/pipes.py:73-74). `spawn_pipe` does not cap, although testing/bird-test.py:94-98 expects it to.

The model uses the following values in place of the runtime environment:

- **The clock.** `time.time()` becomes a `now` parameter in milliseconds. The countdown is 3000 ms and the double-click interval 400 ms.
- **Random pipe heights.** `random.choice` becomes the height index that a `SpawnPipeTimer` event carries.
- **The event queue.** It becomes a sequence of `Event` values.
- **The keyboard.** `pg.key.get_pressed()[K_SPACE]` becomes a `spaceHeld` parameter.
- **Mouse geometry.** Whether a click hit the name box or the submit button is carried by the click event.
- **Sprite sizes and the display height.** These are constructor parameters.
- **The leaderboard file.** Its "scores" list is the `leaderboard` field of the score system. `get_leaderboard_scores` is a function of the stored file's contents.

## Model

| member | source | states |
|---|---|---|
| ScreenSettings.PresetTable | code/settings.py:12-16 | exactly the three presets small 480x720, medium 600 x (display height - 85) and large 720x1200 |
| ScreenSettings.PresetScaleFactors | code/settings.py:42-49 | the presets scale by 0.8, 1 and 1.2 relative to the medium width |
| ScreenSettings.Settings.ValidWidth | code/settings.py:44-50 | in every reachable state the width is a preset width and the scale factor is 0.8, 1 or 1.2 |
| ScreenSettings.Settings.constructor | code/settings.py:4-42 | starts at "medium", 600 wide, display height - 85 tall, scale 1 |
| ScreenSettings.Settings.UpdateScreenSize | code/settings.py:44-51 | true iff the name is a preset; then size, dimensions and scale factor switch together; otherwise nothing changes |
| Geometry.Rect.ShiftedLeft | code/pipes.py:70 | `centerx -= d` moves only the horizontal position, by exactly d |
| Geometry.AtCenter | code/bird.py:18 | `get_rect(center=...)` has the given centre and size |
| Geometry.AtMidTop | code/pipes.py:58 | `get_rect(midtop=...)` has the given centre x and top |
| Geometry.AtMidBottom | code/pipes.py:59 | `get_rect(midbottom=...)` has the given centre x and bottom |
| Geometry.Collide | code/pipes.py:95 | `colliderect` holds iff some point lies strictly inside both rectangles |
| Geometry.CollideProperties | code/pipes.py:95 | `colliderect` is symmetric, rectangles that only share an edge do not collide, and two non-empty rectangles with the same corner do |
| BirdPhysics.FallNClosedForm | code/bird.py:64-67 | after n ticks of free fall the velocity grows by n * 0.25 and the centre moves by n * v0 + 0.25 * n(n+1)/2 |
| BirdPhysics.VelocityStrictlyIncreases | code/bird.py:64-67 | without a jump the velocity strictly increases from tick to tick |
| BirdPhysics.FallFromRest | code/bird.py:64-67 | from rest, one tick moves the bird down by exactly gravity |
| BirdPhysics.Fall | code/bird.py:64-67 | one tick adds gravity to the velocity, then moves the centre by the new velocity |
| BirdPhysics.NextFrame | code/bird.py:75 | the frame index stays below three |
| BirdPhysics.FrameCycle | code/bird.py:73-81 | the frame index steps 0 to 1 to 2 and back to 0: it never stays put and returns after three flaps |
| BirdPhysics.Bird.Box | code/bird.py:77-81 | the bird's rect is centred on the bird's centre |
| BirdPhysics.Bird.constructor | code/bird.py:4-18 | a new bird rests at (width // 5, height // 2) on frame 0 |
| BirdPhysics.Bird.Update | code/bird.py:64-67 | gravity is added first and the centre then moves by the new velocity; nothing else changes |
| BirdPhysics.Bird.Jump | code/bird.py:69-71 | the velocity becomes -6 whatever it was; the position is kept |
| BirdPhysics.Bird.FlapAnimation | code/bird.py:73-81 | the frame advances cyclically and the centre is kept |
| BirdPhysics.Bird.Reset | code/bird.py:93-96 | the bird is at rest at the spawn point of the current size |
| Pipes.PipeHeights | code/pipes.py:16-20 | three candidate heights |
| Pipes.CreatePair | code/pipes.py:44-61 | the bottom pipe's top is at the chosen height, the top pipe's bottom is height // 3 above it, and both are centred 100 px right of the screen |
| Pipes.LastAtMost | code/pipes.py:73-74 | `ps[-n:]` keeps the newest min(n, len) pipes |
| Pipes.LastAtMostMoved | code/pipes.py:67-74 | moving then capping equals capping then moving |
| Pipes.MovedAll | code/pipes.py:69-70 | every pipe moves left by d, in order |
| Pipes.Advance | code/pipes.py:67-74 | after `move_pipes` pipe i is the i-th of the newest eight, moved left by 5 * scale |
| Pipes.AdvanceIsMoveThenCap | code/pipes.py:67-74 | `Advance` is moving every pipe, then keeping the newest eight |
| Pipes.AdvanceKeepsInvariant | code/pipes.py:67-74 | moving and capping keeps identifiers distinct and handed out, and keeps every live credited pipe in `passed_pipes` |
| Pipes.AdvanceKeepsIds | code/pipes.py:67-74 | moving and capping invents no pipe |
| Pipes.AdvanceKeepsDistinct | code/pipes.py:67-74 | moving and capping repeats no pipe |
| Pipes.AdvanceIdBound | code/pipes.py:67-74 | every surviving pipe was there before |
| Pipes.Visible | code/pipes.py:76-82 | the kept pipes are exactly the on-screen ones (centre x > -100), in order, without repeats |
| Pipes.VisibleStep | code/pipes.py:79-81 | one `remove` of an off-screen pipe extends the filtered prefix by one position |
| Pipes.PassedStep | code/pipes.py:79-82 | one loop step removes the dropped pipe from `passed_pipes` when it is there |
| Pipes.RemovalKeepsCredit | code/pipes.py:76-82 | after the removal a credited pipe is still in `passed_pipes` or no longer live |
| Pipes.CreditableAfterRemoval | code/pipes.py:76-90 | dropping off-screen pipes from `passed_pipes` does not change which live pipe can score |
| Pipes.Spawned | code/pipes.py:41-42 | n spawns append 2n pipes with consecutive identifiers |
| Pipes.ShiftPipes | code/pipes.py:70 | the loop moves every pipe left by d |
| Pipes.MoveAndCap | code/pipes.py:67-74 | the loop and the slice of `move_pipes` give the newest eight of the moved pipes |
| Pipes.KeepNewest | code/pipes.py:72-74 | the slice keeps the last eight pipes of a longer list and the whole list otherwise |
| Pipes.DropOffscreen | code/pipes.py:76-82 | the loop over the copy leaves exactly the visible pipes and removes every dropped pipe from `passed_pipes` |
| Pipes.PipeManager.constructor | code/pipes.py:5-20 | no pipes and nothing passed |
| Pipes.PipeManager.SpawnPipe | code/pipes.py:41-42 | one new pair is appended, with no cap |
| Pipes.PipeManager.MovePipes | code/pipes.py:67-74 | pipes become `Advance` of the old pipes and the invariant is kept |
| Pipes.PipeManager.RemoveOffscreenPipes | code/pipes.py:76-82 | pipes become the visible ones and `passed_pipes` loses exactly the dropped ones |
| Pipes.PipeManager.Update | code/pipes.py:63-65 | move, then remove off-screen pipes |
| Pipes.PipeManager.AdvanceAndScore | code/game.py:178-181 | after the pipes advance, a point is scored iff some live pipe is left of the bird, reaches the floor and was not passed before; then exactly one more pipe is credited |
| Pipes.CreditableFrom | code/pipes.py:86-90 | some pipe from position i on is left of the bird, reaches the floor and is not yet passed: the condition of the loop of `check_score` |
| Pipes.CreditableFromIff | code/pipes.py:86-90 | `CreditableFrom` holds iff some pipe at or after position i is creditable |
| Pipes.PipeManager.CheckScore | code/pipes.py:84-90 | true iff some pipe is left of the bird, reaches the floor and is not yet passed; then the first such pipe is appended to `passed_pipes` and had never been credited before |
| Pipes.PipeManager.CheckCollision | code/pipes.py:92-96 | true iff the bird's rect collides with some pipe |
| Pipes.PipeManager.Reset | code/pipes.py:110-113 | both lists become empty |
| Sequences.RemoveFirst | code/pipes.py:81 | `list.remove` shortens the list by one when the element is there |
| Sequences.RemoveFirstAt | code/pipes.py:81 | `remove` deletes the first occurrence, keeping the rest in order |
| Sequences.RemoveFirstDistinct | code/score_system.py:66 | on a list without duplicates `remove` deletes every occurrence and keeps the list duplicate-free |
| Sequences.Without | code/pipes.py:82 | filtering out a set keeps exactly the other elements and keeps the list duplicate-free |
| Sequences.RemoveFirstIsWithout | code/pipes.py:82 | removing elements one by one equals filtering out their set |
| Sequences.WithoutAbsent | code/pipes.py:82 | removing an absent element changes nothing |
| Leaderboard.TrimStart | code/score_system.py:266 | `lstrip` removes a prefix made only of whitespace and leaves a non-space first character |
| Leaderboard.TrimEnd | code/score_system.py:266 | `rstrip` removes a suffix made only of whitespace and leaves a non-space last character |
| Leaderboard.Strip | code/score_system.py:266 | `strip()` is no longer than the name and has no whitespace at either end |
| Leaderboard.StripKeepsMiddle | code/score_system.py:266 | `strip()` keeps a middle part with only whitespace on both sides of it |
| Leaderboard.StripEmptyIff | code/score_system.py:266 | `strip()` gives "" iff every character is whitespace |
| Leaderboard.NormalizeName | code/score_system.py:266 | a blank name becomes "Player", any other is kept as typed; the result is never blank |
| Leaderboard.NormalizeNameStrips | code/score_system.py:266 | the name rule is exactly `if not name.strip(): name = "Player"` |
| Leaderboard.InsertPos | code/score_system.py:277-282 | the insertion point has every earlier score >= the new one and the next score < it |
| Leaderboard.InsertDesc | code/score_system.py:277-282 | inserting adds one entry |
| Leaderboard.InsertDescAt | code/score_system.py:277-282 | inserting keeps the entries before the point, puts e at it and shifts the rest down by one |
| Leaderboard.InsertDescSorted | code/score_system.py:277-282 | inserting into a descending list keeps it descending |
| Leaderboard.InsertDescPermutes | code/score_system.py:277-282 | inserting adds exactly e |
| Leaderboard.SortDesc | code/score_system.py:277-282 | the stable descending sort keeps the length |
| Leaderboard.SortDescOrdered | code/score_system.py:277-282 | the sort is descending by score |
| Leaderboard.SortDescPermutes | code/score_system.py:277-282 | the sort is a permutation of its input |
| Leaderboard.SortDescStable | code/score_system.py:277-282 | the sort is stable: for every score, entries with that score keep their relative order, as in Python's `sorted` |
| Leaderboard.InsertDescStable | code/score_system.py:277-282 | inserting puts e behind every entry with the same score |
| Leaderboard.SortDescSorted | code/score_system.py:277-282 | sorting an already sorted list changes nothing |
| Leaderboard.Take | code/score_system.py:285 | `s[:n]` is the prefix of length min(n, len) |
| Leaderboard.AfterAdd | code/score_system.py:264-286 | `add_score`'s list: at most ten entries, sorted highest first |
| Leaderboard.AfterAddProperties | code/score_system.py:264-286 | the new list is sorted, has min(len + 1, 10) entries, holds only old entries and the new one, and is a prefix of a stable descending sort of old + [new] |
| Leaderboard.TopScores | code/score_system.py:289-292 | `get_top_scores` is a prefix; on a sorted list nothing left out beats what is returned |
| Leaderboard.MinScore | code/score_system.py:297 | `min` is a lower bound attained by some entry |
| Leaderboard.IsHighScore | code/score_system.py:294-297 | true when the board has fewer than ten entries; on a full sorted board, iff the score beats the tenth |
| Leaderboard.HighScoreIff | code/score_system.py:294-297 | a score qualifies iff the top ten has room or some entry of it has a lower score |
| Leaderboard.SortDescSortedAppend | code/score_system.py:275-282 | sorting a sorted board with one new entry inserts it |
| Leaderboard.NotQualifyingKeepsBoard | code/score_system.py:264-297 | on a board `add_score` left behind, a non-qualifying score leaves the board unchanged |
| Leaderboard.QualifyingPlacement | code/score_system.py:264-297 | a qualifying entry lands at its rank, the entries before it stay, the rest shift down, and the last falls off a full board |
| Leaderboard.TakeInsert | code/score_system.py:284-285 | cutting an insertion at n keeps e and the shifted entries when e lands within n |
| Leaderboard.QualifiesIffBoardChanges | code/score_system.py:264-297 | on such a board `is_high_score` holds iff `add_score` would change the board |
| Leaderboard.AfterAddWithRoom | code/score_system.py:275-285 | with room left, adding to a sorted board is inserting |
| Leaderboard.TwoSubmissions | code/score_system.py:264-286 | two submissions with non-increasing scores keep their order; an equal score goes behind |
| Leaderboard.ThreeSubmissions | testing/bird-test.py:145-154 | submitting high, low, middle yields high, middle, low for any three scores |
| Leaderboard.InsertBetween | code/score_system.py:277-282 | a middle score goes between the two entries of a list |
| Scoring.Tick | code/score_system.py:62-66 | after one update every remaining message has lifetime > 0 and there are no more messages than before |
| Scoring.Aged | code/score_system.py:14-16 | one update: same x, one pixel up, one tick shorter |
| Scoring.TickOne | code/score_system.py:62-66 | a lone message survives an update iff it had more than one tick left |
| Scoring.TickAppend | code/score_system.py:62-66 | the update is message by message and keeps order |
| Scoring.TickMembers | code/score_system.py:62-66 | a message survives iff it had more than one tick left, and it comes out aged |
| Scoring.MessageLifespan | code/score_system.py:9-16 | a message with lifetime L rises one pixel per update for L - 1 updates and is removed by the L-th |
| Scoring.ScoreMessage.constructor | code/score_system.py:9-12 | a new message has lifetime 60 at (x, y) |
| Scoring.ScoreMessage.Update | code/score_system.py:14-16 | one tick shorter, one pixel up |
| Scoring.ScoreMessage.IsExpired | code/score_system.py:24-25 | expired iff the lifetime is at most 0 |
| Scoring.Survivors | code/score_system.py:64-66 | the surviving messages come from the list and stay duplicate-free |
| Scoring.SurvivorStep | code/score_system.py:64-66 | one loop step over the copy removes the expired message, or keeps a live one |
| Scoring.ViewsOfSurvivors | code/score_system.py:62-66 | once every message has aged, the survivors' states are `Tick` of the old states |
| Scoring.EditName | code/score_system.py:222-226 | Backspace drops the last character; another key appends its text while the name is shorter than 15 |
| Scoring.NameLengthBound | code/score_system.py:225-226 | typing one character at a time never makes a name longer than 15 |
| Scoring.AgeOne | code/score_system.py:65-66 | one loop iteration updates message i and extends the processed prefix |
| Scoring.AgeMessages | code/score_system.py:62-66 | the loop leaves a duplicate-free sublist whose states are `Tick` of the old states |
| Scoring.Submit | code/score_system.py:230-237 | with the form open and a positive score, the entry is added, the form closes and the name clears; otherwise nothing changes |
| Scoring.InputStep | code/score_system.py:190-228 | one event of `handle_input_events`: a closed form ignores it, no event opens the form, and only a submission changes the board |
| Scoring.InputStepProperties | code/score_system.py:190-228 | a closed form ignores events; the event submits iff it is a submit click or Return in a focused box; a non-submitting event keeps the form open and the board unchanged |
| Scoring.ScoreSystem.constructor | code/score_system.py:28-42 | score 0, no messages, the form closed, and the high score is the top stored score, or 0 |
| Scoring.ScoreSystem.IncreaseScore | code/score_system.py:58 | the score goes up by one; nothing else changes |
| Scoring.ScoreSystem.AddScoreMessage | code/score_system.py:60 | a fresh message with full lifetime is appended |
| Scoring.ScoreSystem.MessagesTick | code/game.py:182-193 | the scored point's message is added, then all messages take one `Tick` |
| Scoring.ScoreSystem.UpdateScoreMessages | code/score_system.py:62-66 | the messages' states take one `Tick`; no message is created |
| Scoring.ScoreSystem.AddScore | code/score_system.py:264-287 | the board becomes `AfterAdd` of the old board with the normalised name |
| Scoring.ScoreSystem.UpdateHighScore | code/score_system.py:299-306 | the high score becomes the maximum; the form opens, focused, iff the score qualifies and is positive |
| Scoring.ScoreSystem.SubmitScore | code/score_system.py:230-237 | true iff the form is open and the score is positive; then one entry is added, the form closes and the name clears; otherwise nothing changes |
| Scoring.ScoreSystem.ResetScore | code/score_system.py:308-313 | score 0, no messages, the form closed, the name cleared; the high score and the board are kept |
| Scoring.ScoreSystem.HandleInputEvent | code/score_system.py:190-228 | the outcome of each event kind: a click focuses the box or submits, and with the box focused Return submits and other keys edit the name; a click that does not submit leaves the form open; a positive submission closes it and clears the name; a closed form ignores everything |
| GameController.Trunc | code/game.py:172 | Python's `int()` truncates toward zero |
| GameController.FloorStep | code/game.py:170-173 | the floor stays within one screen width; it does not move at scale 0.8 and moves one pixel at scale 1 and 1.2 |
| GameController.FloorCycle | code/game.py:170-173 | at scale 1 or 1.2 the floor is at -(n mod width) after n ticks |
| GameController.LeaderboardScores | code/game.py:356-379 | the "scores" list, else the "leaderboard" list, else nothing; a missing or unreadable file gives nothing |
| GameController.StoredBoardReadsBack | code/game.py:362-376 | the list the score system writes under "scores" is read back as written, and the default file reads as empty |
| GameController.HitsPipe | code/pipes.py:92-96 | the bird hits a pipe iff some pipe of the list collides with its rect |
| GameController.HitsPipeAppend | code/pipes.py:92-96 | hits in a concatenated list are hits in one part or the other |
| GameController.OutOfBounds | code/game.py:203-206 | a bird inside the bounds lies strictly between the ceiling line -100 and the floor line; a sprite as tall as that band is always out |
| GameController.UpToQuit | code/game.py:130-131 | the events handled are those before the first Quit |
| GameController.PlayStep | code/game.py:133-151 | one event of the round half of the loop: outside a round or during the countdown the pause and the click time stay; the click time stays or becomes `now`; at most one pair is spawned, and none outside a round or while paused; the frame stays or steps |
| GameController.PlayRun | code/game.py:133-151 | the events in order: the spawned pairs only grow, by at most one per event, and the click time is the old one or `now` |
| GameController.PlayRunIdle | code/game.py:133-151 | outside a round no event pauses, records a click or spawns a pipe; during the countdown nothing pauses |
| GameController.TwoClicksInOneQueue | code/game.py:128-151 | all events of one pass share one clock reading, so a second left click in the same queue always toggles the pause |
| GameController.FormStep | code/game.py:153-157 | one event of the form half of the loop: a closed form and a form outside the game-over screen stay as they are, and no event opens the form |
| GameController.FormRun | code/game.py:153-157 | the events in order: a closed or unrouted form stays as it is, and the events never open the form |
| GameController.FormRunAfterClose | code/game.py:153-157 | once a submission closes the form, the rest of the queue leaves the form and the board alone |
| GameController.Game.constructor | code/game.py:13-50 | the game starts in the menu with no pipes and a zero score |
| GameController.Game.StartCountdown | code/game.py:86-89 | the countdown starts now |
| GameController.Game.UpdateCountdown | code/game.py:91-102 | after 3 s the round starts with the bird reset; before that nothing changes |
| GameController.Game.PlayEvent | code/game.py:133-151 | P and a double left click toggle the pause during a round; every left click restarts the interval; the pipe timer spawns a pair during an unpaused round; the flap timer advances the frame unless paused |
| GameController.Game.FormEvent | code/game.py:153-157 | after a round the event goes to the name form: a click focuses the box or submits and closes the form, Return submits, other keys edit the name; during a round or in the menu the form is untouched |
| GameController.Game.RoundEvent | code/game.py:133-151 | one event extends the round state by one `PlayStep` |
| GameController.Game.HandleEvent | code/game.py:129-157 | one pass of the loop: one `PlayStep`, then one `FormStep` |
| GameController.Game.HandleEvents | code/game.py:127-162 | returns quit iff a Quit is queued; the pause flag, the last click time, the frame and the spawned pairs are `PlayRun` of the events before the first Quit, and the name form is `FormRun` of them; events never start or end a round; the bird jumps iff space is held in an unpaused round; the score, the high score, the messages and the countdown start are kept |
| GameController.Game.CheckCollisions | code/game.py:200-208 | safe iff no pipe is hit and the bird's top is below -100 and its bottom above the floor line |
| GameController.Game.ScorePipes | code/game.py:177-183 | the pipes advance, and the score rises by one iff a live pipe left of the bird, reaching the floor and not passed before is credited |
| GameController.Game.EndIfCrashed | code/game.py:195-198 | the round ends iff the bird crashed; the high score then becomes the larger of the two, and the form opens and takes focus iff the score qualifies and is positive; otherwise the form is as it was |
| GameController.Game.FallAndAge | code/game.py:184-193 | the bird falls one tick; the message list becomes `Tick` of the old states plus the new message at (x + 20, y - 30) |
| GameController.Game.FinishTick | code/game.py:185-198 | the bird falls, the messages become `Tick` of the old ones plus the new one, and the round ends iff the bird crashed, with the high score and the form settled as by `update_high_score` |
| GameController.Game.PlayTick | code/game.py:177-198 | an unpaused tick: the pipes advance, the score rises iff a pipe is passed, the messages become `Tick` of the old ones plus the new "+1" exactly when it scored, the bird falls, and the round ends iff it crashed; a crash settles the high score and opens the form iff the score qualifies and is positive |
| GameController.Game.ScrollFloor | code/game.py:170-173 | the floor takes one `FloorStep`; no flag changes |
| GameController.Game.PlayIfRunning | code/game.py:175-198 | an idle or paused game changes nothing at all, message objects included; an unpaused round takes one `PlayTick`, so the messages become exactly `Tick` of the old ones plus the new "+1" when a pipe was passed, and the game stays unpaused, out of the menu and the countdown, with the bird's x and frame kept, crash or not; the high score and the form change only on a crash, as `update_high_score` sets them |
| GameController.Game.RunningTick | code/game.py:169-198 | outside the countdown the floor steps; an idle or paused game changes nothing else, message objects included; an unpaused round advances and stays unpaused, out of the menu and the countdown, with the bird's x and frame kept; a crash only ends the round and settles the high score and the form as `update_high_score` does; the click and countdown times are kept |
| GameController.Game.Update | code/game.py:164-198 | during the countdown only the countdown runs: once it has elapsed the round starts with the bird reset, before that nothing changes; the pause, the bird's frame and every message object are kept either way; otherwise the floor steps, and the rest changes only during an unpaused round, which stays unpaused and out of the menu with the bird's x and frame kept, and where the score and the messages change exactly when a pipe is passed; a paused or idle game keeps every message object; the high score and the form change only on a crash, as `update_high_score` sets them |
| GameController.Game.RestartGame | code/game.py:381-387 | a new unpaused round with no pipes, a resting bird, a zero score, no messages, and the name form closed with the name cleared; the high score, the board and the click and countdown times are kept |
| GameController.Game.ReturnToMenu | code/game.py:389-396 | back to the menu with no round running, the world cleared as for a restart and the name form closed with the name cleared; the high score, the board and the click and countdown times are kept |

## Left out

- Drawing, fonts, images, the blinking cursor, `rotate_bird` and everything in code/interface.py and code/leaderboard.py (buttons and their hit tests) are not part of this model. Which button was pressed is decided by the caller.
- `resize_game` and the `resize` methods of bird, pipes and score system are left out. So is the pixel arithmetic they redo (sprite scaling, relative bird position).
- pygame stores `Rect` coordinates as whole pixels and rounds the bird's centre after each fall. The model keeps exact real coordinates, so gravity 0.25 accumulates without rounding.
- Python compares pipe `Rect`s by value in `in` and `remove`. The model gives each pipe an identifier that stands for the rectangle object. The two differ whenever two pipes share coordinates, in two cases. First, two live pipes with identical coordinates. Second, a stale entry: the cap of eight pipes (code/pipes.py:73-74) drops the oldest pipes without taking them out of `passed_pipes`, so each dropped pipe stays there with its last coordinates. The model keeps those stale identifiers in `passedPipes` too. In Python, a later pipe whose coordinates equal a stale entry at the moment it could score counts as already passed (code/pipes.py:87) and never scores. The model credits it.
- GameController.Game.RestartGame, GameController.Game.ReturnToMenu and GameController.Game.StartCountdown require the state in which their buttons are drawn (code/game.py:221-263). The drawing code that guards them is left out.
- A Quit event ends the process in the source (`sys.exit`). `HandleEvents` returns `quit` and stops processing events.
- Reading and writing the leaderboard file, and its error handling, are not modelled. The score system works on the stored "scores" list directly.
- Sequences.RemoveFirst: returns the list unchanged for an absent element where Python's `remove` raises. The model's callers only remove elements that are present.
- GameController.Game.FallAndAge: takes the message position before the bird falls, as `update` does. It does not model the integer rounding of `centery`.
- GameController.Game.Update: states only that at most one message is added per tick. The state of the new message is stated by GameController.Game.RunningTick and the exact list by GameController.Game.PlayIfRunning and GameController.Game.PlayTick.
