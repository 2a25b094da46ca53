/** The game controller (code/game.py) without its drawing: a state machine
    over the flags `game_active`, `game_paused`, `in_start_menu` and
    `countdown_active`, the scrolling floor and the double-click clock, which
    drives the bird, the pipes and the score system. The clock is an explicit
    `now` in milliseconds and the event queue a sequence of `Event` values. */
module GameController {
  import opened Geometry
  import opened ScreenSettings
  import opened BirdPhysics
  import opened Pipes
  import opened Leaderboard
  import opened Events
  import opened Scoring
  import opened Sequences

  /** The countdown before a round lasts three seconds. */
  const CountdownMs: int := 3000

  /** The bird is out of bounds once its top reaches this line. */
  const CeilingY: real := -100.0

  /** A "+1" message appears this far right of and above the bird's centre. */
  const MessageDx: int := 20
  const MessageDy: real := 30.0

  /** Python's `int()` on a number: truncation toward zero. */
  function Trunc(x: real): (r: int)
    ensures x >= 0.0 ==> r >= 0 && r as real <= x < r as real + 1.0
    ensures x < 0.0 ==> r <= 0 && r as real - 1.0 < x <= r as real
  {
    if x >= 0.0 then x.Floor else -((-x).Floor)
  }

  /** The floor line, `height - height // 10`. */
  function FloorLine(height: int): int
  {
    height - height / 10
  }

  /** One step of the scrolling floor: it moves left by `int(1 * scale)` and
      jumps back to 0 once it has moved a whole screen width. Started at or
      left of 0 it stays within one screen width; at a scale below 1 (the
      small screen) it does not move at all. */
  function FloorStep(pos: int, scale: real, width: int): (r: int)
    ensures pos <= 0 && scale >= 0.0 && width > 0 ==> -width < r <= 0
    ensures 0.0 <= scale < 1.0 && -width < pos ==> r == pos
    ensures 1.0 <= scale < 2.0 && -width < pos - 1 ==> r == pos - 1
  {
    var p := pos - Trunc(1.0 * scale);
    if p <= -width then 0 else p
  }

  /** n floor steps. */
  function FloorSteps(pos: int, scale: real, width: int, n: nat): int
  {
    if n == 0 then pos else FloorStep(FloorSteps(pos, scale, width, n - 1), scale, width)
  }

  /** At scale 1 and 1.2 the floor moves one pixel per tick and returns to 0
      every `width` ticks. */
  lemma {:induction false} FloorCycle(scale: real, width: int, n: nat)
    requires 1.0 <= scale < 2.0 && width > 0
    ensures FloorSteps(0, scale, width, n) == -(n % width)
  {
    if n > 0 {
      FloorCycle(scale, width, n - 1);
      var q, r := (n - 1) / width, (n - 1) % width;
      assert n - 1 == q * width + r && 0 <= r < width;
      assert FloorSteps(0, scale, width, n) == FloorStep(-r, scale, width);
      assert Trunc(1.0 * scale) == 1;
      if r == width - 1 {
        ModUnique(n, width, q + 1, 0);
      } else {
        ModUnique(n, width, q, r + 1);
      }
    }
  }

  /** The remainder is the unique r in [0, w) with n = k * w + r. */
  lemma ModUnique(n: int, w: int, k: int, r: int)
    requires w > 0 && 0 <= r < w && n == k * w + r
    ensures n % w == r
  {
    var q, m := n / w, n % w;
    assert n == q * w + m && 0 <= m < w;
    assert (q - k) * w == r - m;
    if q - k >= 1 {
      assert false;
    } else if q - k <= -1 {
      assert false;
    }
  }

  /** What the leaderboard file holds when the game reads it: no file, a file
      that cannot be read, or a record mapping keys to lists of entries. */
  datatype StoredBoard = Missing | Unreadable | Record(data: map<string, seq<Entry>>)

  /** The list `get_leaderboard_scores` shows: the "scores" key, else the
      older "leaderboard" key, else nothing; a missing or unreadable file
      shows nothing. */
  function LeaderboardScores(f: StoredBoard): (r: seq<Entry>)
    ensures !f.Record? ==> r == []
    ensures f.Record? && "scores" in f.data ==> r == f.data["scores"]
    ensures f.Record? && "scores" !in f.data && "leaderboard" in f.data ==> r == f.data["leaderboard"]
    ensures f.Record? && "scores" !in f.data && "leaderboard" !in f.data ==> r == []
  {
    match f
    case Record(data) =>
      if "scores" in data then data["scores"]
      else if "leaderboard" in data then data["leaderboard"]
      else []
    case _ => []
  }

  /** Whatever else the record holds, the list the score system writes under
      "scores" is the list the leaderboard screen reads back, and the default
      file the score system creates reads as an empty board. */
  lemma StoredBoardReadsBack(data: map<string, seq<Entry>>, board: seq<Entry>)
    ensures LeaderboardScores(Record(data["scores" := board])) == board
    ensures LeaderboardScores(Record(map["scores" := []])) == []
  {
  }

  /** The bird touches a pipe: some pipe of the list collides with it. */
  predicate HitsPipe(ps: seq<Pipe>, box: Rect): (r: bool)
    ensures r <==> exists p :: p in ps && Collide(box, p.rect)
  {
    exists k :: 0 <= k < |ps| && Collide(box, ps[k].rect)
  }

  /** The pipes hit by the bird are hit in one part of the list or the
      other; an empty list is never hit. */
  lemma HitsPipeAppend(ps: seq<Pipe>, qs: seq<Pipe>, box: Rect)
    ensures !HitsPipe([], box)
    ensures HitsPipe(ps + qs, box) <==> HitsPipe(ps, box) || HitsPipe(qs, box)
  {
    if HitsPipe(ps + qs, box) {
      var k :| 0 <= k < |ps + qs| && Collide(box, (ps + qs)[k].rect);
      if k >= |ps| {
        assert (ps + qs)[k] == qs[k - |ps|];
      }
    }
    if HitsPipe(ps, box) {
      var k :| 0 <= k < |ps| && Collide(box, ps[k].rect);
      assert (ps + qs)[k] == ps[k];
    }
    if HitsPipe(qs, box) {
      var k :| 0 <= k < |qs| && Collide(box, qs[k].rect);
      assert (ps + qs)[|ps| + k] == qs[k];
    }
  }

  /** The bird is above the ceiling line or down on the floor line. A bird
      inside the bounds fits strictly between the two lines, so a sprite at
      least as tall as that band is out of bounds wherever it is. */
  predicate OutOfBounds(box: Rect, height: int): (r: bool)
    ensures !r ==> CeilingY < box.top && box.Bottom() < FloorLine(height) as real
    ensures box.height as real >= FloorLine(height) as real - CeilingY ==> r
  {
    box.top <= CeilingY || box.Bottom() >= FloorLine(height) as real
  }

  /** The position of the first quit event of a queue, or its length when
      there is none. */
  function QuitAt(events: seq<Event>): (n: nat)
    ensures n <= |events| && Quit !in events[..n]
    ensures n < |events| ==> events[n] == Quit
  {
    if events == [] || events[0] == Quit then 0
    else
      var m := QuitAt(events[1..]);
      assert events[..m + 1] == [events[0]] + events[1..][..m];
      m + 1
  }

  /** The events `handle_events` processes from a queue: those before the
      first quit event (the quit ends the program). */
  function UpToQuit(events: seq<Event>): (r: seq<Event>)
    ensures |r| <= |events| && Quit !in r && r == events[..|r|]
    ensures |r| < |events| ==> events[|r|] == Quit
  {
    events[..QuitAt(events)]
  }

  /** A queue whose first quit event is at position i (or that has none,
      i = |events|) is processed up to i. */
  lemma UpToQuitIs(events: seq<Event>, i: nat)
    requires i <= |events| && Quit !in events[..i] && (i < |events| ==> events[i] == Quit)
    ensures UpToQuit(events) == events[..i]
  {
  }

  /** The part of the game state that the round half of the event loop
      changes: the pause flag, the time of the last click, the height choices
      of the pairs spawned so far and the bird's frame. */
  datatype Round = Round(paused: bool, lastClick: int, spawned: seq<HeightIndex>, frame: nat)

  /** The round half of one pass of the event loop, at clock `now`, with the
      round running (`active`) or not and the countdown on or not. */
  function PlayStep(r: Round, e: Event, now: int, active: bool, countdown: bool): (s: Round)
    ensures !active || countdown ==> s.paused == r.paused && s.lastClick == r.lastClick
    ensures s.lastClick == r.lastClick || s.lastClick == now
    ensures r.spawned <= s.spawned && |s.spawned| <= |r.spawned| + 1
    ensures !active || r.paused ==> s.spawned == r.spawned
    ensures s.frame == r.frame || s.frame == NextFrame(r.frame)
  {
    var playing := active && !countdown;
    match e
    case KeyDown(key, _) => if key == KeyP && playing then r.(paused := !r.paused) else r
    case SpawnPipeTimer(choice) => if active && !r.paused then r.(spawned := r.spawned + [choice]) else r
    case BirdFlapTimer => if !r.paused then r.(frame := NextFrame(r.frame)) else r
    case MouseDown(button, _, _) =>
      if button == LeftButton && playing then
        r.(paused := if now - r.lastClick < DoubleClickIntervalMs then !r.paused else r.paused, lastClick := now)
      else r
    case _ => r
  }

  /** The round half of the loop over a run of events, in order. */
  function PlayRun(r: Round, events: seq<Event>, now: int, active: bool, countdown: bool): (s: Round)
    ensures r.spawned <= s.spawned && |s.spawned| <= |r.spawned| + |events|
    ensures s.lastClick == r.lastClick || s.lastClick == now
  {
    if events == [] then r
    else PlayStep(PlayRun(r, events[..|events| - 1], now, active, countdown), events[|events| - 1], now, active, countdown)
  }

  /** The run over one more event is one more step. */
  lemma PlayRunSnoc(r: Round, events: seq<Event>, i: nat, now: int, active: bool, countdown: bool)
    requires i < |events|
    ensures PlayRun(r, events[..i + 1], now, active, countdown) ==
            PlayStep(PlayRun(r, events[..i], now, active, countdown), events[i], now, active, countdown)
  {
    assert events[..i + 1][..i] == events[..i];
  }

  /** A step only ever adds to the spawned choices: it acts on the rest of
      the round state as it would with none spawned yet. */
  lemma PlayStepSplit(r: Round, e: Event, now: int, active: bool, countdown: bool)
    ensures var step, next := PlayStep(r.(spawned := []), e, now, active, countdown), PlayStep(r, e, now, active, countdown);
            && next.paused == step.paused && next.lastClick == step.lastClick && next.frame == step.frame
            && next.spawned == if e.SpawnPipeTimer? && active && !r.paused then r.spawned + [e.choice] else r.spawned
  {
  }

  /** Outside a round the event loop never pauses, never records a click and
      never spawns a pipe; during the countdown it never pauses either. */
  lemma {:induction false} PlayRunIdle(r: Round, events: seq<Event>, now: int, active: bool, countdown: bool)
    requires !active || countdown
    ensures PlayRun(r, events, now, active, countdown).paused == r.paused
    ensures PlayRun(r, events, now, active, countdown).lastClick == r.lastClick
    ensures !active ==> PlayRun(r, events, now, active, countdown).spawned == r.spawned
  {
    if events != [] {
      PlayRunIdle(r, events[..|events| - 1], now, active, countdown);
    }
  }

  /** All events of one pass share one clock reading, so two left clicks in
      the same queue during a round always count as a double click: the
      second click toggles the pause whatever the first one did. */
  lemma TwoClicksInOneQueue(r: Round, now: int, inBox: bool, onSubmit: bool)
    ensures var c := MouseDown(LeftButton, inBox, onSubmit);
            var r2 := PlayRun(r, [c, c], now, true, false);
            && r2.lastClick == now
            && r2.paused == (if now - r.lastClick < DoubleClickIntervalMs then r.paused else !r.paused)
  {
    var c := MouseDown(LeftButton, inBox, onSubmit);
    assert [c, c][..1] == [c];
    assert [c][..0] == [];
    assert PlayRun(r, [], now, true, false) == r;
    var r1 := PlayRun(r, [c], now, true, false);
    assert r1 == PlayStep(PlayRun(r, [], now, true, false), c, now, true, false);
    assert r1.lastClick == now;
    assert PlayRun(r, [c, c], now, true, false) == PlayStep(r1, c, now, true, false);
  }

  /** The form half of one pass of the event loop: after a round, outside
      the menu (`routed`), the form sees the event, and a submission closes
      it even when the score was zero. */
  function FormStep(f: Form, e: Event, score: int, routed: bool): (g: Form)
    ensures !routed || !f.open ==> g == f
    ensures g.open ==> f.open
  {
    if !routed then f
    else
      var (g, submitted) := InputStep(f, e, score);
      if submitted then g.(open := false) else g
  }

  /** The form half of the loop over a run of events, in order. */
  function FormRun(f: Form, events: seq<Event>, score: int, routed: bool): (g: Form)
    ensures !routed || !f.open ==> g == f
    ensures g.open ==> f.open
  {
    if events == [] then f
    else FormStep(FormRun(f, events[..|events| - 1], score, routed), events[|events| - 1], score, routed)
  }

  /** A closed form stays as it is, whatever events follow: once a queue has
      closed the form by a submission, the rest of the queue leaves the
      form, the name and the board alone. */
  lemma {:induction false} FormRunAfterClose(f: Form, a: seq<Event>, b: seq<Event>, score: int, routed: bool)
    requires !FormRun(f, a, score, routed).open
    ensures FormRun(f, a + b, score, routed) == FormRun(f, a, score, routed)
  {
    if b != [] {
      var n := |b| - 1;
      assert (a + b)[..|a + b| - 1] == a + b[..n];
      assert (a + b)[|a + b| - 1] == b[n];
      FormRunAfterClose(f, a, b[..n], score, routed);
    } else {
      assert a + b == a;
    }
  }

  class Game {
    const settings: Settings
    const bird: Bird
    const pipeManager: PipeManager
    const scoreSystem: ScoreSystem
    var gameActive: bool
    var gamePaused: bool
    var lastClickTime: int
    var inStartMenu: bool
    var countdownActive: bool
    var countdownStartTime: int
    var floorPos: int
    /** How many pipes had been credited when the current round started. */
    ghost var creditedAtStart: nat

    /** The components are valid and share the game's settings; a round is
        either counting down in the menu or running outside it; the floor is
        within one screen width; and the score counts the pipes credited this
        round, each once. */
    ghost predicate Valid()
      reads this, settings, bird, pipeManager, scoreSystem
    {
      && settings.Valid() && bird.Valid() && pipeManager.Valid() && scoreSystem.Valid()
      && bird.settings == settings && pipeManager.settings == settings
      && (countdownActive ==> inStartMenu && !gameActive)
      && (gameActive ==> !inStartMenu)
      && -settings.width < floorPos <= 0
      && scoreSystem.score + creditedAtStart == |pipeManager.credited|
    }

    /** A new game waits in the start menu with a resting bird, no pipes and
        a zero score. */
    constructor (displayHeight: int, frameWidth: nat, frameHeight: nat, pipeWidth: nat, pipeHeight: nat,
                 stored: seq<Entry>)
      ensures Valid()
      ensures inStartMenu && !gameActive && !gamePaused && !countdownActive
      ensures floorPos == 0 && lastClickTime == 0
      ensures pipeManager.pipes == [] && scoreSystem.score == 0 && scoreSystem.leaderboard == stored
    {
      var s := new Settings(displayHeight);
      s.ValidWidth();
      settings := s;
      gameActive := false;
      gamePaused := false;
      lastClickTime := 0;
      inStartMenu := true;
      countdownActive := false;
      countdownStartTime := 0;
      floorPos := 0;
      bird := new Bird(s, frameWidth, frameHeight);
      var pm := new PipeManager(s, pipeWidth, pipeHeight);
      pipeManager := pm;
      scoreSystem := new ScoreSystem(stored);
      creditedAtStart := |pm.credited|;
    }

    /** `start_countdown`, which only the start button of the menu calls. */
    method StartCountdown(now: int)
      requires Valid() && inStartMenu
      modifies this
      ensures Valid()
      ensures countdownActive && countdownStartTime == now
      ensures gameActive == old(gameActive) && gamePaused == old(gamePaused) && inStartMenu
      ensures floorPos == old(floorPos) && lastClickTime == old(lastClickTime)
      ensures creditedAtStart == old(creditedAtStart)
    {
      countdownActive := true;
      countdownStartTime := now;
    }

    /** `update_countdown`: once three seconds have passed the round starts
        with the bird reset; before that nothing changes. */
    method UpdateCountdown(now: int)
      requires Valid()
      modifies this, bird
      ensures Valid()
      ensures old(countdownActive) && now - old(countdownStartTime) >= CountdownMs ==>
                !countdownActive && !inStartMenu && gameActive
                && bird.velocity == 0.0 && bird.centerX == settings.width / 5
                && bird.centerY == (settings.height / 2) as real
      ensures !(old(countdownActive) && now - old(countdownStartTime) >= CountdownMs) ==>
                unchanged(this) && unchanged(bird)
      ensures gamePaused == old(gamePaused) && floorPos == old(floorPos) && lastClickTime == old(lastClickTime)
      ensures countdownStartTime == old(countdownStartTime) && creditedAtStart == old(creditedAtStart)
      ensures bird.birdIndex == old(bird.birdIndex)
    {
      if countdownActive {
        var remaining := CountdownMs - (now - countdownStartTime);
        if remaining <= 0 {
          countdownActive := false;
          inStartMenu := false;
          gameActive := true;
          bird.Reset();
        }
      }
    }

    /** The part of one pass of the event loop of `handle_events` that acts
        on the round. P toggles the pause during a round; a left click during
        a round toggles it when it follows the previous click within the
        double-click interval, and always restarts that interval; the pipe
        timer spawns a pair during an unpaused round; the flap timer advances
        the bird's frame unless the game is paused. */
    method PlayEvent(e: Event, now: int)
      requires Valid()
      modifies this, bird, pipeManager
      ensures Valid()
      ensures gameActive == old(gameActive) && countdownActive == old(countdownActive)
      ensures inStartMenu == old(inStartMenu) && floorPos == old(floorPos)
      ensures creditedAtStart == old(creditedAtStart) && countdownStartTime == old(countdownStartTime)
      ensures var playing := old(gameActive) && !old(countdownActive);
              gamePaused == if e.KeyDown? && e.key == KeyP && playing then !old(gamePaused)
                            else if e.MouseDown? && e.button == LeftButton && playing
                                    && now - old(lastClickTime) < DoubleClickIntervalMs then !old(gamePaused)
                            else old(gamePaused)
      ensures lastClickTime == if e.MouseDown? && e.button == LeftButton && old(gameActive) && !old(countdownActive)
                               then now else old(lastClickTime)
      ensures e.SpawnPipeTimer? && old(gameActive) && !old(gamePaused) ==>
                pipeManager.pipes == old(pipeManager.pipes) +
                  CreatePair(settings.width, settings.height, pipeManager.pipeWidth, pipeManager.pipeHeight,
                             pipeManager.pipeHeights[e.choice], old(pipeManager.nextId))
      ensures !(e.SpawnPipeTimer? && old(gameActive) && !old(gamePaused)) ==>
                pipeManager.pipes == old(pipeManager.pipes)
      ensures pipeManager.nextId == old(pipeManager.nextId) + (if e.SpawnPipeTimer? && old(gameActive) && !old(gamePaused) then 2 else 0)
      ensures pipeManager.passedPipes == old(pipeManager.passedPipes)
      ensures bird.birdIndex == if e.BirdFlapTimer? && !old(gamePaused) then NextFrame(old(bird.birdIndex))
                                else old(bird.birdIndex)
      ensures bird.velocity == old(bird.velocity) && bird.centerX == old(bird.centerX)
      ensures bird.centerY == old(bird.centerY)
      ensures var step := PlayStep(Round(old(gamePaused), old(lastClickTime), [], old(bird.birdIndex)), e, now,
                                   old(gameActive), old(countdownActive));
              gamePaused == step.paused && lastClickTime == step.lastClick && bird.birdIndex == step.frame
    {
      if e.KeyDown? && e.key == KeyP && gameActive && !countdownActive {
        gamePaused := !gamePaused;
      }
      if e.SpawnPipeTimer? && gameActive && !gamePaused {
        pipeManager.SpawnPipe(e.choice);
      }
      if e.BirdFlapTimer? && !gamePaused {
        bird.FlapAnimation();
      }
      if e.MouseDown? && gameActive && !countdownActive {
        if e.button == LeftButton {
          var clickInterval := now - lastClickTime;
          if clickInterval < DoubleClickIntervalMs {
            gamePaused := !gamePaused;
          }
          lastClickTime := now;
        }
      }
    }

    /** The rest of that pass: after a round (not in the menu) the event goes
        to the name-entry form, and a submission closes the form even when the
        score was zero. During a round or in the menu the form sees nothing. */
    method FormEvent(e: Event)
      requires Valid()
      modifies scoreSystem
      ensures Valid()
      ensures scoreSystem.score == old(scoreSystem.score) && scoreSystem.scoreMessages == old(scoreSystem.scoreMessages)
      ensures scoreSystem.highScore == old(scoreSystem.highScore)
      ensures gameActive || inStartMenu ==> unchanged(scoreSystem)
      ensures !gameActive && !inStartMenu && old(scoreSystem.showNameInput)
              && e.KeyDown? && e.key == KeyReturn && old(scoreSystem.activeInput) ==>
                !scoreSystem.showNameInput
                && scoreSystem.leaderboard == if old(scoreSystem.score) > 0
                   then AfterAdd(old(scoreSystem.leaderboard),
                                 Entry(NormalizeName(old(scoreSystem.username)), old(scoreSystem.score)))
                   else old(scoreSystem.leaderboard)
      ensures !gameActive && !inStartMenu && old(scoreSystem.showNameInput)
              && e.KeyDown? && e.key != KeyReturn && old(scoreSystem.activeInput) ==>
                scoreSystem.username == EditName(old(scoreSystem.username), e.key, e.unicode)
                && scoreSystem.leaderboard == old(scoreSystem.leaderboard)
      ensures !gameActive && !inStartMenu && old(scoreSystem.showNameInput) && e.MouseDown? ==>
                scoreSystem.activeInput == e.inInputBox
                && (e.onSubmit ==> !scoreSystem.showNameInput)
                && (!e.onSubmit ==> scoreSystem.showNameInput && scoreSystem.leaderboard == old(scoreSystem.leaderboard))
      ensures scoreSystem.FormState() ==
                FormStep(old(scoreSystem.FormState()), e, old(scoreSystem.score), !gameActive && !inStartMenu)
    {
      if !gameActive && !inStartMenu {
        var submitted := scoreSystem.HandleInputEvent(e);
        if submitted {
          scoreSystem.showNameInput := false;
        }
      }
    }

    /** The round state after the events of `prefix` have been handled,
        starting from the round state `start`, the pipes `pipes0` and the next
        identifier `id0`, with the flags `active` and `countdown` that no event
        changes. */
    ghost predicate RoundAfter(prefix: seq<Event>, now: int, start: Round, pipes0: seq<Pipe>, id0: nat,
                               active: bool, countdown: bool)
      reads this, settings, bird, pipeManager
    {
      var r := PlayRun(start, prefix, now, active, countdown);
      && gamePaused == r.paused && lastClickTime == r.lastClick && bird.birdIndex == r.frame
      && |pipeManager.pipeHeights| == 3
      && pipeManager.pipes == pipes0 +
           Spawned(settings.width, settings.height, pipeManager.pipeWidth, pipeManager.pipeHeight,
                   pipeManager.pipeHeights, r.spawned, id0)
      && pipeManager.nextId == id0 + 2 * |r.spawned|
    }

    /** The round half of one pass of the event loop over `events`, at
        position i, as a step of `PlayRun`. */
    method RoundEvent(events: seq<Event>, i: nat, now: int, ghost start: Round,
                      ghost pipes0: seq<Pipe>, ghost id0: nat)
      requires Valid() && i < |events|
      requires RoundAfter(events[..i], now, start, pipes0, id0, gameActive, countdownActive)
      modifies this, bird, pipeManager
      ensures Valid()
      ensures RoundAfter(events[..i + 1], now, start, pipes0, id0, gameActive, countdownActive)
      ensures gameActive == old(gameActive) && countdownActive == old(countdownActive)
      ensures inStartMenu == old(inStartMenu) && floorPos == old(floorPos)
      ensures !gameActive || countdownActive ==> gamePaused == old(gamePaused)
      ensures !gameActive ==> pipeManager.pipes == old(pipeManager.pipes)
      ensures bird.velocity == old(bird.velocity)
      ensures bird.centerX == old(bird.centerX) && bird.centerY == old(bird.centerY)
      ensures countdownStartTime == old(countdownStartTime)
    {
      var e := events[i];
      ghost var r := PlayRun(start, events[..i], now, gameActive, countdownActive);
      PlayRunSnoc(start, events, i, now, gameActive, countdownActive);
      PlayStepSplit(r, e, now, gameActive, countdownActive);
      assert r.(spawned := []) == Round(gamePaused, lastClickTime, [], bird.birdIndex);
      ghost var width, height := settings.width, settings.height;
      ghost var before, next := pipeManager.pipes, pipeManager.nextId;
      assert before == pipes0 + Spawned(width, height, pipeManager.pipeWidth, pipeManager.pipeHeight,
                                        pipeManager.pipeHeights, r.spawned, id0);
      PlayEvent(e, now);
      assert settings.width == width && settings.height == height;
      if e.SpawnPipeTimer? && gameActive && !r.paused {
        SpawnStep(pipes0, before, pipeManager.pipes, width, height, pipeManager.pipeWidth, pipeManager.pipeHeight,
                  pipeManager.pipeHeights, r.spawned, e.choice, id0, next);
      }
    }

    /** One pass of the event loop over `events`, at position i: the round
        half, then the name form. */
    method HandleEvent(events: seq<Event>, i: nat, now: int, ghost start: Round, ghost pipes0: seq<Pipe>,
                       ghost id0: nat, ghost form: Form, ghost score: int, ghost routed: bool)
      requires Valid() && i < |events|
      requires RoundAfter(events[..i], now, start, pipes0, id0, gameActive, countdownActive)
      requires scoreSystem.FormState() == FormRun(form, events[..i], score, routed)
      requires scoreSystem.score == score && routed == (!gameActive && !inStartMenu)
      modifies this, bird, pipeManager, scoreSystem
      ensures Valid()
      ensures RoundAfter(events[..i + 1], now, start, pipes0, id0, gameActive, countdownActive)
      ensures scoreSystem.FormState() == FormRun(form, events[..i + 1], score, routed)
      ensures gameActive == old(gameActive) && countdownActive == old(countdownActive)
      ensures inStartMenu == old(inStartMenu) && floorPos == old(floorPos)
      ensures !gameActive || countdownActive ==> gamePaused == old(gamePaused)
      ensures !gameActive ==> pipeManager.pipes == old(pipeManager.pipes)
      ensures bird.velocity == old(bird.velocity)
      ensures bird.centerX == old(bird.centerX) && bird.centerY == old(bird.centerY)
      ensures scoreSystem.score == score && scoreSystem.highScore == old(scoreSystem.highScore)
      ensures scoreSystem.scoreMessages == old(scoreSystem.scoreMessages)
      ensures countdownStartTime == old(countdownStartTime)
    {
      RoundEvent(events, i, now, start, pipes0, id0);
      FormEvent(events[i]);
      assert events[..i + 1][..i] == events[..i];
    }

    /** `handle_events`: the queued events in order, then the jump. A quit
        event ends the game at once. The events never start or end a round,
        the pause only changes during a round, no pipe appears outside a
        round, and the bird jumps exactly when space is held during an
        unpaused round. */
    method HandleEvents(events: seq<Event>, now: int, spaceHeld: bool) returns (quit: bool)
      requires Valid()
      modifies this, bird, pipeManager, scoreSystem
      ensures Valid()
      ensures quit <==> Quit in events
      ensures gameActive == old(gameActive) && countdownActive == old(countdownActive)
      ensures inStartMenu == old(inStartMenu) && floorPos == old(floorPos)
      ensures !old(gameActive) || old(countdownActive) ==> gamePaused == old(gamePaused)
      ensures !old(gameActive) ==> pipeManager.pipes == old(pipeManager.pipes)
      ensures !quit && spaceHeld && gameActive && !gamePaused && !countdownActive ==>
                bird.velocity == JumpVelocity
      ensures quit || !(spaceHeld && gameActive && !gamePaused && !countdownActive) ==> bird.velocity == old(bird.velocity)
      ensures bird.centerX == old(bird.centerX) && bird.centerY == old(bird.centerY)
      ensures scoreSystem.score == old(scoreSystem.score) && scoreSystem.highScore == old(scoreSystem.highScore)
      ensures scoreSystem.scoreMessages == old(scoreSystem.scoreMessages)
      ensures countdownStartTime == old(countdownStartTime)
      ensures var r := PlayRun(Round(old(gamePaused), old(lastClickTime), [], old(bird.birdIndex)), UpToQuit(events),
                               now, old(gameActive), old(countdownActive));
              && gamePaused == r.paused && lastClickTime == r.lastClick && bird.birdIndex == r.frame
              && pipeManager.pipes == old(pipeManager.pipes) +
                   Spawned(settings.width, settings.height, pipeManager.pipeWidth, pipeManager.pipeHeight,
                           pipeManager.pipeHeights, r.spawned, old(pipeManager.nextId))
      ensures scoreSystem.FormState() ==
                FormRun(old(scoreSystem.FormState()), UpToQuit(events), old(scoreSystem.score),
                        !old(gameActive) && !old(inStartMenu))
    {
      ghost var start := Round(gamePaused, lastClickTime, [], bird.birdIndex);
      ghost var form, pipes0, id0 := scoreSystem.FormState(), pipeManager.pipes, pipeManager.nextId;
      ghost var routed := !gameActive && !inStartMenu;
      assert events[..0] == [];
      var i := 0;
      while i < |events| && !events[i].Quit?
        invariant 0 <= i <= |events|
        invariant Valid()
        invariant Quit !in events[..i]
        invariant RoundAfter(events[..i], now, start, pipes0, id0, gameActive, countdownActive)
        invariant scoreSystem.FormState() == FormRun(form, events[..i], old(scoreSystem.score), routed)
        invariant gameActive == old(gameActive) && countdownActive == old(countdownActive)
        invariant inStartMenu == old(inStartMenu) && floorPos == old(floorPos)
        invariant !old(gameActive) || old(countdownActive) ==> gamePaused == old(gamePaused)
        invariant !old(gameActive) ==> pipeManager.pipes == old(pipeManager.pipes)
        invariant bird.velocity == old(bird.velocity)
        invariant bird.centerX == old(bird.centerX) && bird.centerY == old(bird.centerY)
        invariant scoreSystem.score == old(scoreSystem.score) && scoreSystem.highScore == old(scoreSystem.highScore)
        invariant scoreSystem.scoreMessages == old(scoreSystem.scoreMessages)
        invariant countdownStartTime == old(countdownStartTime)
      {
        HandleEvent(events, i, now, start, pipes0, id0, form, old(scoreSystem.score), routed);
        i := i + 1;
      }
      UpToQuitIs(events, i);
      quit := i < |events|;
      if !quit && spaceHeld && gameActive && !gamePaused && !countdownActive {
        bird.Jump();
      }
    }


    /** `check_collisions`: the bird is safe unless it touches a pipe or
        leaves the band between the ceiling and the floor lines. */
    method CheckCollisions() returns (ok: bool)
      ensures ok <==> !HitsPipe(pipeManager.pipes, bird.Box()) && !OutOfBounds(bird.Box(), settings.height)
    {
      var hit := pipeManager.CheckCollision(bird.Box());
      if hit {
        return false;
      }
      var box := bird.Box();
      var floorHeight := settings.height - settings.height / 10;
      if box.top <= -100.0 || box.Bottom() >= floorHeight as real {
        return false;
      }
      return true;
    }

    /** The first half of an unpaused tick of `update`: the pipes advance
        and the first pipe the bird has passed, if any, scores a point. */
    method ScorePipes() returns (scored: bool)
      requires Valid() && gameActive && !countdownActive
      modifies this, pipeManager, scoreSystem
      ensures Valid()
      ensures pipeManager.pipes == Visible(Advance(old(pipeManager.pipes), settings.scaleFactor))
      ensures scored <==> CreditableFrom(pipeManager.pipes, 0, bird.centerX, settings.height, old(pipeManager.passedPipes))
      ensures scoreSystem.score == old(scoreSystem.score) + (if scored then 1 else 0)
      ensures |pipeManager.credited| == |old(pipeManager.credited)| + (if scored then 1 else 0)
      ensures scoreSystem.scoreMessages == old(scoreSystem.scoreMessages)
      ensures scoreSystem.highScore == old(scoreSystem.highScore) && scoreSystem.leaderboard == old(scoreSystem.leaderboard)
      ensures gameActive && gamePaused == old(gamePaused) && !countdownActive && !inStartMenu
      ensures floorPos == old(floorPos) && lastClickTime == old(lastClickTime)
      ensures countdownStartTime == old(countdownStartTime)
      ensures scoreSystem.showNameInput == old(scoreSystem.showNameInput)
      ensures scoreSystem.activeInput == old(scoreSystem.activeInput) && scoreSystem.username == old(scoreSystem.username)
    {
      var x := bird.centerX;
      scored := pipeManager.AdvanceAndScore(x);
      assert x == bird.centerX && pipeManager.settings.height == settings.height;
      if scored {
        scoreSystem.IncreaseScore();
      }
    }


    /** The end of a tick: a collision ends the round and settles the high
        score, opening the name form when the score earns a leaderboard place. */
    method EndIfCrashed()
      requires gameActive
      modifies this, scoreSystem
      ensures gameActive <==> !HitsPipe(pipeManager.pipes, bird.Box()) && !OutOfBounds(bird.Box(), settings.height)
      ensures gameActive ==> scoreSystem.highScore == old(scoreSystem.highScore)
      ensures !gameActive ==> scoreSystem.highScore == if scoreSystem.score > old(scoreSystem.highScore)
                                                     then scoreSystem.score else old(scoreSystem.highScore)
      ensures scoreSystem.showNameInput == (old(scoreSystem.showNameInput) ||
                (!gameActive && IsHighScore(scoreSystem.leaderboard, scoreSystem.score) && scoreSystem.score > 0))
      ensures scoreSystem.activeInput == (old(scoreSystem.activeInput) ||
                (!gameActive && IsHighScore(scoreSystem.leaderboard, scoreSystem.score) && scoreSystem.score > 0))
      ensures scoreSystem.username == old(scoreSystem.username)
      ensures scoreSystem.score == old(scoreSystem.score) && scoreSystem.scoreMessages == old(scoreSystem.scoreMessages)
      ensures scoreSystem.leaderboard == old(scoreSystem.leaderboard)
      ensures gamePaused == old(gamePaused) && countdownActive == old(countdownActive) && inStartMenu == old(inStartMenu)
      ensures floorPos == old(floorPos) && lastClickTime == old(lastClickTime) && creditedAtStart == old(creditedAtStart)
      ensures countdownStartTime == old(countdownStartTime)
    {
      var ok := CheckCollisions();
      if !ok {
        gameActive := false;
        scoreSystem.UpdateHighScore();
      }
    }

    /** The bird falls one tick; the point just scored, if any, shows its
        message beside the bird where it was; then every message ages. */
    method FallAndAge(scored: bool)
      requires scoreSystem.Valid()
      modifies bird, scoreSystem, set m | m in scoreSystem.scoreMessages
      ensures scoreSystem.Valid()
      ensures Views(scoreSystem.scoreMessages) ==
                Tick(old(Views(scoreSystem.scoreMessages)) +
                     if scored then [MessageView(old(bird.centerX) + MessageDx, old(bird.centerY) - MessageDy, MessageLifetime)]
                     else [])
      ensures |scoreSystem.scoreMessages| <= |old(scoreSystem.scoreMessages)| + (if scored then 1 else 0)
      ensures scored ==>
                && scoreSystem.scoreMessages != []
                && scoreSystem.scoreMessages[|scoreSystem.scoreMessages| - 1].View() ==
                   Aged(MessageView(old(bird.centerX) + MessageDx, old(bird.centerY) - MessageDy, MessageLifetime))
      ensures Motion(bird.velocity, bird.centerY) == Fall(Motion(old(bird.velocity), old(bird.centerY)))
      ensures bird.centerX == old(bird.centerX) && bird.birdIndex == old(bird.birdIndex)
      ensures scoreSystem.score == old(scoreSystem.score) && scoreSystem.highScore == old(scoreSystem.highScore)
      ensures scoreSystem.leaderboard == old(scoreSystem.leaderboard) && scoreSystem.username == old(scoreSystem.username)
      ensures scoreSystem.showNameInput == old(scoreSystem.showNameInput)
      ensures scoreSystem.activeInput == old(scoreSystem.activeInput)
    {
      var x, y := bird.centerX + MessageDx, bird.centerY - MessageDy;
      ghost var views := Views(scoreSystem.scoreMessages);
      bird.Update();
      assert Views(scoreSystem.scoreMessages) == views;
      scoreSystem.MessagesTick(scored, x, y);
      if scored {
        var shown := views + [MessageView(x, y, MessageLifetime)];
        assert shown[..|shown| - 1] == views;
        TickLast(shown);
      }
    }

    /** The rest of an unpaused tick once the pipes have moved: the bird
        falls, the messages age (with the new one when a point was just
        scored) and a collision ends the round. */
    method FinishTick(scored: bool)
      requires Valid() && gameActive && !gamePaused && !countdownActive
      modifies this, bird, scoreSystem, set m | m in scoreSystem.scoreMessages
      ensures Valid()
      ensures Motion(bird.velocity, bird.centerY) == Fall(Motion(old(bird.velocity), old(bird.centerY)))
      ensures bird.centerX == old(bird.centerX) && bird.birdIndex == old(bird.birdIndex)
      ensures gameActive <==> !HitsPipe(pipeManager.pipes, bird.Box()) && !OutOfBounds(bird.Box(), settings.height)
      ensures gameActive ==> scoreSystem.highScore == old(scoreSystem.highScore)
      ensures !gameActive ==> scoreSystem.highScore == if scoreSystem.score > old(scoreSystem.highScore)
                                                     then scoreSystem.score else old(scoreSystem.highScore)
      ensures scoreSystem.showNameInput == (old(scoreSystem.showNameInput) ||
                (!gameActive && IsHighScore(scoreSystem.leaderboard, scoreSystem.score) && scoreSystem.score > 0))
      ensures scoreSystem.activeInput == (old(scoreSystem.activeInput) ||
                (!gameActive && IsHighScore(scoreSystem.leaderboard, scoreSystem.score) && scoreSystem.score > 0))
      ensures scoreSystem.username == old(scoreSystem.username)
      ensures scoreSystem.score == old(scoreSystem.score) && scoreSystem.leaderboard == old(scoreSystem.leaderboard)
      ensures !gamePaused && !countdownActive && !inStartMenu
      ensures floorPos == old(floorPos) && lastClickTime == old(lastClickTime)
      ensures countdownStartTime == old(countdownStartTime)
      ensures Views(scoreSystem.scoreMessages) ==
                Tick(old(Views(scoreSystem.scoreMessages)) +
                     if scored then [MessageView(old(bird.centerX) + MessageDx, old(bird.centerY) - MessageDy, MessageLifetime)]
                     else [])
      ensures |scoreSystem.scoreMessages| <= |old(scoreSystem.scoreMessages)| + (if scored then 1 else 0)
      ensures scored ==>
                && scoreSystem.scoreMessages != []
                && scoreSystem.scoreMessages[|scoreSystem.scoreMessages| - 1].View() ==
                   Aged(MessageView(old(bird.centerX) + MessageDx, old(bird.centerY) - MessageDy, MessageLifetime))
    {
      FallAndAge(scored);
      ghost var msgs := scoreSystem.scoreMessages;
      ghost var views := Views(msgs);
      ghost var lastView := if msgs == [] then MessageView(0, 0.0, 0) else msgs[|msgs| - 1].View();
      EndIfCrashed();
      assert scoreSystem.scoreMessages == msgs;
      assert Views(msgs) == views;
      assert msgs != [] ==> msgs[|msgs| - 1].View() == lastView;
    }

    /** The part of `update` that runs during an unpaused round: the pipes
        advance, a pipe the bird has passed scores a point (answered by
        `scored`) and a message, the bird falls, the messages age, and a
        collision ends the round and settles the high score. */
    method PlayTick() returns (scored: bool)
      requires Valid() && gameActive && !gamePaused && !countdownActive
      modifies this, bird, pipeManager, scoreSystem, set m | m in scoreSystem.scoreMessages
      ensures Valid()
      ensures pipeManager.pipes == Visible(Advance(old(pipeManager.pipes), settings.scaleFactor))
      ensures scored <==> CreditableFrom(pipeManager.pipes, 0, bird.centerX, settings.height, old(pipeManager.passedPipes))
      ensures scoreSystem.score == old(scoreSystem.score) + (if scored then 1 else 0)
      ensures |pipeManager.credited| == |old(pipeManager.credited)| + (if scored then 1 else 0)
      ensures Views(scoreSystem.scoreMessages) ==
                Tick(old(Views(scoreSystem.scoreMessages)) +
                     if scored then [MessageView(old(bird.centerX) + MessageDx, old(bird.centerY) - MessageDy, MessageLifetime)]
                     else [])
      ensures |scoreSystem.scoreMessages| <= |old(scoreSystem.scoreMessages)| + (if scored then 1 else 0)
      ensures scored ==>
                && scoreSystem.scoreMessages != []
                && scoreSystem.scoreMessages[|scoreSystem.scoreMessages| - 1].View() ==
                   Aged(MessageView(old(bird.centerX) + MessageDx, old(bird.centerY) - MessageDy, MessageLifetime))
      ensures Motion(bird.velocity, bird.centerY) == Fall(Motion(old(bird.velocity), old(bird.centerY)))
      ensures bird.centerX == old(bird.centerX) && bird.birdIndex == old(bird.birdIndex)
      ensures gameActive <==> !HitsPipe(pipeManager.pipes, bird.Box()) && !OutOfBounds(bird.Box(), settings.height)
      ensures gameActive ==> scoreSystem.highScore == old(scoreSystem.highScore)
      ensures !gameActive ==> scoreSystem.highScore == if scoreSystem.score > old(scoreSystem.highScore)
                                                     then scoreSystem.score else old(scoreSystem.highScore)
      ensures scoreSystem.showNameInput == (old(scoreSystem.showNameInput) ||
                (!gameActive && IsHighScore(scoreSystem.leaderboard, scoreSystem.score) && scoreSystem.score > 0))
      ensures scoreSystem.activeInput == (old(scoreSystem.activeInput) ||
                (!gameActive && IsHighScore(scoreSystem.leaderboard, scoreSystem.score) && scoreSystem.score > 0))
      ensures scoreSystem.username == old(scoreSystem.username)
      ensures scoreSystem.leaderboard == old(scoreSystem.leaderboard)
      ensures !gamePaused && !countdownActive && !inStartMenu
      ensures floorPos == old(floorPos) && lastClickTime == old(lastClickTime)
      ensures countdownStartTime == old(countdownStartTime)
    {
      ghost var shown := Aged(MessageView(bird.centerX + MessageDx, bird.centerY - MessageDy, MessageLifetime));
      ghost var views := Views(scoreSystem.scoreMessages);
      scored := ScorePipes();
      assert shown == Aged(MessageView(bird.centerX + MessageDx, bird.centerY - MessageDy, MessageLifetime));
      assert Views(scoreSystem.scoreMessages) == views;
      FinishTick(scored);
    }

    /** `update` outside the countdown: the floor scrolls, and the rest of
        the world moves only during an unpaused round. */
    method RunningTick()
      requires Valid() && !countdownActive
      modifies this, bird, pipeManager, scoreSystem, scoreSystem.scoreMessages
      ensures Valid()
      ensures floorPos == FloorStep(old(floorPos), settings.scaleFactor, settings.width)
      ensures !old(gameActive) || old(gamePaused) ==>
                && gameActive == old(gameActive) && gamePaused == old(gamePaused)
                && inStartMenu == old(inStartMenu) && countdownActive == old(countdownActive)
                && unchanged(bird) && unchanged(pipeManager) && unchanged(scoreSystem)
                && unchanged(scoreSystem.scoreMessages)
      ensures old(gameActive) && !old(gamePaused) ==>
                pipeManager.pipes == Visible(Advance(old(pipeManager.pipes), settings.scaleFactor))
                && Motion(bird.velocity, bird.centerY) == Fall(Motion(old(bird.velocity), old(bird.centerY)))
                && (gameActive <==> !HitsPipe(pipeManager.pipes, bird.Box()) && !OutOfBounds(bird.Box(), settings.height))
                && !gamePaused && !countdownActive && !inStartMenu && bird.birdIndex == old(bird.birdIndex)
                && bird.centerX == old(bird.centerX)
      ensures old(gameActive) && !old(gamePaused) ==>
                scoreSystem.score == old(scoreSystem.score) +
                  (if CreditableFrom(pipeManager.pipes, 0, bird.centerX, settings.height, old(pipeManager.passedPipes))
                   then 1 else 0)
      ensures old(gameActive) && !old(gamePaused) ==>
                |scoreSystem.scoreMessages| <= |old(scoreSystem.scoreMessages)| +
                  (if CreditableFrom(pipeManager.pipes, 0, bird.centerX, settings.height, old(pipeManager.passedPipes))
                   then 1 else 0)
      ensures old(gameActive) && !old(gamePaused) &&
              CreditableFrom(pipeManager.pipes, 0, bird.centerX, settings.height, old(pipeManager.passedPipes)) ==>
                && scoreSystem.scoreMessages != []
                && scoreSystem.scoreMessages[|scoreSystem.scoreMessages| - 1].View() ==
                   Aged(MessageView(old(bird.centerX) + MessageDx, old(bird.centerY) - MessageDy, MessageLifetime))
      ensures scoreSystem.highScore ==
                if old(gameActive) && !gameActive && scoreSystem.score > old(scoreSystem.highScore)
                then scoreSystem.score else old(scoreSystem.highScore)
      ensures scoreSystem.showNameInput == (old(scoreSystem.showNameInput) ||
                (old(gameActive) && !gameActive && IsHighScore(scoreSystem.leaderboard, scoreSystem.score) && scoreSystem.score > 0))
      ensures scoreSystem.activeInput == (old(scoreSystem.activeInput) ||
                (old(gameActive) && !gameActive && IsHighScore(scoreSystem.leaderboard, scoreSystem.score) && scoreSystem.score > 0))
      ensures scoreSystem.leaderboard == old(scoreSystem.leaderboard) && scoreSystem.username == old(scoreSystem.username)
      ensures lastClickTime == old(lastClickTime) && countdownStartTime == old(countdownStartTime)
    {
      ScrollFloor();
      PlayIfRunning();
    }

    /** The floor scrolls by `int(1 * scale)` and wraps back to 0 once it
        has moved a whole screen width. */
    method ScrollFloor()
      requires Valid()
      modifies this
      ensures Valid()
      ensures floorPos == FloorStep(old(floorPos), settings.scaleFactor, settings.width)
      ensures gameActive == old(gameActive) && gamePaused == old(gamePaused) && inStartMenu == old(inStartMenu)
      ensures countdownActive == old(countdownActive) && lastClickTime == old(lastClickTime)
      ensures countdownStartTime == old(countdownStartTime) && creditedAtStart == old(creditedAtStart)
    {
      settings.ValidWidth();
      floorPos := floorPos - Trunc(1.0 * settings.scaleFactor);
      if floorPos <= -settings.width {
        floorPos := 0;
      }
    }

    /** The rest of `update` once the floor has moved: nothing more happens
        unless a round is running unpaused, and then it takes one `PlayTick`. */
    method PlayIfRunning()
      requires Valid() && !countdownActive
      modifies this, bird, pipeManager, scoreSystem, scoreSystem.scoreMessages
      ensures Valid()
      ensures floorPos == old(floorPos)
      ensures !old(gameActive) || old(gamePaused) ==>
                && gameActive == old(gameActive) && gamePaused == old(gamePaused)
                && inStartMenu == old(inStartMenu) && countdownActive == old(countdownActive)
                && unchanged(bird) && unchanged(pipeManager) && unchanged(scoreSystem)
                && unchanged(scoreSystem.scoreMessages)
      ensures old(gameActive) && !old(gamePaused) ==>
                pipeManager.pipes == Visible(Advance(old(pipeManager.pipes), settings.scaleFactor))
                && Motion(bird.velocity, bird.centerY) == Fall(Motion(old(bird.velocity), old(bird.centerY)))
                && (gameActive <==> !HitsPipe(pipeManager.pipes, bird.Box()) && !OutOfBounds(bird.Box(), settings.height))
                && !gamePaused && !countdownActive && !inStartMenu && bird.birdIndex == old(bird.birdIndex)
                && bird.centerX == old(bird.centerX)
      ensures old(gameActive) && !old(gamePaused) ==>
                scoreSystem.score == old(scoreSystem.score) +
                  (if CreditableFrom(pipeManager.pipes, 0, bird.centerX, settings.height, old(pipeManager.passedPipes))
                   then 1 else 0)
      ensures old(gameActive) && !old(gamePaused) ==>
                Views(scoreSystem.scoreMessages) ==
                  Tick(old(Views(scoreSystem.scoreMessages)) +
                       if CreditableFrom(pipeManager.pipes, 0, bird.centerX, settings.height, old(pipeManager.passedPipes))
                       then [MessageView(old(bird.centerX) + MessageDx, old(bird.centerY) - MessageDy, MessageLifetime)]
                       else [])
      ensures old(gameActive) && !old(gamePaused) ==>
                |scoreSystem.scoreMessages| <= |old(scoreSystem.scoreMessages)| +
                  (if CreditableFrom(pipeManager.pipes, 0, bird.centerX, settings.height, old(pipeManager.passedPipes))
                   then 1 else 0)
      ensures old(gameActive) && !old(gamePaused) &&
              CreditableFrom(pipeManager.pipes, 0, bird.centerX, settings.height, old(pipeManager.passedPipes)) ==>
                && scoreSystem.scoreMessages != []
                && scoreSystem.scoreMessages[|scoreSystem.scoreMessages| - 1].View() ==
                   Aged(MessageView(old(bird.centerX) + MessageDx, old(bird.centerY) - MessageDy, MessageLifetime))
      ensures scoreSystem.highScore ==
                if old(gameActive) && !gameActive && scoreSystem.score > old(scoreSystem.highScore)
                then scoreSystem.score else old(scoreSystem.highScore)
      ensures scoreSystem.showNameInput == (old(scoreSystem.showNameInput) ||
                (old(gameActive) && !gameActive && IsHighScore(scoreSystem.leaderboard, scoreSystem.score) && scoreSystem.score > 0))
      ensures scoreSystem.activeInput == (old(scoreSystem.activeInput) ||
                (old(gameActive) && !gameActive && IsHighScore(scoreSystem.leaderboard, scoreSystem.score) && scoreSystem.score > 0))
      ensures scoreSystem.leaderboard == old(scoreSystem.leaderboard) && scoreSystem.username == old(scoreSystem.username)
      ensures lastClickTime == old(lastClickTime) && countdownStartTime == old(countdownStartTime)
    {
      if !gameActive || gamePaused {
        return;
      }
      var _ := PlayTick();
    }

    /** `update`: during the countdown only the countdown runs (the floor
        stands still); otherwise the floor scrolls, and the rest of the world
        moves only during an unpaused round, where the score rises exactly
        when a pipe is passed and its "+1" message joins the aged messages. */
    method Update(now: int)
      requires Valid()
      modifies this, bird, pipeManager, scoreSystem, scoreSystem.scoreMessages
      ensures Valid()
      ensures old(countdownActive) ==> floorPos == old(floorPos) && unchanged(pipeManager) && unchanged(scoreSystem)
      ensures old(countdownActive) ==> (gameActive <==> now - old(countdownStartTime) >= CountdownMs)
      ensures old(countdownActive) && now - old(countdownStartTime) >= CountdownMs ==>
                !countdownActive && !inStartMenu && gameActive
                && bird.velocity == 0.0 && bird.centerX == settings.width / 5
                && bird.centerY == (settings.height / 2) as real
      ensures old(countdownActive) && now - old(countdownStartTime) < CountdownMs ==>
                unchanged(this) && unchanged(bird)
      ensures old(countdownActive) ==>
                gamePaused == old(gamePaused) && bird.birdIndex == old(bird.birdIndex)
                && unchanged(scoreSystem.scoreMessages)
      ensures !old(countdownActive) ==> floorPos == FloorStep(old(floorPos), settings.scaleFactor, settings.width)
      ensures !old(countdownActive) && (!old(gameActive) || old(gamePaused)) ==>
                && gameActive == old(gameActive) && gamePaused == old(gamePaused)
                && inStartMenu == old(inStartMenu) && countdownActive == old(countdownActive)
                && unchanged(bird) && unchanged(pipeManager) && unchanged(scoreSystem)
                && unchanged(scoreSystem.scoreMessages)
      ensures !old(countdownActive) && old(gameActive) && !old(gamePaused) ==>
                pipeManager.pipes == Visible(Advance(old(pipeManager.pipes), settings.scaleFactor))
                && Motion(bird.velocity, bird.centerY) == Fall(Motion(old(bird.velocity), old(bird.centerY)))
                && (gameActive <==> !HitsPipe(pipeManager.pipes, bird.Box()) && !OutOfBounds(bird.Box(), settings.height))
                && !gamePaused && !countdownActive && !inStartMenu && bird.birdIndex == old(bird.birdIndex)
                && bird.centerX == old(bird.centerX)
      ensures !old(countdownActive) && old(gameActive) && !old(gamePaused) ==>
                scoreSystem.score == old(scoreSystem.score) +
                  (if CreditableFrom(pipeManager.pipes, 0, bird.centerX, settings.height, old(pipeManager.passedPipes))
                   then 1 else 0)
      ensures !old(countdownActive) && old(gameActive) && !old(gamePaused) ==>
                |scoreSystem.scoreMessages| <= |old(scoreSystem.scoreMessages)| +
                  (if CreditableFrom(pipeManager.pipes, 0, bird.centerX, settings.height, old(pipeManager.passedPipes))
                   then 1 else 0)
      ensures scoreSystem.highScore ==
                if old(gameActive) && !gameActive && scoreSystem.score > old(scoreSystem.highScore)
                then scoreSystem.score else old(scoreSystem.highScore)
      ensures scoreSystem.showNameInput == (old(scoreSystem.showNameInput) ||
                (old(gameActive) && !gameActive && IsHighScore(scoreSystem.leaderboard, scoreSystem.score) && scoreSystem.score > 0))
      ensures scoreSystem.activeInput == (old(scoreSystem.activeInput) ||
                (old(gameActive) && !gameActive && IsHighScore(scoreSystem.leaderboard, scoreSystem.score) && scoreSystem.score > 0))
      ensures scoreSystem.leaderboard == old(scoreSystem.leaderboard) && scoreSystem.username == old(scoreSystem.username)
      ensures lastClickTime == old(lastClickTime) && countdownStartTime == old(countdownStartTime)
    {
      if countdownActive {
        UpdateCountdown(now);
      } else {
        RunningTick();
      }
    }

    /** `restart_game`, which the "again" button of the game-over screen
        calls: a new round starts at once, unpaused, with no pipes, a resting
        bird and a zero score. */
    method RestartGame()
      requires Valid() && !inStartMenu && !countdownActive
      modifies this, bird, pipeManager, scoreSystem
      ensures Valid()
      ensures gameActive && !gamePaused && !inStartMenu && !countdownActive
      ensures pipeManager.pipes == [] && pipeManager.passedPipes == []
      ensures bird.velocity == 0.0 && bird.centerX == settings.width / 5 && bird.centerY == (settings.height / 2) as real
      ensures scoreSystem.score == 0 && scoreSystem.scoreMessages == []
      ensures scoreSystem.highScore == old(scoreSystem.highScore) && scoreSystem.leaderboard == old(scoreSystem.leaderboard)
      ensures !scoreSystem.showNameInput && scoreSystem.username == "" && scoreSystem.activeInput == old(scoreSystem.activeInput)
      ensures floorPos == old(floorPos) && lastClickTime == old(lastClickTime) && countdownStartTime == old(countdownStartTime)
    {
      gameActive := true;
      gamePaused := false;
      pipeManager.Reset();
      bird.Reset();
      scoreSystem.ResetScore();
      creditedAtStart := |pipeManager.credited|;
    }

    /** `return_to_menu`, which the "menu" button of the game-over screen
        calls: back to the start menu with the world cleared as for a
        restart, but no round running. */
    method ReturnToMenu()
      requires Valid() && !countdownActive
      modifies this, bird, pipeManager, scoreSystem
      ensures Valid()
      ensures inStartMenu && !gameActive && !gamePaused && !countdownActive
      ensures pipeManager.pipes == [] && pipeManager.passedPipes == []
      ensures bird.velocity == 0.0 && bird.centerX == settings.width / 5 && bird.centerY == (settings.height / 2) as real
      ensures scoreSystem.score == 0 && scoreSystem.scoreMessages == []
      ensures scoreSystem.highScore == old(scoreSystem.highScore) && scoreSystem.leaderboard == old(scoreSystem.leaderboard)
      ensures !scoreSystem.showNameInput && scoreSystem.username == "" && scoreSystem.activeInput == old(scoreSystem.activeInput)
      ensures floorPos == old(floorPos) && lastClickTime == old(lastClickTime) && countdownStartTime == old(countdownStartTime)
    {
      inStartMenu := true;
      gameActive := false;
      gamePaused := false;
      pipeManager.Reset();
      bird.Reset();
      scoreSystem.ResetScore();
      creditedAtStart := |pipeManager.credited|;
    }
  }
}
