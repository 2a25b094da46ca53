/** The score system (code/score_system.py): the running score, the floating
    "+1" messages, the high score, the name-entry form and the leaderboard
    store. The leaderboard file is an abstract store: `leaderboard` holds the
    list under its "scores" key, which `add_score` reads and rewrites. */
module Scoring {
  import opened Sequences
  import opened Leaderboard
  import opened Events

  /** A new "+1" message lives for this many updates. */
  const MessageLifetime: int := 60

  /** Typing stops extending the name at this length. */
  const MaxNameLength: nat := 15

  /** The state of one "+1" message. */
  datatype MessageView = MessageView(x: int, y: real, lifetime: int)

  /** `ScoreMessage.update` on the values: one tick shorter, one pixel up. */
  function Aged(v: MessageView): (r: MessageView)
    ensures r.x == v.x && r.y == v.y - 1.0 && r.lifetime == v.lifetime - 1
  {
    MessageView(v.x, v.y - 1.0, v.lifetime - 1)
  }

  /** One `update_score_messages` on the values: every message ages, and the
      ones whose lifetime reaches zero are dropped, the rest in order. */
  function Tick(vs: seq<MessageView>): (r: seq<MessageView>)
    ensures |r| <= |vs|
    ensures forall i :: 0 <= i < |r| ==> r[i].lifetime > 0
  {
    if vs == [] then []
    else
      var init, last := vs[..|vs| - 1], vs[|vs| - 1];
      assert vs == init + [last];
      var rest := Tick(init);
      if Aged(last).lifetime <= 0 then rest else rest + [Aged(last)]
  }

  /** Ticking is done message by message: the messages keep their order. */
  lemma {:induction false} TickAppend(a: seq<MessageView>, b: seq<MessageView>)
    ensures Tick(a + b) == Tick(a) + Tick(b)
  {
    if b != [] {
      var init := b[..|b| - 1];
      assert (a + b)[..|a + b| - 1] == a + init;
      assert (a + b)[|a + b| - 1] == b[|b| - 1];
      TickAppend(a, init);
    } else {
      assert a + b == a;
    }
  }

  /** A message survives an update exactly when it had more than one tick
      left, and comes out aged. */
  lemma {:induction false} TickMembers(vs: seq<MessageView>)
    ensures forall w :: w in Tick(vs) <==> exists v :: v in vs && v.lifetime > 1 && w == Aged(v)
  {
    if vs != [] {
      var init, last := vs[..|vs| - 1], vs[|vs| - 1];
      assert vs == init + [last];
      TickMembers(init);
      forall w ensures w in Tick(vs) <==> exists v :: v in vs && v.lifetime > 1 && w == Aged(v) {
        if w in Tick(vs) {
          if w in Tick(init) {
            var v :| v in init && v.lifetime > 1 && w == Aged(v);
            assert v in vs;
          } else {
            assert last in vs;
          }
        } else {
          forall v | v in vs && v.lifetime > 1 ensures w != Aged(v) {
            if v in init {
              assert w !in Tick(init);
            }
          }
        }
      }
    }
  }

  /** n consecutive updates. */
  function TickN(vs: seq<MessageView>, n: nat): seq<MessageView>
  {
    if n == 0 then vs else Tick(TickN(vs, n - 1))
  }

  /** One message alone: it survives an update exactly when it had more
      than one tick left. */
  lemma TickOne(w: MessageView)
    ensures Tick([w]) == if w.lifetime <= 1 then [] else [Aged(w)]
  {
    assert [w][..0] == [];
  }

  /** A message with lifetime L survives L - 1 updates, each taking one from
      its lifetime and its y, and is dropped by the L-th. */
  lemma {:induction false} MessageLifespan(v: MessageView, n: nat)
    requires 0 < v.lifetime && n <= v.lifetime
    ensures n < v.lifetime ==> TickN([v], n) == [MessageView(v.x, v.y - n as real, v.lifetime - n)]
    ensures n == v.lifetime ==> TickN([v], n) == []
  {
    if n > 0 {
      MessageLifespan(v, n - 1);
      TickOne(MessageView(v.x, v.y - (n - 1) as real, v.lifetime - (n - 1)));
    }
  }

  class ScoreMessage {
    var x: int
    var y: real
    var lifetime: int

    function View(): MessageView
      reads this
    {
      MessageView(x, y, lifetime)
    }

    constructor (x: int, y: real)
      ensures View() == MessageView(x, y, MessageLifetime)
    {
      this.x := x;
      this.y := y;
      lifetime := MessageLifetime;
    }

    /** `update`. */
    method Update()
      modifies this
      ensures View() == Aged(old(View()))
    {
      lifetime := lifetime - 1;
      y := y - 1.0;
    }

    /** `is_expired`. */
    predicate IsExpired(): (r: bool)
      reads this
      ensures r <==> View().lifetime <= 0
    {
      lifetime <= 0
    }
  }

  /** The states of a list of messages. */
  function Views(ms: seq<ScoreMessage>): (vs: seq<MessageView>)
    reads set m | m in ms
    ensures |vs| == |ms|
    ensures forall i :: 0 <= i < |ms| ==> vs[i] == ms[i].View()
  {
    if ms == [] then [] else Views(ms[..|ms| - 1]) + [ms[|ms| - 1].View()]
  }

  /** A message appended to a list adds its state at the end. */
  lemma ViewsAppend(ms: seq<ScoreMessage>, m: ScoreMessage)
    ensures Views(ms + [m]) == Views(ms) + [m.View()]
  {
    assert (ms + [m])[..|ms|] == ms;
  }

  /** The messages of ms that survive one update, judged by their states
      `before` it, in order. */
  function Survivors(ms: seq<ScoreMessage>, before: seq<MessageView>): (r: seq<ScoreMessage>)
    requires |ms| == |before|
    ensures forall m :: m in r ==> m in ms
    ensures Distinct(ms) ==> Distinct(r)
  {
    if ms == [] then []
    else
      var n := |ms| - 1;
      var rest := Survivors(ms[..n], before[..n]);
      assert forall m :: m in ms[..n] ==> m in ms;
      if Aged(before[n]).lifetime <= 0 then rest
      else
        assert Distinct(ms) ==> ms[n] !in rest by {
          if Distinct(ms) {
            forall m | m in rest ensures m != ms[n] {
              var k :| 0 <= k < n && ms[..n][k] == m;
              assert ms[k] != ms[n];
            }
          }
        }
        assert Distinct(ms) ==> Distinct(ms[..n]);
        rest + [ms[n]]
  }

  /** One iteration of `update_score_messages`' loop over its copy of the
      list: an expired message is removed with `remove`, a live one stays. */
  lemma SurvivorStep(ms: seq<ScoreMessage>, before: seq<MessageView>, i: nat)
    requires |ms| == |before| && i < |ms| && Distinct(ms)
    ensures Aged(before[i]).lifetime <= 0 ==>
              RemoveFirst(Survivors(ms[..i], before[..i]) + ms[i..], ms[i]) ==
              Survivors(ms[..i + 1], before[..i + 1]) + ms[i + 1..]
    ensures Aged(before[i]).lifetime > 0 ==>
              Survivors(ms[..i], before[..i]) + ms[i..] ==
              Survivors(ms[..i + 1], before[..i + 1]) + ms[i + 1..]
  {
    assert ms[..i + 1][..i] == ms[..i];
    assert before[..i + 1][..i] == before[..i];
    assert ms[i..] == [ms[i]] + ms[i + 1..];
    assert Survivors(ms[..i + 1], before[..i + 1]) ==
           Survivors(ms[..i], before[..i]) + (if Aged(before[i]).lifetime <= 0 then [] else [ms[i]]);
    if Aged(before[i]).lifetime <= 0 {
      forall m | m in ms[..i] ensures m != ms[i] {
        var k :| 0 <= k < i && ms[..i][k] == m;
        assert ms[k] != ms[i];
      }
      var rest := Survivors(ms[..i], before[..i]);
      assert ms[i] !in rest;
      assert rest + ms[i..] == rest + [ms[i]] + ms[i + 1..];
      RemoveFirstAt(rest, ms[i], ms[i + 1..]);
    }
  }

  /** One step of `Survivors`: the last message survives when it has ticks left. */
  lemma SurvivorsLast(ms: seq<ScoreMessage>, before: seq<MessageView>)
    requires |ms| == |before| > 0
    ensures var n := |ms| - 1;
            Survivors(ms, before) ==
              Survivors(ms[..n], before[..n]) + if Aged(before[n]).lifetime <= 0 then [] else [ms[n]]
  {
  }

  /** One step of `Tick`: the last state survives when it has ticks left. */
  lemma TickLast(vs: seq<MessageView>)
    requires vs != []
    ensures var n := |vs| - 1;
            Tick(vs) == Tick(vs[..n]) + if Aged(vs[n]).lifetime <= 0 then [] else [Aged(vs[n])]
  {
  }

  /** When every message has aged by one update, the survivors' states are
      the ticked states. */
  lemma {:induction false} ViewsOfSurvivors(ms: seq<ScoreMessage>, before: seq<MessageView>)
    requires |ms| == |before|
    requires forall k :: 0 <= k < |ms| ==> ms[k].View() == Aged(before[k])
    ensures Views(Survivors(ms, before)) == Tick(before)
  {
    if ms != [] {
      var n := |ms| - 1;
      forall k | 0 <= k < n ensures ms[..n][k].View() == Aged(before[..n][k]) {
        assert ms[..n][k] == ms[k] && before[..n][k] == before[k];
      }
      ViewsOfSurvivors(ms[..n], before[..n]);
      SurvivorsLast(ms, before);
      TickLast(before);
      var rest := Survivors(ms[..n], before[..n]);
      if Aged(before[n]).lifetime > 0 {
        ViewsAppend(rest, ms[n]);
      } else {
        assert Survivors(ms, before) == rest;
      }
    }
  }


  /** The name after one key press in the name box: backspace drops the last
      character (an empty name stays empty), any other key appends its text
      while the name is shorter than 15. */
  function EditName(name: string, key: Key, unicode: string): (r: string)
    requires key != KeyReturn
    ensures key == KeyBackspace ==> |r| == (if name == [] then 0 else |name| - 1) && r == name[..|r|]
    ensures key != KeyBackspace && |name| < MaxNameLength ==> r == name + unicode
    ensures key != KeyBackspace && |name| >= MaxNameLength ==> r == name
    ensures |name| <= MaxNameLength && |unicode| <= 1 ==> |r| <= MaxNameLength
  {
    if key == KeyBackspace then
      if name == [] then name else name[..|name| - 1]
    else if |name| < MaxNameLength then name + unicode
    else name
  }

  /** Typing one character at a time, a name never grows past 15. */
  lemma {:induction false} NameLengthBound(name: string, keys: seq<(Key, string)>)
    requires |name| <= MaxNameLength
    requires forall i :: 0 <= i < |keys| ==> keys[i].0 != KeyReturn && |keys[i].1| <= 1
    ensures |EditAll(name, keys)| <= MaxNameLength
    decreases |keys|
  {
    if keys != [] {
      NameLengthBound(EditName(name, keys[0].0, keys[0].1), keys[1..]);
    }
  }

  /** A sequence of key presses applied in order. */
  function EditAll(name: string, keys: seq<(Key, string)>): string
    requires forall i :: 0 <= i < |keys| ==> keys[i].0 != KeyReturn
    decreases |keys|
  {
    if keys == [] then name else EditAll(EditName(name, keys[0].0, keys[0].1), keys[1..])
  }

  /** One iteration of the loop of `update_score_messages`: the i-th message
      of the copy is updated and, once expired, removed from the list. */
  method AgeOne(snapshot: seq<ScoreMessage>, ghost before: seq<MessageView>, i: nat, kept0: seq<ScoreMessage>)
    returns (kept: seq<ScoreMessage>)
    requires Distinct(snapshot) && |before| == |snapshot| && i < |snapshot|
    requires kept0 == Survivors(snapshot[..i], before[..i]) + snapshot[i..]
    requires forall k :: 0 <= k < |snapshot| ==>
               snapshot[k].View() == if k < i then Aged(before[k]) else before[k]
    modifies snapshot[i]
    ensures kept == Survivors(snapshot[..i + 1], before[..i + 1]) + snapshot[i + 1..]
    ensures forall k :: 0 <= k < |snapshot| ==>
              snapshot[k].View() == if k < i + 1 then Aged(before[k]) else before[k]
  {
    var msg := snapshot[i];
    SurvivorStep(snapshot, before, i);
    msg.Update();
    kept := kept0;
    if msg.IsExpired() {
      kept := RemoveFirst(kept, msg);
    }
    forall k | 0 <= k < |snapshot| && k != i
      ensures snapshot[k].View() == if k < i then Aged(before[k]) else before[k]
    {
      assert snapshot[k] != msg;
      assert snapshot[k].View() == old(snapshot[k].View());
    }
  }

  /** The loop of `update_score_messages`: it walks a copy of the list,
      updates each message and removes from the list the ones that expire. */
  method AgeMessages(snapshot: seq<ScoreMessage>) returns (kept: seq<ScoreMessage>)
    requires Distinct(snapshot)
    modifies set m | m in snapshot
    ensures Distinct(kept)
    ensures Views(kept) == Tick(old(Views(snapshot)))
    ensures forall m :: m in kept ==> m in snapshot
  {
    ghost var before := Views(snapshot);
    kept := snapshot;
    var i := 0;
    while i < |snapshot|
      invariant 0 <= i <= |snapshot|
      invariant kept == Survivors(snapshot[..i], before[..i]) + snapshot[i..]
      invariant forall k :: 0 <= k < |snapshot| ==>
                  snapshot[k].View() == if k < i then Aged(before[k]) else before[k]
    {
      kept := AgeOne(snapshot, before, i, kept);
      i := i + 1;
    }
    assert snapshot[..i] == snapshot && before[..i] == before;
    ViewsOfSurvivors(snapshot, before);
  }

  /** The name-entry form as a value: open or closed, the name box focused or
      not, the typed name, and the stored board a submission goes to. */
  datatype Form = Form(open: bool, focused: bool, name: string, board: seq<Entry>)

  /** `submit_score` on the form: with the form open and a positive score the
      entry goes in, the form closes and the name is cleared; otherwise
      nothing changes. */
  function Submit(f: Form, score: int): (g: Form)
    ensures f.open && score > 0 ==>
              !g.open && g.name == "" && g.focused == f.focused
              && g.board == AfterAdd(f.board, Entry(NormalizeName(f.name), score))
    ensures !(f.open && score > 0) ==> g == f
  {
    if f.open && score > 0 then Form(false, f.focused, "", AfterAdd(f.board, Entry(NormalizeName(f.name), score)))
    else f
  }

  /** `handle_input_events` on the form: the form after one event, and
      whether the event answered "submitted". */
  function InputStep(f: Form, e: Event, score: int): (r: (Form, bool))
    ensures !f.open ==> r == (f, false)
    ensures r.0.open ==> f.open
    ensures !r.1 ==> r.0.board == f.board
  {
    if !f.open then (f, false)
    else
      match e
      case MouseDown(_, inInputBox, onSubmit) =>
        var g := f.(focused := inInputBox);
        if onSubmit then (Submit(g, score), true) else (g, false)
      case KeyDown(key, unicode) =>
        if !f.focused then (f, false)
        else if key == KeyReturn then (Submit(f, score), true)
        else (f.(name := EditName(f.name, key, unicode)), false)
      case _ => (f, false)
  }

  /** What one event does to the form: a closed form ignores everything; an
      open form stays open unless the event submits; a submission with a
      positive score closes it, clears the name and adds exactly the typed
      entry; nothing but a submission touches the board. */
  lemma InputStepProperties(f: Form, e: Event, score: int)
    ensures !f.open ==> InputStep(f, e, score) == (f, false)
    ensures f.open && !InputStep(f, e, score).1 ==> InputStep(f, e, score).0.open
    ensures InputStep(f, e, score).1 <==>
              f.open && ((e.MouseDown? && e.onSubmit) || (e.KeyDown? && f.focused && e.key == KeyReturn))
    ensures InputStep(f, e, score).1 && score > 0 ==>
              var g := InputStep(f, e, score).0;
              !g.open && g.name == "" && g.board == AfterAdd(f.board, Entry(NormalizeName(f.name), score))
    ensures !InputStep(f, e, score).1 ==> InputStep(f, e, score).0.board == f.board
  {
  }

  class ScoreSystem {
    var score: int
    var highScore: int
    var scoreMessages: seq<ScoreMessage>
    /** The stored leaderboard list (the file's "scores" key). */
    var leaderboard: seq<Entry>
    var username: string
    var activeInput: bool
    var showNameInput: bool

    /** The name-entry form's part of the state. */
    function FormState(): Form
      reads this
    {
      Form(showNameInput, activeInput, username, leaderboard)
    }

    /** `remove` takes out the right message only because no message object
        is in the list twice. */
    ghost predicate Valid()
      reads this
    {
      Distinct(scoreMessages)
    }

    /** A fresh score system over the stored leaderboard: the high score is
        the first stored entry's score, or 0 for an empty board. */
    constructor (stored: seq<Entry>)
      ensures Valid()
      ensures leaderboard == stored && score == 0 && scoreMessages == []
      ensures highScore == if stored == [] then 0 else stored[0].score
      ensures SortedDesc(stored) ==> forall i :: 0 <= i < |stored| ==> stored[i].score <= highScore
      ensures username == "" && !activeInput && !showNameInput
    {
      score := 0;
      highScore := 0;
      scoreMessages := [];
      leaderboard := stored;
      var top := TopScores(stored, 1);
      if top != [] {
        highScore := top[0].score;
      }
      username := "";
      activeInput := false;
      showNameInput := false;
    }

    /** `increase_score`. */
    method IncreaseScore()
      modifies this
      ensures score == old(score) + 1
      ensures highScore == old(highScore) && scoreMessages == old(scoreMessages)
      ensures leaderboard == old(leaderboard) && username == old(username)
      ensures activeInput == old(activeInput) && showNameInput == old(showNameInput)
    {
      score := score + 1;
    }

    /** `add_score_message`: a new message with full lifetime goes at the end. */
    method AddScoreMessage(x: int, y: real)
      requires Valid()
      modifies this
      ensures Valid()
      ensures |scoreMessages| == |old(scoreMessages)| + 1
      ensures scoreMessages[..|old(scoreMessages)|] == old(scoreMessages)
      ensures fresh(scoreMessages[|old(scoreMessages)|])
      ensures scoreMessages[|old(scoreMessages)|].View() == MessageView(x, y, MessageLifetime)
      ensures score == old(score) && highScore == old(highScore) && leaderboard == old(leaderboard)
      ensures username == old(username) && activeInput == old(activeInput) && showNameInput == old(showNameInput)
    {
      var m := new ScoreMessage(x, y);
      scoreMessages := scoreMessages + [m];
    }

    /** One frame of the messages during play: the point just scored, if
        any, shows its message at (x, y), then every message ages. */
    method MessagesTick(scored: bool, x: int, y: real)
      requires Valid()
      modifies this, set m | m in scoreMessages
      ensures Valid()
      ensures Views(scoreMessages) ==
                Tick(old(Views(scoreMessages)) + if scored then [MessageView(x, y, MessageLifetime)] else [])
      ensures score == old(score) && highScore == old(highScore) && leaderboard == old(leaderboard)
      ensures username == old(username) && activeInput == old(activeInput) && showNameInput == old(showNameInput)
    {
      ghost var before := scoreMessages;
      ghost var shown := Views(before) + if scored then [MessageView(x, y, MessageLifetime)] else [];
      if scored {
        AddScoreMessage(x, y);
        ViewsAppend(before, scoreMessages[|before|]);
        assert scoreMessages == before + [scoreMessages[|before|]];
      }
      assert Views(scoreMessages) == shown;
      UpdateScoreMessages();
    }

    /** `update_score_messages`: the messages as a whole take one `Tick`;
        no message is created. */
    method UpdateScoreMessages()
      requires Valid()
      modifies this, scoreMessages
      ensures Valid()
      ensures Views(scoreMessages) == Tick(old(Views(scoreMessages)))
      ensures forall m :: m in scoreMessages ==> m in old(scoreMessages)
      ensures score == old(score) && highScore == old(highScore) && leaderboard == old(leaderboard)
      ensures username == old(username) && activeInput == old(activeInput) && showNameInput == old(showNameInput)
    {
      ghost var before := Views(scoreMessages);
      var kept := AgeMessages(scoreMessages);
      assert Views(kept) == Tick(before);
      scoreMessages := kept;
    }

    /** `add_score`: the stored list becomes the first ten of a stable sort,
        highest first, of the old list with the new entry appended; a blank
        name is stored as "Player". */
    method AddScore(name: string, newScore: int)
      modifies this
      ensures leaderboard == AfterAdd(old(leaderboard), Entry(NormalizeName(name), newScore))
      ensures score == old(score) && highScore == old(highScore) && scoreMessages == old(scoreMessages)
      ensures username == old(username) && activeInput == old(activeInput) && showNameInput == old(showNameInput)
    {
      var entry := Entry(NormalizeName(name), newScore);
      var scores := leaderboard + [entry];
      scores := SortDesc(scores);
      ghost var sorted := scores;
      if |scores| > Capacity {
        scores := scores[..Capacity];
      }
      assert scores == Take(sorted, Capacity);
      leaderboard := scores;
    }

    /** `update_high_score`: the high score becomes the larger of the two, and
        the name-entry form opens, focused, exactly when the score qualifies
        for the leaderboard and is positive. */
    method UpdateHighScore()
      modifies this
      ensures highScore == if score > old(highScore) then score else old(highScore)
      ensures highScore >= old(highScore) && highScore >= score
      ensures IsHighScore(leaderboard, score) && score > 0 ==> showNameInput && activeInput
      ensures !(IsHighScore(leaderboard, score) && score > 0) ==>
                showNameInput == old(showNameInput) && activeInput == old(activeInput)
      ensures score == old(score) && scoreMessages == old(scoreMessages) && leaderboard == old(leaderboard)
      ensures username == old(username)
    {
      if score > highScore {
        highScore := score;
      }
      if IsHighScore(leaderboard, score) && score > 0 {
        showNameInput := true;
        activeInput := true;
      }
    }

    /** `submit_score`: with the form open and a positive score, one entry is
        added under the typed name, the form closes and the name is cleared;
        otherwise nothing happens. */
    method SubmitScore() returns (ok: bool)
      modifies this
      ensures ok <==> old(showNameInput) && old(score) > 0
      ensures ok ==> leaderboard == AfterAdd(old(leaderboard), Entry(NormalizeName(old(username)), old(score)))
      ensures ok ==> !showNameInput && username == ""
      ensures ok ==> score == old(score) && highScore == old(highScore) && scoreMessages == old(scoreMessages)
      ensures ok ==> activeInput == old(activeInput)
      ensures !ok ==> unchanged(this)
    {
      if showNameInput && score > 0 {
        AddScore(username, score);
        showNameInput := false;
        username := "";
        return true;
      }
      return false;
    }

    /** `reset_score`: a new round starts from zero with no messages and the
        form closed; the high score and the board stay. */
    method ResetScore()
      modifies this
      ensures Valid()
      ensures score == 0 && scoreMessages == [] && !showNameInput && username == ""
      ensures highScore == old(highScore) && leaderboard == old(leaderboard) && activeInput == old(activeInput)
    {
      score := 0;
      scoreMessages := [];
      showNameInput := false;
      username := "";
    }

    /** `handle_input_events` for one event, answering whether it submitted.
        Nothing happens while the form is closed. A click focuses or
        unfocuses the name box and submits when it hits the button; with the
        box focused, Return submits and other keys edit the name. */
    method HandleInputEvent(e: Event) returns (submitted: bool)
      modifies this
      ensures !old(showNameInput) ==> !submitted && unchanged(this)
      ensures old(showNameInput) && e.MouseDown? ==>
                submitted == e.onSubmit && (!e.onSubmit ==> username == old(username))
      ensures old(showNameInput) && e.MouseDown? && !e.onSubmit ==> activeInput == e.inInputBox
      ensures old(showNameInput) && e.KeyDown? && old(activeInput) ==> submitted == (e.key == KeyReturn)
      ensures old(showNameInput) && e.KeyDown? && old(activeInput) && e.key != KeyReturn ==>
                username == EditName(old(username), e.key, e.unicode) && showNameInput
      ensures submitted ==> !showNameInput || old(score) <= 0
      ensures old(showNameInput) && !submitted ==> showNameInput
      ensures submitted && old(score) > 0 ==> !showNameInput && username == ""
      ensures (FormState(), submitted) == InputStep(old(FormState()), e, old(score))
      ensures old(showNameInput) && !e.MouseDown? && !(e.KeyDown? && old(activeInput)) ==>
                !submitted && unchanged(this)
      ensures score == old(score) && highScore == old(highScore) && scoreMessages == old(scoreMessages)
      ensures !submitted ==> leaderboard == old(leaderboard)
      ensures submitted ==> leaderboard == if old(score) > 0
                                           then AfterAdd(old(leaderboard), Entry(NormalizeName(old(username)), old(score)))
                                           else old(leaderboard)
    {
      if !showNameInput {
        return false;
      }
      match e {
        case MouseDown(_, inInputBox, onSubmit) =>
          activeInput := inInputBox;
          if onSubmit {
            var _ := SubmitScore();
            return true;
          }
        case KeyDown(key, unicode) =>
          if activeInput {
            if key == KeyReturn {
              var _ := SubmitScore();
              return true;
            } else if key == KeyBackspace {
              username := if username == [] then username else username[..|username| - 1];
            } else if |username| < MaxNameLength {
              username := username + unicode;
            }
          }
        case _ =>
      }
      return false;
    }
  }
}
