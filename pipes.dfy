/** The pipe manager (code/pipes.py): the live pipes, oldest first, and the
    pipes already credited for scoring.

    Python keeps pygame `Rect` objects in both lists, so `passed_pipes` holds
    references to the very rectangles in `pipes`. Here every pipe carries an
    identifier, handed out once at spawn time, and `passedPipes` holds
    identifiers: an identifier stands for a rectangle object. */
module Pipes {
  import opened Geometry
  import opened ScreenSettings
  import opened Sequences

  /** `move_pipes` keeps at most this many pipes. */
  const MaxPipes: nat := 8
  /** A pipe whose centre is at or left of this x is off screen. */
  const OffscreenX: real := -100.0
  /** New pipes appear this far right of the screen's right edge. */
  const SpawnMargin: int := 100

  /** The outcome of `random.choice` over the three pipe heights. */
  type HeightIndex = i: nat | i < 3

  datatype Pipe = Pipe(id: nat, rect: Rect) {
    /** The pipe after `centerx -= d`. */
    function Moved(d: real): Pipe
    {
      Pipe(id, rect.ShiftedLeft(d))
    }
  }

  /** `pipe_heights`: 60, 50 and 70 percent of the screen height. */
  function PipeHeights(height: int): (hs: seq<real>)
    ensures |hs| == 3
  {
    [height as real * 0.6, height as real * 0.5, height as real * 0.7]
  }

  /** `create_pipe_pair`: a bottom pipe whose top edge is at `pos`, then a top
      pipe whose bottom edge is a third of the screen height above it, both
      centred 100 pixels right of the screen. */
  function CreatePair(width: int, height: int, w: nat, h: nat, pos: real, id: nat): (pair: seq<Pipe>)
    ensures |pair| == 2 && pair[0].id == id && pair[1].id == id + 1
    ensures pair[0].rect.CenterX() == (width + SpawnMargin) as real
    ensures pair[1].rect.CenterX() == (width + SpawnMargin) as real
    ensures pair[0].rect.top == pos
    ensures pair[1].rect.Bottom() == pair[0].rect.top - (height / 3) as real
    ensures height >= 3 ==> pair[1].rect.Bottom() < pair[0].rect.top
    ensures pair[0].rect.width == pair[1].rect.width == w
    ensures pair[0].rect.height == pair[1].rect.height == h
  {
    var cx := (width + SpawnMargin) as real;
    var gap := height / 3;
    [Pipe(id, AtMidTop(cx, pos, w, h)), Pipe(id + 1, AtMidBottom(cx, pos - gap as real, w, h))]
  }

  /** Every pipe moved left by d, in order. */
  function MovedAll(ps: seq<Pipe>, d: real): (r: seq<Pipe>)
    ensures |r| == |ps|
    ensures forall i :: 0 <= i < |r| ==> r[i] == ps[i].Moved(d)
  {
    seq(|ps|, i requires 0 <= i < |ps| => ps[i].Moved(d))
  }

  /** `ps[-n:]` when ps is longer than n, else ps. */
  function LastAtMost(ps: seq<Pipe>, n: nat): (r: seq<Pipe>)
    ensures |r| == if |ps| < n then |ps| else n
    ensures r == ps[|ps| - |r|..]
  {
    if |ps| > n then ps[|ps| - n..] else ps
  }

  /** Moving and then keeping the last n is keeping the last n and then moving
      them: after `move_pipes` the survivors are the newest pipes, in order. */
  lemma LastAtMostMoved(ps: seq<Pipe>, n: nat, d: real)
    ensures LastAtMost(MovedAll(ps, d), n) == MovedAll(LastAtMost(ps, n), d)
  {
    if |ps| > n {
      var m := MovedAll(ps, d);
      var a, b := m[|ps| - n..], MovedAll(ps[|ps| - n..], d);
      forall i | 0 <= i < n ensures a[i] == b[i] {
        assert a[i] == m[|ps| - n + i] == ps[|ps| - n + i].Moved(d);
      }
    }
  }

  /** What `move_pipes` does to the list: every pipe moves left by 5 times
      the scale factor and only the newest `MaxPipes` survive, in order. */
  function Advance(ps: seq<Pipe>, scaleFactor: real): (r: seq<Pipe>)
    ensures |r| == if |ps| < MaxPipes then |ps| else MaxPipes
    ensures forall i :: 0 <= i < |r| ==> r[i] == ps[|ps| - |r| + i].Moved(5.0 * scaleFactor)
  {
    var n := if |ps| < MaxPipes then |ps| else MaxPipes;
    seq(n, i requires 0 <= i < n => ps[|ps| - n + i].Moved(5.0 * scaleFactor))
  }

  /** `Advance` is the two steps of `move_pipes` in order: every pipe moves,
      then only the newest `MaxPipes` are kept. */
  lemma AdvanceIsMoveThenCap(ps: seq<Pipe>, scaleFactor: real)
    ensures Advance(ps, scaleFactor) == LastAtMost(MovedAll(ps, 5.0 * scaleFactor), MaxPipes)
  {
    var d := 5.0 * scaleFactor;
    var r, m := Advance(ps, scaleFactor), MovedAll(ps, d);
    var c := LastAtMost(m, MaxPipes);
    var o := |ps| - |r|;
    assert |c| == |r| && c == m[o..];
    forall i | 0 <= i < |r| ensures r[i] == c[i] {
      assert c[i] == m[o + i] == ps[o + i].Moved(d);
    }
  }

  /** Moving and capping the list neither invents nor repeats identifiers. */
  lemma AdvanceKeepsIds(ps: seq<Pipe>, scaleFactor: real)
    ensures IdSet(Advance(ps, scaleFactor)) <= IdSet(ps)
  {
    var r := Advance(ps, scaleFactor);
    var o := |ps| - |r|;
    forall i | 0 <= i < |r| ensures r[i].id in IdSet(ps) {
      assert r[i].id == ps[o + i].id;
      assert ps[o + i] in ps;
    }
    forall id | id in IdSet(r) ensures id in IdSet(ps) {
      var p :| p in r && p.id == id;
      var i :| 0 <= i < |r| && r[i] == p;
    }
  }

  /** ... and keeps them distinct. */
  lemma AdvanceKeepsDistinct(ps: seq<Pipe>, scaleFactor: real)
    requires IdsDistinct(ps)
    ensures IdsDistinct(Advance(ps, scaleFactor))
  {
    var r := Advance(ps, scaleFactor);
    forall i, j | 0 <= i < j < |r| ensures r[i].id != r[j].id {
      var o := |ps| - |r|;
      assert r[i].id == ps[o + i].id && r[j].id == ps[o + j].id;
    }
  }

  /** Every pipe that survives `move_pipes` was there before, so an upper
      bound on the old identifiers bounds the new ones. */
  lemma AdvanceIdBound(ps: seq<Pipe>, scaleFactor: real, bound: nat)
    requires forall i :: 0 <= i < |ps| ==> ps[i].id < bound
    ensures forall i :: 0 <= i < |Advance(ps, scaleFactor)| ==> Advance(ps, scaleFactor)[i].id < bound
  {
    var r := Advance(ps, scaleFactor);
    forall i | 0 <= i < |r| ensures r[i].id < bound {
      assert r[i].id == ps[|ps| - |r| + i].id;
    }
  }

  /** The part of the manager's invariant that concerns the live list:
      identifiers are unique and already handed out (below `next`), and a
      credited pipe that is still live is still in `passed`. */
  ghost predicate LiveInvariant(ps: seq<Pipe>, passed: seq<nat>, credited: set<nat>, next: nat)
  {
    && IdsDistinct(ps)
    && (forall i :: 0 <= i < |ps| ==> ps[i].id < next)
    && (forall id :: id in credited ==> id < next && (id in passed || id !in IdSet(ps)))
  }

  /** The live-list invariant survives `move_pipes`, which only moves and
      drops pipes. */
  lemma AdvanceKeepsInvariant(ps: seq<Pipe>, scaleFactor: real, passed: seq<nat>, credited: set<nat>, next: nat)
    requires LiveInvariant(ps, passed, credited, next)
    ensures LiveInvariant(Advance(ps, scaleFactor), passed, credited, next)
  {
    AdvanceKeepsIds(ps, scaleFactor);
    AdvanceKeepsDistinct(ps, scaleFactor);
    AdvanceIdBound(ps, scaleFactor, next);
  }

  predicate OnScreen(p: Pipe)
  {
    p.rect.CenterX() > OffscreenX
  }

  predicate IdsDistinct(ps: seq<Pipe>)
  {
    forall i, j {:trigger ps[i].id, ps[j].id} :: 0 <= i < j < |ps| ==> ps[i].id != ps[j].id
  }

  function IdSet(ps: seq<Pipe>): set<nat>
  {
    set p | p in ps :: p.id
  }

  /** The pipes that `remove_offscreen_pipes` keeps, in their order. */
  function Visible(ps: seq<Pipe>): (r: seq<Pipe>)
    ensures forall p :: p in r <==> p in ps && OnScreen(p)
    ensures IdsDistinct(ps) ==> IdsDistinct(r)
    ensures |r| <= |ps|
  {
    if ps == [] then []
    else
      var init, last := ps[..|ps| - 1], ps[|ps| - 1];
      assert ps == init + [last];
      var rest := Visible(init);
      if !OnScreen(last) then rest
      else
        var r := rest + [last];
        assert IdsDistinct(ps) ==> IdsDistinct(r) by {
          if IdsDistinct(ps) {
            assert IdsDistinct(init);
            forall i, j | 0 <= i < j < |r| ensures r[i].id != r[j].id {
              if j == |r| - 1 {
                assert r[i] in rest;
                var k :| 0 <= k < |init| && init[k] == r[i];
              }
            }
          }
        }
        r
  }

  /** The identifiers of the pipes that `remove_offscreen_pipes` drops. */
  function Gone(ps: seq<Pipe>): set<nat>
  {
    set p | p in ps && !OnScreen(p) :: p.id
  }

  /** A pipe scores when its centre is left of the bird, it reaches the floor
      line (it is the bottom pipe of its pair) and it has not been credited. */
  predicate Creditable(p: Pipe, birdX: int, height: int, passed: seq<nat>)
  {
    p.rect.CenterX() < birdX as real && p.id !in passed && p.rect.Bottom() >= height as real
  }

  /** Some pipe of ps from position i on would score (from 0: `check_score`
      finds a pipe). */
  predicate CreditableFrom(ps: seq<Pipe>, i: nat, birdX: int, height: int, passed: seq<nat>)
    decreases |ps| - i
  {
    i < |ps| && (Creditable(ps[i], birdX, height, passed) || CreditableFrom(ps, i + 1, birdX, height, passed))
  }

  /** The same, by position. */
  lemma {:induction false} CreditableFromIff(ps: seq<Pipe>, i: nat, birdX: int, height: int, passed: seq<nat>)
    ensures CreditableFrom(ps, i, birdX, height, passed) <==>
            exists k :: i <= k < |ps| && Creditable(ps[k], birdX, height, passed)
    decreases |ps| - i
  {
    if i < |ps| {
      CreditableFromIff(ps, i + 1, birdX, height, passed);
    }
  }

  /** A visible pipe's identifier is not among the dropped ones, so taking
      the dropped identifiers out of `passed` does not change which visible
      pipe would score. */
  lemma CreditableAfterRemoval(ps: seq<Pipe>, passed: seq<nat>, birdX: int, height: int)
    requires IdsDistinct(ps)
    ensures CreditableFrom(Visible(ps), 0, birdX, height, Without(passed, Gone(ps))) <==>
            CreditableFrom(Visible(ps), 0, birdX, height, passed)
  {
    var vs := Visible(ps);
    CreditableFromIff(vs, 0, birdX, height, passed);
    CreditableFromIff(vs, 0, birdX, height, Without(passed, Gone(ps)));
    forall k | 0 <= k < |vs|
      ensures Creditable(vs[k], birdX, height, Without(passed, Gone(ps))) <==>
              Creditable(vs[k], birdX, height, passed)
    {
      var p := vs[k];
      assert p in vs;
      forall q | q in ps && q.id == p.id ensures OnScreen(q) {
        SameIdSamePipe(ps, p, q);
      }
      assert p.id !in Gone(ps);
    }
  }

  /** The pairs `spawn_pipe` appends for a run of height choices, in order,
      numbered from `id` on: the identifiers run on without a gap. */
  function Spawned(width: int, height: int, w: nat, h: nat, heights: seq<real>, choices: seq<HeightIndex>, id: nat)
    : (r: seq<Pipe>)
    requires |heights| == 3
    ensures |r| == 2 * |choices|
    ensures forall k :: 0 <= k < |r| ==> r[k].id == id + k
  {
    if choices == [] then []
    else
      var n := |choices| - 1;
      Spawned(width, height, w, h, heights, choices[..n], id) +
      CreatePair(width, height, w, h, heights[choices[n]], id + 2 * n)
  }

  /** One more choice appends one more pair, numbered after the others. */
  lemma SpawnedSnoc(width: int, height: int, w: nat, h: nat, heights: seq<real>, choices: seq<HeightIndex>,
                    c: HeightIndex, id: nat)
    requires |heights| == 3
    ensures Spawned(width, height, w, h, heights, choices + [c], id) ==
            Spawned(width, height, w, h, heights, choices, id) + CreatePair(width, height, w, h, heights[c], id + 2 * |choices|)
  {
    assert (choices + [c])[..|choices|] == choices;
  }

  /** The same, after a list of pipes that were there before. */
  lemma SpawnedAfter(ps: seq<Pipe>, width: int, height: int, w: nat, h: nat, heights: seq<real>,
                     choices: seq<HeightIndex>, c: HeightIndex, id: nat)
    requires |heights| == 3
    ensures ps + Spawned(width, height, w, h, heights, choices + [c], id) ==
            (ps + Spawned(width, height, w, h, heights, choices, id)) +
            CreatePair(width, height, w, h, heights[c], id + 2 * |choices|)
  {
    var before, pair := Spawned(width, height, w, h, heights, choices, id), CreatePair(width, height, w, h, heights[c], id + 2 * |choices|);
    SpawnedSnoc(width, height, w, h, heights, choices, c, id);
    assert ps + (before + pair) == (ps + before) + pair;
  }

  /** One more spawn on top of a list built by spawning: the list is still
      the original pipes followed by the spawned pairs. */
  lemma SpawnStep(ps: seq<Pipe>, before: seq<Pipe>, after: seq<Pipe>, width: int, height: int, w: nat, h: nat,
                  heights: seq<real>, choices: seq<HeightIndex>, c: HeightIndex, id: nat, next: nat)
    requires |heights| == 3 && next == id + 2 * |choices|
    requires before == ps + Spawned(width, height, w, h, heights, choices, id)
    requires after == before + CreatePair(width, height, w, h, heights[c], next)
    ensures after == ps + Spawned(width, height, w, h, heights, choices + [c], id)
  {
    SpawnedAfter(ps, width, height, w, h, heights, choices, c, id);
  }

  /** Two pipes of a list without repeated identifiers that share an
      identifier are the same pipe. */
  lemma SameIdSamePipe(s: seq<Pipe>, p: Pipe, q: Pipe)
    requires IdsDistinct(s) && p in s && q in s && p.id == q.id
    ensures p == q
  {
    var a :| 0 <= a < |s| && s[a] == p;
    var b :| 0 <= b < |s| && s[b] == q;
    assert a == b;
  }

  /** One iteration of `remove_offscreen_pipes` on `pipes`: removing the i-th
      pipe of the snapshot when it is off screen extends the filtered prefix by
      one pipe. */
  lemma VisibleStep(s: seq<Pipe>, i: nat)
    requires i < |s| && IdsDistinct(s)
    ensures !OnScreen(s[i]) ==>
              RemoveFirst(Visible(s[..i]) + s[i..], s[i]) == Visible(s[..i + 1]) + s[i + 1..]
    ensures OnScreen(s[i]) ==> Visible(s[..i]) + s[i..] == Visible(s[..i + 1]) + s[i + 1..]
  {
    var pipe := s[i];
    assert s[..i + 1] == s[..i] + [pipe];
    assert s[..i + 1][..i] == s[..i];
    assert s[i..] == [pipe] + s[i + 1..];
    if !OnScreen(pipe) {
      forall q | q in s[..i] ensures q != pipe {
        var k :| 0 <= k < i && s[..i][k] == q;
        assert s[k].id != s[i].id;
      }
      assert Visible(s[..i]) + s[i..] == Visible(s[..i]) + [pipe] + s[i + 1..];
      RemoveFirstAt(Visible(s[..i]), pipe, s[i + 1..]);
    }
  }

  /** One iteration of `remove_offscreen_pipes` on `passed_pipes`. */
  lemma PassedStep(s: seq<Pipe>, i: nat, passed: seq<nat>)
    requires i < |s| && Distinct(passed)
    ensures !OnScreen(s[i]) && s[i].id in Without(passed, Gone(s[..i])) ==>
              RemoveFirst(Without(passed, Gone(s[..i])), s[i].id) == Without(passed, Gone(s[..i + 1]))
    ensures !OnScreen(s[i]) && s[i].id !in Without(passed, Gone(s[..i])) ==>
              Without(passed, Gone(s[..i])) == Without(passed, Gone(s[..i + 1]))
    ensures OnScreen(s[i]) ==> Without(passed, Gone(s[..i])) == Without(passed, Gone(s[..i + 1]))
  {
    var pipe := s[i];
    assert s[..i + 1] == s[..i] + [pipe];
    if !OnScreen(pipe) {
      assert Gone(s[..i + 1]) == Gone(s[..i]) + {pipe.id};
      RemoveFirstIsWithout(passed, Gone(s[..i]), pipe.id);
      if pipe.id !in Without(passed, Gone(s[..i])) {
        WithoutAbsent(Without(passed, Gone(s[..i])), {}, pipe.id);
      }
    } else {
      assert Gone(s[..i + 1]) == Gone(s[..i]);
    }
  }

  /** After the removal a credited pipe is still in `passed_pipes` or gone from
      `pipes`: a pipe leaves `passed_pipes` only together with its rectangle. */
  lemma RemovalKeepsCredit(s: seq<Pipe>, passed: seq<nat>, credited: set<nat>)
    requires IdsDistinct(s)
    requires forall id :: id in credited ==> id in passed || id !in IdSet(s)
    ensures forall id :: id in credited ==>
              id in Without(passed, Gone(s)) || id !in IdSet(Visible(s))
  {
    forall id | id in credited && id in IdSet(Visible(s))
      ensures id in Without(passed, Gone(s))
    {
      var p :| p in Visible(s) && p.id == id;
      forall q | q in s && q.id == id ensures OnScreen(q) {
        SameIdSamePipe(s, p, q);
      }
    }
  }

  /** The loop of `move_pipes`: every pipe in turn moves left by d. */
  method ShiftPipes(ps: seq<Pipe>, d: real) returns (moved: seq<Pipe>)
    ensures moved == MovedAll(ps, d)
  {
    moved := ps;
    var i := 0;
    while i < |moved|
      invariant 0 <= i <= |moved| == |ps|
      invariant forall k :: 0 <= k < i ==> moved[k] == ps[k].Moved(d)
      invariant forall k :: i <= k < |moved| ==> moved[k] == ps[k]
    {
      moved := moved[i := moved[i].Moved(d)];
      i := i + 1;
    }
  }

  /** The body of `move_pipes`: the loop moves every pipe left by 5 times the
      scale factor, then a list longer than `MaxPipes` is cut to its last
      `MaxPipes` pipes. */
  method MoveAndCap(ps: seq<Pipe>, scaleFactor: real) returns (r: seq<Pipe>)
    ensures r == Advance(ps, scaleFactor)
  {
    var moved := ShiftPipes(ps, 5.0 * scaleFactor);
    r := KeepNewest(moved);
    AdvanceIsMoveThenCap(ps, scaleFactor);
  }

  /** `pipes = pipes[-MAX_PIPES:]` when the list is too long. */
  method KeepNewest(ps: seq<Pipe>) returns (r: seq<Pipe>)
    ensures r == LastAtMost(ps, MaxPipes)
  {
    r := ps;
    if |r| > MaxPipes {
      r := r[|r| - MaxPipes..];
    }
  }

  /** The loop of `remove_offscreen_pipes`, over the list of pipes as it was
      when the loop started: each off-screen pipe is removed with `remove`
      from the live list and, when it is there, from `passed_pipes`. */
  method DropOffscreen(snapshot: seq<Pipe>, passed0: seq<nat>) returns (kept: seq<Pipe>, passed: seq<nat>)
    requires IdsDistinct(snapshot) && Distinct(passed0)
    ensures kept == Visible(snapshot)
    ensures passed == Without(passed0, Gone(snapshot))
  {
    kept, passed := snapshot, passed0;
    var i := 0;
    ghost var gone: set<nat> := {};
    assert Gone(snapshot[..0]) == {};
    assert Without(passed0, {}) == passed0;
    while i < |snapshot|
      invariant 0 <= i <= |snapshot|
      invariant kept == Visible(snapshot[..i]) + snapshot[i..]
      invariant gone == Gone(snapshot[..i])
      invariant passed == Without(passed0, gone)
    {
      var pipe := snapshot[i];
      VisibleStep(snapshot, i);
      PassedStep(snapshot, i, passed0);
      if pipe.rect.CenterX() <= OffscreenX {
        kept := RemoveFirst(kept, pipe);
        if pipe.id in passed {
          passed := RemoveFirst(passed, pipe.id);
        }
      }
      gone := Gone(snapshot[..i + 1]);
      i := i + 1;
    }
    assert snapshot[..i] == snapshot;
  }

  class PipeManager {
    const settings: Settings
    /** Size of the scaled pipe image; every pipe has it. */
    const pipeWidth: nat
    const pipeHeight: nat
    const pipeHeights: seq<real>
    var pipes: seq<Pipe>
    var passedPipes: seq<nat>
    /** Next identifier to hand out: identifiers are never reused. */
    var nextId: nat
    /** Every identifier ever credited by `CheckScore`. */
    ghost var credited: set<nat>

    /** Identifiers are unique and already handed out; a credited pipe stays
        in `passedPipes` for as long as it is live, so it cannot be credited
        again. */
    ghost predicate Valid()
      reads this
    {
      && |pipeHeights| == 3
      && Distinct(passedPipes)
      && (forall id :: id in passedPipes ==> id in credited)
      && LiveInvariant(pipes, passedPipes, credited, nextId)
    }

    constructor (settings: Settings, pipeWidth: nat, pipeHeight: nat)
      ensures Valid()
      ensures this.settings == settings && this.pipeWidth == pipeWidth && this.pipeHeight == pipeHeight
      ensures pipeHeights == PipeHeights(settings.height)
      ensures pipes == [] && passedPipes == [] && credited == {}
    {
      this.settings := settings;
      this.pipeWidth := pipeWidth;
      this.pipeHeight := pipeHeight;
      pipeHeights := PipeHeights(settings.height);
      pipes, passedPipes, nextId := [], [], 0;
      credited := {};
    }

    /** `spawn_pipe`: one new pair goes at the end; nothing is capped here. */
    method SpawnPipe(choice: HeightIndex)
      requires Valid()
      modifies this
      ensures Valid()
      ensures pipes == old(pipes) + CreatePair(settings.width, settings.height, pipeWidth, pipeHeight,
                                               pipeHeights[choice], old(nextId))
      ensures |pipes| == |old(pipes)| + 2
      ensures nextId == old(nextId) + 2
      ensures passedPipes == old(passedPipes) && credited == old(credited)
    {
      var pair := CreatePair(settings.width, settings.height, pipeWidth, pipeHeight, pipeHeights[choice], nextId);
      pipes := pipes + pair;
      nextId := nextId + 2;
      forall id | id in credited ensures id in passedPipes || id !in IdSet(pipes) {
        if id !in passedPipes {
          assert id !in IdSet(old(pipes));
        }
      }
    }

    /** `move_pipes`: every pipe moves left by 5 times the scale factor, then
        only the newest `MaxPipes` are kept. `passed_pipes` is not touched. */
    method MovePipes()
      requires Valid()
      modifies this
      ensures Valid()
      ensures pipes == Advance(old(pipes), settings.scaleFactor)
      ensures passedPipes == old(passedPipes) && nextId == old(nextId) && credited == old(credited)
    {
      var moved := MoveAndCap(pipes, settings.scaleFactor);
      AdvanceKeepsInvariant(pipes, settings.scaleFactor, passedPipes, credited, nextId);
      pipes := moved;
    }

    /** `remove_offscreen_pipes`: pipes whose centre is at or left of -100 go,
        the rest keep their order, and each removed pipe also leaves
        `passed_pipes`. */
    method RemoveOffscreenPipes()
      requires Valid()
      modifies this
      ensures Valid()
      ensures pipes == Visible(old(pipes))
      ensures passedPipes == Without(old(passedPipes), Gone(old(pipes)))
      ensures nextId == old(nextId) && credited == old(credited)
    {
      var kept, passed := DropOffscreen(pipes, passedPipes);
      RemovalKeepsCredit(pipes, passedPipes, credited);
      pipes, passedPipes := kept, passed;
    }

    /** `update`: move, then drop what is off screen. */
    method Update()
      requires Valid()
      modifies this
      ensures Valid()
      ensures pipes == Visible(Advance(old(pipes), settings.scaleFactor))
      ensures passedPipes == Without(old(passedPipes), Gone(Advance(old(pipes), settings.scaleFactor)))
      ensures nextId == old(nextId) && credited == old(credited)
    {
      MovePipes();
      RemoveOffscreenPipes();
    }

    /** The pipe half of a tick of the game: `update`, then `check_score` for
        the bird's centre. */
    method AdvanceAndScore(birdX: int) returns (scored: bool)
      requires Valid()
      modifies this
      ensures Valid()
      ensures pipes == Visible(Advance(old(pipes), settings.scaleFactor))
      ensures scored <==> CreditableFrom(pipes, 0, birdX, settings.height, old(passedPipes))
      ensures scored ==> |credited| == |old(credited)| + 1
      ensures !scored ==> credited == old(credited)
      ensures nextId == old(nextId)
    {
      ghost var advanced := Advance(pipes, settings.scaleFactor);
      AdvanceKeepsDistinct(pipes, settings.scaleFactor);
      CreditableAfterRemoval(advanced, passedPipes, birdX, settings.height);
      Update();
      scored := CheckScore(birdX);
    }

    /** `check_score`: credits the first creditable pipe, if there is one, by
        appending it to `passed_pipes`. A pipe is never credited twice over its
        whole life: the credited one was not credited before. */
    method CheckScore(birdX: int) returns (scored: bool)
      requires Valid()
      modifies this
      ensures Valid()
      ensures pipes == old(pipes) && nextId == old(nextId)
      ensures scored <==> CreditableFrom(pipes, 0, birdX, settings.height, old(passedPipes))
      ensures scored ==> exists k :: 0 <= k < |pipes| && Creditable(pipes[k], birdX, settings.height, old(passedPipes))
                          && (forall j :: 0 <= j < k ==> !Creditable(pipes[j], birdX, settings.height, old(passedPipes)))
                          && passedPipes == old(passedPipes) + [pipes[k].id]
                          && pipes[k].id !in old(credited)
                          && credited == old(credited) + {pipes[k].id}
      ensures !scored ==> passedPipes == old(passedPipes) && credited == old(credited)
      ensures scored ==> |credited| == |old(credited)| + 1
    {
      CreditableFromIff(pipes, 0, birdX, settings.height, passedPipes);
      var i := 0;
      while i < |pipes|
        invariant 0 <= i <= |pipes|
        invariant forall j :: 0 <= j < i ==> !Creditable(pipes[j], birdX, settings.height, passedPipes)
      {
        var pipe := pipes[i];
        if pipe.rect.CenterX() < birdX as real && pipe.id !in passedPipes && pipe.rect.Bottom() >= settings.height as real {
          assert pipe.id in IdSet(pipes);
          passedPipes := passedPipes + [pipe.id];
          credited := credited + {pipe.id};
          return true;
        }
        i := i + 1;
      }
      return false;
    }

    /** `check_collision`: whether the bird's rectangle overlaps any pipe. */
    method CheckCollision(birdRect: Rect) returns (hit: bool)
      ensures hit <==> exists k :: 0 <= k < |pipes| && Collide(birdRect, pipes[k].rect)
    {
      var i := 0;
      while i < |pipes|
        invariant 0 <= i <= |pipes|
        invariant forall k :: 0 <= k < i ==> !Collide(birdRect, pipes[k].rect)
      {
        if Collide(birdRect, pipes[i].rect) {
          return true;
        }
        i := i + 1;
      }
      return false;
    }

    /** `reset`: both lists are emptied. */
    method Reset()
      requires Valid()
      modifies this
      ensures Valid()
      ensures pipes == [] && passedPipes == []
      ensures nextId == old(nextId) && credited == old(credited)
    {
      pipes := [];
      passedPipes := [];
    }
  }
}
