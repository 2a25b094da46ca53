/** The bird (code/bird.py): its centre, its vertical velocity and the index of
    its flap frame. Positions and velocities are exact reals, so gravity 0.25
    and the jump velocity -6 are represented without rounding. */
module BirdPhysics {
  import opened Geometry
  import opened ScreenSettings

  /** `jump` sets the velocity to exactly this value. */
  const JumpVelocity: real := -6.0

  /** Number of sprite frames of the flap animation. */
  const FrameCount: nat := 3

  /** The vertical state that one physics tick changes. */
  datatype Motion = Motion(velocity: real, y: real)

  /** One `update`: gravity is added to the velocity first, and the centre
      then moves by the new velocity. */
  function Fall(m: Motion): (r: Motion)
    ensures r.velocity - m.velocity == Gravity
    ensures r.y - m.y == r.velocity
  {
    var v := m.velocity + Gravity;
    Motion(v, m.y + v)
  }

  /** n consecutive ticks without a jump. */
  function FallN(m: Motion, n: nat): Motion
  {
    if n == 0 then m else Fall(FallN(m, n - 1))
  }

  /** Closed form of free fall: after n ticks the velocity has grown by n
      times gravity and the centre has moved by n times the starting velocity
      plus gravity times the n-th triangular number. */
  lemma {:induction false} FallNClosedForm(m: Motion, n: nat)
    ensures FallN(m, n).velocity == m.velocity + n as real * Gravity
    ensures FallN(m, n).y == m.y + n as real * m.velocity + ((n * (n + 1)) / 2) as real * Gravity
  {
    if n > 0 {
      var k := n - 1;
      FallNClosedForm(m, k);
      assert n as real * m.velocity == k as real * m.velocity + m.velocity;
      assert n * (n + 1) == k * (k + 1) + 2 * n;
      assert (n * (n + 1)) / 2 == (k * (k + 1)) / 2 + n;
    }
  }

  /** Without a jump the velocity strictly increases from tick to tick. */
  lemma {:induction false} VelocityStrictlyIncreases(m: Motion, i: nat, j: nat)
    requires i < j
    ensures FallN(m, i).velocity < FallN(m, j).velocity
  {
    FallNClosedForm(m, i);
    FallNClosedForm(m, j);
    assert (j as real - i as real) * Gravity > 0.0;
  }

  /** From rest, one tick gives a positive (downward) velocity equal to
      gravity and moves the centre down by that much. */
  lemma FallFromRest(y: real)
    ensures Fall(Motion(0.0, y)).velocity == Gravity > 0.0
    ensures Fall(Motion(0.0, y)).y == y + Gravity > y
  {
  }

  /** `flap_animation`'s frame rule: 0, 1, 2, then back to 0. */
  function NextFrame(i: nat): (j: nat)
    ensures j < FrameCount
  {
    if i < 2 then i + 1 else 0
  }

  /** The frame index cycles with period three and never stays put. */
  lemma FrameCycle(i: nat)
    requires i < FrameCount
    ensures NextFrame(i) == (i + 1) % FrameCount
    ensures NextFrame(i) != i
    ensures NextFrame(NextFrame(NextFrame(i))) == i
  {
  }

  class Bird {
    const settings: Settings
    /** Size of the (scaled) sprite frames; all three frames share it. */
    const frameWidth: nat
    const frameHeight: nat
    var velocity: real
    var birdIndex: nat
    var centerX: int
    var centerY: real

    ghost predicate Valid()
      reads this
    {
      birdIndex < FrameCount
    }

    /** The bird's `rect`: the current frame's size, centred on the centre. */
    function Box(): (r: Rect)
      reads this
      ensures r.CenterX() == centerX as real && r.CenterY() == centerY
    {
      AtCenter(centerX as real, centerY, frameWidth, frameHeight)
    }

    /** A new bird rests at the spawn point, a fifth of the way across and
        half way down, showing frame 0. */
    constructor (settings: Settings, frameWidth: nat, frameHeight: nat)
      ensures Valid()
      ensures this.settings == settings
      ensures this.frameWidth == frameWidth && this.frameHeight == frameHeight
      ensures velocity == 0.0 && birdIndex == 0
      ensures centerX == settings.width / 5 && centerY == (settings.height / 2) as real
    {
      this.settings := settings;
      this.frameWidth := frameWidth;
      this.frameHeight := frameHeight;
      velocity := 0.0;
      birdIndex := 0;
      centerX := settings.width / 5;
      centerY := (settings.height / 2) as real;
    }

    /** `update`: one tick of free fall. */
    method Update()
      modifies this
      ensures Motion(velocity, centerY) == Fall(Motion(old(velocity), old(centerY)))
      ensures velocity == old(velocity) + Gravity && centerY == old(centerY) + velocity
      ensures centerX == old(centerX) && birdIndex == old(birdIndex)
    {
      velocity := velocity + Gravity;
      centerY := centerY + velocity;
    }

    /** `jump`: the velocity is overwritten, whatever it was. */
    method Jump()
      modifies this
      ensures velocity == JumpVelocity
      ensures centerX == old(centerX) && centerY == old(centerY) && birdIndex == old(birdIndex)
    {
      velocity := 0.0;
      velocity := velocity - 6.0;
    }

    /** `flap_animation`: advance the frame index and keep the centre. */
    method FlapAnimation()
      requires Valid()
      modifies this
      ensures Valid()
      ensures birdIndex == NextFrame(old(birdIndex))
      ensures centerX == old(centerX) && centerY == old(centerY) && velocity == old(velocity)
    {
      birdIndex := if birdIndex < 2 then birdIndex + 1 else 0;
    }

    /** `reset`: back to rest at the spawn point of the current screen size. */
    method Reset()
      modifies this
      ensures velocity == 0.0
      ensures centerX == settings.width / 5 && centerY == (settings.height / 2) as real
      ensures birdIndex == old(birdIndex)
    {
      velocity := 0.0;
      centerX, centerY := settings.width / 5, (settings.height / 2) as real;
    }
  }
}
