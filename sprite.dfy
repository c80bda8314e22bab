/** vSprite.cpp (with the enums of vSprite.h and the ScreenDimension struct the
    sprite inherits from its panel base): a moving object with a pixel position,
    a velocity, a 16-valued animation state and a type.  Width, height,
    texture and drawing are left to the renderer and are not modelled. */
module Sprites {
  import Dice

  /** spriteState: SS_NA, then UP1-3, DOWN1-3, LEFT1-3, RIGHT1-3, SPEC1-3. */
  type SpriteState = s: int | 0 <= s <= 15
  const SsNa: SpriteState := 0
  const SsUp1: SpriteState := 1
  const SsUp2: SpriteState := 2
  const SsUp3: SpriteState := 3
  const SsDown1: SpriteState := 4
  const SsDown2: SpriteState := 5
  const SsDown3: SpriteState := 6
  const SsLeft1: SpriteState := 7
  const SsLeft2: SpriteState := 8
  const SsLeft3: SpriteState := 9
  const SsRight1: SpriteState := 10
  const SsRight2: SpriteState := 11
  const SsRight3: SpriteState := 12
  const SsSpec1: SpriteState := 13
  const SsSpec3: SpriteState := 15

  /** spriteType: Pacman, the four ghosts, scared ghost, walls, consumables. */
  type SpriteType = t: int | 0 <= t <= 7
  const VPacman: SpriteType := 0
  const VRedG: SpriteType := 1
  const VPinkG: SpriteType := 2
  const VBlueG: SpriteType := 3
  const VOrangeG: SpriteType := 4

  /** Tuning constants of vSprite.h (pixels, pixels per second, seconds). */
  const SpriteDim: real := 32.0
  const BaseVelocity: real := 100.0
  const AnimationPeriod: real := 0.66
  const AnimationRatio: real := 0.33

  datatype Alignment = AlignNegative | AlignMiddle | AlignPositive
  datatype ScreenUnit = UnitPix | UnitPct

  /** One coordinate of a panel: a value, its alignment and its unit. */
  datatype ScreenDimension = ScreenDimension(value: real, align: Alignment, unit: ScreenUnit)

  /** What the ScreenDimension constructor produces. */
  const DefaultDimension := ScreenDimension(0.0, AlignNegative, UnitPix)

  /** The animation clock after `t` seconds, wrapped into one period by the
      subtraction loop of update. */
  function Wrap(t: real): (w: real)
    ensures w < AnimationPeriod
    ensures t >= 0.0 ==> 0.0 <= w
    ensures t < AnimationPeriod ==> w == t
    decreases (t / AnimationPeriod).Floor
  {
    if t >= AnimationPeriod then Wrap(t - AnimationPeriod) else t
  }

  /** The animation phase 0, 1 or 2 that a wrapped clock value selects. */
  function Phase(ts: real): (p: int)
    ensures 0 <= p <= 2
  {
    if ts < AnimationPeriod * 0.5 then
      (if ts < AnimationRatio * 0.5 * AnimationPeriod then 0 else 1)
    else
      (if ts - 0.5 * AnimationPeriod < AnimationRatio * 0.5 * AnimationPeriod then 2 else 1)
  }

  /** The state update assigns: SS_NA stays, any other state keeps its
      direction group (s - 1) / 3 and takes the phase of the clock. */
  function Animated(s: SpriteState, ts: real): (r: SpriteState)
    ensures s == SsNa <==> r == SsNa
    ensures s != SsNa ==> (r - 1) / 3 == (s - 1) / 3 && (r - 1) % 3 == Phase(ts)
  {
    if s == SsNa then SsNa else Phase(ts) + (s - 1) / 3 * 3 + 1
  }

  class Sprite {
    var x: ScreenDimension
    var y: ScreenDimension
    var timeSeed: real
    var xVel: real
    var yVel: real
    var state: SpriteState
    var kind: SpriteType

    /** vSprite(texture): SS_NA, at rest, of type V_PACMAN, with the
        animation clock started at rollFloat(1.0) of the draw `r`. */
    constructor (r: int)
      requires Dice.IsDraw(r)
      ensures state == SsNa && xVel == 0.0 && yVel == 0.0 && kind == VPacman
      ensures timeSeed == Dice.RollFloatOf(1.0, r)
      ensures x == DefaultDimension && y == DefaultDimension
    {
      x, y := DefaultDimension, DefaultDimension;
      kind := VPacman;
      state := SsNa;
      xVel, yVel := 0.0, 0.0;
      timeSeed := Dice.RollFloatOf(1.0, r);
    }

    /** setState: the direction group of the new state fixes the velocity;
        the SPEC states leave it as it was. */
    method SetState(s: SpriteState)
      modifies this
      ensures state == s && x == old(x) && y == old(y) && kind == old(kind) && timeSeed == old(timeSeed)
      ensures s == SsNa ==> xVel == 0.0 && yVel == 0.0
      ensures SsUp1 <= s <= SsUp3 ==> xVel == 0.0 && yVel == BaseVelocity
      ensures SsDown1 <= s <= SsDown3 ==> xVel == 0.0 && yVel == -BaseVelocity
      ensures SsLeft1 <= s <= SsLeft3 ==> xVel == -BaseVelocity && yVel == 0.0
      ensures SsRight1 <= s <= SsRight3 ==> xVel == BaseVelocity && yVel == 0.0
      ensures SsSpec1 <= s ==> xVel == old(xVel) && yVel == old(yVel)
    {
      state := s;
      if state <= SsNa {
        xVel, yVel := 0.0, 0.0;
      } else if state <= SsUp3 {
        xVel, yVel := 0.0, BaseVelocity;
      } else if state <= SsDown3 {
        xVel, yVel := 0.0, -BaseVelocity;
      } else if state <= SsLeft3 {
        xVel, yVel := -BaseVelocity, 0.0;
      } else if state <= SsRight3 {
        xVel, yVel := BaseVelocity, 0.0;
      }
    }

    method SetTimeSeed(t: real)
      modifies this
      ensures timeSeed == t
      ensures x == old(x) && y == old(y) && xVel == old(xVel) && yVel == old(yVel)
      ensures state == old(state) && kind == old(kind)
    {
      timeSeed := t;
    }

    method SetVelX(v: real)
      modifies this
      ensures xVel == v
      ensures x == old(x) && y == old(y) && yVel == old(yVel) && timeSeed == old(timeSeed)
      ensures state == old(state) && kind == old(kind)
    {
      xVel := v;
    }

    method SetVelY(v: real)
      modifies this
      ensures yVel == v
      ensures x == old(x) && y == old(y) && xVel == old(xVel) && timeSeed == old(timeSeed)
      ensures state == old(state) && kind == old(kind)
    {
      yVel := v;
    }

    /** aPanel::setX / setY as the sprite code uses them: replace the value of
        the coordinate. */
    method SetX(v: real)
      modifies this
      ensures x == old(x).(value := v)
      ensures y == old(y) && xVel == old(xVel) && yVel == old(yVel) && timeSeed == old(timeSeed)
      ensures state == old(state) && kind == old(kind)
    {
      x := x.(value := v);
    }

    method SetY(v: real)
      modifies this
      ensures y == old(y).(value := v)
      ensures x == old(x) && xVel == old(xVel) && yVel == old(yVel) && timeSeed == old(timeSeed)
      ensures state == old(state) && kind == old(kind)
    {
      y := y.(value := v);
    }

    /** vSprite::setType. */
    method SetKind(t: SpriteType)
      modifies this
      ensures kind == t
      ensures x == old(x) && y == old(y) && xVel == old(xVel) && yVel == old(yVel)
      ensures timeSeed == old(timeSeed) && state == old(state)
    {
      kind := t;
    }

    /** What one update(dt) does to a sprite: integrate the position, advance
        and wrap the animation clock, animate the state. */
    twostate predicate Advanced(dt: real)
      reads this
    {
      && x == old(x).(value := old(x.value) + old(xVel) * dt)
      && y == old(y).(value := old(y.value) + old(yVel) * dt)
      && xVel == old(xVel) && yVel == old(yVel) && kind == old(kind)
      && timeSeed == Wrap(old(timeSeed) + dt)
      && state == Animated(old(state), timeSeed)
    }

    method Update(dt: real)
      modifies this
      ensures Advanced(dt)
      ensures timeSeed < AnimationPeriod
      ensures old(state) != SsNa ==> SsUp1 <= state <= SsSpec3
    {
      x := x.(value := x.value + xVel * dt);
      y := y.(value := y.value + yVel * dt);
      timeSeed := WrapClock(timeSeed + dt);
      if state != SsNa {
        var phase := Phase(timeSeed);
        var offset := (state - 1) / 3;
        state := phase + offset * 3 + 1;
      }
    }

    /** The subtraction loop of update that brings the clock back under one
        animation period. */
    static method WrapClock(t0: real) returns (t: real)
      ensures t == Wrap(t0)
    {
      t := t0;
      while t >= AnimationPeriod
        invariant Wrap(t) == Wrap(t0)
        decreases (t / AnimationPeriod).Floor
      {
        t := t - AnimationPeriod;
      }
    }

    /** moveToPix: both coordinates become pixel values aligned by the middle. */
    method MoveToPix(px: int, py: int)
      modifies this
      ensures x == ScreenDimension(px as real, AlignMiddle, UnitPix)
      ensures y == ScreenDimension(py as real, AlignMiddle, UnitPix)
      ensures xVel == old(xVel) && yVel == old(yVel) && timeSeed == old(timeSeed)
      ensures state == old(state) && kind == old(kind)
    {
      x := ScreenDimension(px as real, AlignMiddle, UnitPix);
      y := ScreenDimension(py as real, AlignMiddle, UnitPix);
    }
  }
}
