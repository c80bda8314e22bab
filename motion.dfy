/** The motion rules of vMaze.cpp that depend only on an actor's velocity and
    on its pixel position relative to the centre (cx, cy) of its square:
    which way it is heading, whether it has reached the centre, and the
    velocity turnActor gives it. */
module Motion {
  import opened Grid
  import opened Sprites
  import opened Coords

  /** The wall of q on side d; "no direction" has none. */
  function Wall(q: Square, d: MazeDirection): (b: bool)
    ensures d == None ==> !b
    ensures WithSide(q, d, true) == q <==> d == None || b
  {
    match d
    case Up => q.wallUp
    case Down => q.wallDown
    case Left => q.wallLeft
    case Right => q.wallRight
    case None => false
  }

  /** The direction turnActor reads from a velocity: up first, then left,
      down and right; at rest it is None. */
  function Heading(xVel: real, yVel: real): (d: MazeDirection)
    ensures d == None <==> xVel == 0.0 && yVel == 0.0
  {
    if yVel > 0.0 then Up
    else if xVel < 0.0 then Left
    else if yVel < 0.0 then Down
    else if xVel > 0.0 then Right
    else None
  }

  /** Moving along one axis, the heading is the sign of the moving
      component. */
  lemma HeadingOnRail(xVel: real, yVel: real)
    requires xVel == 0.0 || yVel == 0.0
    ensures Heading(xVel, yVel) == Up <==> yVel > 0.0
    ensures Heading(xVel, yVel) == Down <==> yVel < 0.0
    ensures Heading(xVel, yVel) == Left <==> xVel < 0.0
    ensures Heading(xVel, yVel) == Right <==> xVel > 0.0
  {
  }

  /** applyAi's mid-transit test: heading d, the actor at (x, y) has not yet
      reached the centre of its square. */
  predicate ShortOfCentre(d: MazeDirection, x: real, y: real, cx: real, cy: real) {
    match d
    case Up => cy > y
    case Left => cx < x
    case Down => cy < y
    case Right => cx > x
    case None => false
  }

  /** update's "fully entered" test: moving in some direction, the actor has
      reached the centre of its square or gone past it. */
  predicate FullyEntered(xVel: real, yVel: real, x: real, y: real, cx: real, cy: real) {
    if yVel > 0.0 && y >= cy then true
    else if xVel < 0.0 && x <= cx then true
    else if yVel < 0.0 && y <= cy then true
    else xVel > 0.0 && x >= cx
  }

  /** For an actor moving along one axis, update's test and applyAi's are
      each other's negation: an actor is fully entered exactly when it is
      moving and no longer short of the centre. */
  lemma EnteredUnlessShort(xVel: real, yVel: real, x: real, y: real, cx: real, cy: real)
    requires xVel == 0.0 || yVel == 0.0
    ensures FullyEntered(xVel, yVel, x, y, cx, cy) <==>
      Heading(xVel, yVel) != None && !ShortOfCentre(Heading(xVel, yVel), x, y, cx, cy)
  {
  }

  /** On a diagonal velocity the two tests disagree: moving up and left,
      below the centre but right of it, the actor is fully entered by its
      horizontal motion while applyAi sees it short of the centre. */
  lemma DiagonalDisagrees()
    ensures FullyEntered(-1.0, 1.0, 0.0, 0.0, 1.0, 1.0)
    ensures Heading(-1.0, 1.0) == Up && ShortOfCentre(Up, 0.0, 0.0, 1.0, 1.0)
  {
  }

  /** The state turnActor gives an actor it turns toward d. */
  function FacingState(d: MazeDirection): (s: SpriteState)
    ensures d == None <==> s == SsNa
    ensures d != None ==> (s - 1) % 3 == 1
  {
    match d
    case Up => SsUp2
    case Left => SsLeft2
    case Down => SsDown2
    case Right => SsRight2
    case None => SsNa
  }

  /** A quarter of a square, turnActor's tolerance for turning off centre. */
  const Tolerance: real := 0.25 * SquareDim as real

  /** turnActor's invalid turn: onto the vertical axis more than a quarter
      square left or right of the centre, or onto the horizontal axis more
      than a quarter square above or below it.  The exemptions `d != Right`
      and `d != Down` of the source are written out; inside their branches
      they always hold. */
  predicate OffAxis(d: MazeDirection, x: real, y: real, cx: real, cy: real) {
    if d == Up || d == Down then (x > cx + Tolerance || x < cx - Tolerance) && d != Right
    else if d == Left || d == Right then (y > cy + Tolerance || y < cy - Tolerance) && d != Down
    else false
  }

  /** The exemptions never apply: an invalid turn is exactly one more than a
      quarter square off the new axis. */
  lemma OffAxisIsDistance(d: MazeDirection, x: real, y: real, cx: real, cy: real)
    ensures OffAxis(d, x, y, cx, cy) <==>
      if d == Up || d == Down then x - cx > Tolerance || cx - x > Tolerance
      else if d == Left || d == Right then y - cy > Tolerance || cy - y > Tolerance
      else false
  {
  }

  /** The velocity turnActor sets: the actor's speed along d's axis,
      positive for up and right and negative for left and down, or zero
      when the turn is blocked; no direction sets no velocity. */
  function TurnVelocity(d: MazeDirection, blocked: bool, speed: real): (v: (real, real))
  {
    match d
    case Up => (0.0, if blocked then 0.0 else speed)
    case Left => (if blocked then 0.0 else -speed, 0.0)
    case Down => (0.0, if blocked then 0.0 else -speed)
    case Right => (if blocked then 0.0 else speed, 0.0)
    case None => (0.0, 0.0)
  }

  /** A turned actor moves along one axis at most; a blocked turn or a turn
      to nowhere stops it, and any other turn sends it in the direction asked
      at its speed. */
  lemma TurnVelocityOnRail(d: MazeDirection, blocked: bool, speed: real)
    ensures var v := TurnVelocity(d, blocked, speed); v.0 == 0.0 || v.1 == 0.0
    ensures blocked || d == None ==> TurnVelocity(d, blocked, speed) == (0.0, 0.0)
    ensures !blocked && speed > 0.0 ==> Heading(TurnVelocity(d, blocked, speed).0, TurnVelocity(d, blocked, speed).1) == d
    ensures !blocked && d != None ==>
      var v := TurnVelocity(d, blocked, speed);
      (v.0 == speed || v.0 == -speed || v.1 == speed || v.1 == -speed)
  {
  }

  /** A blocked turn: off the new axis, or toward a wall of the square that
      the actor has already reached. */
  predicate TurnBlocked(d: MazeDirection, q: Square, x: real, y: real, cx: real, cy: real) {
    OffAxis(d, x, y, cx, cy) || (Wall(q, d) && !ShortOfCentre(d, x, y, cx, cy))
  }

  /** The part of a sprite that turnActor reads and writes. */
  datatype Pose = Pose(x: ScreenDimension, y: ScreenDimension, xVel: real, yVel: real, state: SpriteState)

  function PoseOf(s: Sprite): Pose
    reads s
  {
    Pose(s.x, s.y, s.xVel, s.yVel, s.state)
  }

  /** turnActor on a pose p in square q with centre (cx, cy): nothing when
      p already heads toward d; otherwise face d, take TurnVelocity, and a
      moving actor is put back on the centre line of its axis. */
  function Turned(p: Pose, d: MazeDirection, q: Square, cx: real, cy: real, speed: real): Pose {
    if d == Heading(p.xVel, p.yVel) then p
    else
      var v := TurnVelocity(d, TurnBlocked(d, q, p.x.value, p.y.value, cx, cy), speed);
      Pose(p.x.(value := if v.0 == 0.0 && v.1 != 0.0 then cx else p.x.value),
           p.y.(value := if v.1 == 0.0 && v.0 != 0.0 then cy else p.y.value),
           v.0, v.1, FacingState(d))
  }

  /** A turn that does something leaves the actor facing d and moving along
      one axis at most; moving, it heads toward d on the centre line of
      that axis, and stopped, it has not moved. */
  lemma TurnedOnCentreLine(p: Pose, d: MazeDirection, q: Square, cx: real, cy: real, speed: real)
    requires speed > 0.0 && d != Heading(p.xVel, p.yVel)
    ensures var r := Turned(p, d, q, cx, cy, speed);
      && r.state == FacingState(d)
      && (r.xVel == 0.0 || r.yVel == 0.0)
      && (r.xVel == 0.0 && r.yVel == 0.0 <==> d == None || TurnBlocked(d, q, p.x.value, p.y.value, cx, cy))
      && (r.xVel != 0.0 || r.yVel != 0.0 ==> Heading(r.xVel, r.yVel) == d)
      && (r.yVel != 0.0 ==> r.x.value == cx && r.y == p.y)
      && (r.xVel != 0.0 ==> r.y.value == cy && r.x == p.x)
      && (r.xVel == 0.0 && r.yVel == 0.0 ==> r.x == p.x && r.y == p.y)
  {
    TurnVelocityOnRail(d, TurnBlocked(d, q, p.x.value, p.y.value, cx, cy), speed);
  }

  /** Turning the same way twice in the same square does no more than
      turning once. */
  lemma {:induction false} TurnedIdempotent(p: Pose, d: MazeDirection, q: Square, cx: real, cy: real, speed: real)
    requires speed >= 0.0
    ensures Turned(Turned(p, d, q, cx, cy, speed), d, q, cx, cy, speed) == Turned(p, d, q, cx, cy, speed)
  {
    var r := Turned(p, d, q, cx, cy, speed);
    if d != Heading(p.xVel, p.yVel) && d != Heading(r.xVel, r.yVel) {
      var b := TurnBlocked(d, q, p.x.value, p.y.value, cx, cy);
      TurnVelocityOnRail(d, b, speed);
      assert r.xVel == 0.0 && r.yVel == 0.0;
      assert TurnBlocked(d, q, r.x.value, r.y.value, cx, cy) == b;
    }
  }

  // ---------------------------------------------------------------------
  // update: stopping at walls and keeping to the rails

  /** update's wall stop: an actor that has fully entered its square q
      toward a wall of it stops there, put back on the centre along that
      axis.  Up is tested first, then left, down and right. */
  function Stopped(p: Pose, q: Square, fe: bool, cx: real, cy: real): Pose {
    if q.wallUp && p.yVel > 0.0 && fe then p.(yVel := 0.0, y := p.y.(value := cy))
    else if q.wallLeft && p.xVel < 0.0 && fe then p.(xVel := 0.0, x := p.x.(value := cx))
    else if q.wallDown && p.yVel < 0.0 && fe then p.(yVel := 0.0, y := p.y.(value := cy))
    else if q.wallRight && p.xVel > 0.0 && fe then p.(xVel := 0.0, x := p.x.(value := cx))
    else p
  }

  /** update's "align within wall": an actor moving along one axis is put
      on the centre line of that axis. */
  function Aligned(p: Pose, cx: real, cy: real): Pose {
    if p.xVel != 0.0 && p.yVel == 0.0 then p.(y := p.y.(value := cy))
    else if p.yVel != 0.0 && p.xVel == 0.0 then p.(x := p.x.(value := cx))
    else p
  }

  /** For an actor moving along one axis, update never lets it through a
      wall: once fully entered toward a wall of its square it comes to
      rest on the centre of that axis; otherwise it keeps its velocity.
      Either way a moving actor ends on the centre line of its axis and
      keeps its state. */
  lemma {:induction false} NoPassingWalls(p: Pose, q: Square, cx: real, cy: real)
    requires p.xVel == 0.0 || p.yVel == 0.0
    ensures var fe := FullyEntered(p.xVel, p.yVel, p.x.value, p.y.value, cx, cy);
      var d := Heading(p.xVel, p.yVel);
      var r := Aligned(Stopped(p, q, fe, cx, cy), cx, cy);
      && r.state == p.state
      && (fe && Wall(q, d) ==> r.xVel == 0.0 && r.yVel == 0.0 && (if d == Up || d == Down then r.y.value == cy else r.x.value == cx))
      && (!(fe && Wall(q, d)) ==> r.xVel == p.xVel && r.yVel == p.yVel)
      && (r.yVel != 0.0 ==> r.x.value == cx)
      && (r.xVel != 0.0 ==> r.y.value == cy)
  {
    HeadingOnRail(p.xVel, p.yVel);
  }
}
