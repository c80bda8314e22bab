/** The rules vMaze::update applies to each living actor in one frame, on
    values: a snapshot of an actor and its sprite, the step of a ghost
    (collision with Pacman, the wall stop, the alignment, the move), the
    sound flags of eating, and the vulnerability countdown. */
module Frames {
  import opened Grid
  import opened Sprites
  import opened Actors
  import opened Coords
  import opened Motion
  import opened Items

  /** numEffects: the number of sound flags. */
  const NumEffects: int := 8

  /** Pacman's truncated pixel position as update takes it when it comes
      to him; Unseen when he is dead and no position was taken. */
  datatype Sighting = Unseen | Seen(px: int, py: int)

  /** Everything about an actor that can change: its sprite's pose,
      clock and type, and the actor's own fields. */
  datatype Status = Status(pose: Pose, timeSeed: real, kind: SpriteType,
                           velocity: real, alive: bool, selected: bool, scared: bool, level: int,
                           way: (int, int), mode: AiObjective, ability: int)

  /** Everything a frame of update can change: the five actors in the
      order of their sprite types (Pacman, Blinky, Pinky, Inky, Clyde),
      the sound flags, the items, the grid, the dice's stream and the time
      stamp of the last large dot. */
  datatype Scene = Scene(actors: seq<Status>, sounds: seq<bool>, stock: seq<Item>, grid: seq<Square>,
                         draws: seq<int>, exhausted: bool, lastVul: int)

  function StatusOf(a: Actor): (s: Status)
    reads a, a.sprite
    ensures s.pose == PoseOf(a.sprite) && s.alive == a.isAlive
  {
    Status(PoseOf(a.sprite), a.sprite.timeSeed, a.sprite.kind,
           a.velocity, a.isAlive, a.isSelected, a.isScared, a.level,
           (a.wayX, a.wayY), a.mode, a.abilityTriggered)
  }

  /** vActor::update(dt) on a snapshot: a living actor moves by its
      velocity over dt, its clock advances and wraps, and its state takes
      the new animation phase; a dead one stays as it is. */
  function Moved(s: Status, dt: real): (r: Status)
  {
    if !s.alive then s
    else
      var ts := Wrap(s.timeSeed + dt);
      s.(pose := Pose(s.pose.x.(value := s.pose.x.value + s.pose.xVel * dt),
                      s.pose.y.(value := s.pose.y.value + s.pose.yVel * dt),
                      s.pose.xVel, s.pose.yVel, Animated(s.pose.state, ts)),
         timeSeed := ts)
  }

  /** A living actor keeps its velocity and type, and its clock stays
      within one animation period; a dead one does not move at all. */
  lemma MovedKeepsCourse(s: Status, dt: real)
    ensures var r := Moved(s, dt);
      && r.pose.xVel == s.pose.xVel && r.pose.yVel == s.pose.yVel && r.kind == s.kind
      && r.alive == s.alive && r.velocity == s.velocity && r.way == s.way && r.mode == s.mode
      && (s.alive ==> r.timeSeed < AnimationPeriod && (s.timeSeed + dt >= 0.0 ==> r.timeSeed >= 0.0))
      && (s.alive ==> r.pose.x.value - s.pose.x.value == s.pose.xVel * dt && r.pose.y.value - s.pose.y.value == s.pose.yVel * dt)
      && (!s.alive ==> r == s)
  {
  }

  /** vActor::update(dt), stated on the whole actor. */
  method Advance(a: Actor, dt: real)
    modifies a.sprite
    ensures StatusOf(a) == Moved(old(StatusOf(a)), dt)
  {
    ghost var s := StatusOf(a);
    a.Update(dt);
    if s.alive {
      assert a.sprite.x == s.pose.x.(value := s.pose.x.value + s.pose.xVel * dt);
      assert a.sprite.y == s.pose.y.(value := s.pose.y.value + s.pose.yVel * dt);
    }
  }

  /** update's collision test: the truncated positions of a ghost and of
      Pacman are less than 8 pixels apart on both axes. */
  predicate Touching(ax: int, ay: int, px: int, py: int) {
    -8 < ax - px < 8 && -8 < ay - py < 8
  }

  /** Touching is symmetric and holds for an actor on Pacman's pixel. */
  lemma TouchingSymmetric(ax: int, ay: int, px: int, py: int)
    ensures Touching(ax, ay, px, py) <==> Touching(px, py, ax, ay)
    ensures Touching(px, py, px, py)
  {
  }

  /** Whether the ghost in state s meets Pacman, whose truncated position
      is `pac`. */
  predicate Meets(s: Status, pac: Sighting) {
    pac.Seen? && Touching(Trunc(s.pose.x.value), Trunc(s.pose.y.value), pac.px, pac.py)
  }

  /** A scared ghost that meets Pacman is eaten. */
  predicate IsEaten(s: Status, pac: Sighting) {
    s.alive && s.scared && Meets(s, pac)
  }

  /** A ghost that is not scared and meets Pacman kills him. */
  predicate KillsPacman(s: Status, pac: Sighting) {
    s.alive && !s.scared && Meets(s, pac)
  }

  /** A living ghost in square q with centre (cx, cy) after the collision
      test, the wall stop and the alignment. */
  function Placed(s: Status, q: Square, cx: real, cy: real, pac: Sighting): Status {
    var fe := FullyEntered(s.pose.xVel, s.pose.yVel, s.pose.x.value, s.pose.y.value, cx, cy);
    Met(s, pac).(pose := Aligned(Stopped(s.pose, q, fe, cx, cy), cx, cy))
  }

  /** A ghost after the collision test: eaten when it meets Pacman while
      scared, and then dead at level 0. */
  function Met(s: Status, pac: Sighting): Status {
    var eaten := IsEaten(s, pac);
    s.(alive := !eaten, level := if eaten then 0 else s.level)
  }

  /** One frame of a ghost: placed, then moved unless it just died. */
  function GhostStep(s: Status, q: Square, cx: real, cy: real, pac: Sighting, dt: real): (r: Status)
  {
    if !s.alive then s else Moved(Placed(s, q, cx, cy, pac), dt)
  }

  /** What a ghost's frame does: a dead ghost is untouched; an eaten one
      ends dead at level 0 where the wall stop and the alignment left it;
      every other living ghost stays alive at its level and moves on from
      there; none changes its type, speed, waypoint, mode, scare or
      selection. */
  lemma {:induction false} GhostStepCases(s: Status, q: Square, cx: real, cy: real, pac: Sighting, dt: real)
    ensures var r := GhostStep(s, q, cx, cy, pac, dt);
      var fe := FullyEntered(s.pose.xVel, s.pose.yVel, s.pose.x.value, s.pose.y.value, cx, cy);
      var placed := Aligned(Stopped(s.pose, q, fe, cx, cy), cx, cy);
      && (!s.alive ==> r == s)
      && (IsEaten(s, pac) ==> !r.alive && r.level == 0 && r.pose == placed && r.timeSeed == s.timeSeed)
      && (s.alive && !IsEaten(s, pac) ==> r.alive && r.level == s.level && r == Moved(s.(pose := placed), dt))
      && r.kind == s.kind && r.velocity == s.velocity && r.way == s.way && r.mode == s.mode
      && r.scared == s.scared && r.selected == s.selected && r.ability == s.ability
  {
    if s.alive {
      var s1 := Placed(s, q, cx, cy, pac);
      MovedKeepsCourse(s1, dt);
      if !IsEaten(s, pac) {
        assert s1 == s.(pose := s1.pose);
      }
    }
  }

  /** A ghost meeting Pacman either is eaten or kills him, never both. */
  lemma EatenOrKills(s: Status, pac: Sighting)
    requires s.alive && Meets(s, pac)
    ensures IsEaten(s, pac) != KillsPacman(s, pac)
  {
  }

  // ---------------------------------------------------------------------
  // Eating

  /** The three eating chimes of update for an item of kind `kind` eaten
      while the flags were f1, f2 and f3: flag 1 rises for a small dot and
      flag 2 for a large dot, each only if it was down; flag 3 rises, if
      it was down, whenever neither of the first two rose (a fruit, or a
      dot whose own flag was up).  Eating in a row thus alternates the
      sound. */
  function Chimes(f1: bool, f2: bool, f3: bool, kind: ItemType): (bool, bool, bool) {
    var g1 := !f1 && kind == ItSmallDot;
    var g2 := !f2 && kind == ItLargeDot;
    (g1, g2, !f3 && !g1 && !g2)
  }

  /** At most one chime sounds for an item; a flag that was up goes down;
      and the chime is the one of the item's kind, or silence. */
  lemma ChimesExclusive(f1: bool, f2: bool, f3: bool, kind: ItemType)
    ensures var c := Chimes(f1, f2, f3, kind);
      && !(c.0 && c.1) && !(c.0 && c.2) && !(c.1 && c.2)
      && (f1 ==> !c.0) && (f2 ==> !c.1)
      && (c.0 ==> kind == ItSmallDot) && (c.1 ==> kind == ItLargeDot)
      && (!f1 && kind == ItSmallDot ==> c.0) && (!f2 && kind == ItLargeDot ==> c.1)
  {
  }

  /** The sound flags after the chimes for an item of kind `kind`. */
  function ChimeSounds(f: seq<bool>, kind: ItemType): (r: seq<bool>)
    requires |f| > 5
    ensures |r| == |f|
  {
    var c := Chimes(f[1], f[2], f[3], kind);
    f[1 := c.0][2 := c.1][3 := c.2]
  }

  /** The sound flags after Pacman's consumption test: the chimes and, for
      a large dot, flag 5 when he ate; all three chimes silenced when he
      did not. */
  function EatSounds(f: seq<bool>, ate: bool, kind: ItemType): (r: seq<bool>)
    requires |f| > 5
    ensures |r| == |f|
  {
    if !ate then f[1 := false][2 := false][3 := false]
    else if kind == ItLargeDot then ChimeSounds(f, kind)[5 := true]
    else ChimeSounds(f, kind)
  }

  /** Eating changes only the chime flags and flag 5, and raises flag 5
      exactly for a large dot. */
  lemma EatSoundsFrame(f: seq<bool>, ate: bool, kind: ItemType)
    requires |f| > 5
    ensures var r := EatSounds(f, ate, kind);
      && (forall i :: 0 <= i < |f| && i != 1 && i != 2 && i != 3 && i != 5 ==> r[i] == f[i])
      && (ate && kind == ItLargeDot ==> r[5])
      && (!(ate && kind == ItLargeDot) ==> r[5] == f[5])
      && (!ate ==> !r[1] && !r[2] && !r[3])
      && (ate ==> (r[1], r[2], r[3]) == Chimes(f[1], f[2], f[3], kind))
  {
  }

  /** A fruit never sounds the dot chimes; it alternates the third flag. */
  lemma FruitChime(f1: bool, f2: bool, f3: bool, kind: ItemType)
    requires kind != ItSmallDot && kind != ItLargeDot
    ensures Chimes(f1, f2, f3, kind) == (false, false, !f3)
  {
  }

  /** The five actors, Pacman first, with the ghosts' scare set to s. */
  function WithScare(cs: seq<Status>, s: bool): (r: seq<Status>)
    requires |cs| == 5
    ensures |r| == 5
  {
    [cs[0], cs[1].(scared := s), cs[2].(scared := s), cs[3].(scared := s), cs[4].(scared := s)]
  }

  /** The actors after a large dot is eaten (b) or not. */
  function Alarmed(cs: seq<Status>, b: bool): (r: seq<Status>)
    requires |cs| == 5
    ensures |r| == 5
  {
    if b then WithScare(cs, true)[0 := cs[0].(mode := AiHomicidal)] else cs
  }

  /** Eating a large dot scares every ghost and makes Pacman homicidal, and
      changes nothing else; otherwise the actors are as they were. */
  lemma AlarmedScares(cs: seq<Status>, b: bool)
    requires |cs| == 5
    ensures !b ==> Alarmed(cs, b) == cs
    ensures b ==> Alarmed(cs, b)[0] == cs[0].(mode := AiHomicidal)
    ensures b ==> forall j :: 1 <= j < 5 ==> Alarmed(cs, b)[j] == cs[j].(scared := true)
  {
  }

  /** Alarmed as the five single updates that the vulnerable period makes. */
  lemma AlarmedSteps(cs: seq<Status>)
    requires |cs| == 5
    ensures Alarmed(cs, true) == cs[1 := cs[1].(scared := true)][2 := cs[2].(scared := true)]
      [3 := cs[3].(scared := true)][4 := cs[4].(scared := true)][0 := cs[0].(mode := AiHomicidal)]
  {
  }

  /** The actors once the vulnerable period is over. */
  function Calmed(cs: seq<Status>): (r: seq<Status>)
    requires |cs| == 5
    ensures |r| == 5
  {
    WithScare(cs, false)[0 := cs[0].(mode := AiGreedy)]
  }

  /** Once the vulnerable period is over no ghost is scared and Pacman is
      greedy; nothing else changes. */
  lemma CalmedCalms(cs: seq<Status>)
    requires |cs| == 5
    ensures Calmed(cs)[0] == cs[0].(mode := AiGreedy)
    ensures forall j :: 1 <= j < 5 ==> Calmed(cs)[j] == cs[j].(scared := false)
  {
  }

  // ---------------------------------------------------------------------
  // Countdowns

  /** vulnerabilityDuration: seconds a large dot scares the ghosts. */
  const VulnerabilityDuration: real := 3.0

  /** The vulnerable period that began at `last` is over at `now`: more
      than 3 seconds and half a second per level have passed. */
  predicate Expired(now: int, last: int, level: int) {
    (now - last) as real > VulnerabilityDuration + 0.5 * level as real
  }

  /** The period lasts longer the higher the level: over at a higher level
      means over at a lower one, and it is never over in the second it
      began at a level of 0 or more. */
  lemma ExpiredMonotone(now: int, last: int, l1: int, l2: int)
    requires l1 <= l2 && Expired(now, last, l2)
    ensures Expired(now, last, l1)
  {
  }

  lemma NotExpiredAtOnce(now: int, level: int)
    requires level >= 0
    ensures !Expired(now, now, level)
  {
  }

  /** vActor's ability lasts `level` seconds from its trigger. */
  predicate AbilityOver(now: int, triggered: int, level: int) {
    now - triggered > level
  }
}
