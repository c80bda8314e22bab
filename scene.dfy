/** One frame of vMaze::update on values: the maze's geometry, a scene of
    everything a frame can change (frame.dfy), and the steps update takes
    on it, each as a function from the scene before to the scene after.
    The maze's methods are proved against these functions. */
module Scenes {
  import opened Grid
  import opened Coords
  import opened Motion
  import opened Items
  import opened Sprites
  import opened Actors
  import opened Frames
  import Waypoints
  import Steering
  import Floods
  import Dice

  /** The maze's dimensions (numW, numH) and its offsets on the screen
      (dx, dy). */
  datatype Layout = Layout(w: int, h: int, dx: int, dy: int)
  {
    ghost predicate Fits(g: seq<Square>) {
      0 <= w && 0 <= h && |g| == w * h
    }
  }

  /** The square a pose stands on, from its truncated pixel position. */
  function CellOf(l: Layout, p: Pose): (c: (int, int))
    requires 0 <= l.w && 0 <= l.h
    ensures -1 <= c.0 <= l.w && -1 <= c.1 <= l.h
  {
    (ScreenToMaze(Trunc(p.x.value), l.dx, l.w), ScreenToMaze(Trunc(p.y.value), l.dy, l.h))
  }

  predicate Inside(l: Layout, p: Pose)
    requires 0 <= l.w && 0 <= l.h
  {
    InGrid(l.w, l.h, CellOf(l, p).0, CellOf(l, p).1)
  }

  /** The pixel centre of the square a pose stands on. */
  function CentreOf(l: Layout, p: Pose): (c: (real, real))
    requires 0 <= l.w && 0 <= l.h
    ensures c.0 == MazeToScreen(CellOf(l, p).0, l.dx) as real
    ensures c.1 == MazeToScreen(CellOf(l, p).1, l.dy) as real
  {
    (MazeToScreen(CellOf(l, p).0, l.dx) as real, MazeToScreen(CellOf(l, p).1, l.dy) as real)
  }

  /** update's "fully entered" test on a pose. */
  predicate EnteredAt(l: Layout, p: Pose)
    requires 0 <= l.w && 0 <= l.h
  {
    FullyEntered(p.xVel, p.yVel, p.x.value, p.y.value, CentreOf(l, p).0, CentreOf(l, p).1)
  }

  /** The wall stop and the alignment of update for pose p on grid g; the
      pose stays on its square. */
  function SettledPose(l: Layout, g: seq<Square>, p: Pose): (r: Pose)
    requires l.Fits(g) && Inside(l, p)
    ensures CellOf(l, r) == CellOf(l, p)
  {
    var c := CentreOf(l, p);
    CentredCell(CellOf(l, p).0, l.dx, l.w);
    CentredCell(CellOf(l, p).1, l.dy, l.h);
    Aligned(Stopped(p, At(g, l.w, l.h, CellOf(l, p).0, CellOf(l, p).1), EnteredAt(l, p), c.0, c.1), c.0, c.1)
  }

  /** The index of the item of the square a pose stands on. */
  function ItemIndex(l: Layout, p: Pose): (k: int)
    requires 0 <= l.w && 0 <= l.h && Inside(l, p)
    ensures 0 <= k < l.w * l.h
    ensures k == Idx(l.w, l.h, CellOf(l, p).0, CellOf(l, p).1)
  {
    IdxBounds(l.w, l.h, CellOf(l, p).0, CellOf(l, p).1);
    Idx(l.w, l.h, CellOf(l, p).0, CellOf(l, p).1)
  }

  /** A scene whose parts have the sizes of a maze of layout l. */
  ghost predicate Sized(l: Layout, w: Scene) {
    && 0 <= l.w && 0 <= l.h
    && |w.actors| == 5 && |w.sounds| == NumEffects && |w.grid| == l.w * l.h && |w.stock| == l.w * l.h
  }

  /** What applyAi looks at for actor i, read off a scene. */
  ghost function SceneView(l: Layout, w: Scene, i: int): (v: Waypoints.View)
    requires 0 <= l.w && 0 <= l.h && |w.actors| == 5 && 0 <= i < 5
    ensures v.w == l.w && v.h == l.h && v.me == CellOf(l, w.actors[i].pose) && v.way == w.actors[i].way
    ensures v.isGhost == (i != 0) && v.pac == CellOf(l, w.actors[0].pose) && v.eaten == Eaten(w.stock)
  {
    var a := w.actors;
    Waypoints.View(l.w, l.h, CellOf(l, a[i].pose), a[i].way, i != 0, CellOf(l, a[0].pose),
      [CellOf(l, a[1].pose), CellOf(l, a[2].pose), CellOf(l, a[3].pose), CellOf(l, a[4].pose)],
      [a[1].alive, a[2].alive, a[3].alive, a[4].alive],
      Eaten(w.stock))
  }

  // ---------------------------------------------------------------------
  // applyAi

  /** The outcome of steering an actor that stood on square v.me of grid g
      with pose p and centre (cx, cy), in mode m with `draws` to come: r is
      the actor after steering and (d1, e1) the dice's stream after it.
      Its waypoint is the one Aim picks, the dice gave up the draws that
      took, plot holds the path distance from the waypoint to every
      square, the turn is the one SteerOf picks from the plot, and the
      actor's pose is what turnActor makes of that turn. */
  ghost predicate SteersTo(l: Layout, g: seq<Square>, r: Status, d1: seq<int>, e1: bool, turn: MazeDirection,
                           plot: seq<int>, v: Waypoints.View, m: AiObjective, draws: seq<int>, exhausted: bool,
                           p: Pose, cx: real, cy: real)
    requires l.Fits(g)
  {
    && Waypoints.WellFormed(v) && (forall i :: 0 <= i < |draws| ==> Dice.IsDraw(draws[i]))
    && r.way == Waypoints.Aim(m, v, draws)
    && d1 == Dice.Drop(draws, Waypoints.AimDraws(m, v))
    && e1 == (exhausted || |draws| < Waypoints.AimDraws(m, v))
    && InGrid(l.w, l.h, r.way.0, r.way.1)
    && |plot| == l.w * l.h
    && (forall x, y :: InGrid(l.w, l.h, x, y) ==>
          Floods.IsDistance(g, l.w, l.h, r.way, x, y, plot[Idx(l.w, l.h, x, y)]))
    && InGrid(l.w, l.h, v.me.0, v.me.1)
    && turn == Steering.SteerOf(plot, g, l.w, l.h, v.me.0, v.me.1, r.way.0, r.way.1)
    && r.pose == (if turn == None then p else Turned(p, turn, At(g, l.w, l.h, v.me.0, v.me.1), cx, cy, r.velocity))
  }

  /** applyAi's outcome on values, for an actor s whose square has its
      centre at (cx, cy), once the outer wall stands: short of the centre,
      the actor, the dice and the heading stay as they are; otherwise the
      actor ends as r, steered as SteersTo says, and nothing else about it
      changes. */
  ghost predicate AiStep(l: Layout, g: seq<Square>, s: Status, r: Status, d1: seq<int>, e1: bool,
                         turn: MazeDirection, plot: seq<int>, v: Waypoints.View, draws: seq<int>, exhausted: bool,
                         cx: real, cy: real)
    requires l.Fits(g)
  {
    if ShortOfCentre(Heading(s.pose.xVel, s.pose.yVel), s.pose.x.value, s.pose.y.value, cx, cy)
    then r == s && d1 == draws && e1 == exhausted && turn == None
    else SteersTo(l, g, r, d1, e1, turn, plot, v, s.mode, draws, exhausted, s.pose, cx, cy)
         && r == s.(way := r.way, pose := r.pose)
  }

  // ---------------------------------------------------------------------
  // The steps of a frame

  /** Actor i of cs after the wall stop and the alignment on grid g. */
  ghost function Settled(l: Layout, g: seq<Square>, cs: seq<Status>, i: int): (r: seq<Status>)
    requires l.Fits(g) && |cs| == 5 && 0 <= i < 5 && Inside(l, cs[i].pose)
  {
    cs[i := cs[i].(pose := SettledPose(l, g, cs[i].pose))]
  }

  ghost function SettledAt(l: Layout, w: Scene, i: int): (r: Scene)
    requires Sized(l, w) && 0 <= i < 5 && Inside(l, w.actors[i].pose)
  {
    w.(actors := Settled(l, w.grid, w.actors, i))
  }

  /** Actor i after vActor::update(dt). */
  ghost function MovedAt(w: Scene, i: int, dt: real): (r: Scene)
    requires |w.actors| == 5 && 0 <= i < 5
  {
    w.(actors := w.actors[i := Moved(w.actors[i], dt)])
  }

  /** The sound flags after a ghost's collision test: 6 when Pacman eats
      it, 7 when it kills him. */
  function MeetingSounds(f: seq<bool>, s: Status, pac: Sighting): (r: seq<bool>)
    requires |f| == NumEffects
    ensures |r| == NumEffects
    ensures r[6] == (f[6] || IsEaten(s, pac)) && r[7] == (f[7] || KillsPacman(s, pac))
    ensures forall j :: 0 <= j < 6 ==> r[j] == f[j]
  {
    if IsEaten(s, pac) then f[6 := true] else if KillsPacman(s, pac) then f[7 := true] else f
  }

  /** The actors after ghost i's collision test against Pacman's position
      pac: Met for the ghost, and death for Pacman when the ghost kills
      him. */
  function Collided(cs: seq<Status>, i: int, pac: Sighting): (r: seq<Status>)
    requires |cs| == 5 && 1 <= i < 5
  {
    cs[i := Met(cs[i], pac)][0 := cs[0].(alive := cs[0].alive && !KillsPacman(cs[i], pac))]
  }

  /** A living ghost that does not meet Pacman changes nothing; one that
      meets him scared dies at level 0 and raises flag 6; one that meets
      him unscared kills him and raises flag 7. */
  lemma CollidedCases(cs: seq<Status>, f: seq<bool>, i: int, pac: Sighting)
    requires |cs| == 5 && 1 <= i < 5 && cs[i].alive && |f| == NumEffects
    ensures !Meets(cs[i], pac) ==> Collided(cs, i, pac) == cs && MeetingSounds(f, cs[i], pac) == f
    ensures Meets(cs[i], pac) && cs[i].scared ==>
      Collided(cs, i, pac) == cs[i := cs[i].(alive := false, level := 0)] && MeetingSounds(f, cs[i], pac) == f[6 := true]
    ensures Meets(cs[i], pac) && !cs[i].scared ==>
      Collided(cs, i, pac) == cs[0 := cs[0].(alive := false)] && MeetingSounds(f, cs[i], pac) == f[7 := true]
  {
    if !Meets(cs[i], pac) {
      assert cs[i := Met(cs[i], pac)] == cs;
      assert cs[0 := cs[0]] == cs;
    }
  }

  /** Ghost i's collision test on a scene, with the flag of its outcome. */
  ghost function CollidedAt(w: Scene, i: int, pac: Sighting): (r: Scene)
    requires |w.actors| == 5 && 1 <= i < 5 && |w.sounds| == NumEffects
  {
    w.(actors := Collided(w.actors, i, pac), sounds := MeetingSounds(w.sounds, w.actors[i], pac))
  }

  /** Ghost i's turn in update's loop: nothing when it is dead; otherwise
      the collision test, the wall stop and the alignment, and the move. */
  ghost function GhostFrame(l: Layout, w: Scene, i: int, pac: Sighting, dt: real): (r: Scene)
    requires Sized(l, w) && 1 <= i < 5 && (w.actors[i].alive ==> Inside(l, w.actors[i].pose))
  {
    if !w.actors[i].alive then w
    else MovedAt(SettledAt(l, CollidedAt(w, i, pac), i), i, dt)
  }

  /** The ghosts of a scene all stand on the grid while they live. */
  ghost predicate GhostsInside(l: Layout, w: Scene)
    requires 0 <= l.w && 0 <= l.h && |w.actors| == 5
  {
    forall j :: 1 <= j < 5 && w.actors[j].alive ==> Inside(l, w.actors[j].pose)
  }

  /** The turns of the ghosts before index n (Blinky first) in update's
      loop; each ghost changes only itself, Pacman's life and the sound
      flags. */
  ghost function GhostFrames(l: Layout, w: Scene, pac: Sighting, dt: real, n: int): (r: Scene)
    requires Sized(l, w) && 1 <= n <= 5 && GhostsInside(l, w)
    ensures Sized(l, r)
    ensures r == w.(actors := r.actors, sounds := r.sounds)
    ensures forall j :: n <= j < 5 ==> r.actors[j] == w.actors[j]
    decreases n
  {
    if n == 1 then w else GhostFrame(l, GhostFrames(l, w, pac, dt, n - 1), n - 1, pac, dt)
  }

  /** Pacman, fully entered or not (fe), eats item k of the stock when it
      is still there and he is fully entered. */
  predicate Ate(stock: seq<Item>, k: int, fe: bool)
    requires 0 <= k < |stock|
  {
    !stock[k].isConsumed && fe
  }

  /** Eating item k starts the vulnerable period when it is a large dot. */
  predicate Begins(stock: seq<Item>, k: int, fe: bool)
    requires 0 <= k < |stock|
  {
    Ate(stock, k, fe) && stock[k].kind == ItLargeDot
  }

  /** The stock after the consumption test: an eaten item is consumed and
      parked. */
  function Fed(stock: seq<Item>, k: int, fe: bool): (r: seq<Item>)
    requires 0 <= k < |stock|
  {
    if Ate(stock, k, fe) then stock[k := stock[k].Disabled()] else stock
  }

  /** Pacman's consumption test on item k: an eaten item dings and is
      parked, and a large dot scares the ghosts and makes him homicidal;
      otherwise the chimes fall silent. */
  ghost function AteAt(w: Scene, k: int, fe: bool): (r: Scene)
    requires |w.actors| == 5 && 0 <= k < |w.stock| && |w.sounds| == NumEffects
  {
    w.(actors := Alarmed(w.actors, Begins(w.stock, k, fe)),
       sounds := EatSounds(w.sounds, Ate(w.stock, k, fe), w.stock[k].kind),
       stock := Fed(w.stock, k, fe))
  }

  /** Pacman's turn up to applyAi: the wall stop and the alignment, then
      the consumption test on the item of his square, as it was before he
      moved. */
  ghost function PacmanFed(l: Layout, w: Scene): (r: Scene)
    requires Sized(l, w) && Inside(l, w.actors[0].pose)
  {
    var p := w.actors[0].pose;
    AteAt(SettledAt(l, w, 0), ItemIndex(l, p), EnteredAt(l, p))
  }

  /** update's countdowns at time now for the actors cs, the vulnerable
      period having begun at `last` on a maze at `level`: once the period
      is over every ghost is unscared and Pacman greedy (Calmed); Blinky's
      ability, once over, gives him back the ghosts' speed; Inky's, once
      over, copies Blinky's scare to him. */
  function Countdowns(cs: seq<Status>, now: int, last: int, level: int): (r: seq<Status>)
    requires |cs| == 5
    ensures |r| == 5
  {
    AbilitiesEnded(if Expired(now, last, level) then Calmed(cs) else cs, now)
  }

  /** The ability countdowns at time now: Blinky's speed, then Inky's
      scare. */
  function AbilitiesEnded(cs: seq<Status>, now: int): (r: seq<Status>)
    requires |cs| == 5
    ensures |r| == 5
  {
    var a2 := if AbilityOver(now, cs[1].ability, cs[1].level) then cs[1 := cs[1].(velocity := 0.8 * BaseVelocity)] else cs;
    if AbilityOver(now, a2[3].ability, a2[3].level) then a2[3 := a2[3].(scared := a2[1].scared)] else a2
  }

  ghost function CountedDown(w: Scene, now: int, level: int): (r: Scene)
    requires |w.actors| == 5
  {
    w.(actors := Countdowns(w.actors, now, w.lastVul, level))
  }

  /** Being fed keeps Pacman on his square and keeps his waypoint ready
      for applyAi: a large dot makes him homicidal, and otherwise his mode
      and his waypoint are as they were. */
  lemma FedReady(l: Layout, w: Scene)
    requires Sized(l, w) && Inside(l, w.actors[0].pose)
    requires Waypoints.Ready(w.actors[0].mode, SceneView(l, w, 0))
    ensures Sized(l, PacmanFed(l, w)) && Inside(l, PacmanFed(l, w).actors[0].pose)
    ensures Waypoints.Ready(PacmanFed(l, w).actors[0].mode, SceneView(l, PacmanFed(l, w), 0))
  {
    var p := w.actors[0].pose;
    var w1 := SettledAt(l, w, 0);
    AlarmedScares(w1.actors, Begins(w1.stock, ItemIndex(l, p), EnteredAt(l, p)));
  }

  /** A scene steered from w0 to w1 and then moved is w0 with Pacman's
      steered status moved. */
  lemma SteeredMoved(w0: Scene, w1: Scene, dt: real, v: int)
    requires |w0.actors| == 5 && |w1.actors| == 5
    requires w1 == w0.(actors := w0.actors[0 := w1.actors[0]], draws := w1.draws, exhausted := w1.exhausted)
    ensures MovedAt(w1, 0, dt).(lastVul := v)
            == w0.(actors := w0.actors[0 := Moved(w1.actors[0], dt)], draws := w1.draws, exhausted := w1.exhausted, lastVul := v)
  {
  }

  /** applyAi for Pacman in the scene w1: he ends as mid and the dice's
      stream at (d, e), as AiStep says for his square's centre and the
      scene's view of him. */
  ghost predicate PacmanSteered(l: Layout, w1: Scene, turn: MazeDirection, plot: seq<int>, mid: Status,
                                d: seq<int>, e: bool)
    requires Sized(l, w1)
  {
    var c := CentreOf(l, w1.actors[0].pose);
    AiStep(l, w1.grid, w1.actors[0], mid, d, e, turn, plot, SceneView(l, w1, 0), w1.draws, w1.exhausted, c.0, c.1)
  }

  /** Pacman's turn: placed and fed as PacmanFed says, then applyAi as
      AiStep says, ending as mid with the dice's stream at (d, e).  `began`
      tells whether he started the vulnerable period. */
  ghost predicate PacmanStep(l: Layout, w0: Scene, began: bool, turn: MazeDirection, plot: seq<int>, mid: Status,
                             d: seq<int>, e: bool)
    requires Sized(l, w0) && Inside(l, w0.actors[0].pose)
  {
    var p := w0.actors[0];
    var w1 := PacmanFed(l, w0);
    && began == Begins(w0.stock, ItemIndex(l, p.pose), EnteredAt(l, p.pose))
    && PacmanSteered(l, w1, turn, plot, mid, d, e)
  }

  /** The scene after Pacman's turn: fed, then mid moved by vActor::update,
      the dice's stream at (d, e), and the time stamp `now` taken when he
      began the vulnerable period. */
  ghost function AfterPacman(l: Layout, w0: Scene, dt: real, now: int, began: bool, mid: Status,
                             d: seq<int>, e: bool): (r: Scene)
    requires Sized(l, w0) && Inside(l, w0.actors[0].pose)
  {
    var w1 := PacmanFed(l, w0);
    w1.(actors := w1.actors[0 := Moved(mid, dt)], draws := d, exhausted := e,
        lastVul := if began then now else w1.lastVul)
  }

  /** Pacman's turn leaves every ghost where it stood, alive or dead as it
      was; only its scare can change, and only to scared. */
  lemma AfterPacmanGhosts(l: Layout, w: Scene, dt: real, now: int, began: bool, mid: Status, d: seq<int>, e: bool)
    requires Sized(l, w) && Inside(l, w.actors[0].pose)
    ensures Sized(l, AfterPacman(l, w, dt, now, began, mid, d, e))
    ensures forall j :: 1 <= j < 5 ==>
      var g := AfterPacman(l, w, dt, now, began, mid, d, e).actors[j];
      g == w.actors[j].(scared := g.scared) && (w.actors[j].scared ==> g.scared)
    ensures GhostsInside(l, w) ==> GhostsInside(l, AfterPacman(l, w, dt, now, began, mid, d, e))
  {
    var p := w.actors[0].pose;
    var w1 := SettledAt(l, w, 0);
    AlarmedScares(w1.actors, Begins(w1.stock, ItemIndex(l, p), EnteredAt(l, p)));
  }

  /** One frame of update from the scene w0, whose outer walls are raised
      already, to the scene w, at time now on a maze at `level`: a living
      Pacman takes his turn first as PacmanStep and AfterPacman say; then
      every ghost takes its turn against the position Pacman had before
      moving (none when he is dead); then the countdowns. */
  ghost predicate UpdateStep(l: Layout, level: int, w0: Scene, w: Scene, dt: real, now: int, began: bool,
                             turn: MazeDirection, plot: seq<int>, mid: Status)
    requires Sized(l, w0) && GhostsInside(l, w0) && (w0.actors[0].alive ==> Inside(l, w0.actors[0].pose))
  {
    var p := w0.actors[0];
    if !p.alive then !began && w == CountedDown(GhostFrames(l, w0, Unseen, dt, 5), now, level)
    else
      var w2 := AfterPacman(l, w0, dt, now, began, mid, w.draws, w.exhausted);
      && PacmanStep(l, w0, began, turn, plot, mid, w.draws, w.exhausted)
      && GhostsInside(l, w2)
      && w == CountedDown(GhostFrames(l, w2, Seen(Trunc(p.pose.x.value), Trunc(p.pose.y.value)), dt, 5), now, level)
  }

  /** A frame while Pacman lives, from its parts: his turn from w0 to w1,
      then the ghosts' turns and the countdowns from w1 to w. */
  lemma LivingStep(l: Layout, level: int, w0: Scene, w1: Scene, w: Scene, dt: real, now: int, began: bool,
                   turn: MazeDirection, plot: seq<int>, mid: Status)
    requires Sized(l, w0) && GhostsInside(l, w0) && w0.actors[0].alive && Inside(l, w0.actors[0].pose)
    requires PacmanStep(l, w0, began, turn, plot, mid, w1.draws, w1.exhausted)
    requires w1 == AfterPacman(l, w0, dt, now, began, mid, w1.draws, w1.exhausted)
    requires GhostsInside(l, w1)
    requires w == CountedDown(GhostFrames(l, w1, Seen(Trunc(w0.actors[0].pose.x.value), Trunc(w0.actors[0].pose.y.value)), dt, 5), now, level)
    ensures UpdateStep(l, level, w0, w, dt, now, began, turn, plot, mid)
  {
  }
}
