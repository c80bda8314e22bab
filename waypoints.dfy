/** Where vMaze::applyAi sends an actor: the waypoint each AI mode picks, on
    a view of what the mode looks at (the actor's square, its current
    waypoint, the squares of Pacman and of the four ghosts, which ghosts
    live, and which items are eaten). */
module Waypoints {
  import opened Grid
  import opened Steering
  import opened Actors
  import Dice

  /** What applyAi reads for one actor: grid size, the actor's square and
      waypoint, whether it is a ghost, Pacman's square, the squares and life
      of Blinky, Pinky, Inky and Clyde in that order, and the consumed flag
      of each square's item in x-major order. */
  datatype View = View(w: nat, h: nat, me: (int, int), way: (int, int), isGhost: bool,
                       pac: (int, int), ghosts: seq<(int, int)>, alive: seq<bool>, eaten: seq<bool>)

  ghost predicate WellFormed(v: View) {
    |v.ghosts| == 4 && |v.alive| == 4 && |v.eaten| == v.w * v.h && InGrid(v.w, v.h, v.me.0, v.me.1)
  }

  /** The actor stands on its waypoint. */
  predicate Reached(v: View) {
    v.me == v.way
  }

  /** A waypoint of -1 on either axis is not set yet. */
  predicate Unset(v: View) {
    v.way.0 == -1 || v.way.1 == -1
  }

  // ---------------------------------------------------------------------
  // Ghosts by distance

  /** The squared distance from the actor to ghost k; hunting, a dead
      ghost counts as w * h. */
  function GhostDist(v: View, k: int, hunting: bool): int
    requires |v.ghosts| == 4 && |v.alive| == 4 && 0 <= k < 4
  {
    if hunting && !v.alive[k] then v.w * v.h
    else SqDist(v.ghosts[k].0, v.ghosts[k].1, v.me.0, v.me.1)
  }

  /** The ghost Pacman flees (hunting = false) or hunts (hunting = true):
      none is nearer, and every ghost before it in the order Blinky, Pinky,
      Inky, Clyde is farther. */
  function Quarry(v: View, hunting: bool): (k: int)
    requires |v.ghosts| == 4 && |v.alive| == 4
    ensures 0 <= k < 4
    ensures forall j :: 0 <= j < 4 ==>
      GhostDist(v, k, hunting) <= GhostDist(v, j, hunting) && (j < k ==> GhostDist(v, k, hunting) < GhostDist(v, j, hunting))
  {
    var ds := [GhostDist(v, 0, hunting), GhostDist(v, 1, hunting), GhostDist(v, 2, hunting), GhostDist(v, 3, hunting)];
    assert forall j :: 0 <= j < 4 ==> ds[j] == GhostDist(v, j, hunting);
    Nearest(ds)
  }

  /** Hunting never picks a dead ghost while a live one is nearer than
      w * h. */
  lemma HuntPrefersLive(v: View, j: int)
    requires |v.ghosts| == 4 && |v.alive| == 4 && 0 <= j < 4
    requires v.alive[j] && SqDist(v.ghosts[j].0, v.ghosts[j].1, v.me.0, v.me.1) < v.w * v.h
    ensures v.alive[Quarry(v, true)]
  {
  }

  // ---------------------------------------------------------------------
  // Fleeing and chasing

  /** The square an actor steers by when fleeing or chasing: Pacman's for
      a ghost, the Quarry's for Pacman. */
  function Opponent(v: View, hunting: bool): (int, int)
    requires |v.ghosts| == 4 && |v.alive| == 4
  {
    if v.isGhost then v.pac else v.ghosts[Quarry(v, hunting)]
  }

  /** Where a fleeing actor goes: its square reflected in its opponent's,
      clamped into the grid. */
  function Flee(v: View): (int, int)
    requires |v.ghosts| == 4 && |v.alive| == 4
  {
    ClampCell(Reflect(v.me, Opponent(v, false)), v.w, v.h)
  }

  /** Flee written out coordinate by coordinate, for an actor on square
      (cx, cy) of a w x h grid whose opponent is on square (fx, fy). */
  lemma FleeBy(v: View, cx: int, cy: int, fx: int, fy: int)
    requires |v.ghosts| == 4 && |v.alive| == 4 && Opponent(v, false) == (fx, fy) && v.me == (cx, cy)
    ensures Flee(v) == (Clamp(2 * cx - fx, v.w), Clamp(2 * cy - fy, v.h))
  {
  }

  /** A destination clamped into the grid. */
  function ClampCell(p: (int, int), w: int, h: int): (int, int) {
    (Clamp(p.0, w), Clamp(p.1, h))
  }

  /** The square as far beyond c as p lies before it. */
  function Reflect(c: (int, int), p: (int, int)): (int, int) {
    (2 * c.0 - p.0, 2 * c.1 - p.1)
  }

  /** Fleeing from a pursuer on the grid never leads toward it: on each
      axis the clamped reflection is at least as far from the pursuer as
      the actor is, and it lies in the grid. */
  lemma FleeIsAway(c: (int, int), p: (int, int), w: int, h: int)
    requires InGrid(w, h, c.0, c.1) && InGrid(w, h, p.0, p.1)
    ensures var t := ClampCell(Reflect(c, p), w, h);
      && InGrid(w, h, t.0, t.1)
      && Away(t.0, c.0, p.0) && Away(t.1, c.1, p.1)
  {
  }

  /** t is at least as far from p as c is, on the same side of p. */
  predicate Away(t: int, c: int, p: int) {
    (c >= p ==> t >= c) && (c <= p ==> t <= c)
  }

  // ---------------------------------------------------------------------
  // The nearest item

  /** The squared distance from c to the square of item k. */
  function ItemDist(h: int, c: (int, int), k: int): int
    requires h > 0
  {
    SqDist(c.0, c.1, k / h, k % h)
  }

  /** The item the greedy scan settles on among the first n: an uneaten one
      nearer than everything scanned before it and than `bound`, or -1. */
  function FirstNearest(eaten: seq<bool>, h: int, c: (int, int), bound: int, n: nat): (k: int)
    requires n <= |eaten| && (n > 0 ==> h > 0)
    ensures -1 <= k < n
  {
    if n == 0 then -1
    else
      var p := FirstNearest(eaten, h, c, bound, n - 1);
      var best := if p == -1 then bound else ItemDist(h, c, p);
      if !eaten[n - 1] && ItemDist(h, c, n - 1) < best then n - 1 else p
  }

  /** k is the nearest uneaten item among the first n, nearer than bound,
      and strictly nearer than every uneaten item that precedes it; -1 when
      no uneaten item among them is nearer than bound. */
  ghost predicate NearestItem(eaten: seq<bool>, h: int, c: (int, int), bound: int, n: nat, k: int)
    requires n <= |eaten| && (n > 0 ==> h > 0)
  {
    if k == -1 then
      forall j :: 0 <= j < n && !eaten[j] ==> ItemDist(h, c, j) >= bound
    else
      && 0 <= k < n && !eaten[k] && ItemDist(h, c, k) < bound
      && forall j :: 0 <= j < n && !eaten[j] ==>
           ItemDist(h, c, k) <= ItemDist(h, c, j) && (j < k ==> ItemDist(h, c, k) < ItemDist(h, c, j))
  }

  lemma {:induction false} FirstNearestIsNearest(eaten: seq<bool>, h: int, c: (int, int), bound: int, n: nat)
    requires n <= |eaten| && (n > 0 ==> h > 0)
    ensures NearestItem(eaten, h, c, bound, n, FirstNearest(eaten, h, c, bound, n))
  {
    if n > 0 {
      FirstNearestIsNearest(eaten, h, c, bound, n - 1);
    }
  }

  /** There is only one nearest item. */
  lemma NearestItemUnique(eaten: seq<bool>, h: int, c: (int, int), bound: int, n: nat, k1: int, k2: int)
    requires n <= |eaten| && (n > 0 ==> h > 0)
    requires NearestItem(eaten, h, c, bound, n, k1) && NearestItem(eaten, h, c, bound, n, k2)
    ensures k1 == k2
  {
  }

  // ---------------------------------------------------------------------
  // The waypoint

  /** How many draws choosing the waypoint takes: a random choice builds a
      Dice (one draw) and rolls both coordinates. */
  function AimDraws(m: AiObjective, v: View): (n: nat)
    ensures n == 0 || n == 3
  {
    if m == AiRandom && (Reached(v) || Unset(v)) then 3 else 0
  }

  /** The waypoint applyAi gives an actor in mode m, `draws` being the
      random draws still to come. */
  function Aim(m: AiObjective, v: View, draws: seq<int>): (int, int)
    requires WellFormed(v)
    requires forall i :: 0 <= i < |draws| ==> Dice.IsDraw(draws[i])
  {
    match m
    case AiNone => v.me
    case AiAvoid =>
      if !Reached(v) then v.way
      else Flee(v)
    case AiHomicidal =>
      ClampCell(Opponent(v, true), v.w, v.h)
    case AiGreedy =>
      if !(Reached(v) || Unset(v)) then v.way
      else
        var k := FirstNearest(v.eaten, v.h, v.me, v.w + v.h, |v.eaten|);
        if k == -1 then (0, 0) else (k / v.h, k % v.h)
    case AiRandom =>
      if !(Reached(v) || Unset(v)) then v.way
      else (Dice.RollIntOf(v.w, Dice.Head(Dice.Drop(draws, 1))), Dice.RollIntOf(v.h, Dice.Head(Dice.Drop(draws, 2))))
  }

  /** The waypoint is a square of the grid, except that avoiding, greedy and
      random actors keep a waypoint they have not reached (Avoid even an
      unset one). */
  ghost predicate Ready(m: AiObjective, v: View) {
    || m == AiNone || m == AiHomicidal
    || InGrid(v.w, v.h, v.way.0, v.way.1)
    || (m != AiAvoid && Unset(v))
  }

  /** From a ready waypoint every mode aims at a square of the grid, which
      the plot needs. */
  lemma AimInGrid(m: AiObjective, v: View, draws: seq<int>)
    requires WellFormed(v) && forall i :: 0 <= i < |draws| ==> Dice.IsDraw(draws[i])
    requires Ready(m, v)
    ensures var t := Aim(m, v, draws); InGrid(v.w, v.h, t.0, t.1)
  {
    if m == AiGreedy && (Reached(v) || Unset(v)) {
      var k := FirstNearest(v.eaten, v.h, v.me, v.w + v.h, |v.eaten|);
      if k != -1 {
        var x, y := CellOfIndex(v.w, v.h, k);
        DivModIdx(v.h, x, y);
      }
    }
  }

  /** A chasing ghost heads for Pacman's square. */
  lemma ChaseReachesPacman(v: View, draws: seq<int>)
    requires WellFormed(v) && forall i :: 0 <= i < |draws| ==> Dice.IsDraw(draws[i])
    requires v.isGhost && InGrid(v.w, v.h, v.pac.0, v.pac.1)
    ensures Aim(AiHomicidal, v, draws) == v.pac
  {
  }

  /** A greedy actor that has reached its waypoint heads for the nearest
      uneaten item nearer than w + h, or for (0, 0) when there is none. */
  lemma GreedySeeksNearest(v: View, draws: seq<int>)
    requires WellFormed(v) && forall i :: 0 <= i < |draws| ==> Dice.IsDraw(draws[i])
    requires Reached(v) || Unset(v)
    ensures var t := Aim(AiGreedy, v, draws);
      || (NearestItem(v.eaten, v.h, v.me, v.w + v.h, |v.eaten|, -1) && t == (0, 0))
      || (InGrid(v.w, v.h, t.0, t.1) && NearestItem(v.eaten, v.h, v.me, v.w + v.h, |v.eaten|, Idx(v.w, v.h, t.0, t.1)))
  {
    var k := FirstNearest(v.eaten, v.h, v.me, v.w + v.h, |v.eaten|);
    FirstNearestIsNearest(v.eaten, v.h, v.me, v.w + v.h, |v.eaten|);
    if k != -1 {
      var x, y := CellOfIndex(v.w, v.h, k);
      DivModIdx(v.h, x, y);
    }
  }

  /** A square's index divided by the height gives back the square. */
  lemma DivModIdx(h: int, x: int, y: int)
    requires h > 0 && x >= 0 && 0 <= y < h
    ensures (x * h + y) / h == x && (x * h + y) % h == y
  {
    var k := x * h + y;
    var q, r := k / h, k % h;
    assert q * h + r == x * h + y;
    if q > x {
      assert (q - x) * h == y - r;
      MulMono(1, q - x, h);
    } else if q < x {
      assert (x - q) * h == r - y;
      MulMono(1, x - q, h);
    }
  }
}
