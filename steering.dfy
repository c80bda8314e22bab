/** The neighbour choice at the end of vMaze::applyAi: four path distances
    are turned into costs, and the actor turns toward the cheapest open side,
    preferring up, then left, then down, then right. */
module Steering {
  import opened Grid

  /** C's bitwise `&` on non-negative ints. */
  function BitAnd(a: nat, b: nat): (r: nat)
    ensures r <= a && r <= b
  {
    if a == 0 || b == 0 then 0
    else 2 * BitAnd(a / 2, b / 2) + (if a % 2 == 1 && b % 2 == 1 then 1 else 0)
  }

  /** The "enforce bounds" step: an unplotted square (-1), a value outside
      [0, cap] and a walled side all cost cap = numW * numH. */
  function Cost(v: int, walled: bool, cap: int): (c: int)
    requires cap >= 0
    ensures 0 <= c <= cap
    ensures walled || v < 0 || v > cap ==> c == cap
    ensures !walled && 0 <= v <= cap ==> c == v
  {
    var a := if v == -1 then cap else v;
    if a < 0 || a > cap || walled then cap else a
  }

  /** The turn applyAi makes from the four costs and the walls of the
      actor's square, or None when it stays on course. */
  function ChooseTurn(atWaypoint: bool, up: int, left: int, down: int, right: int,
                      wu: bool, wl: bool, wd: bool, wr: bool): MazeDirection
  {
    if atWaypoint then None
    else if up <= left && up <= down && up <= right && !wu && up >= 0 then Up
    else if left <= down && left <= right && !wl && left >= 0 then Left
    else if down <= right && !wd && down >= 0 then Down
    else if !wr && right >= 0 then Right
    else None
  }

  function CostOf(d: MazeDirection, up: int, left: int, down: int, right: int): int {
    match d
    case Up => up
    case Left => left
    case Down => down
    case Right => right
    case None => 0
  }

  predicate WalledOn(d: MazeDirection, wu: bool, wl: bool, wd: bool, wr: bool) {
    match d
    case Up => wu
    case Left => wl
    case Down => wd
    case Right => wr
    case None => true
  }

  /** The order of preference up, left, down, right. */
  function Rank(d: MazeDirection): int {
    match d
    case Up => 0
    case Left => 1
    case Down => 2
    case Right => 3
    case None => 4
  }

  /** The independent statement of the rule: d is an open side, no open side
      is cheaper, and every open side preferred to d is dearer. */
  ghost predicate BestOpenSide(d: MazeDirection, up: int, left: int, down: int, right: int,
                               wu: bool, wl: bool, wd: bool, wr: bool)
  {
    && d != None && !WalledOn(d, wu, wl, wd, wr)
    && forall e: MazeDirection :: e != None && !WalledOn(e, wu, wl, wd, wr) ==>
         CostOf(d, up, left, down, right) <= CostOf(e, up, left, down, right)
         && (Rank(e) < Rank(d) ==> CostOf(d, up, left, down, right) < CostOf(e, up, left, down, right))
  }

  /** On costs from Cost (walled sides cost the maximum cap), applyAi's
      chain of comparisons picks exactly the best open side, turns nowhere
      when all four sides are walled, and never turns through a wall. */
  lemma ChooseTurnIsBest(up: int, left: int, down: int, right: int,
                         wu: bool, wl: bool, wd: bool, wr: bool, cap: int)
    requires 0 <= up <= cap && 0 <= left <= cap && 0 <= down <= cap && 0 <= right <= cap
    requires (wu ==> up == cap) && (wl ==> left == cap) && (wd ==> down == cap) && (wr ==> right == cap)
    ensures var d := ChooseTurn(false, up, left, down, right, wu, wl, wd, wr);
      && (d == None <==> wu && wl && wd && wr)
      && (d != None ==> BestOpenSide(d, up, left, down, right, wu, wl, wd, wr))
  {
    var d := ChooseTurn(false, up, left, down, right, wu, wl, wd, wr);
    if d != None {
      forall e: MazeDirection | e != None && !WalledOn(e, wu, wl, wd, wr)
        ensures CostOf(d, up, left, down, right) <= CostOf(e, up, left, down, right)
        ensures Rank(e) < Rank(d) ==> CostOf(d, up, left, down, right) < CostOf(e, up, left, down, right)
      {
      }
    }
  }

  /** At the waypoint the actor keeps going as it is. */
  lemma AtWaypointNoTurn(up: int, left: int, down: int, right: int, wu: bool, wl: bool, wd: bool, wr: bool)
    ensures ChooseTurn(true, up, left, down, right, wu, wl, wd, wr) == None
  {
  }

  // ---------------------------------------------------------------------
  // Waypoints

  /** The clamp applyAi puts on a destination: below 0 becomes 0, then n or
      more becomes n - 1. */
  function Clamp(v: int, n: int): (r: int)
    ensures 0 <= v < n ==> r == v
    ensures n >= 1 ==> 0 <= r < n
  {
    var a := if v < 0 then 0 else v;
    if a >= n then n - 1 else a
  }

  /** The clamped value is the point of [0, n) nearest to v. */
  lemma ClampIsNearest(v: int, n: int, u: int)
    requires 0 <= u < n
    ensures var r := Clamp(v, n); (r - v) * (r - v) <= (u - v) * (u - v)
  {
    var r := Clamp(v, n);
    if v < 0 {
      assert 0 <= r - v <= u - v;
      MulLe(r - v, u - v);
    } else if v >= n {
      assert 0 <= v - r <= v - u;
      MulLe(v - r, v - u);
    }
  }

  lemma MulLe(a: int, b: int)
    requires 0 <= a <= b
    ensures a * a <= b * b
  {
    assert a * a <= a * b <= b * b;
  }

  /** The squared distance between two squares. */
  function SqDist(x1: int, y1: int, x2: int, y2: int): (d: int)
    ensures d >= 0
    ensures d == 0 <==> x1 == x2 && y1 == y2
  {
    (x1 - x2) * (x1 - x2) + (y1 - y2) * (y1 - y2)
  }

  /** The first of four distances that no other one undercuts, as applyAi's
      chains of `<=` pick Blinky, Pinky, Inky or Clyde. */
  function Nearest(ds: seq<int>): (k: int)
    requires |ds| == 4
    ensures 0 <= k < 4
    ensures forall j :: 0 <= j < 4 ==> ds[k] <= ds[j] && (j < k ==> ds[k] < ds[j])
  {
    if ds[0] <= ds[1] && ds[0] <= ds[2] && ds[0] <= ds[3] then 0
    else if ds[1] <= ds[2] && ds[1] <= ds[3] then 1
    else if ds[2] <= ds[3] then 2
    else 3
  }

  // ---------------------------------------------------------------------
  // The step toward the waypoint

  /** The four neighbour values applyAi reads from the plot, enforced into
      costs, and the turn it makes.  Off the grid, up reads numW & numH and
      the other sides numW * numH. */
  function SteerOf(v: seq<int>, ws: seq<Square>, w: nat, h: nat, cx: int, cy: int, wx: int, wy: int): MazeDirection
    requires |v| == w * h && |ws| == w * h && InGrid(w, h, cx, cy)
  {
    var cap := w * h;
    var q := At(ws, w, h, cx, cy);
    var up := if cy < h - 1 then v[Idx(w, h, cx, cy + 1)] else BitAnd(w, h);
    var left := if cx > 0 then v[Idx(w, h, cx - 1, cy)] else cap;
    var down := if cy > 0 then v[Idx(w, h, cx, cy - 1)] else cap;
    var right := if cx < w - 1 then v[Idx(w, h, cx + 1, cy)] else cap;
    ChooseTurn(cx == wx && cy == wy,
               Cost(up, q.wallUp, cap), Cost(left, q.wallLeft, cap),
               Cost(down, q.wallDown, cap), Cost(right, q.wallRight, cap),
               q.wallUp, q.wallLeft, q.wallDown, q.wallRight)
  }

  /** The cost of stepping out of (cx, cy) through side d: the plotted
      distance of the square behind it, where an unplotted square, a walled
      side and the outside of the grid all count as numW * numH. */
  function SideCost(v: seq<int>, ws: seq<Square>, w: nat, h: nat, cx: int, cy: int, d: MazeDirection): (c: int)
    requires |v| == w * h && |ws| == w * h
    ensures 0 <= c <= w * h
  {
    if Open(ws, w, h, cx, cy, d) then Cost(v[Idx(w, h, StepX(cx, d), StepY(cy, d))], false, w * h) else w * h
  }

  /** Inside a complete outer wall, applyAi stays on course at the waypoint;
      elsewhere it turns nowhere exactly when all four sides are walled, and
      otherwise takes the open side of least cost, preferring up, left, down
      and right in that order. */
  lemma SteerIsBest(v: seq<int>, ws: seq<Square>, w: nat, h: nat, cx: int, cy: int, wx: int, wy: int)
    requires |v| == w * h && |ws| == w * h && InGrid(w, h, cx, cy) && Borders(ws, w, h)
    ensures var d := SteerOf(v, ws, w, h, cx, cy, wx, wy);
      var q := At(ws, w, h, cx, cy);
      && (cx == wx && cy == wy ==> d == None)
      && (!(cx == wx && cy == wy) ==>
            && (d == None <==> q.wallUp && q.wallLeft && q.wallDown && q.wallRight)
            && (d != None ==> Open(ws, w, h, cx, cy, d))
            && (d != None ==>
                  BestOpenSide(d, SideCost(v, ws, w, h, cx, cy, Up), SideCost(v, ws, w, h, cx, cy, Left),
                               SideCost(v, ws, w, h, cx, cy, Down), SideCost(v, ws, w, h, cx, cy, Right),
                               q.wallUp, q.wallLeft, q.wallDown, q.wallRight)))
  {
    var q := At(ws, w, h, cx, cy);
    EdgesWalled(ws, w, h, cx, cy);
    SteerByCosts(v, ws, w, h, cx, cy, wx, wy);
    if !(cx == wx && cy == wy) {
      ChooseTurnIsBest(SideCost(v, ws, w, h, cx, cy, Up), SideCost(v, ws, w, h, cx, cy, Left),
                       SideCost(v, ws, w, h, cx, cy, Down), SideCost(v, ws, w, h, cx, cy, Right),
                       q.wallUp, q.wallLeft, q.wallDown, q.wallRight, w * h);
    }
  }

  /** Inside a complete outer wall, a square on the edge is walled on its
      outer side. */
  lemma EdgesWalled(ws: seq<Square>, w: nat, h: nat, cx: int, cy: int)
    requires |ws| == w * h && InGrid(w, h, cx, cy) && Borders(ws, w, h)
    ensures var q := At(ws, w, h, cx, cy);
      && (cy == h - 1 ==> q.wallUp) && (cx == 0 ==> q.wallLeft)
      && (cy == 0 ==> q.wallDown) && (cx == w - 1 ==> q.wallRight)
  {
  }

  /** Inside a complete outer wall, the costs applyAi compares are the side
      costs. */
  lemma SteerByCosts(v: seq<int>, ws: seq<Square>, w: nat, h: nat, cx: int, cy: int, wx: int, wy: int)
    requires |v| == w * h && |ws| == w * h && InGrid(w, h, cx, cy) && Borders(ws, w, h)
    ensures var q := At(ws, w, h, cx, cy);
      SteerOf(v, ws, w, h, cx, cy, wx, wy) ==
        ChooseTurn(cx == wx && cy == wy,
                   SideCost(v, ws, w, h, cx, cy, Up), SideCost(v, ws, w, h, cx, cy, Left),
                   SideCost(v, ws, w, h, cx, cy, Down), SideCost(v, ws, w, h, cx, cy, Right),
                   q.wallUp, q.wallLeft, q.wallDown, q.wallRight)
  {
    EdgesWalled(ws, w, h, cx, cy);
  }
}
