/** The maze grid of vMaze.h / vMaze.cpp as values: the mazeSquare struct, the
    x-major cell index, the passages the two flood fills follow, and the
    invariants the wall setters keep.  The maze class keeps its squares in an
    array; everything here is stated about a snapshot `s` of that array. */
module Grid {

  /** mazeSquare: `true` means a wall on that side. */
  datatype Square = Square(
    wallUp: bool, wallDown: bool, wallLeft: bool, wallRight: bool,
    visited: bool, accessible: bool)

  /** What the mazeSquare() constructor builds: walled on all four sides. */
  const Closed := Square(true, true, true, true, false, false)

  /** mazeSquare::reset(empty): every wall becomes !empty, both flags false. */
  function ResetSquare(empty: bool): (q: Square)
    ensures q.wallUp == q.wallDown == q.wallLeft == q.wallRight == !empty
    ensures !q.visited && !q.accessible
  {
    Square(!empty, !empty, !empty, !empty, false, false)
  }

  /** MazeDirection of vMaze.h. */
  datatype MazeDirection = None | Up | Left | Down | Right

  predicate InGrid(w: int, h: int, x: int, y: int) {
    0 <= x < w && 0 <= y < h
  }

  /** q with its wall on side d set to s. */
  function WithSide(q: Square, d: MazeDirection, s: bool): (r: Square)
    ensures d == Up ==> r == q.(wallUp := s)
    ensures d == Down ==> r == q.(wallDown := s)
    ensures d == Left ==> r == q.(wallLeft := s)
    ensures d == Right ==> r == q.(wallRight := s)
    ensures d == None ==> r == q
  {
    match d
    case Up => q.(wallUp := s)
    case Down => q.(wallDown := s)
    case Left => q.(wallLeft := s)
    case Right => q.(wallRight := s)
    case None => q
  }

  /** The x-major index x * numH + y of a cell. */
  function Idx(w: int, h: int, x: int, y: int): (i: int)
    requires InGrid(w, h, x, y)
    ensures 0 <= i < w * h
    ensures i == x * h + y
  {
    IdxBounds(w, h, x, y);
    x * h + y
  }

  lemma IdxBounds(w: int, h: int, x: int, y: int)
    requires InGrid(w, h, x, y)
    ensures 0 <= x * h + y < w * h
  {
    MulMono(x + 1, w, h);
    assert (x + 1) * h == x * h + h;
    MulMono(0, x, h);
  }

  /** Distinct cells have distinct indices. */
  lemma IdxInjective(w: int, h: int, x1: int, y1: int, x2: int, y2: int)
    requires InGrid(w, h, x1, y1) && InGrid(w, h, x2, y2)
    requires Idx(w, h, x1, y1) == Idx(w, h, x2, y2)
    ensures x1 == x2 && y1 == y2
  {
    if x1 < x2 {
      MulMono(x1 + 1, x2, h);
    } else if x2 < x1 {
      MulMono(x2 + 1, x1, h);
    }
  }

  lemma MulMono(a: int, b: int, h: int)
    requires a <= b && 0 <= h
    ensures a * h <= b * h
  {
    assert b * h - a * h == (b - a) * h;
  }

  /** Column i of a w-column grid, h squares high, ends where column i + 1
      begins, within the grid. */
  lemma ColumnStep(i: int, w: int, h: int)
    requires 0 <= i < w && 0 <= h
    ensures (i + 1) * h == i * h + h <= w * h
  {
    MulMono(i + 1, w, h);
  }

  /** The square at (x, y) of a snapshot of the whole grid. */
  function At(s: seq<Square>, w: int, h: int, x: int, y: int): Square
    requires |s| == w * h && InGrid(w, h, x, y)
  {
    s[Idx(w, h, x, y)]
  }

  /** Writing one square of a snapshot changes what At sees at that square
      only. */
  lemma AtUpdate(s: seq<Square>, w: int, h: int, a: int, b: int, q: Square, x: int, y: int)
    requires |s| == w * h && InGrid(w, h, a, b) && InGrid(w, h, x, y)
    ensures At(s[Idx(w, h, a, b) := q], w, h, x, y) == if x == a && y == b then q else At(s, w, h, x, y)
  {
    if Idx(w, h, a, b) == Idx(w, h, x, y) {
      IdxInjective(w, h, a, b, x, y);
    }
  }

  function StepX(x: int, d: MazeDirection): int {
    match d
    case Left => x - 1
    case Right => x + 1
    case _ => x
  }

  function StepY(y: int, d: MazeDirection): int {
    match d
    case Up => y + 1
    case Down => y - 1
    case _ => y
  }

  /** The passage out of (x, y) in direction d that refreshAccessibility and
      aStarPlot follow: the neighbour exists and the wall of (x, y) on that
      side is down.  Only the flags of (x, y) itself are consulted. */
  predicate Open(s: seq<Square>, w: int, h: int, x: int, y: int, d: MazeDirection)
    requires |s| == w * h
  {
    && InGrid(w, h, x, y)
    && match d
       case Up => y < h - 1 && !At(s, w, h, x, y).wallUp
       case Down => y > 0 && !At(s, w, h, x, y).wallDown
       case Left => x > 0 && !At(s, w, h, x, y).wallLeft
       case Right => x < w - 1 && !At(s, w, h, x, y).wallRight
       case None => false
  }

  lemma OpenInGrid(s: seq<Square>, w: int, h: int, x: int, y: int, d: MazeDirection)
    requires |s| == w * h && Open(s, w, h, x, y, d)
    ensures InGrid(w, h, StepX(x, d), StepY(y, d))
  {
  }

  /** (x, y) is reached from `src` in at most k passages, never stepping on a
      cell of `blocked` (the source itself excepted). */
  ghost predicate Path(s: seq<Square>, w: int, h: int, src: (int, int), blocked: set<(int, int)>,
                       x: int, y: int, k: nat)
    requires |s| == w * h
    decreases k
  {
    && InGrid(w, h, x, y)
    && ((x, y) == src
        || (k > 0 && (x, y) !in blocked
            && ((Open(s, w, h, x, y - 1, Up) && Path(s, w, h, src, blocked, x, y - 1, k - 1))
                || (Open(s, w, h, x, y + 1, Down) && Path(s, w, h, src, blocked, x, y + 1, k - 1))
                || (Open(s, w, h, x + 1, y, Left) && Path(s, w, h, src, blocked, x + 1, y, k - 1))
                || (Open(s, w, h, x - 1, y, Right) && Path(s, w, h, src, blocked, x - 1, y, k - 1)))))
  }

  /** Every wall of s2 is also a wall of s1: s2 was obtained from s1 by
      knocking walls down only. */
  ghost predicate WallsRemovedOnly(s1: seq<Square>, s2: seq<Square>) {
    && |s1| == |s2|
    && forall i :: 0 <= i < |s1| ==>
         && (s2[i].wallUp ==> s1[i].wallUp) && (s2[i].wallDown ==> s1[i].wallDown)
         && (s2[i].wallLeft ==> s1[i].wallLeft) && (s2[i].wallRight ==> s1[i].wallRight)
  }

  /** Every wall of s1 is still standing in s2: walls were only raised. */
  ghost predicate WallsRaisedOnly(s1: seq<Square>, s2: seq<Square>) {
    WallsRemovedOnly(s2, s1)
  }

  ghost predicate SameWalls(s1: seq<Square>, s2: seq<Square>) {
    WallsRemovedOnly(s1, s2) && WallsRemovedOnly(s2, s1)
  }

  /** Knocking walls down never disconnects anything. */
  lemma {:induction false} PathGrows(s1: seq<Square>, s2: seq<Square>, w: int, h: int, src: (int, int),
                                     blocked: set<(int, int)>, x: int, y: int, k: nat)
    requires |s1| == w * h && WallsRemovedOnly(s1, s2)
    requires Path(s1, w, h, src, blocked, x, y, k)
    ensures Path(s2, w, h, src, blocked, x, y, k)
    decreases k
  {
    if (x, y) != src {
      if Open(s1, w, h, x, y - 1, Up) && Path(s1, w, h, src, blocked, x, y - 1, k - 1) {
        PathGrows(s1, s2, w, h, src, blocked, x, y - 1, k - 1);
        assert Open(s2, w, h, x, y - 1, Up);
      } else if Open(s1, w, h, x, y + 1, Down) && Path(s1, w, h, src, blocked, x, y + 1, k - 1) {
        PathGrows(s1, s2, w, h, src, blocked, x, y + 1, k - 1);
        assert Open(s2, w, h, x, y + 1, Down);
      } else if Open(s1, w, h, x + 1, y, Left) && Path(s1, w, h, src, blocked, x + 1, y, k - 1) {
        PathGrows(s1, s2, w, h, src, blocked, x + 1, y, k - 1);
        assert Open(s2, w, h, x + 1, y, Left);
      } else {
        PathGrows(s1, s2, w, h, src, blocked, x - 1, y, k - 1);
        assert Open(s2, w, h, x - 1, y, Right);
      }
    }
  }

  /** The last passage of a path that does not start where it ends: it
      comes from a square (a, b) that the path reaches one passage earlier. */
  lemma PathPred(s: seq<Square>, w: int, h: int, src: (int, int), blocked: set<(int, int)>,
                 x: int, y: int, k: nat) returns (a: int, b: int, d: MazeDirection)
    requires |s| == w * h && Path(s, w, h, src, blocked, x, y, k) && (x, y) != src
    ensures k > 0 && (x, y) !in blocked
    ensures Open(s, w, h, a, b, d) && StepX(a, d) == x && StepY(b, d) == y
    ensures Path(s, w, h, src, blocked, a, b, k - 1)
  {
    if Open(s, w, h, x, y - 1, Up) && Path(s, w, h, src, blocked, x, y - 1, k - 1) {
      a, b, d := x, y - 1, Up;
    } else if Open(s, w, h, x, y + 1, Down) && Path(s, w, h, src, blocked, x, y + 1, k - 1) {
      a, b, d := x, y + 1, Down;
    } else if Open(s, w, h, x + 1, y, Left) && Path(s, w, h, src, blocked, x + 1, y, k - 1) {
      a, b, d := x + 1, y, Left;
    } else {
      a, b, d := x - 1, y, Right;
    }
  }

  /** One more passage extends a path, unless it steps onto a blocked square. */
  lemma PathStep(s: seq<Square>, w: int, h: int, src: (int, int), blocked: set<(int, int)>,
                 x: int, y: int, d: MazeDirection, k: nat)
    requires |s| == w * h && Path(s, w, h, src, blocked, x, y, k) && Open(s, w, h, x, y, d)
    requires (StepX(x, d), StepY(y, d)) !in blocked
    ensures Path(s, w, h, src, blocked, StepX(x, d), StepY(y, d), k + 1)
  {
  }

  /** A path of at most k passages is also one of at most k + 1. */
  lemma {:induction false} PathLonger(s: seq<Square>, w: int, h: int, src: (int, int),
                                      blocked: set<(int, int)>, x: int, y: int, k: nat)
    requires |s| == w * h && Path(s, w, h, src, blocked, x, y, k)
    ensures Path(s, w, h, src, blocked, x, y, k + 1)
    decreases k
  {
    if (x, y) != src {
      if Open(s, w, h, x, y - 1, Up) && Path(s, w, h, src, blocked, x, y - 1, k - 1) {
        PathLonger(s, w, h, src, blocked, x, y - 1, k - 1);
      } else if Open(s, w, h, x, y + 1, Down) && Path(s, w, h, src, blocked, x, y + 1, k - 1) {
        PathLonger(s, w, h, src, blocked, x, y + 1, k - 1);
      } else if Open(s, w, h, x + 1, y, Left) && Path(s, w, h, src, blocked, x + 1, y, k - 1) {
        PathLonger(s, w, h, src, blocked, x + 1, y, k - 1);
      } else {
        PathLonger(s, w, h, src, blocked, x - 1, y, k - 1);
      }
    }
  }

  /** The interior walls agree from both sides: the right wall of a cell is
      the left wall of its right neighbour, and its upper wall is the lower
      wall of the cell above. */
  ghost predicate Mirrored(s: seq<Square>, w: int, h: int)
    requires |s| == w * h
  {
    && (forall x, y :: InGrid(w, h, x, y) && x + 1 < w ==>
          At(s, w, h, x, y).wallRight == At(s, w, h, x + 1, y).wallLeft)
    && (forall x, y :: InGrid(w, h, x, y) && y + 1 < h ==>
          At(s, w, h, x, y).wallUp == At(s, w, h, x, y + 1).wallDown)
  }

  /** The outer wall of the grid on the left, bottom and top sides. */
  ghost predicate LeftBottomTopBorders(s: seq<Square>, w: int, h: int)
    requires |s| == w * h
  {
    && (forall y :: 0 <= y < h && 0 < w ==> At(s, w, h, 0, y).wallLeft)
    && (forall x :: 0 <= x < w && 0 < h ==> At(s, w, h, x, 0).wallDown)
    && (forall x, y :: InGrid(w, h, x, y) && y == h - 1 ==> At(s, w, h, x, y).wallUp)
  }

  /** The outer wall on the right side. */
  ghost predicate RightBorder(s: seq<Square>, w: int, h: int)
    requires |s| == w * h
  {
    forall x, y :: InGrid(w, h, x, y) && x == w - 1 ==> At(s, w, h, x, y).wallRight
  }

  /** The whole outer wall is standing. */
  ghost predicate Borders(s: seq<Square>, w: int, h: int)
    requires |s| == w * h
  {
    LeftBottomTopBorders(s, w, h) && RightBorder(s, w, h)
  }

  /** s2 follows from s1 by the wall changes divisionStep makes: the
      visited and accessible flags are untouched, no horizontal wall is
      taken down, and the mirrored walls and the left, bottom and top outer
      walls survive. */
  ghost predicate Carves(s1: seq<Square>, s2: seq<Square>, w: int, h: int)
    requires |s1| == w * h && |s2| == w * h
  {
    && (forall x, y :: InGrid(w, h, x, y) ==>
          && At(s2, w, h, x, y).visited == At(s1, w, h, x, y).visited
          && At(s2, w, h, x, y).accessible == At(s1, w, h, x, y).accessible
          && (At(s1, w, h, x, y).wallUp ==> At(s2, w, h, x, y).wallUp)
          && (At(s1, w, h, x, y).wallDown ==> At(s2, w, h, x, y).wallDown))
    && (Mirrored(s1, w, h) ==> Mirrored(s2, w, h))
    && (LeftBottomTopBorders(s1, w, h) ==> LeftBottomTopBorders(s2, w, h))
  }

  /** Raising walls while keeping the grid mirrored is such a change. */
  lemma RaisedCarves(s1: seq<Square>, s2: seq<Square>, w: int, h: int)
    requires |s1| == w * h && |s2| == w * h
    requires forall x, y :: InGrid(w, h, x, y) ==>
      && At(s2, w, h, x, y).visited == At(s1, w, h, x, y).visited
      && At(s2, w, h, x, y).accessible == At(s1, w, h, x, y).accessible
      && (At(s1, w, h, x, y).wallUp ==> At(s2, w, h, x, y).wallUp)
      && (At(s1, w, h, x, y).wallDown ==> At(s2, w, h, x, y).wallDown)
      && (At(s1, w, h, x, y).wallLeft ==> At(s2, w, h, x, y).wallLeft)
    requires Mirrored(s1, w, h) ==> Mirrored(s2, w, h)
    ensures Carves(s1, s2, w, h)
  {
  }

  /** So is moving vertical walls other than the left outer wall, keeping
      the grid mirrored. */
  lemma VertCarves(s1: seq<Square>, s2: seq<Square>, w: int, h: int)
    requires |s1| == w * h && |s2| == w * h
    requires forall x, y :: InGrid(w, h, x, y) ==>
      && At(s2, w, h, x, y).visited == At(s1, w, h, x, y).visited
      && At(s2, w, h, x, y).accessible == At(s1, w, h, x, y).accessible
      && At(s2, w, h, x, y).wallUp == At(s1, w, h, x, y).wallUp
      && At(s2, w, h, x, y).wallDown == At(s1, w, h, x, y).wallDown
      && (x == 0 ==> At(s2, w, h, x, y).wallLeft == At(s1, w, h, x, y).wallLeft)
    requires Mirrored(s1, w, h) ==> Mirrored(s2, w, h)
    ensures Carves(s1, s2, w, h)
  {
  }

  lemma CarvesTrans(s1: seq<Square>, s2: seq<Square>, s3: seq<Square>, w: int, h: int)
    requires |s1| == w * h && |s2| == w * h && |s3| == w * h
    requires Carves(s1, s2, w, h) && Carves(s2, s3, w, h)
    ensures Carves(s1, s3, w, h)
  {
  }

  /** On a mirrored grid a passage is usable in both directions. */
  lemma OpenBack(s: seq<Square>, w: int, h: int, x: int, y: int, d: MazeDirection)
    requires |s| == w * h && Mirrored(s, w, h) && Open(s, w, h, x, y, d)
    ensures Open(s, w, h, StepX(x, d), StepY(y, d), Opposite(d))
  {
  }

  function Opposite(d: MazeDirection): MazeDirection {
    match d
    case Up => Down
    case Down => Up
    case Left => Right
    case Right => Left
    case None => None
  }

  /** The ghost town is the centre square (numW / 2, numH / 2), its left and
      right neighbours, and the entrance square just below the centre. */
  function CenterX(w: int): int { w / 2 }
  function CenterY(h: int): int { h / 2 }
  function Entrance(w: int, h: int): (int, int) { (w / 2, h / 2 - 1) }

  predicate InGhostTown(w: int, h: int, x: int, y: int) {
    || (x == w / 2 && y == h / 2)
    || (x == w / 2 && y == h / 2 - 1)
    || (x == w / 2 - 1 && y == h / 2)
    || (x == w / 2 + 1 && y == h / 2)
  }

  /** The three ghost-town squares a flood from the entrance must not cross. */
  function Pen(w: int, h: int): set<(int, int)> {
    {(w / 2, h / 2), (w / 2 - 1, h / 2), (w / 2 + 1, h / 2)}
  }

  /** Every passage out of a pen square leads into the ghost town: the pen
      is left only through the entrance. */
  ghost predicate PenClosed(s: seq<Square>, w: int, h: int)
    requires |s| == w * h
  {
    forall x, y, d :: InGrid(w, h, x, y) && (x, y) in Pen(w, h) && Open(s, w, h, x, y, d) ==>
      InGhostTown(w, h, StepX(x, d), StepY(y, d))
  }

  /** The wall on side d of (x, y) is one breakIsolation may take down: an
      inner wall that does not lead into the pen. */
  ghost predicate CanBreak(w: int, h: int, x: int, y: int, d: MazeDirection) {
    d != None && InGrid(w, h, StepX(x, d), StepY(y, d)) && (StepX(x, d), StepY(y, d)) !in Pen(w, h)
  }

  /** breakIsolation's exclusions: from a square outside the ghost town, a
      side is breakable unless it is on the grid's edge or is one of the
      sides onto the pen that the source lists. */
  lemma Breakable(w: int, h: int, x: int, y: int)
    requires InGrid(w, h, x, y) && !InGhostTown(w, h, x, y)
    ensures y < h - 1 && !(y == h / 2 - 1 && w / 2 - 1 <= x <= w / 2 + 1) ==> CanBreak(w, h, x, y, Up)
    ensures x > 0 && !(x == w / 2 + 2 && y == h / 2) ==> CanBreak(w, h, x, y, Left)
    ensures y > 0 && !(y == h / 2 + 1 && w / 2 - 1 <= x <= w / 2 + 1) ==> CanBreak(w, h, x, y, Down)
    ensures x < w - 1 && !(x == w / 2 - 2 && y == h / 2) ==> CanBreak(w, h, x, y, Right)
  {
  }

  /** Reachable from the ghost-town entrance without crossing the pen. */
  ghost predicate ReachableFromEntrance(s: seq<Square>, w: int, h: int, x: int, y: int)
    requires |s| == w * h
  {
    exists k: nat :: Path(s, w, h, Entrance(w, h), Pen(w, h), x, y, k)
  }

  /** What refreshAccessibility leaves in the `accessible` flags: exactly the
      ghost town and everything reachable from its entrance. */
  ghost predicate AccessibilityExact(s: seq<Square>, w: int, h: int)
    requires |s| == w * h
  {
    forall x, y :: InGrid(w, h, x, y) ==>
      (At(s, w, h, x, y).accessible <==> InGhostTown(w, h, x, y) || ReachableFromEntrance(s, w, h, x, y))
  }

  /** Knocking walls down keeps every reachable square reachable. */
  lemma ReachableGrows(s1: seq<Square>, s2: seq<Square>, w: int, h: int, x: int, y: int)
    requires |s1| == w * h && WallsRemovedOnly(s1, s2)
    requires ReachableFromEntrance(s1, w, h, x, y)
    ensures ReachableFromEntrance(s2, w, h, x, y)
  {
    var k: nat :| Path(s1, w, h, Entrance(w, h), Pen(w, h), x, y, k);
    PathGrows(s1, s2, w, h, Entrance(w, h), Pen(w, h), x, y, k);
  }

  /** Exactness survives a change that touches neither walls nor the
      `accessible` flags (such as marking squares visited). */
  lemma ExactFrame(s1: seq<Square>, s2: seq<Square>, w: int, h: int)
    requires |s1| == w * h && SameWalls(s1, s2)
    requires forall i :: 0 <= i < |s1| ==> s2[i].accessible == s1[i].accessible
    requires AccessibilityExact(s1, w, h)
    ensures AccessibilityExact(s2, w, h)
  {
    forall x, y | InGrid(w, h, x, y)
      ensures ReachableFromEntrance(s1, w, h, x, y) <==> ReachableFromEntrance(s2, w, h, x, y)
    {
      if ReachableFromEntrance(s1, w, h, x, y) {
        ReachableGrows(s1, s2, w, h, x, y);
      }
      if ReachableFromEntrance(s2, w, h, x, y) {
        ReachableGrows(s2, s1, w, h, x, y);
      }
    }
  }

  /** With the flags exact before and after, knocking walls down keeps
      every accessible square accessible. */
  lemma ExactGrows(s1: seq<Square>, s2: seq<Square>, w: int, h: int)
    requires |s1| == w * h && WallsRemovedOnly(s1, s2)
    requires AccessibilityExact(s1, w, h) && AccessibilityExact(s2, w, h)
    ensures AccessGrows(s1, s2, w, h)
  {
    forall x, y | InGrid(w, h, x, y) && At(s1, w, h, x, y).accessible
      ensures At(s2, w, h, x, y).accessible
    {
      if !InGhostTown(w, h, x, y) {
        ReachableGrows(s1, s2, w, h, x, y);
      }
    }
  }

  /** Every square accessible in s1 is accessible in s2. */
  ghost predicate AccessGrows(s1: seq<Square>, s2: seq<Square>, w: int, h: int)
    requires |s1| == w * h && |s2| == w * h
  {
    forall x, y :: InGrid(w, h, x, y) && At(s1, w, h, x, y).accessible ==> At(s2, w, h, x, y).accessible
  }

  /** Every square before (i, j) in x-major order is accessible. */
  ghost predicate AccessibleBefore(s: seq<Square>, w: int, h: int, i: int, j: int)
    requires |s| == w * h
  {
    forall x, y :: InGrid(w, h, x, y) && (x < i || (x == i && y < j)) ==> At(s, w, h, x, y).accessible
  }

  lemma AccessibleNext(s1: seq<Square>, s2: seq<Square>, w: int, h: int, i: int, j: int)
    requires |s1| == w * h && |s2| == w * h && AccessibleBefore(s1, w, h, i, j)
    requires AccessGrows(s1, s2, w, h) && InGrid(w, h, i, j) && At(s2, w, h, i, j).accessible
    ensures AccessibleBefore(s2, w, h, i, j + 1)
  {
  }

  lemma AccessibleColumn(s: seq<Square>, w: int, h: int, i: int)
    requires |s| == w * h && AccessibleBefore(s, w, h, i, h)
    ensures AccessibleBefore(s, w, h, i + 1, 0)
  {
  }

  /** The four walls of a square. */
  function WallsOf(q: Square): (bool, bool, bool, bool) {
    (q.wallUp, q.wallDown, q.wallLeft, q.wallRight)
  }

  /** The walls of the pen squares are as they were. */
  ghost predicate PenWallsKept(s1: seq<Square>, s2: seq<Square>, w: int, h: int)
    requires |s1| == w * h && |s2| == w * h
  {
    forall x, y :: InGrid(w, h, x, y) && (x, y) in Pen(w, h) ==> WallsOf(At(s2, w, h, x, y)) == WallsOf(At(s1, w, h, x, y))
  }

  lemma PenClosedKept(s1: seq<Square>, s2: seq<Square>, w: int, h: int)
    requires |s1| == w * h && |s2| == w * h && PenWallsKept(s1, s2, w, h) && PenClosed(s1, w, h)
    ensures PenClosed(s2, w, h)
  {
    forall x, y, d | InGrid(w, h, x, y) && (x, y) in Pen(w, h) && Open(s2, w, h, x, y, d)
      ensures InGhostTown(w, h, StepX(x, d), StepY(y, d))
    {
      assert WallsOf(At(s2, w, h, x, y)) == WallsOf(At(s1, w, h, x, y));
      assert Open(s1, w, h, x, y, d);
    }
  }

  /** s2 follows from s1 by the wall changes breakIsolation makes: walls
      only come down, never an outer wall or a wall of the pen, so a
      mirrored grid stays mirrored and a closed pen stays closed. */
  ghost predicate Breaks(s1: seq<Square>, s2: seq<Square>, w: int, h: int)
    requires |s1| == w * h && |s2| == w * h
  {
    && WallsRemovedOnly(s1, s2)
    && PenWallsKept(s1, s2, w, h)
    && (Mirrored(s1, w, h) ==> Mirrored(s2, w, h))
    && (LeftBottomTopBorders(s1, w, h) ==> LeftBottomTopBorders(s2, w, h))
    && (RightBorder(s1, w, h) ==> RightBorder(s2, w, h))
  }

  /** Every index of the flat grid is the index of a square. */
  lemma CellOfIndex(w: int, h: int, i: int) returns (x: int, y: int)
    requires 0 <= w && 0 <= h && 0 <= i < w * h
    ensures InGrid(w, h, x, y) && Idx(w, h, x, y) == i
  {
    if h == 0 {
      assert false;
    }
    x, y := i / h, i % h;
    assert x * h + y == i;
    if x >= w {
      MulMono(w, x, h);
    }
  }

  /** Walls that agree at every square agree at every index. */
  lemma WallsFromCells(s1: seq<Square>, s2: seq<Square>, w: int, h: int)
    requires 0 <= w && 0 <= h && |s1| == w * h && |s2| == w * h
    requires forall x, y :: InGrid(w, h, x, y) ==> WallsOf(At(s2, w, h, x, y)) == WallsOf(At(s1, w, h, x, y))
    ensures forall i :: 0 <= i < |s1| ==> WallsOf(s2[i]) == WallsOf(s1[i])
  {
    forall i | 0 <= i < |s1|
      ensures WallsOf(s2[i]) == WallsOf(s1[i])
    {
      var x, y := CellOfIndex(w, h, i);
      assert WallsOf(At(s2, w, h, x, y)) == WallsOf(At(s1, w, h, x, y));
    }
  }

  /** A change that leaves every wall standing as it was is such a change. */
  lemma SameWallsBreaks(s1: seq<Square>, s2: seq<Square>, w: int, h: int)
    requires |s1| == w * h && |s2| == w * h
    requires forall i :: 0 <= i < |s1| ==> WallsOf(s2[i]) == WallsOf(s1[i])
    ensures Breaks(s1, s2, w, h) && SameWalls(s1, s2)
  {
    forall x, y | InGrid(w, h, x, y)
      ensures WallsOf(At(s2, w, h, x, y)) == WallsOf(At(s1, w, h, x, y))
    {
      assert WallsOf(s2[Idx(w, h, x, y)]) == WallsOf(s1[Idx(w, h, x, y)]);
    }
  }

  /** A change of flags only, stated square by square, leaves every wall. */
  lemma FlagsOnlyBreaks(s1: seq<Square>, s2: seq<Square>, w: int, h: int)
    requires 0 <= w && 0 <= h && |s1| == w * h && |s2| == w * h
    requires forall x, y :: InGrid(w, h, x, y) ==> WallsOf(At(s2, w, h, x, y)) == WallsOf(At(s1, w, h, x, y))
    ensures Breaks(s1, s2, w, h) && SameWalls(s1, s2)
  {
    WallsFromCells(s1, s2, w, h);
    SameWallsBreaks(s1, s2, w, h);
  }

  /** s2 is s1 with the wall between (x, y) and its neighbour on side d
      taken down from both sides, and nothing else changed. */
  ghost predicate ClearedSide(s1: seq<Square>, s2: seq<Square>, w: int, h: int, x: int, y: int, d: MazeDirection)
    requires |s1| == w * h && |s2| == w * h
  {
    && d != None && InGrid(w, h, x, y) && InGrid(w, h, StepX(x, d), StepY(y, d))
    && At(s2, w, h, x, y) == WithSide(At(s1, w, h, x, y), d, false)
    && At(s2, w, h, StepX(x, d), StepY(y, d)) == WithSide(At(s1, w, h, StepX(x, d), StepY(y, d)), Opposite(d), false)
    && forall a, b :: InGrid(w, h, a, b) && (a, b) != (x, y) && (a, b) != (StepX(x, d), StepY(y, d)) ==>
         At(s2, w, h, a, b) == At(s1, w, h, a, b)
  }

  /** Square by square, such a change keeps or lowers each wall. */
  lemma ClearedCell(s1: seq<Square>, s2: seq<Square>, w: int, h: int, x: int, y: int, d: MazeDirection, a: int, b: int)
    requires |s1| == w * h && |s2| == w * h && ClearedSide(s1, s2, w, h, x, y, d) && InGrid(w, h, a, b)
    ensures var p, q := At(s1, w, h, a, b), At(s2, w, h, a, b);
      && (q.wallUp ==> p.wallUp) && (q.wallDown ==> p.wallDown)
      && (q.wallLeft ==> p.wallLeft) && (q.wallRight ==> p.wallRight)
    ensures (a, b) != (x, y) && (a, b) != (StepX(x, d), StepY(y, d)) ==> At(s2, w, h, a, b) == At(s1, w, h, a, b)
  {
  }

  lemma ClearedRemovesOnly(s1: seq<Square>, s2: seq<Square>, w: int, h: int, x: int, y: int, d: MazeDirection)
    requires 0 <= w && 0 <= h && |s1| == w * h && |s2| == w * h && ClearedSide(s1, s2, w, h, x, y, d)
    ensures WallsRemovedOnly(s1, s2)
  {
    forall i | 0 <= i < |s1|
      ensures && (s2[i].wallUp ==> s1[i].wallUp) && (s2[i].wallDown ==> s1[i].wallDown)
              && (s2[i].wallLeft ==> s1[i].wallLeft) && (s2[i].wallRight ==> s1[i].wallRight)
    {
      var a, b := CellOfIndex(w, h, i);
      ClearedCell(s1, s2, w, h, x, y, d, a, b);
    }
  }

  lemma ClearedKeepsPen(s1: seq<Square>, s2: seq<Square>, w: int, h: int, x: int, y: int, d: MazeDirection)
    requires |s1| == w * h && |s2| == w * h && ClearedSide(s1, s2, w, h, x, y, d)
    requires (x, y) !in Pen(w, h) && (StepX(x, d), StepY(y, d)) !in Pen(w, h)
    ensures PenWallsKept(s1, s2, w, h)
  {
    forall a, b | InGrid(w, h, a, b) && (a, b) in Pen(w, h)
      ensures WallsOf(At(s2, w, h, a, b)) == WallsOf(At(s1, w, h, a, b))
    {
      ClearedCell(s1, s2, w, h, x, y, d, a, b);
    }
  }

  lemma ClearedKeepsBorders(s1: seq<Square>, s2: seq<Square>, w: int, h: int, x: int, y: int, d: MazeDirection)
    requires |s1| == w * h && |s2| == w * h && ClearedSide(s1, s2, w, h, x, y, d)
    ensures LeftBottomTopBorders(s1, w, h) ==> LeftBottomTopBorders(s2, w, h)
    ensures RightBorder(s1, w, h) ==> RightBorder(s2, w, h)
  {
    if LeftBottomTopBorders(s1, w, h) {
      forall b | 0 <= b < h && 0 < w
        ensures At(s2, w, h, 0, b).wallLeft
      {
        ClearedCell(s1, s2, w, h, x, y, d, 0, b);
      }
      forall a | 0 <= a < w && 0 < h
        ensures At(s2, w, h, a, 0).wallDown
      {
        ClearedCell(s1, s2, w, h, x, y, d, a, 0);
      }
      forall a, b | InGrid(w, h, a, b) && b == h - 1
        ensures At(s2, w, h, a, b).wallUp
      {
        ClearedCell(s1, s2, w, h, x, y, d, a, b);
      }
    }
    if RightBorder(s1, w, h) {
      forall a, b | InGrid(w, h, a, b) && a == w - 1
        ensures At(s2, w, h, a, b).wallRight
      {
        ClearedCell(s1, s2, w, h, x, y, d, a, b);
      }
    }
  }

  lemma ClearedKeepsMirrored(s1: seq<Square>, s2: seq<Square>, w: int, h: int, x: int, y: int, d: MazeDirection)
    requires |s1| == w * h && |s2| == w * h && ClearedSide(s1, s2, w, h, x, y, d) && Mirrored(s1, w, h)
    ensures Mirrored(s2, w, h)
  {
    forall a, b | InGrid(w, h, a, b) && a + 1 < w
      ensures At(s2, w, h, a, b).wallRight == At(s2, w, h, a + 1, b).wallLeft
    {
      ClearedCell(s1, s2, w, h, x, y, d, a, b);
      ClearedCell(s1, s2, w, h, x, y, d, a + 1, b);
    }
    forall a, b | InGrid(w, h, a, b) && b + 1 < h
      ensures At(s2, w, h, a, b).wallUp == At(s2, w, h, a, b + 1).wallDown
    {
      ClearedCell(s1, s2, w, h, x, y, d, a, b);
      ClearedCell(s1, s2, w, h, x, y, d, a, b + 1);
    }
  }

  /** What setVertWall(x, y, false) does, with both squares in the grid,
      clears the side between them, seen from either square. */
  lemma VertCleared(s1: seq<Square>, s2: seq<Square>, w: int, h: int, x: int, y: int)
    requires |s1| == w * h && |s2| == w * h && InGrid(w, h, x - 1, y) && InGrid(w, h, x, y)
    requires forall a, b :: InGrid(w, h, a, b) ==>
      At(s2, w, h, a, b) ==
        At(s1, w, h, a, b).(
          wallRight := if a + 1 == x && b == y then false else At(s1, w, h, a, b).wallRight,
          wallLeft := if a == x && b == y then false else At(s1, w, h, a, b).wallLeft)
    ensures ClearedSide(s1, s2, w, h, x - 1, y, Right) && ClearedSide(s1, s2, w, h, x, y, Left)
  {
    forall a, b | InGrid(w, h, a, b) && (a, b) != (x, y) && (a, b) != (x - 1, y)
      ensures At(s2, w, h, a, b) == At(s1, w, h, a, b)
    {
      var q := At(s1, w, h, a, b);
      assert At(s2, w, h, a, b) == q.(wallRight := q.wallRight, wallLeft := q.wallLeft);
    }
    assert At(s2, w, h, x, y) == WithSide(At(s1, w, h, x, y), Left, false);
    assert At(s2, w, h, x - 1, y) == WithSide(At(s1, w, h, x - 1, y), Right, false);
  }

  /** The same for setHorizWall(x, y, false). */
  lemma HorizCleared(s1: seq<Square>, s2: seq<Square>, w: int, h: int, x: int, y: int)
    requires |s1| == w * h && |s2| == w * h && InGrid(w, h, x, y - 1) && InGrid(w, h, x, y)
    requires forall a, b :: InGrid(w, h, a, b) ==>
      At(s2, w, h, a, b) ==
        At(s1, w, h, a, b).(
          wallUp := if a == x && b + 1 == y then false else At(s1, w, h, a, b).wallUp,
          wallDown := if a == x && b == y then false else At(s1, w, h, a, b).wallDown)
    ensures ClearedSide(s1, s2, w, h, x, y - 1, Up) && ClearedSide(s1, s2, w, h, x, y, Down)
  {
    forall a, b | InGrid(w, h, a, b) && (a, b) != (x, y) && (a, b) != (x, y - 1)
      ensures At(s2, w, h, a, b) == At(s1, w, h, a, b)
    {
      var q := At(s1, w, h, a, b);
      assert At(s2, w, h, a, b) == q.(wallUp := q.wallUp, wallDown := q.wallDown);
    }
    assert At(s2, w, h, x, y) == WithSide(At(s1, w, h, x, y), Down, false);
    assert At(s2, w, h, x, y - 1) == WithSide(At(s1, w, h, x, y - 1), Up, false);
  }

  /** Taking down the wall between two squares outside the pen is a change
      breakIsolation may make. */
  lemma ClearedBreaks(s1: seq<Square>, s2: seq<Square>, w: int, h: int, x: int, y: int, d: MazeDirection)
    requires 0 <= w && 0 <= h && |s1| == w * h && |s2| == w * h && ClearedSide(s1, s2, w, h, x, y, d)
    requires (x, y) !in Pen(w, h) && (StepX(x, d), StepY(y, d)) !in Pen(w, h)
    ensures Breaks(s1, s2, w, h)
  {
    ClearedRemovesOnly(s1, s2, w, h, x, y, d);
    ClearedKeepsPen(s1, s2, w, h, x, y, d);
    ClearedKeepsBorders(s1, s2, w, h, x, y, d);
    if Mirrored(s1, w, h) {
      ClearedKeepsMirrored(s1, s2, w, h, x, y, d);
    }
  }

  lemma BreaksTrans(s1: seq<Square>, s2: seq<Square>, s3: seq<Square>, w: int, h: int)
    requires |s1| == w * h && |s2| == w * h && |s3| == w * h
    requires Breaks(s1, s2, w, h) && Breaks(s2, s3, w, h)
    ensures Breaks(s1, s3, w, h)
  {
  }

  /** Inside the rectangle 1 <= i < numW, 1 <= j < numH: the corner point
      shared by (i - 1, j - 1) and (i, j) touches at least one wall. */
  ghost predicate CornerFilled(s: seq<Square>, w: int, h: int, i: int, j: int)
    requires |s| == w * h && 1 <= i < w && 1 <= j < h
  {
    || At(s, w, h, i, j).wallLeft || At(s, w, h, i, j).wallDown
    || At(s, w, h, i - 1, j - 1).wallUp || At(s, w, h, i - 1, j - 1).wallRight
  }

  /** Raising walls never opens a passage, so a closed pen stays closed. */
  lemma RaisedKeepsPenClosed(s1: seq<Square>, s2: seq<Square>, w: int, h: int)
    requires |s1| == w * h && |s2| == w * h && WallsRaisedOnly(s1, s2) && PenClosed(s1, w, h)
    ensures PenClosed(s2, w, h)
  {
    forall x, y, d | InGrid(w, h, x, y) && (x, y) in Pen(w, h) && Open(s2, w, h, x, y, d)
      ensures InGhostTown(w, h, StepX(x, d), StepY(y, d))
    {
      assert At(s1, w, h, x, y) == s1[Idx(w, h, x, y)];
      assert Open(s1, w, h, x, y, d);
    }
  }

  /** Every corner before (i, j), in the order fillSpaces visits them
      (x-major from (1, 1)), touches a wall. */
  ghost predicate FilledBefore(s: seq<Square>, w: int, h: int, i: int, j: int)
    requires |s| == w * h
  {
    forall a, b :: 1 <= a < w && 1 <= b < h && (a < i || (a == i && b < j)) ==> CornerFilled(s, w, h, a, b)
  }

  /** Raising walls keeps a filled corner filled. */
  lemma RaisedKeepsFilled(s1: seq<Square>, s2: seq<Square>, w: int, h: int, i: int, j: int)
    requires |s1| == w * h && |s2| == w * h && WallsRaisedOnly(s1, s2) && FilledBefore(s1, w, h, i, j)
    ensures FilledBefore(s2, w, h, i, j)
  {
    forall a, b | 1 <= a < w && 1 <= b < h && (a < i || (a == i && b < j))
      ensures CornerFilled(s2, w, h, a, b)
    {
      assert CornerFilled(s1, w, h, a, b);
      assert At(s1, w, h, a, b) == s1[Idx(w, h, a, b)] && At(s1, w, h, a - 1, b - 1) == s1[Idx(w, h, a - 1, b - 1)];
    }
  }

  lemma FilledNext(s: seq<Square>, w: int, h: int, i: int, j: int)
    requires |s| == w * h && 1 <= i < w && 1 <= j < h && FilledBefore(s, w, h, i, j) && CornerFilled(s, w, h, i, j)
    ensures FilledBefore(s, w, h, i, j + 1)
  {
  }

  lemma FilledColumn(s: seq<Square>, w: int, h: int, i: int)
    requires |s| == w * h && FilledBefore(s, w, h, i, h)
    ensures FilledBefore(s, w, h, i + 1, 1)
  {
  }

  lemma FilledAll(s: seq<Square>, w: int, h: int)
    requires |s| == w * h && (w >= 1 ==> FilledBefore(s, w, h, w, 1))
    ensures NoOpenIntersection(s, w, h)
  {
  }

  /** No point of the maze is a fully open intersection. */
  ghost predicate NoOpenIntersection(s: seq<Square>, w: int, h: int)
    requires |s| == w * h
  {
    forall i, j :: 1 <= i < w && 1 <= j < h ==> CornerFilled(s, w, h, i, j)
  }

  /** Square (x, y) of a w x h grid once the outer wall has been raised
      around it. */
  function Bordered(w: int, h: int, x: int, y: int, q: Square): Square {
    q.(wallLeft := q.wallLeft || x == 0, wallRight := q.wallRight || x == w - 1,
       wallDown := q.wallDown || y == 0, wallUp := q.wallUp || y == h - 1)
  }

  /** s2 is s1 with the outer wall raised around every square. */
  ghost predicate BorderedFrom(s1: seq<Square>, s2: seq<Square>, w: int, h: int) {
    && |s1| == w * h && |s2| == w * h
    && forall x, y :: InGrid(w, h, x, y) ==> At(s2, w, h, x, y) == Bordered(w, h, x, y, At(s1, w, h, x, y))
  }

  /** Raising the outer wall completes it, only raises walls, touches no
      flag and keeps the interior mirrored. */
  lemma BorderedFacts(s1: seq<Square>, s2: seq<Square>, w: int, h: int)
    requires 0 <= w && 0 <= h && BorderedFrom(s1, s2, w, h)
    ensures Borders(s2, w, h) && WallsRaisedOnly(s1, s2)
    ensures Mirrored(s1, w, h) ==> Mirrored(s2, w, h)
    ensures forall x, y :: InGrid(w, h, x, y) ==>
      At(s2, w, h, x, y).visited == At(s1, w, h, x, y).visited &&
      At(s2, w, h, x, y).accessible == At(s1, w, h, x, y).accessible
  {
    forall i | 0 <= i < |s1|
      ensures (s1[i].wallUp ==> s2[i].wallUp) && (s1[i].wallDown ==> s2[i].wallDown)
      ensures (s1[i].wallLeft ==> s2[i].wallLeft) && (s1[i].wallRight ==> s2[i].wallRight)
    {
      var x, y := CellOfIndex(w, h, i);
      assert At(s2, w, h, x, y) == Bordered(w, h, x, y, At(s1, w, h, x, y));
    }
  }

  /** Raising the outer wall a second time changes nothing: the grid after
      two raisings is the grid after the first, and it is the first
      raising applied to the original. */
  lemma {:induction false} BorderedTwice(s0: seq<Square>, s1: seq<Square>, s2: seq<Square>, w: int, h: int)
    requires 0 <= w && 0 <= h && BorderedFrom(s0, s1, w, h) && BorderedFrom(s1, s2, w, h)
    ensures s2 == s1 && BorderedFrom(s0, s2, w, h)
  {
    forall i | 0 <= i < |s1|
      ensures s2[i] == s1[i]
    {
      var x, y := CellOfIndex(w, h, i);
      assert At(s2, w, h, x, y) == Bordered(w, h, x, y, At(s1, w, h, x, y));
      assert At(s1, w, h, x, y) == Bordered(w, h, x, y, At(s0, w, h, x, y));
    }
  }
}
