/** vMaze.cpp: the maze, its squares, its items and the five actors, with
    the maze generator, the flood fills, the path finder and the per-frame
    update.  Textures, the wall sprite and rendering are not modelled. */
module Mazes {
  import opened Grid
  import Dice
  import opened Sprites
  import opened Actors
  import opened Items
  import opened Coords
  import Steering
  import Floods
  import opened Motion
  import Waypoints
  import opened Frames
  import opened Scenes
  import Levels
  import Abilities

  /** MazeAlg: only recursive division is implemented. */
  datatype MazeAlg = MaDivision | MaPrim | MaKruskal | MaBacktrack

  /** The wall on side d of square (x, y) after buildGhostTown, when it was
      `was` before: the walls of the pen and its entrance are fixed, all
      other walls are left alone.  The four groups of setter calls (centre,
      left, right and bottom square) write distinct walls. */
  function TownWall(w: int, h: int, x: int, y: int, d: MazeDirection, was: bool): bool {
    TownPart(3, w, h, x, y, d, TownPart(2, w, h, x, y, d, TownPart(1, w, h, x, y, d, TownPart(0, w, h, x, y, d, was))))
  }

  /** The walls written by one group of buildGhostTown's setter calls:
      0 the centre square (cx, cy), 1 the left square, 2 the right square,
      3 the bottom square, which is the entrance. */
  function TownPart(part: int, w: int, h: int, x: int, y: int, d: MazeDirection, was: bool): bool {
    var cx := w / 2;
    var cy := h / 2;
    if part == 0 then
      // open below, walled above, open to the left and right squares
      if d == Up && x == cx && y == cy - 1 then false
      else if d == Down && x == cx && y == cy then false
      else if d == Up && x == cx && y == cy then true
      else if d == Down && x == cx && y == cy + 1 then true
      else if d == Right && (x == cx - 1 || x == cx) && y == cy then false
      else if d == Left && (x == cx || x == cx + 1) && y == cy then false
      else was
    else if part == 1 then
      // walled below, above and on the left
      if d == Up && x == cx - 1 && (y == cy - 1 || y == cy) then true
      else if d == Down && x == cx - 1 && (y == cy || y == cy + 1) then true
      else if d == Right && x == cx - 2 && y == cy then true
      else if d == Left && x == cx - 1 && y == cy then true
      else was
    else if part == 2 then
      // walled below, above and on the right
      if d == Up && x == cx + 1 && (y == cy - 1 || y == cy) then true
      else if d == Down && x == cx + 1 && (y == cy || y == cy + 1) then true
      else if d == Right && x == cx + 1 && y == cy then true
      else if d == Left && x == cx + 2 && y == cy then true
      else was
    else
      // the entrance: open below, on the left and on the right
      if d == Up && x == cx && y == cy - 2 then false
      else if d == Down && x == cx && y == cy - 1 then false
      else if d == Right && (x == cx - 1 || x == cx) && y == cy - 1 then false
      else if d == Left && (x == cx || x == cx + 1) && y == cy - 1 then false
      else was
  }

  /** Each group of buildGhostTown writes both sides of every wall it
      touches alike, so the town keeps a mirrored grid mirrored. */
  lemma TownWallMirrored(w: int, h: int, x: int, y: int, a: bool)
    ensures TownWall(w, h, x, y, Right, a) == TownWall(w, h, x + 1, y, Left, a)
    ensures TownWall(w, h, x, y, Up, a) == TownWall(w, h, x, y + 1, Down, a)
  {
  }

  /** What buildGhostTown makes of square q at (x, y). */
  function TownAt(w: int, h: int, x: int, y: int, q: Square): Square {
    Square(TownWall(w, h, x, y, Up, q.wallUp), TownWall(w, h, x, y, Down, q.wallDown),
           TownWall(w, h, x, y, Left, q.wallLeft), TownWall(w, h, x, y, Right, q.wallRight),
           q.visited, q.accessible || InGhostTown(w, h, x, y))
  }

  /** s is what buildGhostTown makes of s0. */
  ghost predicate TownBuilt(s0: seq<Square>, s: seq<Square>, w: int, h: int)
    requires |s0| == w * h && |s| == w * h
  {
    forall x, y :: InGrid(w, h, x, y) ==> At(s, w, h, x, y) == TownAt(w, h, x, y, At(s0, w, h, x, y))
  }

  /** The four wall steps of buildGhostTown and the marking of the pen
      squares make up TownAt. */
  lemma TownSteps(s0: seq<Square>, s1: seq<Square>, s2: seq<Square>, s3: seq<Square>, s4: seq<Square>,
                  s: seq<Square>, w: int, h: int)
    requires |s0| == w * h && |s1| == w * h && |s2| == w * h && |s3| == w * h && |s4| == w * h && |s| == w * h
    requires forall x, y :: InGrid(w, h, x, y) ==> At(s1, w, h, x, y) == TownSquare(0, w, h, x, y, At(s0, w, h, x, y))
    requires forall x, y :: InGrid(w, h, x, y) ==> At(s2, w, h, x, y) == TownSquare(1, w, h, x, y, At(s1, w, h, x, y))
    requires forall x, y :: InGrid(w, h, x, y) ==> At(s3, w, h, x, y) == TownSquare(2, w, h, x, y, At(s2, w, h, x, y))
    requires forall x, y :: InGrid(w, h, x, y) ==> At(s4, w, h, x, y) == TownSquare(3, w, h, x, y, At(s3, w, h, x, y))
    requires forall x, y :: InGrid(w, h, x, y) ==>
      At(s, w, h, x, y) == At(s4, w, h, x, y).(accessible := At(s4, w, h, x, y).accessible || InGhostTown(w, h, x, y))
    ensures TownBuilt(s0, s, w, h)
  {
    forall x, y | InGrid(w, h, x, y)
      ensures At(s, w, h, x, y) == TownAt(w, h, x, y, At(s0, w, h, x, y))
    {
      assert At(s1, w, h, x, y) == TownSquare(0, w, h, x, y, At(s0, w, h, x, y));
      assert At(s2, w, h, x, y) == TownSquare(1, w, h, x, y, At(s1, w, h, x, y));
      assert At(s3, w, h, x, y) == TownSquare(2, w, h, x, y, At(s2, w, h, x, y));
      assert At(s4, w, h, x, y) == TownSquare(3, w, h, x, y, At(s3, w, h, x, y));
    }
  }

  lemma TownKeepsMirrored(s0: seq<Square>, s: seq<Square>, w: int, h: int)
    requires |s0| == w * h && |s| == w * h && TownBuilt(s0, s, w, h)
    ensures Mirrored(s0, w, h) ==> Mirrored(s, w, h)
  {
    if Mirrored(s0, w, h) {
      forall x, y | InGrid(w, h, x, y) && x + 1 < w
        ensures At(s, w, h, x, y).wallRight == At(s, w, h, x + 1, y).wallLeft
      {
        TownWallMirrored(w, h, x, y, At(s0, w, h, x, y).wallRight);
      }
      forall x, y | InGrid(w, h, x, y) && y + 1 < h
        ensures At(s, w, h, x, y).wallUp == At(s, w, h, x, y + 1).wallDown
      {
        TownWallMirrored(w, h, x, y, At(s0, w, h, x, y).wallUp);
      }
    }
  }

  /** buildGhostTown writes no wall of the grid's edge to false, so a
      grid walled on a side stays walled on it. */
  lemma TownKeepsBorders(s0: seq<Square>, s: seq<Square>, w: int, h: int)
    requires |s0| == w * h && |s| == w * h && w >= 4 && h >= 4 && TownBuilt(s0, s, w, h)
    ensures LeftBottomTopBorders(s0, w, h) ==> LeftBottomTopBorders(s, w, h)
    ensures RightBorder(s0, w, h) ==> RightBorder(s, w, h)
  {
    if LeftBottomTopBorders(s0, w, h) {
      forall y | 0 <= y < h && 0 < w
        ensures At(s, w, h, 0, y).wallLeft
      {
        assert At(s, w, h, 0, y) == TownAt(w, h, 0, y, At(s0, w, h, 0, y));
      }
      forall x | 0 <= x < w && 0 < h
        ensures At(s, w, h, x, 0).wallDown
      {
        assert At(s, w, h, x, 0) == TownAt(w, h, x, 0, At(s0, w, h, x, 0));
      }
      forall x, y | InGrid(w, h, x, y) && y == h - 1
        ensures At(s, w, h, x, y).wallUp
      {
        assert At(s, w, h, x, y) == TownAt(w, h, x, y, At(s0, w, h, x, y));
      }
    }
    if RightBorder(s0, w, h) {
      forall x, y | InGrid(w, h, x, y) && x == w - 1
        ensures At(s, w, h, x, y).wallRight
      {
        assert At(s, w, h, x, y) == TownAt(w, h, x, y, At(s0, w, h, x, y));
      }
    }
  }

  /** Whatever the walls were, after buildGhostTown the pen is left only
      through the entrance, and the entrance is open on all four sides. */
  lemma TownEnclosed(s0: seq<Square>, s: seq<Square>, w: int, h: int)
    requires |s0| == w * h && |s| == w * h && w >= 4 && h >= 4 && TownBuilt(s0, s, w, h)
    ensures PenClosed(s, w, h)
    ensures forall d :: d != None ==> Open(s, w, h, Entrance(w, h).0, Entrance(w, h).1, d)
  {
    forall x, y, d | InGrid(w, h, x, y) && (x, y) in Pen(w, h) && Open(s, w, h, x, y, d)
      ensures InGhostTown(w, h, StepX(x, d), StepY(y, d))
    {
      assert At(s, w, h, x, y) == TownAt(w, h, x, y, At(s0, w, h, x, y));
    }
    var ex, ey := Entrance(w, h).0, Entrance(w, h).1;
    assert At(s, w, h, ex, ey) == TownAt(w, h, ex, ey, At(s0, w, h, ex, ey));
  }

  /** Square q with every wall passed through TownPart(part). */
  function TownSquare(part: int, w: int, h: int, x: int, y: int, q: Square): Square {
    q.(wallUp := TownPart(part, w, h, x, y, Up, q.wallUp),
       wallDown := TownPart(part, w, h, x, y, Down, q.wallDown),
       wallLeft := TownPart(part, w, h, x, y, Left, q.wallLeft),
       wallRight := TownPart(part, w, h, x, y, Right, q.wallRight))
  }

  /** An actor placed by newLevel: centred on square (x, y) of layout l,
      at rest, alive and selected as given, and otherwise as it was. */
  function Cast(l: Layout, s: Status, x: int, y: int, alive: bool, selected: bool): Status {
    s.(pose := Abilities.Centred(l, s.pose, x, y).(xVel := 0.0, yVel := 0.0), alive := alive, selected := selected)
  }

  /** A ghost settled at the end of newLevel: no longer scared, and after
      a reset back to ability level 0. */
  function Becalmed(s: Status, reset: bool): Status {
    s.(scared := false, level := if reset then 0 else s.level)
  }

  /** newLevel's last step on a roster: every ghost calmed, Pacman kept. */
  function Unscared(r: seq<Status>, reset: bool): (q: seq<Status>)
    requires |r| == 5
    ensures |q| == 5 && q[0] == r[0]
    ensures forall i :: 1 <= i < 5 ==> !q[i].scared && q[i].level == (if reset then 0 else r[i].level)
  {
    [r[0], Becalmed(r[1], reset), Becalmed(r[2], reset), Becalmed(r[3], reset), Becalmed(r[4], reset)]
  }

  /** newLevel's cast on a roster: Pacman at rest and deselected; Blinky
      alive and selected in the top square of the ghost town, Pinky, Inky
      and Clyde to its left, right and centre, alive from levels 3, 5 and 7
      on, and not selected. */
  function CastRoster(l: Layout, r: seq<Status>, level: int): (q: seq<Status>)
    requires |r| == 5
    ensures |q| == 5
  {
    [r[0].(pose := r[0].pose.(xVel := 0.0, yVel := 0.0), selected := false),
     Cast(l, r[1], l.w / 2, l.h / 2 - 1, true, true),
     Cast(l, r[2], l.w / 2 - 1, l.h / 2, level > 2, false),
     Cast(l, r[3], l.w / 2 + 1, l.h / 2, level > 4, false),
     Cast(l, r[4], l.w / 2, l.h / 2, level > 6, false)]
  }

  /** A roster of five overwritten entry by entry is the roster of the
      new entries. */
  lemma Overwritten(r: seq<Status>, q: seq<Status>)
    requires |r| == 5 && |q| == 5
    ensures r[0 := q[0]][1 := q[1]][2 := q[2]][3 := q[3]][4 := q[4]] == q
  {
  }

  /** The roster newLevel leaves from roster r: Pacman revived, at rest
      and deselected on his start square, and the ghosts staged. */
  function LevelCast(l: Layout, r: seq<Status>, start: (int, int), level: int, reset: bool): (q: seq<Status>)
    requires |r| == 5
    ensures |q| == 5
  {
    [Cast(l, r[0], start.0, start.1, true, false),
     Becalmed(Cast(l, r[1], l.w / 2, l.h / 2 - 1, true, true), reset),
     Becalmed(Cast(l, r[2], l.w / 2 - 1, l.h / 2, level > 2, false), reset),
     Becalmed(Cast(l, r[3], l.w / 2 + 1, l.h / 2, level > 4, false), reset),
     Becalmed(Cast(l, r[4], l.w / 2, l.h / 2, level > 6, false), reset)]
  }

  /** Pacman revived and centred on square start, at the speed he had. */
  function Revived(l: Layout, r: seq<Status>, start: (int, int)): (q: seq<Status>)
    requires |r| == 5
    ensures |q| == 5
  {
    r[0 := r[0].(alive := true, pose := Abilities.Centred(l, r[0].pose, start.0, start.1))]
  }

  /** newLevel's roster is its cast, after Pacman's revival on start,
      with the ghosts calmed. */
  lemma LevelCastStaged(l: Layout, r: seq<Status>, start: (int, int), level: int, reset: bool)
    requires |r| == 5
    ensures LevelCast(l, r, start, level, reset) == Unscared(CastRoster(l, Revived(l, r, start), level), reset)
  {
  }

  /** A new level's cast keeps each ghost's ability level, or with a
      reset sets it to 0. */
  lemma LevelCastLevels(l: Layout, r: seq<Status>, start: (int, int), level: int, reset: bool)
    requires |r| == 5
    ensures forall j :: 1 <= j < 5 ==> LevelCast(l, r, start, level, reset)[j].level == (if reset then 0 else r[j].level)
  {
    LevelCastStaged(l, r, start, level, reset);
  }

  /** On a maze of at least 3 x 2 squares, the whole cast of a new level
      stands on the grid, the dead ghosts included, and exactly Blinky is
      selected. */
  lemma LevelCastInside(l: Layout, r: seq<Status>, start: (int, int), level: int, reset: bool)
    requires |r| == 5 && l.w >= 3 && l.h >= 2 && InGrid(l.w, l.h, start.0, start.1)
    ensures forall j :: 0 <= j < 5 ==> Inside(l, LevelCast(l, r, start, level, reset)[j].pose)
    ensures forall j :: 0 <= j < 5 ==> (LevelCast(l, r, start, level, reset)[j].selected <==> j == 1)
    ensures LevelCast(l, r, start, level, reset)[0].alive && LevelCast(l, r, start, level, reset)[1].alive
  {
    var q := LevelCast(l, r, start, level, reset);
    forall j | 0 <= j < 5 ensures Inside(l, q[j].pose) {
      if j == 0 {
        CastInside(l, r[0], start.0, start.1, true, false);
      } else if j == 1 {
        CastInside(l, r[1], l.w / 2, l.h / 2 - 1, true, true);
      } else if j == 2 {
        CastInside(l, r[2], l.w / 2 - 1, l.h / 2, level > 2, false);
      } else if j == 3 {
        CastInside(l, r[3], l.w / 2 + 1, l.h / 2, level > 4, false);
      } else {
        CastInside(l, r[4], l.w / 2, l.h / 2, level > 6, false);
      }
    }
  }

  /** An actor cast on a square of the grid stands on it. */
  lemma CastInside(l: Layout, s: Status, x: int, y: int, alive: bool, selected: bool)
    requires InGrid(l.w, l.h, x, y)
    ensures CellOf(l, Cast(l, s, x, y, alive, selected).pose) == (x, y)
    ensures Inside(l, Cast(l, s, x, y, alive, selected).pose)
  {
    RoundTrip(x, l.dx, l.w);
    RoundTrip(y, l.dy, l.h);
  }

  class Maze {
    var numW: int
    var numH: int
    var dx: int
    var dy: int
    var level: int
    var levelPoints: int
    var totalPoints: int
    var isPaused: bool
    var lastVulnerability: int
    var squares: array<Square>
    var items: array<Item>
    const soundFlags: array<bool>
    const die: Dice.Die
    const pacman: Actor
    const blinky: Actor
    const pinky: Actor
    const inky: Actor
    const clyde: Actor

    /** The grid array matches the dimensions. */
    ghost predicate GridValid()
      reads this
    {
      0 <= numW && 0 <= numH && squares.Length == numW * numH
    }

    /** Each actor keeps the sprite type the constructor gave it; as the types
        differ, so do the actors and their sprites. */
    ghost predicate ActorsValid()
      reads this, pacman.sprite, blinky.sprite, pinky.sprite, inky.sprite, clyde.sprite
    {
      && pacman.sprite.kind == VPacman && blinky.sprite.kind == VRedG
      && pinky.sprite.kind == VPinkG && inky.sprite.kind == VBlueG && clyde.sprite.kind == VOrangeG
    }

    /** The five actors and their sprites are ten different objects. */
    ghost predicate Separate() {
      && pacman != blinky && pacman != pinky && pacman != inky && pacman != clyde
      && blinky != pinky && blinky != inky && blinky != clyde
      && pinky != inky && pinky != clyde && inky != clyde
      && pacman.sprite != blinky.sprite && pacman.sprite != pinky.sprite && pacman.sprite != inky.sprite
      && pacman.sprite != clyde.sprite && blinky.sprite != pinky.sprite && blinky.sprite != inky.sprite
      && blinky.sprite != clyde.sprite && pinky.sprite != inky.sprite && pinky.sprite != clyde.sprite
      && inky.sprite != clyde.sprite
    }

    lemma Separated()
      requires ActorsValid()
      ensures Separate()
    {
    }

    ghost predicate Valid()
      reads this, die, pacman.sprite, blinky.sprite, pinky.sprite, inky.sprite, clyde.sprite
    {
      && GridValid() && ActorsValid() && die.Valid()
      && items.Length == numW * numH && soundFlags.Length == NumEffects
      && level >= 0
    }

    ghost function Snapshot(): seq<Square>
      reads this, squares
    {
      squares[..]
    }

    /** vMaze(): an empty 0 x 0 maze at level 0, not paused, all sound flags
        down.  Pacman is greedy; the ghosts face up, left, down and right and
        stand where the ghost town of a 0 x 0 maze would be.  Building the
        Dice takes one draw, and each of the six sprites (five actors and the
        wall sprite) takes two: its own Dice's first roll and its time seed.
        lastVulnerability is left uninitialised by the source; here it is
        the parameter `stamp`.  totalPoints, also uninitialised there until
        newLevel sets it, starts at 0 here. */
    constructor (now: int, stamp: int, ds: seq<int>)
      requires forall i :: 0 <= i < |ds| ==> Dice.IsDraw(ds[i])
      ensures Valid() && fresh(die) && fresh(soundFlags)
      ensures fresh(pacman) && fresh(blinky) && fresh(pinky) && fresh(inky) && fresh(clyde)
      ensures fresh(pacman.sprite) && fresh(blinky.sprite) && fresh(pinky.sprite) && fresh(inky.sprite) && fresh(clyde.sprite)
      ensures die.draws == Dice.Drop(ds, 13) && die.exhausted == (|ds| < 13)
      ensures numW == 0 && numH == 0 && dx == 0 && dy == 0 && level == 0 && levelPoints == 0
      ensures squares.Length == 0 && items.Length == 0 && !isPaused && lastVulnerability == stamp
      ensures forall i :: 0 <= i < NumEffects ==> !soundFlags[i]
      ensures pacman.mode == AiGreedy && pacman.velocity == SpeedOf(VPacman)
      ensures blinky.sprite.state == SsUp2 && pinky.sprite.state == SsLeft2
      ensures inky.sprite.state == SsDown2 && clyde.sprite.state == SsRight2
      ensures blinky.sprite.x.value == 20.0 && blinky.sprite.y.value == -20.0
      ensures pinky.sprite.x.value == -20.0 && pinky.sprite.y.value == 20.0
      ensures inky.sprite.x.value == 60.0 && inky.sprite.y.value == 20.0
      ensures clyde.sprite.x.value == 20.0 && clyde.sprite.y.value == 20.0
    {
      squares := new Square[0];
      items := new Item[0];
      soundFlags := new bool[NumEffects](i => false);
      var d := new Dice.Die(ds);
      var seedRoll := d.Next();
      var p, b, k, n, c := NewCast(now, d);
      var wallSeedRoll := d.Next();
      var wallSeed := d.Next();
      Dice.DropDrop(ds, 1, 10);
      Dice.DropDrop(ds, 11, 1);
      Dice.DropDrop(ds, 12, 1);
      numW, numH, dx, dy := 0, 0, 0, 0;
      level, levelPoints, totalPoints := 0, 0, 0;
      die := d;
      pacman, blinky, pinky, inky, clyde := p, b, k, n, c;
      isPaused := false;
      lastVulnerability := stamp;
    }

    /** The five actors of the constructor, two draws each: a greedy Pacman,
        and the ghosts facing up, left, down and right, placed by
        moveToMazeXY on the ghost town of a 0 x 0 maze. */
    static method NewCast(now: int, d: Dice.Die) returns (p: Actor, b: Actor, k: Actor, n: Actor, c: Actor)
      requires d.Valid()
      modifies d
      ensures d.Valid() && d.draws == Dice.Drop(old(d.draws), 10)
      ensures d.exhausted == (old(d.exhausted) || |old(d.draws)| < 10)
      ensures fresh(p) && fresh(p.sprite) && fresh(b) && fresh(b.sprite) && fresh(k) && fresh(k.sprite)
      ensures fresh(n) && fresh(n.sprite) && fresh(c) && fresh(c.sprite)
      ensures p.sprite.kind == VPacman && b.sprite.kind == VRedG && k.sprite.kind == VPinkG
      ensures n.sprite.kind == VBlueG && c.sprite.kind == VOrangeG
      ensures p.mode == AiGreedy && p.velocity == SpeedOf(VPacman)
      ensures b.sprite.state == SsUp2 && k.sprite.state == SsLeft2
      ensures n.sprite.state == SsDown2 && c.sprite.state == SsRight2
      ensures b.sprite.x.value == 20.0 && b.sprite.y.value == -20.0
      ensures k.sprite.x.value == -20.0 && k.sprite.y.value == 20.0
      ensures n.sprite.x.value == 60.0 && n.sprite.y.value == 20.0
      ensures c.sprite.x.value == 20.0 && c.sprite.y.value == 20.0
    {
      ghost var ds := d.draws;
      p := NewActor(now, d, VPacman);
      p.SetMode(AiGreedy);
      b := NewGhost(now, d, VRedG, SsUp2, 0 / 2, 0 / 2 - 1);
      k := NewGhost(now, d, VPinkG, SsLeft2, 0 / 2 - 1, 0 / 2);
      n := NewGhost(now, d, VBlueG, SsDown2, 0 / 2 + 1, 0 / 2);
      c := NewGhost(now, d, VOrangeG, SsRight2, 0 / 2, 0 / 2);
      Dice.DropDrop(ds, 2, 2);
      Dice.DropDrop(ds, 4, 2);
      Dice.DropDrop(ds, 6, 2);
      Dice.DropDrop(ds, 8, 2);
    }

    /** new vActor() followed by setType(t); the sprite takes two draws,
        the first roll of its own Dice and its time seed. */
    static method NewActor(now: int, d: Dice.Die, t: SpriteType) returns (a: Actor)
      requires d.Valid()
      modifies d
      ensures d.Valid() && d.draws == Dice.Drop(old(d.draws), 2)
      ensures d.exhausted == (old(d.exhausted) || |old(d.draws)| < 2)
      ensures fresh(a) && fresh(a.sprite)
      ensures a.sprite.kind == t && a.velocity == SpeedOf(t) && a.sprite.state == SsNa
      ensures a.mode == AiNone && a.isAlive && !a.isSelected && !a.isScared && a.level == 0
      ensures a.wayX == -1 && a.wayY == -1 && a.abilityTriggered == now
    {
      var seedRoll := d.Next();
      var r := d.Next();
      Dice.DropDrop(old(d.draws), 1, 1);
      a := new Actor(now, r);
      a.SetType(t);
    }

    /** A ghost as the constructor sets it up: type, state, and centred on
        square (x, y) of a maze whose offsets are still 0. */
    static method NewGhost(now: int, d: Dice.Die, t: SpriteType, st: SpriteState, x: int, y: int)
      returns (g: Actor)
      requires d.Valid()
      modifies d
      ensures d.Valid() && d.draws == Dice.Drop(old(d.draws), 2)
      ensures d.exhausted == (old(d.exhausted) || |old(d.draws)| < 2)
      ensures fresh(g) && fresh(g.sprite)
      ensures g.sprite.kind == t && g.sprite.state == st && g.mode == AiNone
      ensures g.sprite.x.value == MazeToScreen(x, 0) as real && g.sprite.y.value == MazeToScreen(y, 0) as real
    {
      g := NewActor(now, d, t);
      g.sprite.SetState(st);
      g.sprite.MoveToPix(MazeToScreen(x, 0), MazeToScreen(y, 0));
    }

    // -------------------------------------------------------------------
    // Accessors

    /** getSoundFlag: an index outside 0..7 reads flag 0. */
    function GetSoundFlag(n: int): (b: bool)
      requires soundFlags.Length == NumEffects
      reads soundFlags
      ensures 0 <= n < NumEffects ==> b == soundFlags[n]
      ensures !(0 <= n < NumEffects) ==> b == soundFlags[0]
    {
      soundFlags[if 0 <= n < NumEffects then n else 0]
    }

    /** setSoundFlag: an index outside 0..7 writes flag 0. */
    method SetSoundFlag(n: int, s: bool)
      requires soundFlags.Length == NumEffects
      modifies soundFlags
      ensures soundFlags[..] == old(soundFlags[..])[if 0 <= n < NumEffects then n else 0 := s]
      ensures GetSoundFlag(n) == s
    {
      var k := if 0 <= n < NumEffects then n else 0;
      soundFlags[k] := s;
    }

    method Pause()
      modifies this
      ensures isPaused
      ensures numW == old(numW) && numH == old(numH) && squares == old(squares) && items == old(items)
      ensures dx == old(dx) && dy == old(dy) && level == old(level)
      ensures levelPoints == old(levelPoints) && totalPoints == old(totalPoints)
      ensures lastVulnerability == old(lastVulnerability)
    {
      isPaused := true;
    }

    method Unpause()
      modifies this
      ensures !isPaused
      ensures numW == old(numW) && numH == old(numH) && squares == old(squares) && items == old(items)
      ensures dx == old(dx) && dy == old(dy) && level == old(level)
      ensures levelPoints == old(levelPoints) && totalPoints == old(totalPoints)
      ensures lastVulnerability == old(lastVulnerability)
    {
      isPaused := false;
    }

    /** getActorByType: the ghost of that colour, and Pacman for any other
        type. */
    function ActorByType(t: int): (a: Actor)
      reads this
      ensures t == VRedG ==> a == blinky
      ensures t == VPinkG ==> a == pinky
      ensures t == VBlueG ==> a == inky
      ensures t == VOrangeG ==> a == clyde
      ensures !(VRedG <= t <= VOrangeG) ==> a == pacman
    {
      if t == VRedG then blinky
      else if t == VPinkG then pinky
      else if t == VBlueG then inky
      else if t == VOrangeG then clyde
      else pacman
    }

    /** The actor of sprite type t is the one whose sprite has that type. */
    lemma ActorByTypeHasType(t: int)
      requires ActorsValid() && VPacman <= t <= VOrangeG
      ensures ActorByType(t).sprite.kind == t
    {
    }

    // -------------------------------------------------------------------
    // Coordinate transformations on this maze

    function MazeX2ScreenX(x: int): (p: int)
      reads this
      ensures p == MazeToScreen(x, dx)
    {
      MazeToScreen(x, dx)
    }

    /** The square of an actor's sprite position, from its truncated pixel
        coordinates. */
    function CellX(a: Actor): (m: int)
      requires numW >= 0
      reads this, a.sprite
      ensures -1 <= m <= numW
    {
      ScreenToMaze(Trunc(a.sprite.x.value), dx, numW)
    }

    function CellY(a: Actor): (m: int)
      requires numH >= 0
      reads this, a.sprite
      ensures -1 <= m <= numH
    {
      ScreenToMaze(Trunc(a.sprite.y.value), dy, numH)
    }

    /** The actor stands on a square of the grid. */
    ghost predicate OnGrid(a: Actor)
      requires GridValid()
      reads this, a.sprite
    {
      InGrid(numW, numH, CellX(a), CellY(a))
    }

    /** moveToMazeXY: centre the actor's sprite on square (x, y). */
    method MoveToMazeXY(actor: Actor, x: int, y: int)
      modifies actor.sprite
      ensures actor.sprite.x == ScreenDimension(MazeToScreen(x, dx) as real, AlignMiddle, UnitPix)
      ensures actor.sprite.y == ScreenDimension(MazeToScreen(y, dy) as real, AlignMiddle, UnitPix)
      ensures actor.sprite.xVel == old(actor.sprite.xVel) && actor.sprite.yVel == old(actor.sprite.yVel)
      ensures actor.sprite.timeSeed == old(actor.sprite.timeSeed)
      ensures actor.sprite.state == old(actor.sprite.state) && actor.sprite.kind == old(actor.sprite.kind)
    {
      actor.sprite.MoveToPix(MazeToScreen(x, dx), MazeToScreen(y, dy));
    }

    /** An actor centred on a square of the grid stands on that square. */
    lemma MovedOnGrid(a: Actor, x: int, y: int)
      requires GridValid() && InGrid(numW, numH, x, y)
      requires a.sprite.x.value == MazeToScreen(x, dx) as real
      requires a.sprite.y.value == MazeToScreen(y, dy) as real
      ensures CellX(a) == x && CellY(a) == y
    {
      RoundTrip(x, dx, numW);
      RoundTrip(y, dy, numH);
    }

    // -------------------------------------------------------------------
    // Walls

    /** setVertWall(v): wall the vertical grid line v on both sides, for the
        whole height; the lines 0 and numW are the outer walls, and any other
        line outside the grid does nothing. */
    method SetVertWall(v: int)
      requires GridValid()
      modifies squares
      ensures forall x, y :: InGrid(numW, numH, x, y) ==>
        At(squares[..], numW, numH, x, y) ==
          At(old(squares[..]), numW, numH, x, y).(
            wallLeft := At(old(squares[..]), numW, numH, x, y).wallLeft || x == v,
            wallRight := At(old(squares[..]), numW, numH, x, y).wallRight || x + 1 == v)
    {
      if v < 0 || v > numW {
        return;
      }
      ghost var s0 := squares[..];
      var i := 0;
      while i < numH
        invariant 0 <= i <= numH
        invariant forall x, y :: InGrid(numW, numH, x, y) ==>
          At(squares[..], numW, numH, x, y) ==
            if y < i then At(s0, numW, numH, x, y).(
              wallLeft := At(s0, numW, numH, x, y).wallLeft || x == v,
              wallRight := At(s0, numW, numH, x, y).wallRight || x + 1 == v)
            else At(s0, numW, numH, x, y)
      {
        if v > 0 {
          SetSide(v - 1, i, Right, true);
        }
        if v < numW {
          SetSide(v, i, Left, true);
        }
        i := i + 1;
      }
    }

    /** setHorizWall(h): wall the horizontal grid line h on both sides, for
        the whole width; the lines 0 and numH are the outer walls, and any
        other line outside the grid does nothing. */
    method SetHorizWall(h: int)
      requires GridValid()
      modifies squares
      ensures forall x, y :: InGrid(numW, numH, x, y) ==>
        At(squares[..], numW, numH, x, y) ==
          At(old(squares[..]), numW, numH, x, y).(
            wallDown := At(old(squares[..]), numW, numH, x, y).wallDown || y == h,
            wallUp := At(old(squares[..]), numW, numH, x, y).wallUp || y + 1 == h)
    {
      if h < 0 || h > numH {
        return;
      }
      ghost var s0 := squares[..];
      var i := 0;
      while i < numW
        invariant 0 <= i <= numW
        invariant forall x, y :: InGrid(numW, numH, x, y) ==>
          At(squares[..], numW, numH, x, y) ==
            if x < i then At(s0, numW, numH, x, y).(
              wallDown := At(s0, numW, numH, x, y).wallDown || y == h,
              wallUp := At(s0, numW, numH, x, y).wallUp || y + 1 == h)
            else At(s0, numW, numH, x, y)
      {
        if h > 0 {
          SetSide(i, h - 1, Up, true);
        }
        if h < numH {
          SetSide(i, h, Down, true);
        }
        i := i + 1;
      }
    }

    /** setVertWall(x, y, s): set the wall between squares (x - 1, y) and
        (x, y) to s, on each side that lies inside the grid.  getSquare
        checks only the upper bounds, so the source needs x >= 1 and y >= 0.
        The two sides stay equal, so a mirrored grid stays mirrored. */
    method SetVertWallAt(x: int, y: int, s: bool)
      requires GridValid() && x >= 1 && y >= 0
      modifies squares
      ensures forall a, b :: InGrid(numW, numH, a, b) ==>
        At(squares[..], numW, numH, a, b) ==
          At(old(squares[..]), numW, numH, a, b).(
            wallRight := if a + 1 == x && b == y then s else At(old(squares[..]), numW, numH, a, b).wallRight,
            wallLeft := if a == x && b == y then s else At(old(squares[..]), numW, numH, a, b).wallLeft)
      ensures old(Mirrored(squares[..], numW, numH)) ==> Mirrored(squares[..], numW, numH)
      ensures Carves(old(squares[..]), squares[..], numW, numH)
      ensures !s ==> WallsRemovedOnly(old(squares[..]), squares[..])
      ensures s ==> WallsRaisedOnly(old(squares[..]), squares[..])
    {
      ghost var s0 := squares[..];
      if x - 1 < numW && y < numH {
        SetSide(x - 1, y, Right, s);
      }
      if x < numW && y < numH {
        SetSide(x, y, Left, s);
      }
      VertCarves(s0, squares[..], numW, numH);
    }

    /** setHorizWall(x, y, s): set the wall between squares (x, y - 1) and
        (x, y) to s, on each side that lies inside the grid; the source needs
        x >= 0 and y >= 1. */
    method SetHorizWallAt(x: int, y: int, s: bool)
      requires GridValid() && x >= 0 && y >= 1
      modifies squares
      ensures forall a, b :: InGrid(numW, numH, a, b) ==>
        At(squares[..], numW, numH, a, b) ==
          At(old(squares[..]), numW, numH, a, b).(
            wallUp := if a == x && b + 1 == y then s else At(old(squares[..]), numW, numH, a, b).wallUp,
            wallDown := if a == x && b == y then s else At(old(squares[..]), numW, numH, a, b).wallDown)
      ensures old(Mirrored(squares[..], numW, numH)) ==> Mirrored(squares[..], numW, numH)
      ensures s ==> Carves(old(squares[..]), squares[..], numW, numH)
      ensures !s ==> WallsRemovedOnly(old(squares[..]), squares[..])
      ensures s ==> WallsRaisedOnly(old(squares[..]), squares[..])
    {
      ghost var s0 := squares[..];
      if x < numW && y - 1 < numH {
        SetSide(x, y - 1, Up, s);
      }
      if x < numW && y < numH {
        SetSide(x, y, Down, s);
      }
      if s {
        RaisedCarves(s0, squares[..], numW, numH);
      }
    }

    /** buildGhostTown: wall in the three pen squares (centre, left, right)
        except between each other and from the centre down to the entrance,
        open the entrance on all four sides, and mark the four squares
        accessible.  The source needs numW >= 4 and numH >= 4 (it writes
        through squares it does not check). */
    method BuildGhostTown()
      requires GridValid() && numW >= 4 && numH >= 4
      modifies squares
      ensures TownBuilt(old(squares[..]), squares[..], numW, numH)
      ensures old(Mirrored(squares[..], numW, numH)) ==> Mirrored(squares[..], numW, numH)
      ensures PenClosed(squares[..], numW, numH)
      ensures forall d :: d != None ==> Open(squares[..], numW, numH, Entrance(numW, numH).0, Entrance(numW, numH).1, d)
      ensures old(LeftBottomTopBorders(squares[..], numW, numH)) ==> LeftBottomTopBorders(squares[..], numW, numH)
      ensures old(RightBorder(squares[..], numW, numH)) ==> RightBorder(squares[..], numW, numH)
    {
      ghost var s0 := squares[..];
      TownCentre();
      ghost var s1 := squares[..];
      TownLeft();
      ghost var s2 := squares[..];
      TownRight();
      ghost var s3 := squares[..];
      TownBottom();
      ghost var s4 := squares[..];
      MarkTown();
      TownSteps(s0, s1, s2, s3, s4, squares[..], numW, numH);
      TownKeepsMirrored(s0, squares[..], numW, numH);
      TownEnclosed(s0, squares[..], numW, numH);
      TownKeepsBorders(s0, squares[..], numW, numH);
    }

    /** The last lines of buildGhostTown: the four squares of the ghost town
        are accessible. */
    method MarkTown()
      requires GridValid() && numW >= 4 && numH >= 4
      modifies squares
      ensures forall x, y :: InGrid(numW, numH, x, y) ==>
        At(squares[..], numW, numH, x, y) ==
          At(old(squares[..]), numW, numH, x, y).(accessible := At(old(squares[..]), numW, numH, x, y).accessible || InGhostTown(numW, numH, x, y))
    {
      var centerX := numW / 2;
      var centerY := numH / 2;
      ghost var s0 := squares[..];
      MarkAccessible(centerX, centerY);
      ghost var s1 := squares[..];
      MarkAccessible(centerX - 1, centerY);
      ghost var s2 := squares[..];
      MarkAccessible(centerX + 1, centerY);
      ghost var s3 := squares[..];
      MarkAccessible(centerX, centerY - 1);
      forall x, y | InGrid(numW, numH, x, y)
        ensures At(squares[..], numW, numH, x, y) ==
          At(s0, numW, numH, x, y).(accessible := At(s0, numW, numH, x, y).accessible || InGhostTown(numW, numH, x, y))
      {
        assert At(s1, numW, numH, x, y).accessible == (At(s0, numW, numH, x, y).accessible || (x == centerX && y == centerY));
        assert At(s2, numW, numH, x, y).accessible == (At(s1, numW, numH, x, y).accessible || (x == centerX - 1 && y == centerY));
        assert At(s3, numW, numH, x, y).accessible == (At(s2, numW, numH, x, y).accessible || (x == centerX + 1 && y == centerY));
      }
    }

    /** Mark square (x, y) accessible, leaving everything else alone. */
    method MarkAccessible(x: int, y: int)
      requires GridValid() && InGrid(numW, numH, x, y)
      modifies squares
      ensures forall a, b :: InGrid(numW, numH, a, b) ==>
        At(squares[..], numW, numH, a, b) ==
          At(old(squares[..]), numW, numH, a, b).(accessible := At(old(squares[..]), numW, numH, a, b).accessible || (a == x && b == y))
    {
      PutSquare(x, y, At(squares[..], numW, numH, x, y).(accessible := true));
    }

    /** The walls of buildGhostTown's centre square. */
    method TownCentre()
      requires GridValid() && numW >= 4 && numH >= 4
      modifies squares
      ensures forall x, y :: InGrid(numW, numH, x, y) ==>
        At(squares[..], numW, numH, x, y) == TownSquare(0, numW, numH, x, y, At(old(squares[..]), numW, numH, x, y))
    {
      var centerX := numW / 2;
      var centerY := numH / 2;
      SetHorizWallAt(centerX, centerY, false);
      SetHorizWallAt(centerX, centerY + 1, true);
      SetVertWallAt(centerX, centerY, false);
      SetVertWallAt(centerX + 1, centerY, false);
    }

    /** The walls of buildGhostTown's left square. */
    method TownLeft()
      requires GridValid() && numW >= 4 && numH >= 4
      modifies squares
      ensures forall x, y :: InGrid(numW, numH, x, y) ==>
        At(squares[..], numW, numH, x, y) == TownSquare(1, numW, numH, x, y, At(old(squares[..]), numW, numH, x, y))
    {
      var centerX := numW / 2;
      var centerY := numH / 2;
      SetHorizWallAt(centerX - 1, centerY, true);
      SetHorizWallAt(centerX - 1, centerY + 1, true);
      SetVertWallAt(centerX - 1, centerY, true);
    }

    /** The walls of buildGhostTown's right square. */
    method TownRight()
      requires GridValid() && numW >= 4 && numH >= 4
      modifies squares
      ensures forall x, y :: InGrid(numW, numH, x, y) ==>
        At(squares[..], numW, numH, x, y) == TownSquare(2, numW, numH, x, y, At(old(squares[..]), numW, numH, x, y))
    {
      var centerX := numW / 2;
      var centerY := numH / 2;
      SetHorizWallAt(centerX + 1, centerY, true);
      SetHorizWallAt(centerX + 1, centerY + 1, true);
      SetVertWallAt(centerX + 2, centerY, true);
    }

    /** The walls of buildGhostTown's bottom square, the entrance. */
    method TownBottom()
      requires GridValid() && numW >= 4 && numH >= 4
      modifies squares
      ensures forall x, y :: InGrid(numW, numH, x, y) ==>
        At(squares[..], numW, numH, x, y) == TownSquare(3, numW, numH, x, y, At(old(squares[..]), numW, numH, x, y))
    {
      var centerX := numW / 2;
      var centerY := numH / 2;
      SetHorizWallAt(centerX, centerY - 1, false);
      SetVertWallAt(centerX, centerY - 1, false);
      SetVertWallAt(centerX + 1, centerY - 1, false);
    }

    /** divisionStep(l, r, b, t): recursive division of the columns l..r and
        rows b..t.  A region at most one square wide or high is left alone.
        Otherwise a vertical wall at a random line strictly inside l..r and a
        horizontal wall strictly inside b..t are raised across it, two or
        three gaps are cut at random rows of the vertical wall, two or three
        more are cut at random places, and the four quarters are divided in
        turn.  As in the source, the second set of gaps is cut with
        setVertWall(hWall, gap, false), so no horizontal wall is ever taken
        down.  A region two squares wide can draw its own right edge as the
        dividing line (rollIntRange widens an empty range), so a quarter can
        be the whole region again; each step draws from the stream, and once
        it has run out every draw is 0, which picks the first line, so the
        recursion ends. */
    method DivisionStep(l: int, r: int, b: int, t: int)
      requires GridValid() && die.Valid() && 0 <= l <= r && 0 <= b <= t
      modifies squares, die
      decreases |die.draws|, r - l + t - b
      ensures die.Valid() && |die.draws| <= |old(die.draws)|
      ensures Carves(old(squares[..]), squares[..], numW, numH)
    {
      ghost var s0 := squares[..];
      if (l - r) * (l - r) <= 1 || (b - t) * (b - t) <= 1 {
        return;
      }
      AtMostOneApart(l - r);
      AtMostOneApart(b - t);
      var vWall, hWall := Divide(l, r, b, t);
      // the four quarters
      ghost var s1 := squares[..];
      DivisionStep(l, vWall, b, hWall);
      CarvesTrans(s0, s1, squares[..], numW, numH);
      s1 := squares[..];
      DivisionStep(vWall, r, b, hWall);
      CarvesTrans(s0, s1, squares[..], numW, numH);
      s1 := squares[..];
      DivisionStep(l, vWall, hWall, t);
      CarvesTrans(s0, s1, squares[..], numW, numH);
      s1 := squares[..];
      DivisionStep(vWall, r, hWall, t);
      CarvesTrans(s0, s1, squares[..], numW, numH);
    }

    /** The body of divisionStep before its recursive calls: draw the two
        dividing lines, wall them and cut the gaps.  The lines lie strictly
        inside the region, except that a region two squares across may draw
        its far edge; a step with the stream run out draws the first lines. */
    method Divide(l: int, r: int, b: int, t: int) returns (vWall: int, hWall: int)
      requires GridValid() && die.Valid() && 0 <= l && l + 2 <= r && 0 <= b && b + 2 <= t
      modifies squares, die
      ensures die.Valid() && Carves(old(squares[..]), squares[..], numW, numH)
      ensures l + 1 <= vWall <= r && b + 1 <= hWall <= t
      ensures r - l > 2 ==> vWall < r
      ensures t - b > 2 ==> hWall < t
      ensures old(die.draws) != [] ==> |die.draws| < |old(die.draws)|
      ensures old(die.draws) == [] ==> die.draws == [] && vWall == l + 1 && hWall == b + 1
    {
      ghost var s0 := squares[..];
      vWall, hWall := DrawLines(l, r, b, t);
      ghost var s1 := squares[..];
      CutGaps(l, r, b, t, vWall, hWall);
      CarvesTrans(s0, s1, squares[..], numW, numH);
    }

    /** The two dividing lines of Divide, drawn and walled. */
    method DrawLines(l: int, r: int, b: int, t: int) returns (vWall: int, hWall: int)
      requires GridValid() && die.Valid() && 0 <= l && l + 2 <= r && 0 <= b && b + 2 <= t
      modifies squares, die
      ensures die.Valid() && Carves(old(squares[..]), squares[..], numW, numH)
      ensures l + 1 <= vWall <= r && b + 1 <= hWall <= t
      ensures r - l > 2 ==> vWall < r
      ensures t - b > 2 ==> hWall < t
      ensures old(die.draws) != [] ==> |die.draws| < |old(die.draws)|
      ensures old(die.draws) == [] ==> die.draws == [] && vWall == l + 1 && hWall == b + 1
    {
      ghost var s0 := squares[..];
      ghost var d0 := die.draws;
      vWall := die.RollIntRange(l + 1, r - 1);
      RaiseVertical(vWall, b, t);
      ghost var s1 := squares[..];
      hWall := die.RollIntRange(b + 1, t - 1);
      RaiseHorizontal(hWall, l, r);
      CarvesTrans(s0, s1, squares[..], numW, numH);
      if d0 == [] {
        Dice.ZeroDrawIsLow(l + 1, r - 1);
        Dice.ZeroDrawIsLow(b + 1, t - 1);
      }
    }

    /** The gaps of Divide, cut into the lines vWall and hWall. */
    method CutGaps(l: int, r: int, b: int, t: int, vWall: int, hWall: int)
      requires GridValid() && die.Valid() && 0 <= l && l + 1 <= vWall <= r && 0 <= b && b + 1 <= hWall <= t
      modifies squares, die
      ensures die.Valid() && Carves(old(squares[..]), squares[..], numW, numH)
      ensures |die.draws| <= |old(die.draws)|
      ensures old(die.draws) == [] ==> die.draws == []
    {
      ghost var s0 := squares[..];
      var vertGaps := die.RollIntRange(2, 3);
      CutVertical(vWall, vertGaps, b, t);
      ghost var s1 := squares[..];
      var horizGaps := die.RollIntRange(2, 3);
      CutHorizontalAsWritten(hWall, horizGaps, l, r);
      CarvesTrans(s0, s1, squares[..], numW, numH);
    }

    /** The test divisionStep stops on, without the multiplication. */
    static lemma AtMostOneApart(a: int)
      ensures a * a <= 1 <==> -1 <= a <= 1
    {
      if a > 1 {
        assert a * a >= 2 * a;
      } else if a < -1 {
        assert a * a >= -2 * a;
      }
    }

    /** The first loop of divisionStep: the vertical line v is walled for
        the rows b..t. */
    method RaiseVertical(v: int, b: int, t: int)
      requires GridValid() && v >= 1 && b >= 0
      modifies squares
      ensures Carves(old(squares[..]), squares[..], numW, numH)
      ensures forall x, y :: InGrid(numW, numH, x, y) && b <= y <= t ==>
        (x + 1 == v ==> At(squares[..], numW, numH, x, y).wallRight) && (x == v ==> At(squares[..], numW, numH, x, y).wallLeft)
    {
      ghost var s0 := squares[..];
      var i := b;
      while i <= t
        invariant Carves(s0, squares[..], numW, numH)
        invariant forall x, y :: InGrid(numW, numH, x, y) && b <= y < i ==>
          (x + 1 == v ==> At(squares[..], numW, numH, x, y).wallRight) && (x == v ==> At(squares[..], numW, numH, x, y).wallLeft)
        decreases t + 1 - i
      {
        ghost var s1 := squares[..];
        SetVertWallAt(v, i, true);
        CarvesTrans(s0, s1, squares[..], numW, numH);
        i := i + 1;
      }
    }

    /** The second loop of divisionStep: the horizontal line hl is walled for
        the columns l..r. */
    method RaiseHorizontal(hl: int, l: int, r: int)
      requires GridValid() && hl >= 1 && l >= 0
      modifies squares
      ensures Carves(old(squares[..]), squares[..], numW, numH)
      ensures forall x, y :: InGrid(numW, numH, x, y) && l <= x <= r ==>
        (y + 1 == hl ==> At(squares[..], numW, numH, x, y).wallUp) && (y == hl ==> At(squares[..], numW, numH, x, y).wallDown)
    {
      ghost var s0 := squares[..];
      var i := l;
      while i <= r
        invariant Carves(s0, squares[..], numW, numH)
        invariant forall x, y :: InGrid(numW, numH, x, y) && l <= x < i ==>
          (y + 1 == hl ==> At(squares[..], numW, numH, x, y).wallUp) && (y == hl ==> At(squares[..], numW, numH, x, y).wallDown)
        decreases r + 1 - i
      {
        ghost var s1 := squares[..];
        SetHorizWallAt(i, hl, true);
        CarvesTrans(s0, s1, squares[..], numW, numH);
        i := i + 1;
      }
    }

    /** The third loop of divisionStep: `gaps` gaps at random rows b..t of
        the vertical line v. */
    method CutVertical(v: int, gaps: int, b: int, t: int)
      requires GridValid() && die.Valid() && v >= 1 && b >= 0
      modifies squares, die
      ensures die.Valid() && |die.draws| <= |old(die.draws)|
      ensures old(die.draws) == [] ==> die.draws == []
      ensures Carves(old(squares[..]), squares[..], numW, numH)
    {
      ghost var s0 := squares[..];
      var i := 0;
      while i < gaps
        invariant die.Valid() && |die.draws| <= |old(die.draws)|
        invariant old(die.draws) == [] ==> die.draws == []
        invariant Carves(s0, squares[..], numW, numH)
      {
        var gap := die.RollIntRange(b, t);
        ghost var s1 := squares[..];
        SetVertWallAt(v, gap, false);
        CarvesTrans(s0, s1, squares[..], numW, numH);
        i := i + 1;
      }
    }

    /** The fourth loop of divisionStep as the source writes it: the gaps
        meant for the horizontal line hl are cut with setVertWall(hl, gap,
        false), in the vertical line numbered hl, at random rows l..r. */
    method CutHorizontalAsWritten(hl: int, gaps: int, l: int, r: int)
      requires GridValid() && die.Valid() && hl >= 1 && l >= 0
      modifies squares, die
      ensures die.Valid() && |die.draws| <= |old(die.draws)|
      ensures old(die.draws) == [] ==> die.draws == []
      ensures Carves(old(squares[..]), squares[..], numW, numH)
    {
      ghost var s0 := squares[..];
      var i := 0;
      while i < gaps
        invariant die.Valid() && |die.draws| <= |old(die.draws)|
        invariant old(die.draws) == [] ==> die.draws == []
        invariant Carves(s0, squares[..], numW, numH)
      {
        var gap := die.RollIntRange(l, r);
        ghost var s1 := squares[..];
        SetVertWallAt(hl, gap, false);
        CarvesTrans(s0, s1, squares[..], numW, numH);
        i := i + 1;
      }
    }

    /** Store q as square (x, y), leaving every other square alone. */
    method PutSquare(x: int, y: int, q: Square)
      requires GridValid() && InGrid(numW, numH, x, y)
      modifies squares
      ensures squares[..] == old(squares[..])[Idx(numW, numH, x, y) := q]
      ensures forall a, b :: InGrid(numW, numH, a, b) ==>
        At(squares[..], numW, numH, a, b) == if a == x && b == y then q else At(old(squares[..]), numW, numH, a, b)
    {
      ghost var s0 := squares[..];
      var k := Idx(numW, numH, x, y);
      squares[k] := q;
      assert squares[..] == s0[k := q];
      forall a, b | InGrid(numW, numH, a, b)
        ensures At(squares[..], numW, numH, a, b) == if a == x && b == y then q else At(s0, numW, numH, a, b)
      {
        AtUpdate(s0, numW, numH, x, y, q, a, b);
      }
    }

    /** The square resetSquares(empty) leaves at (x, y): everything open but
        the outer walls, or everything closed. */
    function ResetAt(empty: bool, x: int, y: int): (q: Square)
      reads this
      ensures !q.visited && !q.accessible
      ensures !empty ==> q == Closed
      ensures empty ==> q.wallLeft == (x == 0) && q.wallRight == (x + 1 == numW)
      ensures empty ==> q.wallDown == (y == 0) && q.wallUp == (y + 1 == numH)
    {
      if empty then Square(y + 1 == numH, y == 0, x == 0, x + 1 == numW, false, false)
      else ResetSquare(false)
    }

    /** resetSquares(empty): every square reset to open (or closed); an open
        grid then gets its four outer walls back.  Either way the grid is
        mirrored and walled all round, and nothing is visited or accessible. */
    method ResetSquares(empty: bool)
      requires GridValid()
      modifies squares
      ensures forall x, y :: InGrid(numW, numH, x, y) ==> At(squares[..], numW, numH, x, y) == ResetAt(empty, x, y)
      ensures Mirrored(squares[..], numW, numH) && Borders(squares[..], numW, numH)
    {
      var i := 0;
      while i < numW
        invariant 0 <= i <= numW
        invariant forall x, y :: InGrid(numW, numH, x, y) && x < i ==>
          At(squares[..], numW, numH, x, y) == ResetSquare(empty)
      {
        var j := 0;
        while j < numH
          invariant 0 <= j <= numH
          invariant forall x, y :: InGrid(numW, numH, x, y) && (x < i || (x == i && y < j)) ==>
            At(squares[..], numW, numH, x, y) == ResetSquare(empty)
        {
          PutSquare(i, j, ResetSquare(empty));
          j := j + 1;
        }
        i := i + 1;
      }
      if empty {
        SetVertWall(0);
        SetVertWall(numW);
        SetHorizWall(0);
        SetHorizWall(numH);
      }
    }

    /** resetVisited: only the visited flags change, all to false. */
    method ResetVisited()
      requires GridValid()
      modifies squares
      ensures forall x, y :: InGrid(numW, numH, x, y) ==>
        At(squares[..], numW, numH, x, y) == At(old(squares[..]), numW, numH, x, y).(visited := false)
    {
      ghost var s0 := squares[..];
      var i := 0;
      while i < numW
        invariant 0 <= i <= numW
        invariant forall x, y :: InGrid(numW, numH, x, y) ==>
          At(squares[..], numW, numH, x, y) ==
            if x < i then At(s0, numW, numH, x, y).(visited := false) else At(s0, numW, numH, x, y)
      {
        var j := 0;
        while j < numH
          invariant 0 <= j <= numH
          invariant forall x, y :: InGrid(numW, numH, x, y) ==>
            At(squares[..], numW, numH, x, y) ==
              if x < i || (x == i && y < j) then At(s0, numW, numH, x, y).(visited := false)
              else At(s0, numW, numH, x, y)
        {
          PutSquare(i, j, At(squares[..], numW, numH, i, j).(visited := false));
          j := j + 1;
        }
        i := i + 1;
      }
    }

    /** resetAccessibility: only the accessible flags change; exactly the
        four ghost-town squares are accessible. */
    method ResetAccessibility()
      requires GridValid()
      modifies squares
      ensures forall x, y :: InGrid(numW, numH, x, y) ==>
        At(squares[..], numW, numH, x, y) ==
          At(old(squares[..]), numW, numH, x, y).(accessible := InGhostTown(numW, numH, x, y))
    {
      ghost var s0 := squares[..];
      var centerX := numW / 2;
      var centerY := numH / 2;
      var i := 0;
      while i < numW
        invariant 0 <= i <= numW
        invariant forall x, y :: InGrid(numW, numH, x, y) ==>
          At(squares[..], numW, numH, x, y) ==
            if x < i then At(s0, numW, numH, x, y).(accessible := InGhostTown(numW, numH, x, y))
            else At(s0, numW, numH, x, y)
      {
        var j := 0;
        while j < numH
          invariant 0 <= j <= numH
          invariant forall x, y :: InGrid(numW, numH, x, y) ==>
            At(squares[..], numW, numH, x, y) ==
              if x < i || (x == i && y < j) then At(s0, numW, numH, x, y).(accessible := InGhostTown(numW, numH, x, y))
              else At(s0, numW, numH, x, y)
        {
          var town := (i == centerX && j == centerY) || (i == centerX && j == centerY - 1)
                   || (i == centerX - 1 && j == centerY) || (i == centerX + 1 && j == centerY);
          PutSquare(i, j, At(squares[..], numW, numH, i, j).(accessible := town));
          j := j + 1;
        }
        i := i + 1;
      }
    }

    /** refreshAccessibility(): recompute the accessible flags by a flood
        fill from the ghost-town entrance.  The walls and everything but the
        two flags stay as they were, nothing is left visited, and the
        accessible squares are exactly the ghost town and the squares the
        entrance reaches without crossing the pen.  The entrance must be a
        square of the grid. */
    method RefreshAccessibility()
      requires GridValid() && InGrid(numW, numH, Entrance(numW, numH).0, Entrance(numW, numH).1)
      modifies squares
      ensures forall x, y :: InGrid(numW, numH, x, y) ==>
        At(squares[..], numW, numH, x, y) ==
          At(old(squares[..]), numW, numH, x, y).(visited := false, accessible := At(squares[..], numW, numH, x, y).accessible)
      ensures AccessibilityExact(squares[..], numW, numH)
    {
      var x, y := ResetMarks();
      ghost var ws := squares[..];
      Floods.TownJustified(ws, ws, numW, numH);
      assert Path(ws, numW, numH, Entrance(numW, numH), Pen(numW, numH), x, y, 0);
      RefreshFrom(ws, x, y);
      Floods.FillSealsAll(ws, squares[..], numW, numH);
      Floods.FloodComplete(ws, squares[..], numW, numH);
    }

    /** The start of refreshAccessibility: nothing visited, only the ghost
        town marked, and the entrance (x, y) marked again. */
    method ResetMarks() returns (x: int, y: int)
      requires GridValid() && InGrid(numW, numH, Entrance(numW, numH).0, Entrance(numW, numH).1)
      modifies squares
      ensures (x, y) == Entrance(numW, numH)
      ensures forall a, b :: InGrid(numW, numH, a, b) ==>
        At(squares[..], numW, numH, a, b) ==
          At(old(squares[..]), numW, numH, a, b).(visited := false, accessible := InGhostTown(numW, numH, a, b))
    {
      x := numW / 2;
      y := numH / 2;
      y := y - 1;
      ResetAccessibility();
      ResetVisited();
      PutSquare(x, y, At(squares[..], numW, numH, x, y).(accessible := true));
    }

    /** The recursive body of refreshAccessibility(x, y), for a marked square
        the entrance reaches: try the four passages out of it in the order
        up, down, left, right.  Every square it marks, and (x, y) itself,
        ends up sealed: its open sides all lead to marked squares.  `ws`
        holds the walls, which the fill does not change. */
    method RefreshFrom(ghost ws: seq<Square>, x: int, y: int)
      requires GridValid() && InGrid(numW, numH, x, y) && |ws| == numW * numH
      requires Floods.OnlyMarksChanged(ws, squares[..])
      requires At(squares[..], numW, numH, x, y).accessible && ReachableFromEntrance(ws, numW, numH, x, y)
      requires Floods.Justified(ws, squares[..], numW, numH) && Floods.TownMarked(squares[..], numW, numH)
      modifies squares
      decreases Floods.Unmarked(squares[..]), 1
      ensures Floods.OnlyMarksChanged(ws, squares[..]) && Floods.MarksGrow(old(squares[..]), squares[..])
      ensures Floods.Justified(ws, squares[..], numW, numH) && Floods.TownMarked(squares[..], numW, numH)
      ensures Floods.FreshSealed(ws, old(squares[..]), squares[..], numW, numH)
      ensures Floods.Sealed(ws, squares[..], numW, numH, x, y)
    {
      ghost var s0 := squares[..];
      Spread(ws, x, y, Up);
      ghost var s1 := squares[..];
      Floods.GrowShrinks(s0, s1);
      Spread(ws, x, y, Down);
      ghost var s2 := squares[..];
      Floods.GrowShrinks(s1, s2);
      Spread(ws, x, y, Left);
      ghost var s3 := squares[..];
      Floods.GrowShrinks(s2, s3);
      Spread(ws, x, y, Right);
      ghost var s4 := squares[..];
      Floods.FreshSealedTrans(ws, s0, s1, s2, numW, numH);
      Floods.GrowTrans(s0, s1, s2);
      Floods.FreshSealedTrans(ws, s0, s2, s3, numW, numH);
      Floods.GrowTrans(s0, s2, s3);
      Floods.FreshSealedTrans(ws, s0, s3, s4, numW, numH);
      Floods.GrowTrans(s0, s3, s4);
      Floods.SealedAfterBranches(ws, s1, s2, s3, s4, numW, numH, x, y);
    }

    /** One of the four branches of refreshAccessibility(x, y): if the side d
        of (x, y) is open and the square behind it is not yet marked, mark it
        and fill from there.  Afterwards the square behind an open side d is
        marked. */
    method Spread(ghost ws: seq<Square>, x: int, y: int, d: MazeDirection)
      requires GridValid() && InGrid(numW, numH, x, y) && |ws| == numW * numH
      requires Floods.OnlyMarksChanged(ws, squares[..])
      requires At(squares[..], numW, numH, x, y).accessible && ReachableFromEntrance(ws, numW, numH, x, y)
      requires Floods.Justified(ws, squares[..], numW, numH) && Floods.TownMarked(squares[..], numW, numH)
      modifies squares
      decreases Floods.Unmarked(squares[..]), 0
      ensures Floods.OnlyMarksChanged(ws, squares[..]) && Floods.MarksGrow(old(squares[..]), squares[..])
      ensures Floods.Justified(ws, squares[..], numW, numH) && Floods.TownMarked(squares[..], numW, numH)
      ensures Floods.FreshSealed(ws, old(squares[..]), squares[..], numW, numH)
      ensures Open(ws, numW, numH, x, y, d) ==> At(squares[..], numW, numH, StepX(x, d), StepY(y, d)).accessible
    {
      ghost var s0 := squares[..];
      assert Open(ws, numW, numH, x, y, d) == Open(s0, numW, numH, x, y, d);
      if Open(squares[..], numW, numH, x, y, d)
         && !squares[Idx(numW, numH, StepX(x, d), StepY(y, d))].accessible {
        var nx, ny := StepX(x, d), StepY(y, d);
        var k := Idx(numW, numH, nx, ny);
        Floods.MarkNeighbour(ws, s0, numW, numH, x, y, d);
        squares[k] := squares[k].(accessible := true);
        ghost var s1 := squares[..];
        assert s1 == s0[k := s0[k].(accessible := true)];
        RefreshFrom(ws, nx, ny);
        ghost var s2 := squares[..];
        forall a, b | InGrid(numW, numH, a, b) && At(s2, numW, numH, a, b).accessible && !At(s0, numW, numH, a, b).accessible
          ensures Floods.Sealed(ws, s2, numW, numH, a, b)
        {
          AtUpdate(s0, numW, numH, nx, ny, s0[k].(accessible := true), a, b);
        }
      }
    }

    /** breakIsolation(): connect every square to the ghost town.  Each
        square the last flood did not reach is marked visited and broken out
        of, in x-major order.  Walls only come down, never an outer wall or a
        wall of the pen; the accessible flags stay exact; and unless the
        stream of draws ran out, every square ends up accessible. */
    method BreakIsolation()
      requires GridValid() && die.Valid() && InGrid(numW, numH, Entrance(numW, numH).0, Entrance(numW, numH).1)
      requires AccessibilityExact(squares[..], numW, numH)
      modifies squares, die
      ensures die.Valid() && AccessibilityExact(squares[..], numW, numH)
      ensures Breaks(old(squares[..]), squares[..], numW, numH)
      ensures !die.exhausted ==> forall x, y :: InGrid(numW, numH, x, y) ==> At(squares[..], numW, numH, x, y).accessible
    {
      ghost var s0 := squares[..];
      SameWallsBreaks(s0, s0, numW, numH);
      var i := 0;
      while i < numW
        invariant 0 <= i <= numW && die.Valid()
        invariant AccessibilityExact(squares[..], numW, numH) && Breaks(s0, squares[..], numW, numH)
        invariant !die.exhausted ==> AccessibleBefore(squares[..], numW, numH, i, 0)
      {
        ghost var s1 := squares[..];
        ConnectColumn(i);
        BreaksTrans(s0, s1, squares[..], numW, numH);
        i := i + 1;
      }
    }

    /** The squares (i, 0) to (i, numH - 1) of breakIsolation()'s scan. */
    method ConnectColumn(i: int)
      requires GridValid() && die.Valid() && 0 <= i < numW
      requires InGrid(numW, numH, Entrance(numW, numH).0, Entrance(numW, numH).1)
      requires AccessibilityExact(squares[..], numW, numH)
      modifies squares, die
      ensures die.Valid() && (old(die.exhausted) ==> die.exhausted)
      ensures AccessibilityExact(squares[..], numW, numH) && Breaks(old(squares[..]), squares[..], numW, numH)
      ensures !die.exhausted && AccessibleBefore(old(squares[..]), numW, numH, i, 0) ==>
        AccessibleBefore(squares[..], numW, numH, i + 1, 0)
    {
      ghost var s0 := squares[..];
      SameWallsBreaks(s0, s0, numW, numH);
      var j := 0;
      while j < numH
        invariant 0 <= j <= numH && die.Valid() && (old(die.exhausted) ==> die.exhausted)
        invariant AccessibilityExact(squares[..], numW, numH) && Breaks(s0, squares[..], numW, numH)
        invariant !die.exhausted && AccessibleBefore(s0, numW, numH, i, 0) ==> AccessibleBefore(squares[..], numW, numH, i, j)
      {
        ghost var s1 := squares[..];
        ConnectSquare(i, j);
        BreaksTrans(s0, s1, squares[..], numW, numH);
        if !die.exhausted && AccessibleBefore(s0, numW, numH, i, 0) {
          AccessibleNext(s1, squares[..], numW, numH, i, j);
        }
        j := j + 1;
      }
      if !die.exhausted && AccessibleBefore(s0, numW, numH, i, 0) {
        AccessibleColumn(squares[..], numW, numH, i);
      }
    }

    /** One square of breakIsolation()'s scan: a square the flood did not
        reach is marked visited and broken out of.  What was accessible
        stays accessible. */
    method ConnectSquare(i: int, j: int)
      requires GridValid() && die.Valid() && InGrid(numW, numH, i, j)
      requires InGrid(numW, numH, Entrance(numW, numH).0, Entrance(numW, numH).1)
      requires AccessibilityExact(squares[..], numW, numH)
      modifies squares, die
      ensures die.Valid() && (old(die.exhausted) ==> die.exhausted)
      ensures AccessibilityExact(squares[..], numW, numH) && Breaks(old(squares[..]), squares[..], numW, numH)
      ensures AccessGrows(old(squares[..]), squares[..], numW, numH)
      ensures !die.exhausted ==> At(squares[..], numW, numH, i, j).accessible
    {
      ghost var s0 := squares[..];
      SameWallsBreaks(s0, s0, numW, numH);
      if !squares[Idx(numW, numH, i, j)].accessible {
        MarkVisited(i, j);
        ghost var s1 := squares[..];
        BreakFrom(i, j);
        BreaksTrans(s0, s1, squares[..], numW, numH);
      }
      ExactGrows(s0, squares[..], numW, numH);
    }

    /** current->visited = true: only that flag of (x, y) changes. */
    method MarkVisited(x: int, y: int)
      requires GridValid() && InGrid(numW, numH, x, y)
      requires AccessibilityExact(squares[..], numW, numH)
      modifies squares
      ensures squares[..] == old(squares[..])[Idx(numW, numH, x, y) := old(squares[..])[Idx(numW, numH, x, y)].(visited := true)]
      ensures AccessibilityExact(squares[..], numW, numH) && Breaks(old(squares[..]), squares[..], numW, numH)
    {
      ghost var s0 := squares[..];
      var k := Idx(numW, numH, x, y);
      squares[k] := squares[k].(visited := true);
      assert squares[..] == s0[k := s0[k].(visited := true)];
      SameWallsBreaks(s0, squares[..], numW, numH);
      ExactFrame(s0, squares[..], numW, numH);
    }

    /** breakIsolation(x, y) for one square (x, y): nothing if it is
        accessible; otherwise mark it visited, note which sides not to try
        (the grid's edge, the walls of the pen, visited neighbours), and
        until it is accessible and every side has been tried, roll a side;
        a side not yet tried has its wall broken, the flags are refreshed,
        and if (x, y) is still cut off the neighbour is broken out of in
        turn.  A roll that picks a side already tried does nothing, so the
        source can roll forever; here the loop also ends when the stream of
        draws has run out. */
    method BreakFrom(x: int, y: int)
      requires GridValid() && die.Valid() && InGrid(numW, numH, x, y)
      requires InGrid(numW, numH, Entrance(numW, numH).0, Entrance(numW, numH).1)
      requires AccessibilityExact(squares[..], numW, numH)
      modifies squares, die
      decreases die.Budget(), 2
      ensures die.Valid() && die.Budget() <= old(die.Budget()) && (old(die.exhausted) ==> die.exhausted)
      ensures AccessibilityExact(squares[..], numW, numH) && Breaks(old(squares[..]), squares[..], numW, numH)
      ensures !die.exhausted ==> At(squares[..], numW, numH, x, y).accessible
    {
      ghost var s0 := squares[..];
      SameWallsBreaks(s0, s0, numW, numH);
      if squares[Idx(numW, numH, x, y)].accessible {
        return;
      }
      assert !InGhostTown(numW, numH, x, y);
      BreakIsolated(x, y);
    }

    /** breakIsolation on an inaccessible square: mark it visited, then
        break out until it is accessible and every side has been tried. */
    method BreakIsolated(x: int, y: int)
      requires GridValid() && die.Valid() && InGrid(numW, numH, x, y) && !InGhostTown(numW, numH, x, y)
      requires InGrid(numW, numH, Entrance(numW, numH).0, Entrance(numW, numH).1)
      requires AccessibilityExact(squares[..], numW, numH)
      modifies squares, die
      decreases die.Budget(), 1
      ensures die.Valid() && die.Budget() <= old(die.Budget()) && (old(die.exhausted) ==> die.exhausted)
      ensures AccessibilityExact(squares[..], numW, numH) && Breaks(old(squares[..]), squares[..], numW, numH)
      ensures !die.exhausted ==> At(squares[..], numW, numH, x, y).accessible
    {
      ghost var s0 := squares[..];
      SameWallsBreaks(s0, s0, numW, numH);
      MarkVisited(x, y);
      BreaksTrans(s0, s0, squares[..], numW, numH);
      var tried0 := SideDone(x, y, Up);
      var tried1 := SideDone(x, y, Left);
      var tried2 := SideDone(x, y, Down);
      var tried3 := SideDone(x, y, Right);
      ghost var s1 := squares[..];
      RollBreaks(x, y, tried0, tried1, tried2, tried3);
      BreaksTrans(s0, s1, squares[..], numW, numH);
    }

    /** The initial value of breakIsolation's tried flag for side d of
        (x, y): the side is on the grid's edge, leads into the pen, or leads
        to a square already visited.  A side not excluded may be broken. */
    function SideDone(x: int, y: int, d: MazeDirection): (done: bool)
      requires GridValid() && InGrid(numW, numH, x, y) && !InGhostTown(numW, numH, x, y) && d != None
      reads this, squares
      ensures !done ==> CanBreak(numW, numH, x, y, d)
    {
      Breakable(numW, numH, x, y);
      var centerX := numW / 2;
      var centerY := numH / 2;
      match d
      case Up => y >= numH - 1 || (y == centerY - 1 && x >= centerX - 1 && x <= centerX + 1)
                 || squares[Idx(numW, numH, x, y + 1)].visited
      case Left => x <= 0 || (x == centerX + 2 && y == centerY) || squares[Idx(numW, numH, x - 1, y)].visited
      case Down => y <= 0 || (y == centerY + 1 && x >= centerX - 1 && x <= centerX + 1)
                   || squares[Idx(numW, numH, x, y - 1)].visited
      case Right => x >= numW - 1 || (x == centerX - 2 && y == centerY) || squares[Idx(numW, numH, x + 1, y)].visited
    }

    /** The loop of breakIsolation(x, y), from the sides already tried. */
    method RollBreaks(x: int, y: int, tried0: bool, tried1: bool, tried2: bool, tried3: bool)
      requires GridValid() && die.Valid() && InGrid(numW, numH, x, y) && !InGhostTown(numW, numH, x, y)
      requires InGrid(numW, numH, Entrance(numW, numH).0, Entrance(numW, numH).1)
      requires AccessibilityExact(squares[..], numW, numH)
      requires (!tried0 ==> CanBreak(numW, numH, x, y, Up)) && (!tried1 ==> CanBreak(numW, numH, x, y, Left))
      requires (!tried2 ==> CanBreak(numW, numH, x, y, Down)) && (!tried3 ==> CanBreak(numW, numH, x, y, Right))
      modifies squares, die
      decreases die.Budget(), 0
      ensures die.Valid() && die.Budget() <= old(die.Budget()) && (old(die.exhausted) ==> die.exhausted)
      ensures AccessibilityExact(squares[..], numW, numH) && Breaks(old(squares[..]), squares[..], numW, numH)
      ensures !die.exhausted ==> At(squares[..], numW, numH, x, y).accessible
    {
      ghost var s0 := squares[..];
      SameWallsBreaks(s0, s0, numW, numH);
      var tried0, tried1, tried2, tried3 := tried0, tried1, tried2, tried3;
      while (!squares[Idx(numW, numH, x, y)].accessible || !(tried0 && tried1 && tried2 && tried3)) && !die.exhausted
        invariant GridValid() && die.Valid() && die.Budget() <= old(die.Budget()) && (old(die.exhausted) ==> die.exhausted)
        invariant AccessibilityExact(squares[..], numW, numH) && Breaks(s0, squares[..], numW, numH)
        invariant (!tried0 ==> CanBreak(numW, numH, x, y, Up)) && (!tried1 ==> CanBreak(numW, numH, x, y, Left))
        invariant (!tried2 ==> CanBreak(numW, numH, x, y, Down)) && (!tried3 ==> CanBreak(numW, numH, x, y, Right))
        decreases die.Budget()
      {
        var breakDirection := die.RollInt(4);
        tried0, tried1, tried2, tried3 := TryRolled(s0, x, y, breakDirection, tried0, tried1, tried2, tried3);
      }
    }

    /** breakIsolation's switch on the rolled side: 0 up, 1 left, 2 down,
        anything else right. */
    method TryRolled(ghost s0: seq<Square>, x: int, y: int, breakDirection: int,
                     tried0: bool, tried1: bool, tried2: bool, tried3: bool)
      returns (t0: bool, t1: bool, t2: bool, t3: bool)
      requires GridValid() && die.Valid() && InGrid(numW, numH, x, y) && !InGhostTown(numW, numH, x, y)
      requires InGrid(numW, numH, Entrance(numW, numH).0, Entrance(numW, numH).1)
      requires AccessibilityExact(squares[..], numW, numH)
      requires |s0| == numW * numH && Breaks(s0, squares[..], numW, numH)
      requires (!tried0 ==> CanBreak(numW, numH, x, y, Up)) && (!tried1 ==> CanBreak(numW, numH, x, y, Left))
      requires (!tried2 ==> CanBreak(numW, numH, x, y, Down)) && (!tried3 ==> CanBreak(numW, numH, x, y, Right))
      modifies squares, die
      decreases die.Budget(), 5
      ensures die.Valid() && die.Budget() <= old(die.Budget()) && (old(die.exhausted) ==> die.exhausted)
      ensures AccessibilityExact(squares[..], numW, numH) && Breaks(s0, squares[..], numW, numH)
      ensures (!t0 ==> CanBreak(numW, numH, x, y, Up)) && (!t1 ==> CanBreak(numW, numH, x, y, Left))
      ensures (!t2 ==> CanBreak(numW, numH, x, y, Down)) && (!t3 ==> CanBreak(numW, numH, x, y, Right))
      ensures (t0, t1, t2, t3) == (if breakDirection == 0 then true else tried0, if breakDirection == 1 then true else tried1,
                                   if breakDirection == 2 then true else tried2,
                                   if breakDirection !in {0, 1, 2} then true else tried3)
    {
      t0, t1, t2, t3 := tried0, tried1, tried2, tried3;
      if breakDirection == 0 {
        t0 := TrySide(s0, x, y, Up, tried0);
      } else if breakDirection == 1 {
        t1 := TrySide(s0, x, y, Left, tried1);
      } else if breakDirection == 2 {
        t2 := TrySide(s0, x, y, Down, tried2);
      } else {
        t3 := TrySide(s0, x, y, Right, tried3);
      }
    }

    /** One case of breakIsolation's switch: a side not yet tried is broken
        out through, and is tried from then on. */
    method TrySide(ghost s0: seq<Square>, x: int, y: int, d: MazeDirection, tried: bool) returns (done: bool)
      requires GridValid() && die.Valid() && InGrid(numW, numH, x, y) && !InGhostTown(numW, numH, x, y)
      requires InGrid(numW, numH, Entrance(numW, numH).0, Entrance(numW, numH).1)
      requires AccessibilityExact(squares[..], numW, numH)
      requires |s0| == numW * numH && Breaks(s0, squares[..], numW, numH)
      requires !tried ==> CanBreak(numW, numH, x, y, d)
      modifies squares, die
      decreases die.Budget(), 4
      ensures done
      ensures die.Valid() && die.Budget() <= old(die.Budget()) && (old(die.exhausted) ==> die.exhausted)
      ensures AccessibilityExact(squares[..], numW, numH) && Breaks(s0, squares[..], numW, numH)
    {
      if !tried {
        ghost var s1 := squares[..];
        BreakOut(x, y, d);
        BreaksTrans(s0, s1, squares[..], numW, numH);
      }
      done := true;
    }

    /** One case of breakIsolation's switch for a side d that may be tried:
        break the wall, refresh the flags, and if (x, y) is still cut off,
        break out of the neighbour. */
    method BreakOut(x: int, y: int, d: MazeDirection)
      requires GridValid() && die.Valid() && InGrid(numW, numH, x, y) && !InGhostTown(numW, numH, x, y)
      requires CanBreak(numW, numH, x, y, d)
      requires InGrid(numW, numH, Entrance(numW, numH).0, Entrance(numW, numH).1)
      modifies squares, die
      decreases die.Budget(), 3
      ensures die.Valid() && die.Budget() <= old(die.Budget()) && (old(die.exhausted) ==> die.exhausted)
      ensures AccessibilityExact(squares[..], numW, numH) && Breaks(old(squares[..]), squares[..], numW, numH)
    {
      ghost var s0 := squares[..];
      BreakWall(x, y, d);
      ghost var s1 := squares[..];
      RefreshAccessibility();
      Refreshed(s1, squares[..]);
      BreaksTrans(s0, s1, squares[..], numW, numH);
      if !squares[Idx(numW, numH, x, y)].accessible {
        s1 := squares[..];
        BreakFrom(StepX(x, d), StepY(y, d));
        BreaksTrans(s0, s1, squares[..], numW, numH);
      }
    }

    /** What RefreshAccessibility promises about the squares leaves every
        wall standing. */
    lemma Refreshed(s1: seq<Square>, s2: seq<Square>)
      requires GridValid() && |s1| == numW * numH && |s2| == numW * numH
      requires forall x, y :: InGrid(numW, numH, x, y) ==>
        At(s2, numW, numH, x, y) == At(s1, numW, numH, x, y).(visited := false, accessible := At(s2, numW, numH, x, y).accessible)
      ensures Breaks(s1, s2, numW, numH) && SameWalls(s1, s2)
    {
      forall x, y | InGrid(numW, numH, x, y)
        ensures WallsOf(At(s2, numW, numH, x, y)) == WallsOf(At(s1, numW, numH, x, y))
      {
        assert At(s2, numW, numH, x, y) == At(s1, numW, numH, x, y).(visited := false, accessible := At(s2, numW, numH, x, y).accessible);
      }
      FlagsOnlyBreaks(s1, s2, numW, numH);
    }

    /** The setter call of one case of breakIsolation: take down the wall on
        side d of (x, y), an inner wall of neither the pen nor the grid's
        edge. */
    method BreakWall(x: int, y: int, d: MazeDirection)
      requires GridValid() && InGrid(numW, numH, x, y) && (x, y) !in Pen(numW, numH)
      requires CanBreak(numW, numH, x, y, d)
      modifies squares
      ensures Breaks(old(squares[..]), squares[..], numW, numH)
    {
      ghost var s0 := squares[..];
      match d {
        case Up => ClearHoriz(x, y + 1);
        case Left => ClearVert(x, y);
        case Down => ClearHoriz(x, y);
        case Right => ClearVert(x + 1, y);
      }
      ClearedBreaks(s0, squares[..], numW, numH, x, y, d);
    }

    /** setVertWall(x, y, false) between two squares of the grid. */
    method ClearVert(x: int, y: int)
      requires GridValid() && InGrid(numW, numH, x - 1, y) && InGrid(numW, numH, x, y)
      modifies squares
      ensures ClearedSide(old(squares[..]), squares[..], numW, numH, x - 1, y, Right)
      ensures ClearedSide(old(squares[..]), squares[..], numW, numH, x, y, Left)
    {
      ghost var s0 := squares[..];
      SetVertWallAt(x, y, false);
      VertCleared(s0, squares[..], numW, numH, x, y);
    }

    /** setHorizWall(x, y, false) between two squares of the grid. */
    method ClearHoriz(x: int, y: int)
      requires GridValid() && InGrid(numW, numH, x, y - 1) && InGrid(numW, numH, x, y)
      modifies squares
      ensures ClearedSide(old(squares[..]), squares[..], numW, numH, x, y - 1, Up)
      ensures ClearedSide(old(squares[..]), squares[..], numW, numH, x, y, Down)
    {
      ghost var s0 := squares[..];
      SetHorizWallAt(x, y, false);
      HorizCleared(s0, squares[..], numW, numH, x, y);
    }

    /** generate(algorithm): reset to an open grid walled all round; for
        recursive division, then divide, build the ghost town, flood from
        its entrance, break every isolated square out and fill the open
        intersections.  The other algorithms are not implemented and leave
        the reset grid.  Either way the walls agree from both sides and the
        left, bottom and top outer walls stand.  After division the pen is
        left only through its entrance, no corner is fully open, and unless
        the stream of draws ran out every square is accessible. */
    method Generate(algorithm: MazeAlg)
      requires GridValid() && die.Valid()
      requires algorithm == MaDivision ==> numW >= 4 && numH >= 4
      modifies squares, die
      ensures die.Valid()
      ensures Mirrored(squares[..], numW, numH) && LeftBottomTopBorders(squares[..], numW, numH)
      ensures algorithm == MaDivision ==>
        && PenClosed(squares[..], numW, numH) && NoOpenIntersection(squares[..], numW, numH)
        && (!die.exhausted ==> forall x, y :: InGrid(numW, numH, x, y) ==> At(squares[..], numW, numH, x, y).accessible)
      ensures algorithm != MaDivision ==>
        forall x, y :: InGrid(numW, numH, x, y) ==> At(squares[..], numW, numH, x, y) == ResetAt(true, x, y)
    {
      ResetSquares(true);
      if algorithm == MaDivision {
        GenerateDivision();
      }
    }

    /** The MA_DIVISION case of generate, on a freshly reset grid. */
    method GenerateDivision()
      requires GridValid() && die.Valid() && numW >= 4 && numH >= 4
      requires Mirrored(squares[..], numW, numH) && LeftBottomTopBorders(squares[..], numW, numH)
      modifies squares, die
      ensures die.Valid()
      ensures Mirrored(squares[..], numW, numH) && LeftBottomTopBorders(squares[..], numW, numH)
      ensures PenClosed(squares[..], numW, numH) && NoOpenIntersection(squares[..], numW, numH)
      ensures !die.exhausted ==> forall x, y :: InGrid(numW, numH, x, y) ==> At(squares[..], numW, numH, x, y).accessible
    {
      DivisionStep(0, numW, 0, numH);
      BuildGhostTown();
      ghost var s1 := squares[..];
      RefreshAccessibility();
      Refreshed(s1, squares[..]);
      PenClosedKept(s1, squares[..], numW, numH);
      ghost var s2 := squares[..];
      BreakIsolation();
      PenClosedKept(s2, squares[..], numW, numH);
      ghost var s3 := squares[..];
      FillSpaces();
      RaisedKeepsPenClosed(s3, squares[..], numW, numH);
      forall x, y | InGrid(numW, numH, x, y) && !die.exhausted
        ensures At(squares[..], numW, numH, x, y).accessible
      {
        assert At(s3, numW, numH, x, y).accessible;
      }
    }

    /** fillSpaces(): visit every inner corner point, x-major from (1, 1),
        and put one wall on every corner no wall touches.  Walls are only
        raised and the flags are untouched; afterwards no corner of the
        maze is a fully open intersection. */
    method FillSpaces()
      requires GridValid() && die.Valid()
      modifies squares, die
      ensures die.Valid() && (old(die.exhausted) ==> die.exhausted)
      ensures Carves(old(squares[..]), squares[..], numW, numH) && WallsRaisedOnly(old(squares[..]), squares[..])
      ensures NoOpenIntersection(squares[..], numW, numH)
    {
      ghost var s0 := squares[..];
      RaisedCarves(s0, s0, numW, numH);
      var i := 1;
      while i < numW
        invariant 1 <= i && (numW >= 1 ==> i <= numW) && die.Valid() && (old(die.exhausted) ==> die.exhausted)
        invariant Carves(s0, squares[..], numW, numH) && WallsRaisedOnly(s0, squares[..])
        invariant FilledBefore(squares[..], numW, numH, i, 1)
      {
        ghost var s1 := squares[..];
        FillColumn(i);
        CarvesTrans(s0, s1, squares[..], numW, numH);
        i := i + 1;
      }
      FilledAll(squares[..], numW, numH);
    }

    /** The corners (i, 1) to (i, numH - 1) of fillSpaces. */
    method FillColumn(i: int)
      requires GridValid() && die.Valid() && 1 <= i < numW
      requires FilledBefore(squares[..], numW, numH, i, 1)
      modifies squares, die
      ensures die.Valid() && (old(die.exhausted) ==> die.exhausted)
      ensures Carves(old(squares[..]), squares[..], numW, numH) && WallsRaisedOnly(old(squares[..]), squares[..])
      ensures FilledBefore(squares[..], numW, numH, i + 1, 1)
    {
      ghost var s0 := squares[..];
      RaisedCarves(s0, s0, numW, numH);
      var j := 1;
      while j < numH
        invariant 1 <= j && (numH >= 1 ==> j <= numH) && die.Valid() && (old(die.exhausted) ==> die.exhausted)
        invariant Carves(s0, squares[..], numW, numH) && WallsRaisedOnly(s0, squares[..])
        invariant FilledBefore(squares[..], numW, numH, i, j)
      {
        ghost var s1 := squares[..];
        FillCorner(i, j);
        CarvesTrans(s0, s1, squares[..], numW, numH);
        RaisedKeepsFilled(s1, squares[..], numW, numH, i, j);
        FilledNext(squares[..], numW, numH, i, j);
        j := j + 1;
      }
      FilledColumn(squares[..], numW, numH, i);
    }

    /** One corner of fillSpaces: the corner shared by (i - 1, j - 1) and
        (i, j).  If no wall touches it, one roll of the die picks the wall
        to raise: 0 the one above the corner, 1 the one to its left, 2 the
        one below, anything else the one to its right.  Afterwards a wall
        touches it; the die is rolled exactly when the corner was open. */
    method FillCorner(i: int, j: int)
      requires GridValid() && die.Valid() && 1 <= i < numW && 1 <= j < numH
      modifies squares, die
      ensures die.Valid() && CornerFilled(squares[..], numW, numH, i, j)
      ensures Carves(old(squares[..]), squares[..], numW, numH) && WallsRaisedOnly(old(squares[..]), squares[..])
      ensures var open := !CornerFilled(old(squares[..]), numW, numH, i, j);
        && die.draws == (if open then Dice.Drop(old(die.draws), 1) else old(die.draws))
        && die.exhausted == (old(die.exhausted) || (open && old(die.draws) == []))
    {
      ghost var s0 := squares[..];
      var q1 := squares[Idx(numW, numH, i, j)];
      var q3 := squares[Idx(numW, numH, i - 1, j - 1)];
      if !q1.wallLeft && !q1.wallDown && !q3.wallUp && !q3.wallRight {
        var wallToFill := die.RollInt(4);
        if wallToFill == 0 {
          SetVertWallAt(i, j, true);
        } else if wallToFill == 1 {
          SetHorizWallAt(i - 1, j, true);
        } else if wallToFill == 2 {
          SetVertWallAt(i, j - 1, true);
        } else {
          SetHorizWallAt(i, j, true);
        }
      } else {
        RaisedCarves(s0, s0, numW, numH);
      }
    }

    /** checkAccessibility: true exactly when every square is accessible. */
    method CheckAccessibility() returns (all: bool)
      requires GridValid()
      ensures all <==> forall x, y :: InGrid(numW, numH, x, y) ==> At(squares[..], numW, numH, x, y).accessible
    {
      var i := 0;
      while i < numW
        invariant 0 <= i <= numW
        invariant forall x, y :: InGrid(numW, numH, x, y) && x < i ==> At(squares[..], numW, numH, x, y).accessible
      {
        var j := 0;
        while j < numH
          invariant 0 <= j <= numH
          invariant forall x, y :: InGrid(numW, numH, x, y) && (x < i || (x == i && y < j)) ==>
            At(squares[..], numW, numH, x, y).accessible
        {
          if !squares[Idx(numW, numH, i, j)].accessible {
            return false;
          }
          j := j + 1;
        }
        i := i + 1;
      }
      return true;
    }

    /** Set or clear one wall flag of square (x, y), leaving its other flags
        and every other square alone. */
    method SetSide(x: int, y: int, d: MazeDirection, s: bool)
      requires GridValid() && InGrid(numW, numH, x, y)
      modifies squares
      ensures forall a, b :: InGrid(numW, numH, a, b) ==>
        At(squares[..], numW, numH, a, b) ==
          if a == x && b == y then WithSide(At(old(squares[..]), numW, numH, a, b), d, s)
          else At(old(squares[..]), numW, numH, a, b)
      ensures !s ==> WallsRemovedOnly(old(squares[..]), squares[..])
      ensures s ==> WallsRaisedOnly(old(squares[..]), squares[..])
    {
      ghost var s0 := squares[..];
      var k := Idx(numW, numH, x, y);
      squares[k] := WithSide(squares[k], d, s);
      assert squares[..] == s0[k := WithSide(s0[k], d, s)];
      forall a, b | InGrid(numW, numH, a, b)
        ensures At(squares[..], numW, numH, a, b) ==
          if a == x && b == y then WithSide(At(s0, numW, numH, a, b), d, s) else At(s0, numW, numH, a, b)
      {
        AtUpdate(s0, numW, numH, x, y, WithSide(s0[k], d, s), a, b);
      }
    }
  
    /** The four setVertWall / setHorizWall calls with which update and
        applyAi make sure the outer wall stands: every square on the edge
        gets its outer side walled, nothing else changes. */
    method ReassertBorders()
      requires GridValid()
      modifies squares
      ensures BorderedFrom(old(squares[..]), squares[..], numW, numH)
      ensures Borders(squares[..], numW, numH) && WallsRaisedOnly(old(squares[..]), squares[..])
      ensures old(Mirrored(squares[..], numW, numH)) ==> Mirrored(squares[..], numW, numH)
    {
      ghost var s0 := squares[..];
      SetVertWall(0);
      SetVertWall(numW);
      SetHorizWall(0);
      SetHorizWall(numH);
      BorderedFacts(s0, squares[..], numW, numH);
    }

    // -------------------------------------------------------------------
    // Path plotting

    /** The distance plot applyAi makes toward the square (wx, wy): a fresh
        array holding 0 there and -1 elsewhere, which aStarPlot then spreads.
        Each entry ends up as the length of a shortest path from (wx, wy)
        through open walls, and -1 exactly where no path leads. */
    method PlotFrom(wx: int, wy: int) returns (values: array<int>)
      requires GridValid() && InGrid(numW, numH, wx, wy)
      ensures fresh(values) && values.Length == numW * numH
      ensures forall x, y :: InGrid(numW, numH, x, y) ==>
        Floods.IsDistance(squares[..], numW, numH, (wx, wy), x, y, values[Idx(numW, numH, x, y)])
    {
      values := new int[numW * numH];
      var i := 0;
      while i < numW * numH
        invariant 0 <= i <= numW * numH
        invariant forall k :: 0 <= k < i ==> values[k] == -1
      {
        values[i] := -1;
        i := i + 1;
      }
      values[Idx(numW, numH, wx, wy)] := 0;
      ghost var v0 := values[..];
      Floods.InitialOf(v0, numW, numH, (wx, wy));
      Floods.InitialSupported(squares[..], v0, numW, numH, (wx, wy));
      AStarPlot(values, wx, wy, (wx, wy), []);
      Floods.PlotComplete(squares[..], v0, values[..], numW, numH, (wx, wy));
    }

    /** aStarPlot(values, x, y): from a plotted square, relax its four sides
        in the order up, left, down, right.  `src` is where the plot started
        and `stack` holds the squares whose frames are still open below this
        one; both are ghost.  The values only improve, they stay lengths of
        real paths from `src`, squares that were settled or changed are
        settled afterwards, and so is (x, y). */
    method AStarPlot(values: array<int>, x: int, y: int, ghost src: (int, int), ghost stack: seq<int>)
      requires GridValid() && values.Length == numW * numH && InGrid(numW, numH, x, y)
      requires Floods.Supported(squares[..], values[..], numW, numH, src)
      requires Floods.Distinct(stack) && Floods.StackBelow(values[..], stack, values[Idx(numW, numH, x, y)])
      modifies values
      decreases numW * numH - |stack|, 1
      ensures Floods.Improved(old(values[..]), values[..])
      ensures Floods.SettledKept(squares[..], old(values[..]), values[..], numW, numH)
      ensures Floods.Supported(squares[..], values[..], numW, numH, src)
      ensures Floods.Settled(squares[..], values[..], numW, numH, x, y)
    {
      var curr := values[Idx(numW, numH, x, y)];
      if curr == -1 {
        return;
      }
      ghost var ws := squares[..];
      Floods.TopNotInStack(values[..], stack, Idx(numW, numH, x, y));
      ghost var v0 := values[..];
      Relax(values, x, y, Up, curr, src, stack);
      ghost var v1 := values[..];
      Relax(values, x, y, Left, curr, src, stack);
      ghost var v2 := values[..];
      Relax(values, x, y, Down, curr, src, stack);
      ghost var v3 := values[..];
      Relax(values, x, y, Right, curr, src, stack);
      ghost var v4 := values[..];
      Floods.SettledKeptTrans(ws, v0, v1, v2, numW, numH);
      Floods.SettledKeptTrans(ws, v0, v2, v3, numW, numH);
      Floods.SettledKeptTrans(ws, v0, v3, v4, numW, numH);
      Floods.ImprovedTrans(v0, v1, v2);
      Floods.ImprovedTrans(v0, v2, v3);
      Floods.ImprovedTrans(v0, v3, v4);
      Floods.FrameSettled(ws, v0, v1, v2, v3, v4, numW, numH, x, y);
    }

    /** One of aStarPlot's four recursions: when side d of (x, y) is open and
        the square behind it is unplotted or more than curr + 1 away, write
        curr + 1 there and plot from it.  Afterwards that square, if the
        side is open, holds at most curr + 1. */
    method Relax(values: array<int>, x: int, y: int, d: MazeDirection, curr: int,
                 ghost src: (int, int), ghost stack: seq<int>)
      requires GridValid() && values.Length == numW * numH && InGrid(numW, numH, x, y)
      requires Floods.Supported(squares[..], values[..], numW, numH, src)
      requires curr >= 0 && Path(squares[..], numW, numH, src, {}, x, y, curr)
      requires values[Idx(numW, numH, x, y)] != -1 && values[Idx(numW, numH, x, y)] <= curr
      requires Floods.Distinct(stack) && Idx(numW, numH, x, y) !in stack
      requires Floods.StackBelow(values[..], stack, curr)
      modifies values
      decreases numW * numH - |stack|, 0
      ensures Floods.Improved(old(values[..]), values[..])
      ensures Floods.SettledKept(squares[..], old(values[..]), values[..], numW, numH)
      ensures Floods.Supported(squares[..], values[..], numW, numH, src)
      ensures values[Idx(numW, numH, x, y)] != -1 && values[Idx(numW, numH, x, y)] <= curr
      ensures Floods.StackBelow(values[..], stack, curr)
      ensures Open(squares[..], numW, numH, x, y, d) ==>
        var n := Idx(numW, numH, StepX(x, d), StepY(y, d));
        values[n] != -1 && values[n] <= curr + 1
    {
      if Open(squares[..], numW, numH, x, y, d) {
        var nx, ny := StepX(x, d), StepY(y, d);
        var n := Idx(numW, numH, nx, ny);
        if values[n] > curr + 1 || values[n] == -1 {
          ghost var ws := squares[..];
          ghost var v := values[..];
          ghost var me := Idx(numW, numH, x, y);
          Floods.StackPush(v, stack, me, curr, n);
          Floods.DistinctBounded(stack + [me], numW * numH);
          PathStep(ws, numW, numH, src, {}, x, y, d, curr);
          Floods.SupportedWrite(ws, v, numW, numH, src, nx, ny, curr + 1);
          values[n] := curr + 1;
          assert values[..] == v[n := curr + 1];
          AStarPlot(values, nx, ny, src, stack + [me]);
          Floods.WriteThenSettle(ws, v, values[..], numW, numH, nx, ny, curr + 1);
          Floods.StackBelowImproved(v, values[..], stack, curr, curr);
          Floods.Lowered(v, values[..], me, curr);
          Floods.Lowered(v[n := curr + 1], values[..], n, curr + 1);
        }
      }
    }

    // -------------------------------------------------------------------
    // Turning

    /** The pixel centre of the square an actor stands on. */
    function CentreX(a: Actor): (p: real)
      requires numW >= 0
      reads this, a.sprite
      ensures p == MazeToScreen(CellX(a), dx) as real
    {
      MazeX2ScreenX(CellX(a)) as real
    }

    function CentreY(a: Actor): (p: real)
      requires numH >= 0
      reads this, a.sprite
      ensures p == MazeToScreen(CellY(a), dy) as real
    {
      MazeToScreen(CellY(a), dy) as real
    }

    /** The square an actor on the grid stands on. */
    function SquareOf(a: Actor): (q: Square)
      requires GridValid() && OnGrid(a)
      reads this, a.sprite, squares
      ensures q == At(squares[..], numW, numH, CellX(a), CellY(a))
    {
      squares[Idx(numW, numH, CellX(a), CellY(a))]
    }

    /** turnActor(actor, direction): unless the actor already heads that way,
        face it toward `direction` and give it the actor's speed along that
        axis, or stop it when the turn is blocked (more than a quarter square
        off the new axis, or a wall ahead already reached); a moving actor
        is then put back on the centre line of its square. */
    method TurnActor(actor: Actor, direction: MazeDirection)
      requires GridValid() && OnGrid(actor)
      modifies actor.sprite
      ensures PoseOf(actor.sprite) ==
        Turned(old(PoseOf(actor.sprite)), direction, old(SquareOf(actor)), old(CentreX(actor)), old(CentreY(actor)), actor.velocity)
      ensures actor.sprite.kind == old(actor.sprite.kind) && actor.sprite.timeSeed == old(actor.sprite.timeSeed)
    {
      var mazeX := CellX(actor);
      var mazeY := CellY(actor);
      var cellX := MazeX2ScreenX(mazeX) as real;
      var cellY := MazeToScreen(mazeY, dy) as real;
      var currentSquare := squares[Idx(numW, numH, mazeX, mazeY)];
      var currDir := Heading(actor.sprite.xVel, actor.sprite.yVel);
      if direction == currDir {
        return;
      }
      var invalidTurn := OffAxis(direction, actor.sprite.x.value, actor.sprite.y.value, cellX, cellY);
      match direction {
        case Up =>
          actor.sprite.SetState(SsUp2);
          actor.sprite.SetVelX(0.0);
          actor.sprite.SetVelY(if invalidTurn || (currentSquare.wallUp && actor.sprite.y.value >= cellY) then 0.0 else actor.velocity);
        case Left =>
          actor.sprite.SetState(SsLeft2);
          actor.sprite.SetVelX(if invalidTurn || (currentSquare.wallLeft && actor.sprite.x.value <= cellX) then 0.0 else -actor.velocity);
          actor.sprite.SetVelY(0.0);
        case Down =>
          actor.sprite.SetState(SsDown2);
          actor.sprite.SetVelX(0.0);
          actor.sprite.SetVelY(if invalidTurn || (currentSquare.wallDown && actor.sprite.y.value <= cellY) then 0.0 else -actor.velocity);
        case Right =>
          actor.sprite.SetState(SsRight2);
          actor.sprite.SetVelX(if invalidTurn || (currentSquare.wallRight && actor.sprite.x.value >= cellX) then 0.0 else actor.velocity);
          actor.sprite.SetVelY(0.0);
        case None =>
          actor.sprite.SetState(SsNa);
          actor.sprite.SetVelX(0.0);
          actor.sprite.SetVelY(0.0);
      }
      if actor.sprite.xVel == 0.0 && actor.sprite.yVel != 0.0 {
        actor.sprite.SetX(cellX);
      }
      if actor.sprite.yVel == 0.0 && actor.sprite.xVel != 0.0 {
        actor.sprite.SetY(cellY);
      }
    }

    // -------------------------------------------------------------------
    // Waypoints

    /** What applyAi looks at when it picks actor's waypoint. */
    ghost function ViewOf(actor: Actor): (v: Waypoints.View)
      requires GridValid() && items.Length == numW * numH
      reads this, actor, actor.sprite, items, pacman.sprite, blinky, pinky, inky, clyde
      reads blinky.sprite, pinky.sprite, inky.sprite, clyde.sprite
      ensures OnGrid(actor) ==> Waypoints.WellFormed(v)
    {
      Waypoints.View(numW, numH, (CellX(actor), CellY(actor)), (actor.wayX, actor.wayY), actor != pacman,
        (CellX(pacman), CellY(pacman)),
        [(CellX(blinky), CellY(blinky)), (CellX(pinky), CellY(pinky)), (CellX(inky), CellY(inky)), (CellX(clyde), CellY(clyde))],
        [blinky.isAlive, pinky.isAlive, inky.isAlive, clyde.isAlive],
        Eaten(items[..]))
    }

    /** The scan of squares before index n has kept the uneaten item
        FirstNearest settles on, and `best` is its distance (numW + numH
        while there is none). */
    ghost predicate Scanned(e: seq<bool>, cx: int, cy: int, found: bool, tx: int, ty: int, best: int, n: int)
      requires GridValid() && |e| == numW * numH
      reads this
    {
      && 0 <= n <= |e| && (n > 0 ==> numH > 0)
      && (found ==> InGrid(numW, numH, tx, ty))
      && (if found then Idx(numW, numH, tx, ty) else -1) ==
           Waypoints.FirstNearest(e, numH, (cx, cy), numW + numH, n)
      && best == (if found then Steering.SqDist(cx, cy, tx, ty) else numW + numH)
    }

    /** The greedy search of applyAi: scan the squares column by column for
        the uneaten item nearest to (cx, cy), keeping the first of equally
        near ones and only those nearer than numW + numH. */
    method SeekItem(cx: int, cy: int) returns (found: bool, tx: int, ty: int)
      requires GridValid() && items.Length == numW * numH
      ensures found ==> InGrid(numW, numH, tx, ty)
      ensures (if found then Idx(numW, numH, tx, ty) else -1) ==
        Waypoints.FirstNearest(Eaten(items[..]), numH, (cx, cy), numW + numH, items.Length)
      ensures Waypoints.NearestItem(Eaten(items[..]), numH, (cx, cy), numW + numH, items.Length,
        if found then Idx(numW, numH, tx, ty) else -1)
    {
      found, tx, ty := false, 0, 0;
      var best := numW + numH;
      var i := 0;
      while i < numW
        invariant 0 <= i <= numW
        invariant Scanned(Eaten(items[..]), cx, cy, found, tx, ty, best, i * numH)
      {
        MulMono(i + 1, numW, numH);
        found, tx, ty, best := ScanColumn(cx, cy, i, found, tx, ty, best);
        i := i + 1;
      }
      Waypoints.FirstNearestIsNearest(Eaten(items[..]), numH, (cx, cy), numW + numH, items.Length);
    }

    /** The inner loop of the greedy search, over column i. */
    method ScanColumn(cx: int, cy: int, i: int, found0: bool, tx0: int, ty0: int, best0: int)
      returns (found: bool, tx: int, ty: int, best: int)
      requires GridValid() && items.Length == numW * numH && 0 <= i < numW && (i + 1) * numH <= numW * numH
      requires Scanned(Eaten(items[..]), cx, cy, found0, tx0, ty0, best0, i * numH)
      ensures Scanned(Eaten(items[..]), cx, cy, found, tx, ty, best, (i + 1) * numH)
    {
      found, tx, ty, best := found0, tx0, ty0, best0;
      ghost var base := i * numH;
      assert (i + 1) * numH == base + numH;
      var j := 0;
      while j < numH
        invariant 0 <= j <= numH
        invariant Scanned(Eaten(items[..]), cx, cy, found, tx, ty, best, base + j)
      {
        found, tx, ty, best := ScanSquare(cx, cy, i, j, found, tx, ty, best);
        j := j + 1;
      }
    }

    /** The body of the inner loop: square (i, j) replaces the one kept so
        far when its item is uneaten and strictly nearer. */
    method ScanSquare(cx: int, cy: int, i: int, j: int, found0: bool, tx0: int, ty0: int, best0: int)
      returns (found: bool, tx: int, ty: int, best: int)
      requires GridValid() && items.Length == numW * numH && InGrid(numW, numH, i, j)
      requires Scanned(Eaten(items[..]), cx, cy, found0, tx0, ty0, best0, Idx(numW, numH, i, j))
      ensures Scanned(Eaten(items[..]), cx, cy, found, tx, ty, best, Idx(numW, numH, i, j) + 1)
    {
      found, tx, ty, best := found0, tx0, ty0, best0;
      var k := Idx(numW, numH, i, j);
      ghost var e := Eaten(items[..]);
      assert e[k] == items[k].isConsumed;
      ScanStep(e, numW, numH, cx, cy, found, tx, ty, best, i, j);
      var distanceToHere := Steering.SqDist(cx, cy, i, j);
      if !items[k].isConsumed && distanceToHere < best {
        found, tx, ty, best := true, i, j, distanceToHere;
      }
    }

    /** One square of the greedy scan: square (i, j) is kept exactly when
        FirstNearest moves to it. */
    static lemma ScanStep(e: seq<bool>, w: int, h: int, cx: int, cy: int, found: bool, tx: int, ty: int, best: int, i: int, j: int)
      requires InGrid(w, h, i, j) && |e| == w * h
      requires found ==> InGrid(w, h, tx, ty)
      requires (if found then Idx(w, h, tx, ty) else -1) == Waypoints.FirstNearest(e, h, (cx, cy), w + h, Idx(w, h, i, j))
      requires best == (if found then Steering.SqDist(cx, cy, tx, ty) else w + h)
      ensures var take := !e[Idx(w, h, i, j)] && Steering.SqDist(cx, cy, i, j) < best;
        (if take then Idx(w, h, i, j) else if found then Idx(w, h, tx, ty) else -1) ==
          Waypoints.FirstNearest(e, h, (cx, cy), w + h, Idx(w, h, i, j) + 1)
    {
      Waypoints.DivModIdx(h, i, j);
      if found {
        Waypoints.DivModIdx(h, tx, ty);
      }
    }

    /** The squared distance from ghost g to (cx, cy); hunting, a dead ghost
        counts as numW * numH. */
    function GhostDistance(g: Actor, cx: int, cy: int, hunting: bool): int
      requires GridValid()
      reads this, g, g.sprite
    {
      if hunting && !g.isAlive then numW * numH else Steering.SqDist(CellX(g), CellY(g), cx, cy)
    }

    /** The switch on the AI mode in applyAi: set actor's waypoint.  An
        actor without AI aims at its own square; an avoiding one, on
        reaching its waypoint, aims at the reflection of its square in its
        pursuer's (Pacman for a ghost, the nearest ghost for Pacman); a
        homicidal ghost aims at Pacman and a homicidal Pacman at the nearest
        live ghost; a greedy actor, on reaching its waypoint or without one,
        aims at the nearest uneaten item or at (0, 0); a random one then
        rolls a fresh square. */
    method ChooseWaypoint(actor: Actor)
      requires Valid() && OnGrid(actor)
      modifies actor, die
      ensures (actor.wayX, actor.wayY) == Waypoints.Aim(old(actor.mode), old(ViewOf(actor)), old(die.draws))
      ensures die.Valid() && die.draws == Dice.Drop(old(die.draws), Waypoints.AimDraws(old(actor.mode), old(ViewOf(actor))))
      ensures die.exhausted == (old(die.exhausted) || |old(die.draws)| < Waypoints.AimDraws(old(actor.mode), old(ViewOf(actor))))
      ensures actor.velocity == old(actor.velocity) && actor.isAlive == old(actor.isAlive)
      ensures actor.isSelected == old(actor.isSelected) && actor.isScared == old(actor.isScared)
      ensures actor.level == old(actor.level) && actor.mode == old(actor.mode)
      ensures actor.abilityTriggered == old(actor.abilityTriggered)
    {
      ghost var v := ViewOf(actor);
      var cx, cy := CellX(actor), CellY(actor);
      var atWaypoint := cx == actor.wayX && cy == actor.wayY;
      var unset := actor.wayX == -1 || actor.wayY == -1;
      var x, y := actor.wayX, actor.wayY;
      match actor.mode {
        case AiNone =>
          x, y := cx, cy;
        case AiAvoid =>
          if atWaypoint {
            x, y := FleeTarget(actor);
          }
        case AiHomicidal =>
          x, y := ChaseTarget(actor);
        case AiGreedy =>
          if atWaypoint || unset {
            x, y := GreedyTarget(actor);
          }
        case AiRandom =>
          if atWaypoint || unset {
            x, y := RandomTarget();
          }
      }
      actor.SetWaypoint(x, y);
    }

    /** Where a random actor goes: a new Dice (one draw), then a roll for
        each coordinate. */
    method RandomTarget() returns (x: int, y: int)
      requires die.Valid() && numW > 0 && numH > 0
      modifies die
      ensures die.Valid() && die.draws == Dice.Drop(old(die.draws), 3)
      ensures die.exhausted == (old(die.exhausted) || |old(die.draws)| < 3)
      ensures x == Dice.RollIntOf(numW, Dice.Head(Dice.Drop(old(die.draws), 1)))
      ensures y == Dice.RollIntOf(numH, Dice.Head(Dice.Drop(old(die.draws), 2)))
    {
      ghost var d0 := die.draws;
      die.Restart();
      x := die.RollInt(numW);
      y := die.RollInt(numH);
      Dice.DropDrop(d0, 1, 1);
      Dice.DropDrop(d0, 2, 1);
    }

    /** Where an avoiding actor that has reached its waypoint goes: the
        reflection of its square in its pursuer's, clamped into the grid. */
    method FleeTarget(actor: Actor) returns (x: int, y: int)
      requires Valid() && OnGrid(actor)
      ensures (x, y) == Waypoints.Flee(ViewOf(actor))
    {
      ghost var v := ViewOf(actor);
      var cx, cy := CellX(actor), CellY(actor);
      assert v.me == (cx, cy) && v.w == numW && v.h == numH;
      var fx, fy := Opponent(actor, false);
      Waypoints.FleeBy(v, cx, cy, fx, fy);
      x, y := Steering.Clamp(2 * cx - fx, numW), Steering.Clamp(2 * cy - fy, numH);
    }

    /** Where a homicidal actor goes: Pacman's square for a ghost, the
        nearest live ghost's for Pacman, clamped into the grid. */
    method ChaseTarget(actor: Actor) returns (x: int, y: int)
      requires Valid() && OnGrid(actor)
      ensures (x, y) == Waypoints.Aim(AiHomicidal, ViewOf(actor), die.draws)
    {
      var destX, destY := Opponent(actor, true);
      x, y := Steering.Clamp(destX, numW), Steering.Clamp(destY, numH);
    }

    /** The square an AI steers by: Pacman's for a ghost; for Pacman the
        nearest ghost's, counting only live ghosts when hunting. */
    method Opponent(actor: Actor, hunting: bool) returns (fx: int, fy: int)
      requires Valid() && OnGrid(actor)
      ensures (fx, fy) == Waypoints.Opponent(ViewOf(actor), hunting)
    {
      ghost var v := ViewOf(actor);
      if actor != pacman {
        fx, fy := CellX(pacman), CellY(pacman);
        assert (fx, fy) == v.pac;
      } else {
        var cx, cy := CellX(actor), CellY(actor);
        var k := Steering.Nearest([GhostDistance(blinky, cx, cy, hunting), GhostDistance(pinky, cx, cy, hunting),
                                   GhostDistance(inky, cx, cy, hunting), GhostDistance(clyde, cx, cy, hunting)]);
        assert k == Waypoints.Quarry(v, hunting);
        var other := ActorByType(k + 1);
        fx, fy := CellX(other), CellY(other);
        assert (fx, fy) == v.ghosts[k];
      }
    }

    /** Where a greedy actor goes: the square of the nearest uneaten item,
        or (0, 0) when none is nearer than numW + numH. */
    method GreedyTarget(actor: Actor) returns (x: int, y: int)
      requires Valid() && OnGrid(actor)
      ensures Waypoints.Reached(ViewOf(actor)) || Waypoints.Unset(ViewOf(actor)) ==>
        (x, y) == Waypoints.Aim(AiGreedy, ViewOf(actor), die.draws)
    {
      ghost var v := ViewOf(actor);
      assert v.eaten == Eaten(items[..]) && v.me == (CellX(actor), CellY(actor)) && v.w == numW && v.h == numH;
      var found, tx, ty := SeekItem(CellX(actor), CellY(actor));
      ghost var k := Waypoints.FirstNearest(v.eaten, v.h, v.me, v.w + v.h, |v.eaten|);
      assert k == if found then Idx(numW, numH, tx, ty) else -1;
      if found {
        Waypoints.DivModIdx(numH, tx, ty);
        assert k / v.h == tx && k % v.h == ty;
        x, y := tx, ty;
      } else {
        x, y := 0, 0;
      }
    }

    // -------------------------------------------------------------------
    // The AI step

    /** The actor is still moving into its square, short of the centre. */
    predicate InTransit(actor: Actor)
      requires GridValid()
      reads this, actor.sprite
    {
      ShortOfCentre(Heading(actor.sprite.xVel, actor.sprite.yVel), actor.sprite.x.value, actor.sprite.y.value,
                    CentreX(actor), CentreY(actor))
    }

    /** applyAi(actor): raise the outer wall; unless the actor is still
        short of the centre of its square, steer it toward its waypoint. */
    method ApplyAi(actor: Actor) returns (turn: MazeDirection, ghost plot: seq<int>)
      requires Valid() && OnGrid(actor) && Waypoints.Ready(actor.mode, ViewOf(actor))
      modifies squares, actor, actor.sprite, die
      ensures Valid()
      ensures BorderedFrom(old(squares[..]), squares[..], numW, numH)
      ensures AiStep(Geometry(), squares[..], old(StatusOf(actor)), StatusOf(actor), die.draws, die.exhausted, turn, plot, old(ViewOf(actor)),
                     old(die.draws), old(die.exhausted), old(CentreX(actor)), old(CentreY(actor)))
    {
      ReassertBorders();
      assert unchanged(this, die, actor, actor.sprite, pacman.sprite, blinky, pinky, inky, clyde);
      assert unchanged(blinky.sprite, pinky.sprite, inky.sprite, clyde.sprite);
      assert unchanged(items);
      assert Valid() && ViewOf(actor) == old(ViewOf(actor));
      assert PoseOf(actor.sprite) == old(PoseOf(actor.sprite));
      assert CentreX(actor) == old(CentreX(actor)) && CentreY(actor) == old(CentreY(actor));
      assert InTransit(actor) == old(InTransit(actor));
      turn, plot := SteerUnlessInTransit(actor);
    }

    /** applyAi after the outer wall is raised. */
    method SteerUnlessInTransit(actor: Actor) returns (turn: MazeDirection, ghost plot: seq<int>)
      requires Valid() && OnGrid(actor) && Waypoints.Ready(actor.mode, ViewOf(actor))
      modifies actor, actor.sprite, die
      ensures Valid()
      ensures old(InTransit(actor)) ==> turn == None && unchanged(actor, actor.sprite, die)
      ensures !old(InTransit(actor)) ==> Steered(actor, turn, plot, old(ViewOf(actor)), old(actor.mode),
        old(die.draws), old(die.exhausted), old(PoseOf(actor.sprite)), old(CentreX(actor)), old(CentreY(actor)))
      ensures actor.mode == old(actor.mode) && actor.isAlive == old(actor.isAlive) && actor.velocity == old(actor.velocity)
      ensures actor.isScared == old(actor.isScared) && actor.isSelected == old(actor.isSelected)
      ensures actor.level == old(actor.level) && actor.abilityTriggered == old(actor.abilityTriggered)
      ensures actor.sprite.kind == old(actor.sprite.kind) && actor.sprite.timeSeed == old(actor.sprite.timeSeed)
    {
      turn, plot := None, [];
      if InTransit(actor) {
        return;
      }
      turn, plot := Steer(actor);
    }

    /** The outcome of steering an actor that stood on square v.me with
        pose p and centre (cx, cy), in mode m with `draws` to come: its
        waypoint is the one Aim picks, the dice gave up the draws that took,
        plot holds the path distance from the waypoint to every square, the
        turn is the one SteerOf picks from the plot, and the actor's pose is
        what turnActor makes of that turn. */
    ghost predicate Steered(actor: Actor, turn: MazeDirection, plot: seq<int>, v: Waypoints.View, m: AiObjective,
                            draws: seq<int>, exhausted: bool, p: Pose, cx: real, cy: real)
      requires GridValid()
      reads this, actor, actor.sprite, die, squares
    {
      SteersTo(Geometry(), squares[..], StatusOf(actor), die.draws, die.exhausted, turn, plot, v, m, draws, exhausted, p, cx, cy)
    }

    /** The part of applyAi after the transit test. */
    method Steer(actor: Actor) returns (turn: MazeDirection, ghost plot: seq<int>)
      requires Valid() && OnGrid(actor) && Waypoints.Ready(actor.mode, ViewOf(actor))
      modifies actor, actor.sprite, die
      ensures Valid()
      ensures Steered(actor, turn, plot, old(ViewOf(actor)), old(actor.mode),
        old(die.draws), old(die.exhausted), old(PoseOf(actor.sprite)), old(CentreX(actor)), old(CentreY(actor)))
      ensures actor.mode == old(actor.mode) && actor.isAlive == old(actor.isAlive) && actor.velocity == old(actor.velocity)
      ensures actor.isScared == old(actor.isScared) && actor.isSelected == old(actor.isSelected)
      ensures actor.level == old(actor.level) && actor.abilityTriggered == old(actor.abilityTriggered)
      ensures actor.sprite.kind == old(actor.sprite.kind) && actor.sprite.timeSeed == old(actor.sprite.timeSeed)
    {
      ghost var v := ViewOf(actor);
      Waypoints.AimInGrid(actor.mode, v, die.draws);
      ChooseWaypoint(actor);
      turn, plot := TurnToWaypoint(actor);
      ghost var r := StatusOf(actor);
      assert r.way == (actor.wayX, actor.wayY) && r.velocity == actor.velocity && r.pose == PoseOf(actor.sprite);
    }

    /** The end of applyAi: plot the path distances from the waypoint and
        turn toward the open side that is closest to it. */
    method TurnToWaypoint(actor: Actor) returns (turn: MazeDirection, ghost plot: seq<int>)
      requires GridValid() && OnGrid(actor) && InGrid(numW, numH, actor.wayX, actor.wayY)
      modifies actor.sprite
      ensures |plot| == numW * numH
      ensures forall x, y :: InGrid(numW, numH, x, y) ==>
        Floods.IsDistance(squares[..], numW, numH, (actor.wayX, actor.wayY), x, y, plot[Idx(numW, numH, x, y)])
      ensures turn == Steering.SteerOf(plot, squares[..], numW, numH, old(CellX(actor)), old(CellY(actor)), actor.wayX, actor.wayY)
      ensures PoseOf(actor.sprite) == (if turn == None then old(PoseOf(actor.sprite))
        else Turned(old(PoseOf(actor.sprite)), turn, old(SquareOf(actor)), old(CentreX(actor)), old(CentreY(actor)), actor.velocity))
      ensures actor.sprite.kind == old(actor.sprite.kind) && actor.sprite.timeSeed == old(actor.sprite.timeSeed)
    {
      var cx, cy := CellX(actor), CellY(actor);
      var values := PlotFrom(actor.wayX, actor.wayY);
      plot := values[..];
      turn := Steering.SteerOf(values[..], squares[..], numW, numH, cx, cy, actor.wayX, actor.wayY);
      if turn != None {
        TurnActor(actor, turn);
      }
    }

    // -------------------------------------------------------------------
    // The frame update

    /** update's "fully entered" test for an actor in its square. */
    predicate Entered(a: Actor)
      requires numW >= 0 && numH >= 0
      reads this, a.sprite
    {
      FullyEntered(a.sprite.xVel, a.sprite.yVel, a.sprite.x.value, a.sprite.y.value, CentreX(a), CentreY(a))
    }

    /** The wall stop and the alignment of update: an actor fully entered
        toward a wall of its square stops on the centre of that axis, and
        one moving along an axis is put on its centre line; it stays on its
        square. */
    method MoveInSquare(actor: Actor)
      requires GridValid() && OnGrid(actor)
      modifies actor.sprite
      ensures PoseOf(actor.sprite) == Aligned(Stopped(old(PoseOf(actor.sprite)), old(SquareOf(actor)), old(Entered(actor)),
                                                     old(CentreX(actor)), old(CentreY(actor))),
                                             old(CentreX(actor)), old(CentreY(actor)))
      ensures actor.sprite.timeSeed == old(actor.sprite.timeSeed) && actor.sprite.kind == old(actor.sprite.kind)
      ensures CellX(actor) == old(CellX(actor)) && CellY(actor) == old(CellY(actor))
    {
      var mx, my := CellX(actor), CellY(actor);
      var cx, cy := MazeX2ScreenX(mx), MazeToScreen(my, dy);
      var fe := Entered(actor);
      var cell := squares[Idx(numW, numH, mx, my)];
      if cell.wallUp && actor.sprite.yVel > 0.0 && fe {
        actor.sprite.SetVelY(0.0);
        actor.sprite.SetY(cy as real);
      } else if cell.wallLeft && actor.sprite.xVel < 0.0 && fe {
        actor.sprite.SetVelX(0.0);
        actor.sprite.SetX(cx as real);
      } else if cell.wallDown && actor.sprite.yVel < 0.0 && fe {
        actor.sprite.SetVelY(0.0);
        actor.sprite.SetY(cy as real);
      } else if cell.wallRight && actor.sprite.xVel > 0.0 && fe {
        actor.sprite.SetVelX(0.0);
        actor.sprite.SetX(cx as real);
      }
      if actor.sprite.xVel != 0.0 && actor.sprite.yVel == 0.0 {
        actor.sprite.SetY(cy as real);
      } else if actor.sprite.yVel != 0.0 && actor.sprite.xVel == 0.0 {
        actor.sprite.SetX(cx as real);
      }
      CentredCell(mx, dx, numW);
      CentredCell(my, dy, numH);
    }

    // -------------------------------------------------------------------
    // The frame as a scene

    /** The five actors in the order of their sprite types. */
    ghost function Roster(): (cs: seq<Status>)
      reads pacman, blinky, pinky, inky, clyde
      reads pacman.sprite, blinky.sprite, pinky.sprite, inky.sprite, clyde.sprite
      ensures |cs| == 5
    {
      [StatusOf(pacman), StatusOf(blinky), StatusOf(pinky), StatusOf(inky), StatusOf(clyde)]
    }

    /** The actor of sprite type t is the t-th of the roster. */
    lemma RosterAt(t: int)
      requires 0 <= t < 5
      ensures Roster()[t] == StatusOf(ActorByType(t))
    {
    }

    /** Everything a frame of update can change, as a value. */
    ghost function World(): (w: Scene)
      reads this, squares, items, soundFlags, die, pacman, blinky, pinky, inky, clyde
      reads pacman.sprite, blinky.sprite, pinky.sprite, inky.sprite, clyde.sprite
      ensures |w.actors| == 5 && |w.sounds| == soundFlags.Length && |w.stock| == items.Length && |w.grid| == squares.Length
    {
      Scene(Roster(), soundFlags[..], items[..], squares[..], die.draws, die.exhausted, lastVulnerability)
    }

    /** The maze's dimensions and screen offsets. */
    ghost function Geometry(): (l: Layout)
      reads this
      ensures l.w == numW && l.h == numH && l.dx == dx && l.dy == dy
    {
      Layout(numW, numH, dx, dy)
    }

    // -------------------------------------------------------------------
    // The steps of a frame, on the maze

    /** The scene's view of actor t is its own. */
    lemma RosterOnGrid(t: int)
      requires GridValid() && 0 <= t < 5
      ensures CellOf(Geometry(), Roster()[t].pose) == (CellX(ActorByType(t)), CellY(ActorByType(t)))
      ensures Inside(Geometry(), Roster()[t].pose) == OnGrid(ActorByType(t))
    {
      RosterAt(t);
    }

    /** The wall stop and the alignment for actor i. */
    method PlaceActor(i: int)
      requires GridValid() && ActorsValid() && 0 <= i < 5 && Inside(Geometry(), Roster()[i].pose)
      modifies ActorByType(i).sprite
      ensures ActorsValid()
      ensures Roster() == Settled(Geometry(), squares[..], old(Roster()), i)
    {
      Separated();
      RosterOnGrid(i);
      MoveInSquare(ActorByType(i));
      RosterStep(i);
    }

    /** vActor::update(dt) for actor i. */
    method MoveActor(i: int, dt: real)
      requires ActorsValid() && 0 <= i < 5
      modifies ActorByType(i).sprite
      ensures ActorsValid()
      ensures Roster() == old(Roster())[i := Moved(old(Roster()[i]), dt)]
    {
      Separated();
      RosterAt(i);
      Advance(ActorByType(i), dt);
      RosterStep(i);
    }

    /** update's collision test for ghost i: when its truncated position is
        within 8 pixels of Pacman's `pac` on both axes, a scared ghost dies
        and is reset to level 0 (flag 6), and any other one kills Pacman
        (flag 7). */
    method Collide(i: int, pac: Sighting)
      requires ActorsValid() && soundFlags.Length == NumEffects && 1 <= i < 5 && Roster()[i].alive
      modifies ActorByType(i), pacman, soundFlags
      ensures Roster() == Collided(old(Roster()), i, pac)
      ensures soundFlags[..] == MeetingSounds(old(soundFlags[..]), old(Roster()[i]), pac)
    {
      RosterAt(i);
      CollidedCases(Roster(), soundFlags[..], i, pac);
      var g := ActorByType(i);
      if pac.Seen? && Touching(Trunc(g.sprite.x.value), Trunc(g.sprite.y.value), pac.px, pac.py) {
        if g.isScared {
          GhostEaten(i);
        } else {
          PacmanKilled();
        }
      }
    }

    /** A scared ghost that meets Pacman: flag 6, setLife(false), reset();
        these setters, like the others of update's steps below, are written
        as the field updates they are. */
    method GhostEaten(i: int)
      requires ActorsValid() && soundFlags.Length == NumEffects && 1 <= i < 5
      modifies ActorByType(i), soundFlags
      ensures Roster() == old(Roster())[i := old(Roster()[i]).(alive := false, level := 0)]
      ensures soundFlags[..] == old(soundFlags[..])[6 := true]
    {
      Separated();
      RosterAt(i);
      var g := ActorByType(i);
      soundFlags[6] := true;
      g.isAlive := false;
      g.level := 0;
      RosterStep(i);
    }

    /** After a step that left every actor but the i-th as it was, the
        roster differs at i at most. */
    twostate lemma RosterStep(i: int)
      requires old(ActorsValid()) && 0 <= i < 5
      requires i != 0 ==> unchanged(pacman, pacman.sprite)
      requires i != 1 ==> unchanged(blinky, blinky.sprite)
      requires i != 2 ==> unchanged(pinky, pinky.sprite)
      requires i != 3 ==> unchanged(inky, inky.sprite)
      requires i != 4 ==> unchanged(clyde, clyde.sprite)
      ensures Roster() == old(Roster())[i := StatusOf(ActorByType(i))]
    {
    }

    /** A ghost that meets Pacman unscared: flag 7 and Pacman's death. */
    method PacmanKilled()
      requires ActorsValid() && soundFlags.Length == NumEffects
      modifies pacman, soundFlags
      ensures Roster() == old(Roster())[0 := old(Roster()[0]).(alive := false)]
      ensures soundFlags[..] == old(soundFlags[..])[7 := true]
    {
      Separated();
      soundFlags[7] := true;
      pacman.isAlive := false;
      RosterStep(0);
    }

    /** One ghost's turn in update's loop from the scene w, as GhostFrame
        says. */
    method GhostTurn(i: int, pac: Sighting, dt: real, ghost l: Layout, ghost w: Scene)
      requires l == Geometry() && w == World()
      requires Valid() && 1 <= i < 5 && w.actors[i].alive && Inside(l, w.actors[i].pose)
      modifies ActorByType(i), ActorByType(i).sprite, pacman, soundFlags
      ensures Valid()
      ensures World() == GhostFrame(l, w, i, pac, dt)
    {
      Collide(i, pac);
      WorldStep();
      SettleAndMove(i, dt, l, CollidedAt(w, i, pac));
    }

    /** The wall stop, the alignment and the move of actor i. */
    method SettleAndMove(i: int, dt: real, ghost l: Layout, ghost w: Scene)
      requires l == Geometry() && w == World()
      requires Valid() && 0 <= i < 5 && Inside(l, w.actors[i].pose)
      modifies ActorByType(i).sprite
      ensures Valid()
      ensures World() == MovedAt(SettledAt(l, w, i), i, dt)
    {
      ActorSettles(i, l, w);
      ActorMoves(i, dt);
    }

    /** The alignment of actor i, in terms of the scene w it starts from. */
    method ActorSettles(i: int, ghost l: Layout, ghost w: Scene)
      requires l == Geometry() && w == World()
      requires Valid() && 0 <= i < 5 && Inside(l, w.actors[i].pose)
      modifies ActorByType(i).sprite
      ensures Valid() && World() == SettledAt(l, w, i)
    {
      PlaceActor(i);
      WorldStep();
    }

    /** vActor::update(dt) for actor i, as a change of the scene. */
    method ActorMoves(i: int, dt: real)
      requires Valid() && 0 <= i < 5
      modifies ActorByType(i).sprite
      ensures Valid()
      ensures World() == old(MovedAt(World(), i, dt))
    {
      MoveActor(i, dt);
      WorldStep();
    }

    /** A step that changes only actors, their sprites and the sound flags
        changes only those parts of the scene. */
    twostate lemma WorldStep()
      requires unchanged(this) && unchanged(old(squares), old(items), die)
      ensures World() == old(World()).(actors := Roster(), sounds := soundFlags[..])
    {
    }

    // -------------------------------------------------------------------
    // Pacman's eating

    /** The maze's own fields that a frame leaves as they are. */
    ghost function Fixed(): (int, int, int, int, int, int, int, bool, array<Square>, array<Item>)
      reads this
    {
      (numW, numH, dx, dy, level, levelPoints, totalPoints, isPaused, squares, items)
    }

    /** The three chime flags for an item of kind `kind`. */
    method Chime(kind: ItemType)
      requires soundFlags.Length == NumEffects
      modifies soundFlags
      ensures soundFlags[..] == ChimeSounds(old(soundFlags[..]), kind)
    {
      var c := Chimes(soundFlags[1], soundFlags[2], soundFlags[3], kind);
      soundFlags[1] := c.0;
      soundFlags[2] := c.1;
      soundFlags[3] := c.2;
    }

    /** A frame in which Pacman eats nothing silences the chimes. */
    method Silence()
      requires soundFlags.Length == NumEffects
      modifies soundFlags
      ensures soundFlags[..] == old(soundFlags[..])[1 := false][2 := false][3 := false]
    {
      soundFlags[1] := false;
      soundFlags[2] := false;
      soundFlags[3] := false;
    }

    /** A large dot starts the vulnerable period: every ghost is scared,
        Pacman turns homicidal, and flag 5 sounds.  The time stamp that
        update takes with it is left to update. */
    method Vulnerable()
      requires ActorsValid() && soundFlags.Length == NumEffects
      modifies blinky, pinky, inky, clyde, pacman, soundFlags
      ensures StatusOf(pacman) == old(StatusOf(pacman)).(mode := AiHomicidal)
      ensures StatusOf(blinky) == old(StatusOf(blinky)).(scared := true)
      ensures StatusOf(pinky) == old(StatusOf(pinky)).(scared := true)
      ensures StatusOf(inky) == old(StatusOf(inky)).(scared := true)
      ensures StatusOf(clyde) == old(StatusOf(clyde)).(scared := true)
      ensures soundFlags[..] == old(soundFlags[..])[5 := true]
    {
      Separated();
      blinky.isScared := true;
      pinky.isScared := true;
      inky.isScared := true;
      clyde.isScared := true;
      pacman.mode := AiHomicidal;
      soundFlags[5] := true;
    }

    /** update's consumption test for Pacman on the square of item k, as
        AteAt says; `began` reports a vulnerable period begun. */
    method EatItem(k: int, fe: bool) returns (began: bool)
      requires ActorsValid() && soundFlags.Length == NumEffects && 0 <= k < items.Length
      modifies items, blinky, pinky, inky, clyde, pacman, soundFlags
      ensures ActorsValid()
      ensures began == old(Begins(items[..], k, fe))
      ensures items[..] == old(Fed(items[..], k, fe))
      ensures soundFlags[..] == EatSounds(old(soundFlags[..]), old(Ate(items[..], k, fe)), old(items[k].kind))
      ensures Roster() == Alarmed(old(Roster()), began)
    {
      began := false;
      var item := items[k];
      if !item.isConsumed && fe {
        Chime(item.kind);
        var points := item.Consume();
        items[k] := points.1;
        if item.kind == ItLargeDot {
          began := true;
          ghost var r := Roster();
          Vulnerable();
          AlarmedSteps(r);
        }
      } else {
        Silence();
      }
    }

    // -------------------------------------------------------------------
    // Pacman's turn, the countdowns and the frame

    /** Pacman's turn up to applyAi, as PacmanFed says: the fully-entered
        test and the item index are taken before the wall stop moves him. */
    method Feed() returns (began: bool)
      requires Valid() && OnGrid(pacman)
      modifies items, soundFlags, pacman, pacman.sprite, blinky, pinky, inky, clyde
      ensures ActorsValid()
      ensures old(Inside(Geometry(), Roster()[0].pose))
      ensures began == old(Begins(items[..], ItemIndex(Geometry(), Roster()[0].pose), EnteredAt(Geometry(), Roster()[0].pose)))
      ensures World() == old(PacmanFed(Geometry(), World()))
    {
      ghost var p := Roster()[0].pose;
      RosterOnGrid(0);
      IdxBounds(numW, numH, CellX(pacman), CellY(pacman));
      var k := Idx(numW, numH, CellX(pacman), CellY(pacman));
      var fe := Entered(pacman);
      assert k == ItemIndex(Geometry(), p) && fe == EnteredAt(Geometry(), p);
      began := FeedAt(k, fe);
    }

    /** The wall stop and the alignment for Pacman, then the consumption
        test on item k, fully entered or not (fe). */
    method FeedAt(k: int, fe: bool) returns (began: bool)
      requires Valid() && 0 <= k < items.Length && Inside(Geometry(), Roster()[0].pose)
      modifies items, soundFlags, pacman, pacman.sprite, blinky, pinky, inky, clyde
      ensures ActorsValid()
      ensures began == old(Begins(items[..], k, fe))
      ensures World() == old(AteAt(SettledAt(Geometry(), World(), 0), k, fe))
    {
      PlaceActor(0);
      began := EatItem(k, fe);
      WorldFed();
    }

    /** A step that changes only actors, their sprites, the sound flags and
        the items changes only those parts of the scene. */
    twostate lemma WorldFed()
      requires unchanged(this) && unchanged(old(squares), die)
      ensures World() == old(World()).(actors := Roster(), sounds := soundFlags[..], stock := items[..])
    {
    }

    /** What applyAi sees of Pacman is the scene's view of him. */
    lemma PacmanView()
      requires GridValid() && items.Length == numW * numH
      ensures ViewOf(pacman) == SceneView(Geometry(), World(), 0)
      ensures (CentreX(pacman), CentreY(pacman)) == CentreOf(Geometry(), Roster()[0].pose)
    {
    }

    /** Pacman's turn in update's loop, as PacmanStep and AfterPacman say.
        The outer wall was raised from s0 already, so applyAi's raising of
        it changes nothing. */
    method PacmanTurn(dt: real, now: int, ghost s0: seq<Square>, ghost l: Layout, ghost w0: Scene)
      returns (began: bool, ghost turn: MazeDirection, ghost plot: seq<int>, ghost mid: Status)
      requires l == Geometry() && w0 == World()
      requires Valid() && w0.actors[0].alive && Inside(l, w0.actors[0].pose)
      requires Waypoints.Ready(w0.actors[0].mode, SceneView(l, w0, 0))
      requires BorderedFrom(s0, squares[..], numW, numH)
      modifies this, squares, items, soundFlags, die, pacman, pacman.sprite, blinky, pinky, inky, clyde
      ensures Valid() && Fixed() == old(Fixed())
      ensures PacmanStep(l, w0, began, turn, plot, mid, World().draws, World().exhausted)
      ensures World() == AfterPacman(l, w0, dt, now, began, mid, World().draws, World().exhausted)
    {
      began := PacmanFeeds(l, w0);
      turn, plot, mid := PacmanRest(dt, now, began, s0, l, PacmanFed(l, w0));
    }

    /** The first part of Pacman's turn: the wall stop, the alignment and
        the consumption test, in terms of the scene w0 it starts from. */
    method PacmanFeeds(ghost l: Layout, ghost w0: Scene) returns (began: bool)
      requires l == Geometry() && w0 == World()
      requires Valid() && Inside(l, w0.actors[0].pose)
      requires Waypoints.Ready(w0.actors[0].mode, SceneView(l, w0, 0))
      modifies items, soundFlags, pacman, pacman.sprite, blinky, pinky, inky, clyde
      ensures Valid() && Fixed() == old(Fixed()) && World() == PacmanFed(l, w0)
      ensures began == Begins(w0.stock, ItemIndex(l, w0.actors[0].pose), EnteredAt(l, w0.actors[0].pose))
      ensures Inside(l, World().actors[0].pose) && Waypoints.Ready(World().actors[0].mode, SceneView(l, World(), 0))
    {
      RosterOnGrid(0);
      began := Feed();
      FedReady(l, w0);
    }

    /** Pacman's turn once he is fed, from the scene w1: applyAi,
        vActor::update(dt) and the time stamp of a vulnerable period that
        began. */
    method PacmanRest(dt: real, now: int, began: bool, ghost s0: seq<Square>, ghost l: Layout, ghost w1: Scene)
      returns (ghost turn: MazeDirection, ghost plot: seq<int>, ghost mid: Status)
      requires l == Geometry() && w1 == World()
      requires Valid() && Inside(l, w1.actors[0].pose)
      requires Waypoints.Ready(w1.actors[0].mode, SceneView(l, w1, 0))
      requires BorderedFrom(s0, squares[..], numW, numH)
      modifies this, squares, die, pacman, pacman.sprite
      ensures Valid() && Fixed() == old(Fixed())
      ensures PacmanSteered(l, w1, turn, plot, mid, World().draws, World().exhausted)
      ensures World() == w1.(actors := w1.actors[0 := Moved(mid, dt)], draws := World().draws,
                             exhausted := World().exhausted, lastVul := if began then now else w1.lastVul)
    {
      turn, plot := PacmanSteers(s0);
      mid := StatusOf(pacman);
      ghost var w2 := World();
      MoveAndStamp(dt, began, now);
      SteeredMoved(w1, w2, dt, if began then now else w1.lastVul);
    }

    /** vActor::update(dt) for Pacman and the time stamp. */
    method MoveAndStamp(dt: real, began: bool, now: int)
      requires Valid()
      modifies this, pacman.sprite
      ensures Valid() && Fixed() == old(Fixed())
      ensures World() == old(MovedAt(World(), 0, dt)).(lastVul := if began then now else old(lastVulnerability))
    {
      ActorMoves(0, dt);
      Stamp(began, now);
    }

    /** The time stamp update takes when Pacman began a vulnerable period. */
    method Stamp(began: bool, now: int)
      requires Valid()
      modifies this
      ensures Valid() && Fixed() == old(Fixed())
      ensures World() == old(World()).(lastVul := if began then now else old(lastVulnerability))
    {
      if began {
        lastVulnerability := now;
      }
    }

    /** applyAi for Pacman, as PacmanSteered says of the scene. */
    method PacmanSteers(ghost s0: seq<Square>) returns (ghost turn: MazeDirection, ghost plot: seq<int>)
      requires Valid() && Inside(Geometry(), Roster()[0].pose)
      requires Waypoints.Ready(Roster()[0].mode, SceneView(Geometry(), World(), 0))
      requires BorderedFrom(s0, squares[..], numW, numH)
      modifies squares, die, pacman, pacman.sprite
      ensures Valid()
      ensures PacmanSteered(Geometry(), old(World()), turn, plot, StatusOf(pacman), die.draws, die.exhausted)
      ensures World() == old(World()).(actors := old(World()).actors[0 := StatusOf(pacman)], draws := die.draws, exhausted := die.exhausted)
    {
      RosterOnGrid(0);
      PacmanView();
      turn, plot := PacmanApplyAi(s0);
      WorldAi();
    }

    /** applyAi for Pacman on a grid whose outer wall stands already. */
    method PacmanApplyAi(ghost s0: seq<Square>) returns (ghost turn: MazeDirection, ghost plot: seq<int>)
      requires Valid() && OnGrid(pacman) && Waypoints.Ready(pacman.mode, ViewOf(pacman))
      requires BorderedFrom(s0, squares[..], numW, numH)
      modifies squares, die, pacman, pacman.sprite
      ensures Valid() && squares[..] == old(squares[..])
      ensures Roster() == old(Roster())[0 := StatusOf(pacman)]
      ensures AiStep(Geometry(), old(squares[..]), old(StatusOf(pacman)), StatusOf(pacman), die.draws, die.exhausted, turn, plot,
                     old(ViewOf(pacman)), old(die.draws), old(die.exhausted), old(CentreX(pacman)), old(CentreY(pacman)))
    {
      ghost var sq := squares[..];
      turn, plot := ApplyAi(pacman);
      BorderedTwice(s0, sq, squares[..], numW, numH);
      Separated();
      RosterStep(0);
    }

    /** A step that changes only actors, their sprites, the dice and the
        grid, leaving the grid's contents as they were, changes only the
        actors and the dice's stream in the scene. */
    twostate lemma WorldAi()
      requires unchanged(this) && unchanged(old(items), soundFlags) && squares[..] == old(squares[..])
      ensures World() == old(World()).(actors := Roster(), draws := die.draws, exhausted := die.exhausted)
    {
    }

    /** update's end of the vulnerable period: no ghost is scared and
        Pacman is greedy again. */
    method Calm()
      requires ActorsValid()
      modifies pacman, blinky, pinky, inky, clyde
      ensures StatusOf(pacman) == old(StatusOf(pacman)).(mode := AiGreedy)
      ensures StatusOf(blinky) == old(StatusOf(blinky)).(scared := false)
      ensures StatusOf(pinky) == old(StatusOf(pinky)).(scared := false)
      ensures StatusOf(inky) == old(StatusOf(inky)).(scared := false)
      ensures StatusOf(clyde) == old(StatusOf(clyde)).(scared := false)
    {
      Separated();
      blinky.isScared := false;
      pinky.isScared := false;
      inky.isScared := false;
      clyde.isScared := false;
      pacman.mode := AiGreedy;
    }

    /** update's countdowns at time now, as Countdowns says: the vulnerable
        period, then Blinky's and Inky's abilities. */
    method Countdown(now: int)
      requires ActorsValid()
      modifies pacman, blinky, pinky, inky, clyde
      ensures Roster() == Countdowns(old(Roster()), now, lastVulnerability, level)
    {
      EndVulnerability(now);
      EndAbilities(now);
    }

    /** The end of the vulnerable period, once it is over at time now. */
    method EndVulnerability(now: int)
      requires ActorsValid()
      modifies pacman, blinky, pinky, inky, clyde
      ensures Roster() == if Expired(now, lastVulnerability, level) then Calmed(old(Roster())) else old(Roster())
    {
      if Expired(now, lastVulnerability, level) {
        Calm();
      }
    }

    /** The ends of Blinky's and Inky's abilities at time now. */
    method EndAbilities(now: int)
      requires ActorsValid()
      modifies blinky, inky
      ensures Roster() == AbilitiesEnded(old(Roster()), now)
    {
      Separated();
      if AbilityOver(now, blinky.abilityTriggered, blinky.level) {
        blinky.velocity := 0.8 * BaseVelocity;
      }
      if AbilityOver(now, inky.abilityTriggered, inky.level) {
        inky.isScared := blinky.isScared;
      }
    }

    /** The ghosts' turns in update's loop, Blinky first, against Pacman's
        position pac, as GhostFrames says. */
    method GhostTurns(pac: Sighting, dt: real, ghost l: Layout, ghost w0: Scene)
      requires l == Geometry() && w0 == World()
      requires Valid() && GhostsInside(l, w0)
      modifies soundFlags, pacman, blinky, pinky, inky, clyde
      modifies pacman.sprite, blinky.sprite, pinky.sprite, inky.sprite, clyde.sprite
      ensures Valid()
      ensures World() == GhostFrames(l, w0, pac, dt, 5)
    {
      var i := 1;
      while i < 5
        invariant 1 <= i <= 5 && Valid() && l == Geometry()
        invariant World() == GhostFrames(l, w0, pac, dt, i)
      {
        RosterAt(i);
        if ActorByType(i).isAlive {
          GhostTurn(i, pac, dt, l, World());
        }
        i := i + 1;
      }
    }

    /** update's countdowns on the scene. */
    method CountdownStep(now: int)
      requires Valid()
      modifies pacman, blinky, pinky, inky, clyde
      ensures Valid()
      ensures World() == old(CountedDown(World(), now, level))
    {
      Countdown(now);
      WorldStep();
    }

    /** update's loop and countdowns while Pacman lives: his turn, then the
        ghosts' against the position he had before moving. */
    method LivingTurns(dt: real, now: int, ghost s0: seq<Square>, ghost l: Layout, ghost w0: Scene)
      returns (began: bool, ghost turn: MazeDirection, ghost plot: seq<int>, ghost mid: Status)
      requires l == Geometry() && w0 == World()
      requires Valid() && GhostsInside(Geometry(), World())
      requires Roster()[0].alive && Inside(Geometry(), Roster()[0].pose)
      requires Waypoints.Ready(Roster()[0].mode, SceneView(Geometry(), World(), 0))
      requires BorderedFrom(s0, squares[..], numW, numH)
      modifies this, squares, items, soundFlags, die, pacman, blinky, pinky, inky, clyde
      modifies pacman.sprite, blinky.sprite, pinky.sprite, inky.sprite, clyde.sprite
      ensures Valid() && Fixed() == old(Fixed())
      ensures UpdateStep(l, level, w0, World(), dt, now, began, turn, plot, mid)
    {
      var pac := Seen(Trunc(pacman.sprite.x.value), Trunc(pacman.sprite.y.value));
      began, turn, plot, mid := PacmanTurn(dt, now, s0, l, w0);
      GhostsAfterPacman(l, w0, dt, now, began, turn, plot, mid, pac);
    }

    /** update's loop for the ghosts and the countdowns once Pacman has
        taken his turn from the scene w0 to the present one. */
    method GhostsAfterPacman(ghost l: Layout, ghost w0: Scene, dt: real, now: int, ghost began: bool,
                             ghost turn: MazeDirection, ghost plot: seq<int>, ghost mid: Status, pac: Sighting)
      requires Valid() && l == Geometry()
      requires Sized(l, w0) && GhostsInside(l, w0) && w0.actors[0].alive && Inside(l, w0.actors[0].pose)
      requires pac == Seen(Trunc(w0.actors[0].pose.x.value), Trunc(w0.actors[0].pose.y.value))
      requires PacmanStep(l, w0, began, turn, plot, mid, World().draws, World().exhausted)
      requires World() == AfterPacman(l, w0, dt, now, began, mid, World().draws, World().exhausted)
      modifies soundFlags, pacman, blinky, pinky, inky, clyde
      modifies pacman.sprite, blinky.sprite, pinky.sprite, inky.sprite, clyde.sprite
      ensures Valid() && Fixed() == old(Fixed())
      ensures UpdateStep(l, level, w0, World(), dt, now, began, turn, plot, mid)
    {
      ghost var w1 := World();
      AfterPacmanGhosts(l, w0, dt, now, began, mid, w1.draws, w1.exhausted);
      GhostsAndCountdown(pac, dt, now, l, w1);
      LivingStep(l, level, w0, w1, World(), dt, now, began, turn, plot, mid);
    }

    /** update's loop for the ghosts against Pacman's position pac, then the
        countdowns. */
    method GhostsAndCountdown(pac: Sighting, dt: real, now: int, ghost l: Layout, ghost w0: Scene)
      requires l == Geometry() && w0 == World()
      requires Valid() && GhostsInside(l, w0)
      modifies soundFlags, pacman, blinky, pinky, inky, clyde
      modifies pacman.sprite, blinky.sprite, pinky.sprite, inky.sprite, clyde.sprite
      ensures Valid() && Fixed() == old(Fixed())
      ensures World() == CountedDown(GhostFrames(l, w0, pac, dt, 5), now, level)
    {
      GhostTurns(pac, dt, l, w0);
      CountdownStep(now);
    }

    /** One frame of update once the outer wall is raised from s0. */
    method Frame(dt: real, now: int, ghost s0: seq<Square>)
      returns (began: bool, ghost turn: MazeDirection, ghost plot: seq<int>, ghost mid: Status)
      requires Valid() && GhostsInside(Geometry(), World())
      requires Roster()[0].alive ==>
        Inside(Geometry(), Roster()[0].pose) && Waypoints.Ready(Roster()[0].mode, SceneView(Geometry(), World(), 0))
      requires BorderedFrom(s0, squares[..], numW, numH)
      modifies this, squares, items, soundFlags, die, pacman, blinky, pinky, inky, clyde
      modifies pacman.sprite, blinky.sprite, pinky.sprite, inky.sprite, clyde.sprite
      ensures Valid() && Fixed() == old(Fixed())
      ensures UpdateStep(Geometry(), level, old(World()), World(), dt, now, began, turn, plot, mid)
    {
      if pacman.isAlive {
        began, turn, plot, mid := LivingTurns(dt, now, s0, Geometry(), World());
      } else {
        began, turn, plot, mid := false, None, [], Roster()[0];
        GhostsAndCountdown(Unseen, dt, now, Geometry(), World());
      }
    }

    /** vMaze::update(dt), with `now` the time its clock reads: nothing
        while the maze is paused; otherwise the outer wall is raised and
        the frame runs from the bordered scene as UpdateStep says. */
    method Update(dt: real, now: int)
      returns (began: bool, ghost turn: MazeDirection, ghost plot: seq<int>, ghost mid: Status)
      requires Valid() && GhostsInside(Geometry(), World())
      requires Roster()[0].alive ==>
        Inside(Geometry(), Roster()[0].pose) && Waypoints.Ready(Roster()[0].mode, SceneView(Geometry(), World(), 0))
      modifies this, squares, items, soundFlags, die, pacman, blinky, pinky, inky, clyde
      modifies pacman.sprite, blinky.sprite, pinky.sprite, inky.sprite, clyde.sprite
      ensures Valid() && Fixed() == old(Fixed())
      ensures isPaused ==> !began && World() == old(World())
      ensures !isPaused ==> BorderedFrom(old(squares[..]), squares[..], numW, numH)
      ensures !isPaused ==> UpdateStep(Geometry(), level, old(World()).(grid := squares[..]), World(), dt, now, began, turn, plot, mid)
    {
      began, turn, plot, mid := false, None, [], Roster()[0];
      if !isPaused {
        ghost var s0 := squares[..];
        ReassertBorders();
        WorldGrid();
        began, turn, plot, mid := Frame(dt, now, s0);
      }
    }

    /** Raising walls changes only the grid of the scene. */
    twostate lemma WorldGrid()
      requires unchanged(this) && unchanged(items, soundFlags, die)
      requires unchanged(pacman, blinky, pinky, inky, clyde)
      requires unchanged(pacman.sprite, blinky.sprite, pinky.sprite, inky.sprite, clyde.sprite)
      ensures World() == old(World()).(grid := squares[..])
    {
    }

    // -------------------------------------------------------------------
    // Points

    /** getCurrentPointsTotal: the points of the items not yet eaten,
        column by column. */
    method GetCurrentPointsTotal() returns (total: int)
      requires GridValid() && items.Length == numW * numH
      ensures total == Levels.PointsTotal(items[..])
      ensures 0 <= total <= 90 * items.Length
    {
      total := 0;
      var i := 0;
      while i < numW
        invariant 0 <= i <= numW
        invariant total == Levels.PointsTotal(items[..i * numH])
      {
        MulMono(i + 1, numW, numH);
        total := SumColumn(i, total);
        i := i + 1;
      }
      assert items[..numW * numH] == items[..];
      Levels.PointsTotalBounds(items[..]);
    }

    /** The inner loop of getCurrentPointsTotal, over column i. */
    method SumColumn(i: int, total0: int) returns (total: int)
      requires GridValid() && items.Length == numW * numH && 0 <= i < numW
      requires (i + 1) * numH <= numW * numH
      requires total0 == Levels.PointsTotal(items[..i * numH])
      ensures total == Levels.PointsTotal(items[..(i + 1) * numH])
    {
      ghost var base := i * numH;
      assert (i + 1) * numH == base + numH;
      total := total0;
      var j := 0;
      while j < numH
        invariant 0 <= j <= numH
        invariant total == Levels.PointsTotal(items[..base + j])
      {
        var it := items[i * numH + j];
        assert items[..base + j + 1][..base + j] == items[..base + j];
        if !it.isConsumed {
          total := total + it.PointValue();
        }
        j := j + 1;
      }
    }

    // -------------------------------------------------------------------
    // Resizing and the item layout

    /** resize(w, h): a w x h grid of closed squares (at least 1 x 1),
        centred on a screen of screenW x screenH pixels, with fresh items
        laid out by LaidOut from the die's stream once the items' own
        construction has taken its two draws each, and levelPoints the
        points they are worth.  The source rounds the old numW and numH up
        to even numbers first and then overwrites both, so that rounding
        has no effect and is left out.  The offsets are computed in floats
        there, exactly: numW * squareDim is even. */
    method Resize(w: int, h: int, screenW: int, screenH: int)
      requires Valid()
      modifies this, die
      ensures Valid() && fresh(squares) && fresh(items)
      ensures numW == (if w > 0 then w else 1) && numH == (if h > 0 then h else 1)
      ensures forall k :: 0 <= k < squares.Length ==> squares[k] == Closed
      ensures dx == Levels.Offset(screenW, numW)
      ensures dy == Levels.Offset(screenH, numH)
      ensures Levels.AllDraws(Dice.Drop(old(die.draws), 2 * (numW * numH)))
      ensures items[..] == Levels.LaidOut(numW, numH, level, Dice.Drop(old(die.draws), 2 * (numW * numH)), numW * numH).0
      ensures Dice.Drew(die, old(die.draws), old(die.exhausted),
                        2 * (numW * numH) + Levels.LaidOut(numW, numH, level, Dice.Drop(old(die.draws), 2 * (numW * numH)), numW * numH).1)
      ensures levelPoints == Levels.PointsTotal(items[..])
      ensures level == old(level) && totalPoints == old(totalPoints) && isPaused == old(isPaused)
      ensures lastVulnerability == old(lastVulnerability)
    {
      ghost var ds0, e0 := die.draws, die.exhausted;
      NewGrid(w, h, screenW, screenH);
      ghost var n := 2 * (numW * numH);
      Levels.DropDraws(ds0, n);
      LayItems();
      Dice.DrewMore(ds0, e0, n, Levels.LaidOut(numW, numH, level, Dice.Drop(ds0, n), numW * numH).1);
      CountLevelPoints();
    }

    /** The last step of resize: levelPoints becomes what the items are
        worth; nothing else changes. */
    method CountLevelPoints()
      requires Valid()
      modifies this
      ensures Valid() && levelPoints == Levels.PointsTotal(items[..])
      ensures numW == old(numW) && numH == old(numH) && dx == old(dx) && dy == old(dy)
      ensures squares == old(squares) && items == old(items) && level == old(level)
      ensures totalPoints == old(totalPoints) && isPaused == old(isPaused)
      ensures lastVulnerability == old(lastVulnerability)
    {
      levelPoints := GetCurrentPointsTotal();
    }

    /** The first half of resize: the dimensions, a grid of closed squares,
        the offsets and fresh small dots, whose construction takes two
        draws each. */
    method NewGrid(w: int, h: int, screenW: int, screenH: int)
      requires Valid()
      modifies this, die
      ensures Valid() && fresh(squares) && fresh(items)
      ensures Dice.Drew(die, old(die.draws), old(die.exhausted), 2 * (numW * numH))
      ensures numW == (if w > 0 then w else 1) && numH == (if h > 0 then h else 1)
      ensures forall k :: 0 <= k < squares.Length ==> squares[k] == Closed
      ensures dx == Levels.Offset(screenW, numW)
      ensures dy == Levels.Offset(screenH, numH)
      ensures level == old(level) && totalPoints == old(totalPoints) && isPaused == old(isPaused)
      ensures lastVulnerability == old(lastVulnerability) && levelPoints == old(levelPoints)
    {
      var nw := if w > 0 then w else 1;
      var nh := if h > 0 then h else 1;
      var grid := ClosedSquares(nw * nh);
      var dots := SmallDots(nw * nh, die);
      Reshape(nw, nh, Levels.Offset(screenW, nw), Levels.Offset(screenH, nh), grid, dots);
    }

    /** The maze takes the dimensions nw x nh, the offsets ox and oy, and
        the arrays grid and dots; nothing else changes. */
    method Reshape(nw: int, nh: int, ox: int, oy: int, grid: array<Square>, dots: array<Item>)
      requires Valid() && nw >= 0 && nh >= 0 && grid.Length == nw * nh && dots.Length == nw * nh
      modifies this
      ensures Valid() && numW == nw && numH == nh && dx == ox && dy == oy && squares == grid && items == dots
      ensures level == old(level) && totalPoints == old(totalPoints) && isPaused == old(isPaused)
      ensures lastVulnerability == old(lastVulnerability) && levelPoints == old(levelPoints)
    {
      numW, numH, dx, dy, squares, items := nw, nh, ox, oy, grid, dots;
    }

    /** new mazeSquare[n]: every square closed. */
    static method ClosedSquares(n: nat) returns (a: array<Square>)
      ensures fresh(a) && a.Length == n && forall k :: 0 <= k < n ==> a[k] == Closed
    {
      a := new Square[n](_ => Closed);
    }

    /** new vItem[n]: every item an uneaten small dot at (-1, -1).  Each
        item's vSprite constructor builds a Dice, which takes one draw, and
        rolls its time seed with another; the seeds are not kept, as
        nothing of an item reads them. */
    static method SmallDots(n: nat, d: Dice.Die) returns (a: array<Item>)
      requires d.Valid()
      modifies d
      ensures fresh(a) && a.Length == n && forall k :: 0 <= k < n ==> a[k] == NewItem()
      ensures d.Valid() && Dice.Drew(d, old(d.draws), old(d.exhausted), 2 * n)
    {
      ghost var ds0, e0 := d.draws, d.exhausted;
      var k := 0;
      while k < n
        invariant 0 <= k <= n && d.Valid() && Dice.Drew(d, ds0, e0, 2 * k)
      {
        d.Restart();
        Dice.DrewMore(ds0, e0, 2 * k, 1);
        var seed := d.RollFloat(1.0);
        Dice.DrewMore(ds0, e0, 2 * k + 1, 1);
        k := k + 1;
      }
      a := new Item[n](_ => NewItem());
    }

    /** The loop has laid the first k squares as the trace says: the
        items so far are `laid`, each laid by LayItem from the stream ds0
        after the used[t] draws before it, and the die has taken used[k]
        draws of ds0 (starting from the exhaustion flag e0). */
    ghost predicate Traced(ds0: seq<int>, e0: bool, laid: seq<Item>, used: seq<nat>, k: nat)
      requires numH >= 1 && level >= 0 && Levels.AllDraws(ds0)
      reads this, items, die
    {
      && k <= items.Length && |laid| == k && |used| == k + 1 && used[0] == 0
      && items[..k] == laid
      && Dice.Drew(die, ds0, e0, used[k])
      && forall t :: 0 <= t < k ==> Levels.LaidStep(numW, numH, level, ds0, laid, used, t)
    }

    /** resize's layout loop: every item as LaidOut says. */
    method LayItems()
      requires Valid() && numH >= 1
      modifies items, die
      ensures Valid()
      ensures items[..] == Levels.LaidOut(numW, numH, level, old(die.draws), numW * numH).0
      ensures Dice.Drew(die, old(die.draws), old(die.exhausted),
                        Levels.LaidOut(numW, numH, level, old(die.draws), numW * numH).1)
    {
      ghost var ds0, e0 := die.draws, die.exhausted;
      ghost var laid: seq<Item>, used: seq<nat> := [], [0];
      var i := 0;
      while i < numW
        invariant 0 <= i <= numW && items.Length == numW * numH && Valid()
        invariant Traced(ds0, e0, laid, used, i * numH)
      {
        ColumnStep(i, numW, numH);
        laid, used := LayColumn(i, ds0, e0, laid, used);
        i := i + 1;
      }
      Levels.TraceLaidOut(numW, numH, level, ds0, laid, used, numW * numH);
      assert items[..] == laid[..numW * numH];
    }

    /** The inner layout loop, over column i. */
    method LayColumn(i: nat, ghost ds0: seq<int>, ghost e0: bool, ghost laid0: seq<Item>, ghost used0: seq<nat>)
      returns (ghost laid: seq<Item>, ghost used: seq<nat>)
      requires die.Valid() && numH >= 1 && level >= 0 && Levels.AllDraws(ds0) && i < numW
      requires (i + 1) * numH == i * numH + numH <= items.Length
      requires Traced(ds0, e0, laid0, used0, i * numH)
      modifies items, die
      ensures die.Valid() && Traced(ds0, e0, laid, used, (i + 1) * numH)
    {
      laid, used := laid0, used0;
      var j := 0;
      while j < numH
        invariant 0 <= j <= numH && die.Valid()
        invariant Traced(ds0, e0, laid, used, i * numH + j)
      {
        laid, used := LaySquare(i, j, ds0, e0, laid, used);
        j := j + 1;
      }
    }

    /** The item of square (i, j) goes in its place, and the trace grows by
        that square. */
    method LaySquare(i: nat, j: nat, ghost ds0: seq<int>, ghost e0: bool, ghost laid0: seq<Item>, ghost used0: seq<nat>)
      returns (ghost laid: seq<Item>, ghost used: seq<nat>)
      requires die.Valid() && numH >= 1 && level >= 0 && Levels.AllDraws(ds0) && i < numW && j < numH
      requires i * numH + j < items.Length
      requires Traced(ds0, e0, laid0, used0, i * numH + j)
      modifies items, die
      ensures die.Valid() && Traced(ds0, e0, laid, used, i * numH + j + 1)
    {
      var k := i * numH + j;
      var it := ChooseItem(i, j, ds0, e0, used0[k]);
      items[k] := it;
      Levels.DropDraws(ds0, used0[k]);
      ghost var n := Levels.LayItem(numW, numH, level, i, j, Dice.Drop(ds0, used0[k])).1;
      laid, used := laid0 + [it], used0 + [used0[k] + n];
      Waypoints.DivModIdx(numH, i, j);
      Levels.ColumnRow(numH, k);
      assert Levels.LaidStep(numW, numH, level, ds0, laid, used, k);
      forall t | 0 <= t < k
        ensures Levels.LaidStep(numW, numH, level, ds0, laid, used, t)
      {
        assert Levels.LaidStep(numW, numH, level, ds0, laid0, used0, t);
      }
      assert items[..k + 1] == laid;
    }

    /** The item of square (i, j): the pen row disabled, the large-dot
        squares large dots, and every other square a fruit when the roll
        is at most fruitDensity (a second roll picks it) and a small dot
        otherwise. */
    method ChooseItem(i: int, j: int, ghost ds0: seq<int>, ghost e0: bool, ghost u: nat) returns (it: Item)
      requires die.Valid() && level >= 0 && Levels.AllDraws(ds0) && Dice.Drew(die, ds0, e0, u)
      modifies die
      ensures die.Valid()
      ensures it == Levels.LayItem(numW, numH, level, i, j, Dice.Drop(ds0, u)).0
      ensures Dice.Drew(die, ds0, e0, u + Levels.LayItem(numW, numH, level, i, j, Dice.Drop(ds0, u)).1)
    {
      Levels.DropDraws(ds0, u);
      it := NewItem();
      var cx, cy := numW / 2, numH / 2;
      Levels.PenRowSquares(numW, numH, i, j);
      if (cx - i) * (cx - i) <= 1 && j == cy {
        it := it.Disabled();
      } else if || (i == 0 && j == 0) || (i == 0 && j == cy) || (i == 0 && j == numH - 1)
                || (i == cx && j == 0) || (i == cx && j == numH - 1)
                || (i == numW - 1 && j == 0) || (i == numW - 1 && j == cy) || (i == numW - 1 && j == numH - 1) {
        it := it.WithType(ItLargeDot);
      } else {
        it := RollItem(ds0, e0, u);
      }
    }

    /** A square that is neither in the pen row nor a large-dot square: a
        fruit when the roll is at most fruitDensity, whose kind a second
        roll picks, and a small dot otherwise. */
    method RollItem(ghost ds0: seq<int>, ghost e0: bool, ghost u: nat) returns (it: Item)
      requires die.Valid() && level >= 0 && Levels.AllDraws(ds0) && Dice.Drew(die, ds0, e0, u)
      modifies die
      ensures die.Valid()
      ensures var ds := Dice.Drop(ds0, u);
        if Dice.RollFloatOf(1.0, Dice.Head(ds)) <= Levels.FruitDensity then
          && it == NewItem().WithType(Levels.FruitKind(level, Dice.RollIntOf(6, Dice.Head(Dice.Drop(ds, 1)))))
          && Dice.Drew(die, ds0, e0, u + 2)
        else it == NewItem() && Dice.Drew(die, ds0, e0, u + 1)
    {
      Levels.DropDraws(ds0, u);
      it := NewItem();
      var roll := die.RollFloat(1.0);
      Dice.DrewMore(ds0, e0, u, 1);
      if roll <= Levels.FruitDensity {
        var itemNum := 4 - Levels.FruitTier(level);
        var randOffset := die.RollInt(6);
        Dice.DrewMore(ds0, e0, u, 2);
        Dice.DropDrop(ds0, u, 1);
        if randOffset == 5 {
          itemNum := itemNum + 2;
        } else if randOffset >= 3 {
          itemNum := itemNum + 1;
        }
        it := it.WithType(itemNum + 2);
      }
    }

    // -------------------------------------------------------------------
    // A new level

    /** The maze holds board b on a screen of screenW x screenH pixels:
        its size, the offsets that centre it, and the board's items less
        the one Pacman starts on, with the points of the whole board. */
    ghost predicate Laid(b: Levels.Board, screenW: int, screenH: int)
      reads this, items
    {
      && numW == b.w && numH == b.h
      && dx == Levels.Offset(screenW, numW)
      && dy == Levels.Offset(screenH, numH)
      && 0 <= b.start.0 < b.w && 0 <= b.start.1 < b.h && |b.items| == b.w * b.h
      && items[..] == Levels.Eaten(b) && levelPoints == Levels.PointsTotal(b.items)
    }

    /** The grid as division leaves it: mirrored, bordered, the ghost town
        closed, no open crossing, and, unless the die ran out, every square
        accessible. */
    ghost predicate Divided()
      reads this, squares, die
    {
      && GridValid()
      && Mirrored(squares[..], numW, numH) && LeftBottomTopBorders(squares[..], numW, numH)
      && PenClosed(squares[..], numW, numH) && NoOpenIntersection(squares[..], numW, numH)
      && (!die.exhausted ==> forall x, y :: InGrid(numW, numH, x, y) ==> At(squares[..], numW, numH, x, y).accessible)
    }

    /** newLevel(reset) on a screen of screenW x screenH pixels.  The level
        is 1 after a reset and one more otherwise; the points left uneaten
        are saved (all forgotten on level 1); the maze takes the level's
        size with the board NewBoard builds from the die's stream, less the
        item Pacman starts on; Pacman is revived on his border square, the
        ghosts that play at this level (Blinky from level 1, Pinky from 3,
        Inky from 5, Clyde from 7) stand in the ghost town and the rest are
        dead there; everyone is at rest, Blinky alone is selected, no ghost
        is scared, and a reset sends the ghosts back to ability level 0.
        The grid is generated by division.  Every living ghost and Pacman
        then stand on the grid, so update may run. */
    method NewLevel(reset: bool, screenW: int, screenH: int) returns (ghost b: Levels.Board)
      requires Valid()
      modifies this, die, pacman, blinky, pinky, inky, clyde
      modifies pacman.sprite, blinky.sprite, pinky.sprite, inky.sprite, clyde.sprite
      ensures Valid() && fresh(squares) && fresh(items)
      ensures level == (if reset then 1 else old(level) + 1)
      ensures totalPoints == (if level == 1 then 0 else old(totalPoints) + Levels.PointsTotal(old(items[..])))
      ensures b == Levels.NewBoard(level, old(die.draws))
      ensures Laid(b, screenW, screenH)
      ensures isPaused == old(isPaused) && lastVulnerability == old(lastVulnerability)
      ensures Roster() == LevelCast(Geometry(), old(Roster()), b.start, level, reset)
      ensures Divided()
      ensures forall j :: 0 <= j < 5 ==> Inside(Geometry(), Roster()[j].pose)
    {
      b := BuildBoard(reset, screenW, screenH);
      FinishLevel(reset, b.start, old(Roster()));
      LevelCastStaged(Geometry(), old(Roster()), b.start, level, reset);
      LevelCastInside(Geometry(), old(Roster()), b.start, level, reset);
    }

    /** The maze holds the level newLevel(reset) makes at its current
        level number from roster r0 and the stream ds: b is the board
        NewBoard builds from ds, laid out on a screen of screenW x screenH
        pixels, the grid is divided, the cast is the one made from r0, and
        every actor stands on the grid. */
    ghost predicate Made(b: Levels.Board, r0: seq<Status>, ds: seq<int>, reset: bool, screenW: int, screenH: int)
      reads this, squares, items, die, pacman, blinky, pinky, inky, clyde
      reads pacman.sprite, blinky.sprite, pinky.sprite, inky.sprite, clyde.sprite
    {
      && level >= 1 && Levels.AllDraws(ds) && b == Levels.NewBoard(level, ds)
      && |r0| == 5 && Laid(b, screenW, screenH) && Divided()
      && Roster() == LevelCast(Geometry(), r0, b.start, level, reset)
      && forall j :: 0 <= j < 5 ==> Inside(Geometry(), Roster()[j].pose)
    }

    /** Everything of the maze but its pause and its actors: the size, the
        offsets, the level, the points, the two arrays and the time stamp
        of the vulnerable period. */
    ghost function Setting(): (int, int, int, int, int, int, int, array<Square>, array<Item>, int)
      reads this
    {
      (numW, numH, dx, dy, level, levelPoints, totalPoints, squares, items, lastVulnerability)
    }

    /** newLevel(reset) followed by pause, as a level's start does it. */
    method StartLevel(reset: bool, screenW: int, screenH: int) returns (ghost b: Levels.Board)
      requires Valid()
      modifies this, die, pacman, blinky, pinky, inky, clyde
      modifies pacman.sprite, blinky.sprite, pinky.sprite, inky.sprite, clyde.sprite
      ensures Valid() && isPaused
      ensures level == (if reset then 1 else old(level) + 1)
      ensures totalPoints == (if level == 1 then 0 else old(totalPoints) + Levels.PointsTotal(old(items[..])))
      ensures forall j :: 1 <= j < 5 ==> Roster()[j].level == (if reset then 0 else old(Roster())[j].level)
      ensures Made(b, old(Roster()), old(die.draws), reset, screenW, screenH)
    {
      ghost var r0, ds0 := Roster(), die.draws;
      b := NextLevel(reset, screenW, screenH);
      PauseMade(b, r0, ds0, reset, screenW, screenH);
    }

    /** pause() on a maze that holds a new level: the level stays. */
    method PauseMade(ghost b: Levels.Board, ghost r0: seq<Status>, ghost ds: seq<int>, ghost reset: bool, ghost screenW: int, ghost screenH: int)
      requires Made(b, r0, ds, reset, screenW, screenH)
      modifies this
      ensures isPaused && Setting() == old(Setting()) && Made(b, r0, ds, reset, screenW, screenH)
    {
      isPaused := true;
      assert squares[..] == old(squares[..]);
    }

    /** newLevel(reset) as the game uses it: the level it makes, the
        pause it leaves alone, the ghosts' ability levels (back at 0 with a
        reset), and the board, grid and cast of NewLevel. */
    method NextLevel(reset: bool, screenW: int, screenH: int) returns (ghost b: Levels.Board)
      requires Valid()
      modifies this, die, pacman, blinky, pinky, inky, clyde
      modifies pacman.sprite, blinky.sprite, pinky.sprite, inky.sprite, clyde.sprite
      ensures Valid() && isPaused == old(isPaused)
      ensures level == (if reset then 1 else old(level) + 1)
      ensures totalPoints == (if level == 1 then 0 else old(totalPoints) + Levels.PointsTotal(old(items[..])))
      ensures forall j :: 1 <= j < 5 ==> Roster()[j].level == (if reset then 0 else old(Roster())[j].level)
      ensures Made(b, old(Roster()), old(die.draws), reset, screenW, screenH)
    {
      b := NewLevel(reset, screenW, screenH);
      LevelCastLevels(Geometry(), old(Roster()), b.start, level, reset);
    }

    /** newLevel after Pacman's start, which was made from roster r0: the
        cast, the division of the grid and the ghosts settled; nothing but
        the grid, the die and the actors changes. */
    method FinishLevel(reset: bool, ghost start: (int, int), ghost r0: seq<Status>)
      requires Valid() && level >= 1 && numW >= 5 && numH >= 7 && InGrid(numW, numH, start.0, start.1)
      requires |r0| == 5 && Roster() == Revived(Geometry(), r0, start)
      modifies squares, die, pacman, blinky, pinky, inky, clyde
      modifies pacman.sprite, blinky.sprite, pinky.sprite, inky.sprite, clyde.sprite
      ensures Valid() && unchanged(this, items)
      ensures Roster() == Unscared(CastRoster(Geometry(), Revived(Geometry(), r0, start), level), reset)
      ensures Divided()
    {
      CastAndGenerate(reset);
    }

    /** newLevel up to Pacman's start: the level, the points saved, the
        resized maze with the board of this level, and Pacman revived on
        his start square. */
    method BuildBoard(reset: bool, screenW: int, screenH: int) returns (ghost b: Levels.Board)
      requires Valid()
      modifies this, die, pacman, pacman.sprite
      ensures Valid() && fresh(squares) && fresh(items)
      ensures level == (if reset then 1 else old(level) + 1)
      ensures totalPoints == (if level == 1 then 0 else old(totalPoints) + Levels.PointsTotal(old(items[..])))
      ensures b == Levels.NewBoard(level, old(die.draws))
      ensures Laid(b, screenW, screenH)
      ensures isPaused == old(isPaused) && lastVulnerability == old(lastVulnerability)
      ensures Roster() == Revived(Geometry(), old(Roster()), b.start)
    {
      ghost var ds0 := die.draws;
      BeginLevel(reset);
      Levels.LevelSize(level);
      Resize(Levels.LevelWidth(level), Levels.LevelHeight(level), screenW, screenH);
      b := Levels.NewBoard(level, ds0);
      Levels.DropDraws(ds0, b.used);
      var pacX, pacY := PlacePacman(b);
      RosterStep(0);
    }

    /** newLevel after Pacman's start: the cast, the division of the grid,
        and the ghosts settled. */
    method CastAndGenerate(reset: bool)
      requires Valid() && level >= 1 && numW >= 5 && numH >= 7
      modifies squares, die, pacman, blinky, pinky, inky, clyde
      modifies pacman.sprite, blinky.sprite, pinky.sprite, inky.sprite, clyde.sprite
      ensures Valid()
      ensures Roster() == Unscared(CastRoster(Geometry(), old(Roster()), level), reset)
      ensures Divided()
    {
      SetCast();
      Generate(MaDivision);
      SettleGhosts(reset);
    }

    /** newLevel's first steps: the level number, Pacman revived, and the
        points saved: forgotten on level 1, otherwise increased by what was
        left uneaten. */
    method BeginLevel(reset: bool)
      requires Valid()
      modifies this, pacman
      ensures Valid()
      ensures level == (if reset then 1 else old(level) + 1)
      ensures totalPoints == (if level == 1 then 0 else old(totalPoints) + Levels.PointsTotal(old(items[..])))
      ensures StatusOf(pacman) == old(StatusOf(pacman)).(alive := true)
      ensures numW == old(numW) && numH == old(numH) && dx == old(dx) && dy == old(dy)
      ensures squares == old(squares) && items == old(items) && levelPoints == old(levelPoints)
      ensures isPaused == old(isPaused) && lastVulnerability == old(lastVulnerability)
    {
      level := if reset then 1 else level + 1;
      pacman.SetLife(true);
      if level == 1 {
        totalPoints := 0;
      } else {
        var left := GetCurrentPointsTotal();
        totalPoints := totalPoints + left;
      }
    }

    /** Pacman's start on the board b: a new Dice (one draw), a roll of
        2 numW + 2 numH for his border slot, Pacman centred there and the
        item under him eaten. */
    method PlacePacman(ghost b: Levels.Board) returns (pacX: int, pacY: int)
      requires Valid() && numW == b.w && numH == b.h && 5 <= b.w && 7 <= b.h && items[..] == b.items
      requires Levels.AllDraws(die.draws) && b.start == Levels.StartSquare(numW, numH, die.draws)
      modifies die, items, pacman.sprite
      ensures Valid() && (pacX, pacY) == b.start && items[..] == Levels.Eaten(b)
      ensures PoseOf(pacman.sprite) == Abilities.Centred(Geometry(), old(PoseOf(pacman.sprite)), pacX, pacY)
      ensures pacman.sprite.timeSeed == old(pacman.sprite.timeSeed) && pacman.sprite.kind == old(pacman.sprite.kind)
    {
      die.Restart();
      var location := die.RollInt(2 * numW + 2 * numH);
      Dice.DropDrop(old(die.draws), 1, 1);
      if location < numW {
        pacX, pacY := location, numH - 1;
      } else if location < numW + numH {
        pacX, pacY := 0, location - numW;
      } else if location < 2 * numW + numH {
        pacX, pacY := location - numH - numW, 0;
      } else {
        pacX, pacY := numW - 1, location - 2 * numW - numH;
      }
      MoveToMazeXY(pacman, pacX, pacY);
      var k := Levels.StartIndex(b);
      items[pacX * numH + pacY] := items[pacX * numH + pacY].Consume().1;
    }

    /** newLevel's cast: every actor at rest, Pacman deselected, and each
        ghost revived or killed as the level says, put in the ghost town,
        and Blinky alone selected.  The source takes each of these steps
        for all five actors in turn; here each actor's steps are taken
        together, which is the same as the actors are distinct objects. */
    method SetCast()
      requires ActorsValid() && level >= 1
      modifies pacman, blinky, pinky, inky, clyde
      modifies pacman.sprite, blinky.sprite, pinky.sprite, inky.sprite, clyde.sprite
      ensures ActorsValid()
      ensures Roster() == CastRoster(Geometry(), old(Roster()), level)
    {
      Separated();
      ghost var r, q := Roster(), CastRoster(Geometry(), Roster(), level);
      CastFront(q);
      CastAt(2, numW / 2 - 1, numH / 2, level > 2, false);
      CastBack(q);
      Overwritten(r, q);
    }

    /** The cast of Pacman and Blinky, as q says. */
    method CastFront(ghost q: seq<Status>)
      requires ActorsValid() && level >= 1 && q == CastRoster(Geometry(), Roster(), level)
      modifies pacman, blinky, pacman.sprite, blinky.sprite
      ensures ActorsValid()
      ensures Roster() == old(Roster())[0 := q[0]][1 := q[1]]
    {
      RestPacman();
      CastAt(1, numW / 2, numH / 2 - 1, level > 0, true);
    }

    /** The cast of Inky and Clyde, as q says. */
    method CastBack(ghost q: seq<Status>)
      requires ActorsValid() && |q| == 5 && |Roster()| == 5
      requires q[3] == Cast(Geometry(), Roster()[3], numW / 2 + 1, numH / 2, level > 4, false)
      requires q[4] == Cast(Geometry(), Roster()[4], numW / 2, numH / 2, level > 6, false)
      modifies inky, clyde, inky.sprite, clyde.sprite
      ensures ActorsValid()
      ensures Roster() == old(Roster())[3 := q[3]][4 := q[4]]
    {
      CastAt(3, numW / 2 + 1, numH / 2, level > 4, false);
      CastAt(4, numW / 2, numH / 2, level > 6, false);
    }

    /** Pacman's part of the cast: at rest and deselected. */
    method RestPacman()
      requires ActorsValid()
      modifies pacman, pacman.sprite
      ensures ActorsValid()
      ensures Roster() == old(Roster())[0 := old(Roster()[0]).(pose := old(Roster()[0]).pose.(xVel := 0.0, yVel := 0.0), selected := false)]
    {
      Separated();
      pacman.sprite.SetVelX(0.0);
      pacman.sprite.SetVelY(0.0);
      pacman.Deselect();
      RosterStep(0);
    }

    /** Ghost i's part of the cast. */
    method CastAt(i: int, x: int, y: int, alive: bool, selected: bool)
      requires ActorsValid() && 1 <= i < 5 && (selected ==> alive)
      modifies ActorByType(i), ActorByType(i).sprite
      ensures ActorsValid()
      ensures Roster() == old(Roster())[i := Cast(Geometry(), old(Roster()[i]), x, y, alive, selected)]
    {
      Separated();
      RosterAt(i);
      CastGhost(ActorByType(i), x, y, alive, selected);
      RosterStep(i);
    }

    /** One ghost of newLevel's cast: its life set, centred on (x, y), at
        rest, and selected (which takes only if it lives) or deselected. */
    method CastGhost(g: Actor, x: int, y: int, alive: bool, selected: bool)
      modifies g, g.sprite
      ensures StatusOf(g) == Cast(Geometry(), old(StatusOf(g)), x, y, alive, selected && (old(g.isSelected) || alive))
    {
      g.SetLife(alive);
      MoveToMazeXY(g, x, y);
      g.sprite.SetVelX(0.0);
      g.sprite.SetVelY(0.0);
      if selected {
        g.Select();
      } else {
        g.Deselect();
      }
    }

    /** The end of newLevel: no ghost scared, and after a reset every
        ghost back to ability level 0. */
    method SettleGhosts(reset: bool)
      requires ActorsValid()
      modifies blinky, pinky, inky, clyde
      ensures ActorsValid()
      ensures Roster() == Unscared(old(Roster()), reset)
    {
      ghost var r := Roster();
      SettleAt(1, reset);
      SettleAt(2, reset);
      SettleAt(3, reset);
      SettleAt(4, reset);
      Overwritten(r, Unscared(r, reset));
    }

    /** Ghost i's part of SettleGhosts. */
    method SettleAt(i: int, reset: bool)
      requires ActorsValid() && 1 <= i < 5
      modifies ActorByType(i)
      ensures ActorsValid()
      ensures Roster() == old(Roster())[i := Becalmed(old(Roster()[i]), reset)]
    {
      Separated();
      RosterAt(i);
      SettleGhost(ActorByType(i), reset);
      RosterStep(i);
    }

    /** One ghost of SettleGhosts.  The source unscares all four ghosts and
        then resets all four; the steps are taken ghost by ghost here, which
        is the same as the ghosts are distinct objects. */
    static method SettleGhost(g: Actor, reset: bool)
      modifies g
      ensures StatusOf(g) == Becalmed(old(StatusOf(g)), reset)
    {
      g.SetScared(false);
      if reset {
        g.Reset();
      }
    }

    // -------------------------------------------------------------------
    // Selection

    /** getSelection: the first selected actor in sprite-type order; when
        none is selected, Pacman, who is then selected if he lives. */
    method GetSelection() returns (a: Actor)
      requires ActorsValid()
      modifies pacman
      ensures ActorsValid()
      ensures Roster() == Abilities.Selection(old(Roster())).1
      ensures a == ActorByType(Abilities.Selection(old(Roster())).0)
    {
      ghost var r := Roster();
      var i := 0;
      while i < 5
        invariant 0 <= i <= 5 && Roster() == r
        invariant forall j :: 0 <= j < i ==> !r[j].selected
      {
        RosterAt(i);
        if ActorByType(i).isSelected {
          Abilities.FirstSelectedAt(Abilities.Selections(r), i);
          return ActorByType(i);
        }
        i := i + 1;
      }
      Abilities.FirstSelectedAt(Abilities.Selections(r), 5);
      Separated();
      pacman.Select();
      RosterStep(0);
      a := pacman;
    }

    /** rotateSelection: from the type of the selection, deselect the four
        ghosts and select the first living one of the next four in the
        cycle, if any. */
    method RotateSelection()
      requires ActorsValid()
      modifies pacman, blinky, pinky, inky, clyde
      ensures ActorsValid()
      ensures Roster() == Abilities.Rotated(old(Roster()))
    {
      ghost var r := Roster();
      Abilities.SelectionFirst(r);
      var chosen := GetSelection();
      var current := chosen.sprite.kind;
      RosterAt(Abilities.Selection(r).0);
      DeselectGhosts();
      ghost var q := Roster();
      SelectNextAlive(current);
      Abilities.RotatedSteps(r, q);
    }

    /** rotateSelection's loop with every ghost deselected: the first
        living ghost of the four after c in the cycle, if any, selected. */
    method SelectNextAlive(c: int)
      requires ActorsValid() && 0 <= c <= 4
      requires forall g :: 1 <= g < 5 ==> !Roster()[g].selected
      modifies blinky, pinky, inky, clyde
      ensures ActorsValid()
      ensures Roster() == Abilities.Reselected(old(Roster()), Abilities.NextAlive(c, Abilities.GhostLives(old(Roster())), 4))
    {
      ghost var q := Roster();
      ghost var lives := Abilities.GhostLives(q);
      var current := c;
      var tries := 0;
      while tries < 4
        invariant 0 <= tries <= 4 && 0 <= current <= 4
        invariant Roster() == q
        invariant Abilities.NextAlive(current, lives, 4 - tries) == Abilities.NextAlive(c, lives, 4)
      {
        current := Abilities.Succ(current);
        RosterAt(current);
        if ActorByType(current).isAlive {
          SelectGhost(current);
          Abilities.ReselectedOne(q, current);
          return;
        }
        tries := tries + 1;
      }
      Abilities.ReselectedOne(q, 0);
    }

    /** The four ghosts deselected. */
    method DeselectGhosts()
      requires ActorsValid()
      modifies blinky, pinky, inky, clyde
      ensures ActorsValid()
      ensures Roster() == Abilities.Reselected(old(Roster()), 0)
    {
      ghost var r := Roster();
      SelectAt(1, false);
      SelectAt(2, false);
      SelectAt(3, false);
      SelectAt(4, false);
      Overwritten(r, Abilities.Reselected(r, 0));
    }

    /** Ghost i, alive, selected. */
    method SelectGhost(i: int)
      requires ActorsValid() && 1 <= i < 5 && Roster()[i].alive
      modifies ActorByType(i)
      ensures ActorsValid()
      ensures Roster() == old(Roster())[i := old(Roster()[i]).(selected := true)]
    {
      SelectAt(i, true);
    }

    /** Ghost i selected (which takes only if it lives) or deselected. */
    method SelectAt(i: int, on: bool)
      requires ActorsValid() && 0 <= i < 5
      modifies ActorByType(i)
      ensures ActorsValid()
      ensures Roster() == old(Roster())[i := old(Roster()[i]).(selected := if on then old(Roster()[i]).selected || old(Roster()[i]).alive else false)]
    {
      Separated();
      RosterAt(i);
      if on {
        ActorByType(i).Select();
      } else {
        ActorByType(i).Deselect();
      }
      RosterStep(i);
    }

    // -------------------------------------------------------------------
    // Abilities

    /** executeAbility(subject) at time now, in seconds: below ability
        level 1 it fails at once; otherwise it builds a Dice (one draw),
        fails while the cooldown runs, and fires the subject's ability as
        Ability says, which sets the subject's clock to now. */
    method ExecuteAbility(subject: Actor, now: int) returns (success: bool)
      requires Valid()
      requires subject == pacman || subject == blinky || subject == pinky || subject == inky || subject == clyde
      modifies subject, subject.sprite, die
      ensures Valid()
      ensures var o := Abilities.Ability(Geometry(), old(Roster()), old(subject.sprite.kind), now, old(die.draws), old(die.exhausted));
        success == o.fired && Roster() == o.roster && Dice.Drew(die, old(die.draws), old(die.exhausted), o.draws)
    {
      Separated();
      var t := subject.sprite.kind;
      success := AbilityOf(t, now);
    }

    /** executeAbility for the actor of type t. */
    method AbilityOf(t: int, now: int) returns (success: bool)
      requires Valid() && 0 <= t < 5
      modifies ActorByType(t), ActorByType(t).sprite, die
      ensures Valid()
      ensures var o := Abilities.Ability(Geometry(), old(Roster()), t, now, old(die.draws), old(die.exhausted));
        success == o.fired && Roster() == o.roster && Dice.Drew(die, old(die.draws), old(die.exhausted), o.draws)
    {
      RosterAt(t);
      if ActorByType(t).level < 1 {
        return false;
      }
      success := Charge(t, now);
    }

    /** executeAbility past its first test: the Dice object is built (one
        draw), and the ability fires once the cooldown has passed. */
    method Charge(t: int, now: int) returns (success: bool)
      requires Valid() && 0 <= t < 5 && ActorByType(t).level >= 1
      modifies ActorByType(t), ActorByType(t).sprite, die
      ensures Valid()
      ensures var o := Abilities.Ability(Geometry(), old(Roster()), t, now, old(die.draws), old(die.exhausted));
        success == o.fired && Roster() == o.roster && Dice.Drew(die, old(die.draws), old(die.exhausted), o.draws)
    {
      RosterAt(t);
      ghost var ds, e := die.draws, die.exhausted;
      die.Restart();
      if now - ActorByType(t).abilityTriggered < ActorByType(t).level {
        return false;
      }
      success := Charged(t, now, ds, e);
    }

    /** executeAbility once the cooldown has passed, after the Dice object
        took its draw from the stream ds (flag e). */
    method Charged(t: int, now: int, ghost ds: seq<int>, ghost e: bool) returns (success: bool)
      requires Valid() && 0 <= t < 5 && ActorByType(t).level >= 1
      requires Levels.AllDraws(ds) && Dice.Drew(die, ds, e, 1)
      requires now - ActorByType(t).abilityTriggered >= ActorByType(t).level
      modifies ActorByType(t), ActorByType(t).sprite, die
      ensures Valid()
      ensures var o := Abilities.Ability(Geometry(), old(Roster()), t, now, ds, e);
        success == o.fired && Roster() == o.roster && Dice.Drew(die, ds, e, o.draws)
    {
      RosterAt(t);
      ghost var f := Abilities.Effect(Geometry(), Roster(), t, now, die.draws, die.exhausted);
      success := Fire(t, now);
      Dice.DrewMore(ds, e, 1, f.draws);
    }

    /** executeAbility(getSelection()), as the ability key does it. */
    method SelectedAbility(now: int) returns (fired: bool)
      requires Valid()
      modifies pacman, blinky, pinky, inky, clyde, die
      modifies pacman.sprite, blinky.sprite, pinky.sprite, inky.sprite, clyde.sprite
      ensures Valid()
      ensures var sel := Abilities.Selection(old(Roster()));
        var o := Abilities.Ability(Geometry(), sel.1, sel.0, now, old(die.draws), old(die.exhausted));
        fired == o.fired && Roster() == o.roster && Dice.Drew(die, old(die.draws), old(die.exhausted), o.draws)
    {
      Separated();
      Abilities.SelectionFirst(Roster());
      var a := GetSelection();
      RosterAt(Abilities.Selection(old(Roster())).0);
      fired := ExecuteAbility(a, now);
    }

    /** levelUp of the ghost of type t: one more ability level, nothing
        else changes. */
    method LevelUpGhost(t: int)
      requires Valid() && VRedG <= t <= VOrangeG
      modifies ActorByType(t)
      ensures Valid()
      ensures Roster() == old(Roster())[t := old(Roster())[t].(level := old(Roster())[t].level + 1)]
    {
      Separated();
      RosterAt(t);
      ActorByType(t).LevelUp();
      RosterStep(t);
    }

    /** The switch of executeAbility for the actor of type t, as Effect
        says. */
    method Fire(t: int, now: int) returns (success: bool)
      requires Valid() && 0 <= t < 5 && ActorByType(t).level >= 1
      modifies ActorByType(t), ActorByType(t).sprite, die
      ensures Valid()
      ensures var o := Abilities.Effect(Geometry(), old(Roster()), t, now, old(die.draws), old(die.exhausted));
        success == o.fired && Roster() == o.roster && Dice.Drew(die, old(die.draws), old(die.exhausted), o.draws)
    {
      if t == VRedG {
        success := FireRed(now);
      } else if t == VPinkG {
        success := FirePink(now);
      } else if t == VBlueG {
        success := FireBlue(now);
      } else if t == VOrangeG {
        success := FireOrange(now);
      } else {
        success := false;
      }
    }

    /** Blinky sprints once twice his level has passed since he last did. */
    method FireRed(now: int) returns (success: bool)
      requires Valid() && blinky.level >= 1
      modifies blinky, blinky.sprite
      ensures Valid()
      ensures var o := Abilities.Effect(Geometry(), old(Roster()), VRedG, now, die.draws, die.exhausted);
        success == o.fired && Roster() == o.roster && o.draws == 0
    {
      Separated();
      RosterAt(VRedG);
      if now - blinky.abilityTriggered < 2 * blinky.level {
        return false;
      }
      Sprint(blinky);
      blinky.SetAbilityTriggered(now);
      RosterStep(VRedG);
      success := true;
    }

    /** Pinky jumps whenever her cooldown has passed. */
    method FirePink(now: int) returns (success: bool)
      requires Valid() && pinky.level >= 1
      modifies pinky, pinky.sprite
      ensures Valid()
      ensures var o := Abilities.Effect(Geometry(), old(Roster()), VPinkG, now, die.draws, die.exhausted);
        success == o.fired && Roster() == o.roster && o.draws == 0
    {
      Separated();
      RosterAt(VPinkG);
      Jump(pinky);
      pinky.SetAbilityTriggered(now);
      RosterStep(VPinkG);
      success := true;
    }

    /** Inky becomes immune once twice his level has passed. */
    method FireBlue(now: int) returns (success: bool)
      requires Valid() && inky.level >= 1
      modifies inky, inky.sprite
      ensures Valid()
      ensures var o := Abilities.Effect(Geometry(), old(Roster()), VBlueG, now, die.draws, die.exhausted);
        success == o.fired && Roster() == o.roster && o.draws == 0
    {
      Separated();
      RosterAt(VBlueG);
      if now - inky.abilityTriggered < 2 * inky.level {
        return false;
      }
      inky.SetScared(false);
      inky.SetAbilityTriggered(now);
      RosterStep(VBlueG);
      success := true;
    }

    /** Clyde scatters whenever his cooldown has passed. */
    method FireOrange(now: int) returns (success: bool)
      requires Valid() && clyde.level >= 1
      modifies clyde, clyde.sprite, die
      ensures Valid()
      ensures var o := Abilities.Effect(Geometry(), old(Roster()), VOrangeG, now, old(die.draws), old(die.exhausted));
        success == o.fired && Roster() == o.roster && Dice.Drew(die, old(die.draws), old(die.exhausted), o.draws)
    {
      Separated();
      RosterAt(VOrangeG);
      Scatter(clyde);
      clyde.SetAbilityTriggered(now);
      RosterStep(VOrangeG);
      success := true;
    }

    /** Blinky's sprint: the speed SprintSpeed gives for his level, and
        each moving component of his velocity set to it with its sign. */
    static method Sprint(a: Actor)
      requires a.level >= 1
      modifies a, a.sprite
      ensures var v := Abilities.SprintSpeed(old(a.level));
        StatusOf(a) == old(StatusOf(a)).(velocity := v,
          pose := old(PoseOf(a.sprite)).(xVel := Abilities.Resigned(old(a.sprite.xVel), v), yVel := Abilities.Resigned(old(a.sprite.yVel), v)))
    {
      a.SetVelocity(Abilities.SprintSpeed(a.level));
      if a.sprite.xVel != 0.0 {
        a.sprite.SetVelX(if a.sprite.xVel > 0.0 then a.velocity else -a.velocity);
      }
      if a.sprite.yVel != 0.0 {
        a.sprite.SetVelY(if a.sprite.yVel > 0.0 then a.velocity else -a.velocity);
      }
    }

    /** Pinky's jump: level squares on from her square in the direction
        her state faces, stopped at the border. */
    method Jump(a: Actor)
      requires GridValid()
      modifies a.sprite
      ensures var c := CellOf(Geometry(), old(PoseOf(a.sprite)));
        var j := Abilities.JumpTarget(c.0, c.1, old(a.sprite.state), a.level, numW, numH);
        PoseOf(a.sprite) == Abilities.Centred(Geometry(), old(PoseOf(a.sprite)), j.0, j.1)
      ensures a.sprite.timeSeed == old(a.sprite.timeSeed) && a.sprite.kind == old(a.sprite.kind)
    {
      var cx, cy := CellX(a), CellY(a);
      var state := a.sprite.state;
      if state <= SsUp3 {
        cy := cy + a.level;
        if cy >= numH {
          cy := numH - 1;
        }
      } else if state <= SsDown3 {
        cy := cy - a.level;
        if cy < 0 {
          cy := 0;
        }
      } else if state <= SsLeft3 {
        cx := cx - a.level;
        if cx < 0 {
          cx := 0;
        }
      } else if state <= SsRight3 {
        cx := cx + a.level;
        if cx >= numW {
          cx := numW - 1;
        }
      }
      MoveToMazeXY(a, cx, cy);
    }

    /** Clyde's scatter: rolls of a landing within twice his level of his
        square, clamped to the grid, until one lands elsewhere or the
        stream runs out; he is then centred on the last landing. */
    method Scatter(a: Actor)
      requires GridValid() && die.Valid()
      modifies a.sprite, die
      ensures die.Valid()
      ensures var c := CellOf(Geometry(), old(PoseOf(a.sprite)));
        var n := Abilities.Scattered(c.0, c.1, a.level, numW, numH, old(die.draws), old(die.exhausted));
        PoseOf(a.sprite) == Abilities.Centred(Geometry(), old(PoseOf(a.sprite)), n.0, n.1)
      ensures a.sprite.timeSeed == old(a.sprite.timeSeed) && a.sprite.kind == old(a.sprite.kind)
      ensures var c := CellOf(Geometry(), old(PoseOf(a.sprite)));
        Dice.Drew(die, old(die.draws), old(die.exhausted), 2 * Abilities.ScatterRolls(c.0, c.1, a.level, numW, numH, old(die.draws), old(die.exhausted)))
    {
      var cx, cy := CellX(a), CellY(a);
      var newX, newY := RollScatter(die, cx, cy, a.level, numW, numH);
      MoveToMazeXY(a, newX, newY);
    }

    /** The scatter's do-while loop from (cx, cy) at level n: it rolls
        again while it lands on the start, and (unlike the source, which
        would loop for ever) it stops once the stream has run out. */
    static method RollScatter(die: Dice.Die, cx: int, cy: int, n: int, w: int, h: int) returns (newX: int, newY: int)
      requires die.Valid()
      modifies die
      ensures die.Valid()
      ensures (newX, newY) == Abilities.Scattered(cx, cy, n, w, h, old(die.draws), old(die.exhausted))
      ensures Dice.Drew(die, old(die.draws), old(die.exhausted), 2 * Abilities.ScatterRolls(cx, cy, n, w, h, old(die.draws), old(die.exhausted)))
    {
      ghost var ds0, e0 := die.draws, die.exhausted;
      ghost var pd, pe := die.draws, die.exhausted;
      ghost var j, u := 1, 2;
      newX, newY := RollLanding(die, cx, cy, n, w, h);
      while newX == cx && newY == cy && !die.exhausted
        invariant die.Valid() && Levels.AllDraws(pd) && j >= 1 && u == 2 * j
        invariant Dice.Drew(die, ds0, e0, u) && Dice.Drew(die, pd, pe, 2)
        invariant (newX, newY) == Abilities.Landing(cx, cy, n, w, h, Dice.Head(pd), Dice.Head(Dice.Drop(pd, 1)))
        invariant Abilities.ScatterRolls(cx, cy, n, w, h, ds0, e0) == j - 1 + Abilities.ScatterRolls(cx, cy, n, w, h, pd, pe)
        invariant Abilities.Scattered(cx, cy, n, w, h, ds0, e0) == Abilities.Scattered(cx, cy, n, w, h, pd, pe)
        decreases die.Budget()
      {
        ghost var d := die.draws;
        Dice.DrewMore(ds0, e0, u, 2);
        newX, newY := RollAgain(die, cx, cy, n, w, h, pd, pe);
        pd, pe := d, false;
        j, u := j + 1, u + 2;
      }
      Abilities.ScatterStops(cx, cy, n, w, h, pd, pe);
    }

    /** A further roll of the scatter, after the roll from the stream pd
        (flag pe) landed on the start: the scatter from pd is this roll's. */
    static method RollAgain(die: Dice.Die, cx: int, cy: int, n: int, w: int, h: int, ghost pd: seq<int>, ghost pe: bool) returns (x: int, y: int)
      requires die.Valid() && Levels.AllDraws(pd) && Dice.Drew(die, pd, pe, 2) && !die.exhausted
      requires Abilities.Landing(cx, cy, n, w, h, Dice.Head(pd), Dice.Head(Dice.Drop(pd, 1))) == (cx, cy)
      modifies die
      ensures die.Valid() && Levels.AllDraws(old(die.draws)) && Dice.Drew(die, old(die.draws), old(die.exhausted), 2)
      ensures (x, y) == Abilities.Landing(cx, cy, n, w, h, Dice.Head(old(die.draws)), Dice.Head(Dice.Drop(old(die.draws), 1)))
      ensures Abilities.ScatterRolls(cx, cy, n, w, h, pd, pe) == 1 + Abilities.ScatterRolls(cx, cy, n, w, h, old(die.draws), false)
      ensures Abilities.Scattered(cx, cy, n, w, h, pd, pe) == Abilities.Scattered(cx, cy, n, w, h, old(die.draws), false)
    {
      Abilities.ScatterAgain(cx, cy, n, w, h, pd, pe);
      x, y := RollLanding(die, cx, cy, n, w, h);
    }

    /** One roll of the scatter from (cx, cy) at level n: two draws, each
        coordinate clamped to the grid. */
    static method RollLanding(die: Dice.Die, cx: int, cy: int, n: int, w: int, h: int) returns (x: int, y: int)
      requires die.Valid()
      modifies die
      ensures die.Valid() && Dice.Drew(die, old(die.draws), old(die.exhausted), 2)
      ensures (x, y) == Abilities.Landing(cx, cy, n, w, h, Dice.Head(old(die.draws)), Dice.Head(Dice.Drop(old(die.draws), 1)))
    {
      x := die.RollIntRange(cx - 2 * n, cx + 2 * n);
      y := die.RollIntRange(cy - 2 * n, cy + 2 * n);
      Dice.DrewMore(old(die.draws), old(die.exhausted), 1, 1);
      if x < 0 {
        x := 0;
      }
      if x >= w {
        x := w - 1;
      }
      if y < 0 {
        y := 0;
      }
      if y >= h {
        y := h - 1;
      }
    }
  }
}
