/** The level set-up of vMaze.cpp as values: the size curve of newLevel, the
    item layout of resize, the points still on the board, and the border slot
    Pacman starts on.  The maze's methods that do these things in place are
    proved against the functions here. */
module Levels {
  import opened Grid
  import opened Items
  import Dice
  import opened Coords
  import Waypoints

  /** minW, minH, maxW and maxH of the vMaze constructor (floats there,
      with whole values). */
  const MinW: int := 5
  const MinH: int := 7
  const MaxW: int := 13
  const MaxH: int := 17
  /** levelScaleSpeed: how fast the maze grows and fruit improves. */
  const LevelScaleSpeed: real := 0.05
  /** fruitDensity: the chance that a plain square holds fruit. */
  const FruitDensity: real := 0.1

  ghost predicate AllDraws(ds: seq<int>) {
    forall i :: 0 <= i < |ds| ==> Dice.IsDraw(ds[i])
  }

  lemma DropDraws(ds: seq<int>, n: nat)
    requires AllDraws(ds)
    ensures AllDraws(Dice.Drop(ds, n)) && Dice.IsDraw(Dice.Head(Dice.Drop(ds, n)))
  {
  }

  // -------------------------------------------------------------------
  // The size curve

  /** The denominator of the size curve at `level`: 1 at level 1, and
      growing with the level. */
  function Spread(lo: int, hi: int, level: int): (d: real)
    requires level >= 1 && lo < hi
    ensures d >= 1.0
  {
    assert (hi - lo) as real * LevelScaleSpeed * (level - 1) as real >= 0.0;
    (hi - lo) as real * LevelScaleSpeed * (level - 1) as real + 1.0
  }

  /** newLevel's maze dimension at `level`: it starts at lo and approaches
      hi, truncated to an int.  The arithmetic is done on reals; float
      rounding is not modelled. */
  function SizeCurve(lo: int, hi: int, level: int): int
    requires level >= 1 && 0 <= lo < hi
  {
    Trunc((lo - hi) as real / Spread(lo, hi, level) + hi as real)
  }

  function LevelWidth(level: int): int
    requires level >= 1
  {
    SizeCurve(MinW, MaxW, level)
  }

  function LevelHeight(level: int): int
    requires level >= 1
  {
    SizeCurve(MinH, MaxH, level)
  }

  /** lo - hi divided by a spread of at least 1 lies in [lo - hi, 0). */
  lemma Shrunk(lo: int, hi: int, d: real)
    requires lo < hi && d >= 1.0
    ensures (lo - hi) as real <= (lo - hi) as real / d < 0.0
  {
    var q := (lo - hi) as real / d;
    assert q * d == (lo - hi) as real;
  }

  /** The curve stays between its start lo and its limit hi, and never
      reaches hi itself; the first level is exactly lo. */
  lemma SizeCurveBounds(lo: int, hi: int, level: int)
    requires level >= 1 && 0 <= lo < hi
    ensures lo <= SizeCurve(lo, hi, level) < hi
    ensures level == 1 ==> SizeCurve(lo, hi, level) == lo
  {
    var d := Spread(lo, hi, level);
    Shrunk(lo, hi, d);
    var v := (lo - hi) as real / d + hi as real;
    assert lo as real <= v < hi as real;
    assert level == 1 ==> d == 1.0 && v == lo as real;
  }

  /** A later level is never smaller. */
  lemma SizeCurveGrows(lo: int, hi: int, a: int, b: int)
    requires 1 <= a <= b && 0 <= lo < hi
    ensures SizeCurve(lo, hi, a) <= SizeCurve(lo, hi, b)
  {
    var da := Spread(lo, hi, a);
    var db := Spread(lo, hi, b);
    assert (hi - lo) as real * LevelScaleSpeed * (b - a) as real >= 0.0;
    assert db - da == (hi - lo) as real * LevelScaleSpeed * (b - a) as real;
    var qa := (lo - hi) as real / da;
    var qb := (lo - hi) as real / db;
    Shrunk(lo, hi, da);
    assert qa * da == (lo - hi) as real && qb * db == (lo - hi) as real;
    assert qa <= qb;
    TruncGrows(qa + hi as real, qb + hi as real);
  }

  lemma TruncGrows(r: real, s: real)
    requires 0.0 <= r <= s
    ensures Trunc(r) <= Trunc(s)
  {
  }

  /** Every level's maze is between 5 x 7 and 12 x 16, and the first is
      5 x 7, so it is large enough for the division generator. */
  lemma LevelSize(level: int)
    requires level >= 1
    ensures 5 <= LevelWidth(level) <= 12 && 7 <= LevelHeight(level) <= 16
    ensures level == 1 ==> LevelWidth(level) == 5 && LevelHeight(level) == 7
  {
    SizeCurveBounds(MinW, MaxW, level);
    SizeCurveBounds(MinH, MaxH, level);
  }

  // -------------------------------------------------------------------
  // The item layout of resize

  /** The fruit a fruit square of a `level` maze gets with die roll
      `offset`: a tier that rises with the level, plus one on a roll of 3
      or 4 and two on a roll of 5, counted from the banana. */
  function FruitKind(level: int, offset: int): (t: ItemType)
    requires level >= 0
    ensures ItBanana <= t <= ItCherries
    ensures level >= 1 ==> ItBanana < t
  {
    var tier := 4 - FruitTier(level);
    (if offset == 5 then tier + 2 else if offset >= 3 then tier + 1 else tier) + 2
  }

  /** The denominator of the fruit tier at `level`. */
  function TierDenominator(level: int): (d: real)
    requires level >= 0
    ensures d >= 0.25 && (level >= 1 ==> d >= 0.3)
  {
    LevelScaleSpeed * level as real + 0.25
  }

  /** (int)(1 / (levelScaleSpeed * level + 0.25)): 4 at level 0, then
      falling with the level down to 0.  The quotient is read off by
      counting the k in 1..4 with k times the denominator at most 1, which
      FruitTierIsQuotient shows is the truncated quotient. */
  function FruitTier(level: int): (n: int)
    requires level >= 0
    ensures 0 <= n <= 4 && (level >= 1 ==> n <= 3)
  {
    var d := TierDenominator(level);
    if d > 1.0 then 0
    else if 2.0 * d > 1.0 then 1
    else if 3.0 * d > 1.0 then 2
    else if 4.0 * d > 1.0 then 3
    else 4
  }

  /** The tier is the quotient the source computes, truncated as C's
      `(int)` conversion truncates. */
  lemma FruitTierIsQuotient(level: int)
    requires level >= 0
    ensures FruitTier(level) == Trunc(1.0 / TierDenominator(level))
  {
    var d := TierDenominator(level);
    var q := 1.0 / d;
    assert q * d == 1.0;
    var n := FruitTier(level);
    assert n as real * d <= 1.0;
    assert n as real <= q < n as real + 1.0;
  }

  /** The three squares of the ghost town's middle row, whose items
      are disabled. */
  predicate PenRow(w: int, h: int, i: int, j: int) {
    j == h / 2 && w / 2 - 1 <= i <= w / 2 + 1
  }

  /** The pen row is what resize tests: (centerX - i) squared at most 1,
      on the middle row. */
  lemma PenRowSquares(w: int, h: int, i: int, j: int)
    ensures PenRow(w, h, i, j) <==> (w / 2 - i) * (w / 2 - i) <= 1 && j == h / 2
  {
    var t := w / 2 - i;
    if t >= 2 {
      assert t * t >= 2 * t;
    } else if t <= -2 {
      assert t * t >= -2 * t;
    }
  }

  /** The eight large-dot squares: the corners and the middles of the
      four sides. */
  predicate LargeDotSquare(w: int, h: int, i: int, j: int) {
    var cx, cy := w / 2, h / 2;
    || (i == 0 && j == 0) || (i == 0 && j == cy) || (i == 0 && j == h - 1)
    || (i == cx && j == 0) || (i == cx && j == h - 1)
    || (i == w - 1 && j == 0) || (i == w - 1 && j == cy) || (i == w - 1 && j == h - 1)
  }

  /** The item resize gives square (i, j) of a w x h maze at `level`,
      and how many draws of ds it takes: none for the pen row and the
      large dots, one for a small dot, two for a fruit. */
  function LayItem(w: int, h: int, level: int, i: int, j: int, ds: seq<int>): (r: (Item, nat))
    requires level >= 0 && AllDraws(ds)
  {
    if PenRow(w, h, i, j) then (NewItem().Disabled(), 0)
    else if LargeDotSquare(w, h, i, j) then (NewItem().WithType(ItLargeDot), 0)
    else
      var roll := Dice.RollFloatOf(1.0, Dice.Head(ds));
      if roll <= FruitDensity then
        DropDraws(ds, 1);
        (NewItem().WithType(FruitKind(level, Dice.RollIntOf(6, Dice.Head(Dice.Drop(ds, 1))))), 2)
      else (NewItem(), 1)
  }

  /** The column of item k of an x-major layout h squares high, counted
      off one column at a time (it is k / h, by ColumnRow). */
  function Column(h: int, k: nat): nat
    requires h >= 1
    decreases k
  {
    if k < h then 0 else Column(h, k - h) + 1
  }

  /** The row of item k (it is k % h, by ColumnRow). */
  function Row(h: int, k: nat): nat
    requires h >= 1
    decreases k
  {
    if k < h then k else Row(h, k - h)
  }

  /** Item k is square (Column, Row): k splits into whole columns and a
      row below h. */
  lemma {:induction false} ColumnRowSplit(h: int, k: nat)
    requires h >= 1
    ensures Column(h, k) * h + Row(h, k) == k && Row(h, k) < h
    decreases k
  {
    if k >= h {
      ColumnRowSplit(h, k - h);
      assert (Column(h, k - h) + 1) * h == Column(h, k - h) * h + h;
    }
  }

  /** Column and Row are the quotient and remainder of k by h. */
  lemma ColumnRow(h: int, k: nat)
    requires h >= 1
    ensures Column(h, k) == k / h && Row(h, k) == k % h
  {
    ColumnRowSplit(h, k);
    Waypoints.DivModIdx(h, Column(h, k), Row(h, k));
  }

  /** The first n items of the layout, x-major (item k is square (k / h,
      k % h)), and the draws they take. */
  function LaidOut(w: int, h: int, level: int, ds: seq<int>, n: nat): (r: (seq<Item>, nat))
    requires h >= 1 && level >= 0 && AllDraws(ds)
    ensures |r.0| == n && r.1 <= 2 * n
  {
    if n == 0 then ([], 0)
    else
      var prev := LaidOut(w, h, level, ds, n - 1);
      DropDraws(ds, prev.1);
      var it := LayItem(w, h, level, Column(h, n - 1), Row(h, n - 1), Dice.Drop(ds, prev.1));
      (prev.0 + [it.0], prev.1 + it.1)
  }

  /** Square k of a trace of the layout was laid by LayItem: item k of
      `laid` is the item of square (Column, Row) of k, laid from the
      stream after the used[k] draws of the squares before it, and
      used[k + 1] counts its own draws too. */
  ghost predicate LaidStep(w: int, h: int, level: int, ds: seq<int>, laid: seq<Item>, used: seq<nat>, k: nat)
    requires h >= 1 && level >= 0 && AllDraws(ds) && k < |laid| && k + 1 < |used|
  {
    DropDraws(ds, used[k]);
    var it := LayItem(w, h, level, Column(h, k), Row(h, k), Dice.Drop(ds, used[k]));
    laid[k] == it.0 && used[k + 1] == used[k] + it.1
  }

  /** A trace whose first n squares were each laid by LayItem is the
      first n items of LaidOut, with the draws they take. */
  lemma {:induction false} TraceLaidOut(w: int, h: int, level: int, ds: seq<int>, laid: seq<Item>, used: seq<nat>, n: nat)
    requires h >= 1 && level >= 0 && AllDraws(ds)
    requires n <= |laid| && |used| == |laid| + 1 && used[0] == 0
    requires forall k :: 0 <= k < n ==> LaidStep(w, h, level, ds, laid, used, k)
    ensures LaidOut(w, h, level, ds, n) == (laid[..n], used[n])
  {
    if n > 0 {
      TraceLaidOut(w, h, level, ds, laid, used, n - 1);
      assert LaidStep(w, h, level, ds, laid, used, n - 1);
      DropDraws(ds, used[n - 1]);
      var it := LayItem(w, h, level, Column(h, n - 1), Row(h, n - 1), Dice.Drop(ds, used[n - 1]));
      assert LaidOut(w, h, level, ds, n) == (laid[..n - 1] + [it.0], used[n - 1] + it.1);
      assert laid[..n] == laid[..n - 1] + [laid[n - 1]];
    }
  }

  /** What the layout promises of the item on square (i, j), whatever the
      draws: the pen row is eaten, the eight large-dot squares hold large
      dots, and every other square holds an uneaten small dot or fruit;
      fruit is never a banana after level 0.  Nothing is placed yet: every
      item still has the unseen square (-1, -1). */
  ghost predicate Placed(w: int, h: int, level: int, i: int, j: int, it: Item) {
    && it.Valid() && it.xSquare == -1 && it.ySquare == -1
    && (PenRow(w, h, i, j) ==> it.isConsumed)
    && (!PenRow(w, h, i, j) && LargeDotSquare(w, h, i, j) ==> !it.isConsumed && it.kind == ItLargeDot)
    && (!PenRow(w, h, i, j) && !LargeDotSquare(w, h, i, j) ==>
          && !it.isConsumed
          && (it.kind == ItSmallDot || ItBanana <= it.kind <= ItCherries)
          && (level >= 1 ==> it.kind != ItBanana))
  }

  lemma LayItemPlaced(w: int, h: int, level: int, i: int, j: int, ds: seq<int>)
    requires level >= 0 && AllDraws(ds)
    ensures Placed(w, h, level, i, j, LayItem(w, h, level, i, j, ds).0)
  {
  }

  /** Every item of the layout is placed as its square demands. */
  lemma {:induction false} LaidOutPlaced(w: int, h: int, level: int, ds: seq<int>, n: nat)
    requires h >= 1 && level >= 0 && AllDraws(ds)
    ensures forall k :: 0 <= k < n ==> Placed(w, h, level, k / h, k % h, LaidOut(w, h, level, ds, n).0[k])
  {
    if n > 0 {
      var prev := LaidOut(w, h, level, ds, n - 1);
      LaidOutPlaced(w, h, level, ds, n - 1);
      DropDraws(ds, prev.1);
      ColumnRow(h, n - 1);
      LayItemPlaced(w, h, level, Column(h, n - 1), Row(h, n - 1), Dice.Drop(ds, prev.1));
    }
  }

  // -------------------------------------------------------------------
  // Points on the board

  /** What an item adds to getCurrentPointsTotal. */
  function Worth(it: Item): int {
    if !it.isConsumed then it.PointValue() else 0
  }

  /** getCurrentPointsTotal over a row of items: the points of those not
      yet eaten. */
  function PointsTotal(its: seq<Item>): int {
    if |its| == 0 then 0 else PointsTotal(its[..|its| - 1]) + Worth(its[|its| - 1])
  }

  /** The total is between 0 and 90 points per item, and 0 once every
      item is eaten. */
  lemma {:induction false} PointsTotalBounds(its: seq<Item>)
    ensures 0 <= PointsTotal(its) <= 90 * |its|
    ensures (forall k :: 0 <= k < |its| ==> its[k].isConsumed) ==> PointsTotal(its) == 0
  {
    if |its| > 0 {
      PointsTotalBounds(its[..|its| - 1]);
    }
  }

  /** Eating item k takes exactly its points off the total. */
  lemma {:induction false} PointsConsume(its: seq<Item>, k: int)
    requires 0 <= k < |its|
    ensures PointsTotal(its[k := its[k].Consume().1]) == PointsTotal(its) - its[k].PointValue()
  {
    var e := its[k := its[k].Consume().1];
    var m := |its| - 1;
    if k == m {
      assert e[..m] == its[..m];
    } else {
      PointsConsume(its[..m], k);
      assert e[..m] == its[..m][k := its[k].Consume().1];
    }
  }

  // -------------------------------------------------------------------
  // Pacman's starting square

  /** newLevel's edge slot `loc` of 2w + 2h: the top row left to
      right, the left column bottom up, the bottom row, then the right
      column. */
  function EdgeSlot(w: int, h: int, loc: int): (c: (int, int)) {
    if loc < w then (loc, h - 1)
    else if loc < w + h then (0, loc - w)
    else if loc < 2 * w + h then (loc - h - w, 0)
    else (w - 1, loc - 2 * w - h)
  }

  predicate OnBorder(w: int, h: int, x: int, y: int) {
    InGrid(w, h, x, y) && (x == 0 || x == w - 1 || y == 0 || y == h - 1)
  }

  /** Every slot is a border square of the grid. */
  lemma EdgeSlotOnBorder(w: int, h: int, loc: int)
    requires w >= 1 && h >= 1 && 0 <= loc < 2 * w + 2 * h
    ensures OnBorder(w, h, EdgeSlot(w, h, loc).0, EdgeSlot(w, h, loc).1)
  {
  }

  /** Every border square is some slot, so Pacman can start anywhere on
      the border. */
  lemma EdgeSlotCovers(w: int, h: int, x: int, y: int) returns (loc: int)
    requires w >= 1 && h >= 1 && OnBorder(w, h, x, y)
    ensures 0 <= loc < 2 * w + 2 * h && EdgeSlot(w, h, loc) == (x, y)
  {
    if y == h - 1 {
      loc := x;
    } else if x == 0 {
      loc := w + y;
    } else if y == 0 {
      loc := w + h + x;
    } else {
      loc := 2 * w + h + y;
    }
  }

  /** newLevel's start square for Pacman on a w x h maze, with ds the
      stream once the items are laid out: the new Dice takes one draw and
      its first roll picks the border slot. */
  function StartSquare(w: int, h: int, ds: seq<int>): (c: (int, int))
    requires w >= 1 && h >= 1 && AllDraws(ds)
    ensures OnBorder(w, h, c.0, c.1)
  {
    DropDraws(ds, 1);
    var loc := Dice.RollIntOf(2 * w + 2 * h, Dice.Head(Dice.Drop(ds, 1)));
    EdgeSlotOnBorder(w, h, loc);
    EdgeSlot(w, h, loc)
  }

  // -------------------------------------------------------------------
  // The board of a new level

  /** What newLevel builds for `level` from the stream ds: the maze's
      size, its items before Pacman eats his first square, how many draws
      the items take (two for each item's construction, then those of its
      layout), and Pacman's start. */
  datatype Board = Board(w: int, h: int, items: seq<Item>, used: nat, start: (int, int))

  function NewBoard(level: int, ds: seq<int>): (b: Board)
    requires level >= 1 && AllDraws(ds)
    ensures 5 <= b.w <= 12 && 7 <= b.h <= 16 && |b.items| == b.w * b.h
    ensures b.w == LevelWidth(level) && b.h == LevelHeight(level)
    ensures OnBorder(b.w, b.h, b.start.0, b.start.1)
  {
    LevelSize(level);
    var w, h := LevelWidth(level), LevelHeight(level);
    DropDraws(ds, 2 * (w * h));
    var lay := LaidOut(w, h, level, Dice.Drop(ds, 2 * (w * h)), w * h);
    DropDraws(ds, 2 * (w * h) + lay.1);
    Board(w, h, lay.0, 2 * (w * h) + lay.1, StartSquare(w, h, Dice.Drop(ds, 2 * (w * h) + lay.1)))
  }

  /** Every square of a new board holds what the layout rules allow there. */
  lemma NewBoardPlaced(level: int, ds: seq<int>)
    requires level >= 1 && AllDraws(ds)
    ensures var b := NewBoard(level, ds);
      forall k :: 0 <= k < |b.items| ==> Placed(b.w, b.h, level, k / b.h, k % b.h, b.items[k])
  {
    var w, h := LevelWidth(level), LevelHeight(level);
    DropDraws(ds, 2 * (w * h));
    LaidOutPlaced(w, h, level, Dice.Drop(ds, 2 * (w * h)), w * h);
  }

  /** The index of Pacman's start square among the board's items. */
  function StartIndex(b: Board): (k: int)
    requires 0 <= b.start.0 < b.w && 0 <= b.start.1 < b.h && |b.items| == b.w * b.h
    ensures 0 <= k < |b.items|
  {
    Grid.MulMono(b.start.0 + 1, b.w, b.h);
    assert (b.start.0 + 1) * b.h == b.start.0 * b.h + b.h;
    b.start.0 * b.h + b.start.1
  }

  /** The start index is the column-major index of the start square. */
  lemma StartIndexCell(b: Board)
    requires 0 <= b.start.0 < b.w && 0 <= b.start.1 < b.h && |b.items| == b.w * b.h
    ensures StartIndex(b) / b.h == b.start.0 && StartIndex(b) % b.h == b.start.1
  {
    Waypoints.DivModIdx(b.h, b.start.0, b.start.1);
  }

  /** The items of the board once Pacman has eaten the one he starts on. */
  function Eaten(b: Board): (its: seq<Item>)
    requires 0 <= b.start.0 < b.w && 0 <= b.start.1 < b.h && |b.items| == b.w * b.h
    ensures |its| == |b.items|
  {
    b.items[StartIndex(b) := b.items[StartIndex(b)].Consume().1]
  }

  /** Once Pacman's square is eaten, the board holds the points of its
      layout less those of his square. */
  lemma EatenPoints(b: Board)
    requires 0 <= b.start.0 < b.w && 0 <= b.start.1 < b.h && |b.items| == b.w * b.h
    ensures PointsTotal(Eaten(b)) == PointsTotal(b.items) - b.items[StartIndex(b)].PointValue()
  {
    PointsConsume(b.items, StartIndex(b));
  }

  // -------------------------------------------------------------------
  // The maze on the screen

  /** resize's offset for a maze n squares across on a screen of `screen`
      pixels: half the screen, less half the maze. */
  function Offset(screen: int, n: int): int {
    TruncDiv(screen, 2) - n * SquareDim / 2
  }

  /** A maze that fits the screen is drawn wholly on it. */
  lemma OffsetFits(screen: int, n: int)
    requires n >= 0 && n * SquareDim <= screen
    ensures 0 <= Offset(screen, n) && Offset(screen, n) + n * SquareDim <= screen
  {
  }

  /** Every level's maze fits main's 870 x 675 window, so it is drawn
      wholly on it. */
  lemma LevelsFitWindow(level: int)
    requires level >= 1
    ensures 0 <= Offset(870, LevelWidth(level)) && Offset(870, LevelWidth(level)) + LevelWidth(level) * SquareDim <= 870
    ensures 0 <= Offset(675, LevelHeight(level)) && Offset(675, LevelHeight(level)) + LevelHeight(level) * SquareDim <= 675
  {
    LevelSize(level);
    OffsetFits(870, LevelWidth(level));
    OffsetFits(675, LevelHeight(level));
  }
}
