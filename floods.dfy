/** The facts behind the two recursive flood fills of vMaze.cpp, stated on
    snapshots: `ws` holds the walls the fill follows (they do not change while
    it runs), `s` the current `accessible` flags, `v` the current contents of
    aStarPlot's distance array. */
module Floods {
  import opened Grid

  // ---------------------------------------------------------------------
  // refreshAccessibility

  /** Every passage out of (x, y) leads to an accessible square. */
  ghost predicate Sealed(ws: seq<Square>, s: seq<Square>, w: int, h: int, x: int, y: int)
    requires |ws| == w * h && |s| == w * h && InGrid(w, h, x, y)
  {
    && (Open(ws, w, h, x, y, Up) ==> At(s, w, h, x, y + 1).accessible)
    && (Open(ws, w, h, x, y, Down) ==> At(s, w, h, x, y - 1).accessible)
    && (Open(ws, w, h, x, y, Left) ==> At(s, w, h, x - 1, y).accessible)
    && (Open(ws, w, h, x, y, Right) ==> At(s, w, h, x + 1, y).accessible)
  }

  /** Every accessible square is in the ghost town or reachable from its
      entrance. */
  ghost predicate Justified(ws: seq<Square>, s: seq<Square>, w: int, h: int)
    requires |ws| == w * h && |s| == w * h
  {
    forall x, y :: InGrid(w, h, x, y) && At(s, w, h, x, y).accessible ==>
      InGhostTown(w, h, x, y) || ReachableFromEntrance(ws, w, h, x, y)
  }

  /** The flags only go from false to true. */
  ghost predicate MarksGrow(s1: seq<Square>, s2: seq<Square>) {
    |s1| == |s2| && forall i :: 0 <= i < |s1| && s1[i].accessible ==> s2[i].accessible
  }

  /** Only `accessible` flags changed. */
  ghost predicate OnlyMarksChanged(s1: seq<Square>, s2: seq<Square>) {
    && |s1| == |s2|
    && forall i :: 0 <= i < |s1| ==> s2[i] == s1[i].(accessible := s2[i].accessible)
  }

  /** The number of squares not yet marked; the fill marks one of them
      before each recursive call, so it bounds the recursion. */
  ghost function Unmarked(s: seq<Square>): nat {
    if s == [] then 0 else Unmarked(s[..|s| - 1]) + (if s[|s| - 1].accessible then 0 else 1)
  }

  /** Marks that only grow never add unmarked squares, and marking one more
      square removes one. */
  lemma {:induction false} GrowShrinks(s1: seq<Square>, s2: seq<Square>)
    requires MarksGrow(s1, s2)
    ensures Unmarked(s2) <= Unmarked(s1)
    ensures (exists i :: 0 <= i < |s1| && !s1[i].accessible && s2[i].accessible) ==> Unmarked(s2) < Unmarked(s1)
  {
    if s1 != [] {
      var n := |s1| - 1;
      GrowShrinks(s1[..n], s2[..n]);
      if exists i :: 0 <= i < |s1| && !s1[i].accessible && s2[i].accessible {
        var i :| 0 <= i < |s1| && !s1[i].accessible && s2[i].accessible;
        if i < n {
          assert !s1[..n][i].accessible && s2[..n][i].accessible;
        }
      }
    }
  }

  lemma MarkShrinks(s: seq<Square>, i: int)
    requires 0 <= i < |s| && !s[i].accessible
    ensures Unmarked(s[i := s[i].(accessible := true)]) < Unmarked(s)
  {
    GrowShrinks(s, s[i := s[i].(accessible := true)]);
  }

  /** The four ghost-town squares are marked. */
  ghost predicate TownMarked(s: seq<Square>, w: int, h: int)
    requires |s| == w * h
  {
    forall x, y :: InGrid(w, h, x, y) && InGhostTown(w, h, x, y) ==> At(s, w, h, x, y).accessible
  }

  /** Every square marked on the way from s1 to s2 is sealed in s2. */
  ghost predicate FreshSealed(ws: seq<Square>, s1: seq<Square>, s2: seq<Square>, w: int, h: int)
    requires |ws| == w * h && |s1| == w * h && |s2| == w * h
  {
    forall x, y :: InGrid(w, h, x, y) && At(s2, w, h, x, y).accessible && !At(s1, w, h, x, y).accessible ==>
      Sealed(ws, s2, w, h, x, y)
  }

  /** More marks keep a square sealed. */
  lemma SealedGrows(ws: seq<Square>, s1: seq<Square>, s2: seq<Square>, w: int, h: int, x: int, y: int)
    requires |ws| == w * h && |s1| == w * h && MarksGrow(s1, s2) && InGrid(w, h, x, y)
    requires Sealed(ws, s1, w, h, x, y)
    ensures Sealed(ws, s2, w, h, x, y)
  {
    if Open(ws, w, h, x, y, Up) { assert s1[Idx(w, h, x, y + 1)].accessible; }
    if Open(ws, w, h, x, y, Down) { assert s1[Idx(w, h, x, y - 1)].accessible; }
    if Open(ws, w, h, x, y, Left) { assert s1[Idx(w, h, x - 1, y)].accessible; }
    if Open(ws, w, h, x, y, Right) { assert s1[Idx(w, h, x + 1, y)].accessible; }
  }

  /** Two stretches of a fill that each seal what they mark make one. */
  lemma FreshSealedTrans(ws: seq<Square>, s1: seq<Square>, s2: seq<Square>, s3: seq<Square>, w: int, h: int)
    requires |ws| == w * h && |s1| == w * h && MarksGrow(s1, s2) && MarksGrow(s2, s3)
    requires FreshSealed(ws, s1, s2, w, h) && FreshSealed(ws, s2, s3, w, h)
    ensures FreshSealed(ws, s1, s3, w, h)
  {
    forall x, y | InGrid(w, h, x, y) && At(s3, w, h, x, y).accessible && !At(s1, w, h, x, y).accessible
      ensures Sealed(ws, s3, w, h, x, y)
    {
      if At(s2, w, h, x, y).accessible {
        SealedGrows(ws, s2, s3, w, h, x, y);
      }
    }
  }

  /** The four branches of one step of the fill, run one after the other,
      leave (x, y) sealed: each one marked the square behind its side if that
      side is open, and marks only grow afterwards. */
  lemma SealedAfterBranches(ws: seq<Square>, s1: seq<Square>, s2: seq<Square>, s3: seq<Square>, s4: seq<Square>,
                            w: int, h: int, x: int, y: int)
    requires |ws| == w * h && |s1| == w * h && InGrid(w, h, x, y)
    requires MarksGrow(s1, s2) && MarksGrow(s2, s3) && MarksGrow(s3, s4)
    requires Open(ws, w, h, x, y, Up) ==> At(s1, w, h, x, y + 1).accessible
    requires Open(ws, w, h, x, y, Down) ==> At(s2, w, h, x, y - 1).accessible
    requires Open(ws, w, h, x, y, Left) ==> At(s3, w, h, x - 1, y).accessible
    requires Open(ws, w, h, x, y, Right) ==> At(s4, w, h, x + 1, y).accessible
    ensures Sealed(ws, s4, w, h, x, y)
  {
    if Open(ws, w, h, x, y, Up) { assert s1[Idx(w, h, x, y + 1)].accessible; }
    if Open(ws, w, h, x, y, Down) { assert s2[Idx(w, h, x, y - 1)].accessible; }
    if Open(ws, w, h, x, y, Left) { assert s3[Idx(w, h, x - 1, y)].accessible; }
  }

  /** Marks growing in two stretches grow overall. */
  lemma GrowTrans(s1: seq<Square>, s2: seq<Square>, s3: seq<Square>)
    requires MarksGrow(s1, s2) && MarksGrow(s2, s3)
    ensures MarksGrow(s1, s3)
  {
  }

  /** The fill started with exactly the ghost town marked, sealed every
      square it marked and the entrance: then every marked square outside
      the pen is sealed. */
  lemma FillSealsAll(ws: seq<Square>, s: seq<Square>, w: int, h: int)
    requires |ws| == w * h && |s| == w * h
    requires forall x, y :: InGrid(w, h, x, y) ==> (At(ws, w, h, x, y).accessible <==> InGhostTown(w, h, x, y))
    requires FreshSealed(ws, ws, s, w, h)
    requires InGrid(w, h, Entrance(w, h).0, Entrance(w, h).1)
    requires Sealed(ws, s, w, h, Entrance(w, h).0, Entrance(w, h).1)
    ensures SealedOutsidePen(ws, s, w, h)
  {
  }

  /** At the start of the fill only the ghost town is marked, so every mark
      is justified. */
  lemma TownJustified(ws: seq<Square>, s: seq<Square>, w: int, h: int)
    requires |ws| == w * h && |s| == w * h
    requires forall x, y :: InGrid(w, h, x, y) ==> (At(s, w, h, x, y).accessible <==> InGhostTown(w, h, x, y))
    ensures Justified(ws, s, w, h) && TownMarked(s, w, h)
  {
  }

  /** Marking the neighbour behind a passage out of a reachable square keeps
      every mark justified, marks only grow, and one fewer square is
      unmarked. */
  lemma MarkNeighbour(ws: seq<Square>, s: seq<Square>, w: int, h: int, x: int, y: int, d: MazeDirection)
    requires |ws| == w * h && |s| == w * h
    requires Justified(ws, s, w, h) && TownMarked(s, w, h) && ReachableFromEntrance(ws, w, h, x, y)
    requires Open(ws, w, h, x, y, d) && !At(s, w, h, StepX(x, d), StepY(y, d)).accessible
    ensures InGrid(w, h, StepX(x, d), StepY(y, d))
    ensures var i := Idx(w, h, StepX(x, d), StepY(y, d));
      var s2 := s[i := s[i].(accessible := true)];
      && Justified(ws, s2, w, h) && TownMarked(s2, w, h) && MarksGrow(s, s2)
      && Unmarked(s2) < Unmarked(s) && ReachableFromEntrance(ws, w, h, StepX(x, d), StepY(y, d))
      && (OnlyMarksChanged(ws, s) ==> OnlyMarksChanged(ws, s2))
  {
    var nx, ny := StepX(x, d), StepY(y, d);
    var i := Idx(w, h, nx, ny);
    var s2 := s[i := s[i].(accessible := true)];
    var k: nat :| Path(ws, w, h, Entrance(w, h), Pen(w, h), x, y, k);
    assert (nx, ny) !in Pen(w, h);
    PathStep(ws, w, h, Entrance(w, h), Pen(w, h), x, y, d, k);
    assert ReachableFromEntrance(ws, w, h, nx, ny);
    MarkShrinks(s, i);
    forall a, b | InGrid(w, h, a, b)
      ensures At(s2, w, h, a, b) == if a == nx && b == ny then s[i].(accessible := true) else At(s, w, h, a, b)
    {
      AtUpdate(s, w, h, nx, ny, s[i].(accessible := true), a, b);
    }
  }

  /** Every marked square outside the pen is sealed. */
  ghost predicate SealedOutsidePen(ws: seq<Square>, s: seq<Square>, w: int, h: int)
    requires |ws| == w * h && |s| == w * h
  {
    forall a, b :: InGrid(w, h, a, b) && At(s, w, h, a, b).accessible && (a, b) !in Pen(w, h) ==>
      Sealed(ws, s, w, h, a, b)
  }

  /** One passage out of a marked square outside the pen leads to a marked
      square. */
  lemma StepMarked(ws: seq<Square>, s: seq<Square>, w: int, h: int, a: int, b: int, d: MazeDirection)
    requires |ws| == w * h && |s| == w * h && SealedOutsidePen(ws, s, w, h)
    requires InGrid(w, h, a, b) && At(s, w, h, a, b).accessible && (a, b) !in Pen(w, h)
    requires Open(ws, w, h, a, b, d)
    ensures At(s, w, h, StepX(a, d), StepY(b, d)).accessible
  {
    assert Sealed(ws, s, w, h, a, b);
  }

  /** A square the entrance reaches is marked: a path leaves the pen alone, so
      every square it passes through is either the entrance or a marked
      square outside the pen. */
  lemma {:induction false} ReachedIsMarked(ws: seq<Square>, s: seq<Square>, w: int, h: int, x: int, y: int, k: nat)
    requires |ws| == w * h && |s| == w * h
    requires InGrid(w, h, Entrance(w, h).0, Entrance(w, h).1) ==> At(s, w, h, Entrance(w, h).0, Entrance(w, h).1).accessible
    requires SealedOutsidePen(ws, s, w, h)
    requires Path(ws, w, h, Entrance(w, h), Pen(w, h), x, y, k)
    ensures At(s, w, h, x, y).accessible
    decreases k
  {
    if (x, y) != Entrance(w, h) {
      var a, b, d := PathPred(ws, w, h, Entrance(w, h), Pen(w, h), x, y, k);
      ReachedIsMarked(ws, s, w, h, a, b, k - 1);
      if (a, b) == Entrance(w, h) {
        EntranceOutsidePen(w, h);
      }
      StepMarked(ws, s, w, h, a, b, d);
    }
  }

  lemma EntranceOutsidePen(w: int, h: int)
    ensures Entrance(w, h) !in Pen(w, h)
  {
  }

  /** When the fill is over: the ghost town is marked, every other marked
      square is sealed, and every mark is justified.  Then the marks are
      exactly the ghost town plus what the entrance reaches. */
  lemma FloodComplete(ws: seq<Square>, s: seq<Square>, w: int, h: int)
    requires |ws| == w * h && |s| == w * h && SameWalls(ws, s)
    requires InGrid(w, h, Entrance(w, h).0, Entrance(w, h).1)
    requires forall x, y :: InGrid(w, h, x, y) && InGhostTown(w, h, x, y) ==> At(s, w, h, x, y).accessible
    requires SealedOutsidePen(ws, s, w, h)
    requires Justified(ws, s, w, h)
    ensures AccessibilityExact(s, w, h)
  {
    forall x, y | InGrid(w, h, x, y)
      ensures At(s, w, h, x, y).accessible <==> InGhostTown(w, h, x, y) || ReachableFromEntrance(s, w, h, x, y)
    {
      if ReachableFromEntrance(s, w, h, x, y) {
        ReachableGrows(s, ws, w, h, x, y);
      }
      if ReachableFromEntrance(ws, w, h, x, y) {
        var k: nat :| Path(ws, w, h, Entrance(w, h), Pen(w, h), x, y, k);
        ReachedIsMarked(ws, s, w, h, x, y, k);
        ReachableGrows(ws, s, w, h, x, y);
      }
    }
  }

  // ---------------------------------------------------------------------
  // aStarPlot

  /** A plotted square is settled when every passage out of it leads to a
      plotted square at most one step further from the source. */
  ghost predicate Settled(ws: seq<Square>, v: seq<int>, w: int, h: int, x: int, y: int)
    requires |ws| == w * h && |v| == w * h && InGrid(w, h, x, y)
  {
    var c := v[Idx(w, h, x, y)];
    c == -1 ||
    (&& (Open(ws, w, h, x, y, Up) ==> v[Idx(w, h, x, y + 1)] != -1 && v[Idx(w, h, x, y + 1)] <= c + 1)
     && (Open(ws, w, h, x, y, Down) ==> v[Idx(w, h, x, y - 1)] != -1 && v[Idx(w, h, x, y - 1)] <= c + 1)
     && (Open(ws, w, h, x, y, Left) ==> v[Idx(w, h, x - 1, y)] != -1 && v[Idx(w, h, x - 1, y)] <= c + 1)
     && (Open(ws, w, h, x, y, Right) ==> v[Idx(w, h, x + 1, y)] != -1 && v[Idx(w, h, x + 1, y)] <= c + 1))
  }

  /** Every plotted value is at least 0 and a path that long exists. */
  ghost predicate Supported(ws: seq<Square>, v: seq<int>, w: int, h: int, src: (int, int))
    requires |ws| == w * h && |v| == w * h
  {
    forall x, y :: InGrid(w, h, x, y) ==>
      var c := v[Idx(w, h, x, y)];
      c == -1 || (c >= 0 && Path(ws, w, h, src, {}, x, y, c))
  }

  /** Values only improve: a plotted value never goes back to -1 and never
      grows, and -1 may be replaced by anything. */
  ghost predicate Improved(v1: seq<int>, v2: seq<int>) {
    && |v1| == |v2|
    && forall i :: 0 <= i < |v1| ==> v1[i] == v2[i] || v1[i] == -1 || (v2[i] != -1 && v2[i] <= v1[i])
  }

  /** No square occurs twice on the recursion stack. */
  ghost predicate Distinct(st: seq<int>) {
    forall i, j :: 0 <= i < j < |st| ==> st[i] != st[j]
  }

  /** st with e taken out. */
  ghost function Without(st: seq<int>, e: int): (r: seq<int>)
    ensures forall x :: x in r <==> x in st && x != e
    ensures e !in st ==> r == st
  {
    if st == [] then []
    else if st[0] == e then Without(st[1..], e)
    else [st[0]] + Without(st[1..], e)
  }

  /** Taking one value out of a distinct stack removes at most one entry. */
  lemma {:induction false} WithoutDistinct(st: seq<int>, e: int)
    requires Distinct(st)
    ensures Distinct(Without(st, e)) && |Without(st, e)| + 1 >= |st|
  {
    if st != [] {
      assert Distinct(st[1..]) by {
        forall i, j | 0 <= i < j < |st[1..]| ensures st[1..][i] != st[1..][j] {
          assert st[1..][i] == st[i + 1] && st[1..][j] == st[j + 1];
        }
      }
      WithoutDistinct(st[1..], e);
      if st[0] == e {
        assert e !in st[1..];
      } else {
        var rest := Without(st[1..], e);
        assert st[0] !in rest;
        assert Without(st, e) == [st[0]] + rest;
      }
    }
  }

  /** The pigeonhole principle: a stack of distinct indices below n holds at
      most n of them. */
  lemma {:induction false} DistinctBounded(st: seq<int>, n: nat)
    requires Distinct(st) && forall i :: 0 <= i < |st| ==> 0 <= st[i] < n
    ensures |st| <= n
    decreases n
  {
    if st != [] {
      assert 0 <= st[0] < n;
      var r := Without(st, n - 1);
      WithoutDistinct(st, n - 1);
      forall i | 0 <= i < |r|
        ensures 0 <= r[i] < n - 1
      {
        assert r[i] in r;
      }
      DistinctBounded(r, n - 1);
    }
  }

  /** With every square settled, a path of k passages bounds the value. */
  lemma {:induction false} SettledBounds(ws: seq<Square>, v: seq<int>, w: int, h: int, src: (int, int),
                                         x: int, y: int, k: nat)
    requires |ws| == w * h && |v| == w * h && InGrid(w, h, src.0, src.1)
    requires v[Idx(w, h, src.0, src.1)] == 0
    requires forall a, b :: InGrid(w, h, a, b) ==> Settled(ws, v, w, h, a, b)
    requires Path(ws, w, h, src, {}, x, y, k)
    ensures v[Idx(w, h, x, y)] != -1 && v[Idx(w, h, x, y)] <= k
    decreases k
  {
    if (x, y) != src {
      if Open(ws, w, h, x, y - 1, Up) && Path(ws, w, h, src, {}, x, y - 1, k - 1) {
        SettledBounds(ws, v, w, h, src, x, y - 1, k - 1);
        assert Settled(ws, v, w, h, x, y - 1);
      } else if Open(ws, w, h, x, y + 1, Down) && Path(ws, w, h, src, {}, x, y + 1, k - 1) {
        SettledBounds(ws, v, w, h, src, x, y + 1, k - 1);
        assert Settled(ws, v, w, h, x, y + 1);
      } else if Open(ws, w, h, x + 1, y, Left) && Path(ws, w, h, src, {}, x + 1, y, k - 1) {
        SettledBounds(ws, v, w, h, src, x + 1, y, k - 1);
        assert Settled(ws, v, w, h, x + 1, y);
      } else {
        SettledBounds(ws, v, w, h, src, x - 1, y, k - 1);
        assert Settled(ws, v, w, h, x - 1, y);
      }
    }
  }

  /** The distance aStarPlot promises: -1 exactly for the squares no path
      reaches, otherwise the length of a shortest path. */
  ghost predicate IsDistance(ws: seq<Square>, w: int, h: int, src: (int, int), x: int, y: int, d: int)
    requires |ws| == w * h
  {
    && (d == -1 <==> forall k: nat :: !Path(ws, w, h, src, {}, x, y, k))
    && (d != -1 ==> d >= 0 && Path(ws, w, h, src, {}, x, y, d) &&
                    forall k: nat :: Path(ws, w, h, src, {}, x, y, k) ==> d <= k)
  }

  /** Settled everywhere and supported: the array holds shortest distances. */
  lemma PlotIsShortest(ws: seq<Square>, v: seq<int>, w: int, h: int, src: (int, int))
    requires |ws| == w * h && |v| == w * h && InGrid(w, h, src.0, src.1)
    requires v[Idx(w, h, src.0, src.1)] == 0
    requires forall a, b :: InGrid(w, h, a, b) ==> Settled(ws, v, w, h, a, b)
    requires Supported(ws, v, w, h, src)
    ensures forall x, y :: InGrid(w, h, x, y) ==> IsDistance(ws, w, h, src, x, y, v[Idx(w, h, x, y)])
  {
    forall x, y | InGrid(w, h, x, y)
      ensures IsDistance(ws, w, h, src, x, y, v[Idx(w, h, x, y)])
    {
      var d := v[Idx(w, h, x, y)];
      forall k: nat | Path(ws, w, h, src, {}, x, y, k)
        ensures d != -1 && d <= k
      {
        SettledBounds(ws, v, w, h, src, x, y, k);
      }
    }
  }

  // ---------------------------------------------------------------------
  // The recursion of aStarPlot

  /** Values only improve, in two stretches. */
  lemma ImprovedTrans(v1: seq<int>, v2: seq<int>, v3: seq<int>)
    requires Improved(v1, v2) && Improved(v2, v3)
    ensures Improved(v1, v3)
  {
  }

  /** A settled square whose own value stays put stays settled while the
      values around it improve. */
  lemma ImprovedKeepsSettled(ws: seq<Square>, v1: seq<int>, v2: seq<int>, w: int, h: int, x: int, y: int)
    requires |ws| == w * h && |v1| == w * h && InGrid(w, h, x, y) && Improved(v1, v2)
    requires v1[Idx(w, h, x, y)] == v2[Idx(w, h, x, y)] && Settled(ws, v1, w, h, x, y)
    ensures Settled(ws, v2, w, h, x, y)
  {
    var c := v1[Idx(w, h, x, y)];
    if c != -1 {
      if Open(ws, w, h, x, y, Up) { Lowered(v1, v2, Idx(w, h, x, y + 1), c + 1); }
      if Open(ws, w, h, x, y, Down) { Lowered(v1, v2, Idx(w, h, x, y - 1), c + 1); }
      if Open(ws, w, h, x, y, Left) { Lowered(v1, v2, Idx(w, h, x - 1, y), c + 1); }
      if Open(ws, w, h, x, y, Right) { Lowered(v1, v2, Idx(w, h, x + 1, y), c + 1); }
    }
  }

  /** A plotted value at most b stays plotted and at most b. */
  lemma Lowered(v1: seq<int>, v2: seq<int>, i: int, b: int)
    requires Improved(v1, v2) && 0 <= i < |v1| && v1[i] != -1 && v1[i] <= b
    ensures v2[i] != -1 && v2[i] <= b
  {
  }

  /** From v1 to v2 settled squares stay settled and every square whose value
      changed ends up settled. */
  ghost predicate SettledKept(ws: seq<Square>, v1: seq<int>, v2: seq<int>, w: int, h: int)
    requires |ws| == w * h && |v1| == w * h && |v2| == w * h
  {
    forall x, y :: InGrid(w, h, x, y) && (Settled(ws, v1, w, h, x, y) || v1[Idx(w, h, x, y)] != v2[Idx(w, h, x, y)]) ==>
      Settled(ws, v2, w, h, x, y)
  }

  lemma SettledKeptTrans(ws: seq<Square>, v1: seq<int>, v2: seq<int>, v3: seq<int>, w: int, h: int)
    requires |ws| == w * h && |v1| == w * h && |v2| == w * h && |v3| == w * h
    requires SettledKept(ws, v1, v2, w, h) && SettledKept(ws, v2, v3, w, h)
    ensures SettledKept(ws, v1, v3, w, h)
  {
  }

  /** One write that improves the square (nx, ny), followed by a stretch that
      keeps settled squares settled and ends with (nx, ny) settled: together
      they keep settled squares settled. */
  lemma WriteThenSettle(ws: seq<Square>, v: seq<int>, v2: seq<int>, w: int, h: int, nx: int, ny: int, c: int)
    requires |ws| == w * h && |v| == w * h && InGrid(w, h, nx, ny) && c != -1
    requires v[Idx(w, h, nx, ny)] == -1 || c < v[Idx(w, h, nx, ny)]
    requires |v2| == w * h && Improved(v[Idx(w, h, nx, ny) := c], v2)
    requires SettledKept(ws, v[Idx(w, h, nx, ny) := c], v2, w, h) && Settled(ws, v2, w, h, nx, ny)
    ensures Improved(v, v2) && SettledKept(ws, v, v2, w, h)
  {
    forall x, y | InGrid(w, h, x, y) && (Settled(ws, v, w, h, x, y) || v[Idx(w, h, x, y)] != v2[Idx(w, h, x, y)])
      ensures Settled(ws, v2, w, h, x, y)
    {
      WriteThenSettleAt(ws, v, v2, w, h, nx, ny, c, x, y);
    }
  }

  lemma WriteThenSettleAt(ws: seq<Square>, v: seq<int>, v2: seq<int>, w: int, h: int, nx: int, ny: int, c: int,
                          x: int, y: int)
    requires |ws| == w * h && |v| == w * h && InGrid(w, h, nx, ny) && c != -1
    requires v[Idx(w, h, nx, ny)] == -1 || c < v[Idx(w, h, nx, ny)]
    requires |v2| == w * h && Improved(v[Idx(w, h, nx, ny) := c], v2)
    requires SettledKept(ws, v[Idx(w, h, nx, ny) := c], v2, w, h) && Settled(ws, v2, w, h, nx, ny)
    requires InGrid(w, h, x, y) && (Settled(ws, v, w, h, x, y) || v[Idx(w, h, x, y)] != v2[Idx(w, h, x, y)])
    ensures Settled(ws, v2, w, h, x, y)
  {
    var n := Idx(w, h, nx, ny);
    var v1 := v[n := c];
    var i := Idx(w, h, x, y);
    if i == n {
      IdxInjective(w, h, x, y, nx, ny);
    } else if v[i] == v2[i] {
      WriteImproves(v, n, c);
      ImprovedKeepsSettled(ws, v, v1, w, h, x, y);
    } else {
      assert v1[i] != v2[i];
    }
  }

  /** Writing c over -1 or over a larger value improves the values. */
  lemma WriteImproves(v: seq<int>, n: int, c: int)
    requires 0 <= n < |v| && c != -1 && (v[n] == -1 || c < v[n])
    ensures Improved(v, v[n := c])
  {
  }

  /** Each square on the recursion stack is plotted, and its value plus its
      distance from the top of the stack is at most c: the values on the
      stack rise by at least one per frame. */
  ghost predicate StackBelow(v: seq<int>, st: seq<int>, c: int) {
    forall k :: 0 <= k < |st| ==> 0 <= st[k] < |v| && v[st[k]] != -1 && v[st[k]] + (|st| - k) <= c
  }

  /** Improving the values keeps the stack below any larger bound. */
  lemma StackBelowImproved(v1: seq<int>, v2: seq<int>, st: seq<int>, c1: int, c2: int)
    requires StackBelow(v1, st, c1) && Improved(v1, v2) && c1 <= c2
    ensures StackBelow(v2, st, c2)
  {
    forall k | 0 <= k < |st|
      ensures 0 <= st[k] < |v2| && v2[st[k]] != -1 && v2[st[k]] + (|st| - k) <= c2
    {
    }
  }

  /** A square whose value exceeds c + 1 (or is -1) is neither on the stack
      nor the top of it: pushing the top and writing c + 1 to that square
      leaves the longer stack below c + 1, still without repeats. */
  lemma StackPush(v: seq<int>, st: seq<int>, me: int, c: int, n: int)
    requires StackBelow(v, st, c) && Distinct(st) && me !in st
    requires 0 <= me < |v| && v[me] != -1 && v[me] <= c
    requires 0 <= n < |v| && (v[n] == -1 || v[n] > c + 1)
    ensures n != me && n !in st
    ensures StackBelow(v[n := c + 1], st + [me], c + 1)
    ensures Distinct(st + [me]) && n !in st + [me]
  {
    forall k | 0 <= k < |st| ensures st[k] != n {
    }
    var st2 := st + [me];
    forall k | 0 <= k < |st2|
      ensures 0 <= st2[k] < |v| && v[n := c + 1][st2[k]] != -1 && v[n := c + 1][st2[k]] + (|st2| - k) <= c + 1
    {
      if k < |st| {
        assert st2[k] == st[k];
      }
    }
  }

  /** A stack below the value of its top square does not hold that square. */
  lemma TopNotInStack(v: seq<int>, st: seq<int>, me: int)
    requires 0 <= me < |v| && StackBelow(v, st, v[me])
    ensures me !in st
  {
    forall k | 0 <= k < |st| ensures st[k] != me {
    }
  }

  /** After the four relaxations of one frame: the square's value either
      stayed at c, and each open side leads to a plotted square of value at
      most c + 1, or it changed, and the frame as a whole keeps changed squares
      settled.  Either way the square ends up settled. */
  lemma FrameSettled(ws: seq<Square>, v0: seq<int>, v1: seq<int>, v2: seq<int>, v3: seq<int>, v4: seq<int>,
                     w: int, h: int, x: int, y: int)
    requires |ws| == w * h && |v0| == w * h && |v4| == w * h && InGrid(w, h, x, y)
    requires v0[Idx(w, h, x, y)] != -1
    requires Improved(v0, v1) && Improved(v1, v2) && Improved(v2, v3) && Improved(v3, v4)
    requires SettledKept(ws, v0, v4, w, h)
    requires var c := v0[Idx(w, h, x, y)];
      && (Open(ws, w, h, x, y, Up) ==> v1[Idx(w, h, x, y + 1)] != -1 && v1[Idx(w, h, x, y + 1)] <= c + 1)
      && (Open(ws, w, h, x, y, Left) ==> v2[Idx(w, h, x - 1, y)] != -1 && v2[Idx(w, h, x - 1, y)] <= c + 1)
      && (Open(ws, w, h, x, y, Down) ==> v3[Idx(w, h, x, y - 1)] != -1 && v3[Idx(w, h, x, y - 1)] <= c + 1)
      && (Open(ws, w, h, x, y, Right) ==> v4[Idx(w, h, x + 1, y)] != -1 && v4[Idx(w, h, x + 1, y)] <= c + 1)
    ensures Settled(ws, v4, w, h, x, y)
  {
    var me := Idx(w, h, x, y);
    if v4[me] == v0[me] {
      ImprovedTrans(v1, v2, v3);
      ImprovedTrans(v1, v3, v4);
      ImprovedTrans(v2, v3, v4);
      assert v1[me] == v0[me];
      if Open(ws, w, h, x, y, Up) { assert v4[Idx(w, h, x, y + 1)] != -1; }
      if Open(ws, w, h, x, y, Left) { assert v4[Idx(w, h, x - 1, y)] != -1; }
      if Open(ws, w, h, x, y, Down) { assert v4[Idx(w, h, x, y - 1)] != -1; }
    }
  }

  /** The state aStarPlot starts from: -1 everywhere except 0 at the source. */
  ghost predicate Initial(v: seq<int>, w: int, h: int, src: (int, int))
    requires |v| == w * h
  {
    forall x, y :: InGrid(w, h, x, y) ==> v[Idx(w, h, x, y)] == if (x, y) == src then 0 else -1
  }

  /** The initial values are supported, and every square but the source is
      settled in them. */
  lemma InitialSupported(ws: seq<Square>, v: seq<int>, w: int, h: int, src: (int, int))
    requires |ws| == w * h && |v| == w * h && InGrid(w, h, src.0, src.1) && Initial(v, w, h, src)
    ensures Supported(ws, v, w, h, src)
    ensures forall x, y :: InGrid(w, h, x, y) && (x, y) != src ==> Settled(ws, v, w, h, x, y)
  {
  }

  /** When the plot from the source is over, every square is settled and the
      source still holds 0: the array holds shortest distances. */
  lemma PlotComplete(ws: seq<Square>, v0: seq<int>, v: seq<int>, w: int, h: int, src: (int, int))
    requires |ws| == w * h && |v0| == w * h && InGrid(w, h, src.0, src.1) && Initial(v0, w, h, src)
    requires |v| == w * h && Improved(v0, v) && SettledKept(ws, v0, v, w, h)
    requires Settled(ws, v, w, h, src.0, src.1) && Supported(ws, v, w, h, src)
    ensures forall x, y :: InGrid(w, h, x, y) ==> IsDistance(ws, w, h, src, x, y, v[Idx(w, h, x, y)])
  {
    InitialSupported(ws, v0, w, h, src);
    assert v[Idx(w, h, src.0, src.1)] == 0;
    PlotIsShortest(ws, v, w, h, src);
  }

  /** Writing to a square the length of a path that reaches it keeps the
      values supported. */
  lemma SupportedWrite(ws: seq<Square>, v: seq<int>, w: int, h: int, src: (int, int), nx: int, ny: int, c: int)
    requires |ws| == w * h && |v| == w * h && Supported(ws, v, w, h, src)
    requires InGrid(w, h, nx, ny) && c >= 0 && Path(ws, w, h, src, {}, nx, ny, c)
    ensures Supported(ws, v[Idx(w, h, nx, ny) := c], w, h, src)
  {
    var v2 := v[Idx(w, h, nx, ny) := c];
    forall x, y | InGrid(w, h, x, y)
      ensures var e := v2[Idx(w, h, x, y)]; e == -1 || (e >= 0 && Path(ws, w, h, src, {}, x, y, e))
    {
      if Idx(w, h, x, y) == Idx(w, h, nx, ny) {
        IdxInjective(w, h, x, y, nx, ny);
      }
    }
  }

  /** -1 everywhere but at the source, which holds 0. */
  lemma InitialOf(v: seq<int>, w: int, h: int, src: (int, int))
    requires |v| == w * h && InGrid(w, h, src.0, src.1)
    requires v[Idx(w, h, src.0, src.1)] == 0
    requires forall i :: 0 <= i < |v| && i != Idx(w, h, src.0, src.1) ==> v[i] == -1
    ensures Initial(v, w, h, src)
  {
    forall x, y | InGrid(w, h, x, y)
      ensures v[Idx(w, h, x, y)] == if (x, y) == src then 0 else -1
    {
      if Idx(w, h, x, y) == Idx(w, h, src.0, src.1) {
        IdxInjective(w, h, x, y, src.0, src.1);
      }
    }
  }
}
