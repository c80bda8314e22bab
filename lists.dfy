/** The two singly linked lists defined inline in libArtemisExt.h: `cLine`, a
    line of console text, and `dataPoint`, a list of (x, y) samples.  Each node
    carries a ghost footprint (the nodes reachable from it) and a ghost view of
    the list from that node on.  Destructors and the interpolating
    `get(float)` are not modelled. */
module Lists {

  /** cLine: a console line and the lines after it. */
  class CLine {
    var contents: string
    var next: CLine?
    ghost var footprint: set<object>
    /** The nodes from this one to the end of the list. */
    ghost var nodes: seq<CLine>

    ghost predicate Valid()
      reads this, footprint
      decreases footprint
    {
      && this in footprint
      && |nodes| >= 1 && nodes[0] == this
      && (next == null ==> nodes == [this])
      && (next != null ==>
            && next in footprint && next.footprint <= footprint && this !in next.footprint
            && nodes == [this] + next.nodes
            && next.Valid())
    }

    /** cLine(): an empty line with nothing after it. */
    constructor ()
      ensures Valid() && fresh(footprint) && contents == "" && nodes == [this]
    {
      contents := "";
      next := null;
      footprint := {this};
      nodes := [this];
    }

    /** cLine(stuff). */
    constructor Of(stuff: string)
      ensures Valid() && fresh(footprint) && contents == stuff && nodes == [this]
    {
      contents := stuff;
      next := null;
      footprint := {this};
      nodes := [this];
    }

    /** numLines: the number of nodes from this one on, never 0. */
    function NumLines(): (r: int)
      requires Valid()
      reads footprint
      ensures r == |nodes| && r >= 1
      decreases footprint
    {
      if next == null then 1 else next.NumLines() + 1
    }

    /** get(n): the n-th node; a negative index gives this node and an index
        past the end gives the last node. */
    function Get(n: int): (r: CLine)
      requires Valid()
      reads footprint
      ensures n < 0 ==> r == this
      ensures 0 <= n < |nodes| ==> r == nodes[n]
      ensures n >= |nodes| ==> r == nodes[|nodes| - 1]
      decreases footprint
    {
      if n < 0 then this
      else if next == null && n > 0 then this
      else if n == 0 then this
      else next.Get(n - 1)
    }
  }

  /** A sample of a dataPoint list. */
  type Point = (real, real)

  /** The x values strictly increase along the list; set(float, float) relies
      on it. */
  ghost predicate Ascending(ps: seq<Point>) {
    forall i, j :: 0 <= i < j < |ps| ==> ps[i].0 < ps[j].0
  }

  /** The x values that occur in a list. */
  ghost function Keys(ps: seq<Point>): set<real> {
    set i | 0 <= i < |ps| :: ps[i].0
  }

  /** What set(nx, ny) does to the samples from a node on: walk while x < nx,
      then replace the y of an equal x, or insert before a larger x, or append
      at the end. */
  ghost function Inserted(ps: seq<Point>, nx: real, ny: real): (r: seq<Point>)
    requires |ps| >= 1
    ensures |r| >= 1
    decreases |ps|
  {
    if ps[0].0 == nx then [(nx, ny)] + ps[1..]
    else if ps[0].0 < nx then
      (if |ps| == 1 then ps + [(nx, ny)] else [ps[0]] + Inserted(ps[1..], nx, ny))
    else [(nx, ny)] + ps
  }

  /** On an ascending list an existing x keeps its place and gets the new y. */
  lemma {:induction false} InsertedReplaces(ps: seq<Point>, nx: real, ny: real, i: int)
    requires |ps| >= 1 && Ascending(ps)
    requires 0 <= i < |ps| && ps[i].0 == nx
    ensures Inserted(ps, nx, ny) == ps[i := (nx, ny)]
    decreases |ps|
  {
    if ps[0].0 == nx {
      assert [(nx, ny)] + ps[1..] == ps[0 := (nx, ny)];
    } else {
      if i == 0 {
        assert false;
      }
      assert ps[0].0 < ps[i].0;
      InsertedReplaces(ps[1..], nx, ny, i - 1);
      assert [ps[0]] + ps[1..][i - 1 := (nx, ny)] == ps[i := (nx, ny)];
    }
  }

  /** The tail of a list has no x value the list lacks. */
  lemma TailKeys(ps: seq<Point>)
    requires |ps| >= 1
    ensures Keys(ps[1..]) <= Keys(ps)
  {
    forall v | v in Keys(ps[1..]) ensures v in Keys(ps) {
      var j :| 0 <= j < |ps[1..]| && ps[1..][j].0 == v;
      assert ps[j + 1].0 == v;
    }
  }

  /** On an ascending list a new x is inserted as exactly one new sample,
      after every smaller x and before every larger one. */
  lemma {:induction false} InsertedAdds(ps: seq<Point>, nx: real, ny: real) returns (k: int)
    requires |ps| >= 1 && Ascending(ps)
    requires nx !in Keys(ps)
    ensures 0 <= k <= |ps| && Inserted(ps, nx, ny) == ps[..k] + [(nx, ny)] + ps[k..]
    ensures forall i :: 0 <= i < k ==> ps[i].0 < nx
    ensures forall i :: k <= i < |ps| ==> nx < ps[i].0
    decreases |ps|
  {
    assert ps[0].0 in Keys(ps);
    if ps[0].0 > nx {
      k := 0;
      InsertedFirst(ps, nx, ny);
    } else if |ps| == 1 {
      k := 1;
      assert Inserted(ps, nx, ny) == ps[..1] + [(nx, ny)] + ps[1..];
    } else {
      TailKeys(ps);
      var k' := InsertedAdds(ps[1..], nx, ny);
      k := k' + 1;
      InsertedLater(ps, nx, ny, k');
    }
  }

  /** A new x below the first one goes in front. */
  lemma InsertedFirst(ps: seq<Point>, nx: real, ny: real)
    requires |ps| >= 1 && Ascending(ps) && nx < ps[0].0
    ensures Inserted(ps, nx, ny) == ps[..0] + [(nx, ny)] + ps[0..]
    ensures forall i :: 0 <= i < |ps| ==> nx < ps[i].0
  {
    assert Inserted(ps, nx, ny) == ps[..0] + [(nx, ny)] + ps[0..];
    forall i | 0 <= i < |ps| ensures nx < ps[i].0 {
      if i > 0 {
        assert ps[0].0 < ps[i].0;
      }
    }
  }

  /** A new x above the first one goes where it goes in the tail, one later. */
  lemma InsertedLater(ps: seq<Point>, nx: real, ny: real, k': int)
    requires |ps| >= 2 && ps[0].0 < nx
    requires 0 <= k' <= |ps[1..]| && Inserted(ps[1..], nx, ny) == ps[1..][..k'] + [(nx, ny)] + ps[1..][k'..]
    requires forall i :: 0 <= i < k' ==> ps[1..][i].0 < nx
    requires forall i :: k' <= i < |ps[1..]| ==> nx < ps[1..][i].0
    ensures Inserted(ps, nx, ny) == ps[..k' + 1] + [(nx, ny)] + ps[k' + 1..]
    ensures forall i :: 0 <= i < k' + 1 ==> ps[i].0 < nx
    ensures forall i :: k' + 1 <= i < |ps| ==> nx < ps[i].0
  {
    InsertedLaterShape(ps, nx, ny, k');
    InsertedLaterOrder(ps, ps[1..], nx, k');
  }

  /** The shape of InsertedLater: the first sample, then the tail with the
      new one spliced in. */
  lemma InsertedLaterShape(ps: seq<Point>, nx: real, ny: real, k': int)
    requires |ps| >= 2 && ps[0].0 < nx
    requires 0 <= k' <= |ps| - 1 && Inserted(ps[1..], nx, ny) == ps[1..][..k'] + [(nx, ny)] + ps[1..][k'..]
    ensures Inserted(ps, nx, ny) == ps[..k' + 1] + [(nx, ny)] + ps[k' + 1..]
  {
    var tail, x := ps[1..], (nx, ny);
    var front, back := tail[..k'], tail[k'..];
    assert Inserted(ps, nx, ny) == [ps[0]] + (front + [x] + back);
    assert [ps[0]] + (front + [x] + back) == ([ps[0]] + front) + [x] + back;
    assert ps[..k' + 1] == [ps[0]] + front;
    assert ps[k' + 1..] == back;
  }

  /** The order of InsertedLater: the tail's split point, one later, splits
      the whole list. */
  lemma InsertedLaterOrder(ps: seq<Point>, tail: seq<Point>, nx: real, k': int)
    requires |ps| >= 2 && ps[0].0 < nx && tail == ps[1..] && 0 <= k' <= |tail|
    requires forall i :: 0 <= i < k' ==> tail[i].0 < nx
    requires forall i :: k' <= i < |tail| ==> nx < tail[i].0
    ensures forall i :: 0 <= i < k' + 1 ==> ps[i].0 < nx
    ensures forall i :: k' + 1 <= i < |ps| ==> nx < ps[i].0
  {
    forall i | 1 <= i < |ps| ensures ps[i] == tail[i - 1] {
    }
  }

  /** A sample placed between the smaller and the larger x values of an
      ascending list leaves it ascending. */
  lemma SplicedAscending(ps: seq<Point>, k: int, p: Point)
    requires Ascending(ps) && 0 <= k <= |ps|
    requires forall i :: 0 <= i < k ==> ps[i].0 < p.0
    requires forall i :: k <= i < |ps| ==> p.0 < ps[i].0
    ensures Ascending(ps[..k] + [p] + ps[k..])
  {
    var r := ps[..k] + [p] + ps[k..];
    forall i, j | 0 <= i < j < |r| ensures r[i].0 < r[j].0 {
      if i < k {
        assert r[i] == ps[i];
      } else if i > k {
        assert r[i] == ps[i - 1];
      }
      if j < k {
        assert r[j] == ps[j];
      } else if j > k {
        assert r[j] == ps[j - 1];
      }
    }
  }

  /** set(nx, ny) keeps an ascending list ascending. */
  lemma InsertedAscending(ps: seq<Point>, nx: real, ny: real)
    requires |ps| >= 1 && Ascending(ps)
    ensures Ascending(Inserted(ps, nx, ny))
  {
    if nx in Keys(ps) {
      var i :| 0 <= i < |ps| && ps[i].0 == nx;
      InsertedReplaces(ps, nx, ny, i);
    } else {
      var k := InsertedAdds(ps, nx, ny);
      SplicedAscending(ps, k, (nx, ny));
    }
  }

  /** dataPoint: a sample and the samples after it. */
  class DataPoint {
    var x: real
    var y: real
    var next: DataPoint?
    ghost var footprint: set<object>
    /** The samples from this node to the end of the list. */
    ghost var pts: seq<Point>

    ghost predicate Valid()
      reads this, footprint
      decreases footprint
    {
      && this in footprint
      && (next == null ==> pts == [(x, y)])
      && (next != null ==>
            && next in footprint && next.footprint <= footprint && this !in next.footprint
            && pts == [(x, y)] + next.pts
            && next.Valid())
    }

    /** dataPoint(): the single sample (0, 0). */
    constructor ()
      ensures Valid() && fresh(footprint) && pts == [(0.0, 0.0)]
    {
      x, y := 0.0, 0.0;
      next := null;
      footprint := {this};
      pts := [(0.0, 0.0)];
    }

    /** dataPoint(nx, ny): the single sample (nx, ny). */
    constructor Of(nx: real, ny: real)
      ensures Valid() && fresh(footprint) && pts == [(nx, ny)]
    {
      x, y := nx, ny;
      next := null;
      footprint := {this};
      pts := [(nx, ny)];
    }

    /** The copy constructor: a deep copy, equal in value and sharing no node
        with the original. */
    constructor Copy(operand: DataPoint)
      requires operand.Valid()
      ensures Valid() && fresh(footprint) && pts == operand.pts
      decreases operand.footprint
    {
      x, y := operand.x, operand.y;
      if operand.next != null {
        var rest := new DataPoint.Copy(operand.next);
        next := rest;
        footprint := {this} + rest.footprint;
        pts := [(operand.x, operand.y)] + rest.pts;
      } else {
        next := null;
        footprint := {this};
        pts := [(operand.x, operand.y)];
      }
    }

    /** dataPoint(n) for n >= 1: the samples (n, 0), (n - 1, 0), ..., (1, 0). */
    constructor Ramp(n: int)
      requires n >= 1
      ensures Valid() && fresh(footprint)
      ensures |pts| == n && forall i :: 0 <= i < n ==> pts[i] == ((n - i) as real, 0.0)
      decreases n
    {
      x, y := n as real, 0.0;
      if n == 1 {
        next := null;
        footprint := {this};
        pts := [(n as real, 0.0)];
      } else {
        var rest := new DataPoint.Ramp(n - 1);
        next := rest;
        footprint := {this} + rest.footprint;
        pts := [(n as real, 0.0)] + rest.pts;
      }
    }

    /** length: the number of samples from this node on. */
    function Length(): (r: int)
      requires Valid()
      reads footprint
      ensures r == |pts| && r >= 1
      decreases footprint
    {
      if next == null then 1 else next.Length() + 1
    }

    /** get(int n): a copy of the n-th sample, or (0, 0) for any index
        outside the list, negative ones included. */
    function Get(n: int): (r: Point)
      requires Valid()
      reads footprint
      ensures 0 <= n < |pts| ==> r == pts[n]
      ensures !(0 <= n < |pts|) ==> r == (0.0, 0.0)
      decreases footprint
    {
      if n == 0 then (x, y)
      else if next == null then (0.0, 0.0)
      else next.Get(n - 1)
    }

    /** set(float nx, float ny), relinking nodes in place. */
    method Set(nx: real, ny: real)
      requires Valid()
      modifies footprint
      ensures Valid() && fresh(footprint - old(footprint))
      ensures pts == Inserted(old(pts), nx, ny)
      ensures Ascending(old(pts)) ==> Ascending(pts)
      decreases footprint
    {
      ghost var before := pts;
      if x == nx {
        SetHere(ny);
      } else if x < nx {
        if next == null {
          Append(nx, ny);
        } else {
          next.Set(nx, ny);
          footprint := footprint + next.footprint;
          pts := [(x, y)] + next.pts;
        }
      } else {
        Prepend(nx, ny);
      }
      if Ascending(before) {
        InsertedAscending(before, nx, ny);
      }
    }

    /** The first case of set: this node's x is nx, so its y becomes ny. */
    method SetHere(ny: real)
      requires Valid()
      modifies this
      ensures Valid() && footprint == old(footprint)
      ensures pts == Inserted(old(pts), x, ny) && x == old(x)
    {
      y := ny;
      if next == null {
        pts := [(x, y)];
      } else {
        pts := [(x, y)] + next.pts;
      }
    }

    /** set past the last x: a new node at the end. */
    method Append(nx: real, ny: real)
      requires Valid() && x < nx && next == null
      modifies this
      ensures Valid() && fresh(footprint - old(footprint))
      ensures pts == Inserted(old(pts), nx, ny)
    {
      var tail := new DataPoint.Of(nx, ny);
      next := tail;
      footprint := footprint + tail.footprint;
      pts := pts + [(nx, ny)];
    }

    /** set before this node's x: this node takes (nx, ny) and a new node
        after it takes over its old sample and successor. */
    method Prepend(nx: real, ny: real)
      requires Valid() && nx < x
      modifies this
      ensures Valid() && fresh(footprint - old(footprint))
      ensures pts == Inserted(old(pts), nx, ny)
    {
      var insert := new DataPoint.Of(x, y);
      insert.next := next;
      if next == null {
        insert.footprint := {insert};
      } else {
        insert.footprint := {insert} + next.footprint;
      }
      insert.pts := pts;
      x, y := nx, ny;
      next := insert;
      footprint := footprint + {insert};
      pts := [(nx, ny)] + insert.pts;
    }

    /** set(int n, float ny): the n-th y becomes ny; an index outside the
        list (negative ones included) appends one sample whose x is one more
        than the last x. */
    method SetAt(n: int, ny: real)
      requires Valid()
      modifies footprint
      ensures Valid() && fresh(footprint - old(footprint))
      ensures 0 <= n < |old(pts)| ==> pts == old(pts)[n := (old(pts)[n].0, ny)]
      ensures !(0 <= n < |old(pts)|) ==> pts == old(pts) + [(old(pts)[|old(pts)| - 1].0 + 1.0, ny)]
      decreases footprint
    {
      if n == 0 {
        y := ny;
        if next == null {
          pts := [(x, y)];
        } else {
          pts := [(x, y)] + next.pts;
        }
      } else if next == null {
        var tail := new DataPoint.Of(x + 1.0, ny);
        next := tail;
        footprint := footprint + tail.footprint;
        pts := pts + [(x + 1.0, ny)];
      } else {
        next.SetAt(n - 1, ny);
        footprint := footprint + next.footprint;
        pts := [(x, y)] + next.pts;
      }
    }
  }
}
