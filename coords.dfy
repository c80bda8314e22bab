/** The coordinate transformations of vMaze.cpp between maze squares and
    screen pixels.  A square is 40 pixels wide; `offset` is the maze's dx (or
    dy) that centres the maze on the screen, and `n` is numW (or numH). */
module Coords {

  /** squareDim. */
  const SquareDim: int := 40

  /** C's `(int)` conversion of a float: truncation toward zero. */
  function Trunc(r: real): (t: int)
    ensures r >= 0.0 ==> t as real <= r < t as real + 1.0
    ensures r < 0.0 ==> t as real - 1.0 < r <= t as real
  {
    if r >= 0.0 then r.Floor else -((-r).Floor)
  }

  /** C's integer division, which truncates toward zero (Dafny's `/` does
      not for negative dividends). */
  function TruncDiv(a: int, b: int): (q: int)
    requires b > 0
    ensures a >= 0 ==> q == a / b
    ensures a < 0 ==> q == -((-a) / b)
  {
    if a >= 0 then a / b else -((-a) / b)
  }

  /** mazeX2screenX / mazeY2screenY: the centre pixel of square x. */
  function MazeToScreen(x: int, offset: int): (p: int)
    ensures p - offset - SquareDim / 2 == SquareDim * x
  {
    x * SquareDim + offset + SquareDim / 2
  }

  /** screenX2mazeX / screenY2mazeY.  ((p - dx - 20) / 40 + 0.5) is
      (p - dx) / 40 exactly, truncated toward zero, then clamped to
      [-1, n]. */
  function ScreenToMaze(p: int, offset: int, n: int): (m: int)
    requires n >= 0
    ensures -1 <= m <= n
    ensures m == -1 <==> p - offset <= -SquareDim
  {
    var t := TruncDiv(p - offset, SquareDim);
    if t < 0 then -1 else if t > n then n else t
  }

  /** The pixels of square x, for 0 < x < n, are exactly those from
      40x + dx to 40x + dx + 39.  Square 0 is twice as wide: truncation
      toward zero also sends the 39 pixels left of the maze to it. */
  lemma {:induction false} ScreenToMazeCell(p: int, offset: int, n: int, x: int)
    requires 0 <= x < n
    ensures ScreenToMaze(p, offset, n) == x <==>
      if x == 0 then -SquareDim < p - offset < SquareDim
      else SquareDim * x <= p - offset < SquareDim * x + SquareDim
  {
    var a := p - offset;
    if a >= 0 {
      if a < SquareDim * x {
        assert a / SquareDim < x;
      } else if a >= SquareDim * x + SquareDim {
        assert a / SquareDim >= x + 1;
      } else {
        assert a / SquareDim == x;
      }
    } else if a > -SquareDim {
      assert (-a) / SquareDim == 0;
    } else {
      assert (-a) / SquareDim >= 1;
    }
  }

  /** Converting a square to its centre pixel and back gives the square, for
      every square from 0 to n; the square -1 does not survive the trip. */
  lemma RoundTrip(x: int, offset: int, n: int)
    requires 0 <= x <= n
    ensures ScreenToMaze(MazeToScreen(x, offset), offset, n) == x
  {
    assert (SquareDim * x + SquareDim / 2) / SquareDim == x;
  }

  lemma RoundTripFailsBelowZero(offset: int, n: int)
    requires n >= 0
    ensures ScreenToMaze(MazeToScreen(-1, offset), offset, n) == 0
  {
  }

  /** A sprite put on the centre pixel of square x, for x from 0 to n,
      stands on square x. */
  lemma CentredCell(x: int, offset: int, n: int)
    requires 0 <= x <= n
    ensures ScreenToMaze(Trunc(MazeToScreen(x, offset) as real), offset, n) == x
  {
    RoundTrip(x, offset, n);
  }
}
