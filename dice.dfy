/** Dice.cpp: each roll is arithmetic on one output `r` of the C library's
    rand(), which is passed in as a parameter.  Floating-point rounding is not
    modelled: `float` becomes `real`. */
module Dice {

  /** RAND_MAX of the Microsoft C runtime that the game was built with. */
  const RandMax: int := 32767

  /** What rand() can return. */
  predicate IsDraw(r: int) {
    0 <= r <= RandMax
  }

  /** roll(): rand() / RAND_MAX, a value in [0, 1] that includes 1. */
  function RollOf(r: int): (v: real)
    requires IsDraw(r)
    ensures 0.0 <= v <= 1.0
    ensures v == 1.0 <==> r == RandMax
  {
    r as real / RandMax as real
  }

  /** rollInt(sides): rand() % sides.  rand() is never negative, so C's
      truncating `%` agrees with Dafny's. */
  function RollIntOf(sides: int, r: int): (v: int)
    requires sides != 0 && IsDraw(r)
    ensures 0 <= v < (if sides > 0 then sides else -sides)
    ensures r < sides ==> v == r
  {
    r % sides
  }

  /** The upper bound rollIntRange actually uses: the range [low, high] is
      widened to [low, low + 1] when it is empty or a single value. */
  function EffectiveHigh(low: int, high: int): int {
    if low >= high then low + 1 else high
  }

  /** rollIntRange(low, high): "inclusive" random integer. */
  function RollIntRangeOf(low: int, high: int, r: int): (v: int)
    requires IsDraw(r)
    ensures low <= v <= EffectiveHigh(low, high)
    ensures low < high ==> v <= high
  {
    var hi := EffectiveHigh(low, high);
    r % (hi - low + 1) + low
  }

  /** The draw 0, which a run-out stream yields, gives the low end. */
  lemma ZeroDrawIsLow(low: int, high: int)
    ensures RollIntRangeOf(low, high, 0) == low
  {
    var n := EffectiveHigh(low, high) - low + 1;
    assert n > 0;
    assert 0 % n == 0;
  }

  /** rollFloat(limit): roll() * limit. */
  function RollFloatOf(limit: real, r: int): (v: real)
    requires IsDraw(r)
    ensures limit >= 0.0 ==> 0.0 <= v <= limit
    ensures r == RandMax ==> v == limit
  {
    var f := RollOf(r);
    ScaleWithin(f, limit);
    f * limit
  }

  /** rollFloatRange(low, high), with the same widening as rollIntRange. */
  function RollFloatRangeOf(low: real, high: real, r: int): (v: real)
    requires IsDraw(r)
    ensures low < high ==> low <= v <= high
    ensures low >= high ==> low <= v <= low + 1.0
  {
    low + Scaled(RollOf(r), if low >= high then 1.0 else high - low)
  }

  /** The fraction f of span. */
  function Scaled(f: real, span: real): (p: real)
    requires 0.0 <= f <= 1.0 && span >= 0.0
    ensures 0.0 <= p <= span
  {
    ScaleWithin(f, span);
    f * span
  }

  /** A fraction in [0, 1] of a non-negative span stays inside the span. */
  lemma ScaleWithin(f: real, span: real)
    requires 0.0 <= f <= 1.0
    ensures span >= 0.0 ==> 0.0 <= f * span <= span
  {
    if span >= 0.0 {
      assert span - f * span == (1.0 - f) * span;
      assert (1.0 - f) * span >= 0.0;
    }
  }

  /** Every value of the inclusive range is produced by some draw, so the
      declared range is met exactly (for ranges no wider than RAND_MAX + 1). */
  lemma RollIntRangeCovers(low: int, high: int, v: int)
    requires low < high && high - low <= RandMax
    requires low <= v <= high
    ensures IsDraw(v - low) && RollIntRangeOf(low, high, v - low) == v
  {
    var n := high - low + 1;
    assert EffectiveHigh(low, high) - low + 1 == n;
    assert (v - low) / n == 0;
    assert (v - low) % n == v - low;
  }

  /** When low >= high the result may exceed `high`: the draw 1 gives low + 1. */
  lemma RollIntRangeOvershoots(low: int, high: int)
    requires low >= high
    ensures IsDraw(1) && RollIntRangeOf(low, high, 1) == low + 1 > high
  {
  }

  /** Despite the "Exclusive" comment on rollFloat's declaration, the limit
      itself is a possible result. */
  lemma RollFloatReachesLimit(limit: real)
    ensures IsDraw(RandMax) && RollFloatOf(limit, RandMax) == limit
  {
  }

  /** The stream s after n draws: empty once it has run out. */
  function Drop(s: seq<int>, n: nat): (r: seq<int>)
    ensures n <= |s| ==> r == s[n..]
    ensures n > |s| ==> r == []
  {
    if n <= |s| then s[n..] else []
  }

  /** The draw the next call of rand() yields: 0 once the stream has run
      out. */
  function Head(s: seq<int>): (r: int)
    ensures s == [] ==> r == 0
    ensures s != [] ==> r == s[0]
  {
    if s == [] then 0 else s[0]
  }

  lemma DropDrop(s: seq<int>, m: nat, n: nat)
    ensures Drop(Drop(s, m), n) == Drop(s, m + n)
  {
  }

  /** Taking n more draws after the first u of ds is taking u + n; the
      stream has run out after them when it had before, or when fewer than
      n were left. */
  lemma DrewMore(ds: seq<int>, e: bool, u: nat, n: nat)
    ensures Drop(Drop(ds, u), n) == Drop(ds, u + n)
    ensures ((e || |ds| < u) || |Drop(ds, u)| < n) == (e || |ds| < u + n)
  {
    DropDrop(ds, u, n);
  }

  /** The stream of rand() outputs that the game's Dice objects draw from.
      rand() is an oracle here: `draws` holds the outputs still to come.  When
      they run out, a draw yields 0 and `exhausted` is set, so that the loops
      and recursions that roll until something happens can stop. */
  class Die {
    var draws: seq<int>
    var exhausted: bool

    ghost predicate Valid()
      reads this
    {
      forall i :: 0 <= i < |draws| ==> IsDraw(draws[i])
    }

    constructor (ds: seq<int>)
      requires forall i :: 0 <= i < |ds| ==> IsDraw(ds[i])
      ensures Valid() && draws == ds && !exhausted
    {
      draws, exhausted := ds, false;
    }

    /** What is left of the stream: each draw before it runs out uses one
        unit, and the draw that finds it empty uses the last. */
    ghost function Budget(): nat
      reads this
    {
      |draws| + if exhausted then 0 else 1
    }

    /** One call of rand(). */
    method Next() returns (r: int)
      requires Valid()
      modifies this
      ensures Valid() && IsDraw(r)
      ensures old(draws) != [] ==> r == old(draws)[0] && draws == old(draws)[1..] && exhausted == old(exhausted)
      ensures old(draws) == [] ==> r == 0 && draws == [] && exhausted
      ensures draws == Drop(old(draws), 1) && exhausted == (old(exhausted) || old(draws) == [])
    {
      if draws == [] {
        r, exhausted := 0, true;
      } else {
        r, draws := draws[0], draws[1..];
      }
    }

    /** Constructing a Dice object: srand(time(0)) and one roll() whose
        value is dropped.  The new seed is not modelled; the stream goes on. */
    method Restart()
      requires Valid()
      modifies this
      ensures Valid() && draws == Drop(old(draws), 1) && exhausted == (old(exhausted) || old(draws) == [])
    {
      var dropped := Next();
    }

    /** rollInt(sides). */
    method RollInt(sides: int) returns (v: int)
      requires Valid() && sides != 0
      modifies this
      ensures Valid() && draws == Drop(old(draws), 1) && exhausted == (old(exhausted) || old(draws) == [])
      ensures v == RollIntOf(sides, Head(old(draws)))
    {
      var r := Next();
      v := RollIntOf(sides, r);
    }

    /** rollIntRange(low, high). */
    method RollIntRange(low: int, high: int) returns (v: int)
      requires Valid()
      modifies this
      ensures Valid() && draws == Drop(old(draws), 1) && exhausted == (old(exhausted) || old(draws) == [])
      ensures v == RollIntRangeOf(low, high, Head(old(draws)))
    {
      var r := Next();
      v := RollIntRangeOf(low, high, r);
    }

    /** rollFloat(limit). */
    method RollFloat(limit: real) returns (v: real)
      requires Valid()
      modifies this
      ensures Valid() && draws == Drop(old(draws), 1) && exhausted == (old(exhausted) || old(draws) == [])
      ensures v == RollFloatOf(limit, Head(old(draws)))
    {
      var r := Next();
      v := RollFloatOf(limit, r);
    }
  }

  /** The die d has taken u draws from the stream ds since its flag was e:
      what is left is ds without them, and it has run out if it had before
      or if ds held fewer than u. */
  ghost predicate Drew(d: Die, ds: seq<int>, e: bool, u: nat)
    reads d
  {
    d.draws == Drop(ds, u) && d.exhausted == (e || |ds| < u)
  }
}
