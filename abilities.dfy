/** The rules of vMaze::executeAbility, getSelection and rotateSelection as
    values: when an ability may fire, where Pinky's jump and Clyde's scatter
    land, how fast Blinky's sprint is, and which actor is selected.  The
    maze's methods are proved against these functions. */
module Abilities {
  import opened Grid
  import opened Sprites
  import opened Actors
  import Dice
  import Steering
  import opened Coords
  import opened Motion
  import opened Frames
  import opened Scenes

  // -------------------------------------------------------------------
  // When an ability fires

  /** executeAbility succeeds for an actor of sprite type `kind` at ability
      `level`, `elapsed` seconds after it last fired: it needs level 1, a
      cooldown of `level` seconds, twice that for Blinky's sprint and Inky's
      immunity (their effect lasts `level` seconds), and only the four
      ghosts have an ability. */
  predicate Fires(kind: SpriteType, level: int, elapsed: int) {
    && level >= 1 && elapsed >= level && VRedG <= kind <= VOrangeG
    && ((kind == VRedG || kind == VBlueG) ==> elapsed >= 2 * level)
  }

  /** renderInterface shows the ability of the selected ghost as ready when
      its level is positive and strictly more than the cooldown has
      passed. */
  predicate ShownReady(kind: SpriteType, level: int, elapsed: int) {
    && VRedG <= kind <= VOrangeG && level > 0
    && elapsed > (if kind == VRedG || kind == VBlueG then 2 * level else level)
  }

  /** An ability shown as ready fires; but for exactly the second in which
      the cooldown ends, it fires and is not shown. */
  lemma ShownReadyFires(kind: SpriteType, level: int, elapsed: int)
    ensures ShownReady(kind, level, elapsed) ==> Fires(kind, level, elapsed)
    ensures Fires(kind, level, elapsed) && !ShownReady(kind, level, elapsed) ==>
      elapsed == (if kind == VRedG || kind == VBlueG then 2 * level else level)
  {
  }

  // -------------------------------------------------------------------
  // Blinky's sprint

  /** pow(0.5, n). */
  function HalfPow(n: nat): (p: real)
    ensures 0.0 < p <= 1.0
    ensures n >= 1 ==> p <= 0.5
  {
    if n == 0 then 1.0 else 0.5 * HalfPow(n - 1)
  }

  /** The velocity Blinky sprints at, at ability level n:
      0.8 * baseVelocity * (2 - 0.5^n). */
  function SprintSpeed(n: nat): real {
    0.8 * BaseVelocity * (2.0 - HalfPow(n))
  }

  /** From level 1 on, the sprint is at least half as fast again as a
      ghost, and always slower than twice a ghost's speed. */
  lemma SprintBounds(n: nat)
    requires n >= 1
    ensures 1.5 * SpeedOf(VRedG) <= SprintSpeed(n) < 2.0 * SpeedOf(VRedG)
  {
  }

  /** Every level makes the sprint faster. */
  lemma {:induction false} SprintGrows(a: nat, b: nat)
    requires a < b
    ensures SprintSpeed(a) < SprintSpeed(b)
    decreases b - a
  {
    if b == a + 1 {
      assert HalfPow(b) == 0.5 * HalfPow(a);
    } else {
      SprintGrows(a, b - 1);
      SprintGrows(b - 1, b);
    }
  }

  /** The sprint sets a moving component of the velocity to the new speed,
      keeping its sign; a component at rest stays at rest. */
  function Resigned(v: real, speed: real): (r: real)
    ensures v == 0.0 ==> r == 0.0
    ensures v > 0.0 ==> r == speed
    ensures v < 0.0 ==> r == -speed
  {
    if v == 0.0 then v else if v > 0.0 then speed else -speed
  }

  // -------------------------------------------------------------------
  // Pinky's jump

  /** The direction the jump takes for a sprite state.  Every state up to
      SS_UP3, SS_NA included, counts as up; the special states do not move. */
  function Facing(state: SpriteState): MazeDirection {
    if state <= SsUp3 then Up
    else if state <= SsDown3 then Down
    else if state <= SsLeft3 then Left
    else if state <= SsRight3 then Right
    else None
  }

  /** Pinky's target from square (cx, cy) in state `state`: n squares on in
      that direction, stopped at the border. */
  function JumpTarget(cx: int, cy: int, state: SpriteState, n: int, w: int, h: int): (int, int) {
    if state <= SsUp3 then (cx, if cy + n >= h then h - 1 else cy + n)
    else if state <= SsDown3 then (cx, if cy - n < 0 then 0 else cy - n)
    else if state <= SsLeft3 then (if cx - n < 0 then 0 else cx - n, cy)
    else if state <= SsRight3 then (if cx + n >= w then w - 1 else cx + n, cy)
    else (cx, cy)
  }

  /** How many squares lie between (cx, cy) and the border in direction d. */
  function Room(cx: int, cy: int, d: MazeDirection, w: int, h: int): int {
    match d
    case Up => h - 1 - cy
    case Down => cy
    case Left => cx
    case Right => w - 1 - cx
    case None => 0
  }

  /** From a square of the grid the jump lands on the grid, k steps on in
      the facing direction, where k is n or the room to the border if that
      is less. */
  lemma JumpLands(cx: int, cy: int, state: SpriteState, n: int, w: int, h: int)
    requires InGrid(w, h, cx, cy) && n >= 0
    ensures var t := JumpTarget(cx, cy, state, n, w, h);
      var d := Facing(state);
      var k := if n <= Room(cx, cy, d, w, h) then n else Room(cx, cy, d, w, h);
      && InGrid(w, h, t.0, t.1)
      && t == (cx + k * StepX(0, d), cy + k * StepY(0, d))
  {
  }

  // -------------------------------------------------------------------
  // Clyde's scatter

  /** One roll of the scatter from (cx, cy) at level n with the draws r1
      and r2: each coordinate rolled within 2n of the start, then clamped
      to the grid. */
  function Landing(cx: int, cy: int, n: int, w: int, h: int, r1: int, r2: int): (int, int)
    requires Dice.IsDraw(r1) && Dice.IsDraw(r2)
  {
    (Steering.Clamp(Dice.RollIntRangeOf(cx - 2 * n, cx + 2 * n, r1), w),
     Steering.Clamp(Dice.RollIntRangeOf(cy - 2 * n, cy + 2 * n, r2), h))
  }

  /** A landing from a square of the grid, at level n >= 1, is a square of
      the grid within 2n of the start in each coordinate. */
  lemma LandingNear(cx: int, cy: int, n: int, w: int, h: int, r1: int, r2: int)
    requires InGrid(w, h, cx, cy) && n >= 1 && Dice.IsDraw(r1) && Dice.IsDraw(r2)
    ensures var p := Landing(cx, cy, n, w, h, r1, r2);
      InGrid(w, h, p.0, p.1) && -2 * n <= p.0 - cx <= 2 * n && -2 * n <= p.1 - cy <= 2 * n
  {
  }

  /** Every square of the grid within 2n of the start is a landing for
      some pair of draws. */
  lemma LandingReaches(cx: int, cy: int, n: int, w: int, h: int, x: int, y: int)
    returns (r1: int, r2: int)
    requires InGrid(w, h, x, y) && n >= 1 && 4 * n <= Dice.RandMax
    requires -2 * n <= x - cx <= 2 * n && -2 * n <= y - cy <= 2 * n
    ensures Dice.IsDraw(r1) && Dice.IsDraw(r2) && Landing(cx, cy, n, w, h, r1, r2) == (x, y)
  {
    Dice.RollIntRangeCovers(cx - 2 * n, cx + 2 * n, x);
    Dice.RollIntRangeCovers(cy - 2 * n, cy + 2 * n, y);
    r1, r2 := x - (cx - 2 * n), y - (cy - 2 * n);
  }

  /** How many pairs of draws the scatter's do-while loop rolls from the
      stream ds: it rolls again while it lands on the start, and here it
      also stops once the stream has run out (which `exhausted`, the state
      of the stream before the loop, says already happened). */
  function ScatterRolls(cx: int, cy: int, n: int, w: int, h: int, ds: seq<int>, exhausted: bool): (k: nat)
    requires forall i :: 0 <= i < |ds| ==> Dice.IsDraw(ds[i])
    ensures k >= 1 && 2 * (k - 1) <= |ds|
    decreases |ds|
  {
    var r1, r2 := Dice.Head(ds), Dice.Head(Dice.Drop(ds, 1));
    if exhausted || |ds| < 2 || Landing(cx, cy, n, w, h, r1, r2) != (cx, cy) then 1
    else 1 + ScatterRolls(cx, cy, n, w, h, ds[2..], false)
  }

  /** Where the scatter lands: the first roll off the start, or the roll
      at which the stream ran out. */
  function Scattered(cx: int, cy: int, n: int, w: int, h: int, ds: seq<int>, exhausted: bool): (p: (int, int))
    requires forall i :: 0 <= i < |ds| ==> Dice.IsDraw(ds[i])
    ensures InGrid(w, h, cx, cy) && n >= 1 ==>
      InGrid(w, h, p.0, p.1) && -2 * n <= p.0 - cx <= 2 * n && -2 * n <= p.1 - cy <= 2 * n
    decreases |ds|
  {
    var r1, r2 := Dice.Head(ds), Dice.Head(Dice.Drop(ds, 1));
    if exhausted || |ds| < 2 || Landing(cx, cy, n, w, h, r1, r2) != (cx, cy) then Landing(cx, cy, n, w, h, r1, r2)
    else Scattered(cx, cy, n, w, h, ds[2..], false)
  }

  /** The scatter lands where its last pair of draws, the ScatterRolls-th,
      puts it. */
  lemma {:induction false} ScatteredLast(cx: int, cy: int, n: int, w: int, h: int, ds: seq<int>, exhausted: bool)
    requires forall i :: 0 <= i < |ds| ==> Dice.IsDraw(ds[i])
    ensures var rest := Dice.Drop(ds, 2 * (ScatterRolls(cx, cy, n, w, h, ds, exhausted) - 1));
      Scattered(cx, cy, n, w, h, ds, exhausted) == Landing(cx, cy, n, w, h, Dice.Head(rest), Dice.Head(Dice.Drop(rest, 1)))
    decreases |ds|
  {
    var r1, r2 := Dice.Head(ds), Dice.Head(Dice.Drop(ds, 1));
    if !(exhausted || |ds| < 2 || Landing(cx, cy, n, w, h, r1, r2) != (cx, cy)) {
      var k := ScatterRolls(cx, cy, n, w, h, ds[2..], false);
      ScatteredLast(cx, cy, n, w, h, ds[2..], false);
      assert Dice.Drop(ds, 2 * k) == Dice.Drop(ds[2..], 2 * (k - 1));
    }
  }

  /** A roll that stops the scatter (a landing off the start, or a stream
      that had run out) is its only roll, and the scatter lands there. */
  lemma ScatterStops(cx: int, cy: int, n: int, w: int, h: int, ds: seq<int>, exhausted: bool)
    requires forall i :: 0 <= i < |ds| ==> Dice.IsDraw(ds[i])
    requires exhausted || |ds| < 2 || Landing(cx, cy, n, w, h, Dice.Head(ds), Dice.Head(Dice.Drop(ds, 1))) != (cx, cy)
    ensures ScatterRolls(cx, cy, n, w, h, ds, exhausted) == 1
    ensures Scattered(cx, cy, n, w, h, ds, exhausted) == Landing(cx, cy, n, w, h, Dice.Head(ds), Dice.Head(Dice.Drop(ds, 1)))
  {
  }

  /** A roll that lands on the start, from a stream that had not run out,
      is followed by the scatter of the rest of the stream. */
  lemma ScatterAgain(cx: int, cy: int, n: int, w: int, h: int, ds: seq<int>, exhausted: bool)
    requires forall i :: 0 <= i < |ds| ==> Dice.IsDraw(ds[i])
    requires !exhausted && |ds| >= 2 && Landing(cx, cy, n, w, h, Dice.Head(ds), Dice.Head(Dice.Drop(ds, 1))) == (cx, cy)
    ensures ScatterRolls(cx, cy, n, w, h, ds, exhausted) == 1 + ScatterRolls(cx, cy, n, w, h, ds[2..], false)
    ensures Scattered(cx, cy, n, w, h, ds, exhausted) == Scattered(cx, cy, n, w, h, ds[2..], false)
  {
  }

  /** Clyde never lands on his own square, unless the stream of draws ran
      out first. */
  lemma {:induction false} ScatterMoves(cx: int, cy: int, n: int, w: int, h: int, ds: seq<int>, exhausted: bool)
    requires forall i :: 0 <= i < |ds| ==> Dice.IsDraw(ds[i])
    requires !exhausted && |ds| >= 2 * ScatterRolls(cx, cy, n, w, h, ds, exhausted)
    ensures Scattered(cx, cy, n, w, h, ds, exhausted) != (cx, cy)
    decreases |ds|
  {
    var r1, r2 := Dice.Head(ds), Dice.Head(Dice.Drop(ds, 1));
    if Landing(cx, cy, n, w, h, r1, r2) == (cx, cy) {
      var k := ScatterRolls(cx, cy, n, w, h, ds[2..], false);
      assert ScatterRolls(cx, cy, n, w, h, ds, exhausted) == 1 + k;
      ScatterMoves(cx, cy, n, w, h, ds[2..], false);
    }
  }

  // -------------------------------------------------------------------
  // Selection

  /** getSelection's loop: the first sprite type, 0 to 4, whose actor is
      selected, or 5 when none is. */
  function FirstSelected(sel: seq<bool>, from: nat): (t: nat)
    requires |sel| == 5 && from <= 5
    ensures from <= t <= 5
    ensures t < 5 ==> sel[t]
    ensures forall j :: from <= j < t ==> !sel[j]
    decreases 5 - from
  {
    if from == 5 then 5 else if sel[from] then from else FirstSelected(sel, from + 1)
  }

  /** The loop stops at i exactly when no flag before i is set and i is
      set (or i is 5). */
  lemma FirstSelectedAt(sel: seq<bool>, i: int)
    requires |sel| == 5 && 0 <= i <= 5
    requires forall j :: 0 <= j < i ==> !sel[j]
    requires i < 5 ==> sel[i]
    ensures FirstSelected(sel, 0) == i
  {
  }

  /** The ghost after ghost c in rotateSelection's cycle Blinky, Pinky, Inky,
      Clyde, Blinky; from Pacman (0) the cycle starts at Blinky. */
  function Succ(c: int): int {
    c % 4 + 1
  }

  /** rotateSelection's loop: the first living ghost among the next `tries`
      of the cycle after c, or 0 when none of them lives. */
  function NextAlive(c: int, alive: seq<bool>, tries: nat): (g: int)
    requires |alive| == 4
    ensures g == 0 || 1 <= g <= 4
    decreases tries
  {
    if tries == 0 then 0
    else if alive[Succ(c) - 1] then Succ(c)
    else NextAlive(Succ(c), alive, tries - 1)
  }

  /** The next `tries` ghosts of the cycle after c, in order. */
  function Cycle(c: int, tries: nat): (cs: seq<int>)
    ensures |cs| == tries && forall k :: 0 <= k < tries ==> 1 <= cs[k] <= 4
    decreases tries
  {
    if tries == 0 then [] else [Succ(c)] + Cycle(Succ(c), tries - 1)
  }

  /** The four ghosts after any actor are every ghost once, and after a
      ghost the cycle ends with that ghost itself. */
  lemma CycleCovers(c: int)
    requires 0 <= c <= 4
    ensures forall g :: 1 <= g <= 4 ==> g in Cycle(c, 4)
    ensures c >= 1 ==> Cycle(c, 4)[3] == c
  {
    var c1 := Succ(c);
    var c2 := Succ(c1);
    var c3 := Succ(c2);
    var c4 := Succ(c3);
    assert Cycle(c3, 1) == [c4] by {
      assert Cycle(c4, 0) == [];
    }
    assert Cycle(c2, 2) == [c3, c4];
    assert Cycle(c1, 3) == [c2, c3, c4];
    assert Cycle(c, 4) == [c1, c2, c3, c4];
    assert {1, 2, 3, 4} == {c1, c2, c3, c4} && (c >= 1 ==> c4 == c) by {
      if c == 0 || c == 4 {
        assert c1 == 1 && c2 == 2 && c3 == 3 && c4 == 4;
      } else if c == 1 {
        assert c1 == 2 && c2 == 3 && c3 == 4 && c4 == 1;
      } else if c == 2 {
        assert c1 == 3 && c2 == 4 && c3 == 1 && c4 == 2;
      } else {
        assert c1 == 4 && c2 == 1 && c3 == 2 && c4 == 3;
      }
    }
  }

  /** The first living ghost of the list cs, or 0 when none of them
      lives. */
  function Pick(cs: seq<int>, alive: seq<bool>): (g: int)
    requires |alive| == 4 && forall k :: 0 <= k < |cs| ==> 1 <= cs[k] <= 4
  {
    if |cs| == 0 then 0 else if alive[cs[0] - 1] then cs[0] else Pick(cs[1..], alive)
  }

  /** Pick is 0 exactly when every ghost of the list is dead; otherwise it
      is a living ghost of the list and every ghost before it is dead. */
  lemma {:induction false} PickFirst(cs: seq<int>, alive: seq<bool>)
    requires |alive| == 4 && forall k :: 0 <= k < |cs| ==> 1 <= cs[k] <= 4
    ensures Pick(cs, alive) == 0 <==> forall k :: 0 <= k < |cs| ==> !alive[cs[k] - 1]
    ensures Pick(cs, alive) != 0 ==>
      exists k :: (0 <= k < |cs| && cs[k] == Pick(cs, alive) &&
        alive[cs[k] - 1] && forall m :: 0 <= m < k ==> !alive[cs[m] - 1])
  {
    if |cs| > 0 && !alive[cs[0] - 1] {
      var rest := cs[1..];
      PickFirst(rest, alive);
      if Pick(rest, alive) != 0 {
        var k :| 0 <= k < |rest| && rest[k] == Pick(rest, alive) &&
          alive[rest[k] - 1] && forall m :: 0 <= m < k ==> !alive[rest[m] - 1];
        assert cs[k + 1] == rest[k];
        assert forall m :: 0 <= m < k + 1 ==> !alive[cs[m] - 1] by {
          forall m | 0 <= m < k + 1 ensures !alive[cs[m] - 1] {
            if m > 0 {
              assert cs[m] == rest[m - 1];
            }
          }
        }
      } else {
        forall k | 0 <= k < |cs| ensures !alive[cs[k] - 1] {
          if k > 0 {
            assert cs[k] == rest[k - 1];
          }
        }
      }
    }
  }

  /** The rotation's loop picks from the cycle after c: the first living
      ghost of the next `tries`. */
  lemma {:induction false} NextAliveIsPick(c: int, alive: seq<bool>, tries: nat)
    requires |alive| == 4
    ensures NextAlive(c, alive, tries) == Pick(Cycle(c, tries), alive)
    decreases tries
  {
    if tries > 0 {
      NextAliveIsPick(Succ(c), alive, tries - 1);
      assert Cycle(c, tries)[1..] == Cycle(Succ(c), tries - 1);
    }
  }

  /** Ghost 4's successor is Blinky again, so the cycle never reaches
      Pacman. */
  lemma SuccIsGhost(c: int)
    requires 0 <= c <= 4
    ensures 1 <= Succ(c) <= 4
  {
  }

  // -------------------------------------------------------------------
  // Selection on the roster

  /** The selected flags of a roster, Pacman first. */
  function Selections(r: seq<Status>): (s: seq<bool>)
    requires |r| == 5
    ensures |s| == 5 && forall i :: 0 <= i < 5 ==> s[i] == r[i].selected
  {
    [r[0].selected, r[1].selected, r[2].selected, r[3].selected, r[4].selected]
  }

  /** Which ghosts live, Blinky first. */
  function GhostLives(r: seq<Status>): (a: seq<bool>)
    requires |r| == 5
    ensures |a| == 4 && forall g :: 1 <= g <= 4 ==> a[g - 1] == r[g].alive
  {
    [r[1].alive, r[2].alive, r[3].alive, r[4].alive]
  }

  /** getSelection on a roster: the sprite type of the actor it returns,
      and the roster after it; when no actor is selected Pacman is
      selected, which takes only if he lives. */
  function Selection(r: seq<Status>): (p: (int, seq<Status>))
    requires |r| == 5
  {
    var t := FirstSelected(Selections(r), 0);
    if t < 5 then (t, r) else (VPacman, r[0 := r[0].(selected := r[0].alive)])
  }

  /** getSelection returns the first selected actor and changes nothing;
      only when none is selected does it return Pacman instead and select
      him, if he lives. */
  lemma SelectionFirst(r: seq<Status>)
    requires |r| == 5
    ensures 0 <= Selection(r).0 < 5
    ensures (exists i :: 0 <= i < 5 && r[i].selected) ==>
      && r[Selection(r).0].selected && Selection(r).1 == r
      && forall i :: 0 <= i < Selection(r).0 ==> !r[i].selected
    ensures (forall i :: 0 <= i < 5 ==> !r[i].selected) ==>
      Selection(r).0 == VPacman && Selection(r).1 == r[0 := r[0].(selected := r[0].alive)]
  {
    var t := FirstSelected(Selections(r), 0);
    if exists i :: 0 <= i < 5 && r[i].selected {
      var i :| 0 <= i < 5 && r[i].selected;
      assert t <= i;
    }
  }

  /** The roster with only ghost g selected among the four (none when g
      is 0); Pacman keeps his flag. */
  function Reselected(r: seq<Status>, g: int): (q: seq<Status>)
    requires |r| == 5
    ensures |q| == 5 && q[0] == r[0]
    ensures forall i :: 1 <= i < 5 ==> q[i] == r[i].(selected := i == g)
  {
    [r[0], r[1].(selected := g == 1), r[2].(selected := g == 2), r[3].(selected := g == 3), r[4].(selected := g == 4)]
  }

  /** With every ghost deselected, selecting ghost g alone is setting its
      flag, and selecting none changes nothing. */
  lemma ReselectedOne(q: seq<Status>, g: int)
    requires |q| == 5 && 0 <= g < 5
    requires forall i :: 1 <= i < 5 ==> !q[i].selected
    ensures g == 0 ==> Reselected(q, g) == q
    ensures g != 0 ==> Reselected(q, g) == q[g := q[g].(selected := true)]
  {
  }

  /** rotateSelection on a roster: take the selection's type, deselect the
      four ghosts, then select the first living ghost of the four that
      follow it in the cycle, if any. */
  function Rotated(r: seq<Status>): (q: seq<Status>)
    requires |r| == 5
    ensures |q| == 5
  {
    var p := Selection(r);
    Reselected(p.1, NextAlive(p.0, GhostLives(r), 4))
  }

  /** rotateSelection in its steps: getSelection, the four ghosts
      deselected, and the next living ghost selected. */
  lemma RotatedSteps(r: seq<Status>, q: seq<Status>)
    requires |r| == 5 && q == Reselected(Selection(r).1, 0)
    ensures Reselected(q, NextAlive(Selection(r).0, GhostLives(q), 4)) == Rotated(r)
  {
    assert GhostLives(q) == GhostLives(r);
  }

  /** From any actor, the four tries of the rotation find a ghost exactly
      when one lives, and the ghost they find lives. */
  lemma NextAliveFinds(c: int, alive: seq<bool>)
    requires |alive| == 4
    ensures NextAlive(c, alive, 4) == 0 <==> forall i :: 0 <= i < 4 ==> !alive[i]
    ensures NextAlive(c, alive, 4) != 0 ==> alive[NextAlive(c, alive, 4) - 1]
  {
    var s1 := Succ(c);
    var s2 := Succ(s1);
    var s3 := Succ(s2);
    var s4 := Succ(s3);
    assert NextAlive(c, alive, 4) == if alive[s1 - 1] then s1 else NextAlive(s1, alive, 3);
    assert NextAlive(s1, alive, 3) == if alive[s2 - 1] then s2 else NextAlive(s2, alive, 2);
    assert NextAlive(s2, alive, 2) == if alive[s3 - 1] then s3 else NextAlive(s3, alive, 1);
    assert NextAlive(s3, alive, 1) == if alive[s4 - 1] then s4 else NextAlive(s4, alive, 0);
    assert {s1, s2, s3, s4} == {1, 2, 3, 4};
  }

  /** After the rotation exactly one ghost is selected if any lives and
      none otherwise; it lives, and it is the first living ghost of the
      cycle after the old selection (whose type Selection gives).  Nothing
      but the selected flags changes, and Pacman's only as getSelection
      changes it. */
  lemma RotatedSelects(r: seq<Status>)
    requires |r| == 5
    ensures forall i :: 0 <= i < 5 ==> Rotated(r)[i] == r[i].(selected := Rotated(r)[i].selected)
    ensures Rotated(r)[0].selected == Selection(r).1[0].selected
    ensures NextAlive(Selection(r).0, GhostLives(r), 4) == 0 <==> forall g :: 1 <= g <= 4 ==> !r[g].alive
    ensures forall g :: 1 <= g <= 4 ==>
      (Rotated(r)[g].selected <==> g == NextAlive(Selection(r).0, GhostLives(r), 4))
    ensures forall g :: 1 <= g <= 4 && Rotated(r)[g].selected ==> r[g].alive
  {
    var p := Selection(r);
    NextAliveFinds(p.0, GhostLives(r));
    assert forall i :: 1 <= i < 5 ==> p.1[i] == r[i];
  }

  /** When the selected ghost is the only one alive, the rotation comes
      back round to it. */
  lemma RotatedLoneGhost(r: seq<Status>, g: int)
    requires |r| == 5 && 1 <= g <= 4 && r[g].selected && !r[0].selected
    requires forall j :: 1 <= j < g ==> !r[j].selected
    requires forall j :: 1 <= j <= 4 ==> (r[j].alive <==> j == g)
    ensures Rotated(r)[g].selected
    ensures forall j :: 1 <= j <= 4 && j != g ==> !Rotated(r)[j].selected
  {
    assert FirstSelected(Selections(r), 0) == g by {
      assert FirstSelected(Selections(r), 0) <= g;
    }
    var a := GhostLives(r);
    NextAliveFinds(g, a);
    RotatedSelects(r);
  }

  // -------------------------------------------------------------------
  // executeAbility on the roster

  /** What executeAbility does: whether it fired, the roster after, and
      how many draws it took. */
  datatype Outcome = Outcome(fired: bool, roster: seq<Status>, draws: nat)

  /** moveToMazeXY on a pose: centred on square (x, y). */
  function Centred(l: Layout, p: Pose, x: int, y: int): (q: Pose)
    ensures q.x.value == MazeToScreen(x, l.dx) as real && q.y.value == MazeToScreen(y, l.dy) as real
    ensures q.xVel == p.xVel && q.yVel == p.yVel && q.state == p.state
  {
    p.(x := ScreenDimension(MazeToScreen(x, l.dx) as real, AlignMiddle, UnitPix),
       y := ScreenDimension(MazeToScreen(y, l.dy) as real, AlignMiddle, UnitPix))
  }

  /** executeAbility for the actor of sprite type t in roster r at time
      now, on the stream ds whose flag is e.  Below ability level 1 it
      fails without touching the dice; otherwise building a Dice takes one
      draw, the cooldown is checked, and the ability takes Effect on the
      rest of the stream. */
  function Ability(l: Layout, r: seq<Status>, t: int, now: int, ds: seq<int>, e: bool): (o: Outcome)
    requires |r| == 5 && 0 <= t < 5 && 0 <= l.w && 0 <= l.h
    requires forall i :: 0 <= i < |ds| ==> Dice.IsDraw(ds[i])
    ensures |o.roster| == 5
  {
    var s := r[t];
    if s.level < 1 then Outcome(false, r, 0)
    else if now - s.ability < s.level then Outcome(false, r, 1)
    else
      var f := Effect(l, r, t, now, Dice.Drop(ds, 1), e || ds == []);
      f.(draws := 1 + f.draws)
  }

  /** The switch of executeAbility once the cooldown of level seconds has
      passed, on the stream ds whose flag is e: Blinky sprints and Inky
      becomes immune once twice the level has passed, Pinky jumps, Clyde
      scatters (two draws a roll), and Pacman has no ability.  A subject
      that fires has its ability clock set to now. */
  function Effect(l: Layout, r: seq<Status>, t: int, now: int, ds: seq<int>, e: bool): (o: Outcome)
    requires |r| == 5 && 0 <= t < 5 && 0 <= l.w && 0 <= l.h && r[t].level >= 1
    requires forall i :: 0 <= i < |ds| ==> Dice.IsDraw(ds[i])
    ensures |o.roster| == 5
  {
    var s := r[t];
    var elapsed := now - s.ability;
    if t == VRedG then
      if elapsed < 2 * s.level then Outcome(false, r, 0)
      else
        var v := SprintSpeed(s.level);
        var p := s.pose.(xVel := Resigned(s.pose.xVel, v), yVel := Resigned(s.pose.yVel, v));
        Outcome(true, r[t := s.(velocity := v, pose := p, ability := now)], 0)
    else if t == VPinkG then
      var c := CellOf(l, s.pose);
      var j := JumpTarget(c.0, c.1, s.pose.state, s.level, l.w, l.h);
      Outcome(true, r[t := s.(pose := Centred(l, s.pose, j.0, j.1), ability := now)], 0)
    else if t == VBlueG then
      if elapsed < 2 * s.level then Outcome(false, r, 0)
      else Outcome(true, r[t := s.(scared := false, ability := now)], 0)
    else if t == VOrangeG then
      var c := CellOf(l, s.pose);
      var k := ScatterRolls(c.0, c.1, s.level, l.w, l.h, ds, e);
      var n := Scattered(c.0, c.1, s.level, l.w, l.h, ds, e);
      Outcome(true, r[t := s.(pose := Centred(l, s.pose, n.0, n.1), ability := now)], 2 * k)
    else Outcome(false, r, 0)
  }

  /** The ability fires exactly when Fires says; when it does, only its
      subject changes and its clock reads now, and when it does not,
      nothing changes. */
  lemma AbilityFires(l: Layout, r: seq<Status>, t: int, now: int, ds: seq<int>, e: bool)
    requires |r| == 5 && 0 <= t < 5 && 0 <= l.w && 0 <= l.h && r[t].kind == t
    requires forall i :: 0 <= i < |ds| ==> Dice.IsDraw(ds[i])
    ensures var o := Ability(l, r, t, now, ds, e);
      && (o.fired <==> Fires(t, r[t].level, now - r[t].ability))
      && (o.fired ==> o.roster[t].ability == now && forall i :: 0 <= i < 5 && i != t ==> o.roster[i] == r[i])
      && (!o.fired ==> o.roster == r)
  {
  }
}
