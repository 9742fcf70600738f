/** The line-of-sight core of common/los.cpp.

    `BlockTable` is the precomputed relation "this space hides that space behind it".
    The window size is a parameter (MAP_CLIENT_X by MAP_CLIENT_Y), odd in both directions
    as the mirroring presumes. */
module LineOfSight {
  import opened Common

  /** How many successors one entry of the block table has room for. */
  const SLOTS: nat := 4

  const LOS_BLOCKED: int := 100
  const LOS_NO_DARKNESS: int := 0

  /** A space in window coordinates. */
  datatype Cell = Cell(x: int, y: int)

  /** The size of the window; the viewer stands in its centre. */
  datatype Window = Window(w: nat, h: nat) {
    ghost predicate Odd() {
      w % 2 == 1 && h % 2 == 1
    }

    predicate Contains(c: Cell) {
      0 <= c.x < w && 0 <= c.y < h
    }

    function Cells(): (s: set<Cell>)
      ensures forall c :: c in s <==> Contains(c)
    {
      set x: int, y: int | 0 <= x < w && 0 <= y < h :: Cell(x, y)
    }

    function Centre(): Cell {
      Cell(w / 2, h / 2)
    }

    /** Reflection in the vertical axis (fx), the horizontal axis (fy), or both. */
    function Mirror(fx: bool, fy: bool, c: Cell): Cell {
      Cell(if fx then w - 1 - c.x else c.x, if fy then h - 1 - c.y else c.y)
    }

    /** Number of orthogonal moves from the centre. */
    function Range(c: Cell): nat {
      Abs(c.x - w / 2) + Abs(c.y - h / 2)
    }
  }

  // ---------------------------------------------------------------------------------------
  // The block relation
  // ---------------------------------------------------------------------------------------

  /** The three spaces further out than a space of the upper left quadrant. */
  function Outward(k: nat, c: Cell): Cell
    requires k < 3
  {
    if k == 0 then Cell(c.x - 1, c.y - 1)
    else if k == 1 then Cell(c.x - 1, c.y)
    else Cell(c.x, c.y - 1)
  }

  /** Cross product of the step from c to d with the step from d to the centre. */
  function Cross(win: Window, c: Cell, d: Cell): int {
    var m := win.Centre();
    (d.y - c.y) * (m.x - d.x) - (d.x - c.x) * (m.y - d.y)
  }

  /** Squared distance from d to the centre. */
  function Dist2(win: Window, d: Cell): nat {
    var m := win.Centre();
    SquareNonNegative(m.x - d.x);
    SquareNonNegative(m.y - d.y);
    (m.x - d.x) * (m.x - d.x) + (m.y - d.y) * (m.y - d.y)
  }

  lemma SquareNonNegative(i: int)
    ensures i * i >= 0
  {}

  /** The exact integer form of "c lies within half a space of the line from d to the centre". */
  predicate NearSightLine(win: Window, c: Cell, d: Cell) {
    4 * Cross(win, c, d) * Cross(win, c, d) <= Dist2(win, d)
  }

  /** The test is the one the code writes with a square root: |sqrt(d1) * (cross / d1)| <= 0.5. */
  lemma NearSightLineIsHalfSpaceDistance(win: Window, c: Cell, d: Cell, root: real)
    requires Dist2(win, d) > 0 && root * root == Dist2(win, d) as real
    ensures var l := root * (Cross(win, c, d) as real / Dist2(win, d) as real);
            NearSightLine(win, c, d) <==> -0.5 <= l <= 0.5
  {
    var cross, d1 := Cross(win, c, d), Dist2(win, d);
    var l := root * (cross as real / d1 as real);
    DistanceSquared(root, cross as real, d1 as real);
    assert cross as real * cross as real == (cross * cross) as real;
    assert 4 * cross * cross == 4 * (cross * cross);
    ScaleByPositive(4.0 * (l * l), d1 as real);
    assert 4.0 * (l * l * d1 as real) == 4.0 * (l * l) * d1 as real;
    HalfSquared(l);
  }

  lemma DistanceSquared(root: real, cross: real, d1: real)
    requires d1 > 0.0 && root * root == d1
    ensures var l := root * (cross / d1); l * l * d1 == cross * cross
  {
    var s := cross / d1;
    calc {
      (root * s) * (root * s) * d1;
      (root * root) * (s * s) * d1;
      d1 * (s * s) * d1;
      (s * d1) * (s * d1);
      { assert s * d1 == cross; }
      cross * cross;
    }
  }

  lemma ScaleByPositive(a: real, d: real)
    requires d > 0.0
    ensures a * d <= d <==> a <= 1.0
  {
    if a <= 1.0 {
      assert (1.0 - a) * d >= 0.0;
    } else {
      assert (a - 1.0) * d > 0.0;
    }
  }

  lemma HalfSquared(l: real)
    ensures 4.0 * (l * l) <= 1.0 <==> -0.5 <= l <= 0.5
  {
    if l > 0.5 {
      assert (l - 0.5) * (l + 0.5) > 0.0;
    } else if l < -0.5 {
      assert (-0.5 - l) * (0.5 - l) > 0.0;
    } else {
      assert (0.5 - l) * (0.5 + l) >= 0.0;
    }
  }

  /** A non-central space of the upper left quadrant, axes included. */
  predicate InQuadrant(win: Window, c: Cell) {
    1 <= c.x <= win.w / 2 && 1 <= c.y <= win.h / 2 && c != win.Centre()
  }

  /** Both spaces on the same axis of the window. */
  predicate Straight(win: Window, c: Cell, d: Cell) {
    (d.x == c.x && c.x == win.w / 2) || (d.y == c.y && c.y == win.h / 2)
  }

  /** c, in the upper left quadrant, hides its k-th outward neighbour. */
  predicate Hides(win: Window, c: Cell, k: nat)
    requires k < 3
  {
    Straight(win, c, Outward(k, c)) || NearSightLine(win, c, Outward(k, c))
  }

  /** The mirror image of (c, e) is a quadrant space and the k-th neighbour it hides. */
  ghost predicate BlocksVia(win: Window, fx: bool, fy: bool, k: nat, c: Cell, e: Cell) {
    var q := win.Mirror(fx, fy, c);
    k < 3 && InQuadrant(win, q) && Hides(win, q, k) && win.Mirror(fx, fy, e) == Outward(k, q)
  }

  ghost predicate BlocksAt(win: Window, k: nat, c: Cell, e: Cell) {
    || BlocksVia(win, false, false, k, c, e)
    || BlocksVia(win, false, true, k, c, e)
    || BlocksVia(win, true, false, k, c, e)
    || BlocksVia(win, true, true, k, c, e)
  }

  lemma PickMirror(win: Window, c: Cell, e: Cell) returns (fx: bool, fy: bool, k: nat)
    requires Blocks(win, c, e)
    ensures BlocksVia(win, fx, fy, k, c, e)
  {
    k := if BlocksAt(win, 0, c, e) then 0 else if BlocksAt(win, 1, c, e) then 1 else 2;
    fx := BlocksVia(win, true, false, k, c, e) || BlocksVia(win, true, true, k, c, e);
    fy := BlocksVia(win, fx, true, k, c, e);
  }

  /** c hides e: the relation the table is to hold, on the whole window. */
  ghost predicate Blocks(win: Window, c: Cell, e: Cell) {
    BlocksAt(win, 0, c, e) || BlocksAt(win, 1, c, e) || BlocksAt(win, 2, c, e)
  }

  /** The part of the relation known after `done` of c's three candidates. */
  ghost predicate BlocksBelow(win: Window, done: nat, c: Cell, e: Cell) {
    (0 < done && BlocksAt(win, 0, c, e)) || (1 < done && BlocksAt(win, 1, c, e)) || (2 < done && BlocksAt(win, 2, c, e))
  }

  /** Every edge stays in the window, leaves the centre strictly behind, and never ends next to it. */
  lemma BlocksMovesOutward(win: Window, c: Cell, e: Cell)
    requires win.Odd() && Blocks(win, c, e)
    ensures win.Contains(c) && win.Contains(e)
    ensures win.Range(c) < win.Range(e)
    ensures Abs(e.x - win.w / 2) >= 2 || Abs(e.y - win.h / 2) >= 2
  {
    var fx, fy, k := PickMirror(win, c, e);
    var q := win.Mirror(fx, fy, c);
    assert win.Mirror(fx, fy, q) == c && win.Mirror(fx, fy, Outward(k, q)) == e;
    SidewaysIsVisible(win, q);
  }

  /** From a space on an axis, the neighbour beside the axis is never hidden. */
  lemma SidewaysIsVisible(win: Window, q: Cell)
    requires InQuadrant(win, q)
    ensures q.x == win.w / 2 ==> !Hides(win, q, 1)
    ensures q.y == win.h / 2 ==> !Hides(win, q, 2)
  {
    var n, m := win.h / 2 - q.y, win.w / 2 - q.x;
    if q.x == win.w / 2 {
      assert Cross(win, q, Outward(1, q)) == n && Dist2(win, Outward(1, q)) == 1 + n * n;
      SquareDominates(n);
    }
    if q.y == win.h / 2 {
      assert Cross(win, q, Outward(2, q)) == -m && Dist2(win, Outward(2, q)) == m * m + 1;
      SquareDominates(m);
    }
  }

  lemma SquareDominates(n: int)
    requires n >= 1
    ensures 4 * n * n > 1 + n * n && 4 * (-n) * (-n) > 1 + n * n
  {
    assert n * n >= n;
    assert 4 * n * n == 4 * (n * n);
    assert (-n) * (-n) == n * n;
  }

  lemma MirrorBlocks(win: Window, gx: bool, gy: bool, c: Cell, e: Cell)
    requires Blocks(win, c, e)
    ensures Blocks(win, win.Mirror(gx, gy, c), win.Mirror(gx, gy, e))
  {
    var fx, fy, k := PickMirror(win, c, e);
    var hx, hy := fx != gx, fy != gy;
    var c', e' := win.Mirror(gx, gy, c), win.Mirror(gx, gy, e);
    assert win.Mirror(hx, hy, c') == win.Mirror(fx, fy, c);
    assert win.Mirror(hx, hy, e') == win.Mirror(fx, fy, e);
    assert BlocksVia(win, hx, hy, k, c', e');
    assert BlocksAt(win, k, c', e');
  }

  lemma MirrorTwice(win: Window, gx: bool, gy: bool, c: Cell)
    ensures win.Mirror(gx, gy, win.Mirror(gx, gy, c)) == c
  {}

  /** The relation is unchanged by reflecting both spaces in either axis. */
  lemma BlocksIsSymmetric(win: Window, gx: bool, gy: bool, c: Cell, e: Cell)
    ensures Blocks(win, win.Mirror(gx, gy, c), win.Mirror(gx, gy, e)) <==> Blocks(win, c, e)
  {
    if Blocks(win, c, e) {
      MirrorBlocks(win, gx, gy, c, e);
    }
    var c', e' := win.Mirror(gx, gy, c), win.Mirror(gx, gy, e);
    if Blocks(win, c', e') {
      MirrorBlocks(win, gx, gy, c', e');
      MirrorTwice(win, gx, gy, c);
      MirrorTwice(win, gx, gy, e);
    }
  }

  // ---------------------------------------------------------------------------------------
  // The relation in coordinates
  // ---------------------------------------------------------------------------------------

  /** The point of the line through e and the centre that is t of the way from the centre to e lies
      within half a space of c. */
  predicate WithinHalf(win: Window, c: Cell, e: Cell, t: real) {
    var x := (c.x - win.w / 2) as real - t * (e.x - win.w / 2) as real;
    var y := (c.y - win.h / 2) as real - t * (e.y - win.h / 2) as real;
    4.0 * (x * x + y * y) <= 1.0
  }

  /** c lies within half a space of the line through e and the centre. */
  ghost predicate NearLine(win: Window, c: Cell, e: Cell) {
    exists t: real :: WithinHalf(win, c, e, t)
  }

  lemma Lagrange(ux: real, uy: real, vx: real, vy: real, t: real)
    ensures var (x, y) := (ux - t * vx, uy - t * vy);
      var (n, dot, cross) := (vx * vx + vy * vy, ux * vx + uy * vy, uy * vx - ux * vy);
      (x * x + y * y) * n == (dot - t * n) * (dot - t * n) + cross * cross
  {
    var x, y := ux - t * vx, uy - t * vy;
    var along, across := x * vx + y * vy, y * vx - x * vy;
    calc {
      (x * x + y * y) * (vx * vx + vy * vy);
      along * along + across * across;
    }
    assert along == (ux * vx + uy * vy) - t * (vx * vx + vy * vy);
    assert across == uy * vx - ux * vy;
  }

  /** The point t of the way along v lies within half a space of u. */
  predicate Half(ux: real, uy: real, vx: real, vy: real, t: real) {
    4.0 * ((ux - t * vx) * (ux - t * vx) + (uy - t * vy) * (uy - t * vy)) <= 1.0
  }

  ghost predicate SomeHalf(ux: real, uy: real, vx: real, vy: real) {
    exists t: real :: Half(ux, uy, vx, vy, t)
  }

  /** Squared, and times the squared length of v: off is how far t is from the nearest point. */
  lemma HalfMeans(ux: real, uy: real, vx: real, vy: real, t: real, n: real, off: real, cross: real)
    requires n == vx * vx + vy * vy && n > 0.0 && cross == uy * vx - ux * vy
    requires off == ux * vx + uy * vy - t * n
    ensures Half(ux, uy, vx, vy, t) <==> 4.0 * (off * off + cross * cross) <= n
  {
    Lagrange(ux, uy, vx, vy, t);
    var d := (ux - t * vx) * (ux - t * vx) + (uy - t * vy) * (uy - t * vy);
    assert d * n == off * off + cross * cross;
    ScaleByPositive(4.0 * d, n);
    assert 4.0 * d * n == 4.0 * (d * n);
  }

  /** Some t will do exactly when the cross product is small. */
  lemma SomeHalfIff(ux: real, uy: real, vx: real, vy: real, n: real, cross: real)
    requires n == vx * vx + vy * vy && n > 0.0 && cross == uy * vx - ux * vy
    ensures SomeHalf(ux, uy, vx, vy) <==> 4.0 * (cross * cross) <= n
  {
    var dot := ux * vx + uy * vy;
    if SomeHalf(ux, uy, vx, vy) {
      var t: real :| Half(ux, uy, vx, vy, t);
      var off := dot - t * n;
      HalfMeans(ux, uy, vx, vy, t, n, off, cross);
      SquareIsNotNegative(off);
    }
    if 4.0 * (cross * cross) <= n {
      var t := dot / n;
      HalfMeans(ux, uy, vx, vy, t, n, 0.0, cross);
      assert Half(ux, uy, vx, vy, t);
    }
  }

  lemma SquareIsNotNegative(a: real)
    ensures a * a >= 0.0
  {}

  lemma Product(a: int, b: int)
    ensures (a as real) * (b as real) == (a * b) as real
  {}

  lemma WholeNumbersIff(ux: int, uy: int, vx: int, vy: int, n: int, cross: int)
    requires n == vx * vx + vy * vy && n > 0 && cross == uy * vx - ux * vy
    ensures SomeHalf(ux as real, uy as real, vx as real, vy as real) <==> 4 * (cross * cross) <= n
  {
    Product(vx, vx);
    Product(vy, vy);
    Product(uy, vx);
    Product(ux, vy);
    SomeHalfIff(ux as real, uy as real, vx as real, vy as real, n as real, cross as real);
    Product(cross, cross);
  }

  lemma NearLineIff(win: Window, c: Cell, e: Cell, ux: real, uy: real, vx: real, vy: real)
    requires ux == (c.x - win.w / 2) as real && uy == (c.y - win.h / 2) as real
    requires vx == (e.x - win.w / 2) as real && vy == (e.y - win.h / 2) as real
    ensures NearLine(win, c, e) <==> SomeHalf(ux, uy, vx, vy)
  {
    forall t: real ensures WithinHalf(win, c, e, t) <==> Half(ux, uy, vx, vy, t) {}
  }

  /** The test of the code is the distance of the space from the line, for any two spaces. */
  lemma NearSightLineIff(win: Window, c: Cell, e: Cell)
    requires e != win.Centre()
    ensures NearSightLine(win, c, e) <==> NearLine(win, c, e)
  {
    var ux, uy, vx, vy := c.x - win.w / 2, c.y - win.h / 2, e.x - win.w / 2, e.y - win.h / 2;
    SumOfSquaresIsPositive(vx, vy);
    NearLineIff(win, c, e, ux as real, uy as real, vx as real, vy as real);
    IntegerTest(win, c, e, ux, uy, vx, vy);
    WholeNumbersIff(ux, uy, vx, vy, vx * vx + vy * vy, uy * vx - ux * vy);
  }

  lemma IntegerTest(win: Window, c: Cell, e: Cell, ux: int, uy: int, vx: int, vy: int)
    requires ux == c.x - win.w / 2 && uy == c.y - win.h / 2 && vx == e.x - win.w / 2 && vy == e.y - win.h / 2
    ensures var cross := uy * vx - ux * vy;
      NearSightLine(win, c, e) <==> 4 * (cross * cross) <= vx * vx + vy * vy
  {
    CrossIs(win, c, e, ux, uy, vx, vy);
    var cross := uy * vx - ux * vy;
    assert 4 * cross * cross == 4 * (cross * cross);
  }

  lemma SumOfSquaresIsPositive(a: int, b: int)
    ensures a * a + b * b >= 0 && (a != 0 || b != 0 ==> a * a + b * b > 0)
  {
    SquareNonNegative(a);
    SquareNonNegative(b);
    if a > 0 { assert a * a >= a; } else if a < 0 { assert a * a == (-a) * (-a) >= -a; }
    if b > 0 { assert b * b >= b; } else if b < 0 { assert b * b == (-b) * (-b) >= -b; }
  }

  lemma CrossIs(win: Window, c: Cell, e: Cell, ux: int, uy: int, vx: int, vy: int)
    requires ux == c.x - win.w / 2 && uy == c.y - win.h / 2 && vx == e.x - win.w / 2 && vy == e.y - win.h / 2
    ensures Cross(win, c, e) == uy * vx - ux * vy && Dist2(win, e) == vx * vx + vy * vy
  {
    assert Cross(win, c, e) == (vy - uy) * (-vx) - (vx - ux) * (-vy);
    assert (vy - uy) * (-vx) == uy * vx - vy * vx;
    assert (vx - ux) * (-vy) == ux * vy - vx * vy;
    assert (-vx) * (-vx) == vx * vx && (-vy) * (-vy) == vy * vy;
  }

  /** One space further out than c, along one axis of the window or both. */
  predicate FurtherOut(win: Window, c: Cell, e: Cell) {
    && e != c && Abs(e.x - c.x) <= 1 && Abs(e.y - c.y) <= 1
    && (e.x != c.x ==> Abs(e.x - win.w / 2) == Abs(c.x - win.w / 2) + 1)
    && (e.y != c.y ==> Abs(e.y - win.h / 2) == Abs(c.y - win.h / 2) + 1)
  }

  /** Neither the viewer's own space nor one on the border of the window. */
  predicate MayHide(win: Window, c: Cell) {
    && 1 <= c.x < win.w - 1 && 1 <= c.y < win.h - 1
    && !(c.x == win.w / 2 && c.y == win.h / 2)
  }

  /** Which spaces hide which, in coordinates: c hides e when e is one further out and c lies within
      half a space of the line through e and the viewer. */
  lemma BlocksIff(win: Window, c: Cell, e: Cell)
    requires win.Odd()
    ensures Blocks(win, c, e) <==> MayHide(win, c) && FurtherOut(win, c, e) && NearLine(win, c, e)
  {
    if Blocks(win, c, e) {
      var fx, fy, k := PickMirror(win, c, e);
      HidesIsNear(win, win.Mirror(fx, fy, c), k);
      MirrorNear(win, fx, fy, c, e);
      NearSightLineIff(win, c, e);
    }
    if MayHide(win, c) && FurtherOut(win, c, e) && NearLine(win, c, e) {
      NearSightLineIff(win, c, e);
      NearIsBlocked(win, c, e);
    }
  }

  lemma NearIsBlocked(win: Window, c: Cell, e: Cell)
    requires win.Odd() && MayHide(win, c) && FurtherOut(win, c, e) && NearSightLine(win, c, e)
    ensures Blocks(win, c, e)
  {
    var fx := c.x > win.w / 2 || (c.x == win.w / 2 && e.x > c.x);
    var fy := c.y > win.h / 2 || (c.y == win.h / 2 && e.y > c.y);
    MirrorNear(win, fx, fy, c, e);
    var k := if e.x != c.x && e.y != c.y then 0 else if e.x != c.x then 1 else 2;
    assert BlocksVia(win, fx, fy, k, c, e);
    assert BlocksAt(win, k, c, e);
  }

  /** On the axes the test would say the same. */
  lemma HidesIsNear(win: Window, q: Cell, k: nat)
    requires k < 3 && InQuadrant(win, q)
    ensures Hides(win, q, k) <==> NearSightLine(win, q, Outward(k, q))
  {
    var d := Outward(k, q);
    if Straight(win, q, d) {
      assert Cross(win, q, d) == 0;
    }
  }

  lemma MirrorNear(win: Window, fx: bool, fy: bool, c: Cell, e: Cell)
    requires win.Odd()
    ensures NearSightLine(win, win.Mirror(fx, fy, c), win.Mirror(fx, fy, e)) <==> NearSightLine(win, c, e)
  {
    var ux, uy, vx, vy := c.x - win.w / 2, c.y - win.h / 2, e.x - win.w / 2, e.y - win.h / 2;
    CrossIs(win, c, e, ux, uy, vx, vy);
    var sx, sy := if fx then -1 else 1, if fy then -1 else 1;
    CrossIs(win, win.Mirror(fx, fy, c), win.Mirror(fx, fy, e), sx * ux, sy * uy, sx * vx, sy * vy);
    assert (-vx) * (-vx) == vx * vx && (-vy) * (-vy) == vy * vy;
    var cross := uy * vx - ux * vy;
    var mirrored := (sy * uy) * (sx * vx) - (sx * ux) * (sy * vy);
    assert mirrored == cross || mirrored == -cross;
    assert 4 * (-cross) * (-cross) == 4 * cross * cross;
  }

  // ---------------------------------------------------------------------------------------
  // The table
  // ---------------------------------------------------------------------------------------

  lemma {:induction false} DistinctElements<T>(s: seq<T>)
    requires NoTwice(s)
    ensures |set e | e in s| == |s|
  {
    if s == [] {
      assert (set e | e in s) == {};
    } else {
      DistinctElements(s[1..]);
      assert (set e | e in s) == (set e | e in s[1..]) + {s[0]};
    }
  }

  lemma NoMoreThanThree(s: seq<Cell>, a: Cell, b: Cell, d: Cell)
    requires NoTwice(s)
    requires forall e :: e in s ==> e == a || e == b || e == d
    ensures |s| <= 3
  {
    DistinctElements(s);
    var all := set e | e in s;
    assert |all - {a}| >= |all| - 1;
    assert |all - {a} - {b}| >= |all| - 2;
    assert all - {a} - {b} <= {d};
    assert all - {a} - {b} - {d} == {};
    assert |all - {a} - {b} - {d}| >= |all| - 3;
  }

  /** Three spaces among which every space hidden by c is found. */
  lemma HiddenCandidates(win: Window, c: Cell) returns (a: Cell, b: Cell, d: Cell)
    requires win.Odd()
    ensures forall e :: Blocks(win, c, e) ==> e == a || e == b || e == d
  {
    var fx, fy := c.x > win.w / 2, c.y > win.h / 2;
    var q := win.Mirror(fx, fy, c);
    a := win.Mirror(fx, fy, Outward(0, q));
    b := win.Mirror(fx, fy, Outward(if q.x == win.w / 2 then 2 else 1, q));
    d := if q.x == win.w / 2 then win.Mirror(true, fy, Outward(0, q))
         else if q.y == win.h / 2 then win.Mirror(fx, true, Outward(0, q))
         else win.Mirror(fx, fy, Outward(2, q));
    forall e | Blocks(win, c, e) ensures e == a || e == b || e == d {
      var gx, gy, k := PickMirror(win, c, e);
      assert win.Mirror(gx, gy, c) == q;
      SidewaysIsVisible(win, q);
      assert e == win.Mirror(gx, gy, Outward(k, q));
    }
  }

  /** (c, e) is the reflection of q and its k-th outward neighbour. */
  predicate Image(win: Window, gx: bool, gy: bool, q: Cell, k: nat, c: Cell, e: Cell)
    requires k < 3
  {
    c == win.Mirror(gx, gy, q) && e == win.Mirror(gx, gy, Outward(k, q))
  }

  /** The quadrant space a space is a reflection of. */
  function Fold(win: Window, c: Cell): Cell {
    win.Mirror(c.x > win.w / 2, c.y > win.h / 2, c)
  }

  /** The edges contributed by one candidate are exactly the images of that candidate. */
  lemma EdgesOfCandidate(win: Window, q: Cell, k: nat, c: Cell, e: Cell)
    requires win.Odd() && InQuadrant(win, q) && k < 3
    ensures Fold(win, c) == q && BlocksAt(win, k, c, e) <==>
      && Hides(win, q, k)
      && (Image(win, false, false, q, k, c, e) || Image(win, false, true, q, k, c, e)
          || Image(win, true, false, q, k, c, e) || Image(win, true, true, q, k, c, e))
  {
    ImageIsEdge(win, false, false, q, k, c, e);
    ImageIsEdge(win, false, true, q, k, c, e);
    ImageIsEdge(win, true, false, q, k, c, e);
    ImageIsEdge(win, true, true, q, k, c, e);
  }

  lemma ImageIsEdge(win: Window, gx: bool, gy: bool, q: Cell, k: nat, c: Cell, e: Cell)
    requires win.Odd() && InQuadrant(win, q) && k < 3
    ensures Hides(win, q, k) && Image(win, gx, gy, q, k, c, e) <==> Fold(win, c) == q && BlocksVia(win, gx, gy, k, c, e)
  {
    if Image(win, gx, gy, q, k, c, e) {
      assert win.Mirror(gx, gy, c) == q && win.Mirror(gx, gy, e) == Outward(k, q);
    }
    if BlocksVia(win, gx, gy, k, c, e) {
      assert win.Mirror(gx, gy, c) == Fold(win, c);
      assert win.Mirror(gx, gy, Fold(win, c)) == c;
      assert win.Mirror(gx, gy, win.Mirror(gx, gy, e)) == e;
    }
  }

  lemma EdgesLeaveQuadrant(win: Window, k: nat, c: Cell, e: Cell)
    requires win.Odd() && k < 3
    ensures BlocksAt(win, k, c, e) ==> InQuadrant(win, Fold(win, c))
  {
    if BlocksAt(win, k, c, e) {
      var fx := BlocksVia(win, true, false, k, c, e) || BlocksVia(win, true, true, k, c, e);
      var fy := BlocksVia(win, fx, true, k, c, e);
      assert Fold(win, c) == win.Mirror(fx, fy, c);
    }
  }

  class BlockTable {
    const win: Window
    var block: array2<seq<Cell>>

    /** The successors recorded for c, in the order they were added. */
    function Row(c: Cell): seq<Cell>
      requires block.Length0 == win.w && block.Length1 == win.h && win.Contains(c)
      reads this, block
    {
      block[c.x, c.y]
    }

    /** Every row is duplicate-free and holds only real successors. */
    ghost predicate Valid()
      reads this, block
    {
      && win.Odd() && block.Length0 == win.w && block.Length1 == win.h
      && (forall c :: win.Contains(c) ==> NoTwice(Row(c)))
      && (forall c, e :: win.Contains(c) && e in Row(c) ==> Blocks(win, c, e))
    }

    /** The rows as a value. */
    function Rows(): map<Cell, seq<Cell>>
      requires block.Length0 == win.w && block.Length1 == win.h
      reads this, block
    {
      map c: Cell | c in win.Cells() :: Row(c)
    }

    /** Every row holds every successor. */
    ghost predicate Complete()
      requires Valid()
      reads this, block
    {
      forall c, e :: win.Contains(c) && Blocks(win, c, e) ==> e in Row(c)
    }

    /** The filled table, in coordinates. */
    lemma RowIff(c: Cell, e: Cell)
      requires Valid() && Complete() && win.Odd() && win.Contains(c)
      ensures e in Row(c) <==> MayHide(win, c) && FurtherOut(win, c, e) && NearLine(win, c, e)
    {
      BlocksIff(win, c, e);
    }

    /** No row ever needs more than three of its four slots. */
    lemma RowFits(c: Cell)
      requires Valid() && win.Contains(c)
      ensures |Row(c)| <= 3
    {
      var a, b, d := HiddenCandidates(win, c);
      NoMoreThanThree(Row(c), a, b, d);
    }

    /** set_block: records that c hides e, unless that is known already. The row must have a
        free slot: the code writes without looking. */
    method SetBlock(c: Cell, e: Cell)
      requires Valid() && win.Contains(c) && Blocks(win, c, e)
      requires |Row(c)| < SLOTS
      modifies block
      ensures Valid()
      ensures Row(c) == if e in old(Row(c)) then old(Row(c)) else old(Row(c)) + [e]
      ensures forall c' :: win.Contains(c') && c' != c ==> Row(c') == old(Row(c'))
    {
      var index := |block[c.x, c.y]|;
      for i := 0 to index
        invariant e !in Row(c)[..i]
      {
        if block[c.x, c.y][i] == e {
          return;
        }
      }
      block[c.x, c.y] := block[c.x, c.y] + [e];
    }

    /** One candidate of one quadrant space: the mirror images are recorded along with it. */
    method RecordCandidate(q: Cell, k: nat)
      requires Valid() && InQuadrant(win, q) && k < 3
      modifies block
      ensures Valid()
      ensures forall c, e :: win.Contains(c) ==>
        (e in Row(c) <==> e in old(Row(c)) || (Fold(win, c) == q && BlocksAt(win, k, c, e)))
    {
      forall c, e {
        EdgesOfCandidate(win, q, k, c, e);
      }
      var d := Outward(k, q);
      if Straight(win, q, d) {
        SetMirrored(false, false, q, k);
        if q.x == win.w / 2 {
          SetMirrored(false, true, q, k);
        } else if q.y == win.h / 2 {
          SetMirrored(true, false, q, k);
        }
      } else if NearSightLine(win, q, d) {
        SetMirrored(false, false, q, k);
        SetMirrored(true, false, q, k);
        SetMirrored(false, true, q, k);
        SetMirrored(true, true, q, k);
      }
    }

    /** One set_block call, on the reflection of a candidate. */
    method SetMirrored(gx: bool, gy: bool, q: Cell, k: nat)
      requires Valid() && k < 3 && InQuadrant(win, q) && Hides(win, q, k)
      modifies block
      ensures Valid()
      ensures forall c, e :: win.Contains(c) ==> (e in Row(c) <==> e in old(Row(c)) || Image(win, gx, gy, q, k, c, e))
    {
      var c, e := win.Mirror(gx, gy, q), win.Mirror(gx, gy, Outward(k, q));
      EdgesOfCandidate(win, q, k, c, e);
      RowFits(c);
      SetBlock(c, e);
    }

    /** init_block: fills the table, candidate by candidate over the upper left quadrant. */
    constructor (w: nat, h: nat)
      requires Window(w, h).Odd()
      ensures win == Window(w, h) && fresh(block)
      ensures Valid() && Complete()
    {
      win := Window(w, h);
      block := new seq<Cell>[w, h];
      new;
      ClearRows();
      for x := 1 to w / 2 + 1
        invariant win == Window(w, h) && fresh(block) && Valid() && FilledUpTo(x, 1, 0)
      {
        for y := 1 to h / 2 + 1
          invariant win == Window(w, h) && fresh(block) && Valid() && FilledUpTo(x, y, 0)
        {
          // the centre never blocks
          if !(x == w / 2 && y == h / 2) {
            for i := 0 to 3
              invariant win == Window(w, h) && fresh(block) && Valid() && FilledUpTo(x, y, i)
            {
              Treat(x, y, i);
            }
          }
          NextSpace(x, y);
        }
        NextColumn(x);
      }
      AllTreated();
    }

    method ClearRows()
      requires win.Odd() && block.Length0 == win.w && block.Length1 == win.h
      modifies block
      ensures Valid() && FilledUpTo(1, 1, 0)
    {
      for x := 0 to win.w
        invariant forall a, b :: 0 <= a < x && 0 <= b < win.h ==> block[a, b] == []
      {
        for y := 0 to win.h
          invariant forall a, b :: 0 <= a < x && 0 <= b < win.h ==> block[a, b] == []
          invariant forall b :: 0 <= b < y ==> block[x, b] == []
        {
          block[x, y] := [];
        }
      }
      NothingFilled();
    }

    lemma NothingFilled()
      requires win.Odd() && block.Length0 == win.w && block.Length1 == win.h
      requires forall a, b :: 0 <= a < win.w && 0 <= b < win.h ==> block[a, b] == []
      ensures Valid() && FilledUpTo(1, 1, 0)
    {}

    /** One step of the scan. */
    method Treat(x: int, y: int, i: nat)
      requires Valid() && InQuadrant(win, Cell(x, y)) && i < 3 && FilledUpTo(x, y, i)
      modifies block
      ensures Valid() && FilledUpTo(x, y, i + 1)
    {
      RecordCandidate(Cell(x, y), i);
    }

    lemma NextSpace(x: int, y: int)
      requires Valid() && 1 <= x <= win.w / 2 && 1 <= y <= win.h / 2
      requires FilledUpTo(x, y, if Cell(x, y) == win.Centre() then 0 else 3)
      ensures FilledUpTo(x, y + 1, 0)
    {
      forall c, e | win.Contains(c)
        ensures e in Row(c) <==> BlocksBelow(win, Treated(c, x, y + 1, 0), c, e)
      {
        var n := if Cell(x, y) == win.Centre() then 0 else 3;
        TreatedOnlyMatters(c, e, Treated(c, x, y, n), Treated(c, x, y + 1, 0));
      }
    }

    lemma NextColumn(x: int)
      requires Valid() && 1 <= x <= win.w / 2
      requires FilledUpTo(x, win.h / 2 + 1, 0)
      ensures FilledUpTo(x + 1, 1, 0)
    {
      forall c, e | win.Contains(c)
        ensures e in Row(c) <==> BlocksBelow(win, Treated(c, x + 1, 1, 0), c, e)
      {
        TreatedOnlyMatters(c, e, Treated(c, x, win.h / 2 + 1, 0), Treated(c, x + 1, 1, 0));
      }
    }

    lemma AllTreated()
      requires Valid() && FilledUpTo(win.w / 2 + 1, 1, 0)
      ensures Complete()
    {
      forall c, e | win.Contains(c) && Blocks(win, c, e)
        ensures e in Row(c)
      {
        TreatedOnlyMatters(c, e, 3, Treated(c, win.w / 2 + 1, 1, 0));
      }
    }

    /** Outside the quadrant there is nothing to record, so progress counts agree there. */
    lemma TreatedOnlyMatters(c: Cell, e: Cell, m: nat, n: nat)
      requires win.Odd()
      requires InQuadrant(win, Fold(win, c)) ==> m == n
      ensures BlocksBelow(win, m, c, e) <==> BlocksBelow(win, n, c, e)
    {
      if m != n {
        EdgesLeaveQuadrant(win, 0, c, e);
        EdgesLeaveQuadrant(win, 1, c, e);
        EdgesLeaveQuadrant(win, 2, c, e);
      }
    }

    /** How many candidates of c's quadrant space were treated before step (x, y, i) of the scan. */
    ghost function Treated(c: Cell, x: int, y: int, i: nat): nat {
      var q := Fold(win, c);
      if q.x < x || (q.x == x && q.y < y) then 3 else if q == Cell(x, y) then i else 0
    }

    ghost predicate FilledUpTo(x: int, y: int, i: nat)
      requires Valid()
      reads this, block
    {
      forall c, e :: win.Contains(c) ==> (e in Row(c) <==> BlocksBelow(win, Treated(c, x, y, i), c, e))
    }
  }
}
