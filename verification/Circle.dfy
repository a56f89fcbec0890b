/**
 The integer circle rasteriser of chapter7/ex7-5/ex7_5.c, as arithmetic.

 `HeadAt(r, n)` is the triple (x, y, radiuserror) the loop of `DrawCircle` holds when its
 guard is evaluated for the (n+1)-st time.  The main result, `VisitsExactlyTheOctant`, gives
 the set of octant pixels the loop visits without mentioning the error term at all.
 */
module Circle {

  datatype Head = Head(x: int, y: int, err: int)

  function Start(r: int): Head {
    Head(r, 0, 1 - r)
  }

  // One pass through the loop body, updates in program order.
  function Advance(h: Head): Head {
    var y := h.y + 1;
    if h.err < 0 then
      Head(h.x, y, h.err + (2 * y + 1))
    else
      var x := h.x - 1;
      Head(x, y, h.err + 2 * (y - x + 1))
  }

  function HeadAt(r: int, n: nat): Head {
    if n == 0 then Start(r) else Advance(HeadAt(r, n - 1))
  }

  /** The loop is still running when its guard is evaluated for row n. */
  ghost predicate Reaches(r: int, n: nat) {
    forall k: nat :: k <= n ==> HeadAt(r, k).x >= HeadAt(r, k).y
  }

  /** (x, y) is one of the octant pixels the loop body runs for. */
  ghost predicate Visits(r: int, x: int, y: int) {
    y >= 0 && Reaches(r, y) && HeadAt(r, y).x == x
  }

  // ---------- the reference shape ----------

  /** Lattice points farther from the origin than r - 1/2: 4(x^2+y^2) > (2r-1)^2. */
  predicate Outside(r: int, x: int, y: int) {
    4 * (x * x + y * y) > (2 * r - 1) * (2 * r - 1)
  }

  /** x is the least natural number for which (x, y) lies outside radius r - 1/2. */
  ghost predicate Innermost(r: int, x: int, y: int) {
    && x >= 0
    && Outside(r, x, y)
    && forall k :: 0 <= k < x ==> !Outside(r, k, y)
  }

  /** The octant 0 <= y <= x of the drawn circle; a radius of zero is the centre point. */
  ghost predicate Octant(r: int, x: int, y: int) {
    if r >= 1 then
      0 <= y <= x && Innermost(r, x, y)
    else
      r == 0 && x == 0 && y == 0
  }

  // ---------- arithmetic ----------

  lemma OutsideInteger(r: int, x: int, y: int)
    ensures Outside(r, x, y) <==> x * x + y * y >= r * r - r + 1
  {
    assert (2 * r - 1) * (2 * r - 1) == 4 * (r * r) - 4 * r + 1;
  }

  lemma SquareMonotone(a: int, b: int)
    requires 0 <= a <= b
    ensures a * a <= b * b
  {
    assert b * b - a * a == (b - a) * (b + a);
  }

  lemma OutsideMonotone(r: int, x: int, x': int, y: int, y': int)
    requires 0 <= x <= x' && 0 <= y <= y'
    requires Outside(r, x, y)
    ensures Outside(r, x', y')
  {
    SquareMonotone(x, x');
    SquareMonotone(y, y');
  }

  /** Leastness needs checking at one neighbour only. */
  lemma InnermostIsOneStep(r: int, x: int, y: int)
    requires r >= 1 && x >= 1 && y >= 0
    ensures Innermost(r, x, y) <==> Outside(r, x, y) && !Outside(r, x - 1, y)
  {
    if Outside(r, x, y) && !Outside(r, x - 1, y) {
      forall k | 0 <= k < x
        ensures !Outside(r, k, y)
      {
        if Outside(r, k, y) {
          OutsideMonotone(r, k, x - 1, y, y);
        }
      }
    }
  }

  lemma InnermostUnique(r: int, x: int, x': int, y: int)
    requires Innermost(r, x, y) && Innermost(r, x', y)
    ensures x == x'
  {
  }

  // ---------- the loop ----------

  lemma Expand(x: int, y: int)
    ensures (x - 1) * (x - 1) == x * x - 2 * x + 1
    ensures (x - 2) * (x - 2) == x * x - 4 * x + 4
    ensures (y + 1) * (y + 1) == y * y + 2 * y + 1
    ensures (y + 2) * (y + 2) == y * y + 4 * y + 4
  {
  }

  /** The error term is an exact quadratic in the position ... */
  lemma {:induction false} ErrorClosedForm(r: int, n: nat)
    ensures var h := HeadAt(r, n);
      h.y == n && h.err == (h.x - 1) * (h.x - 1) + (h.y + 1) * (h.y + 1) - (r * r - r + 1)
  {
    if n == 0 {
      Expand(r, 0);
    } else {
      var g := HeadAt(r, n - 1);
      ErrorClosedForm(r, n - 1);
      Expand(g.x, g.y);
      if g.err >= 0 {
        assert HeadAt(r, n).x - 1 == g.x - 2;
      }
    }
  }

  /** ... so its sign tests the pixel diagonally inward against radius r - 1/2. */
  lemma ErrorSign(r: int, n: nat)
    ensures var h := HeadAt(r, n); h.err >= 0 <==> Outside(r, h.x - 1, h.y + 1)
  {
    var h := HeadAt(r, n);
    ErrorClosedForm(r, n);
    OutsideInteger(r, h.x - 1, h.y + 1);
  }

  lemma {:induction false} HeadXNeverGrows(r: int, m: nat, n: nat)
    requires m <= n
    ensures HeadAt(r, n).x <= HeadAt(r, m).x
    ensures HeadAt(r, m).y == m
  {
    if m == n {
      ErrorClosedForm(r, m);
    } else {
      HeadXNeverGrows(r, m, n - 1);
    }
  }

  /** A row is reached exactly when the guard holds there: the guard never recovers. */
  lemma ReachesIsGuard(r: int, n: nat)
    ensures Reaches(r, n) <==> HeadAt(r, n).x >= n
  {
    ErrorClosedForm(r, n);
    if HeadAt(r, n).x >= n {
      forall k: nat | k <= n
        ensures HeadAt(r, k).x >= HeadAt(r, k).y
      {
        HeadXNeverGrows(r, k, n);
      }
    }
  }

  // A pixel two columns in and one row up from one inside the octant stays inside.
  lemma InwardStaysInside(r: int, x: int, y: int)
    requires 0 <= y <= x - 2 && !Outside(r, x - 1, y)
    ensures !Outside(r, x - 2, y + 1)
  {
    OutsideInteger(r, x - 1, y);
    OutsideInteger(r, x - 2, y + 1);
    Expand(x, y);
  }

  lemma {:induction false} StartIsInnermost(r: int)
    requires r >= 1
    ensures Innermost(r, r, 0)
  {
    OutsideInteger(r, r, 0);
    OutsideInteger(r, r - 1, 0);
    Expand(r, 0);
    InnermostIsOneStep(r, r, 0);
  }

  lemma InnermostPositive(r: int, x: int, y: int)
    requires r >= 1 && 0 <= y <= x && Innermost(r, x, y)
    ensures x >= 1
  {
    OutsideInteger(r, x, y);
    SquareMonotone(1, r);
    assert r * r - r == r * (r - 1);
  }

  // The two ways to the next row, chosen by whether the diagonal pixel is outside.
  lemma {:induction false} RowUp(r: int, x: int, y: int)
    requires r >= 1 && 1 <= x && 0 <= y && Innermost(r, x, y) && !Outside(r, x - 1, y + 1)
    ensures Innermost(r, x, y + 1)
  {
    OutsideMonotone(r, x, x, y, y + 1);
    InnermostIsOneStep(r, x, y + 1);
  }

  lemma RowUpAndIn(r: int, x: int, y: int)
    requires r >= 1 && 0 <= y && y + 1 <= x - 1 && Innermost(r, x, y) && Outside(r, x - 1, y + 1)
    ensures Innermost(r, x - 1, y + 1)
  {
    assert !Outside(r, x - 1, y);
    InwardStaysInside(r, x, y);
    InnermostIsOneStep(r, x - 1, y + 1);
  }

  // One pass of the loop from the innermost pixel of a row.
  lemma NextPixel(r: int, x: int, y: int, x': int)
    requires r >= 1 && 0 <= y <= x && Innermost(r, x, y)
    requires x' == if Outside(r, x - 1, y + 1) then x - 1 else x
    ensures x' >= 0 && Outside(r, x', y + 1) && (x' >= y + 1 ==> Innermost(r, x', y + 1))
  {
    InnermostPositive(r, x, y);
    if x' == x {
      RowUp(r, x, y);
    } else if x' >= y + 1 {
      RowUpAndIn(r, x, y);
    }
  }

  lemma NextHeadX(r: int, n: nat)
    ensures var x := HeadAt(r, n).x;
      HeadAt(r, n + 1).x == if Outside(r, x - 1, n + 1) then x - 1 else x
  {
    ErrorClosedForm(r, n);
    ErrorSign(r, n);
    assert HeadAt(r, n + 1) == Advance(HeadAt(r, n));
  }

  /** While the guard holds the loop sits on the innermost pixel of its row, and in the
      first row past the end such a pixel would already lie outside the octant. */
  lemma {:induction false} HeadIsInnermost(r: int, n: nat)
    requires r >= 1
    requires n == 0 || HeadAt(r, n - 1).x >= n - 1
    ensures var x := HeadAt(r, n).x; x >= 0 && Outside(r, x, n) && (x >= n ==> Innermost(r, x, n))
  {
    if n == 0 {
      StartIsInnermost(r);
    } else {
      if n > 1 {
        HeadXNeverGrows(r, n - 2, n - 1);
      }
      HeadIsInnermost(r, n - 1);
      NextHeadX(r, n - 1);
      NextPixel(r, HeadAt(r, n - 1).x, n - 1, HeadAt(r, n).x);
    }
  }

  /** The first row at which the guard fails. */
  lemma {:induction false} FirstMiss(r: int, n: nat) returns (z: nat)
    requires r >= 1 && HeadAt(r, n).x < n
    ensures 0 < z <= n && HeadAt(r, z).x < z && HeadAt(r, z - 1).x >= z - 1
  {
    if HeadAt(r, n - 1).x < n - 1 {
      z := FirstMiss(r, n - 1);
    } else {
      z := n;
    }
  }

  lemma {:induction false} NothingPastTheEnd(r: int, x: int, y: nat)
    requires r >= 1 && HeadAt(r, y).x < y
    ensures !Octant(r, x, y)
  {
    var z := FirstMiss(r, y);
    var w := HeadAt(r, z).x;
    HeadIsInnermost(r, z);
    OutsideMonotone(r, w, w, z, y);
  }

  /** Soundness and completeness: for every radius, the pixels the loop visits are exactly
      the octant of the innermost pixels outside radius r - 1/2, one in each row. */
  lemma VisitsExactlyTheOctant(r: int, x: int, y: int)
    ensures Visits(r, x, y) <==> Octant(r, x, y)
  {
    if y >= 0 {
      ReachesIsGuard(r, y);
      if r >= 1 {
        if HeadAt(r, y).x >= y {
          if y > 0 {
            HeadXNeverGrows(r, y - 1, y);
          }
          HeadIsInnermost(r, y);
          if Octant(r, x, y) {
            InnermostUnique(r, x, HeadAt(r, y).x, y);
          }
        } else if Octant(r, x, y) {
          NothingPastTheEnd(r, x, y);
        }
      } else {
        HeadXNeverGrows(r, 0, y);
        if y > 0 {
          HeadXNeverGrows(r, 1, y);
        }
      }
    }
  }

  // ---------- what the octant looks like ----------

  lemma HalfPixelBounds(r: int, d: int)
    requires r * r - r + 1 <= d <= r * r + r - 1
    ensures (2 * r - 1) * (2 * r - 1) < 4 * d < (2 * r + 1) * (2 * r + 1)
  {
    assert (2 * r - 1) * (2 * r - 1) == 4 * (r * r) - 4 * r + 1;
    assert (2 * r + 1) * (2 * r + 1) == 4 * (r * r) + 4 * r + 1;
  }

  lemma Annulus(r: int, x: int, y: int)
    requires r >= 1 && 1 <= x <= r && y >= 0 && Innermost(r, x, y)
    ensures r * r - r + 1 <= x * x + y * y <= r * r + r - 1
  {
    assert !Outside(r, x - 1, y);
    OutsideInteger(r, x, y);
    OutsideInteger(r, x - 1, y);
    Expand(x, y);
  }

  /** Every visited pixel lies within half a pixel of the ideal circle:
      (r - 1/2)^2 < x^2 + y^2 < (r + 1/2)^2; and the loop never leaves the octant's rows. */
  lemma WithinHalfAPixel(r: int, x: int, y: int)
    requires r >= 1 && Visits(r, x, y)
    ensures r * r - r + 1 <= x * x + y * y <= r * r + r - 1
    ensures (2 * r - 1) * (2 * r - 1) < 4 * (x * x + y * y) < (2 * r + 1) * (2 * r + 1)
    ensures 0 <= y <= x <= r && 2 * (y * y) <= r * r + r - 1
  {
    VisitsExactlyTheOctant(r, x, y);
    HeadXNeverGrows(r, 0, y);
    InnermostPositive(r, x, y);
    Annulus(r, x, y);
    HalfPixelBounds(r, x * x + y * y);
    SquareMonotone(y, x);
  }

  /** The error term stays between 2(y-x)+2 and 2y at every guard that holds, so everything
      the loop body computes from it, including the values at the exit guard, stays between
      -2r and 4r+3: no overflow of a 32-bit int for any radius up to (2^31-4)/4. */
  lemma ErrorStaysLinear(r: int, n: nat)
    requires r >= 1 && HeadAt(r, n).x >= n
    ensures var h := HeadAt(r, n); 2 * (h.y - h.x) + 2 <= h.err <= 2 * h.y
    ensures var h, g := HeadAt(r, n), HeadAt(r, n + 1);
      && 0 <= h.y <= h.x <= r
      && 0 <= 2 * g.y + 1 <= 4 * r + 3
      && -2 * r <= 2 * (g.y - g.x + 1) <= 4 * r + 3
      && -2 * r <= h.err <= 4 * r + 3
      && -2 * r <= g.err <= 4 * r + 3
  {
    var h := HeadAt(r, n);
    ReachesIsGuard(r, n);
    ErrorClosedForm(r, n);
    WithinHalfAPixel(r, h.x, n);
    VisitsExactlyTheOctant(r, h.x, n);
    InnermostPositive(r, h.x, n);
    InnermostIsOneStep(r, h.x, n);
    OutsideInteger(r, h.x - 1, n);
    Expand(h.x, n);
    assert HeadAt(r, n + 1) == Advance(h);
  }

  /** Successive octant pixels touch: one row up, and the same column or one further in. */
  lemma NextRowTouches(r: int, x: int, x': int, y: int)
    requires Octant(r, x, y) && Octant(r, x', y + 1)
    ensures x' == x || x' == x - 1
  {
    VisitsExactlyTheOctant(r, x, y);
    VisitsExactlyTheOctant(r, x', y + 1);
    assert HeadAt(r, y + 1) == Advance(HeadAt(r, y));
  }

  ghost predicate RowDrawn(r: int, y: int) {
    exists x :: Octant(r, x, y)
  }

  /** The octant ends on the diagonal or one pixel short of it, where its mirror image
      (y, x) touches it. */
  lemma LastPixelMeetsDiagonal(r: int, x: int, y: int)
    requires Octant(r, x, y) && !RowDrawn(r, y + 1)
    ensures 0 <= x - y <= 1
  {
    VisitsExactlyTheOctant(r, x, y);
    ReachesIsGuard(r, y + 1);
    var h := HeadAt(r, y + 1);
    VisitsExactlyTheOctant(r, h.x, y + 1);
    assert h == Advance(HeadAt(r, y));
  }

  // ---------- the textbook circle ----------

  /** The first column whose midpoint with the next column out is not inside radius r:
      the pixel the exact midpoint rule chooses. */
  ghost predicate Midpoint(r: int, x: int, y: int) {
    && x >= 0
    && x * x + x + y * y >= r * r
    && forall k :: 0 <= k < x ==> k * k + k + y * y < r * r
  }

  lemma ThirdOfRadius(r: int, x: int)
    requires 0 <= x && 3 * x + 4 <= r
    ensures 2 * (x * x) < r * r - r + 1
  {
    SquareMonotone(3 * x + 4, r);
    SquareMonotone(3 * x + 3, r - 1);
    assert (r - 1) * (r - 1) == r * r - 2 * r + 1;
    assert (3 * x + 3) * (3 * x + 3) == 9 * (x * x) + 18 * x + 9;
  }

  lemma OneColumnOutPasses(r: int, x: int, y: int)
    requires r >= 1 && 0 <= y <= x && r * r - r + 1 <= x * x + y * y
    ensures (x + 1) * (x + 1) + (x + 1) + y * y >= r * r
  {
    assert (x + 1) * (x + 1) == x * x + 2 * x + 1;
    SquareMonotone(y, x);
    if 3 * x + 3 < r {
      assert r * r == r * (r - 1) + r;
      ThirdOfRadius(r, x);
    }
  }

  lemma MidpointIsOutside(r: int, m: int, y: int)
    requires 0 <= m < r && m * m + m + y * y >= r * r
    ensures Outside(r, m, y)
  {
    OutsideInteger(r, m, y);
  }

  lemma MidpointUnique(r: int, m: int, m': int, y: int)
    requires Midpoint(r, m, y) && Midpoint(r, m', y)
    ensures m == m'
  {
  }

  // No column inside a drawn pixel passes the midpoint test.
  lemma ColumnsInsideFail(r: int, x: int, y: int, k: int)
    requires r >= 1 && Visits(r, x, y) && 0 <= k < x
    ensures k * k + k + y * y < r * r
  {
    WithinHalfAPixel(r, x, y);
    VisitsExactlyTheOctant(r, x, y);
    if k * k + k + y * y >= r * r {
      MidpointIsOutside(r, k, y);
    }
  }

  /** On every row it draws, the code is on the exact midpoint pixel or one column inside
      it, and it is inside precisely when its own pixel fails the midpoint test. */
  lemma AtMostOneInsideMidpoint(r: int, x: int, m: int, y: int)
    requires r >= 1 && Visits(r, x, y)
    ensures Midpoint(r, m, y) <==> m == if x * x + x + y * y >= r * r then x else x + 1
  {
    var exact := if x * x + x + y * y >= r * r then x else x + 1;
    WithinHalfAPixel(r, x, y);
    VisitsExactlyTheOctant(r, x, y);
    OneColumnOutPasses(r, x, y);
    forall k | 0 <= k < exact
      ensures k * k + k + y * y < r * r
    {
      if k < x {
        ColumnsInsideFail(r, x, y, k);
      }
    }
    assert Midpoint(r, exact, y);
    if Midpoint(r, m, y) {
      MidpointUnique(r, m, exact, y);
    }
  }
}
