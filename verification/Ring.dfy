/**
 The whole outline `DrawCircle` draws: the eight reflections of the octant.  It is a single
 8-connected ring, and it has no gap through which a 4-connected walk could leave it.
 */
module Ring {
  import opened Circle

  type Pixel = (int, int)

  function Abs(a: int): int {
    if a < 0 then -a else a
  }

  function Max(a: int, b: int): int {
    if a < b then b else a
  }

  function Min(a: int, b: int): int {
    if a < b then a else b
  }

  ghost predicate OnRing(r: int, p: Pixel) {
    Octant(r, Max(Abs(p.0), Abs(p.1)), Min(Abs(p.0), Abs(p.1)))
  }

  // The eight points the loop body draws for (x, y), relative to the centre.
  function Eight(x: int, y: int): set<Pixel> {
    {(x, y), (y, x), (-x, y), (-y, x), (-x, -y), (-y, -x), (x, -y), (y, -x)}
  }

  lemma EightIsAbs(x: int, y: int, p: Pixel)
    requires 0 <= y <= x
    ensures p in Eight(x, y) <==> Max(Abs(p.0), Abs(p.1)) == x && Min(Abs(p.0), Abs(p.1)) == y
  {
  }

  /** A pixel is on the ring exactly when the loop visits a pair (x, y) one of whose eight
      reflections it is; in particular the ring is closed under all eight. */
  lemma RingIsEightOctants(r: int, p: Pixel)
    ensures OnRing(r, p) <==> exists x, y :: Visits(r, x, y) && p in Eight(x, y)
  {
    var x, y := Max(Abs(p.0), Abs(p.1)), Min(Abs(p.0), Abs(p.1));
    VisitsExactlyTheOctant(r, x, y);
    if OnRing(r, p) {
      EightIsAbs(x, y, p);
      assert Visits(r, x, y) && p in Eight(x, y);
    }
    if u, v :| Visits(r, u, v) && p in Eight(u, v) {
      VisitsExactlyTheOctant(r, u, v);
      EightIsAbs(u, v, p);
    }
  }

  // ---------- connectivity ----------

  // Chebyshev distance at most one.
  predicate Touch(p: Pixel, q: Pixel) {
    Abs(p.0 - q.0) <= 1 && Abs(p.1 - q.1) <= 1
  }

  ghost predicate Chain(r: int, s: seq<Pixel>) {
    && |s| > 0
    && (forall i :: 0 <= i < |s| ==> OnRing(r, s[i]))
    && forall i :: 0 < i < |s| ==> Touch(s[i - 1], s[i])
  }

  /** p and q are joined by a chain of touching ring pixels. */
  ghost predicate Linked(r: int, p: Pixel, q: Pixel) {
    exists s :: Chain(r, s) && s[0] == p && s[|s| - 1] == q
  }

  lemma LinkedStep(r: int, p: Pixel, q: Pixel)
    requires OnRing(r, p) && OnRing(r, q) && Touch(p, q)
    ensures Linked(r, p, q)
  {
    var s := [p, q];
    assert Chain(r, s) && s[0] == p && s[|s| - 1] == q;
  }

  lemma {:induction false} LinkedTransitive(r: int, p: Pixel, q: Pixel, t: Pixel)
    requires Linked(r, p, q) && Linked(r, q, t)
    ensures Linked(r, p, t)
  {
    var s :| Chain(r, s) && s[0] == p && s[|s| - 1] == q;
    var u :| Chain(r, u) && u[0] == q && u[|u| - 1] == t;
    var w := s + u;
    forall i | 0 < i < |w|
      ensures Touch(w[i - 1], w[i])
    {
      if i < |s| {
        assert Touch(s[i - 1], s[i]);
      } else if i > |s| {
        assert Touch(u[i - 1 - |s|], u[i - |s|]);
      }
    }
    assert Chain(r, w) && w[0] == p && w[|w| - 1] == t;
  }

  function Reversed(s: seq<Pixel>): (w: seq<Pixel>)
    ensures |w| == |s|
  {
    seq(|s|, i requires 0 <= i < |s| => s[|s| - 1 - i])
  }

  lemma ReversedTouches(s: seq<Pixel>)
    requires forall i :: 0 < i < |s| ==> Touch(s[i - 1], s[i])
    ensures forall i :: 0 < i < |s| ==> Touch(Reversed(s)[i - 1], Reversed(s)[i])
  {
    forall i | 0 < i < |s|
      ensures Touch(Reversed(s)[i - 1], Reversed(s)[i])
    {
      var j := |s| - i;
      assert Reversed(s)[i - 1] == s[j] && Reversed(s)[i] == s[j - 1];
      assert Touch(s[j - 1], s[j]);
    }
  }

  lemma ReversedChain(r: int, s: seq<Pixel>)
    requires Chain(r, s)
    ensures Chain(r, Reversed(s))
  {
    ReversedTouches(s);
    forall i | 0 <= i < |s|
      ensures OnRing(r, Reversed(s)[i])
    {
      assert Reversed(s)[i] == s[|s| - 1 - i];
    }
  }

  lemma {:induction false} LinkedSymmetric(r: int, p: Pixel, q: Pixel)
    requires Linked(r, p, q)
    ensures Linked(r, q, p)
  {
    var s :| Chain(r, s) && s[0] == p && s[|s| - 1] == q;
    var w := Reversed(s);
    ReversedChain(r, s);
    assert w[0] == q && w[|w| - 1] == p;
  }

  // One of the eight symmetries of the square.
  datatype Symmetry = Symmetry(swap: bool, flipX: bool, flipY: bool) {
    function Of(p: Pixel): Pixel {
      var a := if swap then (p.1, p.0) else p;
      (if flipX then -a.0 else a.0, if flipY then -a.1 else a.1)
    }

    lemma KeepsAbs(p: Pixel)
      ensures var q := Of(p); Max(Abs(q.0), Abs(q.1)) == Max(Abs(p.0), Abs(p.1))
      ensures var q := Of(p); Min(Abs(q.0), Abs(q.1)) == Min(Abs(p.0), Abs(p.1))
    {
    }

    lemma KeepsTouch(p: Pixel, q: Pixel)
      requires Touch(p, q)
      ensures Touch(Of(p), Of(q))
    {
    }
  }

  lemma {:induction false} LinkedReflects(r: int, g: Symmetry, p: Pixel, q: Pixel)
    requires Linked(r, p, q)
    ensures Linked(r, g.Of(p), g.Of(q))
  {
    var s :| Chain(r, s) && s[0] == p && s[|s| - 1] == q;
    var w := seq(|s|, i requires 0 <= i < |s| => g.Of(s[i]));
    forall i | 0 <= i < |w|
      ensures OnRing(r, w[i])
    {
      g.KeepsAbs(s[i]);
    }
    forall i | 0 < i < |w|
      ensures Touch(w[i - 1], w[i])
    {
      g.KeepsTouch(s[i - 1], s[i]);
    }
    assert Chain(r, w) && w[0] == g.Of(p) && w[|w| - 1] == g.Of(q);
  }

  lemma {:induction false} OctantLinksToAxis(r: int, x: int, y: int)
    requires Octant(r, x, y)
    ensures Linked(r, (x, y), (r, 0))
    decreases y
  {
    VisitsExactlyTheOctant(r, x, y);
    if y == 0 {
      LinkedStep(r, (x, y), (r, 0));
    } else {
      var w := HeadAt(r, y - 1).x;
      assert Reaches(r, y - 1);
      VisitsExactlyTheOctant(r, w, y - 1);
      NextRowTouches(r, w, x, y - 1);
      LinkedStep(r, (x, y), (w, y - 1));
      OctantLinksToAxis(r, w, y - 1);
      LinkedTransitive(r, (x, y), (w, y - 1), (r, 0));
    }
  }

  lemma {:induction false} LastPixel(r: int, x: int, y: int) returns (u: int, v: int)
    requires Octant(r, x, y)
    ensures Octant(r, u, v) && 0 <= u - v <= 1
    decreases x - y
  {
    if RowDrawn(r, y + 1) {
      var x' :| Octant(r, x', y + 1);
      NextRowTouches(r, x, x', y);
      u, v := LastPixel(r, x', y + 1);
    } else {
      LastPixelMeetsDiagonal(r, x, y);
      u, v := x, y;
    }
  }

  /** (r, 0) and (0, r) are linked, through the pixel where the octant meets its mirror. */
  lemma AxesLinked(r: int)
    requires r >= 0
    ensures Linked(r, (r, 0), (0, r))
  {
    assert Octant(r, r, 0) by {
      ReachesIsGuard(r, 0);
      VisitsExactlyTheOctant(r, r, 0);
    }
    var u, v := LastPixel(r, r, 0);
    var swap := Symmetry(true, false, false);
    OctantLinksToAxis(r, u, v);
    LinkedReflects(r, swap, (u, v), (r, 0));
    LinkedStep(r, (u, v), (v, u));
    LinkedSymmetric(r, (u, v), (r, 0));
    LinkedTransitive(r, (r, 0), (u, v), (v, u));
    LinkedTransitive(r, (r, 0), (v, u), (0, r));
  }

  lemma AxisLinksToEast(r: int, g: Symmetry)
    requires r >= 0
    ensures Linked(r, g.Of((r, 0)), (r, 0))
  {
    AxesLinked(r);
    LinkedReflects(r, Symmetry(false, true, false), (r, 0), (0, r));
    LinkedReflects(r, Symmetry(false, false, true), (r, 0), (0, r));
    LinkedSymmetric(r, (r, 0), (0, r));
    LinkedSymmetric(r, (r, 0), (0, -r));
    LinkedTransitive(r, (-r, 0), (0, r), (r, 0));
    LinkedTransitive(r, (r, 0), (0, r), (r, 0));
  }

  lemma LinksToEast(r: int, p: Pixel)
    requires OnRing(r, p)
    ensures Linked(r, p, (r, 0))
  {
    var x, y := Max(Abs(p.0), Abs(p.1)), Min(Abs(p.0), Abs(p.1));
    var g := Symmetry(Abs(p.0) < Abs(p.1), p.0 < 0, p.1 < 0);
    assert g.Of((x, y)) == p;
    OctantLinksToAxis(r, x, y);
    LinkedReflects(r, g, (x, y), (r, 0));
    AxisLinksToEast(r, g);
    LinkedTransitive(r, p, g.Of((r, 0)), (r, 0));
  }

  /** The outline is one piece: any two of its pixels are joined by touching outline pixels. */
  lemma RingIsConnected(r: int, p: Pixel, q: Pixel)
    requires OnRing(r, p) && OnRing(r, q)
    ensures Linked(r, p, q)
  {
    LinksToEast(r, p);
    LinksToEast(r, q);
    LinkedSymmetric(r, q, (r, 0));
    LinkedTransitive(r, p, (r, 0), q);
  }

  // ---------- no leaks ----------

  // Horizontal or vertical neighbours.
  predicate Adjacent(p: Pixel, q: Pixel) {
    Abs(p.0 - q.0) + Abs(p.1 - q.1) == 1
  }

  lemma SquaresOfAbs(p: Pixel)
    ensures var a, b := Max(Abs(p.0), Abs(p.1)), Min(Abs(p.0), Abs(p.1));
      a * a + b * b == p.0 * p.0 + p.1 * p.1
  {
  }

  // A unit step moves neither folded coordinate up, or exactly one of them by one.
  lemma FoldedStep(p: Pixel, q: Pixel)
    requires Adjacent(p, q)
    ensures var a, b := Max(Abs(p.0), Abs(p.1)), Min(Abs(p.0), Abs(p.1));
      var x, y := Max(Abs(q.0), Abs(q.1)), Min(Abs(q.0), Abs(q.1));
      (x <= a && y <= b) || (x == a + 1 && y == b) || (x == a && y == b + 1)
  {
  }

  lemma OutwardStepIsInnermost(r: int, a: int, b: int, x: int, y: int)
    requires r >= 1 && 0 <= b <= a && 0 <= y <= x
    requires (x == a + 1 && y == b) || (x == a && y == b + 1)
    requires !Outside(r, a, b) && Outside(r, x, y)
    ensures Innermost(r, x, y)
  {
    OutsideInteger(r, a, b);
    OutsideInteger(r, x - 1, y);
    Expand(a, b);
    InnermostIsOneStep(r, x, y);
  }

  /** A horizontal or vertical step from inside radius r - 1/2 to outside lands on the ring. */
  lemma {:induction false} CrossingLandsOnRing(r: int, p: Pixel, q: Pixel)
    requires r >= 1 && Adjacent(p, q)
    requires !Outside(r, p.0, p.1) && Outside(r, q.0, q.1)
    ensures OnRing(r, q)
  {
    var a, b := Max(Abs(p.0), Abs(p.1)), Min(Abs(p.0), Abs(p.1));
    var x, y := Max(Abs(q.0), Abs(q.1)), Min(Abs(q.0), Abs(q.1));
    SquaresOfAbs(p);
    SquaresOfAbs(q);
    FoldedStep(p, q);
    if x <= a && y <= b {
      OutsideMonotone(r, x, a, y, b);
    } else {
      OutwardStepIsInnermost(r, a, b, x, y);
    }
  }

  // One step towards the axis along the longer side.
  function Inward(q: Pixel): Pixel {
    if Abs(q.0) >= Abs(q.1) then (if q.0 > 0 then q.0 - 1 else q.0 + 1, q.1)
    else (q.0, if q.1 > 0 then q.1 - 1 else q.1 + 1)
  }

  lemma InwardSquares(q: Pixel)
    requires q != (0, 0)
    ensures var x, y := Max(Abs(q.0), Abs(q.1)), Min(Abs(q.0), Abs(q.1));
      Inward(q).0 * Inward(q).0 + Inward(q).1 * Inward(q).1 == (x - 1) * (x - 1) + y * y
  {
  }

  /** A ring pixel is outside radius r - 1/2 and the step inward from it is not. */
  lemma {:induction false} RingIsOnTheEdge(r: int, q: Pixel)
    requires r >= 1 && OnRing(r, q)
    ensures Outside(r, q.0, q.1)
    ensures Adjacent(Inward(q), q) && !Outside(r, Inward(q).0, Inward(q).1)
  {
    var x, y := Max(Abs(q.0), Abs(q.1)), Min(Abs(q.0), Abs(q.1));
    var p := Inward(q);
    InnermostPositive(r, x, y);
    SquaresOfAbs(q);
    assert !Outside(r, x - 1, y);
    InwardSquares(q);
    assert p.0 * p.0 + p.1 * p.1 == (x - 1) * (x - 1) + y * y;
  }

  /** The outline without octants: for every radius from 1, the pixels outside radius r - 1/2
      with a horizontal or vertical neighbour that is not. */
  lemma {:induction false} RingIsTheBoundary(r: int, q: Pixel)
    requires r >= 1
    ensures OnRing(r, q) <==>
      Outside(r, q.0, q.1) && exists p: Pixel :: Adjacent(p, q) && !Outside(r, p.0, p.1)
  {
    if OnRing(r, q) {
      RingIsOnTheEdge(r, q);
    }
    if p: Pixel :| Adjacent(p, q) && !Outside(r, p.0, p.1) {
      if Outside(r, q.0, q.1) {
        CrossingLandsOnRing(r, p, q);
      }
    }
  }

  /** A flood fill of the disc cannot escape: every walk of horizontal and vertical steps
      from inside radius r - 1/2 to outside it steps on the drawn outline. */
  lemma {:induction false} RingStopsFloodFill(r: int, walk: seq<Pixel>)
    requires r >= 1 && |walk| > 0
    requires forall i :: 0 < i < |walk| ==> Adjacent(walk[i - 1], walk[i])
    requires !Outside(r, walk[0].0, walk[0].1)
    requires Outside(r, walk[|walk| - 1].0, walk[|walk| - 1].1)
    ensures exists i :: 0 < i < |walk| && OnRing(r, walk[i])
  {
    var n := |walk| - 1;
    if Outside(r, walk[n - 1].0, walk[n - 1].1) {
      RingStopsFloodFill(r, walk[..n]);
      var i :| 0 < i < n && OnRing(r, walk[..n][i]);
      assert OnRing(r, walk[i]);
    } else {
      CrossingLandsOnRing(r, walk[n - 1], walk[n]);
    }
  }
}
