/**
 Areas under the segments: cutting keeps the signed area, and the segments'
 unsigned areas add up to the integral of |f| exactly when no zero run hides a flip.
 */
module SegmentAreas {
  import opened Options
  import opened Segments
  import opened SegmentSigns

  // ---- Area ----

  ghost predicate Numeric(points: seq<Point>) {
    forall i | 0 <= i < |points| :: points[i].y.Some?
  }

  ghost predicate Increasing(points: seq<Point>) {
    forall i, j | 0 <= i < j < |points| :: points[i].x < points[j].x
  }

  function Value(p: Point): real {
    if p.y.Some? then p.y.value else 0.0
  }

  /** Signed trapezoid under one edge. */
  function Trapezoid(a: Point, b: Point): real {
    (b.x - a.x) * (Value(a) + Value(b)) / 2.0
  }

  function Area(points: seq<Point>): real {
    if |points| < 2 then 0.0
    else Area(points[..|points|-1]) + Trapezoid(points[|points|-2], points[|points|-1])
  }

  function Abs(r: real): real {
    if r < 0.0 then -r else r
  }

  /** The integral of |f| along one edge: two triangles when the edge crosses zero. */
  function AbsTrapezoid(a: Point, b: Point): real {
    if Opposite(a, b) then Triangles(Abs(Value(a)), Abs(Value(b)), b.x - a.x)
    else Abs(Trapezoid(a, b))
  }

  /** Two similar triangles of heights p and q on opposite sides of a base of length dx. */
  function Triangles(p: real, q: real, dx: real): real {
    if p + q == 0.0 then 0.0 else dx * (p * p + q * q) / (2.0 * (p + q))
  }

  function AbsArea(points: seq<Point>): real {
    if |points| < 2 then 0.0
    else AbsArea(points[..|points|-1]) + AbsTrapezoid(points[|points|-2], points[|points|-1])
  }

  function TotalArea(segments: seq<Segment>): real {
    if segments == [] then 0.0 else TotalArea(segments[..|segments|-1]) + Area(segments[|segments|-1].data)
  }

  /** Sum of the integrals of |f| over the segments. */
  function TotalAbs(segments: seq<Segment>): real {
    if segments == [] then 0.0 else TotalAbs(segments[..|segments|-1]) + AbsArea(segments[|segments|-1].data)
  }

  /** Sum of the segments' own areas, each taken without sign. */
  function TotalUnsigned(segments: seq<Segment>): real {
    if segments == [] then 0.0 else TotalUnsigned(segments[..|segments|-1]) + Abs(Area(segments[|segments|-1].data))
  }

  lemma CrossingSplitsArea(a: Point, b: Point)
    requires Opposite(a, b)
    ensures Trapezoid(a, Crossing(a, b)) + Trapezoid(Crossing(a, b), b) == Trapezoid(a, b)
  {
    var ya, yb, dx, t := a.y.value, b.y.value, b.x - a.x, Fraction(a, b);
    assert t * (ya - yb) == ya;
    calc {
      Trapezoid(a, Crossing(a, b)) + Trapezoid(Crossing(a, b), b);
      (t * dx) * ya / 2.0 + (dx - t * dx) * yb / 2.0;
      dx * (t * (ya - yb) + yb) / 2.0;
      dx * (ya + yb) / 2.0;
    }
  }

  lemma Quotient(l: real, d: real, n: real)
    requires d != 0.0 && l * d == n
    ensures l == n / d
  {
  }

  /** Two triangles of heights p and q over a base dx, which their apex cuts at t. */
  lemma TwoTriangles(p: real, q: real, dx: real, t: real)
    requires p > 0.0 && q > 0.0 && t * (p + q) == p
    ensures (t * dx) * p / 2.0 + (dx - t * dx) * q / 2.0 == Triangles(p, q, dx)
  {
    var s := p + q;
    assert (t * dx) * p * s == dx * p * p by {
      assert (t * dx) * p * s == dx * p * (t * s);
    }
    assert (dx - t * dx) * q * s == dx * q * q by {
      assert (dx - t * dx) * q * s == dx * q * (s - t * s);
    }
    Quotient((t * dx) * p / 2.0 + (dx - t * dx) * q / 2.0, 2.0 * s, dx * (p * p + q * q));
  }

  lemma ScaledAbs(w: real, y: real)
    requires w > 0.0
    ensures Abs(w * y / 2.0) == w * Abs(y) / 2.0
  {
    if y < 0.0 {
      assert w * y < 0.0;
    } else {
      assert w * y >= 0.0;
    }
  }

  /** The integral of |f| from a point to a later point at height zero, or from an earlier one. */
  lemma AbsToZero(a: Point, zero: Point, w: real)
    requires zero.y == Some(0.0) && w > 0.0
    ensures zero.x - a.x == w ==> AbsTrapezoid(a, zero) == w * Abs(Value(a)) / 2.0
    ensures a.x - zero.x == w ==> AbsTrapezoid(zero, a) == w * Abs(Value(a)) / 2.0
  {
    ScaledAbs(w, Value(a));
  }

  lemma CrossingParts(a: Point, b: Point)
    requires Opposite(a, b) && a.x < b.x
    ensures a.x < Crossing(a, b).x < b.x
    ensures Crossing(a, b).x - a.x == Fraction(a, b) * (b.x - a.x)
    ensures Fraction(a, b) * (Abs(Value(a)) + Abs(Value(b))) == Abs(Value(a))
  {
    CrossingOnLine(a, b);
    FractionInside(a.y.value, b.y.value);
  }

  /** The two sides of a crossing at `t` of the base, as triangles. */
  lemma AbsBeside(a: Point, b: Point, c: Point, t: real)
    requires c.y == Some(0.0) && a.x < c.x < b.x && c.x - a.x == t * (b.x - a.x)
    ensures AbsTrapezoid(a, c) == (t * (b.x - a.x)) * Abs(Value(a)) / 2.0
    ensures AbsTrapezoid(c, b) == ((b.x - a.x) - t * (b.x - a.x)) * Abs(Value(b)) / 2.0
  {
    AbsToZero(a, c, c.x - a.x);
    AbsToZero(b, c, b.x - c.x);
  }

  lemma SumOfSides(left: real, right: real, p: real, q: real, dx: real, t: real)
    requires p > 0.0 && q > 0.0 && t * (p + q) == p
    requires left == (t * dx) * p / 2.0 && right == (dx - t * dx) * q / 2.0
    ensures left + right == Triangles(p, q, dx)
  {
    TwoTriangles(p, q, dx, t);
  }

  lemma PartSplitsAbs(a: Point, b: Point, c: Point, t: real)
    requires Opposite(a, b) && c.y == Some(0.0) && a.x < c.x < b.x && c.x - a.x == t * (b.x - a.x)
    requires t * (Abs(Value(a)) + Abs(Value(b))) == Abs(Value(a))
    ensures AbsTrapezoid(a, c) + AbsTrapezoid(c, b) == AbsTrapezoid(a, b)
  {
    AbsBeside(a, b, c, t);
    SumOfSides(AbsTrapezoid(a, c), AbsTrapezoid(c, b), Abs(Value(a)), Abs(Value(b)), b.x - a.x, t);
  }

  lemma CrossingSplitsAbs(a: Point, b: Point)
    requires Opposite(a, b) && a.x < b.x
    ensures AbsTrapezoid(a, Crossing(a, b)) + AbsTrapezoid(Crossing(a, b), b) == AbsTrapezoid(a, b)
  {
    CrossingParts(a, b);
    PartSplitsAbs(a, b, Crossing(a, b), Fraction(a, b));
  }

  lemma AreaSnoc(points: seq<Point>, p: Point)
    requires points != []
    ensures Area(points + [p]) == Area(points) + Trapezoid(points[|points|-1], p)
    ensures AbsArea(points + [p]) == AbsArea(points) + AbsTrapezoid(points[|points|-1], p)
  {
    assert (points + [p])[..|points|] == points;
  }

  lemma TotalSnoc(closed: seq<Segment>, last: Segment)
    ensures TotalArea(closed + [last]) == TotalArea(closed) + Area(last.data)
    ensures TotalAbs(closed + [last]) == TotalAbs(closed) + AbsArea(last.data)
    ensures TotalUnsigned(closed + [last]) == TotalUnsigned(closed) + Abs(Area(last.data))
  {
    assert (closed + [last])[..|closed|] == closed;
  }

  lemma CrossingPairArea(a: Point, b: Point)
    requires Opposite(a, b)
    ensures Area([Crossing(a, b), b]) == Trapezoid(Crossing(a, b), b)
    ensures AbsArea([Crossing(a, b), b]) == AbsTrapezoid(Crossing(a, b), b)
  {
    assert [Crossing(a, b)] + [b] == [Crossing(a, b), b];
    AreaSnoc([Crossing(a, b)], b);
  }

  lemma StepAreas(closed: seq<Segment>, open: Segment, a: Point, b: Point)
    requires open.data != [] && open.data[|open.data|-1] == a
    ensures TotalArea(Step(closed + [open], a, b)) == TotalArea(closed + [open]) + Trapezoid(a, b)
    ensures a.x < b.x ==> TotalAbs(Step(closed + [open], a, b)) == TotalAbs(closed + [open]) + AbsTrapezoid(a, b)
  {
    StepOfOpen(closed, open, a, b);
    TotalSnoc(closed, open);
    if Opposite(a, b) {
      var c := Crossing(a, b);
      var closing := Segment(open.data + [c], open.isPositive);
      AreaSnoc(open.data, c);
      CrossingPairArea(a, b);
      TotalSnoc(closed, closing);
      TotalSnoc(closed + [closing], Segment([c, b], Resolve(b, open.isPositive)));
      CrossingSplitsArea(a, b);
      if a.x < b.x {
        CrossingSplitsAbs(a, b);
      }
    } else {
      AreaSnoc(open.data, b);
      TotalSnoc(closed, Segment(open.data + [b], Resolve(b, open.isPositive)));
    }
  }

  lemma OneSegment(data: seq<Point>, positive: bool)
    requires |data| == 1
    ensures TotalArea([Segment(data, positive)]) == Area(data) == 0.0
    ensures TotalAbs([Segment(data, positive)]) == AbsArea(data) == 0.0
  {
    TotalSnoc([], Segment(data, positive));
    assert [] + [Segment(data, positive)] == [Segment(data, positive)];
  }

  /** Cutting keeps the total signed area, at any times. */
  lemma {:induction false} AreaPreserved(data: seq<Point>, initial: bool)
    requires data != []
    ensures TotalArea(Cut(data, initial)) == Area(data)
    decreases |data|
  {
    var n := |data| - 1;
    if n == 0 {
      OneSegment(data, Resolve(data[0], initial));
      assert data == [data[0]];
    } else {
      var closed, open := CutShape(data, initial);
      AreaPreserved(data[..n], initial);
      StepAreas(closed, open, data[n-1], data[n]);
    }
  }

  /** At increasing times it keeps the integral of |f| as well. */
  lemma {:induction false} AbsAreaPreserved(data: seq<Point>, initial: bool)
    requires data != [] && Increasing(data)
    ensures TotalAbs(Cut(data, initial)) == AbsArea(data)
    decreases |data|
  {
    var n := |data| - 1;
    if n == 0 {
      OneSegment(data, Resolve(data[0], initial));
      assert data == [data[0]];
    } else {
      var closed, open := CutShape(data, initial);
      AbsAreaPreserved(data[..n], initial);
      StepAreas(closed, open, data[n-1], data[n]);
    }
  }

  // ---- When the unsigned areas are the whole of |f| ----

  /** Numbers, at increasing times, no two neighbours on opposite sides. */
  ghost predicate Clean(points: seq<Point>) {
    && Numeric(points) && Increasing(points)
    && forall i, j | 0 <= i < |points| && j == i + 1 < |points| :: !Opposite(points[i], points[j])
  }

  function Positive(r: real): real {
    if r > 0.0 then r else 0.0
  }

  function Gains(points: seq<Point>): real {
    if |points| < 2 then 0.0
    else Gains(points[..|points|-1]) + Positive(Trapezoid(points[|points|-2], points[|points|-1]))
  }

  function Losses(points: seq<Point>): real {
    if |points| < 2 then 0.0
    else Losses(points[..|points|-1]) + Positive(-Trapezoid(points[|points|-2], points[|points|-1]))
  }

  /** Along an edge that does not cross zero, the area has the sign of its endpoints. */
  lemma EdgeSign(a: Point, b: Point)
    requires a.x < b.x && a.y.Some? && b.y.Some? && !Opposite(a, b)
    ensures Trapezoid(a, b) > 0.0 <==> Above(a) || Above(b)
    ensures Trapezoid(a, b) < 0.0 <==> Below(a) || Below(b)
    ensures AbsTrapezoid(a, b) == Positive(Trapezoid(a, b)) + Positive(-Trapezoid(a, b))
  {
    var dx, sum := b.x - a.x, a.y.value + b.y.value;
    if sum > 0.0 {
      assert dx * sum > 0.0;
    } else if sum < 0.0 {
      assert dx * sum < 0.0;
    }
  }

  lemma {:induction false} GainsAndLosses(points: seq<Point>)
    requires Clean(points)
    ensures Area(points) == Gains(points) - Losses(points)
    ensures AbsArea(points) == Gains(points) + Losses(points)
    ensures Gains(points) >= 0.0 && Losses(points) >= 0.0
    ensures |points| >= 2 ==>
              && (Gains(points) > 0.0 <==> exists i :: 0 <= i < |points| && Above(points[i]))
              && (Losses(points) > 0.0 <==> exists i :: 0 <= i < |points| && Below(points[i]))
    decreases |points|
  {
    var n := |points| - 1;
    if n >= 1 {
      var before := points[..n];
      GainsAndLosses(before);
      EdgeSign(points[n-1], points[n]);
      if n == 1 {
        assert Gains(before) == 0.0 && Losses(before) == 0.0;
      }
      assert forall i | 0 <= i < n :: points[i] == before[i];
    }
  }

  /** A clean segment's unsigned area is all of |f| exactly when it stays on one side of zero. */
  lemma UnsignedIffUniform(points: seq<Point>)
    requires Clean(points)
    ensures Abs(Area(points)) <= AbsArea(points)
    ensures Abs(Area(points)) == AbsArea(points) <==> Uniform(points)
  {
    GainsAndLosses(points);
    if |points| >= 2 && Gains(points) > 0.0 && Losses(points) > 0.0 {
      var i :| 0 <= i < |points| && Above(points[i]);
      var j :| 0 <= j < |points| && Below(points[j]);
      assert Opposite(points[i], points[j]);
    }
  }

  ghost predicate AllClean(segments: seq<Segment>) {
    forall k | 0 <= k < |segments| :: Clean(segments[k].data)
  }

  lemma {:induction false} TotalsIffUniform(segments: seq<Segment>)
    requires AllClean(segments)
    ensures TotalUnsigned(segments) <= TotalAbs(segments)
    ensures TotalUnsigned(segments) == TotalAbs(segments) <==> AllUniform(segments)
    decreases |segments|
  {
    if segments != [] {
      var n := |segments| - 1;
      TotalsIffUniform(segments[..n]);
      UnsignedIffUniform(segments[n].data);
      assert AllUniform(segments) <==> AllUniform(segments[..n]) && Uniform(segments[n].data);
    }
  }

  lemma CleanSnoc(points: seq<Point>, p: Point)
    requires Clean(points) && points != [] && p.y.Some?
    requires points[|points|-1].x < p.x && !Opposite(points[|points|-1], p)
    ensures Clean(points + [p])
  {
    var extended := points + [p];
    forall i, j | 0 <= i < j < |extended| ensures extended[i].x < extended[j].x {
      if j == |points| && i < |points| - 1 {
        assert points[i].x < points[|points|-1].x;
      }
    }
    forall i, j | 0 <= i < |extended| && j == i + 1 < |extended| ensures !Opposite(extended[i], extended[j]) {
      if j < |points| {
        assert !Opposite(points[i], points[j]);
      }
    }
  }

  lemma StepClean(closed: seq<Segment>, open: Segment, a: Point, b: Point)
    requires AllClean(closed + [open]) && open.data != [] && open.data[|open.data|-1] == a
    requires a.x < b.x && b.y.Some?
    ensures AllClean(Step(closed + [open], a, b))
  {
    StepOfOpen(closed, open, a, b);
    assert Clean(open.data) by { assert (closed + [open])[|closed|] == open; }
    forall k | 0 <= k < |closed| ensures Clean(closed[k].data) {
      assert (closed + [open])[k] == closed[k];
    }
    if Opposite(a, b) {
      CrossingOnLine(a, b);
      CleanSnoc(open.data, Crossing(a, b));
      CleanSnoc([Crossing(a, b)], b);
      assert [Crossing(a, b)] + [b] == [Crossing(a, b), b];
    } else {
      CleanSnoc(open.data, b);
    }
  }

  lemma {:induction false} CutClean(data: seq<Point>, initial: bool)
    requires data != [] && Numeric(data) && Increasing(data)
    ensures AllClean(Cut(data, initial))
    decreases |data|
  {
    if |data| > 1 {
      var closed, open := CutShape(data, initial);
      CutClean(data[..|data|-1], initial);
      StepClean(closed, open, data[|data|-2], data[|data|-1]);
    }
  }

  /**
   The segments' unsigned areas add up to the integral of |f| exactly when no run of
   zeros separates opposite signs; otherwise they fall short of it.
   */
  lemma UnsignedIsAbsArea(data: seq<Point>, initial: bool)
    requires data != [] && Numeric(data) && Increasing(data)
    ensures TotalUnsigned(Cut(data, initial)) <= AbsArea(data)
    ensures TotalUnsigned(Cut(data, initial)) == AbsArea(data) <==> NoZeroRun(data)
  {
    CutClean(data, initial);
    AbsAreaPreserved(data, initial);
    TotalsIffUniform(Cut(data, initial));
    UniformIffNoZeroRun(data, initial);
  }
}
