/**
 Cutting a series at its zero crossings for the profit/loss chart, over reals.
 A row carries its time, its value (None when the cell is not a number) and a
 tag standing for its other columns.
 */
module Segments {
  import opened Options

  datatype Point = Point(x: real, y: Option<real>, tag: int)

  datatype Segment = Segment(data: seq<Point>, isPositive: bool)

  predicate Above(p: Point) {
    p.y.Some? && p.y.value > 0.0
  }

  predicate Below(p: Point) {
    p.y.Some? && p.y.value < 0.0
  }

  /** Zero or not a number: says nothing about the sign. */
  predicate Flat(p: Point) {
    !Above(p) && !Below(p)
  }

  predicate Opposite(p: Point, q: Point) {
    (Above(p) && Below(q)) || (Below(p) && Above(q))
  }

  function Resolve(p: Point, fallback: bool): bool {
    if Above(p) then true else if Below(p) then false else fallback
  }

  function InitialSign(data: seq<Point>): bool {
    if data == [] then true else Resolve(data[0], InitialSign(data[1..]))
  }

  /** How far along from `a` to `b` the value reaches zero. */
  function Fraction(a: Point, b: Point): real
    requires Opposite(a, b)
  {
    a.y.value / (a.y.value - b.y.value)
  }

  /** The point where the line from `a` to `b` meets zero; the other columns are `a`'s. */
  function Crossing(a: Point, b: Point): Point
    requires Opposite(a, b)
  {
    Point(a.x + Fraction(a, b) * (b.x - a.x), Some(0.0), a.tag)
  }

  /** The segments with one more point: cut at a strict sign flip, else extend the last one. */
  function Step(before: seq<Segment>, a: Point, b: Point): (segments: seq<Segment>)
    requires before != []
    ensures segments != []
  {
    var m := |before| - 1;
    if Opposite(a, b) then
      before[..m] + [Segment(before[m].data + [Crossing(a, b)], before[m].isPositive),
                     Segment([Crossing(a, b), b], Resolve(b, before[m].isPositive))]
    else
      before[..m] + [Segment(before[m].data + [b], Resolve(b, before[m].isPositive))]
  }

  /** The segments of a non-empty series, point by point from the left. */
  function Cut(data: seq<Point>, initial: bool): (segments: seq<Segment>)
    requires data != []
    ensures segments != []
  {
    var n := |data| - 1;
    if n == 0 then [Segment([data[0]], Resolve(data[0], initial))]
    else Step(Cut(data[..n], initial), data[n-1], data[n])
  }

  lemma CutNext(data: seq<Point>, initial: bool, i: nat)
    requires i + 1 < |data|
    ensures Cut(data[..i+2], initial) == Step(Cut(data[..i+1], initial), data[i], data[i+1])
  {
    assert data[..i+2][..i+1] == data[..i+1];
  }

  lemma StepOfOpen(closed: seq<Segment>, open: Segment, a: Point, b: Point)
    ensures Step(closed + [open], a, b) ==
            if Opposite(a, b)
            then closed + [Segment(open.data + [Crossing(a, b)], open.isPositive)]
                 + [Segment([Crossing(a, b), b], Resolve(b, open.isPositive))]
            else closed + [Segment(open.data + [b], Resolve(b, open.isPositive))]
  {
    assert (closed + [open])[..|closed|] == closed;
  }

  method SplitProfitLossSegments(data: seq<Point>) returns (segments: seq<Segment>)
    ensures data == [] ==> segments == []
    ensures data != [] ==> segments == Cut(data, InitialSign(data))
  {
    if |data| == 0 {
      return [];
    }
    var initial := InitialSign(data);
    segments := [];
    var currentSign := initial;
    var currentSegment := [data[0]];
    assert data[..1] == [data[0]];
    for i := 0 to |data| - 1
      invariant segments + [Segment(currentSegment, currentSign)] == Cut(data[..i+1], initial)
    {
      var a, b := data[i], data[i+1];
      CutNext(data, initial, i);
      StepOfOpen(segments, Segment(currentSegment, currentSign), a, b);
      if Opposite(a, b) {
        var cross := Crossing(a, b);
        segments := segments + [Segment(currentSegment + [cross], currentSign)];
        currentSegment := [cross, b];
        currentSign := Resolve(b, currentSign);
      } else {
        currentSegment := currentSegment + [b];
        currentSign := Resolve(b, currentSign);
      }
    }
    assert data[..|data|] == data;
    segments := segments + [Segment(currentSegment, currentSign)];
  }

  // ---- Structure ----

  function DropLast(s: seq<Point>): seq<Point> {
    if s == [] then [] else s[..|s|-1]
  }

  function DropFirst(s: seq<Point>): seq<Point> {
    if s == [] then [] else s[1..]
  }

  /** Concatenate the segments without the two copies of the crossing at each joint. */
  function Rejoin(segments: seq<Segment>): seq<Point> {
    if segments == [] then []
    else if |segments| == 1 then segments[0].data
    else DropLast(Rejoin(segments[..|segments|-1])) + DropFirst(segments[|segments|-1].data)
  }

  function Flips(data: seq<Point>): nat {
    if |data| < 2 then 0
    else Flips(data[..|data|-1]) + if Opposite(data[|data|-2], data[|data|-1]) then 1 else 0
  }

  lemma RejoinExtend(segments: seq<Segment>, seg: Segment, p: Point, positive: bool)
    requires seg.data != []
    ensures Rejoin(segments + [Segment(seg.data + [p], positive)]) == Rejoin(segments + [seg]) + [p]
  {
    assert (segments + [seg])[..|segments|] == segments;
    assert (segments + [Segment(seg.data + [p], positive)])[..|segments|] == segments;
    assert DropFirst(seg.data + [p]) == DropFirst(seg.data) + [p];
  }

  /** Every segment ends at the point it was last given, and none is empty. */
  ghost predicate EndsAt(segments: seq<Segment>, p: Point) {
    && segments != []
    && (forall k | 0 <= k < |segments| :: segments[k].data != [])
    && segments[|segments|-1].data[|segments[|segments|-1].data|-1] == p
  }

  lemma {:induction false} CutEndsAt(data: seq<Point>, initial: bool)
    requires data != []
    ensures EndsAt(Cut(data, initial), data[|data|-1])
    decreases |data|
  {
    if |data| > 1 {
      CutEndsAt(data[..|data|-1], initial);
    }
  }

  /** One step of Cut: the segments before the last point, the open one apart. */
  lemma CutShape(data: seq<Point>, initial: bool) returns (closed: seq<Segment>, open: Segment)
    requires |data| > 1
    ensures Cut(data[..|data|-1], initial) == closed + [open]
    ensures Cut(data, initial) == Step(closed + [open], data[|data|-2], data[|data|-1])
    ensures open.data != [] && open.data[|open.data|-1] == data[|data|-2]
  {
    var before := Cut(data[..|data|-1], initial);
    CutEndsAt(data[..|data|-1], initial);
    closed, open := before[..|before|-1], before[|before|-1];
  }

  lemma StepRejoins(closed: seq<Segment>, open: Segment, a: Point, b: Point)
    requires open.data != []
    ensures Rejoin(Step(closed + [open], a, b)) == Rejoin(closed + [open]) + [b]
    ensures |Step(closed + [open], a, b)| == |closed| + if Opposite(a, b) then 2 else 1
  {
    StepOfOpen(closed, open, a, b);
    if Opposite(a, b) {
      var cross := Crossing(a, b);
      RejoinExtend(closed, open, cross, open.isPositive);
      var closed' := closed + [Segment(open.data + [cross], open.isPositive)];
      var last := Segment([cross, b], Resolve(b, open.isPositive));
      assert (closed' + [last])[..|closed'|] == closed';
      assert DropFirst(last.data) == [b];
    } else {
      RejoinExtend(closed, open, b, Resolve(b, open.isPositive));
    }
  }

  lemma RejoinOne(data: seq<Point>, initial: bool)
    requires |data| == 1
    ensures Rejoin(Cut(data, initial)) == data
  {
    assert Rejoin([Segment([data[0]], Resolve(data[0], initial))]) == [data[0]] == data;
  }

  lemma RejoinShape(data: seq<Point>, closed: seq<Segment>, open: Segment, segments: seq<Segment>)
    requires |data| > 1 && open.data != [] && Rejoin(closed + [open]) == data[..|data|-1]
    requires segments == Step(closed + [open], data[|data|-2], data[|data|-1])
    ensures Rejoin(segments) == data
  {
    StepRejoins(closed, open, data[|data|-2], data[|data|-1]);
  }

  lemma RejoinNext(data: seq<Point>, initial: bool)
    requires |data| > 1 && Rejoin(Cut(data[..|data|-1], initial)) == data[..|data|-1]
    ensures Rejoin(Cut(data, initial)) == data
  {
    var closed, open := CutShape(data, initial);
    RejoinShape(data, closed, open, Cut(data, initial));
  }

  /** Nothing is lost, added or reordered: the segments rejoined are the input. */
  lemma {:induction false} CutRejoins(data: seq<Point>, initial: bool)
    requires data != []
    ensures Rejoin(Cut(data, initial)) == data
    decreases |data|
  {
    if |data| == 1 {
      RejoinOne(data, initial);
    } else {
      CutRejoins(data[..|data|-1], initial);
      RejoinNext(data, initial);
    }
  }

  /** One segment more than the strict sign flips between neighbours. */
  lemma {:induction false} SegmentCount(data: seq<Point>, initial: bool)
    requires data != []
    ensures |Cut(data, initial)| == 1 + Flips(data)
    decreases |data|
  {
    if |data| > 1 {
      var closed, open := CutShape(data, initial);
      SegmentCount(data[..|data|-1], initial);
      StepRejoins(closed, open, data[|data|-2], data[|data|-1]);
    }
  }

  lemma FractionInside(ya: real, yb: real)
    requires (ya > 0.0 && yb < 0.0) || (ya < 0.0 && yb > 0.0)
    ensures 0.0 < ya / (ya - yb) < 1.0
    ensures ya / (ya - yb) * (ya - yb) == ya
  {
  }

  lemma PartOf(t: real, dx: real)
    requires 0.0 < t < 1.0 && dx > 0.0
    ensures 0.0 < t * dx < dx
  {
    assert (1.0 - t) * dx > 0.0;
  }

  lemma Regroup(t: real, dx: real, d: real)
    ensures (t * dx) * (0.0 - d) == dx * (0.0 - t * d)
  {
  }

  /** Strictly between its neighbours in time, on their line, at height zero. */
  lemma CrossingOnLine(a: Point, b: Point)
    requires Opposite(a, b) && a.x < b.x
    ensures a.x < Crossing(a, b).x < b.x
    ensures Crossing(a, b).y == Some(0.0) && Crossing(a, b).tag == a.tag
    ensures (Crossing(a, b).x - a.x) * (b.y.value - a.y.value) == (b.x - a.x) * (0.0 - a.y.value)
  {
    var t, dx, drop := Fraction(a, b), b.x - a.x, a.y.value - b.y.value;
    FractionInside(a.y.value, b.y.value);
    PartOf(t, dx);
    Regroup(t, dx, drop);
    assert Crossing(a, b).x - a.x == t * dx;
    assert b.y.value - a.y.value == 0.0 - drop;
  }

  /** `cross` is the inserted point of some strict sign flip of `data`. */
  ghost predicate CrossingOf(data: seq<Point>, cross: Point) {
    exists i :: 0 <= i < |data| - 1 && Opposite(data[i], data[i+1]) && cross == Crossing(data[i], data[i+1])
  }

  ghost predicate Joint(data: seq<Point>, left: Segment, right: Segment) {
    && left.data != [] && right.data != []
    && left.data[|left.data|-1] == right.data[0]
    && CrossingOf(data, right.data[0])
  }

  lemma JointLater(data: seq<Point>, n: nat, left: Segment, right: Segment, right': Segment)
    requires n <= |data| && Joint(data[..n], left, right)
    requires right'.data != [] && right'.data[0] == right.data[0]
    ensures Joint(data, left, right')
  {
    var i :| 0 <= i < n - 1 && Opposite(data[..n][i], data[..n][i+1])
             && right.data[0] == Crossing(data[..n][i], data[..n][i+1]);
    assert Opposite(data[i], data[i+1]);
  }

  /** Neighbouring segments share their crossing. */
  lemma {:induction false} CutJoins(data: seq<Point>, initial: bool, k: nat)
    requires data != [] && k + 1 < |Cut(data, initial)|
    ensures Joint(data, Cut(data, initial)[k], Cut(data, initial)[k+1])
    decreases |data|
  {
    var n := |data| - 1;
    var closed, open := CutShape(data, initial);
    StepOfOpen(closed, open, data[n-1], data[n]);
    var before, after := closed + [open], Cut(data, initial);
    if k + 1 < |before| {
      CutJoins(data[..n], initial, k);
      JointLater(data, n, before[k], before[k+1], after[k+1]);
    } else {
      assert Opposite(data[n-1], data[n]);
    }
  }

  /** The sign of the last point that has one. */
  function LastSign(points: seq<Point>, fallback: bool): bool {
    if points == [] then fallback
    else
      var p := points[|points|-1];
      if Above(p) then true else if Below(p) then false else LastSign(points[..|points|-1], fallback)
  }

  /** The initial sign is that of the first point that has one, and positive when none has. */
  lemma {:induction false} InitialIsFirstSign(data: seq<Point>, i: nat)
    requires i <= |data| && forall j | 0 <= j < i :: Flat(data[j])
    ensures i < |data| && Above(data[i]) ==> InitialSign(data)
    ensures i < |data| && Below(data[i]) ==> !InitialSign(data)
    ensures i == |data| ==> InitialSign(data)
    decreases |data|
  {
    if i > 0 {
      InitialIsFirstSign(data[1..], i - 1);
    }
  }

  lemma FlatStep(points: seq<Point>, a: Point, b: Point)
    requires Flat(b)
    ensures Step([Segment(points, true)], a, b) == [Segment(points + [b], true)]
  {
  }

  /** A series with no sign at all is one segment, and counts as profit. */
  lemma FlatIsOneProfit(data: seq<Point>)
    requires data != [] && forall j | 0 <= j < |data| :: Flat(data[j])
    ensures Cut(data, InitialSign(data)) == [Segment(data, true)]
  {
    InitialIsFirstSign(data, |data|);
    FlatIsOneSegment(data);
  }

  lemma {:induction false} FlatIsOneSegment(data: seq<Point>)
    requires data != [] && forall j | 0 <= j < |data| :: Flat(data[j])
    ensures Cut(data, true) == [Segment(data, true)]
  {
    var n := |data| - 1;
    if n == 0 {
      assert data == [data[0]];
    } else {
      FlatIsOneSegment(data[..n]);
      FlatStep(data[..n], data[n-1], data[n]);
      assert data == data[..n] + [data[n]];
    }
  }

  lemma LastSignSnoc(points: seq<Point>, p: Point, fallback: bool)
    ensures LastSign(points + [p], fallback) == Resolve(p, LastSign(points, fallback))
  {
    assert (points + [p])[..|points|] == points;
  }

  ghost predicate Flagged(segments: seq<Segment>, initial: bool) {
    forall k | 0 <= k < |segments| :: segments[k].isPositive == LastSign(segments[k].data, initial)
  }

  lemma StepFlags(closed: seq<Segment>, open: Segment, a: Point, b: Point, initial: bool)
    requires Flagged(closed + [open], initial)
    ensures Flagged(Step(closed + [open], a, b), initial)
  {
    StepOfOpen(closed, open, a, b);
    assert (closed + [open])[|closed|] == open;
    assert forall k | 0 <= k < |closed| :: (closed + [open])[k] == closed[k];
    LastSignSnoc(open.data, b, initial);
    if Opposite(a, b) {
      var cross := Crossing(a, b);
      LastSignSnoc(open.data, cross, initial);
      LastSignSnoc([cross], b, initial);
      assert [cross] + [b] == [cross, b];
    }
  }

  /** Each flag is the sign of the segment's own last non-zero value. */
  lemma {:induction false} FlagIsLastSign(data: seq<Point>, initial: bool)
    requires data != []
    ensures Flagged(Cut(data, initial), initial)
    decreases |data|
  {
    if |data| == 1 {
      LastSignSnoc([], data[0], initial);
      assert [] + [data[0]] == [data[0]];
    } else {
      var closed, open := CutShape(data, initial);
      FlagIsLastSign(data[..|data|-1], initial);
      StepFlags(closed, open, data[|data|-2], data[|data|-1], initial);
    }
  }
}
