/**
 Signs of the segments: a run of zeros between opposite signs is not cut, and is
 exactly what keeps a segment from staying on one side of zero.
 */
module SegmentSigns {
  import opened Options
  import opened Segments

  /** No two points on opposite sides of zero. */
  ghost predicate Uniform(points: seq<Point>) {
    forall i, j | 0 <= i < |points| && 0 <= j < |points| :: !Opposite(points[i], points[j])
  }

  ghost predicate AllUniform(segments: seq<Segment>) {
    forall k | 0 <= k < |segments| :: Uniform(segments[k].data)
  }

  // ---- Sign changes that the cut does not see ----

  /** Points i and j lie on opposite sides with only flat points, at least one, between them. */
  ghost predicate HiddenFlip(data: seq<Point>, i: int, j: int) {
    && 0 <= i < |data| && i + 1 < j < |data|
    && Opposite(data[i], data[j])
    && forall k | i < k < j :: Flat(data[k])
  }

  ghost predicate NoZeroRun(data: seq<Point>) {
    forall i, j :: !HiddenFlip(data, i, j)
  }

  /** The last point that is not flat. */
  function LastSolid(points: seq<Point>): Option<Point> {
    if points == [] then None
    else if Flat(points[|points|-1]) then LastSolid(points[..|points|-1])
    else Some(points[|points|-1])
  }

  lemma LastSolidSnoc(points: seq<Point>, p: Point)
    ensures LastSolid(points + [p]) == if Flat(p) then LastSolid(points) else Some(p)
  {
    assert (points + [p])[..|points|] == points;
  }

  lemma {:induction false} LastSolidAt(points: seq<Point>) returns (at: int)
    requires LastSolid(points).Some?
    ensures 0 <= at < |points| && points[at] == LastSolid(points).value && !Flat(points[at])
    ensures forall k | at < k < |points| :: Flat(points[k])
    decreases |points|
  {
    at := |points| - 1;
    if Flat(points[at]) {
      at := LastSolidAt(points[..at]);
    }
  }

  lemma {:induction false} NoSolid(points: seq<Point>)
    requires LastSolid(points).None?
    ensures forall k | 0 <= k < |points| :: Flat(points[k])
    decreases |points|
  {
    if points != [] {
      NoSolid(points[..|points|-1]);
      assert forall k | 0 <= k < |points| - 1 :: points[k] == points[..|points|-1][k];
    }
  }

  /** A point hides a flip exactly when its neighbour is flat and the last solid point is opposite. */
  predicate Hides(data: seq<Point>, b: Point) {
    && data != [] && Flat(data[|data|-1])
    && LastSolid(data).Some? && Opposite(LastSolid(data).value, b)
  }

  lemma HiddenEarlier(data: seq<Point>, b: Point, i: int, j: int)
    requires j < |data|
    ensures HiddenFlip(data + [b], i, j) <==> HiddenFlip(data, i, j)
  {
    assert forall k | 0 <= k < |data| :: (data + [b])[k] == data[k];
  }

  lemma {:induction false} SolidFound(points: seq<Point>, i: int)
    requires 0 <= i < |points| && !Flat(points[i]) && forall k | i < k < |points| :: Flat(points[k])
    ensures LastSolid(points) == Some(points[i])
    decreases |points|
  {
    if i < |points| - 1 {
      SolidFound(points[..|points|-1], i);
    }
  }

  lemma HiddenAtEnd(data: seq<Point>, b: Point, i: int)
    requires HiddenFlip(data + [b], i, |data|)
    ensures Hides(data, b)
  {
    forall k | i < k < |data| ensures Flat(data[k]) {
      assert Flat((data + [b])[k]);
    }
    SolidFound(data, i);
  }

  lemma HiddenByLast(data: seq<Point>, b: Point)
    ensures NoZeroRun(data + [b]) <==> NoZeroRun(data) && !Hides(data, b)
  {
    var extended := data + [b];
    forall i, j ensures HiddenFlip(data, i, j) ==> HiddenFlip(extended, i, j) {
      if j < |data| {
        HiddenEarlier(data, b, i, j);
      }
    }
    if Hides(data, b) {
      var at := LastSolidAt(data);
      assert HiddenFlip(extended, at, |data|);
    }
    forall i, j | HiddenFlip(extended, i, j) ensures HiddenFlip(data, i, j) || Hides(data, b) {
      if j < |data| {
        HiddenEarlier(data, b, i, j);
      } else {
        HiddenAtEnd(data, b, i);
      }
    }
  }

  lemma UniformSnoc(points: seq<Point>, p: Point)
    ensures Uniform(points + [p]) <==>
            Uniform(points) && !(LastSolid(points).Some? && Opposite(LastSolid(points).value, p))
  {
    var extended := points + [p];
    if Uniform(extended) {
      forall i, j | 0 <= i < |points| && 0 <= j < |points| ensures !Opposite(points[i], points[j]) {
        assert !Opposite(extended[i], extended[j]);
      }
      if LastSolid(points).Some? {
        var at := LastSolidAt(points);
        assert !Opposite(extended[at], extended[|points|]);
      }
    } else if Uniform(points) {
      var i, j :| 0 <= i < |extended| && 0 <= j < |extended| && Opposite(extended[i], extended[j]);
      var other := if i == |points| then j else i;
      assert other < |points| && Opposite(points[other], p);
      if LastSolid(points).None? {
        NoSolid(points);
      } else {
        var at := LastSolidAt(points);
        assert !Opposite(points[other], points[at]);
      }
    }
  }

  /** The open segment remembers the last solid point of the whole series. */
  lemma {:induction false} OpenSolid(data: seq<Point>, initial: bool)
    requires data != []
    ensures LastSolid(Cut(data, initial)[|Cut(data, initial)|-1].data) == LastSolid(data)
    decreases |data|
  {
    var n := |data| - 1;
    if n == 0 {
      assert data == [data[0]];
    } else {
      var closed, open := CutShape(data, initial);
      OpenSolid(data[..n], initial);
      StepOfOpen(closed, open, data[n-1], data[n]);
      assert LastSolid(open.data) == LastSolid(data[..n]);
      LastSolidSnoc(open.data, data[n]);
      if Opposite(data[n-1], data[n]) {
        var c := Crossing(data[n-1], data[n]);
        LastSolidSnoc([c], data[n]);
        assert [c] + [data[n]] == [c, data[n]];
      }
    }
  }

  lemma StepUniform(closed: seq<Segment>, open: Segment, a: Point, b: Point)
    requires open.data != [] && open.data[|open.data|-1] == a
    ensures AllUniform(Step(closed + [open], a, b)) <==> AllUniform(closed + [open]) && !Hides(open.data, b)
  {
    StepOfOpen(closed, open, a, b);
    AllUniformSnoc(closed, open);
    if Opposite(a, b) {
      var c := Crossing(a, b);
      var closing, last := Segment(open.data + [c], open.isPositive), Segment([c, b], Resolve(b, open.isPositive));
      UniformSnoc(open.data, c);
      AllUniformSnoc(closed, closing);
      AllUniformSnoc(closed + [closing], last);
    } else {
      var extended := Segment(open.data + [b], Resolve(b, open.isPositive));
      UniformSnoc(open.data, b);
      AllUniformSnoc(closed, extended);
    }
  }

  lemma AllUniformSnoc(closed: seq<Segment>, last: Segment)
    ensures AllUniform(closed + [last]) <==> AllUniform(closed) && Uniform(last.data)
  {
    var all := closed + [last];
    assert forall k | 0 <= k < |closed| :: all[k] == closed[k];
    assert all[|closed|] == last;
  }

  /** Every segment stays on one side of zero exactly when no run of zeros separates opposite signs. */
  lemma {:induction false} UniformIffNoZeroRun(data: seq<Point>, initial: bool)
    requires data != []
    ensures AllUniform(Cut(data, initial)) <==> NoZeroRun(data)
    decreases |data|
  {
    var n := |data| - 1;
    if n > 0 {
      var closed, open := CutShape(data, initial);
      UniformIffNoZeroRun(data[..n], initial);
      OpenSolid(data[..n], initial);
      assert LastSolid(open.data) == LastSolid(data[..n]);
      StepUniform(closed, open, data[n-1], data[n]);
      HiddenByLast(data[..n], data[n]);
      assert data == data[..n] + [data[n]];
    }
  }

  lemma {:induction false} SignOfSolid(points: seq<Point>, fallback: bool)
    ensures LastSign(points, fallback) == if LastSolid(points).Some? then Above(LastSolid(points).value) else fallback
    decreases |points|
  {
    if points != [] {
      SignOfSolid(points[..|points|-1], fallback);
    }
  }

  lemma {:induction false} SolidAfterCut(data: seq<Point>, initial: bool)
    requires data != [] && |Cut(data, initial)| > 1
    ensures LastSolid(data).Some?
    decreases |data|
  {
    var n := |data| - 1;
    var closed, open := CutShape(data, initial);
    StepOfOpen(closed, open, data[n-1], data[n]);
    if !Opposite(data[n-1], data[n]) {
      SolidAfterCut(data[..n], initial);
    }
  }

  ghost predicate Alternating(segments: seq<Segment>) {
    forall k, l | 0 <= k && l == k + 1 < |segments| :: segments[k].isPositive != segments[l].isPositive
  }

  /** The open segment's flag is the sign of the last solid point of the series, if it has one. */
  lemma OpenFlag(data: seq<Point>, initial: bool, closed: seq<Segment>, open: Segment)
    requires data != [] && Cut(data, initial) == closed + [open]
    ensures LastSolid(data).Some? ==> open.isPositive == Above(LastSolid(data).value)
    ensures closed != [] ==> LastSolid(data).Some?
  {
    FlagIsLastSign(data, initial);
    OpenSolid(data, initial);
    assert open == (closed + [open])[|closed|];
    SignOfSolid(open.data, initial);
    if closed != [] {
      SolidAfterCut(data, initial);
    }
  }

  /** Behind a crossing a segment starts on the side its predecessor's flag denies. */
  lemma {:induction false} StartsOpposite(data: seq<Point>, initial: bool, k: nat)
    requires data != [] && k + 1 < |Cut(data, initial)|
    ensures var left, right := Cut(data, initial)[k], Cut(data, initial)[k+1];
            |right.data| >= 2 && !Flat(right.data[1]) && left.isPositive != Above(right.data[1])
    decreases |data|
  {
    var n := |data| - 1;
    var closed, open := CutShape(data, initial);
    StepOfOpen(closed, open, data[n-1], data[n]);
    if k < |closed| {
      StartsOpposite(data[..n], initial, k);
    } else {
      OpenFlag(data[..n], initial, closed, open);
      SolidFound(data[..n], n - 1);
    }
  }

  /** The segment ends on the side it starts on, right behind its crossing. */
  ghost predicate Returns(s: Segment) {
    |s.data| >= 2 && s.isPositive == Above(s.data[1])
  }

  /** The flags alternate exactly when every segment but the first ends on the side it starts on. */
  lemma AlternateExactly(data: seq<Point>, initial: bool)
    requires data != []
    ensures Alternating(Cut(data, initial)) <==>
            forall k | 1 <= k < |Cut(data, initial)| :: Returns(Cut(data, initial)[k])
  {
    var segments := Cut(data, initial);
    forall k, l | 0 <= k && l == k + 1 < |segments|
      ensures segments[k].isPositive != segments[l].isPositive <==> Returns(segments[l])
    {
      StartsOpposite(data, initial, k);
    }
    if Alternating(segments) {
      forall l | 1 <= l < |segments| ensures Returns(segments[l]) {
        assert segments[l-1].isPositive != segments[l].isPositive;
      }
    }
  }

  /** With no zero run between opposite signs they do, and the flags alternate. */
  lemma FlagsAlternate(data: seq<Point>, initial: bool)
    requires data != [] && NoZeroRun(data)
    ensures Alternating(Cut(data, initial))
  {
    var segments := Cut(data, initial);
    UniformIffNoZeroRun(data, initial);
    FlagIsLastSign(data, initial);
    forall k | 1 <= k < |segments| ensures Returns(segments[k]) {
      StartsOpposite(data, initial, k - 1);
      UniformFlag(segments[k], initial);
    }
    AlternateExactly(data, initial);
  }

  lemma UniformFlag(s: Segment, initial: bool)
    requires Uniform(s.data) && |s.data| >= 2 && !Flat(s.data[1]) && s.isPositive == LastSign(s.data, initial)
    ensures Returns(s)
  {
    SignOfSolid(s.data, initial);
    if LastSolid(s.data).None? {
      NoSolid(s.data);
    } else {
      var at := LastSolidAt(s.data);
      assert !Opposite(s.data[1], s.data[at]);
    }
  }
}
