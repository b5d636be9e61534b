/** Reference definitions of "the bounding corner" of a list of points, and the
    facts about them that every reducer's proof is built from. */
module MaxSpec {
  import opened Coordinates

  /** Math.Max over a totally ordered value type. */
  function Max(a: real, b: real): (m: real)
    ensures a <= m && b <= m
    ensures m == a || m == b
  {
    if a < b then b else a
  }

  /** The X fields of the points, in order. */
  function Xs(points: seq<Coordinate>): seq<real>
  {
    seq(|points|, k requires 0 <= k < |points| => points[k].X)
  }

  /** The Y fields of the points, in order. */
  function Ys(points: seq<Coordinate>): seq<real>
  {
    seq(|points|, k requires 0 <= k < |points| => points[k].Y)
  }

  /** Running maximum of vals, taken left to right from an accumulator that starts at 0. */
  function MaxFold(vals: seq<real>): (m: real)
    ensures 0.0 <= m
    decreases |vals|
  {
    if |vals| == 0 then 0.0 else Max(MaxFold(vals[..|vals| - 1]), vals[|vals| - 1])
  }

  /** The field-wise maximum that all three reducers are meant to return. */
  function BoundingCorner(points: seq<Coordinate>): Coordinate
  {
    Coordinate(MaxFold(Xs(points)), MaxFold(Ys(points)))
  }

  /** c is the maximum of 0 and every X, and the maximum of 0 and every Y:
      it is non-negative, no coordinate exceeds it, and each field is 0 or attained. */
  ghost predicate IsCorner(c: Coordinate, points: seq<Coordinate>)
  {
    && 0.0 <= c.X && 0.0 <= c.Y
    && (forall k :: 0 <= k < |points| ==> points[k].X <= c.X && points[k].Y <= c.Y)
    && (c.X == 0.0 || exists k :: 0 <= k < |points| && points[k].X == c.X)
    && (c.Y == 0.0 || exists k :: 0 <= k < |points| && points[k].Y == c.Y)
  }

  lemma MaxFoldSnoc(vals: seq<real>, n: nat)
    requires n < |vals|
    ensures MaxFold(vals[..n + 1]) == Max(MaxFold(vals[..n]), vals[n])
  {
    assert vals[..n + 1][..n] == vals[..n];
  }

  /** MaxFold is the maximum of 0 and the elements: an upper bound that is 0 or attained. */
  lemma {:induction false} MaxFoldIsMax(vals: seq<real>)
    ensures forall k :: 0 <= k < |vals| ==> vals[k] <= MaxFold(vals)
    ensures MaxFold(vals) == 0.0 || exists k :: 0 <= k < |vals| && vals[k] == MaxFold(vals)
  {
    if |vals| > 0 {
      var init := vals[..|vals| - 1];
      MaxFoldIsMax(init);
      assert forall k :: 0 <= k < |init| ==> init[k] == vals[k];
      if MaxFold(vals) != 0.0 && MaxFold(vals) != vals[|vals| - 1] {
        var k :| 0 <= k < |init| && init[k] == MaxFold(init);
        assert vals[k] == MaxFold(vals);
      }
    }
  }

  /** The bounding corner is the maximum of 0 and every field; on an empty list it is (0, 0). */
  lemma BoundingCornerIsCorner(points: seq<Coordinate>)
    ensures IsCorner(BoundingCorner(points), points)
    ensures points == [] ==> BoundingCorner(points) == Coordinate(0.0, 0.0)
  {
    MaxFoldIsMax(Xs(points));
    MaxFoldIsMax(Ys(points));
    assert forall k :: 0 <= k < |points| ==> Xs(points)[k] == points[k].X && Ys(points)[k] == points[k].Y;
  }

  /** Only one coordinate is the corner of a list, so any reducer that produces a
      corner agrees with BoundingCorner. */
  lemma CornerIsUnique(points: seq<Coordinate>, c: Coordinate)
    requires IsCorner(c, points)
    ensures c == BoundingCorner(points)
  {
    BoundingCornerIsCorner(points);
  }

  /** With non-negative coordinates (the fixture draws them from [1, 1000)) and at least
      one point, each field of the corner is the coordinate of some point. */
  lemma BoundingCornerAttained(points: seq<Coordinate>)
    requires points != []
    requires forall k :: 0 <= k < |points| ==> 0.0 <= points[k].X && 0.0 <= points[k].Y
    ensures exists k :: 0 <= k < |points| && points[k].X == BoundingCorner(points).X
    ensures exists k :: 0 <= k < |points| && points[k].Y == BoundingCorner(points).Y
  {
    BoundingCornerIsCorner(points);
    var c := BoundingCorner(points);
    if c.X == 0.0 {
      assert points[0].X == c.X;
    }
    if c.Y == 0.0 {
      assert points[0].Y == c.Y;
    }
  }

  /** The zero-initialised accumulators hide negative inputs: if every X is negative
      the corner's X is 0, not the largest X. */
  lemma NegativeFieldsClampToZero(points: seq<Coordinate>)
    requires forall k :: 0 <= k < |points| ==> points[k].X < 0.0
    ensures BoundingCorner(points).X == 0.0
  {
    BoundingCornerIsCorner(points);
  }

  /** Reordering the list never changes the corner. */
  lemma BoundingCornerPermutation(p: seq<Coordinate>, q: seq<Coordinate>)
    requires multiset(p) == multiset(q)
    ensures BoundingCorner(p) == BoundingCorner(q)
  {
    var c := BoundingCorner(p);
    BoundingCornerIsCorner(p);
    forall k | 0 <= k < |q|
      ensures q[k].X <= c.X && q[k].Y <= c.Y
    {
      assert q[k] in multiset(q);
      assert q[k] in p;
      var j :| 0 <= j < |p| && p[j] == q[k];
    }
    if c.X != 0.0 {
      var j :| 0 <= j < |p| && p[j].X == c.X;
      assert p[j] in multiset(p);
      assert p[j] in q;
      var k :| 0 <= k < |q| && q[k] == p[j];
    }
    if c.Y != 0.0 {
      var j :| 0 <= j < |p| && p[j].Y == c.Y;
      assert p[j] in multiset(p);
      assert p[j] in q;
      var k :| 0 <= k < |q| && q[k] == p[j];
    }
    CornerIsUnique(q, c);
  }

  /** Maxing two running maxima with one new value each is maxing their max with both. */
  lemma MaxRegroup2(a: real, b: real, u: real, v: real)
    ensures Max(Max(a, u), Max(b, v)) == Max(Max(Max(a, b), u), v)
  {
  }

  /** The same regrouping for four running maxima and four new values. */
  lemma MaxRegroup4(a0: real, a1: real, a2: real, a3: real, v0: real, v1: real, v2: real, v3: real)
    ensures Max(Max(Max(Max(a0, v0), Max(a1, v1)), Max(a2, v2)), Max(a3, v3))
         == Max(Max(Max(Max(Max(Max(Max(a0, a1), a2), a3), v0), v1), v2), v3)
  {
    MaxRegroup2(a0, a1, v0, v1);
  }

  /** Maximum of 0 and every vals[j] with lo <= j < hi and j % stride == lane:
      what one lane of a strided accumulator holds. */
  function LaneMax(vals: seq<real>, lo: nat, hi: nat, stride: nat, lane: nat): (m: real)
    requires hi <= |vals| && 0 < stride
    ensures 0.0 <= m
    decreases hi
  {
    if hi <= lo then 0.0
    else if (hi - 1) % stride == lane then Max(LaneMax(vals, lo, hi - 1, stride, lane), vals[hi - 1])
    else LaneMax(vals, lo, hi - 1, stride, lane)
  }

  /** Extending the range by a position of the lane folds that element in. */
  lemma LaneMaxSnocIn(vals: seq<real>, lo: nat, hi: nat, stride: nat, lane: nat)
    requires lo <= hi < |vals| && 0 < stride && hi % stride == lane
    ensures LaneMax(vals, lo, hi + 1, stride, lane) == Max(LaneMax(vals, lo, hi, stride, lane), vals[hi])
  {
  }

  /** Extending the range by a position outside the lane changes nothing. */
  lemma LaneMaxSnocOut(vals: seq<real>, lo: nat, hi: nat, stride: nat, lane: nat)
    requires lo <= hi < |vals| && 0 < stride && hi % stride != lane
    ensures LaneMax(vals, lo, hi + 1, stride, lane) == LaneMax(vals, lo, hi, stride, lane)
  {
  }

  /** LaneMax is the maximum of 0 and the lane's elements: an upper bound that is 0 or attained. */
  lemma {:induction false} LaneMaxIsMax(vals: seq<real>, lo: nat, hi: nat, stride: nat, lane: nat)
    requires hi <= |vals| && 0 < stride
    ensures forall j :: lo <= j < hi && j % stride == lane ==> vals[j] <= LaneMax(vals, lo, hi, stride, lane)
    ensures var m := LaneMax(vals, lo, hi, stride, lane);
            m == 0.0 || exists j :: lo <= j < hi && j % stride == lane && vals[j] == m
    decreases hi
  {
    if lo < hi {
      LaneMaxIsMax(vals, lo, hi - 1, stride, lane);
    }
  }

  /** A lane over [lo, hi) is the max of the lane over [lo, mid) and over [mid, hi):
      a pass may stop at any point and hand the rest to another loop. */
  lemma {:induction false} LaneMaxSplit(vals: seq<real>, lo: nat, mid: nat, hi: nat, stride: nat, lane: nat)
    requires lo <= mid <= hi <= |vals| && 0 < stride
    ensures LaneMax(vals, lo, hi, stride, lane)
         == Max(LaneMax(vals, lo, mid, stride, lane), LaneMax(vals, mid, hi, stride, lane))
    decreases hi
  {
    if mid < hi {
      LaneMaxSplit(vals, lo, mid, hi - 1, stride, lane);
    }
  }

  /** With stride 1 every position is in the lane, and the lane is the plain running max. */
  lemma {:induction false} LaneMaxStrideOne(vals: seq<real>, n: nat)
    requires n <= |vals|
    ensures LaneMax(vals, 0, n, 1, 0) == MaxFold(vals[..n])
  {
    if n > 0 {
      LaneMaxStrideOne(vals, n - 1);
      LaneMaxSnocIn(vals, 0, n - 1, 1, 0);
      MaxFoldSnoc(vals, n - 1);
    }
  }
}
