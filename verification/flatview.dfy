/** The reinterpretation of a list of points as a flat sequence of doubles
    X0, Y0, X1, Y1, ... (Unsafe.As over the list's storage, lines 122-126). Only
    the resulting order of values is modelled, not the memory layout. */
module FlatView {
  import opened Coordinates
  import opened MaxSpec

  /** The flat view: the fields of each point in turn, X before Y. */
  function Flatten(points: seq<Coordinate>): (flat: seq<real>)
    ensures |flat| == 2 * |points|
    decreases |points|
  {
    if points == [] then []
    else
      var last := points[|points| - 1];
      Flatten(points[..|points| - 1]) + [last.X, last.Y]
  }

  /** Point k's X sits at position 2k of the flat view and its Y at 2k + 1. */
  lemma {:induction false} FlattenAt(points: seq<Coordinate>, k: nat)
    requires k < |points|
    ensures Flatten(points)[2 * k] == points[k].X && Flatten(points)[2 * k + 1] == points[k].Y
    decreases |points|
  {
    var init := points[..|points| - 1];
    if k < |init| {
      FlattenAt(init, k);
      assert init[k] == points[k];
    }
  }

  /** Over the first m points of the flat view, the even positions are exactly the X
      fields and the odd positions exactly the Y fields of points[..m]. */
  lemma {:induction false} FlatLanesArePointFields(points: seq<Coordinate>, m: nat)
    requires m <= |points|
    ensures LaneMax(Flatten(points), 0, 2 * m, 2, 0) == MaxFold(Xs(points)[..m])
    ensures LaneMax(Flatten(points), 0, 2 * m, 2, 1) == MaxFold(Ys(points)[..m])
  {
    var flat, xs, ys := Flatten(points), Xs(points), Ys(points);
    if m > 0 {
      var n := m - 1;
      FlatLanesArePointFields(points, n);
      FlattenAt(points, n);
      assert flat[2 * n] == xs[n] && flat[2 * n + 1] == ys[n];
      assert (2 * n) / 2 == n && (2 * n + 1) / 2 == n;
      LaneMaxSnocIn(flat, 0, 2 * n, 2, 0);
      LaneMaxSnocOut(flat, 0, 2 * n + 1, 2, 0);
      LaneMaxSnocOut(flat, 0, 2 * n, 2, 1);
      LaneMaxSnocIn(flat, 0, 2 * n + 1, 2, 1);
      MaxFoldSnoc(xs, n);
      MaxFoldSnoc(ys, n);
    }
  }

  /** Folding the even positions of the flat view below 2m gives the X of the corner of
      the first m points, and folding the odd positions its Y. */
  lemma FlatViewCorner(points: seq<Coordinate>, m: nat)
    requires m <= |points|
    ensures BoundingCorner(points[..m])
         == Coordinate(LaneMax(Flatten(points), 0, 2 * m, 2, 0), LaneMax(Flatten(points), 0, 2 * m, 2, 1))
  {
    FlatLanesArePointFields(points, m);
    assert Xs(points)[..m] == Xs(points[..m]);
    assert Ys(points)[..m] == Ys(points[..m]);
  }

  /** Splitting the flat view at any position i: the corner is the lane-wise
      maximum of the part before i and the part from i on. */
  lemma FlatViewSplitCorner(points: seq<Coordinate>, i: nat)
    requires i <= 2 * |points|
    ensures
      var flat := Flatten(points);
      BoundingCorner(points)
        == Coordinate(Max(LaneMax(flat, 0, i, 2, 0), LaneMax(flat, i, |flat|, 2, 0)),
                      Max(LaneMax(flat, 0, i, 2, 1), LaneMax(flat, i, |flat|, 2, 1)))
  {
    var flat := Flatten(points);
    LaneMaxSplit(flat, 0, i, |flat|, 2, 0);
    LaneMaxSplit(flat, 0, i, |flat|, 2, 1);
    FlatViewCorner(points, |points|);
    assert points[..|points|] == points;
  }

  /** The first even number at or above n: where a loop over pairs that starts at an
      even index and runs while i < n stops. */
  function RoundUpEven(n: nat): (e: nat)
    ensures e == 2 * ((n + 1) / 2)
    ensures e % 2 == 0 && n <= e <= n + 1
  {
    var q := n / 2;
    assert n == 2 * q + n % 2;
    if n % 2 == 0 then
      assert (n + 1) / 2 == q;
      n
    else
      assert (n + 1) / 2 == q + 1;
      n + 1
  }

  /** The positions of the flat view of N points below N rounded up to even are the
      fields of the first (N + 1) / 2 points: folding them gives the corner of that prefix. */
  lemma FlatViewHalfCorner(points: seq<Coordinate>)
    ensures BoundingCorner(points[..(|points| + 1) / 2])
         == Coordinate(LaneMax(Flatten(points), 0, RoundUpEven(|points|), 2, 0),
                       LaneMax(Flatten(points), 0, RoundUpEven(|points|), 2, 1))
  {
    FlatViewCorner(points, (|points| + 1) / 2);
  }
}
