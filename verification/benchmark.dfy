/** The three reducers of the Benchmark class, each a loop over the list of points,
    proved against BoundingCorner. The list is passed in as a sequence: the reducers
    only read the `_coordinates` field, and the fixture that fills it is not modelled. */
module Benchmark {
  import opened Coordinates
  import opened MaxSpec
  import Vector256
  import opened LaneFolds
  import opened FlatView

  /** int.MaxValue: List<T>.Count and every index in the source are 32-bit ints. */
  const Int32Max: int := 0x7FFF_FFFF

  /** Array.MaxLength: the most elements a List<T>'s backing array can hold. */
  const ArrayMaxLength: int := 0x7FFF_FFC7

  /** Unchecked 32-bit two's-complement wrap-around of C#'s int arithmetic. */
  function WrapInt32(x: int): (r: int)
    ensures -0x8000_0000 <= r <= Int32Max
    ensures (x - r) % 0x1_0000_0000 == 0
  {
    (x + 0x8000_0000) % 0x1_0000_0000 - 0x8000_0000
  }

  /** A reducer either returns a corner or the span indexer throws IndexOutOfRangeException. */
  datatype Outcome = Returned(corner: Coordinate) | IndexOutOfRange

  /** Basic (lines 64-75): the scalar baseline. */
  method Basic(coordinates: seq<Coordinate>) returns (r: Coordinate)
    ensures r == BoundingCorner(coordinates)
  {
    var xmax, ymax := 0.0, 0.0;
    for i := 0 to |coordinates|
      invariant xmax == MaxFold(Xs(coordinates)[..i])
      invariant ymax == MaxFold(Ys(coordinates)[..i])
    {
      var coord := coordinates[i];
      MaxFoldSnoc(Xs(coordinates), i);
      MaxFoldSnoc(Ys(coordinates), i);
      xmax := Max(xmax, coord.X);
      ymax := Max(ymax, coord.Y);
    }
    assert Xs(coordinates)[..|coordinates|] == Xs(coordinates);
    assert Ys(coordinates)[..|coordinates|] == Ys(coordinates);
    r := Coordinate(xmax, ymax);
  }

  /** The horizontal max chain of ShrimpleSIMD (lines 98-105): each accumulator's four
      lanes folded into one value. */
  method HorizontalFold(xmaxes: Vector256.Vec, ymaxes: Vector256.Vec) returns (xmax: real, ymax: real)
    ensures xmax == HorizontalMax(xmaxes, Vector256.Count) && ymax == HorizontalMax(ymaxes, Vector256.Count)
  {
    xmax, ymax := xmaxes[0], ymaxes[0];
    for j := 1 to Vector256.Count
      invariant xmax == HorizontalMax(xmaxes, j) && ymax == HorizontalMax(ymaxes, j)
    {
      xmax := Max(xmax, xmaxes[j]);
      ymax := Max(ymax, ymaxes[j]);
    }
  }

  /** The stride-2 fold of ProbablyUBSIMD (lines 135-142): the even lanes of the one
      accumulator folded into xmax, the odd lanes into ymax. */
  method StrideTwoFold(maxes: Vector256.Vec) returns (xmax: real, ymax: real)
    ensures xmax == StrideTwoMax(maxes, Vector256.Count, 0) && ymax == StrideTwoMax(maxes, Vector256.Count, 1)
  {
    xmax, ymax := maxes[0], maxes[1];
    var j := 2;
    while j < Vector256.Count
      invariant 2 <= j <= Vector256.Count && j % 2 == 0
      invariant xmax == StrideTwoMax(maxes, j, 0) && ymax == StrideTwoMax(maxes, j, 1)
    {
      xmax := Max(xmax, maxes[j]);
      ymax := Max(ymax, maxes[j + 1]);
      j := j + 2;
    }
  }

  /** The "rest of input" loop of ShrimpleSIMD (lines 109-113), from index i0 on.
      `steps` counts its iterations. */
  method ScalarTail(span: seq<Coordinate>, i0: nat, x0: real, y0: real)
    returns (xmax: real, ymax: real, ghost steps: nat)
    requires i0 <= |span| && 0.0 <= x0 && 0.0 <= y0
    ensures xmax == Max(x0, LaneMax(Xs(span), i0, |span|, 1, 0))
    ensures ymax == Max(y0, LaneMax(Ys(span), i0, |span|, 1, 0))
    ensures steps == |span| - i0
  {
    xmax, ymax, steps := x0, y0, 0;
    var i := i0;
    while i < |span|
      invariant i0 <= i <= |span|
      invariant xmax == Max(x0, LaneMax(Xs(span), i0, i, 1, 0))
      invariant ymax == Max(y0, LaneMax(Ys(span), i0, i, 1, 0))
      invariant steps == i - i0
    {
      LaneMaxSnocIn(Xs(span), i0, i, 1, 0);
      LaneMaxSnocIn(Ys(span), i0, i, 1, 0);
      xmax := Max(xmax, span[i].X);
      ymax := Max(ymax, span[i].Y);
      i, steps := i + 1, steps + 1;
    }
  }

  /** The body of ShrimpleSIMD's batch loop (lines 89-93): gather the X and the Y fields
      of points i..i + 3 into one vector each and max them into the accumulators.
      Every lane advances by the one point of the batch that falls into it. */
  method GatherMax(span: seq<Coordinate>, i: nat, xmaxes: Vector256.Vec, ymaxes: Vector256.Vec)
    returns (xmaxes': Vector256.Vec, ymaxes': Vector256.Vec)
    requires i % 4 == 0 && i + 4 <= |span|
    requires xmaxes == LaneMaxes(Xs(span), i) && ymaxes == LaneMaxes(Ys(span), i)
    ensures xmaxes' == LaneMaxes(Xs(span), i + 4) && ymaxes' == LaneMaxes(Ys(span), i + 4)
  {
    var xvec := Vector256.Create(span[i].X, span[i + 1].X, span[i + 2].X, span[i + 3].X);
    assert xvec == Xs(span)[i..i + 4];
    LaneMaxesStep(Xs(span), i);
    xmaxes' := Vector256.Max(xmaxes, xvec);
    var yvec := Vector256.Create(span[i].Y, span[i + 1].Y, span[i + 2].Y, span[i + 3].Y);
    assert yvec == Ys(span)[i..i + 4];
    LaneMaxesStep(Ys(span), i);
    ymaxes' := Vector256.Max(ymaxes, yvec);
  }

  /** ShrimpleSIMD (lines 79-116) as written. The batch loop runs while i < span.Length
      but reads span[i + 3], so it throws unless the count is a multiple of 4; when it
      does not throw it has consumed every point and the "rest of input" loop runs
      zero times (`restSteps`). */
  method ShrimpleSIMD(coordinates: seq<Coordinate>) returns (r: Outcome, ghost restSteps: nat)
    ensures r.IndexOutOfRange? <==> |coordinates| % 4 != 0
    ensures r.Returned? ==> r.corner == BoundingCorner(coordinates) && restSteps == 0
  {
    var span := coordinates;
    var xmaxes, ymaxes := Vector256.Zero(), Vector256.Zero();
    var i := 0;
    while i < |span|
      invariant i % 4 == 0 && i <= |span|
      invariant xmaxes == LaneMaxes(Xs(span), i) && ymaxes == LaneMaxes(Ys(span), i)
    {
      if |span| <= i + 3 {
        // one of span[i + 1], span[i + 2], span[i + 3] is past the end
        return IndexOutOfRange, 0;
      }
      xmaxes, ymaxes := GatherMax(span, i, xmaxes, ymaxes);
      i := i + 4;
    }
    var xmax, ymax := HorizontalFold(xmaxes, ymaxes);
    HorizontalMaxOfLanes(Xs(span), i);
    HorizontalMaxOfLanes(Ys(span), i);
    xmax, ymax, restSteps := ScalarTail(span, i, xmax, ymax);
    LaneMaxStrideOne(Xs(span), i);
    LaneMaxStrideOne(Ys(span), i);
    assert Xs(span)[..i] == Xs(span) && Ys(span)[..i] == Ys(span);
    r := Returned(Coordinate(xmax, ymax));
  }

  /** `span.Length * 2` (line 126) in 32-bit arithmetic: exact below 2^30 points,
      negative from 2^30 points on. */
  lemma DoubledCountWraps(n: nat)
    requires n <= Int32Max
    ensures n < 0x4000_0000 ==> WrapInt32(2 * n) == 2 * n
    ensures 0x4000_0000 <= n ==> WrapInt32(2 * n) == 2 * n - 0x1_0000_0000 < 0
  {
  }

  /** The chunk loop of ProbablyUBSIMD (lines 128-131) as written: while i < length,
      max the accumulator with the four values at i. With length the size of the flat
      view, a multiple of 4, every load stays inside it and the loop ends at length;
      with a non-positive length it does not run, whatever the size of the view. */
  method FlatChunks(flat: seq<real>, length: int) returns (maxes: Vector256.Vec, i: nat)
    requires length <= 0 || (length == |flat| && |flat| % 4 == 0)
    ensures i % 4 == 0 && i <= |flat| && maxes == LaneMaxes(flat, i)
    ensures length <= 0 ==> i == 0
    ensures 0 < length ==> i == length
  {
    maxes := Vector256.Zero();
    i := 0;
    while i < length
      invariant i % 4 == 0 && i <= |flat|
      invariant 0 < length ==> i <= length
      invariant length <= 0 ==> i == 0
      invariant maxes == LaneMaxes(flat, i)
    {
      LaneMaxesStep(flat, i);
      maxes := Vector256.Max(maxes, Vector256.LoadUnsafe(flat, i));
      i := i + Vector256.Count;
    }
  }

  /** The tail loop of ProbablyUBSIMD (lines 146-150) over the flat view: from the even
      index i0 while i < n, fold flat[i] into xmax and flat[i + 1] into ymax, stepping
      by 2. For an odd n the last pass starts at n - 1 and also reads flat[n], so the
      loop covers [i0, RoundUpEven(n)). `steps` counts its iterations. */
  method FlatTail(flat: seq<real>, n: nat, i0: nat, x0: real, y0: real)
    returns (xmax: real, ymax: real, ghost steps: nat)
    requires RoundUpEven(n) <= |flat| && i0 <= |flat| && i0 % 2 == 0
    requires 0.0 <= x0 && 0.0 <= y0
    ensures n <= i0 ==> xmax == x0 && ymax == y0 && steps == 0
    ensures i0 <= n ==> xmax == Max(x0, LaneMax(flat, i0, RoundUpEven(n), 2, 0))
    ensures i0 <= n ==> ymax == Max(y0, LaneMax(flat, i0, RoundUpEven(n), 2, 1))
    ensures i0 <= n ==> steps == (RoundUpEven(n) - i0) / 2
  {
    xmax, ymax, steps := x0, y0, 0;
    var i := i0;
    while i < n
      invariant i0 <= i && i % 2 == 0
      invariant i0 < n ==> i <= RoundUpEven(n)
      invariant i0 >= n ==> i == i0
      invariant xmax == Max(x0, LaneMax(flat, i0, i, 2, 0))
      invariant ymax == Max(y0, LaneMax(flat, i0, i, 2, 1))
      invariant steps == (i - i0) / 2
    {
      PairStep(i, n);
      LaneMaxSnocIn(flat, i0, i, 2, 0);
      LaneMaxSnocOut(flat, i0, i + 1, 2, 0);
      LaneMaxSnocOut(flat, i0, i, 2, 1);
      LaneMaxSnocIn(flat, i0, i + 1, 2, 1);
      xmax := Max(xmax, flat[i]);
      ymax := Max(ymax, flat[i + 1]);
      i, steps := i + 2, steps + 1;
    }
    if i0 < n {
      PairStep(i, n);
    }
  }

  /** An even index below n leaves room for its pair below n rounded up to even, and an
      even index that has reached n without passing that bound sits exactly on it. */
  lemma PairStep(i: nat, n: nat)
    requires i % 2 == 0
    ensures (i + 1) % 2 == 1
    ensures i < n ==> i + 2 <= RoundUpEven(n)
    ensures n <= i <= RoundUpEven(n) ==> i == RoundUpEven(n)
  {
    var p, q := i / 2, n / 2;
    assert i == 2 * p && (i + 1) / 2 == p;
    assert n == 2 * q + n % 2;
  }

  /** ProbablyUBSIMD (lines 119-153) as written. `ref span[0]` throws on an empty list.
      Below 2^30 points the chunk loads stay inside the flat view only for an even
      count (an odd count makes the last load read past the end, which is undefined,
      hence the requires); the result is then the corner, and the tail loop, guarded
      by span.Length instead of length, runs zero times. From 2^30 points on the
      doubled length wraps negative: the chunk loop is skipped and the tail loop,
      reading only below position N + N % 2 of the 2N-value view, folds the first
      (N + 1) / 2 points. */
  method ProbablyUBSIMD(coordinates: seq<Coordinate>) returns (r: Outcome, ghost tailSteps: nat)
    requires |coordinates| <= ArrayMaxLength
    requires |coordinates| % 2 == 0 || 0x4000_0000 <= |coordinates|
    ensures r.IndexOutOfRange? <==> |coordinates| == 0
    ensures 0 < |coordinates| < 0x4000_0000 ==> r == Returned(BoundingCorner(coordinates)) && tailSteps == 0
    ensures 0x4000_0000 <= |coordinates| ==> r == Returned(BoundingCorner(coordinates[..(|coordinates| + 1) / 2]))
  {
    var span := coordinates;
    if |span| == 0 {
      // ref span[0]
      return IndexOutOfRange, 0;
    }
    var flat := Flatten(span);
    var length := WrapInt32(|span| * 2);
    assert length == if |span| < 0x4000_0000 then |flat| else |flat| - 0x1_0000_0000 by {
      DoubledCountWraps(|span|);
    }
    if 0 < length {
      assert |flat| % 4 == 0 by {
        var h := |span| / 2;
        assert |span| == 2 * h && |flat| / 4 == h;
      }
    }
    var maxes, i := FlatChunks(flat, length);
    var xmax, ymax := StrideTwoFold(maxes);
    assert xmax == LaneMax(flat, 0, i, 2, 0) && ymax == LaneMax(flat, 0, i, 2, 1) by {
      StrideTwoMaxOfLanes(flat, i, 0);
      StrideTwoMaxOfLanes(flat, i, 1);
    }
    assert i % 2 == 0 && i <= |flat| && RoundUpEven(|span|) <= |flat|;
    xmax, ymax, tailSteps := FlatTail(flat, |span|, i, xmax, ymax);
    if length < 0 {
      assert Coordinate(xmax, ymax) == BoundingCorner(span[..(|span| + 1) / 2]) by {
        assert i == 0;
        FlatViewHalfCorner(span);
      }
    } else {
      assert Coordinate(xmax, ymax) == BoundingCorner(span) && tailSteps == 0 by {
        assert i == 2 * |span| && span[..|span|] == span;
        FlatViewCorner(span, |span|);
      }
    }
    r := Returned(Coordinate(xmax, ymax));
  }

  /** ShrimpleSIMD with the batch loop guarded by i + 4 <= span.Length, as the
      "rest of input" loop evidently intends: every count is handled, the last
      count % 4 points by the remainder loop. */
  method ShrimpleSIMDCorrected(coordinates: seq<Coordinate>) returns (r: Coordinate, ghost restSteps: nat)
    ensures r == BoundingCorner(coordinates)
    ensures restSteps == |coordinates| % 4
  {
    var span := coordinates;
    var xmaxes, ymaxes := Vector256.Zero(), Vector256.Zero();
    var i := 0;
    while i + Vector256.Count <= |span|
      invariant i % 4 == 0 && i <= |span|
      invariant xmaxes == LaneMaxes(Xs(span), i) && ymaxes == LaneMaxes(Ys(span), i)
    {
      xmaxes, ymaxes := GatherMax(span, i, xmaxes, ymaxes);
      i := i + 4;
    }
    ChunkedPrefixLeavesRemainder(|span|, i);
    var xmax, ymax := HorizontalFold(xmaxes, ymaxes);
    assert xmax == LaneMax(Xs(span), 0, i, 1, 0) && ymax == LaneMax(Ys(span), 0, i, 1, 0) by {
      HorizontalMaxOfLanes(Xs(span), i);
      HorizontalMaxOfLanes(Ys(span), i);
    }
    xmax, ymax, restSteps := ScalarTail(span, i, xmax, ymax);
    assert xmax == MaxFold(Xs(span)) && ymax == MaxFold(Ys(span)) by {
      LaneMaxSplit(Xs(span), 0, i, |span|, 1, 0);
      LaneMaxSplit(Ys(span), 0, i, |span|, 1, 0);
      LaneMaxStrideOne(Xs(span), |span|);
      LaneMaxStrideOne(Ys(span), |span|);
      assert Xs(span)[..|span|] == Xs(span) && Ys(span)[..|span|] == Ys(span);
    }
    r := Coordinate(xmax, ymax);
  }

  /** When chunks of four cover all but fewer than four of n values, what is left is
      n % 4 values. */
  lemma ChunkedPrefixLeavesRemainder(n: nat, i: nat)
    requires i % 4 == 0 && i <= n < i + 4
    ensures n - i == n % 4
  {
    var q := i / 4;
    assert i == 4 * q;
    assert n / 4 == q;
  }

  /** When chunks of four cover all but fewer than four of 2 * n values, what is left
      is one pair when n is odd and nothing when n is even. */
  lemma ChunkedPrefixLeavesParity(n: nat, i: nat)
    requires i % 4 == 0 && i <= 2 * n < i + 4
    ensures i % 2 == 0 && (2 * n - i) / 2 == n % 2
  {
    var q := i / 4;
    assert i == 4 * q;
    assert i / 2 == 2 * q;
    assert n / 2 == q;
  }

  /** The chunk loop of ProbablyUBSIMD with the guard i + 4 <= length: it stops at the
      last multiple of 4 that leaves no full chunk, and no load leaves the flat view. */
  method FlatChunksInBounds(flat: seq<real>, length: nat) returns (maxes: Vector256.Vec, i: nat)
    requires length <= |flat|
    ensures i % 4 == 0 && i <= length < i + 4 && maxes == LaneMaxes(flat, i)
  {
    maxes := Vector256.Zero();
    i := 0;
    while i + Vector256.Count <= length
      invariant i % 4 == 0 && i <= length
      invariant maxes == LaneMaxes(flat, i)
    {
      LaneMaxesStep(flat, i);
      maxes := Vector256.Max(maxes, Vector256.LoadUnsafe(flat, i));
      i := i + Vector256.Count;
    }
  }

  /** ProbablyUBSIMD with the length computed without overflow, the chunk loop guarded
      by i + 4 <= length so that no load leaves the flat view, the tail loop guarded by
      length, and no dereference of span[0]: every count is handled, an empty list
      gives (0, 0), and the tail loop folds the last point when the count is odd. */
  method ProbablyUBSIMDCorrected(coordinates: seq<Coordinate>) returns (r: Coordinate, ghost tailSteps: nat)
    ensures r == BoundingCorner(coordinates)
    ensures tailSteps == |coordinates| % 2
  {
    var span := coordinates;
    var flat := Flatten(span);
    var length := |span| * 2;
    var maxes, i := FlatChunksInBounds(flat, length);
    var xmax, ymax := StrideTwoFold(maxes);
    assert xmax == LaneMax(flat, 0, i, 2, 0) && ymax == LaneMax(flat, 0, i, 2, 1) by {
      StrideTwoMaxOfLanes(flat, i, 0);
      StrideTwoMaxOfLanes(flat, i, 1);
    }
    ChunkedPrefixLeavesParity(|span|, i);
    assert RoundUpEven(length) == length by {
      assert length / 2 == |span|;
      PairStep(length, length);
    }
    FlatViewSplitCorner(span, i);
    xmax, ymax, tailSteps := FlatTail(flat, length, i, xmax, ymax);
    r := Coordinate(xmax, ymax);
  }

  /** A count that passes ShrimpleSIMD is one ProbablyUBSIMD accepts. */
  lemma MultipleOfFourIsEven(n: nat)
    requires n % 4 == 0
    ensures n % 2 == 0
  {
    var q := n / 4;
    assert n == 4 * q;
    assert n / 2 == 2 * q;
  }

  /** The debug driver's check (lines 11-23, without the console output): run every
      reducer on the same list and collect the names of those whose result is not
      Equals to Basic's. Both benchmark sizes, 1000 and 100 000 points, meet the requires. */
  method CrossCheck(coordinates: seq<Coordinate>) returns (wrong: seq<string>)
    requires 0 < |coordinates| < 0x4000_0000 && |coordinates| % 4 == 0
    ensures wrong == []
  {
    var expected := Basic(coordinates);
    var shrimple, restSteps := ShrimpleSIMD(coordinates);
    MultipleOfFourIsEven(|coordinates|);
    var flat, tailSteps := ProbablyUBSIMD(coordinates);
    var shrimpleRight := shrimple.Returned? && shrimple.corner.Equals(expected);
    var flatRight := flat.Returned? && flat.corner.Equals(expected);
    wrong := (if shrimpleRight then [] else ["ShrimpleSIMD"]) + (if flatRight then [] else ["ProbablyUBSIMD"]);
  }

  /** The five points of the remainder scenario: the count is not a multiple of 4, so
      ShrimpleSIMD as written throws on them, while their corner is (9, 9). */
  const FivePoints: seq<Coordinate> :=
    [Coordinate(1.0, 9.0), Coordinate(2.0, 2.0), Coordinate(9.0, 1.0), Coordinate(4.0, 4.0), Coordinate(0.0, 0.0)]

  lemma FivePointsCorner()
    ensures |FivePoints| % 4 != 0
    ensures BoundingCorner(FivePoints) == Coordinate(9.0, 9.0)
  {
    var c := Coordinate(9.0, 9.0);
    assert FivePoints[2].X == c.X && FivePoints[0].Y == c.Y;
    assert IsCorner(c, FivePoints);
    CornerIsUnique(FivePoints, c);
  }

  /** For an odd count below 2^30, some iteration of the as-written chunk loop
      (guard i < length) loads four elements starting less than four from the end
      of the flat view. */
  lemma OddCountLoadsPastEnd(points: seq<Coordinate>)
    requires |points| % 2 == 1 && |points| < 0x4000_0000
    ensures exists i :: i % 4 == 0 && 0 <= i < WrapInt32(2 * |points|) && |Flatten(points)| < i + Vector256.Count
  {
    DoubledCountWraps(|points|);
    var h := |points| / 2;
    assert |points| == 2 * h + 1;
    var i := 2 * |points| - 2;
    assert i == 4 * h && i / 4 == h;
    assert i % 4 == 0 && 0 <= i < WrapInt32(2 * |points|) && |Flatten(points)| < i + Vector256.Count;
  }

  /** From 2^30 points on, the as-written ProbablyUBSIMD returns the corner of the first
      half only: with non-negative coordinates and the largest X last, that differs
      from Basic's result. */
  lemma OverflowDropsSecondHalf(points: seq<Coordinate>)
    requires |points| == 0x4000_0000
    requires forall k :: 0 <= k < |points| ==> 0.0 <= points[k].X
    requires forall k :: 0 <= k < |points| - 1 ==> points[k].X < points[|points| - 1].X
    ensures BoundingCorner(points[..|points| / 2]) != BoundingCorner(points)
  {
    var half := points[..|points| / 2];
    var last := points[|points| - 1].X;
    BoundingCornerIsCorner(half);
    BoundingCornerIsCorner(points);
    var c := BoundingCorner(half);
    if c.X == 0.0 {
      assert points[0].X < last;
    } else {
      var k :| 0 <= k < |half| && half[k].X == c.X;
      assert points[k].X < last;
    }
  }
}
