# Datapoints-benchmark: the bounding-corner reducers

The `Benchmark` class of `Program.cs` has three reducers. Each one computes the
"bounding corner" of a list of 2-D points: the maximum X and the maximum Y, with both
accumulators starting at 0.

- `Basic` is a scalar loop over the list.
- `ShrimpleSIMD` gathers the X and Y fields of four points at a time into two
  `Vector256<double>` accumulators. It then folds the four lanes of each accumulator
  and finishes with a scalar "rest of input" loop.
- `ProbablyUBSIMD` reads the list's storage as one flat run of doubles
  `X0, Y0, X1, Y1, ...`. It loads four doubles at a time into a single accumulator,
  whose even lanes hold X values and odd lanes hold Y values. It then folds the even
  lanes into `xmax` and the odd lanes into `ymax`, and finishes with a tail loop over
  pairs.

The debug driver runs the two vector reducers and compares each result, with
`Coordinate.Equals`, against the result of `Basic`.

The model has six modules:

- `Coordinates` holds the point record.
- `MaxSpec` holds the reference definitions and their facts:
  - `BoundingCorner`, a left fold of `Max` from 0;
  - `IsCorner`, "non-negative, bounds every field, each field 0 or attained";
  - `LaneMax`, the maximum of 0 and the elements at `lo <= j < hi` with
    `j % stride == lane`.
- `Vector256` holds the four-lane vector operations the reducers use.
- `LaneFolds` describes what a stride-4 accumulator holds after a chunked pass, and
  what its horizontal folds produce.
- `FlatView` holds the flat reinterpretation of the point list.
- `Benchmark` holds the three reducers as methods with loops and invariants. Each is
  proved against `BoundingCorner`.

Each reducer is modelled as written:

- The span indexer's bounds check is the value `IndexOutOfRange` of an `Outcome`
  result.
- The 32-bit `span.Length * 2` is wrapped explicitly.
- The work of each remainder loop is counted in a ghost out-parameter.

Where the code as written departs from what it evidently intends, a corrected method is
proved as well. These are listed under Findings.

`Basic` and `ShrimpleSIMD` return (0, 0) on an empty list. `ProbablyUBSIMD` throws,
because it takes `ref span[0]` (line 123).

## Model

| member | source | states |
|---|---|---|
| Coordinates.Coordinate.Equals | Program.cs:37 | Equals holds exactly when both fields are equal, i.e. iff the two coordinates are the same value |
| MaxSpec.Max | Program.cs:70-71 | Math.Max returns one of its arguments and bounds both |
| MaxSpec.MaxFold | Program.cs:66-72 | the running maximum started from 0 is never negative |
| MaxSpec.MaxFoldIsMax | Program.cs:66-72 | the running maximum bounds every element and is either 0 or one of the elements |
| MaxSpec.BoundingCornerIsCorner | Program.cs:64-75 | the corner is non-negative, no point exceeds it in X or Y, each field is 0 or attained by some point, and an empty list gives (0, 0) |
| MaxSpec.CornerIsUnique | Program.cs:64-75 | any coordinate with the corner property equals BoundingCorner, so every reducer that produces a corner agrees with Basic |
| MaxSpec.BoundingCornerAttained | Program.cs:64-75 | for a non-empty list of non-negative points, each field of the corner is the coordinate of some point |
| MaxSpec.NegativeFieldsClampToZero | Program.cs:66 | because the accumulators start at 0, a list whose X values are all negative has corner X equal to 0 |
| MaxSpec.BoundingCornerPermutation | Program.cs:68-72 | visiting the points in any order gives the same corner |
| MaxSpec.LaneMax | Program.cs:83-94 | what one lane of an accumulator holds is never negative |
| MaxSpec.LaneMaxIsMax | Program.cs:83-94 | a lane bounds every element that falls into it and is either 0 or one of them |
| MaxSpec.LaneMaxSplit | Program.cs:107-113 | a lane over [lo, hi) is the max of the lane over [lo, mid) and over [mid, hi), so a pass may hand the rest to a later loop |
| MaxSpec.LaneMaxStrideOne | Program.cs:109-113 | the single lane of stride 1 is the plain running maximum |
| LaneFolds.LaneMaxesStep | Program.cs:89-93 | one Vector256.Max of the accumulator with the next four values advances each lane k by exactly the value at offset k |
| LaneFolds.HorizontalMaxOfLanes | Program.cs:98-105 | folding the four lanes of a stride-4 pass gives the maximum of 0 and every element seen, with no element dropped or counted twice |
| LaneFolds.StrideTwoMaxOfLanes | Program.cs:135-142 | folding lanes 0 and 2 gives the maximum over the even positions and lanes 1 and 3 the maximum over the odd positions |
| FlatView.Flatten | Program.cs:121-123 | the flat view holds two doubles per point |
| FlatView.FlattenAt | Program.cs:121-123 | point k's X is at position 2k of the flat view and its Y at 2k + 1 |
| FlatView.FlatLanesArePointFields | Program.cs:121 | over the first m points the even positions fold to the running max of X and the odd positions to that of Y |
| FlatView.FlatViewCorner | Program.cs:121-123 | the corner of the first m points is the pair of stride-2 lanes of the flat view below 2m |
| FlatView.FlatViewSplitCorner | Program.cs:144-150 | the corner is the lane-wise max of the flat view before any split point and after it |
| FlatView.RoundUpEven | Program.cs:146 | where a loop over pairs from an even start, running while i < n, stops: the even number n or n + 1, i.e. 2 * ((n + 1) / 2) |
| FlatView.FlatViewHalfCorner | Program.cs:146-150 | folding the flat view of N points below N rounded up to even gives the corner of the first (N + 1) / 2 points |
| Benchmark.WrapInt32 | Program.cs:126 | the result is a 32-bit int congruent to the argument modulo 2^32 |
| Benchmark.DoubledCountWraps | Program.cs:126 | span.Length * 2 is exact below 2^30 points and negative from 2^30 points on |
| Benchmark.Basic | Program.cs:64-75 | Basic returns the bounding corner |
| Benchmark.HorizontalFold | Program.cs:98-105 | the loop over j computes the left-to-right fold of the four lanes of each accumulator |
| Benchmark.StrideTwoFold | Program.cs:135-142 | the loop over j folds the even lanes into xmax and the odd lanes into ymax |
| Benchmark.ScalarTail | Program.cs:109-113 | the rest-of-input loop maxes the X and Y of every point from i0 on into the running values and runs once per remaining point |
| Benchmark.GatherMax | Program.cs:89-93 | gathering four X and four Y values and maxing them in advances both accumulators from the lanes of the first i points to those of the first i + 4 |
| Benchmark.ShrimpleSIMD | Program.cs:79-116 | throws IndexOutOfRange exactly when the count is not a multiple of 4; otherwise returns the bounding corner, and the rest-of-input loop runs zero times |
| Benchmark.FlatChunks | Program.cs:128-131 | with length equal to the size of the flat view (a multiple of 4) the loop ends at length with lanes of all values; with a non-positive length it does not run, whatever the size of the view |
| Benchmark.FlatTail | Program.cs:146-150 | the tail loop folds every even position of [i0, n rounded up to even) into xmax and every odd one into ymax, so an odd n also reads position n; it runs (RoundUpEven(n) - i0) / 2 times, and does nothing when i0 >= n |
| Benchmark.ProbablyUBSIMD | Program.cs:119-153 | throws IndexOutOfRange exactly on an empty list; below 2^30 points (even counts) returns the bounding corner with the tail loop idle; from 2^30 points on, odd or even, returns the corner of the first (N + 1) / 2 points only, every read staying inside the flat view |
| Benchmark.ShrimpleSIMDCorrected | Program.cs:87 | with the batch guard i + 4 <= span.Length every list gives the bounding corner, and the remainder loop handles exactly count % 4 points |
| Benchmark.FlatChunksInBounds | Program.cs:128-131 | with the chunk guard i + 4 <= length the loop stops at the multiple of 4 that leaves fewer than four values, with every load inside the flat view and the lanes of all values before it |
| Benchmark.ProbablyUBSIMDCorrected | Program.cs:123-150 | with a non-wrapping length, an in-bounds chunk guard and the tail guarded by length, every list (empty and odd included) gives the bounding corner, and the tail folds exactly count % 2 points |
| Benchmark.CrossCheck | Program.cs:11-23 | for every non-empty list below 2^30 points whose count is a multiple of 4, no vector reducer is reported as wrong |
| Benchmark.FivePointsCorner | Program.cs:87-93 | the five points (1,9), (2,2), (9,1), (4,4), (0,0) are not a multiple of 4 and their corner is (9, 9) |
| Benchmark.OddCountLoadsPastEnd | Program.cs:128-130 | for an odd count below 2^30 points, some chunk load of the as-written loop starts fewer than four values before the end of the flat view |
| Benchmark.OverflowDropsSecondHalf | Program.cs:126 | at 2^30 points, with the largest X last, the corner of the first half differs from the corner of the whole list |

## Left out

- The debug driver's console output, `ToString`, and the BenchmarkDotNet attributes and runner are not modelled. They only print or time.
- `GlobalSetup` is not modelled: its fixture comes from `Random(15)`. The reducers take the list as a parameter.
- Doubles are modelled as reals. NaN, signed zeros and the IEEE rules of `Math.Max` and `Vector256.Max` for them are not modelled.
- The hardware intrinsics and memory layout are not modelled. This covers `Vector256`, `CollectionsMarshal.AsSpan`, `Unsafe.As` and `Unsafe.Add`. Only the order of the values they expose is.
- Exceptions are modelled as the `IndexOutOfRange` outcome, not as control transfer. Only the bounds checks that can fail are modelled: `span[i + 1..i + 3]` at line 89 and `span[0]` at line 123.
- ProbablyUBSIMD: requires an even count below 2^30 points. For an odd count below 2^30 the last chunk load, at 2N - 2, reads past the list's storage. That is undefined behaviour, with no result to state (see Findings). From 2^30 points on no chunk load happens, and odd counts are covered.
- ProbablyUBSIMD: requires a count of at most Array.MaxLength (0x7FFF_FFC7), the most elements a List's backing array can hold. The wrap of the tail index `i += 2` (line 146) that only a count of int.MaxValue would reach is therefore not modelled.
- Benchmark.CrossCheck: requires a non-empty list whose count is a multiple of 4 and below 2^30. The benchmark's sizes, 1000 and 100 000 points, meet it. An empty list makes ProbablyUBSIMD throw at `ref span[0]` (line 123), which ends the driver. For the other counts the Findings show which reducer is wrong.

## Findings

| source | as written | input that shows it | evidently intended | confidence | as-written member | corrected member |
|---|---|---|---|---|---|---|
| Program.cs:87 | the batch loop runs while i < span.Length but reads span[i + 3] | the five points (1,9), (2,2), (9,1), (4,4), (0,0): the second batch reads span[5] and throws, instead of returning (9, 9) | batch while i + 4 <= span.Length, so that the rest-of-input loop handles the last count % 4 points | high, not executed | Benchmark.ShrimpleSIMD | Benchmark.ShrimpleSIMDCorrected |
| Program.cs:128-130 | the chunk loop runs while i < length but loads four doubles at i | one point: length is 2, and the load at 0 reads two doubles past the end of the list's storage | chunk while i + 4 <= length, with the tail loop (line 146) guarded by length rather than span.Length, so that it folds the last pair | high, not executed | Benchmark.OddCountLoadsPastEnd | Benchmark.ProbablyUBSIMDCorrected |
| Program.cs:126 | span.Length * 2 is computed in 32-bit int | 2^30 points with the largest X last: length wraps to -2^31, the chunk loop is skipped and the tail loop folds only the first 2^29 pairs, the first half of the points | the doubled length computed without overflow | medium, not executed | Benchmark.OverflowDropsSecondHalf | Benchmark.ProbablyUBSIMDCorrected |
| Program.cs:123 | ref span[0] is taken before anything is checked | the empty list throws IndexOutOfRangeException, where Basic returns (0, 0) | an empty list gives (0, 0) like Basic | high, not executed | Benchmark.ProbablyUBSIMD | Benchmark.ProbablyUBSIMDCorrected |
