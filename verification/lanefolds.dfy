/** The shared shape of both vector reducers: a stride-4 accumulator filled chunk by
    chunk, then folded horizontally. */
module LaneFolds {
  import opened MaxSpec
  import Vector256

  /** The accumulator after a chunked pass over vals[..n]: lane k is the maximum of 0
      and every vals[j] with j < n and j % 4 == k. */
  function LaneMaxes(vals: seq<real>, n: nat): Vector256.Vec
    requires n <= |vals|
  {
    seq(Vector256.Count, k requires 0 <= k < Vector256.Count => LaneMax(vals, 0, n, Vector256.Count, k))
  }

  /** max(v[0], ..., v[j - 1]), folded left to right as the loop at lines 101-105 does. */
  function HorizontalMax(v: Vector256.Vec, j: nat): real
    requires 1 <= j <= Vector256.Count
  {
    if j == 1 then v[0] else Max(HorizontalMax(v, j - 1), v[j - 1])
  }

  /** The lanes of parity `parity` below j, folded left to right as the loop at
      lines 138-142 does: max(v[parity], v[parity + 2], ..., v[j - 2 + parity]). */
  function StrideTwoMax(v: Vector256.Vec, j: nat, parity: nat): real
    requires 2 <= j <= Vector256.Count && j % 2 == 0 && parity < 2
  {
    if j == 2 then v[parity] else Max(StrideTwoMax(v, j - 2, parity), v[j - 2 + parity])
  }

  /** The four-lane fold written out. */
  lemma HorizontalMaxUnfold(v: Vector256.Vec)
    ensures HorizontalMax(v, 4) == Max(Max(Max(v[0], v[1]), v[2]), v[3])
  {
    assert HorizontalMax(v, 2) == Max(v[0], v[1]);
    assert HorizontalMax(v, 3) == Max(HorizontalMax(v, 2), v[2]);
  }

  /** One lane over one chunk: of the four positions i..i + 3, only i + k falls into lane k. */
  lemma LaneMaxChunk(vals: seq<real>, i: nat, k: nat)
    requires i % 4 == 0 && i + 4 <= |vals| && k < 4
    ensures LaneMax(vals, 0, i + 4, 4, k) == Max(LaneMax(vals, 0, i, 4, k), vals[i + k])
  {
    ChunkPositionStep(vals, i, 0, k);
    ChunkPositionStep(vals, i, 1, k);
    ChunkPositionStep(vals, i, 2, k);
    ChunkPositionStep(vals, i, 3, k);
  }

  /** Offset t into a chunk that starts at a multiple of 4 is position t of the chunk's
      four lanes and position t % 2 of its two stride-2 lanes. */
  lemma ChunkOffset(i: nat, t: nat)
    requires i % 4 == 0 && t < 4
    ensures (i + t) % 4 == t && (i + t) % 2 == t % 2
  {
    var q := i / 4;
    assert i == 4 * q;
    assert (i + t) / 4 == q;
    assert (i + t) / 2 == 2 * q + t / 2;
  }

  /** Position i + t of a chunk starting at a multiple of 4 belongs to lane t only. */
  lemma ChunkPositionStep(vals: seq<real>, i: nat, t: nat, k: nat)
    requires i % 4 == 0 && t < 4 && i + t < |vals|
    ensures LaneMax(vals, 0, i + t + 1, 4, k)
         == if t == k then Max(LaneMax(vals, 0, i + t, 4, k), vals[i + t]) else LaneMax(vals, 0, i + t, 4, k)
  {
    ChunkOffset(i, t);
    if t == k {
      LaneMaxSnocIn(vals, 0, i + t, 4, k);
    } else {
      LaneMaxSnocOut(vals, 0, i + t, 4, k);
    }
  }

  /** One chunk step: maxing the accumulator with the next four elements advances
      every lane by exactly the one element that falls into it. */
  lemma LaneMaxesStep(vals: seq<real>, i: nat)
    requires i % 4 == 0 && i + 4 <= |vals|
    ensures LaneMaxes(vals, i + 4) == Vector256.Max(LaneMaxes(vals, i), vals[i..i + 4])
  {
    LaneMaxChunk(vals, i, 0);
    LaneMaxChunk(vals, i, 1);
    LaneMaxChunk(vals, i, 2);
    LaneMaxChunk(vals, i, 3);
  }

  /** Four consecutive positions all belong to the single lane of stride 1. */
  lemma StrideOneChunk(vals: seq<real>, i: nat)
    requires i + 4 <= |vals|
    ensures LaneMax(vals, 0, i + 4, 1, 0)
         == Max(Max(Max(Max(LaneMax(vals, 0, i, 1, 0), vals[i]), vals[i + 1]), vals[i + 2]), vals[i + 3])
  {
    LaneMaxSnocIn(vals, 0, i, 1, 0);
    LaneMaxSnocIn(vals, 0, i + 1, 1, 0);
    LaneMaxSnocIn(vals, 0, i + 2, 1, 0);
    LaneMaxSnocIn(vals, 0, i + 3, 1, 0);
  }

  /** Folding the four lanes of a stride-4 pass over vals[..i] gives the maximum of 0
      and every element of vals[..i]: no element is dropped or counted twice. */
  lemma {:induction false} HorizontalMaxOfLanes(vals: seq<real>, i: nat)
    requires i % 4 == 0 && i <= |vals|
    ensures HorizontalMax(LaneMaxes(vals, i), 4) == LaneMax(vals, 0, i, 1, 0)
    decreases i
  {
    var after := LaneMaxes(vals, i);
    HorizontalMaxUnfold(after);
    if i > 0 {
      var p := i - 4;
      HorizontalMaxOfLanes(vals, p);
      var before := LaneMaxes(vals, p);
      HorizontalMaxUnfold(before);
      LaneMaxesStep(vals, p);
      StrideOneChunk(vals, p);
      MaxRegroup4(before[0], before[1], before[2], before[3], vals[p], vals[p + 1], vals[p + 2], vals[p + 3]);
    }
  }

  /** Of four consecutive positions from a multiple of 4, the stride-2 lane `parity`
      takes p + parity and p + parity + 2. */
  lemma StrideTwoChunk(vals: seq<real>, p: nat, parity: nat)
    requires p % 4 == 0 && p + 4 <= |vals| && parity < 2
    ensures LaneMax(vals, 0, p + 4, 2, parity)
         == Max(Max(LaneMax(vals, 0, p, 2, parity), vals[p + parity]), vals[p + parity + 2])
  {
    StrideTwoPositionStep(vals, p, 0, parity);
    StrideTwoPositionStep(vals, p, 1, parity);
    StrideTwoPositionStep(vals, p, 2, parity);
    StrideTwoPositionStep(vals, p, 3, parity);
  }

  /** Position p + t, with p a multiple of 4, belongs to the stride-2 lane t % 2 only. */
  lemma StrideTwoPositionStep(vals: seq<real>, p: nat, t: nat, parity: nat)
    requires p % 4 == 0 && t < 4 && p + t < |vals|
    ensures LaneMax(vals, 0, p + t + 1, 2, parity)
         == if t % 2 == parity then Max(LaneMax(vals, 0, p + t, 2, parity), vals[p + t]) else LaneMax(vals, 0, p + t, 2, parity)
  {
    ChunkOffset(p, t);
    if t % 2 == parity {
      LaneMaxSnocIn(vals, 0, p + t, 2, parity);
    } else {
      LaneMaxSnocOut(vals, 0, p + t, 2, parity);
    }
  }

  /** Folding the even lanes (0, 2) of a stride-4 pass over vals[..i] gives the maximum
      of 0 and every even-indexed element, and folding the odd lanes (1, 3) every
      odd-indexed one. */
  lemma {:induction false} StrideTwoMaxOfLanes(vals: seq<real>, i: nat, parity: nat)
    requires i % 4 == 0 && i <= |vals| && parity < 2
    ensures StrideTwoMax(LaneMaxes(vals, i), 4, parity) == LaneMax(vals, 0, i, 2, parity)
    decreases i
  {
    if i > 0 {
      var p := i - 4;
      StrideTwoMaxOfLanes(vals, p, parity);
      var before := LaneMaxes(vals, p);
      LaneMaxChunk(vals, p, parity);
      LaneMaxChunk(vals, p, parity + 2);
      StrideTwoChunk(vals, p, parity);
      MaxRegroup2(before[parity], before[parity + 2], vals[p + parity], vals[p + parity + 2]);
    }
  }
}
