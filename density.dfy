/**
 * `densityIndex` (front-end/src/useTrailLoader.ts): which simplification level to
 * draw for a given visible distance and viewport width. The source computes
 * `max(0, ceil(log2(300 * viewDistance / windowWidth)))`; that value is the least
 * natural k with 2^k >= 300 * viewDistance / windowWidth, which is what is
 * computed here without a logarithm.
 */
module Density {

  /** Points per pixel above which the finest level is no longer drawn. */
  const FullDensityThreshold: real := 300.0

  function Pow2(k: nat): (r: nat)
    ensures r >= 1
  {
    if k == 0 then 1 else 2 * Pow2(k - 1)
  }

  lemma {:induction false} Pow2Monotone(j: nat, k: nat)
    requires j <= k
    ensures Pow2(j) <= Pow2(k)
  {
    if j < k {
      Pow2Monotone(j, k - 1);
    }
  }

  /** Least natural k with 2^k >= x. */
  function LeastPow2AtLeast(x: real): (k: nat)
    ensures Pow2(k) as real >= x
    ensures k > 0 ==> (Pow2(k - 1) as real) < x
    decreases if x <= 1.0 then 0 else x.Floor
  {
    if x <= 1.0 then 0 else LeastPow2AtLeast(x / 2.0) + 1
  }

  /** Points of the trail that one pixel of the window would have to show. */
  function PointsPerPixel(viewDistance: real, windowWidth: real): real
    requires windowWidth > 0.0
  {
    FullDensityThreshold * viewDistance / windowWidth
  }

  function DensityIndex(viewDistance: real, windowWidth: real): (k: nat)
    requires windowWidth > 0.0
    ensures Pow2(k) as real >= PointsPerPixel(viewDistance, windowWidth)
    ensures k > 0 ==> Pow2(k - 1) as real < PointsPerPixel(viewDistance, windowWidth)
  {
    LeastPow2AtLeast(PointsPerPixel(viewDistance, windowWidth))
  }

  /** The two postconditions of `DensityIndex` pin the index down: it is the least such k. */
  lemma DensityIndexIsLeast(viewDistance: real, windowWidth: real, j: nat)
    requires windowWidth > 0.0
    requires Pow2(j) as real >= PointsPerPixel(viewDistance, windowWidth)
    ensures DensityIndex(viewDistance, windowWidth) <= j
  {
    var k := DensityIndex(viewDistance, windowWidth);
    if j < k {
      Pow2Monotone(j, k - 1);
    }
  }

  /**
   * A longer visible distance never selects a finer level; in particular any view no
   * longer than the whole trail has an index at most the trail's own index.
   */
  lemma DensityIndexMonotone(v1: real, v2: real, windowWidth: real)
    requires windowWidth > 0.0
    requires v1 <= v2
    ensures DensityIndex(v1, windowWidth) <= DensityIndex(v2, windowWidth)
  {
    var k2 := DensityIndex(v2, windowWidth);
    var gap := FullDensityThreshold * (v2 - v1);
    assert PointsPerPixel(v2, windowWidth) - PointsPerPixel(v1, windowWidth) == gap / windowWidth;
    assert gap / windowWidth >= 0.0;
    DensityIndexIsLeast(v1, windowWidth, k2);
  }
}
