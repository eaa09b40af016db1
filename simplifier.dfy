/**
 * The multi-resolution simplification of the trail (front-end/src/useTrailLoader.ts).
 * For a maximum level m it builds m + 1 copies of the trail, one per level. Level m
 * is the coarsest: within a day it keeps a point once the distance walked since the
 * last kept point (plus the night before the day) reaches 0.025 * 2^m, and always
 * keeps the day's last point. Levels 0..m-1 are drawn on top of level m and only
 * hold the points level m dropped, each with its own smaller threshold.
 */
module Simplifier {
  import opened Util
  import opened Geometry
  import opened Trail
  import opened Density
  import opened Assembly

  /** The distance threshold 0.025 * 2^k. */
  function Threshold(k: nat): real {
    0.025 * Pow2(k) as real
  }

  /**
   * `distanceThresholds` and the final `distanceThreshold`: the list 0, 0.025, 0.05, ...
   * of m + 1 thresholds, and the next doubling, which level m uses inside a day.
   */
  method Thresholds(m: nat) returns (thresholds: seq<real>, coarse: real)
    ensures |thresholds| == m + 1 && thresholds[0] == 0.0
    ensures forall k :: 1 <= k <= m ==> thresholds[k] == Threshold(k - 1)
    ensures coarse == Threshold(m)
  {
    thresholds := [0.0];
    coarse := 0.025;
    while |thresholds| <= m
      invariant 1 <= |thresholds| <= m + 1 && thresholds[0] == 0.0
      invariant forall k :: 1 <= k < |thresholds| ==> thresholds[k] == Threshold(k - 1)
      invariant coarse == Threshold(|thresholds| - 1)
      decreases m + 1 - |thresholds|
    {
      thresholds := thresholds + [coarse];
      coarse := coarse * 2.0;
    }
  }

  /** The thresholds double from level to level, and level m's in-day threshold is one doubling beyond the last. */
  lemma ThresholdsDouble(m: nat, thresholds: seq<real>, coarse: real)
    requires |thresholds| == m + 1 && thresholds[0] == 0.0
    requires forall k :: 1 <= k <= m ==> thresholds[k] == Threshold(k - 1)
    requires coarse == Threshold(m)
    ensures forall k :: 1 <= k < m ==> thresholds[k + 1] == 2.0 * thresholds[k]
    ensures m >= 1 ==> coarse == 2.0 * thresholds[m]
    ensures forall j, k :: 0 <= j <= k <= m ==> thresholds[j] <= thresholds[k] < coarse
  {
    forall j, k | 0 <= j <= k <= m ensures thresholds[j] <= thresholds[k] < coarse {
      if j >= 1 {
        Pow2Monotone(j - 1, k - 1);
      }
      if k >= 1 {
        Pow2Monotone(k - 1, m);
        assert Pow2(m) == 2 * Pow2(m - 1) || k - 1 < m;
        Pow2Monotone(k, m);
      }
    }
  }

  /** `maxDensityIndex`: the level for the whole trail, or for length 1 while nothing is loaded. */
  function MaxDensityIndex(path: Option<AssembledPath>, windowWidth: real): (m: nat)
    requires windowWidth > 0.0
    ensures m == DensityIndex(if path.Some? then path.value.totalLength else 1.0, windowWidth)
    ensures forall v :: v <= (if path.Some? then path.value.totalLength else 1.0) ==> DensityIndex(v, windowWidth) <= m
  {
    var total := if path.Some? then path.value.totalLength else 1.0;
    assert forall v :: v <= total ==> DensityIndex(v, windowWidth) <= DensityIndex(total, windowWidth) by {
      forall v | v <= total ensures DensityIndex(v, windowWidth) <= DensityIndex(total, windowWidth) {
        DensityIndexMonotone(v, total, windowWidth);
      }
    }
    DensityIndex(total, windowWidth)
  }

  /**
   * `level` is the subsequence of `points` at the strictly increasing indices `kept`,
   * each below `bound`, with only the recorded distance possibly changed.
   */
  ghost predicate Picks(points: seq<Point>, level: seq<Point>, kept: seq<nat>, bound: nat) {
    && |level| == |kept|
    && (forall k :: 0 <= k < |kept| ==> kept[k] < bound && kept[k] < |points|)
    && (forall k :: 0 <= k < |kept| && kept[k] < |points| ==> level[k] == points[kept[k]].(distance := level[k].distance))
    && (forall j, k :: 0 <= j < k < |kept| ==> kept[j] < kept[k])
  }

  /** No index is kept in both lists. */
  ghost predicate Disjoint(a: seq<nat>, b: seq<nat>) {
    forall k :: 0 <= k < |a| ==> a[k] !in b
  }

  /** Sum of the recorded distances of the kept points other than the day's first point. */
  function Recorded(level: seq<Point>, kept: seq<nat>): real
    requires |level| == |kept|
  {
    if |level| == 0 then 0.0
    else Recorded(level[..|level| - 1], kept[..|kept| - 1]) + (if Last(kept) >= 1 then Last(level).distance else 0.0)
  }

  lemma RecordedAppend(level: seq<Point>, kept: seq<nat>, x: Point, j: nat)
    requires |level| == |kept|
    ensures Recorded(level + [x], kept + [j]) == Recorded(level, kept) + (if j >= 1 then x.distance else 0.0)
  {
    assert (level + [x])[..|level|] == level;
    assert (kept + [j])[..|kept|] == kept;
  }

  lemma DistanceSumStep(points: seq<Point>, p: nat)
    requires 1 <= p < |points|
    ensures DistanceSum(points[1..p + 1]) == DistanceSum(points[1..p]) + points[p].distance
  {
    assert points[1..p + 1] == points[1..p] + [points[p]];
    DistanceSumAppend(points[1..p], points[p]);
  }

  /** `nightlyDistance`: the gap from the previous day's last point, for a later day with several points. */
  function Nightly(days: seq<Day>, d: nat, dist: (LatLng, LatLng) -> real): real
    requires d < |days| && |days[d].points| > 0 && (d > 0 ==> |days[d - 1].points| > 0)
  {
    if d == 0 || |days[d].points| == 1 then 0.0
    else dist(Last(days[d - 1].points).pos, days[d].points[0].pos)
  }

  /**
   * Where the day's first point goes: level m on day 0 and on a single-point day;
   * otherwise level m when the night gap reaches the last threshold, else every finer
   * level whose threshold the gap reaches.
   */
  ghost predicate FirstPlaced(isFirst: bool, n: nat, nightly: real, m: nat, thresholds: seq<real>, kept: seq<seq<nat>>)
    requires |thresholds| == m + 1 && |kept| == m + 1
  {
    && (isFirst || n == 1 ==> 0 in kept[m] && forall i :: 0 <= i < m ==> 0 !in kept[i])
    && (!isFirst && n > 1 ==>
         && (0 in kept[m] <==> nightly >= thresholds[m])
         && forall i :: 0 <= i < m ==> (0 in kept[i] <==> nightly < thresholds[m] && nightly >= thresholds[i]))
  }

  /**
   * The reduction of one day after the points before `p` have been looked at, with
   * the running sums covering the points `1..summed - 1`: every level picks from the
   * points seen, level m and the finer levels share no point, and level m's recorded
   * distances plus its running sum make up the distance walked.
   */
  ghost predicate Tracked(points: seq<Point>, isFirst: bool, nightly: real, m: nat, thresholds: seq<real>, coarse: real,
                          p: nat, summed: nat, levels: seq<seq<Point>>, kept: seq<seq<nat>>, dayDistances: seq<real>)
  {
    && |thresholds| == m + 1 && |levels| == m + 1 && |kept| == m + 1 && |dayDistances| == m + 1
    && 1 <= summed <= |points| && p <= |points|
    && (forall i :: 0 <= i <= m ==> Picks(points, levels[i], kept[i], p))
    && (forall i :: 0 <= i < m ==> Disjoint(kept[i], kept[m]))
    && FirstPlaced(isFirst, |points|, nightly, m, thresholds, kept)
    && (isFirst || |points| == 1 ==> |levels[m]| > 0 && levels[m][0] == points[0])
    && (!isFirst && |points| > 1 && nightly >= thresholds[m] ==> |levels[m]| > 0 && levels[m][0] == points[0].(distance := 0.0))
    && Recorded(levels[m], kept[m]) + dayDistances[m] == DistanceSum(points[1..summed])
    && (forall k :: 0 <= k < |kept[m]| && 1 <= kept[m][k] < |points| - 1 ==> levels[m][k].distance + nightly >= coarse)
  }

  /**
   * What one day contributes to every level: the levels pick from the day's points
   * in order, share no point with level m, a single-point day keeps its point on
   * level m only, day 0 keeps its first point on level m, a day with several points
   * keeps its last point on level m, level m's recorded distances after the first
   * point add up to the day's distance, and every other point level m keeps inside
   * the day was reached by walking at least the in-day threshold. Level m keeps exactly
   * the points of its reference scan, each recording the distance walked to it (the
   * first point, kept after a long night gap, records 0), and every finer level is
   * exactly the result of its own reference scan.
   */
  ghost predicate DayReduced(points: seq<Point>, isFirst: bool, nightly: real, m: nat, thresholds: seq<real>, coarse: real,
                             levels: seq<seq<Point>>, kept: seq<seq<nat>>)
  {
    && |points| > 0 && |thresholds| == m + 1 && |levels| == m + 1 && |kept| == m + 1
    && (forall i :: 0 <= i <= m ==> Picks(points, levels[i], kept[i], |points|))
    && (forall i :: 0 <= i < m ==> Disjoint(kept[i], kept[m]))
    && FirstPlaced(isFirst, |points|, nightly, m, thresholds, kept)
    && (|points| == 1 ==> levels[m] == [points[0]] && forall i :: 0 <= i < m ==> levels[i] == [])
    && (isFirst ==> |levels[m]| > 0 && levels[m][0] == points[0])
    && (!isFirst && |points| > 1 && nightly >= thresholds[m] ==> |levels[m]| > 0 && levels[m][0] == points[0].(distance := 0.0))
    && (|points| > 1 ==> |kept[m]| > 0 && Last(kept[m]) == |points| - 1)
    && Recorded(levels[m], kept[m]) == DistanceSum(points[1..])
    && (forall k :: 0 <= k < |kept[m]| && 1 <= kept[m][k] < |points| - 1 ==> levels[m][k].distance + nightly >= coarse)
    && CoarseKept(points, isFirst, nightly, thresholds[m], coarse, kept[m])
    && CoarseRecorded(points, isFirst, nightly, thresholds[m], coarse, levels[m], kept[m])
    && FineKept(points, isFirst, nightly, m, thresholds, coarse, levels)
  }

  /** Level m keeps exactly the points the reference scan keeps. */
  ghost predicate CoarseKept(points: seq<Point>, isFirst: bool, nightly: real, threshold: real, coarse: real, kept: seq<nat>)
    requires |points| > 0
  {
    kept == CoarseScan(points, FirstOnCoarse(isFirst, |points|, nightly, threshold), nightly, coarse, |points|).0
  }

  /** Whether level m holds the day's first point: on day 0, on a single-point day, or after a long enough night gap. */
  predicate FirstOnCoarse(isFirst: bool, n: nat, nightly: real, threshold: real) {
    isFirst || n == 1 || nightly >= threshold
  }

  /**
   * Level m's greedy scan of a day, as a reference: the indices it has kept once the
   * points before `p` have been looked at, and the distance walked since the last
   * kept point. Point `p - 1` is kept when that distance with its own added, plus the
   * night gap, reaches the in-day threshold, or when it is the day's last point; the
   * walked distance then restarts from 0.
   */
  function CoarseScan(points: seq<Point>, firstKept: bool, nightly: real, coarse: real, p: nat): (r: (seq<nat>, real))
    requires 1 <= p <= |points|
    ensures |r.0| <= p
  {
    if p == 1 then (if firstKept then [0] else [], 0.0)
    else
      var prev := CoarseScan(points, firstKept, nightly, coarse, p - 1);
      var walked := prev.1 + points[p - 1].distance;
      if walked + nightly >= coarse || p == |points| then (prev.0 + [p - 1], 0.0) else (prev.0, walked)
  }

  /** The scan keeps indices below `p`, in increasing order. */
  lemma {:induction false} CoarseScanBelow(points: seq<Point>, firstKept: bool, nightly: real, coarse: real, p: nat)
    requires 1 <= p <= |points|
    ensures var r := CoarseScan(points, firstKept, nightly, coarse, p).0;
      && (forall k :: 0 <= k < |r| ==> r[k] < p)
      && (forall j, k :: 0 <= j < k < |r| ==> r[j] < r[k])
  {
    if p > 1 {
      CoarseScanBelow(points, firstKept, nightly, coarse, p - 1);
      CoarseStep(points, firstKept, nightly, coarse, p - 1);
    }
  }

  /** Later steps of the scan only append indices from `p` on. */
  lemma {:induction false} CoarseScanExtends(points: seq<Point>, firstKept: bool, nightly: real, coarse: real, p: nat, q: nat)
    requires 1 <= p <= q <= |points|
    ensures var a := CoarseScan(points, firstKept, nightly, coarse, p).0;
      var b := CoarseScan(points, firstKept, nightly, coarse, q).0;
      |a| <= |b| && b[..|a|] == a && forall k :: |a| <= k < |b| ==> b[k] >= p
  {
    if p < q {
      CoarseScanExtends(points, firstKept, nightly, coarse, p, q - 1);
    }
  }

  /**
   * The keep/drop rule for one point `p` inside a day, over the whole scan: level m
   * keeps it exactly when it is the last point, or when the distance walked since the
   * last kept point, its own included, plus the night gap reaches the threshold.
   */
  lemma CoarseKeepRule(points: seq<Point>, firstKept: bool, nightly: real, coarse: real, p: nat)
    requires 1 <= p < |points|
    ensures p in CoarseScan(points, firstKept, nightly, coarse, |points|).0 <==>
      p == |points| - 1 || CoarseScan(points, firstKept, nightly, coarse, p).1 + points[p].distance + nightly >= coarse
  {
    var a := CoarseScan(points, firstKept, nightly, coarse, p + 1).0;
    var b := CoarseScan(points, firstKept, nightly, coarse, |points|).0;
    CoarseScanExtends(points, firstKept, nightly, coarse, p + 1, |points|);
    CoarseScanBelow(points, firstKept, nightly, coarse, p);
    if p in b {
      var k :| 0 <= k < |b| && b[k] == p;
      assert k < |a|;
      assert a[k] == p;
    }
    if p in a {
      var k :| 0 <= k < |a| && a[k] == p;
      assert b[k] == p;
    }
  }

  /** One step of the scan: point `p` is kept, or its distance is added to the walked distance. */
  lemma CoarseStep(points: seq<Point>, firstKept: bool, nightly: real, coarse: real, p: nat)
    requires 1 <= p < |points|
    ensures var prev := CoarseScan(points, firstKept, nightly, coarse, p);
      var walked := prev.1 + points[p].distance;
      CoarseScan(points, firstKept, nightly, coarse, p + 1)
        == if walked + nightly >= coarse || p == |points| - 1 then (prev.0 + [p], 0.0) else (prev.0, walked)
  {
  }

  /** Level m's kept indices and walked distance follow the reference scan up to point `p`. */
  ghost predicate CoarseFollowed(points: seq<Point>, isFirst: bool, nightly: real, m: nat, thresholds: seq<real>,
                                 coarse: real, p: nat, kept: seq<seq<nat>>, dayDistances: seq<real>)
  {
    && |thresholds| == m + 1 && |kept| == m + 1 && |dayDistances| == m + 1 && 1 <= p <= |points|
    && var scan := CoarseScan(points, FirstOnCoarse(isFirst, |points|, nightly, thresholds[m]), nightly, coarse, p);
       kept[m] == scan.0 && dayDistances[m] == scan.1
  }

  /**
   * Level m records on each point it keeps after the day's first the distance walked
   * since its previous kept point, the point's own hop included.
   */
  ghost predicate CoarseRecorded(points: seq<Point>, isFirst: bool, nightly: real, threshold: real, coarse: real,
                                 level: seq<Point>, kept: seq<nat>)
    requires |points| > 0
  {
    forall k :: 0 <= k < |kept| && k < |level| && 1 <= kept[k] < |points| ==>
      level[k].distance
        == CoarseScan(points, FirstOnCoarse(isFirst, |points|, nightly, threshold), nightly, coarse, kept[k]).1
           + points[kept[k]].distance
  }

  lemma CoarseRecordedAppend(points: seq<Point>, isFirst: bool, nightly: real, threshold: real, coarse: real,
                             level: seq<Point>, kept: seq<nat>, p: nat, walked: real)
    requires 1 <= p < |points| && |level| == |kept|
    requires CoarseRecorded(points, isFirst, nightly, threshold, coarse, level, kept)
    requires walked == CoarseScan(points, FirstOnCoarse(isFirst, |points|, nightly, threshold), nightly, coarse, p).1
                       + points[p].distance
    ensures CoarseRecorded(points, isFirst, nightly, threshold, coarse, level + [points[p].(distance := walked)], kept + [p])
  {
    var level' := level + [points[p].(distance := walked)];
    var kept' := kept + [p];
    forall k | 0 <= k < |kept'| && k < |level'| && 1 <= kept'[k] < |points|
      ensures level'[k].distance
        == CoarseScan(points, FirstOnCoarse(isFirst, |points|, nightly, threshold), nightly, coarse, kept'[k]).1
           + points[kept'[k]].distance
    {
      if k < |kept| {
        assert level'[k] == level[k] && kept'[k] == kept[k];
      }
    }
  }

  /**
   * Whether finer level i holds the day's first point: on a later day with several
   * points, when the night gap reaches that level's threshold but not level m's.
   */
  predicate FirstOnFine(isFirst: bool, n: nat, nightly: real, coarseThreshold: real, threshold: real) {
    !isFirst && n > 1 && nightly < coarseThreshold && nightly >= threshold
  }

  /**
   * A finer level's scan of a day, as a reference: the points it holds once the points
   * before `p` have been looked at, its cached distance, and the distance walked since
   * its last kept point or level m's. When level m keeps point `p - 1`, the walked
   * distance, that point's hop included, moves into the cache. Otherwise the point is
   * kept when the walked distance, plus the night gap while neither this level nor
   * level m holds a point, reaches the level's threshold; it records the cache plus the
   * walked distance, and both restart from 0.
   */
  function FineScan(points: seq<Point>, coarseFirst: bool, fineFirst: bool, nightly: real, coarse: real, threshold: real,
                    p: nat): (r: (seq<Point>, real, real))
    requires 1 <= p <= |points|
    ensures |r.0| <= p
  {
    if p == 1 then (if fineFirst then [points[0].(distance := 0.0)] else [], 0.0, 0.0)
    else
      var prev := FineScan(points, coarseFirst, fineFirst, nightly, coarse, threshold, p - 1);
      var q := p - 1;
      var walked := prev.2 + points[q].distance;
      var coarseSoFar := CoarseScan(points, coarseFirst, nightly, coarse, q);
      if coarseSoFar.1 + points[q].distance + nightly >= coarse || q == |points| - 1 then (prev.0, prev.1 + walked, 0.0)
      else
        var adjustment := if |prev.0| == 0 && |coarseSoFar.0| == 0 then nightly else 0.0;
        if walked + adjustment >= threshold then (prev.0 + [points[q].(distance := prev.1 + walked)], 0.0, 0.0)
        else (prev.0, prev.1, walked)
  }

  /** One step of a finer level's scan, at point `p`. */
  lemma FineStep(points: seq<Point>, coarseFirst: bool, fineFirst: bool, nightly: real, coarse: real, threshold: real,
                 p: nat)
    requires 1 <= p < |points|
    ensures var prev := FineScan(points, coarseFirst, fineFirst, nightly, coarse, threshold, p);
      var walked := prev.2 + points[p].distance;
      var coarseSoFar := CoarseScan(points, coarseFirst, nightly, coarse, p);
      FineScan(points, coarseFirst, fineFirst, nightly, coarse, threshold, p + 1)
        == if coarseSoFar.1 + points[p].distance + nightly >= coarse || p == |points| - 1 then (prev.0, prev.1 + walked, 0.0)
           else if walked + (if |prev.0| == 0 && |coarseSoFar.0| == 0 then nightly else 0.0) >= threshold
           then (prev.0 + [points[p].(distance := prev.1 + walked)], 0.0, 0.0)
           else (prev.0, prev.1, walked)
  {
  }

  /** Every finer level's points, cache and walked distance follow its reference scan up to point `p`. */
  ghost predicate FineFollowed(points: seq<Point>, isFirst: bool, nightly: real, m: nat, thresholds: seq<real>,
                               coarse: real, p: nat, levels: seq<seq<Point>>, cached: seq<real>, dayDistances: seq<real>)
  {
    && |thresholds| == m + 1 && |levels| == m + 1 && |cached| == m && |dayDistances| == m + 1 && 1 <= p <= |points|
    && forall i :: 0 <= i < m ==>
         FineScan(points, FirstOnCoarse(isFirst, |points|, nightly, thresholds[m]),
                  FirstOnFine(isFirst, |points|, nightly, thresholds[m], thresholds[i]), nightly, coarse, thresholds[i], p)
           == (levels[i], cached[i], dayDistances[i])
  }

  /** Every finer level holds exactly the points of its reference scan over the whole day. */
  ghost predicate FineKept(points: seq<Point>, isFirst: bool, nightly: real, m: nat, thresholds: seq<real>, coarse: real,
                           levels: seq<seq<Point>>)
    requires |points| > 0
  {
    && |thresholds| == m + 1 && |levels| == m + 1
    && forall i :: 0 <= i < m ==>
         levels[i] == FineScan(points, FirstOnCoarse(isFirst, |points|, nightly, thresholds[m]),
                               FirstOnFine(isFirst, |points|, nightly, thresholds[m], thresholds[i]),
                               nightly, coarse, thresholds[i], |points|).0
  }

  /** Level m keeping point p moves each finer level's walked distance into its cache. */
  lemma FineAfterCoarse(points: seq<Point>, isFirst: bool, nightly: real, m: nat, thresholds: seq<real>, coarse: real,
                        p: nat, levels: seq<seq<Point>>, kept: seq<seq<nat>>, cached: seq<real>, dayDistances: seq<real>,
                        walked: seq<real>, levels': seq<seq<Point>>, cached': seq<real>)
    requires 1 <= p < |points|
    requires FineFollowed(points, isFirst, nightly, m, thresholds, coarse, p, levels, cached, dayDistances)
    requires CoarseFollowed(points, isFirst, nightly, m, thresholds, coarse, p, kept, dayDistances)
    requires |walked| == m + 1 && forall i :: 0 <= i <= m ==> walked[i] == dayDistances[i] + points[p].distance
    requires walked[m] + nightly >= coarse || p == |points| - 1
    requires |levels'| == m + 1 && forall i :: 0 <= i < m ==> levels'[i] == levels[i]
    requires |cached'| == m && forall i :: 0 <= i < m ==> cached'[i] == cached[i] + walked[i]
    ensures FineFollowed(points, isFirst, nightly, m, thresholds, coarse, p + 1, levels', cached', Zeros(m + 1))
  {
    var coarseFirst := FirstOnCoarse(isFirst, |points|, nightly, thresholds[m]);
    forall i | 0 <= i < m
      ensures FineScan(points, coarseFirst, FirstOnFine(isFirst, |points|, nightly, thresholds[m], thresholds[i]),
                       nightly, coarse, thresholds[i], p + 1)
                == (levels'[i], cached'[i], Zeros(m + 1)[i])
    {
      FineStep(points, coarseFirst, FirstOnFine(isFirst, |points|, nightly, thresholds[m], thresholds[i]),
               nightly, coarse, thresholds[i], p);
    }
  }

  /** Passing point p to the finer levels advances each one's reference scan. */
  lemma FineAfterFiner(points: seq<Point>, isFirst: bool, nightly: real, m: nat, thresholds: seq<real>, coarse: real,
                       p: nat, levels: seq<seq<Point>>, kept: seq<seq<nat>>, cached: seq<real>, dayDistances: seq<real>,
                       walked: seq<real>, levels': seq<seq<Point>>, kept': seq<seq<nat>>, cached': seq<real>,
                       dayDistances': seq<real>)
    requires 1 <= p < |points|
    requires FineFollowed(points, isFirst, nightly, m, thresholds, coarse, p, levels, cached, dayDistances)
    requires CoarseFollowed(points, isFirst, nightly, m, thresholds, coarse, p, kept, dayDistances)
    requires |levels[m]| == |kept[m]|
    requires |walked| == m + 1 && forall i :: 0 <= i <= m ==> walked[i] == dayDistances[i] + points[p].distance
    requires !(walked[m] + nightly >= coarse || p == |points| - 1)
    requires |levels'| == m + 1 && |kept'| == m + 1 && |cached'| == m && |dayDistances'| == m + 1
    requires forall i :: 0 <= i < m ==>
      FinerStep(points, p, nightly, m, thresholds, levels, kept, cached, walked, levels', kept', cached', dayDistances', i)
    ensures FineFollowed(points, isFirst, nightly, m, thresholds, coarse, p + 1, levels', cached', dayDistances')
  {
    var coarseFirst := FirstOnCoarse(isFirst, |points|, nightly, thresholds[m]);
    forall i | 0 <= i < m
      ensures FineScan(points, coarseFirst, FirstOnFine(isFirst, |points|, nightly, thresholds[m], thresholds[i]),
                       nightly, coarse, thresholds[i], p + 1)
                == (levels'[i], cached'[i], dayDistances'[i])
    {
      assert FinerStep(points, p, nightly, m, thresholds, levels, kept, cached, walked, levels', kept', cached', dayDistances', i);
      FineStep(points, coarseFirst, FirstOnFine(isFirst, |points|, nightly, thresholds[m], thresholds[i]),
               nightly, coarse, thresholds[i], p);
    }
  }

  function Zeros(n: nat): (z: seq<real>)
    ensures |z| == n && forall i :: 0 <= i < n ==> z[i] == 0.0
  {
    seq(n, _ => 0.0)
  }

  /** Lines 196-214: the day's first point, placed before the in-day scan. */
  method PlaceFirstPoint(days: seq<Day>, d: nat, m: nat, thresholds: seq<real>, coarse: real, dist: (LatLng, LatLng) -> real)
    returns (levels: seq<seq<Point>>, ghost kept: seq<seq<nat>>, nightly: real)
    requires d < |days| && |days[d].points| > 0 && (d > 0 ==> |days[d - 1].points| > 0) && |thresholds| == m + 1
    ensures nightly == Nightly(days, d, dist)
    ensures Tracked(days[d].points, d == 0, nightly, m, thresholds, coarse, 1, 1, levels, kept, Zeros(m + 1))
    ensures CoarseFollowed(days[d].points, d == 0, nightly, m, thresholds, coarse, 1, kept, Zeros(m + 1))
    ensures FineFollowed(days[d].points, d == 0, nightly, m, thresholds, coarse, 1, levels, Zeros(m), Zeros(m + 1))
    ensures CoarseRecorded(days[d].points, d == 0, nightly, thresholds[m], coarse, levels[m], kept[m])
    ensures |days[d].points| == 1 ==> levels[m] == [days[d].points[0]] && forall i :: 0 <= i < m ==> levels[i] == []
  {
    var points := days[d].points;
    levels := seq(m + 1, _ => []);
    kept := seq(m + 1, _ => []);
    nightly := 0.0;
    if d == 0 || |points| == 1 {
      levels := levels[m := [points[0]]];
      kept := kept[m := [0]];
    } else {
      nightly := Nightly(days, d, dist);
      var first := points[0].(distance := 0.0);
      if nightly >= thresholds[m] {
        levels := levels[m := [first]];
        kept := kept[m := [0]];
      } else {
        for i := 0 to m
          invariant |levels| == m + 1 && |kept| == m + 1 && levels[m] == [] && kept[m] == []
          invariant forall j :: 0 <= j < m ==>
            levels[j] == (if j < i && nightly >= thresholds[j] then [first] else [])
            && kept[j] == (if j < i && nightly >= thresholds[j] then [0] else [])
        {
          if nightly >= thresholds[i] {
            levels := levels[i := levels[i] + [first]];
            kept := kept[i := kept[i] + [0]];
          }
        }
      }
    }
    assert points[1..1] == [];
    forall i | 0 <= i < m
      ensures FineScan(points, FirstOnCoarse(d == 0, |points|, nightly, thresholds[m]),
                       FirstOnFine(d == 0, |points|, nightly, thresholds[m], thresholds[i]),
                       nightly, coarse, thresholds[i], 1)
                == (levels[i], Zeros(m)[i], Zeros(m + 1)[i])
    {
    }
  }

  /** Lines 219-221: `cachedDayDistances[i] += dayDistances[i]` for every finer level. */
  method AddDayDistances(cached: seq<real>, dayDistances: seq<real>, m: nat) returns (cached': seq<real>)
    requires |cached| == m && |dayDistances| == m + 1
    ensures |cached'| == m && forall i :: 0 <= i < m ==> cached'[i] == cached[i] + dayDistances[i]
  {
    cached' := cached;
    for i := 0 to m
      invariant |cached'| == m
      invariant forall j :: 0 <= j < m ==> cached'[j] == cached[j] + (if j < i then dayDistances[j] else 0.0)
    {
      cached' := cached'[i := cached'[i] + dayDistances[i]];
    }
  }

  /**
   * What lines 225-233 do to finer level i at point p: the point is kept when the
   * distance since that level's last point, plus the night gap while neither level i
   * nor level m holds a point yet, reaches the level's threshold; the level's
   * distances then restart from 0.
   */
  ghost predicate FinerStep(points: seq<Point>, p: nat, nightly: real, m: nat, thresholds: seq<real>,
                            levels: seq<seq<Point>>, kept: seq<seq<nat>>, cached: seq<real>, dayDistances: seq<real>,
                            levels': seq<seq<Point>>, kept': seq<seq<nat>>, cached': seq<real>, dayDistances': seq<real>,
                            i: nat)
    requires p < |points| && i < m && |thresholds| == m + 1 && |levels| == m + 1 && |kept| == m + 1
    requires |cached| == m && |dayDistances| == m + 1
    requires |levels'| == m + 1 && |kept'| == m + 1 && |cached'| == m && |dayDistances'| == m + 1
  {
    var adjustment := if |levels[i]| == 0 && |levels[m]| == 0 then nightly else 0.0;
    if dayDistances[i] + adjustment >= thresholds[i] then
      && levels'[i] == levels[i] + [points[p].(distance := cached[i] + dayDistances[i])]
      && kept'[i] == kept[i] + [p]
      && cached'[i] == 0.0 && dayDistances'[i] == 0.0
    else
      levels'[i] == levels[i] && kept'[i] == kept[i] && cached'[i] == cached[i] && dayDistances'[i] == dayDistances[i]
  }

  /** Lines 224-235: the finer levels' test for a point that level m dropped. */
  method FinerLevels(points: seq<Point>, p: nat, nightly: real, m: nat, thresholds: seq<real>,
                     levels: seq<seq<Point>>, ghost kept: seq<seq<nat>>, cached: seq<real>, dayDistances: seq<real>)
    returns (levels': seq<seq<Point>>, ghost kept': seq<seq<nat>>, cached': seq<real>, dayDistances': seq<real>)
    requires p < |points| && |thresholds| == m + 1 && |levels| == m + 1 && |kept| == m + 1
    requires |cached| == m && |dayDistances| == m + 1
    ensures |levels'| == m + 1 && |kept'| == m + 1 && |cached'| == m && |dayDistances'| == m + 1
    ensures levels'[m] == levels[m] && kept'[m] == kept[m] && dayDistances'[m] == dayDistances[m]
    ensures forall i :: 0 <= i < m ==>
      FinerStep(points, p, nightly, m, thresholds, levels, kept, cached, dayDistances, levels', kept', cached', dayDistances', i)
  {
    levels', kept', cached', dayDistances' := levels, kept, cached, dayDistances;
    for i := 0 to m
      invariant |levels'| == m + 1 && |kept'| == m + 1 && |cached'| == m && |dayDistances'| == m + 1
      invariant levels'[m] == levels[m] && kept'[m] == kept[m] && dayDistances'[m] == dayDistances[m]
      invariant forall j :: 0 <= j < i ==>
        FinerStep(points, p, nightly, m, thresholds, levels, kept, cached, dayDistances, levels', kept', cached', dayDistances', j)
      invariant forall j :: i <= j < m ==>
        levels'[j] == levels[j] && kept'[j] == kept[j] && cached'[j] == cached[j] && dayDistances'[j] == dayDistances[j]
    {
      ghost var (levels0, kept0, cached0, dayDistances0) := (levels', kept', cached', dayDistances');
      var distanceAdjustment := if |levels'[i]| == 0 && |levels'[m]| == 0 then nightly else 0.0;
      if dayDistances'[i] + distanceAdjustment >= thresholds[i] {
        levels' := levels'[i := levels'[i] + [points[p].(distance := cached'[i] + dayDistances'[i])]];
        kept' := kept'[i := kept'[i] + [p]];
        cached' := cached'[i := 0.0];
        dayDistances' := dayDistances'[i := 0.0];
      }
      forall j | 0 <= j < i
        ensures FinerStep(points, p, nightly, m, thresholds, levels, kept, cached, dayDistances, levels', kept', cached', dayDistances', j)
      {
        assert FinerStep(points, p, nightly, m, thresholds, levels, kept, cached, dayDistances, levels0, kept0, cached0, dayDistances0, j);
        assert levels'[j] == levels0[j] && kept'[j] == kept0[j] && cached'[j] == cached0[j] && dayDistances'[j] == dayDistances0[j];
      }
    }
  }

  /** Keeping point p on level m (lines 217-222) keeps the reduction tracked. */
  lemma KeepCoarse(points: seq<Point>, isFirst: bool, nightly: real, m: nat, thresholds: seq<real>, coarse: real,
                   p: nat, levels: seq<seq<Point>>, kept: seq<seq<nat>>, dayDistances: seq<real>)
    requires 1 <= p < |points|
    requires Tracked(points, isFirst, nightly, m, thresholds, coarse, p, p + 1, levels, kept, dayDistances)
    requires dayDistances[m] + nightly >= coarse || p == |points| - 1
    ensures var levels' := levels[m := levels[m] + [points[p].(distance := dayDistances[m])]];
      var kept' := kept[m := kept[m] + [p]];
      && Tracked(points, isFirst, nightly, m, thresholds, coarse, p + 1, p + 1, levels', kept', Zeros(m + 1))
      && Last(kept'[m]) == p
  {
    var x := points[p].(distance := dayDistances[m]);
    var levels' := levels[m := levels[m] + [x]];
    var kept' := kept[m := kept[m] + [p]];
    RecordedAppend(levels[m], kept[m], x, p);
    AppendPick(points, levels[m], kept[m], p);
    forall i | 0 <= i < m ensures Picks(points, levels'[i], kept'[i], p + 1) && Disjoint(kept'[i], kept'[m]) {
      assert levels'[i] == levels[i] && kept'[i] == kept[i];
      assert Disjoint(kept[i], kept[m]);
      assert Picks(points, levels[i], kept[i], p);
    }
    assert 0 in kept'[m] <==> 0 in kept[m];
    assert |levels[m]| > 0 ==> levels'[m][0] == levels[m][0];
    forall k | 0 <= k < |kept'[m]| && 1 <= kept'[m][k] < |points| - 1
      ensures levels'[m][k].distance + nightly >= coarse
    {
      if k < |kept[m]| {
        assert levels'[m][k] == levels[m][k] && kept'[m][k] == kept[m][k];
      }
    }
  }

  /** Appending point p to a level that picks from the points before p. */
  lemma AppendPick(points: seq<Point>, level: seq<Point>, kept: seq<nat>, p: nat)
    requires p < |points| && Picks(points, level, kept, p)
    ensures forall d: real :: Picks(points, level + [points[p].(distance := d)], kept + [p], p + 1)
  {
  }

  /** Passing point p down to the finer levels (lines 224-235) keeps the reduction tracked. */
  lemma KeepFiner(points: seq<Point>, isFirst: bool, nightly: real, m: nat, thresholds: seq<real>, coarse: real,
                  p: nat, levels: seq<seq<Point>>, kept: seq<seq<nat>>, cached: seq<real>, dayDistances: seq<real>,
                  levels': seq<seq<Point>>, kept': seq<seq<nat>>, cached': seq<real>, dayDistances': seq<real>)
    requires 1 <= p < |points| && |cached| == m
    requires Tracked(points, isFirst, nightly, m, thresholds, coarse, p, p + 1, levels, kept, dayDistances)
    requires |levels'| == m + 1 && |kept'| == m + 1 && |cached'| == m && |dayDistances'| == m + 1
    requires levels'[m] == levels[m] && kept'[m] == kept[m] && dayDistances'[m] == dayDistances[m]
    requires forall i :: 0 <= i < m ==>
      FinerStep(points, p, nightly, m, thresholds, levels, kept, cached, dayDistances, levels', kept', cached', dayDistances', i)
    ensures Tracked(points, isFirst, nightly, m, thresholds, coarse, p + 1, p + 1, levels', kept', dayDistances')
  {
    forall i | 0 <= i < m
      ensures Picks(points, levels'[i], kept'[i], p + 1) && Disjoint(kept'[i], kept'[m])
      ensures 0 in kept'[i] <==> 0 in kept[i]
    {
      assert FinerStep(points, p, nightly, m, thresholds, levels, kept, cached, dayDistances, levels', kept', cached', dayDistances', i);
      assert Picks(points, levels[i], kept[i], p) && Disjoint(kept[i], kept[m]);
      assert Picks(points, levels[m], kept[m], p);
    }
    assert Picks(points, levels[m], kept[m], p);
  }

  /** `dayDistances.map(prev => prev + step)`. */
  function AddToAll(dayDistances: seq<real>, step: real): (r: seq<real>)
    ensures |r| == |dayDistances| && forall i :: 0 <= i < |r| ==> r[i] == dayDistances[i] + step
  {
    seq(|dayDistances|, i requires 0 <= i < |dayDistances| => dayDistances[i] + step)
  }

  /** Lines 215-236: looking at point p of the day. */
  method ScanPoint(points: seq<Point>, isFirst: bool, nightly: real, m: nat, thresholds: seq<real>, coarse: real, p: nat,
                   levels: seq<seq<Point>>, ghost kept: seq<seq<nat>>, cached: seq<real>, dayDistances: seq<real>)
    returns (levels': seq<seq<Point>>, ghost kept': seq<seq<nat>>, cached': seq<real>, dayDistances': seq<real>)
    requires 1 <= p < |points| && |cached| == m
    requires Tracked(points, isFirst, nightly, m, thresholds, coarse, p, p, levels, kept, dayDistances)
    requires CoarseFollowed(points, isFirst, nightly, m, thresholds, coarse, p, kept, dayDistances)
    requires FineFollowed(points, isFirst, nightly, m, thresholds, coarse, p, levels, cached, dayDistances)
    requires CoarseRecorded(points, isFirst, nightly, thresholds[m], coarse, levels[m], kept[m])
    ensures |cached'| == m
    ensures Tracked(points, isFirst, nightly, m, thresholds, coarse, p + 1, p + 1, levels', kept', dayDistances')
    ensures CoarseFollowed(points, isFirst, nightly, m, thresholds, coarse, p + 1, kept', dayDistances')
    ensures FineFollowed(points, isFirst, nightly, m, thresholds, coarse, p + 1, levels', cached', dayDistances')
    ensures CoarseRecorded(points, isFirst, nightly, thresholds[m], coarse, levels'[m], kept'[m])
    ensures p == |points| - 1 ==> |kept'[m]| > 0 && Last(kept'[m]) == p && dayDistances'[m] == 0.0
  {
    var walked := AddToAll(dayDistances, points[p].distance);
    DistanceSumStep(points, p);
    assert Tracked(points, isFirst, nightly, m, thresholds, coarse, p, p + 1, levels, kept, walked);
    if walked[m] + nightly >= coarse || p == |points| - 1 {
      levels' := levels[m := levels[m] + [points[p].(distance := walked[m])]];
      kept' := kept[m := kept[m] + [p]];
      cached' := AddDayDistances(cached, walked, m);
      dayDistances' := Zeros(m + 1);
      CoarseBranch(points, isFirst, nightly, m, thresholds, coarse, p, levels, kept, cached, dayDistances, walked, cached');
    } else {
      levels', kept', cached', dayDistances' := FinerLevels(points, p, nightly, m, thresholds, levels, kept, cached, walked);
      FinerBranch(points, isFirst, nightly, m, thresholds, coarse, p, levels, kept, cached, dayDistances, walked,
                  levels', kept', cached', dayDistances');
    }
  }

  /** Point p kept on level m: everything tracked moves on to p + 1. */
  lemma CoarseBranch(points: seq<Point>, isFirst: bool, nightly: real, m: nat, thresholds: seq<real>, coarse: real, p: nat,
                     levels: seq<seq<Point>>, kept: seq<seq<nat>>, cached: seq<real>, dayDistances: seq<real>,
                     walked: seq<real>, cached': seq<real>)
    requires 1 <= p < |points| && |cached| == m
    requires Tracked(points, isFirst, nightly, m, thresholds, coarse, p, p + 1, levels, kept, walked)
    requires CoarseFollowed(points, isFirst, nightly, m, thresholds, coarse, p, kept, dayDistances)
    requires FineFollowed(points, isFirst, nightly, m, thresholds, coarse, p, levels, cached, dayDistances)
    requires CoarseRecorded(points, isFirst, nightly, thresholds[m], coarse, levels[m], kept[m])
    requires |walked| == m + 1 && forall i :: 0 <= i <= m ==> walked[i] == dayDistances[i] + points[p].distance
    requires walked[m] + nightly >= coarse || p == |points| - 1
    requires |cached'| == m && forall i :: 0 <= i < m ==> cached'[i] == cached[i] + walked[i]
    ensures var levels' := levels[m := levels[m] + [points[p].(distance := walked[m])]];
      var kept' := kept[m := kept[m] + [p]];
      && Tracked(points, isFirst, nightly, m, thresholds, coarse, p + 1, p + 1, levels', kept', Zeros(m + 1))
      && CoarseFollowed(points, isFirst, nightly, m, thresholds, coarse, p + 1, kept', Zeros(m + 1))
      && FineFollowed(points, isFirst, nightly, m, thresholds, coarse, p + 1, levels', cached', Zeros(m + 1))
      && CoarseRecorded(points, isFirst, nightly, thresholds[m], coarse, levels'[m], kept'[m])
      && |kept'[m]| > 0 && Last(kept'[m]) == p
  {
    var levels' := levels[m := levels[m] + [points[p].(distance := walked[m])]];
    KeepCoarse(points, isFirst, nightly, m, thresholds, coarse, p, levels, kept, walked);
    CoarseStep(points, FirstOnCoarse(isFirst, |points|, nightly, thresholds[m]), nightly, coarse, p);
    FineAfterCoarse(points, isFirst, nightly, m, thresholds, coarse, p, levels, kept, cached, dayDistances,
                    walked, levels', cached');
    assert Picks(points, levels[m], kept[m], p);
    CoarseRecordedAppend(points, isFirst, nightly, thresholds[m], coarse, levels[m], kept[m], p, walked[m]);
  }

  /** Point p passed to the finer levels: everything tracked moves on to p + 1. */
  lemma FinerBranch(points: seq<Point>, isFirst: bool, nightly: real, m: nat, thresholds: seq<real>, coarse: real, p: nat,
                    levels: seq<seq<Point>>, kept: seq<seq<nat>>, cached: seq<real>, dayDistances: seq<real>,
                    walked: seq<real>, levels': seq<seq<Point>>, kept': seq<seq<nat>>, cached': seq<real>,
                    dayDistances': seq<real>)
    requires 1 <= p < |points| && |cached| == m
    requires Tracked(points, isFirst, nightly, m, thresholds, coarse, p, p + 1, levels, kept, walked)
    requires CoarseFollowed(points, isFirst, nightly, m, thresholds, coarse, p, kept, dayDistances)
    requires FineFollowed(points, isFirst, nightly, m, thresholds, coarse, p, levels, cached, dayDistances)
    requires CoarseRecorded(points, isFirst, nightly, thresholds[m], coarse, levels[m], kept[m])
    requires |walked| == m + 1 && forall i :: 0 <= i <= m ==> walked[i] == dayDistances[i] + points[p].distance
    requires !(walked[m] + nightly >= coarse || p == |points| - 1)
    requires |levels'| == m + 1 && |kept'| == m + 1 && |cached'| == m && |dayDistances'| == m + 1
    requires levels'[m] == levels[m] && kept'[m] == kept[m] && dayDistances'[m] == walked[m]
    requires forall i :: 0 <= i < m ==>
      FinerStep(points, p, nightly, m, thresholds, levels, kept, cached, walked, levels', kept', cached', dayDistances', i)
    ensures Tracked(points, isFirst, nightly, m, thresholds, coarse, p + 1, p + 1, levels', kept', dayDistances')
    ensures CoarseFollowed(points, isFirst, nightly, m, thresholds, coarse, p + 1, kept', dayDistances')
    ensures FineFollowed(points, isFirst, nightly, m, thresholds, coarse, p + 1, levels', cached', dayDistances')
    ensures CoarseRecorded(points, isFirst, nightly, thresholds[m], coarse, levels'[m], kept'[m])
  {
    KeepFiner(points, isFirst, nightly, m, thresholds, coarse, p, levels, kept, cached, walked,
              levels', kept', cached', dayDistances');
    CoarseStep(points, FirstOnCoarse(isFirst, |points|, nightly, thresholds[m]), nightly, coarse, p);
    assert Picks(points, levels[m], kept[m], p);
    FineAfterFiner(points, isFirst, nightly, m, thresholds, coarse, p, levels, kept, cached, dayDistances,
                   walked, levels', kept', cached', dayDistances');
  }

  /** Once every point has been looked at, the tracked reduction is the day's reduction. */
  lemma Finished(points: seq<Point>, isFirst: bool, nightly: real, m: nat, thresholds: seq<real>, coarse: real,
                 levels: seq<seq<Point>>, kept: seq<seq<nat>>, cached: seq<real>, dayDistances: seq<real>)
    requires Tracked(points, isFirst, nightly, m, thresholds, coarse, |points|, |points|, levels, kept, dayDistances)
    requires CoarseFollowed(points, isFirst, nightly, m, thresholds, coarse, |points|, kept, dayDistances)
    requires FineFollowed(points, isFirst, nightly, m, thresholds, coarse, |points|, levels, cached, dayDistances)
    requires CoarseRecorded(points, isFirst, nightly, thresholds[m], coarse, levels[m], kept[m])
    requires dayDistances[m] == 0.0
    requires |points| > 1 ==> |kept[m]| > 0 && Last(kept[m]) == |points| - 1
    requires |points| == 1 ==> levels[m] == [points[0]] && forall i :: 0 <= i < m ==> levels[i] == []
    ensures DayReduced(points, isFirst, nightly, m, thresholds, coarse, levels, kept)
  {
    assert points[1..] == points[1..|points|];
  }

  /** Lines 190-242 for day d: the levels of that day. */
  method SimplifyDay(days: seq<Day>, d: nat, m: nat, thresholds: seq<real>, coarse: real, dist: (LatLng, LatLng) -> real)
    returns (levels: seq<seq<Point>>, ghost kept: seq<seq<nat>>)
    requires d < |days| && |days[d].points| > 0 && (d > 0 ==> |days[d - 1].points| > 0) && |thresholds| == m + 1
    ensures DayReduced(days[d].points, d == 0, Nightly(days, d, dist), m, thresholds, coarse, levels, kept)
    ensures |levels| == m + 1
    ensures |days[d].points| == 1 ==> levels[m] == [days[d].points[0]] && forall i :: 0 <= i < m ==> levels[i] == []
    ensures d == 0 ==> |levels[m]| > 0 && levels[m][0] == days[d].points[0]
  {
    var points := days[d].points;
    var nightly;
    levels, kept, nightly := PlaceFirstPoint(days, d, m, thresholds, coarse, dist);
    var cachedDayDistances := Zeros(m);
    var dayDistances := Zeros(m + 1);
    for p := 1 to |points|
      invariant |cachedDayDistances| == m
      invariant Tracked(points, d == 0, nightly, m, thresholds, coarse, p, p, levels, kept, dayDistances)
      invariant CoarseFollowed(points, d == 0, nightly, m, thresholds, coarse, p, kept, dayDistances)
      invariant FineFollowed(points, d == 0, nightly, m, thresholds, coarse, p, levels, cachedDayDistances, dayDistances)
      invariant CoarseRecorded(points, d == 0, nightly, thresholds[m], coarse, levels[m], kept[m])
      invariant p == |points| && p > 1 ==> |kept[m]| > 0 && Last(kept[m]) == |points| - 1
      invariant p == |points| ==> dayDistances[m] == 0.0
      invariant |points| == 1 ==> levels[m] == [points[0]] && forall i :: 0 <= i < m ==> levels[i] == []
    {
      levels, kept, cachedDayDistances, dayDistances :=
        ScanPoint(points, d == 0, nightly, m, thresholds, coarse, p, levels, kept, cachedDayDistances, dayDistances);
    }
    Finished(points, d == 0, nightly, m, thresholds, coarse, levels, kept, cachedDayDistances, dayDistances);
  }

  /** The thresholds `Thresholds(m)` computes. */
  function ThresholdList(m: nat): (r: seq<real>)
    ensures |r| == m + 1
  {
    seq(m + 1, k => if k <= 0 then 0.0 else Threshold(k - 1))
  }

  /** Lines 243-245: `subs[i].push({ ...day, points: reducedPoints[i] })` for every level. */
  method PushLevels(subs: seq<seq<Day>>, day: Day, levels: seq<seq<Point>>) returns (subs': seq<seq<Day>>)
    requires |levels| == |subs|
    ensures |subs'| == |subs|
    ensures forall i :: 0 <= i < |subs| ==> subs'[i] == subs[i] + [day.(points := levels[i])]
  {
    subs' := subs;
    for i := 0 to |subs|
      invariant |subs'| == |subs|
      invariant forall j :: 0 <= j < |subs| ==> subs'[j] == subs[j] + (if j < i then [day.(points := levels[j])] else [])
    {
      subs' := subs'[i := subs'[i] + [day.(points := levels[i])]];
    }
  }

  /** Every day of `days` is reduced to the matching entry of `reduced`. */
  ghost predicate AllReduced(days: seq<Day>, dist: (LatLng, LatLng) -> real, m: nat, thresholds: seq<real>, coarse: real,
                             reduced: seq<seq<seq<Point>>>, kept: seq<seq<seq<nat>>>)
  {
    ReducedUpTo(days, |days|, dist, m, thresholds, coarse, reduced, kept)
  }

  /** The first `n` days of `days` are reduced to the matching entries of `reduced`. */
  ghost predicate ReducedUpTo(days: seq<Day>, n: nat, dist: (LatLng, LatLng) -> real, m: nat, thresholds: seq<real>,
                              coarse: real, reduced: seq<seq<seq<Point>>>, kept: seq<seq<seq<nat>>>)
  {
    && n <= |days| && |reduced| == n && |kept| == n
    && (forall e :: 0 <= e < |days| ==> |days[e].points| > 0)
    && forall e {:trigger reduced[e]} :: 0 <= e < n ==>
         DayReduced(days[e].points, e == 0, Nightly(days, e, dist), m, thresholds, coarse, reduced[e], kept[e])
  }

  lemma AllReducedStep(days: seq<Day>, d: nat, dist: (LatLng, LatLng) -> real, m: nat, thresholds: seq<real>, coarse: real,
                       reduced: seq<seq<seq<Point>>>, kept: seq<seq<seq<nat>>>, levels: seq<seq<Point>>, keptToday: seq<seq<nat>>)
    requires d < |days| && ReducedUpTo(days, d, dist, m, thresholds, coarse, reduced, kept)
    requires DayReduced(days[d].points, d == 0, Nightly(days, d, dist), m, thresholds, coarse, levels, keptToday)
    ensures ReducedUpTo(days, d + 1, dist, m, thresholds, coarse, reduced + [levels], kept + [keptToday])
  {
    var reduced' := reduced + [levels];
    var kept' := kept + [keptToday];
    forall e | 0 <= e < d + 1
      ensures DayReduced(days[e].points, e == 0, Nightly(days, e, dist), m, thresholds, coarse, reduced'[e], kept'[e])
    {
      if e < d {
        assert reduced'[e] == reduced[e] && kept'[e] == kept[e];
      }
    }
  }

  /**
   * The levels after the days before `d` have been simplified: every level holds one
   * entry per such day, the day with its points replaced by that day's reduction.
   */
  ghost predicate Built(days: seq<Day>, d: nat, dist: (LatLng, LatLng) -> real, m: nat, thresholds: seq<real>, coarse: real,
                        subs: seq<seq<Day>>, reduced: seq<seq<seq<Point>>>, kept: seq<seq<seq<nat>>>)
  {
    && d <= |days| && |subs| == m + 1 && |reduced| == d && |kept| == d
    && (forall i :: 0 <= i <= m ==> |subs[i]| == d)
    && ReducedUpTo(days, d, dist, m, thresholds, coarse, reduced, kept)
    && (forall i, e :: 0 <= i <= m && 0 <= e < d && |reduced[e]| == m + 1 ==>
          subs[i][e] == days[e].(points := reduced[e][i]))
  }

  /** Lines 191-246 for day d: simplify the day and append it to every level. */
  method AddDay(days: seq<Day>, d: nat, dist: (LatLng, LatLng) -> real, m: nat, thresholds: seq<real>, coarse: real,
                subs: seq<seq<Day>>, ghost reduced: seq<seq<seq<Point>>>, ghost kept: seq<seq<seq<nat>>>)
    returns (subs': seq<seq<Day>>, ghost reduced': seq<seq<seq<Point>>>, ghost kept': seq<seq<seq<nat>>>)
    requires d < |days| && |thresholds| == m + 1 && forall e :: 0 <= e < |days| ==> |days[e].points| > 0
    requires Built(days, d, dist, m, thresholds, coarse, subs, reduced, kept)
    ensures Built(days, d + 1, dist, m, thresholds, coarse, subs', reduced', kept')
    ensures |subs'| == |subs|
    ensures forall i :: 0 <= i < |subs| ==> subs'[i] == subs[i] + [days[d].(points := subs'[i][|subs[i]|].points)]
  {
    var levels, keptToday := SimplifyDay(days, d, m, thresholds, coarse, dist);
    subs' := PushLevels(subs, days[d], levels);
    AllReducedStep(days, d, dist, m, thresholds, coarse, reduced, kept, levels, keptToday);
    PushedLevels(days, d, m, subs, subs', reduced, levels);
    reduced', kept' := reduced + [levels], kept + [keptToday];
  }

  lemma PushedLevels(days: seq<Day>, d: nat, m: nat, subs: seq<seq<Day>>, subs': seq<seq<Day>>,
                     reduced: seq<seq<seq<Point>>>, levels: seq<seq<Point>>)
    requires d < |days| && |subs| == m + 1 && |subs'| == m + 1 && |reduced| == d && |levels| == m + 1
    requires forall i :: 0 <= i <= m ==> |subs[i]| == d && subs'[i] == subs[i] + [days[d].(points := levels[i])]
    requires forall i, e :: 0 <= i <= m && 0 <= e < d && |reduced[e]| == m + 1 ==>
      subs[i][e] == days[e].(points := reduced[e][i])
    ensures forall i :: 0 <= i <= m ==> |subs'[i]| == d + 1
    ensures forall i, e :: 0 <= i <= m && 0 <= e < d + 1 && |(reduced + [levels])[e]| == m + 1 ==>
      subs'[i][e] == days[e].(points := (reduced + [levels])[e][i])
  {
    forall i, e | 0 <= i <= m && 0 <= e < d + 1 && |(reduced + [levels])[e]| == m + 1
      ensures subs'[i][e] == days[e].(points := (reduced + [levels])[e][i])
    {
      if e < d {
        assert subs'[i][e] == subs[i][e];
      }
    }
  }

  /**
   * Lines 183-249: the levels of the whole trail. Every level has one entry per day,
   * equal to the day but for its points, and each day's points on the levels are that
   * day's reduction.
   */
  method Simplify(days: seq<Day>, m: nat, dist: (LatLng, LatLng) -> real)
    returns (subs: seq<seq<Day>>, ghost reduced: seq<seq<seq<Point>>>, ghost kept: seq<seq<seq<nat>>>)
    requires forall d :: 0 <= d < |days| ==> |days[d].points| > 0
    ensures |subs| == m + 1 && |reduced| == |days| && |kept| == |days|
    ensures forall i :: 0 <= i <= m ==> |subs[i]| == |days|
    ensures forall i, d :: 0 <= i <= m && 0 <= d < |days| && |reduced[d]| == m + 1 ==>
      subs[i][d] == days[d].(points := reduced[d][i])
    ensures AllReduced(days, dist, m, ThresholdList(m), Threshold(m), reduced, kept)
  {
    var thresholds, coarse := Thresholds(m);
    assert thresholds == ThresholdList(m);
    subs := seq(m + 1, _ => []);
    reduced, kept := [], [];
    for d := 0 to |days|
      invariant Built(days, d, dist, m, thresholds, coarse, subs, reduced, kept)
    {
      subs, reduced, kept := AddDay(days, d, dist, m, thresholds, coarse, subs, reduced, kept);
    }
  }

  /** An assembled trail has no empty day, which is what `Simplify` needs. */
  lemma AssembledDaysNonEmpty(days: seq<Day>, total: real)
    requires WellFormedTrail(days, total)
    ensures forall d :: 0 <= d < |days| ==> |days[d].points| > 0
  {
    forall d | 0 <= d < |days| ensures |days[d].points| > 0 {
      if d < |days| - 1 {
        assert ClosedDay(days[d]);
      }
    }
  }
}
