/**
 * The data the timeline (front-end/src/Timeline.tsx) derives for drawing: the centre
 * and spread of the fingers on the screen, the month stripes and night blocks laid
 * along the distance axis, the elevation grid, which days of which level are drawn,
 * and where the month names go.
 */
module Timeline {
  import opened Util
  import opened Trail
  import opened Viewport
  import opened Assembly

  datatype ScreenPoint = ScreenPoint(x: real, y: real)

  function SumX(ts: seq<ScreenPoint>): real
  {
    if |ts| == 0 then 0.0 else SumX(ts[..|ts| - 1]) + ts[|ts| - 1].x
  }

  function SumY(ts: seq<ScreenPoint>): real
  {
    if |ts| == 0 then 0.0 else SumY(ts[..|ts| - 1]) + ts[|ts| - 1].y
  }

  /** `Math.sqrt(Math.pow(a, 2) + Math.pow(b, 2))`: how far a touch lies from the centre. */
  function Offset(t: ScreenPoint, center: ScreenPoint, sqrt: real -> real): real
  {
    var a := t.x - center.x;
    var b := t.y - center.y;
    sqrt(a * a + b * b)
  }

  function Offsets(ts: seq<ScreenPoint>, center: ScreenPoint, sqrt: real -> real): real
  {
    if |ts| == 0 then 0.0 else Offsets(ts[..|ts| - 1], center, sqrt) + Offset(ts[|ts| - 1], center, sqrt)
  }

  lemma DivAdd(a: real, b: real, n: real)
    requires n > 0.0
    ensures (a + b) / n == a / n + b / n
  {
  }

  /**
   * `touchStats` (lines 26-43): the centre is the mean of the touches, accumulated as
   * a sum of shares; the spread is 0 for fewer than two touches and otherwise the mean
   * distance of the touches from the centre. Math.sqrt is the parameter `sqrt`.
   */
  method TouchStats(touches: seq<ScreenPoint>, sqrt: real -> real) returns (center: ScreenPoint, spread: real)
    ensures |touches| == 0 ==> center == ScreenPoint(0.0, 0.0)
    ensures |touches| > 0 ==>
      center.x == SumX(touches) / |touches| as real && center.y == SumY(touches) / |touches| as real
    ensures |touches| <= 1 ==> spread == 0.0
    ensures |touches| > 1 ==> spread == Offsets(touches, center, sqrt) / |touches| as real
    ensures SqrtNonneg(sqrt) ==> spread >= 0.0
  {
    center := Centre(touches);
    spread := 0.0;
    if |touches| > 1 {
      spread := MeanOffset(touches, center, sqrt);
      if SqrtNonneg(sqrt) {
        OffsetsNonneg(touches, center, sqrt);
        DivMonotone(0.0, Offsets(touches, center, sqrt), |touches| as real);
      }
    }
  }

  /** The first loop of `touchStats`: the mean of the touches, 0 when there are none. */
  method Centre(touches: seq<ScreenPoint>) returns (center: ScreenPoint)
    ensures |touches| == 0 ==> center == ScreenPoint(0.0, 0.0)
    ensures |touches| > 0 ==>
      center.x == SumX(touches) / |touches| as real && center.y == SumY(touches) / |touches| as real
  {
    var n := |touches|;
    center := ScreenPoint(0.0, 0.0);
    if n == 0 {
      return;
    }
    var count := n as real;
    for i := 0 to n
      invariant center.x == SumX(touches[..i]) / count && center.y == SumY(touches[..i]) / count
    {
      assert touches[..i + 1][..i] == touches[..i];
      DivAdd(SumX(touches[..i]), touches[i].x, count);
      DivAdd(SumY(touches[..i]), touches[i].y, count);
      center := ScreenPoint(center.x + touches[i].x / count, center.y + touches[i].y / count);
    }
    assert touches[..n] == touches;
  }

  /** The second loop of `touchStats`: the mean distance of the touches from the centre. */
  method MeanOffset(touches: seq<ScreenPoint>, center: ScreenPoint, sqrt: real -> real) returns (spread: real)
    requires |touches| > 0
    ensures spread == Offsets(touches, center, sqrt) / |touches| as real
  {
    var count := |touches| as real;
    spread := 0.0;
    for i := 0 to |touches|
      invariant spread == Offsets(touches[..i], center, sqrt) / count
    {
      assert touches[..i + 1][..i] == touches[..i];
      DivAdd(Offsets(touches[..i], center, sqrt), Offset(touches[i], center, sqrt), count);
      spread := spread + Offset(touches[i], center, sqrt) / count;
    }
    assert touches[..|touches|] == touches;
  }

  /** What the model needs of Math.sqrt: no negative result for a non-negative argument. */
  ghost predicate SqrtNonneg(sqrt: real -> real) {
    forall v :: v >= 0.0 ==> sqrt(v) >= 0.0
  }

  lemma {:induction false} OffsetsNonneg(ts: seq<ScreenPoint>, center: ScreenPoint, sqrt: real -> real)
    requires SqrtNonneg(sqrt)
    ensures Offsets(ts, center, sqrt) >= 0.0
  {
    if |ts| > 0 {
      OffsetsNonneg(ts[..|ts| - 1], center, sqrt);
      var t := ts[|ts| - 1];
      var a := t.x - center.x;
      var b := t.y - center.y;
      SquareNonneg(a);
      SquareNonneg(b);
      assert Offset(t, center, sqrt) >= 0.0;
    }
  }

  lemma {:induction false} SumXBetween(ts: seq<ScreenPoint>, lo: real, hi: real)
    requires forall i :: 0 <= i < |ts| ==> lo <= ts[i].x <= hi
    ensures |ts| as real * lo <= SumX(ts) <= |ts| as real * hi
  {
    if |ts| > 0 {
      SumXBetween(ts[..|ts| - 1], lo, hi);
    }
  }

  /** The centre lies between the leftmost and the rightmost touch; one touch is its own centre. */
  lemma CenterWithinTouches(ts: seq<ScreenPoint>, lo: real, hi: real)
    requires |ts| > 0
    requires forall i :: 0 <= i < |ts| ==> lo <= ts[i].x <= hi
    ensures lo <= SumX(ts) / |ts| as real <= hi
  {
    var n := |ts| as real;
    SumXBetween(ts, lo, hi);
    MulDivCancel(n, lo);
    MulDivCancel(n, hi);
    DivMonotone(n * lo, SumX(ts), n);
    DivMonotone(SumX(ts), n * hi, n);
  }

  lemma MulDivCancel(n: real, a: real)
    requires n > 0.0
    ensures n * a / n == a
  {
  }

  lemma SquareNonneg(a: real)
    ensures a * a >= 0.0
  {
    if a < 0.0 {
      MulNonneg(-a, -a);
    } else {
      MulNonneg(a, a);
    }
  }

  lemma DivMonotone(a: real, b: real, n: real)
    requires a <= b && n > 0.0
    ensures a / n <= b / n
  {
  }

  // Month stripes and night blocks (lines 78-138)

  datatype Month = Month(index: int, start: real, end: real)

  /** `{ start, end, newDay }`: a stretch of the day walked at night. */
  datatype NightBlock = NightBlock(start: real, end: real, newDay: int)

  /** Each stripe ends where the next one starts. */
  predicate Contiguous(months: seq<Month>) {
    forall k :: 0 <= k < |months| - 1 ==> months[k].end == months[k + 1].start
  }

  /** No stripe ends before it starts. */
  predicate Forward(months: seq<Month>) {
    forall k :: 0 <= k < |months| ==> months[k].start <= months[k].end
  }

  predicate NonNegativeDistances(ps: seq<Point>) {
    forall j :: 0 <= j < |ps| ==> ps[j].distance >= 0.0
  }

  predicate TrailDistancesNonNegative(days: seq<Day>) {
    forall d :: 0 <= d < |days| ==> NonNegativeDistances(days[d].points)
  }

  /**
   * A day's night blocks run forward, one after the other; a block that records a new
   * calendar day is continued by the next block from its end; the last block records
   * none.
   */
  predicate NightBlocksOrdered(block: seq<NightBlock>) {
    && (forall k :: 0 <= k < |block| ==> block[k].start <= block[k].end)
    && (forall k :: 0 <= k < |block| - 1 ==> block[k].end <= block[k + 1].start)
    && (forall k :: 0 <= k < |block| - 1 && block[k].newDay != 0 ==> block[k].end == block[k + 1].start)
    && (|block| > 0 ==> Last(block).newDay == 0)
  }

  /** Each of the first `n` days has its blocks within the stretch its points cover. */
  predicate DaysBlocksWithin(days: seq<Day>, nightBlocks: seq<seq<NightBlock>>, n: nat)
    requires n <= |days| && n <= |nightBlocks|
  {
    forall k :: 0 <= k < n ==>
      BlocksWithin(nightBlocks[k], days[k].start, days[k].start + DistanceSum(days[k].points))
  }

  /** The blocks lie within `[lo, hi]`. */
  predicate BlocksWithin(block: seq<NightBlock>, lo: real, hi: real) {
    |block| > 0 ==> lo <= block[0].start && Last(block).end <= hi
  }

  function Indices(months: seq<Month>): seq<int>
  {
    if |months| == 0 then [] else Indices(months[..|months| - 1]) + [months[|months| - 1].index]
  }

  /** The month of the latest point, or `current` before any point. */
  function MonthAfter(current: int, ps: seq<Point>): int
  {
    if |ps| == 0 then current else ps[|ps| - 1].time.month
  }

  /** The months a walk through `ps` enters, starting in `current`: each point whose month differs from the one before it. */
  function MonthChanges(current: int, ps: seq<Point>): seq<int>
  {
    if |ps| == 0 then []
    else
      var before := ps[..|ps| - 1];
      var month := ps[|ps| - 1].time.month;
      MonthChanges(current, before) + (if month != MonthAfter(current, before) then [month] else [])
  }

  lemma {:induction false} MonthChangesAppend(current: int, a: seq<Point>, b: seq<Point>)
    ensures MonthChanges(current, a + b) == MonthChanges(current, a) + MonthChanges(MonthAfter(current, a), b)
    ensures MonthAfter(current, a + b) == MonthAfter(MonthAfter(current, a), b)
    decreases |b|
  {
    if |b| > 0 {
      var b' := b[..|b| - 1];
      assert (a + b)[..|a + b| - 1] == a + b';
      MonthChangesAppend(current, a, b');
    } else {
      assert a + b == a;
    }
  }

  predicate AdjacentDiffer(s: seq<int>) {
    forall k :: 0 <= k < |s| - 1 ==> s[k] != s[k + 1]
  }

  /** No two neighbouring entries of the month list name the same month. */
  lemma {:induction false} MonthChangesDiffer(current: int, ps: seq<Point>)
    ensures AdjacentDiffer([current] + MonthChanges(current, ps))
    ensures Last([current] + MonthChanges(current, ps)) == MonthAfter(current, ps)
  {
    if |ps| > 0 {
      var before := ps[..|ps| - 1];
      MonthChangesDiffer(current, before);
      var month := ps[|ps| - 1].time.month;
      var s := [current] + MonthChanges(current, before);
      if month != MonthAfter(current, before) {
        assert [current] + MonthChanges(current, ps) == s + [month];
      } else {
        assert [current] + MonthChanges(current, ps) == s;
      }
    }
  }

  /** `months[months.length - 1].end = distance`. */
  function SetLastEnd(months: seq<Month>, distance: real): (r: seq<Month>)
    requires |months| > 0
    ensures |r| == |months| && Indices(r) == Indices(months) && Last(r).end == distance
    ensures Last(r).index == Last(months).index
    ensures r[0].index == months[0].index && r[0].start == months[0].start
    ensures r[..|r| - 1] == months[..|months| - 1] && Last(r).start == Last(months).start
    ensures Contiguous(months) ==> Contiguous(r)
    ensures Forward(months) && Last(months).start <= distance ==> Forward(r)
  {
    var n := |months|;
    var r := months[..n - 1] + [months[n - 1].(end := distance)];
    assert r[..n - 1] == months[..n - 1];
    r
  }

  /**
   * Lines 97-106 for one point: the current month now ends at the point, and a new
   * month starts there when the point's month is not the current one.
   */
  function NoteMonth(months: seq<Month>, distance: real, month: int): (r: seq<Month>)
    requires |months| > 0
    ensures |r| > 0 && Last(r).index == month && Last(r).end == distance
    ensures Indices(r) == Indices(months) + (if month != Last(months).index then [month] else [])
    ensures r[0].index == months[0].index && r[0].start == months[0].start
    ensures Contiguous(months) ==> Contiguous(r)
    ensures Forward(months) && Last(months).start <= distance ==> Forward(r) && Last(r).start <= distance
  {
    var ms := SetLastEnd(months, distance);
    if month != Last(months).index then
      var r := ms + [Month(month, distance, distance)];
      assert r[..|ms|] == ms;
      r
    else
      assert Last(ms).index == Last(Indices(ms));
      ms
  }

  lemma IndicesLast(months: seq<Month>)
    requires |months| > 0
    ensures |Indices(months)| == |months| && Last(Indices(months)) == Last(months).index
  {
    IndicesLength(months);
  }

  lemma {:induction false} IndicesLength(months: seq<Month>)
    ensures |Indices(months)| == |months|
  {
    if |months| > 0 {
      IndicesLength(months[..|months| - 1]);
    }
  }

  /** Points in the small hours or late evening: before 06:00 or from 21:00. */
  predicate IsNight(p: Point) {
    p.time.hour < 6 || p.time.hour >= 21
  }

  function NightCount(ps: seq<Point>): nat
  {
    if |ps| == 0 then 0 else NightCount(ps[..|ps| - 1]) + (if IsNight(ps[|ps| - 1]) then 1 else 0)
  }

  /**
   * Lines 108-124 for one point. A night point opens a block, or extends the open one
   * to itself; when it falls on a new calendar day the open block records that day and
   * a new block continues from its end. A day point closes the open block.
   */
  method NoteNight(block: seq<NightBlock>, transitioningFrom: int, distance: real, p: Point)
    returns (block': seq<NightBlock>, transitioningFrom': int)
    requires transitioningFrom != 0 ==> |block| > 0
    ensures transitioningFrom' != 0 ==> |block'| > 0
    ensures !IsNight(p) ==> block' == block && transitioningFrom' == 0
    ensures IsNight(p) ==> |block| <= |block'| <= |block| + 1 && |block'| > 0 && Last(block').end == distance
    ensures IsNight(p) ==> transitioningFrom' == p.time.date
    ensures IsNight(p) && transitioningFrom == 0 ==> block' == block + [NightBlock(distance, distance, 0)]
    ensures IsNight(p) && transitioningFrom != 0 && transitioningFrom == p.time.date ==> block' == block[..|block| - 1] + [Last(block).(end := distance)]
    ensures IsNight(p) && transitioningFrom != 0 && transitioningFrom != p.time.date ==>
      block' == block[..|block| - 1] + [Last(block).(newDay := p.time.date), NightBlock(Last(block).end, distance, 0)]
    ensures |block'| > 0 ==> block'[0].start == if |block| > 0 then block[0].start else distance
    ensures NightBlocksOrdered(block) && (|block| > 0 ==> Last(block).end <= distance) ==> NightBlocksOrdered(block')
  {
    block', transitioningFrom' := block, transitioningFrom;
    if IsNight(p) {
      if transitioningFrom != 0 {
        if transitioningFrom != p.time.date {
          var n := |block'|;
          block' := block'[..n - 1] + [block'[n - 1].(newDay := p.time.date)];
          transitioningFrom' := p.time.date;
          block' := block' + [NightBlock(block'[n - 1].end, distance, 0)];
        }
        block' := block'[..|block'| - 1] + [block'[|block'| - 1].(end := distance)];
      } else {
        transitioningFrom' := p.time.date;
        block' := block' + [NightBlock(distance, distance, 0)];
      }
    } else if transitioningFrom != 0 {
      transitioningFrom' := 0;
    }
  }

  /**
   * Lines 92-125 for one day: walks its points from the distance where the previous
   * day's month stripe ended, stretching and starting month stripes and collecting the
   * day's night blocks.
   */
  method ScanDay(points: seq<Point>, months: seq<Month>, distance: real)
    returns (months': seq<Month>, block: seq<NightBlock>)
    requires |months| > 0
    ensures |months'| > 0
    ensures Indices(months') == Indices(months) + MonthChanges(Last(months).index, points)
    ensures Last(months').index == MonthAfter(Last(months).index, points)
    ensures months'[0].index == months[0].index && months'[0].start == months[0].start
    ensures |block| <= NightCount(points)
    ensures Last(months').end == if |points| == 0 then Last(months).end else distance + DistanceSum(points)
    ensures Contiguous(months) ==> Contiguous(months')
    ensures NonNegativeDistances(points) && Forward(months) && Last(months).start <= distance ==> Forward(months')
    ensures NonNegativeDistances(points) ==>
      NightBlocksOrdered(block) && BlocksWithin(block, distance, distance + DistanceSum(points))
  {
    months' := months;
    block := [];
    var parsingDistance := distance;
    var transitioningFrom := 0;
    for j := 0 to |points|
      invariant ScanSoFar(points, months, distance, j, months', block, parsingDistance, transitioningFrom)
    {
      months', block, parsingDistance, transitioningFrom :=
        ScanPoint(points, months, distance, j, months', block, parsingDistance, transitioningFrom);
    }
    assert points[..|points|] == points;
  }

  /** What the scan of a day has built after its first `j` points. */
  ghost predicate ScanSoFar(points: seq<Point>, months: seq<Month>, distance: real, j: nat,
                            months': seq<Month>, block: seq<NightBlock>, parsingDistance: real, transitioningFrom: int)
    requires |months| > 0 && j <= |points|
  {
    var current := Last(months).index;
    && |months'| > 0
    && Indices(months') == Indices(months) + MonthChanges(current, points[..j])
    && Last(months').index == MonthAfter(current, points[..j])
    && months'[0].index == months[0].index && months'[0].start == months[0].start
    && |block| <= NightCount(points[..j])
    && (transitioningFrom != 0 ==> |block| > 0)
    && parsingDistance == distance + DistanceSum(points[..j])
    && Last(months').end == (if j == 0 then Last(months).end else parsingDistance)
    && (Contiguous(months) ==> Contiguous(months'))
    && (NonNegativeDistances(points) ==>
          distance <= parsingDistance && NightBlocksOrdered(block) && BlocksWithin(block, distance, parsingDistance))
    && (NonNegativeDistances(points) && Forward(months) && Last(months).start <= distance ==>
          Forward(months') && Last(months').start <= parsingDistance)
  }

  /** Lines 96-124: one point of the day's scan. */
  method ScanPoint(points: seq<Point>, months: seq<Month>, distance: real, j: nat,
                   months': seq<Month>, block: seq<NightBlock>, parsingDistance: real, transitioningFrom: int)
    returns (months'': seq<Month>, block': seq<NightBlock>, parsingDistance': real, transitioningFrom': int)
    requires |months| > 0 && j < |points|
    requires ScanSoFar(points, months, distance, j, months', block, parsingDistance, transitioningFrom)
    ensures ScanSoFar(points, months, distance, j + 1, months'', block', parsingDistance', transitioningFrom')
  {
    var current := Last(months).index;
    assert points[..j + 1][..j] == points[..j];
    var month := points[j].time.month;
    var entered := if month != MonthAfter(current, points[..j]) then [month] else [];
    assert MonthChanges(current, points[..j + 1]) == MonthChanges(current, points[..j]) + entered;
    parsingDistance' := parsingDistance + points[j].distance;
    months'' := NoteMonth(months', parsingDistance', month);
    assert Indices(months'') == Indices(months') + entered;
    assert Indices(months'') == Indices(months) + (MonthChanges(current, points[..j]) + entered);
    block', transitioningFrom' := NoteNight(block, transitioningFrom, parsingDistance', points[j]);
  }

  /**
   * `additionalMetadata` (lines 78-138): nothing for an empty trail; otherwise month
   * stripes from distance 0 in the first point's month, one entry per change of month
   * along the trail, each ending where the next starts, and one list of night blocks
   * per day. Each stripe is stretched two extra units over a rest day and one unit over
   * each night. With non-negative point distances the night blocks of each day run
   * forward in order; on an assembled trail the stripes run forward too, each day's
   * blocks lie within the stretch its points cover, and the last stripe ends at the
   * total length, or 1 (3 after a single point) beyond it while the last day is open.
   */
  method AdditionalMetadata(days: seq<Day>, totalLength: real) returns (months: seq<Month>, nightBlocks: seq<seq<NightBlock>>)
    requires totalLength != 0.0 ==> |days| > 0 && |days[0].points| > 0
    ensures totalLength == 0.0 ==> months == [] && nightBlocks == []
    ensures totalLength != 0.0 ==>
      var first := days[0].points[0].time.month;
      && |months| > 0 && months[0].index == first && months[0].start == 0.0
      && Indices(months) == [first] + MonthChanges(first, AllPoints(days))
      && AdjacentDiffer(Indices(months))
      && Contiguous(months)
    ensures totalLength != 0.0 ==>
      |nightBlocks| == |days| && forall d :: 0 <= d < |days| ==> |nightBlocks[d]| <= NightCount(days[d].points)
    ensures totalLength != 0.0 && TrailDistancesNonNegative(days) ==>
      forall d :: 0 <= d < |days| ==> NightBlocksOrdered(nightBlocks[d])
    ensures totalLength != 0.0 && Laid(days, totalLength) ==>
      && |Last(days).points| > 0
      && Forward(months)
      && Last(months).end == totalLength + LastStretch(Last(days))
      && DaysBlocksWithin(days, nightBlocks, |days|)
  {
    if totalLength == 0.0 {
      return [], [];
    }
    var first := days[0].points[0].time.month;
    months, nightBlocks := MetadataOverDays(days, totalLength, first);
    MetadataComplete(days, totalLength, first, months, nightBlocks);
    if Laid(days, totalLength) {
      LaidAtEnd(days, totalLength, months, nightBlocks);
    }
  }

  /** Lines 83-137: the stripes start in the first point's month at 0 and grow day by day. */
  method MetadataOverDays(days: seq<Day>, totalLength: real, first: int)
    returns (months: seq<Month>, nightBlocks: seq<seq<NightBlock>>)
    ensures MetadataSoFar(days, totalLength, |days|, first, months, nightBlocks)
  {
    months := [Month(first, 0.0, 0.0)];
    nightBlocks := [];
    assert Indices(months) == [first];
    for d := 0 to |days|
      invariant MetadataSoFar(days, totalLength, d, first, months, nightBlocks)
    {
      months, nightBlocks := AddDayMetadata(days, totalLength, d, first, months, nightBlocks);
    }
  }

  /** The invariant over every day gives what `additionalMetadata` promises. */
  lemma MetadataComplete(days: seq<Day>, totalLength: real, first: int, months: seq<Month>,
                         nightBlocks: seq<seq<NightBlock>>)
    requires MetadataSoFar(days, totalLength, |days|, first, months, nightBlocks)
    ensures && |months| > 0 && months[0].index == first && months[0].start == 0.0
            && Indices(months) == [first] + MonthChanges(first, AllPoints(days))
            && AdjacentDiffer(Indices(months))
            && Contiguous(months)
    ensures |nightBlocks| == |days| && forall d :: 0 <= d < |days| ==> |nightBlocks[d]| <= NightCount(days[d].points)
    ensures TrailDistancesNonNegative(days) ==> forall d :: 0 <= d < |days| ==> NightBlocksOrdered(nightBlocks[d])
  {
    assert days[..|days|] == days;
    MonthChangesDiffer(first, AllPoints(days));
  }

  /** An assembled trail whose points all carry non-negative distances. */
  ghost predicate Laid(days: seq<Day>, totalLength: real) {
    WellFormedTrail(days, totalLength) && TrailDistancesNonNegative(days)
  }

  /** How far the last stripe runs on past the last point of a day: 3 after a single point, else 1. */
  function Stretch(day: Day): real {
    if |day.points| == 1 then 3.0 else 1.0
  }

  /** How far the stripes run past the total length: nothing after a closed last day, else its stretch. */
  function LastStretch(day: Day): real
    requires |day.points| > 0
  {
    if Last(day.points).isEndOfDay then 0.0 else Stretch(day)
  }

  /** Where the last stripe ends after `d` days of an assembled trail. */
  function ReachedAfter(days: seq<Day>, d: nat): real
    requires d <= |days|
  {
    if d == 0 then 0.0 else days[d - 1].start + DistanceSum(days[d - 1].points) + Stretch(days[d - 1])
  }

  /** The month stripes and night blocks after the first `d` days. */
  ghost predicate MetadataSoFar(days: seq<Day>, totalLength: real, d: nat, first: int, months: seq<Month>,
                                nightBlocks: seq<seq<NightBlock>>)
    requires d <= |days|
  {
    && MonthsSoFar(days, d, first, months)
    && BlocksSoFar(days, d, nightBlocks)
    && (Laid(days, totalLength) ==> LaidSoFar(days, d, months, nightBlocks))
  }

  ghost predicate MonthsSoFar(days: seq<Day>, d: nat, first: int, months: seq<Month>)
    requires d <= |days|
  {
    && |months| > 0 && months[0].index == first && months[0].start == 0.0
    && Indices(months) == [first] + MonthChanges(first, AllPoints(days[..d]))
    && Last(months).index == MonthAfter(first, AllPoints(days[..d]))
    && Contiguous(months)
  }

  ghost predicate BlocksSoFar(days: seq<Day>, d: nat, nightBlocks: seq<seq<NightBlock>>)
    requires d <= |days|
  {
    && |nightBlocks| == d
    && (forall k :: 0 <= k < d ==> |nightBlocks[k]| <= NightCount(days[k].points))
    && (TrailDistancesNonNegative(days) ==> forall k :: 0 <= k < d ==> NightBlocksOrdered(nightBlocks[k]))
  }

  ghost predicate LaidSoFar(days: seq<Day>, d: nat, months: seq<Month>, nightBlocks: seq<seq<NightBlock>>)
    requires d <= |days| && |months| > 0 && |nightBlocks| == d
  {
    && Forward(months)
    && Last(months).end == ReachedAfter(days, d)
    && DaysBlocksWithin(days, nightBlocks, d)
  }

  /** Lines 90-136 for day `d`: its points, its night blocks, and the stretch to the next day. */
  method AddDayMetadata(days: seq<Day>, totalLength: real, d: nat, first: int, months: seq<Month>,
                        nightBlocks: seq<seq<NightBlock>>)
    returns (months': seq<Month>, nightBlocks': seq<seq<NightBlock>>)
    requires d < |days| && MetadataSoFar(days, totalLength, d, first, months, nightBlocks)
    ensures MetadataSoFar(days, totalLength, d + 1, first, months', nightBlocks')
  {
    var parsingDistance := Last(months).end;
    var started := SetLastEnd(months, days[d].start);
    var scanned, block := ScanDay(days[d].points, started, parsingDistance);
    nightBlocks' := nightBlocks + [block];
    months' := StretchOverNight(scanned, |days[d].points| == 1);
    MonthsStep(days, d, first, months, started, scanned, months');
    BlocksStep(days, d, nightBlocks, block, nightBlocks');
    if Laid(days, totalLength) {
      ReachedIsStart(days, totalLength, d);
      assert NonNegativeDistances(days[d].points);
      LaidStep(days, d, months, nightBlocks, started, scanned, block, months', nightBlocks');
    }
  }

  /** Day `d`'s month changes extend the stripes of the earlier days, which stay contiguous. */
  lemma MonthsStep(days: seq<Day>, d: nat, first: int, months: seq<Month>, started: seq<Month>,
                   scanned: seq<Month>, months': seq<Month>)
    requires d < |days| && MonthsSoFar(days, d, first, months)
    requires started == SetLastEnd(months, days[d].start) && |scanned| > 0
    requires Indices(scanned) == Indices(started) + MonthChanges(Last(started).index, days[d].points)
    requires Last(scanned).index == MonthAfter(Last(started).index, days[d].points)
    requires scanned[0].index == started[0].index && scanned[0].start == started[0].start
    requires Contiguous(started) ==> Contiguous(scanned)
    requires months' == StretchOverNight(scanned, |days[d].points| == 1)
    ensures MonthsSoFar(days, d + 1, first, months')
  {
    AllPointsStep(days, d);
    MonthsAfterPoints(first, AllPoints(days[..d]), days[d].points, started, scanned);
  }

  /** Day `d`'s blocks, ordered when its distances are non-negative, join those of the earlier days. */
  lemma BlocksStep(days: seq<Day>, d: nat, nightBlocks: seq<seq<NightBlock>>, block: seq<NightBlock>,
                   nightBlocks': seq<seq<NightBlock>>)
    requires d < |days| && BlocksSoFar(days, d, nightBlocks)
    requires |block| <= NightCount(days[d].points)
    requires NonNegativeDistances(days[d].points) ==> NightBlocksOrdered(block)
    requires nightBlocks' == nightBlocks + [block]
    ensures BlocksSoFar(days, d + 1, nightBlocks')
  {
    assert forall k :: 0 <= k < d ==> nightBlocks'[k] == nightBlocks[k];
    if TrailDistancesNonNegative(days) {
      assert NonNegativeDistances(days[d].points);
    }
  }

  /** Once every day is laid out, the stripes end at the total length plus the open last day's stretch. */
  lemma LaidAtEnd(days: seq<Day>, totalLength: real, months: seq<Month>, nightBlocks: seq<seq<NightBlock>>)
    requires Laid(days, totalLength) && |months| > 0 && |nightBlocks| == |days|
    requires LaidSoFar(days, |days|, months, nightBlocks)
    ensures |Last(days).points| > 0
    ensures && Forward(months)
            && Last(months).end == totalLength + LastStretch(Last(days))
            && DaysBlocksWithin(days, nightBlocks, |days|)
  {
    ReachedAtEnd(days, totalLength);
  }

  /** Day `d` keeps the stripes running forward and its blocks within the stretch it covers. */
  lemma LaidStep(days: seq<Day>, d: nat, months: seq<Month>, nightBlocks: seq<seq<NightBlock>>,
                 started: seq<Month>, scanned: seq<Month>, block: seq<NightBlock>,
                 months': seq<Month>, nightBlocks': seq<seq<NightBlock>>)
    requires d < |days| && |months| > 0 && |nightBlocks| == d
    requires ReachedAfter(days, d) == days[d].start && |days[d].points| > 0
    requires NonNegativeDistances(days[d].points)
    requires LaidSoFar(days, d, months, nightBlocks)
    requires started == SetLastEnd(months, days[d].start) && |scanned| > 0
    requires var points := days[d].points;
      && Last(scanned).end == Last(months).end + DistanceSum(points)
      && (NonNegativeDistances(points) && Forward(started) && Last(started).start <= Last(months).end ==> Forward(scanned))
      && (NonNegativeDistances(points) ==>
            BlocksWithin(block, Last(months).end, Last(months).end + DistanceSum(points)))
    requires months' == StretchOverNight(scanned, |days[d].points| == 1)
    requires nightBlocks' == nightBlocks + [block]
    ensures LaidSoFar(days, d + 1, months', nightBlocks')
  {
    assert Forward(months') by {
      assert Last(months).start <= Last(months).end;
    }
    assert DaysBlocksWithin(days, nightBlocks', d + 1) by {
      forall k | 0 <= k < d + 1
        ensures BlocksWithin(nightBlocks'[k], days[k].start, days[k].start + DistanceSum(days[k].points))
      {
        if k < d {
          assert nightBlocks'[k] == nightBlocks[k];
        }
      }
    }
  }

  /** On an assembled trail, the stripes reach each day's start just as the day begins. */
  lemma ReachedIsStart(days: seq<Day>, totalLength: real, d: nat)
    requires Laid(days, totalLength) && d < |days|
    ensures ReachedAfter(days, d) == days[d].start && |days[d].points| > 0
  {
    if d > 0 {
      ClosedDayReach(days[d - 1]);
      assert StartsAfterNight(days, d);
    }
  }

  /** After a closed day the stripe has run one unit (the night) past the day's end. */
  lemma ClosedDayReach(day: Day)
    requires ClosedDay(day)
    ensures day.start + DistanceSum(day.points) + Stretch(day) == day.end + 1.0
  {
    if |day.points| > 1 {
      assert !day.points[0].isEndOfDay;
    }
  }

  /** After the last day the stripe ends at the total length plus the last day's stretch when it is open. */
  lemma ReachedAtEnd(days: seq<Day>, totalLength: real)
    requires Laid(days, totalLength)
    ensures |Last(days).points| > 0
    ensures ReachedAfter(days, |days|) == totalLength + LastStretch(Last(days))
  {
    var day := Last(days);
    if Last(day.points).isEndOfDay {
      assert !OpenDay(day);
      ClosedDayReach(day);
    } else {
      assert !ClosedDay(day);
    }
  }

  /** The month stripes after a further stretch of points follow the month changes of the whole walk. */
  lemma MonthsAfterPoints(first: int, walked: seq<Point>, points: seq<Point>, before: seq<Month>, after: seq<Month>)
    requires |before| > 0
    requires Indices(before) == [first] + MonthChanges(first, walked)
    requires Last(before).index == MonthAfter(first, walked)
    requires Indices(after) == Indices(before) + MonthChanges(Last(before).index, points)
    requires Last(after).index == MonthAfter(Last(before).index, points)
    ensures Indices(after) == [first] + MonthChanges(first, walked + points)
    ensures Last(after).index == MonthAfter(first, walked + points)
  {
    MonthChangesAppend(first, walked, points);
  }

  lemma AllPointsStep(days: seq<Day>, d: nat)
    requires d < |days|
    ensures AllPoints(days[..d + 1]) == AllPoints(days[..d]) + days[d].points
  {
    assert days[..d + 1][..d] == days[..d];
  }

  /**
   * Lines 134-135: the current stripe runs on over the rest period after a
   * single-point day (2 units) and over the night (1 unit).
   */
  function StretchOverNight(months: seq<Month>, rest: bool): (r: seq<Month>)
    requires |months| > 0
    ensures |r| == |months| && Indices(r) == Indices(months) && Last(r).index == Last(months).index
    ensures Last(r).end == Last(months).end + (if rest then 3.0 else 1.0)
    ensures r[0].index == months[0].index && r[0].start == months[0].start
    ensures Contiguous(months) ==> Contiguous(r)
    ensures Forward(months) ==> Forward(r)
  {
    var ms := if rest then SetLastEnd(months, Last(months).end + 2.0) else months;
    SetLastEnd(ms, Last(ms).end + 1.0)
  }

  // Elevation grid (lines 140-144 and 257-344)

  /** Highest elevation of a day's points, folded from 0. */
  function DayMaxElevation(ps: seq<Point>): (r: real)
    ensures r >= 0.0
    ensures forall i :: 0 <= i < |ps| ==> ps[i].elevation <= r
    ensures r == 0.0 || exists i :: 0 <= i < |ps| && ps[i].elevation == r
  {
    if |ps| == 0 then 0.0
    else
      var prev := DayMaxElevation(ps[..|ps| - 1]);
      var e := ps[|ps| - 1].elevation;
      assert forall i :: 0 <= i < |ps| - 1 ==> ps[i] == ps[..|ps| - 1][i];
      if e > prev then e else prev
  }

  /**
   * `maxHeight`: the highest elevation on the trail, or 0 when every point lies at or
   * below sea level (the folds start from 0).
   */
  function MaxHeight(days: seq<Day>): (r: real)
    ensures r >= 0.0
    ensures forall d, i :: 0 <= d < |days| && 0 <= i < |days[d].points| ==> days[d].points[i].elevation <= r
    ensures r == 0.0 || exists d, i :: 0 <= d < |days| && 0 <= i < |days[d].points| && days[d].points[i].elevation == r
  {
    if |days| == 0 then 0.0
    else
      var prev := MaxHeight(days[..|days| - 1]);
      var m := DayMaxElevation(days[|days| - 1].points);
      assert forall d :: 0 <= d < |days| - 1 ==> days[d] == days[..|days| - 1][d];
      if m > prev then m else prev
  }

  /** The entries of `hs` below `bound`, in order. */
  function Below(hs: seq<int>, bound: real): (r: seq<int>)
  {
    if |hs| == 0 then []
    else Below(hs[..|hs| - 1], bound) + (if (hs[|hs| - 1] as real) < bound then [hs[|hs| - 1]] else [])
  }

  lemma {:induction false} BelowExact(hs: seq<int>, bound: real, h: int)
    ensures h in Below(hs, bound) <==> h in hs && (h as real) < bound
  {
    if |hs| > 0 {
      var before := hs[..|hs| - 1];
      BelowExact(before, bound, h);
      assert hs == before + [hs[|hs| - 1]];
    }
  }

  /**
   * `heightIndicators` (lines 257-312): a line at 0 and at every multiple of 500 below
   * `maxHeight + 500`, and a label at each of those multiples that lies below
   * `maxHeight`.
   */
  method HeightIndicators(maxHeight: real) returns (lines: seq<int>, labels: seq<int>)
    ensures |lines| > 0
    ensures forall k :: 0 <= k < |lines| ==> lines[k] == 500 * k
    ensures forall k :: 1 <= k < |lines| ==> (lines[k] as real) < maxHeight + 500.0
    ensures (500 * |lines|) as real >= maxHeight + 500.0
    ensures labels == Below(lines[1..], maxHeight)
  {
    lines := [0];
    labels := [];
    var height := 500;
    while (height as real) < maxHeight + 500.0
      invariant height == 500 * |lines| && |lines| > 0
      invariant forall k :: 0 <= k < |lines| ==> lines[k] == 500 * k
      invariant forall k :: 1 <= k < |lines| ==> (lines[k] as real) < maxHeight + 500.0
      invariant labels == Below(lines[1..], maxHeight)
      decreases (maxHeight + 500.0 - height as real).Floor
    {
      assert (lines + [height])[1..] == lines[1..] + [height];
      assert (lines[1..] + [height])[..|lines[1..]|] == lines[1..];
      lines := lines + [height];
      if (height as real) < maxHeight {
        labels := labels + [height];
      }
      height := height + 500;
    }
  }

  /** A dashed sub-line height: a positive multiple of 100 that is not a multiple of 500. */
  predicate SubLine(h: int) {
    h > 0 && h % 100 == 0 && h % 500 != 0
  }

  /**
   * `subHeightIndications` (lines 314-344): the dashed lines, at every multiple of 100
   * from 100 up to `maxHeight + 500` that is not a multiple of 500, in increasing order.
   */
  method SubHeightIndications(maxHeight: real) returns (heights: seq<int>)
    ensures forall k :: 0 <= k < |heights| ==> SubLine(heights[k]) && (heights[k] as real) < maxHeight + 500.0
    ensures forall k, l :: 0 <= k < l < |heights| ==> heights[k] < heights[l]
    ensures forall m :: SubLine(m) && (m as real) < maxHeight + 500.0 ==> m in heights
  {
    heights := [];
    var height := 100;
    while (height as real) < maxHeight + 500.0
      invariant SubLine(height)
      invariant forall k :: 0 <= k < |heights| ==> SubLine(heights[k]) && (heights[k] as real) < maxHeight + 500.0
      invariant forall k :: 0 <= k < |heights| ==> heights[k] < height
      invariant forall k, l :: 0 <= k < l < |heights| ==> heights[k] < heights[l]
      invariant forall m :: SubLine(m) && m < height ==> m in heights
      decreases (maxHeight + 500.0 - height as real).Floor
    {
      var next := height + 100;
      if next % 500 == 0 {
        next := next + 100;
      }
      SkipsOnlyMultiplesOf500(height, next);
      heights := heights + [height];
      height := next;
    }
  }

  lemma SkipsOnlyMultiplesOf500(height: int, next: int)
    requires SubLine(height)
    requires next == (if (height + 100) % 500 == 0 then height + 200 else height + 100)
    ensures SubLine(next)
    ensures forall m :: SubLine(m) && height < m ==> next <= m
  {
  }

  // What is drawn (lines 357-367 and 424-442)

  /** The graphics drawn: the coarsest level in full, and the stretch of the chosen finer level. */
  datatype Shown<T> = Shown(coarsest: seq<T>, finer: seq<T>)

  /**
   * `visibleTimeline` (lines 357-367): the coarsest level is always drawn; the level the
   * density selects is drawn as well when it is a finer one, restricted to the days from
   * one before the first visible day to one after the last.
   */
  function VisibleTimeline<T(==)>(levels: seq<seq<T>>, s: Selection): (r: Shown<T>)
    ensures |levels| > 0 ==> r.coarsest == levels[|levels| - 1]
    ensures |levels| == 0 ==> r == Shown([], [])
    ensures s.density >= |levels| - 1 ==> r.finer == []
    ensures s.density < |levels| - 1 ==> IsWindow(r.finer, levels[s.density], s.view.from.day - 1, s.view.to.day + 1)
  {
    if |levels| == 0 then Shown([], [])
    else
      var finer := if s.density < |levels| - 1
        then IndexWindow(levels[s.density], s.view.from.day - 1, s.view.to.day + 1)
        else [];
      Shown(levels[|levels| - 1], finer)
  }

  /** A month name placed along the visible stretch: left edge and width, as fractions of it. */
  datatype MonthLabel = MonthLabel(index: int, left: real, width: real)

  /**
   * `monthsLabels` (lines 424-442) for one month: none when the month lies wholly
   * before or after the view; otherwise its start and end as fractions of the view,
   * cut to [0, 1]: a month that began before the view is labelled from its left edge
   * and one that ends after it is labelled to its right edge.
   */
  function MonthLabelFor(m: Month, view: View): (r: Option<MonthLabel>)
    requires view.to.distance > view.from.distance
    ensures r.None? <==> m.end < view.from.distance || m.start > view.to.distance
    ensures r.Some? ==> r.value.index == m.index && 0.0 <= r.value.left && r.value.left + r.value.width <= 1.0
    ensures r.Some? && m.start <= m.end ==> r.value.width >= 0.0
    ensures r.Some? && view.from.distance <= m.start ==>
      view.from.distance + r.value.left * (view.to.distance - view.from.distance) == m.start
    ensures r.Some? && m.end <= view.to.distance ==>
      view.from.distance + (r.value.left + r.value.width) * (view.to.distance - view.from.distance) == m.end
    ensures r.Some? && m.start < view.from.distance ==> r.value.left == 0.0
    ensures r.Some? && m.end > view.to.distance ==> r.value.left + r.value.width == 1.0
  {
    if m.end < view.from.distance || m.start > view.to.distance then None
    else
      var viewWidth := view.to.distance - view.from.distance;
      var startFraction := (m.start - view.from.distance) / viewWidth;
      var endFraction := (m.end - view.from.distance) / viewWidth;
      var left := if startFraction > 0.0 then startFraction else 0.0;
      var right := if endFraction < 1.0 then endFraction else 1.0;
      FractionFacts(m.start, m.end, view.from.distance, view.to.distance);
      Some(MonthLabel(m.index, left, right - left))
  }

  lemma FractionFacts(start: real, end: real, from: real, to: real)
    requires to > from && end >= from && start <= to
    ensures (start - from) / (to - from) <= 1.0
    ensures (end - from) / (to - from) >= 0.0
    ensures start <= end ==> (start - from) / (to - from) <= (end - from) / (to - from)
    ensures from + (start - from) / (to - from) * (to - from) == start
    ensures from + (end - from) / (to - from) * (to - from) == end
    ensures (start - from) / (to - from) > 0.0 <==> start > from
    ensures (end - from) / (to - from) < 1.0 <==> end < to
  {
    var w := to - from;
    DivSelf(w);
    DivMonotone(start - from, w, w);
    DivMonotone(0.0, end - from, w);
    if start <= end {
      DivMonotone(start - from, end - from, w);
    }
    QuotientSign(start - from, w);
    QuotientSign(end - from, w);
  }




}
