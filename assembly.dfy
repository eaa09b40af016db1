/**
 * Day assembly (front-end/src/useTrailLoader.ts, the loop over the location
 * history): a time-ordered list of position records is folded into days. A day is
 * closed right after an end-of-day record (message type "OK"); a day whose first
 * record is end-of-day is a rest day and is two units long; every night between two
 * days adds one unit. At most one image is attached per record, to the current day
 * when it has the record's calendar date and to the previous day otherwise.
 *
 * The great-circle distance is a parameter `dist`; the remote queries are not part
 * of this model (the records and images are given in time order).
 */
module Assembly {
  import opened Util
  import opened Geometry
  import opened Trail

  /** One location-history record, with its time already zoned. */
  datatype Record = Record(
    id: string,
    time: Time,
    timezoneName: string,
    battery: string,
    elevation: real,
    pos: LatLng,
    messageType: string)

  datatype AssembledPath = AssembledPath(days: seq<Day>, totalLength: real)

  /**
   * The source indexes `days[days.length - 2]` when an image from another calendar
   * date precedes a record while only one day exists: in JavaScript that read throws,
   * and no path is produced.
   */
  datatype AssemblyError = NoPreviousDayForImage(recordIndex: nat, imageIndex: nat)

  datatype Outcome = Assembled(path: AssembledPath) | Failed(error: AssemblyError)

  predicate IsEndOfDay(r: Record) {
    r.messageType == "OK"
  }

  /**
   * Distance recorded on record `i`: zero at the first record and after an
   * end-of-day record, otherwise the distance from the previous record.
   */
  function Hop(records: seq<Record>, i: nat, dist: (LatLng, LatLng) -> real): real
    requires i < |records|
  {
    if i == 0 || IsEndOfDay(records[i - 1]) then 0.0 else dist(records[i].pos, records[i - 1].pos)
  }

  /** `lastLocation ? getDistanceFromLatLonInKm(pos, lastLocation) : 0`. */
  function DistanceFrom(lastLocation: Option<LatLng>, pos: LatLng, dist: (LatLng, LatLng) -> real): real {
    if lastLocation.Some? then dist(pos, lastLocation.value) else 0.0
  }

  /** Tracking the previous position as the loop does yields `Hop`. */
  lemma HopFromLastLocation(records: seq<Record>, i: nat, lastLocation: Option<LatLng>, dist: (LatLng, LatLng) -> real)
    requires i < |records|
    requires lastLocation == if i == 0 || IsEndOfDay(records[i - 1]) then None else Some(records[i - 1].pos)
    ensures DistanceFrom(lastLocation, records[i].pos, dist) == Hop(records, i, dist)
  {
  }

  function ToPoint(r: Record, distance: real): Point {
    Point(r.id, r.pos, r.elevation, distance, r.time, IsEndOfDay(r), r.battery, r.timezoneName)
  }

  /** The points the records become, in order. */
  function ExpectedPoints(records: seq<Record>, n: nat, dist: (LatLng, LatLng) -> real): (ps: seq<Point>)
    requires n <= |records|
    ensures |ps| == n
    ensures forall i {:trigger ps[i]} :: 0 <= i < n ==> ps[i] == ToPoint(records[i], Hop(records, i, dist))
  {
    if n == 0 then [] else ExpectedPoints(records, n - 1, dist) + [ToPoint(records[n - 1], Hop(records, n - 1, dist))]
  }

  /** Length a day occupies on the distance axis. */
  function Span(d: Day): real {
    DistanceSum(d.points) + (if d.isRest then 2.0 else 0.0)
  }

  /**
   * The box `extend` builds over a day's positions, one point at a time: empty for
   * no points, otherwise the least well-formed box holding every position.
   */
  function BoxOf(points: seq<Point>): (b: Box)
    ensures WellFormed(b)
    ensures b.Empty? <==> |points| == 0
  {
    if |points| == 0 then Empty else Extend(BoxOf(points[..|points| - 1]), Last(points).pos)
  }

  /** The box holds every position of the points. */
  lemma {:induction false} BoxOfHoldsAll(points: seq<Point>)
    ensures forall j :: 0 <= j < |points| ==> Contains(BoxOf(points), points[j].pos)
  {
    if |points| > 0 {
      var n := |points|;
      BoxOfHoldsAll(points[..n - 1]);
      forall j | 0 <= j < n - 1 ensures Contains(BoxOf(points), points[j].pos) {
        assert points[..n - 1][j] == points[j];
      }
    }
  }

  /** No smaller well-formed box holds every position of the points. */
  lemma {:induction false} BoxOfIsLeast(points: seq<Point>, o: Box)
    requires WellFormed(o) && forall j :: 0 <= j < |points| ==> Contains(o, points[j].pos)
    ensures ContainsBox(o, BoxOf(points))
  {
    if |points| > 0 {
      BoxOfIsLeast(points[..|points| - 1], o);
      ExtendIsLeast(BoxOf(points[..|points| - 1]), Last(points).pos, o);
    }
  }

  /** Every day's box is the one built over its points. */
  predicate BoxesFolded(days: seq<Day>) {
    forall k {:trigger BoxOf(days[k].points)} :: 0 <= k < |days| ==> days[k].box == BoxOf(days[k].points)
  }

  /** A day closed by an end-of-day point: only its last point is end-of-day. */
  predicate ClosedDay(d: Day) {
    && |d.points| > 0
    && Last(d.points).isEndOfDay
    && (forall j :: 0 <= j < |d.points| - 1 ==> !d.points[j].isEndOfDay)
    && d.points[0].distance == 0.0
    && d.isRest == d.points[0].isEndOfDay
    && d.end == d.start + Span(d)
  }

  /** The day still being filled: no end-of-day point yet. */
  predicate OpenDay(d: Day) {
    && (forall j :: 0 <= j < |d.points| ==> !d.points[j].isEndOfDay)
    && (|d.points| > 0 ==> d.points[0].distance == 0.0)
    && !d.isRest
    && d.end == d.start + Span(d)
  }

  /** The night unit that follows a day closed by an end-of-day point. */
  function NightAfter(d: Day): real {
    if |d.points| > 0 && d.points[|d.points| - 1].isEndOfDay then 1.0 else 0.0
  }

  /** Day 0 starts at 0 and each later day starts one unit (the night) after the previous end. */
  predicate Chained(days: seq<Day>) {
    && (|days| > 0 ==> days[0].start == 0.0)
    && (forall k :: 0 < k < |days| ==> StartsAfterNight(days, k))
  }

  predicate StartsAfterNight(days: seq<Day>, k: nat)
    requires 0 < k < |days|
  {
    days[k].start == days[k - 1].end + 1.0
  }

  /**
   * The shape of an assembled trail: no day is empty, every day but the last is
   * closed, only a day's last point can be end-of-day, every day's first point has
   * distance 0, a day is a rest day exactly when its first point is end-of-day, the
   * days are chained, and the total is the last day's end plus the night after it if
   * that day is closed.
   */
  predicate WellFormedTrail(days: seq<Day>, total: real) {
    && |days| > 0
    && Chained(days)
    && BoxesFolded(days)
    && (forall k :: 0 <= k < |days| - 1 ==> ClosedDay(days[k]))
    && (ClosedDay(Last(days)) || (OpenDay(Last(days)) && |Last(days).points| > 0))
    && total == Last(days).end + (if Last(Last(days).points).isEndOfDay then 1.0 else 0.0)
  }

  lemma AllPointsAppendToLast(days: seq<Day>, p: Point)
    requires |days| > 0
    ensures var d := Last(days);
      AllPoints(days[..|days| - 1] + [d.(points := d.points + [p])]) == AllPoints(days) + [p]
  {
    var d := Last(days);
    var days' := days[..|days| - 1] + [d.(points := d.points + [p])];
    assert days'[..|days'| - 1] == days[..|days| - 1];
  }

  lemma AllPointsAppendDay(days: seq<Day>, d: Day)
    ensures AllPoints(days + [d]) == AllPoints(days) + d.points
  {
    assert (days + [d])[..|days|] == days;
  }

  lemma AllImagesAppendDay(days: seq<Day>, d: Day)
    ensures AllImages(days + [d]) == AllImages(days) + d.images
  {
    assert (days + [d])[..|days|] == days;
  }

  lemma {:induction false} AllImagesAttach(days: seq<Day>, k: nat, im: Image)
    requires k < |days|
    ensures multiset(AllImages(days[k := days[k].(images := days[k].images + [im])]))
         == multiset(AllImages(days)) + multiset{im}
  {
    var days' := days[k := days[k].(images := days[k].images + [im])];
    var n := |days|;
    assert days'[..n - 1] == if k == n - 1 then days[..n - 1] else days[..n - 1][k := days[k].(images := days[k].images + [im])];
    if k < n - 1 {
      AllImagesAttach(days[..n - 1], k, im);
    }
  }

  lemma AllImagesReplaceLast(days: seq<Day>, d: Day)
    requires |days| > 0 && d.images == Last(days).images
    ensures AllImages(days[..|days| - 1] + [d]) == AllImages(days)
  {
    var days' := days[..|days| - 1] + [d];
    assert days'[..|days'| - 1] == days[..|days| - 1];
  }

  /**
   * What holds after the first `i` records have been folded into `days`: the days
   * hold the points of those records, all days but the last are closed, the last is
   * still open (and empty exactly after an end-of-day record) unless all records are
   * consumed, and the running total is the last day's end plus a night after a closed
   * day. While only one day exists, no end-of-day record before the last one has
   * been met.
   */
  predicate Folded(records: seq<Record>, i: nat, days: seq<Day>, total: real, dist: (LatLng, LatLng) -> real)
  {
    && i <= |records|
    && |days| > 0
    && AllPoints(days) == ExpectedPoints(records, i, dist)
    && Chained(days)
    && BoxesFolded(days)
    && (forall k {:trigger ClosedDay(days[k])} :: 0 <= k < |days| - 1 ==> ClosedDay(days[k]))
    && (i < |records| ==> OpenDay(Last(days)) && |days| == EndsBefore(records, i) + 1)
    && (i < |records| ==> (|Last(days).points| == 0 <==> (i == 0 || IsEndOfDay(records[i - 1]))))
    && (i == |records| ==> ClosedDay(Last(days)) || (OpenDay(Last(days)) && |Last(days).points| > 0))
    && total == Last(days).end + NightAfter(Last(days))
    && (|days| == 1 ==> forall k :: 0 <= k < i && k < |records| - 1 ==> !IsEndOfDay(records[k]))
  }

  /** Days that differ at most in their attached images. */
  predicate SameButImages(days: seq<Day>, days': seq<Day>) {
    |days| == |days'| && forall k :: 0 <= k < |days| ==> days'[k] == days[k].(images := days'[k].images)
  }

  lemma {:induction false} AllPointsIgnoresImages(days: seq<Day>, days': seq<Day>)
    requires SameButImages(days, days')
    ensures AllPoints(days') == AllPoints(days)
  {
    if |days| > 0 {
      AllPointsIgnoresImages(days[..|days| - 1], days'[..|days| - 1]);
    }
  }

  lemma FoldedIgnoresImages(records: seq<Record>, i: nat, days: seq<Day>, days': seq<Day>, total: real, dist: (LatLng, LatLng) -> real)
    requires Folded(records, i, days, total, dist)
    requires SameButImages(days, days')
    ensures Folded(records, i, days', total, dist)
  {
    AllPointsIgnoresImages(days, days');
    forall k | 0 <= k < |days|
      ensures ClosedDay(days'[k]) == ClosedDay(days[k]) && OpenDay(days'[k]) == OpenDay(days[k])
      ensures days'[k].points == days[k].points && days'[k].start == days[k].start && days'[k].end == days[k].end
    {
      DayShapeIgnoresImages(days[k], days'[k]);
    }
    forall k | 0 < k < |days'| ensures StartsAfterNight(days', k) {
      assert StartsAfterNight(days, k);
    }
  }

  lemma DayShapeIgnoresImages(d: Day, d': Day)
    requires d' == d.(images := d'.images)
    ensures ClosedDay(d') == ClosedDay(d) && OpenDay(d') == OpenDay(d)
    ensures d'.points == d.points && d'.start == d.start && d'.end == d.end
  {
  }

  /**
   * Appending a record's point to the open day: the day stays open, or becomes
   * closed when the point is end-of-day, provided its length grows by the point's
   * distance (plus two for a rest day).
   */
  lemma GrowDay(day: Day, point: Point, isRest: bool, end: real, box: Box)
    requires OpenDay(day)
    requires |day.points| == 0 ==> point.distance == 0.0
    requires isRest == (point.isEndOfDay && |day.points| == 0)
    requires end == day.end + point.distance + (if isRest then 2.0 else 0.0)
    requires box == Extend(day.box, point.pos)
    ensures var d := day.(points := day.points + [point], end := end, isRest := isRest, box := box);
      (point.isEndOfDay ==> ClosedDay(d)) && (!point.isEndOfDay ==> OpenDay(d))
  {
    DistanceSumAppend(day.points, point);
    assert (day.points + [point])[..|day.points|] == day.points;
  }

  lemma ChainedReplaceLast(days: seq<Day>, d: Day)
    requires |days| > 0 && Chained(days) && d.start == Last(days).start
    ensures Chained(days[..|days| - 1] + [d])
  {
    var days' := days[..|days| - 1] + [d];
    forall k | 0 < k < |days'| ensures StartsAfterNight(days', k) {
      assert StartsAfterNight(days, k);
    }
  }

  lemma BoxesFoldedReplaceLast(days: seq<Day>, d: Day)
    requires |days| > 0 && BoxesFolded(days) && d.box == BoxOf(d.points)
    ensures BoxesFolded(days[..|days| - 1] + [d])
  {
    var days' := days[..|days| - 1] + [d];
    forall k | 0 <= k < |days'| ensures days'[k].box == BoxOf(days'[k].points) {
      if k < |days| - 1 {
        assert days'[k] == days[k];
      }
    }
  }

  lemma ChainedAppend(days: seq<Day>, d: Day)
    requires |days| > 0 && Chained(days) && d.start == Last(days).end + 1.0
    ensures Chained(days + [d])
  {
    var days' := days + [d];
    forall k | 0 < k < |days'| ensures StartsAfterNight(days', k) {
      if k < |days| {
        assert StartsAfterNight(days, k);
      }
    }
  }

  /**
   * The state between the two halves of a loop pass: record `i` is the last point of
   * the last day, which is closed exactly when the record is end-of-day, and the
   * total is that day's end (no night added yet).
   */
  predicate PointAdded(records: seq<Record>, i: nat, days: seq<Day>, total: real, dist: (LatLng, LatLng) -> real)
  {
    && i < |records|
    && |days| > 0
    && AllPoints(days) == ExpectedPoints(records, i + 1, dist)
    && Chained(days)
    && BoxesFolded(days)
    && (forall k :: 0 <= k < |days| - 1 ==> ClosedDay(days[k]))
    && |Last(days).points| > 0
    && (if IsEndOfDay(records[i]) then ClosedDay(Last(days)) else OpenDay(Last(days)))
    && |days| == EndsBefore(records, i) + 1
    && total == Last(days).end
    && (|days| == 1 ==> forall k :: 0 <= k < i && k < |records| - 1 ==> !IsEndOfDay(records[k]))
  }

  /**
   * Lines 126-152 of the loop: the record becomes the last point of the current day;
   * an end-of-day record on an empty day makes it a rest day two units long; the
   * day's end becomes the running total and its box grows to hold the position.
   */
  method AddPoint(records: seq<Record>, i: nat, days: seq<Day>, totalLength: real, distance: real,
                  dist: (LatLng, LatLng) -> real)
    returns (days': seq<Day>, totalLength': real)
    requires i < |records|
    requires Folded(records, i, days, totalLength, dist)
    requires distance == Hop(records, i, dist)
    ensures PointAdded(records, i, days', totalLength', dist)
    ensures AllImages(days') == AllImages(days)
    ensures |days'| == |days| && forall k :: 0 <= k < |days| ==> days'[k].images == days[k].images
  {
    var record := records[i];
    var isEndOfDay := IsEndOfDay(record);
    totalLength' := totalLength + distance;
    var day := Last(days);
    var point := ToPoint(record, distance);
    var isRest := day.isRest;
    if isEndOfDay {
      if |day.points| == 0 {
        totalLength' := totalLength' + 2.0;
        isRest := true;
      }
    }
    GrowDay(day, point, isRest, totalLength', Extend(day.box, record.pos));
    AllPointsAppendToLast(days, point);
    var day' := day.(points := day.points + [point], end := totalLength', isRest := isRest, box := Extend(day.box, record.pos));
    AllImagesReplaceLast(days, day');
    ChainedReplaceLast(days, day');
    assert day.box == BoxOf(day.points);
    assert (day.points + [point])[..|day.points|] == day.points;
    BoxesFoldedReplaceLast(days, day');
    days' := days[..|days| - 1] + [day'];
    assert Last(days') == day';
    assert ExpectedPoints(records, i + 1, dist) == ExpectedPoints(records, i, dist) + [point];
    assert forall k :: 0 <= k < |days'| - 1 ==> days'[k] == days[k];
  }

  /**
   * Lines 154-164 of the loop: after an end-of-day record the night adds one unit
   * and, unless it was the last record, a new empty day opens at the new total.
   */
  method EndDay(records: seq<Record>, i: nat, days: seq<Day>, totalLength: real, dist: (LatLng, LatLng) -> real)
    returns (days': seq<Day>, totalLength': real)
    requires PointAdded(records, i, days, totalLength, dist)
    ensures Folded(records, i + 1, days', totalLength', dist)
    ensures AllImages(days') == AllImages(days)
    ensures |days| <= |days'| && forall k :: 0 <= k < |days| ==> days'[k].images == days[k].images
    ensures forall k :: |days| <= k < |days'| ==> days'[k].images == []
  {
    var isEndOfDay := IsEndOfDay(records[i]);
    if isEndOfDay && i < |records| - 1 {
      totalLength' := totalLength + 1.0;
      var newDay := Day([], totalLength', totalLength', false, Empty, []);
      AllImagesAppendDay(days, newDay);
      NextDayOpened(records, i, days, totalLength, dist, newDay);
      days' := days + [newDay];
    } else {
      days' := days;
      totalLength' := if isEndOfDay then totalLength + 1.0 else totalLength;
      DayKept(records, i, days, totalLength, dist);
    }
  }

  /** A night ending before the last record opens an empty day one unit after the closed one. */
  lemma NextDayOpened(records: seq<Record>, i: nat, days: seq<Day>, total: real, dist: (LatLng, LatLng) -> real, newDay: Day)
    requires PointAdded(records, i, days, total, dist)
    requires IsEndOfDay(records[i]) && i < |records| - 1
    requires newDay == Day([], total + 1.0, total + 1.0, false, Empty, [])
    ensures Folded(records, i + 1, days + [newDay], total + 1.0, dist)
  {
    AllPointsAppendDay(days, newDay);
    ChainedAppend(days, newDay);
    var days' := days + [newDay];
    assert Last(days') == newDay;
    assert forall k :: 0 <= k < |days'| - 1 ==> days'[k] == days[k];
  }

  /** Otherwise the day stays the last one: open after an ordinary record, closed (with its night) after the last. */
  lemma DayKept(records: seq<Record>, i: nat, days: seq<Day>, total: real, dist: (LatLng, LatLng) -> real)
    requires PointAdded(records, i, days, total, dist)
    requires !(IsEndOfDay(records[i]) && i < |records| - 1)
    ensures Folded(records, i + 1, days, if IsEndOfDay(records[i]) then total + 1.0 else total, dist)
  {
  }

  /** How many of the first `i` records end a day: the index of the day record `i` joins. */
  function EndsBefore(records: seq<Record>, i: nat): nat
    requires i <= |records|
  {
    if i == 0 then 0 else EndsBefore(records, i - 1) + (if IsEndOfDay(records[i - 1]) then 1 else 0)
  }

  /**
   * Where the loop files the images after the first `n` records, as a reference: the
   * day index of each image taken so far, in input order. Reaching record `i`, the next
   * image is taken when it is older than the record; it goes to the record's day when
   * it has the record's calendar date and to the day before otherwise; with no day
   * before, there is no result (the source throws). At most one image per record is
   * taken, and never one to a day after the record's.
   */
  function Placements(records: seq<Record>, images: seq<Image>, n: nat): (p: Option<seq<nat>>)
    requires n <= |records|
    ensures p.Some? ==> |p.value| <= n && |p.value| <= |images|
    ensures p.Some? ==> forall j :: 0 <= j < |p.value| ==> p.value[j] <= EndsBefore(records, n)
  {
    if n == 0 then Some([])
    else
      match Placements(records, images, n - 1)
      case None => None
      case Some(placed) =>
        var t := |placed|;
        var r := records[n - 1];
        var day := EndsBefore(records, n - 1);
        if t < |images| && images[t].time.timestamp < r.time.timestamp then
          if images[t].time.dateKey == r.time.dateKey then Some(placed + [day])
          else if day == 0 then None
          else Some(placed + [day - 1])
        else Some(placed)
  }

  /** Once no placement exists, none exists for more records either. */
  lemma {:induction false} PlacementsStayFailed(records: seq<Record>, images: seq<Image>, n: nat, m: nat)
    requires n <= m <= |records| && Placements(records, images, n).None?
    ensures Placements(records, images, m).None?
  {
    if n < m {
      PlacementsStayFailed(records, images, n, m - 1);
    }
  }

  /**
   * A failure is exactly the case `NoPreviousDay` names: the placement fails at record
   * `i` only when no end-of-day record precedes it and the next image is older with
   * another date.
   */
  lemma PlacementFailure(records: seq<Record>, images: seq<Image>, i: nat)
    requires i < |records| && Placements(records, images, i).Some?
    requires Placements(records, images, i + 1).None?
    ensures |Placements(records, images, i).value| <= i
    ensures NoPreviousDay(records, images, i, |Placements(records, images, i).value|)
  {
    NoEndsBefore(records, i);
  }

  lemma {:induction false} NoEndsBefore(records: seq<Record>, i: nat)
    requires i <= |records| && EndsBefore(records, i) == 0
    ensures forall k :: 0 <= k < i ==> !IsEndOfDay(records[k])
  {
    if i > 0 {
      NoEndsBefore(records, i - 1);
    }
  }

  /** The images filed on day `k`, in the order they are placed. */
  function Filed(images: seq<Image>, placed: seq<nat>, k: nat): (r: seq<Image>)
    requires |placed| <= |images|
    ensures |r| <= |placed|
  {
    if |placed| == 0 then []
    else Filed(images, placed[..|placed| - 1], k) + (if Last(placed) == k then [images[|placed| - 1]] else [])
  }

  lemma {:induction false} FiledNowhere(images: seq<Image>, placed: seq<nat>, k: nat)
    requires |placed| <= |images| && forall j :: 0 <= j < |placed| ==> placed[j] < k
    ensures Filed(images, placed, k) == []
  {
    if |placed| > 0 {
      FiledNowhere(images, placed[..|placed| - 1], k);
    }
  }

  /** Each day holds exactly the images filed on it. */
  ghost predicate PhotosFiled(days: seq<Day>, images: seq<Image>, placed: seq<nat>) {
    && |placed| <= |images|
    && (forall j :: 0 <= j < |placed| ==> placed[j] < |days|)
    && forall k {:trigger Filed(images, placed, k)} :: 0 <= k < |days| ==> days[k].images == Filed(images, placed, k)
  }

  /** Filing the next image on day `target` adds it to the end of that day's images only. */
  lemma FileNext(days: seq<Day>, images: seq<Image>, placed: seq<nat>, target: nat)
    requires PhotosFiled(days, images, placed) && |placed| < |images| && target < |days|
    ensures var days' := days[target := days[target].(images := days[target].images + [images[|placed|]])];
      PhotosFiled(days', images, placed + [target])
  {
    assert (placed + [target])[..|placed|] == placed;
  }

  /** Days that keep their images, plus new days without any, keep the filing. */
  lemma FiledKept(days: seq<Day>, days': seq<Day>, images: seq<Image>, placed: seq<nat>)
    requires PhotosFiled(days, images, placed) && |days| <= |days'|
    requires forall k :: 0 <= k < |days| ==> days'[k].images == days[k].images
    requires forall k :: |days| <= k < |days'| ==> days'[k].images == []
    ensures PhotosFiled(days', images, placed)
  {
    forall k | |days| <= k < |days'| ensures days'[k].images == Filed(images, placed, k) {
      FiledNowhere(images, placed, k);
    }
  }

  /**
   * What a failure means: image `j`, taken before record `i` but on another calendar
   * date, would go to the previous day while no end-of-day record has yet closed
   * the first day.
   */
  predicate NoPreviousDay(records: seq<Record>, images: seq<Image>, i: nat, j: nat) {
    && j <= i < |records| && j < |images|
    && (forall k :: 0 <= k < i ==> !IsEndOfDay(records[k]))
    && images[j].time.timestamp < records[i].time.timestamp
    && images[j].time.dateKey != records[i].time.dateKey
  }

  /**
   * The images attached so far are, counted with multiplicity, the first `taken`
   * input images.
   */
  ghost predicate ImagesTaken(days: seq<Day>, images: seq<Image>, taken: nat) {
    && taken <= |images|
    && |AllImages(days)| == taken
    && forall im :: DayCount(days, im) == PrefixCount(images, taken, im)
  }

  lemma ImagesTakenKept(days: seq<Day>, days': seq<Day>, images: seq<Image>, taken: nat)
    requires ImagesTaken(days, images, taken) && AllImages(days') == AllImages(days)
    ensures ImagesTaken(days', images, taken)
  {
    forall im ensures DayCount(days', im) == DayCount(days, im) {
      DayCountIsMultiplicity(days, im);
      DayCountIsMultiplicity(days', im);
    }
  }

  /** How many times `im` is attached to the days. */
  function DayCount(days: seq<Day>, im: Image): nat {
    if |days| == 0 then 0 else DayCount(days[..|days| - 1], im) + multiset(days[|days| - 1].images)[im]
  }

  /** How many times `im` occurs among the first `n` images. */
  function PrefixCount(images: seq<Image>, n: nat, im: Image): nat
    requires n <= |images|
  {
    if n == 0 then 0 else PrefixCount(images, n - 1, im) + (if images[n - 1] == im then 1 else 0)
  }

  lemma {:induction false} DayCountIsMultiplicity(days: seq<Day>, im: Image)
    ensures DayCount(days, im) == multiset(AllImages(days))[im]
  {
    if |days| > 0 {
      DayCountIsMultiplicity(days[..|days| - 1], im);
    }
  }

  lemma {:induction false} PrefixCountIsMultiplicity(images: seq<Image>, n: nat, im: Image)
    requires n <= |images|
    ensures PrefixCount(images, n, im) == multiset(images[..n])[im]
  {
    if n > 0 {
      PrefixCountIsMultiplicity(images, n - 1, im);
      assert images[..n] == images[..n - 1] + [images[n - 1]];
    }
  }

  /** Attaching the next input image to any day keeps the images taken in input order. */
  lemma AttachNext(days: seq<Day>, target: nat, images: seq<Image>, taken: nat)
    requires target < |days| && taken < |images|
    requires ImagesTaken(days, images, taken)
    ensures var days' := days[target := days[target].(images := days[target].images + [images[taken]])];
      SameButImages(days, days') && ImagesTaken(days', images, taken + 1)
  {
    var image := images[taken];
    var days' := days[target := days[target].(images := days[target].images + [image])];
    AllImagesLength(days, target, image);
    forall im ensures DayCount(days', im) == PrefixCount(images, taken + 1, im) {
      DayCountAttach(days, target, image, im);
    }
  }

  lemma DayCountAttach(days: seq<Day>, target: nat, image: Image, im: Image)
    requires target < |days|
    ensures DayCount(days[target := days[target].(images := days[target].images + [image])], im)
      == DayCount(days, im) + (if image == im then 1 else 0)
  {
    AllImagesAttach(days, target, image);
    DayCountIsMultiplicity(days, im);
    DayCountIsMultiplicity(days[target := days[target].(images := days[target].images + [image])], im);
  }

  lemma AllImagesLength(days: seq<Day>, target: nat, image: Image)
    requires target < |days|
    ensures |AllImages(days[target := days[target].(images := days[target].images + [image])])| == |AllImages(days)| + 1
  {
    AllImagesAttach(days, target, image);
    var days' := days[target := days[target].(images := days[target].images + [image])];
    assert |multiset(AllImages(days'))| == |multiset(AllImages(days))| + 1;
  }

  /**
   * Lines 114-124: when the next image is older than record `i`, it is attached to the
   * last day if it has the record's calendar date and to the day before otherwise, and
   * the image index moves on; with a single day the second case fails.
   */
  method TakeImage(records: seq<Record>, i: nat, images: seq<Image>, imageIndex: nat, days: seq<Day>)
    returns (failed: bool, days': seq<Day>, imageIndex': nat)
    requires i < |records| && imageIndex <= i && |days| > 0
    requires |days| == 1 ==> forall k :: 0 <= k < i ==> !IsEndOfDay(records[k])
    requires ImagesTaken(days, images, imageIndex)
    ensures var taken := imageIndex < |images| && images[imageIndex].time.timestamp < records[i].time.timestamp;
      var sameDate := taken && images[imageIndex].time.dateKey == records[i].time.dateKey;
      && (failed <==> taken && !sameDate && |days| == 1)
      && (!failed && !taken ==> days' == days && imageIndex' == imageIndex)
      && (!failed && taken ==>
            var target := if sameDate then |days| - 1 else |days| - 2;
            days' == days[target := days[target].(images := days[target].images + [images[imageIndex]])]
            && imageIndex' == imageIndex + 1)
    ensures failed ==> imageIndex' == imageIndex && NoPreviousDay(records, images, i, imageIndex)
    ensures !failed ==>
      && SameButImages(days, days')
      && imageIndex <= imageIndex' <= imageIndex + 1
      && ImagesTaken(days', images, imageIndex')
  {
    failed, days', imageIndex' := false, days, imageIndex;
    var record := records[i];
    if imageIndex < |images| {
      var image := images[imageIndex];
      if image.time.timestamp < record.time.timestamp {
        var target := |days| - 1;
        if image.time.dateKey != record.time.dateKey {
          if |days| < 2 {
            return true, days, imageIndex;
          }
          target := |days| - 2;
        }
        days' := days[target := days[target].(images := days[target].images + [image])];
        imageIndex' := imageIndex + 1;
        AttachNext(days, target, images, imageIndex);
      }
    }
  }

  /** The images TakeImage attaches are those the reference places for record `i`. */
  lemma PlacementAdvanced(records: seq<Record>, images: seq<Image>, i: nat, days: seq<Day>, imageIndex: nat,
                          days': seq<Day>, imageIndex': nat)
    requires i < |records| && |days| == EndsBefore(records, i) + 1
    requires Placements(records, images, i).Some? && |Placements(records, images, i).value| == imageIndex
    requires PhotosFiled(days, images, Placements(records, images, i).value)
    requires var taken := imageIndex < |images| && images[imageIndex].time.timestamp < records[i].time.timestamp;
      var sameDate := taken && images[imageIndex].time.dateKey == records[i].time.dateKey;
      && !(taken && !sameDate && |days| == 1)
      && (!taken ==> days' == days && imageIndex' == imageIndex)
      && (taken ==>
            var target := if sameDate then |days| - 1 else |days| - 2;
            days' == days[target := days[target].(images := days[target].images + [images[imageIndex]])]
            && imageIndex' == imageIndex + 1)
    ensures Placements(records, images, i + 1).Some?
    ensures |Placements(records, images, i + 1).value| == imageIndex'
    ensures PhotosFiled(days', images, Placements(records, images, i + 1).value)
  {
    var placed := Placements(records, images, i).value;
    if imageIndex < |images| && images[imageIndex].time.timestamp < records[i].time.timestamp {
      var target := if images[imageIndex].time.dateKey == records[i].time.dateKey then |days| - 1 else |days| - 2;
      FileNext(days, images, placed, target);
    }
  }

  /** The variables the assembly loop carries from one record to the next (lines 85-101). */
  datatype LoopVars = LoopVars(days: seq<Day>, totalLength: real, lastLocation: Option<LatLng>, imageIndex: nat)

  /**
   * The state of the assembly loop after `i` records: the days so far, the running
   * total, the previous position (none at the start and after an end-of-day record)
   * and the number of images taken.
   */
  ghost predicate LoopState(records: seq<Record>, images: seq<Image>, i: nat, vars: LoopVars, dist: (LatLng, LatLng) -> real)
  {
    match vars
    case LoopVars(days, total, lastLocation, imageIndex) =>
      && Folded(records, i, days, total, dist)
      && (i < |records| ==> lastLocation == if i == 0 || IsEndOfDay(records[i - 1]) then None else Some(records[i - 1].pos))
      && imageIndex <= i
      && ImagesTaken(days, images, imageIndex)
      && Placements(records, images, i).Some?
      && |Placements(records, images, i).value| == imageIndex
      && PhotosFiled(days, images, Placements(records, images, i).value)
  }

  /** One pass of the loop body (lines 105-164) for record `i`. */
  method Step(records: seq<Record>, images: seq<Image>, i: nat, vars: LoopVars, dist: (LatLng, LatLng) -> real)
    returns (failed: bool, vars': LoopVars)
    requires i < |records|
    requires LoopState(records, images, i, vars, dist)
    ensures failed ==> vars' == vars && NoPreviousDay(records, images, i, vars.imageIndex)
    ensures failed <==> Placements(records, images, i + 1).None?
    ensures failed ==>
      && Placements(records, images, i).Some? && |Placements(records, images, i).value| == vars.imageIndex
      && Placements(records, images, |records|).None?
    ensures !failed ==> LoopState(records, images, i + 1, vars', dist)
  {
    var LoopVars(days, totalLength, lastLocation, imageIndex) := vars;
    var record := records[i];
    var distance := DistanceFrom(lastLocation, record.pos, dist);
    HopFromLastLocation(records, i, lastLocation, dist);
    var isEndOfDay := IsEndOfDay(record);

    var taken, imageIndex';
    failed, taken, imageIndex' := TakeImage(records, i, images, imageIndex, days);
    if failed {
      FailedAt(records, images, i);
      return failed, vars;
    }
    PlacementAdvanced(records, images, i, days, imageIndex, taken, imageIndex');
    FoldedIgnoresImages(records, i, days, taken, totalLength, dist);
    var added, addedTotal := AddPoint(records, i, taken, totalLength, distance, dist);
    var ended, endedTotal := EndDay(records, i, added, addedTotal, dist);
    ImagesTakenKept(taken, ended, images, imageIndex');
    FiledKept(taken, added, images, Placements(records, images, i + 1).value);
    FiledKept(added, ended, images, Placements(records, images, i + 1).value);
    vars' := LoopVars(ended, endedTotal, if isEndOfDay then None else Some(record.pos), imageIndex');
  }

  /**
   * The assembly loop. On success: no records give no days and length 0; otherwise
   * the days hold exactly the points the records become, in order, they are
   * well formed (each day's box built over its positions), and each day holds exactly
   * the images `Placements` files on it, which are the first images of the input, at
   * most one per record. The loop fails exactly when `Placements` has no result: at the
   * record where it first has none, with the JavaScript exception described on
   * `AssemblyError`.
   */
  method AssembleDays(records: seq<Record>, images: seq<Image>, dist: (LatLng, LatLng) -> real)
    returns (r: Outcome)
    ensures |records| == 0 ==> r == Assembled(AssembledPath([], 0.0))
    ensures r.Assembled? && |records| > 0 ==>
      && AllPoints(r.path.days) == ExpectedPoints(records, |records|, dist)
      && WellFormedTrail(r.path.days, r.path.totalLength)
      && |AllImages(r.path.days)| <= |records|
      && |AllImages(r.path.days)| <= |images|
      && multiset(AllImages(r.path.days)) == multiset(images[..|AllImages(r.path.days)|])
    ensures |images| == 0 ==> r.Assembled?
    ensures r.Failed? ==> NoPreviousDay(records, images, r.error.recordIndex, r.error.imageIndex)
    ensures r.Failed? <==> Placements(records, images, |records|).None?
    ensures r.Assembled? ==>
      forall k :: 0 <= k < |r.path.days| ==>
        r.path.days[k].images == Filed(images, Placements(records, images, |records|).value, k)
    ensures r.Failed? ==>
      && r.error.recordIndex < |records| && Placements(records, images, r.error.recordIndex).Some?
      && |Placements(records, images, r.error.recordIndex).value| == r.error.imageIndex
      && Placements(records, images, r.error.recordIndex + 1).None?
  {
    if |records| == 0 {
      assert Placements(records, images, 0) == Some([]);
      return Assembled(AssembledPath([], 0.0));
    }
    var failed, failedRecord, vars := FoldRecords(records, images, dist);
    if failed {
      return Failed(NoPreviousDayForImage(failedRecord, vars.imageIndex));
    }
    LoopEnd(records, images, vars, dist);
    return Assembled(AssembledPath(vars.days, vars.totalLength));
  }

  /** The loop over the records (lines 103-165). */
  method FoldRecords(records: seq<Record>, images: seq<Image>, dist: (LatLng, LatLng) -> real)
    returns (failed: bool, failedRecord: nat, vars: LoopVars)
    requires |records| > 0
    ensures failed ==> NoPreviousDay(records, images, failedRecord, vars.imageIndex)
    ensures failed ==>
      && failedRecord < |records| && Placements(records, images, failedRecord).Some?
      && |Placements(records, images, failedRecord).value| == vars.imageIndex
      && Placements(records, images, failedRecord + 1).None?
    ensures failed <==> Placements(records, images, |records|).None?
    ensures !failed ==> LoopState(records, images, |records|, vars, dist)
  {
    vars := FirstDay(records, images, dist);
    var i := 0;
    while i < |records|
      invariant 0 <= i <= |records|
      invariant LoopState(records, images, i, vars, dist)
    {
      var stepFailed, vars' := Step(records, images, i, vars, dist);
      if stepFailed {
        return true, i, vars;
      }
      vars := vars';
      i := i + 1;
    }
    failed, failedRecord := false, 0;
  }

  lemma FailedAt(records: seq<Record>, images: seq<Image>, i: nat)
    requires i < |records| && Placements(records, images, i + 1).None?
    ensures Placements(records, images, |records|).None?
  {
    PlacementsStayFailed(records, images, i + 1, |records|);
  }

  /** The single empty day the loop starts from. */
  method FirstDay(records: seq<Record>, images: seq<Image>, dist: (LatLng, LatLng) -> real) returns (vars: LoopVars)
    requires |records| > 0
    ensures |vars.days| == 1 && |vars.days[0].points| == 0 && |vars.days[0].images| == 0
    ensures vars.days[0].start == 0.0 && vars.days[0].end == 0.0 && !vars.days[0].isRest && vars.days[0].box == Empty
    ensures vars.totalLength == 0.0 && vars.lastLocation == None && vars.imageIndex == 0
    ensures LoopState(records, images, 0, vars, dist)
  {
    var days := [Day([], 0.0, 0.0, false, Empty, [])];
    vars := LoopVars(days, 0.0, None, 0);
    LoopStart(records, images, days, dist);
  }

  lemma LoopStart(records: seq<Record>, images: seq<Image>, days: seq<Day>, dist: (LatLng, LatLng) -> real)
    requires |records| > 0 && |days| == 1
    requires |days[0].points| == 0 && |days[0].images| == 0 && days[0].start == 0.0 && days[0].end == 0.0 && !days[0].isRest
    requires days[0].box == Empty
    ensures LoopState(records, images, 0, LoopVars(days, 0.0, None, 0), dist)
  {
    assert days[..0] == [];
    assert images[..0] == [];
    assert AllImages(days) == [];
    assert Placements(records, images, 0) == Some([]);
    assert days[0].images == Filed(images, [], 0);
  }

  lemma LoopEnd(records: seq<Record>, images: seq<Image>, vars: LoopVars, dist: (LatLng, LatLng) -> real)
    requires |records| > 0
    requires LoopState(records, images, |records|, vars, dist)
    ensures AllPoints(vars.days) == ExpectedPoints(records, |records|, dist)
    ensures WellFormedTrail(vars.days, vars.totalLength)
    ensures |AllImages(vars.days)| <= |records| && |AllImages(vars.days)| <= |images|
    ensures multiset(AllImages(vars.days)) == multiset(images[..|AllImages(vars.days)|])
  {
    ImagesTakenIsPermutation(vars.days, images, vars.imageIndex);
  }

  /** Equal counts for every image make the attached images a permutation of the prefix. */
  lemma ImagesTakenIsPermutation(days: seq<Day>, images: seq<Image>, taken: nat)
    requires ImagesTaken(days, images, taken)
    ensures multiset(AllImages(days)) == multiset(images[..taken])
  {
    forall im ensures multiset(AllImages(days))[im] == multiset(images[..taken])[im] {
      DayCountIsMultiplicity(days, im);
      PrefixCountIsMultiplicity(images, taken, im);
    }
  }

  /**
   * The length formula used for the generated demonstration trail: each day counts
   * 2 when it has a single point and the sum of its distances otherwise, plus one
   * unit per day.
   */
  function DemoTotalLength(days: seq<Day>): (r: real)
    ensures |days| > 0 && Chained(days) && (forall j :: 0 <= j < |days| ==> ClosedDay(days[j])) ==>
      r == Last(days).end + 1.0
  {
    DemoAllClosed(days);
    DemoDaysLength(days) + |days| as real
  }

  /** Over chained closed days, the demonstration lengths plus one unit per day reach one unit past the last end. */
  lemma DemoAllClosed(days: seq<Day>)
    ensures |days| > 0 && Chained(days) && (forall j :: 0 <= j < |days| ==> ClosedDay(days[j])) ==>
      DemoDaysLength(days) + |days| as real == Last(days).end + 1.0
  {
    if |days| > 0 && Chained(days) && (forall j :: 0 <= j < |days| ==> ClosedDay(days[j])) {
      DemoPrefix(days, |days|);
      assert days[..|days|] == days;
    }
  }

  function DemoDaysLength(days: seq<Day>): real
  {
    if |days| == 0 then 0.0
    else
      var d := Last(days);
      DemoDaysLength(days[..|days| - 1]) + (if |d.points| == 1 then 2.0 else DistanceSum(d.points))
  }

  lemma {:induction false} DemoSpanOfClosedDay(d: Day)
    requires ClosedDay(d)
    ensures (if |d.points| == 1 then 2.0 else DistanceSum(d.points)) == d.end - d.start
  {
    if |d.points| == 1 {
      assert d.points == [] + [d.points[0]];
      DistanceSumAppend([], d.points[0]);
    }
  }

  lemma {:induction false} DemoPrefix(days: seq<Day>, k: nat)
    requires 0 < k <= |days|
    requires Chained(days)
    requires forall j :: 0 <= j < |days| ==> ClosedDay(days[j])
    ensures DemoDaysLength(days[..k]) + k as real == days[k - 1].end + 1.0
  {
    DemoSpanOfClosedDay(days[k - 1]);
    assert days[..k][..k - 1] == days[..k - 1];
    if k > 1 {
      assert StartsAfterNight(days, k - 1);
      DemoPrefix(days, k - 1);
    }
  }

  /**
   * On a trail whose every day is closed, the demonstration formula gives the same
   * total length as the assembly loop.
   */
  lemma DemoTotalAgreesWithAssembly(days: seq<Day>, total: real)
    requires WellFormedTrail(days, total)
    requires Last(Last(days).points).isEndOfDay
    ensures DemoTotalLength(days) == total
  {
    assert ClosedDay(Last(days));
  }
}
