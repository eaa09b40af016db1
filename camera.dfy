/**
 * The map side of the expedition view (front-end/src/Map.tsx): where the camera is
 * framed for the visible stretch of the timeline, which marker layers are drawn, and
 * which photo the route parameters select. The map library is reduced to what it is
 * asked to do: a box to fit and a centre to move to.
 */
module Camera {
  import opened Util
  import opened Numerals
  import opened Geometry
  import opened Trail
  import opened Viewport

  // Framed points (lines 118-148)

  /**
   * The map position of a distance bound of the view on its day: along the day, the
   * interpolation between the day's first and last point by the fraction of the day
   * covered; past the day's end, the interpolation from the last point towards the
   * next day's first point by the distance walked into the night (towards the last
   * point itself on the final day). The fraction is a floating-point quotient: a day
   * of zero length yields NaN (0/0, the night branch) or an infinity. Minus infinity
   * takes the day branch and makes the target non-finite, which is `None` here. On a
   * day of positive length, a distance before the day's start gives a negative
   * fraction, which also takes the day branch and extrapolates beyond the first point.
   */
  function FramePoint(path: seq<Day>, b: ViewBound): (r: Option<LatLng>)
    requires 0 <= b.day < |path| && |path[b.day].points| > 0
    requires b.day + 1 < |path| ==> |path[b.day + 1].points| > 0
    ensures r.None? <==> path[b.day].end == path[b.day].start && b.distance < path[b.day].start
    ensures var d := path[b.day];
      d.start < d.end && b.distance < d.end ==>
        r == Some(Lerp(d.points[0].pos, Last(d.points).pos, (b.distance - d.start) / (d.end - d.start)))
    ensures var d := path[b.day];
      (d.start == d.end <= b.distance || d.start < d.end <= b.distance) ==>
        r == Some(Lerp(Last(d.points).pos, NextDayStart(path, b.day), b.distance - d.end))
  {
    var d := path[b.day];
    var span := d.end - d.start;
    var covered := b.distance - d.start;
    PositiveSpanFraction(covered, span);
    if span == 0.0 && covered < 0.0 then None
    else if span != 0.0 && covered / span < 1.0 then
      Some(Lerp(d.points[0].pos, Last(d.points).pos, covered / span))
    else
      Some(Lerp(Last(d.points).pos, NextDayStart(path, b.day), b.distance - d.end))
  }

  lemma PositiveSpanFraction(covered: real, span: real)
    ensures span > 0.0 ==> (covered / span < 1.0 <==> covered < span)
  {
    if span > 0.0 {
      QuotientSign(covered, span);
    }
  }

  /** Where the night after day `i` leads: the next day's first point, or the last point of the final day. */
  function NextDayStart(path: seq<Day>, i: nat): (p: LatLng)
    requires i < |path| && |path[i].points| > 0
    requires i + 1 < |path| ==> |path[i + 1].points| > 0
    ensures i + 1 < |path| ==> p == path[i + 1].points[0].pos
    ensures i + 1 == |path| ==> p == Last(path[i].points).pos
  {
    if i == |path| - 1 then Last(path[i].points).pos else path[i + 1].points[0].pos
  }

  /** The distance axis splits a day into the point range `[start, end)` and the night after it. */
  lemma FramePointAlongDay(path: seq<Day>, b: ViewBound)
    requires 0 <= b.day < |path| && |path[b.day].points| > 0
    requires b.day + 1 < |path| ==> |path[b.day + 1].points| > 0
    requires path[b.day].start <= b.distance < path[b.day].end
    ensures var d := path[b.day];
      FramePoint(path, b) == Some(Lerp(d.points[0].pos, Last(d.points).pos, (b.distance - d.start) / (d.end - d.start)))
    ensures var d := path[b.day];
      Contains(Extend(Extend(Empty, d.points[0].pos), Last(d.points).pos), FramePoint(path, b).value)
  {
    var d := path[b.day];
    var t := (b.distance - d.start) / (d.end - d.start);
    QuotientWithin(b.distance - d.start, d.end - d.start);
    LerpBetween(d.points[0].pos, Last(d.points).pos, t);
  }

  lemma QuotientWithin(x: real, y: real)
    requires 0.0 <= x < y
    ensures 0.0 <= x / y < 1.0
  {
    QuotientSign(x, y);
    if x == 0.0 {
      assert x / y == 0.0;
    }
  }

  /**
   * The framed position moves without a jump over the night: a full unit into the
   * night after day `i` lands on the first point of day `i + 1`, which is where that
   * day starts when its start is one unit after day `i`'s end.
   */
  lemma NightLeadsToNextDay(path: seq<Day>, i: nat)
    requires i + 1 < |path| && |path[i].points| > 0 && |path[i + 1].points| > 0
    requires i + 2 < |path| ==> |path[i + 2].points| > 0
    requires path[i].start < path[i].end && path[i + 1].start < path[i + 1].end
    requires path[i + 1].start == path[i].end + 1.0
    ensures FramePoint(path, ViewBound(i, path[i].end + 1.0)) == Some(path[i + 1].points[0].pos)
    ensures FramePoint(path, ViewBound(i + 1, path[i + 1].start)) == Some(path[i + 1].points[0].pos)
  {
    var night := path[i].end + 1.0 - path[i].end;
    assert night == 1.0;
    var next := path[i + 1];
    assert (next.start - next.start) / (next.end - next.start) == 0.0;
  }

  /** At a day's end the framed position is the day's last point, as the interpolation inside the day tends to. */
  lemma DayEndIsLastPoint(path: seq<Day>, i: nat)
    requires i < |path| && |path[i].points| > 0
    requires i + 1 < |path| ==> |path[i + 1].points| > 0
    requires path[i].start < path[i].end
    ensures FramePoint(path, ViewBound(i, path[i].end)) == Some(Last(path[i].points).pos)
  {
  }

  // The framing box (lines 150-155)

  /**
   * `b` holds both points and the boxes of the days strictly between `lo` and `hi`
   * (exclusive).
   */
  predicate Frames(b: Box, a: LatLng, c: LatLng, path: seq<Day>, lo: int, hi: int) {
    Contains(b, a) && Contains(b, c) &&
    forall i :: lo < i < hi && 0 <= i < |path| ==> ContainsBox(b, path[i].box)
  }

  /**
   * The overscanned box of a stretch from `p` to `q`: it runs a tenth of the stretch
   * beyond either end, so both ends lie strictly inside it.
   */
  function Overscan(p: LatLng, q: LatLng): (b: Box)
    ensures b.Bounds? && WellFormed(b)
    ensures Contains(b, Lerp(p, q, -0.1)) && Contains(b, Lerp(p, q, 1.1))
  {
    Extend(Extend(Empty, Lerp(p, q, -0.1)), Lerp(p, q, 1.1))
  }

  lemma OverscanHoldsEnds(p: LatLng, q: LatLng)
    ensures Contains(Overscan(p, q), p) && Contains(Overscan(p, q), q)
  {
    MixOffset(p.lat, q.lat, -0.1);
    MixOffset(p.lat, q.lat, 1.1);
    MixOffset(p.lng, q.lng, -0.1);
    MixOffset(p.lng, q.lng, 1.1);
  }

  /**
   * The box the camera is fitted to: the least box holding the overscanned ends of
   * the stretch and the boxes of the days `fromDay + 1 .. toDay - 2`. The day just
   * before `toDay` is left out, as the loop bound `i < to.day - 1` has it.
   */
  method FramingBox(path: seq<Day>, fromDay: int, toDay: int, p: LatLng, q: LatLng) returns (b: Box)
    requires 0 <= fromDay && toDay <= |path|
    ensures Frames(b, Lerp(p, q, -0.1), Lerp(p, q, 1.1), path, fromDay, toDay - 1)
    ensures forall o :: Frames(o, Lerp(p, q, -0.1), Lerp(p, q, 1.1), path, fromDay, toDay - 1) ==> ContainsBox(o, b)
    ensures Contains(b, p) && Contains(b, q)
  {
    var a, c := Lerp(p, q, -0.1), Lerp(p, q, 1.1);
    var start := Overscan(p, q);
    OverscanHoldsEnds(p, q);
    b := start;
    var i := fromDay + 1;
    var stop := if toDay - 1 < i then i else toDay - 1;
    while i < stop
      invariant fromDay + 1 <= i <= stop
      invariant ContainsBox(b, start)
      invariant Frames(b, a, c, path, fromDay, i)
      invariant forall o :: Frames(o, a, c, path, fromDay, i) ==> ContainsBox(o, b)
    {
      UnionStep(b, a, c, path, fromDay, i);
      b := Union(b, path[i].box);
      i := i + 1;
    }
    FramesBelow(b, a, c, path, fromDay, toDay - 1, stop);
  }

  /** Adding the box of day `i` extends the framing, and keeps it least, to the days below `i + 1`. */
  lemma UnionStep(b: Box, a: LatLng, c: LatLng, path: seq<Day>, lo: int, i: int)
    requires 0 <= i < |path|
    requires Frames(b, a, c, path, lo, i) && lo < i
    requires forall o :: Frames(o, a, c, path, lo, i) ==> ContainsBox(o, b)
    ensures Frames(Union(b, path[i].box), a, c, path, lo, i + 1)
    ensures forall o :: Frames(o, a, c, path, lo, i + 1) ==> ContainsBox(o, Union(b, path[i].box))
  {
    var r := Union(b, path[i].box);
    forall j | lo < j < i + 1 && 0 <= j < |path|
      ensures ContainsBox(r, path[j].box)
    {
      if j < i {
        assert ContainsBox(b, path[j].box);
      }
    }
    forall o | Frames(o, a, c, path, lo, i + 1)
      ensures ContainsBox(o, r)
    {
      assert Frames(o, a, c, path, lo, i);
      assert ContainsBox(o, path[i].box);
    }
  }

  /** When no day lies between `lo` and either bound, both bounds give the same framing. */
  lemma FramesBelow(b: Box, a: LatLng, c: LatLng, path: seq<Day>, lo: int, hi: int, stop: int)
    requires stop == lo + 1 || stop == hi
    requires hi <= stop
    ensures Frames(b, a, c, path, lo, hi) <==> Frames(b, a, c, path, lo, stop)
  {
  }

  // Camera moves (lines 113-116 and 157-176)

  /** `moveCamera` to a centre and/or `fitBounds` to a box, or nothing. */
  datatype CameraMove = Stay | NonFinite | Move(box: Box, center: Option<LatLng>, fit: bool)

  /**
   * The camera is left alone while the map is under the user's control, before the
   * trail is loaded, and during a drag when smooth movement is switched off.
   */
  predicate CameraIdle(noSmoothMovement: bool, isDragging: bool, mapControlsDisabled: bool, path: seq<Day>) {
    (noSmoothMovement && isDragging) || !mapControlsDisabled || |path| == 0
  }

  /**
   * The centre the camera follows during a drag: the box centre, shifted against
   * the drag offset by 0.85 of it.
   */
  function DragCenter(b: Box, centerOffset: LatLng): (c: LatLng)
    requires b.Bounds?
    ensures centerOffset == LatLng(0.0, 0.0) ==> c == Center(b)
  {
    LatLng(Center(b).lat - centerOffset.lat * 0.85, Center(b).lng - centerOffset.lng * 0.85)
  }

  /** Dragging further by `delta` moves the camera 0.85 of `delta` the other way. */
  lemma DragCenterShift(b: Box, o: LatLng, delta: LatLng)
    requires b.Bounds?
    ensures DragCenter(b, LatLng(o.lat + delta.lat, o.lng + delta.lng)).lat == DragCenter(b, o).lat - 0.85 * delta.lat
    ensures DragCenter(b, LatLng(o.lat + delta.lat, o.lng + delta.lng)).lng == DragCenter(b, o).lng - 0.85 * delta.lng
  {
  }

  /** Every day the trail loader produces has points; the view's bounds name days of the path. */
  predicate Framable(path: seq<Day>, view: View) {
    (forall i :: 0 <= i < |path| ==> |path[i].points| > 0) &&
    0 <= view.from.day < |path| && 0 <= view.to.day < |path|
  }

  /**
   * The camera-framing effect: nothing when idle; otherwise the framing box of the
   * visible stretch, followed by its drag centre during a drag (no fit), moved to and
   * fitted when smooth movement is off, or fitted alone.
   */
  method FrameCamera(noSmoothMovement: bool, isDragging: bool, mapControlsDisabled: bool,
                     path: seq<Day>, view: View, centerOffset: LatLng) returns (r: CameraMove)
    requires |path| > 0 ==> Framable(path, view)
    ensures r.Stay? <==> CameraIdle(noSmoothMovement, isDragging, mapControlsDisabled, path)
    ensures r.NonFinite? <==>
      !CameraIdle(noSmoothMovement, isDragging, mapControlsDisabled, path) &&
      (FramePoint(path, view.from).None? || FramePoint(path, view.to).None?)
    ensures r.Move? ==>
      var p, q := FramePoint(path, view.from).value, FramePoint(path, view.to).value;
      && Frames(r.box, Lerp(p, q, -0.1), Lerp(p, q, 1.1), path, view.from.day, view.to.day - 1)
      && (forall o :: Frames(o, Lerp(p, q, -0.1), Lerp(p, q, 1.1), path, view.from.day, view.to.day - 1) ==> ContainsBox(o, r.box))
      && Contains(r.box, p) && Contains(r.box, q)
      && r.fit == !isDragging
      && r.center == (if isDragging || noSmoothMovement then Some(DragCenter(r.box, centerOffset)) else None)
  {
    if CameraIdle(noSmoothMovement, isDragging, mapControlsDisabled, path) {
      return Stay;
    }
    var adjustedFrom := FramePoint(path, view.from);
    var adjustedTo := FramePoint(path, view.to);
    if adjustedFrom.None? || adjustedTo.None? {
      return NonFinite;
    }
    var box := FramingBox(path, view.from.day, view.to.day, adjustedFrom.value, adjustedTo.value);
    if isDragging {
      r := Move(box, Some(DragCenter(box, centerOffset)), false);
    } else if noSmoothMovement {
      r := Move(box, Some(DragCenter(box, centerOffset)), true);
    } else {
      r := Move(box, None, true);
    }
  }

  // Marker layers (lines 214-233)

  /** What the map draws: the coarsest trail, a finer trail when shown, and the photo markers when shown. */
  datatype Layers<T, U> = Layers(coarsest: seq<seq<T>>, finer: Option<seq<seq<T>>>, photos: Option<seq<U>>)

  /**
   * The marker layers for a selection: unchanged during a drag; otherwise the
   * coarsest level (`trails` holds one list of per-day markers per level, coarsest
   * last), the level of the selection's density when finer detail is on and that
   * level is not the coarsest, and the photos unless switched off; the finer level
   * and the photos only for the days from one before the view to one after it.
   */
  function MapTrail<T(==), U(==)>(previous: Layers<T, U>, isDragging: bool, lowDensity: bool, noImages: bool,
                          trails: seq<seq<seq<T>>>, photos: seq<U>, density: nat, view: View): (r: Layers<T, U>)
    ensures isDragging ==> r == previous
    ensures !isDragging ==> r.coarsest == (if |trails| == 0 then [] else Last(trails))
    ensures !isDragging ==> (r.finer.Some? <==> !lowDensity && density + 1 < |trails|)
    ensures !isDragging ==> (r.photos.Some? <==> !noImages)
    ensures !isDragging && r.finer.Some? ==> IsWindow(r.finer.value, trails[density], view.from.day - 1, view.to.day + 1)
    ensures !isDragging && r.photos.Some? ==> IsWindow(r.photos.value, photos, view.from.day - 1, view.to.day + 1)
  {
    if isDragging then previous
    else
      var lo, hi := view.from.day - 1, view.to.day + 1;
      var finer := if !lowDensity && density + 1 < |trails| then Some(IndexWindow(trails[density], lo, hi)) else None;
      var shown := if noImages then None else Some(IndexWindow(photos, lo, hi));
      Layers(if |trails| == 0 then [] else Last(trails), finer, shown)
  }

  // Selected photo (lines 192-198)

  /**
   * The photo named by the route's `day` and `index` parameters: both must be
   * present and both must parse as integers.
   */
  function SelectedImage(day: Option<string>, index: Option<string>): (r: Option<(int, int)>)
    ensures r.Some? <==> day.Some? && index.Some? && ParseInt(day.value).Some? && ParseInt(index.value).Some?
    ensures r.Some? ==> r.value == (ParseInt(day.value).value, ParseInt(index.value).value)
  {
    if day.None? || index.None? then None
    else
      var d, i := ParseInt(day.value), ParseInt(index.value);
      if d.None? || i.None? then None else Some((d.value, i.value))
  }

  /** The route a photo marker navigates to (line 208) selects that photo again. */
  lemma MarkerRouteSelectsPhoto(dayIndex: nat, imageIndex: nat)
    ensures SelectedImage(Some(NatToString(dayIndex)), Some(NatToString(imageIndex))) == Some((dayIndex, imageIndex))
  {
    ParseIntOfNatToString(dayIndex);
    ParseIntOfNatToString(imageIndex);
  }
}
