/**
 * The timeline viewport (front-end/src/ExpeditionTrail.tsx, Selection.ts, and the
 * gesture starts in front-end/src/Timeline.tsx). The selection says how far the
 * timeline is zoomed and scrolled, which stretch of the trail is in view, which level
 * of detail to draw, and where the current drag or pinch started. Every handler builds
 * a new selection from the previous one; all of them except the layout effect go
 * through `setSelection`, which recomputes the derived fields afterwards.
 */
module Viewport {
  import opened Util
  import opened Geometry
  import opened Trail
  import opened Density

  /** Shortest stretch of trail the timeline may show (km). */
  const MinTimelineViewDistance: real := 10.0
  /** Stretch of trail shown when the page opens (km). */
  const InitialTimelineViewDistance: real := 50.0

  datatype ViewBound = ViewBound(day: int, distance: real)
  datatype View = View(from: ViewBound, to: ViewBound)

  /** Where the current gesture started; `fingers == 0` means no gesture is in progress. */
  datatype DraggingState = DraggingState(
    pos: real,
    scroll: real,
    zoom: real,
    distance: real,
    fingers: nat,
    centerOffset: LatLng)

  datatype Selection = Selection(
    zoom: real,
    scroll: real,
    maxScroll: real,
    density: nat,
    view: View,
    dragging: DraggingState)

  /** The distance lies on day `d` or in the night after it. */
  predicate InDay(d: Day, distance: real) {
    d.start <= distance < d.end + 1.0
  }

  /** `findIndex` from position `from` on: the first day holding the distance, or -1. */
  function FirstDayHolding(days: seq<Day>, distance: real, from: nat): (r: int)
    requires from <= |days|
    ensures r == -1 || from <= r < |days|
    ensures r == -1 ==> forall k :: from <= k < |days| ==> !InDay(days[k], distance)
    ensures r != -1 ==> InDay(days[r], distance) && forall k :: from <= k < r ==> !InDay(days[k], distance)
    decreases |days| - from
  {
    if from == |days| then -1
    else if InDay(days[from], distance) then from
    else FirstDayHolding(days, distance, from + 1)
  }

  /**
   * `dayContaining`: the first day whose span, night included, holds the distance;
   * the last day when none does (-1 for no days).
   */
  function DayContaining(days: seq<Day>, distance: real): (r: int)
    ensures |days| == 0 ==> r == -1
    ensures |days| > 0 ==> 0 <= r < |days|
    ensures (exists k :: 0 <= k < |days| && InDay(days[k], distance)) ==>
      0 <= r < |days| && InDay(days[r], distance) && forall k :: 0 <= k < r ==> !InDay(days[k], distance)
    ensures (forall k :: 0 <= k < |days| ==> !InDay(days[k], distance)) ==> r == |days| - 1
  {
    var index := FirstDayHolding(days, distance, 0);
    if index == -1 then |days| - 1 else index
  }

  /** Lines 60-92: the selection when the page opens, showing the end of the trail. */
  function InitialSelection(days: seq<Day>, totalLength: real, windowWidth: real): (s: Selection)
    requires windowWidth > 0.0
    ensures s.zoom >= 1.0 && (totalLength >= InitialTimelineViewDistance ==> s.zoom == totalLength / InitialTimelineViewDistance)
    ensures totalLength <= InitialTimelineViewDistance ==> s.zoom == 1.0
    ensures s.scroll == s.maxScroll == windowWidth * s.zoom - windowWidth
    ensures s.view.to == ViewBound(|days| - 1, totalLength)
    ensures s.view.to.distance - s.view.from.distance == totalLength / s.zoom
    ensures s.view.from.day == DayContaining(days, s.view.from.distance)
    ensures s.density == DensityIndex(totalLength / s.zoom, windowWidth)
    ensures s.dragging == DraggingState(0.0, 0.0, 1.0, 0.0, 0, LatLng(0.0, 0.0))
  {
    var zoom := Max(totalLength / InitialTimelineViewDistance, 1.0);
    var from := totalLength - totalLength / zoom;
    Selection(
      zoom,
      windowWidth * zoom - windowWidth,
      windowWidth * zoom - windowWidth,
      DensityIndex(totalLength / zoom, windowWidth),
      View(ViewBound(DayContaining(days, from), from), ViewBound(|days| - 1, totalLength)),
      DraggingState(0.0, 0.0, 1.0, 0.0, 0, LatLng(0.0, 0.0)))
  }

  /** `prevState.scroll / prevState.maxScroll`, taken as 0 when there is nothing to scroll. */
  function ScrollFraction(s: Selection): real {
    if s.maxScroll == 0.0 then 0.0 else s.scroll / s.maxScroll
  }

  /**
   * Lines 95-106: after a change of window width or trail, the zoom is clamped to
   * [1, totalLength / 10] (1 wins for a trail shorter than 10), the scroll keeps its
   * fraction of the scrollable width, clamped to it, and nothing else changes.
   */
  function Resize(prev: Selection, totalLength: real, windowWidth: real): (s: Selection)
    requires windowWidth > 0.0
    ensures s == prev.(zoom := s.zoom, maxScroll := s.maxScroll, scroll := s.scroll)
    ensures 1.0 <= s.zoom <= ZoomCap(totalLength)
    ensures 1.0 <= prev.zoom <= totalLength / MinTimelineViewDistance ==> s.zoom == prev.zoom
    ensures s.zoom == ClampZoom(prev.zoom, totalLength)
    ensures s.maxScroll == windowWidth * s.zoom - windowWidth && s.maxScroll >= 0.0
    ensures 0.0 <= s.scroll <= s.maxScroll
    ensures 0.0 <= ScrollFraction(prev) <= 1.0 ==> s.scroll == s.maxScroll * ScrollFraction(prev)
    ensures ScrollFraction(prev) <= 0.0 ==> s.scroll == 0.0
    ensures ScrollFraction(prev) >= 1.0 ==> s.scroll == s.maxScroll
    ensures prev.maxScroll == 0.0 ==> s.scroll == 0.0
  {
    var newZoom := ClampZoom(prev.zoom, totalLength);
    var maxScroll := windowWidth * newZoom - windowWidth;
    MulNonneg(windowWidth, newZoom - 1.0);
    var newScroll := MinThenMax(maxScroll * ScrollFraction(prev), 0.0, maxScroll);
    KeepFraction(maxScroll, ScrollFraction(prev));
    prev.(zoom := newZoom, maxScroll := maxScroll, scroll := newScroll)
  }

  lemma KeepFraction(maxScroll: real, fraction: real)
    requires maxScroll >= 0.0
    ensures 0.0 <= fraction <= 1.0 ==> MinThenMax(maxScroll * fraction, 0.0, maxScroll) == maxScroll * fraction
    ensures fraction <= 0.0 ==> maxScroll * fraction <= 0.0
    ensures fraction >= 1.0 ==> maxScroll * fraction >= maxScroll
    ensures fraction <= 0.0 ==> MinThenMax(maxScroll * fraction, 0.0, maxScroll) == 0.0
    ensures fraction >= 1.0 ==> MinThenMax(maxScroll * fraction, 0.0, maxScroll) == maxScroll
  {
    if 0.0 <= fraction <= 1.0 {
      ScaleWithin(maxScroll, fraction);
    }
    if fraction <= 0.0 {
      MulNonneg(maxScroll, -fraction);
    }
    if fraction >= 1.0 {
      MulNonneg(maxScroll, fraction - 1.0);
    }
  }

  /** The layout effect: the initial selection, or the resized previous one. */
  function Layout(prev: Option<Selection>, days: seq<Day>, totalLength: real, windowWidth: real): (s: Selection)
    requires windowWidth > 0.0
    ensures prev.None? ==> s == InitialSelection(days, totalLength, windowWidth)
    ensures prev.Some? ==> s == Resize(prev.value, totalLength, windowWidth)
  {
    if prev.None? then InitialSelection(days, totalLength, windowWidth) else Resize(prev.value, totalLength, windowWidth)
  }

  /** Where the visible stretch starts: the scrolled fraction of the graph, applied to the trail. */
  function StartLength(totalLength: real, scroll: real, graphWidth: real): real
    requires graphWidth > 0.0
  {
    totalLength * (scroll / graphWidth)
  }

  /**
   * Lines 113-131, the recompute `setSelection` applies after every updater: the
   * scrollable width, the level of detail for the visible length, and the visible
   * stretch, which starts at the scrolled fraction of the trail and is
   * `totalLength / zoom` long.
   */
  function Derive(s: Selection, days: seq<Day>, totalLength: real, windowWidth: real): (r: Selection)
    requires windowWidth > 0.0 && s.zoom > 0.0
    ensures r == s.(maxScroll := r.maxScroll, density := r.density, view := r.view)
    ensures r.maxScroll == windowWidth * s.zoom - windowWidth
    ensures r.density == DensityIndex(totalLength / s.zoom, windowWidth)
    ensures r.view.from.distance == StartLength(totalLength, s.scroll, windowWidth * s.zoom)
    ensures r.view.to.distance - r.view.from.distance == totalLength / s.zoom
    ensures r.view.from.day == DayContaining(days, r.view.from.distance)
    ensures r.view.to.day == DayContaining(days, r.view.to.distance)
  {
    MulPositive(windowWidth, s.zoom);
    var graphWidth := windowWidth * s.zoom;
    var viewLength := totalLength / s.zoom;
    var startLength := StartLength(totalLength, s.scroll, graphWidth);
    s.(maxScroll := graphWidth - windowWidth,
       density := DensityIndex(viewLength, windowWidth),
       view := View(ViewBound(DayContaining(days, startLength), startLength),
                    ViewBound(DayContaining(days, startLength + viewLength), startLength + viewLength)))
  }



  /** The recompute depends only on zoom and scroll, so applying it twice changes nothing more. */
  lemma DeriveIdempotent(s: Selection, days: seq<Day>, totalLength: real, windowWidth: real)
    requires windowWidth > 0.0 && s.zoom > 0.0
    ensures Derive(Derive(s, days, totalLength, windowWidth), days, totalLength, windowWidth)
         == Derive(s, days, totalLength, windowWidth)
  {
    var r := Derive(s, days, totalLength, windowWidth);
    assert r.zoom == s.zoom && r.scroll == s.scroll;
    var r2 := Derive(r, days, totalLength, windowWidth);
    assert r2.maxScroll == r.maxScroll && r2.density == r.density;
    assert r2.view.from == r.view.from && r2.view.to == r.view.to;
  }

  /**
   * With the zoom at least 1 and the scroll within the scrollable width, the visible
   * stretch lies within the trail.
   */
  lemma DerivedViewWithinTrail(s: Selection, days: seq<Day>, totalLength: real, windowWidth: real)
    requires windowWidth > 0.0 && s.zoom >= 1.0 && totalLength >= 0.0
    requires 0.0 <= s.scroll <= windowWidth * s.zoom - windowWidth
    ensures var r := Derive(s, days, totalLength, windowWidth);
      0.0 <= r.view.from.distance <= r.view.to.distance <= totalLength
  {
    var a := StartLength(totalLength, s.scroll, windowWidth * s.zoom);
    var v := totalLength / s.zoom;
    VisibleStretch(totalLength, s.scroll, windowWidth, s.zoom);
    assert 0.0 <= a && 0.0 <= v && a + v <= totalLength;
    DerivedStretch(s, days, totalLength, windowWidth);
  }

  /** Zoomed in at least 1x, the level drawn is never coarser than the whole trail's level. */
  lemma DerivedDensityAtMostTrail(s: Selection, days: seq<Day>, totalLength: real, windowWidth: real)
    requires windowWidth > 0.0 && s.zoom >= 1.0 && totalLength >= 0.0
    ensures Derive(s, days, totalLength, windowWidth).density <= DensityIndex(totalLength, windowWidth)
  {
    var g := totalLength / s.zoom;
    assert g == totalLength * (1.0 / s.zoom);
    ScaleWithin(totalLength, 1.0 / s.zoom);
    DensityIndexMonotone(g, totalLength, windowWidth);
  }

  lemma DerivedStretch(s: Selection, days: seq<Day>, totalLength: real, windowWidth: real)
    requires windowWidth > 0.0 && s.zoom > 0.0
    ensures var r := Derive(s, days, totalLength, windowWidth);
      && r.view.from.distance == StartLength(totalLength, s.scroll, windowWidth * s.zoom)
      && r.view.to.distance == StartLength(totalLength, s.scroll, windowWidth * s.zoom) + totalLength / s.zoom
  {
  }

  lemma VisibleStretch(total: real, scroll: real, width: real, zoom: real)
    requires width > 0.0 && zoom >= 1.0 && total >= 0.0
    requires 0.0 <= scroll <= width * zoom - width
    ensures width * zoom > 0.0
    ensures 0.0 <= StartLength(total, scroll, width * zoom)
    ensures 0.0 <= total / zoom <= total
    ensures StartLength(total, scroll, width * zoom) + total / zoom <= total
  {
    MulPositive(width, zoom);
    var g := width * zoom;
    var f := scroll / g;
    DivLe(0.0, scroll, g);
    MulNonneg(total, f);
    assert total / zoom == total * (1.0 / zoom);
    ScaleWithin(total, 1.0 / zoom);
    DivLe(scroll, g - width, g);
    assert (g - width) / g == g / g - width / g;
    assert g / g == 1.0;
    assert width / g == 1.0 / zoom;
    MulNonneg(total, 1.0 - 1.0 / zoom - f);
    assert total * f <= total * (1.0 - 1.0 / zoom);
  }

  lemma DivSelf(x: real)
    requires x != 0.0
    ensures x / x == 1.0
  {
  }

  lemma DivLe(a: real, b: real, g: real)
    requires a <= b && g > 0.0
    ensures a / g <= b / g
  {
  }

  /** Largest zoom: a view of 10 km, or 1 when the trail is shorter than that. */
  function ZoomCap(totalLength: real): real {
    Max(totalLength / MinTimelineViewDistance, 1.0)
  }

  /** `Math.max(Math.min(zoom, totalLength / 10), 1)`. */
  function ClampZoom(zoom: real, totalLength: real): (r: real)
    ensures 1.0 <= r <= ZoomCap(totalLength)
    ensures 1.0 <= zoom <= totalLength / MinTimelineViewDistance ==> r == zoom
    ensures zoom <= 1.0 ==> r == 1.0
    ensures 1.0 <= totalLength / MinTimelineViewDistance <= zoom ==> r == totalLength / MinTimelineViewDistance
  {
    MinThenMax(zoom, 1.0, totalLength / MinTimelineViewDistance)
  }

  /** Scroll and zoom within their ranges, and the drag snapshot's zoom as well. */
  predicate Bounded(s: Selection, totalLength: real, windowWidth: real) {
    && 1.0 <= s.zoom <= ZoomCap(totalLength)
    && 0.0 <= s.scroll <= windowWidth * s.zoom - windowWidth
    && s.dragging.zoom >= 1.0
  }

  /** A bounded selection whose scrollable width matches its zoom. */
  predicate Valid(s: Selection, totalLength: real, windowWidth: real) {
    Bounded(s, totalLength, windowWidth) && s.maxScroll == windowWidth * s.zoom - windowWidth
  }

  /** What the map answers when a gesture starts: no map yet, no bounds yet, or both centres. */
  datatype MapProbe = NoMap | NoBounds | Centers(boundsCenter: LatLng, mapCenter: LatLng)

  /**
   * The gestures on the timeline. Touch events carry the finger count and the
   * `touchStats` of the touches (the centre's x and the spread); a wheel event
   * carries the pointer's x and the zoom factor `exp(-deltaY / 1000)`, which is
   * always positive.
   */
  datatype Event =
    | MouseDown(x: real, probe: MapProbe)
    | TouchStart(fingers: nat, center: real, spread: real, probe: MapProbe)
    | MouseMove(x: real)
    | TouchMove(fingers: nat, center: real, spread: real)
    | TouchStop(fingers: nat, center: real, spread: real)
    | CancelDrag
    | Wheel(zoomCenter: real, factor: real)

  predicate WellFormedEvent(e: Event) {
    e.Wheel? ==> e.factor > 0.0
  }

  /**
   * Timeline.tsx lines 370-418: a press or touch on the timeline records where the
   * gesture starts and how far the map is panned off the centre of its bounds;
   * without bounds or centre the selection is returned as it was.
   */
  function StartGesture(prev: Selection, pos: real, spread: real, fingers: nat, probe: MapProbe): (r: Selection)
    ensures !probe.Centers? ==> r == prev
    ensures probe.Centers? ==>
      && r == prev.(dragging := r.dragging)
      && r.dragging.pos == pos && r.dragging.distance == spread && r.dragging.fingers == fingers
      && r.dragging.scroll == prev.scroll && r.dragging.zoom == prev.zoom
      && r.dragging.centerOffset.lat + probe.mapCenter.lat == probe.boundsCenter.lat
      && r.dragging.centerOffset.lng + probe.mapCenter.lng == probe.boundsCenter.lng
  {
    match probe
    case Centers(boundsCenter, mapCenter) =>
      prev.(dragging := DraggingState(pos, prev.scroll, prev.zoom, spread, fingers,
        LatLng(boundsCenter.lat - mapCenter.lat, boundsCenter.lng - mapCenter.lng)))
    case _ => prev
  }

  /**
   * Lines 137-147: while a drag is in progress the graph follows the pointer: the
   * scroll is the drag's starting scroll moved by the distance the pointer travelled
   * back, clamped to the scrollable width. Nothing else changes.
   */
  function MouseMoveUpdate(prev: Selection, x: real): (r: Selection)
    ensures prev.dragging.fingers == 0 ==> r == prev
    ensures r == prev.(scroll := r.scroll)
    ensures prev.dragging.fingers != 0 ==>
      && r.scroll <= prev.maxScroll
      && (prev.maxScroll >= 0.0 ==> r.scroll >= 0.0)
      && (0.0 <= prev.dragging.scroll + (prev.dragging.pos - x) <= prev.maxScroll ==>
            r.scroll + x == prev.dragging.scroll + prev.dragging.pos)
      && (prev.dragging.scroll + (prev.dragging.pos - x) <= 0.0 <= prev.maxScroll ==> r.scroll == 0.0)
      && (prev.dragging.scroll + (prev.dragging.pos - x) >= prev.maxScroll ==> r.scroll == prev.maxScroll)
      && (prev.maxScroll < 0.0 ==> r.scroll == prev.maxScroll)
  {
    if prev.dragging.fingers == 0 then prev
    else prev.(scroll := LowThenHigh(prev.dragging.scroll + (prev.dragging.pos - x), 0.0, prev.maxScroll))
  }

  /** The pinch's zoom before clamping: scaled by the spread ratio, or kept without a spread to compare. */
  function PinchZoom(d: DraggingState, spread: real, zoom: real): real {
    if d.distance != 0.0 then d.zoom * (spread / d.distance) else zoom
  }

  /**
   * Lines 149-177: with as many fingers down as when the gesture started, the zoom
   * follows the ratio of the fingers' spread to the starting spread, clamped; and the
   * scroll is chosen so that the point of the graph under the starting centre is under
   * the fingers' centre now, clamped to the new scrollable width. Only scroll and zoom
   * change.
   */
  function TouchMoveUpdate(prev: Selection, fingers: nat, center: real, spread: real,
                           totalLength: real, windowWidth: real): (r: Selection)
    requires prev.dragging.zoom > 0.0
    ensures prev.dragging.fingers == 0 || prev.dragging.fingers != fingers ==> r == prev
    ensures r == prev.(zoom := r.zoom, scroll := r.scroll)
    ensures prev.dragging.fingers != 0 && prev.dragging.fingers == fingers ==>
      var d := prev.dragging;
      && 1.0 <= r.zoom <= ZoomCap(totalLength)
      && r.scroll <= windowWidth * r.zoom - windowWidth
      && (windowWidth * r.zoom - windowWidth >= 0.0 ==> r.scroll >= 0.0)
      && (1.0 <= PinchZoom(d, spread, prev.zoom) <= totalLength / MinTimelineViewDistance ==>
            r.zoom == PinchZoom(d, spread, prev.zoom))
      && r.zoom == ClampZoom(PinchZoom(d, spread, prev.zoom), totalLength)
      && (0.0 <= (d.scroll + d.pos) * (r.zoom / d.zoom) - center <= windowWidth * r.zoom - windowWidth ==>
            r.scroll + center == (d.scroll + d.pos) * (r.zoom / d.zoom))
      && ((d.scroll + d.pos) * (r.zoom / d.zoom) - center <= 0.0 <= windowWidth * r.zoom - windowWidth ==>
            r.scroll == 0.0)
      && ((d.scroll + d.pos) * (r.zoom / d.zoom) - center >= windowWidth * r.zoom - windowWidth ==>
            r.scroll == windowWidth * r.zoom - windowWidth)
  {
    var d := prev.dragging;
    if d.fingers == 0 || d.fingers != fingers then prev
    else
      var newZoom := ClampZoom(PinchZoom(d, spread, prev.zoom), totalLength);
      var multiplier := newZoom / d.zoom;
      var newMaxScroll := windowWidth * newZoom - windowWidth;
      var newScroll := (d.scroll + (d.pos - center) + center) * multiplier - center;
      assert d.scroll + (d.pos - center) + center == d.scroll + d.pos;
      prev.(scroll := LowThenHigh(newScroll, 0.0, newMaxScroll), zoom := newZoom)
  }

  /**
   * Lines 179-185 (mouse released or leaving the timeline) and the no-finger case of
   * lines 187-213: the gesture ends; nothing else changes.
   */
  function CancelUpdate(prev: Selection): (r: Selection)
    ensures r.dragging.fingers == 0
    ensures r == prev.(dragging := r.dragging) && r.dragging == prev.dragging.(fingers := r.dragging.fingers)
  {
    if prev.dragging.fingers == 0 then prev
    else prev.(dragging := prev.dragging.(fingers := 0))
  }

  /**
   * Lines 187-213: when the last finger lifts the gesture ends; when some stay, the
   * gesture restarts from the current scroll and zoom with the remaining fingers'
   * centre and spread, keeping the map offset.
   */
  function TouchStopUpdate(prev: Selection, fingers: nat, center: real, spread: real): (r: Selection)
    ensures fingers == 0 ==> r == CancelUpdate(prev)
    ensures fingers != 0 && prev.dragging.fingers == 0 ==> r == prev
    ensures fingers != 0 && prev.dragging.fingers != 0 ==>
      r == prev.(dragging := DraggingState(center, prev.scroll, prev.zoom, spread, fingers, prev.dragging.centerOffset))
  {
    if fingers == 0 then CancelUpdate(prev)
    else if prev.dragging.fingers == 0 then prev
    else prev.(dragging := DraggingState(center, prev.scroll, prev.zoom, spread, fingers, prev.dragging.centerOffset))
  }

  /**
   * Lines 215-228: the wheel multiplies the zoom by the factor, clamped, and scrolls
   * so that the point of the graph under the pointer stays under it, clamped to the
   * new scrollable width. Only scroll and zoom change.
   */
  function WheelUpdate(prev: Selection, zoomCenter: real, factor: real, totalLength: real, windowWidth: real): (r: Selection)
    requires prev.zoom > 0.0
    ensures r == prev.(zoom := r.zoom, scroll := r.scroll)
    ensures 1.0 <= r.zoom <= ZoomCap(totalLength)
    ensures r.scroll >= 0.0
    ensures windowWidth * r.zoom - windowWidth >= 0.0 ==> r.scroll <= windowWidth * r.zoom - windowWidth
    ensures 1.0 <= prev.zoom * factor <= totalLength / MinTimelineViewDistance ==> r.zoom == prev.zoom * factor
    ensures r.zoom == ClampZoom(prev.zoom * factor, totalLength)
    ensures 0.0 <= (zoomCenter + prev.scroll) * (r.zoom / prev.zoom) - zoomCenter <= windowWidth * r.zoom - windowWidth ==>
      r.scroll + zoomCenter == (zoomCenter + prev.scroll) * (r.zoom / prev.zoom)
    ensures (zoomCenter + prev.scroll) * (r.zoom / prev.zoom) - zoomCenter <= 0.0 ==> r.scroll == 0.0
    ensures 0.0 <= windowWidth * r.zoom - windowWidth <= (zoomCenter + prev.scroll) * (r.zoom / prev.zoom) - zoomCenter ==>
      r.scroll == windowWidth * r.zoom - windowWidth
  {
    var newZoom := ClampZoom(prev.zoom * factor, totalLength);
    var zoomDiff := newZoom / prev.zoom;
    var newScroll := MinThenMax((zoomCenter + prev.scroll) * zoomDiff - zoomCenter, 0.0, windowWidth * newZoom - windowWidth);
    prev.(zoom := newZoom, scroll := newScroll)
  }

  /** The updater each gesture hands to `setSelection`. */
  function Update(prev: Selection, e: Event, totalLength: real, windowWidth: real): (r: Selection)
    requires prev.zoom > 0.0 && prev.dragging.zoom > 0.0 && WellFormedEvent(e)
    ensures e.MouseDown? ==> r == StartGesture(prev, e.x, 0.0, 1, e.probe)
    ensures e.TouchStart? ==> r == StartGesture(prev, e.center, e.spread, e.fingers, e.probe)
    ensures e.MouseMove? ==> r == MouseMoveUpdate(prev, e.x)
    ensures e.TouchMove? ==> r == TouchMoveUpdate(prev, e.fingers, e.center, e.spread, totalLength, windowWidth)
    ensures e.TouchStop? ==> r == TouchStopUpdate(prev, e.fingers, e.center, e.spread)
    ensures e.CancelDrag? ==> r == CancelUpdate(prev)
    ensures e.Wheel? ==> r == WheelUpdate(prev, e.zoomCenter, e.factor, totalLength, windowWidth)
  {
    match e
    case MouseDown(x, probe) => StartGesture(prev, x, 0.0, 1, probe)
    case TouchStart(fingers, center, spread, probe) => StartGesture(prev, center, spread, fingers, probe)
    case MouseMove(x) => MouseMoveUpdate(prev, x)
    case TouchMove(fingers, center, spread) => TouchMoveUpdate(prev, fingers, center, spread, totalLength, windowWidth)
    case TouchStop(fingers, center, spread) => TouchStopUpdate(prev, fingers, center, spread)
    case CancelDrag => CancelUpdate(prev)
    case Wheel(zoomCenter, factor) => WheelUpdate(prev, zoomCenter, factor, totalLength, windowWidth)
  }

  /**
   * A gesture on a loaded trail: nothing before the layout effect has produced a
   * selection; a press or touch while the map is missing is ignored before
   * `setSelection`; everything else is the updater followed by the recompute.
   */
  function Dispatch(prev: Option<Selection>, e: Event, days: seq<Day>, totalLength: real, windowWidth: real): (r: Option<Selection>)
    requires windowWidth > 0.0 && WellFormedEvent(e)
    requires prev.Some? ==> Valid(prev.value, totalLength, windowWidth)
    ensures prev.None? ==> r.None?
    ensures prev.Some? ==> r.Some?
    ensures (e.MouseDown? || e.TouchStart?) && e.probe.NoMap? ==> r == prev
    ensures prev.Some? && !((e.MouseDown? || e.TouchStart?) && e.probe.NoMap?) ==>
      r.value == Derive(Update(prev.value, e, totalLength, windowWidth), days, totalLength, windowWidth)
  {
    if prev.None? then None
    else if (e.MouseDown? || e.TouchStart?) && e.probe.NoMap? then prev
    else
      var s := Update(prev.value, e, totalLength, windowWidth);
      UpdateBounded(prev.value, e, totalLength, windowWidth);
      Some(Derive(s, days, totalLength, windowWidth))
  }

  /** At zoom 1 or more there is something (or exactly nothing) to scroll. */
  lemma ScrollableWidthNonneg(windowWidth: real, zoom: real)
    requires windowWidth > 0.0 && zoom >= 1.0
    ensures windowWidth * zoom - windowWidth >= 0.0
  {
    MulNonneg(windowWidth, zoom - 1.0);
  }

  /** Every updater takes a valid selection to a bounded one. */
  lemma UpdateBounded(prev: Selection, e: Event, totalLength: real, windowWidth: real)
    requires windowWidth > 0.0 && Valid(prev, totalLength, windowWidth) && WellFormedEvent(e)
    ensures Bounded(Update(prev, e, totalLength, windowWidth), totalLength, windowWidth)
  {
    match e
    case MouseDown(x, probe) => StartGestureBounded(prev, x, 0.0, 1, probe, totalLength, windowWidth);
    case TouchStart(fingers, center, spread, probe) =>
      StartGestureBounded(prev, center, spread, fingers, probe, totalLength, windowWidth);
    case MouseMove(x) => MouseMoveBounded(prev, x, totalLength, windowWidth);
    case TouchMove(fingers, center, spread) => TouchMoveBounded(prev, fingers, center, spread, totalLength, windowWidth);
    case TouchStop(fingers, center, spread) => TouchStopBounded(prev, fingers, center, spread, totalLength, windowWidth);
    case CancelDrag =>
    case Wheel(zoomCenter, factor) => WheelBounded(prev, zoomCenter, factor, totalLength, windowWidth);
  }

  lemma StartGestureBounded(prev: Selection, pos: real, spread: real, fingers: nat, probe: MapProbe,
                            totalLength: real, windowWidth: real)
    requires windowWidth > 0.0 && Valid(prev, totalLength, windowWidth)
    ensures Bounded(StartGesture(prev, pos, spread, fingers, probe), totalLength, windowWidth)
  {
  }

  lemma MouseMoveBounded(prev: Selection, x: real, totalLength: real, windowWidth: real)
    requires windowWidth > 0.0 && Valid(prev, totalLength, windowWidth)
    ensures Bounded(MouseMoveUpdate(prev, x), totalLength, windowWidth)
  {
    ScrollableWidthNonneg(windowWidth, prev.zoom);
  }

  lemma TouchMoveBounded(prev: Selection, fingers: nat, center: real, spread: real, totalLength: real, windowWidth: real)
    requires windowWidth > 0.0 && Valid(prev, totalLength, windowWidth)
    ensures Bounded(TouchMoveUpdate(prev, fingers, center, spread, totalLength, windowWidth), totalLength, windowWidth)
  {
    var r := TouchMoveUpdate(prev, fingers, center, spread, totalLength, windowWidth);
    ScrollableWidthNonneg(windowWidth, r.zoom);
  }

  lemma TouchStopBounded(prev: Selection, fingers: nat, center: real, spread: real, totalLength: real, windowWidth: real)
    requires windowWidth > 0.0 && Valid(prev, totalLength, windowWidth)
    ensures Bounded(TouchStopUpdate(prev, fingers, center, spread), totalLength, windowWidth)
  {
  }

  lemma WheelBounded(prev: Selection, zoomCenter: real, factor: real, totalLength: real, windowWidth: real)
    requires windowWidth > 0.0 && Valid(prev, totalLength, windowWidth)
    ensures Bounded(WheelUpdate(prev, zoomCenter, factor, totalLength, windowWidth), totalLength, windowWidth)
  {
    var r := WheelUpdate(prev, zoomCenter, factor, totalLength, windowWidth);
    ScrollableWidthNonneg(windowWidth, r.zoom);
  }

  /** The selection stays valid under every gesture. */
  lemma DispatchKeepsValid(prev: Selection, e: Event, days: seq<Day>, totalLength: real, windowWidth: real)
    requires windowWidth > 0.0 && Valid(prev, totalLength, windowWidth) && WellFormedEvent(e)
    ensures Valid(Dispatch(Some(prev), e, days, totalLength, windowWidth).value, totalLength, windowWidth)
    ensures var r := Dispatch(Some(prev), e, days, totalLength, windowWidth).value;
      !((e.MouseDown? || e.TouchStart?) && e.probe.NoMap?) ==>
        && r.density == DensityIndex(totalLength / r.zoom, windowWidth)
        && r.view.to.distance - r.view.from.distance == totalLength / r.zoom
        && r.view.from.day == DayContaining(days, r.view.from.distance)
        && r.view.to.day == DayContaining(days, r.view.to.distance)
        && (totalLength >= 0.0 ==>
              && 0.0 <= r.view.from.distance <= r.view.to.distance <= totalLength
              && r.density <= DensityIndex(totalLength, windowWidth))
  {
    if !((e.MouseDown? || e.TouchStart?) && e.probe.NoMap?) {
      var s := Update(prev, e, totalLength, windowWidth);
      UpdateBounded(prev, e, totalLength, windowWidth);
      DeriveKeepsBounded(s, days, totalLength, windowWidth);
      if totalLength >= 0.0 {
        DerivedViewWithinTrail(s, days, totalLength, windowWidth);
        DerivedDensityAtMostTrail(s, days, totalLength, windowWidth);
      }
    }
  }

  /** The recompute turns a bounded selection into a valid one. */
  lemma DeriveKeepsBounded(s: Selection, days: seq<Day>, totalLength: real, windowWidth: real)
    requires windowWidth > 0.0 && Bounded(s, totalLength, windowWidth)
    ensures Valid(Derive(s, days, totalLength, windowWidth), totalLength, windowWidth)
  {
    var r := Derive(s, days, totalLength, windowWidth);
    assert r.zoom == s.zoom && r.scroll == s.scroll && r.dragging == s.dragging;
  }

  /** The page opens on a valid selection. */
  lemma InitialValid(days: seq<Day>, totalLength: real, windowWidth: real)
    requires windowWidth > 0.0 && totalLength >= 0.0
    ensures Valid(InitialSelection(days, totalLength, windowWidth), totalLength, windowWidth)
  {
    var s := InitialSelection(days, totalLength, windowWidth);
    assert totalLength / InitialTimelineViewDistance <= totalLength / MinTimelineViewDistance;
    ScrollableWidthNonneg(windowWidth, s.zoom);
  }

  /** The layout effect keeps (or creates) a valid selection whatever the new width and trail. */
  lemma LayoutValid(prev: Option<Selection>, days: seq<Day>, totalLength: real, windowWidth: real)
    requires windowWidth > 0.0 && totalLength >= 0.0
    requires prev.Some? ==> prev.value.dragging.zoom >= 1.0
    ensures Valid(Layout(prev, days, totalLength, windowWidth), totalLength, windowWidth)
  {
    if prev.None? {
      InitialValid(days, totalLength, windowWidth);
    }
  }

  /** After the gesture ends, moves of the mouse or the fingers leave the selection alone. */
  lemma CancelledMovesIgnored(prev: Selection, x: real, fingers: nat, center: real, spread: real,
                              totalLength: real, windowWidth: real)
    requires prev.dragging.zoom > 0.0
    ensures var s := CancelUpdate(prev);
      MouseMoveUpdate(s, x) == s && TouchMoveUpdate(s, fingers, center, spread, totalLength, windowWidth) == s
  {
  }

  /** Within the allowed range, clamping the zoom changes nothing. */
  lemma ClampZoomKeepsBounded(zoom: real, totalLength: real)
    requires 1.0 <= zoom <= ZoomCap(totalLength)
    ensures ClampZoom(zoom, totalLength) == zoom
  {
  }

  /**
   * Lifting one of several fingers re-anchors the gesture where it is: a move with the
   * remaining fingers at the same centre and spread leaves scroll and zoom unchanged.
   */
  lemma TouchStopThenStill(prev: Selection, fingers: nat, center: real, spread: real,
                           totalLength: real, windowWidth: real)
    requires windowWidth > 0.0 && Valid(prev, totalLength, windowWidth)
    requires prev.dragging.fingers != 0 && fingers != 0
    ensures var s := TouchStopUpdate(prev, fingers, center, spread);
      TouchMoveUpdate(s, fingers, center, spread, totalLength, windowWidth) == s
  {
    var s := TouchStopUpdate(prev, fingers, center, spread);
    var d := s.dragging;
    ClampZoomKeepsBounded(prev.zoom, totalLength);
    if spread != 0.0 {
      assert PinchZoom(d, spread, s.zoom) == prev.zoom * (spread / spread);
    }
    assert PinchZoom(d, spread, s.zoom) == prev.zoom;
    var r := TouchMoveUpdate(s, fingers, center, spread, totalLength, windowWidth);
    assert r.zoom == prev.zoom;
    DivSelf(prev.zoom);
    assert (d.scroll + d.pos) * (r.zoom / d.zoom) == prev.scroll + center;
  }

  /** A wheel step with factor 1 (no wheel movement) changes nothing. */
  lemma WheelStill(prev: Selection, zoomCenter: real, totalLength: real, windowWidth: real)
    requires windowWidth > 0.0 && Valid(prev, totalLength, windowWidth)
    ensures WheelUpdate(prev, zoomCenter, 1.0, totalLength, windowWidth) == prev
  {
    ClampZoomKeepsBounded(prev.zoom, totalLength);
    var r := WheelUpdate(prev, zoomCenter, 1.0, totalLength, windowWidth);
    assert r.zoom == prev.zoom;
    DivSelf(prev.zoom);
    assert (zoomCenter + prev.scroll) * (r.zoom / prev.zoom) - zoomCenter == prev.scroll;
  }

  /** Pressing and moving back to the pressed position scrolls to where the press found it. */
  lemma PressThenStill(prev: Selection, x: real, boundsCenter: LatLng, mapCenter: LatLng,
                       totalLength: real, windowWidth: real)
    requires windowWidth > 0.0 && Valid(prev, totalLength, windowWidth)
    ensures var s := StartGesture(prev, x, 0.0, 1, Centers(boundsCenter, mapCenter));
      MouseMoveUpdate(s, x) == s
  {
  }
}
