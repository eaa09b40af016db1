# WildTracking core in Dafny

WildTracking shows an expedition on a web page. The page has a map and a timeline.

- **Trail assembly.** Position records from a satellite tracker are folded into *days*. A day closes after an end-of-day (`'OK'`) record. A day made of one such record is a *rest day*, worth two distance units. Every night between days is worth one unit.
- **Photo attachment.** Photos are attached to the days as the records pass their timestamps.
- **Simplification.** The trail is reduced to several *density levels*. Each level keeps a point only when enough distance has built up since the last kept point, with a threshold that doubles from one level to the next.
- **Viewport.** A viewport `Selection` (zoom, scroll, the visible `from`/`to` distances and days, the chosen density level) changes with every pan, pinch, wheel and resize.
- **Timeline.** The timeline draws:
  - month stripes, night blocks and an elevation grid;
  - the visible days of the chosen density level;
  - month labels.
- **Map camera.** The map frames the visible stretch of trail: it interpolates a position for the view's start and end, builds an overscanned box, and unions the boxes of the days in between.
- **Photo ingestion.** A cloud function ingests uploaded photos: it parses the storage path and the EXIF tags, and paints a framed, partly transparent marker thumbnail.

The Dafny modules follow the source files:

| module | file | models |
|---|---|---|
| `Util` | util.dfy | `Option`, the clamps written as `Math.max(Math.min(…))`, and an index window (`filter((_, i) => lo <= i <= hi)`) |
| `Numerals` | numerals.dfy | decimal rendering of a natural number, and JavaScript `Number.parseInt` |
| `Geometry` | geometry.dfy | `Math.ts`: `lerp`, degrees/minutes/seconds and hemisphere letters, plus latitude/longitude boxes |
| `Trail` | trail.dfy | the shapes of points, images and days |
| `Density` | density.dfy | `densityIndex` |
| `Assembly` | assembly.dfy | the day-assembly loop and the demo-path length formula |
| `Simplifier` | simplifier.dfy | the distance thresholds and the multi-level simplification |
| `Viewport` | viewport.dfy | the `Selection` transitions of `ExpeditionTrail.tsx`, plus the gesture starts of `Timeline.tsx` |
| `Timeline` | timeline.dfy | `touchStats`, months and night blocks, maximum elevation, the height-grid loops, the visible-level filter and month-label fractions |
| `Camera` | camera.dfy | the camera-framing effect, trail-marker filtering and the selected-photo route of `Map.tsx` |
| `ImageIngest` | image_ingest.dfy | path and file-name parsing and the thumbnail mask of `parseImageMetadata.ts` |

Distances, zoom and scroll are `real`. Some calls become parameters or characterisations, as listed under "## Left out":

- the great-circle distance;
- `Math.sqrt`, `Math.log2` and `Math.exp`;
- the tracker's date and time fields.

Code that works by changing things step by step is modelled as methods with loops and invariants, or as one-step methods whose contract is the loop invariant:

- the assembly loop;
- the simplification loops;
- `touchStats`;
- the month and night scans;
- the height-grid loops;
- the camera box union;
- the thumbnail mask, which works in place on an `array`.

Each of these methods states its result or new state through specification functions and predicates: `ExpectedPoints`, `Placements` and `BoxOf` for assembly; `DayReduced` and `CoarseScan` for simplification; `MonthChanges` for the month scan; and `MaskedChannel` for the mask. The camera union is stated as the least box holding the framed points and the days' boxes. The properties these specifications promise are lemmas beside them.

## Model

| member | source | states |
|---|---|---|
| Density.LeastPow2AtLeast | front-end/src/useTrailLoader.ts:19 | the result k is the least natural number with 2^k ≥ x; it stands for `ceil(log2 x)` clamped at 0 |
| Density.DensityIndex | front-end/src/useTrailLoader.ts:17-21 | the index k is a natural number with 2^k ≥ 300·viewDistance/windowWidth, and 2^(k−1) is below that ratio whenever k > 0 |
| Density.DensityIndexIsLeast | front-end/src/useTrailLoader.ts:17-21 | every j with 2^j ≥ 300·viewDistance/windowWidth is ≥ the density index, so the index is the least such level and is 0 when the ratio is ≤ 1 |
| Density.DensityIndexMonotone | front-end/src/useTrailLoader.ts:17-21 | for a fixed window width, a longer view distance never gives a smaller density index |
| Density.Pow2Monotone | front-end/src/useTrailLoader.ts:19 | powers of two grow with the exponent |
| Assembly.ExpectedPoints | front-end/src/useTrailLoader.ts:104-135 | the n points the loop produces from the first n records: each record's position, end-of-day flag and time, with the distance from the previous record, or 0 after an end-of-day record or at the start |
| Assembly.HopFromLastLocation | front-end/src/useTrailLoader.ts:101-146 | the distance the loop computes from `lastLocation` equals the hop to the previous record, or 0 when that record ended a day |
| Assembly.AddPoint | front-end/src/useTrailLoader.ts:126-152 | appending record i to the open day keeps the trail well formed: the points so far are the expected ones; the day's end is the running total (+2 for a rest day); the day is a rest day iff its only point is end-of-day; the day's box is the box of its points; the images are unchanged |
| Assembly.EndDay | front-end/src/useTrailLoader.ts:151-164 | after an end-of-day record the total grows by 1, and a new empty day starting at the new total is opened unless it was the last record; the folded state for records 0..i holds |
| Assembly.NextDayOpened | front-end/src/useTrailLoader.ts:151-164 | opening the next day one unit after the closed day's end preserves the folded-trail invariant |
| Assembly.DayKept | front-end/src/useTrailLoader.ts:151-155 | when no day is opened, the invariant holds with the total grown by 1 exactly after an end-of-day record |
| Assembly.TakeImage | front-end/src/useTrailLoader.ts:114-124 | exactly: no photo taken (none left, or the next is not older than the record) leaves days and photo index unchanged; a taken photo is appended to the last day when it has the record's date, else to the day before, and the photo index goes up by one; it fails iff a photo is taken with another date while only one day exists (`days[length - 2]` is undefined) |
| Assembly.Step | front-end/src/useTrailLoader.ts:103-165 | one pass of the loop body keeps the loop invariant (points, day chaining, rest days, closed days, day boxes, and each day's photos equal to the reference placement); it fails iff the reference placement of records 0..i fails |
| Assembly.FoldRecords | front-end/src/useTrailLoader.ts:101-165 | the loop fails iff the reference placement over all records fails, reporting the first record at which it fails and the photo index there; otherwise the invariant holds over all records |
| Assembly.FirstDay | front-end/src/useTrailLoader.ts:86-94 | the loop starts with one empty, non-rest day spanning [0, 0], total 0, no previous position and no photo taken, and this state satisfies the loop invariant for zero records |
| Assembly.AssembleDays | front-end/src/useTrailLoader.ts:86-167 | no records give no days and total 0; otherwise the days' points are exactly the expected points and the trail is well formed: a day closes right after an end-of-day record, only a day's last point is end-of-day, no day is empty, the first point after a break has distance 0, each day starts one unit after the previous one ends, a rest day spans 2, each day's box is the box of its points, and the total is the last day's end (+1 when it closed); each day holds exactly the photos the reference placement files on it, in order; it fails iff that placement fails, and then names the first record at which it fails; without photos it never fails |
| Assembly.LoopStart | front-end/src/useTrailLoader.ts:86-103 | the initial single empty day satisfies the loop invariant |
| Assembly.LoopEnd | front-end/src/useTrailLoader.ts:165-167 | the invariant after the last record gives the expected points, a well-formed trail and at most one photo per record |
| Assembly.ImagesTakenIsPermutation | front-end/src/useTrailLoader.ts:114-124 | the photos attached to days are, as a multiset, the first `imageIndex` photos |
| Assembly.Placements | front-end/src/useTrailLoader.ts:114-124 | the reference placement of photos over the first n records: at most one photo per record, never more than exist, each on a day no later than the record's day |
| Assembly.PlacementsStayFailed | front-end/src/useTrailLoader.ts:114-124 | once the placement fails it fails for every longer prefix of the records, as the thrown error ends the loop |
| Assembly.PlacementFailure | front-end/src/useTrailLoader.ts:114-124 | the placement fails at record i only when no end-of-day record precedes it and the next photo is older than the record with another date |
| Assembly.PlacementAdvanced | front-end/src/useTrailLoader.ts:114-124 | one record's photo step, as TakeImage performs it, extends the reference placement by that record and keeps every day's photos equal to the filed ones |
| Assembly.BoxOf | front-end/src/useTrailLoader.ts:148-149 | a day's bounding box after extending an empty box with each point: well formed, and empty iff there are no points |
| Assembly.BoxOfHoldsAll | front-end/src/useTrailLoader.ts:148-149 | the box holds every point of the day |
| Assembly.BoxOfIsLeast | front-end/src/useTrailLoader.ts:148-149 | every well-formed box holding all the points contains the day's box |
| Assembly.DemoSpanOfClosedDay | front-end/src/useTrailLoader.ts:71-73 | for a closed day, the demo formula's day length (2 for one point, else the sum of point distances) equals end − start |
| Assembly.DemoPrefix | front-end/src/useTrailLoader.ts:71-73 | over chained closed days, the demo lengths of the first k days plus k equal the k-th day's end + 1 |
| Assembly.DemoTotalLength | front-end/src/useTrailLoader.ts:71-73 | over chained closed days, the demo formula (2 per one-point day, else the sum of distances, plus one per day) gives the last day's end + 1 |
| Assembly.DemoAllClosed | front-end/src/useTrailLoader.ts:71-73 | the sum of the demo day lengths plus the day count reaches one unit past the last end on chained closed days |
| Assembly.DemoTotalAgreesWithAssembly | front-end/src/useTrailLoader.ts:69-75 | on a well-formed trail whose last point ends a day, the demo total-length formula gives the same total as the assembly loop |
| Simplifier.Thresholds | front-end/src/useTrailLoader.ts:183-188 | the loop builds m+1 thresholds: 0 for the finest level, then 2^(k−1)·base for level k; the coarsest in-day threshold is 2^m·base |
| Simplifier.ThresholdsDouble | front-end/src/useTrailLoader.ts:183-188 | thresholds double from level to level, the coarsest in-day threshold is one doubling beyond the last one, and all thresholds are ordered below it |
| Simplifier.MaxDensityIndex | front-end/src/useTrailLoader.ts:172-174 | the maximum index is the density index of the total length (1 without a path), and every view distance up to that length has a density index at most it |
| Simplifier.PlaceFirstPoint | front-end/src/useTrailLoader.ts:196-214 | the day's first point is placed per the night distance and level thresholds, starting the tracked state; on a later multi-point day whose night gap reaches the last threshold, the coarsest level starts with that point recorded with distance 0; a single-point day keeps its only point on the coarsest level and nothing on finer levels |
| Simplifier.AddDayDistances | front-end/src/useTrailLoader.ts:219-221 | each finer level's cached distance grows by that level's day distance |
| Simplifier.FinerLevels | front-end/src/useTrailLoader.ts:224-235 | each finer level keeps the point iff its accumulated distance reaches its threshold (resetting it), else accumulates; the coarsest level is untouched |
| Simplifier.KeepCoarse | front-end/src/useTrailLoader.ts:217-222 | keeping a point on the coarsest level (threshold reached or last point) preserves the tracking invariant and records the accumulated distance |
| Simplifier.KeepFiner | front-end/src/useTrailLoader.ts:224-235 | passing a point to the finer levels preserves the tracking invariant |
| Simplifier.AppendPick | front-end/src/useTrailLoader.ts:217-233 | appending point p keeps each level an in-order subsequence of the day's points |
| Simplifier.ScanPoint | front-end/src/useTrailLoader.ts:215-236 | one point of the scan keeps the invariant; the last point is always kept on the coarsest level |
| Simplifier.Finished | front-end/src/useTrailLoader.ts:237-242 | the final state of the scan gives the day's reduction predicate |
| Simplifier.SimplifyDay | front-end/src/useTrailLoader.ts:190-242 | each level is an in-order subsequence of the day's points; the coarsest level keeps exactly the points its reference greedy scan keeps, each recording the distance walked to it, and the first point, kept after a night gap reaching the last threshold, recording 0; every finer level is exactly the output of its reference scan, points and recorded distances; the coarsest keeps the last point of a multi-point day, the only point of a single-point day and the first point of day 0; single-point days give nothing to finer levels; no point is kept both coarsest and finer |
| Simplifier.PushLevels | front-end/src/useTrailLoader.ts:243-245 | every level gets one more day: the input day with its points replaced by that level's points |
| Simplifier.AllReducedStep | front-end/src/useTrailLoader.ts:190-246 | the per-day reduction of days 0..d−1 extends to days 0..d by day d's reduction |
| Simplifier.CoarseScan | front-end/src/useTrailLoader.ts:216-228 | the reference greedy scan of the coarsest level over the points before p keeps at most p indices |
| Simplifier.CoarseScanBelow | front-end/src/useTrailLoader.ts:216-228 | the scan's kept indices are below p and strictly increasing |
| Simplifier.CoarseScanExtends | front-end/src/useTrailLoader.ts:216-228 | scanning further only appends indices at or after the earlier end |
| Simplifier.CoarseKeepRule | front-end/src/useTrailLoader.ts:219-223 | point p ≥ 1 is kept on the coarsest level iff it is the last point or the distance walked since the last kept point, with its own and the night gap added, reaches the in-day threshold |
| Simplifier.FineScan | front-end/src/useTrailLoader.ts:216-240 | the reference scan of a finer level over the points before p: a point the coarsest level keeps moves the walked distance into the cache; otherwise the point is kept when the walked distance (plus the night gap while neither level holds a point) reaches the level's threshold, recording cache + walked; it keeps at most p points |
| Simplifier.CoarseBranch | front-end/src/useTrailLoader.ts:217-228 | keeping point p on the coarsest level advances both reference scans, records the walked distance on the point and zeroes the walked distances |
| Simplifier.FinerBranch | front-end/src/useTrailLoader.ts:229-240 | passing point p to the finer levels advances both reference scans and leaves the coarsest level unchanged |
| Simplifier.AddDay | front-end/src/useTrailLoader.ts:191-246 | simplifying day d and pushing its levels extends the built levels by one day |
| Simplifier.PushedLevels | front-end/src/useTrailLoader.ts:243-245 | after a push, each level has one more entry, and entry d is the day with that level's points |
| Simplifier.Simplify | front-end/src/useTrailLoader.ts:183-249 | there are m+1 levels, each with exactly one entry per input day; entry d is day d with its other fields unchanged and its points the reduced ones; every day is reduced as SimplifyDay states |
| Simplifier.AssembledDaysNonEmpty | front-end/src/useTrailLoader.ts:126-164 | every day of an assembled trail has points, so simplification applies to it |
| Viewport.FirstDayHolding | front-end/src/ExpeditionTrail.tsx:29-32 | the first day index from `from` on with start ≤ d < end+1, or −1 when none holds d |
| Viewport.DayContaining | front-end/src/ExpeditionTrail.tsx:29-32 | the first day with start ≤ d < end+1; the last index when no day matches; −1 only for an empty trail |
| Viewport.InitialSelection | front-end/src/ExpeditionTrail.tsx:60-92 | zoom = max(total/50, 1); scroll = maxScroll = w·zoom − w; `to` is (last day, total); to − from = total/zoom; from.day contains from.distance; density = densityIndex(total/zoom, w); the dragging state is all zero with zoom 1 and no fingers down |
| Viewport.Resize | front-end/src/ExpeditionTrail.tsx:95-106 | only zoom, maxScroll and scroll change; zoom is the clamp of the old zoom to [1, total/10] (1 when total/10 < 1), unchanged when in range, 1 below and total/10 above; maxScroll = w·zoom − w ≥ 0; scroll keeps its fraction of maxScroll (0 if the old maxScroll is 0), becoming 0 for a fraction ≤ 0 and maxScroll for a fraction ≥ 1 |
| Viewport.KeepFraction | front-end/src/ExpeditionTrail.tsx:98-99 | a fraction in [0, 1] of maxScroll is not changed by the clamp |
| Viewport.Layout | front-end/src/ExpeditionTrail.tsx:56-108 | the effect gives the initial selection when there is none, else the resized previous one |
| Viewport.Derive | front-end/src/ExpeditionTrail.tsx:113-131 | only maxScroll, density and view change: maxScroll = w·zoom − w; density = densityIndex(total/zoom, w); the view starts at the scrolled fraction of the trail and spans total/zoom; its days contain its distances |
| Viewport.DeriveIdempotent | front-end/src/ExpeditionTrail.tsx:113-131 | recomputing the derived fields twice gives the same selection as once |
| Viewport.DerivedViewWithinTrail | front-end/src/ExpeditionTrail.tsx:113-131 | with zoom ≥ 1 and 0 ≤ scroll ≤ maxScroll the view lies within [0, total] |
| Viewport.DerivedDensityAtMostTrail | front-end/src/ExpeditionTrail.tsx:113-131 | the derived density is at most the density index of the whole trail, hence at most the maximum density index |
| Viewport.DerivedStretch | front-end/src/ExpeditionTrail.tsx:113-131 | the view length is total/zoom |
| Viewport.VisibleStretch | front-end/src/ExpeditionTrail.tsx:116-128 | the start distance is ≥ 0, the view length is in [0, total], and start + length ≤ total |
| Viewport.ClampZoom | front-end/src/ExpeditionTrail.tsx:95 | the zoom is in [1, max(1, total/10)]; it is unchanged when in [1, total/10], 1 when ≤ 1, and total/10 when above it |
| Viewport.ClampZoomKeepsBounded | front-end/src/ExpeditionTrail.tsx:161 | a zoom already within bounds is a fixed point of the clamp |
| Viewport.StartGesture | front-end/src/Timeline.tsx:370-418 | without map bounds or centre the selection is unchanged; otherwise the drag anchor records fingers, spread, position, scroll, zoom and the centre offset, and nothing else changes |
| Viewport.MouseMoveUpdate | front-end/src/ExpeditionTrail.tsx:137-147 | idle: no change; dragging: only scroll changes, to anchor.scroll + anchor.pos − x when that is in [0, maxScroll], 0 below, maxScroll above |
| Viewport.TouchMoveUpdate | front-end/src/ExpeditionTrail.tsx:149-177 | ignored when idle or the finger count differs; else only zoom and scroll change: zoom is the pinch zoom clamped to [1, total/10] (the previous zoom when the anchor spread is 0); scroll keeps the point under the fingers put when that lies in [0, w·zoom − w], and is 0 below and w·zoom − w above |
| Viewport.CancelUpdate | front-end/src/ExpeditionTrail.tsx:179-185 | only the finger count changes, to 0 |
| Viewport.TouchStopUpdate | front-end/src/ExpeditionTrail.tsx:187-213 | no fingers left: as a cancel; idle: no change; otherwise re-anchors to the current scroll, zoom, centre, spread and count, keeping the centre offset |
| Viewport.WheelUpdate | front-end/src/ExpeditionTrail.tsx:215-228 | only zoom and scroll change; zoom = clamp(zoom·f, 1, total/10); scroll keeps the timeline point under the cursor put when that lies in [0, w·zoom′ − w], and is 0 below and w·zoom′ − w above |
| Viewport.Update | front-end/src/ExpeditionTrail.tsx:137-228 | each event kind is handled by its own transition |
| Viewport.Dispatch | front-end/src/ExpeditionTrail.tsx:113-131 | every transition goes through the derived recompute; no selection stays none; a gesture start without a map keeps the selection |
| Viewport.UpdateBounded | front-end/src/ExpeditionTrail.tsx:137-228 | every transition from a valid selection keeps 1 ≤ zoom ≤ cap and 0 ≤ scroll ≤ w·zoom − w |
| Viewport.StartGestureBounded | front-end/src/Timeline.tsx:370-418 | a gesture start keeps the bounds |
| Viewport.MouseMoveBounded | front-end/src/ExpeditionTrail.tsx:137-147 | a pan keeps the bounds |
| Viewport.TouchMoveBounded | front-end/src/ExpeditionTrail.tsx:149-177 | a pinch keeps the bounds |
| Viewport.TouchStopBounded | front-end/src/ExpeditionTrail.tsx:187-213 | a touch end keeps the bounds |
| Viewport.WheelBounded | front-end/src/ExpeditionTrail.tsx:215-228 | a wheel zoom keeps the bounds |
| Viewport.DispatchKeepsValid | front-end/src/ExpeditionTrail.tsx:113-228 | a valid selection stays valid after any event: 1 ≤ zoom ≤ cap and 0 ≤ scroll ≤ maxScroll; unless a gesture starts without a map, the density is the density index of total/zoom, the view spans total/zoom, its days contain its distances, it lies within [0, total] and its density is at most that of the whole trail |
| Viewport.DeriveKeepsBounded | front-end/src/ExpeditionTrail.tsx:113-131 | the recompute turns a bounded selection into a valid one |
| Viewport.InitialValid | front-end/src/ExpeditionTrail.tsx:60-92 | the initial selection is valid |
| Viewport.LayoutValid | front-end/src/ExpeditionTrail.tsx:56-108 | the selection after load or resize is valid |
| Viewport.CancelledMovesIgnored | front-end/src/ExpeditionTrail.tsx:137-185 | after a cancel, mouse and touch moves leave the selection unchanged |
| Viewport.TouchStopThenStill | front-end/src/ExpeditionTrail.tsx:149-213 | right after re-anchoring, a touch move with the same fingers, centre and spread changes nothing |
| Viewport.WheelStill | front-end/src/ExpeditionTrail.tsx:215-228 | a wheel factor of 1 leaves a valid selection unchanged |
| Viewport.PressThenStill | front-end/src/ExpeditionTrail.tsx:137-147 | right after a press, a mouse move to the same x changes nothing |
| Timeline.TouchStats | front-end/src/Timeline.tsx:26-43 | the centre is the mean of the touches ((0,0) for none); the spread is 0 for at most one touch, else the mean distance to the centre, which is ≥ 0 for a non-negative square root |
| Timeline.Centre | front-end/src/Timeline.tsx:27-31 | the accumulated centre equals the mean of the touch coordinates |
| Timeline.MeanOffset | front-end/src/Timeline.tsx:33-40 | the accumulated spread equals the mean distance to the centre |
| Timeline.OffsetsNonneg | front-end/src/Timeline.tsx:33-40 | the sum of distances is non-negative |
| Timeline.SumXBetween | front-end/src/Timeline.tsx:28-31 | a sum of n coordinates in [lo, hi] lies in [n·lo, n·hi] |
| Timeline.CenterWithinTouches | front-end/src/Timeline.tsx:27-31 | the centre lies within the span of the touches |
| Timeline.MonthChangesAppend | front-end/src/Timeline.tsx:97-106 | scanning a + b records the month changes of a then of b |
| Timeline.MonthChangesDiffer | front-end/src/Timeline.tsx:97-106 | the recorded months never repeat back to back, and the last is the current month |
| Timeline.SetLastEnd | front-end/src/Timeline.tsx:95 | only the last stripe's end changes, to the given distance; stripes stay contiguous, and forward when the end is not before the last start |
| Timeline.NoteMonth | front-end/src/Timeline.tsx:97-106 | the current stripe ends at the point, and a new stripe for the point's month is appended exactly when the month differs; stripes stay contiguous and forward |
| Timeline.NoteNight | front-end/src/Timeline.tsx:108-124 | non-night points close the block run; a night point opens a block at its distance, extends the open one on the same night, or closes it with the new date and opens the next block at its end; block order is kept |
| Timeline.ScanPoint | front-end/src/Timeline.tsx:97-124 | one point of the day's scan keeps the scan invariant: months, open block and distance so far |
| Timeline.ScanDay | front-end/src/Timeline.tsx:92-125 | a day's scan appends its month changes, ends the current stripe at the day's last distance, keeps stripes contiguous and forward, and opens at most one block per night point; with non-negative distances its blocks are ordered and lie within the day's stretch |
| Timeline.AdditionalMetadata | front-end/src/Timeline.tsx:78-138 | no stripes or blocks for total 0; else the first stripe is the first point's month from 0, stripes follow the month changes with no repeats side by side, each stripe starts where the previous one ends, and there is one block list per day, ordered when distances are non-negative; on an assembled trail the stripes run forward, the last ends at the total plus the last day's stretch, and each day's blocks lie within its stretch |
| Timeline.MetadataOverDays | front-end/src/Timeline.tsx:83-137 | the loop over the days establishes the metadata invariant for all days |
| Timeline.MetadataComplete | front-end/src/Timeline.tsx:83-137 | the invariant over all days gives the month list, contiguity and per-day block facts |
| Timeline.LaidAtEnd | front-end/src/Timeline.tsx:83-137 | on an assembled trail, the invariant over all days gives forward stripes ending at the total plus the last stretch, and blocks within each day |
| Timeline.ReachedAtEnd | front-end/src/Timeline.tsx:83-137 | on an assembled trail, the distance the scan reaches after all days is the total plus the last day's stretch |
| Timeline.ClosedDayReach | front-end/src/Timeline.tsx:92-135 | a closed day's start, point distances and stretch reach one unit past its end |
| Timeline.AddDayMetadata | front-end/src/Timeline.tsx:90-136 | one day's points, night blocks and rest-day stretch keep the metadata invariant |
| Timeline.MonthsAfterPoints | front-end/src/Timeline.tsx:90-136 | the month list after the points walked so far plus this day's points is the list for all of them |
| Timeline.StretchOverNight | front-end/src/Timeline.tsx:134-135 | the current stripe runs on 3 units after a rest day, 1 otherwise; contiguity and forward order are kept |
| Timeline.DayMaxElevation | front-end/src/Timeline.tsx:140-144 | a day's maximum elevation is ≥ 0, ≥ every point's elevation, and is 0 or attained |
| Timeline.MaxHeight | front-end/src/Timeline.tsx:140-144 | the trail's maximum elevation is ≥ 0, ≥ every elevation, and is 0 or attained |
| Timeline.BelowExact | front-end/src/Timeline.tsx:281-293 | a height is labelled iff it is a line below the maximum |
| Timeline.HeightIndicators | front-end/src/Timeline.tsx:257-312 | main lines are at 0 and every multiple of 500 below maxHeight + 500, and labels are the lines above 0 below maxHeight |
| Timeline.SubHeightIndications | front-end/src/Timeline.tsx:314-344 | dashed lines are exactly the multiples of 100 that are not multiples of 500 below maxHeight + 500, ascending |
| Timeline.SkipsOnlyMultiplesOf500 | front-end/src/Timeline.tsx:331-332 | the loop's step skips no dashed height |
| Timeline.VisibleTimeline | front-end/src/Timeline.tsx:357-367 | the coarsest level is always drawn; a finer level only when density < last index, and only days from.day−1 to to.day+1 |
| Timeline.MonthLabelFor | front-end/src/Timeline.tsx:424-442 | a month gets no label iff it lies wholly outside the view; a label lies within [0, 1]; its left edge is the month start's fraction, or 0 when the month starts before the view; its right edge is the month end's fraction, or 1 when the month ends after the view |
| Timeline.FractionFacts | front-end/src/Timeline.tsx:424-442 | properties of the view fractions used by the month labels |
| Geometry.Lerp | front-end/src/Math.ts:23-28 | lerp(a, b, 0) = a, lerp(a, b, 1) = b, and lerp(a, a, t) = a for all t |
| Geometry.LerpBetween | front-end/src/Math.ts:23-28 | for t in [0, 1] each coordinate lies between the endpoints' |
| Geometry.ScalarBetween | front-end/src/Math.ts:25-26 | a mix with t in [0, 1] lies between its ends |
| Geometry.MixOffset | front-end/src/Math.ts:25-26 | x(1−t) + yt = x + (y−x)t |
| Geometry.DmsOf | front-end/src/Math.ts:30-36 | degrees = floor(abs(c)); minutes and seconds are integers in [0, 59] |
| Geometry.ToDegreesMinutesAndSeconds | front-end/src/Math.ts:30-38 | the text is degrees, the two-character mark `Â°`, minutes, `'`, seconds and `"`, each number rendered in decimal; it has no line break |
| Geometry.DmsIgnoresSign | front-end/src/Math.ts:31 | c and −c give the same text |
| Geometry.Cardinal | front-end/src/Math.ts:42-44 | the positive letter iff the coordinate is ≥ 0, else the negative one |
| Geometry.ConvertDms | front-end/src/Math.ts:40-47 | latitude text, then N iff lat ≥ 0 else S, a single newline, then longitude text, then E iff lng ≥ 0 else W |
| Geometry.Extend | front-end/src/useTrailLoader.ts:149 | the extended box holds the point and, when the old box is well formed, is well formed and holds the old box |
| Geometry.ExtendIsLeast | front-end/src/useTrailLoader.ts:149 | every well-formed box holding the old box and the point holds the extended box, so `extend` gives the least such box |
| Geometry.Union | front-end/src/Map.tsx:154 | the smallest box holding both boxes |
| Geometry.Center | front-end/src/Map.tsx:160 | a well-formed box holds its centre |
| Numerals.NatToString | front-end/src/Map.tsx:208 | a non-empty digit string without a leading zero |
| Numerals.DecimalValueOfNatToString | front-end/src/Map.tsx:208 | reading the digits back gives the number |
| Numerals.ParseInt | front-end/src/Map.tsx:194-196 | `Number.parseInt` without a radix: after leading white space and one optional sign, a number exists iff a decimal digit follows and it is not a `0x` prefix without a hex digit; its value is the signed value of the longest decimal digit run, or of the hex run after `0x`/`0X` |
| Numerals.ParseIntOfDecimal | front-end/src/Map.tsx:194-196 | white space, an optional sign, a digit run and any non-digit rest parse to the signed digit value |
| Numerals.ParseIntOfDigits | front-end/src/Map.tsx:194-196 | a digit string without a leading zero parses to its decimal value |
| Numerals.ParseIntOfNatToString | front-end/src/Map.tsx:194-208 | parsing a rendered natural number gives it back |
| Numerals.PrefixLength | front-end/src/Map.tsx:194-195 | the longest prefix satisfying the predicate |
| Camera.FramePoint | front-end/src/Map.tsx:118-132 | before the end of a day of positive length (including a distance before its start, with a negative ratio): lerp of the day's first and last points by the ratio; from the day's end on (including a zero-length day): lerp from its last point toward the next day's first (itself on the last day) by the excess; no finite point exactly when the day is zero-length and the distance lies before it |
| Camera.NextDayStart | front-end/src/Map.tsx:128-130 | the next day's first point, or the day's last point on the last day |
| Camera.FramePointAlongDay | front-end/src/Map.tsx:121-125 | inside a day the framed point lies within the box of the day's first and last points |
| Camera.NightLeadsToNextDay | front-end/src/Map.tsx:126-132 | framing the end of a night and the start of the next day give the same point |
| Camera.DayEndIsLastPoint | front-end/src/Map.tsx:126-132 | at a day's end the framed point is its last point |
| Camera.Overscan | front-end/src/Map.tsx:150-152 | the box holds lerp(p, q, −0.1) and lerp(p, q, 1.1) |
| Camera.OverscanHoldsEnds | front-end/src/Map.tsx:150-152 | the overscan box holds both framed points |
| Camera.FramingBox | front-end/src/Map.tsx:150-155 | the least box holding the overscan points and the boxes of days from.day+1 ≤ i < to.day−1, which holds both points |
| Camera.UnionStep | front-end/src/Map.tsx:153-155 | one union keeps the box the least framing box |
| Camera.DragCenter | front-end/src/Map.tsx:157-164 | with no offset the camera centre is the box centre |
| Camera.DragCenterShift | front-end/src/Map.tsx:160-161 | shifting the offset moves the centre by −0.85 times the shift |
| Camera.FrameCamera | front-end/src/Map.tsx:113-176 | no move iff controls are unlocked, the path is empty, or smooth movement is off while dragging; a non-finite target iff a framed point is not finite; else the least framing box, fit iff not dragging, and a centre set (box centre − 0.85·offset) iff dragging or smooth movement is off |
| Camera.MapTrail | front-end/src/Map.tsx:214-233 | nothing is rebuilt while dragging; the coarsest level is always shown; the finer level iff lowDensity is off and density < last index; photos iff not hidden; finer and photo markers are limited to days from.day−1 to to.day+1 |
| Camera.SelectedImage | front-end/src/Map.tsx:192-198 | a photo is selected iff both route parameters exist and parse as integers, with those values |
| Camera.MarkerRouteSelectsPhoto | front-end/src/Map.tsx:192-208 | the route a photo marker navigates to selects that same photo |
| ImageIngest.Split | functions/src/parseImageMetadata.ts:14 | at least one part, none containing the separator |
| ImageIngest.JoinSplit | functions/src/parseImageMetadata.ts:14 | joining the parts gives back the string |
| ImageIngest.SplitJoin | functions/src/parseImageMetadata.ts:14 | splitting separator-free parts joined gives back the parts |
| ImageIngest.SplitFree | functions/src/parseImageMetadata.ts:14 | a string without separator is one part |
| ImageIngest.PictureFile | functions/src/parseImageMetadata.ts:14-16 | the file name, when present, contains no '/' |
| ImageIngest.PictureFileExactly | functions/src/parseImageMetadata.ts:14-16 | a file is accepted iff the name is exactly "pictures/" + file with no '/' in file |
| ImageIngest.LastIndexOf | functions/src/parseImageMetadata.ts:17 | the last position of c, or −1 iff c is absent |
| ImageIngest.Slice | functions/src/parseImageMetadata.ts:17 | JavaScript `slice`: negative indices count from the end and are clipped to the string; the result is the characters between the resolved start and end, empty when the end is not after the start |
| ImageIngest.NameWithoutExtension | functions/src/parseImageMetadata.ts:17 | the prefix before the last '.', or the name minus its last character when there is no '.' |
| ImageIngest.NameOfNamedFile | functions/src/parseImageMetadata.ts:17 | base + "." + ext loses exactly ".ext" |
| ImageIngest.Ingest | functions/src/parseImageMetadata.ts:13-80 | ignored iff the link or name is missing or not a picture path; tags missing iff any of latitude, longitude, time is absent; else stored under gallery/name.jpg and preview/name.png with the tag values |
| ImageIngest.UploadStoredUnderBase | functions/src/parseImageMetadata.ts:13-80 | an upload pictures/base.ext with all tags is stored under base |
| ImageIngest.MaskThumbnail | functions/src/parseImageMetadata.ts:56-76 | every byte of the bitmap ends as the mask of its original value at its pixel and channel |
| ImageIngest.MaskPixel | functions/src/parseImageMetadata.ts:58-75 | one pixel is masked and the rest of the bitmap is unchanged |
| ImageIngest.RestOfRow | functions/src/parseImageMetadata.ts:57 | pixels past width/2 of a row are untouched, so the row is done |
| ImageIngest.EdgeIsFramed | functions/src/parseImageMetadata.ts:58-68 | left-half pixels on an edge get the frame colour (88, 94, 109) |
| ImageIngest.ClearedIsFramed | functions/src/parseImageMetadata.ts:61-75 | every pixel whose alpha is cleared was framed first |
| ImageIngest.AlphaAfterMask | functions/src/parseImageMetadata.ts:61-75 | alpha is 0 where cleared, 255 where framed but not cleared, the original elsewhere; framed pixels in the lower-right quadrant stay opaque |
| ImageIngest.RightHalfUntouched | functions/src/parseImageMetadata.ts:57 | pixels with x ≥ width/2 keep their bytes |

## Left out

- The great-circle distance `getDistanceFromLatLonInKm` and `cardioid` (front-end/src/Math.ts:1-21) use trigonometry and `exp`. The distance is a parameter `dist`; `cardioid` is not modelled.
- `Math.log2` in `densityIndex` is characterised as the least power of two at least the ratio, which is what `ceil(log2 x)` clamped at 0 computes.
- `Math.exp` in the wheel handler is replaced by a given factor.
- Timeline.TouchStats: `Math.sqrt` is a parameter. The spread is non-negative only under the assumption that this parameter returns non-negative values.
- Floating point is modelled as exact reals. IEEE rounding, NaN and infinities are not modelled, except as follows.
- Camera.FramePoint: the −Infinity ratio of an empty-spanned day is modelled as `None` (no finite target). The NaN and +Infinity ratios take the night branch, as in the source.
- Dates and time zones (`utcToZonedTime`, `getMonth`, `getHours`, `toDateString`) are not computed. Points carry month, hour and date fields, and photos carry a date key.
- Timeline.tsx:127-132, which reads a distance as a timestamp, is not modelled.
- Firestore, Storage and Auth queries, network I/O, and the React rendering (JSX, SVG, CSS, state batching) are not modelled.
- The marker icons that `buildTrail` draws are not modelled. The markers are abstract values in `Camera.MapTrail`.
- Map library calls (`LatLngBounds`, `moveCamera`, `fitBounds`) are reduced to a min/max box and a requested move. The antimeridian wrap is ignored.
- The `getPath` synthetic demo data (random numbers) is not modelled. Only the demo total-length formula is.
- Camera.FrameCamera: it requires that the view's days are valid indices of a path whose days have points (`Framable`). The source reads them without checks.
- Timeline.MonthLabelFor: it requires a view of positive length. A zero-length view divides by zero in the source.
- ImageIngest.MaskThumbnail: it requires a width divisible by 4 and an even height. The thumbnail is 128 by 64 after the source's resize and extension.
- The sharp and Jimp resizing and encoding, exif parsing (a parameter) and the later time-zone lookup and Firestore write of the cloud function are not modelled.
- Assembly.AssembleDays: the `images === null` guard is outside the model, because the photos are a plain list.
