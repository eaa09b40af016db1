/**
 * The trail's value types (front-end/src/Point.ts, Day.ts, Image.ts) and sums over
 * them. Dates are already split into the calendar fields the front end reads from
 * its zoned `Date` objects.
 */
module Trail {
  import opened Geometry

  /**
   * A zoned instant: milliseconds since the epoch, and the local month (0-11),
   * hour (0-23), day of the month (1-31) and calendar date (`toDateString`) of it.
   */
  datatype Time = Time(timestamp: int, month: int, hour: int, date: int, dateKey: int)

  datatype Point = Point(
    id: string,
    pos: LatLng,
    elevation: real,
    distance: real,
    time: Time,
    isEndOfDay: bool,
    battery: string,
    timezone: string)

  datatype Image = Image(id: string, src: string, pos: LatLng, time: Time)

  /** One day of the trail, placed on the distance axis by `[start, end]`. */
  datatype Day = Day(
    points: seq<Point>,
    start: real,
    end: real,
    isRest: bool,
    box: Box,
    images: seq<Image>)

  /** Sum of the points' recorded distances. */
  function DistanceSum(ps: seq<Point>): real
  {
    if |ps| == 0 then 0.0 else DistanceSum(ps[..|ps| - 1]) + ps[|ps| - 1].distance
  }

  lemma DistanceSumAppend(ps: seq<Point>, p: Point)
    ensures DistanceSum(ps + [p]) == DistanceSum(ps) + p.distance
  {
    assert (ps + [p])[..|ps|] == ps;
  }

  /** Every point of every day, in order. */
  function AllPoints(days: seq<Day>): seq<Point>
  {
    if |days| == 0 then [] else AllPoints(days[..|days| - 1]) + days[|days| - 1].points
  }

  /** Every image attached to any day, day by day. */
  function AllImages(days: seq<Day>): seq<Image>
  {
    if |days| == 0 then [] else AllImages(days[..|days| - 1]) + days[|days| - 1].images
  }

  function Last<T>(s: seq<T>): T
    requires |s| > 0
  {
    s[|s| - 1]
  }
}
