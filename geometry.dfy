/**
 * Geometric helpers of the front end (front-end/src/Math.ts) and the plain
 * latitude/longitude box that stands in for the map library's bounds object.
 */
module Geometry {
  import opened Numerals
  import opened Util

  datatype LatLng = LatLng(lat: real, lng: real)

  /** `x` moved by the fraction `t` of the way towards `y`. */
  function Mix(x: real, y: real, t: real): real
  {
    x * (1.0 - t) + y * t
  }

  /** Componentwise linear interpolation; the ratio is not clamped, so it extrapolates. */
  function Lerp(a: LatLng, b: LatLng, ratio: real): (r: LatLng)
    ensures ratio == 0.0 ==> r == a
    ensures ratio == 1.0 ==> r == b
    ensures a == b ==> r == a
  {
    LatLng(Mix(a.lat, b.lat, ratio), Mix(a.lng, b.lng, ratio))
  }

  /** For a ratio in [0, 1] the interpolated latitude lies between the two endpoints. */
  lemma LerpBetween(a: LatLng, b: LatLng, ratio: real)
    requires 0.0 <= ratio <= 1.0
    ensures var r := Lerp(a, b, ratio);
      (a.lat <= b.lat ==> a.lat <= r.lat <= b.lat) && (b.lat <= a.lat ==> b.lat <= r.lat <= a.lat)
      && (a.lng <= b.lng ==> a.lng <= r.lng <= b.lng) && (b.lng <= a.lng ==> b.lng <= r.lng <= a.lng)
  {
    ScalarBetween(a.lat, b.lat, ratio);
    ScalarBetween(a.lng, b.lng, ratio);
  }

  lemma ScalarBetween(x: real, y: real, t: real)
    requires 0.0 <= t <= 1.0
    ensures x <= y ==> x <= Mix(x, y, t) <= y
    ensures y <= x ==> y <= Mix(x, y, t) <= x
  {
    MixOffset(x, y, t);
    if x == y {
      assert Mix(x, y, t) == x * ((1.0 - t) + t);
    } else if x < y {
      ScaleWithin(y - x, t);
    } else {
      ScaleWithin(x - y, t);
      assert (x - y) * t == -((y - x) * t);
    }
  }

  lemma MixOffset(x: real, y: real, t: real)
    ensures Mix(x, y, t) == x + (y - x) * t
  {
    assert x * (1.0 - t) == x - x * t;
    assert (y - x) * t == y * t - x * t;
  }

  function Abs(x: real): (r: real)
    ensures r >= 0.0 && (r == x || r == -x)
  {
    if x < 0.0 then -x else x
  }

  /** Whole degrees, minutes and seconds of a coordinate, each rounded down. */
  datatype Dms = Dms(degrees: int, minutes: int, seconds: int)

  function DmsOf(coordinate: real): (d: Dms)
    ensures d.degrees == Abs(coordinate).Floor && d.degrees >= 0
    ensures 0 <= d.minutes <= 59 && 0 <= d.seconds <= 59
  {
    var absolute := Abs(coordinate);
    var degrees := absolute.Floor;
    var minutesNotTruncated := (absolute - degrees as real) * 60.0;
    var minutes := minutesNotTruncated.Floor;
    var seconds := ((minutesNotTruncated - minutes as real) * 60.0).Floor;
    Dms(degrees, minutes, seconds)
  }

  /**
   * The mark written after the degrees. The source's string literal holds two
   * characters, U+00C2 followed by the degree sign U+00B0 (a UTF-8 degree sign
   * read as Latin-1), and both end up in the text.
   */
  const DegreeMark: string := "\U{C2}\U{B0}"

  /** `toDegreesMinutesAndSeconds`: degrees, the degree mark, minutes, `'`, seconds, `"`. */
  function ToDegreesMinutesAndSeconds(coordinate: real): (s: string)
    ensures var d := DmsOf(coordinate);
      s == NatToString(d.degrees) + DegreeMark + NatToString(d.minutes) + "'" + NatToString(d.seconds) + "\""
    ensures |s| >= 7 && s[|s| - 1] == '"'
    ensures forall i :: 0 <= i < |s| ==> s[i] != '\n'
  {
    var d := DmsOf(coordinate);
    var s := NatToString(d.degrees) + DegreeMark + NatToString(d.minutes) + "'" + NatToString(d.seconds) + "\"";
    assert forall i :: 0 <= i < |s| ==> s[i] != '\n' by {
      forall i | 0 <= i < |s| ensures s[i] != '\n' {
        var a := NatToString(d.degrees);
        var b := NatToString(d.minutes);
        var c := NatToString(d.seconds);
        if i < |a| { assert s[i] == a[i]; }
        else if |a| + 2 <= i < |a| + 2 + |b| { assert s[i] == b[i - |a| - 2]; }
        else if |a| + |b| + 3 <= i < |a| + |b| + 3 + |c| { assert s[i] == c[i - |a| - |b| - 3]; }
      }
    }
    s
  }

  /** The rendered text depends only on the magnitude: the sign is dropped. */
  lemma DmsIgnoresSign(coordinate: real)
    ensures ToDegreesMinutesAndSeconds(coordinate) == ToDegreesMinutesAndSeconds(-coordinate)
  {
    assert Abs(coordinate) == Abs(-coordinate);
    assert DmsOf(coordinate) == DmsOf(-coordinate);
  }

  /** The hemisphere letter: `positive` for a coordinate of at least 0, `negative` below. */
  function Cardinal(x: real, positive: char, negative: char): (c: char)
    ensures x >= 0.0 ==> c == positive
    ensures x < 0.0 ==> c == negative
  {
    if x >= 0.0 then positive else negative
  }

  /**
   * `convertDMS`: latitude with N/S, a line break, longitude with E/W. The text has
   * exactly one line break. The character before it is N exactly when the latitude
   * is non-negative (S otherwise), the text before that is the latitude alone, and
   * the last character is E exactly when the longitude is non-negative (W
   * otherwise), right after the longitude's text.
   */
  function ConvertDms(lat: real, lng: real): (s: string)
    ensures var k := |ToDegreesMinutesAndSeconds(lat)|;
      && k + 2 < |s|
      && (forall i :: 0 <= i < |s| ==> (s[i] == '\n' <==> i == k + 1))
      && s[..k] == ToDegreesMinutesAndSeconds(lat)
      && (s[k] == 'N' <==> lat >= 0.0) && (s[k] == 'S' <==> lat < 0.0)
      && s[k + 2..|s| - 1] == ToDegreesMinutesAndSeconds(lng)
      && (s[|s| - 1] == 'E' <==> lng >= 0.0) && (s[|s| - 1] == 'W' <==> lng < 0.0)
  {
    var a := ToDegreesMinutesAndSeconds(lat);
    var b := ToDegreesMinutesAndSeconds(lng);
    var s := a + [Cardinal(lat, 'N', 'S')] + "\n" + b + [Cardinal(lng, 'E', 'W')];
    var k := |a|;
    assert s == a + [Cardinal(lat, 'N', 'S')] + ['\n'] + b + [Cardinal(lng, 'E', 'W')];
    assert forall i :: 0 <= i < |s| ==> (s[i] == '\n' <==> i == k + 1) by {
      forall i | 0 <= i < |s| ensures s[i] == '\n' <==> i == k + 1 {
        if i < k { assert s[i] == a[i]; }
        else if k + 1 < i < |s| - 1 { assert s[i] == b[i - k - 2]; }
      }
    }
    assert s[..k] == a;
    assert s[k + 2..|s| - 1] == b;
    s
  }

  /**
   * A latitude/longitude box: the empty box, or the bounds south..north and
   * west..east (longitude wrap-around is not modelled).
   */
  datatype Box = Empty | Bounds(south: real, west: real, north: real, east: real)

  predicate Contains(b: Box, p: LatLng) {
    b.Bounds? && b.south <= p.lat <= b.north && b.west <= p.lng <= b.east
  }

  predicate ContainsBox(outer: Box, inner: Box) {
    inner.Empty? ||
    (outer.Bounds? && outer.south <= inner.south && inner.north <= outer.north
     && outer.west <= inner.west && inner.east <= outer.east)
  }

  predicate WellFormed(b: Box) {
    b.Bounds? ==> b.south <= b.north && b.west <= b.east
  }

  function Min(a: real, b: real): real { if a < b then a else b }
  function Max(a: real, b: real): real { if a < b then b else a }

  /** `bounds.extend(p)`: the least box holding the old box and the point. */
  function Extend(b: Box, p: LatLng): (r: Box)
    ensures Contains(r, p)
    ensures WellFormed(b) ==> WellFormed(r) && ContainsBox(r, b)
  {
    match b
    case Empty => Bounds(p.lat, p.lng, p.lat, p.lng)
    case Bounds(s, w, n, e) => Bounds(Min(s, p.lat), Min(w, p.lng), Max(n, p.lat), Max(e, p.lng))
  }

  /** Every well-formed box holding the old box and the point holds the extended box. */
  lemma ExtendIsLeast(b: Box, p: LatLng, o: Box)
    requires WellFormed(o) && ContainsBox(o, b) && Contains(o, p)
    ensures ContainsBox(o, Extend(b, p))
  {
  }

  /** `bounds.union(other)`: the least box holding both. */
  function Union(a: Box, b: Box): (r: Box)
    ensures ContainsBox(r, a) && ContainsBox(r, b)
    ensures WellFormed(a) && WellFormed(b) ==> WellFormed(r)
    ensures forall o :: ContainsBox(o, a) && ContainsBox(o, b) ==> ContainsBox(o, r)
  {
    match (a, b)
    case (Empty, _) => b
    case (_, Empty) => a
    case (Bounds(s1, w1, n1, e1), Bounds(s2, w2, n2, e2)) =>
      Bounds(Min(s1, s2), Min(w1, w2), Max(n1, n2), Max(e1, e2))
  }

  /** `bounds.getCenter()`. */
  function Center(b: Box): (c: LatLng)
    requires b.Bounds?
    ensures WellFormed(b) ==> Contains(b, c)
  {
    LatLng((b.south + b.north) / 2.0, (b.west + b.east) / 2.0)
  }
}
