/** Small value types and helpers shared by the front-end modules. */
module Util {

  datatype Option<+T> = None | Some(value: T)

  /** `Math.max(Math.min(v, hi), lo)`: when `hi < lo` the lower bound wins. */
  function MinThenMax(v: real, lo: real, hi: real): (r: real)
    ensures r >= lo
    ensures lo <= hi ==> r <= hi
    ensures hi < lo ==> r == lo
    ensures lo <= v <= hi ==> r == v
    ensures v <= lo ==> r == lo
    ensures lo <= hi <= v ==> r == hi
    ensures r == lo || r == hi || r == v
  {
    var capped := if v < hi then v else hi;
    if capped > lo then capped else lo
  }

  /** `if (v < lo) v = lo; if (v > hi) v = hi;`: when `hi < lo` the upper bound wins. */
  function LowThenHigh(v: real, lo: real, hi: real): (r: real)
    ensures r <= hi
    ensures lo <= hi ==> r >= lo
    ensures lo <= v <= hi ==> r == v
    ensures hi <= v ==> r == hi
    ensures hi < lo ==> r == hi
    ensures v <= lo <= hi ==> r == lo
    ensures r == lo || r == hi || r == v
  {
    var raised := if v < lo then lo else v;
    if raised > hi then hi else raised
  }

  /**
   * `r` holds exactly the entries of `s` whose index lies in `[lo, hi]`, in order:
   * entry `k` of `r` is entry `k + max(lo, 0)` of `s`.
   */
  predicate IsWindow<T(==)>(r: seq<T>, s: seq<T>, lo: int, hi: int) {
    && (forall k :: 0 <= k < |r| ==>
          var i := k + (if lo < 0 then 0 else lo);
          0 <= i < |s| && lo <= i <= hi && r[k] == s[i])
    && (forall i :: 0 <= i < |s| && lo <= i <= hi ==>
          var k := i - (if lo < 0 then 0 else lo);
          0 <= k < |r| && r[k] == s[i])
  }

  /**
   * `array.filter((_, i) => i >= lo && i <= hi)`: the entries whose index lies in
   * `[lo, hi]`, in order.
   */
  function IndexWindow<T(==)>(s: seq<T>, lo: int, hi: int): (r: seq<T>)
    ensures |r| <= |s|
    ensures IsWindow(r, s, lo, hi)
  {
    var a := if lo < 0 then 0 else if lo > |s| then |s| else lo;
    var b := if hi + 1 < a then a else if hi + 1 > |s| then |s| else hi + 1;
    s[a..b]
  }

  lemma MulPositive(a: real, b: real)
    requires a > 0.0 && b > 0.0
    ensures a * b > 0.0
  {
  }

  lemma MulNonneg(a: real, b: real)
    requires a >= 0.0 && b >= 0.0
    ensures a * b >= 0.0
  {}

  /** Scaling a non-negative quantity by a factor in [0, 1] keeps it within [0, x]. */
  lemma ScaleWithin(x: real, t: real)
    requires x >= 0.0 && 0.0 <= t <= 1.0
    ensures 0.0 <= x * t <= x
  {
    MulNonneg(x, t);
    MulNonneg(x, 1.0 - t);
    assert x * (1.0 - t) == x - x * t;
  }

  lemma QuotientSign(x: real, w: real)
    requires w > 0.0
    ensures x / w > 0.0 <==> x > 0.0
    ensures x / w < 1.0 <==> x < w
  {
    var q := x / w;
    assert q * w == x;
    if q > 0.0 {
      MulPositive(q, w);
    } else {
      MulNonneg(-q, w);
    }
    QuotientBelowOne(x, w);
  }

  lemma QuotientBelowOne(x: real, w: real)
    requires w > 0.0
    ensures x / w < 1.0 <==> x < w
  {
    var q := x / w;
    assert q * w == x;
    assert (1.0 - q) * w == w - x;
    if q < 1.0 {
      MulPositive(1.0 - q, w);
    } else {
      MulNonneg(q - 1.0, w);
    }
  }
}
