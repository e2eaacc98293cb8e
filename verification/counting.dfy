/** Cardinality and ratio facts used by the ratio metrics and the report counts. */
module Counting {

  /** A subset is at most as large as its superset, and equally large only when equal. */
  lemma SubsetSize<T>(a: set<T>, b: set<T>)
    requires a <= b
    ensures |a| <= |b|
    ensures |a| == |b| <==> a == b
  {
    assert a * b == a;
    assert a + b == b;
    if |a| == |b| {
      assert |b - a| == 0;
      assert b - a == {};
    }
  }

  /** A part over a positive whole lies in [0, 1] and is 0 only for an empty part. */
  lemma RatioBounds(part: real, whole: real)
    requires 0.0 <= part <= whole && whole > 0.0
    ensures 0.0 <= part / whole <= 1.0
    ensures part / whole == 0.0 <==> part == 0.0
    ensures part / whole == 1.0 <==> part == whole
  {
    var q := part / whole;
    assert q * whole == part;
  }

  /** One minus the missing share is the present share. */
  lemma ComplementRatio(part: real, whole: real)
    requires whole > 0.0
    ensures 1.0 - (whole - part) / whole == part / whole
  {
    var q := (whole - part) / whole;
    var p := part / whole;
    assert q * whole == whole - part;
    assert p * whole == part;
    var e := 1.0 - q - p;
    assert e * whole == 0.0;
    assert e == (e * whole) / whole;
  }
}
