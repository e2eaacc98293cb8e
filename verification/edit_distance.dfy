/** The textbook Levenshtein distance: the least number of single-element
    insertions, deletions and substitutions turning one sequence into another. */
module EditDistance {

  function Min3(a: nat, b: nat, c: nat): nat
  {
    if a <= b && a <= c then a else if b <= c then b else c
  }

  function Distance<T(==)>(a: seq<T>, b: seq<T>): (r: nat)
    ensures r <= |a| + |b|
    decreases |a| + |b|
  {
    if |a| == 0 then |b|
    else if |b| == 0 then |a|
    else Min3(Distance(a[1..], b) + 1,
              Distance(a, b[1..]) + 1,
              Distance(a[1..], b[1..]) + (if a[0] == b[0] then 0 else 1))
  }

  function Max(x: nat, y: nat): nat
  {
    if x >= y then x else y
  }

  /** The distance is symmetric. */
  lemma {:induction false} DistanceSymmetric<T>(a: seq<T>, b: seq<T>)
    ensures Distance(a, b) == Distance(b, a)
    decreases |a| + |b|
  {
    if |a| > 0 && |b| > 0 {
      DistanceSymmetric(a[1..], b);
      DistanceSymmetric(a, b[1..]);
      DistanceSymmetric(a[1..], b[1..]);
    }
  }

  /** The distance never exceeds the longer length. */
  lemma {:induction false} DistanceAtMostMax<T>(a: seq<T>, b: seq<T>)
    ensures Distance(a, b) <= Max(|a|, |b|)
    decreases |a| + |b|
  {
    if |a| > 0 && |b| > 0 {
      DistanceAtMostMax(a[1..], b[1..]);
    }
  }

  /** The distance is zero exactly for equal sequences. */
  lemma {:induction false} DistanceZeroIffEqual<T>(a: seq<T>, b: seq<T>)
    ensures Distance(a, b) == 0 <==> a == b
    decreases |a| + |b|
  {
    if |a| > 0 && |b| > 0 {
      DistanceZeroIffEqual(a[1..], b[1..]);
      if a == b {
        assert a[1..] == b[1..];
      }
      if Distance(a, b) == 0 {
        assert a == [a[0]] + a[1..];
        assert b == [b[0]] + b[1..];
      }
    }
  }

  /** The distance is at least the difference in lengths. */
  lemma {:induction false} DistanceAtLeastLengthGap<T>(a: seq<T>, b: seq<T>)
    ensures Distance(a, b) >= |a| - |b| && Distance(a, b) >= |b| - |a|
    decreases |a| + |b|
  {
    if |a| > 0 && |b| > 0 {
      DistanceAtLeastLengthGap(a[1..], b);
      DistanceAtLeastLengthGap(a, b[1..]);
      DistanceAtLeastLengthGap(a[1..], b[1..]);
    }
  }
}
