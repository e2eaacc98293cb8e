/** Small generic sequence functions shared by the text and metric modules. */
module Seqs {

  /** Concatenation is associative. */
  lemma ConcatAssoc<T>(a: seq<T>, b: seq<T>, c: seq<T>)
    ensures a + b + c == a + (b + c)
  {
  }

  /** Cutting `s` at `a` and `b` and gluing the pieces gives `s` back. */
  lemma ThreeSlices<T>(s: seq<T>, a: nat, b: nat)
    requires a <= b <= |s|
    ensures s == s[..a] + s[a..b] + s[b..]
  {
  }

  /** The elements of `s` that satisfy `p`, in order. */
  function Filter<T>(p: T -> bool, s: seq<T>): (r: seq<T>)
    ensures |r| <= |s|
    ensures forall i :: 0 <= i < |r| ==> p(r[i])
  {
    if |s| == 0 then [] else if p(s[0]) then [s[0]] + Filter(p, s[1..]) else Filter(p, s[1..])
  }

  /** Every kept element comes from the input. */
  lemma {:induction false} FilterFromInput<T>(p: T -> bool, s: seq<T>)
    ensures forall i :: 0 <= i < |Filter(p, s)| ==> Filter(p, s)[i] in s
    decreases |s|
  {
    if |s| > 0 {
      FilterFromInput(p, s[1..]);
      assert forall x :: x in s[1..] ==> x in s;
    }
  }

  lemma {:induction false} FilterAppend<T>(p: T -> bool, a: seq<T>, b: seq<T>)
    ensures Filter(p, a + b) == Filter(p, a) + Filter(p, b)
    decreases |a|
  {
    if |a| == 0 {
      assert a + b == b;
    } else {
      assert (a + b)[1..] == a[1..] + b;
      FilterAppend(p, a[1..], b);
    }
  }

  lemma {:induction false} FilterKeepsAll<T>(p: T -> bool, s: seq<T>)
    requires forall i :: 0 <= i < |s| ==> p(s[i])
    ensures Filter(p, s) == s
    decreases |s|
  {
    if |s| > 0 {
      FilterKeepsAll(p, s[1..]);
    }
  }

  lemma {:induction false} FilterDropsAll<T>(p: T -> bool, s: seq<T>)
    requires forall i :: 0 <= i < |s| ==> !p(s[i])
    ensures Filter(p, s) == []
    decreases |s|
  {
    if |s| > 0 {
      FilterDropsAll(p, s[1..]);
    }
  }

  /** `f` applied to every element, results concatenated. */
  function FlatMap<T, U>(f: T -> seq<U>, s: seq<T>): seq<U>
  {
    if |s| == 0 then [] else f(s[0]) + FlatMap(f, s[1..])
  }

  /** A FlatMap whose images are singletons is the pointwise map. */
  lemma {:induction false} FlatMapSingletons<T>(f: T -> seq<T>, g: T -> T, s: seq<T>)
    requires forall i :: 0 <= i < |s| ==> f(s[i]) == [g(s[i])]
    ensures |FlatMap(f, s)| == |s|
    ensures forall i :: 0 <= i < |s| ==> FlatMap(f, s)[i] == g(s[i])
    decreases |s|
  {
    if |s| > 0 {
      FlatMapSingletons(f, g, s[1..]);
    }
  }
}
