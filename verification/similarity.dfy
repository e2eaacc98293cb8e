/** The two similarity metrics the analyzer computes itself: normalised
    Levenshtein similarity and word-set Jaccard similarity. */
module Similarity {
  import opened EditDistance
  import opened Words
  import opened Counting

  /** `compute_levenshtein_similarity`: one minus the edit distance over the
      longer length, and 1.0 when both texts are empty. */
  function LevenshteinSimilarity(a: string, b: string): (r: real)
    ensures 0.0 <= r <= 1.0
    ensures r == 1.0 <==> a == b
  {
    var d := Distance(a, b);
    var m := Max(|a|, |b|);
    DistanceAtMostMax(a, b);
    DistanceZeroIffEqual(a, b);
    if m == 0 then
      assert a == b == [];
      1.0
    else
      RatioBounds(d as real, m as real);
      1.0 - (d as real / m as real)
  }

  /** Levenshtein similarity does not depend on argument order. */
  lemma LevenshteinSimilaritySymmetric(a: string, b: string)
    ensures LevenshteinSimilarity(a, b) == LevenshteinSimilarity(b, a)
  {
    DistanceSymmetric(a, b);
  }

  /** `set(s.split())`. */
  function WordSet(s: string): set<string>
  {
    set w | w in Split(s)
  }

  /** NLTK's `jaccard_distance`: the share of the union outside the intersection. */
  function JaccardDistance(x: set<string>, y: set<string>): real
    requires |x + y| > 0
  {
    (|x + y| - |x * y|) as real / |x + y| as real
  }

  /** `compute_jaccard_similarity`: one minus the Jaccard distance of the two
      word sets, with both-empty scoring 1.0 and exactly-one-empty 0.0. */
  function JaccardSimilarity(reference: string, hypothesis: string): (r: real)
    ensures 0.0 <= r <= 1.0
    ensures r == 1.0 <==> WordSet(reference) == WordSet(hypothesis)
    ensures (|WordSet(reference)| == 0) != (|WordSet(hypothesis)| == 0) ==> r == 0.0
    ensures |WordSet(reference)| > 0 && |WordSet(hypothesis)| > 0 ==>
      r == |WordSet(reference) * WordSet(hypothesis)| as real
           / |WordSet(reference) + WordSet(hypothesis)| as real
  {
    var x := WordSet(reference);
    var y := WordSet(hypothesis);
    if |x| == 0 && |y| == 0 then
      assert x == y == {};
      1.0
    else if |x| == 0 || |y| == 0 then
      assert x != y;
      0.0
    else
      JaccardRatio(x, y);
      1.0 - JaccardDistance(x, y)
  }

  /** The arithmetic behind the non-empty case of `JaccardSimilarity`. */
  lemma JaccardRatio(x: set<string>, y: set<string>)
    requires |x| > 0 && |y| > 0
    ensures |x + y| > 0
    ensures 1.0 - JaccardDistance(x, y) == |x * y| as real / |x + y| as real
    ensures 0.0 <= 1.0 - JaccardDistance(x, y) <= 1.0
    ensures 1.0 - JaccardDistance(x, y) == 1.0 <==> x == y
  {
    SubsetSize(x, x + y);
    SubsetSize(x * y, x + y);
    var u := |x + y| as real;
    var i := |x * y| as real;
    assert (|x + y| - |x * y|) as real == u - i;
    ComplementRatio(i, u);
    RatioBounds(i, u);
    if x * y == x + y {
      assert x <= y && y <= x;
    }
  }

  /** Jaccard similarity does not depend on argument order. */
  lemma JaccardSimilaritySymmetric(a: string, b: string)
    ensures JaccardSimilarity(a, b) == JaccardSimilarity(b, a)
  {
    var x := WordSet(a);
    var y := WordSet(b);
    assert x + y == y + x;
    assert x * y == y * x;
  }

  /** Only the set of words matters: reordering or repeating words in a
      space-joined text leaves its Jaccard similarity unchanged. */
  lemma JaccardIgnoresOrderAndRepeats(ws1: seq<string>, ws2: seq<string>, other: string)
    requires forall i :: 0 <= i < |ws1| ==> IsWord(ws1[i])
    requires forall i :: 0 <= i < |ws2| ==> IsWord(ws2[i])
    requires forall w :: w in ws1 <==> w in ws2
    ensures JaccardSimilarity(Join(ws1), other) == JaccardSimilarity(Join(ws2), other)
  {
    SplitJoin(ws1);
    SplitJoin(ws2);
    assert WordSet(Join(ws1)) == WordSet(Join(ws2));
  }
}
