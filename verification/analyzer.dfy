/** `TranscriptionAnalyzer`: six metrics of a cleaned reference against a cleaned hypothesis. */
module Analyzer {
  import opened Scores
  import opened Similarity

  /** The outcome of a call into a numeric library: a value, or an exception. */
  datatype Attempt = Returned(value: real) | Raised

  /** The external scorers: TF-IDF cosine (scikit-learn), sentence-embedding
      cosine (SentenceTransformer), and WER and CER (jiwer). Each maps
      (reference, hypothesis) to an outcome. */
  datatype Backends = Backends(
    tfidf: (string, string) -> Attempt,
    embedding: (string, string) -> Attempt,
    wer: (string, string) -> Attempt,
    cer: (string, string) -> Attempt)

  /** The six metrics and their result keys, polarities and fallbacks. */
  datatype Metric = Tfidf | Levenshtein | Embedding | Jaccard | WordErrorRate | CharacterErrorRate

  /** The key under which `compute_all_metrics` stores a metric. */
  function Name(m: Metric): string
  {
    match m
    case Tfidf => "tfidf_similarity"
    case Levenshtein => "levenshtein_similarity"
    case Embedding => "embedding_similarity"
    case Jaccard => "jaccard_similarity"
    case WordErrorRate => "word_error_rate"
    case CharacterErrorRate => "character_error_rate"
  }

  /** The keys of every `compute_all_metrics` result. */
  const MetricKeys: set<string> := {
    "tfidf_similarity", "levenshtein_similarity", "embedding_similarity",
    "jaccard_similarity", "word_error_rate", "character_error_rate"
  }

  function PolarityOf(m: Metric): Polarity
  {
    if m == WordErrorRate || m == CharacterErrorRate then LowerIsBetter else HigherIsBetter
  }

  /** The value a metric reports when its computation raises: no similarity,
      or maximal error. */
  function Fallback(m: Metric): real
  {
    match PolarityOf(m)
    case HigherIsBetter => 0.0
    case LowerIsBetter => 1.0
  }

  /** The `try`/`except` around each metric: a raised exception becomes the fallback. */
  function Recover(a: Attempt, m: Metric): real
  {
    match a
    case Returned(v) => v
    case Raised => Fallback(m)
  }

  function TfidfCosineSimilarity(b: Backends, text1: string, text2: string): (r: real)
    ensures b.tfidf(text1, text2).Returned? ==> r == b.tfidf(text1, text2).value
    ensures b.tfidf(text1, text2).Raised? ==> r == 0.0
  {
    Recover(b.tfidf(text1, text2), Tfidf)
  }

  function EmbeddingSimilarity(b: Backends, text1: string, text2: string): (r: real)
    ensures b.embedding(text1, text2).Returned? ==> r == b.embedding(text1, text2).value
    ensures b.embedding(text1, text2).Raised? ==> r == 0.0
  {
    Recover(b.embedding(text1, text2), Embedding)
  }

  function WordErrorRateOf(b: Backends, reference: string, hypothesis: string): (r: real)
    ensures b.wer(reference, hypothesis).Returned? ==> r == b.wer(reference, hypothesis).value
    ensures b.wer(reference, hypothesis).Raised? ==> r == 1.0
  {
    Recover(b.wer(reference, hypothesis), WordErrorRate)
  }

  function CharacterErrorRateOf(b: Backends, reference: string, hypothesis: string): (r: real)
    ensures b.cer(reference, hypothesis).Returned? ==> r == b.cer(reference, hypothesis).value
    ensures b.cer(reference, hypothesis).Raised? ==> r == 1.0
  {
    Recover(b.cer(reference, hypothesis), CharacterErrorRate)
  }

  /** The six result keys are pairwise distinct. */
  lemma MetricKeysDistinct()
    ensures "tfidf_similarity" != "levenshtein_similarity"
    ensures "tfidf_similarity" != "embedding_similarity"
    ensures "tfidf_similarity" != "jaccard_similarity"
    ensures "tfidf_similarity" != "word_error_rate"
    ensures "tfidf_similarity" != "character_error_rate"
    ensures "levenshtein_similarity" != "embedding_similarity"
    ensures "levenshtein_similarity" != "jaccard_similarity"
    ensures "levenshtein_similarity" != "word_error_rate"
    ensures "levenshtein_similarity" != "character_error_rate"
    ensures "embedding_similarity" != "jaccard_similarity"
    ensures "embedding_similarity" != "word_error_rate"
    ensures "embedding_similarity" != "character_error_rate"
    ensures "jaccard_similarity" != "word_error_rate"
    ensures "jaccard_similarity" != "character_error_rate"
    ensures "word_error_rate" != "character_error_rate"
  {
  }

  /** The result dictionary of `compute_all_metrics`, from its six values. */
  function Assemble(tfidf: real, levenshtein: real, embedding: real, jaccard: real, wer: real, cer: real)
    : (r: map<string, real>)
    ensures r.Keys == MetricKeys && |r| == 6
    ensures r["tfidf_similarity"] == tfidf && r["levenshtein_similarity"] == levenshtein
    ensures r["embedding_similarity"] == embedding && r["jaccard_similarity"] == jaccard
    ensures r["word_error_rate"] == wer && r["character_error_rate"] == cer
  {
    MetricKeysDistinct();
    map[
      "tfidf_similarity" := tfidf,
      "levenshtein_similarity" := levenshtein,
      "embedding_similarity" := embedding,
      "jaccard_similarity" := jaccard,
      "word_error_rate" := wer,
      "character_error_rate" := cer
    ]
  }

  /** `compute_all_metrics`: always the same six keys, whatever the scorers do. */
  function ComputeAllMetrics(b: Backends, reference: string, hypothesis: string): (r: map<string, real>)
    ensures r.Keys == MetricKeys
    ensures |r| == 6
  {
    Assemble(
      TfidfCosineSimilarity(b, reference, hypothesis),
      LevenshteinSimilarity(reference, hypothesis),
      EmbeddingSimilarity(b, reference, hypothesis),
      JaccardSimilarity(reference, hypothesis),
      WordErrorRateOf(b, reference, hypothesis),
      CharacterErrorRateOf(b, reference, hypothesis))
  }

  lemma FallbackValues()
    ensures Fallback(Tfidf) == 0.0 && Fallback(Embedding) == 0.0
    ensures Fallback(WordErrorRate) == 1.0 && Fallback(CharacterErrorRate) == 1.0
  {
  }

  /** A scorer that raises contributes its fallback instead of aborting the others. */
  lemma ComputeAllMetricsFallbacks(b: Backends, reference: string, hypothesis: string)
    ensures var r := ComputeAllMetrics(b, reference, hypothesis);
      && (b.tfidf(reference, hypothesis).Raised? ==> r["tfidf_similarity"] == 0.0)
      && (b.embedding(reference, hypothesis).Raised? ==> r["embedding_similarity"] == 0.0)
      && (b.wer(reference, hypothesis).Raised? ==> r["word_error_rate"] == 1.0)
      && (b.cer(reference, hypothesis).Raised? ==> r["character_error_rate"] == 1.0)
  {
    FallbackValues();
  }

  /** A scorer that returns contributes exactly its value. */
  lemma ComputeAllMetricsPassesValues(b: Backends, reference: string, hypothesis: string)
    ensures var r := ComputeAllMetrics(b, reference, hypothesis);
      && (b.tfidf(reference, hypothesis).Returned? ==>
        r["tfidf_similarity"] == b.tfidf(reference, hypothesis).value)
      && (b.embedding(reference, hypothesis).Returned? ==>
        r["embedding_similarity"] == b.embedding(reference, hypothesis).value)
      && (b.wer(reference, hypothesis).Returned? ==>
        r["word_error_rate"] == b.wer(reference, hypothesis).value)
      && (b.cer(reference, hypothesis).Returned? ==>
        r["character_error_rate"] == b.cer(reference, hypothesis).value)
  {
  }

  /** The two similarities computed in-process lie in [0, 1] and reach 1.0
      exactly for equal texts and for equal word sets. */
  lemma ComputeAllMetricsTextScores(b: Backends, reference: string, hypothesis: string)
    ensures var r := ComputeAllMetrics(b, reference, hypothesis);
      && 0.0 <= r["levenshtein_similarity"] <= 1.0
      && 0.0 <= r["jaccard_similarity"] <= 1.0
      && (r["levenshtein_similarity"] == 1.0 <==> reference == hypothesis)
      && (r["jaccard_similarity"] == 1.0 <==> WordSet(reference) == WordSet(hypothesis))
  {
  }

  /** Every metric's name is a result key, and distinct metrics have distinct names. */
  lemma MetricNamesAreKeys(m: Metric, n: Metric)
    ensures Name(m) in MetricKeys
    ensures Name(m) == Name(n) <==> m == n
  {
    MetricKeysDistinct();
  }

  /** Whether the external scorer behind `m` raises; the Levenshtein and
      Jaccard similarities are computed in-process and never do. */
  predicate Raises(b: Backends, m: Metric, reference: string, hypothesis: string)
  {
    match m
    case Tfidf => b.tfidf(reference, hypothesis).Raised?
    case Embedding => b.embedding(reference, hypothesis).Raised?
    case WordErrorRate => b.wer(reference, hypothesis).Raised?
    case CharacterErrorRate => b.cer(reference, hypothesis).Raised?
    case Levenshtein => false
    case Jaccard => false
  }

  /** Whatever the metric, a raising scorer leaves its metric's fallback under
      that metric's key. */
  lemma RaisingScorerStoresFallback(b: Backends, m: Metric, reference: string, hypothesis: string)
    requires Raises(b, m, reference, hypothesis)
    ensures ComputeAllMetrics(b, reference, hypothesis)[Name(m)] == Fallback(m)
  {
    ComputeAllMetricsFallbacks(b, reference, hypothesis);
  }
}
