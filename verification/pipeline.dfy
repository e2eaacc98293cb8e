/** How the analyzer's metrics fare in the evaluator's report. */
module Pipeline {
  import opened Scores
  import opened Counting
  import opened Analyzer
  import opened Evaluation

  /** Latency and real-time factor are not among the analyzer's result keys. */
  lemma TimingKeysNotMetricKeys()
    ensures "latency_ms" !in MetricKeys && "rtf" !in MetricKeys
  {
  }

  /** The analyzer never reports latency or real-time factor, so a report built
      from its metrics alone fails both checks and never passes overall: at
      most the three text checks can pass. */
  lemma AnalyzerMetricsAloneNeverPass(e: Evaluator, b: Backends, reference: string, hypothesis: string)
    ensures var r := GetDetailedReport(e, ComputeAllMetrics(b, reference, hypothesis));
      && !r.evaluations["latency_passed"]
      && !r.evaluations["rtf_passed"]
      && r.passedMetrics <= 3
      && !r.overallPassed
  {
    TimingKeysNotMetricKeys();
    UntimedNeverPasses(e, ComputeAllMetrics(b, reference, hypothesis));
  }

  /** A text scorer that raises yields a failing verdict whenever the fallback
      misses its threshold: an error-rate threshold below 1.0 or a TF-IDF
      threshold above 0.0, as the defaults are. */
  lemma FailedScorersFail(e: Evaluator, b: Backends, reference: string, hypothesis: string)
    ensures var ev := EvaluateAllMetrics(e.thresholds, ComputeAllMetrics(b, reference, hypothesis));
      && (b.wer(reference, hypothesis).Raised? && e.thresholds.wer < 1.0 ==> !ev["wer_passed"])
      && (b.cer(reference, hypothesis).Raised? && e.thresholds.cer < 1.0 ==> !ev["cer_passed"])
      && (b.tfidf(reference, hypothesis).Raised? && e.thresholds.tfidf > 0.0 ==> !ev["tfidf_passed"])
  {
    ComputeAllMetricsFallbacks(b, reference, hypothesis);
  }

  /** None of the evaluator's input keys is one of the three unread similarities. */
  lemma DroppedKeysNotRead()
    ensures forall k :: k in {"levenshtein_similarity", "embedding_similarity", "jaccard_similarity"} ==>
      k !in InputKeys
  {
  }

  /** Dropping the three similarities the evaluator does not read, from any
      metrics map, changes no verdict. */
  lemma UnreadSimilaritiesIgnored(t: Thresholds, metrics: map<string, real>)
    ensures EvaluateAllMetrics(t, metrics)
        == EvaluateAllMetrics(t, metrics - {"levenshtein_similarity", "embedding_similarity", "jaccard_similarity"})
  {
    DroppedKeysNotRead();
    UnreadKeysDropped(t, metrics, {"levenshtein_similarity", "embedding_similarity", "jaccard_similarity"});
  }

  /** Of the analyzer's six metrics only the three the evaluator reads matter:
      dropping Levenshtein, embedding and Jaccard similarity changes no verdict. */
  lemma OnlyEvaluatedMetricsMatter(t: Thresholds, b: Backends, reference: string, hypothesis: string)
    ensures var metrics := ComputeAllMetrics(b, reference, hypothesis);
      EvaluateAllMetrics(t, metrics)
        == EvaluateAllMetrics(t, metrics - {"levenshtein_similarity", "embedding_similarity", "jaccard_similarity"})
  {
    UnreadSimilaritiesIgnored(t, ComputeAllMetrics(b, reference, hypothesis));
  }
}
