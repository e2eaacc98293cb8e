/** `MetricsEvaluator`: per-metric threshold checks and the detailed report. */
module Evaluation {
  import opened Scores
  import opened Counting

  /** The five configured thresholds. */
  datatype Thresholds = Thresholds(wer: real, cer: real, tfidf: real, latencyMs: real, rtf: real)

  /** The defaults used when no configuration overrides them. */
  const DefaultThresholds: Thresholds := Thresholds(0.15, 0.1, 0.75, 800.0, 0.8)

  /** Provenance labels copied into every report. */
  datatype Transcriptor = Transcriptor(name: string, version: string, environment: string)

  datatype Evaluator = Evaluator(thresholds: Thresholds, transcriptor: Transcriptor)

  /** The evaluator built when no setting is configured. */
  const DefaultEvaluator: Evaluator :=
    Evaluator(DefaultThresholds, Transcriptor("unknown", "unknown", "unknown"))

  /** Word error rate passes at or below its threshold. */
  function EvaluateWer(t: Thresholds, werValue: real): (r: bool)
    ensures r <==> werValue <= t.wer
  {
    Meets(LowerIsBetter, Finite(werValue), t.wer)
  }

  /** Character error rate passes at or below its threshold. */
  function EvaluateCer(t: Thresholds, cerValue: real): (r: bool)
    ensures r <==> cerValue <= t.cer
  {
    Meets(LowerIsBetter, Finite(cerValue), t.cer)
  }

  /** TF-IDF similarity passes at or above its threshold. */
  function EvaluateTfidf(t: Thresholds, tfidfValue: real): (r: bool)
    ensures r <==> tfidfValue >= t.tfidf
  {
    Meets(HigherIsBetter, Finite(tfidfValue), t.tfidf)
  }

  /** Latency in milliseconds passes at or below its threshold; an infinite
      latency passes no threshold. */
  function EvaluateLatencyMs(t: Thresholds, latencyMs: ExtReal): (r: bool)
    ensures r <==> latencyMs.Finite? && latencyMs.value <= t.latencyMs
    ensures latencyMs.PosInf? ==> !r
  {
    Meets(LowerIsBetter, latencyMs, t.latencyMs)
  }

  /** Real-time factor passes at or below its threshold; an infinite factor
      passes no threshold. */
  function EvaluateRtf(t: Thresholds, rtfValue: ExtReal): (r: bool)
    ensures r <==> rtfValue.Finite? && rtfValue.value <= t.rtf
    ensures rtfValue.PosInf? ==> !r
  {
    Meets(LowerIsBetter, rtfValue, t.rtf)
  }

  /** `metrics.get(key, default)`. */
  function GetOr(metrics: map<string, real>, key: string, default: real): real
  {
    if key in metrics then metrics[key] else default
  }

  /** `float(metrics.get(key, float("inf")))`. */
  function GetOrInfinity(metrics: map<string, real>, key: string): ExtReal
  {
    if key in metrics then Finite(metrics[key]) else PosInf
  }

  /** The input keys the evaluator reads. */
  const InputKeys: set<string> := {"word_error_rate", "character_error_rate", "tfidf_similarity", "latency_ms", "rtf"}

  /** The keys of every evaluation map. */
  const EvaluationKeys: set<string> := {"wer_passed", "cer_passed", "tfidf_passed", "latency_passed", "rtf_passed"}

  /** The keys of the threshold snapshot in every report. */
  const ThresholdKeys: set<string> :=
    {"wer_threshold", "cer_threshold", "tfidf_threshold", "latency_threshold_ms", "rtf_threshold"}

  /** The five verdict keys are pairwise distinct. */
  lemma EvaluationKeysDistinct()
    ensures "wer_passed" != "cer_passed"
    ensures "wer_passed" != "tfidf_passed"
    ensures "wer_passed" != "latency_passed"
    ensures "wer_passed" != "rtf_passed"
    ensures "cer_passed" != "tfidf_passed"
    ensures "cer_passed" != "latency_passed"
    ensures "cer_passed" != "rtf_passed"
    ensures "tfidf_passed" != "latency_passed"
    ensures "tfidf_passed" != "rtf_passed"
    ensures "latency_passed" != "rtf_passed"
  {
  }

  /** There are five verdict keys. */
  lemma EvaluationKeysCount()
    ensures |EvaluationKeys| == 5
  {
    EvaluationKeysDistinct();
  }

  /** The verdict dictionary, from its five verdicts. */
  function Verdicts(wer: bool, cer: bool, tfidf: bool, latency: bool, rtf: bool): (r: map<string, bool>)
    ensures r.Keys == EvaluationKeys
    ensures r["wer_passed"] == wer && r["cer_passed"] == cer && r["tfidf_passed"] == tfidf
    ensures r["latency_passed"] == latency && r["rtf_passed"] == rtf
  {
    EvaluationKeysDistinct();
    map[
      "wer_passed" := wer,
      "cer_passed" := cer,
      "tfidf_passed" := tfidf,
      "latency_passed" := latency,
      "rtf_passed" := rtf
    ]
  }

  /** `evaluate_all_metrics`: always the five verdicts. A missing error rate
      counts as 1.0, a missing TF-IDF similarity as 0.0, and a missing latency
      or real-time factor as infinity. */
  function EvaluateAllMetrics(t: Thresholds, metrics: map<string, real>): (r: map<string, bool>)
    ensures r.Keys == EvaluationKeys && |r| == 5
    ensures "word_error_rate" in metrics ==> (r["wer_passed"] <==> metrics["word_error_rate"] <= t.wer)
    ensures "word_error_rate" !in metrics ==> (r["wer_passed"] <==> 1.0 <= t.wer)
    ensures "character_error_rate" in metrics ==> (r["cer_passed"] <==> metrics["character_error_rate"] <= t.cer)
    ensures "character_error_rate" !in metrics ==> (r["cer_passed"] <==> 1.0 <= t.cer)
    ensures "tfidf_similarity" in metrics ==> (r["tfidf_passed"] <==> metrics["tfidf_similarity"] >= t.tfidf)
    ensures "tfidf_similarity" !in metrics ==> (r["tfidf_passed"] <==> 0.0 >= t.tfidf)
    ensures r["latency_passed"] <==> "latency_ms" in metrics && metrics["latency_ms"] <= t.latencyMs
    ensures r["rtf_passed"] <==> "rtf" in metrics && metrics["rtf"] <= t.rtf
  {
    EvaluationKeysCount();
    Verdicts(
      EvaluateWer(t, GetOr(metrics, "word_error_rate", 1.0)),
      EvaluateCer(t, GetOr(metrics, "character_error_rate", 1.0)),
      EvaluateTfidf(t, GetOr(metrics, "tfidf_similarity", 0.0)),
      EvaluateLatencyMs(t, GetOrInfinity(metrics, "latency_ms")),
      EvaluateRtf(t, GetOrInfinity(metrics, "rtf")))
  }

  /** Two metric maps that agree on the five input keys get the same verdicts. */
  lemma SameInputsSameVerdicts(t: Thresholds, m1: map<string, real>, m2: map<string, real>)
    requires forall k :: k in InputKeys ==> (k in m1 <==> k in m2)
    requires forall k :: k in InputKeys && k in m1 ==> m1[k] == m2[k]
    ensures EvaluateAllMetrics(t, m1) == EvaluateAllMetrics(t, m2)
  {
    assert GetOr(m1, "word_error_rate", 1.0) == GetOr(m2, "word_error_rate", 1.0);
    assert GetOr(m1, "character_error_rate", 1.0) == GetOr(m2, "character_error_rate", 1.0);
    assert GetOr(m1, "tfidf_similarity", 0.0) == GetOr(m2, "tfidf_similarity", 0.0);
    assert GetOrInfinity(m1, "latency_ms") == GetOrInfinity(m2, "latency_ms");
    assert GetOrInfinity(m1, "rtf") == GetOrInfinity(m2, "rtf");
  }

  /** The dictionary `get_detailed_report` returns. */
  datatype Report = Report(
    metrics: map<string, real>,
    evaluations: map<string, bool>,
    thresholds: map<string, real>,
    transcriptor: Transcriptor,
    passedMetrics: nat,
    totalMetrics: nat,
    overallPassed: bool)

  /** `sum(1 for v in evaluations.values() if v)`. */
  function PassedCount(evaluations: map<string, bool>): nat
  {
    |set k | k in evaluations && evaluations[k]|
  }

  /** `all(bool(v) for v in evaluations.values())`. */
  predicate AllPassed(evaluations: map<string, bool>)
  {
    forall k :: k in evaluations ==> evaluations[k]
  }

  /** At most every verdict passes, and every verdict passes exactly when the count is full. */
  lemma PassedCountBounds(evaluations: map<string, bool>)
    ensures PassedCount(evaluations) <= |evaluations|
    ensures AllPassed(evaluations) <==> PassedCount(evaluations) == |evaluations|
  {
    var passed := set k | k in evaluations && evaluations[k];
    SubsetSize(passed, evaluations.Keys);
    if passed == evaluations.Keys {
      assert AllPassed(evaluations);
    }
    if AllPassed(evaluations) {
      assert passed == evaluations.Keys;
    }
  }

  /** The five threshold keys are pairwise distinct. */
  lemma ThresholdKeysDistinct()
    ensures "wer_threshold" != "cer_threshold"
    ensures "wer_threshold" != "tfidf_threshold"
    ensures "wer_threshold" != "latency_threshold_ms"
    ensures "wer_threshold" != "rtf_threshold"
    ensures "cer_threshold" != "tfidf_threshold"
    ensures "cer_threshold" != "latency_threshold_ms"
    ensures "cer_threshold" != "rtf_threshold"
    ensures "tfidf_threshold" != "latency_threshold_ms"
    ensures "tfidf_threshold" != "rtf_threshold"
    ensures "latency_threshold_ms" != "rtf_threshold"
  {
  }

  /** The threshold snapshot copied into every report. */
  function ThresholdSnapshot(t: Thresholds): (r: map<string, real>)
    ensures r.Keys == ThresholdKeys
    ensures r["wer_threshold"] == t.wer && r["cer_threshold"] == t.cer
    ensures r["tfidf_threshold"] == t.tfidf
    ensures r["latency_threshold_ms"] == t.latencyMs && r["rtf_threshold"] == t.rtf
  {
    ThresholdKeysDistinct();
    map[
      "wer_threshold" := t.wer,
      "cer_threshold" := t.cer,
      "tfidf_threshold" := t.tfidf,
      "latency_threshold_ms" := t.latencyMs,
      "rtf_threshold" := t.rtf
    ]
  }

  /** Python's `True` counts 1 and `False` counts 0 in a sum. */
  function Tally(b: bool): nat
  {
    if b then 1 else 0
  }

  /** Removing one verdict lowers the passed count by that verdict's tally. */
  lemma PassedCountRemove(ev: map<string, bool>, k: string)
    requires k in ev
    ensures PassedCount(ev) == Tally(ev[k]) + PassedCount(ev - {k})
  {
    var rest := ev - {k};
    var p := set j | j in ev && ev[j];
    var q := set j | j in rest && rest[j];
    if ev[k] {
      assert p == q + {k};
    } else {
      assert p == q;
    }
  }

  /** Over the five verdict keys, the passed count is the number of named
      verdicts that pass. */
  lemma PassedCountOfVerdicts(ev: map<string, bool>)
    requires ev.Keys == EvaluationKeys
    ensures PassedCount(ev)
      == Tally(ev["wer_passed"]) + Tally(ev["cer_passed"]) + Tally(ev["tfidf_passed"])
       + Tally(ev["latency_passed"]) + Tally(ev["rtf_passed"])
  {
    EvaluationKeysDistinct();
    var e1 := ev - {"wer_passed"};
    var e2 := e1 - {"cer_passed"};
    var e3 := e2 - {"tfidf_passed"};
    var e4 := e3 - {"latency_passed"};
    var e5 := e4 - {"rtf_passed"};
    PassedCountRemove(ev, "wer_passed");
    PassedCountRemove(e1, "cer_passed");
    PassedCountRemove(e2, "tfidf_passed");
    PassedCountRemove(e3, "latency_passed");
    PassedCountRemove(e4, "rtf_passed");
    assert e5.Keys == {};
    assert PassedCount(e5) == 0 by {
      assert (set j | j in e5 && e5[j]) == {};
    }
  }

  /** Over the five verdict keys, every verdict passes exactly when each named one does. */
  lemma AllPassedVerdicts(ev: map<string, bool>)
    requires ev.Keys == EvaluationKeys
    ensures AllPassed(ev) <==>
      ev["wer_passed"] && ev["cer_passed"] && ev["tfidf_passed"] && ev["latency_passed"] && ev["rtf_passed"]
  {
  }

  /** `get_detailed_report`: echoes the metrics, the five verdicts, the five
      thresholds and the transcriptor labels, and counts the passing verdicts. */
  function GetDetailedReport(e: Evaluator, metrics: map<string, real>): (r: Report)
    ensures r.metrics == metrics
    ensures r.evaluations == EvaluateAllMetrics(e.thresholds, metrics)
    ensures r.thresholds.Keys == ThresholdKeys
    ensures r.thresholds["wer_threshold"] == e.thresholds.wer
    ensures r.thresholds["cer_threshold"] == e.thresholds.cer
    ensures r.thresholds["tfidf_threshold"] == e.thresholds.tfidf
    ensures r.thresholds["latency_threshold_ms"] == e.thresholds.latencyMs
    ensures r.thresholds["rtf_threshold"] == e.thresholds.rtf
    ensures r.transcriptor == e.transcriptor
    ensures r.totalMetrics == 5
    ensures r.passedMetrics <= r.totalMetrics
    ensures r.passedMetrics
      == Tally(r.evaluations["wer_passed"]) + Tally(r.evaluations["cer_passed"])
       + Tally(r.evaluations["tfidf_passed"]) + Tally(r.evaluations["latency_passed"])
       + Tally(r.evaluations["rtf_passed"])
    ensures r.overallPassed <==> r.passedMetrics == r.totalMetrics
    ensures r.overallPassed <==>
      && r.evaluations["wer_passed"] && r.evaluations["cer_passed"] && r.evaluations["tfidf_passed"]
      && r.evaluations["latency_passed"] && r.evaluations["rtf_passed"]
  {
    var t := e.thresholds;
    var evaluations := EvaluateAllMetrics(t, metrics);
    PassedCountBounds(evaluations);
    PassedCountOfVerdicts(evaluations);
    AllPassedVerdicts(evaluations);
    Report(
      metrics,
      evaluations,
      ThresholdSnapshot(t),
      e.transcriptor,
      PassedCount(evaluations),
      |evaluations|,
      AllPassed(evaluations))
  }

  /** With thresholds strictly inside (0, 1) for the three text metrics, as the
      defaults are, a missing score fails its check, and a missing latency or
      real-time factor always fails. */
  lemma MissingScoresFail(t: Thresholds, metrics: map<string, real>)
    requires t.wer < 1.0 && t.cer < 1.0 && t.tfidf > 0.0
    ensures "word_error_rate" !in metrics ==> !EvaluateAllMetrics(t, metrics)["wer_passed"]
    ensures "character_error_rate" !in metrics ==> !EvaluateAllMetrics(t, metrics)["cer_passed"]
    ensures "tfidf_similarity" !in metrics ==> !EvaluateAllMetrics(t, metrics)["tfidf_passed"]
    ensures "latency_ms" !in metrics ==> !EvaluateAllMetrics(t, metrics)["latency_passed"]
    ensures "rtf" !in metrics ==> !EvaluateAllMetrics(t, metrics)["rtf_passed"]
  {
  }

  /** An empty metrics map fails every check under the defaults. */
  lemma DefaultsRejectEmptyMetrics()
    ensures var r := GetDetailedReport(DefaultEvaluator, map[]);
      r.passedMetrics == 0 && !r.overallPassed
  {
    var ev := EvaluateAllMetrics(DefaultThresholds, map[]);
    MissingScoresFail(DefaultThresholds, map[]);
    assert forall k :: k in ev ==> !ev[k];
    assert (set k | k in ev && ev[k]) == {};
  }

  /** With the latency and real-time-factor verdicts failing, at most three pass. */
  lemma AtMostThreePass(ev: map<string, bool>)
    requires ev.Keys == EvaluationKeys
    requires !ev["latency_passed"] && !ev["rtf_passed"]
    ensures PassedCount(ev) <= 3
  {
    var passed := set k | k in ev && ev[k];
    var text := {"wer_passed", "cer_passed", "tfidf_passed"};
    assert passed <= text;
    SubsetSize(passed, text);
  }

  /** Perfect text scores without timing pass exactly the three text checks
      under the defaults, so the report counts three and fails overall. */
  lemma PerfectTextScoresPassThree()
    ensures var r := GetDetailedReport(DefaultEvaluator,
      map["word_error_rate" := 0.0, "character_error_rate" := 0.0, "tfidf_similarity" := 1.0]);
      r.passedMetrics == 3 && !r.overallPassed
  {
    var metrics := map["word_error_rate" := 0.0, "character_error_rate" := 0.0, "tfidf_similarity" := 1.0];
    var ev := EvaluateAllMetrics(DefaultThresholds, metrics);
    assert "latency_ms" !in metrics && "rtf" !in metrics;
    assert ev["wer_passed"] && ev["cer_passed"] && ev["tfidf_passed"];
    assert !ev["latency_passed"] && !ev["rtf_passed"];
  }

  /** Metrics without a latency and a real-time factor fail both timing checks,
      so at most the three text checks pass and the report never passes overall. */
  lemma UntimedNeverPasses(e: Evaluator, metrics: map<string, real>)
    requires "latency_ms" !in metrics && "rtf" !in metrics
    ensures var r := GetDetailedReport(e, metrics);
      && !r.evaluations["latency_passed"]
      && !r.evaluations["rtf_passed"]
      && r.passedMetrics <= 3
      && !r.overallPassed
  {
    var r := GetDetailedReport(e, metrics);
    AtMostThreePass(r.evaluations);
  }

  /** Keys the evaluator does not read have no effect on any verdict. */
  lemma ExtraKeysIgnored(t: Thresholds, metrics: map<string, real>, key: string, value: real)
    requires key !in InputKeys
    ensures EvaluateAllMetrics(t, metrics[key := value]) == EvaluateAllMetrics(t, metrics)
  {
    SameInputsSameVerdicts(t, metrics[key := value], metrics);
  }

  /** Removing keys the evaluator does not read changes no verdict. */
  lemma UnreadKeysDropped(t: Thresholds, metrics: map<string, real>, dropped: set<string>)
    requires forall k :: k in dropped ==> k !in InputKeys
    ensures EvaluateAllMetrics(t, metrics - dropped) == EvaluateAllMetrics(t, metrics)
  {
    SameInputsSameVerdicts(t, metrics - dropped, metrics);
  }
}
