# Transcript scoring core, modelled in Dafny

This project models the pure core of a transcript-quality gate. A reference
transcript and a machine transcript are normalised by `FileHandler.clean`.
`TranscriptionAnalyzer.compute_all_metrics` then scores them with six metrics.
Finally `MetricsEvaluator` checks the scores against five thresholds and
assembles a report with a pass count and an overall verdict.

Modules, following the source files:

- `Chars`, `Seqs`, `Words`, `Counting`: helpers. They cover the character
  classes, filtering, `str.split()` / `' '.join`, and cardinality and ratio facts.
- `Cleaning` (utils.py): `clean` as a pipeline over `string`. The stages are
  lower-case, NFKD plus ASCII fold, punctuation removal, whitespace collapse,
  strip, and the two trailing `replace` calls.
- `EditDistance`, `Similarity` (analyzer.py): the textbook Levenshtein
  distance, normalised Levenshtein similarity, and word-set Jaccard similarity.
- `Scores`, `Analyzer` (analyzer.py): `compute_all_metrics`. The TF-IDF,
  embedding, WER and CER scorers are external and may raise; each raise
  becomes that metric's fallback.
- `Evaluation` (metrics_evaluation.py): the five threshold checks,
  `evaluate_all_metrics` and `get_detailed_report`.
- `Pipeline`: what happens when the analyzer's metrics are fed to the evaluator.

Parameters instead of external code:

- `Cleaning.UnicodeTables` holds per-character `str.lower` and NFKD
  decomposition. Results about ASCII input assume only `AgreesOnAscii`: on
  ASCII, lower-casing maps A-Z to a-z and decomposition is the identity.
  Per-character modelling is exact for what survives the ASCII fold, for two
  reasons. Canonical reordering moves only combining marks, which are
  non-ASCII. Python's context-dependent final-sigma rule only changes a Greek
  letter that the fold drops anyway.
- `Analyzer.Backends` holds the four external scorers. Each returns
  `Returned(v)` or `Raised`.
- `Evaluation.Evaluator` holds the five thresholds and the three transcriptor
  labels. They are constructor values, not environment variables.
  `DefaultEvaluator` carries the defaults 0.15 / 0.1 / 0.75 / 800.0 / 0.8 and
  "unknown".

Where the source's own comments and its code differ, the model follows the code:

- The docstrings of `evaluate_latency_ms` and `evaluate_rtf`
  (metrics_evaluation.py:72-73 and 80-81) say that callers should skip the
  check when its threshold is not configured. `evaluate_all_metrics`
  (metrics_evaluation.py:99-102) always emits `latency_passed` and
  `rtf_passed`. A missing `latency_ms` or `rtf` value is read as infinity, so
  that check fails. One consequence is proved in
  `Pipeline.AnalyzerMetricsAloneNeverPass`: the analyzer's metrics alone never
  pass overall.
- `clean` lower-cases its input with `text.lower()` (utils.py:42), so it means
  to return lower-case text. The later decomposition can reintroduce a capital
  (see Findings).

## Model

| member | source | states |
|---|---|---|
| `Cleaning.Clean` | utils.py:30-47 | Empty input gives empty output. The output is evenly spaced: `' '` is its only whitespace, never doubled, never at either end. Every character is an ASCII word character or `' '`. Its non-space characters are, in order, the word characters of the folded input. It equals the words of the kept text joined by single spaces. |
| `Cleaning.CleanAscii` | utils.py:42-45 | For ASCII input, the output's non-space characters are exactly the word characters of the lower-cased input, in order, and none is upper case. |
| `Cleaning.CleanIdempotentOnAscii` | utils.py:40-47 | For ASCII input, cleaning the cleaned text changes nothing. |
| `Cleaning.CleanFixesNormalText` | utils.py:40-47 | Evenly spaced lower-case word text is returned unchanged. |
| `Cleaning.CleanWithoutWordChars` | utils.py:44-45 | ASCII input made only of punctuation and whitespace cleans to the empty string. |
| `Cleaning.PreparedAscii` | utils.py:42-43 | On ASCII input, lower-casing then NFKD with the ASCII fold is plain ASCII lower-casing. |
| `Cleaning.CollapseRuns` | utils.py:45 | After collapsing, whitespace is only `' '` and never two in a row. The output is empty iff the input is. It starts with whitespace iff the input does, and ends with whitespace iff the input does. Every other character comes from the input. |
| `Cleaning.CollapseRunsNonSpace` | utils.py:45 | Collapsing whitespace runs keeps every non-space character, in order. |
| `Cleaning.CollapseRunsSplit` | utils.py:45 | Collapsing whitespace runs leaves the whitespace-split words unchanged. |
| `Cleaning.Strip` | utils.py:45 | The stripped text neither starts nor ends with whitespace, and its characters come from the input. |
| `Cleaning.StripNonSpace` | utils.py:45 | Stripping keeps every non-space character, in order. |
| `Cleaning.StripSplit` | utils.py:45 | Stripping leaves the whitespace-split words unchanged. |
| `Cleaning.StripSpaced` | utils.py:45 | Stripping text whose whitespace is single plain spaces leaves it evenly spaced. |
| `Cleaning.KeepThenNonSpace` | utils.py:44 | Removing non-word, non-space characters and then the whitespace leaves exactly the word characters. |
| `Cleaning.TidyFacts` | utils.py:44-46 | The steps after the ASCII fold yield the input's words, after punctuation removal, joined by single spaces. The result uses only word characters and `' '`, and keeps the word characters in order. |
| `Cleaning.Replace` | utils.py:46 | With a non-empty pattern, a replacement no longer than the pattern never lengthens the text, and one of the same length keeps its length. |
| `Cleaning.ReplaceWithItself` | utils.py:46 | `replace(p, p)` changes nothing. |
| `Cleaning.ReplaceAbsent` | utils.py:46 | `replace` of a pattern whose first character does not occur changes nothing. This covers the mis-decoded en dash, which cannot survive the ASCII fold. |
| `Cleaning.CleanKeepsModifierCapital` | utils.py:42-43 | Given tables that map U+1D2C to itself under lower-casing and to `A` under NFKD: `clean` returns `A`, a second `clean` returns `a`, and the corrected variant returns `a`. |
| `Cleaning.CleanLowered` | utils.py:42-45 | The corrected variant's output is evenly spaced, lower case and over word characters plus `' '`. It keeps the lower-cased word characters of the folded input, in order. |
| `Cleaning.CleanLoweredIdempotent` | utils.py:40-47 | The corrected variant is idempotent on every input. |
| `Cleaning.CleanLoweredMatchesCleanOnAscii` | utils.py:40-47 | On ASCII input the corrected variant and `clean` agree. |
| `Words.SplitEmptyIffBlank` | analyzer.py:60-61 | `str.split()` returns no words iff the text is all whitespace, including the empty text. |
| `Words.SplitWords` | analyzer.py:60-61 | `str.split()` yields non-empty words without whitespace. |
| `Words.SplitJoin` | analyzer.py:60-61 | Splitting single-space-joined words returns those words. |
| `Words.JoinSplit` | utils.py:45 | Evenly spaced text is the single-space join of its words. |
| `EditDistance.Distance` | analyzer.py:36 | The edit distance never exceeds the two lengths added together, which is the cost of deleting one text and inserting the other. |
| `EditDistance.DistanceSymmetric` | analyzer.py:36 | Edit distance is symmetric. |
| `EditDistance.DistanceAtMostMax` | analyzer.py:36-37 | Edit distance never exceeds the longer length. |
| `EditDistance.DistanceZeroIffEqual` | analyzer.py:36 | Edit distance is zero iff the texts are equal. |
| `EditDistance.DistanceAtLeastLengthGap` | analyzer.py:36 | Edit distance is at least the difference in lengths. |
| `Similarity.LevenshteinSimilarity` | analyzer.py:33-45 | The similarity lies in [0, 1] and equals 1.0 iff the texts are equal, so two empty texts score 1.0. |
| `Similarity.LevenshteinSimilaritySymmetric` | analyzer.py:36-42 | Levenshtein similarity does not depend on argument order. |
| `Similarity.JaccardSimilarity` | analyzer.py:57-72 | The similarity lies in [0, 1] and equals 1.0 iff the word sets are equal, so two empty sets score 1.0. Exactly one empty set scores 0.0. Otherwise it equals intersection size over union size. |
| `Similarity.JaccardRatio` | analyzer.py:68-69 | One minus NLTK's Jaccard distance is intersection size over union size, lies in [0, 1], and is 1.0 iff the sets are equal. |
| `Similarity.JaccardSimilaritySymmetric` | analyzer.py:57-69 | Jaccard similarity does not depend on argument order. |
| `Similarity.JaccardIgnoresOrderAndRepeats` | analyzer.py:60-61 | Reordering or repeating the words of a text does not change its Jaccard similarity. |
| `Analyzer.TfidfCosineSimilarity` | analyzer.py:22-31 | A returned cosine is passed through unchanged, and a raise gives 0.0. |
| `Analyzer.EmbeddingSimilarity` | analyzer.py:47-55 | A returned cosine is passed through unchanged, and a raise gives 0.0. |
| `Analyzer.WordErrorRateOf` | analyzer.py:74-80 | A returned WER is passed through unchanged, and a raise gives 1.0. |
| `Analyzer.CharacterErrorRateOf` | analyzer.py:82-88 | A returned CER is passed through unchanged, and a raise gives 1.0. |
| `Analyzer.ComputeAllMetrics` | analyzer.py:90-99 | The result always has exactly the six metric keys, whatever the scorers do. |
| `Analyzer.ComputeAllMetricsFallbacks` | analyzer.py:22-88 | A raising TF-IDF or embedding scorer gives 0.0, and a raising WER or CER scorer gives 1.0. |
| `Analyzer.ComputeAllMetricsPassesValues` | analyzer.py:22-99 | A scorer that returns contributes exactly its value under its key. |
| `Analyzer.ComputeAllMetricsTextScores` | analyzer.py:33-72 | The Levenshtein and Jaccard entries lie in [0, 1]. They reach 1.0 exactly for equal texts and for equal word sets. |
| `Analyzer.MetricNamesAreKeys` | analyzer.py:92-99 | Every metric's name is a result key, and two metrics share a name only if they are the same metric. |
| `Analyzer.RaisingScorerStoresFallback` | analyzer.py:22-99 | For every metric with an external scorer, a raise leaves that metric's fallback under that metric's own key in the result: 0.0 for a similarity, 1.0 for an error rate. |
| `Scores.MeetsMonotone` | metrics_evaluation.py:57-83 | A score at least as good as a passing score also passes, in either direction. |
| `Evaluation.EvaluateWer` | metrics_evaluation.py:57-59 | WER passes iff it is at most the WER threshold. |
| `Evaluation.EvaluateCer` | metrics_evaluation.py:61-63 | CER passes iff it is at most the CER threshold. |
| `Evaluation.EvaluateTfidf` | metrics_evaluation.py:65-67 | TF-IDF similarity passes iff it is at least the TF-IDF threshold. |
| `Evaluation.EvaluateLatencyMs` | metrics_evaluation.py:69-75 | Latency passes iff it is finite and at most the latency threshold, so infinity never passes. |
| `Evaluation.EvaluateRtf` | metrics_evaluation.py:77-83 | The real-time factor passes iff it is finite and at most the RTF threshold, so infinity never passes. |
| `Evaluation.EvaluateAllMetrics` | metrics_evaluation.py:57-104 | There are always exactly five verdicts. WER and CER pass iff the value is at most the threshold, with a missing value read as 1.0. TF-IDF passes iff the value is at least the threshold, with a missing value read as 0.0. Latency and RTF pass iff the value is present and at most the threshold. |
| `Evaluation.SameInputsSameVerdicts` | metrics_evaluation.py:95-103 | Two metric maps that agree on the five keys the evaluator reads get identical verdicts. |
| `Evaluation.PassedCountBounds` | metrics_evaluation.py:118-135 | The passed count is at most the number of verdicts, and every verdict passes iff the count equals that number. |
| `Evaluation.GetDetailedReport` | metrics_evaluation.py:106-138 | The report echoes the metrics, the five verdicts, the five thresholds and the transcriptor labels. The total is 5. The passed count is the number of the five named verdicts that pass, so at most 5. It passes overall iff all five verdicts pass, iff the passed count equals the total. |
| `Evaluation.PassedCountRemove` | metrics_evaluation.py:134 | Removing one verdict from any verdict map lowers the passed count by one if that verdict passed and leaves it unchanged otherwise. |
| `Evaluation.PassedCountOfVerdicts` | metrics_evaluation.py:134 | Over the five verdict keys, the passed count is the number of the named verdicts `wer_passed`, `cer_passed`, `tfidf_passed`, `latency_passed` and `rtf_passed` that are true. |
| `Evaluation.MissingScoresFail` | metrics_evaluation.py:95-103 | With WER and CER thresholds below 1 and a TF-IDF threshold above 0, each missing score fails its check. A missing latency or RTF always fails. |
| `Evaluation.DefaultsRejectEmptyMetrics` | metrics_evaluation.py:24-136 | Under the default thresholds an empty metrics map passes no check and fails overall. |
| `Evaluation.PerfectTextScoresPassThree` | metrics_evaluation.py:95-136 | Under the defaults, WER 0, CER 0 and TF-IDF 1 with no latency or RTF give a report with three passes that fails overall. |
| `Evaluation.UntimedNeverPasses` | metrics_evaluation.py:99-136 | Metrics without latency and real-time factor fail both timing checks, pass at most three checks, and never pass overall. |
| `Evaluation.ExtraKeysIgnored` | metrics_evaluation.py:95-103 | Adding a key the evaluator does not read changes no verdict. |
| `Evaluation.UnreadKeysDropped` | metrics_evaluation.py:95-103 | Removing any set of keys the evaluator does not read changes no verdict. |
| `Pipeline.AnalyzerMetricsAloneNeverPass` | metrics_evaluation.py:95-136 | A report on the analyzer's metrics alone fails latency and RTF, passes at most three checks, and never passes overall. |
| `Pipeline.FailedScorersFail` | analyzer.py:22-88 | A raising WER scorer fails `wer_passed` whenever the WER threshold is below 1.0. The same holds for CER with the CER threshold below 1.0. A raising TF-IDF scorer fails `tfidf_passed` whenever the TF-IDF threshold is above 0.0. The fallbacks are set at analyzer.py:29-31, 78-80 and 86-88, and compared at metrics_evaluation.py:95-98. |
| `Pipeline.UnreadSimilaritiesIgnored` | metrics_evaluation.py:95-103 | Removing the Levenshtein, embedding and Jaccard keys from any metrics map changes no verdict. |
| `Pipeline.OnlyEvaluatedMetricsMatter` | metrics_evaluation.py:95-103 | Dropping the Levenshtein, embedding and Jaccard entries from the analyzer's result changes no verdict. |

## Left out

- File reading (`FileHandler.read_text_file`), path handling and the per-pair loop of `evaluate_transcriptions`: these are I/O and error logging around the modelled functions.
- `FileHandler.scan_texts_folder` and `FileHandler.read_latency_mapping`: they are called but not defined in utils.py, so they are not part of this model. `_enrich_with_latency` is dictionary plumbing around that lookup.
- `_safe_load_dotenv`, `_get_env_float` and the `os.getenv` calls: environment input and float parsing. The thresholds and labels are constructor values instead.
- Console output (`_print_*`, `main`), the `logging.warning` call in each scorer's `except` branch (analyzer.py:30, 44, 54, 71, 79, 87), and sentence-transformer model loading. Logging has no effect on the returned values.
- TF-IDF cosine, embedding cosine, WER and CER internals: these are external libraries and appear only as the `Backends` parameters. So the model states nothing about their values, for example that WER of identical texts is 0.
- Unicode tables: lower-casing and NFKD are the `UnicodeTables` parameter, applied per character. `IsWordChar` is `\w` on ASCII only, which is all the punctuation step ever sees.
- Floating point: scores are `real`, with an explicit infinity for a missing latency or RTF. NaN, rounding, and thresholds configured as infinity or NaN are not modelled.
- The `except` branches of `compute_levenshtein_similarity` and `compute_jaccard_similarity`: both computations are total on strings, and the union is non-empty when divided by, so those branches cannot run. Both metrics are modelled without a failure path.
- Dictionary insertion order: reports and metric results are unordered maps.

## Findings

| source | as written | input that shows it | evidently intended | confidence | as-written member | corrected member |
|---|---|---|---|---|---|---|
| utils.py:42-43 | `lower()` runs before the NFKD decomposition, so a compatibility capital with no lower-case mapping decomposes to an upper-case ASCII letter and survives | `"ᴬ"` (U+1D2C MODIFIER LETTER CAPITAL A): `clean` returns `"A"`, and `clean("A")` returns `"a"`, so `clean` is not idempotent and its output is not lower case | cleaned text is lower case, as the `text.lower()` call at utils.py:42 sets out to make it, and cleaning is idempotent | medium; depends on the Unicode data for U+1D2C; not executed | `Cleaning.CleanKeepsModifierCapital` | `Cleaning.CleanLowered` |

`Cleaning.CleanLowered` lower-cases again after the ASCII fold. It is proved
lower case and idempotent for every input, and equal to `clean` on ASCII input.
No other part of the model calls the cleaner.
