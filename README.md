# Video background analysis, modelled in Dafny

This project models `analyze_video_background` of PartB.py, the routine that turns
object detections on the frames of a video into a background report. The report
holds the detected environment, its confidence, one row per detected object, the
mismatches with the declared data, and a risk flag.

The detector is not modelled: its output is the input. A video is a sequence of
frames, and each frame is the sequence of `Detection(name, confidence)` boxes the
detector returned for it. A frame whose download failed is an empty frame.

The routine has four steps. Each one where the source works by updating variables
in a loop is a `method` with that loop, proved equal to a specification function.
The properties are lemmas about those functions.

- **Aggregation** (`detections.dfy`, module `Detections`). The two `defaultdict`s,
  label to confidences and label to count, are one `DetectionStats` value. Its
  `labels` field is their shared insertion order. `Aggregate` is the nested loop
  over frames and boxes. It is proved equal to `StatsOf(Flatten(frames))`, which
  is defined from the detections label by label: `FirstSeen`, `ConfidencesOf`
  and `CountOf`.
- **Classification** (`classification.dfy`, module `Classification`). `EnvRules`
  holds the rules Home, Office and Shop, in that order. `Classify` is the loop
  with its early `break`. It is proved equal to `ClassificationOf`: the first
  rule whose labels overlap the detections, and the rounded mean of every
  confidence of the overlapping labels (`Pooled`).
- **Comparison** (`comparison.dfy`, module `Comparison`). `CompareWithDeclared`
  is proved equal to `MismatchesOf`. That is an optional environment mismatch
  (`EnvironmentCheck`), then one asset mismatch per differing manifest entry
  (`AssetChecks`). `Message` renders a mismatch as the source's f-string text.
- **Report** (`analysis.dfy`, module `VideoAnalysis`). `Rows` gives the
  `detected_objects` entries. `AnalyzeVideoBackground` runs the whole routine
  and is proved equal to `AnalysisOf`.

Supporting modules:
- `numeric.dfy` has `Sum`, `Mean`, `Min`, `Max` and `Round2`. `Round2` is
  `round(x, 2)` on exact reals, with ties going to the even neighbour as in
  Python 3.
- `text.dfy` has `Lower` (`str.lower()`), `Title` (`str.title()`) and
  `IntToString` (an `int` inside an f-string).
- `wrappers.dfy` has the `Option` type.

## Model

| member | source | states |
|---|---|---|
| Detections.StatsOf | PartB.py:71-93 | Definition of what the two maps hold after the loop, label by label: the key order is the order of first detection (`FirstSeen`), each list the label's confidences in detection order (`ConfidencesOf`), each count its number of detections (`CountOf`). `Aggregate` is proved to reach it; `StatsOfValid`, `FirstSeenOrdered` and `CountIsMultiplicity` state its properties |
| Detections.Aggregate | PartB.py:71-93 | The nested loop over frames and boxes, appending each confidence and incrementing each count, leaves exactly `StatsOf` of all detections of all frames in frame order |
| Detections.StatsOfValid | PartB.py:71-93 | After aggregation both maps have the same keys, which are exactly the detected labels, each listed once. Every label's count equals the length of its confidence list and the number of detections carrying it (at least 1). Its list holds the confidences of those detections in order |
| Detections.CountAcrossFrames | PartB.py:75-93 | A label's count is the sum of its counts in each frame: detections are not merged across frames |
| Detections.CountOfAppend | PartB.py:86-93 | Counting over two runs of detections adds the two counts |
| Detections.CountIsMultiplicity | PartB.py:93 | The count of a label is its multiplicity in the multiset of detected labels |
| Detections.CountPositive | PartB.py:93 | A label's count is positive exactly when some detection carries the label |
| Detections.ConfidencesCount | PartB.py:92-93 | A label has as many recorded confidences as detections carrying it |
| Detections.ConfidencesFromDetections | PartB.py:89-92 | Every recorded confidence of a label comes from a detection with that label |
| Detections.FirstSeenLabels | PartB.py:71-72 | The key order lists every detected label, and only those, each once |
| Detections.FirstSeenOrdered | PartB.py:71-72 | The key order is the order of first detection: earlier keys were first detected strictly earlier |
| Detections.ConfidencesSnoc | PartB.py:92 | One more detection appends its confidence to its label's list, starting from an empty list for a new label. No other entry changes |
| Detections.CountsSnoc | PartB.py:93 | One more detection adds 1 to its label's count, starting from 0 for a new label. No other entry changes |
| Detections.StatsOfSnoc | PartB.py:92-93 | One loop step on both maps and their key order together |
| Classification.ClassificationOf | PartB.py:96-109 | Definition of the classification: "Uncategorized" with 0.0 when no rule overlaps the detections, otherwise the first overlapping rule's name with the rounded mean of its pooled confidences. `Classify` is proved to compute it; `FirstMatch` and `ConfidenceWithinOverlapping` state its properties |
| Classification.Classify | PartB.py:96-109 | The loop over the rules, with its early `break`, yields exactly `ClassificationOf` |
| Classification.FirstMatch | PartB.py:99-102 | The index chosen is that of the first rule with a detected label: every earlier rule has none. No index is chosen exactly when no rule has a detected label |
| Classification.FirstOverlappingRuleWins | PartB.py:99-109 | Non-overlapping rules before the first overlapping one, and any rules after it, do not change the result. The environment is that rule's name |
| Classification.NothingDetectedIsUncategorized | PartB.py:96-97 | With nothing detected the result is "Uncategorized" with confidence 0.0, for any rules |
| Classification.CommonItems | PartB.py:100 | Definition of `common_items`: the rule's labels that have a count, in the rule's order. `CommonItemsMembers` states its contents |
| Classification.CommonItemsMembers | PartB.py:100 | `common_items` holds exactly the rule's labels that have a count |
| Classification.NoCommonItems | PartB.py:100-101 | A rule none of whose labels was detected has no common items |
| Classification.TotalConfidence | PartB.py:103-105 | Definition of `total_confidence`, the sum over the common items of the sum of their confidences. `PooledTotals` relates it to the pooled confidences |
| Classification.TotalCount | PartB.py:106 | Definition of `total_count`, the sum over the common items of their counts. `PooledTotals` and `MatchedTotalCountPositive` relate it to the pooled confidences |
| Classification.PooledTotals | PartB.py:103-106 | The sum of sums is the sum of the pooled confidences. The sum of counts is their number, and it is at least the number of common items |
| Classification.MatchedTotalCountPositive | PartB.py:106-108 | For an overlapping rule the total count is positive, so the `total_count > 0` guard always holds. The quotient is the plain mean of the pooled confidences |
| Classification.ConfidenceWithinOverlapping | PartB.py:100-108 | The unrounded confidence is the mean over exactly the overlapping labels' confidences, so it lies between their minimum and maximum. The rounded confidence lies between the rounded minimum and the rounded maximum |
| Comparison.MismatchesOf | PartB.py:112-128 | Definition of `mismatches`: the environment check followed by the asset checks in manifest order. `CompareWithDeclared` is proved to compute it; `EnvironmentMismatchFirst`, `AssetChecksSound` and `AssetChecksComplete` state its contents |
| Comparison.EnvironmentDiffers | PartB.py:119 | Definition of the environment test: a declared environment is present and non-empty, and differs from the detected one after `lower()` on both. `EnvironmentMismatchFirst` ties it to the first mismatch |
| Comparison.DetectedCount | PartB.py:125 | Definition of `all_detected_counts.get(asset, 0)`. `DetectedCountOfDetections` proves it is the number of detections with that label |
| Comparison.CompareWithDeclared | PartB.py:112-128 | The environment check and the loop over manifest entries yield exactly `MismatchesOf`. The flag is "Pass" exactly when there is no mismatch |
| Comparison.EnvironmentMismatchFirst | PartB.py:115-121 | At most one environment mismatch exists and it comes first. It is there exactly when a non-empty declared environment differs from the detected one ignoring case |
| Comparison.AssetChecksSound | PartB.py:124-128 | Every asset mismatch comes from a manifest entry. Its detected count is the label's count, 0 when absent, and it differs from the declared count |
| Comparison.AssetChecksComplete | PartB.py:124-128 | Every manifest entry whose declared count differs from its detected count has its mismatch |
| Comparison.AssetChecksAppend | PartB.py:124-128 | Asset mismatches follow manifest order: the checks of a concatenation are the concatenated checks |
| Comparison.AssetChecksSnoc | PartB.py:124-128 | Checking one more manifest entry appends its mismatch, if any, at the end |
| Comparison.Message | PartB.py:120-127 | Definition of the two f-string texts of a mismatch. `AssetMessageReadsBack` proves the counts can be read back from the asset text |
| Comparison.AssetMessageReadsBack | PartB.py:127 | In an asset mismatch text, the number right after `Declared '<asset>: ` reads back to the declared count, and the number right before the closing quote reads back to the detected count |
| VideoAnalysis.AnalysisOf | PartB.py:62-149 | Definition of `final_report`: the declared data, the classification of the aggregated detections, their rows, the mismatch texts, and "Pass" exactly when there is no mismatch. `AnalyzeVideoBackground` is proved to compute it |
| VideoAnalysis.AnalyzeVideoBackground | PartB.py:62-149 | The whole routine returns exactly `AnalysisOf(frames, declared)` |
| VideoAnalysis.NoDetectionsUncategorized | PartB.py:96-109 | With no detections (no frames, or every frame empty or failed) the report says "Uncategorized", 0.0, and has no object rows |
| VideoAnalysis.FlattenEmptyFrames | PartB.py:82-86 | Frames without detections, failed ones included, contribute nothing |
| VideoAnalysis.Rows | PartB.py:136-143 | Definition of `detected_objects`: one row per key of the label map in its order, with the title-cased label, its count and its rounded mean confidence. `RowsOfDetections` and `RowsInDetectionOrder` state its properties |
| VideoAnalysis.RowsOfDetections | PartB.py:136-143 | There is one row per distinct detected label, in first-detection order. Each row has the title-cased label, the label's number of detections (at least 1, and the length of its confidence list) and the rounded mean of its confidences |
| VideoAnalysis.RowsDescribeDetections | PartB.py:130-147 | The same, for the `detected_objects` of the report |
| VideoAnalysis.RowsInDetectionOrder | PartB.py:136-143 | The key order `FirstSeen` holds every detected label, each once, in strictly increasing order of first detection. `RowsDescribeDetections` makes row i the row of the i-th label of that order, so together they say the report rows cover every detected label once, in order of first detection |
| VideoAnalysis.DetectedCountOfDetections | PartB.py:125 | `.get(asset, 0)` is the number of detections carrying the asset's label: 0 for an undetected label |
| VideoAnalysis.HomeLabelMeansHome | PartB.py:65-69 | Any detected Home label makes the environment Home, whatever else was detected |
| VideoAnalysis.ChairAloneIsHome | PartB.py:66-67 | "chair" is also an Office label, yet a lone chair gives Home |
| VideoAnalysis.RefrigeratorAloneIsHome | PartB.py:66-68 | "refrigerator" is also a Shop label, yet a lone refrigerator gives Home |
| VideoAnalysis.SofaAndTwoChairsStats | PartB.py:71-93 | For a frame with a sofa (0.9) and two chairs (0.8, 0.7): keys sofa then chair, counts 1 and 2, lists [0.9] and [0.8, 0.7] |
| VideoAnalysis.SofaAndChairsCommonItems | PartB.py:100 | With a sofa and chairs detected, the Home rule's common items are sofa then chair |
| VideoAnalysis.SofaAndTwoChairsHome | PartB.py:99-108 | Those detections give Home with confidence 0.8, which is 2.4 / 3 |
| VideoAnalysis.SofaAndTwoChairsRows | PartB.py:136-143 | Those detections give the rows "Sofa" (1, 0.9) and "Chair" (2, 0.75) |
| VideoAnalysis.SofaAndTwoChairsMatchManifest | PartB.py:115-128 | A manifest declaring Home with one sofa and two chairs has no mismatch with them |
| VideoAnalysis.SofaAndTwoChairsPass | PartB.py:62-149 | The full report for that frame and manifest: Home, 0.8, the two rows, no highlight, "Pass" |
| Numeric.SumAppend | PartB.py:103-105 | Summing two runs of confidences adds the two sums |
| Numeric.SumBounds | PartB.py:103-108 | A sum of values between two bounds lies between the count times each bound |
| Numeric.MinMaxBound | PartB.py:103-108 | `Min` and `Max` bound every value and are attained |
| Numeric.MeanBetweenMinAndMax | PartB.py:103-108 | A mean lies between the least and the greatest value averaged |
| Numeric.RoundHalfEven | PartB.py:108 | Rounding to an integer moves a value by at most one half |
| Numeric.RoundHalfEvenMonotone | PartB.py:108 | Rounding to an integer keeps order |
| Numeric.RoundHalfEvenOfInt | PartB.py:108 | An integer is its own rounding |
| Numeric.Round2 | PartB.py:108 | `round(x, 2)` is a whole number of hundredths within 0.005 of `x` |
| Numeric.Round2Monotone | PartB.py:108 | `round(x, 2)` keeps order |
| Numeric.Round2OfHundredths | PartB.py:140 | A whole number of hundredths is unchanged by `round(x, 2)` |
| Text.Lower | PartB.py:119 | Definition of `str.lower()` on ASCII letters. `LowerAt` and `LowerIdempotent` state its properties |
| Text.LowerAt | PartB.py:119 | `lower()` keeps the length and lower-cases character by character |
| Text.LowerIdempotent | PartB.py:119 | Lower-casing twice is lower-casing once |
| Text.Title | PartB.py:138 | Definition of `str.title()` on ASCII letters. `TitleAt`, `TitleOfLowerWord` and `LowerOfTitle` state its properties |
| Text.TitleAt | PartB.py:138 | `title()` keeps the length. A letter after a letter is lower-cased, and every other character is upper-cased where it has a case |
| Text.TitleOfLowerWord | PartB.py:138 | A lower-case word is title-cased by capitalising its first letter |
| Text.LowerOfTitle | PartB.py:138-139 | An item name equals its label ignoring case |
| Text.IntToString | PartB.py:127 | Definition of `str(n)` for an `int`: a minus sign for a negative number, then the decimal digits without leading zeros. `ParseIntToString` proves it reads back |
| Text.ParseNatToString | PartB.py:127 | The decimal digits of a natural number read back to that number and start with a digit |
| Text.ParseIntToString | PartB.py:127 | The number written into an asset mismatch text reads back to exactly the number compared |

## Left out

- Fetching image URLs from the Unsplash API (PartB.py:18-47) is network I/O and is not modelled.
- A detector error is not modelled. The per-frame `try` (PartB.py:77-84) catches only `requests.exceptions.RequestException`, so an exception from `model.predict` (PartB.py:81) ends the whole routine instead of yielding an empty frame.
- Downloading each frame, `model.predict` with its 0.5 confidence threshold, and the `model.names` lookup (PartB.py:76-90) are replaced by the input. Each frame is the list of boxes the detector kept. A failed download is an empty frame.
- `generate_report`, the JSON dumps, `main`, model loading, the exception handlers and the import-failure exit (PartB.py:151-218) are file output and process glue.
- `print` logging (PartB.py:62, 76, 83 and elsewhere) is left out.
- Numeric.Round2: rounds the exact real value half to even. It does not model binary floating point, so it does not reproduce `round` on a float that is not exactly the decimal it prints as. Float summation error is also not modelled.
- Text.Lower: only the ASCII letters have a case; Unicode case mapping is not modelled.
- Text.Title: only ASCII letters are cased, so a non-ASCII letter does not start or continue a word as it would in Python.
- Comparison.Manifest: `declared_data` is modelled only as its two keys used here: an optional environment string, and asset counts as an ordered list of (label, int) pairs. A non-string environment, a non-integer count, or other keys are not modelled. The report echoes this value as `declared_data`.
- Comparison.EnvironmentDiffers: Python truthiness of `declared_env` is modelled for strings only: absent or empty means no check.
- Detections.DetectionStats: the two maps gain keys in the same step, so one `labels` order serves both. The report rows follow it, as `all_detected_items.items()` does. The statistics are an immutable value: `.get(asset, 0)` and `item in all_detected_counts` are the membership tests in `DetectedCount` and `CommonItems`, and neither adds a key, as they do not in Python.
- Comparison.Mismatch: mismatches are kept as a datatype and rendered by `Message` to the source's texts. The highlights are those texts.
