/**
 * `analyze_video_background` of PartB.py, from the detector's output to the
 * report: aggregation, classification, comparison with the declared manifest,
 * and the per-label rows of `detected_objects`.
 */
module VideoAnalysis {

  import opened Wrappers
  import opened Text
  import opened Numeric
  import opened Detections
  import opened Classification
  import opened Comparison

  /** One entry of `detected_objects`. */
  datatype ObjectRow = ObjectRow(item: string, count: nat, avgConfidence: real)

  datatype AnalysisResults = AnalysisResults(
    detectedEnvironment: string,
    environmentConfidence: real,
    detectedObjects: seq<ObjectRow>)

  /** `final_report` */
  datatype Report = Report(
    declaredData: Manifest,
    analysisResults: AnalysisResults,
    mismatchHighlight: seq<string>,
    riskFlag: RiskFlag)

  /** One row per label, in the order of the label map: title-cased name, count, rounded mean. */
  function Rows(stats: DetectionStats): seq<ObjectRow>
    requires stats.Valid()
  {
    seq(|stats.labels|, i requires 0 <= i < |stats.labels| =>
      var l := stats.labels[i];
      ObjectRow(Title(l), stats.counts[l], Round2(Mean(stats.confidences[l]))))
  }

  /** The report the analysis produces for these frames and this manifest. */
  function AnalysisOf(frames: seq<Frame>, declared: Manifest): Report
  {
    var stats := StatsOf(Flatten(frames));
    StatsOfValid(Flatten(frames));
    var env := ClassificationOf(EnvRules, stats);
    var mismatches := MismatchesOf(declared, env.name, stats);
    Report(
      declared,
      AnalysisResults(env.name, env.confidence, Rows(stats)),
      Messages(mismatches),
      if mismatches == [] then Pass else ReviewRequired)
  }

  /**
   * `analyze_video_background` with the detector's output for each frame given
   * in place of the image URLs and the model.
   */
  method AnalyzeVideoBackground(frames: seq<Frame>, declared: Manifest) returns (report: Report)
    ensures report == AnalysisOf(frames, declared)
  {
    var stats := Aggregate(frames);
    StatsOfValid(Flatten(frames));
    var env := Classify(EnvRules, stats);
    var mismatches, riskFlag := CompareWithDeclared(declared, env.name, stats);
    var detectedObjects := Rows(stats);
    report := Report(
      declared,
      AnalysisResults(env.name, env.confidence, detectedObjects),
      Messages(mismatches),
      riskFlag);
  }

  lemma {:induction false} FlattenEmptyFrames(frames: seq<Frame>)
    requires forall i :: 0 <= i < |frames| ==> frames[i] == []
    ensures Flatten(frames) == []
  {
    if frames != [] {
      FlattenEmptyFrames(frames[..|frames| - 1]);
    }
  }

  /**
   * No detections at all (no frames, or every frame empty or failed): the
   * environment is "Uncategorized" with confidence 0.0.
   */
  lemma NoDetectionsUncategorized(frames: seq<Frame>, declared: Manifest)
    requires forall i :: 0 <= i < |frames| ==> frames[i] == []
    ensures AnalysisOf(frames, declared).analysisResults.detectedEnvironment == Uncategorized
    ensures AnalysisOf(frames, declared).analysisResults.environmentConfidence == 0.0
    ensures AnalysisOf(frames, declared).analysisResults.detectedObjects == []
  {
    FlattenEmptyFrames(frames);
    StatsOfValid([]);
    NothingDetectedIsUncategorized(EnvRules, StatsOf([]));
  }

  /**
   * The rows built from aggregated detections: one per distinct detected
   * label, in the order of `FirstSeen`, each with the label's number of
   * detections (at least 1) and the rounded mean of its confidences.
   */
  lemma RowsOfDetections(ds: seq<Detection>)
    ensures StatsOf(ds).Valid()
    ensures var rows := Rows(StatsOf(ds));
      var labels := FirstSeen(ds);
      && |rows| == |labels|
      && forall i :: 0 <= i < |rows| ==>
        && rows[i].item == Title(labels[i])
        && rows[i].count == CountOf(ds, labels[i]) == |ConfidencesOf(ds, labels[i])|
        && rows[i].count >= 1
        && rows[i].avgConfidence == Round2(Mean(ConfidencesOf(ds, labels[i])))
  {
    StatsOfValid(ds);
    var stats := StatsOf(ds);
    forall i | 0 <= i < |stats.labels|
      ensures stats.counts[stats.labels[i]] == CountOf(ds, stats.labels[i]) == |ConfidencesOf(ds, stats.labels[i])|
    {
      assert stats.labels[i] in stats.counts;
      ConfidencesCount(ds, stats.labels[i]);
    }
  }

  /** `detected_objects` of the report: the rows of the detections of all frames. */
  lemma RowsDescribeDetections(frames: seq<Frame>, declared: Manifest)
    ensures var ds := Flatten(frames);
      var rows := AnalysisOf(frames, declared).analysisResults.detectedObjects;
      var labels := FirstSeen(ds);
      && |rows| == |labels|
      && forall i :: 0 <= i < |rows| ==>
        && rows[i].item == Title(labels[i])
        && rows[i].count == CountOf(ds, labels[i]) == |ConfidencesOf(ds, labels[i])|
        && rows[i].count >= 1
        && rows[i].avgConfidence == Round2(Mean(ConfidencesOf(ds, labels[i])))
  {
    RowsOfDetections(Flatten(frames));
  }

  /**
   * The labels behind the rows are every detected label, each once, in the
   * order of their first detection.
   */
  lemma RowsInDetectionOrder(frames: seq<Frame>)
    ensures var ds := Flatten(frames);
      var labels := FirstSeen(ds);
      && Distinct(labels)
      && (forall l :: l in LabelsOf(ds) <==> l in labels)
      && (forall i, j :: 0 <= i < j < |labels| ==>
        labels[i] in LabelsOf(ds) && labels[j] in LabelsOf(ds) &&
        FirstIndex(ds, labels[i]) < FirstIndex(ds, labels[j]))
  {
    FirstSeenLabels(Flatten(frames));
    FirstSeenOrdered(Flatten(frames));
  }

  /** The comparison reads the count of every label from the detections; an undetected label counts 0. */
  lemma DetectedCountOfDetections(ds: seq<Detection>, asset: Label)
    ensures DetectedCount(StatsOf(ds), asset) == CountOf(ds, asset)
  {
    FirstSeenLabels(ds);
    CountPositive(ds, asset);
  }

  /**
   * Home is declared first, so any detected Home label makes the environment
   * Home, whatever Office or Shop labels are detected beside it.
   */
  lemma HomeLabelMeansHome(frames: seq<Frame>, declared: Manifest, l: Label)
    requires l in EnvRules[0].labels && l in LabelsOf(Flatten(frames))
    ensures AnalysisOf(frames, declared).analysisResults.detectedEnvironment == "Home"
  {
    var ds := Flatten(frames);
    StatsOfValid(ds);
    var stats := StatsOf(ds);
    assert l in stats.counts by { FirstSeenLabels(ds); }
    assert l in CommonItems(EnvRules[0].labels, stats) by { CommonItemsMembers(EnvRules[0].labels, stats); }
    FirstOverlappingRuleWins([], EnvRules[0], EnvRules[1..], stats);
    assert [] + [EnvRules[0]] + EnvRules[1..] == EnvRules;
  }

  /** A lone "chair", an Office label too, is a Home. */
  lemma ChairAloneIsHome(confidence: real, declared: Manifest)
    ensures "chair" in EnvRules[1].labels
    ensures AnalysisOf([[Detection("chair", confidence)]], declared).analysisResults.detectedEnvironment == "Home"
  {
    var frames := [[Detection("chair", confidence)]];
    assert Flatten(frames) == frames[0] by { assert frames[..0] == []; }
    assert LabelsOf(frames[0])[0] == "chair";
    assert EnvRules[0].labels[5] == "chair";
    HomeLabelMeansHome(frames, declared, "chair");
  }

  /** A lone "refrigerator", a Shop label too, is a Home. */
  lemma RefrigeratorAloneIsHome(confidence: real, declared: Manifest)
    ensures "refrigerator" in EnvRules[2].labels
    ensures AnalysisOf([[Detection("refrigerator", confidence)]], declared).analysisResults.detectedEnvironment == "Home"
  {
    var frames := [[Detection("refrigerator", confidence)]];
    assert Flatten(frames) == frames[0] by { assert frames[..0] == []; }
    assert LabelsOf(frames[0])[0] == "refrigerator";
    assert EnvRules[0].labels[3] == "refrigerator";
    HomeLabelMeansHome(frames, declared, "refrigerator");
  }

  /** The detections of the worked example below: a sofa, then two chairs. */
  function SofaAndTwoChairsDetections(): seq<Detection>
  {
    [Detection("sofa", 0.9), Detection("chair", 0.8), Detection("chair", 0.7)]
  }

  /** The worked example's detections, in order of first detection. */
  lemma SofaAndTwoChairsFirstSeen()
    ensures FirstSeen(SofaAndTwoChairsDetections()) == ["sofa", "chair"]
  {
    var ds := SofaAndTwoChairsDetections();
    assert "chair" != "sofa" by { assert "chair"[0] != "sofa"[0]; }
    assert ds[..2][..1][..0] == [];
    assert FirstSeen(ds[..2][..1]) == ["sofa"];
    assert FirstSeen(ds[..2]) == ["sofa", "chair"];
  }

  /** The worked example's confidences, label by label. */
  lemma SofaAndTwoChairsConfidences()
    ensures ConfidencesOf(SofaAndTwoChairsDetections(), "sofa") == [0.9]
    ensures ConfidencesOf(SofaAndTwoChairsDetections(), "chair") == [0.8, 0.7]
  {
    var ds := SofaAndTwoChairsDetections();
    assert "chair" != "sofa" by { assert "chair"[0] != "sofa"[0]; }
    assert ds[..2][..1][..0] == [];
    assert ConfidencesOf(ds[..2][..1], "sofa") == [0.9] && ConfidencesOf(ds[..2][..1], "chair") == [];
    assert ConfidencesOf(ds[..2], "sofa") == [0.9] && ConfidencesOf(ds[..2], "chair") == [0.8];
  }

  /** The worked example's counts, label by label. */
  lemma SofaAndTwoChairsCounts()
    ensures CountOf(SofaAndTwoChairsDetections(), "sofa") == 1
    ensures CountOf(SofaAndTwoChairsDetections(), "chair") == 2
  {
    var ds := SofaAndTwoChairsDetections();
    assert "chair" != "sofa" by { assert "chair"[0] != "sofa"[0]; }
    assert ds[..2][..1][..0] == [];
    assert CountOf(ds[..2][..1], "sofa") == 1 && CountOf(ds[..2][..1], "chair") == 0;
    assert CountOf(ds[..2], "sofa") == 1 && CountOf(ds[..2], "chair") == 1;
  }

  /** The last four labels of the Home rule that were detected, when a sofa and chairs were. */
  lemma SofaAndChairsCommonTail(stats: DetectionStats)
    requires forall l :: l in stats.counts <==> l == "sofa" || l == "chair"
    ensures CommonItems(["refrigerator", "microwave", "chair", "dining table"], stats) == ["chair"]
  {
    assert CommonItems([], stats) == [];
    assert CommonItems(["dining table"], stats) == [] by {
      assert "dining table" !in stats.counts by { assert "dining table"[0] == 'd'; }
      assert ["dining table"][1..] == [];
    }
    assert CommonItems(["chair", "dining table"], stats) == ["chair"] by {
      assert "chair" in stats.counts;
      assert ["chair", "dining table"][1..] == ["dining table"];
    }
    assert CommonItems(["microwave", "chair", "dining table"], stats) == ["chair"] by {
      assert "microwave" !in stats.counts by { assert "microwave"[0] == 'm'; }
      assert ["microwave", "chair", "dining table"][1..] == ["chair", "dining table"];
    }
    assert CommonItems(["refrigerator", "microwave", "chair", "dining table"], stats) == ["chair"] by {
      assert "refrigerator" !in stats.counts by { assert "refrigerator"[0] == 'r'; }
      assert ["refrigerator", "microwave", "chair", "dining table"][1..] == ["microwave", "chair", "dining table"];
    }
  }

  /** The labels of the Home rule that were detected, when a sofa and chairs were. */
  lemma SofaAndChairsCommonItems(stats: DetectionStats)
    requires forall l :: l in stats.counts <==> l == "sofa" || l == "chair"
    ensures CommonItems(EnvRules[0].labels, stats) == ["sofa", "chair"]
  {
    SofaAndChairsCommonTail(stats);
    assert CommonItems(["tv", "refrigerator", "microwave", "chair", "dining table"], stats) == ["chair"] by {
      assert "tv" !in stats.counts by { assert "tv"[0] == 't'; }
      assert ["tv", "refrigerator", "microwave", "chair", "dining table"][1..] == ["refrigerator", "microwave", "chair", "dining table"];
    }
    assert CommonItems(["sofa", "tv", "refrigerator", "microwave", "chair", "dining table"], stats) == ["sofa", "chair"] by {
      assert "sofa" in stats.counts;
      assert ["sofa", "tv", "refrigerator", "microwave", "chair", "dining table"][1..] == ["tv", "refrigerator", "microwave", "chair", "dining table"];
    }
    assert CommonItems(["bed", "sofa", "tv", "refrigerator", "microwave", "chair", "dining table"], stats) == ["sofa", "chair"] by {
      assert "bed" !in stats.counts by { assert "bed"[0] == 'b'; }
      assert ["bed", "sofa", "tv", "refrigerator", "microwave", "chair", "dining table"][1..] == ["sofa", "tv", "refrigerator", "microwave", "chair", "dining table"];
    }
  }

  /** The item names of the worked example's rows. */
  lemma SofaAndChairTitles()
    ensures Title("sofa") == "Sofa" && Title("chair") == "Chair"
  {
    TitleOfLowerWord("sofa");
    assert UpperChar('s') == 'S';
    TitleOfLowerWord("chair");
    assert UpperChar('c') == 'C';
  }

  /** The statistics of one sofa (0.9) and two chairs (0.8, then 0.7). */
  ghost predicate SofaAndTwoChairs(stats: DetectionStats)
  {
    && stats.Valid()
    && stats.labels == ["sofa", "chair"]
    && (forall l :: l in stats.counts <==> l == "sofa" || l == "chair")
    && stats.counts["sofa"] == 1 && stats.counts["chair"] == 2
    && stats.confidences["sofa"] == [0.9] && stats.confidences["chair"] == [0.8, 0.7]
  }

  /** Statistics aggregated from detections with the worked example's labels, confidences and counts. */
  lemma SofaAndTwoChairsFromSummary(ds: seq<Detection>)
    requires FirstSeen(ds) == ["sofa", "chair"]
    requires ConfidencesOf(ds, "sofa") == [0.9] && ConfidencesOf(ds, "chair") == [0.8, 0.7]
    requires CountOf(ds, "sofa") == 1 && CountOf(ds, "chair") == 2
    ensures SofaAndTwoChairs(StatsOf(ds))
  {
    StatsOfValid(ds);
    var stats := StatsOf(ds);
    assert forall l :: l in stats.counts <==> l in ["sofa", "chair"];
  }

  /** The aggregation of the worked example's frame gives those statistics. */
  lemma SofaAndTwoChairsStats()
    ensures SofaAndTwoChairs(StatsOf(Flatten([SofaAndTwoChairsDetections()])))
  {
    var ds := SofaAndTwoChairsDetections();
    var frames: seq<Frame> := [ds];
    assert Flatten(frames) == ds by { assert frames[..0] == []; }
    SofaAndTwoChairsFirstSeen();
    SofaAndTwoChairsConfidences();
    SofaAndTwoChairsCounts();
    SofaAndTwoChairsFromSummary(ds);
  }

  /** The confidences pooled over the sofa and the chairs, and their mean. */
  lemma SofaAndTwoChairsPooled(stats: DetectionStats)
    requires SofaAndTwoChairs(stats)
    ensures Pooled(["sofa", "chair"], stats) == [0.9, 0.8, 0.7]
    ensures Mean([0.9, 0.8, 0.7]) == 0.8
  {
    assert ["sofa", "chair"][1..] == ["chair"];
    assert Pooled(["chair"], stats) == [0.8, 0.7] + [];
    assert Sum([0.9, 0.8, 0.7]) == 2.4 by {
      assert [0.9, 0.8, 0.7][..2] == [0.9, 0.8];
      assert [0.9, 0.8][..1] == [0.9];
      assert [0.9][..0] == [];
    }
  }

  /** Home is chosen for a sofa and two chairs, at the mean confidence 0.8. */
  lemma SofaAndTwoChairsHome(stats: DetectionStats)
    requires SofaAndTwoChairs(stats)
    ensures ClassificationOf(EnvRules, stats) == Environment("Home", 0.8)
  {
    SofaAndChairsCommonItems(stats);
    FirstOverlappingRuleWins([], EnvRules[0], EnvRules[1..], stats);
    assert [] + [EnvRules[0]] + EnvRules[1..] == EnvRules;
    assert FirstMatch([EnvRules[0]], stats) == Some(0);
    SofaAndTwoChairsPooled(stats);
    Round2OfHundredths(80);
  }

  /** The rows for a sofa and two chairs: "Sofa" (1, 0.9), then "Chair" (2, 0.75). */
  lemma SofaAndTwoChairsRows(stats: DetectionStats)
    requires SofaAndTwoChairs(stats)
    ensures Rows(stats) == [ObjectRow("Sofa", 1, 0.9), ObjectRow("Chair", 2, 0.75)]
  {
    assert Mean([0.9]) == 0.9;
    assert Mean([0.8, 0.7]) == 0.75 by {
      assert [0.8, 0.7][..1] == [0.8];
    }
    Round2OfHundredths(90);
    Round2OfHundredths(75);
    SofaAndChairTitles();
  }

  /** A manifest of a Home with one sofa and two chairs matches those statistics. */
  lemma SofaAndTwoChairsMatchManifest(stats: DetectionStats)
    requires SofaAndTwoChairs(stats)
    ensures MismatchesOf(Manifest(Some("Home"), [("sofa", 1), ("chair", 2)]), "Home", stats) == []
  {
    assert AssetChecks([("chair", 2)], stats) == [];
    assert AssetChecks([("sofa", 1), ("chair", 2)], stats) == [] by {
      assert [("sofa", 1), ("chair", 2)][1..] == [("chair", 2)];
    }
  }

  /**
   * A sofa and two chairs in one frame, declared as a Home with one sofa and
   * two chairs: Home, rows "Sofa" (1, 0.9) and "Chair" (2, 0.75), no
   * mismatch, "Pass".
   */
  lemma SofaAndTwoChairsPass()
    ensures var declared := Manifest(Some("Home"), [("sofa", 1), ("chair", 2)]);
      AnalysisOf([SofaAndTwoChairsDetections()], declared) == Report(
        declared,
        AnalysisResults("Home", 0.8, [ObjectRow("Sofa", 1, 0.9), ObjectRow("Chair", 2, 0.75)]),
        [],
        Pass)
  {
    SofaAndTwoChairsStats();
    var stats := StatsOf(Flatten([SofaAndTwoChairsDetections()]));
    SofaAndTwoChairsHome(stats);
    SofaAndTwoChairsRows(stats);
    SofaAndTwoChairsMatchManifest(stats);
    assert Messages([]) == [];
  }
}
