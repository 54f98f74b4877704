/**
 * Environment classification (PartB.py, `analyze_video_background`): the first
 * rule, in declaration order, whose labels overlap the detected labels names
 * the environment; its confidence is the mean confidence of every detection of
 * the overlapping labels, rounded to two decimals.
 */
module Classification {

  import opened Wrappers
  import opened Numeric
  import opened Detections

  /** An environment and the labels that characterise it. */
  datatype Rule = Rule(environment: string, labels: seq<Label>)

  /** The environment reported when no rule overlaps the detections. */
  const Uncategorized: string := "Uncategorized"

  /** `env_rules`, in declaration order: the first overlapping rule wins. */
  const EnvRules: seq<Rule> := [
    Rule("Home", ["bed", "sofa", "tv", "refrigerator", "microwave", "chair", "dining table"]),
    Rule("Office", ["desk", "computer", "whiteboard", "chair", "meeting table"]),
    Rule("Shop", ["shelf", "counter", "bottled products", "packaged boxes", "refrigerator"])
  ]

  /** `detected_environment` and `environment_confidence` together. */
  datatype Environment = Environment(name: string, confidence: real)

  /** The labels of a rule that were detected, in the rule's order (`common_items`). */
  function CommonItems(items: seq<Label>, stats: DetectionStats): seq<Label>
  {
    if items == [] then []
    else (if items[0] in stats.counts then [items[0]] else []) + CommonItems(items[1..], stats)
  }

  /** The common items are the rule's labels that have a count, and only those. */
  lemma {:induction false} CommonItemsMembers(items: seq<Label>, stats: DetectionStats)
    ensures forall l :: l in CommonItems(items, stats) <==> l in items && l in stats.counts
  {
    if items != [] {
      CommonItemsMembers(items[1..], stats);
    }
  }

  /** A rule none of whose labels was detected has no common items. */
  lemma {:induction false} NoCommonItems(items: seq<Label>, stats: DetectionStats)
    requires forall l :: l in items ==> l !in stats.counts
    ensures CommonItems(items, stats) == []
  {
    if items != [] {
      NoCommonItems(items[1..], stats);
    }
  }

  /** `sum(sum(all_detected_items[item]) for item in common_items)` */
  function TotalConfidence(common: seq<Label>, stats: DetectionStats): real
    requires forall l :: l in common ==> l in stats.confidences
  {
    if common == [] then 0.0
    else Sum(stats.confidences[common[0]]) + TotalConfidence(common[1..], stats)
  }

  /** `sum(all_detected_counts[item] for item in common_items)` */
  function TotalCount(common: seq<Label>, stats: DetectionStats): int
    requires forall l :: l in common ==> l in stats.counts
  {
    if common == [] then 0
    else stats.counts[common[0]] + TotalCount(common[1..], stats)
  }

  /** Every confidence recorded for the given labels, label after label. */
  function Pooled(common: seq<Label>, stats: DetectionStats): seq<real>
    requires forall l :: l in common ==> l in stats.confidences
  {
    if common == [] then [] else stats.confidences[common[0]] + Pooled(common[1..], stats)
  }

  /**
   * The source's sum of sums and sum of counts are the sum and the length of
   * the pooled confidences, so its quotient is their plain mean.
   */
  lemma {:induction false} PooledTotals(common: seq<Label>, stats: DetectionStats)
    requires stats.Valid()
    requires forall l :: l in common ==> l in stats.counts
    ensures Sum(Pooled(common, stats)) == TotalConfidence(common, stats)
    ensures |Pooled(common, stats)| == TotalCount(common, stats) >= |common|
  {
    if common != [] {
      PooledTotals(common[1..], stats);
      SumAppend(stats.confidences[common[0]], Pooled(common[1..], stats));
    }
  }

  /** A rule that overlaps the detections has a positive total count. */
  lemma MatchedTotalCountPositive(common: seq<Label>, stats: DetectionStats)
    requires stats.Valid()
    requires common != [] && forall l :: l in common ==> l in stats.counts
    ensures TotalCount(common, stats) > 0
    ensures TotalConfidence(common, stats) / (TotalCount(common, stats) as real) == Mean(Pooled(common, stats))
  {
    PooledTotals(common, stats);
  }

  /** The index of the first rule whose labels overlap the detections. */
  function FirstMatch(rules: seq<Rule>, stats: DetectionStats): (k: Option<nat>)
    ensures k.Some? ==> k.value < |rules| && CommonItems(rules[k.value].labels, stats) != []
    ensures k.Some? ==> forall j :: 0 <= j < k.value ==> CommonItems(rules[j].labels, stats) == []
    ensures k.None? <==> forall j :: 0 <= j < |rules| ==> CommonItems(rules[j].labels, stats) == []
  {
    if rules == [] then None
    else if CommonItems(rules[0].labels, stats) != [] then Some(0)
    else
      match FirstMatch(rules[1..], stats)
      case None => None
      case Some(k) => Some(k + 1)
  }

  /** What the classification step decides, stated on the first overlapping rule. */
  function ClassificationOf(rules: seq<Rule>, stats: DetectionStats): Environment
    requires stats.Valid()
  {
    match FirstMatch(rules, stats)
    case None => Environment(Uncategorized, 0.0)
    case Some(k) =>
      var common := CommonItems(rules[k].labels, stats);
      CommonItemsMembers(rules[k].labels, stats);
      PooledTotals(common, stats);
      Environment(rules[k].environment, Round2(Mean(Pooled(common, stats))))
  }

  /** The classification loop of PartB.py, with its early `break`. */
  method Classify(rules: seq<Rule>, stats: DetectionStats) returns (env: Environment)
    requires stats.Valid()
    ensures env == ClassificationOf(rules, stats)
  {
    var detectedEnvironment := Uncategorized;
    var environmentConfidence := 0.0;
    var i := 0;
    while i < |rules|
      invariant 0 <= i <= |rules|
      invariant forall j :: 0 <= j < i ==> CommonItems(rules[j].labels, stats) == []
      invariant detectedEnvironment == Uncategorized && environmentConfidence == 0.0
    {
      var common := CommonItems(rules[i].labels, stats);
      CommonItemsMembers(rules[i].labels, stats);
      if common != [] {
        detectedEnvironment := rules[i].environment;
        var totalConfidence := TotalConfidence(common, stats);
        var totalCount := TotalCount(common, stats);
        MatchedTotalCountPositive(common, stats);
        if totalCount > 0 {
          environmentConfidence := Round2(totalConfidence / totalCount as real);
        }
        break;
      }
      i := i + 1;
    }
    env := Environment(detectedEnvironment, environmentConfidence);
  }

  /** With nothing detected, no rule overlaps: "Uncategorized" with confidence 0.0. */
  lemma NothingDetectedIsUncategorized(rules: seq<Rule>, stats: DetectionStats)
    requires stats.Valid() && stats.labels == []
    ensures ClassificationOf(rules, stats) == Environment(Uncategorized, 0.0)
  {
    forall j | 0 <= j < |rules| ensures CommonItems(rules[j].labels, stats) == [] {
      NoCommonItems(rules[j].labels, stats);
    }
  }

  /**
   * First match wins: rules that do not overlap the detections, wherever they
   * stand before the first one that does, and every rule after it, leave the
   * result unchanged.
   */
  lemma FirstOverlappingRuleWins(before: seq<Rule>, rule: Rule, after: seq<Rule>, stats: DetectionStats)
    requires stats.Valid()
    requires forall j :: 0 <= j < |before| ==> CommonItems(before[j].labels, stats) == []
    requires CommonItems(rule.labels, stats) != []
    ensures ClassificationOf(before + [rule] + after, stats) == ClassificationOf([rule], stats)
    ensures ClassificationOf([rule], stats).name == rule.environment
  {
    var rules := before + [rule] + after;
    assert rules[|before|] == rule;
    assert forall j :: 0 <= j < |before| ==> rules[j] == before[j];
    assert FirstMatch([rule], stats) == Some(0);
  }

  /**
   * The environment confidence before rounding is the mean over exactly the
   * overlapping labels' confidences, so it lies between their least and their
   * greatest; rounding keeps it between the rounded bounds.
   */
  lemma ConfidenceWithinOverlapping(rules: seq<Rule>, stats: DetectionStats)
    requires stats.Valid() && FirstMatch(rules, stats).Some?
    ensures var common := CommonItems(rules[FirstMatch(rules, stats).value].labels, stats);
      && (forall l :: l in common ==> l in stats.confidences)
      && var pooled := Pooled(common, stats);
      && |pooled| > 0
      && Min(pooled) <= Mean(pooled) <= Max(pooled)
      && Round2(Min(pooled)) <= ClassificationOf(rules, stats).confidence <= Round2(Max(pooled))
  {
    var common := CommonItems(rules[FirstMatch(rules, stats).value].labels, stats);
    CommonItemsMembers(rules[FirstMatch(rules, stats).value].labels, stats);
    PooledTotals(common, stats);
    var pooled := Pooled(common, stats);
    MeanBetweenMinAndMax(pooled);
    Round2Monotone(Min(pooled), Mean(pooled));
    Round2Monotone(Mean(pooled), Max(pooled));
  }
}
