/**
 * Comparison of the analysis with the declared manifest (PartB.py,
 * `analyze_video_background`): an environment mismatch first, when a declared
 * environment is given and differs ignoring case, then one asset mismatch per
 * manifest entry whose declared count is not the detected count.
 */
module Comparison {

  import opened Wrappers
  import opened Text
  import opened Detections

  /**
   * `declared_data`: the declared environment (`None` when the key is absent)
   * and the declared asset counts in manifest order (empty when absent).
   */
  datatype Manifest = Manifest(environment: Option<string>, assets: seq<(Label, int)>)

  /** One entry of `mismatch_highlight`, before it is rendered as text. */
  datatype Mismatch =
    | EnvironmentMismatch(declared: string, detected: string)
    | AssetMismatch(asset: Label, declaredCount: int, detectedCount: int)

  datatype RiskFlag = Pass | ReviewRequired

  function RiskFlagText(flag: RiskFlag): string
  {
    match flag
    case Pass => "Pass"
    case ReviewRequired => "Review Required"
  }

  /** The text the source appends to `mismatches`. */
  function Message(m: Mismatch): string
  {
    match m
    case EnvironmentMismatch(declared, detected) =>
      "Declared environment '" + declared + "' does not match detected environment '" + detected + "'"
    case AssetMismatch(asset, declaredCount, detectedCount) =>
      "Declared '" + asset + ": " + IntToString(declaredCount) + "' but detected '" + asset + ": " + IntToString(detectedCount) + "'"
  }

  /** `mismatch_highlight`: the text of every mismatch, in order. */
  function Messages(ms: seq<Mismatch>): seq<string>
  {
    seq(|ms|, i requires 0 <= i < |ms| => Message(ms[i]))
  }

  /** `all_detected_counts.get(asset, 0)`: a label never detected counts 0. */
  function DetectedCount(stats: DetectionStats, asset: Label): nat
  {
    if asset in stats.counts then stats.counts[asset] else 0
  }

  /** `declared_env and declared_env.lower() != detected_environment.lower()` */
  predicate EnvironmentDiffers(declared: Option<string>, detected: string)
  {
    declared.Some? && declared.value != "" && Lower(declared.value) != Lower(detected)
  }

  function EnvironmentCheck(declared: Option<string>, detected: string): seq<Mismatch>
  {
    if EnvironmentDiffers(declared, detected) then [EnvironmentMismatch(declared.value, detected)] else []
  }

  /** The mismatch of one manifest entry: one when the declared count is not the detected count. */
  function AssetCheck(entry: (Label, int), stats: DetectionStats): seq<Mismatch>
  {
    var detectedCount := DetectedCount(stats, entry.0);
    if entry.1 != detectedCount then [AssetMismatch(entry.0, entry.1, detectedCount)] else []
  }

  /** The asset mismatches of the manifest entries, in manifest order. */
  function AssetChecks(assets: seq<(Label, int)>, stats: DetectionStats): seq<Mismatch>
  {
    if assets == [] then [] else AssetCheck(assets[0], stats) + AssetChecks(assets[1..], stats)
  }

  /** `mismatches` as the comparison leaves it. */
  function MismatchesOf(declared: Manifest, detected: string, stats: DetectionStats): seq<Mismatch>
  {
    EnvironmentCheck(declared.environment, detected) + AssetChecks(declared.assets, stats)
  }

  /**
   * The comparison of PartB.py: the environment check, then a loop over the
   * manifest's assets; every mismatch sets the risk flag to "Review Required".
   * The detection statistics are only read.
   */
  method CompareWithDeclared(declared: Manifest, detectedEnvironment: string, stats: DetectionStats)
    returns (mismatches: seq<Mismatch>, riskFlag: RiskFlag)
    ensures mismatches == MismatchesOf(declared, detectedEnvironment, stats)
    ensures riskFlag == Pass <==> mismatches == []
  {
    mismatches := [];
    riskFlag := Pass;
    var declaredEnvironment := declared.environment;
    if declaredEnvironment.Some? && declaredEnvironment.value != ""
      && Lower(declaredEnvironment.value) != Lower(detectedEnvironment)
    {
      mismatches := mismatches + [EnvironmentMismatch(declaredEnvironment.value, detectedEnvironment)];
      riskFlag := ReviewRequired;
    }
    var assets := declared.assets;
    var i := 0;
    while i < |assets|
      invariant 0 <= i <= |assets|
      invariant mismatches == EnvironmentCheck(declaredEnvironment, detectedEnvironment) + AssetChecks(assets[..i], stats)
      invariant riskFlag == Pass <==> mismatches == []
    {
      ghost var before := mismatches;
      var asset, declaredCount := assets[i].0, assets[i].1;
      var detectedCount := DetectedCount(stats, asset);
      if declaredCount != detectedCount {
        mismatches := mismatches + [AssetMismatch(asset, declaredCount, detectedCount)];
        riskFlag := ReviewRequired;
      }
      assert mismatches == before + AssetCheck(assets[i], stats);
      assert mismatches == EnvironmentCheck(declaredEnvironment, detectedEnvironment) + AssetChecks(assets[..i + 1], stats) by {
        var envChecks, checked, check := EnvironmentCheck(declaredEnvironment, detectedEnvironment), AssetChecks(assets[..i], stats), AssetCheck(assets[i], stats);
        AssetChecksSnoc(assets, i, stats);
        assert (envChecks + checked) + check == envChecks + (checked + check);
      }
      i := i + 1;
    }
    assert assets[..i] == assets;
  }

  /** Asset mismatches keep manifest order: the checks of a concatenation concatenate. */
  lemma {:induction false} AssetChecksAppend(xs: seq<(Label, int)>, ys: seq<(Label, int)>, stats: DetectionStats)
    ensures AssetChecks(xs + ys, stats) == AssetChecks(xs, stats) + AssetChecks(ys, stats)
  {
    if xs == [] {
      assert xs + ys == ys;
    } else {
      var head, tail := AssetCheck(xs[0], stats), AssetChecks(xs[1..], stats);
      assert (xs + ys)[0] == xs[0] && (xs + ys)[1..] == xs[1..] + ys;
      calc {
        AssetChecks(xs + ys, stats);
        head + AssetChecks(xs[1..] + ys, stats);
        { AssetChecksAppend(xs[1..], ys, stats); }
        head + (tail + AssetChecks(ys, stats));
        (head + tail) + AssetChecks(ys, stats);
      }
    }
  }

  /** One more manifest entry checked: its mismatch, if any, goes last. */
  lemma AssetChecksSnoc(assets: seq<(Label, int)>, i: nat, stats: DetectionStats)
    requires i < |assets|
    ensures AssetChecks(assets[..i + 1], stats) == AssetChecks(assets[..i], stats) + AssetCheck(assets[i], stats)
  {
    assert assets[..i + 1] == assets[..i] + [assets[i]];
    AssetChecksAppend(assets[..i], [assets[i]], stats);
    assert [assets[i]][1..] == [];
  }

  /** Every asset mismatch names a manifest entry whose declared count differs from the detected one. */
  lemma {:induction false} AssetChecksSound(assets: seq<(Label, int)>, stats: DetectionStats)
    ensures forall m :: m in AssetChecks(assets, stats) ==>
      && m.AssetMismatch?
      && (m.asset, m.declaredCount) in assets
      && m.detectedCount == DetectedCount(stats, m.asset)
      && m.declaredCount != m.detectedCount
  {
    if assets != [] {
      AssetChecksSound(assets[1..], stats);
      var rest := AssetChecks(assets[1..], stats);
      var (asset, declaredCount) := assets[0];
      var detectedCount := DetectedCount(stats, asset);
      forall m | m in AssetChecks(assets, stats)
        ensures m.AssetMismatch? && (m.asset, m.declaredCount) in assets
        ensures m.detectedCount == DetectedCount(stats, m.asset) && m.declaredCount != m.detectedCount
      {
        if m in rest {
          assert (m.asset, m.declaredCount) in assets[1..];
        } else {
          assert m == AssetMismatch(asset, declaredCount, detectedCount);
          assert assets[0] == (asset, declaredCount);
        }
      }
    }
  }

  /** Every manifest entry whose declared count differs from the detected one has its mismatch. */
  lemma {:induction false} AssetChecksComplete(assets: seq<(Label, int)>, stats: DetectionStats)
    ensures forall i :: 0 <= i < |assets| && assets[i].1 != DetectedCount(stats, assets[i].0) ==>
      AssetMismatch(assets[i].0, assets[i].1, DetectedCount(stats, assets[i].0)) in AssetChecks(assets, stats)
  {
    if assets != [] {
      AssetChecksComplete(assets[1..], stats);
      assert forall i :: 1 <= i < |assets| ==> assets[i] == assets[1..][i - 1];
    }
  }

  /**
   * There is at most one environment mismatch, it is the first entry, and it is
   * there exactly when a non-empty declared environment differs ignoring case.
   */
  lemma EnvironmentMismatchFirst(declared: Manifest, detected: string, stats: DetectionStats)
    ensures var ms := MismatchesOf(declared, detected, stats);
      && (forall i :: 0 <= i < |ms| && ms[i].EnvironmentMismatch? ==> i == 0)
      && (|ms| > 0 && ms[0].EnvironmentMismatch? <==> EnvironmentDiffers(declared.environment, detected))
  {
    AssetChecksSound(declared.assets, stats);
    var ms := MismatchesOf(declared, detected, stats);
    var env := EnvironmentCheck(declared.environment, detected);
    assert forall i :: |env| <= i < |ms| ==> ms[i] in AssetChecks(declared.assets, stats);
  }

  /**
   * The counts of an asset mismatch read back from its text: the declared count
   * is the number right after `Declared '<asset>: `, the detected count the
   * number right before the closing quote.
   */
  lemma AssetMessageReadsBack(asset: Label, declaredCount: int, detectedCount: int)
    ensures var text := Message(AssetMismatch(asset, declaredCount, detectedCount));
      var declaredAt := |"Declared '" + asset + ": "|;
      && declaredAt <= |text| && text[|text| - 1] == '\''
      && ParseInt(NumberPrefix(text[declaredAt..])) == declaredCount
      && ParseInt(NumberSuffix(text[..|text| - 1])) == detectedCount
  {
    var declared, detected := IntToString(declaredCount), IntToString(detectedCount);
    var lead := "Declared '" + asset + ": ";
    var middle := "' but detected '" + asset + ": ";
    var text := Message(AssetMismatch(asset, declaredCount, detectedCount));
    assert text == lead + declared + middle + detected + "'";
    IntToStringChars(declaredCount);
    IntToStringChars(detectedCount);
    ParseIntToString(declaredCount);
    ParseIntToString(detectedCount);
    assert text[|lead|..] == declared + (middle + detected + "'");
    NumberPrefixOf(declared, middle + detected + "'");
    assert text[..|text| - 1] == (lead + declared + middle) + detected;
    NumberSuffixOf(lead + declared + middle, detected);
  }
}
