/**
 * Aggregation of the detector's output (PartB.py, `analyze_video_background`).
 * The detector itself is not modelled: its output is the input here, one
 * sequence of detections per frame, and a frame whose download failed is an
 * empty frame. The two `defaultdict`s of the source, label to confidences and
 * label to count, are kept in one `DetectionStats` value whose `labels` is
 * their common insertion order.
 */
module Detections {

  type Label = string

  /** One box the detector returned: its class name and its confidence. */
  datatype Detection = Detection(name: Label, confidence: real)

  type Frame = seq<Detection>

  predicate Distinct<T(==)>(s: seq<T>)
  {
    forall i, j :: 0 <= i < j < |s| ==> s[i] != s[j]
  }

  /**
   * The two insertion-ordered maps filled by the aggregation loop.
   * `labels` lists their keys in the order they were first inserted.
   */
  datatype DetectionStats = DetectionStats(
    labels: seq<Label>,
    confidences: map<Label, seq<real>>,
    counts: map<Label, nat>)
  {
    /** The maps share their keys; every count is the length of its (non-empty) list. */
    ghost predicate Valid()
    {
      && Distinct(labels)
      && (forall l :: l in confidences <==> l in labels)
      && (forall l :: l in counts <==> l in labels)
      && (forall l :: l in counts ==> l in confidences && counts[l] == |confidences[l]| && counts[l] >= 1)
    }
  }

  /** All detections of all frames, frame after frame. */
  function Flatten(frames: seq<Frame>): seq<Detection>
  {
    if frames == [] then [] else Flatten(frames[..|frames| - 1]) + frames[|frames| - 1]
  }

  /** The label of every detection, in detection order. */
  function LabelsOf(ds: seq<Detection>): seq<Label>
  {
    seq(|ds|, i requires 0 <= i < |ds| => ds[i].name)
  }

  /** How many detections carry label `l`. */
  function CountOf(ds: seq<Detection>, l: Label): nat
  {
    if ds == [] then 0 else CountOf(ds[..|ds| - 1], l) + if ds[|ds| - 1].name == l then 1 else 0
  }

  /** The confidences of the detections that carry label `l`, in detection order. */
  function ConfidencesOf(ds: seq<Detection>, l: Label): seq<real>
  {
    if ds == [] then []
    else
      var d := ds[|ds| - 1];
      ConfidencesOf(ds[..|ds| - 1], l) + if d.name == l then [d.confidence] else []
  }

  /** The distinct labels of `ds`, each where it first occurs. */
  function FirstSeen(ds: seq<Detection>): seq<Label>
  {
    if ds == [] then []
    else
      var seen := FirstSeen(ds[..|ds| - 1]);
      var l := ds[|ds| - 1].name;
      if l in seen then seen else seen + [l]
  }

  /** Where label `l` occurs first in `ds`. */
  function FirstIndex(ds: seq<Detection>, l: Label): (k: nat)
    requires l in LabelsOf(ds)
    ensures k < |ds| && ds[k].name == l
    ensures forall q :: 0 <= q < k ==> ds[q].name != l
  {
    var prefix := ds[..|ds| - 1];
    assert ds == prefix + [ds[|ds| - 1]];
    LabelsOfSnoc(prefix, ds[|ds| - 1]);
    assert forall q :: 0 <= q < |prefix| ==> LabelsOf(prefix)[q] == prefix[q].name;
    if l in LabelsOf(prefix) then FirstIndex(prefix, l) else |ds| - 1
  }

  /** What the aggregation loop leaves in the two maps after seeing `ds`. */
  function StatsOf(ds: seq<Detection>): DetectionStats
  {
    var labels := FirstSeen(ds);
    DetectionStats(
      labels,
      map l | l in labels :: ConfidencesOf(ds, l),
      map l | l in labels :: CountOf(ds, l))
  }

  lemma LabelsOfSnoc(ds: seq<Detection>, d: Detection)
    ensures LabelsOf(ds + [d]) == LabelsOf(ds) + [d.name]
  {
  }

  lemma CountOfSnoc(ds: seq<Detection>, d: Detection, l: Label)
    ensures CountOf(ds + [d], l) == CountOf(ds, l) + if d.name == l then 1 else 0
  {
    assert (ds + [d])[..|ds|] == ds;
  }

  /** The count of a label is its multiplicity among the detected labels. */
  lemma {:induction false} CountIsMultiplicity(ds: seq<Detection>, l: Label)
    ensures CountOf(ds, l) == multiset(LabelsOf(ds))[l]
  {
    if ds != [] {
      var prefix := ds[..|ds| - 1];
      CountIsMultiplicity(prefix, l);
      assert LabelsOf(ds) == LabelsOf(prefix) + [ds[|ds| - 1].name];
    }
  }

  /** A label has a positive count exactly when some detection carries it. */
  lemma CountPositive(ds: seq<Detection>, l: Label)
    ensures CountOf(ds, l) > 0 <==> l in LabelsOf(ds)
  {
    CountIsMultiplicity(ds, l);
  }

  /** There are as many confidences recorded for a label as detections carrying it. */
  lemma {:induction false} ConfidencesCount(ds: seq<Detection>, l: Label)
    ensures |ConfidencesOf(ds, l)| == CountOf(ds, l)
  {
    if ds != [] {
      var prefix, d := ds[..|ds| - 1], ds[|ds| - 1];
      ConfidencesCount(prefix, l);
      assert prefix + [d] == ds;
      CountOfSnoc(prefix, d, l);
    }
  }

  /** Every recorded confidence is that of a detection carrying the label. */
  lemma {:induction false} ConfidencesFromDetections(ds: seq<Detection>, l: Label)
    ensures forall x :: x in ConfidencesOf(ds, l) ==> Detection(l, x) in ds
  {
    if ds != [] {
      var prefix := ds[..|ds| - 1];
      ConfidencesFromDetections(prefix, l);
      assert forall d :: d in prefix ==> d in ds;
    }
  }

  /** The first-seen labels are exactly the labels detected, each once. */
  lemma {:induction false} FirstSeenLabels(ds: seq<Detection>)
    ensures Distinct(FirstSeen(ds))
    ensures forall l :: l in FirstSeen(ds) <==> l in LabelsOf(ds)
  {
    if ds != [] {
      var prefix := ds[..|ds| - 1];
      FirstSeenLabels(prefix);
      assert LabelsOf(ds) == LabelsOf(prefix) + [ds[|ds| - 1].name];
    }
  }

  /** Labels are listed in the order of their first detection. */
  lemma {:induction false} FirstSeenOrdered(ds: seq<Detection>)
    ensures forall i, j :: 0 <= i < j < |FirstSeen(ds)| ==>
      FirstSeen(ds)[i] in LabelsOf(ds) && FirstSeen(ds)[j] in LabelsOf(ds) &&
      FirstIndex(ds, FirstSeen(ds)[i]) < FirstIndex(ds, FirstSeen(ds)[j])
  {
    FirstSeenLabels(ds);
    if ds != [] {
      var prefix, last := ds[..|ds| - 1], ds[|ds| - 1].name;
      FirstSeenOrdered(prefix);
      FirstSeenLabels(prefix);
      var seen := FirstSeen(prefix);
      assert LabelsOf(ds) == LabelsOf(prefix) + [last];
      forall l | l in seen
        ensures l in LabelsOf(prefix) && FirstIndex(ds, l) == FirstIndex(prefix, l)
      {
      }
    }
  }

  /** One step of the loop, first-seen order: a new label goes to the end. */
  lemma FirstSeenSnoc(ds: seq<Detection>, d: Detection)
    ensures FirstSeen(ds + [d]) == if d.name in FirstSeen(ds) then FirstSeen(ds) else FirstSeen(ds) + [d.name]
  {
    assert (ds + [d])[..|ds|] == ds;
  }

  /** A label not yet seen has no detections and no confidences. */
  lemma UnseenLabel(ds: seq<Detection>, l: Label)
    requires l !in FirstSeen(ds)
    ensures CountOf(ds, l) == 0 && ConfidencesOf(ds, l) == []
  {
    FirstSeenLabels(ds);
    CountPositive(ds, l);
    ConfidencesCount(ds, l);
  }

  /** One step of the loop on the key set of both maps: the detection's label joins it. */
  lemma KeysSnoc(ds: seq<Detection>, d: Detection)
    ensures forall l :: l in StatsOf(ds + [d]).counts <==> l in StatsOf(ds).counts || l == d.name
    ensures forall l :: l in StatsOf(ds + [d]).confidences <==> l in StatsOf(ds).confidences || l == d.name
  {
    FirstSeenSnoc(ds, d);
  }

  /** One step of the loop for one label: its confidences and its count. */
  lemma LabelSnoc(ds: seq<Detection>, d: Detection, l: Label)
    requires l in StatsOf(ds).counts || l == d.name
    ensures var s, s' := StatsOf(ds), StatsOf(ds + [d]);
      && l in s'.counts && l in s'.confidences
      && s'.counts[l] == (if l in s.counts then s.counts[l] else 0) + (if l == d.name then 1 else 0)
      && s'.confidences[l] == (if l in s.confidences then s.confidences[l] else []) + (if l == d.name then [d.confidence] else [])
  {
    KeysSnoc(ds, d);
    var ds' := ds + [d];
    assert ds'[..|ds'| - 1] == ds;
    CountOfSnoc(ds, d, l);
    if l !in StatsOf(ds).counts {
      UnseenLabel(ds, l);
    }
  }

  /** One step of the loop, label to confidences: `items[name].append(confidence)`. */
  lemma ConfidencesSnoc(ds: seq<Detection>, d: Detection)
    ensures var m := StatsOf(ds).confidences;
      StatsOf(ds + [d]).confidences == m[d.name := (if d.name in m then m[d.name] else []) + [d.confidence]]
  {
    var m, m' := StatsOf(ds).confidences, StatsOf(ds + [d]).confidences;
    var expected := m[d.name := (if d.name in m then m[d.name] else []) + [d.confidence]];
    KeysSnoc(ds, d);
    forall l | l in expected ensures l in m' && m'[l] == expected[l] {
      LabelSnoc(ds, d, l);
    }
    assert forall l :: l in m' <==> l in expected;
    assert m' == expected;
  }

  /** One step of the loop, label to count: `counts[name] += 1`. */
  lemma CountsSnoc(ds: seq<Detection>, d: Detection)
    ensures var m := StatsOf(ds).counts;
      StatsOf(ds + [d]).counts == m[d.name := (if d.name in m then m[d.name] else 0) + 1]
  {
    var m, m' := StatsOf(ds).counts, StatsOf(ds + [d]).counts;
    var expected := m[d.name := (if d.name in m then m[d.name] else 0) + 1];
    KeysSnoc(ds, d);
    forall l | l in expected ensures l in m' && m'[l] == expected[l] {
      LabelSnoc(ds, d, l);
    }
    assert forall l :: l in m' <==> l in expected;
    assert m' == expected;
  }

  /** One step of the loop on both maps and their key order. */
  lemma StatsOfSnoc(ds: seq<Detection>, d: Detection)
    ensures var s := StatsOf(ds);
      StatsOf(ds + [d]) == DetectionStats(
        if d.name in s.confidences then s.labels else s.labels + [d.name],
        s.confidences[d.name := (if d.name in s.confidences then s.confidences[d.name] else []) + [d.confidence]],
        s.counts[d.name := (if d.name in s.counts then s.counts[d.name] else 0) + 1])
  {
    FirstSeenSnoc(ds, d);
    ConfidencesSnoc(ds, d);
    CountsSnoc(ds, d);
  }

  /** One more detection of the frame read: the prefix read so far grows by it. */
  lemma PrefixSnoc(seen: seq<Detection>, frame: Frame, j: nat)
    requires j < |frame|
    ensures seen + frame[..j + 1] == seen + frame[..j] + [frame[j]]
  {
    assert frame[..j + 1] == frame[..j] + [frame[j]];
  }

  /** One more frame read: the detections read so far grow by it. */
  lemma FlattenSnoc(frames: seq<Frame>, i: nat)
    requires i < |frames|
    ensures Flatten(frames[..i + 1]) == Flatten(frames[..i]) + frames[i]
  {
    assert frames[..i + 1][..i] == frames[..i];
  }

  /**
   * After aggregation every label's count is the length of its confidence list,
   * and both are the number of detections carrying the label.
   */
  lemma StatsOfValid(ds: seq<Detection>)
    ensures StatsOf(ds).Valid()
    ensures forall l :: l in StatsOf(ds).counts <==> l in LabelsOf(ds)
    ensures forall l :: l in StatsOf(ds).counts ==>
      StatsOf(ds).counts[l] == CountOf(ds, l) && StatsOf(ds).confidences[l] == ConfidencesOf(ds, l)
  {
    FirstSeenLabels(ds);
    forall l | l in FirstSeen(ds) ensures CountOf(ds, l) >= 1 && |ConfidencesOf(ds, l)| == CountOf(ds, l) {
      CountPositive(ds, l);
      ConfidencesCount(ds, l);
    }
  }

  /** Detections are not merged across frames: the counts of the frames add up. */
  function CountPerFrame(frames: seq<Frame>, l: Label): nat
  {
    if frames == [] then 0 else CountPerFrame(frames[..|frames| - 1], l) + CountOf(frames[|frames| - 1], l)
  }

  lemma CountOfAppend(xs: seq<Detection>, ys: seq<Detection>, l: Label)
    ensures CountOf(xs + ys, l) == CountOf(xs, l) + CountOf(ys, l)
  {
    CountIsMultiplicity(xs, l);
    CountIsMultiplicity(ys, l);
    CountIsMultiplicity(xs + ys, l);
    assert LabelsOf(xs + ys) == LabelsOf(xs) + LabelsOf(ys);
  }

  lemma {:induction false} CountAcrossFrames(frames: seq<Frame>, l: Label)
    ensures CountOf(Flatten(frames), l) == CountPerFrame(frames, l)
  {
    if frames != [] {
      CountAcrossFrames(frames[..|frames| - 1], l);
      CountOfAppend(Flatten(frames[..|frames| - 1]), frames[|frames| - 1], l);
    }
  }

  /**
   * The aggregation loop of PartB.py: for every box of every frame, append the
   * confidence to the label's list and increment the label's count.
   */
  method Aggregate(frames: seq<Frame>) returns (stats: DetectionStats)
    ensures stats == StatsOf(Flatten(frames))
  {
    var labels: seq<Label> := [];
    var confidences: map<Label, seq<real>> := map[];
    var counts: map<Label, nat> := map[];
    ghost var seen: seq<Detection> := [];
    var i := 0;
    while i < |frames|
      invariant 0 <= i <= |frames|
      invariant seen == Flatten(frames[..i])
      invariant DetectionStats(labels, confidences, counts) == StatsOf(seen)
    {
      var frame := frames[i];
      ghost var current := seen;
      var j := 0;
      while j < |frame|
        invariant 0 <= j <= |frame|
        invariant current == seen + frame[..j]
        invariant DetectionStats(labels, confidences, counts) == StatsOf(current)
      {
        var d := frame[j];
        StatsOfSnoc(current, d);
        // A defaultdict inserts a missing key, at the end of its order, with
        // the factory's value: [] for the confidences, 0 for the counts.
        if d.name !in confidences {
          labels := labels + [d.name];
        }
        confidences := confidences[d.name := (if d.name in confidences then confidences[d.name] else []) + [d.confidence]];
        counts := counts[d.name := (if d.name in counts then counts[d.name] else 0) + 1];
        PrefixSnoc(seen, frame, j);
        current := current + [d];
        j := j + 1;
      }
      FlattenSnoc(frames, i);
      assert frame[..j] == frame;
      seen := current;
      i := i + 1;
    }
    assert frames[..i] == frames;
    stats := DetectionStats(labels, confidences, counts);
  }
}
