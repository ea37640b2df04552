/** The decision part of categorize.py: the category table and its load-time
    normalisation, the keyword resolver `map_prediction_to_category` and the
    hybrid decision rule of `hybrid_pipeline`. The detector and the classifier
    are foreign model calls; their outputs are the inputs here. */
module Categorize {
  import opened Wrappers
  import opened Text

  const Docs: string := "Docs"
  const People: string := "People"
  const Others: string := "Others"

  /** One key of the category table and its keyword list. */
  datatype Entry = Entry(category: string, keywords: seq<string>)

  /** The keys of the entries are pairwise distinct, as in a dict. */
  predicate KeysDistinct(entries: seq<Entry>) {
    forall i, j :: 0 <= i < j < |entries| ==> entries[i].category != entries[j].category
  }

  /** The category table as `json.load` returns it: one entry per key, in the
      order of the keys' first appearance, which is the order the resolver
      scans. */
  type Mapping = m: seq<Entry> | KeysDistinct(m)

  /** One detector observation: its COCO label and its score. */
  datatype Detection = Detection(labelName: string, score: real)

  /** `c` is a key of the table. */
  predicate IsCategory(c: string, mapping: Mapping) {
    exists i :: 0 <= i < |mapping| && mapping[i].category == c
  }

  // ---------------------------------------------------------------------
  // Load-time normalisation
  // ---------------------------------------------------------------------

  /** Every keyword of the table is lower case. */
  predicate IsNormalized(mapping: Mapping) {
    forall i, k :: 0 <= i < |mapping| && 0 <= k < |mapping[i].keywords| ==>
      IsLowerCase(mapping[i].keywords[k])
  }

  /** `[s.lower() for s in keywords]` */
  function LowerAll(keywords: seq<string>): (r: seq<string>)
    ensures |r| == |keywords|
    ensures forall k :: 0 <= k < |r| ==> r[k] == Lower(keywords[k]) && IsLowerCase(r[k])
  {
    seq(|keywords|, k requires 0 <= k < |keywords| => Lower(keywords[k]))
  }

  /** The table after every keyword list has been lower-cased. */
  function Normalized(mapping: Mapping): (r: Mapping)
    ensures |r| == |mapping|
    ensures forall i :: 0 <= i < |r| ==> r[i].category == mapping[i].category
    ensures forall i :: 0 <= i < |r| ==> r[i].keywords == LowerAll(mapping[i].keywords)
    ensures IsNormalized(r)
  {
    seq(|mapping|, i requires 0 <= i < |mapping| => Entry(mapping[i].category, LowerAll(mapping[i].keywords)))
  }

  /** The loop that rewrites each key's keyword list, one key at a time. */
  method NormalizeMapping(mapping: Mapping) returns (normalized: Mapping)
    ensures normalized == Normalized(mapping)
  {
    normalized := mapping;
    for i := 0 to |normalized|
      invariant |normalized| == |mapping|
      invariant normalized[..i] == Normalized(mapping)[..i]
      invariant normalized[i..] == mapping[i..]
    {
      var entry := Entry(normalized[i].category, LowerAll(normalized[i].keywords));
      assert entry == Normalized(mapping)[i];
      normalized := normalized[i := entry];
    }
  }

  // ---------------------------------------------------------------------
  // Keyword resolver
  // ---------------------------------------------------------------------

  /** The index of the first entry whose keyword list holds `labelName`. */
  function FirstCategoryWith(labelName: string, mapping: Mapping): (r: Option<nat>)
    ensures r.Some? ==> r.value < |mapping| && labelName in mapping[r.value].keywords
    ensures r.Some? ==> forall j :: 0 <= j < r.value ==> labelName !in mapping[j].keywords
    ensures r.None? ==> forall j :: 0 <= j < |mapping| ==> labelName !in mapping[j].keywords
  {
    if |mapping| == 0 then None
    else if labelName in mapping[0].keywords then Some(0)
    else
      match FirstCategoryWith(labelName, mapping[1..])
      case None => None
      case Some(i) => Some(i + 1)
  }

  /** `map_prediction_to_category`: the first category, in table order, whose
      keywords hold the lower-cased label; "Others" when none does. */
  function MapPredictionToCategory(predLabel: string, mapping: Mapping): (r: string)
    ensures r == Others || IsCategory(r, mapping)
    ensures forall i :: (0 <= i < |mapping| && Lower(predLabel) in mapping[i].keywords &&
                         forall j :: 0 <= j < i ==> Lower(predLabel) !in mapping[j].keywords) ==>
                        r == mapping[i].category
    ensures (forall j :: 0 <= j < |mapping| ==> Lower(predLabel) !in mapping[j].keywords) ==> r == Others
  {
    match FirstCategoryWith(Lower(predLabel), mapping)
    case Some(i) => mapping[i].category
    case None => Others
  }

  /** Reference definition of case-insensitive resolution over the table as it
      is written in the file, before normalisation. */
  function FirstCategoryIgnoringCase(labelName: string, mapping: Mapping): string {
    if |mapping| == 0 then Others
    else if exists k :: k in mapping[0].keywords && Lower(k) == Lower(labelName) then mapping[0].category
    else FirstCategoryIgnoringCase(labelName, mapping[1..])
  }

  /** After the load-time normalisation the resolver ignores case on both
      sides: it returns the first category with a keyword equal to the labelName
      up to case. */
  lemma {:induction false} ResolveIgnoresCase(labelName: string, mapping: Mapping)
    ensures MapPredictionToCategory(labelName, Normalized(mapping)) == FirstCategoryIgnoringCase(labelName, mapping)
    decreases |mapping|
  {
    if |mapping| > 0 {
      var n := Normalized(mapping);
      assert n[1..] == Normalized(mapping[1..]);
      var hit := exists k :: k in mapping[0].keywords && Lower(k) == Lower(labelName);
      if hit {
        var k :| k in mapping[0].keywords && Lower(k) == Lower(labelName);
        var idx :| 0 <= idx < |mapping[0].keywords| && mapping[0].keywords[idx] == k;
        assert n[0].keywords[idx] == Lower(labelName);
      } else {
        assert Lower(labelName) !in n[0].keywords;
        ResolveIgnoresCase(labelName, mapping[1..]);
        assert FirstCategoryWith(Lower(labelName), n) ==
          match FirstCategoryWith(Lower(labelName), n[1..])
          case None => None
          case Some(i) => Some(i + 1);
      }
    }
  }

  // ---------------------------------------------------------------------
  // Hybrid decision rule
  // ---------------------------------------------------------------------

  /** `mapping.get(category, [])`: the keyword list of the first entry with
      that key, or the empty list when the key is absent. */
  function Keywords(mapping: Mapping, category: string): (r: seq<string>)
    ensures (forall i :: 0 <= i < |mapping| ==> mapping[i].category != category) ==> r == []
    ensures r != [] ==> IsCategory(category, mapping)
    ensures forall i :: (0 <= i < |mapping| && mapping[i].category == category &&
                         forall j :: 0 <= j < i ==> mapping[j].category != category) ==>
                        r == mapping[i].keywords
  {
    if |mapping| == 0 then []
    else if mapping[0].category == category then mapping[0].keywords
    else
      var r := Keywords(mapping[1..], category);
      assert forall i :: 1 <= i < |mapping| ==> mapping[i] == mapping[1..][i - 1];
      r
  }

  /** After the load-time lower-casing, a key's keyword list is its original
      list lower-cased. */
  lemma {:induction false} KeywordsNormalized(mapping: Mapping, category: string)
    ensures Keywords(Normalized(mapping), category) == LowerAll(Keywords(mapping, category))
    decreases |mapping|
  {
    if |mapping| > 0 {
      var n := Normalized(mapping);
      assert n[1..] == Normalized(mapping[1..]);
      KeywordsNormalized(mapping[1..], category);
    }
  }

  /** An observation that ends the scan: at or above the threshold, with a
      labelName among the "Docs" or the "People" keywords. */
  predicate ShortCircuits(d: Detection, threshold: real, mapping: Mapping) {
    d.score >= threshold &&
    (Lower(d.labelName) in Keywords(mapping, Docs) || Lower(d.labelName) in Keywords(mapping, People))
  }

  /** The index of the first observation that ends the scan, in the
      detector's output order. */
  function FirstShortCircuit(detections: seq<Detection>, threshold: real, mapping: Mapping): (r: Option<nat>)
    ensures r.Some? ==> r.value < |detections| && ShortCircuits(detections[r.value], threshold, mapping)
    ensures r.Some? ==> forall j :: 0 <= j < r.value ==> !ShortCircuits(detections[j], threshold, mapping)
    ensures r.None? ==> forall j :: 0 <= j < |detections| ==> !ShortCircuits(detections[j], threshold, mapping)
  {
    if |detections| == 0 then None
    else if ShortCircuits(detections[0], threshold, mapping) then Some(0)
    else
      match FirstShortCircuit(detections[1..], threshold, mapping)
      case None => None
      case Some(i) => Some(i + 1)
  }

  /** The category an observation that ends the scan yields: "Docs" is
      tested before "People". */
  function ShortCircuitCategory(d: Detection, mapping: Mapping): (r: string)
    ensures r == Docs || r == People
    ensures Lower(d.labelName) in Keywords(mapping, Docs) ==> r == Docs
    ensures Lower(d.labelName) !in Keywords(mapping, Docs) ==> r == People
  {
    if Lower(d.labelName) in Keywords(mapping, Docs) then Docs else People
  }

  /** The decision of `hybrid_pipeline`: the first observation that ends the
      scan decides between "Docs" and "People"; when no observation does, the
      classifier's top-1 label goes through the resolver. What this means,
      case by case, is stated by DocsDetectionWins, PeopleDetectionWins and
      ClassifierDecides. */
  function HybridPipeline(detections: seq<Detection>, classifierLabel: string, threshold: real, mapping: Mapping): (r: string)
    ensures r == Others || IsCategory(r, mapping)
  {
    match FirstShortCircuit(detections, threshold, mapping)
    case Some(i) => ShortCircuitCategory(detections[i], mapping)
    case None => MapPredictionToCategory(classifierLabel, mapping)
  }

  /** An observation that ends the scan, with none before it, is the one found. */
  lemma FirstShortCircuitAt(detections: seq<Detection>, threshold: real, mapping: Mapping, i: nat)
    requires i < |detections| && ShortCircuits(detections[i], threshold, mapping)
    requires forall j :: 0 <= j < i ==> !ShortCircuits(detections[j], threshold, mapping)
    ensures FirstShortCircuit(detections, threshold, mapping) == Some(i)
  {
    var r := FirstShortCircuit(detections, threshold, mapping);
    assert r.Some?;
    assert !(r.value < i);
  }

  /** The first observation at or above the threshold whose label is a "Docs"
      keyword, with no earlier one ending the scan, yields "Docs". */
  lemma DocsDetectionWins(detections: seq<Detection>, classifierLabel: string, threshold: real, mapping: Mapping, i: nat)
    requires i < |detections| && detections[i].score >= threshold
    requires Lower(detections[i].labelName) in Keywords(mapping, Docs)
    requires forall j :: 0 <= j < i ==> !ShortCircuits(detections[j], threshold, mapping)
    ensures HybridPipeline(detections, classifierLabel, threshold, mapping) == Docs
  {
    FirstShortCircuitAt(detections, threshold, mapping, i);
  }

  /** The first observation at or above the threshold whose label is a
      "People" keyword but not a "Docs" keyword, with no earlier one ending
      the scan, yields "People". */
  lemma PeopleDetectionWins(detections: seq<Detection>, classifierLabel: string, threshold: real, mapping: Mapping, i: nat)
    requires i < |detections| && detections[i].score >= threshold
    requires Lower(detections[i].labelName) !in Keywords(mapping, Docs)
    requires Lower(detections[i].labelName) in Keywords(mapping, People)
    requires forall j :: 0 <= j < i ==> !ShortCircuits(detections[j], threshold, mapping)
    ensures HybridPipeline(detections, classifierLabel, threshold, mapping) == People
  {
    FirstShortCircuitAt(detections, threshold, mapping, i);
  }

  /** With no observation ending the scan, the classifier's label decides,
      through the resolver. */
  lemma ClassifierDecides(detections: seq<Detection>, classifierLabel: string, threshold: real, mapping: Mapping)
    requires forall j :: 0 <= j < |detections| ==> !ShortCircuits(detections[j], threshold, mapping)
    ensures HybridPipeline(detections, classifierLabel, threshold, mapping) == MapPredictionToCategory(classifierLabel, mapping)
  {
    var r := FirstShortCircuit(detections, threshold, mapping);
    assert r.None?;
  }

  /** The observations the scan examines at all. */
  function AtOrAbove(detections: seq<Detection>, threshold: real): (r: seq<Detection>)
    ensures forall d :: d in r ==> d in detections && d.score >= threshold
    ensures forall d :: d in detections && d.score >= threshold ==> d in r
    ensures forall d :: multiset(r)[d] == if d.score >= threshold then multiset(detections)[d] else 0
  {
    if |detections| == 0 then []
    else
      assert detections == [detections[0]] + detections[1..];
      if detections[0].score >= threshold then [detections[0]] + AtOrAbove(detections[1..], threshold)
      else AtOrAbove(detections[1..], threshold)
  }

  /** The filter distributes over concatenation, so the observations kept
      stay in the detector's order. */
  lemma {:induction false} AtOrAboveAppend(xs: seq<Detection>, ys: seq<Detection>, threshold: real)
    ensures AtOrAbove(xs + ys, threshold) == AtOrAbove(xs, threshold) + AtOrAbove(ys, threshold)
    decreases |xs|
  {
    if |xs| == 0 {
      assert xs + ys == ys;
    } else {
      var head := if xs[0].score >= threshold then [xs[0]] else [];
      assert (xs + ys)[0] == xs[0] && (xs + ys)[1..] == xs[1..] + ys;
      assert AtOrAbove(xs + ys, threshold) == head + AtOrAbove(xs[1..] + ys, threshold);
      assert AtOrAbove(xs, threshold) == head + AtOrAbove(xs[1..], threshold);
      AtOrAboveAppend(xs[1..], ys, threshold);
      AppendAssociates(head, AtOrAbove(xs[1..], threshold), AtOrAbove(ys, threshold));
    }
  }

  /** Sequence concatenation is associative; stated once for the proofs
      that need it, where the solver does not find it unaided. */
  lemma AppendAssociates<T>(a: seq<T>, b: seq<T>, c: seq<T>)
    ensures (a + b) + c == a + (b + c)
  {
  }

  /** Filtering out the observations below the threshold leaves the same
      observation first to end the scan. */
  lemma {:induction false} FirstShortCircuitFiltered(detections: seq<Detection>, threshold: real, mapping: Mapping)
    ensures FirstShortCircuit(AtOrAbove(detections, threshold), threshold, mapping).None? ==
            FirstShortCircuit(detections, threshold, mapping).None?
    ensures FirstShortCircuit(detections, threshold, mapping).Some? ==>
            AtOrAbove(detections, threshold)[FirstShortCircuit(AtOrAbove(detections, threshold), threshold, mapping).value] ==
            detections[FirstShortCircuit(detections, threshold, mapping).value]
    decreases |detections|
  {
    if |detections| > 0 {
      FirstShortCircuitFiltered(detections[1..], threshold, mapping);
      if detections[0].score >= threshold {
        FilteredKeepsHead(detections, threshold, mapping);
      } else {
        FilteredDropsHead(detections, threshold, mapping);
      }
    }
  }

  /** The step of `FirstShortCircuitFiltered` for a first observation at or
      above the threshold. */
  lemma FilteredKeepsHead(detections: seq<Detection>, threshold: real, mapping: Mapping)
    requires |detections| > 0 && detections[0].score >= threshold
    requires FirstShortCircuit(AtOrAbove(detections[1..], threshold), threshold, mapping).None? ==
             FirstShortCircuit(detections[1..], threshold, mapping).None?
    requires FirstShortCircuit(detections[1..], threshold, mapping).Some? ==>
             AtOrAbove(detections[1..], threshold)[FirstShortCircuit(AtOrAbove(detections[1..], threshold), threshold, mapping).value] ==
             detections[1..][FirstShortCircuit(detections[1..], threshold, mapping).value]
    ensures FirstShortCircuit(AtOrAbove(detections, threshold), threshold, mapping).None? ==
            FirstShortCircuit(detections, threshold, mapping).None?
    ensures FirstShortCircuit(detections, threshold, mapping).Some? ==>
            AtOrAbove(detections, threshold)[FirstShortCircuit(AtOrAbove(detections, threshold), threshold, mapping).value] ==
            detections[FirstShortCircuit(detections, threshold, mapping).value]
  {
    var d, rest := detections[0], detections[1..];
    var f, g := AtOrAbove(detections, threshold), AtOrAbove(rest, threshold);
    assert f == [d] + g;
    assert f[0] == d && f[1..] == g;
    if ShortCircuits(d, threshold, mapping) {
      FirstShortCircuitAt(f, threshold, mapping, 0);
      FirstShortCircuitAt(detections, threshold, mapping, 0);
    } else {
      FilteredKeepsLaterHead(detections, threshold, mapping);
    }
  }

  lemma FilteredKeepsLaterHead(detections: seq<Detection>, threshold: real, mapping: Mapping)
    requires |detections| > 0 && detections[0].score >= threshold
    requires !ShortCircuits(detections[0], threshold, mapping)
    requires AtOrAbove(detections, threshold)[1..] == AtOrAbove(detections[1..], threshold)
    requires AtOrAbove(detections, threshold)[0] == detections[0]
    requires FirstShortCircuit(AtOrAbove(detections[1..], threshold), threshold, mapping).None? ==
             FirstShortCircuit(detections[1..], threshold, mapping).None?
    requires FirstShortCircuit(detections[1..], threshold, mapping).Some? ==>
             AtOrAbove(detections[1..], threshold)[FirstShortCircuit(AtOrAbove(detections[1..], threshold), threshold, mapping).value] ==
             detections[1..][FirstShortCircuit(detections[1..], threshold, mapping).value]
    ensures FirstShortCircuit(AtOrAbove(detections, threshold), threshold, mapping).None? ==
            FirstShortCircuit(detections, threshold, mapping).None?
    ensures FirstShortCircuit(detections, threshold, mapping).Some? ==>
            AtOrAbove(detections, threshold)[FirstShortCircuit(AtOrAbove(detections, threshold), threshold, mapping).value] ==
            detections[FirstShortCircuit(detections, threshold, mapping).value]
  {
    FirstShortCircuitSkipsHead(detections, threshold, mapping);
    FirstShortCircuitSkipsHead(AtOrAbove(detections, threshold), threshold, mapping);
  }

  /** A first observation that does not end the scan shifts the index found
      in the rest by one. */
  lemma FirstShortCircuitSkipsHead(detections: seq<Detection>, threshold: real, mapping: Mapping)
    requires |detections| > 0 && !ShortCircuits(detections[0], threshold, mapping)
    ensures FirstShortCircuit(detections, threshold, mapping).None? == FirstShortCircuit(detections[1..], threshold, mapping).None?
    ensures FirstShortCircuit(detections, threshold, mapping).Some? ==>
            FirstShortCircuit(detections, threshold, mapping).value == FirstShortCircuit(detections[1..], threshold, mapping).value + 1 &&
            detections[FirstShortCircuit(detections, threshold, mapping).value] ==
            detections[1..][FirstShortCircuit(detections[1..], threshold, mapping).value]
  {
  }

  /** The step of `FirstShortCircuitFiltered` for a first observation below
      the threshold. */
  lemma FilteredDropsHead(detections: seq<Detection>, threshold: real, mapping: Mapping)
    requires |detections| > 0 && detections[0].score < threshold
    requires FirstShortCircuit(AtOrAbove(detections[1..], threshold), threshold, mapping).None? ==
             FirstShortCircuit(detections[1..], threshold, mapping).None?
    requires FirstShortCircuit(detections[1..], threshold, mapping).Some? ==>
             AtOrAbove(detections[1..], threshold)[FirstShortCircuit(AtOrAbove(detections[1..], threshold), threshold, mapping).value] ==
             detections[1..][FirstShortCircuit(detections[1..], threshold, mapping).value]
    ensures FirstShortCircuit(AtOrAbove(detections, threshold), threshold, mapping).None? ==
            FirstShortCircuit(detections, threshold, mapping).None?
    ensures FirstShortCircuit(detections, threshold, mapping).Some? ==>
            AtOrAbove(detections, threshold)[FirstShortCircuit(AtOrAbove(detections, threshold), threshold, mapping).value] ==
            detections[FirstShortCircuit(detections, threshold, mapping).value]
  {
    assert AtOrAbove(detections, threshold) == AtOrAbove(detections[1..], threshold);
    assert !ShortCircuits(detections[0], threshold, mapping);
    FirstShortCircuitSkipsHead(detections, threshold, mapping);
  }

  /** Observations below the threshold never affect the result. */
  lemma BelowThresholdIgnored(detections: seq<Detection>, classifierLabel: string, threshold: real, mapping: Mapping)
    ensures HybridPipeline(detections, classifierLabel, threshold, mapping) ==
            HybridPipeline(AtOrAbove(detections, threshold), classifierLabel, threshold, mapping)
  {
    FirstShortCircuitFiltered(detections, threshold, mapping);
  }

  /** When an observation ends the scan, the classifier's labelName is irrelevant:
      the classifier is never consulted. */
  lemma ClassifierIgnoredOnShortCircuit(detections: seq<Detection>, label1: string, label2: string, threshold: real, mapping: Mapping, i: nat)
    requires i < |detections| && ShortCircuits(detections[i], threshold, mapping)
    ensures HybridPipeline(detections, label1, threshold, mapping) == HybridPipeline(detections, label2, threshold, mapping)
    ensures HybridPipeline(detections, label1, threshold, mapping) in {Docs, People}
  {
  }
}
