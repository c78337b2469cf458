/**
 * The JSON conversion: one record per detection, each label paired with its score by zip
 * and resolved strictly through the label map.  The model stops at the list of records;
 * json.dumps turns it into text, and json.dumps of the empty list is the text "[]".
 */
module JsonOutput {
  import opened Wrappers
  import opened Detections

  /** {"label": ..., "score": ...} */
  datatype LabelScore<S> = LabelScore(text: string, score: S)

  /** {"detection_id": ..., "parent_id": ..., "box": ..., "labels_scores": [...]} */
  datatype Record<B, S> = Record(
    detectionId: int,
    parentId: Option<int>,
    box: B,
    labelsScores: seq<LabelScore<S>>)

  function Min(a: nat, b: nat): nat { if a <= b then a else b }

  /** The number of pairs zip(labels, scores) yields. */
  function PairCount<B, S>(d: Detection<B, S>): nat { Min(|d.labels|, |d.scores|) }

  /** The first n labels are all keys of the label map. */
  predicate Mapped(labels: seq<int>, n: nat, labelMap: LabelMap)
    requires n <= |labels|
  {
    forall k :: 0 <= k < n ==> labels[k] in labelMap
  }

  /** Every label that zip pairs with a score resolves strictly. */
  predicate Resolvable<B, S>(d: Detection<B, S>, labelMap: LabelMap) {
    Mapped(d.labels, PairCount(d), labelMap)
  }

  /**
   * [{"label": label_map[label], "score": score} for label, score in zip(labels, scores)].
   * It fails exactly when a paired label is absent, with the KeyError of the first such
   * label; otherwise entry k pairs the text of labels[k] with scores[k].
   */
  function PairLabels<S>(labels: seq<int>, scores: seq<S>, labelMap: LabelMap)
    : (r: Result<seq<LabelScore<S>>, Error>)
    ensures r.Ok? <==> Mapped(labels, Min(|labels|, |scores|), labelMap)
    ensures r.Ok? ==> |r.value| == Min(|labels|, |scores|)
    ensures r.Ok? ==> forall k :: 0 <= k < |r.value| ==>
                        r.value[k] == LabelScore(labelMap[labels[k]], scores[k])
    ensures r.Err? ==> exists k :: 0 <= k < Min(|labels|, |scores|) && Mapped(labels, k, labelMap)
                          && labels[k] !in labelMap && r.error == KeyError(labels[k])
  {
    if |labels| == 0 || |scores| == 0 then Ok([])
    else if labels[0] !in labelMap then
      assert Mapped(labels, 0, labelMap);
      Err(KeyError(labels[0]))
    else
      match PairLabels(labels[1..], scores[1..], labelMap)
      case Err(e) =>
        ghost var k :| 0 <= k < Min(|labels| - 1, |scores| - 1) && Mapped(labels[1..], k, labelMap)
                       && labels[1..][k] !in labelMap && e == KeyError(labels[1..][k]);
        assert Mapped(labels, k + 1, labelMap);
        Err(e)
      case Ok(rest) => Ok([LabelScore(labelMap[labels[0]], scores[0])] + rest)
  }

  /** The record of one detection: its id, parent id and box copied, its pairs resolved. */
  function DetectionRecord<B, S>(d: Detection<B, S>, labelMap: LabelMap): (r: Result<Record<B, S>, Error>)
    ensures r.Ok? <==> Resolvable(d, labelMap)
    ensures r.Ok? ==> r.value.detectionId == d.id && r.value.parentId == d.parentId
                      && r.value.box == d.box
    ensures r.Ok? ==> r.value.labelsScores == PairLabels(d.labels, d.scores, labelMap).value
    ensures r.Err? ==> r.error == PairLabels(d.labels, d.scores, labelMap).error
  {
    match PairLabels(d.labels, d.scores, labelMap)
    case Err(e) => Err(e)
    case Ok(pairs) => Ok(Record(d.id, d.parentId, d.box, pairs))
  }

  /** Every detection resolves. */
  predicate AllResolvable<B, S>(ds: seq<Detection<B, S>>, labelMap: LabelMap) {
    forall n :: 0 <= n < |ds| ==> Resolvable(ds[n], labelMap)
  }

  /** Detection n is the first one that does not resolve. */
  predicate FirstUnresolvable<B, S>(ds: seq<Detection<B, S>>, n: int, labelMap: LabelMap) {
    && 0 <= n < |ds|
    && !Resolvable(ds[n], labelMap)
    && forall m :: 0 <= m < n ==> Resolvable(ds[m], labelMap)
  }

  /**
   * The outer comprehension over output.detections.  It succeeds exactly when every
   * detection resolves, and then holds one record per detection in detection order; it
   * otherwise raises the error of the first detection that does not resolve.
   */
  function Records<B, S>(ds: seq<Detection<B, S>>, labelMap: LabelMap): (r: Result<seq<Record<B, S>>, Error>)
    ensures r.Ok? <==> AllResolvable(ds, labelMap)
    ensures r.Ok? ==> |r.value| == |ds|
    ensures r.Ok? ==> forall n :: 0 <= n < |ds| ==> Ok(r.value[n]) == DetectionRecord(ds[n], labelMap)
    ensures r.Err? ==> exists n :: FirstUnresolvable(ds, n, labelMap) && Err(r.error) == DetectionRecord(ds[n], labelMap)
  {
    if |ds| == 0 then Ok([])
    else
      RecordsShift(ds, labelMap);
      match DetectionRecord(ds[0], labelMap)
      case Err(e) =>
        assert FirstUnresolvable(ds, 0, labelMap);
        Err(e)
      case Ok(first) =>
        match Records(ds[1..], labelMap)
        case Err(e) =>
          ghost var n :| FirstUnresolvable(ds[1..], n, labelMap) && Err(e) == DetectionRecord(ds[1..][n], labelMap);
          FirstShift(ds, n, labelMap);
          Err(e)
        case Ok(rest) =>
          RecordsCons(ds, labelMap, first, rest);
          Ok([first] + rest)
  }

  lemma {:induction false} RecordsShift<B, S>(ds: seq<Detection<B, S>>, labelMap: LabelMap)
    requires |ds| > 0
    ensures AllResolvable(ds, labelMap) <==> Resolvable(ds[0], labelMap) && AllResolvable(ds[1..], labelMap)
  {
    if Resolvable(ds[0], labelMap) && AllResolvable(ds[1..], labelMap) {
      forall n | 0 < n < |ds| ensures Resolvable(ds[n], labelMap) {
        assert ds[n] == ds[1..][n - 1];
      }
    }
  }

  lemma {:induction false} FirstShift<B, S>(ds: seq<Detection<B, S>>, n: nat, labelMap: LabelMap)
    requires |ds| > 0 && Resolvable(ds[0], labelMap) && FirstUnresolvable(ds[1..], n, labelMap)
    ensures FirstUnresolvable(ds, n + 1, labelMap) && ds[n + 1] == ds[1..][n]
  {
    forall m | 0 < m < n + 1 ensures Resolvable(ds[m], labelMap) {
      assert ds[m] == ds[1..][m - 1];
    }
  }

  lemma {:induction false} RecordsCons<B, S>(ds: seq<Detection<B, S>>, labelMap: LabelMap, first: Record<B, S>, rest: seq<Record<B, S>>)
    requires |ds| > 0 && DetectionRecord(ds[0], labelMap) == Ok(first)
    requires |rest| == |ds| - 1
    requires forall n :: 0 <= n < |ds| - 1 ==> Ok(rest[n]) == DetectionRecord(ds[1..][n], labelMap)
    ensures forall n :: 0 <= n < |ds| ==> Ok(([first] + rest)[n]) == DetectionRecord(ds[n], labelMap)
  {
    forall n | 0 < n < |ds| ensures Ok(([first] + rest)[n]) == DetectionRecord(ds[n], labelMap) {
      assert ds[n] == ds[1..][n - 1];
    }
  }

  /**
   * Everything the JSON conversion promises about a TreeOutput, spelled out field by field:
   * one record per detection in order, the id, parent id and box copied, min(|labels|,
   * |scores|) label/score entries per record, entry k holding label_map[labels[k]] and
   * scores[k].
   */
  lemma {:induction false} JsonFields<B, S>(ds: seq<Detection<B, S>>, labelMap: LabelMap, n: nat, k: nat)
    requires Records(ds, labelMap).Ok?
    requires n < |ds|
    ensures var recs := Records(ds, labelMap).value;
      && |recs| == |ds|
      && recs[n].detectionId == ds[n].id
      && recs[n].parentId == ds[n].parentId
      && recs[n].box == ds[n].box
      && |recs[n].labelsScores| == Min(|ds[n].labels|, |ds[n].scores|)
      && (k < |recs[n].labelsScores| ==>
            ds[n].labels[k] in labelMap
            && recs[n].labelsScores[k] == LabelScore(labelMap[ds[n].labels[k]], ds[n].scores[k]))
  {
    var recs := Records(ds, labelMap).value;
    assert Ok(recs[n]) == DetectionRecord(ds[n], labelMap);
    if k < |recs[n].labelsScores| {
      assert Mapped(ds[n].labels, PairCount(ds[n]), labelMap);
    }
  }

  /**
   * The strict lookup never substitutes a value: as soon as one paired label of one
   * detection is absent from the map, the whole conversion fails, with a KeyError for some
   * absent label that is paired with a score.
   */
  lemma {:induction false} JsonFailsOnUnmappedLabel<B, S>(ds: seq<Detection<B, S>>, labelMap: LabelMap, n: nat, k: nat)
    requires n < |ds| && k < PairCount(ds[n])
    requires ds[n].labels[k] !in labelMap
    ensures Records(ds, labelMap).Err?
    ensures exists m, j :: 0 <= m < |ds| && 0 <= j < PairCount(ds[m])
              && ds[m].labels[j] !in labelMap
              && Records(ds, labelMap).error == KeyError(ds[m].labels[j])
  {
    assert !Resolvable(ds[n], labelMap);
    var r := Records(ds, labelMap);
    var m :| FirstUnresolvable(ds, m, labelMap) && Err(r.error) == DetectionRecord(ds[m], labelMap);
    var p := PairLabels(ds[m].labels, ds[m].scores, labelMap);
    var j :| 0 <= j < PairCount(ds[m]) && ds[m].labels[j] !in labelMap && p.error == KeyError(ds[m].labels[j]);
  }

  /**
   * One detection (id 1, no parent, labels [0, 1]) under the label map {0: "person",
   * 1: "seated"} converts to one record with the labels resolved and the scores copied.
   */
  lemma {:induction false} PersonSeated<B, S>(box: B, s0: S, s1: S)
    ensures Records([Detection(1, None, box, [0, 1], [s0, s1])], map[0 := "person", 1 := "seated"])
            == Ok([Record(1, None, box, [LabelScore("person", s0), LabelScore("seated", s1)])])
  {
    var lm := map[0 := "person", 1 := "seated"];
    var d := Detection(1, None, box, [0, 1], [s0, s1]);
    var none: seq<int> := [];
    var noScores: seq<S> := [];
    assert [1][1..] == none && [s1][1..] == noScores;
    assert 0 in lm && lm[0] == "person" && 1 in lm && lm[1] == "seated";
    assert PairLabels([1], [s1], lm) == Ok([LabelScore("seated", s1)] + []);
    assert [LabelScore("seated", s1)] + [] == [LabelScore("seated", s1)];
    assert d.labels[1..] == [1] && d.scores[1..] == [s1];
    assert [LabelScore("person", s0)] + [LabelScore("seated", s1)]
        == [LabelScore("person", s0), LabelScore("seated", s1)];
    assert PairLabels(d.labels, d.scores, lm) == Ok([LabelScore("person", s0), LabelScore("seated", s1)]);
    var record := Record(1, None, box, [LabelScore("person", s0), LabelScore("seated", s1)]);
    var noDetections: seq<Detection<B, S>> := [];
    assert [d][1..] == noDetections;
    assert DetectionRecord(d, lm) == Ok(record);
    assert Records([d], lm) == Ok([record] + []);
    assert [record] + [] == [record];
  }
}
