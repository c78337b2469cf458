/**
 * The text conversion: every label after the root label of every detection, resolved
 * leniently, in detection order and then label order, joined by ", ".
 */
module TextOutput {
  import opened Detections

  const Separator := ", "

  /** The items one detection contributes: its attribute labels, resolved leniently. */
  function DetectionItems<B, S>(d: Detection<B, S>, labelMap: LabelMap): seq<string> {
    var tail := AttributeLabels(d.labels);
    seq(|tail|, k requires 0 <= k < |tail| => LabelText(labelMap, tail[k]))
  }

  /** The result list the nested loops build, item by item. */
  function TextItems<B, S>(ds: seq<Detection<B, S>>, labelMap: LabelMap): seq<string> {
    if |ds| == 0 then []
    else TextItems(ds[..|ds| - 1], labelMap) + DetectionItems(ds[|ds| - 1], labelMap)
  }

  /** ", ".join(items) */
  function Join(items: seq<string>): string {
    if |items| == 0 then ""
    else if |items| == 1 then items[0]
    else Join(items[..|items| - 1]) + Separator + items[|items| - 1]
  }

  /** The whole conversion: "" for a non-TreeOutput, and "" when no item was collected. */
  function OutputText<B, S>(output: Output<B, S>, labelMap: LabelMap): string {
    match output
    case NotTreeOutput => ""
    case TreeOutput(ds) =>
      var items := TextItems(ds, labelMap);
      if |items| > 0 then Join(items) else ""
  }

  /** Σ max(|labels| - 1, 0) over the detections. */
  function AttributeCount<B, S>(ds: seq<Detection<B, S>>): nat {
    if |ds| == 0 then 0
    else (if |ds[0].labels| == 0 then 0 else |ds[0].labels| - 1) + AttributeCount(ds[1..])
  }

  lemma {:induction false} TextItemsAppend<B, S>(a: seq<Detection<B, S>>, b: seq<Detection<B, S>>, labelMap: LabelMap)
    ensures TextItems(a + b, labelMap) == TextItems(a, labelMap) + TextItems(b, labelMap)
    decreases |b|
  {
    if |b| == 0 {
      assert a + b == a;
    } else {
      var b' := b[..|b| - 1];
      assert (a + b)[..|a + b| - 1] == a + b';
      assert (a + b)[|a + b| - 1] == b[|b| - 1];
      TextItemsAppend(a, b', labelMap);
    }
  }

  /** One item per attribute label: the result list has Σ max(|labels| - 1, 0) entries. */
  lemma {:induction false} TextItemsLength<B, S>(ds: seq<Detection<B, S>>, labelMap: LabelMap)
    ensures |TextItems(ds, labelMap)| == AttributeCount(ds)
  {
    if |ds| > 0 {
      assert ds == [ds[0]] + ds[1..];
      TextItemsAppend([ds[0]], ds[1..], labelMap);
      assert [ds[0]][..0] == [];
      TextItemsLength(ds[1..], labelMap);
    }
  }

  /**
   * Detection order, then label order: the items of detection n sit between those of the
   * detections before it and those of the detections after it.
   */
  lemma {:induction false} TextItemsSplit<B, S>(ds: seq<Detection<B, S>>, labelMap: LabelMap, n: nat)
    requires n < |ds|
    ensures TextItems(ds, labelMap)
            == TextItems(ds[..n], labelMap) + DetectionItems(ds[n], labelMap) + TextItems(ds[n + 1..], labelMap)
  {
    TextItemsPrefixStep(ds, labelMap, n);
    assert ds == ds[..n + 1] + ds[n + 1..];
    TextItemsAppend(ds[..n + 1], ds[n + 1..], labelMap);
  }

  lemma {:induction false} TextItemsPrefixStep<B, S>(ds: seq<Detection<B, S>>, labelMap: LabelMap, n: nat)
    requires n < |ds|
    ensures TextItems(ds[..n + 1], labelMap) == TextItems(ds[..n], labelMap) + DetectionItems(ds[n], labelMap)
  {
    assert ds[..n + 1][..n] == ds[..n];
    assert ds[..n + 1][n] == ds[n];
  }

  /**
   * A detection contributes one item per label after the first: item p - 1 is the text of
   * label p, or "Unknown Label" when the map does not hold that index.
   */
  lemma {:induction false} DetectionItemAt<B, S>(d: Detection<B, S>, labelMap: LabelMap, p: nat)
    requires 1 <= p < |d.labels|
    ensures |DetectionItems(d, labelMap)| == |d.labels| - 1
    ensures d.labels[p] in labelMap ==> DetectionItems(d, labelMap)[p - 1] == labelMap[d.labels[p]]
    ensures d.labels[p] !in labelMap ==> DetectionItems(d, labelMap)[p - 1] == UnknownLabel
  {
  }

  /**
   * An attribute label p of detection n that the map lacks reads "Unknown Label" in the
   * result list, at its place after the items of the detections before n.
   */
  lemma {:induction false} UnknownAttributeItem<B, S>(ds: seq<Detection<B, S>>, labelMap: LabelMap, n: nat, p: nat)
    requires n < |ds| && 1 <= p < |ds[n].labels|
    requires ds[n].labels[p] !in labelMap
    ensures |TextItems(ds[..n], labelMap)| + p - 1 < |TextItems(ds, labelMap)|
    ensures TextItems(ds, labelMap)[|TextItems(ds[..n], labelMap)| + p - 1] == UnknownLabel
  {
    TextItemsSplit(ds, labelMap, n);
    DetectionItemAt(ds[n], labelMap, p);
    var before := TextItems(ds[..n], labelMap);
    var items := DetectionItems(ds[n], labelMap);
    var after := TextItems(ds[n + 1..], labelMap);
    assert (before + items + after)[|before| + p - 1] == items[p - 1];
  }

  /** Joining two non-empty halves puts one separator between them. */
  lemma {:induction false} JoinAppend(a: seq<string>, b: seq<string>)
    requires |a| > 0 && |b| > 0
    ensures Join(a + b) == Join(a) + Separator + Join(b)
    decreases |b|
  {
    if |b| == 1 {
      assert (a + b)[..|a + b| - 1] == a;
    } else {
      var b' := b[..|b| - 1];
      assert (a + b)[..|a + b| - 1] == a + b';
      JoinAppend(a, b');
    }
  }

  /** The joined text is the items' texts plus one two-character separator between neighbours. */
  lemma {:induction false} JoinLength(items: seq<string>)
    requires |items| > 0
    ensures |Join(items)| == TotalLength(items) + 2 * (|items| - 1)
  {
    if |items| > 1 {
      var init := items[..|items| - 1];
      JoinLength(init);
      assert items == init + [items[|items| - 1]];
      TotalLengthAppend(init, [items[|items| - 1]]);
    }
  }

  function TotalLength(items: seq<string>): nat {
    if |items| == 0 then 0 else |items[0]| + TotalLength(items[1..])
  }

  lemma {:induction false} TotalLengthAppend(a: seq<string>, b: seq<string>)
    ensures TotalLength(a + b) == TotalLength(a) + TotalLength(b)
  {
    if |a| > 0 {
      assert (a + b)[1..] == a[1..] + b;
      TotalLengthAppend(a[1..], b);
    } else {
      assert a + b == b;
    }
  }

  /** A non-TreeOutput converts to the empty string. */
  lemma {:induction false} NotTreeOutputText<B, S>(output: Output<B, S>, labelMap: LabelMap)
    requires output.NotTreeOutput?
    ensures OutputText(output, labelMap) == ""
  {
  }

  /** The text is empty when no detection has more than its root label. */
  lemma {:induction false} NoAttributesNoText<B, S>(ds: seq<Detection<B, S>>, labelMap: LabelMap)
    requires forall n :: 0 <= n < |ds| ==> |ds[n].labels| <= 1
    ensures OutputText(TreeOutput(ds), labelMap) == ""
  {
    TextItemsLength(ds, labelMap);
    NoAttributesCount(ds);
  }

  lemma {:induction false} NoAttributesCount<B, S>(ds: seq<Detection<B, S>>)
    requires forall n :: 0 <= n < |ds| ==> |ds[n].labels| <= 1
    ensures AttributeCount(ds) == 0
  {
    if |ds| > 0 {
      assert forall n :: 0 <= n < |ds| - 1 ==> ds[1..][n] == ds[n + 1];
      NoAttributesCount(ds[1..]);
    }
  }

  /** One detection labelled [root, "seated", "waving"] gives "seated, waving". */
  lemma {:induction false} SeatedWaving<B, S>(box: B, scores: seq<S>)
    ensures OutputText(TreeOutput([Detection(1, Wrappers.None, box, [0, 1, 2], scores)]),
                       map[0 := "person", 1 := "seated", 2 := "waving"])
            == "seated, waving"
  {
    var d := Detection(1, Wrappers.None, box, [0, 1, 2], scores);
    var lm := map[0 := "person", 1 := "seated", 2 := "waving"];
    var none: seq<Detection<B, S>> := [];
    assert [d][..0] == none;
    assert DetectionItems(d, lm) == ["seated", "waving"];
    assert TextItems([d], lm) == TextItems(none, lm) + ["seated", "waving"];
    assert TextItems([d], lm) == ["seated", "waving"];
    assert ["seated", "waving"][..1] == ["seated"];
    assert Join(["seated", "waving"]) == Join(["seated"]) + Separator + "waving";
    assert Join(["seated", "waving"]) == "seated, waving";
  }
}
