/**
 * The group conversion: the text of the attribute label at position p (p >= 1) of a
 * detection, looked up leniently (a missing index reads "Unknown Label"), is compared with
 * group_key[p - 1] and the outcome stored under "is_" + group_key[p - 1].
 * Every detection writes into the same dictionary, so a later write to a key replaces an
 * earlier one.
 */
module GroupOutput {
  import opened Wrappers
  import opened Detections

  const KeyPrefix := "is_"

  /** One dictionary assignment result[key] = flag. */
  datatype Write = Write(key: string, flag: bool)

  /** What the conversion returns: "" for a non-TreeOutput, the dictionary otherwise. */
  datatype Grouping = EmptyString | Flags(flags: map<string, bool>)

  /** group_key[index - 1] exists for every attribute position of the detection. */
  predicate Fits<B, S>(d: Detection<B, S>, groupKey: seq<string>) {
    |d.labels| <= |groupKey| + 1
  }

  predicate AllFit<B, S>(ds: seq<Detection<B, S>>, groupKey: seq<string>) {
    forall n :: 0 <= n < |ds| ==> Fits(ds[n], groupKey)
  }

  /** No grouping key occurs twice. */
  predicate Distinct(groupKey: seq<string>) {
    forall i, j :: 0 <= i < |groupKey| && 0 <= j < |groupKey| && i != j ==> groupKey[i] != groupKey[j]
  }

  /** The first n assignments the inner loop makes for detection d. */
  function WritesUpTo<B, S>(d: Detection<B, S>, labelMap: LabelMap, groupKey: seq<string>, n: nat): seq<Write>
    requires n <= |AttributeLabels(d.labels)| && n <= |groupKey|
  {
    var tail := AttributeLabels(d.labels);
    seq(n, k requires 0 <= k < n => Write(KeyPrefix + groupKey[k], LabelText(labelMap, tail[k]) == groupKey[k]))
  }

  /** All assignments the inner loop makes for a detection that fits. */
  function DetectionWrites<B, S>(d: Detection<B, S>, labelMap: LabelMap, groupKey: seq<string>): seq<Write>
    requires Fits(d, groupKey)
  {
    WritesUpTo(d, labelMap, groupKey, |AttributeLabels(d.labels)|)
  }

  /** All assignments of both loops, in execution order. */
  function Writes<B, S>(ds: seq<Detection<B, S>>, labelMap: LabelMap, groupKey: seq<string>): seq<Write>
    requires AllFit(ds, groupKey)
  {
    if |ds| == 0 then []
    else Writes(ds[..|ds| - 1], labelMap, groupKey) + DetectionWrites(ds[|ds| - 1], labelMap, groupKey)
  }

  /** The dictionary left by performing the assignments in order on an empty one. */
  function Assign(ws: seq<Write>): map<string, bool> {
    if |ws| == 0 then map[]
    else Assign(ws[..|ws| - 1])[ws[|ws| - 1].key := ws[|ws| - 1].flag]
  }

  /** The whole conversion: IndexError as soon as some detection has too many labels. */
  function OutputGroups<B, S>(output: Output<B, S>, labelMap: LabelMap, groupKey: seq<string>)
    : Result<Grouping, Error>
  {
    match output
    case NotTreeOutput => Ok(EmptyString)
    case TreeOutput(ds) =>
      if AllFit(ds, groupKey) then Ok(Flags(Assign(Writes(ds, labelMap, groupKey)))) else Err(IndexError)
  }

  /** One more step of the inner loop adds one assignment. */
  lemma {:induction false} WritesUpToStep<B, S>(d: Detection<B, S>, labelMap: LabelMap, groupKey: seq<string>, n: nat)
    requires n < |AttributeLabels(d.labels)| && n < |groupKey|
    ensures WritesUpTo(d, labelMap, groupKey, n + 1)
            == WritesUpTo(d, labelMap, groupKey, n)
               + [Write(KeyPrefix + groupKey[n], LabelText(labelMap, AttributeLabels(d.labels)[n]) == groupKey[n])]
  {
  }

  /** Before the inner loop's first step the dictionary is the one it started from. */
  lemma {:induction false} AssignNoWrites<B, S>(done: seq<Write>, d: Detection<B, S>, labelMap: LabelMap, groupKey: seq<string>)
    ensures Assign(done + WritesUpTo(d, labelMap, groupKey, 0)) == Assign(done)
  {
    assert done + WritesUpTo(d, labelMap, groupKey, 0) == done;
  }

  /** One step of the inner loop as a dictionary update: result["is_" + key] = (text == key). */
  lemma {:induction false} AssignWritesStep<B, S>(done: seq<Write>, d: Detection<B, S>, labelMap: LabelMap, groupKey: seq<string>, n: nat)
    requires n < |AttributeLabels(d.labels)| && n < |groupKey|
    ensures Assign(done + WritesUpTo(d, labelMap, groupKey, n + 1))
            == Assign(done + WritesUpTo(d, labelMap, groupKey, n))
                 [KeyPrefix + groupKey[n] := LabelText(labelMap, AttributeLabels(d.labels)[n]) == groupKey[n]]
  {
    var w := Write(KeyPrefix + groupKey[n], LabelText(labelMap, AttributeLabels(d.labels)[n]) == groupKey[n]);
    var ws := done + WritesUpTo(d, labelMap, groupKey, n);
    WritesUpToStep(d, labelMap, groupKey, n);
    assert done + WritesUpTo(d, labelMap, groupKey, n + 1) == ws + [w];
    AssignStep(ws, w);
  }

  /** One more step of the outer loop adds the detection's assignments. */
  lemma {:induction false} WritesStep<B, S>(ds: seq<Detection<B, S>>, labelMap: LabelMap, groupKey: seq<string>, i: nat)
    requires i < |ds| && AllFit(ds[..i + 1], groupKey)
    ensures AllFit(ds[..i], groupKey) && Fits(ds[i], groupKey)
    ensures Writes(ds[..i + 1], labelMap, groupKey)
            == Writes(ds[..i], labelMap, groupKey) + DetectionWrites(ds[i], labelMap, groupKey)
  {
    assert ds[..i + 1][..i] == ds[..i];
    assert ds[..i + 1][i] == ds[i];
  }

  /** The outer loop's invariant carries over to one more detection. */
  lemma {:induction false} AllFitStep<B, S>(ds: seq<Detection<B, S>>, groupKey: seq<string>, i: nat)
    requires i < |ds| && AllFit(ds[..i], groupKey) && Fits(ds[i], groupKey)
    ensures AllFit(ds[..i + 1], groupKey)
  {
    assert ds[..i + 1] == ds[..i] + [ds[i]];
  }

  /** One detection with too many labels makes the whole output fail. */
  lemma {:induction false} TooManyLabels<B, S>(ds: seq<Detection<B, S>>, groupKey: seq<string>, i: nat)
    requires i < |ds| && |AttributeLabels(ds[i].labels)| > |groupKey|
    ensures !AllFit(ds, groupKey)
  {
    assert !Fits(ds[i], groupKey);
  }

  /** Performing one more assignment updates one key. */
  lemma {:induction false} AssignStep(ws: seq<Write>, w: Write)
    ensures Assign(ws + [w]) == Assign(ws)[w.key := w.flag]
  {
    assert (ws + [w])[..|ws|] == ws;
  }

  /** A key is in the dictionary exactly when some assignment wrote it. */
  lemma {:induction false} AssignKeys(ws: seq<Write>, key: string)
    ensures key in Assign(ws) <==> exists k :: 0 <= k < |ws| && ws[k].key == key
  {
    if |ws| > 0 {
      var init := ws[..|ws| - 1];
      AssignKeys(init, key);
      if key in Assign(init) {
        var k :| 0 <= k < |init| && init[k].key == key;
        assert ws[k].key == key;
      }
      if k :| 0 <= k < |ws| && ws[k].key == key {
        if k < |init| { assert init[k].key == key; }
      }
    }
  }

  /** A key holds the flag of the last assignment that wrote it. */
  lemma {:induction false} AssignLast(ws: seq<Write>, k: nat)
    requires k < |ws|
    requires forall j :: k < j < |ws| ==> ws[j].key != ws[k].key
    ensures ws[k].key in Assign(ws) && Assign(ws)[ws[k].key] == ws[k].flag
  {
    if k < |ws| - 1 {
      var init := ws[..|ws| - 1];
      assert init[k] == ws[k];
      AssignLast(init, k);
    }
  }

  /** Assignments done in two runs leave the union in which the second run's values win. */
  lemma {:induction false} AssignAppend(a: seq<Write>, b: seq<Write>)
    ensures Assign(a + b) == Assign(a) + Assign(b)
    decreases |b|
  {
    if |b| == 0 {
      assert a + b == a;
    } else {
      var b' := b[..|b| - 1];
      assert (a + b)[..|a + b| - 1] == a + b';
      AssignAppend(a, b');
    }
  }

  lemma {:induction false} PrefixedKeys(x: string, y: string)
    ensures KeyPrefix + x == KeyPrefix + y <==> x == y
  {
    if KeyPrefix + x == KeyPrefix + y {
      assert (KeyPrefix + x)[|KeyPrefix|..] == x;
      assert (KeyPrefix + y)[|KeyPrefix|..] == y;
    }
  }

  /** Every key of the dictionary is "is_" followed by one of the grouping keys. */
  lemma {:induction false} GroupKeyForm<B, S>(ds: seq<Detection<B, S>>, labelMap: LabelMap, groupKey: seq<string>, key: string)
    requires AllFit(ds, groupKey)
    requires key in Assign(Writes(ds, labelMap, groupKey))
    ensures exists i :: 0 <= i < |groupKey| && key == KeyPrefix + groupKey[i]
  {
    var ws := Writes(ds, labelMap, groupKey);
    AssignKeys(ws, key);
    var k :| 0 <= k < |ws| && ws[k].key == key;
    WriteKeyForm(ds, labelMap, groupKey, k);
  }

  lemma {:induction false} WriteKeyForm<B, S>(ds: seq<Detection<B, S>>, labelMap: LabelMap, groupKey: seq<string>, k: nat)
    requires AllFit(ds, groupKey)
    requires k < |Writes(ds, labelMap, groupKey)|
    ensures exists i :: 0 <= i < |groupKey| && Writes(ds, labelMap, groupKey)[k].key == KeyPrefix + groupKey[i]
  {
    var init := ds[..|ds| - 1];
    var before := Writes(init, labelMap, groupKey);
    if k < |before| {
      WriteKeyForm(init, labelMap, groupKey, k);
    } else {
      var i := k - |before|;
      assert Writes(ds, labelMap, groupKey)[k] == DetectionWrites(ds[|ds| - 1], labelMap, groupKey)[i];
    }
  }

  /** With distinct grouping keys, a detection writes "is_" + groupKey[i] iff it has label i + 1. */
  lemma {:induction false} DetectionKey<B, S>(d: Detection<B, S>, labelMap: LabelMap, groupKey: seq<string>, i: nat)
    requires Fits(d, groupKey) && Distinct(groupKey) && i < |groupKey|
    ensures KeyPrefix + groupKey[i] in Assign(DetectionWrites(d, labelMap, groupKey)) <==> i + 1 < |d.labels|
    ensures i + 1 < |d.labels| ==>
      Assign(DetectionWrites(d, labelMap, groupKey))[KeyPrefix + groupKey[i]]
        == (LabelText(labelMap, d.labels[i + 1]) == groupKey[i])
  {
    var ws := DetectionWrites(d, labelMap, groupKey);
    var key := KeyPrefix + groupKey[i];
    AssignKeys(ws, key);
    if k :| 0 <= k < |ws| && ws[k].key == key {
      PrefixedKeys(groupKey[k], groupKey[i]);
    }
    if i + 1 < |d.labels| {
      assert ws[i].key == key;
      forall j | i < j < |ws| ensures ws[j].key != key {
        PrefixedKeys(groupKey[j], groupKey[i]);
      }
      AssignLast(ws, i);
    }
  }

  /** Some detection has a label at position i + 1, so it reaches groupKey[i]. */
  predicate SomeReaches<B, S>(ds: seq<Detection<B, S>>, i: nat) {
    exists n :: 0 <= n < |ds| && i + 1 < |ds[n].labels|
  }

  lemma {:induction false} SomeReachesLast<B, S>(ds: seq<Detection<B, S>>, i: nat)
    requires |ds| > 0
    ensures SomeReaches(ds, i) <==> SomeReaches(ds[..|ds| - 1], i) || i + 1 < |ds[|ds| - 1].labels|
  {
    var init := ds[..|ds| - 1];
    if n :| 0 <= n < |init| && i + 1 < |init[n].labels| {
      assert ds[n] == init[n];
    }
    if n :| 0 <= n < |ds| && i + 1 < |ds[n].labels| {
      if n < |init| { assert init[n] == ds[n]; }
    }
  }

  lemma {:induction false} AllFitPrefix<B, S>(ds: seq<Detection<B, S>>, groupKey: seq<string>)
    requires |ds| > 0 && AllFit(ds, groupKey)
    ensures AllFit(ds[..|ds| - 1], groupKey) && Fits(ds[|ds| - 1], groupKey)
  {
    var init := ds[..|ds| - 1];
    forall n | 0 <= n < |init| ensures Fits(init[n], groupKey) {
      assert init[n] == ds[n];
    }
  }

  /** The dictionary after all detections is that after the earlier ones, updated by the last. */
  lemma {:induction false} WritesLast<B, S>(ds: seq<Detection<B, S>>, labelMap: LabelMap, groupKey: seq<string>)
    requires |ds| > 0 && AllFit(ds, groupKey)
    ensures AllFit(ds[..|ds| - 1], groupKey) && Fits(ds[|ds| - 1], groupKey)
    ensures Assign(Writes(ds, labelMap, groupKey))
            == Assign(Writes(ds[..|ds| - 1], labelMap, groupKey)) + Assign(DetectionWrites(ds[|ds| - 1], labelMap, groupKey))
  {
    AllFitPrefix(ds, groupKey);
    AssignAppend(Writes(ds[..|ds| - 1], labelMap, groupKey), DetectionWrites(ds[|ds| - 1], labelMap, groupKey));
  }

  /**
   * With distinct grouping keys, "is_" + groupKey[i] is in the dictionary exactly when some
   * detection has a label at position i + 1.
   */
  lemma {:induction false} GroupKeyPresent<B, S>(ds: seq<Detection<B, S>>, labelMap: LabelMap, groupKey: seq<string>, i: nat)
    requires AllFit(ds, groupKey) && Distinct(groupKey) && i < |groupKey|
    ensures KeyPrefix + groupKey[i] in Assign(Writes(ds, labelMap, groupKey)) <==> SomeReaches(ds, i)
  {
    if |ds| > 0 {
      WritesLast(ds, labelMap, groupKey);
      DetectionKey(ds[|ds| - 1], labelMap, groupKey, i);
      GroupKeyPresent(ds[..|ds| - 1], labelMap, groupKey, i);
      SomeReachesLast(ds, i);
    }
  }

  /**
   * Last detection wins: with distinct grouping keys, "is_" + groupKey[i] holds the
   * comparison made for detection n when n is the last detection with a label at position
   * i + 1, whatever the earlier detections wrote.
   */
  lemma {:induction false} GroupValueFromLast<B, S>(ds: seq<Detection<B, S>>, labelMap: LabelMap, groupKey: seq<string>, i: nat, n: nat)
    requires AllFit(ds, groupKey) && Distinct(groupKey) && i < |groupKey|
    requires n < |ds| && i + 1 < |ds[n].labels|
    requires forall m :: n < m < |ds| ==> |ds[m].labels| <= i + 1
    ensures KeyPrefix + groupKey[i] in Assign(Writes(ds, labelMap, groupKey))
    ensures Assign(Writes(ds, labelMap, groupKey))[KeyPrefix + groupKey[i]]
            == (LabelText(labelMap, ds[n].labels[i + 1]) == groupKey[i])
  {
    var init := ds[..|ds| - 1];
    WritesLast(ds, labelMap, groupKey);
    DetectionKey(ds[|ds| - 1], labelMap, groupKey, i);
    if n < |ds| - 1 {
      assert init[n] == ds[n];
      forall m | n < m < |init| ensures |init[m].labels| <= i + 1 {
        assert init[m] == ds[m];
      }
      GroupValueFromLast(init, labelMap, groupKey, i, n);
    }
  }

  /** A non-TreeOutput converts to the empty string. */
  lemma {:induction false} NotTreeOutputGroups<B, S>(output: Output<B, S>, labelMap: LabelMap, groupKey: seq<string>)
    requires output.NotTreeOutput?
    ensures OutputGroups(output, labelMap, groupKey) == Ok(EmptyString)
  {
  }

  /** The conversion fails exactly when some detection has more than |groupKey| + 1 labels. */
  lemma {:induction false} GroupFailsIffTooManyLabels<B, S>(ds: seq<Detection<B, S>>, labelMap: LabelMap, groupKey: seq<string>)
    ensures OutputGroups(TreeOutput(ds), labelMap, groupKey).Err?
            <==> exists n :: 0 <= n < |ds| && |ds[n].labels| > |groupKey| + 1
    ensures OutputGroups(TreeOutput(ds), labelMap, groupKey).Err? ==>
            OutputGroups(TreeOutput(ds), labelMap, groupKey).error == IndexError
  {
  }
}
