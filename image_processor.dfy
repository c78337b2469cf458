/**
 * The adapter class: the configuration fixed at construction, the three converters that
 * read the tree's label map and the grouping keys, and the two entry points that run the
 * predictor and pick a converter by the requested format.
 */
module ImageProcessing {
  import opened Wrappers
  import opened Detections
  import opened JsonOutput
  import opened TextOutput
  import opened GroupOutput

  const DefaultPrompt := "(seated,standing)(waving,no wave)"
  const DefaultGroupKey := ["seated", "waving"]
  const DefaultThreshold := 0.15
  const DefaultModel := "google/owlvit-base-patch32"
  const DefaultImageEncoderEngine := "/opt/nanoowl/data/owl_image_encoder_patch32.engine"

  /** What an entry point returns when it does return a value. */
  datatype Formatted<B, S> =
    | Json(records: seq<Record<B, S>>)   // the list json.dumps serialises
    | Text(text: string)
    | Raw(output: Output<B, S>)          // the predictor's output, unchanged

  /**
   * The tree predictor's predict(image, tree, clip_text_encodings, owl_text_encodings,
   * threshold); the two encodings are fixed functions of the tree, so the tree stands for them.
   */
  type Predictor<!Img, B, S> = (Img, Tree, real) -> Result<Output<B, S>, Error>

  /**
   * The two lookups on the same input: an attribute label that zip pairs with a score and
   * that the label map lacks makes the JSON conversion fail, while the text conversion puts
   * "Unknown Label" in its place.
   */
  lemma {:induction false} StrictJsonLenientText<B, S>(ds: seq<Detection<B, S>>, labelMap: LabelMap, n: nat, p: nat)
    requires n < |ds| && 1 <= p < PairCount(ds[n])
    requires ds[n].labels[p] !in labelMap
    ensures Records(ds, labelMap).Err?
    ensures |TextItems(ds[..n], labelMap)| + p - 1 < |TextItems(ds, labelMap)|
    ensures TextItems(ds, labelMap)[|TextItems(ds[..n], labelMap)| + p - 1] == UnknownLabel
  {
    JsonFailsOnUnmappedLabel(ds, labelMap, n, p);
    UnknownAttributeItem(ds, labelMap, n, p);
  }

  class ImageProcessor<Img, B, S> {
    const prompt: string
    const groupKey: seq<string>
    const threshold: real
    const model: string
    const imageEncoderEngine: string
    const predictor: Predictor<Img, B, S>
    const tree: Tree

    /**
     * The predictor built from the model and engine, and the tree parsed from the prompt,
     * are given: building them is the detector library's work.
     */
    constructor (predictor: Predictor<Img, B, S>, tree: Tree,
                 prompt: string := DefaultPrompt,
                 groupKey: seq<string> := DefaultGroupKey,
                 threshold: real := DefaultThreshold,
                 model: string := DefaultModel,
                 imageEncoderEngine: string := DefaultImageEncoderEngine)
      ensures this.prompt == prompt && this.groupKey == groupKey && this.threshold == threshold
      ensures this.model == model && this.imageEncoderEngine == imageEncoderEngine
      ensures this.predictor == predictor && this.tree == tree
    {
      this.prompt := prompt;
      this.groupKey := groupKey;
      this.threshold := threshold;
      this.model := model;
      this.imageEncoderEngine := imageEncoderEngine;
      this.predictor := predictor;
      this.tree := tree;
    }

    /**
     * JSON conversion: the empty array for a non-TreeOutput, otherwise one record per
     * detection, failing exactly when a label paired with a score is not in the label map.
     */
    function ConvertOutputToJson(output: Output<B, S>): (r: Result<seq<Record<B, S>>, Error>)
      ensures output.NotTreeOutput? ==> r == Ok([])
      ensures output.TreeOutput? ==>
        (r.Ok? <==> forall n :: 0 <= n < |output.detections| ==> Resolvable(output.detections[n], tree.labelMap))
      ensures output.TreeOutput? && r.Ok? ==> |r.value| == |output.detections|
      ensures output.TreeOutput? ==> r == Records(output.detections, tree.labelMap)
    {
      match output
      case NotTreeOutput => Ok([])
      case TreeOutput(ds) => Records(ds, tree.labelMap)
    }

    /** Text conversion: the nested loops collect the items, which are then joined. */
    method ConvertOutputToText(output: Output<B, S>) returns (text: string)
      ensures text == OutputText(output, tree.labelMap)
    {
      if output.NotTreeOutput? {
        return "";
      }
      var labelMap := tree.labelMap;
      var ds := output.detections;
      var result: seq<string> := [];
      var i := 0;
      while i < |ds|
        invariant 0 <= i <= |ds|
        invariant result == TextItems(ds[..i], labelMap)
      {
        var tail := AttributeLabels(ds[i].labels);
        ghost var before := result;
        var j := 0;
        while j < |tail|
          invariant 0 <= j <= |tail|
          invariant result == before + DetectionItems(ds[i], labelMap)[..j]
        {
          result := result + [LabelText(labelMap, tail[j])];
          j := j + 1;
          assert DetectionItems(ds[i], labelMap)[..j]
              == DetectionItems(ds[i], labelMap)[..j - 1] + [LabelText(labelMap, tail[j - 1])];
        }
        assert DetectionItems(ds[i], labelMap)[..j] == DetectionItems(ds[i], labelMap);
        assert ds[..i + 1][..i] == ds[..i];
        i := i + 1;
      }
      assert ds[..i] == ds;
      text := if |result| > 0 then Join(result) else "";
    }

    /**
     * Group conversion: the nested loops assign into one dictionary, and a subscript past the
     * end of the grouping keys raises IndexError.
     */
    method ConvertOutputToGroup(output: Output<B, S>) returns (r: Result<Grouping, Error>)
      ensures r == OutputGroups(output, tree.labelMap, groupKey)
    {
      if output.NotTreeOutput? {
        return Ok(EmptyString);
      }
      var ds := output.detections;
      var result: map<string, bool> := map[];
      var i := 0;
      while i < |ds|
        invariant 0 <= i <= |ds|
        invariant AllFit(ds[..i], groupKey)
        invariant result == Assign(Writes(ds[..i], tree.labelMap, groupKey))
      {
        var updated := AssignDetection(result, ds[i], Writes(ds[..i], tree.labelMap, groupKey));
        if updated.None? {
          TooManyLabels(ds, groupKey, i);
          return Err(IndexError);
        }
        result := updated.value;
        AllFitStep(ds, groupKey, i);
        WritesStep(ds, tree.labelMap, groupKey, i);
        i := i + 1;
      }
      assert ds[..i] == ds;
      return Ok(Flags(result));
    }

    /**
     * The inner loop of the group conversion for one detection: for index, label in
     * enumerate(labels[1:], start=1), result["is_" + key] = (text == key) with key =
     * group_key[index - 1].  None stands for the IndexError of a missing key.
     */
    method AssignDetection(result: map<string, bool>, d: Detection<B, S>, ghost done: seq<Write>)
      returns (updated: Option<map<string, bool>>)
      requires result == Assign(done)
      ensures updated.Some? <==> Fits(d, groupKey)
      ensures updated.Some? ==> Fits(d, groupKey)
                                && updated.value == Assign(done + DetectionWrites(d, tree.labelMap, groupKey))
    {
      var labelMap := tree.labelMap;
      var tail := AttributeLabels(d.labels);
      var flags := result;
      var index := 1;
      AssignNoWrites(done, d, labelMap, groupKey);
      while index <= |tail|
        invariant 1 <= index <= |tail| + 1
        invariant index - 1 <= |groupKey|
        invariant flags == Assign(done + WritesUpTo(d, labelMap, groupKey, index - 1))
      {
        var labelText := LabelText(labelMap, tail[index - 1]);
        if index - 1 >= |groupKey| {
          return None;
        }
        var key := groupKey[index - 1];
        AssignWritesStep(done, d, labelMap, groupKey, index - 1);
        flags := flags[KeyPrefix + key := labelText == key];
        index := index + 1;
      }
      return Some(flags);
    }

    /**
     * process_image: run the predictor, then convert by format ("json", "text", or anything
     * else for the raw output).  A FileNotFound error is swallowed (no result); every other
     * error propagates.
     */
    method ProcessImage(image: Img, outputFormat: string := "json") returns (r: Result<Option<Formatted<B, S>>, Error>)
      ensures predictor(image, tree, threshold) == Err(FileNotFound) ==> r == Ok(None)
      ensures predictor(image, tree, threshold).Err? && predictor(image, tree, threshold).error != FileNotFound
              ==> r == Err(predictor(image, tree, threshold).error)
      ensures predictor(image, tree, threshold).Ok? ==>
        var output := predictor(image, tree, threshold).value;
        && (outputFormat == "json" ==>
              r == match ConvertOutputToJson(output)
                   case Ok(records) => Ok(Some(Json(records)))
                   case Err(e) => Err(e))
        && (outputFormat == "text" ==> r == Ok(Some(Text(OutputText(output, tree.labelMap)))))
        && (outputFormat != "json" && outputFormat != "text" ==> r == Ok(Some(Raw(output))))
    {
      var predicted := predictor(image, tree, threshold);
      if predicted.Err? {
        if predicted.error.FileNotFound? {
          return Ok(None);
        }
        return Err(predicted.error);
      }
      var output := predicted.value;
      if outputFormat == "json" {
        var converted := ConvertOutputToJson(output);
        if converted.Err? {
          return Err(converted.error);
        }
        return Ok(Some(Json(converted.value)));
      } else if outputFormat == "text" {
        var text := ConvertOutputToText(output);
        return Ok(Some(Text(text)));
      }
      return Ok(Some(Raw(output)));
    }

    /**
     * process_single_image: open the image file, run the predictor, and convert only for
     * "json"; every other format, "text" included, gives the raw output.  A missing file, or
     * a FileNotFound error from the predictor, gives no result; every other error propagates.
     */
    method ProcessSingleImage(imagePath: string, openImage: string -> Result<Img, Error>, outputType: string := "json")
      returns (r: Result<Option<Formatted<B, S>>, Error>)
      ensures openImage(imagePath) == Err(FileNotFound) ==> r == Ok(None)
      ensures openImage(imagePath).Err? && openImage(imagePath).error != FileNotFound
              ==> r == Err(openImage(imagePath).error)
      ensures openImage(imagePath).Ok? ==>
        var predicted := predictor(openImage(imagePath).value, tree, threshold);
        && (predicted == Err(FileNotFound) ==> r == Ok(None))
        && (predicted.Err? && predicted.error != FileNotFound ==> r == Err(predicted.error))
        && (predicted.Ok? && outputType == "json" ==>
              r == match ConvertOutputToJson(predicted.value)
                   case Ok(records) => Ok(Some(Json(records)))
                   case Err(e) => Err(e))
        && (predicted.Ok? && outputType != "json" ==> r == Ok(Some(Raw(predicted.value))))
    {
      var loaded := openImage(imagePath);
      if loaded.Err? {
        if loaded.error.FileNotFound? {
          return Ok(None);
        }
        return Err(loaded.error);
      }
      var predicted := predictor(loaded.value, tree, threshold);
      if predicted.Err? {
        if predicted.error.FileNotFound? {
          return Ok(None);
        }
        return Err(predicted.error);
      }
      if outputType == "json" {
        var converted := ConvertOutputToJson(predicted.value);
        if converted.Err? {
          return Err(converted.error);
        }
        return Ok(Some(Json(converted.value)));
      }
      return Ok(Some(Raw(predicted.value)));
    }
  }
}
