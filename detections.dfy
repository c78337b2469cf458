/**
 * The data the converters read: the detector's TreeOutput with its detections, and the
 * detection tree whose label map turns label indices into label texts.  Boxes and scores
 * are floats in the detector; the converters only copy them, so here they are the type
 * parameters B and S.
 */
module Detections {
  import opened Wrappers

  /** Label index -> label text, as the tree's get_label_map() returns it. */
  type LabelMap = map<int, string>

  /** The detection tree built from the prompt; all the adapter reads of it is its label map. */
  datatype Tree = Tree(labelMap: LabelMap)

  /** One detection: its id, its parent's id, its box and the parallel label/score lists. */
  datatype Detection<B, S> = Detection(
    id: int,
    parentId: Option<int>,
    box: B,
    labels: seq<int>,
    scores: seq<S>)

  /**
   * What reaches a converter: a TreeOutput, or any other value (the converters' isinstance
   * test fails on it; its content plays no part and is not represented).
   */
  datatype Output<B, S> = TreeOutput(detections: seq<Detection<B, S>>) | NotTreeOutput

  /** The exceptions that cross the adapter's methods. */
  datatype Error =
    | KeyError(key: int)      // strict label-map lookup of an absent index
    | IndexError              // group_key subscript out of range
    | FileNotFound            // the image file does not exist
    | Failure(message: string) // anything else raised by the image loader or the predictor

  /** The text the lenient lookup label_map.get(label, "Unknown Label") uses for an absent index. */
  const UnknownLabel := "Unknown Label"

  /** label_map.get(index, "Unknown Label") */
  function LabelText(labelMap: LabelMap, index: int): (text: string)
    ensures index in labelMap ==> text == labelMap[index]
    ensures index !in labelMap ==> text == UnknownLabel
  {
    if index in labelMap then labelMap[index] else UnknownLabel
  }

  /** detection.labels[1:]: every label but the first (root) one; empty when there are none. */
  function AttributeLabels(labels: seq<int>): (tail: seq<int>)
    ensures |tail| == if |labels| == 0 then 0 else |labels| - 1
    ensures forall k :: 0 <= k < |tail| ==> tail[k] == labels[k + 1]
  {
    if |labels| == 0 then [] else labels[1..]
  }
}
