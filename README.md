# nanoowl_utils output conversion, modelled in Dafny

`nanoowl_utils` wraps the `nanoowl` tree detector in one class, `ImageProcessor`. The
constructor stores a prompt, a list of grouping keys, a score threshold, a model name and an
image-encoder engine path. It builds a tree predictor and parses the prompt into a detection
tree. Two entry points run the predictor on an image: `process_image` takes a decoded image
and `process_single_image` takes a file path. Each then reformats the detector's
`TreeOutput` with one of the class's converters:

- The JSON converter makes one record per detection: id, parent id, box, and
  label/score pairs. Each label index is looked up strictly in the tree's label map.
- The text converter keeps every label after the first (root) label. It looks each one up
  leniently, using `"Unknown Label"` for a missing index, and joins them with `", "`.
- The group converter looks up the text of the label at position p leniently (a missing
  index reads `"Unknown Label"`). It compares that text with `group_key[p - 1]` and writes
  the result under `"is_" + group_key[p - 1]` into one dictionary. Later detections
  overwrite earlier ones.

This project models those converters and the format dispatch of the two entry points.

Files and modules:

- `wrappers.dfy` (`Wrappers`): `Option` (Python's `None`) and `Result` (a normal return, or
  an exception propagating out).
- `detections.dfy` (`Detections`): the detections, the `TreeOutput` / other-value
  distinction, the label map, the exceptions that cross the class's methods, and the two
  helpers shared by the text and group converters: the lenient lookup and `labels[1:]`.
- `json_output.dfy` (`JsonOutput`): the JSON records as pure functions, with their contracts
  and lemmas.
- `text_output.dfy` (`TextOutput`): the specification of the text converter, the items its
  loops collect, `", ".join`, and lemmas about them.
- `group_output.dfy` (`GroupOutput`): the specification of the group converter as a
  sequence of dictionary assignments done in order, and lemmas about the resulting dictionary.
- `image_processor.dfy` (`ImageProcessing`): the class `ImageProcessor`. Its fields are set by
  the constructor and never changed afterwards. The JSON converter is a function. The text
  and group converters are methods with loops, each proved equal to its specification
  function. The two entry points are methods that call the predictor.

Boxes and scores are floats in the detector, but the converters only copy them, so they
are the type parameters `B` and `S`. This way the model cannot compute with them. The
predictor, the image loader and the tree are inputs.

The converters read only immutable values and modify nothing (no method has a `modifies`
clause). So converting the same output twice gives the same result, and the output is left
unchanged.

Some behaviour of the code worth stating outright:

- `labels_scores` has `min(|labels|, |scores|)` entries, because the code pairs the lists
  with `zip`. Nothing in the code makes the two lists equally long.
- `process_image`, like `process_single_image`, turns a `FileNotFoundError` into no result
  (lines 82-83).
- The group converter returns the string `""` for a non-`TreeOutput` (lines 114-115). It
  fails with `IndexError` when a detection has more labels than there are grouping keys
  plus one (line 123).
- A group key's flag is the comparison made for the last detection that reaches that
  position, because every detection assigns into the same dictionary (line 124). It is not
  "true if some detection matches".
- `process_single_image` converts only for `"json"` (lines 54-57). For every other format,
  `"text"` included, it returns the raw output.

## Model

| member | source | states |
|---|---|---|
| `Detections.LabelText` | nanoowl_utils/image_processor.py:141 | the lenient lookup: the mapped text when the index is a key, `"Unknown Label"` otherwise |
| `Detections.AttributeLabels` | nanoowl_utils/image_processor.py:140 | `labels[1:]`: one element fewer than `labels` (none for an empty list), element k being label k + 1 |
| `JsonOutput.PairLabels` | nanoowl_utils/image_processor.py:99-102 | zip with strict lookup: succeeds iff every paired label is a key; then `min(|labels|, |scores|)` entries, entry k = (`label_map[labels[k]]`, `scores[k]`); otherwise the `KeyError` of the first absent paired label |
| `JsonOutput.DetectionRecord` | nanoowl_utils/image_processor.py:95-103 | a record exists iff the detection's paired labels all resolve; id, parent id and box copied unchanged; otherwise the pairing's error is re-raised |
| `JsonOutput.Records` | nanoowl_utils/image_processor.py:94-105 | succeeds iff every detection resolves; then one record per detection in detection order; otherwise the error of the first unresolvable detection |
| `JsonOutput.JsonFields` | nanoowl_utils/image_processor.py:94-105 | field by field: as many records as detections, id/parent id/box copied, `min(|labels|, |scores|)` entries per record, entry k = (`label_map[labels[k]]`, `scores[k]`) |
| `JsonOutput.JsonFailsOnUnmappedLabel` | nanoowl_utils/image_processor.py:99-110 | one absent paired label anywhere makes the whole conversion fail with a `KeyError` for an absent paired label; no value is substituted |
| `JsonOutput.PersonSeated` | nanoowl_utils/image_processor.py:94-107 | the JSON conversion on one detection, id 1, labels [0, 1], scores [s0, s1], map {0: person, 1: seated}: one record with (person, s0), (seated, s1) |
| `ImageProcessing.ImageProcessor.ConvertOutputToJson` | nanoowl_utils/image_processor.py:88-110 | a non-`TreeOutput` gives the empty array `[]`; a `TreeOutput` succeeds iff every detection resolves, with one record per detection |
| `TextOutput.TextItemsAppend` | nanoowl_utils/image_processor.py:139-142 | the collected items of two runs of detections are the first run's items followed by the second's |
| `TextOutput.TextItemsLength` | nanoowl_utils/image_processor.py:139-142 | one item per label after the first: Σ max(|labels| - 1, 0) items |
| `TextOutput.TextItemsSplit` | nanoowl_utils/image_processor.py:139-142 | detection order, then label order: detection n's items come after those of every earlier detection and before those of every later one |
| `TextOutput.DetectionItemAt` | nanoowl_utils/image_processor.py:140-142 | a detection gives |labels| - 1 items; item p - 1 is the text of label p, or `"Unknown Label"` when the index is absent |
| `TextOutput.UnknownAttributeItem` | nanoowl_utils/image_processor.py:139-142 | an attribute label p of detection n that the map lacks appears as `"Unknown Label"` in the result list, at index (items of detections 0..n-1) + p - 1 |
| `TextOutput.JoinAppend` | nanoowl_utils/image_processor.py:144 | `", ".join` of two non-empty lists is the two joins with one `", "` between them |
| `TextOutput.JoinLength` | nanoowl_utils/image_processor.py:144 | joining n >= 1 items adds exactly n - 1 two-character separators to the items' total length |
| `TextOutput.NotTreeOutputText` | nanoowl_utils/image_processor.py:133-134 | a non-`TreeOutput` converts to `""` |
| `TextOutput.NoAttributesNoText` | nanoowl_utils/image_processor.py:139-144 | when no detection has more than its root label, nothing is collected and the text is `""` |
| `TextOutput.SeatedWaving` | nanoowl_utils/image_processor.py:139-144 | labels [root, seated, waving] give `"seated, waving"` |
| `ImageProcessing.ImageProcessor.ConvertOutputToText` | nanoowl_utils/image_processor.py:131-147 | the nested loops collect exactly the specified items, and the result is their `", "` join, or `""` when there are none or the value is not a `TreeOutput` |
| `ImageProcessing.StrictJsonLenientText` | nanoowl_utils/image_processor.py:99-144 | on the same detections, an absent paired attribute label p of detection n makes JSON fail, while the text conversion's item at that label's position (after the items of detections 0..n-1) is `"Unknown Label"` |
| `GroupOutput.AssignKeys` | nanoowl_utils/image_processor.py:118-126 | a key is in the dictionary iff some assignment wrote it |
| `GroupOutput.AssignLast` | nanoowl_utils/image_processor.py:120-126 | last write wins: a key holds the value of the last assignment to it |
| `GroupOutput.AssignAppend` | nanoowl_utils/image_processor.py:120-126 | two runs of assignments leave the union of their dictionaries, with the second run's values winning |
| `GroupOutput.GroupKeyForm` | nanoowl_utils/image_processor.py:123-124 | every key in the dictionary is `"is_" + group_key[i]` for some i |
| `GroupOutput.DetectionKey` | nanoowl_utils/image_processor.py:121-124 | with distinct keys, one detection writes `"is_" + group_key[i]` iff it has a label at position i + 1, and writes (text of that label == `group_key[i]`) |
| `GroupOutput.GroupKeyPresent` | nanoowl_utils/image_processor.py:120-126 | with distinct keys, `"is_" + group_key[i]` is present iff some detection reaches position i + 1; keys never reached are absent |
| `GroupOutput.GroupValueFromLast` | nanoowl_utils/image_processor.py:120-126 | with distinct keys, `"is_" + group_key[i]` holds the comparison from the last detection that reaches position i + 1 |
| `GroupOutput.NotTreeOutputGroups` | nanoowl_utils/image_processor.py:114-115 | a non-`TreeOutput` converts to `""` |
| `GroupOutput.GroupFailsIffTooManyLabels` | nanoowl_utils/image_processor.py:121-129 | the conversion fails, with `IndexError`, iff some detection has more than |group_key| + 1 labels |
| `ImageProcessing.ImageProcessor.AssignDetection` | nanoowl_utils/image_processor.py:121-124 | the inner loop for one detection fails iff the detection has too many labels; otherwise it performs exactly that detection's assignments on the dictionary |
| `ImageProcessing.ImageProcessor.ConvertOutputToGroup` | nanoowl_utils/image_processor.py:112-129 | the nested loops give `""` for a non-`TreeOutput`, `IndexError` when a detection has too many labels, and otherwise the dictionary left by all assignments in order |
| `ImageProcessing.ImageProcessor.ProcessImage` | nanoowl_utils/image_processor.py:64-86 | `"json"` gives the JSON conversion (its `KeyError` propagates), `"text"` the text conversion, any other format the predictor output unchanged; a `FileNotFoundError` gives no result and every other predictor error propagates |
| `ImageProcessing.ImageProcessor.ProcessSingleImage` | nanoowl_utils/image_processor.py:41-62 | a missing image file, or a `FileNotFoundError` from the predictor, gives no result; other errors propagate; `"json"` gives the JSON conversion and every other format the raw output |

## Left out

- Building `OwlPredictor` and `TreePredictor`, `Tree.from_prompt`, and
  `encode_clip_text` / `encode_owl_text` (lines 29-36) are calls into the detector library.
  The predictor and the parsed tree are constructor inputs. A constructor failure (lines
  37-39) is not modelled, because the parse that could fail is not part of this model.
- The two text encodings are fixed functions of the tree. They are folded into the
  predictor, which receives the tree and the threshold.
- `PIL.Image.open` is file I/O. It is the `openImage` function parameter, whose outcome is
  an image, `FileNotFound`, or some other failure.
- Every exception other than `KeyError`, `IndexError` and `FileNotFoundError` is one
  `Failure(message)` value and propagates unchanged.
- `json.dumps(..., indent=4)` is library serialisation. The model stops at the list of
  records, so `json.dumps([])` is the empty list of records.
- The `print` logging in the `except` blocks has no effect on the results.
- Scores and box coordinates are floats that are only copied. They are type parameters, so
  no arithmetic on them is modelled.
- A value that is not a `TreeOutput` is represented without its content. The raw output
  `Raw(NotTreeOutput)` therefore does not carry the original value.
- `setup.py` only holds packaging metadata. Its console entry
  `nanoowl_utils.image_processor:main` names a function the module does not define.
- The group result is a Python dict, which iterates keys in first-insertion order, and an
  overwrite does not move a key. The model's `map<string, bool>` has no key order, so
  that order is not modelled. The converter itself never depends on it.
- GroupValueFromLast: assumes the grouping keys are distinct. With a repeated key, two
  positions write the same dictionary key, and the value is then described by
  `AssignLast` over the whole assignment sequence instead.
- GroupKeyPresent: assumes the grouping keys are distinct, for the same reason. The
  direction "reached, so present" holds without that assumption only through `AssignKeys`.
- DetectionKey: assumes the grouping keys are distinct, for the same reason.
