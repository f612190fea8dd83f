# singlecellvr viewer: data-to-scene model

The singlecellvr web viewer loads a zipped bundle of JSON files describing a single-cell
dataset and builds a VR scene from it. This project models the part of the viewer
(`static/index.js`) that turns the decoded data into scene inputs:

- **Format dispatch** (module `Bundle`). The bundle is PAGA when it holds
  `paga_nodes.json`. Otherwise it is STREAM when it holds `stream.json`, and Seurat in all
  other cases. Each renderer reads a fixed list of entries.
- **Cell metadata index** (module `CellMetadata`). The annotation fields are the keys of the
  first record that contain neither `cell_id` nor `color`. For each annotation, every
  cell's id maps to that cell's label and cluster colour; the last record wins.
- **Gene list** (module `GeneIndex`). Every entry name starting with `gene_` becomes a
  gene entry, in entry order. The gene is the text after `gene_` up to the next `_`, `.`
  or the end of the name, so `gene_CD3` gives `CD3` and `gene_` gives the empty name.
- **Branch and edge dictionaries** (module `Branches`):
  - the first-seen unique list of PAGA edge ids `source_target`;
  - the last-write-wins edge weights;
  - the STREAM branch ids;
  - the PAGA node positions keyed by the digits of the node name.
- **Camera and ground placement** (module `Layout`):
  - the PAGA and Seurat bounding-box formulas (ground at `min(yMin, -12)`, camera at
    `(xMid, yMid, xRange + 1)`);
  - `getZMax`;
  - a numeric median;
  - the STREAM camera, ground and minimap.
- **The as-written median** (module `DefaultSort`). This models `getMedian`'s
  comparator-free `sort()`, which orders numbers by their string forms.

Supporting modules:

- `Wrappers`: `Option` and `Result`.
- `Collections`: first-seen dedup, and a dictionary filled by successive writes.
- `Strings`: JavaScript's `includes`, `split`, and `replace(/\D/g, '')`.
- `Records`: the decoded JSON record shapes.

The source's loops are methods with `while` loops. Each method is proved equal to a
specification function, and lemmas state what that function promises. The source's pure
computations are functions.

## Model

| member | source | states |
|---|---|---|
| Strings.Contains | dash_app/apps/dash-singlecell-vr/static/index.js:105 | `key.includes(sub)`: true exactly when `sub` occurs at some position of `key` |
| Strings.Split | dash_app/apps/dash-singlecell-vr/static/index.js:424 | `split(c)` yields at least one part, and no part contains the separator |
| Strings.JoinSplit | dash_app/apps/dash-singlecell-vr/static/index.js:424 | joining the parts of a split with the separator gives back the string |
| Strings.SplitJoin | dash_app/apps/dash-singlecell-vr/static/index.js:238 | splitting a join of separator-free parts gives back the parts |
| Strings.SplitMoreThanOne | dash_app/apps/dash-singlecell-vr/static/index.js:425 | a split has more than one part exactly when the separator occurs |
| Strings.SplitFirstPiece | dash_app/apps/dash-singlecell-vr/static/index.js:424-426 | the first part is the text before the first separator; the remaining parts are the split of what follows it |
| Strings.DigitsOnly | dash_app/apps/dash-singlecell-vr/static/index.js:231 | `replace(/\D/g, '')` yields only digits, all taken from the string (its multiset of characters is contained in the string's) |
| Strings.DigitsOnlyCharacters | dash_app/apps/dash-singlecell-vr/static/index.js:231 | a character is in the result exactly when it is a digit of the string: every non-digit is removed |
| Strings.DigitsOnlyFixpoint | dash_app/apps/dash-singlecell-vr/static/index.js:231 | the replacement leaves a string unchanged exactly when it is all digits |
| Strings.DigitsOnlyIdempotent | dash_app/apps/dash-singlecell-vr/static/index.js:231 | applying the replacement twice is the same as once |
| Strings.DigitsOnlyConcat | dash_app/apps/dash-singlecell-vr/static/index.js:231 | the replacement works character by character: it distributes over concatenation |
| Collections.FirstIndex | dash_app/apps/dash-singlecell-vr/static/index.js:214 | the position of the first occurrence of an element |
| Collections.DedupElements | dash_app/apps/dash-singlecell-vr/static/index.js:212-216 | the unique list holds exactly the pushed elements |
| Collections.DedupNoDuplicates | dash_app/apps/dash-singlecell-vr/static/index.js:214-216 | the `includes` guard keeps the list free of duplicates |
| Collections.DedupLength | dash_app/apps/dash-singlecell-vr/static/index.js:212-216 | the unique list is no longer than its input |
| Collections.DedupFirstSeenOrder | dash_app/apps/dash-singlecell-vr/static/index.js:212-216 | elements are listed in the order of their first occurrence |
| Collections.AssocKeys | dash_app/apps/dash-singlecell-vr/static/index.js:217 | the dictionary's keys are exactly the keys written |
| Collections.AssocLastWins | dash_app/apps/dash-singlecell-vr/static/index.js:217 | a key holds the value of its last write |
| CellMetadata.InferAnnotations | dash_app/apps/dash-singlecell-vr/static/index.js:97-112 | the nested loop over keys and ignore-keys yields the first record's keys that contain no reserved word, in key order |
| CellMetadata.BuildAnnotationIndex | dash_app/apps/dash-singlecell-vr/static/index.js:114-120 | the nested loop over annotations and cells builds, for each annotation, the dictionary written cell by cell |
| CellMetadata.CreateCellMetadataObject | dash_app/apps/dash-singlecell-vr/static/index.js:95-122 | fails exactly on empty metadata; otherwise returns the inferred annotations and their index over all records |
| CellMetadata.AnnotationsOfMembers | dash_app/apps/dash-singlecell-vr/static/index.js:102-112 | a key is an annotation exactly when it is a key of the record and contains neither `cell_id` nor `color` |
| CellMetadata.AnnotationsOfConcat | dash_app/apps/dash-singlecell-vr/static/index.js:102-112 | annotation inference keeps key order (it distributes over concatenation) |
| CellMetadata.AnnotationsOfNoDuplicates | dash_app/apps/dash-singlecell-vr/static/index.js:102-112 | distinct keys give distinct annotations |
| CellMetadata.FirstRecordAnnotationsDistinct | dash_app/apps/dash-singlecell-vr/static/index.js:100-112 | a parsed first record lists each key once, so its inferred annotations are distinct |
| CellMetadata.CellTypeIsAnnotation | dash_app/apps/dash-singlecell-vr/static/index.js:97-108 | `cell_type` is not reserved |
| CellMetadata.ColorAndIdAreReserved | dash_app/apps/dash-singlecell-vr/static/index.js:97-108 | `cell_type_color` and `cell_id` are reserved by substring match |
| CellMetadata.IndexContents | dash_app/apps/dash-singlecell-vr/static/index.js:114-120 | the index's keys are the annotations; each annotation's ids are the cells' ids; an id holds the entry of the last cell with that id (label, no label colour, the `<annotation>_color` field) |
| CellMetadata.ExampleAnnotations | dash_app/apps/dash-singlecell-vr/static/index.js:97-112 | a record with keys `cell_id`, `cell_type`, `cell_type_color` has the one annotation `cell_type` |
| CellMetadata.ExampleIndex | dash_app/apps/dash-singlecell-vr/static/index.js:114-121 | that record's index maps `cell_type` to its id, label and cluster colour |
| GeneIndex.GetGeneList | dash_app/apps/dash-singlecell-vr/static/index.js:420-430 | the loop over entry names collects exactly the gene list of the names, in order |
| GeneIndex.GeneFilePrefix | dash_app/apps/dash-singlecell-vr/static/index.js:424-425 | a name yields a gene exactly when it starts with `gene_` |
| GeneIndex.GeneNameText | dash_app/apps/dash-singlecell-vr/static/index.js:426 | the gene name is the text after `gene_` up to the next `_`, `.` or end of name |
| GeneIndex.GeneListConcat | dash_app/apps/dash-singlecell-vr/static/index.js:423-428 | the gene list keeps entry order (it distributes over concatenation) |
| GeneIndex.GeneListLength | dash_app/apps/dash-singlecell-vr/static/index.js:423-428 | at most one gene per entry |
| GeneIndex.GeneListMembers | dash_app/apps/dash-singlecell-vr/static/index.js:423-428 | a gene entry is listed exactly when some entry name is a gene file with that name |
| GeneIndex.ExampleGeneName | dash_app/apps/dash-singlecell-vr/static/index.js:424-426 | `gene_CD3_counts.json` names the gene `CD3` |
| GeneIndex.NotGeneFile | dash_app/apps/dash-singlecell-vr/static/index.js:425 | a name that does not start with `gene_` yields nothing |
| GeneIndex.ExampleDataFiles | dash_app/apps/dash-singlecell-vr/static/index.js:425 | `scatter.json` and `metadata.json` yield no gene |
| GeneIndex.ExampleGeneFile | dash_app/apps/dash-singlecell-vr/static/index.js:426 | `gene_CD3_counts.json` yields the entry `{gene: "CD3"}` |
| GeneIndex.GeneListOfThree | dash_app/apps/dash-singlecell-vr/static/index.js:423-428 | the list of three names is the concatenation of their lists |
| GeneIndex.ExampleGeneList | dash_app/apps/dash-singlecell-vr/static/index.js:420-430 | names `gene_CD3_counts.json`, `scatter.json`, `metadata.json` give the one gene `CD3` |
| Branches.DedupEdges | dash_app/apps/dash-singlecell-vr/static/index.js:210-218 | the edge loop yields the first-seen unique list of edge ids and the last-write-wins weight dictionary |
| Branches.DedupBranchIds | dash_app/apps/dash-singlecell-vr/static/index.js:364-369 | the curve loop yields the first-seen unique list of branch ids |
| Branches.NodePositions | dash_app/apps/dash-singlecell-vr/static/index.js:225-233 | the node loop yields the dictionary of positions written under each node's digits key |
| Branches.EdgeBranchesAndWeights | dash_app/apps/dash-singlecell-vr/static/index.js:210-218 | edge ids are unique, are exactly the ids of the edges, and come in first-seen order; the weight keys are the same ids; each id holds the weight of its last edge |
| Branches.StreamBranches | dash_app/apps/dash-singlecell-vr/static/index.js:364-369 | branch ids are unique, are exactly the curves' ids, and come in first-seen order |
| Branches.NodeKeysAreDigits | dash_app/apps/dash-singlecell-vr/static/index.js:231 | every node-position key is all digits |
| Branches.NodePositionOfLastNode | dash_app/apps/dash-singlecell-vr/static/index.js:226-231 | a node's key holds its coordinates divided by ten unless a later node has the same key |
| Branches.EdgeIdSplit | dash_app/apps/dash-singlecell-vr/static/index.js:238 | an edge id splits on `_` back into its two node names when neither contains `_` |
| Branches.DuplicateEdgeExample | dash_app/apps/dash-singlecell-vr/static/index.js:210-218 | two `n0`–`n1` edges of weights 0.4 and 0.9 give one branch `n0_n1` of weight 0.9 |
| Layout.SeqMin | dash_app/apps/dash-singlecell-vr/static/index.js:155 | `Math.min(...)` of a non-empty list is an element no greater than any element |
| Layout.SeqMax | dash_app/apps/dash-singlecell-vr/static/index.js:154 | `Math.max(...)` of a non-empty list is an element no less than any element |
| Layout.BoxPlacement | dash_app/apps/dash-singlecell-vr/static/index.js:148-163 | None exactly for no points; the ground is at most -12, below every scaled y, and either -12 or a scaled y |
| Layout.BoxCamera | dash_app/apps/dash-singlecell-vr/static/index.js:151-162 | the camera's x and y are the midpoints `(min + max) / 2` of the scaled coordinates, lying between the least and greatest; its z is the x range plus one, at least 1 |
| Layout.PagaPlacement | dash_app/apps/dash-singlecell-vr/static/index.js:148-163 | PAGA: None exactly for no nodes; the ground is at most -12, below every node's y times 0.04, and either -12 or one of those heights |
| Layout.SeuratPlacement | dash_app/apps/dash-singlecell-vr/static/index.js:251-266 | Seurat: None exactly for no cells; the ground is at most -12, below every cell's y times 0.5, and either -12 or one of those heights |
| Layout.GroundClampExample | dash_app/apps/dash-singlecell-vr/static/index.js:263 | cells with y values -5, -3, 0, 2 put the ground at -12 |
| Layout.GetZMax | dash_app/apps/dash-singlecell-vr/static/index.js:401-411 | the nested loop with the running maximum computes the z extent over all curve points |
| Layout.MaxAbsZIsMaximum | dash_app/apps/dash-singlecell-vr/static/index.js:403-409 | the running maximum is None exactly when no point has a z; otherwise it is some point's `abs(z)` and at least every point's |
| Layout.ZMaxIsHundredTimesLargestAbsZ | dash_app/apps/dash-singlecell-vr/static/index.js:401-411 | `getZMax` is 100 times the largest `abs(z)`; undefined z values are skipped |
| Layout.SortPermutes | dash_app/apps/dash-singlecell-vr/static/index.js:414 | the numeric sort returns an ascending permutation of its input |
| Layout.SortCounts | dash_app/apps/dash-singlecell-vr/static/index.js:414 | sorting keeps how many values lie below and above any value |
| Layout.Median | dash_app/apps/dash-singlecell-vr/static/index.js:413-416 | None exactly for no values; otherwise a value with at most `n/2` values below and at most `n-1-n/2` values above it |
| Layout.StreamCameraPlacement | dash_app/apps/dash-singlecell-vr/static/index.js:317-333 | defined exactly when there are curve points and one has a z; the ground is at most -12, below every y, and either -12 or some y; the camera z is `zMax + 1.2`; the camera x and y are coordinates times 100; the minimap is the camera times 0.01 |
| Layout.StreamCameraAtMedians | dash_app/apps/dash-singlecell-vr/static/index.js:325-330 | the camera's x and y divided by 100 are medians of the x and y coordinates |
| DefaultSort.LexLeTotal | dash_app/apps/dash-singlecell-vr/static/index.js:414 | the string order of the default sort is total |
| DefaultSort.StringSortFacts | dash_app/apps/dash-singlecell-vr/static/index.js:414 | the comparator-free sort is a permutation ascending by string form |
| DefaultSort.MedianAsWritten | dash_app/apps/dash-singlecell-vr/static/index.js:413-416 | the as-written median is None exactly for no values, and otherwise one of the values |
| DefaultSort.SortTenNineOne | dash_app/apps/dash-singlecell-vr/static/index.js:414 | the default sort orders 10, 9, 1 as 1, 10, 9 |
| DefaultSort.MedianAsWrittenCounterexample | dash_app/apps/dash-singlecell-vr/static/index.js:413-416 | for 10, 9, 1 the as-written median is 10, which has two of the three values below it; the numeric median is 9 |
| Bundle.DetectFormat | dash_app/apps/dash-singlecell-vr/static/index.js:435-451 | PAGA exactly when `paga_nodes.json` is present; STREAM exactly when it is absent and `stream.json` is present; Seurat exactly when neither is present |
| Bundle.DetectFormatOnlyMarkers | dash_app/apps/dash-singlecell-vr/static/index.js:435-447 | the decision depends only on which of the two marker entries are present |
| Bundle.PagaWins | dash_app/apps/dash-singlecell-vr/static/index.js:435 | a bundle holding `paga_nodes.json` is PAGA whatever else it holds |
| Bundle.MarkerIsRead | dash_app/apps/dash-singlecell-vr/static/index.js:435-442 | when names and texts come from the same archive, loading never fails on the marker entry that selected PAGA or STREAM |
| Bundle.FirstMissing | dash_app/apps/dash-singlecell-vr/static/index.js:436-449 | the first needed entry that is absent, in read order, with every earlier one present; None exactly when all are present |
| Bundle.Initialize | dash_app/apps/dash-singlecell-vr/static/index.js:432-452 | loading succeeds exactly when every entry the detected renderer reads is present |
| Bundle.InitializeOutcome | dash_app/apps/dash-singlecell-vr/static/index.js:432-452 | on success: the detected kind, the texts of the needed entries in read order, and the gene list of all entry names; on failure: the first needed entry that is absent in read order |

## Left out

- DOM and A-Frame work is not modelled: entity creation, legends, menus, painting cells,
  thick lines, minimap look-at, and the HUD trigonometry of the listeners. It is scene
  output with no data logic of its own.
- The Fuse.js gene search, keyboard, VR-controller and timer event handlers are not
  modelled. They are UI wiring around calls into code outside this file.
- `Utils.unzip`, `Utils.strip`, `Utils.htmlToElement` and `JSON.parse` are not modelled.
  The utilities file is not part of this model. The inputs are the decoded archive and
  records, and the entry texts are kept as opaque strings.
- `command_line.py` (the data-preparation command) is not part of this model.
- Numbers are exact reals, with no IEEE rounding. Where the source's result would be
  `NaN` or `±Infinity` the model returns None: a bounding box of no points, a STREAM
  camera with no curve points or with no z, and `getZMax` with no z (`-Infinity`).
- Layout.BoxPlacement: with no PAGA nodes or no Seurat cells the source still puts the
  ground at -12 (`Math.min(Infinity, -12)`), and the camera is `(NaN, NaN, -Infinity)`
  (`xRange + 1` is `-Infinity - Infinity + 1`). The model returns None for the whole
  placement, ground included.
- Layout.StreamCameraPlacement: with no curve points the source still sets the ground to
  -12 while the camera is `NaN`. The model returns None for the whole placement.
- Layout.StreamCameraPlacement: with curve points but no z, the source still sets a finite
  ground `min(yMin, -12)` and a finite camera x and y; only the camera z and the minimap z
  are `-Infinity`. The model returns None for the whole placement.
- Layout.StreamCameraPlacement: the ground is compared with the unscaled curve y values,
  as in the source, although the curves are drawn at 100 times those values. The model
  keeps the source's formula and states no "ground below the drawn curves" property.
- Layout.StreamCameraPlacement uses the numeric median (the corrected behaviour). The
  as-written string-ordered median is DefaultSort.MedianAsWritten.
- DefaultSort.MedianAsWritten: covers integer-valued inputs only. JavaScript's general
  number-to-string conversion (fractions, exponents) is not modelled.
- JSON fields are strings, or absent (`None`). Non-string metadata values and keys that
  `Object.keys` would reorder (integer-like keys) are not modelled.
- CellMetadata.CreateCellMetadataObject: an empty metadata list, where the source throws
  a `TypeError`, is modelled as the error `EmptyMetadata`.
- Bundle.Initialize: an absent entry, where `result.file(name).async` throws, is
  modelled as the error `MissingEntry(name)`. The asynchronous awaits become sequential
  reads, and the rendering calls are replaced by the texts they would receive.
- Bundle.Initialize: returns the gene list whenever the needed entries are present. In the
  source, `getGeneList` runs only after `renderPaga` or `renderSeurat` returns; both are
  synchronous, so a throw inside them (for example `createCellMetadataObject` on an empty
  `metadata.json`) skips the gene list. `renderStream` is asynchronous and not awaited, so
  for STREAM the gene list is built whatever rendering does. The model does not make the
  gene list depend on rendering succeeding.

## Findings

| source | as written | input that shows it | evidently intended | confidence | as-written member | corrected member |
|---|---|---|---|---|---|---|
| dash_app/apps/dash-singlecell-vr/static/index.js:414 | `[...values].sort()` has no comparator, so the numbers are ordered by their string forms | values 10, 9, 1 sort as 1, 10, 9, and the picked middle value is 10 | a numeric sort, whose middle value 9 is the median | high; not executed, proved in the model | DefaultSort.MedianAsWrittenCounterexample | Layout.Median |
