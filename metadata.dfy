/**
 * `createCellMetadataObject`: turns the decoded `metadata.json` records into the list of
 * annotation fields and the annotation index (annotation -> cell id -> colours).
 */
module CellMetadata {
  import opened Wrappers
  import opened Strings
  import opened Collections

  /**
   * One decoded metadata record: its keys in `Object.keys` order and its field values.
   * A field that is absent reads as `undefined`.
   */
  datatype CellRecord = CellRecord(keys: seq<string>, fields: map<string, string>)

  /** A record as JSON.parse produces it: every key listed once, and exactly the keys with values. */
  ghost predicate WellFormed(cell: CellRecord)
  {
    NoDuplicates(cell.keys) && (forall k :: k in cell.fields <==> k in cell.keys)
  }

  /** `cell[name]`: the field's value, or None for `undefined`. */
  function Field(cell: CellRecord, name: string): Option<string>
  {
    if name in cell.fields then Some(cell.fields[name]) else None
  }

  /** The key substrings that mark a field as not being an annotation. */
  const IgnoreKeys: seq<string> := ["cell_id", "color"]

  /** A key is reserved when it contains one of the ignore keys anywhere in it. */
  predicate IsReserved(key: string)
  {
    exists t :: 0 <= t < |IgnoreKeys| && Contains(key, IgnoreKeys[t])
  }

  /** The annotation fields: the keys that are not reserved, in their original order. */
  function AnnotationsOf(keys: seq<string>): seq<string>
  {
    if keys == [] then []
    else
      var last := keys[|keys| - 1];
      AnnotationsOf(keys[..|keys| - 1]) + (if IsReserved(last) then [] else [last])
  }

  /** One cell's entry under one annotation; `label_color` is always null. */
  datatype Entry = Entry(labelText: Option<string>, labelColor: Option<string>, clusterColor: Option<string>)

  /** The property key `cell.cell_id` turns into when used to index an object. */
  function CellKey(cell: CellRecord): string
  {
    match Field(cell, "cell_id")
    case Some(id) => id
    case None => "undefined"
  }

  /** The entry written for a cell under an annotation: its label and the `<annotation>_color` field. */
  function EntryFor(annotation: string, cell: CellRecord): Entry
  {
    Entry(Field(cell, annotation), None, Field(cell, annotation + "_color"))
  }

  /** The writes `annotationObjects[annotation][cell.cell_id] = ...`, one per cell, in order. */
  function CellEntries(annotation: string, cells: seq<CellRecord>): seq<(string, Entry)>
  {
    seq(|cells|, i requires 0 <= i < |cells| => (CellKey(cells[i]), EntryFor(annotation, cells[i])))
  }

  /** The per-annotation dictionary those writes leave behind. */
  function AnnotationMap(annotation: string, cells: seq<CellRecord>): map<string, Entry>
  {
    Assoc(CellEntries(annotation, cells))
  }

  /** The annotation index: every annotation mapped to its dictionary over all cells. */
  function AnnotationIndex(annotations: seq<string>, cells: seq<CellRecord>): map<string, map<string, Entry>>
  {
    map a | a in annotations :: AnnotationMap(a, cells)
  }

  /** The pair `[annotations, annotationObjects]` that createCellMetadataObject returns. */
  datatype CellMetadataObject = CellMetadataObject(annotations: seq<string>, index: map<string, map<string, Entry>>)

  /** `metadata[0]` of an empty list is undefined and `Object.keys(undefined)` throws. */
  datatype MetadataError = EmptyMetadata

  /** Infers the annotation fields from the keys of the first record (index.js lines 97-112). */
  method InferAnnotations(example: CellRecord) returns (annotations: seq<string>)
    ensures annotations == AnnotationsOf(example.keys)
  {
    annotations := [];
    var i := 0;
    while i < |example.keys|
      invariant 0 <= i <= |example.keys|
      invariant annotations == AnnotationsOf(example.keys[..i])
    {
      var key := example.keys[i];
      var ignore := false;
      var j := 0;
      while j < |IgnoreKeys|
        invariant 0 <= j <= |IgnoreKeys|
        invariant ignore <==> exists t :: 0 <= t < j && Contains(key, IgnoreKeys[t])
      {
        if Contains(key, IgnoreKeys[j]) {
          ignore := true;
        }
        j := j + 1;
      }
      if !ignore {
        annotations := annotations + [key];
      }
      assert example.keys[..i + 1][..i] == example.keys[..i];
      i := i + 1;
    }
    assert example.keys[..i] == example.keys;
  }

  /** One more write extends the per-annotation dictionary of a prefix by that cell's entry. */
  lemma AnnotationMapStep(annotation: string, cells: seq<CellRecord>, j: nat)
    requires j < |cells|
    ensures AnnotationMap(annotation, cells[..j + 1])
         == AnnotationMap(annotation, cells[..j])[CellKey(cells[j]) := EntryFor(annotation, cells[j])]
  {
    var e := CellEntries(annotation, cells[..j + 1]);
    assert e[..|e| - 1] == CellEntries(annotation, cells[..j]);
  }

  /** The index of one more annotation adds that annotation's dictionary over all cells. */
  lemma AnnotationIndexStep(annotations: seq<string>, cells: seq<CellRecord>, i: nat)
    requires i < |annotations|
    ensures AnnotationIndex(annotations[..i + 1], cells)
         == AnnotationIndex(annotations[..i], cells)[annotations[i] := AnnotationMap(annotations[i], cells)]
  {
    assert annotations[..i + 1] == annotations[..i] + [annotations[i]];
  }

  /** Before any cell is read, an annotation's dictionary is empty. */
  lemma AnnotationMapEmpty(annotation: string, cells: seq<CellRecord>)
    ensures AnnotationMap(annotation, cells[..0]) == map[]
  {
    assert CellEntries(annotation, cells[..0]) == [];
  }

  /** Fills the annotation index, one annotation and one cell at a time (index.js lines 114-120). */
  method BuildAnnotationIndex(annotations: seq<string>, metadata: seq<CellRecord>)
    returns (index: map<string, map<string, Entry>>)
    ensures index == AnnotationIndex(annotations, metadata)
  {
    index := map[];
    var i := 0;
    while i < |annotations|
      invariant 0 <= i <= |annotations|
      invariant index == AnnotationIndex(annotations[..i], metadata)
    {
      var a := annotations[i];
      index := index[a := map[]];
      AnnotationMapEmpty(a, metadata);
      var j := 0;
      while j < |metadata|
        invariant 0 <= j <= |metadata|
        invariant index == AnnotationIndex(annotations[..i], metadata)[a := AnnotationMap(a, metadata[..j])]
      {
        var cell := metadata[j];
        index := index[a := index[a][CellKey(cell) := EntryFor(a, cell)]];
        AnnotationMapStep(a, metadata, j);
        j := j + 1;
      }
      assert metadata[..j] == metadata;
      AnnotationIndexStep(annotations, metadata, i);
      i := i + 1;
    }
    assert annotations[..i] == annotations;
  }

  /** `createCellMetadataObject(metadata)`: the annotations of the first record and the index over all records. */
  method CreateCellMetadataObject(metadata: seq<CellRecord>)
    returns (r: Result<CellMetadataObject, MetadataError>)
    ensures metadata == [] <==> r.Failure?
    ensures metadata != [] ==>
      r == Success(CellMetadataObject(AnnotationsOf(metadata[0].keys),
                                      AnnotationIndex(AnnotationsOf(metadata[0].keys), metadata)))
  {
    if metadata == [] {
      return Failure(EmptyMetadata);
    }
    var annotations := InferAnnotations(metadata[0]);
    var index := BuildAnnotationIndex(annotations, metadata);
    r := Success(CellMetadataObject(annotations, index));
  }

  /** A key is an annotation exactly when it is one of the keys and is not reserved. */
  lemma {:induction false} AnnotationsOfMembers(keys: seq<string>)
    ensures forall k :: k in AnnotationsOf(keys) <==> k in keys && !IsReserved(k)
  {
    if keys != [] {
      var p := keys[..|keys| - 1];
      AnnotationsOfMembers(p);
      assert keys == p + [keys[|keys| - 1]];
    }
  }

  /** Annotation inference keeps the key order: it distributes over concatenation. */
  lemma {:induction false} AnnotationsOfConcat(a: seq<string>, b: seq<string>)
    ensures AnnotationsOf(a + b) == AnnotationsOf(a) + AnnotationsOf(b)
  {
    if b == [] {
      assert a + b == a;
    } else {
      var b' := b[..|b| - 1];
      AnnotationsOfConcat(a, b');
      assert (a + b)[..|a + b| - 1] == a + b';
    }
  }

  /** Distinct keys give distinct annotations. */
  lemma {:induction false} AnnotationsOfNoDuplicates(keys: seq<string>)
    requires NoDuplicates(keys)
    ensures NoDuplicates(AnnotationsOf(keys))
  {
    if keys != [] {
      var p := keys[..|keys| - 1];
      var last := keys[|keys| - 1];
      assert NoDuplicates(p);
      AnnotationsOfNoDuplicates(p);
      AnnotationsOfMembers(p);
      assert last !in p;
    }
  }

  /**
   * `Object.keys` lists each key of a parsed record once, so the annotations inferred
   * from the first record are distinct.
   */
  lemma FirstRecordAnnotationsDistinct(metadata: seq<CellRecord>)
    requires metadata != [] && WellFormed(metadata[0])
    ensures NoDuplicates(AnnotationsOf(metadata[0].keys))
  {
    AnnotationsOfNoDuplicates(metadata[0].keys);
  }

  /** `cell_type` contains neither ignore key, so it is an annotation. */
  lemma CellTypeIsAnnotation()
    ensures !IsReserved("cell_type")
  {
    assert "cell_id"[5] == 'i' && 'i' !in "cell_type";
    MissingCharNotContained("cell_type", IgnoreKeys[0], 5);
    assert "color"[4] == 'r' && 'r' !in "cell_type";
    MissingCharNotContained("cell_type", IgnoreKeys[1], 4);
  }

  /** `cell_type_color` contains `color` and `cell_id` contains itself: both are reserved. */
  lemma ColorAndIdAreReserved()
    ensures IsReserved("cell_type_color")
    ensures IsReserved("cell_id")
  {
    assert OccursAt("cell_type_color", IgnoreKeys[1], 10);
    assert OccursAt("cell_id", IgnoreKeys[0], 0);
  }

  /**
   * The index holds exactly the inferred annotations; under each, exactly the cell ids of
   * all records, and for a cell id the entry of the last record carrying it: its label,
   * a null label colour and its `<annotation>_color` field.
   */
  lemma IndexContents(annotations: seq<string>, cells: seq<CellRecord>)
    ensures forall a :: a in AnnotationIndex(annotations, cells) <==> a in annotations
    ensures forall a, id :: a in annotations ==>
      (id in AnnotationIndex(annotations, cells)[a] <==> exists i :: 0 <= i < |cells| && CellKey(cells[i]) == id)
    ensures forall a, i ::
      (a in annotations && 0 <= i < |cells| &&
       (forall j :: i < j < |cells| ==> CellKey(cells[j]) != CellKey(cells[i]))) ==>
      (CellKey(cells[i]) in AnnotationIndex(annotations, cells)[a] &&
       AnnotationIndex(annotations, cells)[a][CellKey(cells[i])] ==
         Entry(Field(cells[i], a), None, Field(cells[i], a + "_color")))
  {
    forall a | a in annotations
      ensures forall id :: id in AnnotationMap(a, cells) <==> exists i :: 0 <= i < |cells| && CellKey(cells[i]) == id
    {
      var e := CellEntries(a, cells);
      AssocKeys(e);
      assert forall i :: 0 <= i < |cells| ==> e[i].0 == CellKey(cells[i]);
    }
    forall a, i | a in annotations && 0 <= i < |cells| &&
      (forall j :: i < j < |cells| ==> CellKey(cells[j]) != CellKey(cells[i]))
      ensures CellKey(cells[i]) in AnnotationMap(a, cells) &&
              AnnotationMap(a, cells)[CellKey(cells[i])] == EntryFor(a, cells[i])
    {
      var e := CellEntries(a, cells);
      assert forall j :: i < j < |e| ==> e[j].0 != e[i].0 by {
        forall j | i < j < |e| ensures e[j].0 != e[i].0 {
          assert e[j].0 == CellKey(cells[j]);
        }
      }
      AssocLastWins(e, i);
    }
  }

  /** The example record `{cell_id: "c1", cell_type: "Tcell", cell_type_color: "#ff0000"}`. */
  function ExampleCell(): CellRecord
  {
    CellRecord(["cell_id", "cell_type", "cell_type_color"],
               map["cell_id" := "c1", "cell_type" := "Tcell", "cell_type_color" := "#ff0000"])
  }

  /** Of the example record's keys only `cell_type` is an annotation. */
  lemma ExampleAnnotations()
    ensures AnnotationsOf(ExampleCell().keys) == ["cell_type"]
  {
    CellTypeIsAnnotation();
    ColorAndIdAreReserved();
    var keys := ExampleCell().keys;
    assert keys[..1] == ["cell_id"];
    assert keys[..2][..1] == keys[..1];
    assert [] + ["cell_id"] == ["cell_id"];
    assert AnnotationsOf(["cell_id"]) == [];
    assert keys[..2] == ["cell_id", "cell_type"];
    assert AnnotationsOf(keys[..2]) == ["cell_type"];
    assert keys[..|keys| - 1] == keys[..2];
  }

  /** The example record's index: `{cell_type: {c1: {label: "Tcell", label_color: null, cluster_color: "#ff0000"}}}`. */
  lemma ExampleIndex()
    ensures AnnotationIndex(["cell_type"], [ExampleCell()]) ==
      map["cell_type" := map["c1" := Entry(Some("Tcell"), None, Some("#ff0000"))]]
  {
    var cell := ExampleCell();
    var entry := Entry(Some("Tcell"), None, Some("#ff0000"));
    assert CellKey(cell) == "c1";
    assert "cell_type" + "_color" == "cell_type_color";
    assert EntryFor("cell_type", cell) == entry;
    var e := CellEntries("cell_type", [cell]);
    assert e == [("c1", entry)];
    assert e[..0] == [];
    assert Assoc(e) == Assoc(e[..0])["c1" := entry];
    assert AnnotationMap("cell_type", [cell]) == map["c1" := entry];
  }
}
