/**
 * The load routine `initialize`: classify the bundle by its entry names, read the entries
 * the chosen renderer needs, and build the gene list.
 */
module Bundle {
  import opened Wrappers
  import opened GeneIndex

  /** The three visualisation kinds. */
  datatype DatasetKind = Paga | Stream | Seurat

  const PagaMarker: string := "paga_nodes.json"
  const StreamMarker: string := "stream.json"

  /** The dispatch of `initialize` on `Object.keys(result.files)`. */
  function DetectFormat(entries: seq<string>): (k: DatasetKind)
    ensures k == Paga <==> PagaMarker in entries
    ensures k == Stream <==> PagaMarker !in entries && StreamMarker in entries
    ensures k == Seurat <==> PagaMarker !in entries && StreamMarker !in entries
  {
    if PagaMarker in entries then Paga
    else if StreamMarker in entries then Stream
    else Seurat
  }

  /** The decision depends only on which of the two marker entries are present. */
  lemma DetectFormatOnlyMarkers(a: seq<string>, b: seq<string>)
    requires (PagaMarker in a <==> PagaMarker in b) && (StreamMarker in a <==> StreamMarker in b)
    ensures DetectFormat(a) == DetectFormat(b)
  {
  }

  /** A bundle with `paga_nodes.json` is PAGA whatever else it holds. */
  lemma PagaWins(entries: seq<string>, more: seq<string>)
    requires PagaMarker in entries
    ensures DetectFormat(entries + more) == Paga && DetectFormat(more + entries) == Paga
  {
    var k :| 0 <= k < |entries| && entries[k] == PagaMarker;
    assert (entries + more)[k] == PagaMarker;
    assert (more + entries)[|more| + k] == PagaMarker;
  }

  /** The entries each renderer reads, in the order `initialize` awaits them. */
  function RequiredEntries(kind: DatasetKind): seq<string>
  {
    match kind
    case Paga => ["paga_edges.json", "paga_nodes.json", "scatter.json", "metadata.json"]
    case Stream => ["stream.json", "scatter.json", "metadata.json"]
    case Seurat => ["scatter.json", "metadata.json"]
  }

  /** An unzipped bundle: its entry names in `Object.keys` order and the entries' texts. */
  datatype Archive = Archive(names: seq<string>, texts: map<string, string>)

  /** Both come from one `result.files`: the listed names are exactly the entries with a text. */
  ghost predicate Consistent(archive: Archive)
  {
    forall n :: n in archive.texts <==> n in archive.names
  }

  /**
   * The marker entry that selected the renderer is always found: loading a consistent
   * archive never fails on `paga_nodes.json` for PAGA or on `stream.json` for STREAM.
   */
  lemma MarkerIsRead(archive: Archive)
    requires Consistent(archive)
    ensures DetectFormat(archive.names) == Paga && Initialize(archive).Failure? ==>
      Initialize(archive).error.name != PagaMarker
    ensures DetectFormat(archive.names) == Stream && Initialize(archive).Failure? ==>
      Initialize(archive).error.name != StreamMarker
  {
    InitializeOutcome(archive);
  }

  /** `result.file(name)` is null for an absent entry, and awaiting `.async` on it throws. */
  datatype LoadError = MissingEntry(name: string)

  /** What `initialize` hands on: the kind, the texts of the entries read, and the gene list. */
  datatype Session = Session(kind: DatasetKind, payloads: seq<string>, genes: seq<GeneEntry>)

  /** The first name of the list that has no entry, in list order. */
  function FirstMissing(names: seq<string>, texts: map<string, string>): (r: Option<nat>)
    ensures r.None? <==> forall i :: 0 <= i < |names| ==> names[i] in texts
    ensures r.Some? ==> r.value < |names| && names[r.value] !in texts
    ensures r.Some? ==> forall i :: 0 <= i < r.value ==> names[i] in texts
  {
    if names == [] then None
    else if names[0] !in texts then Some(0)
    else
      match FirstMissing(names[1..], texts)
      case None => None
      case Some(k) => Some(k + 1)
  }

  /** `initialize` after the archive is unzipped: dispatch, read the needed entries, list the genes. */
  function Initialize(archive: Archive): (r: Result<Session, LoadError>)
    ensures var needed := RequiredEntries(DetectFormat(archive.names));
      r.Success? <==> forall i :: 0 <= i < |needed| ==> needed[i] in archive.texts
  {
    var kind := DetectFormat(archive.names);
    var needed := RequiredEntries(kind);
    match FirstMissing(needed, archive.texts)
    case Some(k) => Failure(MissingEntry(needed[k]))
    case None =>
      Success(Session(kind, seq(|needed|, i requires 0 <= i < |needed| => archive.texts[needed[i]]),
                      GeneList(archive.names)))
  }

  /**
   * A successful load has the detected kind, one payload per needed entry holding that
   * entry's text, and the gene list of the entry names; a failed one names the first
   * needed entry that is absent, every earlier one being present.
   */
  lemma InitializeOutcome(archive: Archive)
    ensures var needed := RequiredEntries(DetectFormat(archive.names));
      match Initialize(archive)
      case Success(s) =>
        s.kind == DetectFormat(archive.names) && |s.payloads| == |needed| &&
        (forall i :: 0 <= i < |needed| ==> needed[i] in archive.texts && s.payloads[i] == archive.texts[needed[i]]) &&
        s.genes == GeneList(archive.names)
      case Failure(MissingEntry(name)) =>
        exists k :: 0 <= k < |needed| && needed[k] == name && name !in archive.texts &&
          forall i :: 0 <= i < k ==> needed[i] in archive.texts
  {
    var needed := RequiredEntries(DetectFormat(archive.names));
    match FirstMissing(needed, archive.texts)
    case Some(k) =>
    case None =>
  }
}
