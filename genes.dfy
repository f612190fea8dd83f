/** `getGeneList`: the searchable gene names, read off the bundle's `gene_<name>...` entry names. */
module GeneIndex {
  import opened Strings

  /** One search-corpus item, `{gene: name}`. */
  datatype GeneEntry = GeneEntry(gene: string)

  /** The entry name splits on `_` into more than one piece, the first being `gene`. */
  predicate IsGeneFile(file: string)
  {
    var parts := Split(file, '_');
    |parts| > 1 && parts[0] == "gene"
  }

  /** `splitName[1].split('.')[0]`: the second `_` piece, cut at its first `.`. */
  function GeneName(file: string): string
    requires IsGeneFile(file)
  {
    Split(Split(file, '_')[1], '.')[0]
  }

  /** The gene entries of the file names, in their order, without deduplication. */
  function GeneList(files: seq<string>): seq<GeneEntry>
  {
    if files == [] then []
    else
      var last := files[|files| - 1];
      GeneList(files[..|files| - 1]) + (if IsGeneFile(last) then [GeneEntry(GeneName(last))] else [])
  }

  /** Scans the file names and pushes one entry per gene file (index.js lines 420-430). */
  method GetGeneList(fileNames: seq<string>) returns (geneNames: seq<GeneEntry>)
    ensures geneNames == GeneList(fileNames)
  {
    geneNames := [];
    var i := 0;
    while i < |fileNames|
      invariant 0 <= i <= |fileNames|
      invariant geneNames == GeneList(fileNames[..i])
    {
      var file := fileNames[i];
      var splitName := Split(file, '_');
      if |splitName| > 1 && splitName[0] == "gene" {
        geneNames := geneNames + [GeneEntry(Split(splitName[1], '.')[0])];
      }
      assert fileNames[..i + 1][..i] == fileNames[..i];
      i := i + 1;
    }
    assert fileNames[..i] == fileNames;
  }

  /** A file is a gene file exactly when its name starts with `gene_`. */
  lemma GeneFilePrefix(file: string)
    ensures IsGeneFile(file) <==> |file| >= 5 && file[..5] == "gene_"
  {
    if |file| >= 5 && file[..5] == "gene_" {
      assert file == "gene" + ['_'] + file[5..];
      SplitAfterPiece("gene", file[5..], '_');
    }
    if IsGeneFile(file) {
      SplitMoreThanOne(file, '_');
      SplitFirstPiece(file, '_');
      var k := IndexOf(file, '_');
      assert file[..k] == "gene";
      assert file[..5] == file[..k] + [file[k]];
    }
  }

  /**
   * The gene name is the text after `gene_` up to (not including) the next `_` or `.`,
   * or to the end of the name.
   */
  lemma GeneNameText(file: string)
    requires IsGeneFile(file)
    ensures var g := GeneName(file);
      5 + |g| <= |file| && g == file[5..5 + |g|] && '_' !in g && '.' !in g &&
      (5 + |g| == |file| || file[5 + |g|] == '_' || file[5 + |g|] == '.')
  {
    GeneFilePrefix(file);
    var rest := file[5..];
    assert file == "gene" + ['_'] + rest;
    SplitAfterPiece("gene", rest, '_');
    assert Split(file, '_')[1] == Split(rest, '_')[0];
    SplitFirstPiece(rest, '_');
    var k1 := IndexOf(rest, '_');
    var piece := rest[..k1];
    SplitFirstPiece(piece, '.');
    var k2 := IndexOf(piece, '.');
    var g := GeneName(file);
    assert g == piece[..k2] == rest[..k2];
    assert rest[..k2] == file[5..5 + k2];
    assert forall j :: 0 <= j < k2 ==> g[j] == piece[j];
    if k2 < k1 {
      assert piece[k2] == '.';
    }
  }

  /** The gene list of a concatenation is the concatenation of the gene lists: order is kept. */
  lemma {:induction false} GeneListConcat(a: seq<string>, b: seq<string>)
    ensures GeneList(a + b) == GeneList(a) + GeneList(b)
  {
    if b == [] {
      assert a + b == a;
    } else {
      var b' := b[..|b| - 1];
      GeneListConcat(a, b');
      assert (a + b)[..|a + b| - 1] == a + b';
    }
  }

  /** There is at most one gene entry per file name. */
  lemma {:induction false} GeneListLength(files: seq<string>)
    ensures |GeneList(files)| <= |files|
  {
    if files != [] {
      GeneListLength(files[..|files| - 1]);
    }
  }

  /** Every gene entry comes from a gene file, and every gene file gives its entry. */
  lemma {:induction false} GeneListMembers(files: seq<string>)
    ensures forall e :: e in GeneList(files) <==>
      exists i :: 0 <= i < |files| && IsGeneFile(files[i]) && e == GeneEntry(GeneName(files[i]))
  {
    if files != [] {
      var p := files[..|files| - 1];
      GeneListMembers(p);
      forall e ensures e in GeneList(files) <==>
        exists i :: 0 <= i < |files| && IsGeneFile(files[i]) && e == GeneEntry(GeneName(files[i]))
      {
        if e in GeneList(p) {
          var i :| 0 <= i < |p| && IsGeneFile(p[i]) && e == GeneEntry(GeneName(p[i]));
          assert files[i] == p[i];
        }
        if exists i :: 0 <= i < |files| && IsGeneFile(files[i]) && e == GeneEntry(GeneName(files[i])) {
          var i :| 0 <= i < |files| && IsGeneFile(files[i]) && e == GeneEntry(GeneName(files[i]));
          if i < |p| {
            assert p[i] == files[i];
          }
        }
      }
    }
  }

  /** `gene_CD3_counts.json` names the gene `CD3`. */
  lemma ExampleGeneName()
    ensures IsGeneFile("gene_CD3_counts.json") && GeneName("gene_CD3_counts.json") == "CD3"
  {
    var rest := "CD3" + ['_'] + "counts.json";
    var f := "gene_CD3_counts.json";
    assert f == "gene" + ['_'] + rest;
    SplitAfterPiece("gene", rest, '_');
    assert Split(f, '_') == ["gene"] + Split(rest, '_');
    SplitAfterPiece("CD3", "counts.json", '_');
    assert Split(rest, '_') == ["CD3"] + Split("counts.json", '_');
    assert Split(f, '_')[1] == "CD3";
    NoSeparatorSplit("CD3", '.');
  }

  /** A file name not starting with `gene_` contributes nothing. */
  lemma NotGeneFile(file: string)
    requires !(|file| >= 5 && file[..5] == "gene_")
    ensures GeneList([file]) == []
  {
    GeneFilePrefix(file);
    assert [file][..0] == [];
  }

  /** The two data files of the example are not gene files. */
  lemma ExampleDataFiles()
    ensures GeneList(["scatter.json"]) == [] && GeneList(["metadata.json"]) == []
  {
    assert "scatter.json"[..5] == "scatt";
    NotGeneFile("scatter.json");
    assert "metadata.json"[..5] == "metad";
    NotGeneFile("metadata.json");
  }

  /** The gene entry of the example's gene file. */
  lemma ExampleGeneFile()
    ensures GeneList(["gene_CD3_counts.json"]) == [GeneEntry("CD3")]
  {
    ExampleGeneName();
    assert ["gene_CD3_counts.json"][..0] == [];
  }

  /** Three file names contribute their gene lists in order. */
  lemma GeneListOfThree(a: string, b: string, c: string)
    ensures GeneList([a, b, c]) == GeneList([a]) + GeneList([b]) + GeneList([c])
  {
    GeneListConcat([a], [b]);
    GeneListConcat([a, b], [c]);
    assert [a] + [b] == [a, b];
    assert [a, b] + [c] == [a, b, c];
  }

  /** `["gene_CD3_counts.json", "scatter.json", "metadata.json"]` gives `[{gene: "CD3"}]`. */
  lemma ExampleGeneList()
    ensures GeneList(["gene_CD3_counts.json", "scatter.json", "metadata.json"]) == [GeneEntry("CD3")]
  {
    ExampleGeneFile();
    ExampleDataFiles();
    GeneListOfThree("gene_CD3_counts.json", "scatter.json", "metadata.json");
  }
}
