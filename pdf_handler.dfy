/** `PDFHandler`: loading the tables of a PDF document into the builder and
    saving the builder as a PDF table. pdfplumber and reportlab are not
    modelled: a document is the list of tables extracted from its pages, in
    page order, and a saved document is the grid handed to the table. */
module PdfHandler {
  import opened Values
  import opened TableState
  import opened TableUtils
  import opened Sheets
  import opened Paths

  /** What the loader finds at a path: nothing (the path does not exist), a
      document pdfplumber fails on (None), or one extracted grid per page
      (empty when the page has no table). */
  type Documents = map<string, Option<seq<Grid>>>

  /** The rows of all pages, in page order. */
  function Extracted(pages: seq<Grid>): Grid
  {
    if pages == [] then [] else Extracted(pages[..|pages| - 1]) + pages[|pages| - 1]
  }

  /** Every extraction that yields rows has a text first row. */
  predicate TextHeaders(docs: Documents)
  {
    forall p :: p in docs && docs[p].Some? && Extracted(docs[p].value) != [] ==> TextHeader(Extracted(docs[p].value)[0])
  }

  /** The page loop: each page's rows are appended, pages without a table
      are skipped. */
  method ExtractRows(pages: seq<Grid>) returns (data: Grid)
    ensures data == Extracted(pages)
  {
    data := [];
    var i := 0;
    while i < |pages|
      invariant 0 <= i <= |pages|
      invariant data == Extracted(pages[..i])
    {
      assert pages[..i + 1][..i] == pages[..i];
      if pages[i] != [] {
        data := data + pages[i];
      } else {
        assert data + pages[i] == data;
      }
      i := i + 1;
    }
    assert pages[..i] == pages;
  }

  /** Extraction is concatenation: its length is the sum of the pages', and
      each page's rows follow the earlier pages' rows. */
  lemma {:induction false} ExtractedAppend(pages: seq<Grid>, more: Grid)
    ensures Extracted(pages + [more]) == Extracted(pages) + more
  {
    assert (pages + [more])[..|pages|] == pages;
  }

  /** A second page's header line is not recognised: it becomes a data row,
      right after the first page's rows. */
  lemma LaterHeaderBecomesData(first: Grid, second: Grid)
    requires first != [] && second != []
    ensures |Extracted([first, second])| == |first| + |second|
    ensures Extracted([first, second])[|first|] == second[0]
    ensures Extracted([first, second])[0] == first[0]
  {
    ExtractedAppend([], first);
    ExtractedAppend([first], second);
    assert [] + [first] == [first];
    assert [first] + [second] == [first, second];
  }

  /** The checks of `load_pdf` before anything changes. The prompt is
      stripped, so a cancelled prompt raises out of the command; the path
      must exist, the document must open, and some page must hold rows. */
  function PdfSource(path: string, prompt: Option<string>, docs: Documents): (r: Step<(string, Grid)>)
    ensures r.Go? ==> r.value.1 != [] && r.value.0 in docs && docs[r.value.0].Some?
    ensures r.Go? ==> r.value.1 == Extracted(docs[r.value.0].value)
    ensures r.Go? && path != "" ==> r.value.0 == path
    ensures r.Stop? ==> r.outcome != Done
  {
    if path == "" && prompt.None? then Stop(Crashed)
    else
      var p := if path != "" then path else prompt.value;
      if p !in docs then Stop(Rejected(FileNotFound))
      else
        match docs[p]
        case None => Stop(Rejected(Raised))
        case Some(pages) =>
          var data := Extracted(pages);
          if data == [] then Stop(Rejected(NoData)) else Go((p, data))
  }

  /** `load_pdf` on the builder: the first extracted row gives "str"
      columns and the rest are padded. Here inference (when the setting is
      on) comes before the rename: when it raises, the new table stays under
      the old name. The saved flag is never touched. */
  function LoadPdfResult(s: Snapshot, path: string, prompt: Option<string>, docs: Documents, inferOn: bool)
    : (r: (Snapshot, Outcome))
    requires TextHeaders(docs)
  {
    match PdfSource(path, prompt, docs)
    case Stop(o) => (s, o)
    case Go((p, g)) =>
      var rows := PaddedBody(g);
      if !inferOn then (Snapshot(TableNameOf(p), PaddedColumns(g), rows, s.saved), Done)
      else
        var inferred := Inference(PaddedColumns(g), rows);
        if inferred.1 then (Snapshot(TableNameOf(p), inferred.0, rows, s.saved), Done)
        else (Snapshot(s.name, inferred.0, rows, s.saved), Rejected(Raised))
  }

  /** After a load that got past the checks every row has exactly the header
      names as keys and the columns carry those names in order; the table is
      renamed after the file exactly when the load reports success. */
  lemma LoadPdfKeysMatch(s: Snapshot, path: string, prompt: Option<string>, docs: Documents, inferOn: bool)
    requires TextHeaders(docs) && PdfSource(path, prompt, docs).Go?
    ensures var (p, g) := PdfSource(path, prompt, docs).value;
      var r := LoadPdfResult(s, path, prompt, docs, inferOn);
      KeysMatch(r.0.columns, r.0.rows) && Names(r.0.columns) == HeaderNames(g[0])
      && r.0.rows == PaddedBody(g) && r.0.saved == s.saved
      && (r.1 == Done ==> r.0.name == TableNameOf(p))
      && (r.1 != Done ==> r.0.name == s.name)
  {
    var (p, g) := PdfSource(path, prompt, docs).value;
    var r := LoadPdfResult(s, path, prompt, docs, inferOn);
    PaddedLoadKeysMatch(g);
    if inferOn {
      var inferred := Inference(PaddedColumns(g), PaddedBody(g));
      InferenceKeepsKeysMatch(PaddedColumns(g), PaddedBody(g));
      InferenceKeepsNames(PaddedColumns(g), PaddedBody(g));
      assert r.0.columns == inferred.0 && r.0.rows == PaddedBody(g);
    } else {
      assert r == (Snapshot(TableNameOf(p), PaddedColumns(g), PaddedBody(g), s.saved), Done);
    }
  }

  /** `load_pdf`, statement by statement. */
  method LoadPdf(tb: TableBuilder, path: string, prompt: Option<string>, docs: Documents, inferOn: bool)
    returns (out: Outcome)
    requires TextHeaders(docs)
    modifies tb
    ensures (tb.Snap(), out) == LoadPdfResult(old(tb.Snap()), path, prompt, docs, inferOn)
  {
    var p: string;
    if path != "" {
      p := path;
    } else if prompt.None? {
      return Crashed;
    } else {
      p := prompt.value;
    }
    if p !in docs {
      return Rejected(FileNotFound);
    }
    var doc := docs[p];
    if doc.None? {
      return Rejected(Raised);
    }
    var g := ExtractRows(doc.value);
    if g == [] {
      return Rejected(NoData);
    }
    tb.columns := StrColumns(HeaderNames(g[0]));
    tb.rows := PaddedRows(HeaderNames(g[0]), g[1..]);
    if inferOn {
      var ok := InferColumnTypes(tb);
      if !ok {
        return Rejected(Raised);
      }
    }
    tb.name := TableNameOf(p);
    out := Done;
  }

  /** `save_pdf`: an empty table is refused; otherwise the grid is the
      column names followed by each row projected onto them, in table order,
      and the table is marked saved once the document is built. `buildable`
      says whether building succeeds. */
  method SavePdf(tb: TableBuilder, answer: Option<string>, fileAnswer: Option<string>, buildable: bool)
    returns (out: Outcome, file: Option<(string, Grid)>)
    modifies tb
    ensures tb.name == old(tb.name) && tb.columns == old(tb.columns) && tb.rows == old(tb.rows)
    ensures old(tb.columns) == [] || old(tb.rows) == [] ==>
      out == Rejected(NoData) && file.None? && tb.saved == old(tb.saved)
    ensures old(tb.columns) != [] && old(tb.rows) != [] ==>
      match SaveFileName(old(tb.name), answer, fileAnswer, ".pdf")
      case Stop(o) => out == o && file.None? && tb.saved == old(tb.saved)
      case Go(f) =>
        if buildable then out == Done && tb.saved && file == Some((f, ExportGrid(tb.columns, tb.rows)))
        else out == Rejected(Raised) && file.None? && tb.saved == old(tb.saved)
  {
    if tb.columns == [] || tb.rows == [] {
      return Rejected(NoData), None;
    }
    var name := SaveFileName(tb.name, answer, fileAnswer, ".pdf");
    if name.Stop? {
      return name.outcome, None;
    }
    var cols, rows := tb.columns, tb.rows;
    var grid: Grid := [seq(|cols|, j requires 0 <= j < |cols| => S(cols[j].name))];
    var i := 0;
    while i < |rows|
      invariant 0 <= i <= |rows|
      invariant |grid| == i + 1 && grid[0] == ExportGrid(cols, rows)[0]
      invariant forall k :: 0 <= k < i ==> grid[k + 1] == ExportRow(cols, rows[k])
    {
      grid := grid + [ExportRow(cols, rows[i])];
      i := i + 1;
    }
    assert grid == ExportGrid(cols, rows);
    if !buildable {
      return Rejected(Raised), None;
    }
    tb.saved := true;
    return Done, Some((name.value, grid));
  }

  /** A document of one page holding a saved grid of text rows loads back,
      with inference off, as the same rows under "str" columns of the same
      names. Text is what the extractor returns, so only text survives the
      round trip unchanged. */
  lemma SaveThenLoadPdf(s: Snapshot, cols: seq<Column>, rows: seq<Row>, f: string, docs: Documents)
    requires DistinctNames(cols) && KeysMatch(cols, rows) && rows != []
    requires forall i :: 0 <= i < |rows| ==> TextRow(rows[i])
    requires f != "" && f in docs && docs[f] == Some([ExportGrid(cols, rows)]) && TextHeaders(docs)
    ensures LoadPdfResult(s, f, None, docs, false)
      == (Snapshot(TableNameOf(f), StrColumns(Names(cols)), rows, s.saved), Done)
  {
    var g := ExportGrid(cols, rows);
    ExtractedAppend([], g);
    assert [] + [g] == [g];
    assert Extracted([g]) == g;
    PaddedLoadOfExport(cols, rows);
  }
}
