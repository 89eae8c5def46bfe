/**
  The ingestion pipeline of ingest.py: the title sanitiser of
  setup_paper_logger, the queue selection over the Google Sheet, the assembly
  of documents from the extracted text chunks, formulas and images, the
  embedding loop that turns documents into vector-store points, and the
  status protocol written back to the sheet.

  The sheet is a map from (row, column) to a cell value; the vector store is a
  list of points. Everything the outside world answers for one paper (whether
  its path exists, what the PDF holds, what the regex patterns match, which
  image files ended up on disk, whether the upsert fails) is a `PaperWorld`
  looked up by the paper's path; the embedding models are partial functions.
*/
module Ingest {
  import opened Strings
  import opened Chunker
  import opened PaperProcessor

  // ---------------------------------------------------------------------------
  // Title sanitiser: re.sub(r'[^a-zA-Z0-9_ -]', '', title).replace(' ', '_')

  /** The pattern keeps exactly the title characters (letters, digits, '_',
      ' ' and '-'); the spaces then become '_'. */
  function SanitizeTitle(title: string): (r: string)
    ensures |r| <= |title|
    ensures forall i :: 0 <= i < |r| ==> DirNameChar(r[i])
  {
    ReplaceChar(KeepTitleChars(title), ' ', '_')
  }

  /** A title made only of letters, digits, '_', ' ' and '-' loses nothing:
      its spaces become '_' and every other character stays in place. */
  lemma SanitizeKeepsTitleChars(title: string)
    requires forall i :: 0 <= i < |title| ==> TitleChar(title[i])
    ensures SanitizeTitle(title) == ReplaceChar(title, ' ', '_')
  {
    KeepTitleCharsUnchanged(title);
  }

  /** A title is its own sanitisation exactly when it is already made of
      letters, digits, '_' and '-'. */
  lemma SanitizeFixedPoint(title: string)
    ensures SanitizeTitle(title) == title <==> forall i :: 0 <= i < |title| ==> DirNameChar(title[i])
  {
    if forall i :: 0 <= i < |title| ==> DirNameChar(title[i]) {
      KeepTitleCharsUnchanged(title);
      assert ReplaceChar(title, ' ', '_') == title;
    }
  }

  /** Sanitising twice gives the same directory name. */
  lemma SanitizeIdempotent(title: string)
    ensures SanitizeTitle(SanitizeTitle(title)) == SanitizeTitle(title)
  {
    SanitizeFixedPoint(SanitizeTitle(title));
  }

  // ---------------------------------------------------------------------------
  // The sheet and the queue

  /** One record of the sheet, as get_all_records returns it. */
  datatype Row = Row(
    paperTitle: string, authors: string, publicationYear: string, paperPath: string,
    ingestionStatus: string, extractionStatus: string)

  /** Only rows with both statuses empty are processed. */
  predicate Pending(row: Row)
  {
    row.ingestionStatus == "" && row.extractionStatus == ""
  }

  /** The rows to process with their DataFrame indices, in sheet order. */
  function PendingRows(rows: seq<Row>): (r: seq<(nat, Row)>)
    ensures forall k :: 0 <= k < |r| ==> r[k].0 < |rows| && r[k].1 == rows[r[k].0] && Pending(r[k].1)
  {
    if rows == [] then []
    else
      var last := rows[|rows| - 1];
      PendingRows(rows[..|rows| - 1]) + (if Pending(last) then [(|rows| - 1, last)] else [])
  }

  /** A row is selected exactly when both of its statuses are empty. */
  lemma {:induction false} PendingRowsExact(rows: seq<Row>, i: nat)
    requires i < |rows|
    ensures (i, rows[i]) in PendingRows(rows) <==> Pending(rows[i])
  {
    var init := rows[..|rows| - 1];
    if i < |init| {
      PendingRowsExact(init, i);
      assert rows[i] == init[i];
    }
  }

  /** Rows are visited in sheet order, each at most once. */
  lemma {:induction false} PendingRowsIncreasing(rows: seq<Row>)
    ensures forall a, b :: 0 <= a < b < |PendingRows(rows)| ==> PendingRows(rows)[a].0 < PendingRows(rows)[b].0
  {
    if rows != [] {
      var init := rows[..|rows| - 1];
      PendingRowsIncreasing(init);
      var r0 := PendingRows(init);
      var r := PendingRows(rows);
      assert r == r0 + (if Pending(rows[|rows| - 1]) then [(|rows| - 1, rows[|rows| - 1])] else []);
      forall a, b | 0 <= a < b < |r|
        ensures r[a].0 < r[b].0
      {
        if b == |r0| {
          assert r[a] == r0[a] && r0[a].0 < |init|;
          assert r[b].0 == |rows| - 1 == |init|;
        } else {
          assert r[a] == r0[a] && r[b] == r0[b];
        }
      }
    }
  }

  /** The sheet row of a DataFrame index: rows are 1-based and row 1 is the header. */
  function SheetRow(index: nat): nat
  {
    index + 2
  }

  datatype Column = IngestionStatus | ExtractionStatus | Notes

  datatype Write = Write(row: nat, column: Column, value: string)

  type Cells = map<(nat, Column), string>

  /** The cells after a sequence of writes. */
  function Apply(cells: Cells, writes: seq<Write>): Cells
  {
    if writes == [] then cells
    else
      var w := writes[|writes| - 1];
      Apply(cells, writes[..|writes| - 1])[(w.row, w.column) := w.value]
  }

  lemma ApplyAppend(cells: Cells, writes: seq<Write>, w: Write)
    ensures Apply(cells, writes + [w]) == Apply(cells, writes)[(w.row, w.column) := w.value]
  {
    assert (writes + [w])[..|writes|] == writes;
  }

  /** Writing `a` then `b` is writing `a + b`. */
  lemma {:induction false} ApplyConcat(cells: Cells, a: seq<Write>, b: seq<Write>)
    ensures Apply(Apply(cells, a), b) == Apply(cells, a + b)
    decreases |b|
  {
    if b == [] {
      assert a + b == a;
    } else {
      var init := b[..|b| - 1];
      var w := b[|b| - 1];
      ApplyConcat(cells, a, init);
      assert (a + b)[..|a + b| - 1] == a + init;
      assert (a + b)[|a + b| - 1] == w;
      calc {
        Apply(Apply(cells, a), b);
        Apply(Apply(cells, a), init)[(w.row, w.column) := w.value];
        Apply(cells, a + init)[(w.row, w.column) := w.value];
        Apply(cells, a + b);
      }
    }
  }

  /** The sheet as the pipeline sees it: cell values, plus the history of writes. */
  class StatusSheet {
    var cells: Cells
    ghost var writes: seq<Write>
    ghost const initial: Cells

    ghost predicate Valid()
      reads this
    {
      cells == Apply(initial, writes)
    }

    constructor (contents: Cells)
      ensures Valid() && cells == contents && writes == []
    {
      cells := contents;
      writes := [];
      initial := contents;
    }

    /** update_status: sets one cell. */
    method UpdateStatus(row: nat, column: Column, status: string)
      requires Valid()
      modifies this
      ensures Valid()
      ensures writes == old(writes) + [Write(row, column, status)]
      ensures cells == old(cells)[(row, column) := status]
    {
      writes := writes + [Write(row, column, status)];
      cells := cells[(row, column) := status];
      assert writes[..|writes| - 1] == old(writes);
    }
  }

  // ---------------------------------------------------------------------------
  // Documents and points

  datatype Metadata = Metadata(paperTitle: string, authors: string, publicationYear: string)

  function MetadataOf(row: Row): Metadata
  {
    Metadata(row.paperTitle, row.authors, row.publicationYear)
  }

  /** The three kinds of document; an image document also carries its page and caption. */
  datatype DocKind = TextDoc | FormulaDoc | ImageDoc(page: nat, caption: string)

  /** One document: its kind, its content (the text, the formula, or the image
      path) and the paper's metadata. */
  datatype Document = Document(kind: DocKind, content: string, meta: Metadata)

  /** A point of the vector store (its random id is not modelled). */
  datatype Point = Point(vector: seq<real>, payload: Document)

  type Embedder = string -> Option<seq<real>>

  function TextDocs(chunks: seq<string>, meta: Metadata): (r: seq<Document>)
    ensures |r| == |chunks| && forall k :: 0 <= k < |r| ==> r[k] == Document(TextDoc, chunks[k], meta)
  {
    seq(|chunks|, k requires 0 <= k < |chunks| => Document(TextDoc, chunks[k], meta))
  }

  function FormulaDocs(formulas: seq<Formula>, meta: Metadata): (r: seq<Document>)
    ensures |r| == |formulas| && forall k :: 0 <= k < |r| ==> r[k] == Document(FormulaDoc, formulas[k].content, meta)
  {
    seq(|formulas|, k requires 0 <= k < |formulas| => Document(FormulaDoc, formulas[k].content, meta))
  }

  /** The image documents: one per visual whose file exists. */
  function ImageDocs(visuals: seq<Visual>, onDisk: set<string>, meta: Metadata): seq<Document>
  {
    if visuals == [] then []
    else
      var v := visuals[|visuals| - 1];
      ImageDocs(visuals[..|visuals| - 1], onDisk, meta)
        + (if v.path in onDisk then [Document(ImageDoc(v.page, v.caption), v.path, meta)] else [])
  }

  /** All documents: text chunks, then formulas, then (with an image model) images. */
  function Documents(chunks: seq<string>, formulas: seq<Formula>, visuals: seq<Visual>, imageModelLoaded: bool, onDisk: set<string>, meta: Metadata): seq<Document>
  {
    TextDocs(chunks, meta) + FormulaDocs(formulas, meta)
      + (if imageModelLoaded && visuals != [] then ImageDocs(visuals, onDisk, meta) else [])
  }

  /** Every image document stands for a visual whose file exists, in visual order. */
  lemma {:induction false} ImageDocsOnDisk(visuals: seq<Visual>, onDisk: set<string>, meta: Metadata, k: nat) returns (v: nat)
    requires k < |ImageDocs(visuals, onDisk, meta)|
    ensures v < |visuals| && visuals[v].path in onDisk
    ensures ImageDocs(visuals, onDisk, meta)[k] == Document(ImageDoc(visuals[v].page, visuals[v].caption), visuals[v].path, meta)
  {
    var init := visuals[..|visuals| - 1];
    var a := ImageDocs(init, onDisk, meta);
    if k < |a| {
      v := ImageDocsOnDisk(init, onDisk, meta, k);
      assert visuals[v] == init[v];
    } else {
      v := |visuals| - 1;
    }
  }

  lemma {:induction false} ImageDocsCount(visuals: seq<Visual>, onDisk: set<string>, meta: Metadata)
    ensures |ImageDocs(visuals, onDisk, meta)| <= |visuals|
    ensures (forall k :: 0 <= k < |visuals| ==> visuals[k].path in onDisk) ==> |ImageDocs(visuals, onDisk, meta)| == |visuals|
  {
    if visuals != [] {
      ImageDocsCount(visuals[..|visuals| - 1], onDisk, meta);
    }
  }

  /** Every document of a paper carries that paper's title, authors and year
      from its sheet row. */
  lemma DocumentsCarryRowMetadata(row: Row, chunks: seq<string>, formulas: seq<Formula>, visuals: seq<Visual>, imageModelLoaded: bool, onDisk: set<string>, k: nat)
    requires k < |Documents(chunks, formulas, visuals, imageModelLoaded, onDisk, MetadataOf(row))|
    ensures var d := Documents(chunks, formulas, visuals, imageModelLoaded, onDisk, MetadataOf(row))[k];
      d.meta.paperTitle == row.paperTitle && d.meta.authors == row.authors && d.meta.publicationYear == row.publicationYear
  {
    var meta := MetadataOf(row);
    var t := TextDocs(chunks, meta) + FormulaDocs(formulas, meta);
    if k >= |t| {
      var _ := ImageDocsOnDisk(visuals, onDisk, meta, k - |t|);
    }
  }

  /** Documents come in a fixed order: the text chunks, then the formulas, then
      the images, each group in its own order; image documents appear only when
      the image model is loaded, and only for files that exist. */
  lemma DocumentsOrder(chunks: seq<string>, formulas: seq<Formula>, visuals: seq<Visual>, imageModelLoaded: bool, onDisk: set<string>, meta: Metadata, k: nat)
    requires k < |Documents(chunks, formulas, visuals, imageModelLoaded, onDisk, meta)|
    ensures var d := Documents(chunks, formulas, visuals, imageModelLoaded, onDisk, meta)[k];
      && (k < |chunks| ==> d == Document(TextDoc, chunks[k], meta))
      && (|chunks| <= k < |chunks| + |formulas| ==> d == Document(FormulaDoc, formulas[k - |chunks|].content, meta))
      && (|chunks| + |formulas| <= k ==> imageModelLoaded && d.kind.ImageDoc? && d.content in onDisk)
  {
    var t := TextDocs(chunks, meta) + FormulaDocs(formulas, meta);
    if |chunks| + |formulas| <= k {
      var v := ImageDocsOnDisk(visuals, onDisk, meta, k - |t|);
    }
  }

  /** "Figure or image from research paper: <file name>" */
  function ImageDescription(imagePath: string): string
  {
    "Figure or image from research paper: " + Basename(imagePath)
  }

  /** The point one document gives, if any. An image document is embedded from
      the description of its file name and is dropped when the model fails or
      yields an empty vector; a text or formula document is dropped only when
      the model fails. */
  function EmbedOne(doc: Document, textModel: Embedder, imageModel: Option<Embedder>): Option<Point>
  {
    if doc.kind.ImageDoc? then
      if imageModel.None? then None
      else
        match imageModel.value(ImageDescription(doc.content))
        case Some(v) => if v != [] then Some(Point(v, doc)) else None
        case None => None
    else
      match textModel(doc.content)
      case Some(v) => Some(Point(v, doc))
      case None => None
  }

  /** The points of a list of documents, in document order. */
  function Points(docs: seq<Document>, textModel: Embedder, imageModel: Option<Embedder>): seq<Point>
  {
    if docs == [] then []
    else
      Points(docs[..|docs| - 1], textModel, imageModel)
        + match EmbedOne(docs[|docs| - 1], textModel, imageModel) case Some(p) => [p] case None => []
  }

  function Payloads(points: seq<Point>): (r: seq<Document>)
    ensures |r| == |points| && forall k :: 0 <= k < |r| ==> r[k] == points[k].payload
  {
    seq(|points|, k requires 0 <= k < |points| => points[k].payload)
  }

  /** The points carry the documents in document order, some left out: there are
      never more points than documents, and none is invented. */
  lemma {:induction false} PointsFollowDocuments(docs: seq<Document>, textModel: Embedder, imageModel: Option<Embedder>)
    ensures var ps := Points(docs, textModel, imageModel);
      |ps| <= |docs| && Subsequence(Payloads(ps), docs)
  {
    if docs != [] {
      var init := docs[..|docs| - 1];
      var d := docs[|docs| - 1];
      var a := Points(init, textModel, imageModel);
      PointsFollowDocuments(init, textModel, imageModel);
      var ps := Points(docs, textModel, imageModel);
      assert Payloads(a) == Payloads(ps)[..|a|];
      if EmbedOne(d, textModel, imageModel).Some? {
        assert Payloads(ps) == Payloads(a) + [d];
        assert Payloads(ps)[..|Payloads(ps)| - 1] == Payloads(a);
      } else {
        assert ps == a;
      }
    }
  }

  /** A document is kept exactly when its embedding succeeds: text and formula
      documents whenever the text model answers (even with an empty vector),
      image documents when the image model is loaded and answers with a
      non-empty vector. When every embedding succeeds no document is dropped. */
  lemma {:induction false} AllEmbeddedNoneDropped(docs: seq<Document>, textModel: Embedder, imageModel: Option<Embedder>)
    requires forall k :: 0 <= k < |docs| ==> EmbedOne(docs[k], textModel, imageModel).Some?
    ensures Payloads(Points(docs, textModel, imageModel)) == docs
  {
    if docs != [] {
      var init := docs[..|docs| - 1];
      AllEmbeddedNoneDropped(init, textModel, imageModel);
      var a := Points(init, textModel, imageModel);
      var ps := Points(docs, textModel, imageModel);
      assert Payloads(ps) == Payloads(a) + [docs[|docs| - 1]];
    }
  }

  /** What the text model answers is kept as it is, even an empty vector. */
  lemma TextDocumentKept(doc: Document, textModel: Embedder, imageModel: Option<Embedder>)
    requires !doc.kind.ImageDoc? && textModel(doc.content).Some?
    ensures EmbedOne(doc, textModel, imageModel) == Some(Point(textModel(doc.content).value, doc))
  {
  }

  /** An image document whose description embeds to the empty vector is dropped. */
  lemma EmptyImageVectorDropped(doc: Document, textModel: Embedder, imageModel: Option<Embedder>)
    requires doc.kind.ImageDoc? && imageModel.Some? && imageModel.value(ImageDescription(doc.content)) == Some([])
    ensures EmbedOne(doc, textModel, imageModel) == None
  {
  }

  // ---------------------------------------------------------------------------
  // The vector store

  class VectorStore {
    var points: seq<Point>
    /** Every successful upsert call, with the points it carried. */
    ghost var batches: seq<seq<Point>>

    constructor ()
      ensures points == [] && batches == []
    {
      points := [];
      batches := [];
    }

    method Upsert(ps: seq<Point>)
      modifies this
      ensures points == old(points) + ps
      ensures batches == old(batches) + [ps]
    {
      points := points + ps;
      batches := batches + [ps];
    }
  }

  // ---------------------------------------------------------------------------
  // One paper

  /** What the world answers for one paper path. The three errors are the
      messages of the exceptions, if any, raised by opening the file as a PDF,
      by creating the text directories or writing the page and chunk files,
      and by writing images_metadata.json. */
  datatype PaperWorld = PaperWorld(
    pathExists: bool,
    openError: Option<string>,
    textFilesError: Option<string>,
    metadataWriteError: Option<string>,
    pdf: Pdf,
    matches: seq<seq<string>>,
    tesseractFound: bool,
    onDisk: set<string>,
    upsertError: Option<string>)

  /** Everything a run depends on besides the sheet: the world per paper path,
      the text splitter's configuration and the embedding models (the image
      model is absent when it failed to load). */
  datatype Env = Env(
    world: string -> PaperWorld,
    chunkSize: nat,
    chunkOverlap: nat,
    textModel: Embedder,
    imageModel: Option<Embedder>)

  predicate ValidEnv(env: Env)
  {
    env.chunkOverlap < env.chunkSize
  }

  /** The counts a successful ingestion reports, and the points it stored. */
  datatype Ingested = Ingested(formulaCount: nat, chunkCount: nat, imageCount: nat, points: seq<Point>)

  const InProgress: string := "In Progress"
  const Completed: string := "Completed"
  const Failed: string := "Failed"

  function VisualsDir(sanitizedTitle: string): string
  {
    PathJoin(PathJoin("results", sanitizedTitle), "visuals")
  }

  /** The visuals directory of a paper is results/<sanitised title>/visuals,
      or results/visuals for a title that sanitises to nothing. */
  lemma VisualsDirOfTitle(title: string)
    ensures var t := SanitizeTitle(title);
      VisualsDir(t) == if t == [] then "results/visuals" else "results/" + t + "/visuals"
  {
    var t := SanitizeTitle(title);
    if t != [] {
      assert DirNameChar(t[|t| - 1]);
    }
    VisualsDirOfName(t);
  }

  lemma VisualsDirOfName(t: string)
    requires t == [] || t[|t| - 1] != '/'
    ensures VisualsDir(t) == if t == [] then "results/visuals" else "results/" + t + "/visuals"
  {
    if t != [] {
      var r := PathJoin("results", t);
      assert r == "results/" + t;
      assert r[|r| - 1] == t[|t| - 1];
    }
  }

  /** What the extraction steps of one paper yield: the formulas, the
      page-wise chunks and the saved images, or the message of the first
      exception. */
  datatype Extraction = Extraction(formulas: seq<Formula>, chunks: seq<string>, visuals: seq<Visual>)

  function Extracted(row: Row, env: Env): Result<Extraction>
    requires ValidEnv(env)
  {
    var world := env.world(row.paperPath);
    if !world.pathExists then Err("PDF file not found at " + row.paperPath)
    else if world.openError.Some? then Err(world.openError.value)
    else if world.textFilesError.Some? then Err(world.textFilesError.value)
    else if world.pdf.pages == [] then Err(UnboundPageNum)
    else
      match Visuals(VisualsDir(SanitizeTitle(row.paperTitle)), world.pdf.images)
      case Err(e) => Err(e)
      case Ok(visuals) =>
        if world.metadataWriteError.Some? then Err(world.metadataWriteError.value)
        else Ok(Extraction(
          Formulas(world.matches, world.pdf.images, MinFormulaCount, true, world.tesseractFound),
          PageWiseChunks(world.pdf.pages, env.chunkSize, env.chunkOverlap),
          visuals))
  }

  /** What storing an extraction comes to: the documents are embedded and the
      points upserted, unless there are none. */
  function Stored(x: Extraction, onDisk: set<string>, upsertError: Option<string>, meta: Metadata, textModel: Embedder, imageModel: Option<Embedder>): Result<Ingested>
  {
    var docs := Documents(x.chunks, x.formulas, x.visuals, imageModel.Some?, onDisk, meta);
    var points := Points(docs, textModel, imageModel);
    if points != [] && upsertError.Some? then Err(upsertError.value)
    else Ok(Ingested(|x.formulas|, |x.chunks|, |x.visuals|, points))
  }

  /** What processing one paper comes to: the message of the first exception, or
      the counts and the points upserted. */
  function Outcome(row: Row, env: Env): Result<Ingested>
    requires ValidEnv(env)
  {
    match Extracted(row, env)
    case Err(e) => Err(e)
    case Ok(x) =>
      var world := env.world(row.paperPath);
      Stored(x, world.onDisk, world.upsertError, MetadataOf(row), env.textModel, env.imageModel)
  }

  function SuccessNote(r: Ingested): string
  {
    "Ingestion successful. Extracted " + Decimal(r.formulaCount) + " formulas, "
      + Decimal(r.chunkCount) + " text chunks, " + Decimal(r.imageCount) + " images."
  }

  /** The final value of one of a paper's cells: both statuses "Completed" and
      the note with the counts, or both "Failed" and the exception message. */
  function FinalCell(outcome: Result<Ingested>, column: Column): string
  {
    match column
    case Notes => if outcome.Ok? then SuccessNote(outcome.value) else outcome.message
    case _ => if outcome.Ok? then Completed else Failed
  }

  /** The writes one paper makes to its row: both statuses "In Progress", then
      the final statuses and the note. */
  function StatusWrites(sheetRow: nat, outcome: Result<Ingested>): (ws: seq<Write>)
    ensures |ws| == 5 && forall k :: 0 <= k < |ws| ==> ws[k].row == sheetRow
  {
    StartWrites(sheetRow) + FinalWrites(sheetRow, outcome)
  }

  function StartWrites(sheetRow: nat): seq<Write>
  {
    [Write(sheetRow, IngestionStatus, InProgress), Write(sheetRow, ExtractionStatus, InProgress)]
  }

  function FinalWrites(sheetRow: nat, outcome: Result<Ingested>): seq<Write>
  {
    [Write(sheetRow, IngestionStatus, FinalCell(outcome, IngestionStatus)),
     Write(sheetRow, ExtractionStatus, FinalCell(outcome, ExtractionStatus)),
     Write(sheetRow, Notes, FinalCell(outcome, Notes))]
  }

  lemma ApplyStatusWrites(cells: Cells, sheetRow: nat, outcome: Result<Ingested>)
    ensures Apply(cells, StatusWrites(sheetRow, outcome))
         == cells[(sheetRow, IngestionStatus) := InProgress][(sheetRow, ExtractionStatus) := InProgress]
                 [(sheetRow, IngestionStatus) := FinalCell(outcome, IngestionStatus)]
                 [(sheetRow, ExtractionStatus) := FinalCell(outcome, ExtractionStatus)]
                 [(sheetRow, Notes) := FinalCell(outcome, Notes)]
  {
    var ws := StatusWrites(sheetRow, outcome);
    var c1 := cells[(sheetRow, IngestionStatus) := InProgress];
    var c2 := c1[(sheetRow, ExtractionStatus) := InProgress];
    var c3 := c2[(sheetRow, IngestionStatus) := FinalCell(outcome, IngestionStatus)];
    var c4 := c3[(sheetRow, ExtractionStatus) := FinalCell(outcome, ExtractionStatus)];
    assert ws[..1][..0] == [];
    assert Apply(cells, ws[..1]) == c1;
    assert ws[..2][..1] == ws[..1];
    assert Apply(cells, ws[..2]) == c2;
    assert ws[..3][..2] == ws[..2];
    assert Apply(cells, ws[..3]) == c3;
    assert ws[..4][..3] == ws[..3];
    assert Apply(cells, ws[..4]) == c4;
    assert ws[..4] == ws[..|ws| - 1];
  }

  /** The status protocol: after one paper's writes, its row holds the final
      statuses and note of its outcome (the "In Progress" values are
      overwritten), and the cells of every other row are as they were. */
  lemma StatusProtocol(cells: Cells, sheetRow: nat, outcome: Result<Ingested>, r: nat, col: Column)
    ensures var c := Apply(cells, StatusWrites(sheetRow, outcome));
      && (r == sheetRow ==> (r, col) in c && c[(r, col)] == FinalCell(outcome, col))
      && (r != sheetRow ==> ((r, col) in c <==> (r, col) in cells) && ((r, col) in cells ==> c[(r, col)] == cells[(r, col)]))
  {
    ApplyStatusWrites(cells, sheetRow, outcome);
  }

  /** A successful ingestion reports the number of page-wise chunks and of
      formulas, and stores at most one point per document; a missing file fails
      with its message. */
  lemma OutcomeCounts(row: Row, env: Env)
    requires ValidEnv(env)
    ensures var o := Outcome(row, env);
      var world := env.world(row.paperPath);
      && (o.Ok? ==>
            && world.pathExists && world.pdf.pages != []
            && world.openError.None? && world.textFilesError.None? && world.metadataWriteError.None?
            && o.value.chunkCount == |PageWiseChunks(world.pdf.pages, env.chunkSize, env.chunkOverlap)|
            && o.value.formulaCount == |Formulas(world.matches, world.pdf.images, MinFormulaCount, true, world.tesseractFound)|
            && |o.value.points| <= o.value.chunkCount + o.value.formulaCount + o.value.imageCount)
      && (!world.pathExists ==> o == Err("PDF file not found at " + row.paperPath))
  {
    var world := env.world(row.paperPath);
    var e := Extracted(row, env);
    if e.Ok? {
      var x := e.value;
      var docs := Documents(x.chunks, x.formulas, x.visuals, env.imageModel.Some?, world.onDisk, MetadataOf(row));
      PointsFollowDocuments(docs, env.textModel, env.imageModel);
      ImageDocsCount(x.visuals, world.onDisk, MetadataOf(row));
    }
  }

  /** The text documents, the formula documents and the image documents, built
      one by one. */
  method AssembleDocuments(chunks: seq<string>, formulas: seq<Formula>, visuals: seq<Visual>, imageModelLoaded: bool, onDisk: set<string>, meta: Metadata)
    returns (documents: seq<Document>)
    ensures documents == Documents(chunks, formulas, visuals, imageModelLoaded, onDisk, meta)
  {
    documents := [];
    for i := 0 to |chunks|
      invariant documents == TextDocs(chunks[..i], meta)
    {
      documents := documents + [Document(TextDoc, chunks[i], meta)];
    }
    assert chunks[..|chunks|] == chunks;
    ghost var textDocs := documents;
    for i := 0 to |formulas|
      invariant documents == textDocs + FormulaDocs(formulas[..i], meta)
    {
      documents := documents + [Document(FormulaDoc, formulas[i].content, meta)];
    }
    assert formulas[..|formulas|] == formulas;
    if imageModelLoaded && visuals != [] {
      documents := AddImageDocuments(documents, visuals, onDisk, meta);
    }
  }

  method AddImageDocuments(documents: seq<Document>, visuals: seq<Visual>, onDisk: set<string>, meta: Metadata)
    returns (r: seq<Document>)
    ensures r == documents + ImageDocs(visuals, onDisk, meta)
  {
    r := documents;
    for i := 0 to |visuals|
      invariant r == documents + ImageDocs(visuals[..i], onDisk, meta)
    {
      assert visuals[..i + 1][..i] == visuals[..i];
      var v := visuals[i];
      if v.path in onDisk {
        r := r + [Document(ImageDoc(v.page, v.caption), v.path, meta)];
      }
    }
    assert visuals[..|visuals|] == visuals;
  }

  /** embed_image: the image model applied to the file's description; any
      failure of the model is None. */
  function EmbedImage(imagePath: string, model: Embedder): Option<seq<real>>
  {
    model(ImageDescription(imagePath))
  }

  /** The description of an image file that extract_visuals saved names that
      file's page and image numbers, whatever the directory. */
  lemma ImageDescriptionOfFile(dir: string, pageNo: nat, imgNo: nat)
    ensures ImageDescription(PathJoin(dir, ImageFileName(pageNo, imgNo)))
      == "Figure or image from research paper: page" + Decimal(pageNo) + "_img" + Decimal(imgNo) + ".png"
  {
    BasenameOfJoin(dir, ImageFileName(pageNo, imgNo));
  }

  /** embed_image sees only the file name: the same image file embeds the same
      way from any directory. */
  lemma EmbedImageIgnoresDirectory(dir1: string, dir2: string, pageNo: nat, imgNo: nat, model: Embedder)
    ensures EmbedImage(PathJoin(dir1, ImageFileName(pageNo, imgNo)), model)
         == EmbedImage(PathJoin(dir2, ImageFileName(pageNo, imgNo)), model)
  {
    ImageDescriptionOfFile(dir1, pageNo, imgNo);
    ImageDescriptionOfFile(dir2, pageNo, imgNo);
  }

  /** The embedding loop: one point per document that embeds. */
  method EmbedDocuments(documents: seq<Document>, textModel: Embedder, imageModel: Option<Embedder>)
    returns (points: seq<Point>)
    ensures points == Points(documents, textModel, imageModel)
  {
    points := [];
    for i := 0 to |documents|
      invariant points == Points(documents[..i], textModel, imageModel)
    {
      assert documents[..i + 1][..i] == documents[..i];
      var doc := documents[i];
      if doc.kind.ImageDoc? {
        if imageModel.Some? {
          var vector := EmbedImage(doc.content, imageModel.value);
          if vector.Some? && vector.value != [] {
            points := points + [Point(vector.value, doc)];
          }
        }
      } else {
        var vector := textModel(doc.content);
        if vector.Some? {
          points := points + [Point(vector.value, doc)];
        }
      }
    }
    assert documents[..|documents|] == documents;
  }

  /** The body of the loop over pending papers: the status writes and the upsert
      one paper makes. */
  method IngestPaper(index: nat, row: Row, env: Env, sheet: StatusSheet, store: VectorStore)
    returns (outcome: Result<Ingested>)
    requires ValidEnv(env) && sheet.Valid()
    modifies sheet, store
    ensures outcome == Outcome(row, env)
    ensures sheet.Valid() && sheet.writes == old(sheet.writes) + StatusWrites(SheetRow(index), outcome)
    ensures store.points == old(store.points) + StoredPoints(outcome)
    ensures store.batches == old(store.batches) + Batch(outcome)
  {
    MarkInProgress(sheet, SheetRow(index));
    outcome := ProcessOnePaper(row, env, store);
    RecordOutcome(sheet, SheetRow(index), outcome);
    ConcatAssoc(old(sheet.writes), StartWrites(SheetRow(index)), FinalWrites(SheetRow(index), outcome));
  }

  /** The two "In Progress" writes at the start of the try block. */
  method MarkInProgress(sheet: StatusSheet, sheetRow: nat)
    requires sheet.Valid()
    modifies sheet
    ensures sheet.Valid() && sheet.writes == old(sheet.writes) + StartWrites(sheetRow)
  {
    sheet.UpdateStatus(sheetRow, IngestionStatus, InProgress);
    sheet.UpdateStatus(sheetRow, ExtractionStatus, InProgress);
  }

  /** The three writes at the end of the try block, or those of the except block. */
  method RecordOutcome(sheet: StatusSheet, sheetRow: nat, outcome: Result<Ingested>)
    requires sheet.Valid()
    modifies sheet
    ensures sheet.Valid() && sheet.writes == old(sheet.writes) + FinalWrites(sheetRow, outcome)
  {
    match outcome {
      case Ok(r) =>
        sheet.UpdateStatus(sheetRow, IngestionStatus, Completed);
        sheet.UpdateStatus(sheetRow, ExtractionStatus, Completed);
        sheet.UpdateStatus(sheetRow, Notes, SuccessNote(r));
      case Err(e) =>
        sheet.UpdateStatus(sheetRow, IngestionStatus, Failed);
        sheet.UpdateStatus(sheetRow, ExtractionStatus, Failed);
        sheet.UpdateStatus(sheetRow, Notes, e);
    }
  }

  /** The body of the try block after the "In Progress" writes. */
  method ProcessOnePaper(row: Row, env: Env, store: VectorStore) returns (outcome: Result<Ingested>)
    requires ValidEnv(env)
    modifies store
    ensures outcome == Outcome(row, env)
    ensures store.points == old(store.points) + StoredPoints(outcome)
    ensures store.batches == old(store.batches) + Batch(outcome)
  {
    var extracted := ExtractPaper(row, env);
    if extracted.Err? {
      return Err(extracted.message);
    }
    var world := env.world(row.paperPath);
    outcome := StorePaper(extracted.value, world.onDisk, world.upsertError, MetadataOf(row), env.textModel, env.imageModel, store);
  }

  /** Text and formula extraction, the page-wise chunks and the visuals. */
  method ExtractPaper(row: Row, env: Env) returns (result: Result<Extraction>)
    requires ValidEnv(env)
    ensures result == Extracted(row, env)
  {
    var world := env.world(row.paperPath);
    var processor := new ResearchPaperProcessor(world.tesseractFound);
    var processed := processor.ProcessPaper(row.paperPath, world.pathExists, world.openError, world.pdf, world.matches);
    if processed.Err? {
      return Err(processed.message);
    }
    var textChunks := SaveProcessedTextPageWise(world.pdf.pages, env.chunkSize, env.chunkOverlap, world.textFilesError);
    if textChunks.Err? {
      return Err(textChunks.message);
    }
    var imagesMetadata := processor.ExtractVisuals(VisualsDir(SanitizeTitle(row.paperTitle)), world.pdf.images);
    if imagesMetadata.Err? {
      return Err(imagesMetadata.message);
    }
    if world.metadataWriteError.Some? {
      return Err(world.metadataWriteError.value);
    }
    result := Ok(Extraction(processed.value.1, textChunks.value, imagesMetadata.value));
  }

  /** Document assembly, the embedding loop and the upsert. */
  method StorePaper(x: Extraction, onDisk: set<string>, upsertError: Option<string>, meta: Metadata, textModel: Embedder, imageModel: Option<Embedder>, store: VectorStore)
    returns (outcome: Result<Ingested>)
    modifies store
    ensures outcome == Stored(x, onDisk, upsertError, meta, textModel, imageModel)
    ensures store.points == old(store.points) + StoredPoints(outcome)
    ensures store.batches == old(store.batches) + Batch(outcome)
  {
    var documents := AssembleDocuments(x.chunks, x.formulas, x.visuals, imageModel.Some?, onDisk, meta);
    var points := EmbedDocuments(documents, textModel, imageModel);
    if points != [] {
      if upsertError.Some? {
        return Err(upsertError.value);
      }
      store.Upsert(points);
    } else {
      assert old(store.points) + [] == old(store.points);
    }
    outcome := Ok(Ingested(|x.formulas|, |x.chunks|, |x.visuals|, points));
  }

  /** The points a paper adds to the store: those of a successful ingestion. */
  function StoredPoints(outcome: Result<Ingested>): seq<Point>
  {
    if outcome.Ok? then outcome.value.points else []
  }

  /** The upsert calls a paper makes: one, unless it failed or had no points. */
  function Batch(outcome: Result<Ingested>): seq<seq<Point>>
  {
    if outcome.Ok? && outcome.value.points != [] then [outcome.value.points] else []
  }

  // ---------------------------------------------------------------------------
  // The pipeline

  /** The value config.json ships with, which stops the pipeline at once. */
  const SheetNamePlaceholder: string := "YOUR_GOOGLE_SHEET_NAME"

  /** The writes of the given papers, in order. */
  function AllWrites(papers: seq<(nat, Row)>, env: Env): seq<Write>
    requires ValidEnv(env)
  {
    if papers == [] then []
    else
      var (index, row) := papers[|papers| - 1];
      AllWrites(papers[..|papers| - 1], env) + StatusWrites(SheetRow(index), Outcome(row, env))
  }

  /** The points the given papers store, in order. */
  function AllPoints(papers: seq<(nat, Row)>, env: Env): seq<Point>
    requires ValidEnv(env)
  {
    if papers == [] then []
    else AllPoints(papers[..|papers| - 1], env) + StoredPoints(Outcome(papers[|papers| - 1].1, env))
  }

  /** The upsert calls of the given papers, in order. */
  function AllBatches(papers: seq<(nat, Row)>, env: Env): seq<seq<Point>>
    requires ValidEnv(env)
  {
    if papers == [] then []
    else AllBatches(papers[..|papers| - 1], env) + Batch(Outcome(papers[|papers| - 1].1, env))
  }

  lemma AllStep(papers: seq<(nat, Row)>, env: Env, k: nat)
    requires ValidEnv(env) && k < |papers|
    ensures var o := Outcome(papers[k].1, env);
      && AllWrites(papers[..k + 1], env) == AllWrites(papers[..k], env) + StatusWrites(SheetRow(papers[k].0), o)
      && AllPoints(papers[..k + 1], env) == AllPoints(papers[..k], env) + StoredPoints(o)
      && AllBatches(papers[..k + 1], env) == AllBatches(papers[..k], env) + Batch(o)
  {
    assert papers[..k + 1][..k] == papers[..k];
  }

  lemma AllWhole(papers: seq<(nat, Row)>, env: Env)
    requires ValidEnv(env)
    ensures && AllWrites(papers[..|papers|], env) == AllWrites(papers, env)
            && AllPoints(papers[..|papers|], env) == AllPoints(papers, env)
            && AllBatches(papers[..|papers|], env) == AllBatches(papers, env)
  {
    assert papers[..|papers|] == papers;
  }

  /** Each upsert call carries a non-empty batch, and the batches one after the
      other are exactly the points stored. */
  lemma {:induction false} BatchesArePoints(papers: seq<(nat, Row)>, env: Env)
    requires ValidEnv(env)
    ensures Flatten(AllBatches(papers, env)) == AllPoints(papers, env)
    ensures forall k :: 0 <= k < |AllBatches(papers, env)| ==> AllBatches(papers, env)[k] != []
  {
    if papers != [] {
      var init := papers[..|papers| - 1];
      BatchesArePoints(init, env);
      var o := Outcome(papers[|papers| - 1].1, env);
      var a := AllBatches(init, env);
      if Batch(o) == [] {
        assert a + Batch(o) == a;
      } else {
        assert (a + Batch(o))[..|a|] == a;
      }
    }
  }

  lemma ConcatAssoc<T>(a: seq<T>, b: seq<T>, c: seq<T>)
    ensures a + b + c == a + (b + c)
  {
  }

  /** Whether the pipeline gets as far as its loop. */
  predicate Runs(sheetName: string, clientsReady: bool)
  {
    sheetName != SheetNamePlaceholder && clientsReady
  }

  /** ingest_pipeline: with the sheet name configured and the clients ready,
      every pending row is processed in sheet order; otherwise nothing is
      written and nothing is stored. */
  method IngestPipeline(sheetName: string, clientsReady: bool, rows: seq<Row>, env: Env, sheet: StatusSheet, store: VectorStore)
    requires ValidEnv(env) && sheet.Valid()
    modifies sheet, store
    ensures sheet.Valid()
    ensures var written := if Runs(sheetName, clientsReady) then AllWrites(PendingRows(rows), env) else [];
      sheet.writes == old(sheet.writes) + written && sheet.cells == Apply(old(sheet.cells), written)
    ensures var stored := if Runs(sheetName, clientsReady) then AllPoints(PendingRows(rows), env) else [];
      store.points == old(store.points) + stored
    ensures var calls := if Runs(sheetName, clientsReady) then AllBatches(PendingRows(rows), env) else [];
      store.batches == old(store.batches) + calls
  {
    if sheetName == SheetNamePlaceholder || !clientsReady {
      return;
    }
    var papersToProcess := PendingRows(rows);
    if papersToProcess == [] {
      return;
    }
    IngestPapers(papersToProcess, env, sheet, store);
    ApplyConcat(sheet.initial, old(sheet.writes), AllWrites(papersToProcess, env));
  }

  /** The loop over the papers to process. */
  method IngestPapers(papersToProcess: seq<(nat, Row)>, env: Env, sheet: StatusSheet, store: VectorStore)
    requires ValidEnv(env) && sheet.Valid()
    modifies sheet, store
    ensures sheet.Valid() && sheet.writes == old(sheet.writes) + AllWrites(papersToProcess, env)
    ensures store.points == old(store.points) + AllPoints(papersToProcess, env)
    ensures store.batches == old(store.batches) + AllBatches(papersToProcess, env)
  {
    for k := 0 to |papersToProcess|
      invariant sheet.Valid()
      invariant sheet.writes == old(sheet.writes) + AllWrites(papersToProcess[..k], env)
      invariant store.points == old(store.points) + AllPoints(papersToProcess[..k], env)
      invariant store.batches == old(store.batches) + AllBatches(papersToProcess[..k], env)
    {
      var (index, paperRow) := papersToProcess[k];
      AllStep(papersToProcess, env, k);
      ghost var o := Outcome(paperRow, env);
      ConcatAssoc(old(sheet.writes), AllWrites(papersToProcess[..k], env), StatusWrites(SheetRow(index), o));
      ConcatAssoc(old(store.points), AllPoints(papersToProcess[..k], env), StoredPoints(o));
      ConcatAssoc(old(store.batches), AllBatches(papersToProcess[..k], env), Batch(o));
      var _ := IngestPaper(index, paperRow, env, sheet, store);
    }
    AllWhole(papersToProcess, env);
  }

  /** A write of the given papers goes to the sheet row of one of them. */
  lemma {:induction false} AllWritesRows(papers: seq<(nat, Row)>, env: Env, w: Write)
    requires ValidEnv(env)
    requires w in AllWrites(papers, env)
    ensures exists k :: 0 <= k < |papers| && w.row == SheetRow(papers[k].0)
  {
    var init := papers[..|papers| - 1];
    if w in AllWrites(init, env) {
      AllWritesRows(init, env, w);
      var k :| 0 <= k < |init| && w.row == SheetRow(init[k].0);
      assert papers[k] == init[k];
    } else {
      assert w.row == SheetRow(papers[|papers| - 1].0);
    }
  }

  /** The cells of a row that none of the given papers owns are left alone. */
  lemma {:induction false} AllWritesUntouched(cells: Cells, papers: seq<(nat, Row)>, env: Env, r: nat, col: Column)
    requires ValidEnv(env)
    requires forall j :: 0 <= j < |papers| ==> SheetRow(papers[j].0) != r
    ensures var c := Apply(cells, AllWrites(papers, env));
      ((r, col) in c <==> (r, col) in cells) && ((r, col) in cells ==> c[(r, col)] == cells[(r, col)])
  {
    if papers != [] {
      var init := papers[..|papers| - 1];
      var (index, row) := papers[|papers| - 1];
      AllWritesUntouched(cells, init, env, r, col);
      ApplyConcat(cells, AllWrites(init, env), StatusWrites(SheetRow(index), Outcome(row, env)));
      StatusProtocol(Apply(cells, AllWrites(init, env)), SheetRow(index), Outcome(row, env), r, col);
    }
  }

  /** Each of the given papers, all at distinct indices, ends with the cells of
      its own outcome. */
  lemma {:induction false} AllWritesFinal(cells: Cells, papers: seq<(nat, Row)>, env: Env, k: nat, col: Column)
    requires ValidEnv(env)
    requires forall a, b :: 0 <= a < b < |papers| ==> papers[a].0 != papers[b].0
    requires k < |papers|
    ensures var c := Apply(cells, AllWrites(papers, env));
      (SheetRow(papers[k].0), col) in c && c[(SheetRow(papers[k].0), col)] == FinalCell(Outcome(papers[k].1, env), col)
  {
    var init := papers[..|papers| - 1];
    var (index, row) := papers[|papers| - 1];
    ApplyConcat(cells, AllWrites(init, env), StatusWrites(SheetRow(index), Outcome(row, env)));
    StatusProtocol(Apply(cells, AllWrites(init, env)), SheetRow(index), Outcome(row, env), SheetRow(papers[k].0), col);
    if k < |papers| - 1 {
      AllWritesFinal(cells, init, env, k, col);
      assert init[k] == papers[k];
    }
  }

  /** After a run, every row of the sheet that was pending holds the statuses and
      the note of its own outcome — both "Completed" with the counts, or both
      "Failed" with the message — and every other row is exactly as it was. */
  lemma PipelineFinalSheet(cells: Cells, rows: seq<Row>, env: Env, i: nat, col: Column)
    requires ValidEnv(env)
    requires i < |rows|
    ensures var c := Apply(cells, AllWrites(PendingRows(rows), env));
      && (Pending(rows[i]) ==>
            (SheetRow(i), col) in c && c[(SheetRow(i), col)] == FinalCell(Outcome(rows[i], env), col))
      && (!Pending(rows[i]) ==>
            ((SheetRow(i), col) in c <==> (SheetRow(i), col) in cells)
            && ((SheetRow(i), col) in cells ==> c[(SheetRow(i), col)] == cells[(SheetRow(i), col)]))
  {
    var pending := PendingRows(rows);
    PendingRowsExact(rows, i);
    PendingRowsIncreasing(rows);
    if Pending(rows[i]) {
      var k :| 0 <= k < |pending| && pending[k] == (i, rows[i]);
      AllWritesFinal(cells, pending, env, k, col);
    } else {
      AllWritesUntouched(cells, pending, env, SheetRow(i), col);
    }
  }

  /** A run writes only to rows of pending papers, never to the header row. */
  lemma {:induction false} PipelineWritesPendingRows(rows: seq<Row>, env: Env, w: Write)
    requires ValidEnv(env)
    requires w in AllWrites(PendingRows(rows), env)
    ensures w.row >= 2 && w.row - 2 < |rows| && Pending(rows[w.row - 2])
  {
    var papers := PendingRows(rows);
    AllWritesRows(papers, env, w);
    var k :| 0 <= k < |papers| && w.row == SheetRow(papers[k].0);
  }
}
