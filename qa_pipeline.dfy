/**
  The driver of question generation (qa_generator/qa_pipeline.py): the
  metadata derived from a paper's directory name, the loading of processed
  papers from the results directory, the per-paper result record and the
  run summary.

  The file system is an input: the entries of the results directory in the
  order os.listdir gives them, each with whether it is a directory and the
  listing of its processed_text/chunks directory, and `read`, the contents
  of a file by path (None when opening or decoding it raises).
*/
module QaPipeline {
  import opened Strings
  import opened Questions

  const ResultsDir := "results"
  const UnknownYear := "Unknown"
  const UnknownAuthors := "Unknown"
  const SourceTag := "processed_paper"
  /** The "source" key of the metadata, which no question field shares. */
  const SourceKey: Key := Unknown("source")

  // ---------------------------------------------------------------------------
  // Publication year

  predicate FourDigitsAt(s: string, i: nat)
  {
    i + 4 <= |s| && AllDigits(s[i..i + 4])
  }

  /** The group `\(?(\d{4})\)?` captures when its match starts at p: the
      opening parenthesis is taken when four digits follow it, and the
      optional closing one never changes the group. */
  function MatchAt(s: string, p: nat): Option<string>
  {
    if p < |s| && s[p] == '(' && FourDigitsAt(s, p + 1) then Some(s[p + 1..p + 5])
    else if FourDigitsAt(s, p) then Some(s[p..p + 4])
    else None
  }

  /** A match at p captures four digits, and exists exactly when four digits
      start at p or right after an opening parenthesis at p. */
  lemma MatchAtCaptures(s: string, p: nat)
    ensures MatchAt(s, p).Some? <==> (FourDigitsAt(s, p) || (p < |s| && s[p] == '(' && FourDigitsAt(s, p + 1)))
    ensures MatchAt(s, p).Some? ==> |MatchAt(s, p).value| == 4 && AllDigits(MatchAt(s, p).value)
  {
  }

  /** re.search from position p: the group of the first position that matches. */
  function SearchFrom(s: string, p: nat): Option<string>
    decreases |s| + 1 - p
  {
    if p > |s| then None
    else
      match MatchAt(s, p)
      case Some(g) => Some(g)
      case None => SearchFrom(s, p + 1)
  }

  /** The year of get_paper_metadata: the captured group, or "Unknown". */
  function ExtractYear(title: string): string
  {
    match SearchFrom(title, 0)
    case Some(g) => g
    case None => UnknownYear
  }

  /** The search from p finds the first run of four digits at or after p. */
  lemma {:induction false} SearchFromFirstRun(s: string, p: nat) returns (j: int)
    ensures j == -1 <==> SearchFrom(s, p).None?
    ensures j == -1 ==> forall k: nat :: p <= k ==> !FourDigitsAt(s, k)
    ensures j != -1 ==> p <= j && FourDigitsAt(s, j) && SearchFrom(s, p) == Some(s[j..j + 4])
    ensures j != -1 ==> forall k: nat :: p <= k < j ==> !FourDigitsAt(s, k)
    decreases |s| + 1 - p
  {
    if p > |s| {
      j := -1;
    } else if p < |s| && s[p] == '(' && FourDigitsAt(s, p + 1) {
      assert !IsDigit(s[p..p + 4][0]);
      j := p + 1;
    } else if FourDigitsAt(s, p) {
      j := p;
    } else {
      j := SearchFromFirstRun(s, p + 1);
    }
  }

  /** The year is the first run of four digits in the title, whether or not
      parentheses surround it, and "Unknown" when the title has none. */
  lemma YearIsFirstRun(title: string) returns (j: int)
    ensures j == -1 ==> ExtractYear(title) == UnknownYear && forall k: nat :: !FourDigitsAt(title, k)
    ensures j != -1 ==> 0 <= j && FourDigitsAt(title, j) && ExtractYear(title) == title[j..j + 4]
    ensures j != -1 ==> forall k: nat :: k < j ==> !FourDigitsAt(title, k)
  {
    j := SearchFromFirstRun(title, 0);
  }

  // ---------------------------------------------------------------------------
  // Metadata

  /** get_paper_metadata: the title, placeholder authors, the year and the
      source tag. */
  function PaperMetadata(title: string): (meta: map<Key, string>)
    ensures meta.Keys == {PaperTitle, Authors, PublicationYear, SourceKey}
    ensures meta[PaperTitle] == title && meta[Authors] == UnknownAuthors
    ensures meta[PublicationYear] == ExtractYear(title) && meta[SourceKey] == SourceTag
  {
    map[PaperTitle := title, Authors := UnknownAuthors, PublicationYear := ExtractYear(title), SourceKey := SourceTag]
  }

  /** A question stamped with a paper's metadata carries its title, the
      placeholder authors and the year found in the title. */
  lemma MetadataStampsQuestion(q: Record, title: string, i: nat, timestamp: string)
    ensures var r := WithPaperFields(q, PaperMetadata(title), i, timestamp);
      && PaperTitle in r && r[PaperTitle] == Str(title)
      && Authors in r && r[Authors] == Str(UnknownAuthors)
      && PublicationYear in r && r[PublicationYear] == Str(ExtractYear(title))
  {
    var meta := PaperMetadata(title);
    assert PaperTitle in meta && Authors in meta && PublicationYear in meta;
    var r := WithPaperFields(q, meta, i, timestamp);
    assert r[Authors] == Str(meta[Authors]) && r[PublicationYear] == Str(meta[PublicationYear]);
  }

  /** Every question generated for a paper carries the paper's title,
      authors and year. */
  lemma QuestionsCarryMetadata(gen: QuestionGenerator, title: string, chunks: seq<string>, d: seq<Slot>, backend: Backend, k: nat)
    requires chunks != [] && d != []
    requires k < |gen.QuestionsForPaper(PaperMetadata(title), chunks, d, backend).value|
    ensures var q := gen.QuestionsForPaper(PaperMetadata(title), chunks, d, backend).value[k];
      && PaperTitle in q && q[PaperTitle] == Str(title)
      && Authors in q && q[Authors] == Str(UnknownAuthors)
      && PublicationYear in q && q[PublicationYear] == Str(ExtractYear(title))
  {
    var meta := PaperMetadata(title);
    var from := gen.QuestionsOrigin(meta, chunks, d, backend);
    var i := from[k];
    var g := gen.GenerateQuestion(chunks[i % |chunks|], d[i], backend.answer(i), backend.parse);
    MetadataStampsQuestion(g.value, title, i, backend.clock(i));
  }

  // ---------------------------------------------------------------------------
  // Loading processed papers

  /** A chunk as load_processed_papers keeps it: file name, stripped text, path. */
  datatype Chunk = Chunk(file: string, content: string, path: string)

  datatype Paper = Paper(paperTitle: string, chunks: seq<Chunk>, totalChunks: nat)

  /** What os.path.exists and os.listdir make of a directory: it does not
      exist, its names in listing order, or the message of the OSError that
      os.listdir raises on it (nothing in load_processed_papers catches it). */
  datatype Listing<+T> = Absent | Listed(items: seq<T>) | Unlistable(message: string)

  /** An entry of the results directory: its name, whether it is a
      directory, and the listing of its processed_text/chunks directory. */
  datatype Entry = Entry(name: string, isDir: bool, chunksListing: Listing<string>)

  function ChunksDir(name: string): string
  {
    PathJoin(PathJoin(PathJoin(ResultsDir, name), "processed_text"), "chunks")
  }

  /** The chunks directory of a directory entry (a name `os.listdir` returns:
      non-empty and without '/') is results/<name>/processed_text/chunks. */
  lemma ChunksDirOfEntry(name: string)
    requires name != [] && '/' !in name
    ensures ChunksDir(name) == "results/" + name + "/processed_text/chunks"
  {
    assert name[|name| - 1] in name;
    var r := PathJoin(ResultsDir, name);
    assert r == "results/" + name;
    assert r[|r| - 1] == name[|name| - 1];
    var q := PathJoin(r, "processed_text");
    assert q == "results/" + name + "/processed_text";
  }

  /** What one name of a chunks directory contributes: nothing unless it
      ends in ".txt", can be read and is not blank once stripped. */
  function ChunkOf(chunksDir: string, file: string, read: string -> Option<string>): Option<Chunk>
  {
    if !EndsWith(file, ".txt") then None
    else
      var path := PathJoin(chunksDir, file);
      match read(path)
      case None => None
      case Some(text) => if Strip(text) == [] then None else Some(Chunk(file, Strip(text), path))
  }

  function ChunkReads(chunksDir: string, files: seq<string>, read: string -> Option<string>): (asked: seq<Option<Chunk>>)
    ensures |asked| == |files|
    ensures forall i :: 0 <= i < |files| ==> asked[i] == ChunkOf(chunksDir, files[i], read)
  {
    seq(|files|, i requires 0 <= i < |files| => ChunkOf(chunksDir, files[i], read))
  }

  /** The chunks of one paper: its chunk files in sorted name order. */
  function PaperChunks(chunksDir: string, listing: seq<string>, read: string -> Option<string>): seq<Chunk>
  {
    Collect(ChunkReads(chunksDir, Sort(listing), read))
  }

  /** The paper an entry gives: only a directory with a chunks directory
      holding at least one usable chunk. */
  function PaperOf(e: Entry, read: string -> Option<string>): (p: Option<Paper>)
    ensures p.Some? ==> p.value.paperTitle == e.name && p.value.chunks != [] && p.value.totalChunks == |p.value.chunks|
  {
    if !e.isDir || !e.chunksListing.Listed? then None
    else
      var chunks := PaperChunks(ChunksDir(e.name), e.chunksListing.items, read);
      if chunks == [] then None else Some(Paper(e.name, chunks, |chunks|))
  }

  function PaperReads(entries: seq<Entry>, read: string -> Option<string>): (asked: seq<Option<Paper>>)
    ensures |asked| == |entries|
    ensures forall i :: 0 <= i < |entries| ==> asked[i] == PaperOf(entries[i], read)
  {
    seq(|entries|, i requires 0 <= i < |entries| => PaperOf(entries[i], read))
  }

  /** A directory entry whose chunks directory exists but cannot be listed. */
  predicate ListingFails(e: Entry)
  {
    e.isDir && e.chunksListing.Unlistable?
  }

  /** The message of the first entry whose chunks listing raises, if any. */
  function FirstListingError(entries: seq<Entry>): Option<string>
  {
    if entries == [] then None
    else
      match FirstListingError(entries[..|entries| - 1])
      case Some(m) => Some(m)
      case None =>
        var e := entries[|entries| - 1];
        if ListingFails(e) then Some(e.chunksListing.message) else None
  }

  /** FirstListingError is None exactly when no chunks listing raises, and
      otherwise the message of the earliest entry whose listing raises. */
  lemma {:induction false} FirstListingErrorAt(entries: seq<Entry>) returns (i: nat)
    ensures FirstListingError(entries).None? ==> forall j :: 0 <= j < |entries| ==> !ListingFails(entries[j])
    ensures FirstListingError(entries).Some? ==>
      && i < |entries| && ListingFails(entries[i])
      && FirstListingError(entries).value == entries[i].chunksListing.message
      && forall j :: 0 <= j < i ==> !ListingFails(entries[j])
  {
    i := 0;
    if entries != [] {
      var init := entries[..|entries| - 1];
      var k := FirstListingErrorAt(init);
      assert forall j :: 0 <= j < |init| ==> init[j] == entries[j];
      if FirstListingError(init).Some? {
        i := k;
      } else {
        i := |entries| - 1;
      }
    }
  }

  /** An error in a prefix is the error of the whole listing. */
  lemma {:induction false} FirstListingErrorPrefix(entries: seq<Entry>, n: nat)
    requires n <= |entries| && FirstListingError(entries[..n]).Some?
    ensures FirstListingError(entries) == FirstListingError(entries[..n])
    decreases |entries|
  {
    if n == |entries| {
      assert entries[..n] == entries;
    } else {
      var init := entries[..|entries| - 1];
      assert init[..n] == entries[..n];
      FirstListingErrorPrefix(init, n);
    }
  }

  /** load_processed_papers: nothing without a results directory; the
      OSError of an unlistable results directory or of the first unlistable
      chunks directory; otherwise the papers of its entries in listing order. */
  function LoadedPapers(results: Listing<Entry>, read: string -> Option<string>): (r: Result<seq<Paper>>)
    ensures results.Absent? ==> r == Ok([])
    ensures results.Unlistable? ==> r == Err(results.message)
    ensures results.Listed? ==> (r.Err? <==> FirstListingError(results.items).Some?)
  {
    match results
    case Absent => Ok([])
    case Unlistable(m) => Err(m)
    case Listed(entries) =>
      match FirstListingError(entries)
      case Some(m) => Err(m)
      case None => Ok(Collect(PaperReads(entries, read)))
  }

  /** The loop over the sorted listing of one chunks directory. */
  method LoadChunks(chunksDir: string, listing: seq<string>, read: string -> Option<string>) returns (chunks: seq<Chunk>)
    ensures chunks == PaperChunks(chunksDir, listing, read)
  {
    var files := Sort(listing);
    ghost var asked := ChunkReads(chunksDir, files, read);
    chunks := [];
    for k := 0 to |files|
      invariant chunks == Collect(asked[..k])
    {
      CollectPrefix(asked, k);
      var chunkFile := files[k];
      if EndsWith(chunkFile, ".txt") {
        var chunkPath := PathJoin(chunksDir, chunkFile);
        var text := read(chunkPath);
        if text.Some? {
          var content := Strip(text.value);
          if content != [] {
            chunks := chunks + [Chunk(chunkFile, content, chunkPath)];
          }
        }
      }
    }
    assert asked[..|files|] == asked;
  }

  /** load_processed_papers, with the file system as input. */
  method LoadProcessedPapers(results: Listing<Entry>, read: string -> Option<string>) returns (r: Result<seq<Paper>>)
    ensures r == LoadedPapers(results, read)
  {
    if results.Absent? {
      return Ok([]);
    }
    if results.Unlistable? {
      return Err(results.message);
    }
    var entries := results.items;
    ghost var asked := PaperReads(entries, read);
    var papers := [];
    for i := 0 to |entries|
      invariant papers == Collect(asked[..i])
      invariant FirstListingError(entries[..i]).None?
    {
      CollectPrefix(asked, i);
      var entry := entries[i];
      assert entries[..i + 1][..i] == entries[..i];
      if entry.isDir {
        match entry.chunksListing
        case Unlistable(m) =>
          FirstListingErrorPrefix(entries, i + 1);
          return Err(m);
        case Listed(listing) =>
          var chunks := LoadChunks(ChunksDir(entry.name), listing, read);
          if chunks != [] {
            papers := papers + [Paper(entry.name, chunks, |chunks|)];
          }
        case Absent =>
      }
    }
    assert entries[..|entries|] == entries;
    assert asked[..|entries|] == asked;
    return Ok(papers);
  }

  /** The chunks of a paper are exactly its readable, non-blank ".txt"
      files, stripped, taken in sorted name order. */
  lemma ChunksOfPaper(chunksDir: string, listing: seq<string>, read: string -> Option<string>) returns (from: seq<nat>)
    ensures var files := Sort(listing); var cs := PaperChunks(chunksDir, listing, read);
      && |from| == |cs|
      && (forall k :: 0 <= k < |cs| ==>
            && from[k] < |files| && cs[k].file == files[from[k]]
            && EndsWith(cs[k].file, ".txt") && cs[k].path == PathJoin(chunksDir, cs[k].file)
            && read(cs[k].path).Some? && cs[k].content == Strip(read(cs[k].path).value) && cs[k].content != [])
      && (forall k, l :: 0 <= k < l < |cs| ==> from[k] < from[l])
      && (forall i :: (0 <= i < |files| && EndsWith(files[i], ".txt")
            && read(PathJoin(chunksDir, files[i])).Some? && Strip(read(PathJoin(chunksDir, files[i])).value) != []) ==> i in from)
  {
    var files := Sort(listing);
    var asked := ChunkReads(chunksDir, files, read);
    from := CollectOrigin(asked);
  }

  /** The chunk files of a paper come in non-decreasing name order. */
  lemma ChunkFilesSorted(chunksDir: string, listing: seq<string>, read: string -> Option<string>, k: nat, l: nat)
    requires k < l < |PaperChunks(chunksDir, listing, read)|
    ensures var cs := PaperChunks(chunksDir, listing, read);
      LexLe(cs[k].file, cs[l].file)
  {
    var from := ChunksOfPaper(chunksDir, listing, read);
    SortedPairs(Sort(listing), from[k], from[l]);
  }

  /** Every loaded paper is a directory entry with at least one chunk and a
      correct count; every directory entry whose chunks directory yields a
      chunk is loaded, in listing order. */
  lemma LoadedPapersOrigin(entries: seq<Entry>, read: string -> Option<string>) returns (from: seq<nat>)
    ensures LoadedPapers(Listed(entries), read).Ok? ==>
      var papers := LoadedPapers(Listed(entries), read).value;
      && |from| == |papers|
      && (forall k :: 0 <= k < |papers| ==>
            && from[k] < |entries| && entries[from[k]].isDir && entries[from[k]].chunksListing.Listed?
            && papers[k].paperTitle == entries[from[k]].name
            && papers[k].chunks == PaperChunks(ChunksDir(entries[from[k]].name), entries[from[k]].chunksListing.items, read)
            && papers[k].chunks != [] && papers[k].totalChunks == |papers[k].chunks|)
      && (forall k, l :: 0 <= k < l < |papers| ==> from[k] < from[l])
      && (forall i :: (0 <= i < |entries| && entries[i].isDir && entries[i].chunksListing.Listed?
            && PaperChunks(ChunksDir(entries[i].name), entries[i].chunksListing.items, read) != []) ==> i in from)
  {
    from := CollectOrigin(PaperReads(entries, read));
  }

  // ---------------------------------------------------------------------------
  // Results

  /** The record generate_qa_for_paper returns. */
  datatype QaResult = QaResult(paperTitle: string, totalQuestions: nat, jsonFile: string, sheetsSuccess: bool, questions: seq<Record>)

  /** The texts of a paper's chunks, in order. */
  function Contents(chunks: seq<Chunk>): (texts: seq<string>)
    ensures |texts| == |chunks|
    ensures forall i :: 0 <= i < |chunks| ==> texts[i] == chunks[i].content
  {
    seq(|chunks|, i requires 0 <= i < |chunks| => chunks[i].content)
  }

  /** What generate_qa_for_paper gives for a paper: None where it raises
      (a paper without chunks), otherwise the questions generated with the
      paper's metadata, the JSON file name and whether Sheets took them. */
  function PaperResult(gen: QuestionGenerator, paper: Paper, draws: nat -> nat, backend: Backend): (r: Option<QaResult>)
    ensures r.None? <==> paper.chunks == []
    ensures r.Some? ==> r.value.paperTitle == paper.paperTitle && r.value.totalQuestions == |r.value.questions|
  {
    match gen.QuestionsForPaper(PaperMetadata(paper.paperTitle), Contents(paper.chunks), Distribution(QuestionsPerPaper, draws), backend)
    case Err(_) => None
    case Ok(questions) =>
      Some(QaResult(paper.paperTitle, |questions|, OutputFileName(paper.paperTitle), gen.sheetsClientAvailable, questions))
  }

  /** A paper's result counts at most eight questions, each carrying the
      paper's title. */
  lemma PaperResultBounded(gen: QuestionGenerator, paper: Paper, draws: nat -> nat, backend: Backend)
    requires paper.chunks != []
    ensures var r := PaperResult(gen, paper, draws, backend).value;
      && r.totalQuestions <= QuestionsPerPaper - 2
      && forall k :: 0 <= k < |r.questions| ==> PaperTitle in r.questions[k] && r.questions[k][PaperTitle] == Str(paper.paperTitle)
  {
    var meta := PaperMetadata(paper.paperTitle);
    var chunks := Contents(paper.chunks);
    var d := Distribution(QuestionsPerPaper, draws);
    gen.AtMostEightQuestions(meta, chunks, draws, backend);
    forall k | 0 <= k < |gen.QuestionsForPaper(meta, chunks, d, backend).value|
      ensures var q := gen.QuestionsForPaper(meta, chunks, d, backend).value[k];
        PaperTitle in q && q[PaperTitle] == Str(paper.paperTitle)
    {
      QuestionsCarryMetadata(gen, paper.paperTitle, chunks, d, backend, k);
    }
  }

  /** generate_qa_for_paper */
  method GenerateQaForPaper(gen: QuestionGenerator, paperData: Paper, draws: nat -> nat, backend: Backend) returns (result: Option<QaResult>)
    ensures result == PaperResult(gen, paperData, draws, backend)
  {
    var paperTitle := paperData.paperTitle;
    var contentChunks := Contents(paperData.chunks);
    var metadata := PaperMetadata(paperTitle);
    var questions := gen.GenerateQuestionsForPaper(metadata, contentChunks, draws, backend);
    if questions.Err? {
      return None;
    }
    var jsonFile := OutputFileName(paperTitle);
    var sheetsSuccess, _ := gen.SaveQuestionsToSheets(questions.value);
    return Some(QaResult(paperTitle, |questions.value|, jsonFile, sheetsSuccess, questions.value));
  }

  /** The number of questions over all results. */
  function TotalQuestions(results: seq<QaResult>): nat
  {
    if results == [] then 0
    else TotalQuestions(results[..|results| - 1]) + results[|results| - 1].totalQuestions
  }

  /** The summary main writes: the number of papers processed, the total
      number of questions and the results. */
  datatype Summary = Summary(totalPapers: nat, totalQuestions: nat, results: seq<QaResult>)

  function PaperResults(gen: QuestionGenerator, papers: seq<Paper>, draws: nat -> nat -> nat, backends: nat -> Backend): (asked: seq<Option<QaResult>>)
    ensures |asked| == |papers|
    ensures forall i :: 0 <= i < |papers| ==> asked[i] == PaperResult(gen, papers[i], draws(i), backends(i))
  {
    seq(|papers|, i requires 0 <= i < |papers| => PaperResult(gen, papers[i], draws(i), backends(i)))
  }

  /** The loop of main over the loaded papers: a paper whose generation
      raises is skipped. The i-th paper uses the i-th random draws and
      model answers. */
  method ProcessPapers(gen: QuestionGenerator, papers: seq<Paper>, draws: nat -> nat -> nat, backends: nat -> Backend)
    returns (results: seq<QaResult>)
    ensures results == Collect(PaperResults(gen, papers, draws, backends))
  {
    results := [];
    for i := 0 to |papers|
      invariant results == Collect(PaperResults(gen, papers, draws, backends)[..i])
    {
      var result := GenerateQaForPaper(gen, papers[i], draws(i), backends(i));
      PaperResultsStep(gen, papers, draws, backends, i, result);
      if result.Some? {
        results := results + [result.value];
      }
    }
    PaperResultsWhole(gen, papers, draws, backends);
  }

  lemma PaperResultsStep(gen: QuestionGenerator, papers: seq<Paper>, draws: nat -> nat -> nat, backends: nat -> Backend, i: nat, result: Option<QaResult>)
    requires i < |papers| && result == PaperResult(gen, papers[i], draws(i), backends(i))
    ensures var asked := PaperResults(gen, papers, draws, backends);
      Collect(asked[..i + 1]) == Collect(asked[..i]) + (if result.Some? then [result.value] else [])
  {
    CollectPrefix(PaperResults(gen, papers, draws, backends), i);
  }

  lemma PaperResultsWhole(gen: QuestionGenerator, papers: seq<Paper>, draws: nat -> nat -> nat, backends: nat -> Backend)
    ensures var asked := PaperResults(gen, papers, draws, backends);
      Collect(asked[..|papers|]) == Collect(asked)
  {
    var asked := PaperResults(gen, papers, draws, backends);
    assert asked[..|papers|] == asked;
  }

  /** main after loading: nothing is summarised when there are no papers;
      otherwise the results of the papers and their totals. */
  method RunPipeline(gen: QuestionGenerator, papers: seq<Paper>, draws: nat -> nat -> nat, backends: nat -> Backend)
    returns (summary: Option<Summary>)
    ensures summary.None? <==> papers == []
    ensures summary.Some? ==> summary.value.results == Collect(PaperResults(gen, papers, draws, backends))
    ensures summary.Some? ==> summary.value.totalPapers == |summary.value.results|
    ensures summary.Some? ==> summary.value.totalQuestions == TotalQuestions(summary.value.results)
  {
    if papers == [] {
      return None;
    }
    var results := ProcessPapers(gen, papers, draws, backends);
    var totalQuestions := SumQuestions(results);
    return Some(Summary(|results|, totalQuestions, results));
  }

  /** sum(r['total_questions'] for r in results) */
  method SumQuestions(results: seq<QaResult>) returns (total: nat)
    ensures total == TotalQuestions(results)
  {
    total := 0;
    for i := 0 to |results|
      invariant total == TotalQuestions(results[..i])
    {
      assert results[..i + 1][..i] == results[..i];
      total := total + results[i].totalQuestions;
    }
    assert results[..|results|] == results;
  }

  /** The total is at most the bound per result times the number of results. */
  lemma {:induction false} TotalBounded(results: seq<QaResult>, bound: nat)
    requires forall k :: 0 <= k < |results| ==> results[k].totalQuestions <= bound
    ensures TotalQuestions(results) <= bound * |results|
  {
    if results != [] {
      TotalBounded(results[..|results| - 1], bound);
    }
  }

  /** The total counts the questions the results hold. */
  lemma {:induction false} TotalCountsQuestions(results: seq<QaResult>)
    requires forall k :: 0 <= k < |results| ==> results[k].totalQuestions == |results[k].questions|
    ensures TotalQuestions(results) == |Flattened(results)|
  {
    if results != [] {
      TotalCountsQuestions(results[..|results| - 1]);
    }
  }

  /** All questions of a run, paper after paper. */
  function Flattened(results: seq<QaResult>): seq<Record>
  {
    if results == [] then [] else Flattened(results[..|results| - 1]) + results[|results| - 1].questions
  }

  /** Over loaded papers no paper is skipped, the run total is the number of
      questions written, and each paper adds at most eight. */
  lemma RunOverLoadedPapers(gen: QuestionGenerator, listing: Listing<Entry>, read: string -> Option<string>,
                            draws: nat -> nat -> nat, backends: nat -> Backend)
    ensures LoadedPapers(listing, read).Ok? ==>
      var papers := LoadedPapers(listing, read).value;
      var results := Collect(PaperResults(gen, papers, draws, backends));
      && |results| == |papers|
      && TotalQuestions(results) == |Flattened(results)|
      && TotalQuestions(results) <= (QuestionsPerPaper - 2) * |papers|
  {
    if LoadedPapers(listing, read).Err? {
      return;
    }
    var papers := LoadedPapers(listing, read).value;
    var asked := PaperResults(gen, papers, draws, backends);
    var results := Collect(asked);
    if listing.Listed? {
      var _ := LoadedPapersOrigin(listing.items, read);
    }
    CollectAllSome(asked);
    var from := CollectOrigin(asked);
    forall k | 0 <= k < |results|
      ensures results[k].totalQuestions <= QuestionsPerPaper - 2
      ensures results[k].totalQuestions == |results[k].questions|
    {
      PaperResultBounded(gen, papers[from[k]], draws(from[k]), backends(from[k]));
    }
    TotalCountsQuestions(results);
    TotalBounded(results, QuestionsPerPaper - 2);
  }
}
