# Academic research paper QA generator — a verified model

This project is a Dafny model of the core of the Academic-Research-Paper-QA-Generator
repository. The model has two halves.

The ingestion half covers `ingest.py` and `src/paper_processor.py`:

- A paper queue is read from a Google Sheet. Only rows whose ingestion and extraction statuses are both empty are processed.
- Each paper's title is sanitised into a directory name.
- Text is taken from the PDF page by page. Each page's text is collapsed to single spaces and cut into overlapping fixed-size chunks.
- Formulas come from regex matches. They are stripped, filtered by length and de-duplicated in first-seen order. OCR is the fallback when fewer than five are found: OCR text is accepted by a "formula indicator" test and merged behind the text formulas.
- Embedded images are saved as `page<p>_img<i>.png`.
- Text chunks, formulas and on-disk images become documents. The documents are embedded into vector-store points and upserted.
- Each paper's row in the sheet moves through "In Progress" to "Completed", with a note giving the counts, or to "Failed", with the exception message.

The question half covers `qa_generator/question_generator.py` and `qa_generator/qa_pipeline.py`:

- Papers are loaded from `results/<paper>/processed_text/chunks`: the `.txt` files in sorted order, stripped, with blank files dropped.
- A year is taken from the title: the first run of four digits, or "Unknown".
- Each paper gets a question distribution. Question types, cognitive levels and content categories are assigned round-robin, then permuted by CPython's Fisher–Yates `random.shuffle`.
- One question is asked per slot, on chunk `i % len(chunks)`.
- A model answer is parsed from the JSON object between the first `{` and the last `}`. If that fails, a fixed fallback question is used.
- Each question is stamped with the paper metadata and the id `q_<i+1:03d>`.
- The output file name and its sanitiser are modelled, as are the sheet rows and the per-paper results with their question total.

## Design

Each module follows one source file:

- `strings.dfy` (`Strings`) holds the Python `str` operations the sources rely on, with their characterising lemmas. These are `strip`, `split`/`join`, `replace`, `find`/`rfind`, `in`, `endswith`, decimal and zero-padded formatting, lexicographic order with `sorted`, and `os.path` join/basename.
- `chunker.dfy` (`Chunker`) models `clean_and_chunk_text` and the chunk list of `save_processed_text_page_wise`.
- `formulas.dfy` (`PaperProcessor`) models `ResearchPaperProcessor` as a class.
- `ingest.dfy` (`Ingest`) models the rest of `ingest.py`. The status sheet and the vector store are classes whose methods append to their state.
- `questions.dfy` (`Questions`) models `QuestionGenerator` as a class. The shuffle works in place on an array.
- `qa_pipeline.dfy` (`QaPipeline`) models `qa_pipeline.py`.

Each loop of the source is a method proved equal to a specification function. The properties are lemmas about those functions.

Anything the world decides is an input to the model:

- which regex matches were found, what PyMuPDF returns, whether PIL decodes or saves an image, and what tesseract reads
- which files exist and what they hold
- which file operations raise: opening the PDF, creating directories and writing files during ingestion, and listing directories when loading
- what the language model answers, and whether `json.loads` accepts a slice
- what the embedding models return
- what `random` draws
- the clock

The loop in `ingest.py:146-151` yields `ceil(len / (size - overlap))` chunks. So a text no longer than one chunk can still give a second chunk, and that chunk lies inside the first (`Chunker.ShortTextCanGiveTwoChunks`).

`save_processed_text_page_wise` fails on a PDF with no pages, because `page_num` is read before it was ever assigned. The model keeps that error: `Chunker.SaveProcessedTextPageWise` returns `Err(UnboundPageNum)`, and the paper is marked "Failed".

`fill_in_blank` is one of the four question types but has no prompt template. Its slots give no question, so a paper gets at most 8 of its 10 questions (`Questions.QuestionGenerator.AtMostEightQuestions`), and exactly 8 when a model is loaded (`Questions.QuestionGenerator.ExactlyEightQuestions`).

## Model

| member | source | states |
|---|---|---|
| Strings.LStrip | ingest.py:139 | the result is a suffix of the input, everything removed is whitespace, and it does not start with whitespace |
| Strings.RStrip | ingest.py:139 | the result is a prefix of the input, everything removed is whitespace, and it does not end with whitespace |
| Strings.Strip | ingest.py:139 | no longer than the input; neither end is whitespace; empty exactly when the input is all whitespace |
| Strings.StripIsPiece | src/paper_processor.py:177 | the stripped string occurs inside the original |
| Strings.StripFacts | src/paper_processor.py:177 | the stripped string is the slice of the input between the removed ends; it is empty iff the input is blank |
| Strings.StripUnchanged | qa_generator/qa_pipeline.py:65 | a string with no whitespace at either end is unchanged by strip |
| Strings.StripIdempotent | qa_generator/qa_pipeline.py:65 | stripping twice equals stripping once |
| Strings.StripNonEmpty | qa_generator/qa_pipeline.py:66 | a string with any non-space character strips to a non-empty string |
| Strings.WordEnd | ingest.py:112 | the first word ends at the first whitespace character or at the end |
| Strings.Words | ingest.py:112 | `split()` gives non-empty words without whitespace, which laid end to end are the text with its whitespace removed; no words exactly when the text is blank |
| Strings.WordsOfRun | ingest.py:112 | a single whitespace-free run is one word |
| Strings.WordsAlone | ingest.py:112 | a non-whitespace character followed by whitespace or by nothing is a word of its own |
| Strings.WordsJoin | ingest.py:112 | a non-whitespace character followed by another joins the first word of the rest |
| Strings.WordsSplitAtSpace | ingest.py:112 | cutting the text at any whitespace character cuts the word list there; with `WordsOfRun` and the blank case this fixes the words as the maximal non-whitespace runs, in order |
| Strings.JoinSpaceShape | ingest.py:112 | joining non-empty words with single spaces gives a text whose only whitespace is single inner spaces |
| Strings.WordsOfJoin | ingest.py:112 | `split()` undoes `' '.join` on non-empty words without whitespace |
| Strings.JoinSpaceWithoutSpace | ingest.py:112 | `' '.join` adds no whitespace but its separators |
| Strings.Collapse | ingest.py:112 | `' '.join(text.split())` has no whitespace other than single inner spaces, none at the ends, keeps every non-whitespace character of the text in order, and is empty iff the text is blank |
| Strings.ReplaceChar | ingest.py:139 | same length; every occurrence of the old character becomes the new one and every other character is kept, so the old character is gone when the two differ |
| Strings.Find | qa_generator/question_generator.py:156 | -1 iff the character is absent, otherwise the index of its first occurrence |
| Strings.RFind | qa_generator/question_generator.py:157 | -1 iff the character is absent, otherwise the index of its last occurrence |
| Strings.ContainsAt | qa_generator/question_generator.py:160 | a slice at any position counts as contained |
| Strings.Contains | src/paper_processor.py:213 | specification predicate of Python's `in` on strings; its properties are in `ContainsAt` and `ContainsExists`, which together make it "occurs at some index" |
| Strings.ContainsExists | src/paper_processor.py:213 | every occurrence `in` reports is the slice at some index |
| Strings.EndsWith | qa_generator/qa_pipeline.py:61 | specification predicate of `str.endswith`; its properties are in `EndsWithIsSuffix` |
| Strings.EndsWithIsSuffix | qa_generator/qa_pipeline.py:61 | `s.endswith(p)` holds exactly when `s` is something followed by `p` |
| Strings.DigitChar | ingest.py:116 | a digit below ten becomes a decimal digit character |
| Strings.DigitValue | ingest.py:116 | a digit character has a value below ten |
| Strings.Decimal | ingest.py:309 | the decimal form of a number is a non-empty string of digits |
| Strings.DecimalRoundTrip | ingest.py:309 | reading the decimal form back gives the number |
| Strings.DecimalBelowThousand | ingest.py:129 | numbers below 1000 have at most three digits |
| Strings.Zeros | ingest.py:129 | k zero digits, which read as the number 0 |
| Strings.Padded | qa_generator/question_generator.py:260 | the `:03d` form is all digits |
| Strings.LeadingZeros | qa_generator/question_generator.py:260 | leading zeros do not change the value of a digit string |
| Strings.PaddedRoundTrip | qa_generator/question_generator.py:260 | the zero-padded form reads back as the number, is at least the width long, and is exactly the width when the number fits |
| Strings.PaddedInjective | qa_generator/question_generator.py:260 | different numbers have different zero-padded forms |
| Strings.KeepTitleChars | ingest.py:22 | the result holds only letters, digits, `_`, space and `-`, is no longer than the input and is a subsequence of it, in input order |
| Strings.TitleChar | ingest.py:22 | specification predicate of the characters `[a-zA-Z0-9_ -]` keeps; its properties are in `KeepTitleChars`, `KeepTitleCharsCounts` and `SanitizeFixedPoint` |
| Strings.KeepTitleCharsCounts | ingest.py:22 | every such character is kept as often as it occurs in the input, and every other character is dropped |
| Strings.KeepTitleCharsUnchanged | ingest.py:22 | a title made only of such characters is kept whole |
| Strings.LexTotal | qa_generator/qa_pipeline.py:60 | any two names are ordered one way or the other |
| Strings.LexLe | qa_generator/qa_pipeline.py:60 | specification predicate of Python's `<=` on str, by code point; its properties are in `LexTotal`, `LexRefl` and `LexTrans` |
| Strings.Sorted | qa_generator/qa_pipeline.py:60 | specification predicate of a list in `sorted` order; its properties are in `SortedPairs`, `Insert` and `Sort` |
| Strings.LexRefl | qa_generator/qa_pipeline.py:60 | every name is ordered before or equal to itself |
| Strings.LexTrans | qa_generator/qa_pipeline.py:60 | the name order is transitive |
| Strings.SortedPairs | qa_generator/qa_pipeline.py:60 | in a sorted list every earlier name is ordered before every later one |
| Strings.Insert | qa_generator/qa_pipeline.py:60 | inserting into a sorted list keeps it sorted and adds exactly that element |
| Strings.Sort | qa_generator/qa_pipeline.py:60 | `sorted` gives a sorted permutation of the listing |
| Strings.Basename | ingest.py:71 | the base name has no `/`, ends the path, and is the whole path or preceded by a `/`: everything after the last `/` |
| Strings.BasenameOfJoin | ingest.py:71 | the base name of a joined path is the name that was joined |
| Strings.PathJoin | ingest.py:94-96 | `os.path.join` for a relative name: the directory is a prefix and the name a suffix of the result; its base name is in `BasenameOfJoin` |
| Strings.IsSpace | ingest.py:112 | specification predicate of `str.isspace` over CPython's whitespace set; its properties are in `Strip`, `Words` and `Collapse` |
| Chunker.ChunksFrom | ingest.py:146-151 | every chunk from a start position is non-empty and at most `chunk_size` long |
| Chunker.Clean | ingest.py:139 | specification function of the cleaning step; its properties are in `BlankTextHasNoChunks` and `CleanCollapsed` |
| Chunker.Chunks | ingest.py:141-153 | specification function of the chunk list; its properties are in `ChunkShape`, `ChunkBounds`, `Coverage`, `ChunkIsPiece` and `ConsecutiveOverlap` |
| Chunker.CleanAndChunkText | ingest.py:136-153 | the chunks of the text with newlines turned to spaces and stripped |
| Chunker.SlideWindow | ingest.py:144-153 | the while-loop builds exactly the chunk list of the window specification |
| Chunker.ChunksFromCount | ingest.py:146-151 | the windows cover the text to its end and the last one starts inside it |
| Chunker.ChunksFromAt | ingest.py:147-149 | window k starts at `start + k*step` and is the slice of at most `chunk_size` characters there |
| Chunker.CeilDivUnique | ingest.py:146-151 | the only count with those covering bounds is the ceiling of length over step |
| Chunker.ChunkShape | ingest.py:146-151 | there are `ceil(len/(size-overlap))` chunks, and chunk k is `text[k*step : k*step+size]` |
| Chunker.ChunkBounds | ingest.py:148 | every chunk is non-empty and at most `chunk_size` characters |
| Chunker.BlankTextHasNoChunks | ingest.py:139-146 | a text gives no chunks exactly when it is blank |
| Chunker.Coverage | ingest.py:146-151 | every character of the text lies in the chunk whose index is its position divided by the step |
| Chunker.ChunkIndexInRange | ingest.py:146-151 | that chunk index is within the chunk list |
| Chunker.ChunkIsPiece | ingest.py:148 | every chunk is a contiguous piece of the cleaned text |
| Chunker.ConsecutiveOverlap | ingest.py:147-149 | the tail of chunk k after the first `chunk_size - chunk_overlap` characters is the head of chunk k+1; for a full-length chunk k that shared piece is `chunk_overlap` characters |
| Chunker.ConsecutiveOverlapFrom | ingest.py:147-149 | the same overlap holds for windows from any start |
| Chunker.WindowsOverlap | ingest.py:147-149 | two windows one step apart agree on their shared characters |
| Chunker.ShortTextCanGiveTwoChunks | ingest.py:146-151 | a text longer than one step but not longer than one chunk gives the whole text plus a second chunk inside it |
| Chunker.CleanCollapsed | ingest.py:112-139 | the cleaning of `clean_and_chunk_text` leaves an already collapsed page text unchanged |
| Chunker.PageChunkLists | ingest.py:104-124 | specification function: one chunk list per page; its properties are in `FlattenOrigin`, `PageChunkListsPrefix` and `ChunkWithinOnePage` |
| Chunker.PageWiseChunks | ingest.py:102-124 | specification function of the page-wise chunk list; its properties are in `PageWiseStep`, `PageContribution` and `ChunkWithinOnePage` |
| Chunker.FlattenOrigin | ingest.py:124 | every element of the extended list comes from one page's list |
| Chunker.PageChunkListsPrefix | ingest.py:104 | the chunk lists of the first p pages are the first p chunk lists |
| Chunker.PageWiseStep | ingest.py:124 | processing one more page appends exactly that page's chunks |
| Chunker.SaveProcessedTextPageWise | ingest.py:90-134 | an OSError from creating the pages and chunks directories or writing a page or chunk file is the result; otherwise the page loop returns the page-wise chunk list, and a PDF without pages ends in the unbound `page_num` error |
| Chunker.PageChunks | ingest.py:112-124 | specification function of one page's chunks; its properties are in `PageContribution` and `PageChunkIsPiece` |
| Chunker.PageContribution | ingest.py:112-124 | each page contributes the chunks of its collapsed text, and a blank page contributes nothing |
| Chunker.PageChunkIsPiece | ingest.py:112-124 | each chunk of a page is a piece of that page's collapsed text |
| Chunker.ChunkWithinOnePage | ingest.py:104-124 | every chunk of the page-wise list lies within a single page; no chunk spans a page break |
| PaperProcessor.Contents | src/paper_processor.py:124 | specification function: the formula contents in order; its properties are in `ContentsSnoc`, `MergeIsDedup` and `TextFormulasWellFormed` |
| PaperProcessor.ContentsSnoc | src/paper_processor.py:127-128 | appending a formula appends its content |
| PaperProcessor.KeepLong | src/paper_processor.py:175-179 | specification function of one pattern's kept matches; its properties are in `KeepLongSound`, `KeepLongComplete` and `KeepLongStep` |
| PaperProcessor.CleanedMatches | src/paper_processor.py:172-179 | specification function of the found formulas; its properties are in `CleanedMatchesComplete`, `CleanedMatchesSound`, `ShortMatchesContributeNothing` and `CleanedMatchesStep` |
| PaperProcessor.KeepLongStep | src/paper_processor.py:175-179 | handling one more match appends it, stripped, exactly when it is longer than two characters |
| PaperProcessor.CleanedMatchesStep | src/paper_processor.py:173-179 | handling one more pattern appends that pattern's kept matches |
| PaperProcessor.KeepLongSound | src/paper_processor.py:177-179 | every kept match is the stripped form of some match, longer than two characters, and already stripped |
| PaperProcessor.KeepLongComplete | src/paper_processor.py:177-179 | every match whose stripped form is longer than two characters is kept |
| PaperProcessor.CleanedMatchesComplete | src/paper_processor.py:172-179 | a long enough stripped match of any pattern is among the found formulas |
| PaperProcessor.CleanedMatchesSound | src/paper_processor.py:172-179 | every found formula is the stripped form, longer than two characters, of a match of some pattern |
| PaperProcessor.ShortMatchesContributeNothing | src/paper_processor.py:178 | matches of at most two characters contribute nothing |
| PaperProcessor.Dedup | src/paper_processor.py:182 | `dict.fromkeys` never lengthens the list |
| PaperProcessor.DedupSnoc | src/paper_processor.py:182 | a new element is appended unless it was already seen |
| PaperProcessor.DedupMembers | src/paper_processor.py:182 | de-duplication keeps exactly the same set of elements |
| PaperProcessor.DedupDistinct | src/paper_processor.py:182 | the de-duplicated list has no repeats |
| PaperProcessor.FirstIndex | src/paper_processor.py:182 | the first position of an element |
| PaperProcessor.FirstIndexInPrefix | src/paper_processor.py:182 | a first occurrence inside a prefix is the first occurrence in the whole list |
| PaperProcessor.DedupElement | src/paper_processor.py:182 | every kept element occurs in the input |
| PaperProcessor.DedupFirstSeenOrder | src/paper_processor.py:182 | kept elements appear in the order of their first occurrence |
| PaperProcessor.DedupOfDistinct | src/paper_processor.py:182 | a list without repeats is unchanged |
| PaperProcessor.TextRecords | src/paper_processor.py:184 | specification function: one `text-eqn` record per unique formula; its properties are in `TextFormulasWellFormed` |
| PaperProcessor.TextFormulas | src/paper_processor.py:172-184 | specification function of `_extract_formulas_with_text`; its properties are in `TextFormulasWellFormed` |
| PaperProcessor.TextFormulasWellFormed | src/paper_processor.py:172-184 | text formulas have distinct contents, kind `text-eqn`, page "N/A", and are exactly the cleaned matches as a set |
| PaperProcessor.OcrOnPageStep | src/paper_processor.py:201-218 | one more image on a page appends that image's OCR formula, if any |
| PaperProcessor.OcrFormulas | src/paper_processor.py:197-220 | specification function: the OCR formulas page by page with 1-based page numbers; its properties are in `OcrFormulasStep`, `OcrFormulasWellFormed` and `FormulasShape` |
| PaperProcessor.OcrFormulasStep | src/paper_processor.py:198-218 | one more page appends that page's OCR formulas with its 1-based page number |
| PaperProcessor.OcrFormulasWellFormed | src/paper_processor.py:198-218 | every OCR formula has kind `ocr-eqn`, a page number between 1 and the page count, and non-empty stripped content |
| PaperProcessor.OcrOnPage | src/paper_processor.py:201-220 | specification function of one page's OCR formulas; its properties are in `OcrOnPageWellFormed` and `OcrOnPageStep` |
| PaperProcessor.OcrOnPageWellFormed | src/paper_processor.py:201-218 | every OCR formula of a page carries that page's number and non-empty stripped content |
| PaperProcessor.OcrOfImage | src/paper_processor.py:203-220 | specification function of one image's OCR formula; its properties are in `OcrOfImageWellFormed` |
| PaperProcessor.OcrOfImageWellFormed | src/paper_processor.py:203-220 | an image yields at most one formula, and it is well formed |
| PaperProcessor.LooksLikeFormula | src/paper_processor.py:212-213 | specification function of the formula-indicator test; its properties are in `AcceptedTextNonEmpty`, `FunctionTokenAccepted` and `OperatorsAloneRejected` |
| PaperProcessor.AcceptedTextNonEmpty | src/paper_processor.py:212-216 | OCR text that passes the indicator test strips to something non-empty |
| PaperProcessor.FunctionTokenAccepted | src/paper_processor.py:212-213 | any text containing `sin` passes the indicator test |
| PaperProcessor.OperatorsAloneRejected | src/paper_processor.py:212-213 | `x+y=z` fails: the first indicator is the whole 13-character symbol string, not its characters |
| PaperProcessor.Merge | src/paper_processor.py:123-128 | specification function of combining text and OCR formulas; its properties are in `MergeKeepsPrefix` and `MergeIsDedup` |
| PaperProcessor.MergeKeepsPrefix | src/paper_processor.py:123-128 | merging keeps the text formulas as a prefix and adds at most the OCR formulas |
| PaperProcessor.MergeIsDedup | src/paper_processor.py:123-128 | merged contents equal the de-duplication of text contents followed by OCR contents |
| PaperProcessor.ImageFileName | src/paper_processor.py:241 | `page<p>_img<i>.png` contains no `/` |
| PaperProcessor.DigitsPrefixUnique | src/paper_processor.py:241 | a digit run followed by a non-digit splits uniquely |
| PaperProcessor.DecimalInjective | src/paper_processor.py:241 | different numbers have different decimal forms |
| PaperProcessor.ImageFileNameInjective | src/paper_processor.py:241 | different (page, image) pairs give different file names, so no saved image overwrites another |
| PaperProcessor.Visuals | src/paper_processor.py:234-255 | specification function of `extract_visuals`; its properties are in `VisualsWellFormed`, `VisualsErrorFrom` and `PageErrorAborts` |
| PaperProcessor.VisualRecord | src/paper_processor.py:240-248 | specification function: the saved file `page<p>_img<i>.png` under the output directory, the 1-based page and the placeholder caption; its properties are in `VisualsWellFormed`, `VisualsOnPageWellFormed`, `ImageFileNameInjective` and `ImageDescriptionOfFile` |
| PaperProcessor.VisualsWellFormed | src/paper_processor.py:234-251 | every visual has a page in range, the placeholder caption, and the path of one of that page's images |
| PaperProcessor.VisualsOnPage | src/paper_processor.py:237-253 | specification function of one page's visuals; its properties are in `VisualsOnPageWellFormed`, `VisualsOnPageCount` and `OnPageErrorPersists` |
| PaperProcessor.VisualsOnPageWellFormed | src/paper_processor.py:237-251 | every visual of a page carries that page and the path of one of its images |
| PaperProcessor.VisualsOnPageCount | src/paper_processor.py:243-253 | without an extraction error, a page gives one visual per image that decodes and saves |
| PaperProcessor.OcrGateOpen | src/paper_processor.py:117-118 | specification function of the OCR fallback condition; its properties are in `FormulasShape` and `EnoughTextFormulasSkipOcr` |
| PaperProcessor.Formulas | src/paper_processor.py:103-139 | specification function of `_extract_formulas`; its properties are in `FormulasShape` and `EnoughTextFormulasSkipOcr` |
| PaperProcessor.FormulasShape | src/paper_processor.py:112-139 | the text formulas are a prefix, contents are distinct, a closed OCR gate returns the text formulas, and an open gate merges in the OCR formulas de-duplicated |
| PaperProcessor.EnoughTextFormulasSkipOcr | src/paper_processor.py:117 | five or more text formulas skip OCR entirely |
| PaperProcessor.ResearchPaperProcessor.constructor | src/paper_processor.py:22-37 | the processor records whether tesseract was found |
| PaperProcessor.ResearchPaperProcessor.ProcessPaper | src/paper_processor.py:83-101 | a missing path raises the not-found error; a file `fitz.open` cannot open raises its error; otherwise the raw text and the formulas with threshold 5 |
| PaperProcessor.ResearchPaperProcessor.ExtractTextFromPdf | src/paper_processor.py:96-101 | the raw text is the concatenation of the page texts |
| PaperProcessor.RawText | src/paper_processor.py:96-101 | specification function of the raw text; its properties are in `RawTextAppend` and `RawTextPage` |
| PaperProcessor.RawTextAppend | src/paper_processor.py:98-100 | the raw text of two runs of pages is their raw texts one after the other |
| PaperProcessor.RawTextPage | src/paper_processor.py:98-100 | each page's text sits in the raw text right after the text of the pages before it |
| PaperProcessor.ResearchPaperProcessor.ExtractFormulas | src/paper_processor.py:103-139 | the hybrid extraction returns the formula specification |
| PaperProcessor.ResearchPaperProcessor.ExtractFormulasWithText | src/paper_processor.py:172-184 | the pattern loop returns the text formula records |
| PaperProcessor.ResearchPaperProcessor.CleanMatches | src/paper_processor.py:175-179 | the match loop keeps the stripped matches longer than two characters |
| PaperProcessor.ResearchPaperProcessor.ExtractFormulasWithOcr | src/paper_processor.py:191-222 | nothing without tesseract, otherwise the OCR formulas of all pages |
| PaperProcessor.ResearchPaperProcessor.OcrPage | src/paper_processor.py:201-220 | the image loop of one page returns that page's OCR formulas |
| PaperProcessor.ResearchPaperProcessor.ExtractVisuals | src/paper_processor.py:230-255 | the page and image loops return the visuals, or the first extraction error |
| PaperProcessor.PageErrorAborts | src/paper_processor.py:239 | an extraction error on any image aborts the whole call with that error |
| PaperProcessor.OnPageErrorPersists | src/paper_processor.py:239 | an extraction error stays the result of the rest of the page |
| PaperProcessor.VisualsErrorFrom | src/paper_processor.py:234-239 | a failed page makes every later prefix fail with the same error |
| Ingest.SanitizeTitle | ingest.py:22 | the sanitised title has only letters, digits, `_` and `-`, and is no longer than the title |
| Ingest.VisualsDir | ingest.py:222 | specification function of the visuals directory; its properties are in `VisualsDirOfTitle` |
| Ingest.VisualsDirOfTitle | ingest.py:222 | the visuals directory is results/<sanitised title>/visuals, or results/visuals for a title that sanitises to nothing |
| Ingest.SanitizeKeepsTitleChars | ingest.py:22 | a title of allowed characters only has its spaces turned into `_` |
| Ingest.SanitizeFixedPoint | ingest.py:22 | sanitising leaves a title unchanged iff it has only letters, digits, `_` and `-` |
| Ingest.SanitizeIdempotent | ingest.py:22 | sanitising twice equals sanitising once |
| Ingest.Pending | ingest.py:187 | specification function of the row filter; its properties are in `PendingRowsExact` and `PipelineWritesPendingRows` |
| Ingest.PendingRows | ingest.py:187 | every selected row is a row of the sheet, at its own index, with both statuses empty |
| Ingest.PendingRowsExact | ingest.py:187 | a row is selected iff both its statuses are empty |
| Ingest.SheetRow | ingest.py:198 | specification function of the sheet row number; its properties are in `AllWritesRows` and `PipelineFinalSheet` |
| Ingest.PendingRowsIncreasing | ingest.py:187-196 | selected rows keep sheet order |
| Ingest.ApplyAppend | src/google_sheets_client.py:40-55 | one more write sets exactly that cell |
| Ingest.ApplyConcat | src/google_sheets_client.py:40-55 | applying two write lists in turn equals applying their concatenation |
| Ingest.StatusSheet.constructor | src/google_sheets_client.py:10-27 | a sheet starts with its contents and no writes |
| Ingest.StatusSheet.UpdateStatus | src/google_sheets_client.py:40-55 | the cell takes the status and the write is recorded |
| Ingest.TextDocs | ingest.py:235-236 | specification function: one text document per chunk; its properties are in `DocumentsOrder` |
| Ingest.FormulaDocs | ingest.py:240-241 | specification function: one formula document per formula; its properties are in `DocumentsOrder` |
| Ingest.ImageDocs | ingest.py:244-255 | specification function of the image documents; its properties are in `ImageDocsOnDisk` and `ImageDocsCount` |
| Ingest.ImageDocsOnDisk | ingest.py:246-255 | every image document comes from a visual whose path exists on disk and carries its page and caption |
| Ingest.ImageDocsCount | ingest.py:246-255 | no more image documents than visuals, and one per visual when all files exist |
| Ingest.Documents | ingest.py:231-255 | specification function of the document list; its properties are in `DocumentsOrder` |
| Ingest.MetadataOf | ingest.py:207 | specification function: the row's title, authors and year; its properties are in `DocumentsCarryRowMetadata` |
| Ingest.DocumentsCarryRowMetadata | ingest.py:207-254 | every document of a paper, text, formula or image, carries that row's title, authors and year |
| Ingest.DocumentsOrder | ingest.py:231-255 | documents are the text chunks, then the formulas, then on-disk images, the last only when the image model loaded |
| Ingest.Payloads | ingest.py:270-290 | specification function: the payload of each point; its properties are in `PointsFollowDocuments` |
| Ingest.ImageDescription | ingest.py:71-76 | specification function of the text an image is embedded from; its properties are in `ImageDescriptionOfFile` and `EmptyImageVectorDropped` |
| Ingest.ImageDescriptionOfFile | ingest.py:71-76 | the description of a saved image file is "Figure or image from research paper: page<p>_img<i>.png", whatever its directory |
| Ingest.EmbedImage | ingest.py:66-89 | specification function: the image model applied to the file's description; its properties are in `EmbedImageIgnoresDirectory` and `ImageDescriptionOfFile` |
| Ingest.EmbedImageIgnoresDirectory | ingest.py:66-89 | the same image file embeds the same way from any directory, since only its base name is described |
| Ingest.EmbedOne | ingest.py:264-294 | specification function of the point one document gives; its properties are in `TextDocumentKept`, `EmptyImageVectorDropped` and `AllEmbeddedNoneDropped` |
| Ingest.Points | ingest.py:263-294 | specification function of the point list; its properties are in `PointsFollowDocuments` and `AllEmbeddedNoneDropped` |
| Ingest.PointsFollowDocuments | ingest.py:263-294 | the points' payloads are a subsequence of the documents, in order |
| Ingest.AllEmbeddedNoneDropped | ingest.py:263-294 | when every document embeds, every document becomes a point |
| Ingest.TextDocumentKept | ingest.py:279-291 | a text or formula document whose embedding succeeds becomes a point with it |
| Ingest.EmptyImageVectorDropped | ingest.py:268-276 | an image whose embedding is an empty list is skipped, as `if vector:` is false |
| Ingest.VectorStore.constructor | ingest.py:176 | a store starts with no points and no upsert calls |
| Ingest.VectorStore.Upsert | ingest.py:301 | one upsert call appends its points |
| Ingest.StatusWrites | ingest.py:210-315 | exactly five writes, all to the paper's row |
| Ingest.StartWrites | ingest.py:210-211 | specification function: both statuses set to "In Progress"; its properties are in `ApplyStatusWrites` and `StatusProtocol` |
| Ingest.FinalWrites | ingest.py:307-315 | specification function: the final statuses and note of the outcome; its properties are in `ApplyStatusWrites`, `StatusProtocol` and `FinalCell` |
| Ingest.ApplyStatusWrites | ingest.py:210-315 | the row's cells pass through "In Progress" to the final values |
| Ingest.SuccessNote | ingest.py:309 | specification function of the success note; its properties are in `StatusProtocol` and `AllWritesFinal` |
| Ingest.FinalCell | ingest.py:307-315 | specification function of a cell's final value; its properties are in `StatusProtocol`, `AllWritesFinal` and `PipelineFinalSheet` |
| Ingest.StatusProtocol | ingest.py:210-315 | afterwards the paper's cells hold their final values and every other row is untouched |
| Ingest.Outcome | ingest.py:203-316 | specification function of what processing one paper comes to; its properties are in `OutcomeCounts` and `PipelineFinalSheet` |
| Ingest.Extracted | ingest.py:214-226 | specification function: the not-found, open, text-file, unbound `page_num`, visuals and images_metadata.json errors in that order, otherwise the formulas, chunks and visuals; its properties are in `OutcomeCounts` and `ExtractPaper` |
| Ingest.Stored | ingest.py:231-304 | specification function: the documents embedded and the points upserted, with the upsert error only when there are points; its properties are in `OutcomeCounts`, `PointsFollowDocuments` and `StorePaper` |
| Ingest.OutcomeCounts | ingest.py:210-309 | success implies the path exists, the PDF opens, the text files and images_metadata.json are written and the PDF has pages; the counts are the page-wise chunks and formulas; there are at most that many points; a missing path fails with the not-found message |
| Ingest.AssembleDocuments | ingest.py:231-255 | the document loop builds the document specification |
| Ingest.AddImageDocuments | ingest.py:244-255 | the image loop appends the on-disk image documents |
| Ingest.EmbedDocuments | ingest.py:260-294 | the embedding loop builds the point specification |
| Ingest.IngestPaper | ingest.py:198-316 | one paper: the outcome, five status writes to row index+2, and its points upserted in one call, only on success with points |
| Ingest.MarkInProgress | ingest.py:210-211 | both statuses are written "In Progress" |
| Ingest.RecordOutcome | ingest.py:307-315 | the final statuses and the note are written |
| Ingest.ProcessOnePaper | ingest.py:214-304 | the extraction and storage of one paper, with the store updated by its points |
| Ingest.ExtractPaper | ingest.py:214-226 | process_paper, the page-wise chunks and the visuals, or the first error, including an error opening the PDF, writing the text files or writing images_metadata.json |
| Ingest.StorePaper | ingest.py:231-304 | documents embedded and upserted when there are points |
| Ingest.AllStep | ingest.py:196 | one more paper appends its writes, points and upsert call |
| Ingest.AllWrites | ingest.py:196-316 | specification function: the status writes of the papers in queue order; its properties are in `AllStep`, `AllWritesRows`, `AllWritesUntouched`, `AllWritesFinal` and `IngestPapers` |
| Ingest.AllPoints | ingest.py:196-304 | specification function: the points the papers store, in order; its properties are in `AllStep`, `BatchesArePoints` and `IngestPapers` |
| Ingest.AllBatches | ingest.py:299-301 | specification function: one upsert call per paper with points; its properties are in `AllStep`, `BatchesArePoints` and `IngestPapers` |
| Ingest.BatchesArePoints | ingest.py:299-301 | every upsert call carries a non-empty batch, and the batches one after the other are exactly the stored points |
| Ingest.AllWhole | ingest.py:196 | the whole queue is the full prefix |
| Ingest.IngestPipeline | ingest.py:155-318 | nothing happens unless the sheet name is set and the clients start; otherwise every pending row is processed and the sheet and the store take exactly its writes and points |
| Ingest.Runs | ingest.py:169-182 | specification predicate: the sheet name is not the placeholder and the clients start; its properties are in `IngestPipeline` |
| Ingest.IngestPapers | ingest.py:196-316 | the loop over pending rows makes exactly the writes, points and upsert calls of its specification |
| Ingest.AllWritesRows | ingest.py:198 | every write goes to a processed paper's row |
| Ingest.AllWritesUntouched | ingest.py:198 | rows of no processed paper keep their cells |
| Ingest.AllWritesFinal | ingest.py:198-315 | each processed paper's cells end in their final values |
| Ingest.PipelineFinalSheet | ingest.py:187-315 | after the run a pending row holds its final status values and every other row is unchanged |
| Ingest.PipelineWritesPendingRows | ingest.py:187-198 | every write goes to sheet row index+2 of a pending row |
| Questions.Get | qa_generator/question_generator.py:336-345 | specification function (`dict.get`) used by `SheetRowOf`; its properties are in `FallbackRowHasAnswer` |
| Questions.SlotAt | qa_generator/question_generator.py:282-287 | specification function of the i-th unshuffled slot; its properties are in `RoundRobinBalanced` and `BlankSlotsDiffer` |
| Questions.RoundRobin | qa_generator/question_generator.py:282-287 | specification function of the unshuffled distribution; its properties are in `RoundRobinBalanced` and `DistributionTypes` |
| Questions.RoundRobinBalanced | qa_generator/question_generator.py:282-287 | each question type occurs `(n + 3 - t) / 4` times among n slots |
| Questions.CountTypePermutation | qa_generator/question_generator.py:289-290 | shuffling does not change how often a question type occurs |
| Questions.DistributionTypes | qa_generator/question_generator.py:278-290 | every slot has one of the four types, and has a prompt template exactly when it is not `fill_in_blank` |
| Questions.Swap | qa_generator/question_generator.py:290 | a swap keeps the length |
| Questions.SwapPermutes | qa_generator/question_generator.py:290 | a swap is a permutation |
| Questions.ShuffleDown | qa_generator/question_generator.py:290 | the Fisher–Yates steps keep the length |
| Questions.ShuffleDownPermutes | qa_generator/question_generator.py:290 | the Fisher–Yates steps permute |
| Questions.Shuffled | qa_generator/question_generator.py:290 | `random.shuffle` keeps the length |
| Questions.ShuffledPermutes | qa_generator/question_generator.py:290 | `random.shuffle` gives a permutation |
| Questions.ShuffleStep | qa_generator/question_generator.py:290 | each step swaps position i with the drawn position below or at it |
| Questions.SwapPositions | qa_generator/question_generator.py:290 | swapping two array cells swaps them in the contents |
| Questions.ShuffleSwap | qa_generator/question_generator.py:290 | one in-place step advances the shuffle specification by one position |
| Questions.ShuffleInPlace | qa_generator/question_generator.py:290 | the in-place shuffle leaves the array holding the shuffle of its old contents |
| Questions.Distribution | qa_generator/question_generator.py:272-291 | the distribution has the requested length and is a permutation of the round-robin slots |
| Questions.TwoBlankSlots | qa_generator/question_generator.py:272-291 | however the shuffle falls, ten slots hold two distinct `fill_in_blank` positions |
| Questions.BlankSlotsDiffer | qa_generator/question_generator.py:282-287 | slots 3 and 7 are both `fill_in_blank` and differ in level or category |
| Questions.Excerpt | qa_generator/question_generator.py:168 | content up to 200 characters is kept; longer content becomes its first 200 characters plus `...` |
| Questions.JsonSlice | qa_generator/question_generator.py:155-160 | specification function of the brace slice; its properties are in `JsonSliceFound` and `JsonSlicePiece` |
| Questions.JsonSliceFound | qa_generator/question_generator.py:156-160 | there is a slice iff both braces occur, and it is empty iff the last `}` comes before the first `{` |
| Questions.JsonSlicePiece | qa_generator/question_generator.py:156-160 | a non-empty slice runs from the first `{` to the last `}` and is a piece of the text |
| Questions.SlotFields | qa_generator/question_generator.py:164-169 | specification function of the fields written over a parsed answer; its properties are in `SlotFieldsCarrySlot` |
| Questions.SlotFieldsCarrySlot | qa_generator/question_generator.py:164-169 | the added fields carry the slot's type, level, category and the excerpt |
| Questions.FallbackQuestion | qa_generator/question_generator.py:184-227 | specification function of the fallback question; its properties are in `FallbackQuestionShape` and the three `…FallbackAnswer` lemmas |
| Questions.FallbackQuestionShape | qa_generator/question_generator.py:189-227 | the fallback carries the slot, an explanation and `is_fallback` |
| Questions.MultipleChoiceFallbackAnswer | qa_generator/question_generator.py:189-205 | the multiple-choice fallback has four options and its answer is one of them |
| Questions.ShortAnswerFallbackAnswer | qa_generator/question_generator.py:206-216 | the short-answer fallback has an expected answer and no options or correct answer |
| Questions.TrueFalseFallbackAnswer | qa_generator/question_generator.py:217-227 | every other type falls back to a true/false question answered "True" |
| Questions.ParsedAnswer | qa_generator/question_generator.py:154-178 | specification function of the parsed model answer; its properties are in `ParsedAnswerFromSlice` and `GeneratedQuestionContent` |
| Questions.ParsedAnswerFromSlice | qa_generator/question_generator.py:148-161 | a parsed answer comes from parsing the non-empty brace slice of a model answer |
| Questions.IdOf | qa_generator/question_generator.py:260 | specification function of the question id; its properties are in `IdOfInjective` and `QuestionIdsDistinct` |
| Questions.IdOfInjective | qa_generator/question_generator.py:260 | different slot indices give different question ids |
| Questions.WithPaperFields | qa_generator/question_generator.py:255-262 | the question gets id `q_<i+1:03d>` and the paper title ("" when missing), and exactly the five paper fields are added to its keys |
| Questions.PaperFieldsKeepSlot | qa_generator/question_generator.py:255-262 | stamping the paper fields keeps the slot fields |
| Questions.PaperFieldsKeepQuestion | qa_generator/question_generator.py:255-262 | stamping keeps every other field of the question |
| Questions.Collect | qa_generator/question_generator.py:254-264 | collecting the answered slots gives at most one question per slot |
| Questions.CollectStep | qa_generator/question_generator.py:254-264 | one more slot appends its question if it has one |
| Questions.CollectPrefix | qa_generator/question_generator.py:254-264 | the same step on a prefix |
| Questions.Positions | qa_generator/question_generator.py:242-264 | one slot index per collected question, each in range |
| Questions.PositionsHoldCollected | qa_generator/question_generator.py:242-264 | each collected question is the answer of its slot |
| Questions.PositionsIncrease | qa_generator/question_generator.py:242-264 | collected questions keep slot order |
| Questions.PositionsComplete | qa_generator/question_generator.py:242-264 | every answered slot is collected |
| Questions.CollectOrigin | qa_generator/question_generator.py:242-264 | the collected questions are exactly the answered slots, in slot order |
| Questions.CollectSkips | qa_generator/question_generator.py:254 | two unanswered slots leave at least two fewer questions than slots |
| Questions.CollectMissing | qa_generator/question_generator.py:254 | an unanswered slot leaves fewer questions than slots |
| Questions.CollectAllNone | qa_generator/question_generator.py:254 | no answered slot gives no question |
| Questions.CollectAllSome | qa_generator/question_generator.py:254 | every slot answered gives one question per slot |
| Questions.QuestionGenerator.constructor | qa_generator/question_generator.py:25-107 | a model is available iff the primary or fallback model loaded; the sheets client iff it started |
| Questions.QuestionGenerator.GenerateQuestion | qa_generator/question_generator.py:109-182 | no question iff the type has no prompt template or no model is loaded |
| Questions.QuestionGenerator.GeneratedQuestionContent | qa_generator/question_generator.py:154-182 | a question carries its slot; it is the fallback when parsing fails, and otherwise keeps every other field the model returned |
| Questions.QuestionGenerator.Asked | qa_generator/question_generator.py:242-262 | slot i gives a question iff its type has a template and a model is loaded; that question carries id `q_<i+1:03d>` |
| Questions.QuestionGenerator.AskedCarriesSlot | qa_generator/question_generator.py:244-262 | slot i's question carries slot i and chunk `i % len(chunks)` |
| Questions.QuestionGenerator.Answers | qa_generator/question_generator.py:242-252 | specification function: what every slot gives; its properties are in `AnswersStep`, `QuestionsOrigin` and `ExactlyEightQuestions` |
| Questions.QuestionGenerator.QuestionsForPaper | qa_generator/question_generator.py:229-270 | `ZeroDivisionError` iff there are no chunks but there are slots; otherwise at most one question per slot |
| Questions.QuestionGenerator.AnswersStep | qa_generator/question_generator.py:242-264 | one more slot appends its question |
| Questions.QuestionGenerator.AnswersWhole | qa_generator/question_generator.py:242-270 | the questions are the collected answers of all slots |
| Questions.QuestionGenerator.QuestionsOrigin | qa_generator/question_generator.py:242-270 | the questions are exactly the answered slots, in slot order |
| Questions.QuestionGenerator.QuestionIdsDistinct | qa_generator/question_generator.py:260 | the questions of one paper have pairwise distinct ids |
| Questions.QuestionGenerator.NoModelNoQuestions | qa_generator/question_generator.py:127-130 | without a model a paper gets no questions |
| Questions.QuestionGenerator.AllPromptedAnswered | qa_generator/question_generator.py:242-264 | with a model and only templated types, every slot yields a question |
| Questions.QuestionGenerator.AtMostEightQuestions | qa_generator/question_generator.py:235-270 | a paper gets at most 8 of its 10 questions, since two slots are `fill_in_blank` |
| Questions.QuestionGenerator.ExactlyEightQuestions | qa_generator/question_generator.py:235-270 | with a model loaded a paper gets exactly 8 of its 10 questions, whatever the shuffle |
| Questions.QuestionGenerator.CreateQuestionDistribution | qa_generator/question_generator.py:272-291 | the loop and shuffle return the distribution specification |
| Questions.QuestionGenerator.AskSlot | qa_generator/question_generator.py:243-262 | asking one slot gives its specified answer |
| Questions.QuestionGenerator.GenerateQuestionsForPaper | qa_generator/question_generator.py:229-270 | the loop returns the questions of the specification over the shuffled distribution |
| Questions.QuestionGenerator.SaveQuestionsToSheets | qa_generator/question_generator.py:322-352 | false and no rows without a client; otherwise true with one row per question |
| Questions.SafeTitle | qa_generator/question_generator.py:302-303 | the safe title has only letters, digits, `-` and `_`, and is no longer than the title |
| Questions.SafeTitleFixedPoint | qa_generator/question_generator.py:302-303 | a title made only of those characters is unchanged |
| Questions.SafeTitleIdempotent | qa_generator/question_generator.py:302-303 | sanitising twice equals sanitising once |
| Questions.OutputFileName | qa_generator/question_generator.py:305 | the file name ends with `_questions.json` |
| Questions.QuestionsFile | qa_generator/question_generator.py:307-314 | the saved data holds the title, the questions and their count |
| Questions.SheetRowOf | qa_generator/question_generator.py:335-346 | specification function of one sheet row; its properties are in `FallbackRowHasAnswer` |
| Questions.Truthy | qa_generator/question_generator.py:342 | specification predicate of Python's truth value of a JSON value; its properties are in `SheetRowOf` and `FallbackRowHasAnswer` |
| Questions.FallbackRowHasAnswer | qa_generator/question_generator.py:189-343 | every fallback question gives a sheet row with a non-empty answer |
| QaPipeline.SearchFrom | qa_generator/qa_pipeline.py:94 | specification function of the `re.search` scan from a position; its properties are in `SearchFromFirstRun` and `YearIsFirstRun` |
| QaPipeline.MatchAt | qa_generator/qa_pipeline.py:94 | specification function of the group captured by a match starting at a position; its properties are in `MatchAtCaptures` and `SearchFromFirstRun` |
| QaPipeline.MatchAtCaptures | qa_generator/qa_pipeline.py:94 | a match at a position captures four digits, and exists exactly when four digits start there or right after an opening parenthesis there |
| QaPipeline.SearchFromFirstRun | qa_generator/qa_pipeline.py:94 | the search from a position finds the first run of four digits after it, or none |
| QaPipeline.ExtractYear | qa_generator/qa_pipeline.py:93-95 | specification function of the year search; its properties are in `YearIsFirstRun` |
| QaPipeline.YearIsFirstRun | qa_generator/qa_pipeline.py:94-95 | the year is the first four-digit run of the title, or "Unknown" when there is none |
| QaPipeline.PaperMetadata | qa_generator/qa_pipeline.py:92-102 | the metadata has exactly the keys title, authors, year and source, holding the title, "Unknown", the year `ExtractYear` finds and "processed_paper" |
| QaPipeline.MetadataStampsQuestion | qa_generator/qa_pipeline.py:97-102 | a stamped question carries the title, "Unknown" authors and the extracted year |
| QaPipeline.QuestionsCarryMetadata | qa_generator/qa_pipeline.py:118-124 | every generated question carries the paper's title, authors and year |
| QaPipeline.ChunkReads | qa_generator/qa_pipeline.py:60-73 | specification function: one read per listed file; its properties are in `ChunksOfPaper` |
| QaPipeline.ChunksDir | qa_generator/qa_pipeline.py:55 | specification function of a paper's chunks directory; its properties are in `ChunksDirOfEntry` and `ChunksOfPaper` |
| QaPipeline.ChunksDirOfEntry | qa_generator/qa_pipeline.py:55 | for a listed directory name, the chunks directory is results/<name>/processed_text/chunks |
| QaPipeline.PaperOf | qa_generator/qa_pipeline.py:53-80 | a loaded paper is named after its directory and has at least one chunk, counted in `total_chunks` |
| QaPipeline.PaperReads | qa_generator/qa_pipeline.py:50-80 | specification function: one result per directory entry; its properties are in `LoadedPapersOrigin` |
| QaPipeline.LoadedPapers | qa_generator/qa_pipeline.py:45-80 | without a results directory there are no papers; an unlistable results directory is an error; over a listed one, the load fails exactly when some directory's chunks listing raises |
| QaPipeline.FirstListingErrorAt | qa_generator/qa_pipeline.py:50-60 | no error means no directory's chunks listing raises; an error is the message of the earliest directory whose listing raises |
| QaPipeline.FirstListingError | qa_generator/qa_pipeline.py:50-60 | specification function of the first OSError among the chunks listings; its properties are in `FirstListingErrorAt` and `FirstListingErrorPrefix` |
| QaPipeline.FirstListingErrorPrefix | qa_generator/qa_pipeline.py:50-60 | once a listing has raised, the later entries do not change the error |
| QaPipeline.LoadChunks | qa_generator/qa_pipeline.py:59-73 | the chunk loop returns the chunk specification |
| QaPipeline.LoadProcessedPapers | qa_generator/qa_pipeline.py:38-83 | the directory loop returns the loaded papers, or stops at the first OSError of `os.listdir` |
| QaPipeline.ChunkOf | qa_generator/qa_pipeline.py:61-73 | specification function of one chunk file; its properties are in `ChunksOfPaper` |
| QaPipeline.PaperChunks | qa_generator/qa_pipeline.py:59-73 | specification function of a paper's chunks; its properties are in `ChunksOfPaper` and `ChunkFilesSorted` |
| QaPipeline.ChunksOfPaper | qa_generator/qa_pipeline.py:59-73 | the chunks are exactly the readable, non-blank `.txt` files in sorted order, with stripped contents and joined paths |
| QaPipeline.ChunkFilesSorted | qa_generator/qa_pipeline.py:60 | chunk file names are in sorted order |
| QaPipeline.LoadedPapersOrigin | qa_generator/qa_pipeline.py:50-80 | when the load succeeds, the papers are exactly the directories with a chunks directory holding a usable chunk, in listing order |
| QaPipeline.Contents | qa_generator/qa_pipeline.py:115 | specification function: the chunk texts in order; its properties are in `PaperResultBounded` |
| QaPipeline.PaperResult | qa_generator/qa_pipeline.py:104-138 | a paper without chunks raises; otherwise the result names the paper and counts its questions |
| QaPipeline.PaperResultBounded | qa_generator/qa_pipeline.py:121-137 | a result has at most 8 questions, each stamped with the paper title |
| QaPipeline.GenerateQaForPaper | qa_generator/qa_pipeline.py:104-138 | the method returns the paper result specification |
| QaPipeline.PaperResults | qa_generator/qa_pipeline.py:164-174 | specification function: one attempt per paper; its properties are in `PaperResultsStep`, `PaperResultsWhole` and `RunOverLoadedPapers` |
| QaPipeline.ProcessPapers | qa_generator/qa_pipeline.py:163-174 | the results are the successful attempts in paper order |
| QaPipeline.PaperResultsStep | qa_generator/qa_pipeline.py:167-174 | one more paper appends its result when it succeeds |
| QaPipeline.PaperResultsWhole | qa_generator/qa_pipeline.py:164 | the whole paper list is the full prefix |
| QaPipeline.RunPipeline | qa_generator/qa_pipeline.py:154-188 | no summary iff there are no papers; otherwise the results, their count and the question total |
| QaPipeline.SumQuestions | qa_generator/qa_pipeline.py:177 | the loop computes the total of `total_questions` |
| QaPipeline.TotalQuestions | qa_generator/qa_pipeline.py:177 | specification function of the question total; its properties are in `TotalBounded` and `TotalCountsQuestions` |
| QaPipeline.TotalBounded | qa_generator/qa_pipeline.py:177 | the total is at most the bound times the number of results |
| QaPipeline.TotalCountsQuestions | qa_generator/qa_pipeline.py:177 | the total equals the number of questions across the results |
| QaPipeline.RunOverLoadedPapers | qa_generator/qa_pipeline.py:154-177 | when the load succeeds, every loaded paper gives a result; the total counts all questions and is at most 8 per paper |

## Left out

- Regular expressions are not modelled as an engine. The match lists of `re.findall` for the thirteen formula patterns are an input. The year pattern `\(?(\d{4})\)?` is modelled directly: the optional parentheses never change which four digits are captured.
- PyMuPDF, PIL and pytesseract are foreign code. Page texts, embedded images, decode/save success and OCR text are inputs. `_check_tesseract_availability` becomes a constructor flag. The Grobid helpers (`_is_server_running`) and the unused `extract_text` are not part of this model.
- `textwrap.wrap` and the contents of the page and chunk text files that `save_processed_text_page_wise` writes are left out; only the returned chunk list is modelled. The content of `images_metadata.json` is not modelled either. Three failures are modelled as error inputs: the first `fitz.open` (src/paper_processor.py:96), the `os.makedirs` calls and page and chunk writes of `save_processed_text_page_wise` (ingest.py:98-131), and the `images_metadata.json` write (ingest.py:225). Each is given as the message of the first exception raised, which `ingest.py:311-315` turns into a failed paper.
- The later opens of the same PDF (ingest.py:101, src/paper_processor.py:196 and 233) are assumed to behave like the first one. `extract_visuals`' own `os.makedirs(output_dir)` (src/paper_processor.py:231-232) has no error input of its own. The outcome it would give, a paper marked Failed/Failed with the message, is the one `textFilesError` produces.
- `os.listdir` on the results directory and on each chunks directory is modelled as a listing that may raise; the OSError ends the load, as nothing in `load_processed_papers` catches it.
- Embedding vectors are opaque sequences from partial embedder functions. Point ids (`uuid4`) are not modelled, and the Qdrant client is a list of upserted points.
- `GoogleSheetsClient.update_status` swallows its own errors. The model treats every write as succeeding. `get_all_records_as_df` is the row sequence given as input.
- Loggers, `setup_paper_logger`'s log files, `setup_qa_logger`, `time.sleep`, timestamps and `datetime.now` are left out. Timestamps are a clock parameter.
- `setup_paper_logger` runs outside the per-paper `try` (ingest.py:201). A failure of its `os.makedirs(log_dir)` (ingest.py:24) would end the whole run, and that is not modelled.
- An empty sheet makes `papers_df['ingestion_status']` raise (ingest.py:187). The model selects no rows in that case, so the sheet ends the same, but the exception itself is not modelled.
- The language model is not modelled. A `Backend` gives its answer per slot and the `json.loads` result per slice. Prompt formatting, tokenisation and `content[:1000]` are left out.
- `str.isalnum` and `\d` are modelled on ASCII only; Unicode letters and digits are not.
- Chunk sizes and overlaps are natural numbers, and an overlap at least the chunk size is excluded by precondition. With such an overlap the source's loop never advances past a non-empty text.
- `random.shuffle` is CPython's Fisher–Yates, with `randbelow(i+1)` modelled as the k-th draw modulo `i+1`. The per-paper draws and backends of the pipeline are parameters.
- `save_questions_to_sheets` only prepares its rows; the source logs them and writes nothing. Exceptions inside it are not modelled.
- `QuestionGenerator.__init__` raising when neither model loads is not modelled; the constructor takes the two load results. A failed sheets client is a flag.
- Exceptions from `save_questions_to_json` and the writing of the summary file are not modelled. The summary keeps the results, their count and the total.
- `ingest_pipeline` reading `config.json` and the environment is not modelled. The sheet name and client start-up are inputs.
