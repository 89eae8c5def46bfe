/**
  The sliding-window chunker of the ingestion script (`clean_and_chunk_text`)
  and the chunk list built page by page by `save_processed_text_page_wise`.
  Writing the page and chunk files and their word-wrapped layout is not
  modelled; the page texts PyMuPDF returns are an input.
*/
module Chunker {
  import opened Strings

  /** text.replace("\n", " ").strip() */
  function Clean(text: string): string
  {
    Strip(ReplaceChar(text, '\n', ' '))
  }

  /** The chunks the loop still emits once its window start has reached `start`:
      every chunk is non-empty and at most `size` long. */
  function ChunksFrom(t: string, size: nat, step: nat, start: nat): (r: seq<string>)
    requires 0 < step <= size
    ensures forall k :: 0 <= k < |r| ==> 0 < |r[k]| <= size
    decreases |t| - start
  {
    if start >= |t| then []
    else [t[start..Min(start + size, |t|)]] + ChunksFrom(t, size, step, start + step)
  }

  /** The chunks of an already cleaned text: windows of `size` characters whose
      starts advance by `size - overlap`. */
  function Chunks(t: string, size: nat, overlap: nat): seq<string>
    requires overlap < size
  {
    ChunksFrom(t, size, size - overlap, 0)
  }

  /** clean_and_chunk_text: clean, then slide the window over the cleaned text. */
  method CleanAndChunkText(text: string, chunkSize: nat, chunkOverlap: nat) returns (chunks: seq<string>)
    requires chunkOverlap < chunkSize
    ensures chunks == Chunks(Clean(text), chunkSize, chunkOverlap)
  {
    var t := Clean(text);
    chunks := SlideWindow(t, chunkSize, chunkOverlap);
  }

  /** The while loop of clean_and_chunk_text: emit text[start:start+chunk_size],
      advance by chunk_size - chunk_overlap, stop once start reaches the end. */
  method SlideWindow(t: string, chunkSize: nat, chunkOverlap: nat) returns (chunks: seq<string>)
    requires chunkOverlap < chunkSize
    ensures chunks == Chunks(t, chunkSize, chunkOverlap)
  {
    var step := chunkSize - chunkOverlap;
    chunks := [];
    var start := 0;
    while start < |t|
      invariant chunks + ChunksFrom(t, chunkSize, step, start) == Chunks(t, chunkSize, chunkOverlap)
      decreases |t| - start
    {
      var end := start + chunkSize;
      ghost var rest := ChunksFrom(t, chunkSize, step, start + step);
      assert ChunksFrom(t, chunkSize, step, start) == [t[start..Min(end, |t|)]] + rest;
      chunks := chunks + [t[start..Min(end, |t|)]];
      assert chunks + rest == Chunks(t, chunkSize, chunkOverlap);
      start := start + step;
      if start >= |t| {
        break;
      }
    }
  }

  // ---------------------------------------------------------------------------
  // Shape of the chunk list

  lemma MulSucc(a: int, s: int)
    ensures (a + 1) * s == a * s + s
  {
  }

  lemma MulMonotone(a: int, b: int, s: int)
    requires s > 0 && a * s < b * s
    ensures a < b
  {
  }

  /** The chunk count is the least c with start + c*step >= |t|. */
  lemma {:induction false} ChunksFromCount(t: string, size: nat, step: nat, start: nat)
    requires 0 < step <= size && start <= |t|
    ensures var c := |ChunksFrom(t, size, step, start)|;
      && start + c * step >= |t|
      && (c > 0 ==> start + (c - 1) * step < |t|)
    decreases |t| - start
  {
    var r := ChunksFrom(t, size, step, start);
    if start < |t| {
      var rest := ChunksFrom(t, size, step, start + step);
      assert |r| == |rest| + 1;
      if start + step <= |t| {
        ChunksFromCount(t, size, step, start + step);
      } else {
        assert rest == [];
      }
      MulSucc(|rest|, step);
    }
  }

  /** Chunk k is the window that starts at start + k*step. */
  lemma {:induction false} ChunksFromAt(t: string, size: nat, step: nat, start: nat, k: nat)
    requires 0 < step <= size && k < |ChunksFrom(t, size, step, start)|
    ensures start + k * step < |t|
    ensures ChunksFrom(t, size, step, start)[k] == t[start + k * step..Min(start + k * step + size, |t|)]
    decreases k
  {
    if k > 0 {
      ChunksFromAt(t, size, step, start + step, k - 1);
      MulSucc(k - 1, step);
    }
  }

  /** ceil(n / step) */
  function CeilDiv(n: nat, step: nat): nat
    requires step > 0
  {
    (n + step - 1) / step
  }

  lemma CeilDivUnique(n: nat, step: nat, c: nat)
    requires step > 0 && c * step >= n && (c > 0 ==> (c - 1) * step < n)
    ensures c == CeilDiv(n, step)
  {
    var q := CeilDiv(n, step);
    DivBounds(n + step - 1, step);
    if c < q {
      MulLe(c + 1, q, step);
      MulSucc(c, step);
    } else if q < c {
      var d: nat := c - 1;
      MulLe(q, d, step);
      MulSucc(d, step);
    }
  }

  lemma MulLe(a: nat, b: nat, s: nat)
    requires a <= b
    ensures a * s <= b * s
  {
  }

  /** With step = chunk_size - chunk_overlap, chunk k of a cleaned text t is
      t[k*step : k*step + chunk_size] (clipped at the end) and there are
      ceil(|t| / step) chunks. */
  lemma ChunkShape(t: string, size: nat, overlap: nat, k: nat)
    requires overlap < size
    ensures |Chunks(t, size, overlap)| == CeilDiv(|t|, size - overlap)
    ensures k < |Chunks(t, size, overlap)| ==>
      && k * (size - overlap) < |t|
      && Chunks(t, size, overlap)[k] == t[k * (size - overlap)..Min(k * (size - overlap) + size, |t|)]
  {
    var step := size - overlap;
    ChunksFromCount(t, size, step, 0);
    CeilDivUnique(|t|, step, |Chunks(t, size, overlap)|);
    if k < |Chunks(t, size, overlap)| {
      ChunksFromAt(t, size, step, 0, k);
    }
  }

  /** Every chunk is non-empty and at most chunk_size characters long. */
  lemma ChunkBounds(t: string, size: nat, overlap: nat, k: nat)
    requires overlap < size && k < |Chunks(t, size, overlap)|
    ensures 0 < |Chunks(t, size, overlap)[k]| <= size
  {
  }

  /** A text that is blank after cleaning gives no chunks at all; any other
      text gives at least one. */
  lemma BlankTextHasNoChunks(text: string, size: nat, overlap: nat)
    requires overlap < size
    ensures Chunks(Clean(text), size, overlap) == [] <==> AllSpace(text)
  {
    var u := ReplaceChar(text, '\n', ' ');
    if AllSpace(text) {
      assert AllSpace(u);
    } else {
      var i :| 0 <= i < |text| && !IsSpace(text[i]);
      assert !IsSpace(u[i]);
      ChunksFromCount(Clean(text), size, size - overlap, 0);
    }
  }

  lemma DivBounds(i: nat, step: nat)
    requires step > 0
    ensures (i / step) * step <= i < (i / step) * step + step
  {
  }

  /** With 0 <= overlap < size every character position lies in some chunk:
      position i is inside chunk i / step. */
  lemma Coverage(t: string, size: nat, overlap: nat, i: nat)
    requires overlap < size && i < |t|
    ensures var r := Chunks(t, size, overlap); var k := i / (size - overlap);
      && k < |r|
      && k * (size - overlap) <= i < k * (size - overlap) + |r[k]|
  {
    var step := size - overlap;
    var k := i / step;
    ChunkIndexInRange(t, size, overlap, i);
    ChunkShape(t, size, overlap, k);
    DivBounds(i, step);
  }

  /** The chunk that should hold position i exists. */
  lemma ChunkIndexInRange(t: string, size: nat, overlap: nat, i: nat)
    requires overlap < size && i < |t|
    ensures i / (size - overlap) < |Chunks(t, size, overlap)|
  {
    var step := size - overlap;
    var k := i / step;
    var c := |Chunks(t, size, overlap)|;
    DivBounds(i, step);
    ChunksFromCount(t, size, step, 0);
    assert k * step < c * step;
    MulMonotone(k, c, step);
  }

  /** Every chunk is a contiguous piece of the text. */
  lemma ChunkIsPiece(t: string, size: nat, overlap: nat, k: nat)
    requires overlap < size && k < |Chunks(t, size, overlap)|
    ensures Contains(t, Chunks(t, size, overlap)[k])
  {
    var step := size - overlap;
    var r := Chunks(t, size, overlap);
    var a := k * step;
    ChunksFromAt(t, size, step, 0, k);
    assert a < |t| && r[k] == t[a..Min(a + size, |t|)];
    ContainsAt(t, r[k], a);
  }

  /** Consecutive chunks overlap: what chunk k holds past its first `step`
      characters is where chunk k+1 begins (chunk_overlap characters whenever
      chunk k is a full window). */
  lemma ConsecutiveOverlap(t: string, size: nat, overlap: nat, k: nat)
    requires overlap < size && k + 1 < |Chunks(t, size, overlap)|
    ensures var r := Chunks(t, size, overlap); var step := size - overlap;
      && step <= |r[k]|
      && |r[k]| - step <= |r[k + 1]|
      && r[k][step..] == r[k + 1][..|r[k]| - step]
  {
    ConsecutiveOverlapFrom(t, size, size - overlap, 0, k);
  }

  lemma {:induction false} ConsecutiveOverlapFrom(t: string, size: nat, step: nat, start: nat, k: nat)
    requires 0 < step <= size && k + 1 < |ChunksFrom(t, size, step, start)|
    ensures var r := ChunksFrom(t, size, step, start);
      && step <= |r[k]|
      && |r[k]| - step <= |r[k + 1]|
      && r[k][step..] == r[k + 1][..|r[k]| - step]
    decreases k
  {
    if k == 0 {
      WindowsOverlap(t, start, step, size);
    } else {
      ConsecutiveOverlapFrom(t, size, step, start + step, k - 1);
    }
  }

  /** Two windows `step` apart share what the first one holds past `step`. */
  lemma WindowsOverlap(t: string, a: nat, step: nat, size: nat)
    requires 0 < step <= size && a + step < |t|
    ensures var w := t[a..Min(a + size, |t|)]; var v := t[a + step..Min(a + step + size, |t|)];
      step <= |w| && |w| - step <= |v| && w[step..] == v[..|w| - step]
  {
    var e := Min(a + size, |t|);
    var w := t[a..e];
    var v := t[a + step..Min(a + step + size, |t|)];
    assert w[step..] == t[a + step..e];
    assert v[..|w| - step] == t[a + step..e];
  }

  /** A text no longer than chunk_size still gives a second chunk whenever it
      is longer than the step: the count is ceil(|t| / step), not one. */
  lemma ShortTextCanGiveTwoChunks(t: string, size: nat, overlap: nat)
    requires overlap < size && size - overlap < |t| <= size
    ensures var r := Chunks(t, size, overlap);
      |r| >= 2 && r[0] == t && Contains(r[0], r[1])
  {
    var step := size - overlap;
    var r := Chunks(t, size, overlap);
    assert t[0..Min(0 + size, |t|)] == t;
    assert r == [t] + ChunksFrom(t, size, step, step);
    assert r[1] == t[step..Min(step + size, |t|)];
    ContainsAt(t, r[1], step);
  }

  // ---------------------------------------------------------------------------
  // Page-wise chunking

  /** clean_and_chunk_text leaves a whitespace-collapsed page text as it is. */
  lemma CleanCollapsed(s: string)
    ensures Clean(Collapse(s)) == Collapse(s)
  {
    var c := Collapse(s);
    var u := ReplaceChar(c, '\n', ' ');
    assert u == c;
    StripUnchanged(c);
  }

  /** The chunks one page contributes: its collapsed text, chunked, if that text is not blank. */
  function PageChunks(page: string, size: nat, overlap: nat): seq<string>
    requires overlap < size
  {
    var cleaned := Collapse(page);
    if cleaned != [] then Chunks(Clean(cleaned), size, overlap) else []
  }

  /** The chunk lists of the pages, one per page, in page order. */
  function PageChunkLists(pages: seq<string>, size: nat, overlap: nat): (lists: seq<seq<string>>)
    requires overlap < size
    ensures |lists| == |pages|
    ensures forall p :: 0 <= p < |pages| ==> lists[p] == PageChunks(pages[p], size, overlap)
  {
    seq(|pages|, p requires 0 <= p < |pages| => PageChunks(pages[p], size, overlap))
  }

  /** The lists one after the other. */
  function Flatten<T>(lists: seq<seq<T>>): seq<T>
  {
    if lists == [] then [] else Flatten(lists[..|lists| - 1]) + lists[|lists| - 1]
  }

  /** The page-ordered concatenation of the pages' chunks. */
  function PageWiseChunks(pages: seq<string>, size: nat, overlap: nat): seq<string>
    requires overlap < size
  {
    Flatten(PageChunkLists(pages, size, overlap))
  }

  /** Every element of the flattened lists is an element of one list. */
  lemma {:induction false} FlattenOrigin(lists: seq<seq<string>>, j: nat) returns (p: nat, m: nat)
    requires j < |Flatten(lists)|
    ensures p < |lists| && m < |lists[p]| && Flatten(lists)[j] == lists[p][m]
  {
    var init := lists[..|lists| - 1];
    var left := Flatten(init);
    var last := lists[|lists| - 1];
    if j < |left| {
      p, m := FlattenOrigin(init, j);
      assert lists[p] == init[p];
    } else {
      p, m := |lists| - 1, j - |left|;
    }
  }

  lemma PageChunkListsPrefix(pages: seq<string>, p: nat, size: nat, overlap: nat)
    requires overlap < size && p <= |pages|
    ensures PageChunkLists(pages[..p], size, overlap) == PageChunkLists(pages, size, overlap)[..p]
  {
  }

  lemma PageWiseStep(pages: seq<string>, p: nat, size: nat, overlap: nat)
    requires overlap < size && p < |pages|
    ensures PageWiseChunks(pages[..p + 1], size, overlap)
         == PageWiseChunks(pages[..p], size, overlap) + PageChunks(pages[p], size, overlap)
  {
    var lists := PageChunkLists(pages, size, overlap);
    PageChunkListsPrefix(pages, p + 1, size, overlap);
    PageChunkListsPrefix(pages, p, size, overlap);
    assert lists[..p + 1][..p] == lists[..p];
  }

  /** The chunk-list part of save_processed_text_page_wise. `writeError` is the
      message of the OSError, if any, that creating the pages and chunks
      directories or writing a page or chunk file raises. A document with no
      pages makes the source read `page_num` before it was ever assigned. */
  method SaveProcessedTextPageWise(pages: seq<string>, chunkSize: nat, chunkOverlap: nat, writeError: Option<string>)
    returns (result: Result<seq<string>>)
    requires chunkOverlap < chunkSize
    ensures writeError.Some? ==> result == Err(writeError.value)
    ensures writeError.None? && pages == [] ==> result == Err(UnboundPageNum)
    ensures writeError.None? && pages != [] ==> result == Ok(PageWiseChunks(pages, chunkSize, chunkOverlap))
  {
    if writeError.Some? {
      return Err(writeError.value);
    }
    var pageChunks := [];
    for pageNum := 0 to |pages|
      invariant pageChunks == PageWiseChunks(pages[..pageNum], chunkSize, chunkOverlap)
    {
      var cleanedText := Collapse(pages[pageNum]);
      PageWiseStep(pages, pageNum, chunkSize, chunkOverlap);
      if cleanedText != [] {
        var cs := CleanAndChunkText(cleanedText, chunkSize, chunkOverlap);
        pageChunks := pageChunks + cs;
      }
    }
    assert pages[..|pages|] == pages;
    if |pages| == 0 {
      result := Err(UnboundPageNum);
    } else {
      result := Ok(pageChunks);
    }
  }

  /** The UnboundLocalError message in the wording of CPython 3.11 and later
      (earlier versions say "local variable 'page_num' referenced before
      assignment"). */
  const UnboundPageNum: string := "cannot access local variable 'page_num' where it is not associated with a value"

  /** Each page contributes exactly the chunks of its collapsed text; a blank page contributes nothing. */
  lemma PageContribution(page: string, size: nat, overlap: nat)
    requires overlap < size
    ensures PageChunks(page, size, overlap) == Chunks(Collapse(page), size, overlap)
    ensures AllSpace(page) ==> PageChunks(page, size, overlap) == []
  {
    CleanCollapsed(page);
  }

  /** Each chunk a page contributes is a piece of that page's collapsed text. */
  lemma PageChunkIsPiece(page: string, size: nat, overlap: nat, m: nat)
    requires overlap < size && m < |PageChunks(page, size, overlap)|
    ensures Contains(Collapse(page), PageChunks(page, size, overlap)[m])
  {
    PageContribution(page, size, overlap);
    ChunkIsPiece(Collapse(page), size, overlap, m);
  }

  /** No chunk spans two pages: every chunk is a piece of one page's collapsed text. */
  lemma ChunkWithinOnePage(pages: seq<string>, size: nat, overlap: nat, j: nat) returns (p: nat)
    requires overlap < size && j < |PageWiseChunks(pages, size, overlap)|
    ensures p < |pages| && Contains(Collapse(pages[p]), PageWiseChunks(pages, size, overlap)[j])
  {
    var m;
    p, m := FlattenOrigin(PageChunkLists(pages, size, overlap), j);
    PageChunkIsPiece(pages[p], size, overlap, m);
  }
}
