/**
  The bookkeeping of ResearchPaperProcessor (src/paper_processor.py): the
  post-processing and de-duplication of pattern matches, the threshold gate
  for the OCR fallback, the merge of OCR results behind the text results,
  the "formula indicator" filter applied to OCR text, the image records of
  extract_visuals and the path check of process_paper.

  What the foreign libraries produce is an input: the per-pattern match
  lists of `re.findall`, the page texts and embedded images PyMuPDF yields,
  whether PIL decodes and saves an image and what pytesseract reads from it.
*/
module PaperProcessor {
  import opened Strings

  datatype FormulaKind = TextEqn | OcrEqn

  /** "N/A" for text formulas, a 1-based page number for OCR formulas. */
  datatype Page = NotApplicable | PageNumber(n: nat)

  datatype Formula = Formula(kind: FormulaKind, content: string, page: Page)

  /** What the PDF library and the image libraries do with one embedded image:
      the error `doc.extract_image` raises (if any), whether PIL decodes it,
      whether it can be saved as PNG, and the text tesseract reads (None when
      the OCR call raises). */
  datatype EmbeddedImage = EmbeddedImage(extractError: Option<string>, decodes: bool, saves: bool, ocrText: Option<string>)

  /** The text of each page and the embedded images of each page. */
  datatype PdfPages = PdfPages(pages: seq<string>, images: seq<seq<EmbeddedImage>>)

  /** An opened PDF: both lists come from the same pages, so there is one
      image list per page of text. */
  type Pdf = p: PdfPages | |p.pages| == |p.images| witness PdfPages([], [])

  predicate Distinct<T(==)>(s: seq<T>)
  {
    forall i, j :: 0 <= i < j < |s| ==> s[i] != s[j]
  }

  /** The contents of a list of formula records, in order. */
  function Contents(fs: seq<Formula>): (r: seq<string>)
    ensures |r| == |fs| && forall i :: 0 <= i < |fs| ==> r[i] == fs[i].content
  {
    if fs == [] then [] else Contents(fs[..|fs| - 1]) + [fs[|fs| - 1].content]
  }

  lemma ContentsSnoc(fs: seq<Formula>, f: Formula)
    ensures Contents(fs + [f]) == Contents(fs) + [f.content]
  {
    assert (fs + [f])[..|fs|] == fs;
  }

  // ---------------------------------------------------------------------------
  // Text strategy: post-processing of the regex matches

  /** The matches of one pattern that survive cleaning: stripped, and kept only
      when longer than two characters. */
  function KeepLong(ms: seq<string>): seq<string>
  {
    if ms == [] then [] else KeepLong(ms[..|ms| - 1]) + Kept(Strip(ms[|ms| - 1]))
  }

  /** A cleaned match is kept when it is longer than two characters. */
  function Kept(c: string): seq<string>
  {
    if |c| > 2 then [c] else []
  }

  lemma KeepLongStep(ms: seq<string>, j: nat)
    requires j < |ms|
    ensures KeepLong(ms[..j + 1]) == KeepLong(ms[..j]) + Kept(Strip(ms[j]))
  {
    assert ms[..j + 1][..j] == ms[..j];
  }

  lemma CleanedMatchesStep(matches: seq<seq<string>>, p: nat)
    requires p < |matches|
    ensures CleanedMatches(matches[..p + 1]) == CleanedMatches(matches[..p]) + KeepLong(matches[p])
  {
    assert matches[..p + 1][..p] == matches[..p];
  }

  /** The cleaned matches of every pattern, pattern by pattern. */
  function CleanedMatches(matches: seq<seq<string>>): seq<string>
  {
    if matches == [] then [] else CleanedMatches(matches[..|matches| - 1]) + KeepLong(matches[|matches| - 1])
  }

  /** Every kept match is stripped, longer than two characters and the strip of one raw match. */
  lemma {:induction false} KeepLongSound(ms: seq<string>, k: nat) returns (j: nat)
    requires k < |KeepLong(ms)|
    ensures |KeepLong(ms)[k]| > 2 && Strip(KeepLong(ms)[k]) == KeepLong(ms)[k]
    ensures j < |ms| && KeepLong(ms)[k] == Strip(ms[j])
  {
    var n := |ms| - 1;
    var init := ms[..n];
    var a := KeepLong(init);
    var c := Strip(ms[n]);
    assert KeepLong(ms) == a + Kept(c);
    if k < |a| {
      j := KeepLongSound(init, k);
      assert ms[j] == init[j];
      assert KeepLong(ms)[k] == a[k];
    } else {
      j := n;
      assert KeepLong(ms)[k] == c;
      StripIdempotent(ms[n]);
    }
  }

  /** Every raw match whose strip is longer than two characters is kept. */
  lemma {:induction false} KeepLongComplete(ms: seq<string>, j: nat)
    requires j < |ms| && |Strip(ms[j])| > 2
    ensures Strip(ms[j]) in KeepLong(ms)
  {
    if j < |ms| - 1 {
      KeepLongComplete(ms[..|ms| - 1], j);
    }
  }

  /** A raw match is in the cleaned list exactly when its strip is longer than two characters. */
  lemma {:induction false} CleanedMatchesComplete(matches: seq<seq<string>>, p: nat, j: nat)
    requires p < |matches| && j < |matches[p]|
    ensures Strip(matches[p][j]) in CleanedMatches(matches) <== |Strip(matches[p][j])| > 2
  {
    if |Strip(matches[p][j])| > 2 {
      if p < |matches| - 1 {
        CleanedMatchesComplete(matches[..|matches| - 1], p, j);
      } else {
        KeepLongComplete(matches[p], j);
      }
    }
  }

  /** Every found formula is the stripped form, longer than two characters, of
      a match of some pattern. */
  lemma {:induction false} CleanedMatchesSound(matches: seq<seq<string>>, k: nat) returns (p: nat, j: nat)
    requires k < |CleanedMatches(matches)|
    ensures p < |matches| && j < |matches[p]|
    ensures CleanedMatches(matches)[k] == Strip(matches[p][j]) && |Strip(matches[p][j])| > 2
  {
    var n := |matches| - 1;
    var init := matches[..n];
    var a := CleanedMatches(init);
    assert CleanedMatches(matches) == a + KeepLong(matches[n]);
    if k < |a| {
      p, j := CleanedMatchesSound(init, k);
      assert matches[p] == init[p];
      assert CleanedMatches(matches)[k] == a[k];
    } else {
      p := n;
      j := KeepLongSound(matches[n], k - |a|);
      assert CleanedMatches(matches)[k] == KeepLong(matches[n])[k - |a|];
    }
  }

  /** A pattern whose matches are all at most two characters long (a single Greek
      letter or math symbol, say) contributes nothing. */
  lemma {:induction false} ShortMatchesContributeNothing(ms: seq<string>)
    requires forall j :: 0 <= j < |ms| ==> |ms[j]| <= 2
    ensures KeepLong(ms) == []
  {
    if ms != [] {
      ShortMatchesContributeNothing(ms[..|ms| - 1]);
    }
  }

  // ---------------------------------------------------------------------------
  // list(dict.fromkeys(found)): first-seen de-duplication

  function Dedup(s: seq<string>): (r: seq<string>)
    ensures |r| <= |s|
  {
    if s == [] then []
    else
      var d := Dedup(s[..|s| - 1]);
      if s[|s| - 1] in d then d else d + [s[|s| - 1]]
  }

  lemma DedupSnoc(c: seq<string>, x: string)
    ensures Dedup(c + [x]) == if x in Dedup(c) then Dedup(c) else Dedup(c) + [x]
  {
    assert (c + [x])[..|c|] == c;
  }

  /** De-duplication neither loses nor invents a value. */
  lemma {:induction false} DedupMembers(s: seq<string>)
    ensures forall x :: x in Dedup(s) <==> x in s
  {
    if s != [] {
      var init := s[..|s| - 1];
      DedupMembers(init);
      assert s == init + [s[|s| - 1]];
    }
  }

  /** The de-duplicated list holds no value twice. */
  lemma {:induction false} DedupDistinct(s: seq<string>)
    ensures Distinct(Dedup(s))
  {
    if s != [] {
      DedupDistinct(s[..|s| - 1]);
    }
  }

  /** The index of the first occurrence of `x`. */
  function FirstIndex(s: seq<string>, x: string): (i: nat)
    requires x in s
    ensures i < |s| && s[i] == x && x !in s[..i]
  {
    if s[0] == x then 0
    else
      var k := FirstIndex(s[1..], x);
      assert s[..k + 1] == [s[0]] + s[1..][..k];
      k + 1
  }

  lemma FirstIndexInPrefix(s: seq<string>, n: nat, x: string)
    requires n <= |s| && x in s[..n]
    ensures x in s && FirstIndex(s, x) == FirstIndex(s[..n], x)
  {
  }

  lemma DedupElement(s: seq<string>, k: nat)
    requires k < |Dedup(s)|
    ensures Dedup(s)[k] in s
  {
    DedupMembers(s);
  }

  /** The de-duplicated list keeps each value where it was first seen:
      values appear in the order of their first occurrences. */
  lemma {:induction false} DedupFirstSeenOrder(s: seq<string>, i: nat, j: nat)
    requires i < j < |Dedup(s)|
    ensures Dedup(s)[i] in s && Dedup(s)[j] in s && FirstIndex(s, Dedup(s)[i]) < FirstIndex(s, Dedup(s)[j])
    decreases |s|
  {
    var n := |s| - 1;
    var init := s[..n];
    var d := Dedup(init);
    var r := Dedup(s);
    assert r == if s[n] in d then d else d + [s[n]];
    DedupElement(init, i);
    FirstIndexInPrefix(s, n, d[i]);
    assert r[i] == d[i];
    if j < |d| {
      assert r[j] == d[j];
      DedupFirstSeenOrder(init, i, j);
      FirstIndexInPrefix(s, n, d[j]);
    } else {
      assert r[j] == s[n];
      var f := FirstIndex(s, s[n]);
      if f < n {
        assert init[f] == s[n];
        DedupMembers(init);
      }
    }
  }

  /** A list without repeats is its own de-duplication. */
  lemma {:induction false} DedupOfDistinct(s: seq<string>)
    requires Distinct(s)
    ensures Dedup(s) == s
  {
    if s != [] {
      var init := s[..|s| - 1];
      DedupOfDistinct(init);
      assert s[|s| - 1] !in init;
      assert s == init + [s[|s| - 1]];
    }
  }

  // ---------------------------------------------------------------------------
  // _extract_formulas_with_text

  /** The records built from the unique formulas: type text-eqn, page N/A. */
  function TextRecords(unique: seq<string>): (r: seq<Formula>)
    ensures |r| == |unique|
    ensures forall i :: 0 <= i < |r| ==> r[i] == Formula(TextEqn, unique[i], NotApplicable)
  {
    seq(|unique|, i requires 0 <= i < |unique| => Formula(TextEqn, unique[i], NotApplicable))
  }

  /** What the text strategy returns for the given per-pattern matches. */
  function TextFormulas(matches: seq<seq<string>>): seq<Formula>
  {
    TextRecords(Dedup(CleanedMatches(matches)))
  }

  /** The text-strategy records are text-eqn records with page N/A whose
      contents are pairwise distinct and are exactly the cleaned matches. */
  lemma TextFormulasWellFormed(matches: seq<seq<string>>)
    ensures var fs := TextFormulas(matches);
      && Distinct(Contents(fs))
      && (forall i :: 0 <= i < |fs| ==> fs[i].kind == TextEqn && fs[i].page == NotApplicable)
      && (forall x :: x in Contents(fs) <==> x in CleanedMatches(matches))
  {
    var u := Dedup(CleanedMatches(matches));
    assert Contents(TextRecords(u)) == u;
    DedupDistinct(CleanedMatches(matches));
    DedupMembers(CleanedMatches(matches));
  }

  /** The OCR records the fallback extracts from every embedded image of every page. */
  function OcrFormulas(images: seq<seq<EmbeddedImage>>): seq<Formula>
  {
    if images == [] then []
    else OcrFormulas(images[..|images| - 1]) + OcrOnPage(images[|images| - 1], |images|)
  }

  function OcrOnPage(imgs: seq<EmbeddedImage>, pageNo: nat): seq<Formula>
  {
    if imgs == [] then []
    else OcrOnPage(imgs[..|imgs| - 1], pageNo) + OcrOfImage(imgs[|imgs| - 1], pageNo)
  }

  /** One image yields a record when it is extracted, decoded and read, and the
      text it reads looks like a formula. */
  function OcrOfImage(img: EmbeddedImage, pageNo: nat): seq<Formula>
  {
    if img.extractError.None? && img.decodes && img.ocrText.Some? && LooksLikeFormula(img.ocrText.value)
    then [Formula(OcrEqn, Strip(img.ocrText.value), PageNumber(pageNo))]
    else []
  }

  lemma OcrOnPageStep(imgs: seq<EmbeddedImage>, pageNo: nat, i: nat)
    requires i < |imgs|
    ensures OcrOnPage(imgs[..i + 1], pageNo) == OcrOnPage(imgs[..i], pageNo) + OcrOfImage(imgs[i], pageNo)
  {
    assert imgs[..i + 1][..i] == imgs[..i];
  }

  lemma OcrFormulasStep(images: seq<seq<EmbeddedImage>>, p: nat)
    requires p < |images|
    ensures OcrFormulas(images[..p + 1]) == OcrFormulas(images[..p]) + OcrOnPage(images[p], p + 1)
  {
    assert images[..p + 1][..p] == images[..p];
  }

  /** Every OCR record is an ocr-eqn on a page of the document (1-based), and its
      content is the non-empty, stripped text of an image that was read. */
  lemma {:induction false} OcrFormulasWellFormed(images: seq<seq<EmbeddedImage>>, k: nat)
    requires k < |OcrFormulas(images)|
    ensures var f := OcrFormulas(images)[k];
      && f.kind == OcrEqn && f.page.PageNumber? && 1 <= f.page.n <= |images|
      && f.content != [] && Strip(f.content) == f.content
  {
    var init := images[..|images| - 1];
    var a := OcrFormulas(init);
    if k < |a| {
      OcrFormulasWellFormed(init, k);
    } else {
      OcrOnPageWellFormed(images[|images| - 1], |images|, k - |a|);
    }
  }

  lemma {:induction false} OcrOnPageWellFormed(imgs: seq<EmbeddedImage>, pageNo: nat, k: nat)
    requires k < |OcrOnPage(imgs, pageNo)|
    ensures var f := OcrOnPage(imgs, pageNo)[k];
      && f.kind == OcrEqn && f.page == PageNumber(pageNo)
      && f.content != [] && Strip(f.content) == f.content
  {
    var init := imgs[..|imgs| - 1];
    var a := OcrOnPage(init, pageNo);
    var b := OcrOfImage(imgs[|imgs| - 1], pageNo);
    assert OcrOnPage(imgs, pageNo) == a + b;
    if k < |a| {
      OcrOnPageWellFormed(init, pageNo, k);
      assert OcrOnPage(imgs, pageNo)[k] == a[k];
    } else {
      OcrOfImageWellFormed(imgs[|imgs| - 1], pageNo);
      assert OcrOnPage(imgs, pageNo)[k] == b[0];
    }
  }

  lemma OcrOfImageWellFormed(img: EmbeddedImage, pageNo: nat)
    ensures |OcrOfImage(img, pageNo)| <= 1
    ensures OcrOfImage(img, pageNo) != [] ==>
      var f := OcrOfImage(img, pageNo)[0];
      && f.kind == OcrEqn && f.page == PageNumber(pageNo)
      && f.content != [] && Strip(f.content) == f.content
  {
    if OcrOfImage(img, pageNo) != [] {
      var t := img.ocrText.value;
      AcceptedTextNonEmpty(t);
      StripIdempotent(t);
    }
  }

  /** The OCR results appended behind the current list: an OCR record is kept only
      if its content is not yet among the contents collected so far. */
  function Merge(final: seq<Formula>, ocr: seq<Formula>): seq<Formula>
  {
    if ocr == [] then final
    else
      var m := Merge(final, ocr[..|ocr| - 1]);
      var f := ocr[|ocr| - 1];
      if f.content in Contents(m) then m else m + [f]
  }

  // ---------------------------------------------------------------------------
  // OCR acceptance

  /** The indicator strings; the first one is a single literal, not a character class. */
  const FormulaIndicators: seq<string> :=
    ["+=∑∫∂<>()[]{}", "sin", "cos", "tan", "log", "exp", "sqrt", "sum", "prod", "int", "lim"]

  /** OCR text is accepted when some indicator occurs in it. */
  predicate LooksLikeFormula(ocrText: string)
  {
    exists k | 0 <= k < |FormulaIndicators| :: Contains(ocrText, FormulaIndicators[k])
  }

  lemma {:induction false} ContainsFirstChar(s: string, p: string)
    requires p != [] && Contains(s, p)
    ensures p[0] in s
  {
    if !(|p| <= |s| && s[..|p|] == p) {
      ContainsFirstChar(s[1..], p);
    } else {
      assert s[0] == p[0];
    }
  }

  /** Accepted OCR text always keeps a non-empty content after strip(). */
  lemma AcceptedTextNonEmpty(ocrText: string)
    requires LooksLikeFormula(ocrText)
    ensures Strip(ocrText) != []
  {
    var k :| 0 <= k < |FormulaIndicators| && Contains(ocrText, FormulaIndicators[k]);
    var p := FormulaIndicators[k];
    ContainsFirstChar(ocrText, p);
    var i :| 0 <= i < |ocrText| && ocrText[i] == p[0];
    StripNonEmpty(ocrText, i);
  }

  /** A named function token is enough for acceptance. */
  lemma FunctionTokenAccepted(before: string, after: string)
    ensures LooksLikeFormula(before + "sin" + after)
  {
    var s := before + "sin" + after;
    assert s[|before|..|before| + 3] == "sin";
    ContainsAt(s, "sin", |before|);
    assert Contains(s, FormulaIndicators[1]);
  }

  /** Operators alone are not: "x+y=z" holds none of the indicators, since the
      first indicator must occur as a whole. */
  lemma OperatorsAloneRejected()
    ensures !LooksLikeFormula("x+y=z")
  {
    var s := "x+y=z";
    forall k | 0 <= k < |FormulaIndicators| ensures !Contains(s, FormulaIndicators[k]) {
      var p := FormulaIndicators[k];
      if |p| <= 5 {
        assert p[0] !in s;
        if Contains(s, p) { ContainsFirstChar(s, p); }
      }
      else {
        NotContainsLonger(s, p);
      }
    }
  }

  lemma {:induction false} NotContainsLonger(s: string, p: string)
    requires |p| > |s|
    ensures !Contains(s, p)
  {
    if s != [] { NotContainsLonger(s[1..], p); }
  }

  // ---------------------------------------------------------------------------
  // Merge properties

  /** The text-strategy list is an unchanged prefix of the merged list. */
  lemma {:induction false} MergeKeepsPrefix(final: seq<Formula>, ocr: seq<Formula>)
    ensures |Merge(final, ocr)| <= |final| + |ocr|
    ensures |final| <= |Merge(final, ocr)| && Merge(final, ocr)[..|final|] == final
  {
    if ocr != [] {
      MergeKeepsPrefix(final, ocr[..|ocr| - 1]);
      var m := Merge(final, ocr[..|ocr| - 1]);
      assert (m + [ocr[|ocr| - 1]])[..|final|] == m[..|final|];
    }
  }

  /** Merging is first-seen de-duplication of the contents: when the text
      contents are pairwise distinct, the merged contents are the de-duplicated
      text contents followed by OCR contents; in particular they are pairwise
      distinct and every OCR content appears exactly once. */
  lemma {:induction false} MergeIsDedup(final: seq<Formula>, ocr: seq<Formula>)
    requires Distinct(Contents(final))
    ensures Contents(Merge(final, ocr)) == Dedup(Contents(final) + Contents(ocr))
  {
    if ocr == [] {
      assert Contents(final) + Contents(ocr) == Contents(final);
      DedupOfDistinct(Contents(final));
    } else {
      var init := ocr[..|ocr| - 1];
      var f := ocr[|ocr| - 1];
      MergeIsDedup(final, init);
      var c := Contents(final) + Contents(init);
      assert Contents(final) + Contents(ocr) == c + [f.content];
      DedupSnoc(c, f.content);
      ContentsSnoc(Merge(final, init), f);
    }
  }

  // ---------------------------------------------------------------------------
  // Visuals

  const CaptionPlaceholder: string := "Caption extraction not yet implemented."

  /** One record of extract_visuals (its "type" is always "image"). */
  datatype Visual = Visual(path: string, page: nat, caption: string)

  /** page{p}_img{i}.png */
  function ImageFileName(pageNo: nat, imgNo: nat): (name: string)
    ensures '/' !in name
  {
    "page" + (Decimal(pageNo) + ("_img" + (Decimal(imgNo) + ".png")))
  }

  /** A character of a concatenation comes from one of its two parts. */
  lemma CharAt(a: string, x: string, k: nat)
    requires k < |a| + |x|
    ensures (a + x)[k] == if k < |a| then a[k] else x[k - |a|]
  {
  }

  /** Two digit strings followed by text that starts with a non-digit can only
      be equal if the digit strings are. */
  lemma DigitsPrefixUnique(a: string, x: string, b: string, y: string)
    requires AllDigits(a) && AllDigits(b) && x != [] && y != [] && !IsDigit(x[0]) && !IsDigit(y[0])
    requires a + x == b + y
    ensures a == b && x == y
  {
    var m: nat := if |a| < |b| then |a| else |b|;
    if |a| != |b| {
      CharAt(a, x, m);
      CharAt(b, y, m);
    } else {
      assert a == (a + x)[..|a|] && b == (b + y)[..|b|];
      assert x == (a + x)[|a|..] && y == (b + y)[|b|..];
    }
  }

  lemma DecimalInjective(m: nat, n: nat)
    requires Decimal(m) == Decimal(n)
    ensures m == n
  {
    DecimalRoundTrip(m);
    DecimalRoundTrip(n);
  }

  lemma CancelPrefix(u: string, x: string, y: string)
    requires u + x == u + y
    ensures x == y
  {
    assert x == (u + x)[|u|..] && y == (u + y)[|u|..];
  }

  /** Image file names are distinct for distinct (page, image) positions. */
  lemma ImageFileNameInjective(p: nat, i: nat, q: nat, j: nat)
    requires ImageFileName(p, i) == ImageFileName(q, j)
    ensures p == q && i == j
  {
    var x := "_img" + (Decimal(i) + ".png");
    var y := "_img" + (Decimal(j) + ".png");
    CancelPrefix("page", Decimal(p) + x, Decimal(q) + y);
    DigitsPrefixUnique(Decimal(p), x, Decimal(q), y);
    DecimalInjective(p, q);
    CancelPrefix("_img", Decimal(i) + ".png", Decimal(j) + ".png");
    DigitsPrefixUnique(Decimal(i), ".png", Decimal(j), ".png");
    DecimalInjective(i, j);
  }

  /** The record for image number `imgIndex` (0-based) on page `pageIndex` (0-based). */
  function VisualRecord(outputDir: string, pageIndex: nat, imgIndex: nat): Visual
  {
    Visual(PathJoin(outputDir, ImageFileName(pageIndex + 1, imgIndex + 1)), pageIndex + 1, CaptionPlaceholder)
  }

  /** What extract_visuals returns: for every image that decodes and saves, its
      record, page by page; the first extraction error aborts the whole call. */
  function Visuals(outputDir: string, images: seq<seq<EmbeddedImage>>): Result<seq<Visual>>
  {
    if images == [] then Ok([])
    else
      match Visuals(outputDir, images[..|images| - 1])
      case Err(e) => Err(e)
      case Ok(vs) =>
        match VisualsOnPage(outputDir, |images| - 1, images[|images| - 1])
        case Err(e) => Err(e)
        case Ok(ws) => Ok(vs + ws)
  }

  function VisualsOnPage(outputDir: string, pageIndex: nat, imgs: seq<EmbeddedImage>): Result<seq<Visual>>
  {
    if imgs == [] then Ok([])
    else
      match VisualsOnPage(outputDir, pageIndex, imgs[..|imgs| - 1])
      case Err(e) => Err(e)
      case Ok(vs) =>
        var img := imgs[|imgs| - 1];
        if img.extractError.Some? then Err(img.extractError.value)
        else if img.decodes && img.saves then Ok(vs + [VisualRecord(outputDir, pageIndex, |imgs| - 1)])
        else Ok(vs)
  }

  /** Every image record sits on a page within the document, carries the fixed
      caption, and is stored under the directory as page{p}_img{i}.png with the
      1-based page p and the 1-based position i of the image on its page. */
  lemma {:induction false} VisualsWellFormed(outputDir: string, images: seq<seq<EmbeddedImage>>, k: nat)
    requires Visuals(outputDir, images).Ok? && k < |Visuals(outputDir, images).value|
    ensures var v := Visuals(outputDir, images).value[k];
      && 1 <= v.page <= |images|
      && v.caption == CaptionPlaceholder
      && exists i :: 1 <= i <= |images[v.page - 1]| && v.path == PathJoin(outputDir, ImageFileName(v.page, i))
  {
    var init := images[..|images| - 1];
    var vs := Visuals(outputDir, init).value;
    var ws := VisualsOnPage(outputDir, |images| - 1, images[|images| - 1]).value;
    assert Visuals(outputDir, images).value == vs + ws;
    if k < |vs| {
      VisualsWellFormed(outputDir, init, k);
      assert images[vs[k].page - 1] == init[vs[k].page - 1];
    } else {
      VisualsOnPageWellFormed(outputDir, |images| - 1, images[|images| - 1], k - |vs|);
    }
  }

  lemma {:induction false} VisualsOnPageWellFormed(outputDir: string, pageIndex: nat, imgs: seq<EmbeddedImage>, k: nat)
    requires VisualsOnPage(outputDir, pageIndex, imgs).Ok? && k < |VisualsOnPage(outputDir, pageIndex, imgs).value|
    ensures var v := VisualsOnPage(outputDir, pageIndex, imgs).value[k];
      && v.page == pageIndex + 1
      && v.caption == CaptionPlaceholder
      && exists i :: 1 <= i <= |imgs| && v.path == PathJoin(outputDir, ImageFileName(v.page, i))
  {
    var init := imgs[..|imgs| - 1];
    var vs := VisualsOnPage(outputDir, pageIndex, init).value;
    if k < |vs| {
      VisualsOnPageWellFormed(outputDir, pageIndex, init, k);
    }
  }

  /** When extraction succeeds there is one record per image that decodes and saves. */
  function SavedCount(imgs: seq<EmbeddedImage>): nat
  {
    if imgs == [] then 0
    else SavedCount(imgs[..|imgs| - 1]) + (if imgs[|imgs| - 1].decodes && imgs[|imgs| - 1].saves then 1 else 0)
  }

  lemma {:induction false} VisualsOnPageCount(outputDir: string, pageIndex: nat, imgs: seq<EmbeddedImage>)
    requires VisualsOnPage(outputDir, pageIndex, imgs).Ok?
    ensures |VisualsOnPage(outputDir, pageIndex, imgs).value| == SavedCount(imgs)
  {
    if imgs != [] {
      VisualsOnPageCount(outputDir, pageIndex, imgs[..|imgs| - 1]);
    }
  }

  // ---------------------------------------------------------------------------
  // The processor

  const MinFormulaCount: int := 5

  /** `text += page.get_text()` over every page. */
  function RawText(pages: seq<string>): string
  {
    if pages == [] then [] else RawText(pages[..|pages| - 1]) + pages[|pages| - 1]
  }

  /** The raw text of two runs of pages is their raw texts one after the other. */
  lemma {:induction false} RawTextAppend(a: seq<string>, b: seq<string>)
    ensures RawText(a + b) == RawText(a) + RawText(b)
    decreases |b|
  {
    if b == [] {
      assert a + b == a;
    } else {
      var init := b[..|b| - 1];
      assert (a + b)[..|a + b| - 1] == a + init;
      RawTextAppend(a, init);
      AppendAssoc(RawText(a), RawText(init), b[|b| - 1]);
    }
  }

  /** Each page's text sits in the raw text right after the text of the pages before it. */
  lemma RawTextPage(pages: seq<string>, k: nat)
    requires k < |pages|
    ensures var off := |RawText(pages[..k])|;
      off + |pages[k]| <= |RawText(pages)| && RawText(pages)[off..off + |pages[k]|] == pages[k]
  {
    assert pages == pages[..k] + pages[k..];
    RawTextAppend(pages[..k], pages[k..]);
    assert pages[k..] == [pages[k]] + pages[k + 1..];
    RawTextAppend([pages[k]], pages[k + 1..]);
    assert [pages[k]][..0] == [];
    assert RawText([pages[k]]) == pages[k];
    AppendAssoc(RawText(pages[..k]), pages[k], RawText(pages[k + 1..]));
  }

  /** Whether the OCR fallback runs: it is enabled, the text strategy found fewer
      than the minimum, and tesseract is available. */
  predicate OcrGateOpen(textCount: nat, minFormulaCount: int, useOcrFallback: bool, tesseractAvailable: bool)
  {
    useOcrFallback && textCount < minFormulaCount && tesseractAvailable
  }

  /** The formulas _extract_formulas returns. */
  function Formulas(matches: seq<seq<string>>, images: seq<seq<EmbeddedImage>>, minFormulaCount: int, useOcrFallback: bool, tesseractAvailable: bool): seq<Formula>
  {
    var text := TextFormulas(matches);
    if OcrGateOpen(|text|, minFormulaCount, useOcrFallback, tesseractAvailable)
    then Merge(text, OcrFormulas(images))
    else text
  }

  /** The text-strategy list is an unchanged prefix of the result, which is the
      text list itself when the gate is closed and otherwise extends it by the
      OCR contents not seen before; the contents never repeat. */
  lemma FormulasShape(matches: seq<seq<string>>, images: seq<seq<EmbeddedImage>>, minFormulaCount: int, useOcrFallback: bool, tesseractAvailable: bool)
    ensures var text := TextFormulas(matches); var fs := Formulas(matches, images, minFormulaCount, useOcrFallback, tesseractAvailable);
      && |text| <= |fs| && fs[..|text|] == text
      && Distinct(Contents(fs))
      && (!OcrGateOpen(|text|, minFormulaCount, useOcrFallback, tesseractAvailable) ==> fs == text)
      && (OcrGateOpen(|text|, minFormulaCount, useOcrFallback, tesseractAvailable) ==>
            Contents(fs) == Dedup(Contents(text) + Contents(OcrFormulas(images))))
  {
    var text := TextFormulas(matches);
    TextFormulasWellFormed(matches);
    if OcrGateOpen(|text|, minFormulaCount, useOcrFallback, tesseractAvailable) {
      MergeKeepsPrefix(text, OcrFormulas(images));
      MergeIsDedup(text, OcrFormulas(images));
      DedupDistinct(Contents(text) + Contents(OcrFormulas(images)));
    }
  }

  /** With the threshold of process_paper, five or more text-strategy formulas
      are returned as they are, whatever OCR would find. */
  lemma EnoughTextFormulasSkipOcr(matches: seq<seq<string>>, images: seq<seq<EmbeddedImage>>, tesseractAvailable: bool)
    requires |TextFormulas(matches)| >= MinFormulaCount
    ensures Formulas(matches, images, MinFormulaCount, true, tesseractAvailable) == TextFormulas(matches)
  {
  }

  class ResearchPaperProcessor {
    /** Whether a tesseract binary was found when the processor was created. */
    const tesseractAvailable: bool

    constructor (tesseractFound: bool)
      ensures tesseractAvailable == tesseractFound
    {
      tesseractAvailable := tesseractFound;
    }

    /** process_paper: a missing path raises before any extraction; a file that
        `fitz.open` cannot open as a PDF raises `openError`; otherwise the raw
        text and the formulas found with a minimum count of 5. */
    method ProcessPaper(pdfPath: string, pathExists: bool, openError: Option<string>, pdf: Pdf, matches: seq<seq<string>>)
      returns (result: Result<(string, seq<Formula>)>)
      ensures !pathExists ==> result == Err("PDF file not found at " + pdfPath)
      ensures pathExists && openError.Some? ==> result == Err(openError.value)
      ensures pathExists && openError.None? ==> result == Ok((RawText(pdf.pages), Formulas(matches, pdf.images, MinFormulaCount, true, tesseractAvailable)))
    {
      if !pathExists {
        return Err("PDF file not found at " + pdfPath);
      }
      if openError.Some? {
        return Err(openError.value);
      }
      var rawText := ExtractTextFromPdf(pdf.pages);
      var formulas := ExtractFormulas(matches, pdf.images, MinFormulaCount, true);
      return Ok((rawText, formulas));
    }

    /** _extract_text_from_pdf */
    method ExtractTextFromPdf(pages: seq<string>) returns (text: string)
      ensures text == RawText(pages)
    {
      text := "";
      for p := 0 to |pages|
        invariant text == RawText(pages[..p])
      {
        assert pages[..p + 1][..p] == pages[..p];
        text := text + pages[p];
      }
      assert pages[..|pages|] == pages;
    }

    /** _extract_formulas: text strategy, then the OCR fallback behind the gate,
        merged by set membership on the contents. */
    method ExtractFormulas(matches: seq<seq<string>>, images: seq<seq<EmbeddedImage>>, minFormulaCount: int, useOcrFallback: bool)
      returns (formulas: seq<Formula>)
      ensures formulas == Formulas(matches, images, minFormulaCount, useOcrFallback, tesseractAvailable)
    {
      var textFormulas := ExtractFormulasWithText(matches);
      if useOcrFallback && |textFormulas| < minFormulaCount {
        if tesseractAvailable {
          var ocrFormulas := ExtractFormulasWithOcr(images);
          var finalFormulas := textFormulas;
          var existingContents := set f | f in finalFormulas :: f.content;
          for i := 0 to |ocrFormulas|
            invariant finalFormulas == Merge(textFormulas, ocrFormulas[..i])
            invariant forall c :: c in existingContents <==> c in Contents(finalFormulas)
          {
            var ocrF := ocrFormulas[i];
            assert ocrFormulas[..i + 1][..i] == ocrFormulas[..i];
            if ocrF.content !in existingContents {
              finalFormulas := finalFormulas + [ocrF];
              existingContents := existingContents + {ocrF.content};
            }
          }
          assert ocrFormulas[..|ocrFormulas|] == ocrFormulas;
          return finalFormulas;
        }
      }
      return textFormulas;
    }

    /** _extract_formulas_with_text after the regex engine: clean every match in
        pattern order, de-duplicate keeping first occurrences, build records. */
    method ExtractFormulasWithText(matches: seq<seq<string>>) returns (formulas: seq<Formula>)
      ensures formulas == TextFormulas(matches)
    {
      var foundFormulas := [];
      for p := 0 to |matches|
        invariant foundFormulas == CleanedMatches(matches[..p])
      {
        var kept := CleanMatches(matches[p]);
        foundFormulas := foundFormulas + kept;
        CleanedMatchesStep(matches, p);
      }
      assert matches[..|matches|] == matches;
      var uniqueFormulas := Dedup(foundFormulas);
      formulas := TextRecords(uniqueFormulas);
    }

    /** The matches of one pattern, each stripped and kept when longer than two characters. */
    method CleanMatches(ms: seq<string>) returns (kept: seq<string>)
      ensures kept == KeepLong(ms)
    {
      kept := [];
      for j := 0 to |ms|
        invariant kept == KeepLong(ms[..j])
      {
        var cleanedFormula := Strip(ms[j]);
        KeepLongStep(ms, j);
        if cleanedFormula != [] && |cleanedFormula| > 2 {
          kept := kept + [cleanedFormula];
        }
      }
      assert ms[..|ms|] == ms;
    }

    /** _extract_formulas_with_ocr: every image of every page, in order. */
    method ExtractFormulasWithOcr(images: seq<seq<EmbeddedImage>>) returns (formulas: seq<Formula>)
      ensures formulas == (if tesseractAvailable then OcrFormulas(images) else [])
    {
      if !tesseractAvailable {
        return [];
      }
      formulas := [];
      for pageNum := 0 to |images|
        invariant formulas == OcrFormulas(images[..pageNum])
      {
        var onPage := OcrPage(images[pageNum], pageNum + 1);
        formulas := formulas + onPage;
        OcrFormulasStep(images, pageNum);
      }
      assert images[..|images|] == images;
    }

    /** The OCR records of the images of one page. */
    method OcrPage(imageList: seq<EmbeddedImage>, pageNo: nat) returns (formulas: seq<Formula>)
      ensures formulas == OcrOnPage(imageList, pageNo)
    {
      formulas := [];
      for imgIndex := 0 to |imageList|
        invariant formulas == OcrOnPage(imageList[..imgIndex], pageNo)
      {
        var img := imageList[imgIndex];
        OcrOnPageStep(imageList, pageNo, imgIndex);
        if img.extractError.None? && img.decodes && img.ocrText.Some? {
          var ocrText := img.ocrText.value;
          if LooksLikeFormula(ocrText) {
            formulas := formulas + [Formula(OcrEqn, Strip(ocrText), PageNumber(pageNo))];
          }
        }
      }
      assert imageList[..|imageList|] == imageList;
    }

    /** extract_visuals: one record per image that decodes and saves; an image the
        PDF library cannot extract aborts the call. */
    method ExtractVisuals(outputDir: string, images: seq<seq<EmbeddedImage>>) returns (result: Result<seq<Visual>>)
      ensures result == Visuals(outputDir, images)
    {
      var visuals := [];
      for pageNum := 0 to |images|
        invariant Visuals(outputDir, images[..pageNum]) == Ok(visuals)
      {
        var imgList := images[pageNum];
        var onPage := [];
        for imgIndex := 0 to |imgList|
          invariant VisualsOnPage(outputDir, pageNum, imgList[..imgIndex]) == Ok(onPage)
        {
          var img := imgList[imgIndex];
          assert imgList[..imgIndex + 1][..imgIndex] == imgList[..imgIndex];
          if img.extractError.Some? {
            assert images[..pageNum + 1][..pageNum] == images[..pageNum];
            PageErrorAborts(outputDir, images, pageNum, imgIndex);
            return Err(img.extractError.value);
          }
          if img.decodes && img.saves {
            onPage := onPage + [VisualRecord(outputDir, pageNum, imgIndex)];
          }
        }
        assert imgList[..|imgList|] == imgList;
        assert images[..pageNum + 1][..pageNum] == images[..pageNum];
        visuals := visuals + onPage;
      }
      assert images[..|images|] == images;
      return Ok(visuals);
    }
  }

  /** An extraction error on a page makes the whole result that error, whatever follows. */
  lemma PageErrorAborts(outputDir: string, images: seq<seq<EmbeddedImage>>, pageNum: nat, imgIndex: nat)
    requires pageNum < |images| && imgIndex < |images[pageNum]|
    requires Visuals(outputDir, images[..pageNum]).Ok?
    requires VisualsOnPage(outputDir, pageNum, images[pageNum][..imgIndex]).Ok?
    requires images[pageNum][imgIndex].extractError.Some?
    ensures Visuals(outputDir, images) == Err(images[pageNum][imgIndex].extractError.value)
  {
    var e := images[pageNum][imgIndex].extractError.value;
    OnPageErrorPersists(outputDir, pageNum, images[pageNum], imgIndex, |images[pageNum]|);
    assert images[pageNum][..|images[pageNum]|] == images[pageNum];
    VisualsErrorFrom(outputDir, images, pageNum + 1, |images|, e);
    assert images[..|images|] == images;
  }

  lemma {:induction false} OnPageErrorPersists(outputDir: string, pageIndex: nat, imgs: seq<EmbeddedImage>, i: nat, n: nat)
    requires i < n <= |imgs| && imgs[i].extractError.Some?
    requires VisualsOnPage(outputDir, pageIndex, imgs[..i]).Ok?
    ensures VisualsOnPage(outputDir, pageIndex, imgs[..n]) == Err(imgs[i].extractError.value)
    decreases n
  {
    assert imgs[..n][..n - 1] == imgs[..n - 1];
    if n - 1 > i {
      OnPageErrorPersists(outputDir, pageIndex, imgs, i, n - 1);
    } else {
      assert imgs[..n][n - 1] == imgs[i];
    }
  }

  lemma {:induction false} VisualsErrorFrom(outputDir: string, images: seq<seq<EmbeddedImage>>, n: nat, m: nat, e: string)
    requires 0 < n <= m <= |images|
    requires Visuals(outputDir, images[..n - 1]).Ok?
    requires VisualsOnPage(outputDir, n - 1, images[n - 1]) == Err(e)
    ensures Visuals(outputDir, images[..m]) == Err(e)
    decreases m
  {
    assert images[..m][..m - 1] == images[..m - 1];
    if m > n {
      VisualsErrorFrom(outputDir, images, n, m - 1, e);
    } else {
      assert images[..m][m - 1] == images[n - 1];
    }
  }
}
