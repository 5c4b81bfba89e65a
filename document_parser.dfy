/** backend/document_parser.py: choosing a parser by file extension and
    assembling the text the parsers return. pdfplumber, python-docx, PIL and
    pytesseract are not modelled; `Extractors` holds what each of them makes
    of the uploaded bytes (None where that library raises). */
module DocumentParser {
  import opened Wrappers
  import opened Text

  /** One PDF page: `page.extract_text()` (None or text) and the OCR of its
      image (None when rendering or OCR raised). */
  datatype Page = Page(extracted: Option<string>, ocr: Option<string>)

  datatype Extractors = Extractors(
    pdf: Option<seq<Page>>,     // pages, or None when pdfplumber cannot open the bytes
    docx: Option<seq<string>>,  // paragraph texts, or None when python-docx cannot open them
    image: Option<string>,      // OCR of the image, or None when PIL or tesseract raise
    utf8: Option<string>)       // `bytes.decode("utf-8")`, or None on a decoding error

  datatype ParseError = PdfUnreadable | DocxUnreadable | ImageUnreadable

  datatype Parser = PdfParser | DocxParser | ImageParser | PlainText

  /** Position of the last `c` in `s`, or -1 (`str.rfind`). */
  function LastIndexOf(s: string, c: char): (r: int)
    ensures -1 <= r < |s|
    ensures r >= 0 ==> s[r] == c
    ensures forall i :: r < i < |s| ==> s[i] != c
  {
    if s == [] then -1
    else if s[|s| - 1] == c then |s| - 1
    else LastIndexOf(s[..|s| - 1], c)
  }

  /** The last occurrence is the one with no occurrence after it. */
  lemma LastIndexOfAt(s: string, c: char, k: int)
    requires 0 <= k < |s| && s[k] == c
    requires forall j :: k < j < |s| ==> s[j] != c
    ensures LastIndexOf(s, c) == k
  {
  }

  /** `os.path.splitext` on POSIX: the extension runs from the last '.' of
      the final path component, provided that component has a character
      other than '.' before it (leading dots do not start an extension). */
  function SplitExt(p: string): (r: (string, string))
    ensures r.0 + r.1 == p
    ensures r.1 == "" || (r.1[0] == '.' && |r.1| < |p|)
    ensures forall i :: 1 <= i < |r.1| ==> r.1[i] != '.' && r.1[i] != '/'
    ensures r.1 != "" <==>
      exists i, j :: LastIndexOf(p, '/') < i < j < |p| && p[j] == '.' && p[i] != '.'
    ensures r.1 != "" ==> r.1 == p[LastIndexOf(p, '.')..]
  {
    var sep := LastIndexOf(p, '/');
    var dot := LastIndexOf(p, '.');
    if dot > sep && exists i :: sep < i < dot && p[i] != '.' then
      assert p[..dot] + p[dot..] == p;
      (p[..dot], p[dot..])
    else
      assert p + "" == p;
      (p, "")
  }

  const ImageExtensions: seq<string> := [".png", ".jpg", ".jpeg", ".tiff", ".bmp"]

  /** The branch `parse_file` takes for an extension. */
  function RouteExt(ext: string): (r: Parser)
    ensures r == PdfParser <==> ext == ".pdf"
    ensures r == DocxParser <==> ext == ".docx" || ext == ".doc"
    ensures r == ImageParser <==> ext in ImageExtensions
  {
    if ext == ".pdf" then PdfParser
    else if ext in [".docx", ".doc"] then DocxParser
    else if ext in ImageExtensions then ImageParser
    else PlainText
  }

  /** The branch `parse_file` takes for a file name: a name without an
      extension is read as plain text. */
  function Route(filename: string): (r: Parser)
    ensures SplitExt(Lower(filename)).1 == "" ==> r == PlainText
  {
    RouteExt(SplitExt(Lower(filename)).1)
  }

  lemma PdfExtensionIsSuffix(p: string)
    ensures SplitExt(p).1 == ".pdf" ==> EndsWith(p, ".pdf")
  {
    var r := SplitExt(p);
    if r.1 == ".pdf" {
      assert p[|p| - 4..] == r.1;
    }
  }

  lemma PdfSuffixIsExtension(p: string)
    requires EndsWith(p, ".pdf") && |p| > 4 && p[|p| - 5] != '.' && p[|p| - 5] != '/'
    ensures SplitExt(p).1 == ".pdf"
  {
    var n := |p|;
    assert p[n - 4..] == ".pdf";
    assert p[n - 4] == '.' && p[n - 3] == 'p' && p[n - 2] == 'd' && p[n - 1] == 'f';
    var sep := LastIndexOf(p, '/');
    var dot := LastIndexOf(p, '.');
    assert dot == n - 4;
    assert sep < n - 5;
  }

  /** A name without '.' has no extension ("readme"). */
  lemma NoDotNoExtension(p: string)
    requires forall i :: 0 <= i < |p| ==> p[i] != '.'
    ensures SplitExt(p) == (p, "")
  {
  }

  /** A leading dot does not start an extension: ".pdf" has none. */
  lemma LeadingDotNoExtension(p: string)
    requires |p| > 0 && p[0] == '.'
    requires forall i :: 0 < i < |p| ==> p[i] != '.'
    ensures SplitExt(p) == (p, "")
  {
    assert LastIndexOf(p, '.') == 0;
  }

  /** Only names whose lower-cased form ends in ".pdf" reach the PDF parser. */
  lemma RoutePdfNeedsSuffix(filename: string)
    ensures Route(filename) == PdfParser ==> EndsWith(Lower(filename), ".pdf")
  {
    PdfExtensionIsSuffix(Lower(filename));
  }

  /** A lower-cased name ending in ".pdf" reaches the PDF parser when a
      character other than '.' or '/' precedes that suffix ("Lease.PDF");
      ".pdf" and "dir/.pdf" are read as plain text instead. */
  lemma RoutePdfBySuffix(filename: string)
    ensures var p := Lower(filename);
      (EndsWith(p, ".pdf") && |p| > 4 && p[|p| - 5] != '.' && p[|p| - 5] != '/') ==> Route(filename) == PdfParser
  {
    var p := Lower(filename);
    if EndsWith(p, ".pdf") && |p| > 4 && p[|p| - 5] != '.' && p[|p| - 5] != '/' {
      PdfSuffixIsExtension(p);
      assert SplitExt(p).1 == ".pdf";
      assert RouteExt(".pdf") == PdfParser;
    }
  }

  /** Exactly the names whose lower-cased form ends in ".pdf" with a
      character other than '.' between the last '/' and that suffix reach
      the PDF parser ("a..pdf" does, ".pdf" and "dir/..pdf" do not). */
  lemma RoutePdfIff(filename: string)
    ensures var p := Lower(filename);
      Route(filename) == PdfParser <==>
        EndsWith(p, ".pdf") && exists i :: LastIndexOf(p, '/') < i < |p| - 4 && p[i] != '.'
  {
    PdfExtensionIff(Lower(filename));
  }

  /** The extension is ".pdf" exactly when the path ends in ".pdf" with a
      character other than '.' before it in the final path component. */
  lemma PdfExtensionIff(p: string)
    ensures SplitExt(p).1 == ".pdf" <==>
      EndsWith(p, ".pdf") && exists i :: LastIndexOf(p, '/') < i < |p| - 4 && p[i] != '.'
  {
    if SplitExt(p).1 == ".pdf" {
      ExtensionHasStem(p);
    }
    if EndsWith(p, ".pdf") && exists i :: LastIndexOf(p, '/') < i < |p| - 4 && p[i] != '.' {
      StemMakesPdfExtension(p);
    }
  }

  /** A non-empty extension is a suffix with a character other than '.'
      before it in the final path component. */
  lemma ExtensionHasStem(p: string)
    requires SplitExt(p).1 != ""
    ensures EndsWith(p, SplitExt(p).1)
    ensures exists i :: LastIndexOf(p, '/') < i < |p| - |SplitExt(p).1| && p[i] != '.'
  {
    var e := SplitExt(p).1;
    var dot := LastIndexOf(p, '.');
    assert e == p[dot..];
    var i, j :| LastIndexOf(p, '/') < i < j < |p| && p[j] == '.' && p[i] != '.';
    assert j <= dot;
  }

  lemma StemMakesPdfExtension(p: string)
    requires EndsWith(p, ".pdf") && exists i :: LastIndexOf(p, '/') < i < |p| - 4 && p[i] != '.'
    ensures SplitExt(p).1 == ".pdf"
  {
    var n := |p|;
    assert p[n - 4..] == ".pdf";
    assert p[n - 4] == '.' && p[n - 3] == 'p' && p[n - 2] == 'd' && p[n - 1] == 'f';
    forall j | n - 4 < j < n ensures p[j] != '.' && p[j] != '/' {
      assert j == n - 3 || j == n - 2 || j == n - 1;
    }
    StemMakesExtension(p, n - 4);
  }

  /** A '.' with no '.' or '/' after it, and a character other than '.'
      before it in the final component, starts the extension. */
  lemma StemMakesExtension(p: string, k: int)
    requires 0 <= k < |p| && p[k] == '.'
    requires forall j :: k < j < |p| ==> p[j] != '.' && p[j] != '/'
    requires exists i :: LastIndexOf(p, '/') < i < k && p[i] != '.'
    ensures SplitExt(p).1 == p[k..]
  {
    LastIndexOfAt(p, '.', k);
    var i :| LastIndexOf(p, '/') < i < k && p[i] != '.';
    assert LastIndexOf(p, '/') < i < k < |p| && p[k] == '.' && p[i] != '.';
  }

  /** The paragraphs `parse_docx` keeps: those not blank after `strip()`,
      each as often as it occurs (`KeepNonBlankCounts`) and in their order
      (`KeepNonBlankAppend`). */
  function KeepNonBlank(ps: seq<string>): (r: seq<string>)
    ensures |r| <= |ps|
    ensures forall i :: 0 <= i < |r| ==> !IsBlank(r[i])
    ensures forall p :: p in ps && !IsBlank(p) ==> p in r
    ensures multiset(r) <= multiset(ps)
    ensures r == [] <==> forall i :: 0 <= i < |ps| ==> IsBlank(ps[i])
  {
    if ps == [] then []
    else
      var init := ps[..|ps| - 1];
      var last := ps[|ps| - 1];
      assert ps == init + [last];
      assert forall i :: 0 <= i < |init| ==> ps[i] == init[i];
      var rest := KeepNonBlank(init);
      if IsBlank(last) then rest else rest + [last]
  }

  /** Each non-blank paragraph is kept as often as it occurs, and no blank
      one is kept. */
  lemma {:induction false} KeepNonBlankCounts(ps: seq<string>)
    ensures forall p :: multiset(KeepNonBlank(ps))[p] == if IsBlank(p) then 0 else multiset(ps)[p]
  {
    if ps != [] {
      var init, last := ps[..|ps| - 1], ps[|ps| - 1];
      assert ps == init + [last];
      KeepNonBlankCounts(init);
    }
  }

  /** The filter keeps the paragraphs in their order: it works paragraph by
      paragraph. */
  lemma {:induction false} KeepNonBlankAppend(a: seq<string>, b: seq<string>)
    ensures KeepNonBlank(a + b) == KeepNonBlank(a) + KeepNonBlank(b)
  {
    if b == [] {
      assert a + b == a;
    } else {
      var b', x := b[..|b| - 1], b[|b| - 1];
      assert b == b' + [x];
      assert a + b == (a + b') + [x];
      var tail := if IsBlank(x) then [] else [x];
      KeepNonBlankSnoc(a + b', x);
      KeepNonBlankSnoc(b', x);
      KeepNonBlankAppend(a, b');
      ConcatAssoc(KeepNonBlank(a), KeepNonBlank(b'), tail);
    }
  }

  /** Helper: concatenation is associative. */
  lemma ConcatAssoc<T>(x: seq<T>, y: seq<T>, z: seq<T>)
    ensures (x + y) + z == x + (y + z)
  {
  }

  /** Helper: one more paragraph at the end is filtered on its own. */
  lemma KeepNonBlankSnoc(ps: seq<string>, x: string)
    ensures KeepNonBlank(ps + [x]) == KeepNonBlank(ps) + (if IsBlank(x) then [] else [x])
  {
    assert (ps + [x])[..|ps|] == ps;
  }

  /** One paragraph is kept iff it is not blank. */
  lemma KeepNonBlankOne(p: string)
    ensures KeepNonBlank([p]) == if IsBlank(p) then [] else [p]
  {
    assert [p][..0] == [];
  }

  /** A non-blank paragraph is not empty, so neither is a join that starts
      with one. */
  lemma {:induction false} JoinNonBlankNotEmpty(parts: seq<string>, sep: string)
    requires parts != [] && !IsBlank(parts[0])
    ensures Join(parts, sep) != ""
  {
    if |parts| > 1 {
      JoinNonBlankNotEmpty(parts[..|parts| - 1], sep);
    }
  }

  /** `parse_docx`: the non-blank paragraphs in order, one per line; the
      text is empty exactly when every paragraph is blank. */
  function ParseDocx(paragraphs: seq<string>): (r: string)
    ensures r == "" <==> forall i :: 0 <= i < |paragraphs| ==> IsBlank(paragraphs[i])
  {
    var kept := KeepNonBlank(paragraphs);
    assert kept != [] ==> Join(kept, "\n") != "" by {
      if kept != [] { JoinNonBlankNotEmpty(kept, "\n"); }
    }
    Join(kept, "\n")
  }

  /** What one page contributes: its own text when that is non-empty, else
      the OCR text (even an empty one), else nothing. */
  function PagePart(p: Page): Option<string> {
    if p.extracted.Some? && p.extracted.value != "" then p.extracted else p.ocr
  }

  /** The `text_parts` list of `parse_pdf`, page by page. */
  function PdfParts(pages: seq<Page>): (r: seq<string>)
    ensures |r| <= |pages|
  {
    if pages == [] then []
    else
      var part := PagePart(pages[|pages| - 1]);
      PdfParts(pages[..|pages| - 1]) + (if part.Some? then [part.value] else [])
  }

  /** `parse_pdf`: the page loop of the source. */
  method ParsePdf(doc: Option<seq<Page>>) returns (r: Result<string, ParseError>)
    ensures doc.None? ==> r == Failure(PdfUnreadable)
    ensures doc.Some? ==> r == Success(Join(PdfParts(doc.value), "\n"))
  {
    if doc.None? {
      return Failure(PdfUnreadable);
    }
    var pages := doc.value;
    var textParts: seq<string> := [];
    var i := 0;
    while i < |pages|
      invariant 0 <= i <= |pages|
      invariant textParts == PdfParts(pages[..i])
    {
      var page := pages[i];
      assert pages[..i + 1][..i] == pages[..i];
      if page.extracted.Some? && page.extracted.value != "" {
        textParts := textParts + [page.extracted.value];
      } else if page.ocr.Some? {
        textParts := textParts + [page.ocr.value];
      }
      i := i + 1;
    }
    assert pages[..|pages|] == pages;
    r := Success(Join(textParts, "\n"));
  }

  /** At most one part per page, in page order; exactly one per page when
      every page yields text or OCR. */
  lemma {:induction false} PdfPartsCount(pages: seq<Page>)
    ensures |PdfParts(pages)| <= |pages|
    ensures (forall i :: 0 <= i < |pages| ==> PagePart(pages[i]).Some?) ==>
      |PdfParts(pages)| == |pages| && forall i :: 0 <= i < |pages| ==> PdfParts(pages)[i] == PagePart(pages[i]).value
  {
    if pages != [] {
      var init := pages[..|pages| - 1];
      PdfPartsCount(init);
      if forall i :: 0 <= i < |pages| ==> PagePart(pages[i]).Some? {
        assert forall i :: 0 <= i < |init| ==> init[i] == pages[i];
      }
    }
  }

  /** The parts follow page order: the loop works page by page. */
  lemma {:induction false} PdfPartsAppend(a: seq<Page>, b: seq<Page>)
    ensures PdfParts(a + b) == PdfParts(a) + PdfParts(b)
  {
    if b == [] {
      assert a + b == a;
    } else {
      assert (a + b)[..|a + b| - 1] == a + b[..|b| - 1];
      PdfPartsAppend(a, b[..|b| - 1]);
    }
  }

  /** Every part is what some page contributes. */
  lemma {:induction false} PdfPartsFromPages(pages: seq<Page>)
    ensures forall i :: 0 <= i < |PdfParts(pages)| ==>
      exists j :: 0 <= j < |pages| && PagePart(pages[j]) == Some(PdfParts(pages)[i])
  {
    if pages != [] {
      var init := pages[..|pages| - 1];
      var part := PagePart(pages[|pages| - 1]);
      assert PdfParts(pages) == PdfParts(init) + (if part.Some? then [part.value] else []);
      PdfPartsFromPages(init);
      forall i | 0 <= i < |PdfParts(pages)|
        ensures exists j :: 0 <= j < |pages| && PagePart(pages[j]) == Some(PdfParts(pages)[i])
      {
        if i < |PdfParts(init)| {
          var j :| 0 <= j < |init| && PagePart(init[j]) == Some(PdfParts(init)[i]);
          assert pages[j] == init[j];
          assert PdfParts(pages)[i] == PdfParts(init)[i];
        } else {
          assert PagePart(pages[|pages| - 1]) == Some(PdfParts(pages)[i]);
        }
      }
    } else {
      assert PdfParts(pages) == [];
    }
  }

  /** One page contributes its text, else its OCR text, and nothing when
      OCR raised. */
  lemma PdfPartsOne(p: Page)
    ensures PdfParts([p]) == if PagePart(p).Some? then [PagePart(p).value] else []
  {
    assert [p][..0] == [];
  }

  /** A document whose pages all carry text never uses OCR. */
  lemma PdfTextPagesOnly(pages: seq<Page>)
    requires forall i :: 0 <= i < |pages| ==> pages[i].extracted.Some? && pages[i].extracted.value != ""
    ensures |PdfParts(pages)| == |pages|
    ensures forall i :: 0 <= i < |pages| ==> PdfParts(pages)[i] == pages[i].extracted.value
  {
    PdfPartsCount(pages);
  }

  /** `parse_file`. An extractor that raises makes the call raise, except on
      the plain-text branch, where a decoding error gives "". */
  function ParseFile(filename: string, x: Extractors): (r: Result<string, ParseError>)
    ensures Route(filename) == PlainText ==> r == Success(x.utf8.GetOr(""))
    ensures Route(filename) == PdfParser && x.pdf.Some? ==> r == Success(Join(PdfParts(x.pdf.value), "\n"))
    ensures Route(filename) == DocxParser && x.docx.Some? ==> r == Success(ParseDocx(x.docx.value))
    ensures Route(filename) == ImageParser && x.image.Some? ==> r == Success(x.image.value)
    ensures r.Failure? <==>
      (Route(filename) == PdfParser && x.pdf.None?) ||
      (Route(filename) == DocxParser && x.docx.None?) ||
      (Route(filename) == ImageParser && x.image.None?)
  {
    match Route(filename)
    case PdfParser =>
      if x.pdf.None? then Failure(PdfUnreadable) else Success(Join(PdfParts(x.pdf.value), "\n"))
    case DocxParser =>
      if x.docx.None? then Failure(DocxUnreadable) else Success(ParseDocx(x.docx.value))
    case ImageParser =>
      if x.image.None? then Failure(ImageUnreadable) else Success(x.image.value)
    case PlainText =>
      if x.utf8.None? then Success("") else Success(x.utf8.value)
  }
}
