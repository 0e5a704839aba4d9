/**
  The deterministic part of app/services/pdf_parser.py: LinkedIn-export detection by
  pattern count, the assembly of the extraction result from per-page outcomes, and the
  guard branches of `validate_pdf`. The PDF library is a list of per-page outcomes
  (`None` when a page raised) and the file system is a set of answers given as inputs.
 */
module PdfParser {
  import opened Wrappers
  import opened Text
  import opened Collections

  /** `PDFParser.LINKEDIN_PATTERNS` */
  const LinkedinPatterns: seq<string> := [
    "linkedin.com", "LinkedIn", "Profile", "Experience", "Education", "Skills", "Contact", "www.linkedin.com"
  ]

  /** How many of `patterns` occur, lower-cased, in the lower-case text `low`. */
  function CountFound(patterns: seq<string>, low: string): (n: nat)
    ensures n <= |patterns|
    decreases |patterns|
  {
    if patterns == [] then 0
    else (if IsSubstring(Lower(patterns[0]), low) then 1 else 0) + CountFound(patterns[1..], low)
  }

  /** `PDFParser._detect_linkedin_pdf` */
  predicate DetectLinkedinPdf(text: string) {
    CountFound(LinkedinPatterns, Lower(text)) >= 3
  }

  lemma {:induction false} CountFoundAppend(a: seq<string>, b: seq<string>, low: string)
    ensures CountFound(a + b, low) == CountFound(a, low) + CountFound(b, low)
    decreases |a|
  {
    if a == [] {
      assert a + b == b;
    } else {
      assert (a + b)[1..] == a[1..] + b;
      CountFoundAppend(a[1..], b, low);
    }
  }

  /** More text never finds fewer patterns. */
  lemma {:induction false} CountFoundMonotone(patterns: seq<string>, low: string, high: string)
    requires IsSubstring(low, high)
    ensures CountFound(patterns, low) <= CountFound(patterns, high)
    decreases |patterns|
  {
    if patterns != [] {
      CountFoundMonotone(patterns[1..], low, high);
      if IsSubstring(Lower(patterns[0]), low) {
        SubstringTransitive(Lower(patterns[0]), low, high);
      }
    }
  }

  /** Detection ignores case. */
  lemma DetectionIgnoresCase(a: string, b: string)
    requires Lower(a) == Lower(b)
    ensures DetectLinkedinPdf(a) == DetectLinkedinPdf(b)
  {
  }

  /** Any text containing a detected text is detected. */
  lemma DetectionMonotone(a: string, b: string)
    requires IsSubstring(a, b) && DetectLinkedinPdf(a)
    ensures DetectLinkedinPdf(b)
  {
    LowerSubstring(a, b);
    CountFoundMonotone(LinkedinPatterns, Lower(a), Lower(b));
  }

  lemma SubstringAt(pat: string, text: string, i: int)
    requires 0 <= i <= |text| - |pat| && text[i..i + |pat|] == pat
    ensures IsSubstring(pat, text)
  {
    assert OccursAt(pat, text, i);
  }

  lemma LinkedinPatternsInUrl(low: string)
    requires IsSubstring("www.linkedin.com", low)
    ensures IsSubstring("linkedin.com", low) && IsSubstring("linkedin", low)
  {
    var url := "www.linkedin.com";
    assert url[4..16] == "linkedin.com";
    assert url[4..12] == "linkedin";
    SubstringAt("linkedin.com", url, 4);
    SubstringAt("linkedin", url, 4);
    SubstringTransitive("linkedin.com", url, low);
    SubstringTransitive("linkedin", url, low);
  }

  lemma LowerUrlPatterns()
    ensures Lower("linkedin.com") == "linkedin.com"
    ensures Lower("LinkedIn") == "linkedin"
    ensures Lower("www.linkedin.com") == "www.linkedin.com"
  {
  }

  lemma CountSplit(low: string)
    ensures CountFound(LinkedinPatterns, low) >=
      CountFound(LinkedinPatterns[..2], low) + CountFound(LinkedinPatterns[7..], low)
  {
    var p := LinkedinPatterns;
    assert p == p[..2] + p[2..7] + p[7..];
    CountFoundAppend(p[..2] + p[2..7], p[7..], low);
    CountFoundAppend(p[..2], p[2..7], low);
  }

  /** "www.linkedin.com" alone matches three patterns, so any text containing it is
      detected. */
  lemma ProfileUrlIsDetected(text: string)
    requires IsSubstring("www.linkedin.com", text)
    ensures DetectLinkedinPdf(text)
  {
    var low := Lower(text);
    LowerUrlPatterns();
    LowerSubstring("www.linkedin.com", text);
    LinkedinPatternsInUrl(low);
    CountSplit(low);
    var p := LinkedinPatterns;
    assert p[..2] == ["linkedin.com", "LinkedIn"];
    assert p[..2][1..] == ["LinkedIn"];
    assert p[7..] == ["www.linkedin.com"];
    assert CountFound(p[..2], low) == 2;
    assert CountFound(p[7..], low) == 1;
  }

  // ------------------------------------------------------------------ extraction result

  /** The extraction result dictionary, without the metadata. */
  datatype PdfExtraction = PdfExtraction(
    rawText: string,
    pages: seq<string>,
    pageCount: nat,
    isLinkedinPdf: bool,
    isScanned: bool,
    charCount: nat,
    wordCount: nat)

  /** The texts of the pages whose extraction succeeded, in page order. */
  function Successes(outcomes: seq<Option<string>>): seq<string>
    decreases |outcomes|
  {
    if outcomes == [] then []
    else
      var init := Successes(outcomes[..|outcomes| - 1]);
      var last := outcomes[|outcomes| - 1];
      if last.Some? then init + [last.value] else init
  }

  /** `len(text.split())`: the number of maximal runs of non-whitespace characters. */
  function WordCount(s: string, inWord: bool): nat
    decreases |s|
  {
    if s == [] then 0
    else if IsSpace(s[0]) then WordCount(s[1..], false)
    else (if inWord then 0 else 1) + WordCount(s[1..], true)
  }

  /** There are never more words than characters, and none exactly when the text is all
      whitespace. */
  lemma {:induction false} WordCountFacts(s: string, inWord: bool)
    ensures WordCount(s, inWord) <= |s|
    ensures WordCount(s, false) == 0 <==> forall i :: 0 <= i < |s| ==> IsSpace(s[i])
    decreases |s|
  {
    if s != [] {
      WordCountFacts(s[1..], false);
      WordCountFacts(s[1..], true);
      assert forall i :: 1 <= i < |s| ==> s[i] == s[1..][i - 1];
    }
  }

  /** The per-page loop of `_extract_from_file_object` and the result built after it,
      given each page's outcome: `Some(text)` (with `extract_text() or ""` applied) or
      `None` when the page raised. */
  method ExtractFromPages(outcomes: seq<Option<string>>) returns (r: PdfExtraction)
    ensures |r.pages| == |outcomes| == r.pageCount
    ensures forall i :: 0 <= i < |outcomes| ==> r.pages[i] == if outcomes[i].Some? then outcomes[i].value else ""
    ensures r.rawText == Join(Successes(outcomes), "\n\n")
    ensures r.isLinkedinPdf == DetectLinkedinPdf(r.rawText)
    ensures r.isScanned == (|Strip(r.rawText)| < 100 && |outcomes| > 0)
    ensures r.charCount == |r.rawText|
    ensures r.wordCount == WordCount(r.rawText, false)
  {
    var pages: seq<string> := [];
    var parts: seq<string> := [];
    var i := 0;
    while i < |outcomes|
      invariant 0 <= i <= |outcomes|
      invariant |pages| == i
      invariant forall k :: 0 <= k < i ==> pages[k] == if outcomes[k].Some? then outcomes[k].value else ""
      invariant parts == Successes(outcomes[..i])
    {
      assert outcomes[..i + 1][..i] == outcomes[..i];
      if outcomes[i].Some? {
        pages := pages + [outcomes[i].value];
        parts := parts + [outcomes[i].value];
      } else {
        pages := pages + [""];
      }
      i := i + 1;
    }
    assert outcomes[..i] == outcomes;
    var raw := Join(parts, "\n\n");
    r := PdfExtraction(raw, pages, |outcomes|, DetectLinkedinPdf(raw),
                       |Strip(raw)| < 100 && |outcomes| > 0, |raw|, WordCount(raw, false));
  }

  lemma SubstringOfSelf(s: string)
    ensures IsSubstring(s, s)
  {
    assert OccursAt(s, s, 0);
  }

  /** Every part occurs in the joined text. */
  lemma {:induction false} JoinContains(parts: seq<string>, sep: string, k: int)
    requires 0 <= k < |parts|
    ensures IsSubstring(parts[k], Join(parts, sep))
    decreases |parts|
  {
    if |parts| == 1 {
      SubstringOfSelf(parts[0]);
    } else if k == 0 {
      SubstringOfSelf(parts[0]);
      SubstringOfAppend(parts[0], parts[0], sep + Join(parts[1..], sep));
      assert Join(parts, sep) == parts[0] + (sep + Join(parts[1..], sep));
    } else {
      JoinContains(parts[1..], sep, k - 1);
      SubstringOfAppend(parts[k], Join(parts[1..], sep), parts[0] + sep);
      assert Join(parts, sep) == (parts[0] + sep) + Join(parts[1..], sep);
    }
  }

  lemma {:induction false} SuccessesFacts(outcomes: seq<Option<string>>)
    ensures |Successes(outcomes)| <= |outcomes|
    ensures forall i :: 0 <= i < |outcomes| && outcomes[i].Some? ==> outcomes[i].value in Successes(outcomes)
    ensures Successes(outcomes) == [] <==> forall i :: 0 <= i < |outcomes| ==> outcomes[i].None?
    decreases |outcomes|
  {
    if outcomes != [] {
      var init := outcomes[..|outcomes| - 1];
      SuccessesFacts(init);
      assert forall i :: 0 <= i < |init| ==> init[i] == outcomes[i];
    }
  }

  /** The raw text contains every page that was extracted; when no page could be read
      the text is empty and a document with pages counts as scanned. */
  lemma ExtractionFacts(outcomes: seq<Option<string>>)
    ensures forall i :: 0 <= i < |outcomes| && outcomes[i].Some? ==>
      IsSubstring(outcomes[i].value, Join(Successes(outcomes), "\n\n"))
    ensures (forall i :: 0 <= i < |outcomes| ==> outcomes[i].None?) ==>
      Join(Successes(outcomes), "\n\n") == "" && (|Strip("")| < 100 && |outcomes| > 0 <==> outcomes != [])
  {
    SuccessesFacts(outcomes);
    var parts := Successes(outcomes);
    forall i | 0 <= i < |outcomes| && outcomes[i].Some?
      ensures IsSubstring(outcomes[i].value, Join(parts, "\n\n"))
    {
      var k :| 0 <= k < |parts| && parts[k] == outcomes[i].value;
      JoinContains(parts, "\n\n", k);
    }
  }

  // ------------------------------------------------------------------ validation

  /** The validation result dictionary. */
  datatype PdfValidation = PdfValidation(isValid: bool, pageCount: nat, fileSizeBytes: nat, error: Option<string>)

  /** The position of the last `c` in `s`: `s.rfind(c)`, -1 when absent. */
  function RFind(s: string, c: char): (i: int)
    ensures -1 <= i < |s|
    ensures i >= 0 ==> s[i] == c
    ensures forall j :: i < j < |s| ==> s[j] != c
    ensures i == -1 <==> c !in s
    decreases |s|
  {
    if s == [] then -1
    else if s[|s| - 1] == c then |s| - 1
    else RFind(s[..|s| - 1], c)
  }

  /** `PurePath.name`: the last `/`-separated component of a path, skipping empty and
      `.` components. */
  function FinalComponent(path: string): string
    decreases |path|
  {
    var slash := RFind(path, '/');
    var last := path[slash + 1..];
    if last != "" && last != "." then last
    else if slash < 0 then ""
    else FinalComponent(path[..slash])
  }

  /** `PurePath.suffix`: from the last dot of the final component, provided that dot is
      neither its first nor its last character; "" otherwise. */
  function Suffix(path: string): (r: string)
    ensures r == [] || (|r| >= 2 && r[0] == '.' && '.' !in r[1..])
  {
    var name := FinalComponent(path);
    var i := RFind(name, '.');
    if 0 < i < |name| - 1 then
      assert name[i..][1..] == name[i + 1..];
      name[i..]
    else ""
  }

  /** `PDFParser.validate_pdf`, given whether the path exists, its size, and the page
      count the PDF reader yields or the message of its exception. */
  function ValidatePdf(path: string, exists_: bool, sizeBytes: nat, reader: Result<nat, string>): (v: PdfValidation)
    ensures v.isValid <==> exists_ && Lower(Suffix(path)) == ".pdf" && reader.Ok?
    ensures !exists_ ==> v == PdfValidation(false, 0, 0, Some("File not found"))
    ensures exists_ && Lower(Suffix(path)) != ".pdf" ==> v == PdfValidation(false, 0, 0, Some("Not a PDF file"))
    ensures v.isValid ==> v.error.None? && v.pageCount == reader.value && v.fileSizeBytes == sizeBytes
    ensures exists_ && Lower(Suffix(path)) == ".pdf" && reader.Err? ==>
      v == PdfValidation(false, 0, sizeBytes, Some(reader.error))
  {
    if !exists_ then PdfValidation(false, 0, 0, Some("File not found"))
    else if Lower(Suffix(path)) != ".pdf" then PdfValidation(false, 0, 0, Some("Not a PDF file"))
    else match reader
      case Ok(n) => PdfValidation(true, n, sizeBytes, None)
      case Err(e) => PdfValidation(false, 0, sizeBytes, Some(e))
  }

  lemma ComponentAfterSlash(path: string, slash: nat)
    requires slash < |path| && path[slash] == '/' && '/' !in path[slash + 1..]
    requires path[slash + 1..] != "" && path[slash + 1..] != "."
    ensures FinalComponent(path) == path[slash + 1..]
  {
    assert RFind(path, '/') == slash;
  }

  lemma SuffixAtDot(name: string, dot: int)
    requires 0 <= dot < |name| && name[dot] == '.' && '.' !in name[dot + 1..]
    ensures RFind(name, '.') == dot
  {
  }

  /** The suffix test ignores case and looks only at the final component. */
  lemma UpperCaseSuffix()
    ensures Suffix("d/x.PDF") == ".PDF"
  {
    var path := "d/x.PDF";
    assert path[2..] == "x.PDF";
    ComponentAfterSlash(path, 1);
    SuffixAtDot("x.PDF", 1);
    assert "x.PDF"[1..] == ".PDF";
  }

  /** An upper-case extension is accepted. */
  lemma UpperCaseExtensionAccepted(size: nat, pages: nat)
    ensures ValidatePdf("d/x.PDF", true, size, Ok(pages)) == PdfValidation(true, pages, size, None)
  {
    UpperCaseSuffix();
    LowerPdf();
  }

  lemma LowerPdf()
    ensures Lower(".PDF") == ".pdf"
  {
  }

  lemma DirectorySuffixIgnored()
    ensures Suffix("a.pdf/notes") == ""
  {
    ComponentAfterSlash("a.pdf/notes", 5);
    assert '.' !in "notes";
  }

  /** A name that is only `.pdf` has no suffix, so it is rejected. */
  lemma HiddenNameHasNoSuffix()
    ensures Suffix(".pdf") == ""
  {
    assert '/' !in ".pdf";
    assert RFind(".pdf", '/') == -1;
    assert ".pdf"[0..] == ".pdf";
    assert FinalComponent(".pdf") == ".pdf";
    SuffixAtDot(".pdf", 0);
  }
}
