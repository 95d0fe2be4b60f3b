/**
 * `read_file(content, content_type)`: the exact-match dispatch on the media
 * type, and the assembly of the text from the parts the parsing libraries
 * yield (`read_pdf`, `read_pdf_from_memory`, `read_docx_from_memory`,
 * `read_docx`, `read_html`).
 */
module Extraction {
  import opened Wrappers
  import opened Strings

  newtype byte = x: int | 0 <= x < 256

  /** The four formats `read_file` recognises. */
  datatype Format = Pdf | Docx | PlainText | Html

  const PDF_TYPE: string := "application/pdf"
  const DOCX_TYPE: string := "application/vnd.openxmlformats-officedocument.wordprocessingml.document"
  const TEXT_TYPE: string := "text/plain"
  const HTML_TYPE: string := "text/html"

  function MediaType(f: Format): string
  {
    match f
    case Pdf => PDF_TYPE
    case Docx => DOCX_TYPE
    case PlainText => TEXT_TYPE
    case Html => HTML_TYPE
  }

  /**
   * The branch of `read_file` a content type selects. A type selects format `f`
   * exactly when it is the string of `f`; `None` and every other string select nothing.
   */
  function FormatOf(contentType: Option<string>): (r: Option<Format>)
    ensures forall f: Format :: r == Some(f) <==> contentType == Some(MediaType(f))
  {
    if contentType == Some(PDF_TYPE) then Some(Pdf)
    else if contentType == Some(DOCX_TYPE) then Some(Docx)
    else if contentType == Some(TEXT_TYPE) then Some(PlainText)
    else if contentType == Some(HTML_TYPE) then Some(Html)
    else None
  }

  /**
   * The third-party code `read_file` calls, whose source is not part of this
   * model: what each parser yields for a byte buffer, `None` when it raises.
   */
  datatype Libraries = Libraries(
    pdfPageTexts: seq<byte> -> Option<seq<string>>,  // PdfReader: extract_text() of each page, in page order
    docxParagraphs: seq<byte> -> Option<seq<string>>, // Document: text of each body paragraph, in order
    htmlStrings: seq<byte> -> Option<seq<string>>,    // BeautifulSoup with lxml: the text strings in document order
    decodeUtf8: seq<byte> -> Option<string>)          // bytes.decode("utf-8")

  datatype ReadError = PdfReadError | DocxReadError | UnicodeDecodeError | HtmlParseError

  /** The exception each format's parser raises when it cannot read the bytes. */
  function ParserError(f: Format): ReadError
  {
    match f
    case Pdf => PdfReadError
    case Docx => DocxReadError
    case PlainText => UnicodeDecodeError
    case Html => HtmlParseError
  }

  /** A return with what was printed on the way, or an exception that escapes. */
  datatype ReadOutcome = Returned(text: string, log: seq<string>) | Raised(error: ReadError)

  /** Python's f-string rendering of the content type, `None` included. */
  function ShowContentType(contentType: Option<string>): string
  {
    match contentType
    case None => "None"
    case Some(s) => s
  }

  function UnsupportedMessage(contentType: Option<string>): string
  {
    "Unsupported content type: " + ShowContentType(contentType)
  }

  /** The text of one recognised format, from that format's library alone. */
  function Extract(f: Format, content: seq<byte>, lib: Libraries): (r: ReadOutcome)
    ensures r.Returned? ==> r.log == []
    ensures r.Raised? ==> r.error == ParserError(f)
    ensures forall g: Format :: g != f ==> r != Raised(ParserError(g))
  {
    match f
    case Pdf =>
      (match lib.pdfPageTexts(content)
       case None => Raised(PdfReadError)
       case Some(pages) => Returned(Concat(pages), []))
    case Docx =>
      (match lib.docxParagraphs(content)
       case None => Raised(DocxReadError)
       case Some(paragraphs) => Returned(JoinLines(paragraphs), []))
    case PlainText =>
      (match lib.decodeUtf8(content)
       case None => Raised(UnicodeDecodeError)
       case Some(s) => Returned(s, []))
    case Html =>
      (match lib.htmlStrings(content)
       case None => Raised(HtmlParseError)
       case Some(strings) => Returned(JoinLines(strings), []))
  }

  /**
   * `read_file`: a recognised type goes to its extractor; any other type,
   * `None` included, prints one diagnostic and gives the empty string.
   */
  function ReadFile(content: seq<byte>, contentType: Option<string>, lib: Libraries): (r: ReadOutcome)
    ensures FormatOf(contentType) == None ==> r == Returned("", [UnsupportedMessage(contentType)])
    ensures r.Returned? && r.log != [] <==> FormatOf(contentType) == None
    ensures r.Raised? ==> FormatOf(contentType) != None
  {
    match FormatOf(contentType)
    case None => Returned("", [UnsupportedMessage(contentType)])
    case Some(f) => Extract(f, content, lib)
  }

  /** Two libraries that agree on the extractor for format `f`. */
  predicate SameExtractor(f: Format, content: seq<byte>, lib1: Libraries, lib2: Libraries)
  {
    match f
    case Pdf => lib1.pdfPageTexts(content) == lib2.pdfPageTexts(content)
    case Docx => lib1.docxParagraphs(content) == lib2.docxParagraphs(content)
    case PlainText => lib1.decodeUtf8(content) == lib2.decodeUtf8(content)
    case Html => lib1.htmlStrings(content) == lib2.htmlStrings(content)
  }

  /**
   * Each recognised type is routed to exactly one extractor: the result does
   * not depend on what the other three parsers would do.
   */
  lemma ReadFileUsesOneExtractor(content: seq<byte>, f: Format, lib1: Libraries, lib2: Libraries)
    requires SameExtractor(f, content, lib1, lib2)
    ensures ReadFile(content, Some(MediaType(f)), lib1) == ReadFile(content, Some(MediaType(f)), lib2)
    ensures ReadFile(content, Some(MediaType(f)), lib1) == Extract(f, content, lib1)
  {
  }

  /** A DOCX with paragraphs "A" and "B" reads as "A\nB", with no final newline. */
  lemma ReadFileDocxExample(content: seq<byte>, lib: Libraries)
    requires lib.docxParagraphs(content) == Some(["A", "B"])
    ensures ReadFile(content, Some(DOCX_TYPE), lib) == Returned("A\nB", [])
  {
  }

  /** `read_pdf_from_memory` (and `read_pdf`): the page texts appended with `+=`, page by page. */
  method ReadPdf(pages: seq<string>) returns (text: string)
    ensures text == Concat(pages)
  {
    text := "";
    for i := 0 to |pages|
      invariant text == Concat(pages[..i])
    {
      assert pages[..i + 1] == pages[..i] + [pages[i]];
      ConcatAppend(pages[..i], [pages[i]]);
      assert Concat([pages[i]]) == pages[i] + Concat([]);
      text := text + pages[i];
    }
    assert pages[..|pages|] == pages;
  }

  /** `read_docx_from_memory`: the paragraph texts collected in a list, then `"\n".join`ed. */
  method ReadDocxFromMemory(paragraphs: seq<string>) returns (text: string)
    ensures text == JoinLines(paragraphs)
  {
    var fullText: seq<string> := [];
    for i := 0 to |paragraphs|
      invariant fullText == paragraphs[..i]
    {
      fullText := fullText + [paragraphs[i]];
    }
    assert fullText == paragraphs;
    text := JoinLines(fullText);
  }

  /** `read_docx`: every paragraph text followed by a newline, appended with `+=`. */
  method ReadDocx(paragraphs: seq<string>) returns (content: string)
    ensures content == TerminateLines(paragraphs)
  {
    content := "";
    for i := 0 to |paragraphs|
      invariant content == TerminateLines(paragraphs[..i])
    {
      assert paragraphs[..i + 1] == paragraphs[..i] + [paragraphs[i]];
      TerminateLinesAppend(paragraphs[..i], paragraphs[i]);
      content := content + paragraphs[i] + "\n";
    }
    assert paragraphs[..|paragraphs|] == paragraphs;
  }

  /** The path reader gives "A\nB\n" where the in-memory reader, used by `read_file`, gives "A\nB". */
  lemma DocxReadersDiffer()
    ensures TerminateLines(["A", "B"]) == "A\nB\n"
    ensures JoinLines(["A", "B"]) == "A\nB"
  {
    TerminatedIsJoinedPlusNewline(["A", "B"]);
    assert ["A", "B"][1..] == ["B"];
  }
}
