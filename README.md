# GPT web-app input assistant — a Dafny model of its text pipeline

The assistant is a small desktop tool. It reads a local file or a fetched URL
(PDF, DOCX, plain text or HTML) and extracts its text. It cuts the text into
chunks of a fixed number of characters (15000 by default) and lists them as
"Chunk 1", "Chunk 2", and so on. When the user selects an entry, the tool shows
the stripped prefix, a newline and that chunk. It can copy the stripped prefix,
read again at copy time, a newline and that chunk to the clipboard.

This project models that pipeline and proves its properties:

- `Chunking`: `chunk_text` as a recursive function. The proofs show that the
  chunks concatenate back to the text, that there are ceil(|text| / size) of
  them, and that chunk k is the slice starting at k*size. Every chunk but the
  last is full, the last holds 1 to size characters, and no other cut of the
  text has these properties.
- `Extraction`: `read_file` as an exact-match dispatch over a `Format`
  datatype. The third-party parsers are function-typed fields of a
  `Libraries` record; each yields the page texts, paragraph texts or HTML text
  strings, or fails, and a failure is an exception that escapes `read_file`.
  The `+=` loops of `read_pdf_from_memory` and `read_docx` and the
  list-building loop of `read_docx_from_memory` are methods, proved
  against `Concat`, `TerminateLines` and `JoinLines`.
- `Fetching`: the `';'` split of the `Content-Type` header and the outcomes of
  `fetch_document_content`.
- `Assistant`: class `Session` holds `chunk_texts`, the list box entries, the
  chunk view and the clipboard. Its methods are `clear_chunks`, `open_file`,
  `open_url`, `on_chunk_select` and `copy_to_clipboard`.
- `Strings`: the Python string operations the code uses. These are
  concatenation, `"\n".join` with `str.split("\n")` as its inverse,
  `str.strip` with Python's `isspace` characters, and decimal rendering of a
  label number with its parse as inverse.

`read_file` calls `read_docx_from_memory`, which joins with `"\n"`, so
paragraphs `["A","B"]` give `"A\nB"`. The path reader `read_docx`, which
nothing calls, gives `"A\nB\n"` (`ReadFileDocxExample`, `DocxReadersDiffer`).

## Model

| member | source | states |
|---|---|---|
| `Chunking.Chunks` | gpt_webapp_input_assistant.py:71-72 | chunk_text as the slices taken at 0, size, 2*size, ...; every chunk holds between 1 and size characters |
| `Chunking.ChunksConcat` | gpt_webapp_input_assistant.py:71-72 | concatenating the chunks in order gives back the text exactly, with no overlap and nothing dropped |
| `Chunking.ChunkBounds` | gpt_webapp_input_assistant.py:72 | the text is empty exactly when there are no chunks; otherwise (n-1)*size < len(text) <= n*size for n chunks |
| `Chunking.ChunkCount` | gpt_webapp_input_assistant.py:72 | the number of chunks is ceil(len(text) / size), and zero exactly for the empty text |
| `Chunking.SingleChunk` | gpt_webapp_input_assistant.py:72 | a non-empty text no longer than size is one chunk equal to the text |
| `Chunking.ChunkAt` | gpt_webapp_input_assistant.py:72 | chunk k is text[k*size : min((k+1)*size, len(text))], the slice the comprehension takes at the k-th start of range(0, len, size) |
| `Chunking.ChunkLengths` | gpt_webapp_input_assistant.py:72 | every chunk but the last has exactly size characters; the last has between 1 and size |
| `Chunking.ChunksUnique` | gpt_webapp_input_assistant.py:71-72 | any cut of the text into full pieces of size followed by one piece of 1..size characters is the chunking |
| `Strings.JoinLines` | gpt_webapp_input_assistant.py:44 | `"\n".join`: a newline between consecutive parts and none after the last; the result starts with the first part |
| `Strings.ConcatAppend` | gpt_webapp_input_assistant.py:30-32 | concatenating two page lists in turn is concatenating their texts, which is what each `+=` step relies on |
| `Strings.ConcatPlacesPart` | gpt_webapp_input_assistant.py:30-34 | page i appears unchanged in the PDF text, right after the text of the pages before it, with no separator |
| `Strings.TerminateLinesAppend` | gpt_webapp_input_assistant.py:49-50 | adding a paragraph to the path reader's text appends the paragraph and one newline |
| `Strings.TerminatedIsJoinedPlusNewline` | gpt_webapp_input_assistant.py:39-51 | the path reader's text is the in-memory reader's text plus one final newline, and both are empty for no paragraphs |
| `Strings.JoinSplitLines` | gpt_webapp_input_assistant.py:44 | splitting any text at newlines and joining the pieces with "\n" gives the text back |
| `Strings.SplitJoinLines` | gpt_webapp_input_assistant.py:44 | the newline-free paragraphs of a non-empty list are recovered by splitting their "\n"-join |
| `Strings.Strip` | gpt_webapp_input_assistant.py:129 | `str.strip()` over Python's `isspace` characters (`IsSpace`): the result is no longer than the input and neither starts nor ends with whitespace |
| `Strings.StripKeepsInfix` | gpt_webapp_input_assistant.py:129 | strip keeps the infix between leading and trailing runs of whitespace; that infix neither starts nor ends with whitespace |
| `Strings.StripIdempotent` | gpt_webapp_input_assistant.py:129 | stripping a stripped prefix changes nothing |
| `Strings.Decimal` | gpt_webapp_input_assistant.py:93 | the rendering of a label number is a non-empty string of decimal digits, with no leading zero for a positive number |
| `Strings.DecimalValueOfDecimal` | gpt_webapp_input_assistant.py:93 | reading back the decimal rendering of n gives n |
| `Strings.DecimalInjective` | gpt_webapp_input_assistant.py:93 | distinct numbers render as distinct digit strings |
| `Extraction.FormatOf` | gpt_webapp_input_assistant.py:58-67 | a content type selects format f exactly when it equals f's media-type string; None and all other strings select nothing |
| `Extraction.Extract` | gpt_webapp_input_assistant.py:59-66 | the branch of a recognised format prints nothing; it raises only that format's parser error (PDF, DOCX, UTF-8 or HTML), never another's |
| `Extraction.ReadFile` | gpt_webapp_input_assistant.py:58-69 | an unrecognised type, None included, returns "" after one "Unsupported content type: ..." line; a diagnostic is printed exactly then; only a recognised type can raise |
| `Extraction.ReadFileUsesOneExtractor` | gpt_webapp_input_assistant.py:58-66 | a recognised type goes to its own extractor, and the result does not depend on the other three parsers |
| `Extraction.ReadFileDocxExample` | gpt_webapp_input_assistant.py:61-62 | a DOCX with paragraphs "A" and "B" reads as "A\nB" through read_file |
| `Extraction.ReadPdf` | gpt_webapp_input_assistant.py:24-34 | the `+=` loop over the pages returns the page texts concatenated in page order |
| `Extraction.ReadDocxFromMemory` | gpt_webapp_input_assistant.py:36-44 | the paragraph loop and join return the paragraphs separated by "\n", with no final newline |
| `Extraction.ReadDocx` | gpt_webapp_input_assistant.py:46-51 | the `+=` loop returns every paragraph followed by "\n", the last one included |
| `Extraction.DocxReadersDiffer` | gpt_webapp_input_assistant.py:36-51 | ["A","B"] gives "A\nB\n" through the path reader and "A\nB" through the in-memory reader |
| `Fetching.MediaTypeOfHeader` | gpt_webapp_input_assistant.py:118 | the media type is the prefix of the header before its first ';' and contains no ';' |
| `Fetching.MediaTypeOfPlainHeader` | gpt_webapp_input_assistant.py:118 | a header with no ';' is its own media type |
| `Fetching.MediaTypeIgnoresParameters` | gpt_webapp_input_assistant.py:118 | whatever follows the first ';' does not change the media type |
| `Fetching.IsErrorStatus` | gpt_webapp_input_assistant.py:117 | `raise_for_status` raises exactly for a status in the 4xx or 5xx class |
| `Fetching.FetchDocumentContent` | gpt_webapp_input_assistant.py:114-122 | a raising request or a 4xx/5xx status gives no content; an absent header raises; otherwise the body and the media type, which has no ';' |
| `Assistant.DefaultSizeChunks` | gpt_webapp_input_assistant.py:146 | with the default size of 15000, a non-empty text of up to 15000 characters is one chunk, and 15001 characters are a full chunk plus a one-character chunk |
| `Assistant.Label` | gpt_webapp_input_assistant.py:93 | the label of chunk i is "Chunk " followed by decimal digits whose value is i, with no leading zero |
| `Assistant.LabelInjective` | gpt_webapp_input_assistant.py:93 | two chunks with the same "Chunk i" label have the same number |
| `Assistant.LabelsDistinct` | gpt_webapp_input_assistant.py:92-93 | no two entries of the list box of n chunks carry the same label |
| `Assistant.ComposedDeterminesChunk` | gpt_webapp_input_assistant.py:129-130 | with one prefix, the shown or copied text determines the chunk; prefixes that strip to the same text give the same result |
| `Assistant.SelectedChunkShowsSlice` | gpt_webapp_input_assistant.py:124-130 | after a load, entry i ("Chunk i+1") shows the stripped prefix, "\n" and text[i*size : min((i+1)*size, len(text))] |
| `Assistant.Session.constructor` | gpt_webapp_input_assistant.py:176-186 | the session starts with no chunks, no list entries and an empty view; the clipboard keeps what the system held before |
| `Assistant.Session.ClearChunks` | gpt_webapp_input_assistant.py:74-76 | the list box and chunk_texts are both emptied |
| `Assistant.Session.AppendChunks` | gpt_webapp_input_assistant.py:92-94 | the chunks are appended in order, each with its 1-based "Chunk i" label |
| `Assistant.Session.LoadContent` | gpt_webapp_input_assistant.py:88-94 | from an empty list, chunk_texts becomes the chunks of what read_file returns, or stays empty when it raises |
| `Assistant.Session.OpenFile` | gpt_webapp_input_assistant.py:78-94 | prior chunks are cleared; a cancelled dialog leaves none; otherwise chunk_texts is exactly chunk_text(read_file(bytes, guessed type), size) |
| `Assistant.Session.OpenUrl` | gpt_webapp_input_assistant.py:96-112 | prior chunks are cleared; a blank URL or failed fetch leaves none; a missing header raises; otherwise chunk_texts is the chunks of the read body |
| `Assistant.Session.OnChunkSelect` | gpt_webapp_input_assistant.py:124-130 | with a selection, the view becomes strip(prefix) + "\n" + the first selected chunk; without one it is unchanged |
| `Assistant.Session.CopyToClipboard` | gpt_webapp_input_assistant.py:132-138 | with a selection, the clipboard is cleared and set to strip(prefix) + "\n" + the first selected chunk, using the prefix at copy time; this is the view's text only when the prefix is unchanged since the selection; without a selection it is unchanged |

## Left out

- The tkinter window: widget construction, layout, event binding and `mainloop` (lines 140-197). Only the state the actions change is modelled: the chunk list, the list box labels, the chunk view and the clipboard.
- The file dialog, `open()`/`read()` and `mimetypes.guess_type` (lines 80-86). The chosen file is a parameter: its bytes and an arbitrary guessed type, or nothing when the dialog is cancelled.
- `read_txt` (lines 53-56) reads a path and is never called. It is not part of this model.
- `requests.get` (line 116) is network I/O. The response is a parameter: a status, a body and an optional `Content-Type` value, or nothing when the request raises. The `Error fetching document: {e}` line is not modelled because the exception text is unknown.
- `raise_for_status` (line 117) does no I/O; it is modelled by `Fetching.IsErrorStatus`.
- The internals of PyPDF2, python-docx, BeautifulSoup and the UTF-8 decoder. These are function-typed fields of `Libraries`. `get_text(separator="\n")` is modelled as `"\n".join` of the strings the parser yields.
- `read_pdf` (lines 12-17) runs the same page loop as `read_pdf_from_memory` on a PDF opened from a path; `Extraction.ReadPdf` models both.
- Parsing the chunk size with `int(...)` (lines 89 and 107). The size is a parameter, and every action requires it to be positive. The code does not guard this: `range` raises for size 0 and gives no chunks for a negative size. Those paths are not modelled.
- HTML parsing: a failure of `BeautifulSoup(content, 'lxml')` is modelled as `HtmlParseError` escaping `read_file`; what makes the parser fail is not modelled.
- Exceptions that escape an action are returned as `Failed` outcomes. Tkinter's report of them is not modelled.
- `Extraction.ReadFile`: the Python-side contents of a raised exception are reduced to which parser failed.
