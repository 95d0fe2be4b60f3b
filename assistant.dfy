/**
 * The state behind the window: the list of chunk texts (`chunk_texts`), the
 * list box of labels, the chunk view and the clipboard, and the actions that
 * change them (`clear_chunks`, `open_file`, `open_url`, `on_chunk_select`,
 * `copy_to_clipboard`).
 */
module Assistant {
  import opened Wrappers
  import opened Strings
  import opened Chunking
  import opened Extraction
  import opened Fetching

  /** The chunk size the entry field starts with. */
  const DEFAULT_CHUNK_SIZE: nat := 15000

  /** With the default size, a text of up to 15000 characters is listed as one chunk, and one more character makes two. */
  lemma DefaultSizeChunks(text: string)
    requires 0 < |text| <= DEFAULT_CHUNK_SIZE + 1
    ensures |text| <= DEFAULT_CHUNK_SIZE ==> Chunks(text, DEFAULT_CHUNK_SIZE) == [text]
    ensures |text| == DEFAULT_CHUNK_SIZE + 1 ==>
      Chunks(text, DEFAULT_CHUNK_SIZE) == [text[..DEFAULT_CHUNK_SIZE], [text[DEFAULT_CHUNK_SIZE]]]
  {
    if |text| <= DEFAULT_CHUNK_SIZE {
      SingleChunk(text, DEFAULT_CHUNK_SIZE);
    } else {
      var rest := text[DEFAULT_CHUNK_SIZE..];
      SingleChunk(rest, DEFAULT_CHUNK_SIZE);
      assert rest == [text[DEFAULT_CHUNK_SIZE]];
    }
  }

  /** The list box label of the i-th chunk, counted from 1: `f'Chunk {i}'`. */
  function Label(i: nat): (r: string)
    ensures |r| > 6 && r[..6] == "Chunk " && IsDigits(r[6..])
    ensures i > 0 ==> r[6] != '0'
    ensures DecimalValue(r[6..]) == i
  {
    DecimalValueOfDecimal(i);
    "Chunk " + Decimal(i)
  }

  /** Different chunks get different labels. */
  lemma LabelInjective(i: nat, j: nat)
    ensures Label(i) == Label(j) ==> i == j
  {
    if Label(i) == Label(j) {
      assert Label(i)[6..] == Decimal(i);
      assert Label(j)[6..] == Decimal(j);
      DecimalInjective(i, j);
    }
  }

  /** The labels of n chunks: "Chunk 1" up to "Chunk n". */
  function Labels(n: nat): (r: seq<string>)
    ensures |r| == n
    ensures forall i :: 0 <= i < n ==> r[i] == Label(i + 1)
  {
    seq(n, i requires 0 <= i < n => Label(i + 1))
  }

  /** No two entries of the list box carry the same label. */
  lemma LabelsDistinct(n: nat)
    ensures forall i, j :: 0 <= i < j < n ==> Labels(n)[i] != Labels(n)[j]
  {
    forall i, j | 0 <= i < j < n
      ensures Labels(n)[i] != Labels(n)[j]
    {
      LabelInjective(i + 1, j + 1);
    }
  }

  /** The text shown and copied for a chunk: the stripped prefix, a newline, the chunk. */
  function Composed(prefixInput: string, chunk: string): (r: string)
    ensures var p := Strip(prefixInput);
      |p| < |r| && r[..|p|] == p && r[|p|] == '\n' && r[|p| + 1..] == chunk
  {
    var p := Strip(prefixInput);
    var sep := p + "\n";
    assert |sep| == |p| + 1 && sep[..|p|] == p && sep[|p|] == '\n';
    sep + chunk
  }

  /**
   * With one prefix, the shown or copied text determines the chunk; and only
   * the stripped prefix matters, so whitespace around it changes nothing.
   */
  lemma ComposedDeterminesChunk(prefixInput: string, otherPrefix: string, c1: string, c2: string)
    ensures Composed(prefixInput, c1) == Composed(prefixInput, c2) ==> c1 == c2
    ensures Strip(prefixInput) == Strip(otherPrefix) ==> Composed(prefixInput, c1) == Composed(otherPrefix, c1)
  {
  }

  /** A user file: its bytes and the type `mimetypes.guess_type` guessed from its name. */
  datatype PickedFile = PickedFile(content: seq<byte>, guessedType: Option<string>)

  datatype LoadError = ReadFailed(error: ReadError) | NoContentTypeHeader

  datatype LoadOutcome =
    | Loaded(log: seq<string>)      // chunks listed; what read_file printed
    | Abandoned                     // nothing picked, an empty URL, or a failed request
    | Failed(error: LoadError)      // an exception escaped the action

  /** The chunk list an action leaves behind for a read outcome: a raise leaves it cleared. */
  function ChunksAfterRead(r: ReadOutcome, size: nat): seq<string>
    requires size > 0
  {
    match r
    case Returned(text, _) => Chunks(text, size)
    case Raised(_) => []
  }

  function OutcomeOfRead(r: ReadOutcome): LoadOutcome
  {
    match r
    case Returned(_, log) => Loaded(log)
    case Raised(e) => Failed(ReadFailed(e))
  }

  /**
   * After a successful load, entry i (labelled `Chunk i+1`) shows the stripped
   * prefix, a newline, and the slice of the text from i*size.
   */
  lemma SelectedChunkShowsSlice(prefixInput: string, text: string, size: nat, i: nat)
    requires size > 0
    requires i < |Chunks(text, size)|
    ensures i * size < |text|
    ensures Composed(prefixInput, Chunks(text, size)[i]) ==
      Strip(prefixInput) + "\n" + text[i * size .. Min((i + 1) * size, |text|)]
    ensures Labels(|Chunks(text, size)|)[i] == Label(i + 1)
  {
    ChunkAt(text, size, i);
  }

  class Session {
    var chunkTexts: seq<string>   // chunk_texts
    var listEntries: seq<string>  // the items of chunk_listbox
    var chunkView: string         // the content of chunk_text_widget
    var clipboard: string

    /** The list box holds one label per chunk text, "Chunk 1" first. */
    ghost predicate Valid()
      reads this
    {
      listEntries == Labels(|chunkTexts|)
    }

    /** The clipboard belongs to the system and keeps what it held before the window opened. */
    constructor (clipboardAtStart: string)
      ensures Valid()
      ensures chunkTexts == [] && listEntries == [] && chunkView == "" && clipboard == clipboardAtStart
    {
      chunkTexts, listEntries := [], [];
      chunkView, clipboard := "", clipboardAtStart;
    }

    /** `clear_chunks`: empties the list box and the chunk list. */
    method ClearChunks()
      modifies this`chunkTexts, this`listEntries
      ensures Valid()
      ensures chunkTexts == [] && listEntries == []
    {
      listEntries := [];
      chunkTexts := [];
    }

    /** The `enumerate(chunks, start=1)` loop: appends a label and the text of each chunk. */
    method AppendChunks(chunks: seq<string>)
      modifies this`chunkTexts, this`listEntries
      ensures chunkTexts == old(chunkTexts) + chunks
      ensures listEntries == old(listEntries) + Labels(|chunks|)
    {
      for i := 0 to |chunks|
        invariant chunkTexts == old(chunkTexts) + chunks[..i]
        invariant listEntries == old(listEntries) + Labels(i)
      {
        assert Labels(i + 1) == Labels(i) + [Label(i + 1)];
        assert chunks[..i + 1] == chunks[..i] + [chunks[i]];
        listEntries := listEntries + [Label(i + 1)];
        chunkTexts := chunkTexts + [chunks[i]];
      }
      assert chunks[..|chunks|] == chunks;
    }

    /** The part `open_file` and `open_url` share once they hold bytes and a type. */
    method LoadContent(content: seq<byte>, contentType: Option<string>, size: nat, lib: Libraries)
      returns (outcome: LoadOutcome)
      requires size > 0
      requires chunkTexts == [] && listEntries == []
      modifies this`chunkTexts, this`listEntries
      ensures Valid()
      ensures chunkTexts == ChunksAfterRead(ReadFile(content, contentType, lib), size)
      ensures outcome == OutcomeOfRead(ReadFile(content, contentType, lib))
    {
      var r := ReadFile(content, contentType, lib);
      match r {
        case Raised(e) =>
          outcome := Failed(ReadFailed(e));
        case Returned(text, log) =>
          var chunks := Chunks(text, size);
          AppendChunks(chunks);
          outcome := Loaded(log);
      }
    }

    /**
     * `open_file`: clears the list, then (unless the dialog was cancelled) lists
     * the chunks of what `read_file` makes of the file; nothing else is kept.
     */
    method OpenFile(picked: Option<PickedFile>, size: nat, lib: Libraries) returns (outcome: LoadOutcome)
      requires size > 0
      modifies this`chunkTexts, this`listEntries
      ensures Valid()
      ensures picked == None ==> outcome == Abandoned && chunkTexts == []
      ensures picked.Some? ==>
        var r := ReadFile(picked.value.content, picked.value.guessedType, lib);
        chunkTexts == ChunksAfterRead(r, size) && outcome == OutcomeOfRead(r)
    {
      ClearChunks();
      if picked == None {
        return Abandoned;
      }
      outcome := LoadContent(picked.value.content, picked.value.guessedType, size, lib);
    }

    /**
     * `open_url`: clears the list; with a non-blank URL and a successful fetch,
     * lists the chunks of what `read_file` makes of the body.
     */
    method OpenUrl(urlInput: string, response: Option<Response>, size: nat, lib: Libraries)
      returns (outcome: LoadOutcome)
      requires size > 0
      modifies this`chunkTexts, this`listEntries
      ensures Valid()
      ensures Strip(urlInput) == "" ==> outcome == Abandoned && chunkTexts == []
      ensures Strip(urlInput) != "" ==>
        match FetchDocumentContent(response)
        case FetchFailed => outcome == Abandoned && chunkTexts == []
        case MissingContentType => outcome == Failed(NoContentTypeHeader) && chunkTexts == []
        case Fetched(body, contentType) =>
          var r := ReadFile(body, Some(contentType), lib);
          chunkTexts == ChunksAfterRead(r, size) && outcome == OutcomeOfRead(r)
    {
      ClearChunks();
      var url := Strip(urlInput);
      if url == "" {
        return Abandoned;
      }
      var fetched := FetchDocumentContent(response);
      match fetched {
        case FetchFailed =>
          outcome := Abandoned;
        case MissingContentType =>
          outcome := Failed(NoContentTypeHeader);
        case Fetched(body, contentType) =>
          outcome := LoadContent(body, Some(contentType), size, lib);
      }
    }

    /** `on_chunk_select`: the view is replaced by the prefix and the first selected chunk. */
    method OnChunkSelect(selection: seq<nat>, prefixInput: string)
      requires Valid()
      requires forall k :: 0 <= k < |selection| ==> selection[k] < |listEntries|
      modifies this`chunkView
      ensures Valid()
      ensures selection == [] ==> chunkView == old(chunkView)
      ensures selection != [] ==> chunkView == Composed(prefixInput, chunkTexts[selection[0]])
    {
      if selection != [] {
        var index := selection[0];
        chunkView := Composed(prefixInput, chunkTexts[index]);
      }
    }

    /** `copy_to_clipboard`: the clipboard is replaced by the stripped prefix as it is at copy time, a newline and the first selected chunk. */
    method CopyToClipboard(selection: seq<nat>, prefixInput: string)
      requires Valid()
      requires forall k :: 0 <= k < |selection| ==> selection[k] < |listEntries|
      modifies this`clipboard
      ensures Valid()
      ensures selection == [] ==> clipboard == old(clipboard)
      ensures selection != [] ==> clipboard == Composed(prefixInput, chunkTexts[selection[0]])
    {
      if selection != [] {
        var index := selection[0];
        var text := Composed(prefixInput, chunkTexts[index]);
        clipboard := "";
        assert clipboard + text == text;
        clipboard := clipboard + text;
      }
    }
  }
}
