/**
 * `fetch_document_content(url)`: the body of an HTTP response and the media
 * type from its `Content-Type` header, or nothing when the request fails.
 */
module Fetching {
  import opened Wrappers
  import opened Extraction

  /** `header.split(';')[0]`: the header up to, not including, its first ';'. */
  function MediaTypeOfHeader(header: string): (r: string)
    ensures |r| <= |header| && r == header[..|r|]
    ensures ';' !in r
    ensures |r| < |header| ==> header[|r|] == ';'
  {
    if header == [] || header[0] == ';' then ""
    else [header[0]] + MediaTypeOfHeader(header[1..])
  }

  /** Without a ';' the whole header is the media type. */
  lemma MediaTypeOfPlainHeader(header: string)
    requires ';' !in header
    ensures MediaTypeOfHeader(header) == header
  {
  }

  /** Parameters after the ';' do not change the media type. */
  lemma MediaTypeIgnoresParameters(mediaType: string, parameters: string)
    requires ';' !in mediaType
    ensures MediaTypeOfHeader(mediaType + ";" + parameters) == mediaType
  {
    var header := mediaType + ";" + parameters;
    var r := MediaTypeOfHeader(header);
    assert header[..|mediaType|] == mediaType;
    assert header[|mediaType|] == ';';
  }

  /**
   * What `requests.get` gives back: the status code, the body, and the value of
   * the `Content-Type` header when the server sent one.
   */
  datatype Response = Response(status: int, body: seq<byte>, contentTypeHeader: Option<string>)

  datatype FetchOutcome =
    | Fetched(content: seq<byte>, contentType: string)  // (response.content, content_type)
    | FetchFailed                                        // (None, None) after printing the error
    | MissingContentType                                 // KeyError, not a RequestException: it escapes

  /** `raise_for_status` raises for 4xx client errors and 5xx server errors. */
  predicate IsErrorStatus(status: int)
    ensures IsErrorStatus(status) <==> status / 100 == 4 || status / 100 == 5
  {
    (400 <= status < 500) || (500 <= status < 600)
  }

  /**
   * `fetch_document_content`: `response` is `None` when `requests.get` raised.
   * A failed request or an error status gives nothing; an absent header raises.
   */
  function FetchDocumentContent(response: Option<Response>): (r: FetchOutcome)
    ensures r == FetchFailed <==> response == None || IsErrorStatus(response.value.status)
    ensures r.Fetched? ==>
      && response.Some?
      && r.content == response.value.body
      && response.value.contentTypeHeader.Some?
      && r.contentType == MediaTypeOfHeader(response.value.contentTypeHeader.value)
    ensures r == MissingContentType <==>
      response.Some? && !IsErrorStatus(response.value.status) && response.value.contentTypeHeader == None
    ensures r.Fetched? ==> ';' !in r.contentType
  {
    match response
    case None => FetchFailed
    case Some(resp) =>
      if IsErrorStatus(resp.status) then FetchFailed
      else
        match resp.contentTypeHeader
        case None => MissingContentType
        case Some(header) => Fetched(resp.body, MediaTypeOfHeader(header))
  }
}
