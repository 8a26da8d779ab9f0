/** The backend client of the chat page: what the client makes of the replies
    to its upload and query calls. The calls themselves are outside the model;
    their outcomes arrive as values. */
module Backend {
  import opened Wrappers
  import opened Strings

  /** The label after which the backend's real answer starts. */
  const AnswerMarker: string := "Your Answer:"

  /** Shown when a successful query reply has no `response` field. */
  const EmptyResponse: string := "Sorry, an empty response was received."

  /** Starts the reply shown when the query request fails. */
  const QueryFailurePrefix: string := "Error: The request to the AI backend failed. "

  /** Starts the error reported when the upload request fails. */
  const UploadFailurePrefix: string := "API connection failed: "

  /** What came back from `POST /upload-resume`: a transport failure (connection
      error, timeout, non-2xx status) with its description, or a decoded JSON
      object of which the client reads the optional `error` and `filename`. */
  datatype UploadReply =
    | UploadTransportFailure(detail: string)
    | UploadJson(error: Option<string>, filename: Option<string>)

  /** What the upload handler sees: an object holding `error`, or one without it
      whose `filename` may still be missing. */
  datatype UploadResult =
    | UploadError(message: string)
    | UploadOk(filename: Option<string>)

  /** What came back from `POST /query`: a transport failure, or a decoded JSON
      object whose `response` field may be missing. */
  datatype QueryReply =
    | QueryTransportFailure(detail: string)
    | QueryJson(response: Option<string>)

  /** `upload_resume`: a transport failure becomes an `error` carrying its
      description; a JSON reply is an error exactly when it has an `error` key. */
  function UploadResume(reply: UploadReply): (r: UploadResult)
    ensures r.UploadError? <==> (reply.UploadTransportFailure? || reply.error.Some?)
    ensures reply.UploadTransportFailure? ==> r.message == UploadFailurePrefix + reply.detail
    ensures reply.UploadJson? && reply.error.Some? ==> r.message == reply.error.value
    ensures r.UploadOk? ==> r.filename == reply.filename
  {
    match reply
    case UploadTransportFailure(detail) => UploadError(UploadFailurePrefix + detail)
    case UploadJson(error, filename) =>
      if error.Some? then UploadError(error.value) else UploadOk(filename)
  }

  /** The post-processing of `query_backend`: keep what follows the last
      `AnswerMarker`, stripped of `ws` characters at both ends; without a
      marker, keep the text as it is. Either way no marker is left behind
      once one was found. */
  function ExtractAnswer(text: string, ws: char -> bool): (r: string)
    ensures !Contains(text, AnswerMarker) ==> r == text
    ensures Contains(text, AnswerMarker) ==> !Contains(r, AnswerMarker)
    ensures |r| <= |text|
  {
    var p := RFind(text, AnswerMarker);
    if p == -1 then text
    else
      var after := text[p + |AnswerMarker|..];
      SuffixAfterLastLacks(text, AnswerMarker);
      StripLacks(after, AnswerMarker, ws);
      Strip(after, ws)
  }

  /** The placeholder holds no marker. */
  lemma {:induction false} PlaceholderLacksMarker()
    ensures !Contains(EmptyResponse, AnswerMarker)
  {
    assert 'Y' !in EmptyResponse;
    LacksFirstChar(EmptyResponse, AnswerMarker);
  }

  /** `query_backend`: a failed request yields a text that starts with the
      failure prefix; a successful one yields its `response` field put through
      `ExtractAnswer`, and the placeholder itself when that field is missing. */
  function QueryBackend(reply: QueryReply, ws: char -> bool): (r: string)
    ensures reply.QueryTransportFailure? ==>
      |QueryFailurePrefix| <= |r| && r[..|QueryFailurePrefix|] == QueryFailurePrefix
    ensures reply == QueryJson(None) ==> r == EmptyResponse
    ensures reply.QueryJson? && reply.response.Some? ==>
      if Contains(reply.response.value, AnswerMarker)
      then !Contains(r, AnswerMarker)
      else r == reply.response.value
  {
    match reply
    case QueryTransportFailure(detail) => QueryFailurePrefix + detail
    case QueryJson(response) =>
      PlaceholderLacksMarker();
      ExtractAnswer(response.GetOr(EmptyResponse), ws)
  }

  /** The marker is found at `p` and nowhere after it: the answer is the text
      after that occurrence, stripped. */
  lemma ExtractAfterLastMarker(text: string, ws: char -> bool, p: int)
    requires OccursAt(text, AnswerMarker, p)
    requires forall q :: p < q ==> !OccursAt(text, AnswerMarker, q)
    ensures ExtractAnswer(text, ws) == Strip(text[p + |AnswerMarker|..], ws)
  {
    var r := RFind(text, AnswerMarker);
    assert r != -1;
    assert r == p;
  }

  /** Extracting the answer a second time changes nothing. */
  lemma ExtractIdempotent(text: string, ws: char -> bool)
    ensures ExtractAnswer(ExtractAnswer(text, ws), ws) == ExtractAnswer(text, ws)
  {
  }

  /** A reply made of any preamble, the marker, and an answer without the
      marker yields that answer, stripped. */
  lemma {:induction false} PreambleMarkerAnswer(text: string, preamble: string, answer: string, ws: char -> bool)
    requires text == preamble + AnswerMarker + answer
    requires !Contains(answer, AnswerMarker)
    ensures ExtractAnswer(text, ws) == Strip(answer, ws)
  {
    var p := |preamble|;
    var m := |AnswerMarker|;
    assert text[p..p + m] == AnswerMarker;
    assert AnswerMarker[1..] == "our Answer:";
    assert text[p + 1..p + m] == AnswerMarker[1..];
    assert text[p + m..] == answer;
    forall q | p < q && OccursAt(text, AnswerMarker, q)
      ensures false
    {
      if q < p + m {
        // the occurrence would start inside the marker, which has no further 'Y'
        assert text[q] == AnswerMarker[1..][q - p - 1];
        StartsWithFirst(text, AnswerMarker, q);
      } else {
        // the occurrence would lie inside the answer
        var j := q - p - m;
        assert answer[j..j + m] == text[q..q + m];
        assert OccursAt(answer, AnswerMarker, j);
      }
    }
    ExtractAfterLastMarker(text, ws, p);
    assert text[p + |AnswerMarker|..] == answer;
  }

  /** The example of a backend reply that echoes its scratchpad: only the text
      after the marker reaches the user. */
  lemma {:induction false} ScratchpadExample(text: string)
    requires text == "...scratchpad text...Your Answer: The real answer"
    ensures ExtractAnswer(text, AsciiWhitespace) == "The real answer"
  {
    var a, u := "...scratchpad text...", " The real answer";
    assert text == a + AnswerMarker + u;
    assert 'Y' !in u;
    LacksFirstChar(u, AnswerMarker);
    PreambleMarkerAnswer(text, a, u, AsciiWhitespace);
    ScratchpadAnswerStripped(u, "The real answer");
  }

  /** In that example, stripping what follows the marker drops its one leading blank. */
  lemma {:induction false} ScratchpadAnswerStripped(u: string, answer: string)
    requires u == " The real answer" && answer == "The real answer"
    ensures Strip(u, AsciiWhitespace) == answer
  {
    assert u[1..1 + |answer|] == answer;
    assert StrippedAt(u, AsciiWhitespace, 1, answer);
    StrippedAtIsStrip(u, AsciiWhitespace, 1, answer);
  }
}
