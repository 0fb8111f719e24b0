/** The application's own logic around the guards: cutting the placeholder reply into
    streamed chunks, the validation of a chat request body, the `/me` answer and the
    shape of error responses. What `json.loads` makes of the body is a parameter. */
module App {

  import opened Wrappers
  import opened Text
  import opened Http
  import Utf8
  import Sessions
  import Csrf

  const PLACEHOLDER_TEXT := "This is a placeholder response from the backend. Your message was received and the "
                            + "streaming is working. Replace this with real AI output when ready."
  const CHUNK_SIZE := 24
  const REQUEST_ID_HEADER := "X-Request-Id"

  function Concat(chunks: seq<string>): string {
    if chunks == [] then [] else chunks[0] + Concat(chunks[1..])
  }

  /** `chunk_text(text, size)`: consecutive slices of `size` characters, the last one
      possibly shorter. A negative size gives an empty range, hence no chunks. */
  function ChunkText(text: string, size: int): (chunks: seq<string>)
    requires size != 0
    ensures size > 0 ==> Concat(chunks) == text
    ensures size > 0 ==> (chunks == [] <==> text == [])
    ensures size > 0 ==> forall i :: 0 <= i < |chunks| - 1 ==> |chunks[i]| == size
    ensures size > 0 && chunks != [] ==> 1 <= |chunks[|chunks| - 1]| <= size
    ensures size < 0 ==> chunks == []
    decreases |text|
  {
    if size < 0 || text == [] then []
    else if |text| <= size then
      assert Concat([text]) == text + Concat([]);
      [text]
    else
      var rest := ChunkText(text[size..], size);
      var chunks := [text[..size]] + rest;
      assert chunks[1..] == rest;
      assert text == text[..size] + text[size..];
      chunks
  }

  lemma MulStep(k: int, d: int)
    ensures (k + 1) * d == k * d + d && (k - 1) * d == k * d - d
  {
  }

  /** There are `ceil(|text| / size)` chunks: `n` chunks cover more than `n - 1` full
      slices and at most `n`. */
  lemma {:induction false} ChunkCount(text: string, size: int)
    requires size > 0 && text != []
    ensures var n := |ChunkText(text, size)|;
            (n - 1) * size < |text| <= n * size
    decreases |text|
  {
    if |text| <= size {
      assert ChunkText(text, size) == [text];
    } else {
      var rest := text[size..];
      ChunkCount(rest, size);
      var k := |ChunkText(rest, size)|;
      assert ChunkText(text, size) == [text[..size]] + ChunkText(rest, size);
      assert |text| == |rest| + size;
      MulStep(k, size);
    }
  }

  /** The reply body: the placeholder, 24 characters at a time (the delay between chunks is
      not modelled). */
  function StreamPlaceholder(): (chunks: seq<string>)
    ensures Concat(chunks) == PLACEHOLDER_TEXT
    ensures forall i :: 0 <= i < |chunks| ==> 1 <= |chunks[i]| <= CHUNK_SIZE
  {
    ChunkTextPieces(PLACEHOLDER_TEXT, CHUNK_SIZE);
    ChunkText(PLACEHOLDER_TEXT, CHUNK_SIZE)
  }

  /** No chunk is empty and none is longer than `size`. */
  lemma ChunkTextPieces(text: string, size: int)
    requires size > 0
    ensures forall i :: 0 <= i < |ChunkText(text, size)| ==> 1 <= |ChunkText(text, size)[i]| <= size
  {
  }

  /** `message_too_large`: the UTF-8 encoding is longer than the configured limit. Since a
      character takes one to four bytes, the character count alone settles the question for
      very short and very long messages, and for ASCII text it is the byte count. */
  predicate MessageTooLarge(message: string, maxBytes: int): (tooLarge: bool)
    ensures 4 * |message| <= maxBytes ==> !tooLarge
    ensures |message| > maxBytes ==> tooLarge
    ensures IsAscii(message) ==> (tooLarge <==> |message| > maxBytes)
  {
    |Utf8.Encode(message)| > maxBytes
  }

  /** A decoded JSON value. */
  datatype Json =
    | JNull
    | JBool(b: bool)
    | JNumber(n: real)
    | JString(s: string)
    | JArray(items: seq<Json>)
    | JObject(fields: map<string, Json>)

  /** `data.get("message") if isinstance(data, dict) else None`, where a JSON `null` reads as
      Python's `None` just as a missing key does. */
  function MessageOf(data: Json): (m: Option<Json>)
    ensures m.Some? ==> m.value != JNull
  {
    if data.JObject? && "message" in data.fields && data.fields["message"] != JNull
    then Some(data.fields["message"]) else None
  }

  /** What `json.loads` makes of a body: a value, a `JSONDecodeError`, or an `EncodingError`
      — the `UnicodeDecodeError` raised for bytes that are not UTF-8, UTF-16 or UTF-32 text,
      which is not a `JSONDecodeError`. */
  datatype Decoding = Decoded(value: Json) | JsonError | EncodingError

  /** `Unhandled` is an exception the endpoint does not catch: the request ends in a server
      error rather than a 400. */
  datatype ChatOutcome = Accepted(message: string) | BadRequest(detail: string) | Unhandled

  const STATUS_BAD_REQUEST := 400

  /** The validation ladder of `chat_endpoint`, over the raw body and its decoding. The first
      failing check decides the detail. */
  function ValidateChat(payload: seq<Utf8.byte>, decoded: Decoding, maxBytes: int): (r: ChatOutcome)
    ensures r.Accepted? ==> payload != []
    ensures r.Accepted? ==> decoded.Decoded? && MessageOf(decoded.value) == Some(JString(r.message))
    ensures r.Accepted? ==> !IsBlank(r.message) && |Utf8.Encode(r.message)| <= maxBytes
    ensures r.Unhandled? <==> payload != [] && decoded.EncodingError?
  {
    if payload == [] then BadRequest("Request body is required")
    else if decoded.JsonError? then BadRequest("Invalid JSON payload")
    else if decoded.EncodingError? then Unhandled
    else
      var message := MessageOf(decoded.value);
      if message.None? then BadRequest("'message' field is required")
      else if !message.value.JString? then BadRequest("'message' must be a string")
      else if Strip(message.value.s) == "" then BadRequest("'message' must not be empty")
      else if MessageTooLarge(message.value.s, maxBytes) then BadRequest("'message' exceeds size limit")
      else Accepted(message.value.s)
  }

  /** Each rung of the ladder, taken in order: a request that passes the checks above a rung
      and fails that rung gets that rung's detail; one that passes them all is accepted. */
  lemma LadderOrder(payload: seq<Utf8.byte>, decoded: Decoding, maxBytes: int)
    ensures payload == [] ==> ValidateChat(payload, decoded, maxBytes) == BadRequest("Request body is required")
    ensures payload != [] && decoded.JsonError?
            ==> ValidateChat(payload, decoded, maxBytes) == BadRequest("Invalid JSON payload")
    ensures payload != [] && decoded.EncodingError? ==> ValidateChat(payload, decoded, maxBytes) == Unhandled
    ensures payload != [] && decoded.Decoded? && MessageOf(decoded.value).None?
            ==> ValidateChat(payload, decoded, maxBytes) == BadRequest("'message' field is required")
    ensures payload != [] && decoded.Decoded? && MessageOf(decoded.value).Some?
            && !MessageOf(decoded.value).value.JString?
            ==> ValidateChat(payload, decoded, maxBytes) == BadRequest("'message' must be a string")
    ensures payload != [] && decoded.Decoded? && MessageOf(decoded.value).Some?
            && MessageOf(decoded.value).value.JString? && IsBlank(MessageOf(decoded.value).value.s)
            ==> ValidateChat(payload, decoded, maxBytes) == BadRequest("'message' must not be empty")
    ensures forall m ::
              (payload != [] && decoded.Decoded? && MessageOf(decoded.value) == Some(JString(m))
               && !IsBlank(m) && MessageTooLarge(m, maxBytes)
               ==> ValidateChat(payload, decoded, maxBytes) == BadRequest("'message' exceeds size limit"))
    ensures forall m ::
              (payload != [] && decoded.Decoded? && MessageOf(decoded.value) == Some(JString(m))
               && !IsBlank(m) && !MessageTooLarge(m, maxBytes)
               ==> ValidateChat(payload, decoded, maxBytes) == Accepted(m))
  {
  }

  /** The answer of `/me`. */
  datatype MeResponse = MeResponse(anonymous: bool, userId: Option<string>)

  /** `/me`: `session` is the record bound to the request, `None` when there is none or it
      is not a mapping (both read as an empty record). */
  function Me(session: Option<Sessions.Session>): (r: MeResponse)
    ensures r.anonymous <==> r.userId.None?
    ensures session.None? ==> r.anonymous
    ensures session.Some? ==> r.userId == session.value.userId
  {
    var userId := if session.Some? then session.value.userId else None;
    MeResponse(userId.None?, userId)
  }

  /** A freshly created session is anonymous. */
  lemma NewSessionIsAnonymous(now: real)
    ensures Me(Some(Sessions.NewSession(now))) == MeResponse(true, None)
  {
  }

  datatype ErrorResponse = ErrorResponse(status: int, content: Json, headers: map<string, string>)

  /** `http_exception_handler`: a mapping detail is the body as it is, anything else is
      wrapped as `{"detail": ...}`; the request id header is added only where the response
      has none yet (`setdefault`), and only for a non-empty id. */
  function HandleHttpException(status: int, detail: Json, headers: map<string, string>, requestId: Option<string>)
    : (r: ErrorResponse)
    ensures r.status == status
    ensures r.content.JObject?
    ensures detail.JObject? ==> r.content == detail
    ensures !detail.JObject? ==> r.content == JObject(map["detail" := detail])
    ensures forall h :: h in headers ==> h in r.headers && r.headers[h] == headers[h]
    ensures r.headers.Keys == headers.Keys + (if Supplied(requestId) then {REQUEST_ID_HEADER} else {})
    ensures Supplied(requestId) && REQUEST_ID_HEADER !in headers ==> r.headers[REQUEST_ID_HEADER] == requestId.value
  {
    var content := if detail.JObject? then detail else JObject(map["detail" := detail]);
    var hs := if Supplied(requestId) && REQUEST_ID_HEADER !in headers
              then headers[REQUEST_ID_HEADER := requestId.value] else headers;
    ErrorResponse(status, content, hs)
  }

  /** A failed CSRF check reaches the client as a 403 whose body names the reason. */
  lemma CsrfRejectionBody(verb: string, cookies: map<string, string>, header: Option<string>,
                          headers: map<string, string>, requestId: Option<string>)
    requires Csrf.RequireCsrf(verb, cookies, header) in {Csrf.Missing, Csrf.Mismatch}
    ensures var c := Csrf.RequireCsrf(verb, cookies, header);
            var r := HandleHttpException(Csrf.REJECT_STATUS, JString(Csrf.Detail(c)), headers, requestId);
            r.status == 403 && r.content.fields == map["detail" := JString(Csrf.Detail(c))]
  {
  }

  /** A request the ladder turns down reaches the client as a 400 whose body names the
      failing check. */
  lemma BadRequestBody(payload: seq<Utf8.byte>, decoded: Decoding, maxBytes: int,
                       headers: map<string, string>, requestId: Option<string>)
    requires ValidateChat(payload, decoded, maxBytes).BadRequest?
    ensures var d := ValidateChat(payload, decoded, maxBytes).detail;
            var r := HandleHttpException(STATUS_BAD_REQUEST, JString(d), headers, requestId);
            r.status == 400 && r.content.fields == map["detail" := JString(d)]
  {
  }
}
