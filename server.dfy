/**
 * The `/chat` handler of app.py: it validates the posted JSON, forwards the
 * stripped message to the Gemini `generateContent` endpoint, and maps what
 * comes back (or the exception raised on the way) to a status code and a
 * JSON body holding either `response` or `error`.
 *
 * The upstream call is a parameter: `post` gives the outcome of
 * `requests.post` for a payload. Python's exceptions are `PyResult` values,
 * so an exception raised inside the `try` reaches the `except` clauses as a
 * `Raise`.
 */
module Server {
  import opened Wrappers
  import opened Json
  import Py = PyRuntime
  import Text

  /** A body as `request.get_json()` or `response.json()` sees it: decoded, or the decoder's error text. */
  datatype Decoded = Parsed(value: Json) | Undecodable(detail: string)

  /** The incoming request: whether its mimetype is JSON, and its body. */
  datatype HttpRequest = HttpRequest(isJson: bool, body: Decoded)

  /** The first `except` clause an exception raised by `requests.post` matches. */
  datatype Transport =
    | Timeout            // requests.exceptions.Timeout
    | ConnectionFailure  // requests.exceptions.ConnectionError
    | OtherRequestError  // any other requests.exceptions.RequestException
    | OtherError         // any other Exception

  /** The outcome of `requests.post(GEMINI_URL, json=payload, ...)`. */
  datatype Upstream =
    | Raised(kind: Transport, detail: string)
    | Responded(status: int, text: string, json: Decoded)

  /** What `chat()` returns: a status code and the `jsonify`-ed body. */
  datatype Reply = Reply(status: int, body: Json)

  const NotJson := "Request must be JSON"
  const NoData := "No JSON data provided"
  const NoMessage := "No message provided"
  const EmptyReply := "Empty response from AI"
  const NoParts := "No content parts in response"
  const InvalidStructure := "Invalid content structure"
  const SafetyBlocked := "Content was blocked due to safety concerns"
  const RecitationBlocked := "Content was blocked due to recitation"
  const UnexpectedFormat := "Unexpected response format"
  const InvalidJson := "Invalid JSON response from API"
  const BadRequest := "Bad request to API"
  const KeyInvalid := "API key invalid or quota exceeded"
  const RateLimited := "Rate limit exceeded. Please try again later"
  const TimedOut := "Request timeout. Please try again"
  const Unconnected := "Connection error. Please check your internet"
  const NetworkError := "Network error"
  const ServerFault := "Server error"

  /** `{"error": error}` */
  function ErrorBody(error: string): Json
  {
    Single("error", JStr(error))
  }

  /** `{"error": error, key: value}` */
  function ErrorWith(error: string, key: string, value: Json): (j: Json)
    requires key != "error"
    ensures j.JObj? && Lookup(j.fields, "error") == Some(JStr(error))
  {
    JObj([Member("error", JStr(error)), Member(key, value)])
  }

  /** The reply of the last `except Exception as e` clause. */
  function ServerError(detail: string): Reply
  {
    Reply(500, ErrorWith(ServerFault, "details", JStr(detail)))
  }

  /** `s[:n]` */
  function Truncate(s: string, n: nat): (r: string)
    ensures |r| <= n && r <= s
    ensures |s| <= n ==> r == s
  {
    if |s| <= n then s else s[..n]
  }

  /** A success reply: status 200 and a body whose only member is a truthy `response`. */
  predicate IsSuccess(r: Reply)
  {
    && r.status == 200 && r.body.JObj? && |r.body.fields| == 1
    && r.body.fields[0].key == "response" && Py.Truthy(r.body.fields[0].value)
  }

  /** A failure reply: some other status and a non-empty `error` string. */
  predicate IsError(r: Reply)
  {
    && r.status != 200 && r.body.JObj?
    && match Lookup(r.body.fields, "error")
       case Some(JStr(e)) => e != []
       case _ => false
  }

  /** The reply carries `error` with exactly this text. */
  predicate HasError(r: Reply, error: string)
  {
    r.body.JObj? && Lookup(r.body.fields, "error") == Some(JStr(error))
  }

  // ------------------------------------------------------------- validation

  /** The validation steps either answer the request or yield the text to forward. */
  datatype Validation = Reject(reply: Reply) | Accept(userInput: string)

  /**
   * The steps before the upstream call: JSON mimetype, a truthy decoded body,
   * and a `message` that is non-blank once stripped. A body that fails to
   * decode, or a `message` (or body) of the wrong type, raises, and ends in
   * the generic 500.
   */
  function Validate(req: HttpRequest): (v: Validation)
    ensures v.Reject? ==> IsError(v.reply) && (v.reply.status == 400 || v.reply.status == 500)
    ensures v.Accept? ==> v.userInput != [] && v.userInput == Py.Strip(v.userInput)
    ensures v.Accept? ==>
      && req.body.Parsed? && req.body.value.JObj?
      && Lookup(req.body.value.fields, "message").Some? && Lookup(req.body.value.fields, "message").value.JStr?
      && v.userInput == Py.Strip(Lookup(req.body.value.fields, "message").value.s)
    ensures v.Accept? <==>
      && req.isJson && req.body.Parsed? && req.body.value.JObj? && req.body.value.fields != []
      && match Lookup(req.body.value.fields, "message")
         case Some(JStr(m)) => Py.Strip(m) != []
         case _ => false
  {
    if !req.isJson then Reject(Reply(400, ErrorBody(NotJson)))
    else
      match req.body
      case Undecodable(detail) => Reject(ServerError(detail))
      case Parsed(data) =>
        if !Py.Truthy(data) then Reject(Reply(400, ErrorBody(NoData)))
        else
          match Py.Get(data, "message", JStr(""))
          case Raise(e) => Reject(ServerError(e.message))
          case Ok(message) =>
            match Py.StripValue(message)
            case Raise(e) => Reject(ServerError(e.message))
            case Ok(userInput) =>
              if userInput == [] then Reject(Reply(400, ErrorBody(NoMessage)))
              else
                Text.StripIdempotent(Py.Strip(message.s), Py.IsWhitespace);
                Accept(userInput)
  }

  // ------------------------------------------------------------ the payload

  /**
   * The body posted to Gemini: the user's text as the one part of the one
   * content, the integer members of `generationConfig`, and one safety
   * setting.
   */
  function Payload(userInput: string): Json
  {
    JObj([
      Member("contents", JArr([Single("parts", JArr([Single("text", JStr(userInput))]))])),
      Member("generationConfig", JObj([Member("topK", JNum(40)), Member("maxOutputTokens", JNum(1024))])),
      Member("safetySettings", JArr([JObj([
        Member("category", JStr("HARM_CATEGORY_HARASSMENT")),
        Member("threshold", JStr("BLOCK_MEDIUM_AND_ABOVE"))])]))
    ])
  }

  /** `payload["contents"][0]["parts"][0]["text"]`, as the receiving side reads it. */
  function ForwardedText(payload: Json): Option<string>
  {
    match Py.Item(payload, Py.Key("contents"))
    case Raise(_) => None
    case Ok(contents) =>
      match Py.Item(contents, Py.Index(0))
      case Raise(_) => None
      case Ok(content) =>
        match Py.Item(content, Py.Key("parts"))
        case Raise(_) => None
        case Ok(parts) =>
          match Py.Item(parts, Py.Index(0))
          case Raise(_) => None
          case Ok(part) =>
            match Py.Item(part, Py.Key("text"))
            case Ok(JStr(t)) => Some(t)
            case _ => None
  }

  /** The payload carries the text it was built from, unchanged. */
  lemma PayloadCarriesText(userInput: string)
    ensures ForwardedText(Payload(userInput)) == Some(userInput)
  {
    var p := Payload(userInput);
    assert p.fields[2].key != "contents" && p.fields[1].key != "contents";
    assert Lookup(p.fields[..1], "contents") == Some(p.fields[0].value);
    assert Lookup(p.fields[..2], "contents") == Lookup(p.fields[..2][..1], "contents");
    assert p.fields[..2][..1] == p.fields[..1] && p.fields[..3] == p.fields;
    assert Lookup(p.fields, "contents") == Lookup(p.fields[..2], "contents");
  }

  // ---------------------------------------------------- the Gemini response

  /** `"candidates" in data and len(data["candidates"]) > 0` */
  function HasCandidates(data: Json): Py.PyResult<bool>
  {
    var present :- Py.In(data, "candidates");
    if !present then Py.Ok(false)
    else
      var candidates :- Py.Item(data, Py.Key("candidates"));
      Py.LenPositive(candidates)
  }

  /** `"content" in candidate and "parts" in candidate["content"]` */
  function HasParts(candidate: Json): Py.PyResult<bool>
  {
    var present :- Py.In(candidate, "content");
    if !present then Py.Ok(false)
    else
      var content :- Py.Item(candidate, Py.Key("content"));
      Py.In(content, "parts")
  }

  /** The reply to a 200 whose body does not decode: the decoder's message and the start of the raw text. */
  function UndecodableReply(detail: string, text: string): (r: Reply)
    ensures r.status == 500 && HasError(r, InvalidJson)
  {
    var body := JObj([Member("error", JStr(InvalidJson)), Member("details", JStr(detail)),
                      Member("raw_response", JStr(Truncate(text, 500)))]);
    assert Lookup(body.fields, "error") == Lookup(body.fields[..2], "error");
    Reply(500, body)
  }

  /** `{"error": "Unexpected response format", "raw": data}` with status 500 */
  function Unexpected(data: Json): Reply
  {
    Reply(500, ErrorWith(UnexpectedFormat, "raw", data))
  }

  /**
   * The branch for a first candidate that is missing: it tests again the
   * very condition that brought it here before looking at `finishReason`.
   */
  function Blocked(data: Json): (r: Py.PyResult<Reply>)
    ensures r.Ok? ==> IsError(r.value) && r.value.status in {400, 500}
  {
    var again :- HasCandidates(data);
    if again then
      var candidates :- Py.Item(data, Py.Key("candidates"));
      var first :- Py.Item(candidates, Py.Index(0));
      var reason :- Py.Get(first, "finishReason", JStr(""));
      if reason == JStr("SAFETY") then Py.Ok(Reply(400, ErrorBody(SafetyBlocked)))
      else if reason == JStr("RECITATION") then Py.Ok(Reply(400, ErrorBody(RecitationBlocked)))
      else Py.Ok(Unexpected(data))
    else Py.Ok(Unexpected(data))
  }

  /** The walk of a decoded 200 body down to `candidates[0].content.parts[0].text`. */
  function ReadCandidate(data: Json): (r: Py.PyResult<Reply>)
    ensures r.Ok? ==> IsSuccess(r.value) || IsError(r.value)
    ensures r.Ok? ==> r.value.status in {200, 500}
  {
    var found :- HasCandidates(data);
    if found then
      var candidates :- Py.Item(data, Py.Key("candidates"));
      var candidate :- Py.Item(candidates, Py.Index(0));
      ReadContent(candidate)
    else Blocked(data)
  }

  /** The walk from the first candidate: its `content` must hold `parts`. */
  function ReadContent(candidate: Json): (r: Py.PyResult<Reply>)
    ensures r.Ok? ==> (IsSuccess(r.value) || IsError(r.value)) && r.value.status in {200, 500}
    ensures r.Ok? && r.value.status != 200 ==> WalkError(r.value)
  {
    var structured :- HasParts(candidate);
    if structured then
      var content :- Py.Item(candidate, Py.Key("content"));
      var parts :- Py.Item(content, Py.Key("parts"));
      ReadParts(parts)
    else Py.Ok(Reply(500, ErrorBody(InvalidStructure)))
  }

  /** The walk from `parts`: its first element must have a truthy `text`. */
  function ReadParts(parts: Json): (r: Py.PyResult<Reply>)
    ensures r.Ok? ==> (IsSuccess(r.value) || IsError(r.value)) && r.value.status in {200, 500}
    ensures r.Ok? && r.value.status != 200 ==> WalkError(r.value)
  {
    var nonEmpty :- Py.LenPositive(parts);
    if nonEmpty then
      var first :- Py.Item(parts, Py.Index(0));
      var reply :- Py.Get(first, "text", JStr(""));
      if Py.Truthy(reply) then Py.Ok(Reply(200, Single("response", reply)))
      else Py.Ok(Reply(500, ErrorBody(EmptyReply)))
    else Py.Ok(Reply(500, ErrorBody(NoParts)))
  }

  /** `response.json().get("error", {}).get("message", "Bad request")` */
  function ApiErrorMessage(json: Decoded): Py.PyResult<Json>
  {
    match json
    case Undecodable(detail) => Py.Raise(Py.PyException("JSONDecodeError", detail))
    case Parsed(errorData) =>
      var error :- Py.Get(errorData, "error", JObj([]));
      Py.Get(error, "message", JStr("Bad request"))
  }

  /** What `chat()` returns once `requests.post` has raised or answered. */
  function Respond(up: Upstream): (r: Reply)
    ensures IsSuccess(r) || IsError(r)
    ensures r.status in {200, 400, 403, 429, 500, 503, 504}
  {
    match up
    case Raised(kind, detail) => RaisedReply(kind, detail)
    case Responded(status, text, json) =>
      if status == 200 then OkReply(text, json) else StatusReply(status, text, json)
  }

  /** The `except` clauses for an exception raised by `requests.post`. */
  function RaisedReply(kind: Transport, detail: string): (r: Reply)
    ensures IsError(r) && r.status in {500, 503, 504}
    ensures kind.Timeout? ==> r.status == 504 && HasError(r, TimedOut)
    ensures kind.ConnectionFailure? ==> r.status == 503 && HasError(r, Unconnected)
    ensures kind.OtherRequestError? ==> r.status == 503 && HasError(r, NetworkError)
    ensures kind.OtherError? ==> r.status == 500 && HasError(r, ServerFault)
  {
    match kind
    case Timeout => Reply(504, ErrorBody(TimedOut))
    case ConnectionFailure => Reply(503, ErrorBody(Unconnected))
    case OtherRequestError => Reply(503, ErrorWith(NetworkError, "details", JStr(detail)))
    case OtherError => ServerError(detail)
  }

  /** The branch for upstream status 200. */
  function OkReply(text: string, json: Decoded): (r: Reply)
    ensures (IsSuccess(r) || IsError(r)) && r.status in {200, 400, 500}
    ensures json.Undecodable? ==> r.status == 500 && HasError(r, InvalidJson)
    ensures json.Parsed? && ReadCandidate(json.value).Raise? ==> r.status == 500 && HasError(r, ServerFault)
  {
    match json
    case Undecodable(detail) => UndecodableReply(detail, text)
    case Parsed(data) =>
      match ReadCandidate(data)
      case Ok(reply) => reply
      case Raise(e) => ServerError(e.message)
  }

  /** The branches for any other upstream status. */
  function StatusReply(status: int, text: string, json: Decoded): (r: Reply)
    requires status != 200
    ensures IsError(r) && r.status in {400, 403, 429, 500}
    ensures status == 400 && ApiErrorMessage(json).Raise? ==> r.status == 400 && HasError(r, BadRequest)
    ensures status == 400 && ApiErrorMessage(json).Ok? ==>
      r.status == 400 && HasError(r, "API Error: " + Py.Str(ApiErrorMessage(json).value))
    ensures status == 403 ==> HasError(r, KeyInvalid)
    ensures status == 429 ==> HasError(r, RateLimited)
    ensures status !in {400, 403, 429} ==> r.status == 500 && HasError(r, "API returned status " + Text.IntToString(status))
  {
    if status == 400 then
      match ApiErrorMessage(json)
      case Ok(message) => Reply(400, ErrorBody("API Error: " + Py.Str(message)))
      case Raise(_) => Reply(400, ErrorWith(BadRequest, "details", JStr(Truncate(text, 200))))
    else if status == 403 then Reply(403, ErrorBody(KeyInvalid))
    else if status == 429 then Reply(429, ErrorBody(RateLimited))
    else Reply(500, ErrorWith("API returned status " + Text.IntToString(status), "details", JStr(Truncate(text, 200))))
  }

  /**
   * `chat()`: a request that fails validation is answered without calling
   * `post`; otherwise the stripped message is posted and the outcome mapped.
   */
  function Chat(req: HttpRequest, post: Json -> Upstream): (r: Reply)
    ensures IsSuccess(r) || IsError(r)
    ensures r.status in {200, 400, 403, 429, 500, 503, 504}
  {
    match Validate(req)
    case Reject(reply) => reply
    case Accept(userInput) => Respond(post(Payload(userInput)))
  }

  // --------------------------------------------------------------- lemmas

  /** The member `key` of an object, or nothing. */
  function Field(j: Option<Json>, key: string): Option<Json>
  {
    if j.Some? && j.value.JObj? then Lookup(j.value.fields, key) else None
  }

  /** The first element of a non-empty array, or nothing. */
  function First(j: Option<Json>): Option<Json>
  {
    if j.Some? && j.value.JArr? && j.value.items != [] then Some(j.value.items[0]) else None
  }

  /** The truthy `text` of the first element of `parts`, if any. */
  function PartsText(parts: Option<Json>): Option<Json>
  {
    var t := Field(First(parts), "text");
    if t.Some? && Py.Truthy(t.value) then t else None
  }

  /** The reply text under a candidate: its `content.parts[0].text`. */
  function ContentText(candidate: Option<Json>): Option<Json>
  {
    PartsText(Field(Field(candidate, "content"), "parts"))
  }

  /**
   * The reply text where the Gemini documentation puts it: the first
   * candidate's content's first part's `text`, when every level has the
   * expected shape and the text is truthy. Read through `Lookup`, without
   * the Python operations.
   */
  function GeminiText(data: Json): Option<Json>
  {
    ContentText(First(Field(Some(data), "candidates")))
  }

  /** The walk from `parts` answers 200 exactly when its first element has a truthy `text`, and answers with it. */
  lemma PartsWalk(parts: Json)
    ensures (ReadParts(parts).Ok? && ReadParts(parts).value.status == 200) <==> PartsText(Some(parts)).Some?
    ensures PartsText(Some(parts)).Some? ==>
      ReadParts(parts) == Py.Ok(Reply(200, Single("response", PartsText(Some(parts)).value)))
  {
    if PartsText(Some(parts)).Some? {
      var first := parts.items[0];
      assert Py.LenPositive(parts) == Py.Ok(true);
      assert Py.Item(parts, Py.Index(0)) == Py.Ok(first);
      assert Py.Get(first, "text", JStr("")) == Py.Ok(PartsText(Some(parts)).value);
    }
    if ReadParts(parts).Ok? && ReadParts(parts).value.status == 200 {
      var first := Py.Item(parts, Py.Index(0)).value;
      var text := Py.Get(first, "text", JStr("")).value;
      assert parts.JArr? && First(Some(parts)) == Some(first);
      assert Field(Some(first), "text") == Some(text);
    }
  }

  /** The walk from a candidate answers 200 exactly when `content.parts[0].text` is there, and answers with it. */
  lemma ContentWalk(candidate: Json)
    ensures (ReadContent(candidate).Ok? && ReadContent(candidate).value.status == 200) <==> ContentText(Some(candidate)).Some?
    ensures ContentText(Some(candidate)).Some? ==>
      ReadContent(candidate) == Py.Ok(Reply(200, Single("response", ContentText(Some(candidate)).value)))
  {
    if ContentText(Some(candidate)).Some? {
      var content := Field(Some(candidate), "content").value;
      var parts := Field(Some(content), "parts").value;
      assert Py.Item(candidate, Py.Key("content")) == Py.Ok(content);
      assert HasParts(candidate) == Py.Ok(true);
      assert Py.Item(content, Py.Key("parts")) == Py.Ok(parts);
      PartsWalk(parts);
    }
    if ReadContent(candidate).Ok? && ReadContent(candidate).value.status == 200 {
      assert HasParts(candidate) == Py.Ok(true);
      var content := Py.Item(candidate, Py.Key("content")).value;
      var parts := Py.Item(content, Py.Key("parts")).value;
      assert Field(Some(candidate), "content") == Some(content);
      assert Field(Some(content), "parts") == Some(parts);
      PartsWalk(parts);
    }
  }

  /**
   * The walk of a 200 body succeeds exactly when the documented reply text is
   * there, and then answers with that text under `response`.
   */
  lemma CandidateWalk(data: Json)
    ensures (ReadCandidate(data).Ok? && ReadCandidate(data).value.status == 200) <==> GeminiText(data).Some?
    ensures GeminiText(data).Some? ==> ReadCandidate(data) == Py.Ok(Reply(200, Single("response", GeminiText(data).value)))
  {
    if GeminiText(data).Some? {
      var candidates := Field(Some(data), "candidates").value;
      var candidate := candidates.items[0];
      assert Py.In(data, "candidates") == Py.Ok(true);
      assert Py.Item(data, Py.Key("candidates")) == Py.Ok(candidates);
      assert HasCandidates(data) == Py.Ok(true);
      assert Py.Item(candidates, Py.Index(0)) == Py.Ok(candidate);
      ContentWalk(candidate);
    }
    if ReadCandidate(data).Ok? && ReadCandidate(data).value.status == 200 {
      assert HasCandidates(data) == Py.Ok(true);
      var candidates := Py.Item(data, Py.Key("candidates")).value;
      var candidate := Py.Item(candidates, Py.Index(0)).value;
      assert Field(Some(data), "candidates") == Some(candidates);
      ContentWalk(candidate);
      assert candidate.JObj?;
      assert candidates.JArr? && First(Some(candidates)) == Some(candidate);
    }
  }

  /** Only a 200 whose body holds the documented reply text gets a 200 reply, and that reply carries the text. */
  lemma SuccessOnlyFromText(up: Upstream)
    ensures Respond(up).status == 200 <==>
      up.Responded? && up.status == 200 && up.json.Parsed? && GeminiText(up.json.value).Some?
    ensures Respond(up).status == 200 ==> Respond(up) == Reply(200, Single("response", GeminiText(up.json.value).value))
  {
    if up.Responded? && up.status == 200 && up.json.Parsed? {
      CandidateWalk(up.json.value);
    }
  }

  /** The errors the candidate walk itself reports. */
  predicate WalkError(r: Reply)
  {
    HasError(r, EmptyReply) || HasError(r, NoParts) || HasError(r, InvalidStructure) || HasError(r, UnexpectedFormat)
  }

  /**
   * The `finishReason` check sits where the candidates have just been found
   * missing, and tests for them again first: it always falls through to
   * "Unexpected response format".
   */
  lemma BlockedFallsThrough(data: Json)
    requires HasCandidates(data) == Py.Ok(false)
    ensures Blocked(data) == Py.Ok(Unexpected(data))
  {
  }

  /** A walk that does not answer reports one of its own four errors. */
  lemma WalkErrors(data: Json)
    requires ReadCandidate(data).Ok? && ReadCandidate(data).value.status != 200
    ensures WalkError(ReadCandidate(data).value)
  {
    if HasCandidates(data) == Py.Ok(false) {
      BlockedFallsThrough(data);
    }
  }

  /**
   * Each way the documented path can be missing has its own 500: no
   * candidates, a first candidate without `content`, an empty `parts`, and a
   * first part without a truthy `text`.
   */
  lemma WalkFailures(data: Json)
    ensures data.JObj? && (Field(Some(data), "candidates").None? || Field(Some(data), "candidates") == Some(JArr([]))) ==>
      ReadCandidate(data) == Py.Ok(Unexpected(data))
    ensures var candidate := First(Field(Some(data), "candidates"));
      candidate.Some? && candidate.value.JObj? && !HasKey(candidate.value.fields, "content") ==>
      ReadCandidate(data) == Py.Ok(Reply(500, ErrorBody(InvalidStructure)))
    ensures Field(Field(First(Field(Some(data), "candidates")), "content"), "parts") == Some(JArr([])) ==>
      ReadCandidate(data) == Py.Ok(Reply(500, ErrorBody(NoParts)))
    ensures var part := First(Field(Field(First(Field(Some(data), "candidates")), "content"), "parts"));
      part.Some? && part.value.JObj? && (Field(part, "text").None? || !Py.Truthy(Field(part, "text").value)) ==>
      ReadCandidate(data) == Py.Ok(Reply(500, ErrorBody(EmptyReply)))
  {
    if data.JObj? && Field(Some(data), "candidates").Some? && Field(Some(data), "candidates").value.JArr?
       && Field(Some(data), "candidates").value.items != [] {
      var candidates := Field(Some(data), "candidates").value;
      var candidate := candidates.items[0];
      assert Py.In(data, "candidates") == Py.Ok(true);
      assert Py.Item(data, Py.Key("candidates")) == Py.Ok(candidates);
      assert HasCandidates(data) == Py.Ok(true);
      assert Py.Item(candidates, Py.Index(0)) == Py.Ok(candidate);
      if candidate.JObj? && Field(Some(candidate), "content").Some? && Field(Some(candidate), "content").value.JObj?
         && Field(Field(Some(candidate), "content"), "parts").Some? {
        var content := Field(Some(candidate), "content").value;
        var parts := Field(Some(content), "parts").value;
        assert Py.Item(candidate, Py.Key("content")) == Py.Ok(content);
        assert HasParts(candidate) == Py.Ok(true);
        assert Py.Item(content, Py.Key("parts")) == Py.Ok(parts);
        if parts.JArr? && parts.items != [] {
          assert Py.Item(parts, Py.Index(0)) == Py.Ok(parts.items[0]);
        }
      }
    }
  }

  /** No outcome of the upstream call is reported as blocked for safety or recitation. */
  lemma BlockedReasonsUnreachable(up: Upstream)
    ensures !HasError(Respond(up), SafetyBlocked)
    ensures !HasError(Respond(up), RecitationBlocked)
  {
    var r := Respond(up);
    if up.Responded? && up.status == 200 && up.json.Parsed? && ReadCandidate(up.json.value).Ok?
       && ReadCandidate(up.json.value).value.status != 200 {
      WalkErrors(up.json.value);
    }
    if up.Responded? && up.status == 400 && ApiErrorMessage(up.json).Ok? {
      var e := "API Error: " + Py.Str(ApiErrorMessage(up.json).value);
      assert e[0] == 'A';
      assert e != SafetyBlocked && e != RecitationBlocked by {
        assert SafetyBlocked[0] == 'C' && RecitationBlocked[0] == 'C';
      }
    }
    if up.Responded? && up.status !in {200, 400, 403, 429} {
      var e := "API returned status " + Text.IntToString(up.status);
      assert e[0] == 'A';
      assert e != SafetyBlocked && e != RecitationBlocked by {
        assert SafetyBlocked[0] == 'C' && RecitationBlocked[0] == 'C';
      }
    }
  }

  /**
   * How the upstream status reaches the browser: 400, 403 and 429 are passed
   * on, any other non-200 status becomes a 500 naming it, and a 200 never
   * turns into a client error.
   */
  lemma UpstreamStatus(status: int, text: string, json: Decoded)
    ensures status == 200 ==> Respond(Responded(status, text, json)).status in {200, 500}
    ensures status == 200 && json.Undecodable? ==>
      Respond(Responded(status, text, json)).status == 500 && HasError(Respond(Responded(status, text, json)), InvalidJson)
    ensures status in {400, 403, 429} ==> Respond(Responded(status, text, json)).status == status
    ensures status == 400 && json.Undecodable? ==> HasError(Respond(Responded(status, text, json)), BadRequest)
    ensures status == 403 ==> HasError(Respond(Responded(status, text, json)), KeyInvalid)
    ensures status == 429 ==> HasError(Respond(Responded(status, text, json)), RateLimited)
    ensures status !in {200, 400, 403, 429} ==>
      && Respond(Responded(status, text, json)).status == 500
      && HasError(Respond(Responded(status, text, json)), "API returned status " + Text.IntToString(status))
  {
  }

  /** The API's own error message is shown after "API Error: ", and "Bad request" when it gives none. */
  lemma ApiErrorShown(text: string, m: string)
    ensures HasError(Respond(Responded(400, text, Parsed(Single("error", Single("message", JStr(m)))))), "API Error: " + m)
    ensures HasError(Respond(Responded(400, text, Parsed(JObj([])))), "API Error: Bad request")
  {
    assert ApiErrorMessage(Parsed(JObj([]))) == Py.Ok(JStr("Bad request"));
    assert "API Error: " + "Bad request" == "API Error: Bad request";
  }

  /**
   * Exceptions from the call itself: a timeout is 504 asking to try again, a
   * connection failure 503 asking to check the connection, another network
   * failure 503 "Network error", and anything else 500 "Server error".
   */
  lemma TransportStatus(kind: Transport, detail: string)
    ensures Respond(Raised(kind, detail)).status == (match kind
      case Timeout => 504
      case ConnectionFailure => 503
      case OtherRequestError => 503
      case OtherError => 500)
    ensures HasError(Respond(Raised(kind, detail)), match kind
      case Timeout => TimedOut
      case ConnectionFailure => Unconnected
      case OtherRequestError => NetworkError
      case OtherError => ServerFault)
  {
  }

  /** A missing or blank `message` is answered 400 without calling the API. */
  lemma BlankMessageNotPosted(fields: seq<Member>, post: Json -> Upstream)
    requires fields != []
    requires match Lookup(fields, "message")
      case None => true
      case Some(v) => v.JStr? && Py.Strip(v.s) == []
    ensures Chat(HttpRequest(true, Parsed(JObj(fields))), post) == Reply(400, ErrorBody(NoMessage))
  {
    assert Py.Strip("") == "";
  }

  /** A non-blank `message` is posted once, stripped, as the text of the payload. */
  lemma ForwardsStrippedMessage(fields: seq<Member>, m: string, post: Json -> Upstream)
    requires Lookup(fields, "message") == Some(JStr(m)) && Py.Strip(m) != []
    ensures Chat(HttpRequest(true, Parsed(JObj(fields))), post) == Respond(post(Payload(Py.Strip(m))))
    ensures ForwardedText(Payload(Py.Strip(m))) == Some(Py.Strip(m))
  {
    PayloadCarriesText(Py.Strip(m));
  }

  /**
   * Requests refused before the API call, in the order the handler tests
   * them; none of them depends on what `post` would have answered.
   */
  lemma RequestErrors(req: HttpRequest, post: Json -> Upstream)
    ensures !req.isJson ==> Chat(req, post) == Reply(400, ErrorBody(NotJson))
    ensures req.isJson && req.body.Undecodable? ==> Chat(req, post) == ServerError(req.body.detail)
    ensures req.isJson && req.body.Parsed? && !Py.Truthy(req.body.value) ==> Chat(req, post) == Reply(400, ErrorBody(NoData))
    ensures req.isJson && req.body.Parsed? && Py.Truthy(req.body.value) && !req.body.value.JObj? ==>
      Chat(req, post) == ServerError("'" + Py.TypeName(req.body.value) + "' object has no attribute 'get'")
  {
  }
}
