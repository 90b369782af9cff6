/**
 * How `sendMessage` in script.js decides what one exchange with `/chat`
 * amounts to, once the `fetch` has settled: the strict chain of checks in its
 * `try` block and the sub-classification in its `catch` block. The decision
 * is one function from the fetch outcome to the branch taken, the bubble to
 * show and the status line to set.
 */
module Exchange {
  import opened Wrappers
  import opened Json
  import Js = JsRuntime
  import Text

  /**
   * What a settled `fetch` exposes: the status and its reason phrase, the
   * `Content-Type` header if any, the body text, and what `JSON.parse` makes
   * of that body (`None` when it throws).
   */
  datatype Response = Response(status: int, statusText: string, contentType: Option<string>, body: string, parsed: Option<Json>)

  /** `await fetch(...)` either throws or gives a response. */
  datatype FetchResult = Rejected(error: Js.JsError) | Resolved(response: Response)

  /** `response.ok` */
  predicate IsOk(status: int)
  {
    200 <= status <= 299
  }

  /** `contentType && contentType.includes("application/json")` */
  predicate IsJsonType(contentType: Option<string>)
  {
    contentType.Some? && Text.Contains(contentType.value, "application/json")
  }

  /** Which branch of `sendMessage` ended the exchange. */
  datatype Branch =
    | NotOk       // `!response.ok`
    | WrongType   // not `application/json`
    | Unreadable  // blank body, or `JSON.parse` throws
    | Answered    // truthy `data.response`
    | Reported    // truthy `data.error`
    | Invalid     // neither
    | Caught      // the outer `catch`

  /** The bot bubble of the exchange: the answer itself, or an error notice. */
  datatype Verdict = Answer(content: Json) | Notice(text: string)

  datatype Classification = Classification(branch: Branch, verdict: Verdict, status: string)

  const StatusReady := "Sẵn sàng trò chuyện"
  const StatusFailed := "Có lỗi xảy ra"
  const StatusFormat := "Lỗi định dạng"
  const StatusParse := "Lỗi phân tích dữ liệu"
  const StatusUnknown := "Lỗi không xác định"
  const StatusConnection := "Lỗi kết nối"

  const ErrorPrefix := "Lỗi: "
  const FormatNotice := "Lỗi: Server trả về dữ liệu không đúng định dạng"
  const ParseNotice := "Lỗi: Không thể đọc phản hồi từ server"
  const InvalidNotice := "Lỗi: Phản hồi không hợp lệ từ server"
  const UnreachableNotice := "Không thể kết nối đến server. Vui lòng kiểm tra server đã chạy chưa."
  const DataNotice := "Lỗi xử lý dữ liệu từ server"

  /** The status line each branch leaves behind. */
  function StatusOf(b: Branch): string
  {
    match b
    case NotOk => StatusFailed
    case WrongType => StatusFormat
    case Unreadable => StatusParse
    case Answered => StatusReady
    case Reported => StatusFailed
    case Invalid => StatusUnknown
    case Caught => StatusConnection
  }

  /**
   * The value `errorMessage` holds for a response that is not ok: the body's
   * truthy `error` field as it is, else the string `HTTP Error: <status>`;
   * when `response.json()` or reading `.error` of a parsed `null` throws, the
   * string `Server returned <status>: <text>`.
   */
  function NotOkDetail(r: Response): Json
  {
    var unparsed := JStr("Server returned " + Text.IntToString(r.status) + ": " + r.statusText);
    match r.parsed
    case None => unparsed
    case Some(errorData) =>
      match Js.GetProperty(errorData, "error")
      case Throws(_) => unparsed
      case Got(v) => if Js.Truthy(v) then v.value else JStr("HTTP Error: " + Text.IntToString(r.status))
  }

  /** The notice of the outer `catch`, by the error's name and message. */
  function CaughtNotice(e: Js.JsError): string
  {
    if e.name == "TypeError" && Text.Contains(e.message, "fetch") then UnreachableNotice
    else if Text.Contains(e.message, "JSON") then DataNotice
    else ErrorPrefix + e.message
  }

  /** The outer `catch` block. */
  function Catch(e: Js.JsError): Classification
  {
    Classification(Caught, Notice(CaughtNotice(e)), StatusConnection)
  }

  /** The `try` block after `fetch` either settles the exchange or throws. */
  datatype Step = Done(c: Classification) | Throw(error: Js.JsError)

  /**
   * The `try` block throws after `fetch` settles: reading `data.response` of
   * a parsed `null`, or converting to text (in a template literal or in
   * `addMessage`) the value it is about to show, the non-ok `errorMessage`,
   * a truthy `data.response` or a truthy `data.error`, when `String()`
   * cannot convert it.
   */
  predicate TryThrows(r: Response)
  {
    || (Delivered(r) && r.parsed.value == JNull)
    || (!IsOk(r.status) && !Js.Printable(NotOkDetail(r)))
    || (Delivered(r) && Js.Truthy(Own(r.parsed.value, "response")) && !Js.Printable(Own(r.parsed.value, "response").value))
    || (Delivered(r) && !Js.Truthy(Own(r.parsed.value, "response")) && Js.Truthy(Own(r.parsed.value, "error"))
        && !Js.Printable(Own(r.parsed.value, "error").value))
  }

  /** The checks of the `try` block on a resolved response, first match wins. */
  function ClassifyResponse(r: Response): (s: Step)
    ensures s.Throw? <==> TryThrows(r)
    ensures s.Throw? && Delivered(r) && r.parsed.value == JNull ==>
      s.error == Js.JsError("TypeError", Js.NullReadMessage("response"))
    ensures s.Throw? && !(Delivered(r) && r.parsed.value == JNull) ==> s.error == Js.ConvertError
    ensures s.Done? ==> s.c.status == StatusOf(s.c.branch) && s.c.branch != Caught
    ensures s.Done? ==> (s.c.verdict.Answer? <==> s.c.branch == Answered)
    ensures s.Done? && s.c.branch == Answered ==>
      && Delivered(r) && Own(r.parsed.value, "response") == Some(s.c.verdict.content)
      && Js.Truthy(Some(s.c.verdict.content)) && Js.Printable(s.c.verdict.content)
    ensures s.Done? ==> (s.c.branch == NotOk <==> !IsOk(r.status))
    ensures s.Done? ==> (s.c.branch == WrongType <==> IsOk(r.status) && !IsJsonType(r.contentType))
    ensures s.Done? ==> (s.c.branch == Unreadable <==> IsOk(r.status) && IsJsonType(r.contentType) && !Delivered(r))
    ensures s.Done? ==> (s.c.branch == Answered <==> Delivered(r) && Js.Truthy(Own(r.parsed.value, "response")))
    ensures s.Done? ==> (s.c.branch == Reported <==>
      Delivered(r) && !Js.Truthy(Own(r.parsed.value, "response")) && Js.Truthy(Own(r.parsed.value, "error")))
    ensures s.Done? ==> (s.c.branch == Invalid <==>
      Delivered(r) && !Js.Truthy(Own(r.parsed.value, "response")) && !Js.Truthy(Own(r.parsed.value, "error")))
    ensures s.Done? && s.c.branch == NotOk ==> s.c.verdict == Notice(ErrorPrefix + Js.ToString(NotOkDetail(r)))
    ensures s.Done? && s.c.branch == WrongType ==> s.c.verdict == Notice(FormatNotice)
    ensures s.Done? && s.c.branch == Unreadable ==> s.c.verdict == Notice(ParseNotice)
    ensures s.Done? && s.c.branch == Reported ==>
      s.c.verdict == Notice(ErrorPrefix + Js.ToString(Own(r.parsed.value, "error").value))
    ensures s.Done? && s.c.branch == Invalid ==> s.c.verdict == Notice(InvalidNotice)
  {
    if !IsOk(r.status) then
      var detail := NotOkDetail(r);
      if Js.Printable(detail) then Done(Classification(NotOk, Notice(ErrorPrefix + Js.ToString(detail)), StatusFailed))
      else Throw(Js.ConvertError)
    else if !IsJsonType(r.contentType) then
      Done(Classification(WrongType, Notice(FormatNotice), StatusFormat))
    else if Js.Trim(r.body) == [] || r.parsed.None? then
      Done(Classification(Unreadable, Notice(ParseNotice), StatusParse))
    else
      var data := r.parsed.value;
      match Js.GetProperty(data, "response")
      case Throws(e) => Throw(e)
      case Got(answer) =>
        if Js.Truthy(answer) then
          if Js.Printable(answer.value) then Done(Classification(Answered, Answer(answer.value), StatusReady))
          else Throw(Js.ConvertError)
        else
          match Js.GetProperty(data, "error")
          case Throws(e) => Throw(e)
          case Got(err) =>
            if Js.Truthy(err) then
              if Js.Printable(err.value) then Done(Classification(Reported, Notice(ErrorPrefix + Js.ToString(err.value)), StatusFailed))
              else Throw(Js.ConvertError)
            else
              Done(Classification(Invalid, Notice(InvalidNotice), StatusUnknown))
  }

  /** A response that passes the first three checks: ok, JSON, readable. */
  predicate Delivered(r: Response)
  {
    IsOk(r.status) && IsJsonType(r.contentType) && Js.Trim(r.body) != [] && r.parsed.Some?
  }

  /** The member `key` of an object, `None` for any other value. */
  function Own(data: Json, key: string): Option<Json>
  {
    if data.JObj? then Lookup(data.fields, key) else None
  }

  /**
   * The decision for one exchange. Exactly one branch is taken, and which one
   * is given by the first condition of the chain that holds; a parsed `null`
   * makes `data.response` throw, and so does a value to be shown that
   * `String()` cannot convert, so both end in the `catch`.
   */
  function Classify(f: FetchResult): (c: Classification)
    ensures c.status == StatusOf(c.branch)
    ensures c.verdict.Answer? <==> c.branch == Answered
    ensures c.verdict.Answer? ==> Js.Truthy(Some(c.verdict.content)) && Js.Printable(c.verdict.content)
    ensures c.branch == NotOk <==> f.Resolved? && !IsOk(f.response.status) && Js.Printable(NotOkDetail(f.response))
    ensures c.branch == WrongType <==> f.Resolved? && IsOk(f.response.status) && !IsJsonType(f.response.contentType)
    ensures c.branch == Unreadable <==>
      f.Resolved? && IsOk(f.response.status) && IsJsonType(f.response.contentType) && !Delivered(f.response)
    ensures c.branch == Caught <==> f.Rejected? || TryThrows(f.response)
    ensures c.branch == Answered <==>
      f.Resolved? && Delivered(f.response) && Js.Truthy(Own(f.response.parsed.value, "response"))
      && Js.Printable(Own(f.response.parsed.value, "response").value)
    ensures c.branch == Reported <==>
      f.Resolved? && Delivered(f.response) && !Js.Truthy(Own(f.response.parsed.value, "response"))
      && Js.Truthy(Own(f.response.parsed.value, "error")) && Js.Printable(Own(f.response.parsed.value, "error").value)
    ensures c.branch == Invalid <==>
      f.Resolved? && Delivered(f.response) && f.response.parsed.value != JNull
      && !Js.Truthy(Own(f.response.parsed.value, "response")) && !Js.Truthy(Own(f.response.parsed.value, "error"))
    ensures c.branch == Answered ==> Own(f.response.parsed.value, "response") == Some(c.verdict.content)
  {
    match f
    case Rejected(e) => Catch(e)
    case Resolved(r) =>
      match ClassifyResponse(r)
      case Done(c) => c
      case Throw(e) => Catch(e)
  }

  /**
   * The bubble of every branch: the answer, or the notice of the `try` block's
   * checks, or that of the `catch` block for the error that reached it.
   */
  lemma ClassifyNotices(f: FetchResult)
    ensures var c := Classify(f);
      && (c.branch == NotOk ==> c.verdict == Notice(ErrorPrefix + Js.ToString(NotOkDetail(f.response))))
      && (c.branch == WrongType ==> c.verdict == Notice(FormatNotice))
      && (c.branch == Unreadable ==> c.verdict == Notice(ParseNotice))
      && (c.branch == Answered ==> c.verdict == Answer(Own(f.response.parsed.value, "response").value))
      && (c.branch == Reported ==> c.verdict == Notice(ErrorPrefix + Js.ToString(Own(f.response.parsed.value, "error").value)))
      && (c.branch == Invalid ==> c.verdict == Notice(InvalidNotice))
      && (f.Rejected? ==> c.verdict == Notice(CaughtNotice(f.error)))
      && (f.Resolved? && c.branch == Caught && Delivered(f.response) && f.response.parsed.value == JNull ==>
            c.verdict == Notice(CaughtNotice(Js.JsError("TypeError", Js.NullReadMessage("response")))))
      && (f.Resolved? && c.branch == Caught && !(Delivered(f.response) && f.response.parsed.value == JNull) ==>
            c.verdict == Notice(CaughtNotice(Js.ConvertError)))
  {
  }

  /** Every character of an occurrence of `sub` occurs in `s`. */
  lemma ContainsChars(s: string, sub: string, c: char)
    requires Text.Contains(s, sub) && c in sub
    ensures c in s
  {
    Text.ContainsIffOccurs(s, sub);
    var i :| Text.OccursAt(s, sub, i);
    var k :| 0 <= k < |sub| && sub[k] == c;
    assert s[i + k] == s[i..i + |sub|][k];
  }

  /**
   * The three values of `errorMessage` for a response that is not ok: the
   * body's `error`, the status alone when the body has no truthy `error`, and
   * status with reason phrase when the body does not parse (or parses to
   * `null`). The notice is "Lỗi: " and its text, unless `String()` cannot
   * convert it, and then the exchange ends in the `catch`.
   */
  lemma NotOkNotice(r: Response)
    requires !IsOk(r.status)
    ensures Js.Printable(NotOkDetail(r)) ==>
      Classify(Resolved(r)) == Classification(NotOk, Notice(ErrorPrefix + Js.ToString(NotOkDetail(r))), StatusFailed)
    ensures !Js.Printable(NotOkDetail(r)) ==>
      Classify(Resolved(r)) == Classification(Caught, Notice(ErrorPrefix + Js.ConvertError.message), StatusConnection)
    ensures r.parsed.Some? && Js.Truthy(Own(r.parsed.value, "error")) ==>
      NotOkDetail(r) == Own(r.parsed.value, "error").value
    ensures r.parsed.Some? && r.parsed.value != JNull && !Js.Truthy(Own(r.parsed.value, "error")) ==>
      NotOkDetail(r) == JStr("HTTP Error: " + Text.IntToString(r.status))
    ensures r.parsed.None? || r.parsed.value == JNull ==>
      NotOkDetail(r) == JStr("Server returned " + Text.IntToString(r.status) + ": " + r.statusText)
  {
    if !Js.Printable(NotOkDetail(r)) {
      ConvertNotice();
    }
  }

  /**
   * The TypeError of a failed `String()` mentions neither `fetch` nor `JSON`,
   * so the `catch` shows it as "Lỗi: " and its message.
   */
  lemma ConvertNotice()
    ensures CaughtNotice(Js.ConvertError) == ErrorPrefix + Js.ConvertError.message
  {
    Js.ConvertMessageLetters();
    PlainMessage(Js.ConvertMessage);
  }

  /** A message without an `h` or a `J` mentions neither `fetch` nor `JSON`. */
  lemma PlainMessage(m: string)
    requires 'h' !in m && 'J' !in m
    ensures !Text.Contains(m, "fetch") && !Text.Contains(m, "JSON")
  {
    if Text.Contains(m, "fetch") {
      ContainsChars(m, "fetch", 'h');
    }
    if Text.Contains(m, "JSON") {
      ContainsChars(m, "JSON", 'J');
    }
  }

  /**
   * A value to be shown that `String()` cannot convert (a truthy
   * `data.response` such as `{"toString": 1}`) ends the exchange in the
   * `catch`, with the TypeError's message and no answer.
   */
  lemma UnprintableReply(r: Response)
    requires TryThrows(r) && !(Delivered(r) && r.parsed.value == JNull)
    ensures Classify(Resolved(r)) == Classification(Caught, Notice(ErrorPrefix + Js.ConvertError.message), StatusConnection)
  {
    assert ClassifyResponse(r) == Throw(Js.ConvertError);
    ConvertNotice();
  }

  /**
   * The `catch` block's three notices: a TypeError that mentions `fetch` is
   * the server being unreachable, a message that mentions `JSON` is a data
   * problem, anything else is shown as it is.
   */
  lemma CaughtNoticeCases(e: Js.JsError)
    ensures Classify(Rejected(e)).verdict.text == CaughtNotice(e)
    ensures e.name == "TypeError" && Text.Contains(e.message, "fetch") ==> CaughtNotice(e) == UnreachableNotice
    ensures !(e.name == "TypeError" && Text.Contains(e.message, "fetch")) && Text.Contains(e.message, "JSON") ==>
      CaughtNotice(e) == DataNotice
    ensures !(e.name == "TypeError" && Text.Contains(e.message, "fetch")) && !Text.Contains(e.message, "JSON") ==>
      CaughtNotice(e) == ErrorPrefix + e.message
  {
  }

  /** A refused connection (`TypeError: Failed to fetch`) asks to check the server. */
  lemma ConnectionRefused()
    ensures Classify(Rejected(Js.JsError("TypeError", "Failed to fetch"))) ==
      Classification(Caught, Notice(UnreachableNotice), StatusConnection)
  {
    var m := "Failed to fetch";
    assert Text.OccursAt(m, "fetch", 10);
    Text.ContainsIffOccurs(m, "fetch");
  }

  /**
   * A 200 JSON reply whose body is `null` reaches the `catch` through the
   * TypeError of `data.response`, and its notice is that error's message.
   */
  lemma NullReply(r: Response)
    requires Delivered(r) && r.parsed.value == JNull
    ensures Classify(Resolved(r)) ==
      Classification(Caught, Notice(ErrorPrefix + Js.NullReadMessage("response")), StatusConnection)
  {
    var e := Js.JsError("TypeError", Js.NullReadMessage("response"));
    assert ClassifyResponse(r) == Throw(e);
    assert 'h' !in "response" && 'J' !in "response";
    NullReadMessagePlain("response");
    assert CaughtNotice(e) == ErrorPrefix + e.message;
  }

  /**
   * The message for reading a property of `null` mentions neither `fetch`
   * nor `JSON` when the property's name does not.
   */
  lemma NullReadMessagePlain(key: string)
    requires 'h' !in key && 'J' !in key
    ensures !Text.Contains(Js.NullReadMessage(key), "fetch")
    ensures !Text.Contains(Js.NullReadMessage(key), "JSON")
  {
    Js.NullReadLetters(key);
    PlainMessage(Js.NullReadMessage(key));
  }

  /**
   * A failing status whose body is `{"error": msg}` with a non-empty `msg`
   * (a 500 with `{"error":"overloaded"}`, say) shows exactly "Lỗi: " + msg.
   */
  lemma ErrorFieldShown(status: int, statusText: string, contentType: Option<string>, body: string, msg: string)
    requires !IsOk(status) && msg != []
    ensures Classify(Resolved(Response(status, statusText, contentType, body, Some(Single("error", JStr(msg)))))).verdict
      == Notice(ErrorPrefix + msg)
  {
    var data := Single("error", JStr(msg));
    assert Js.GetProperty(data, "error") == Js.Got(Some(JStr(msg)));
  }
}
