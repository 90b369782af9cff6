/**
 * The two halves of one exchange put together: the request `sendMessage`
 * posts to `/chat`, the reply `chat()` sends back, and what the browser makes
 * of that reply.
 */
module Wire {
  import opened Wrappers
  import opened Json
  import Js = JsRuntime
  import Py = PyRuntime
  import Text
  import Server
  import opened Exchange

  /** `fetch("/chat", ...)` with `JSON.stringify({ message })` as a JSON body. */
  function ClientRequest(message: string): Server.HttpRequest
  {
    Server.HttpRequest(true, Server.Parsed(Single("message", JStr(message))))
  }

  /**
   * The reply as the browser receives it: Flask's `jsonify` labels it
   * `application/json`; its serialized text is a parameter.
   */
  function Delivery(r: Server.Reply, statusText: string, body: string): Response
  {
    Response(r.status, statusText, Some("application/json"), body, Some(r.body))
  }

  /** The content type `jsonify` sets is recognised as JSON. */
  lemma JsonifyType()
    ensures IsJsonType(Some("application/json"))
  {
    assert Text.OccursAt("application/json", "application/json", 0);
    Text.ContainsIffOccurs("application/json", "application/json");
  }

  /**
   * A success reply shows its `response` value as the bot's answer, unless
   * `String()` cannot convert that value: then `addMessage` throws and the
   * exchange ends in the `catch`.
   */
  lemma SuccessAnswered(r: Server.Reply, statusText: string, body: string)
    requires Server.IsSuccess(r) && Js.Trim(body) != []
    ensures Js.Printable(r.body.fields[0].value) ==>
      Classify(Resolved(Delivery(r, statusText, body))) == Classification(Answered, Answer(r.body.fields[0].value), StatusReady)
    ensures !Js.Printable(r.body.fields[0].value) ==>
      Classify(Resolved(Delivery(r, statusText, body))) == Classification(Caught, Notice(ErrorPrefix + Js.ConvertMessage), StatusConnection)
  {
    JsonifyType();
    JsonAnswered(r.body, statusText, Some("application/json"), body);
  }

  /**
   * A 200 JSON body whose only member is a truthy `response` is answered
   * with it when `String()` can convert it (`addMessage` puts it in
   * `textContent`); otherwise that TypeError reaches the `catch`.
   */
  lemma JsonAnswered(data: Json, statusText: string, contentType: Option<string>, body: string)
    requires IsJsonType(contentType) && Js.Trim(body) != []
    requires data.JObj? && |data.fields| == 1 && data.fields[0].key == "response" && Py.Truthy(data.fields[0].value)
    ensures Js.Printable(data.fields[0].value) ==>
      Classify(Resolved(Response(200, statusText, contentType, body, Some(data))))
        == Classification(Answered, Answer(data.fields[0].value), StatusReady)
    ensures !Js.Printable(data.fields[0].value) ==>
      Classify(Resolved(Response(200, statusText, contentType, body, Some(data))))
        == Classification(Caught, Notice(ErrorPrefix + Js.ConvertMessage), StatusConnection)
  {
    var d := Response(200, statusText, contentType, body, Some(data));
    assert Delivered(d);
    assert Js.GetProperty(data, "response") == Js.Got(Some(data.fields[0].value));
    if !Js.Printable(data.fields[0].value) {
      UnprintableReply(d);
    }
  }

  /**
   * A 200 JSON reply `{"response": {"toString": v}}` is not answered: the
   * conversion in `addMessage` throws and the `catch` shows its message.
   */
  lemma OwnToStringAnswer(v: Json, statusText: string, contentType: Option<string>, body: string)
    requires IsJsonType(contentType) && Js.Trim(body) != []
    ensures Classify(Resolved(Response(200, statusText, contentType, body, Some(Single("response", Single("toString", v))))))
      == Classification(Caught, Notice(ErrorPrefix + Js.ConvertMessage), StatusConnection)
  {
    var data := Single("response", Single("toString", v));
    Js.OwnToStringUnprintable(v);
    assert data.fields[0].value == Single("toString", v);
    JsonAnswered(data, statusText, contentType, body);
  }

  /** A failure reply shows "Lỗi: " and its `error` text. */
  lemma ErrorNoticed(r: Server.Reply, statusText: string, body: string)
    requires Server.IsError(r) && r.status in {400, 403, 429, 500, 503, 504}
    ensures Classify(Resolved(Delivery(r, statusText, body)))
      == Classification(NotOk, Notice(ErrorPrefix + Lookup(r.body.fields, "error").value.s), StatusFailed)
  {
    var d := Delivery(r, statusText, body);
    var e := Lookup(r.body.fields, "error").value;
    assert Js.GetProperty(r.body, "error") == Js.Got(Some(e));
    assert NotOkDetail(d) == e;
    assert ClassifyResponse(d) == Done(Classification(NotOk, Notice(ErrorPrefix + e.s), StatusFailed));
  }

  /**
   * Every reply of the server is understood by the browser: a success shows
   * the `response` value (or, when `String()` cannot convert it, the
   * `catch` notice of that TypeError), a failure shows "Lỗi: " followed by
   * the `error` text, and the status line says which.
   */
  lemma ReplyClassified(r: Server.Reply, statusText: string, body: string)
    requires Server.IsSuccess(r) || Server.IsError(r)
    requires r.status in {200, 400, 403, 429, 500, 503, 504}
    requires Js.Trim(body) != []
    ensures Server.IsSuccess(r) && Js.Printable(r.body.fields[0].value) ==>
      Classify(Resolved(Delivery(r, statusText, body))) == Classification(Answered, Answer(r.body.fields[0].value), StatusReady)
    ensures Server.IsSuccess(r) && !Js.Printable(r.body.fields[0].value) ==>
      Classify(Resolved(Delivery(r, statusText, body))) == Classification(Caught, Notice(ErrorPrefix + Js.ConvertMessage), StatusConnection)
    ensures Server.IsError(r) ==>
      Classify(Resolved(Delivery(r, statusText, body)))
        == Classification(NotOk, Notice(ErrorPrefix + Lookup(r.body.fields, "error").value.s), StatusFailed)
  {
    if Server.IsSuccess(r) {
      SuccessAnswered(r, statusText, body);
    } else {
      ErrorNoticed(r, statusText, body);
    }
  }

  /**
   * Sending a draft ends in a reply bubble exactly when the API's 200 body
   * holds reply text for the trimmed and stripped draft and `String()` can
   * convert it; the bubble holds that text. The server forwards the text
   * value unchecked, so a value `String()` cannot convert ends in the
   * `catch`.
   */
  lemma AnswerIffGeminiText(draft: string, post: Json -> Server.Upstream, statusText: string, body: string)
    requires Js.Trim(body) != []
    ensures var c := Classify(Resolved(Delivery(Server.Chat(ClientRequest(Js.Trim(draft)), post), statusText, body)));
      var sent := Py.Strip(Js.Trim(draft));
      && (c.verdict.Answer? <==>
           && sent != []
           && post(Server.Payload(sent)).Responded? && post(Server.Payload(sent)).status == 200
           && post(Server.Payload(sent)).json.Parsed?
           && Server.GeminiText(post(Server.Payload(sent)).json.value).Some?
           && Js.Printable(Server.GeminiText(post(Server.Payload(sent)).json.value).value))
      && (c.verdict.Answer? ==> c.verdict.content == Server.GeminiText(post(Server.Payload(sent)).json.value).value)
  {
    var req := ClientRequest(Js.Trim(draft));
    var sent := Py.Strip(Js.Trim(draft));
    var r := Server.Chat(req, post);
    assert Lookup(req.body.value.fields, "message") == Some(JStr(Js.Trim(draft)));
    if sent == [] {
      Server.BlankMessageNotPosted(req.body.value.fields, post);
    } else {
      Server.ForwardsStrippedMessage(req.body.value.fields, Js.Trim(draft), post);
      Server.SuccessOnlyFromText(post(Server.Payload(sent)));
    }
    ReplyClassified(r, statusText, body);
  }

  /**
   * The browser trims with JavaScript's white-space set and the server
   * strips with Python's. A draft made of one character that only Python
   * counts as white space passes the browser's emptiness check, is posted,
   * and comes back as the server's "No message provided".
   */
  lemma PythonOnlySpace(c: char, post: Json -> Server.Upstream, statusText: string, body: string)
    requires !Js.IsWhitespace(c) && Py.IsWhitespace(c)
    ensures Js.Trim([c]) == [c]
    ensures Server.Chat(ClientRequest([c]), post) == Server.Reply(400, Server.ErrorBody(Server.NoMessage))
    ensures Classify(Resolved(Delivery(Server.Chat(ClientRequest([c]), post), statusText, body))).verdict
      == Notice(ErrorPrefix + Server.NoMessage)
  {
    Server.BlankMessageNotPosted(ClientRequest([c]).body.value.fields, post);
    ErrorNoticed(Server.Chat(ClientRequest([c]), post), statusText, body);
  }

  /** The information separators U+001C to U+001F are such characters. */
  lemma SeparatorsDiffer(c: char)
    requires '\U{001C}' <= c <= '\U{001F}'
    ensures !Js.IsWhitespace(c) && Py.IsWhitespace(c)
  {
  }
}
