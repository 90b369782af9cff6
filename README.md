# Gemini chat: a verified model of the exchange on both sides of `/chat`

This project models a small web chat in which a browser page (`script.js`,
class `ChatBot`) sends the user's message to a Flask server (`app.py`). The
server forwards the message to Google's Gemini `generateContent` API and
returns either `{"response": …}` or `{"error": …}`. The model covers the
following, and each part is proved against a specification of what it
promises.

**Browser side:**
- The session state machine of `sendMessage`: trim and reject, first-message
  switch, lock, record, request, classify, unlock.
- Its first-match-wins classification of the fetch outcome.
- Escaping and lightweight formatting of a bubble's text.
- The `exportChat` text, the `autoResize` clamp, `clearChat`, and the loading
  placeholder.

**Server side:** the `chat()` decision tree, that is:
- request validation;
- the outbound payload;
- the walk to `candidates[0].content.parts[0].text`;
- the mapping of upstream statuses and transport exceptions to a status code
  and an error text.

Modules, one file each:

| module | file | models |
|---|---|---|
| `Wrappers` | wrappers.dfy | `Option` |
| `Text` | text.dfy | helpers: substring search, trimming by a white-space predicate, decimal notation, join |
| `Json` | json.dfy | JSON values as both runtimes hold them (duplicate keys: last one wins) |
| `JsRuntime` | js_runtime.dfy | JavaScript truthiness, `String()`, `.trim()`, property reads that throw on `null` |
| `PyRuntime` | py_runtime.dfy | Python truthiness, `str`/`repr`, `.strip()`, `x[k]`, `k in x`, `len`, `.get`; a raised exception is a value that `:-` propagates |
| `Formatter` | formatter.dfy | `escapeHtml`, `formatMessage` |
| `Exchange` | exchange.dfy | the `try`/`catch` classification inside `sendMessage` |
| `History` | history.dfy | `chatHistory` entries |
| `Export` | export.dfy | the text of `exportChat` |
| `Resize` | resize.dfy | `autoResize` |
| `Session` | session.dfy | class `ChatSession`: the mutable fields of `ChatBot` and its handlers |
| `Server` | server.dfy | `chat()` in app.py |
| `Wire` | wire.dfy | the two sides put together |

Inputs the browser and the server receive from outside are parameters:
- the outcome of `fetch` (`Exchange.FetchResult`);
- the outcome of `requests.post` (a function `post` from payload to `Server.Upstream`);
- the clock (`now`, and time stamps as opaque strings);
- the answer to `confirm`;
- the chosen file.

A few places where the code does not do what a looser description of the
system says. The model follows the code:
- For a non-ok response whose body does not parse, the notice is
  `Lỗi: Server returned <status>: <statusText>`.
  - When the body parses without a truthy `error`, it is
    `Lỗi: HTTP Error: <status>`, with no status text.
- The bot's role in the history is `bot`. The export labels are `Bạn` and
  `Gemini`.
- `sendMessage` itself has no busy check. The gate is the disabled send
  button and the Enter-key handler (`ClickSend`, `KeyPress`).
- Clearing the chat while an exchange is pending does not cancel it. The
  pending exchange still ends by adding its bubble, and its answer if any, to
  the cleared chat (`ClearChat` leaves `pending` alone, and `FinishSend`
  needs only `pending.Some?`).
- A parsed `null` body on the ok path makes `data.response` throw a
  TypeError, which lands in the outer `catch` (`Exchange.NullReply`).
- The value the browser shows is turned into text by a template literal or by
  `textContent`. A parsed object with its own `toString` member (or an array
  holding one) cannot be converted: `String()` throws "Cannot convert object
  to primitive value", and the exchange ends in the outer `catch` with no
  answer and no history entry (`JsRuntime.Printable`,
  `Exchange.UnprintableReply`). This holds for a truthy `data.response`, a
  truthy `data.error` and the body's `error` of a non-ok reply. The server
  forwards the API's text value without checking its type, so this reaches
  the answer path too (`Wire.SuccessAnswered`).
- The `SAFETY`/`RECITATION` branch of `chat()` can never be taken. It first
  re-tests the very condition whose failure led to it, so a missing candidate
  always gives "Unexpected response format"
  (`Server.BlockedReasonsUnreachable`).
- The browser's `.trim()` and Python's `.strip()` disagree on characters such
  as U+001C to U+001F. A draft made of one of them is posted and comes back as
  "No message provided" (`Wire.PythonOnlySpace`).

## Model

| member | source | states |
|---|---|---|
| `Text.Strip` | script.js:78 | the trimmed text has no white space at either end; it is empty iff the input is all white space; text already trimmed is unchanged |
| `Text.StripFrame` | script.js:78 | the trimmed text is a contiguous slice of the input, with only white space before and after it |
| `Text.NatToStringRoundTrip` | app.py:125 | reading the decimal digits of a number back gives the number |
| `JsRuntime.GetProperty` | script.js:173-181 | for the two names the client reads (`response`, `error`, which no value inherits): reading a property of `null` throws the TypeError "Cannot read properties of null"; an object gives the value bound to the key or `undefined`; any other value gives `undefined` |
| `JsRuntime.OwnToStringUnprintable` | script.js:242-246 | `String()` cannot convert an object with its own `toString` member, nor an array holding one, so putting it in `textContent` throws |
| `PyRuntime.Item` | app.py:73-77 | `d[k]` succeeds on a dict iff the key is present and gives its last binding; `l[i]` succeeds iff `i` is in range; any non-container raises TypeError |
| `PyRuntime.In` | app.py:73-75 | `k in x` raises iff `x` is neither dict, list nor str; on a dict it tests the keys |
| `PyRuntime.LenPositive` | app.py:73-76 | `len(x) > 0` raises iff `x` has no length; on a list it tests non-emptiness |
| `PyRuntime.Get` | app.py:37 | `.get(k, d)` raises iff the value is not a dict; otherwise gives the bound value, or `d` when the key is missing |
| `PyRuntime.StripValue` | app.py:37 | `.strip()` raises iff the value is not a string, otherwise strips it |
| `Formatter.EscapeHtml` | script.js:242-246 | no `<` or `>` survives escaping |
| `Formatter.EscapeHtmlKeeps` | script.js:242-246 | every character that is neither escaped (`&`, U+00A0, `<`, `>`) nor used to spell an entity occurs in the escaped text iff it occurs in the input |
| `Formatter.UnescapeEscapeChar` | script.js:242-246 | reading back the serialisation of one character gives that character |
| `Formatter.UnescapeEscapeHtml` | script.js:242-246 | reading the entities back gives exactly the original text: escaping loses nothing |
| `Formatter.EscapeHtmlAppend` | script.js:242-246 | escaping works character by character: it distributes over concatenation |
| `Formatter.FindClose` | script.js:251-253 | the offset the lazy `(.*?)` match stops at is where a closing delimiter lies wholly inside the text |
| `Formatter.FindCloseFirst` | script.js:251-253 | that closing delimiter is the first one: none starts earlier, and no line terminator comes before it |
| `Formatter.FindCloseMissing` | script.js:251-253 | when there is no match, every later occurrence of the delimiter comes after a line terminator |
| `Formatter.FindCloseAt` | script.js:251-253 | the lazy match stops at a delimiter when no line terminator and no earlier delimiter comes before it |
| `Formatter.SpanTagged` | script.js:251-253 | a one-line span in which no delimiter starts is re-tagged whole: `d` + x + `d` becomes open tag + x + close tag, the content kept |
| `Formatter.ReplaceAllChars` | script.js:254-255 | a one-character pattern that the replacement does not contain is gone from the result; every character of the result comes from the input or the replacement |
| `Formatter.FormatMessage` | script.js:248-257 | no `\n` survives formatting |
| `Formatter.ReplaceCharAppend` | script.js:255 | replacing one character distributes over concatenation |
| `Formatter.ReplaceAllAbsent` | script.js:254-255 | a literal replacement whose pattern does not occur leaves the text unchanged |
| `Formatter.BreaksMatchReference` | script.js:254-255 | the two break replacements equal a one-pass reference where each `\n\n` becomes `</p><p>` before single `\n` becomes `<br>` |
| `Formatter.ReplaceSpansAbsent` | script.js:251-253 | a span replacement whose delimiter does not occur leaves the text unchanged |
| `Formatter.PlainTextIsWrapped` | script.js:248-257 | text with no `*`, no backquote and no line terminator comes back as `<p>` + text + `</p>` |
| `Formatter.EscapeHtmlPlain` | script.js:242-246 | escaping adds no `*`, backquote or line terminator |
| `Formatter.PlainMessageHtml` | script.js:226-231 | a plain message's bubble is `<p>` + its escaped text + `</p>` |
| `Formatter.FormatBold` | script.js:248-257 | formatting plain text followed by one `**` span gives one paragraph in which only that span is bold |
| `Formatter.BoldMessageHtml` | script.js:226-257 | a bubble of plain text and a `**` span shows both escaped and only the span bold: markup typed as text, such as `<b>`, is shown and not applied |
| `Formatter.ReplaceSpansTagsOnly` | script.js:251-253 | span re-tagging with the formatter's tags lets no stray `<` through |
| `Formatter.ReplaceAllTagsOnly` | script.js:254-255 | literal replacement by the formatter's tags lets no stray `<` through |
| `Formatter.MessageHtmlTagsOnly` | script.js:226-231 | since escaping comes before markup, every `<` in a bubble opens one of the formatter's own tags, whatever the text |
| `Exchange.ClassifyResponse` | script.js:122-187 | the checks on a resolved response, first match wins: each branch holds iff its condition holds and the earlier ones failed; each branch's notice (`Lỗi: ` + the non-ok `errorMessage`, the format notice, the unreadable-reply notice, `Lỗi: ` + `data.error`, the invalid-reply notice); it throws iff the body parsed to `null` (the TypeError of reading `response`) or the value about to be shown (`errorMessage`, `data.response`, `data.error`) is one `String()` cannot convert (the conversion TypeError); an answer is always convertible |
| `Exchange.Classify` | script.js:104-203 | exactly one branch per exchange, each iff its condition in priority order (non-ok, content type, unreadable body, truthy `response`, truthy `error`, otherwise invalid; a rejection, a parsed `null` or a value `String()` cannot convert is caught); the status line is the branch's; only the answered branch gives an answer, which is the truthy and convertible `data.response` |
| `Exchange.ClassifyNotices` | script.js:122-203 | the bubble of every branch: the truthy `data.response`, the notice of each failed check, `Lỗi: ` + `data.error`, or the `catch` notice of the rejection, of the TypeError thrown by a parsed `null`, or of the conversion TypeError |
| `Exchange.NotOkNotice` | script.js:123-134 | `errorMessage` is the body's truthy `error` as it is, else `HTTP Error: <status>`, else (body unparseable or `null`) `Server returned <status>: <statusText>`; the notice is `Lỗi: ` + its text, and when `String()` cannot convert it the exchange ends in the `catch` with `Lỗi: Cannot convert object to primitive value` |
| `Exchange.ConvertNotice` | script.js:193-199 | the conversion TypeError's message mentions neither `fetch` nor `JSON`, so the `catch` shows `Lỗi: ` + that message |
| `Exchange.UnprintableReply` | script.js:134-203 | a value to be shown that `String()` cannot convert ends the exchange in the `catch` with `Lỗi: Cannot convert object to primitive value` and the connection status |
| `Exchange.CaughtNoticeCases` | script.js:188-203 | the `catch` notice: a TypeError mentioning `fetch` asks to check the server; otherwise a message mentioning `JSON` is a data error; otherwise `Lỗi: ` + message |
| `Exchange.ConnectionRefused` | script.js:193-195 | `TypeError: Failed to fetch` gives the cannot-connect notice and the connection status |
| `Exchange.NullReply` | script.js:173 | a delivered `null` body ends in the `catch`, with the TypeError's own message |
| `Exchange.NullReadMessagePlain` | script.js:193-199 | the TypeError's message for a property whose name has no `h` and no `J` (such as `response`) mentions neither `fetch` nor `JSON` |
| `Exchange.ErrorFieldShown` | script.js:123-134 | a failing status whose body is `{"error": msg}` with a non-empty `msg` (a 500 with `{"error":"overloaded"}`, say) shows exactly `Lỗi: ` + msg |
| `Export.Blocks` | script.js:328-333 | one block per history entry, in history order |
| `Export.Document` | script.js:322-334 | there is no document iff the history is empty |
| `Export.LabelIsUser` | script.js:331 | the sender is `Bạn` iff the role is user, `Gemini` iff it is bot |
| `Export.DocumentSingle` | script.js:328-334 | a one-entry history exports as that entry's block |
| `Export.DocumentAppend` | script.js:328-334 | one more entry appends a blank line and its block |
| `Export.ParseStamp` | script.js:332 | a block splits at its first `]` back into its time and the rest, when the time has no `]` |
| `Export.ParseLabel` | script.js:331-332 | a block's sender ends at its first `:` |
| `Export.ParseBlockRoundTrip` | script.js:332 | a block reads back into its entry's time, role and content text |
| `Resize.NewHeightClamps` | script.js:61-67 | the height stays within [24, 120]: the content height when it fits, the nearer bound otherwise |
| `Resize.NewHeightMonotone` | script.js:66 | taller content never gives a shorter box |
| `Resize.NewHeightIdempotent` | script.js:66 | resizing to the chosen height changes nothing |
| `Resize.ScrollsIffClipped` | script.js:70-74 | the scroll bar shows iff the box cuts content off |
| `Session.MarkupTagsOnly` | script.js:225-237 | no bubble's markup holds a tag other than the formatter's |
| `Session.RemoveLoading` | script.js:282-287 | removing a missing placeholder changes nothing; removing a present one shortens the chat box by one and adds nothing |
| `Session.RemoveLoadingFirst` | script.js:282-287 | what removal takes away is the first placeholder with that id; the nodes before and after it stay, in order |
| `Session.RemoveOnlyLoading` | script.js:282-287 | removing the only placeholder leaves none |
| `Session.RemoveLoadingIdempotent` | script.js:282-287 | removing the placeholder a second time (the `catch` after the response path) changes nothing |
| `Session.RemoveAppendedLoading` | script.js:102-120 | the placeholder appended after the user's bubble is exactly what removal takes away |
| `Session.AppendLoading` | script.js:259-280 | appending a bubble and a placeholder to a chat box without one shows exactly that placeholder |
| `Session.AppendMessage` | script.js:211-240 | appending a bubble keeps the chat box's placeholder invariant |
| `Session.ChatSession.constructor` | script.js:2-19 | a fresh page: welcome panel, empty history, first message pending, input enabled |
| `Session.ChatSession.Type` | script.js:42-44 | typing into the enabled compose box sets the draft and changes nothing else |
| `Session.ChatSession.SetInputState` | script.js:289-295 | the input and the button's icon follow `enabled`; nothing else changes |
| `Session.ChatSession.UpdateStatus` | script.js:297-301 | the status line is overwritten; nothing else changes |
| `Session.ChatSession.AddMessage` | script.js:211-240 | exactly one bubble is appended; history untouched |
| `Session.ChatSession.AddLoadingMessage` | script.js:259-280 | one placeholder named after the clock is appended |
| `Session.ChatSession.RemoveLoadingMessage` | script.js:282-287 | the chat box loses that placeholder if shown; nothing else changes |
| `Session.ChatSession.BeginSend` | script.js:77-114 | a draft that trims to nothing changes nothing; otherwise the welcome panel goes on the first message, the input locks, the trimmed text is shown, recorded once as a user entry and posted, the draft clears, one placeholder shows; the session invariant is kept |
| `Session.ChatSession.StartExchange` | script.js:81-114 | for a non-blank message: the welcome panel goes on the first message, the input locks with the busy status, the message is shown, recorded and posted, the draft clears, and exactly one placeholder (this exchange's) shows |
| `Session.ChatSession.FinishSend` | script.js:116-208 | the classification is that of the outcome; the placeholder is gone; exactly one bot bubble and one status report it; only an answer (a value `String()` can convert, by `Exchange.Classify`) joins the history; the input is unlocked on every path |
| `Session.ChatSession.Report` | script.js:134-206 | on a box without placeholders, for an answer that `addMessage` could turn into text: exactly one bot bubble for the verdict, only an answer joins the history, the status line is the classification's, and the input is unlocked with nothing pending |
| `Session.ChatSession.SendMessage` | script.js:77-209 | a whole send: no-op on a blank draft; otherwise exactly one user entry, at most one bot entry (only for a truthy `response` that `String()` can convert), two bubbles, the branch's status, the input unlocked |
| `Session.ChatSession.ClickSend` | script.js:23 | a click starts a send iff the button is enabled and the draft is not blank; a send that starts leaves the whole state `sendMessage` leaves before `await fetch` (welcome panel gone on the first message, input locked, busy status, user bubble and entry, placeholder, request, cleared draft); otherwise nothing changes |
| `Session.ChatSession.KeyPress` | script.js:35-40 | a key starts a send iff it is Enter without Shift, the button is enabled and the draft is not blank, with the same whole started state; anything else, a blank draft included, changes nothing |
| `Session.ChatSession.ClearChat` | script.js:307-320 | confirmed: welcome panel, empty history, next message is a first one, ready status; otherwise nothing changes; an exchange in flight and the input state are untouched |
| `Session.ChatSession.ExportChat` | script.js:322-345 | the downloaded text is the history's document, absent iff the history is empty; `Valid()` keeps every recorded content convertible to text, so its template literal does not throw |
| `Session.ChatSession.AttachFile` | script.js:347-357 | a chosen file adds one user bubble naming it and never touches the history or the requests |
| `Session.ChatSession.VoiceRecorded` | script.js:382-389 | a recording adds one acknowledgement bubble and never touches the history or the requests |
| `Server.Truncate` | app.py:126 | `s[:n]` is a prefix of at most `n` characters, the whole string when it is short enough |
| `Server.Validate` | app.py:29-39 | a request is accepted iff it is JSON, decodes to a non-empty dict whose `message` is a string that is not blank once stripped; the text accepted is `message` stripped; every rejection is a 400 or 500 with an error text |
| `Server.PayloadCarriesText` | app.py:41-46 | the payload's `contents[0].parts[0].text` is exactly the text it was built from |
| `Server.UndecodableReply` | app.py:99-104 | the reply to an undecodable 200 body is a 500 whose `error` is "Invalid JSON response from API" (`Server.OkReply` states that such a body gets it) |
| `Server.Blocked` | app.py:86-97 | the `finishReason` branch answers only errors, 400 or 500 |
| `Server.ReadCandidate` | app.py:73-97 | the candidate walk gives either a success or an error reply, and only 200 or 500 |
| `Server.ReadContent` | app.py:75-85 | from the first candidate, the walk gives a success or an error, only 200 or 500, and a failure is one of the walk's own errors |
| `Server.ReadParts` | app.py:76-83 | from `parts`, the walk gives a success or an error, only 200 or 500, and a failure is one of the walk's own errors |
| `Server.Respond` | app.py:65-136 | whatever the upstream outcome, the reply is a success or carries a non-empty `error`, with a status among 200, 400, 403, 429, 500, 503, 504 |
| `Server.RaisedReply` | app.py:129-136 | a timeout gives 504 "Request timeout. Please try again", a connection error 503 "Connection error. Please check your internet", another request error 503 "Network error", anything else 500 "Server error" |
| `Server.OkReply` | app.py:68-104 | an upstream 200 gives 200, 400 or 500 with success or error; an undecodable body gives 500 "Invalid JSON response from API"; an exception in the walk gives 500 "Server error" |
| `Server.StatusReply` | app.py:106-127 | a non-200 upstream status always gives an error: 400 "API Error: " + the API's message, or "Bad request to API" when that cannot be read; 403 "API key invalid or quota exceeded"; 429 "Rate limit exceeded. Please try again later"; any other status 500 "API returned status <n>" |
| `Server.Chat` | app.py:27-136 | every reply is a 200 whose only member is a truthy `response`, or a non-200 with a non-empty `error` |
| `Server.PartsWalk` | app.py:76-79 | the walk from `parts` answers 200 iff its first element has a truthy `text`, and then carries that text |
| `Server.ContentWalk` | app.py:75-79 | the walk from a candidate answers 200 iff `content.parts[0].text` exists and is truthy, and then carries that text |
| `Server.CandidateWalk` | app.py:73-85 | the walk answers 200 iff `candidates[0].content.parts[0].text` exists along objects and arrays and is truthy, and then carries that text |
| `Server.SuccessOnlyFromText` | app.py:68-136 | the reply is 200 iff the upstream answered 200 with a decodable body holding the reply text, and it carries that text |
| `Server.BlockedFallsThrough` | app.py:86-97 | when the candidates are missing, the `finishReason` check, which tests for them again, always falls through to "Unexpected response format" |
| `Server.WalkErrors` | app.py:73-97 | a walk that does not answer reports one of its four errors |
| `Server.WalkFailures` | app.py:73-97 | missing or empty candidates, a candidate without `content`, an empty `parts`, a part without truthy `text` each give their own 500 |
| `Server.BlockedReasonsUnreachable` | app.py:86-92 | no upstream outcome is ever reported as blocked for safety or recitation |
| `Server.UpstreamStatus` | app.py:68-127 | 400, 403 and 429 are passed on, with their texts for 403, 429 and an undecodable 400; an undecodable 200 becomes 500 "Invalid JSON response from API"; any other non-200 status becomes 500 "API returned status <n>"; a 200 never becomes a client error |
| `Server.ApiErrorShown` | app.py:106-110 | a 400's own `error.message` is shown after "API Error: ", and "Bad request" when it has none |
| `Server.TransportStatus` | app.py:129-136 | timeout 504, connection error 503, other request error 503, anything else 500, each with its error text |
| `Server.BlankMessageNotPosted` | app.py:37-39 | a missing or blank `message` gets 400 "No message provided" whatever the API would answer |
| `Server.ForwardsStrippedMessage` | app.py:37-46 | a non-blank `message` is posted once, and the payload's text is exactly the stripped message |
| `Server.RequestErrors` | app.py:29-37 | non-JSON 400, undecodable body 500, falsy body 400, a non-dict body 500, in that order, none depending on the API |
| `Wire.JsonifyType` | script.js:140-141 | the content type `jsonify` sets passes the browser's JSON check |
| `Wire.JsonAnswered` | script.js:173-180 | a 200 JSON body whose one member is a truthy `response` is answered with it when `String()` can convert it, and otherwise ends in the `catch` with the conversion notice |
| `Wire.SuccessAnswered` | script.js:173-180 | a success reply of the server is shown as the bot's answer with the ready status, unless its text value is one `String()` cannot convert, which ends in the `catch` |
| `Wire.OwnToStringAnswer` | script.js:173-203 | a 200 JSON reply `{"response": {"toString": v}}` is not answered: it ends in the `catch` with `Lỗi: Cannot convert object to primitive value` and the connection status |
| `Wire.ErrorNoticed` | script.js:123-135 | an error reply of the server is shown as `Lỗi: ` + its `error` with the failure status |
| `Wire.ReplyClassified` | script.js:122-187 | every reply of the server is understood by the browser: an answer for a success whose value `String()` can convert (otherwise the conversion notice), the server's error text for a failure |
| `Wire.AnswerIffGeminiText` | script.js:107-180 | sending a draft yields an answer iff the API answered 200 with reply text for the trimmed and stripped draft and `String()` can convert that text, and the answer is that text |
| `Wire.PythonOnlySpace` | script.js:78-79 | a draft of one character that only Python counts as white space is posted and comes back as "No message provided" |
| `Wire.SeparatorsDiffer` | script.js:78 | U+001C to U+001F are such characters |

## Left out

- DOM work is not modelled: element creation, `innerHTML` templates, avatars, message times, scrolling and focus. Bubbles are `Session.Node` values, and their markup is `Formatter.MessageHtml` of their text.
- `fetch`, `response.json()`/`response.text()`, `JSON.parse` and `requests.post` are inputs. Their outcomes are the parameters `Exchange.FetchResult`, `Server.Upstream` and `Server.Decoded`. A failure to read the body is folded into "unparseable" where `response.json()` or `response.text()` sits inside an inner `try` (the non-ok and JSON branches). In the content-type branch `response.text()` has no inner `try`, so there a read failure would reach the outer `catch` and show the `catch` notice with the status "Lỗi kết nối"; the model does not give that branch a read failure and always shows the format notice.
- Flask routing, static file routes, the 404/500 error handlers, the API-key check at import and `app.run` are not modelled: they are I/O and configuration.
- Media recording, `getUserMedia`, browser-support detection and voice toggling are foreign media APIs. Only the bubble added when a recording stops is modelled (`VoiceRecorded`).
- Blob, object-URL and download plumbing are not modelled, and neither is the export file's name. Time stamps (`toLocaleString`/`toLocaleTimeString`) are opaque strings.
- Floating point is not modelled:
  - JSON numbers are integers, and `JsRuntime.ToString` writes every integer in decimal, whereas JavaScript writes a number of magnitude 10^21 or more in exponent form;
  - `temperature` and `topP` are left out of `Server.Payload`;
  - the size label `(file.size / 1024).toFixed(1)` is an opaque string in `Session.FileInfo`.
- `console.log`/`print` logging is not modelled.
- `PyRuntime.Repr` always quotes strings with `'`, and it does not escape. It is used only for the text after "API Error: " when the API's message is not a string.
- Exception messages are CPython 3.12's wording, and V8's wording for reading a property of `null` and for an object `String()` cannot convert. Other versions may word them differently.
- `Server.Decoded` carries the decoder's message as an opaque string.
- Async interleaving is not modelled beyond what the lock flag allows. `SendMessage` is `BeginSend` then `FinishSend`, and other handlers may run between the two.
- `Session.ChatSession.BeginSend`: requires the input to be enabled, because its only callers (`ClickSend`, `KeyPress`) check this first. `sendMessage` has no such check of its own.
- `Session.ChatSession.Type`: requires the input to be enabled, because `setInputState(false)` disables the compose box and a disabled box receives no `input` events.
- `Server.OkReply`: `except json.JSONDecodeError` at app.py:99 catches the decode error of `response.json()` only when `requests` decodes with the standard `json` module. When `simplejson` is installed, `requests` raises its own decode error built on simplejson's class instead. That error is a `RequestException`, so it reaches app.py:133 and the reply is 503 "Network error", not 500 "Invalid JSON response from API". The model follows the standard-library setup.
- `Exchange.Classify`: inside the `try` after `fetch`, the exceptions modelled are the TypeError of `data.response` on a parsed `null` and the TypeError of `String()` on a value it cannot convert. Reading `.response` or `.error` of any other value cannot throw, and the body-read failure of the content-type branch (above) is not modelled.
