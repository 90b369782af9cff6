/**
 * The `ChatBot` object of script.js as a state machine: the flag that hides
 * the welcome panel on the first message, the history that export reads,
 * the compose box and send button (enabled together by `setInputState`), the
 * status line, the bubbles of the chat box, and the requests sent to `/chat`.
 *
 * `sendMessage` suspends at `await fetch(...)`, so it is split at that point:
 * BeginSend is everything before the suspension, FinishSend everything after
 * it, and `pending` holds the loading placeholder's id in between. Other
 * handlers (clear, export, attach) may run while an exchange is pending; the
 * send button and the Enter key may not, because the first is disabled and
 * the second checks it.
 */
module Session {
  import opened Wrappers
  import opened Json
  import opened History
  import Js = JsRuntime
  import Text
  import Exchange
  import Formatter
  import Export

  /** What the chat box shows, in order. */
  datatype Node =
    | Welcome                                          // the empty-state panel
    | Message(sender: Role, text: string, isError: bool) // a bubble from `addMessage`
    | Loading(id: string)                              // the placeholder from `addLoadingMessage`

  /** A file chosen in the attachment dialog: its name and `(size / 1024).toFixed(1)`. */
  datatype FileInfo = FileInfo(name: string, sizeLabel: string)

  const SendIcon := "<i class=\"fas fa-paper-plane\"></i>"
  const BusyIcon := "<i class=\"fas fa-spinner fa-spin\"></i>"
  const StatusBusy := "Đang xử lý..."
  const VoiceNotice := "🎤 Đã ghi âm (chức năng speech-to-text đang phát triển)"

  /** `"loading-" + Date.now()` */
  function LoadingId(now: int): string
  {
    "loading-" + Text.IntToString(now)
  }

  /** The text of a file-attachment bubble. */
  function FileNotice(file: FileInfo): string
  {
    "📎 " + file.name + " (" + file.sizeLabel + " KB)"
  }

  /** What `addMessage` is given for a verdict: the answer's text, or the notice. */
  function BubbleText(v: Exchange.Verdict): string
  {
    match v
    case Answer(content) => Js.ToString(content)
    case Notice(text) => text
  }

  /** The markup of a bubble: `addMessage` escapes its text, then formats it. */
  function Markup(n: Node): string
    requires n.Message?
  {
    Formatter.MessageHtml(n.text)
  }

  /** Whatever a bubble's text, its markup holds no tag but the formatter's own. */
  lemma MarkupTagsOnly(n: Node)
    requires n.Message?
    ensures Formatter.TagsOnly(Markup(n))
  {
    Formatter.MessageHtmlTagsOnly(n.text);
  }

  /** No two loading placeholders are shown at once. */
  predicate AtMostOneLoading(nodes: seq<Node>)
  {
    forall i, j | 0 <= i < j < |nodes| :: !(nodes[i].Loading? && nodes[j].Loading?)
  }

  /** No loading placeholder is shown. */
  predicate NoLoading(nodes: seq<Node>)
  {
    forall i | 0 <= i < |nodes| :: !nodes[i].Loading?
  }

  /**
   * `removeLoadingMessage(id)`: `getElementById` finds the first element
   * with that id, if any, and it is removed; everything else stays in order.
   */
  function RemoveLoading(nodes: seq<Node>, id: string): (r: seq<Node>)
    ensures Loading(id) !in nodes ==> r == nodes
    ensures Loading(id) in nodes ==> |r| == |nodes| - 1
    ensures forall n | n in r :: n in nodes
  {
    if nodes == [] then []
    else if nodes[0] == Loading(id) then nodes[1..]
    else [nodes[0]] + RemoveLoading(nodes[1..], id)
  }

  /**
   * What removal takes away is the first `Loading(id)` of the box: the nodes
   * before it, which hold no such placeholder, and those after it stay, in
   * order.
   */
  lemma {:induction false} RemoveLoadingFirst(nodes: seq<Node>, id: string) returns (i: nat)
    requires Loading(id) in nodes
    ensures i < |nodes| && nodes[i] == Loading(id) && Loading(id) !in nodes[..i]
    ensures RemoveLoading(nodes, id) == nodes[..i] + nodes[i + 1..]
  {
    if nodes[0] == Loading(id) {
      i := 0;
    } else {
      var rest := nodes[1..];
      assert Loading(id) in rest;
      var j := RemoveLoadingFirst(rest, id);
      i := j + 1;
      assert nodes[..i] == [nodes[0]] + rest[..j];
      assert nodes[i + 1..] == rest[j + 1..];
    }
  }

  /** Removing the only placeholder leaves none. */
  lemma {:induction false} RemoveOnlyLoading(nodes: seq<Node>, id: string)
    requires AtMostOneLoading(nodes)
    requires forall i | 0 <= i < |nodes| && nodes[i].Loading? :: nodes[i].id == id
    ensures NoLoading(RemoveLoading(nodes, id))
  {
    if nodes != [] {
      var rest := nodes[1..];
      assert AtMostOneLoading(rest) by {
        forall i, j | 0 <= i < j < |rest| ensures !(rest[i].Loading? && rest[j].Loading?) {
          assert rest[i] == nodes[i + 1] && rest[j] == nodes[j + 1];
        }
      }
      if nodes[0] == Loading(id) {
        forall i | 0 <= i < |rest| ensures !rest[i].Loading? {
          assert rest[i] == nodes[i + 1];
        }
      } else {
        RemoveOnlyLoading(rest, id);
        var r := RemoveLoading(rest, id);
        assert RemoveLoading(nodes, id) == [nodes[0]] + r;
        forall i | 0 <= i < |[nodes[0]] + r| ensures !([nodes[0]] + r)[i].Loading? {
          if i > 0 {
            assert ([nodes[0]] + r)[i] == r[i - 1];
          }
        }
      }
    }
  }

  /**
   * `removeLoadingMessage` is idempotent while at most one placeholder is
   * shown: the second call, on the `catch` path after the first one on the
   * response path, or after `clearChat` wiped the box, changes nothing.
   */
  lemma {:induction false} RemoveLoadingIdempotent(nodes: seq<Node>, id: string)
    requires AtMostOneLoading(nodes)
    ensures RemoveLoading(RemoveLoading(nodes, id), id) == RemoveLoading(nodes, id)
  {
    if nodes != [] {
      var rest := nodes[1..];
      assert AtMostOneLoading(rest) by {
        forall i, j | 0 <= i < j < |rest| ensures !(rest[i].Loading? && rest[j].Loading?) {
          assert rest[i] == nodes[i + 1] && rest[j] == nodes[j + 1];
        }
      }
      if nodes[0] == Loading(id) {
        forall i | 0 <= i < |rest| ensures rest[i] != Loading(id) {
          assert rest[i] == nodes[i + 1];
        }
      } else {
        RemoveLoadingIdempotent(rest, id);
        var r := RemoveLoading(rest, id);
        assert ([nodes[0]] + r)[0] == nodes[0] && ([nodes[0]] + r)[1..] == r;
      }
    }
  }

  /** Removing a placeholder that was appended after the last bubble takes exactly it. */
  lemma {:induction false} RemoveAppendedLoading(nodes: seq<Node>, m: Node, id: string)
    requires NoLoading(nodes) && !m.Loading?
    ensures RemoveLoading(nodes + [m, Loading(id)], id) == nodes + [m]
  {
    var all := nodes + [m, Loading(id)];
    if nodes == [] {
      assert all == [m, Loading(id)];
      assert all[1..] == [Loading(id)];
    } else {
      var rest := nodes[1..];
      assert all[0] == nodes[0] && all[1..] == rest + [m, Loading(id)];
      assert !nodes[0].Loading?;
      assert RemoveLoading(all, id) == [nodes[0]] + RemoveLoading(all[1..], id);
      assert NoLoading(rest) by {
        forall i | 0 <= i < |rest| ensures !rest[i].Loading? {
          assert rest[i] == nodes[i + 1];
        }
      }
      RemoveAppendedLoading(rest, m, id);
      assert [nodes[0]] + (rest + [m]) == nodes + [m] by {
        assert nodes == [nodes[0]] + rest;
      }
    }
  }

  /** Appending a bubble and one placeholder to a box without placeholders shows just that one. */
  lemma AppendLoading(nodes: seq<Node>, m: Node, id: string)
    requires NoLoading(nodes) && !m.Loading?
    ensures AtMostOneLoading(nodes + [m, Loading(id)])
    ensures forall i | 0 <= i < |nodes + [m, Loading(id)]| && (nodes + [m, Loading(id)])[i].Loading? ::
      (nodes + [m, Loading(id)])[i].id == id
  {
    var all := nodes + [m, Loading(id)];
    assert forall i | 0 <= i < |all| - 1 :: !all[i].Loading? by {
      forall i | 0 <= i < |all| - 1 ensures !all[i].Loading? {
        if i < |nodes| {
          assert all[i] == nodes[i];
        }
      }
    }
  }

  /** A box without placeholders keeps none after a bubble is appended. */
  lemma AppendMessage(nodes: seq<Node>, m: Node)
    requires !m.Loading?
    ensures NoLoading(nodes) ==> NoLoading(nodes + [m])
    ensures AtMostOneLoading(nodes) ==> AtMostOneLoading(nodes + [m])
  {
    var all := nodes + [m];
    assert forall i | 0 <= i < |nodes| :: all[i] == nodes[i];
  }

  class ChatSession {
    var isFirstMessage: bool
    var history: seq<Entry>
    var inputEnabled: bool     // `!sendBtn.disabled`, and `!messageInput.disabled` with it
    var sendIcon: string       // `sendBtn.innerHTML`
    var status: string
    var draft: string          // `messageInput.value`
    var chatbox: seq<Node>
    var requests: seq<string>  // the `message` of each `POST /chat`, in order
    var pending: Option<string> // the loading id of the exchange awaiting its response

    /**
     * The input is disabled exactly while an exchange is pending, the button
     * shows the spinner exactly then, the only placeholder that can be
     * shown is that exchange's, and every recorded content can be turned into
     * text, so the export's template literal never throws.
     */
    predicate Valid()
      reads this
    {
      && (pending.None? <==> inputEnabled)
      && (forall e | e in history :: Js.Printable(e.content))
      && sendIcon == (if inputEnabled then SendIcon else BusyIcon)
      && AtMostOneLoading(chatbox)
      && forall i | 0 <= i < |chatbox| && chatbox[i].Loading? :: pending == Some(chatbox[i].id)
    }

    /** A fresh page: the welcome panel, nothing sent, input enabled. */
    constructor(initialStatus: string)
      ensures Valid()
      ensures isFirstMessage && history == [] && inputEnabled && status == initialStatus
      ensures draft == [] && chatbox == [Welcome] && requests == [] && pending.None?
    {
      isFirstMessage := true;
      history := [];
      inputEnabled := true;
      sendIcon := SendIcon;
      status := initialStatus;
      draft := [];
      chatbox := [Welcome];
      requests := [];
      pending := None;
    }

    /**
     * The compose box's `input` event: the draft is what the user typed. A
     * disabled box receives no such event.
     */
    method Type(text: string)
      requires inputEnabled
      modifies this
      ensures draft == text
      ensures isFirstMessage == old(isFirstMessage) && history == old(history) && inputEnabled == old(inputEnabled)
      ensures sendIcon == old(sendIcon) && status == old(status) && chatbox == old(chatbox)
      ensures requests == old(requests) && pending == old(pending)
    {
      draft := text;
    }

    /** `setInputState(enabled)`: button and compose box together, and the button's icon. */
    method SetInputState(enabled: bool)
      modifies this
      ensures inputEnabled == enabled && sendIcon == (if enabled then SendIcon else BusyIcon)
      ensures isFirstMessage == old(isFirstMessage) && history == old(history) && status == old(status)
      ensures draft == old(draft) && chatbox == old(chatbox) && requests == old(requests) && pending == old(pending)
    {
      inputEnabled := enabled;
      sendIcon := if enabled then SendIcon else BusyIcon;
    }

    /** `updateStatus(message)`: the status line is overwritten. */
    method UpdateStatus(message: string)
      modifies this
      ensures status == message
      ensures isFirstMessage == old(isFirstMessage) && history == old(history) && inputEnabled == old(inputEnabled)
      ensures sendIcon == old(sendIcon) && draft == old(draft) && chatbox == old(chatbox)
      ensures requests == old(requests) && pending == old(pending)
    {
      status := message;
    }

    /** `addMessage(text, sender, isError)`: one bubble, escaped then formatted. */
    method AddMessage(text: string, sender: Role, isError: bool)
      modifies this
      ensures chatbox == old(chatbox) + [Message(sender, text, isError)]
      ensures isFirstMessage == old(isFirstMessage) && history == old(history) && inputEnabled == old(inputEnabled)
      ensures sendIcon == old(sendIcon) && status == old(status) && draft == old(draft)
      ensures requests == old(requests) && pending == old(pending)
    {
      chatbox := chatbox + [Message(sender, text, isError)];
    }

    /** `addLoadingMessage()` at clock time `now`. */
    method AddLoadingMessage(now: int) returns (id: string)
      modifies this
      ensures id == LoadingId(now)
      ensures chatbox == old(chatbox) + [Loading(id)]
      ensures isFirstMessage == old(isFirstMessage) && history == old(history) && inputEnabled == old(inputEnabled)
      ensures sendIcon == old(sendIcon) && status == old(status) && draft == old(draft)
      ensures requests == old(requests) && pending == old(pending)
    {
      id := LoadingId(now);
      chatbox := chatbox + [Loading(id)];
    }

    /** `removeLoadingMessage(id)` */
    method RemoveLoadingMessage(id: string)
      modifies this
      ensures chatbox == RemoveLoading(old(chatbox), id)
      ensures isFirstMessage == old(isFirstMessage) && history == old(history) && inputEnabled == old(inputEnabled)
      ensures sendIcon == old(sendIcon) && status == old(status) && draft == old(draft)
      ensures requests == old(requests) && pending == old(pending)
    {
      chatbox := RemoveLoading(chatbox, id);
    }

    /**
     * `sendMessage` up to `await fetch(...)`: a draft that trims to nothing
     * changes nothing; otherwise the welcome panel goes on the first message,
     * the input is locked and the status says so, the trimmed text is shown
     * and recorded, the draft is cleared, the placeholder is shown, and only
     * then is the request sent.
     */
    method BeginSend(stamp: string, now: int) returns (started: bool)
      requires Valid() && inputEnabled
      modifies this
      ensures Valid()
      ensures started <==> Js.Trim(old(draft)) != []
      ensures !started ==>
        && isFirstMessage == old(isFirstMessage) && history == old(history) && inputEnabled == old(inputEnabled)
        && sendIcon == old(sendIcon) && status == old(status) && draft == old(draft) && chatbox == old(chatbox)
        && requests == old(requests) && pending == old(pending)
      ensures started ==>
        && !isFirstMessage && !inputEnabled && status == StatusBusy && draft == []
        && history == old(history) + [Entry(User, JStr(Js.Trim(old(draft))), stamp)]
        && chatbox == (if old(isFirstMessage) then [] else old(chatbox))
                      + [Message(User, Js.Trim(old(draft)), false), Loading(LoadingId(now))]
        && requests == old(requests) + [Js.Trim(old(draft))]
        && pending == Some(LoadingId(now))
    {
      var message := Js.Trim(draft);
      if message == [] {
        return false;
      }
      StartExchange(message, stamp, now);
      started := true;
    }

    /** The body of `sendMessage` from the welcome panel's removal to the request. */
    method StartExchange(message: string, stamp: string, now: int)
      requires Valid() && inputEnabled
      modifies this
      ensures Valid()
      ensures !isFirstMessage && !inputEnabled && status == StatusBusy && draft == []
      ensures history == old(history) + [Entry(User, JStr(message), stamp)]
      ensures chatbox == (if old(isFirstMessage) then [] else old(chatbox))
                         + [Message(User, message, false), Loading(LoadingId(now))]
      ensures requests == old(requests) + [message]
      ensures pending == Some(LoadingId(now))
    {
      assert NoLoading(chatbox);
      if isFirstMessage {
        chatbox := [];
        isFirstMessage := false;
      }
      ghost var base := chatbox;
      SetInputState(false);
      UpdateStatus(StatusBusy);
      AddMessage(message, User, false);
      history := history + [Entry(User, JStr(message), stamp)];
      draft := [];
      var id := AddLoadingMessage(now);
      requests := requests + [message];
      pending := Some(id);
      AppendLoading(base, Message(User, message, false), id);
      assert chatbox == base + [Message(User, message, false), Loading(id)];
    }

    /**
     * `sendMessage` after `await fetch(...)` settles with `outcome`: the
     * placeholder goes (on the response path, and again in the `catch`),
     * exactly one bot bubble and one status line report the classification,
     * the answer alone joins the history, and the `finally` unlocks the input.
     */
    method FinishSend(outcome: Exchange.FetchResult, stamp: string) returns (c: Exchange.Classification)
      requires Valid() && pending.Some?
      modifies this
      ensures Valid() && inputEnabled && pending.None?
      ensures c == Exchange.Classify(outcome)
      ensures history == old(history) + (if c.verdict.Answer? then [Entry(Bot, c.verdict.content, stamp)] else [])
      ensures chatbox == RemoveLoading(old(chatbox), old(pending).value)
                         + [Message(Bot, BubbleText(c.verdict), c.verdict.Notice?)]
      ensures status == c.status
      ensures isFirstMessage == old(isFirstMessage) && draft == old(draft) && requests == old(requests)
    {
      var id := pending.value;
      RemoveOnlyLoading(chatbox, id);
      RemoveLoadingIdempotent(chatbox, id);
      c := Exchange.Classify(outcome);
      if outcome.Resolved? {
        RemoveLoadingMessage(id);
      }
      if c.branch == Exchange.Caught {
        RemoveLoadingMessage(id);
      }
      assert chatbox == RemoveLoading(old(chatbox), id) && NoLoading(chatbox);
      Report(c, stamp);
    }

    /**
     * The end of `sendMessage` once the placeholder is gone: the bot bubble,
     * the answer into the history, the status line, and the `finally` that
     * unlocks the input.
     */
    method Report(c: Exchange.Classification, stamp: string)
      requires NoLoading(chatbox)
      requires forall e | e in history :: Js.Printable(e.content)
      requires c.verdict.Answer? ==> Js.Printable(c.verdict.content)
      modifies this
      ensures Valid() && inputEnabled && pending.None?
      ensures history == old(history) + (if c.verdict.Answer? then [Entry(Bot, c.verdict.content, stamp)] else [])
      ensures chatbox == old(chatbox) + [Message(Bot, BubbleText(c.verdict), c.verdict.Notice?)]
      ensures status == c.status
      ensures isFirstMessage == old(isFirstMessage) && draft == old(draft) && requests == old(requests)
    {
      ghost var shown := chatbox;
      match c.verdict {
        case Answer(content) =>
          AddMessage(Js.ToString(content), Bot, false);
          history := history + [Entry(Bot, content, stamp)];
        case Notice(text) =>
          AddMessage(text, Bot, true);
      }
      AppendMessage(shown, Message(Bot, BubbleText(c.verdict), c.verdict.Notice?));
      UpdateStatus(c.status);
      SetInputState(true);
      pending := None;
    }

    /**
     * The whole of `sendMessage` when nothing else runs while it is
     * suspended: every non-empty send records the user's text, adds at most
     * the answer, ends with one bot bubble and the input unlocked.
     */
    method SendMessage(stamp: string, now: int, outcome: Exchange.FetchResult, replyStamp: string)
      returns (c: Option<Exchange.Classification>)
      requires Valid() && inputEnabled
      modifies this
      ensures Valid() && inputEnabled
      ensures c.None? <==> Js.Trim(old(draft)) == []
      ensures c.None? ==>
        && isFirstMessage == old(isFirstMessage) && history == old(history) && status == old(status)
        && draft == old(draft) && chatbox == old(chatbox) && requests == old(requests)
      ensures c.Some? ==>
        && c.value == Exchange.Classify(outcome)
        && !isFirstMessage && draft == [] && status == c.value.status
        && requests == old(requests) + [Js.Trim(old(draft))]
        && history == old(history) + [Entry(User, JStr(Js.Trim(old(draft))), stamp)]
                      + (if c.value.verdict.Answer? then [Entry(Bot, c.value.verdict.content, replyStamp)] else [])
        && chatbox == (if old(isFirstMessage) then [] else old(chatbox))
                      + [Message(User, Js.Trim(old(draft)), false),
                         Message(Bot, BubbleText(c.value.verdict), c.value.verdict.Notice?)]
    {
      ghost var message := Js.Trim(draft);
      ghost var shown := if isFirstMessage then [] else chatbox;
      ghost var recorded := history + [Entry(User, JStr(message), stamp)];
      var started := BeginSend(stamp, now);
      if !started {
        return None;
      }
      ghost var user := Message(User, message, false);
      assert NoLoading(shown);
      RemoveAppendedLoading(shown, user, LoadingId(now));
      assert RemoveLoading(chatbox, pending.value) == shown + [user];
      var r := FinishSend(outcome, replyStamp);
      ghost var bot := Message(Bot, BubbleText(r.verdict), r.verdict.Notice?);
      assert chatbox == shown + [user] + [bot];
      assert shown + [user] + [bot] == shown + [user, bot];
      assert history == recorded + (if r.verdict.Answer? then [Entry(Bot, r.verdict.content, replyStamp)] else []);
      c := Some(r);
    }

    /** The send button's `onclick`; a disabled button does not fire it. */
    method ClickSend(stamp: string, now: int) returns (started: bool)
      requires Valid()
      modifies this
      ensures Valid()
      ensures started <==> old(inputEnabled) && Js.Trim(old(draft)) != []
      ensures !started ==>
        && isFirstMessage == old(isFirstMessage) && history == old(history) && inputEnabled == old(inputEnabled)
        && sendIcon == old(sendIcon) && status == old(status) && draft == old(draft) && chatbox == old(chatbox)
        && requests == old(requests) && pending == old(pending)
      ensures started ==>
        && !isFirstMessage && !inputEnabled && status == StatusBusy && draft == []
        && history == old(history) + [Entry(User, JStr(Js.Trim(old(draft))), stamp)]
        && chatbox == (if old(isFirstMessage) then [] else old(chatbox))
                      + [Message(User, Js.Trim(old(draft)), false), Loading(LoadingId(now))]
        && requests == old(requests) + [Js.Trim(old(draft))]
        && pending == Some(LoadingId(now))
    {
      started := false;
      if inputEnabled {
        started := BeginSend(stamp, now);
      }
    }

    /** The compose box's `keypress` handler: Enter without Shift sends, unless the button is disabled. */
    method KeyPress(key: string, shiftKey: bool, stamp: string, now: int) returns (started: bool)
      requires Valid()
      modifies this
      ensures Valid()
      ensures started <==> key == "Enter" && !shiftKey && old(inputEnabled) && Js.Trim(old(draft)) != []
      ensures !started ==>
        && isFirstMessage == old(isFirstMessage) && history == old(history) && inputEnabled == old(inputEnabled)
        && sendIcon == old(sendIcon) && status == old(status) && draft == old(draft) && chatbox == old(chatbox)
        && requests == old(requests) && pending == old(pending)
      ensures started ==>
        && !isFirstMessage && !inputEnabled && status == StatusBusy && draft == []
        && history == old(history) + [Entry(User, JStr(Js.Trim(old(draft))), stamp)]
        && chatbox == (if old(isFirstMessage) then [] else old(chatbox))
                      + [Message(User, Js.Trim(old(draft)), false), Loading(LoadingId(now))]
        && requests == old(requests) + [Js.Trim(old(draft))]
        && pending == Some(LoadingId(now))
    {
      started := false;
      if key == "Enter" && !shiftKey && inputEnabled {
        started := BeginSend(stamp, now);
      }
    }

    /**
     * `clearChat()`, `confirmed` being the answer to its `confirm` dialog:
     * the welcome panel comes back, the history empties and the next message
     * will be a first one; an exchange in flight is not cancelled.
     */
    method ClearChat(confirmed: bool)
      requires Valid()
      modifies this
      ensures Valid()
      ensures confirmed ==> chatbox == [Welcome] && isFirstMessage && history == [] && status == Exchange.StatusReady
      ensures !confirmed ==>
        && chatbox == old(chatbox) && isFirstMessage == old(isFirstMessage) && history == old(history)
        && status == old(status)
      ensures inputEnabled == old(inputEnabled) && sendIcon == old(sendIcon) && draft == old(draft)
      ensures requests == old(requests) && pending == old(pending)
    {
      if confirmed {
        chatbox := [Welcome];
        isFirstMessage := true;
        history := [];
        UpdateStatus(Exchange.StatusReady);
      }
    }

    /** `exportChat()`: the document it would download, `None` where it alerts instead. */
    method ExportChat() returns (doc: Option<string>)
      ensures doc == Export.Document(history)
      ensures doc.None? <==> history == []
    {
      doc := Export.Document(history);
    }

    /** `handleFileUpload`: a bubble naming the file; nothing is sent or recorded. */
    method AttachFile(file: Option<FileInfo>)
      requires Valid()
      modifies this
      ensures Valid()
      ensures file.None? ==> chatbox == old(chatbox)
      ensures file.Some? ==> chatbox == old(chatbox) + [Message(User, FileNotice(file.value), false)]
      ensures isFirstMessage == old(isFirstMessage) && history == old(history) && inputEnabled == old(inputEnabled)
      ensures status == old(status) && draft == old(draft) && requests == old(requests) && pending == old(pending)
    {
      if file.Some? {
        AddMessage(FileNotice(file.value), User, false);
      }
    }

    /** The recorder's `onstop`: an acknowledgement bubble; nothing is sent or recorded. */
    method VoiceRecorded()
      requires Valid()
      modifies this
      ensures Valid()
      ensures chatbox == old(chatbox) + [Message(User, VoiceNotice, false)]
      ensures isFirstMessage == old(isFirstMessage) && history == old(history) && inputEnabled == old(inputEnabled)
      ensures status == old(status) && draft == old(draft) && requests == old(requests) && pending == old(pending)
    {
      AddMessage(VoiceNotice, User, false);
    }
  }
}
