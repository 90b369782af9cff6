/**
 * The text `exportChat` in script.js writes to the downloaded file: one block
 * `[time] sender: content` per history entry, in history order, separated by
 * blank lines; an empty history gives no document (only an alert).
 */
module Export {
  import opened Wrappers
  import opened Json
  import opened History
  import Js = JsRuntime
  import Text

  const UserLabel := "Bạn"
  const BotLabel := "Gemini"
  const Separator := "\n\n"

  /** The sender shown for a role. */
  function Label(role: Role): string
  {
    if role == User then UserLabel else BotLabel
  }

  /** `[${time}] ${sender}: ${msg.content}` */
  function Block(e: Entry): string
  {
    "[" + e.stamp + "] " + Label(e.role) + ": " + Js.ToString(e.content)
  }

  /** `chatHistory.map(...)`: one block per entry, in order. */
  function Blocks(history: seq<Entry>): (blocks: seq<string>)
    ensures |blocks| == |history|
    ensures forall i | 0 <= i < |history| :: blocks[i] == Block(history[i])
  {
    if history == [] then [] else [Block(history[0])] + Blocks(history[1..])
  }

  /** The exported text, or `None` when there is nothing to export. */
  function Document(history: seq<Entry>): (doc: Option<string>)
    ensures doc.None? <==> history == []
  {
    if history == [] then None else Some(Text.Join(Blocks(history), Separator))
  }

  /** The label names the user exactly for user entries. */
  lemma LabelIsUser(role: Role)
    ensures Label(role) == UserLabel <==> role == User
    ensures Label(role) == BotLabel <==> role == Bot
  {
    assert UserLabel[0] != BotLabel[0];
  }

  /** A history of one entry exports as that entry's block. */
  lemma DocumentSingle(e: Entry)
    ensures Document([e]) == Some(Block(e))
  {
  }

  /** Exporting after one more entry adds a blank line and that entry's block at the end. */
  lemma DocumentAppend(history: seq<Entry>, e: Entry)
    requires history != []
    ensures Document(history + [e]) == Some(Document(history).value + Separator + Block(e))
  {
    assert Blocks(history + [e]) == Blocks(history) + [Block(e)];
    Text.JoinAppend(Blocks(history), Block(e), Separator);
  }

  /** Reads a block back into its time, role and content text. */
  function ParseBlock(b: string): Option<(string, Role, string)>
  {
    match SplitStamp(b)
    case None => None
    case Some((stamp, tail)) => ParseSender(stamp, tail)
  }

  /** Splits `[time] rest` into the time and the rest. */
  function SplitStamp(b: string): Option<(string, string)>
  {
    if b == [] || b[0] != '[' then None
    else
      var rest := b[1..];
      match Text.FirstIndex(rest, ']')
      case None => None
      case Some(i) =>
        var after := rest[i + 1..];
        if after == [] || after[0] != ' ' then None else Some((rest[..i], after[1..]))
  }

  /** Reads `sender: content` back, given the time already read. */
  function ParseSender(stamp: string, tail: string): Option<(string, Role, string)>
  {
    match Text.FirstIndex(tail, ':')
    case None => None
    case Some(j) =>
      var sender := tail[..j];
      var body := tail[j + 1..];
      if body == [] || body[0] != ' ' then None
      else if sender == UserLabel then Some((stamp, User, body[1..]))
      else if sender == BotLabel then Some((stamp, Bot, body[1..]))
      else None
  }

  /** The time of a block ends at its first `]`. */
  lemma ParseStamp(stamp: string, tail: string)
    requires ']' !in stamp
    ensures SplitStamp("[" + stamp + "] " + tail) == Some((stamp, tail))
  {
    var b := "[" + stamp + "] " + tail;
    var close := "] " + tail;
    var rest := b[1..];
    assert b[0] == '[';
    assert rest == stamp + close;
    Text.FirstIndexAfter(stamp, close, ']');
    assert rest[..|stamp|] == stamp;
    var after := rest[|stamp| + 1..];
    assert after == close[1..] == " " + tail;
    assert after[0] == ' ' && after[1..] == tail;
  }

  /** The sender of a block ends at its first `:`. */
  lemma ParseLabel(stamp: string, role: Role, content: string)
    ensures ParseSender(stamp, Label(role) + ": " + content) == Some((stamp, role, content))
  {
    var sender := Label(role);
    var tail := sender + (": " + content);
    assert tail == Label(role) + ": " + content;
    assert ':' !in sender;
    Text.FirstIndexAfter(sender, ": " + content, ':');
    assert tail[..|sender|] == sender;
    assert tail[|sender| + 1..] == " " + content;
    assert (" " + content)[1..] == content;
    LabelIsUser(role);
  }

  /**
   * Each block reproduces its entry: the time, the role (through its label)
   * and the content text are read back unchanged, provided the time text has
   * no `]` (the locale time format never writes one).
   */
  lemma ParseBlockRoundTrip(e: Entry)
    requires ']' !in e.stamp
    ensures ParseBlock(Block(e)) == Some((e.stamp, e.role, Js.ToString(e.content)))
  {
    var tail := Label(e.role) + ": " + Js.ToString(e.content);
    assert Block(e) == "[" + e.stamp + "] " + tail;
    ParseStamp(e.stamp, tail);
    ParseLabel(e.stamp, e.role, Js.ToString(e.content));
  }
}
