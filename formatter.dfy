/**
 * How a chat bubble's text becomes markup (`escapeHtml` and `formatMessage`
 * in script.js). Escaping is the text-node case of HTML fragment
 * serialisation: `&`, U+00A0, `<` and `>` become `&amp;`, `&nbsp;`, `&lt;`,
 * `&gt;`. The lightweight markup is then introduced by five global
 * regular-expression replacements and one anchored one, each modelled as a
 * left-to-right scan.
 */
module Formatter {
  import opened Wrappers
  import Js = JsRuntime

  const Nbsp: char := '\U{00A0}'

  // ---------------------------------------------------------------- escaping

  /** The serialisation of one character of a text node. */
  function EscapeChar(c: char): string
  {
    if c == '&' then "&amp;"
    else if c == Nbsp then "&nbsp;"
    else if c == '<' then "&lt;"
    else if c == '>' then "&gt;"
    else [c]
  }

  /** Characters that escaping itself writes. */
  const EntityChars: set<char> := {'&', 'a', 'm', 'p', ';', 'n', 'b', 's', 'l', 'g', 't'}

  /** `div.textContent = s; div.innerHTML`: no angle bracket survives. */
  function EscapeHtml(s: string): (r: string)
    ensures forall k | 0 <= k < |r| :: r[k] != '<' && r[k] != '>'
  {
    if s == [] then [] else EscapeChar(s[0]) + EscapeHtml(s[1..])
  }

  /**
   * A character that is neither escaped nor used to spell an entity occurs
   * after escaping iff it occurred before.
   */
  lemma {:induction false} EscapeHtmlKeeps(s: string, c: char)
    requires c !in EntityChars && c != Nbsp && c != '<' && c != '>'
    ensures c in EscapeHtml(s) <==> c in s
  {
    if s != [] {
      EscapeHtmlKeeps(s[1..], c);
      var e := EscapeChar(s[0]);
      assert EscapeHtml(s) == e + EscapeHtml(s[1..]);
      if s[0] == '&' || s[0] == Nbsp || s[0] == '<' || s[0] == '>' {
        assert forall i | 0 <= i < |e| :: e[i] in EntityChars;
      } else {
        assert e == [s[0]];
      }
      assert c in e <==> c == s[0];
      assert s == [s[0]] + s[1..];
    }
  }

  /** Reading entities back: the inverse of EscapeHtml. */
  function Unescape(s: string): string
    decreases |s|
  {
    if s == [] then []
    else if "&amp;" <= s then "&" + Unescape(s[5..])
    else if "&nbsp;" <= s then [Nbsp] + Unescape(s[6..])
    else if "&lt;" <= s then "<" + Unescape(s[4..])
    else if "&gt;" <= s then ">" + Unescape(s[4..])
    else [s[0]] + Unescape(s[1..])
  }

  /** Reading back the serialisation of one character gives that character. */
  lemma UnescapeEscapeChar(c: char, t: string)
    ensures Unescape(EscapeChar(c) + t) == [c] + Unescape(t)
  {
    var x := EscapeChar(c) + t;
    if c == '&' {
      assert x == "&amp;" + t;
      assert "&amp;" <= x && x[5..] == t;
    } else if c == Nbsp {
      assert x == "&nbsp;" + t && x[1] == 'n';
      assert !("&amp;" <= x) && "&nbsp;" <= x && x[6..] == t;
    } else if c == '<' {
      assert x == "&lt;" + t && x[1] == 'l';
      assert !("&amp;" <= x) && !("&nbsp;" <= x) && "&lt;" <= x && x[4..] == t;
    } else if c == '>' {
      assert x == "&gt;" + t && x[1] == 'g';
      assert !("&amp;" <= x) && !("&nbsp;" <= x) && !("&lt;" <= x) && "&gt;" <= x && x[4..] == t;
    } else {
      assert x == [c] + t;
      assert x[0] == c && x[0] != '&' && x[1..] == t;
    }
  }

  /** Escaping loses nothing: the browser shows exactly the original text. */
  lemma {:induction false} UnescapeEscapeHtml(s: string)
    ensures Unescape(EscapeHtml(s)) == s
  {
    if s != [] {
      UnescapeEscapeHtml(s[1..]);
      assert EscapeHtml(s) == EscapeChar(s[0]) + EscapeHtml(s[1..]);
      UnescapeEscapeChar(s[0], EscapeHtml(s[1..]));
      assert [s[0]] + s[1..] == s;
    }
  }

  /** Escaping works character by character. */
  lemma {:induction false} EscapeHtmlAppend(a: string, b: string)
    ensures EscapeHtml(a + b) == EscapeHtml(a) + EscapeHtml(b)
  {
    if a != [] {
      assert (a + b)[0] == a[0] && (a + b)[1..] == a[1..] + b;
      EscapeHtmlAppend(a[1..], b);
      calc {
        EscapeHtml(a + b);
        EscapeChar(a[0]) + EscapeHtml(a[1..] + b);
        EscapeChar(a[0]) + (EscapeHtml(a[1..]) + EscapeHtml(b));
        (EscapeChar(a[0]) + EscapeHtml(a[1..])) + EscapeHtml(b);
        EscapeHtml(a) + EscapeHtml(b);
      }
    } else {
      assert a + b == b;
    }
  }

  // ------------------------------------------------------- regex replacements

  /**
   * Where the non-greedy `(.*?)` followed by delimiter `d` stops when matched
   * against `s`: the least offset at which `d` starts, provided every
   * character before it is one that `.` accepts (not a line terminator).
   */
  function FindClose(s: string, d: string): (r: Option<nat>)
    requires d != []
    ensures r.Some? ==> r.value + |d| <= |s| && s[r.value..r.value + |d|] == d
    decreases |s|
  {
    if d <= s then Some(0)
    else if s != [] && !Js.IsLineTerminator(s[0]) then
      match FindClose(s[1..], d)
      case None => None
      case Some(k) =>
        assert s[k + 1..k + 1 + |d|] == s[1..][k..k + |d|];
        Some(k + 1)
    else None
  }

  /**
   * The match is the first closing delimiter: none starts earlier, and no
   * line terminator comes before it.
   */
  lemma {:induction false} FindCloseFirst(s: string, d: string)
    requires d != []
    ensures FindClose(s, d).Some? ==>
      forall k | 0 <= k < FindClose(s, d).value :: !Js.IsLineTerminator(s[k]) && !(d <= s[k..])
    decreases |s|
  {
    if !(d <= s) && s != [] && !Js.IsLineTerminator(s[0]) && FindClose(s[1..], d).Some? {
      var t := s[1..];
      FindCloseFirst(t, d);
      forall k | 1 <= k < FindClose(s, d).value
        ensures !Js.IsLineTerminator(s[k]) && !(d <= s[k..])
      {
        assert s[k..] == t[k - 1..];
        assert s[k] == t[k - 1];
      }
    }
  }

  /**
   * No match means no closing delimiter on the first line: every occurrence
   * of `d` comes after a line terminator.
   */
  lemma {:induction false} FindCloseMissing(s: string, d: string)
    requires d != []
    ensures FindClose(s, d).None? ==>
      forall j | 0 <= j <= |s| && d <= s[j..] :: exists k | 0 <= k < j :: Js.IsLineTerminator(s[k])
    decreases |s|
  {
    if FindClose(s, d).None? && s != [] && !Js.IsLineTerminator(s[0]) {
      var t := s[1..];
      FindCloseMissing(t, d);
      forall j | 0 <= j <= |s| && d <= s[j..]
        ensures exists k | 0 <= k < j :: Js.IsLineTerminator(s[k])
      {
        assert j != 0;
        assert s[j..] == t[j - 1..];
        var k :| 0 <= k < j - 1 && Js.IsLineTerminator(t[k]);
        assert s[k + 1] == t[k];
      }
    } else if FindClose(s, d).None? && s != [] {
      forall j | 0 <= j <= |s| && d <= s[j..]
        ensures exists k | 0 <= k < j :: Js.IsLineTerminator(s[k])
      {
        assert j != 0;
      }
    }
  }

  /**
   * `s.replace(/D(.*?)D/g, open + "$1" + close)` for the delimiter `d`:
   * scanning left to right, a delimiter that has a closing one on the same
   * line starts a span that is re-tagged; anything else is copied.
   */
  function ReplaceSpans(s: string, d: string, open: string, close: string): (r: string)
    requires d != []
    decreases |s|
  {
    if s == [] then []
    else if d <= s && FindClose(s[|d|..], d).Some? then
      var k := FindClose(s[|d|..], d).value;
      open + s[|d|..|d| + k] + close + ReplaceSpans(s[|d| + k + |d|..], d, open, close)
    else [s[0]] + ReplaceSpans(s[1..], d, open, close)
  }

  /**
   * `s.replace(/P/g, rep)` for a literal pattern: leftmost, non-overlapping
   * occurrences are replaced. A single-character pattern that `rep` does
   * not contain is gone from the result.
   */
  function ReplaceAll(s: string, pat: string, rep: string): string
    requires pat != []
    decreases |s|
  {
    if |s| < |pat| then s
    else if pat <= s then rep + ReplaceAll(s[|pat|..], pat, rep)
    else [s[0]] + ReplaceAll(s[1..], pat, rep)
  }

  /**
   * Every character of a replacement's result comes from the input or the
   * replacement text; so a single-character pattern that the replacement
   * does not contain is gone from the result.
   */
  lemma {:induction false} ReplaceAllChars(s: string, pat: string, rep: string)
    requires pat != []
    ensures forall c | c in ReplaceAll(s, pat, rep) :: c in s || c in rep
    ensures |pat| == 1 && pat[0] !in rep ==> pat[0] !in ReplaceAll(s, pat, rep)
    decreases |s|
  {
    if |s| >= |pat| {
      var tail := if pat <= s then s[|pat|..] else s[1..];
      ReplaceAllChars(tail, pat, rep);
      forall c | c in tail
        ensures c in s
      {
        var k :| 0 <= k < |tail| && tail[k] == c;
        assert s[|s| - |tail| + k] == c;
      }
      if pat <= s {
        assert |pat| == 1 ==> s[0] == pat[0];
      }
    }
  }

  /** Whether any line terminator occurs in `s`. */
  predicate HasLineTerminator(s: string)
  {
    exists k | 0 <= k < |s| :: Js.IsLineTerminator(s[k])
  }

  /**
   * `s.replace(/^(.*)$/, "<p>$1</p>")`: without the multiline flag the
   * pattern matches only when the whole text is one line.
   */
  function WrapParagraph(s: string): string
  {
    if HasLineTerminator(s) then s else "<p>" + s + "</p>"
  }

  /** `formatMessage(text)`: the six replacements, in their order. */
  function FormatMessage(text: string): (r: string)
    ensures '\n' !in r
  {
    var bold := ReplaceSpans(text, "**", "<strong>", "</strong>");
    var italic := ReplaceSpans(bold, "*", "<em>", "</em>");
    var code := ReplaceSpans(italic, "`", "<code>", "</code>");
    var paragraphs := ReplaceAll(code, "\n\n", "</p><p>");
    var breaks := ReplaceAll(paragraphs, "\n", "<br>");
    ReplaceAllChars(paragraphs, "\n", "<br>");
    WrapParagraph(breaks)
  }

  /** What `addMessage` puts inside a bubble for `text`: escaped first, then formatted. */
  function MessageHtml(text: string): string
  {
    FormatMessage(EscapeHtml(text))
  }

  // ------------------------------------------------------------ line breaks

  /**
   * Reference reading of paragraph and line breaks: a blank line separates
   * paragraphs, a single newline breaks the line.
   */
  function LineBreaks(s: string): string
    decreases |s|
  {
    if s == [] then []
    else if "\n\n" <= s then "</p><p>" + LineBreaks(s[2..])
    else if s[0] == '\n' then "<br>" + LineBreaks(s[1..])
    else [s[0]] + LineBreaks(s[1..])
  }

  /** A single-character replacement works character by character. */
  lemma {:induction false} ReplaceCharAppend(a: string, b: string, c: char, rep: string)
    ensures ReplaceAll(a + b, [c], rep) == ReplaceAll(a, [c], rep) + ReplaceAll(b, [c], rep)
  {
    if a != [] {
      assert (a + b)[1..] == a[1..] + b;
      assert (a + b)[0] == a[0];
      assert ([c] <= a + b) <==> a[0] == c;
      assert ([c] <= a) <==> a[0] == c;
      ReplaceCharAppend(a[1..], b, c, rep);
      var head := if a[0] == c then rep else [a[0]];
      calc {
        ReplaceAll(a + b, [c], rep);
        head + ReplaceAll(a[1..] + b, [c], rep);
        head + (ReplaceAll(a[1..], [c], rep) + ReplaceAll(b, [c], rep));
        (head + ReplaceAll(a[1..], [c], rep)) + ReplaceAll(b, [c], rep);
        ReplaceAll(a, [c], rep) + ReplaceAll(b, [c], rep);
      }
    } else {
      assert a + b == b;
    }
  }

  /** A replacement whose pattern's first character does not occur copies. */
  lemma {:induction false} ReplaceAllAbsent(s: string, pat: string, rep: string)
    requires pat != [] && pat[0] !in s
    ensures ReplaceAll(s, pat, rep) == s
    decreases |s|
  {
    if |s| >= |pat| {
      ReplaceAllAbsent(s[1..], pat, rep);
    }
  }

  /**
   * Replacing blank lines before single newlines is the reference reading:
   * each `\n\n` becomes `</p><p>` and only the remaining `\n` become `<br>`.
   */
  lemma {:induction false} BreaksMatchReference(s: string)
    ensures ReplaceAll(ReplaceAll(s, "\n\n", "</p><p>"), "\n", "<br>") == LineBreaks(s)
    decreases |s|
  {
    if s == [] {
    } else if |s| == 1 {
      assert ReplaceAll(s, "\n\n", "</p><p>") == s;
      assert ReplaceAll(s[1..], "\n", "<br>") == [];
    } else if "\n\n" <= s {
      var rest := ReplaceAll(s[2..], "\n\n", "</p><p>");
      assert ReplaceAll(s, "\n\n", "</p><p>") == "</p><p>" + rest;
      ReplaceCharAppend("</p><p>", rest, '\n', "<br>");
      ReplaceAllAbsent("</p><p>", "\n", "<br>");
      BreaksMatchReference(s[2..]);
    } else {
      var rest := ReplaceAll(s[1..], "\n\n", "</p><p>");
      assert ReplaceAll(s, "\n\n", "</p><p>") == [s[0]] + rest;
      ReplaceCharAppend([s[0]], rest, '\n', "<br>");
      assert ReplaceAll([s[0]][1..], "\n", "<br>") == [];
      BreaksMatchReference(s[1..]);
    }
  }

  // ------------------------------------------------------------ plain text

  /** A span replacement whose delimiter does not occur copies. */
  lemma {:induction false} ReplaceSpansAbsent(s: string, d: string, open: string, close: string)
    requires d != [] && d[0] !in s
    ensures ReplaceSpans(s, d, open, close) == s
    decreases |s|
  {
    if s != [] {
      ReplaceSpansAbsent(s[1..], d, open, close);
    }
  }

  /**
   * Text with no `*`, no backquote and no line terminator is only wrapped in
   * a paragraph.
   */
  lemma PlainTextIsWrapped(s: string)
    requires '*' !in s && '`' !in s && !HasLineTerminator(s)
    ensures FormatMessage(s) == "<p>" + s + "</p>"
  {
    assert forall k | 0 <= k < |s| :: s[k] != '\n';
    ReplaceSpansAbsent(s, "**", "<strong>", "</strong>");
    ReplaceSpansAbsent(s, "*", "<em>", "</em>");
    ReplaceSpansAbsent(s, "`", "<code>", "</code>");
    ReplaceAllAbsent(s, "\n\n", "</p><p>");
    ReplaceAllAbsent(s, "\n", "<br>");
  }

  /** Escaping text with no markup character and no line terminator adds neither. */
  lemma EscapeHtmlPlain(text: string)
    requires '*' !in text && '`' !in text && !HasLineTerminator(text)
    ensures '*' !in EscapeHtml(text) && '`' !in EscapeHtml(text) && !HasLineTerminator(EscapeHtml(text))
  {
    var e := EscapeHtml(text);
    assert '\n' !in text && '\r' !in text && '\U{2028}' !in text && '\U{2029}' !in text by {
      forall k | 0 <= k < |text| ensures !Js.IsLineTerminator(text[k]) { }
    }
    EscapeHtmlKeeps(text, '*');
    EscapeHtmlKeeps(text, '`');
    EscapeHtmlKeeps(text, '\n');
    EscapeHtmlKeeps(text, '\r');
    EscapeHtmlKeeps(text, '\U{2028}');
    EscapeHtmlKeeps(text, '\U{2029}');
    forall k | 0 <= k < |e| ensures !Js.IsLineTerminator(e[k]) {
      assert e[k] in e;
    }
  }

  /** A plain message is shown escaped, in one paragraph. */
  lemma PlainMessageHtml(text: string)
    requires '*' !in text && '`' !in text && !HasLineTerminator(text)
    ensures MessageHtml(text) == "<p>" + EscapeHtml(text) + "</p>"
  {
    EscapeHtmlPlain(text);
    PlainTextIsWrapped(EscapeHtml(text));
  }

  /** Text without line terminators stays so when another such text is appended. */
  lemma NoLineTerminatorAppend(a: string, b: string)
    requires !HasLineTerminator(a) && !HasLineTerminator(b)
    ensures !HasLineTerminator(a + b)
  {
    forall k | 0 <= k < |a + b|
      ensures !Js.IsLineTerminator((a + b)[k])
    {
      if k < |a| {
        assert (a + b)[k] == a[k];
      } else {
        assert (a + b)[k] == b[k - |a|];
      }
    }
  }

  /**
   * The lazy match stops at a delimiter when no line terminator and no
   * earlier delimiter comes before it.
   */
  lemma {:induction false} FindCloseAt(t: string, d: string, j: nat)
    requires d != [] && j + |d| <= |t| && t[j..j + |d|] == d
    requires forall k | 0 <= k < j :: !Js.IsLineTerminator(t[k]) && !(d <= t[k..])
    ensures FindClose(t, d) == Some(j)
    decreases j
  {
    if j == 0 {
      assert d <= t;
    } else {
      assert !(d <= t) by {
        assert t[0..] == t;
      }
      var u := t[1..];
      forall k | 0 <= k < j - 1
        ensures !Js.IsLineTerminator(u[k]) && !(d <= u[k..])
      {
        assert u[k] == t[k + 1] && u[k..] == t[k + 1..];
      }
      assert u[j - 1..j - 1 + |d|] == t[j..j + |d|];
      FindCloseAt(u, d, j - 1);
    }
  }

  /**
   * A span on one line in which no delimiter starts is re-tagged whole:
   * `d + x + d` becomes `open + x + close`, its content kept as it is.
   */
  lemma SpanTagged(d: string, x: string, open: string, close: string)
    requires d != [] && !HasLineTerminator(x)
    requires forall k | 0 <= k < |x| :: !(d <= (x + d)[k..])
    ensures ReplaceSpans(d + x + d, d, open, close) == open + x + close
  {
    var s := d + x + d;
    var t := x + d;
    assert s[|d|..] == t;
    assert t[|x|..|x| + |d|] == d;
    forall k | 0 <= k < |x|
      ensures !Js.IsLineTerminator(t[k]) && !(d <= t[k..])
    {
      assert t[k] == x[k];
    }
    FindCloseAt(t, d, |x|);
    assert d <= s;
    ReplaceSpansSpan(s, d, open, close, |x|);
    assert s[|d|..|d| + |x|] == x;
    assert s[|d| + |x| + |d|..] == [];
  }

  /** Escaping leaves the `**` delimiters of a bold span in place. */
  lemma EscapeBold(a: string, x: string)
    ensures EscapeHtml(a + "**" + x + "**") == EscapeHtml(a) + "**" + EscapeHtml(x) + "**"
  {
    assert EscapeHtml("**") == "**" by {
      assert EscapeHtml("**") == EscapeChar('*') + EscapeHtml("*");
    }
    EscapeHtmlAppend(a, "**");
    EscapeHtmlAppend(a + "**", x);
    EscapeHtmlAppend(a + "**" + x, "**");
  }

  /** In text without `*`, no `**` delimiter starts before the closing one. */
  lemma NoStarsInside(x: string)
    requires '*' !in x
    ensures forall k | 0 <= k < |x| :: !("**" <= (x + "**")[k..])
  {
    forall k | 0 <= k < |x|
      ensures !("**" <= (x + "**")[k..])
    {
      assert (x + "**")[k] == x[k];
    }
  }

  /** The bold pass on plain text followed by one bold span tags just the span. */
  lemma BoldPass(a: string, x: string)
    requires '*' !in a && '*' !in x && !HasLineTerminator(x)
    ensures ReplaceSpans(a + "**" + x + "**", "**", "<strong>", "</strong>") == a + "<strong>" + x + "</strong>"
  {
    var span := "**" + x + "**";
    var e := a + span;
    assert a + "**" + x + "**" == a + ("**" + x + "**");
    assert a + "<strong>" + x + "</strong>" == a + ("<strong>" + x + "</strong>");
    assert e[..|a|] == a && e[|a|..] == span;
    assert "**"[0] == '*';
    ReplaceSpansCopies(e, "**", "<strong>", "</strong>", |a|);
    BoldSpan(x);
  }

  /** One bold span whose content has no `*` becomes `<strong>` content `</strong>`. */
  lemma BoldSpan(x: string)
    requires '*' !in x && !HasLineTerminator(x)
    ensures ReplaceSpans("**" + x + "**", "**", "<strong>", "</strong>") == "<strong>" + x + "</strong>"
  {
    NoStarsInside(x);
    SpanTagged("**", x, "<strong>", "</strong>");
  }

  /** Wrapping plain text in `<strong>` adds no markup character and no line terminator. */
  lemma StrongPlain(a: string, x: string)
    requires '*' !in a && '`' !in a && !HasLineTerminator(a)
    requires '*' !in x && '`' !in x && !HasLineTerminator(x)
    ensures var bold := a + "<strong>" + x + "</strong>";
      '*' !in bold && '`' !in bold && !HasLineTerminator(bold)
  {
    assert !HasLineTerminator("<strong>") && !HasLineTerminator("</strong>");
    NoLineTerminatorAppend(a, "<strong>");
    NoLineTerminatorAppend(a + "<strong>", x);
    NoLineTerminatorAppend(a + "<strong>" + x, "</strong>");
  }

  /** Formatting depends on the text only through the result of its bold pass. */
  lemma FormatAfterBold(e: string, bold: string)
    requires ReplaceSpans(e, "**", "<strong>", "</strong>") == bold
    requires ReplaceSpans(bold, "**", "<strong>", "</strong>") == bold
    ensures FormatMessage(e) == FormatMessage(bold)
  {
  }

  /** Formatting plain text followed by one bold span. */
  lemma FormatBold(a: string, x: string)
    requires '*' !in a && '`' !in a && !HasLineTerminator(a)
    requires '*' !in x && '`' !in x && !HasLineTerminator(x)
    ensures FormatMessage(a + "**" + x + "**") == "<p>" + a + "<strong>" + x + "</strong></p>"
  {
    BoldPass(a, x);
    var bold := a + "<strong>" + x + "</strong>";
    StrongPlain(a, x);
    ReplaceSpansAbsent(bold, "**", "<strong>", "</strong>");
    FormatAfterBold(a + "**" + x + "**", bold);
    PlainTextIsWrapped(bold);
  }

  /**
   * Plain text followed by a bold span: both are escaped, only the span is
   * bold, and the whole is one paragraph. Markup typed as text (`<b>`) is
   * shown, not applied; markup written with `**` is applied.
   */
  lemma BoldMessageHtml(a: string, x: string)
    requires '*' !in a && '`' !in a && !HasLineTerminator(a)
    requires '*' !in x && '`' !in x && !HasLineTerminator(x)
    ensures MessageHtml(a + "**" + x + "**") == "<p>" + EscapeHtml(a) + "<strong>" + EscapeHtml(x) + "</strong></p>"
  {
    EscapeHtmlPlain(a);
    EscapeHtmlPlain(x);
    EscapeBold(a, x);
    FormatBold(EscapeHtml(a), EscapeHtml(x));
  }

  // ------------------------------------------------------------ tag safety

  /** The only tags the formatter writes. */
  predicate IsTag(t: string)
  {
    || t == "<p>" || t == "</p>" || t == "<br>" || t == "<strong>" || t == "</strong>"
    || t == "<em>" || t == "</em>" || t == "<code>" || t == "</code>"
  }

  /** The characters those tags are spelled with. */
  const TagChars: set<char> := {'<', '/', '>', 'p', 'b', 'r', 's', 't', 'o', 'n', 'g', 'e', 'm', 'c', 'd'}

  /** A tag of length `n` starts at index `i` of `s`. */
  predicate TagSpan(s: string, i: int, n: int)
  {
    0 <= i && 0 < n && i + n <= |s| && IsTag(s[i..i + n])
  }

  /** One of the formatter's tags starts at index `i` of `s`. */
  ghost predicate TagAt(s: string, i: int)
  {
    exists n :: TagSpan(s, i, n)
  }

  /** Every `<` in `s` opens one of the formatter's own tags. */
  ghost predicate TagsOnly(s: string)
  {
    forall i | 0 <= i < |s| && s[i] == '<' :: TagAt(s, i)
  }

  /** A tag opens with `<`, has no other `<`, and uses only TagChars. */
  lemma TagShape(t: string)
    requires IsTag(t)
    ensures |t| > 0 && t[0] == '<'
    ensures forall k | 0 < k < |t| :: t[k] != '<'
    ensures forall k | 0 <= k < |t| :: t[k] in TagChars
  {
  }

  lemma TagIsTagsOnly(t: string)
    requires IsTag(t)
    ensures TagsOnly(t)
  {
    TagShape(t);
    assert t[0..|t|] == t;
    assert TagSpan(t, 0, |t|);
  }

  lemma TagsOnlyAppend(a: string, b: string)
    requires TagsOnly(a) && TagsOnly(b)
    ensures TagsOnly(a + b)
  {
    var s := a + b;
    forall i | 0 <= i < |s| && s[i] == '<' ensures TagAt(s, i) {
      if i < |a| {
        TagAtLeft(a, b, i);
      } else {
        TagAtRight(a, b, i);
      }
    }
  }

  /** A tag of the left operand is a tag of the concatenation. */
  lemma TagAtLeft(a: string, b: string, i: nat)
    requires TagsOnly(a) && i < |a| && (a + b)[i] == '<'
    ensures TagAt(a + b, i)
  {
    assert a[i] == '<';
    var n :| TagSpan(a, i, n);
    SliceAppendLeft(a, b, i, i + n);
    assert TagSpan(a + b, i, n);
  }

  /** A tag of the right operand is a tag of the concatenation. */
  lemma TagAtRight(a: string, b: string, i: nat)
    requires TagsOnly(b) && |a| <= i < |a| + |b| && (a + b)[i] == '<'
    ensures TagAt(a + b, i)
  {
    assert b[i - |a|] == '<';
    var n :| TagSpan(b, i - |a|, n);
    SliceAppendRight(a, b, i, i + n);
    assert TagSpan(a + b, i, n);
  }

  /** A slice of the left operand of a concatenation. */
  lemma SliceAppendLeft<T>(a: seq<T>, b: seq<T>, i: nat, j: nat)
    requires i <= j <= |a|
    ensures (a + b)[i..j] == a[i..j]
  {
  }

  /** A slice of the right operand of a concatenation. */
  lemma SliceAppendRight<T>(a: seq<T>, b: seq<T>, i: nat, j: nat)
    requires |a| <= i <= j <= |a| + |b|
    ensures (a + b)[i..j] == b[i - |a|..j - |a|]
  {
  }

  lemma TagsOnlySuffix(s: string, m: nat)
    requires TagsOnly(s) && m <= |s|
    ensures TagsOnly(s[m..])
  {
    var u := s[m..];
    forall i | 0 <= i < |u| && u[i] == '<' ensures TagAt(u, i) {
      assert s[m + i] == '<';
      var n :| TagSpan(s, m + i, n);
      SliceOfSuffix(s, m, i, n);
      assert TagSpan(u, i, n);
    }
  }

  /** Cutting `s` just before a character no tag contains cuts no tag in half. */
  lemma TagsOnlyPrefix(s: string, b: nat)
    requires TagsOnly(s) && b < |s| && s[b] !in TagChars
    ensures TagsOnly(s[..b])
  {
    var u := s[..b];
    forall i | 0 <= i < |u| && u[i] == '<' ensures TagAt(u, i) {
      assert s[i] == '<';
      var n :| TagSpan(s, i, n);
      TagShape(s[i..i + n]);
      assert forall j | i <= j < i + n :: s[j] == s[i..i + n][j - i];
      assert i + n <= b;
      assert u[i..i + n] == s[i..i + n];
      assert TagSpan(u, i, n);
    }
  }

  lemma NoBracketTagsOnly(s: string)
    requires '<' !in s
    ensures TagsOnly(s)
  {
  }

  /** A character that cannot open a span is copied. */
  lemma ReplaceSpansCopiesHead(s: string, d: string, open: string, close: string)
    requires d != [] && s != [] && s[0] != d[0]
    ensures ReplaceSpans(s, d, open, close) == [s[0]] + ReplaceSpans(s[1..], d, open, close)
  {
    assert !(d <= s);
  }

  /** A span scan copies a stretch that holds no delimiter character. */
  lemma {:induction false} ReplaceSpansCopies(s: string, d: string, open: string, close: string, m: nat)
    requires d != [] && m <= |s| && d[0] !in s[..m]
    ensures ReplaceSpans(s, d, open, close) == s[..m] + ReplaceSpans(s[m..], d, open, close)
  {
    if m > 0 {
      assert s[0] == s[..m][0];
      ReplaceSpansCopiesHead(s, d, open, close);
      var u := s[1..];
      assert u[..m - 1] == s[..m][1..];
      assert d[0] !in u[..m - 1];
      ReplaceSpansCopies(u, d, open, close, m - 1);
      assert u[m - 1..] == s[m..];
      assert s[..m] == [s[0]] + u[..m - 1];
      assert [s[0]] + (u[..m - 1] + ReplaceSpans(s[m..], d, open, close))
        == [s[0]] + u[..m - 1] + ReplaceSpans(s[m..], d, open, close);
    }
  }

  /** A character that cannot start the pattern is copied. */
  lemma ReplaceAllCopiesHead(s: string, pat: string, rep: string)
    requires pat != [] && |s| >= |pat| && s[0] != pat[0]
    ensures ReplaceAll(s, pat, rep) == [s[0]] + ReplaceAll(s[1..], pat, rep)
  {
    assert !(pat <= s);
  }

  /** A literal replacement copies a stretch that holds no pattern start. */
  lemma {:induction false} ReplaceAllCopies(s: string, pat: string, rep: string, m: nat)
    requires pat != [] && m <= |s| && pat[0] !in s[..m]
    ensures ReplaceAll(s, pat, rep) == s[..m] + ReplaceAll(s[m..], pat, rep)
  {
    if m > 0 {
      if |s| < |pat| {
        assert ReplaceAll(s[m..], pat, rep) == s[m..];
      } else {
        assert s[0] == s[..m][0];
        ReplaceAllCopiesHead(s, pat, rep);
        var u := s[1..];
        assert u[..m - 1] == s[..m][1..];
        assert pat[0] !in u[..m - 1];
        ReplaceAllCopies(u, pat, rep, m - 1);
        assert u[m - 1..] == s[m..];
        assert s[..m] == [s[0]] + u[..m - 1];
        assert [s[0]] + (u[..m - 1] + ReplaceAll(s[m..], pat, rep))
          == [s[0]] + u[..m - 1] + ReplaceAll(s[m..], pat, rep);
      }
    }
  }

  /** A tag at the front of `s`, obtained from TagsOnly. */
  lemma LeadingTag(s: string) returns (t: string)
    requires TagsOnly(s) && s != [] && s[0] == '<'
    ensures IsTag(t) && t <= s
    ensures TagsOnly(t) && forall k | 0 <= k < |t| :: t[k] in TagChars
  {
    var n :| TagSpan(s, 0, n);
    t := s[0..n];
    TagShape(t);
    TagIsTagsOnly(t);
  }

  /** A stretch of `s` that starts with a tag is copied with the tag intact. */
  lemma ReplaceSpansLeadingTag(s: string, d: string, open: string, close: string) returns (t: string)
    requires d != [] && d[0] !in TagChars && TagsOnly(s) && s != [] && s[0] == '<'
    ensures IsTag(t) && TagsOnly(t) && 0 < |t| <= |s|
    ensures ReplaceSpans(s, d, open, close) == t + ReplaceSpans(s[|t|..], d, open, close)
    ensures TagsOnly(s[|t|..])
  {
    t := LeadingTag(s);
    assert s[..|t|] == t;
    ReplaceSpansCopies(s, d, open, close, |t|);
    TagsOnlySuffix(s, |t|);
  }

  /** The text between two delimiters, and what follows the closing one, keep TagsOnly. */
  lemma SpanPiecesTagsOnly(s: string, d: string, k: nat)
    requires d != [] && d[0] !in TagChars && TagsOnly(s) && d <= s
    requires |d| + k + |d| <= |s| && s[|d| + k..|d| + k + |d|] == d
    ensures TagsOnly(s[|d|..|d| + k]) && TagsOnly(s[|d| + k + |d|..])
  {
    var u := s[|d|..];
    TagsOnlySuffix(s, |d|);
    assert u[k] == d[0];
    TagsOnlyPrefix(u, k);
    assert u[..k] == s[|d|..|d| + k];
    TagsOnlySuffix(s, |d| + k + |d|);
  }

  /** A delimiter with a closing one on its line opens a re-tagged span. */
  lemma ReplaceSpansSpan(s: string, d: string, open: string, close: string, k: nat)
    requires d != [] && d <= s && FindClose(s[|d|..], d) == Some(k)
    ensures ReplaceSpans(s, d, open, close)
      == open + s[|d|..|d| + k] + close + ReplaceSpans(s[|d| + k + |d|..], d, open, close)
  {
  }

  /** A slice of a suffix is a slice of the whole. */
  lemma SliceOfSuffix<T>(s: seq<T>, n: nat, k: nat, m: nat)
    requires n + k + m <= |s|
    ensures s[n..][k..k + m] == s[n + k..n + k + m]
  {
  }

  /** Span re-tagging with tags of the formatter never lets a stray `<` through. */
  lemma {:induction false} ReplaceSpansTagsOnly(s: string, d: string, open: string, close: string)
    requires d != [] && d[0] !in TagChars && TagsOnly(open) && TagsOnly(close) && TagsOnly(s)
    ensures TagsOnly(ReplaceSpans(s, d, open, close))
    decreases |s|
  {
    if s == [] {
    } else if s[0] == '<' {
      var t := ReplaceSpansLeadingTag(s, d, open, close);
      ReplaceSpansTagsOnly(s[|t|..], d, open, close);
      TagsOnlyAppend(t, ReplaceSpans(s[|t|..], d, open, close));
    } else if d <= s && FindClose(s[|d|..], d).Some? {
      var k := FindClose(s[|d|..], d).value;
      SliceOfSuffix(s, |d|, k, |d|);
      ReplaceSpansSpan(s, d, open, close, k);
      SpanPiecesTagsOnly(s, d, k);
      var content, rest := s[|d|..|d| + k], s[|d| + k + |d|..];
      ReplaceSpansTagsOnly(rest, d, open, close);
      TagsOnlyAppend(open, content);
      TagsOnlyAppend(open + content, close);
      TagsOnlyAppend(open + content + close, ReplaceSpans(rest, d, open, close));
    } else {
      assert ReplaceSpans(s, d, open, close) == [s[0]] + ReplaceSpans(s[1..], d, open, close);
      TagsOnlySuffix(s, 1);
      ReplaceSpansTagsOnly(s[1..], d, open, close);
      TagsOnlyAppend([s[0]], ReplaceSpans(s[1..], d, open, close));
    }
  }

  /** Literal replacement by markup of the formatter never lets a stray `<` through. */
  lemma {:induction false} ReplaceAllTagsOnly(s: string, pat: string, rep: string)
    requires pat != [] && pat[0] !in TagChars && TagsOnly(rep) && TagsOnly(s)
    ensures TagsOnly(ReplaceAll(s, pat, rep))
    decreases |s|
  {
    if |s| < |pat| {
    } else if s[0] == '<' {
      var t := LeadingTag(s);
      assert pat[0] !in s[..|t|] by {
        assert s[..|t|] == t;
      }
      ReplaceAllCopies(s, pat, rep, |t|);
      assert s[..|t|] == t;
      TagsOnlySuffix(s, |t|);
      ReplaceAllTagsOnly(s[|t|..], pat, rep);
      TagsOnlyAppend(t, ReplaceAll(s[|t|..], pat, rep));
    } else if pat <= s {
      TagsOnlySuffix(s, |pat|);
      ReplaceAllTagsOnly(s[|pat|..], pat, rep);
      TagsOnlyAppend(rep, ReplaceAll(s[|pat|..], pat, rep));
    } else {
      TagsOnlySuffix(s, 1);
      ReplaceAllTagsOnly(s[1..], pat, rep);
      TagsOnlyAppend([s[0]], ReplaceAll(s[1..], pat, rep));
    }
  }

  /**
   * Escaping precedes markup: whatever the text, every `<` in a bubble's
   * markup opens one of the formatter's own tags, so no tag from the text
   * becomes live.
   */
  lemma MessageHtmlTagsOnly(text: string)
    ensures TagsOnly(MessageHtml(text))
  {
    var e := EscapeHtml(text);
    NoBracketTagsOnly(e);
    SpanPassesTagsOnly(e);
    var code := ReplaceSpans(ReplaceSpans(ReplaceSpans(e, "**", "<strong>", "</strong>"), "*", "<em>", "</em>"), "`", "<code>", "</code>");
    BreakPassesTagsOnly(code);
  }

  /** The three span passes add only their own tags. */
  lemma SpanPassesTagsOnly(e: string)
    requires TagsOnly(e)
    ensures TagsOnly(ReplaceSpans(ReplaceSpans(ReplaceSpans(e, "**", "<strong>", "</strong>"), "*", "<em>", "</em>"), "`", "<code>", "</code>"))
  {
    TagIsTagsOnly("<strong>");
    TagIsTagsOnly("</strong>");
    TagIsTagsOnly("<em>");
    TagIsTagsOnly("</em>");
    TagIsTagsOnly("<code>");
    TagIsTagsOnly("</code>");
    var bold := ReplaceSpans(e, "**", "<strong>", "</strong>");
    ReplaceSpansTagsOnly(e, "**", "<strong>", "</strong>");
    var italic := ReplaceSpans(bold, "*", "<em>", "</em>");
    ReplaceSpansTagsOnly(bold, "*", "<em>", "</em>");
    ReplaceSpansTagsOnly(italic, "`", "<code>", "</code>");
  }

  /** The two newline passes and the paragraph wrap add only their own tags. */
  lemma BreakPassesTagsOnly(code: string)
    requires TagsOnly(code)
    ensures TagsOnly(WrapParagraph(ReplaceAll(ReplaceAll(code, "\n\n", "</p><p>"), "\n", "<br>")))
  {
    TagIsTagsOnly("<br>");
    TagIsTagsOnly("<p>");
    TagIsTagsOnly("</p>");
    assert "</p><p>" == "</p>" + "<p>";
    TagsOnlyAppend("</p>", "<p>");
    var paragraphs := ReplaceAll(code, "\n\n", "</p><p>");
    ReplaceAllTagsOnly(code, "\n\n", "</p><p>");
    var breaks := ReplaceAll(paragraphs, "\n", "<br>");
    ReplaceAllTagsOnly(paragraphs, "\n", "<br>");
    if !HasLineTerminator(breaks) {
      TagsOnlyAppend("<p>", breaks);
      TagsOnlyAppend("<p>" + breaks, "</p>");
    }
  }
}
