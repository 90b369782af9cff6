/**
 * The few pieces of JavaScript semantics the client relies on: which
 * characters `trim()` removes and regular-expression `.` refuses, which values
 * are truthy, how a value is turned into text by a template literal or by
 * assigning it to `textContent`, and what reading a property of a parsed JSON
 * value gives.
 */
module JsRuntime {
  import opened Wrappers
  import opened Json
  import Text

  /** Line terminators: never matched by `.` in a regular expression. */
  predicate IsLineTerminator(c: char)
  {
    c == '\n' || c == '\r' || c == '\U{2028}' || c == '\U{2029}'
  }

  /** WhiteSpace and LineTerminator code points, the set `trim()` removes. */
  predicate IsWhitespace(c: char)
  {
    || c == '\t' || c == '\U{000B}' || c == '\U{000C}' || c == ' ' || c == '\U{00A0}' || c == '\U{FEFF}'
    || c == '\U{1680}' || ('\U{2000}' <= c <= '\U{200A}') || c == '\U{202F}' || c == '\U{205F}' || c == '\U{3000}'
    || IsLineTerminator(c)
  }

  /** `s.trim()` */
  function Trim(s: string): string
  {
    Text.Strip(s, IsWhitespace)
  }

  /** An error object as a `catch` clause sees it. */
  datatype JsError = JsError(name: string, message: string)

  /**
   * Truthiness of a property read, `None` standing for `undefined`: `null`,
   * `false`, `0` and `""` are falsy, every array and object is truthy.
   */
  predicate Truthy(v: Option<Json>)
  {
    match v
    case None => false
    case Some(j) =>
      match j
      case JNull => false
      case JBool(b) => b
      case JNum(n) => n != 0
      case JStr(s) => s != []
      case JArr(_) => true
      case JObj(_) => true
  }

  /**
   * Whether `String(j)` completes. Parsed JSON holds no functions, so an
   * object with an own `toString` member has nothing callable to convert it
   * (its inherited `valueOf` gives the object back) and the conversion throws;
   * an array converts by `join`, which converts each element that is not
   * `null`.
   */
  predicate Printable(j: Json)
    decreases j
  {
    match j
    case JObj(fields) => !HasKey(fields, "toString")
    case JArr(items) => forall i | 0 <= i < |items| :: Printable(items[i])
    case _ => true
  }

  /** The TypeError V8 throws when `String()` finds no way to convert an object. */
  const ConvertMessage := "Cannot convert object to primitive value"
  const ConvertError := JsError("TypeError", ConvertMessage)

  /** The conversion error's message has no `h` and no `J`. */
  lemma ConvertMessageLetters()
    ensures 'h' !in ConvertMessage && 'J' !in ConvertMessage
  {
  }

  /** An object with its own `toString`, alone or inside an array, cannot be converted. */
  lemma OwnToStringUnprintable(v: Json)
    ensures !Printable(Single("toString", v))
    ensures !Printable(JArr([Single("toString", v)]))
  {
    var o := Single("toString", v);
    assert JArr([o]).items[0] == o;
  }

  /**
   * `String(j)`, as a template literal or `textContent` applies it to a
   * non-null value; the text is what the conversion gives when j is
   * Printable, and the conversion throws ConvertError otherwise.
   */
  function ToString(j: Json): string
    decreases j
  {
    match j
    case JNull => "null"
    case JBool(b) => if b then "true" else "false"
    case JNum(n) => Text.IntToString(n)
    case JStr(s) => s
    case JArr(items) => JoinElements(items)
    case JObj(_) => "[object Object]"
  }

  /** `items.join(",")`: a `null` element contributes the empty string. */
  function JoinElements(items: seq<Json>): string
    decreases items
  {
    if items == [] then []
    else
      var first := if items[0] == JNull then [] else ToString(items[0]);
      if |items| == 1 then first else first + "," + JoinElements(items[1..])
  }

  /** What reading `x[key]` gives: a value, `undefined`, or a thrown TypeError. */
  datatype Access = Got(value: Option<Json>) | Throws(error: JsError)

  /** The message V8 gives for reading a property of `null`. */
  function NullReadMessage(key: string): string
  {
    "Cannot read properties of null (reading '" + key + "')"
  }

  /** The null-read message has an `h` or a `J` only when the key has one. */
  lemma NullReadLetters(key: string)
    requires 'h' !in key && 'J' !in key
    ensures 'h' !in NullReadMessage(key) && 'J' !in NullReadMessage(key)
  {
    var a, c := "Cannot read properties of null (reading '", "')";
    assert NullReadMessage(key) == a + key + c;
    assert 'h' !in a && 'h' !in c;
    assert 'J' !in a && 'J' !in c;
  }

  /**
   * `x.key` for a parsed JSON value and one of the two names the client
   * reads, `response` and `error`, which no value inherits from a prototype:
   * an object gives its member or `undefined`, `null` throws, every other
   * value has no such property. (Inherited names such as `length` or
   * `toString` would not give `undefined`.)
   */
  function GetProperty(x: Json, key: string): (a: Access)
    requires key == "response" || key == "error"
    ensures a.Throws? <==> x == JNull
    ensures a.Got? && a.value.Some? ==> x.JObj? && HasKey(x.fields, key)
    ensures a.Throws? ==> a.error == JsError("TypeError", NullReadMessage(key))
    ensures x.JObj? ==> a == Got(Lookup(x.fields, key))
    ensures x != JNull && !x.JObj? ==> a == Got(None)
  {
    match x
    case JNull => Throws(JsError("TypeError", NullReadMessage(key)))
    case JObj(fields) => Got(Lookup(fields, key))
    case _ => Got(None)
  }
}
