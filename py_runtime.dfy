/**
 * The pieces of Python semantics `chat()` relies on when it walks decoded
 * JSON: truthiness, `str()`, `str.strip()`, and the operations `x[k]`,
 * `k in x`, `len(x) > 0` and `x.get(k, d)`, each of which may raise. A raised
 * exception is a `Raise` value, so `:-` propagates it the way Python unwinds
 * to the nearest handler.
 */
module PyRuntime {
  import opened Wrappers
  import opened Json
  import Text

  /** A raised exception: its class name and what `str()` of it gives (CPython 3.12 wording). */
  datatype PyException = PyException(name: string, message: string)

  /** `type(j).__name__` */
  function TypeName(j: Json): string
  {
    match j
    case JNull => "NoneType"
    case JBool(_) => "bool"
    case JNum(_) => "int"
    case JStr(_) => "str"
    case JArr(_) => "list"
    case JObj(_) => "dict"
  }

  datatype PyResult<+T> = Ok(value: T) | Raise(exc: PyException) {

    predicate IsFailure()
    {
      Raise?
    }

    function PropagateFailure<U>(): PyResult<U>
      requires Raise?
    {
      Raise(exc)
    }

    function Extract(): T
      requires Ok?
    {
      value
    }
  }

  /** The characters `str.isspace()` accepts, the set `strip()` removes. */
  predicate IsWhitespace(c: char)
  {
    || ('\t' <= c <= '\r') || ('\U{001C}' <= c <= '\U{001F}') || c == ' ' || c == '\U{0085}' || c == '\U{00A0}'
    || c == '\U{1680}' || ('\U{2000}' <= c <= '\U{200A}') || c == '\U{2028}' || c == '\U{2029}'
    || c == '\U{202F}' || c == '\U{205F}' || c == '\U{3000}'
  }

  /** `s.strip()` */
  function Strip(s: string): string
  {
    Text.Strip(s, IsWhitespace)
  }

  /** `bool(j)`: `None`, `False`, `0` and empty strings, lists and dicts are false. */
  predicate Truthy(j: Json)
  {
    match j
    case JNull => false
    case JBool(b) => b
    case JNum(n) => n != 0
    case JStr(s) => s != []
    case JArr(items) => items != []
    case JObj(fields) => fields != []
  }

  /** `str(j)`: a string is itself, every other value is its `repr`. */
  function Str(j: Json): string
  {
    if j.JStr? then j.s else Repr(j)
  }

  /** `repr(j)` (strings always in single quotes, see README). */
  function Repr(j: Json): string
    decreases j
  {
    match j
    case JNull => "None"
    case JBool(b) => if b then "True" else "False"
    case JNum(n) => Text.IntToString(n)
    case JStr(s) => "'" + s + "'"
    case JArr(items) => "[" + ReprItems(items) + "]"
    case JObj(fields) => "{" + ReprMembers(fields) + "}"
  }

  function ReprItems(items: seq<Json>): string
    decreases items
  {
    if items == [] then []
    else if |items| == 1 then Repr(items[0])
    else Repr(items[0]) + ", " + ReprItems(items[1..])
  }

  function ReprMembers(fields: seq<Member>): string
    decreases fields
  {
    if fields == [] then []
    else
      var m := "'" + fields[0].key + "': " + Repr(fields[0].value);
      if |fields| == 1 then m else m + ", " + ReprMembers(fields[1..])
  }

  /** A subscript: a dict key or a list / string index. */
  datatype Subscript = Key(key: string) | Index(index: nat)

  /** `x[sub]` */
  function Item(x: Json, sub: Subscript): (r: PyResult<Json>)
    ensures sub.Key? && x.JObj? ==> (r.Ok? <==> HasKey(x.fields, sub.key))
    ensures sub.Key? && x.JObj? && r.Ok? ==> Lookup(x.fields, sub.key) == Some(r.value)
    ensures sub.Index? && x.JArr? ==> (r.Ok? <==> sub.index < |x.items|)
    ensures sub.Index? && x.JArr? && r.Ok? ==> r.value == x.items[sub.index]
    ensures !(x.JObj? || x.JArr? || x.JStr?) ==> r.Raise? && r.exc.name == "TypeError"
  {
    match (x, sub)
    case (JObj(fields), Key(k)) =>
      if HasKey(fields, k) then Ok(Lookup(fields, k).value) else Raise(PyException("KeyError", "'" + k + "'"))
    case (JObj(_), Index(i)) => Raise(PyException("KeyError", Text.IntToString(i)))
    case (JArr(items), Index(i)) =>
      if i < |items| then Ok(items[i]) else Raise(PyException("IndexError", "list index out of range"))
    case (JArr(_), Key(_)) => Raise(PyException("TypeError", "list indices must be integers or slices, not str"))
    case (JStr(s), Index(i)) =>
      if i < |s| then Ok(JStr([s[i]])) else Raise(PyException("IndexError", "string index out of range"))
    case (JStr(_), Key(_)) => Raise(PyException("TypeError", "string indices must be integers, not 'str'"))
    case (_, _) => Raise(PyException("TypeError", "'" + TypeName(x) + "' object is not subscriptable"))
  }

  /** `key in x`: a dict key, a list element, or a substring. */
  function In(x: Json, key: string): (r: PyResult<bool>)
    ensures r.Raise? <==> !(x.JObj? || x.JArr? || x.JStr?)
    ensures x.JObj? ==> r == Ok(HasKey(x.fields, key))
  {
    match x
    case JObj(fields) => Ok(HasKey(fields, key))
    case JArr(items) => Ok(JStr(key) in items)
    case JStr(s) => Ok(Text.Contains(s, key))
    case _ => Raise(PyException("TypeError", "argument of type '" + TypeName(x) + "' is not iterable"))
  }

  /** `len(x) > 0` */
  function LenPositive(x: Json): (r: PyResult<bool>)
    ensures r.Raise? <==> !(x.JObj? || x.JArr? || x.JStr?)
    ensures x.JArr? ==> r == Ok(x.items != [])
  {
    match x
    case JObj(fields) => Ok(fields != [])
    case JArr(items) => Ok(items != [])
    case JStr(s) => Ok(s != [])
    case _ => Raise(PyException("TypeError", "object of type '" + TypeName(x) + "' has no len()"))
  }

  /** `x.get(key, default)`: only a dict has `get`. */
  function Get(x: Json, key: string, default: Json): (r: PyResult<Json>)
    ensures r.Raise? <==> !x.JObj?
    ensures x.JObj? && !HasKey(x.fields, key) ==> r == Ok(default)
    ensures x.JObj? && HasKey(x.fields, key) ==> Some(r.value) == Lookup(x.fields, key)
  {
    match x
    case JObj(fields) => Ok(if HasKey(fields, key) then Lookup(fields, key).value else default)
    case _ => Raise(PyException("AttributeError", "'" + TypeName(x) + "' object has no attribute 'get'"))
  }

  /** `x.strip()`: only a string has `strip`. */
  function StripValue(x: Json): (r: PyResult<string>)
    ensures r.Raise? <==> !x.JStr?
    ensures x.JStr? ==> r == Ok(Strip(x.s))
  {
    match x
    case JStr(s) => Ok(Strip(s))
    case _ => Raise(PyException("AttributeError", "'" + TypeName(x) + "' object has no attribute 'strip'"))
  }
}
