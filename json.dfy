/**
 * JSON values as both runtimes hold them after parsing. An object keeps its
 * members in document order; when a key repeats, both `JSON.parse` and
 * Python's `json.loads` keep the last value, and so does Lookup.
 */
module Json {
  import opened Wrappers

  datatype Json =
    | JNull
    | JBool(b: bool)
    | JNum(n: int)
    | JStr(s: string)
    | JArr(items: seq<Json>)
    | JObj(fields: seq<Member>)

  datatype Member = Member(key: string, value: Json)

  /** `key` names some member of `fields`. */
  predicate HasKey(fields: seq<Member>, key: string)
  {
    exists i | 0 <= i < |fields| :: fields[i].key == key
  }

  /** Member `i` is the last one of `fields` whose key is `key`. */
  predicate IsLastBinding(fields: seq<Member>, key: string, i: int)
  {
    0 <= i < |fields| && fields[i].key == key && forall j | i < j < |fields| :: fields[j].key != key
  }

  /** The value bound to `key`: that of the last member with this key. */
  function Lookup(fields: seq<Member>, key: string): (r: Option<Json>)
    ensures r.Some? <==> HasKey(fields, key)
  {
    if fields == [] then None
    else if fields[|fields| - 1].key == key then Some(fields[|fields| - 1].value)
    else
      assert HasKey(fields, key) ==> HasKey(fields[..|fields| - 1], key) by {
        if HasKey(fields, key) {
          var i :| 0 <= i < |fields| && fields[i].key == key;
          assert fields[..|fields| - 1][i].key == key;
        }
      }
      Lookup(fields[..|fields| - 1], key)
  }

  /** What Lookup finds is the value of the last member with that key. */
  lemma {:induction false} LookupLast(fields: seq<Member>, key: string)
    ensures Lookup(fields, key).Some? ==>
      exists i :: IsLastBinding(fields, key, i) && fields[i].value == Lookup(fields, key).value
    decreases |fields|
  {
    if fields != [] && fields[|fields| - 1].key == key {
      assert IsLastBinding(fields, key, |fields| - 1);
    } else if fields != [] && Lookup(fields, key).Some? {
      var prefix := fields[..|fields| - 1];
      assert Lookup(fields, key) == Lookup(prefix, key);
      LookupLast(prefix, key);
      var i :| IsLastBinding(prefix, key, i) && prefix[i].value == Lookup(prefix, key).value;
      forall j | i < j < |fields|
        ensures fields[j].key != key
      {
        if j < |fields| - 1 {
          assert fields[j] == prefix[j];
        }
      }
      assert fields[i] == prefix[i];
      assert IsLastBinding(fields, key, i);
    }
  }

  /** An object with a single member. */
  function Single(key: string, value: Json): (j: Json)
    ensures j.JObj? && Lookup(j.fields, key) == Some(value)
  {
    JObj([Member(key, value)])
  }
}
