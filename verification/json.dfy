/**
  JSON values as graph-ts `JSONValue` exposes them, and the field access
  pattern the mapping uses on them: `toObject()`, then `get(key)`, then a
  test for a missing or `null` field, and `toString()` on the last field.
  In graph-ts `toObject()` and `toString()` assert the kind of the value, so
  applying them to a value of another kind aborts the handler.
*/
module Json {
  import opened Wrappers

  datatype Json =
    | JNull
    | JBool(b: bool)
    | JNumber(repr: string)
    | JString(s: string)
    | JArray(items: seq<Json>)
    | JObject(fields: map<string, Json>)

  /** Outcome of reading a string along a path of keys. */
  datatype Lookup = Found(value: string) | Missing | Trap

  /**
    Reads the string at `path`. Each level must be an object (`toObject()`,
    otherwise `Trap`); a key that is absent or holds `null` gives `Missing`;
    the value under the last key must be a string (`toString()`, otherwise
    `Trap`).
  */
  function Get(doc: Json, path: seq<string>): (r: Lookup)
    requires |path| >= 1
    ensures r.Found? ==> At(doc, path) == Some(JString(r.value))
    decreases |path|
  {
    if !doc.JObject? then Trap
    else if path[0] !in doc.fields || doc.fields[path[0]].JNull? then Missing
    else if |path| == 1 then
      (if doc.fields[path[0]].JString? then Found(doc.fields[path[0]].s) else Trap)
    else Get(doc.fields[path[0]], path[1..])
  }

  /** Plain navigation: the value reached by following `path` through objects, if any. */
  function At(doc: Json, path: seq<string>): Option<Json>
    decreases |path|
  {
    if |path| == 0 then Some(doc)
    else if doc.JObject? && path[0] in doc.fields then At(doc.fields[path[0]], path[1..])
    else None
  }

  /** A document that holds `leaf` at `path` and nothing else. */
  function Nest(path: seq<string>, leaf: Json): (doc: Json)
    decreases |path|
  {
    if |path| == 0 then leaf else JObject(map[path[0] := Nest(path[1..], leaf)])
  }

  /** The lookup finds `s` exactly when plain navigation reaches the string `s`. */
  lemma {:induction false} GetFound(doc: Json, path: seq<string>, s: string)
    requires |path| >= 1
    ensures Get(doc, path) == Found(s) <==> At(doc, path) == Some(JString(s))
    decreases |path|
  {
    if doc.JObject? && path[0] in doc.fields && |path| > 1 {
      var v := doc.fields[path[0]];
      GetFound(v, path[1..], s);
      if v.JNull? {
        assert At(v, path[1..]) == None;
      }
    }
  }

  /** Navigation undoes nesting. */
  lemma {:induction false} AtNest(path: seq<string>, leaf: Json)
    ensures At(Nest(path, leaf), path) == Some(leaf)
    decreases |path|
  {
    if |path| > 0 {
      AtNest(path[1..], leaf);
    }
  }

  /** A string stored at a path is found there. */
  lemma GetNest(path: seq<string>, s: string)
    requires |path| >= 1
    ensures Get(Nest(path, JString(s)), path) == Found(s)
  {
    AtNest(path, JString(s));
    GetFound(Nest(path, JString(s)), path, s);
  }
}
