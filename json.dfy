/**
 * What `json.load` can hand the loaders: JSON values, and the state of the
 * file on disk. Reading and writing are left to the caller; a loader sees
 * the parsed value, and a writer produces the value `json.dump` writes.
 */
module Json {
  import opened Basics

  /** A JSON value. Floats are never accepted by any loader, so their digits are not kept. */
  datatype Value =
    | Null
    | Bool(b: bool)
    | Int(i: int)
    | Float
    | Str(s: string)
    | Arr(items: seq<Value>)
    | Obj(fields: seq<(string, Value)>)

  /** `os.path.exists` is false; the file could not be read or parsed; or it parsed to `v`. */
  datatype File = Missing | Unreadable | Parsed(v: Value)

  /** `d[key]` for the dict `json.load` builds: with a repeated key the last occurrence wins. */
  function Get(fields: seq<(string, Value)>, key: string): (r: Option<Value>)
    ensures r.Some? <==> exists i :: 0 <= i < |fields| && fields[i].0 == key
    ensures r.Some? ==> exists i :: 0 <= i < |fields| && fields[i] == (key, r.value) &&
                                    forall j :: i < j < |fields| ==> fields[j].0 != key
    decreases |fields|
  {
    if fields == [] then None
    else if Last(fields).0 == key then Some(Last(fields).1)
    else
      var r := Get(fields[..|fields| - 1], key);
      assert forall i :: 0 <= i < |fields| - 1 ==> fields[..|fields| - 1][i] == fields[i];
      r
  }
}
