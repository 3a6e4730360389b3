/** A decoded JSON document and Python's subscript operator on it, with the exception
    each kind of failed lookup raises. */
module Json {
  import opened Python

  datatype Json =
    | JNull
    | JBool(b: bool)
    | JNum(n: real)
    | JStr(s: string)
    | JArr(items: seq<Json>)
    | JObj(fields: map<string, Json>)

  /** The contents of a stored response file: `json.loads` either yields a document or
      raises ValueError (a `json.JSONDecodeError`). */
  datatype FileBody = Decoded(doc: Json) | Undecodable

  /** `j[i]` for a non-negative integer `i`. A dict has only string keys, so an integer
      subscript is a KeyError; a string yields its one-character substring. */
  function Index(j: Json, i: nat): (r: Result<Json>)
    ensures r.Ok? <==> (j.JArr? && i < |j.items|) || (j.JStr? && i < |j.s|)
    ensures j.JArr? && i < |j.items| ==> r == Ok(j.items[i])
    ensures r.Raise? ==> r.error in {KeyError, IndexError, TypeError}
  {
    match j
    case JArr(items) => if i < |items| then Ok(items[i]) else Raise(IndexError)
    case JStr(s) => if i < |s| then Ok(JStr([s[i]])) else Raise(IndexError)
    case JObj(_) => Raise(KeyError)
    case _ => Raise(TypeError)
  }

  /** `j[k]` for a string `k`: only a dict can be subscripted by a string. */
  function Key(j: Json, k: string): (r: Result<Json>)
    ensures r.Ok? <==> j.JObj? && k in j.fields
    ensures r.Ok? ==> r.value == j.fields[k]
    ensures r.Raise? ==> r.error == (if j.JObj? then KeyError else TypeError)
  {
    match j
    case JObj(fields) => if k in fields then Ok(fields[k]) else Raise(KeyError)
    case _ => Raise(TypeError)
  }

  /** One subscript in a chain such as `doc[6]['data']['propertyDetail']`. */
  datatype Step = Pos(i: nat) | Name(k: string)

  function Apply(j: Json, step: Step): Result<Json>
  {
    match step
    case Pos(i) => Index(j, i)
    case Name(k) => Key(j, k)
  }

  /** A chain of subscripts, evaluated left to right; the first failing one raises. A
      lookup chain never raises ValueError. */
  function Get(j: Json, path: seq<Step>): (r: Result<Json>)
    ensures r.Raise? ==> r.error in {KeyError, IndexError, TypeError}
    ensures path == [] ==> r == Ok(j)
    decreases path
  {
    if path == [] then Ok(j)
    else
      var v :- Apply(j, path[0]);
      Get(v, path[1..])
  }

  /** Following a path in two pieces is following it at once. */
  lemma {:induction false} GetAppend(j: Json, p: seq<Step>, q: seq<Step>)
    ensures Get(j, p + q) == (match Get(j, p) case Ok(v) => Get(v, q) case Raise(e) => Raise(e))
    decreases p
  {
    if p != [] {
      assert (p + q)[0] == p[0] && (p + q)[1..] == p[1..] + q;
      match Apply(j, p[0])
      case Ok(v) => GetAppend(v, p[1..], q);
      case Raise(_) =>
    } else {
      assert p + q == q;
    }
  }
}
