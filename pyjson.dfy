/**
 * The value `json.loads` hands back, as a datatype: the decoder itself is not
 * modelled, its result (or its failure) is an input. Also the handful of
 * Python built-ins the core applies to such values: `dict.get`, truthiness,
 * `int()` and `str()`.
 */
module PyJson {
  import opened Wrappers
  import Text

  /** A decoded JSON document. Numbers are integers only; an object keeps its members in
      document order. */
  datatype Json =
    | JNull
    | JBool(b: bool)
    | JNum(n: int)
    | JStr(s: string)
    | JArr(items: seq<Json>)
    | JObj(fields: seq<(string, Json)>)

  /** `obj.get(key)` on the dict `json.loads` builds: when a key occurs twice the later
      member wins, as it does in Python's decoder. */
  function Lookup(fields: seq<(string, Json)>, key: string): (r: Option<Json>)
    ensures r.None? <==> forall i :: 0 <= i < |fields| ==> fields[i].0 != key
    ensures r.Some? ==> exists i :: 0 <= i < |fields| && fields[i] == (key, r.value) &&
                                    forall j :: i < j < |fields| ==> fields[j].0 != key
  {
    if fields == [] then None
    else if fields[|fields| - 1].0 == key then Some(fields[|fields| - 1].1)
    else Lookup(fields[..|fields| - 1], key)
  }

  /** A one-member object has exactly that member. */
  lemma LookupSingle(k: string, v: Json, key: string)
    ensures Lookup([(k, v)], key) == if k == key then Some(v) else None
  {
    assert [(k, v)][..0] == [];
  }

  /** `key in obj`. */
  predicate HasKey(fields: seq<(string, Json)>, key: string)
  {
    Lookup(fields, key).Some?
  }

  /** `d.get(key, default)`. */
  function GetOr(fields: seq<(string, Json)>, key: string, default: Json): Json
  {
    match Lookup(fields, key)
    case Some(v) => v
    case None => default
  }

  /** Python truthiness (`x or y` picks `y` exactly when `x` is falsy). */
  predicate Truthy(j: Json)
  {
    match j
    case JNull => false
    case JBool(b) => b
    case JNum(n) => n != 0
    case JStr(s) => s != []
    case JArr(items) => items != []
    case JObj(fields) => fields != []
  }

  /** Python's `int(x)`: `None` stands for the `TypeError`/`ValueError` it raises. */
  function IntOf(j: Json): (r: Option<int>)
    ensures j.JNum? ==> r == Some(j.n)
    ensures j.JNull? || j.JArr? || j.JObj? ==> r.None?
    ensures j.JBool? ==> r == Some(if j.b then 1 else 0)
    ensures j.JStr? ==> r == Text.ParseInt(j.s)
  {
    match j
    case JNum(n) => Some(n)
    case JBool(b) => Some(if b then 1 else 0)
    case JStr(s) => Text.ParseInt(s)
    case _ => None
  }

  /** Python's `repr` of a decoded value (string quoting simplified to plain single quotes). */
  function Repr(j: Json): string
    decreases j, 1
  {
    match j
    case JNull => "None"
    case JBool(b) => if b then "True" else "False"
    case JNum(n) => Text.IntToString(n)
    case JStr(s) => "'" + s + "'"
    case JArr(items) => "[" + ReprItems(items) + "]"
    case JObj(fields) => "{" + ReprFields(fields) + "}"
  }

  function ReprItems(items: seq<Json>): string
    decreases items, 0
  {
    if items == [] then []
    else if |items| == 1 then Repr(items[0])
    else Repr(items[0]) + ", " + ReprItems(items[1..])
  }

  function ReprFields(fields: seq<(string, Json)>): string
    decreases fields, 0
  {
    if fields == [] then []
    else
      var (k, v) := fields[0];
      assert v < fields[0];
      var member := "'" + k + "': " + Repr(v);
      if |fields| == 1 then member else member + ", " + ReprFields(fields[1..])
  }

  /** Python's `str(x)`: a string is itself, anything else its `repr`. */
  function PyStr(j: Json): (r: string)
    ensures j.JStr? ==> r == j.s
    ensures j.JNull? ==> r == "None"
    ensures j.JBool? ==> r == (if j.b then "True" else "False")
    ensures j.JNum? ==> r == Text.IntToString(j.n) && Text.ParseInt(r) == Some(j.n)
  {
    if j.JStr? then j.s
    else if j.JNum? then (Text.ParseIntOfIntToString(j.n); Repr(j))
    else Repr(j)
  }
}
