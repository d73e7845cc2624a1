/** JSON values as the script sees them after `json.load`, and the handful of
    Python operations it applies to them: `dict.get(key, default)`, iteration in
    a `for` loop or `list.extend`, the membership test `key in value`, `+`, and
    truthiness. Each of these raises on some shapes of value; the model returns
    the exception as a `Failure`. */
module Json {
  import opened Wrappers
  import Text

  /** A decoded JSON document. Objects keep their members in document order;
      keys are distinct, as a parser produces them. Numbers are integers. */
  datatype Json =
    | JNull
    | JBool(b: bool)
    | JNum(n: int)
    | JStr(s: string)
    | JArr(items: seq<Json>)
    | JObj(members: seq<(string, Json)>)

  /** The Python exceptions these operations can raise. */
  datatype PyError =
    | JsonDecodeError  // the file exists but does not hold valid JSON
    | AttributeError   // `.get` called on a value that is not a dict
    | TypeError        // iteration, `in` or `+` on operands that do not support it

  /** What a JSON input file holds, as far as `read_json` can tell. */
  datatype JsonFile = Missing | Unparsable | Parsed(doc: Json)

  const EmptyObject: Json := JObj([])

  /** The `{"Results": [...]}` document the scanner stages write. */
  function ResultsDoc(items: seq<Json>): Json {
    JObj([("Results", JArr(items))])
  }

  function Keys(members: seq<(string, Json)>): (ks: seq<string>)
    ensures |ks| == |members|
    ensures forall i :: 0 <= i < |members| ==> ks[i] == members[i].0
  {
    seq(|members|, i requires 0 <= i < |members| => members[i].0)
  }

  /** The value stored under `key`, if any. */
  function Find(members: seq<(string, Json)>, key: string): (r: Option<Json>)
    ensures r.Some? <==> key in Keys(members)
    ensures r.Some? ==> (key, r.value) in members
  {
    if |members| == 0 then None
    else if members[0].0 == key then Some(members[0].1)
    else
      assert Keys(members) == [members[0].0] + Keys(members[1..]);
      Find(members[1..], key)
  }

  /** Python's `value.get(key, default)` for a decoded JSON value. */
  function Get(j: Json, key: string, default: Json): (r: Result<Json, PyError>)
    ensures r.Success? <==> j.JObj?
    ensures r.Failure? ==> r.error == AttributeError
    ensures j.JObj? && key !in Keys(j.members) ==> r.value == default
    ensures j.JObj? && key in Keys(j.members) ==> (key, r.value) in j.members
  {
    if j.JObj? then
      match Find(j.members, key)
      case Some(v) => Success(v)
      case None => Success(default)
    else
      Failure(AttributeError)
  }

  /** The JSON values Python treats as false: `None`, `False`, `0`, `""`,
      `[]` and `{}`. */
  const Falsy: set<Json> := {JNull, JBool(false), JNum(0), JStr(""), JArr([]), JObj([])}

  /** Python truthiness: `not value` holds exactly when this is false. */
  function Truthy(j: Json): (b: bool)
    ensures b <==> j !in Falsy
  {
    match j
    case JNull => false
    case JBool(b) => b
    case JNum(n) => n != 0
    case JStr(s) => s != ""
    case JArr(items) => items != []
    case JObj(members) => members != []
  }

  /** The values a Python `for` loop (or `list.extend`) draws from `j`: the
      elements of a list, the keys of a dict, the characters of a string. */
  function Iterate(j: Json): (r: Result<seq<Json>, PyError>)
    ensures r.Success? <==> (j.JArr? || j.JObj? || j.JStr?)
    ensures r.Failure? ==> r.error == TypeError
    ensures j.JArr? ==> r.value == j.items
    ensures j.JObj? ==> |r.value| == |j.members| && forall i :: 0 <= i < |j.members| ==> r.value[i] == JStr(j.members[i].0)
    ensures j.JStr? ==> |r.value| == |j.s| && forall i :: 0 <= i < |j.s| ==> r.value[i] == JStr([j.s[i]])
  {
    match j
    case JArr(items) => Success(items)
    case JObj(members) => Success(seq(|members|, i requires 0 <= i < |members| => JStr(members[i].0)))
    case JStr(s) => Success(seq(|s|, i requires 0 <= i < |s| => JStr([s[i]])))
    case _ => Failure(TypeError)
  }

  /** The values `key in j` is defined for in Python. */
  predicate IsContainer(j: Json) {
    j.JObj? || j.JArr? || j.JStr?
  }

  /** Python's `key in j` for a string `key`: a dict key, a list element, or a
      substring. Any other value raises `TypeError`. */
  function Contains(j: Json, key: string): (r: Result<bool, PyError>)
    ensures r.Success? <==> IsContainer(j)
    ensures r.Failure? ==> r.error == TypeError
    ensures j.JObj? ==> r.value == (key in Keys(j.members))
    ensures j.JArr? ==> r.value == (JStr(key) in j.items)
    ensures j.JStr? ==> r.value == Text.IsInfix(key, j.s)
  {
    match j
    case JObj(members) => Success(key in Keys(members))
    case JArr(items) => Success(JStr(key) in items)
    case JStr(s) => Success(Text.IsInfix(key, s))
    case _ => Failure(TypeError)
  }

  /** Whether `j` takes part in Python's numeric `+` (`bool` is an `int`). */
  predicate IsNumber(j: Json) {
    j.JNum? || j.JBool?
  }

  function NumberValue(j: Json): int
    requires IsNumber(j)
  {
    if j.JBool? then (if j.b then 1 else 0) else j.n
  }

  /** Python's `a + b`: list concatenation, string concatenation or numeric
      addition; any other pairing raises `TypeError`. */
  function Add(a: Json, b: Json): (r: Result<Json, PyError>)
    ensures a.JArr? && b.JArr? ==> r == Success(JArr(a.items + b.items))
    ensures a.JStr? && b.JStr? ==> r == Success(JStr(a.s + b.s))
    ensures IsNumber(a) && IsNumber(b) ==> r == Success(JNum(NumberValue(a) + NumberValue(b)))
    ensures r.Success? <==> (a.JArr? && b.JArr?) || (a.JStr? && b.JStr?) || (IsNumber(a) && IsNumber(b))
    ensures r.Failure? ==> r.error == TypeError
  {
    if a.JArr? && b.JArr? then Success(JArr(a.items + b.items))
    else if a.JStr? && b.JStr? then Success(JStr(a.s + b.s))
    else if IsNumber(a) && IsNumber(b) then Success(JNum(NumberValue(a) + NumberValue(b)))
    else Failure(TypeError)
  }

  /** `read_json(path)`: a missing file reads as the empty object; a file that
      is present but not valid JSON makes `json.load` raise, which the script
      does not catch. */
  function ReadJson(f: JsonFile): (r: Result<Json, PyError>)
    ensures f.Missing? ==> r == Success(EmptyObject)
    ensures r.Failure? <==> f.Unparsable?
    ensures r.Failure? ==> r.error == JsonDecodeError
    ensures f.Parsed? ==> r.value == f.doc
  {
    match f
    case Missing => Success(EmptyObject)
    case Unparsable => Failure(JsonDecodeError)
    case Parsed(doc) => Success(doc)
  }
}
