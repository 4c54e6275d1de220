/**
 * Values of the JSON state file as Python sees them after `json.load`:
 * objects are insertion-ordered dicts, numbers are `int` or `float`.
 * The helpers give Python's `isinstance` checks and truthiness.
 */
module Json {
  import opened Wrappers
  import opened OrderedMap

  datatype Value =
    | Null
    | Bool(b: bool)
    | Int(i: int)
    | Real(r: real)
    | Str(s: string)
    | Arr(items: seq<Value>)
    | Obj(fields: OMap<string, Value>)

  /** `isinstance(v, int)` and the integer it stands for; Python's `bool` is a subclass of `int`. */
  function PyInt(v: Value): (r: Option<int>)
    ensures r.Some? <==> v.Int? || v.Bool?
    ensures v.Int? ==> r == Some(v.i)
    ensures v.Bool? ==> r == Some(if v.b then 1 else 0)
  {
    match v
    case Int(i) => Some(i)
    case Bool(b) => Some(if b then 1 else 0)
    case _ => None
  }

  /** `isinstance(v, (int, float))` and its numeric value. */
  function PyNumber(v: Value): (r: Option<real>)
    ensures r.Some? <==> v.Int? || v.Bool? || v.Real?
    ensures v.Real? ==> r == Some(v.r)
    ensures PyInt(v).Some? ==> r == Some(PyInt(v).value as real)
  {
    match v
    case Real(x) => Some(x)
    case Int(i) => Some(i as real)
    case Bool(b) => Some(if b then 1.0 else 0.0)
    case _ => None
  }

  /** Python's `bool(v)`: `None`, `False`, zero, and empty strings, lists and dicts are false. */
  predicate Truthy(v: Value) {
    match v
    case Null => false
    case Bool(b) => b
    case Int(i) => i != 0
    case Real(x) => x != 0.0
    case Str(s) => |s| > 0
    case Arr(a) => |a| > 0
    case Obj(f) => |f| > 0
  }
}
