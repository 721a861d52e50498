/**
 The Python values the connector handles: those that `json.loads` produces,
 which are also the values handed to the constructor and to the sanitizer.
 A `dict` is a sequence of key-value pairs in insertion order; keys are
 strings, as in every dict decoded from JSON.
 */
module Values {
  import opened Wrappers

  datatype Value =
    | Null                                  // Python's None, JSON's null
    | Bool(b: bool)
    | Int(i: int)
    | Str(s: string)
    | List(items: seq<Value>)
    | Dict(entries: seq<(string, Value)>)

  /** Python truthiness: exactly None, False, 0 and the empty containers are false. */
  predicate Truthy(v: Value)
    ensures Truthy(v) <==> v !in {Null, Bool(false), Int(0), Str(""), List([]), Dict([])}
  {
    match v
    case Null => false
    case Bool(b) => b
    case Int(i) => i != 0
    case Str(s) => |s| > 0
    case List(xs) => |xs| > 0
    case Dict(es) => |es| > 0
  }

  /** What `str(type(v))` prints, as used in error messages. */
  function TypeName(v: Value): string
  {
    match v
    case Null => "<class 'NoneType'>"
    case Bool(_) => "<class 'bool'>"
    case Int(_) => "<class 'int'>"
    case Str(_) => "<class 'str'>"
    case List(_) => "<class 'list'>"
    case Dict(_) => "<class 'dict'>"
  }

  /** Entry `i` carries key `k`, and no later entry does. */
  predicate IsLastKey(es: seq<(string, Value)>, k: string, i: int)
  {
    0 <= i < |es| && es[i].0 == k && forall j :: i < j < |es| ==> es[j].0 != k
  }

  /**
   The position of key `k` in a dict's entries. When the entries repeat a
   key, the last one wins, as it does when `json.loads` reads a JSON object
   with a duplicated name.
   */
  function FindKey(es: seq<(string, Value)>, k: string): (r: Option<nat>)
    ensures r.Some? ==> IsLastKey(es, k, r.value)
    ensures r.None? <==> forall i :: 0 <= i < |es| ==> es[i].0 != k
    decreases |es|
  {
    if |es| == 0 then None
    else if es[|es| - 1].0 == k then Some(|es| - 1)
    else FindKey(es[..|es| - 1], k)
  }

  /** `d.get(k, default)` on a dict with entries `es`. */
  function DictGet(es: seq<(string, Value)>, k: string, default: Value): (r: Value)
    ensures (forall i :: 0 <= i < |es| ==> es[i].0 != k) ==> r == default
    ensures forall i :: IsLastKey(es, k, i) ==> r == es[i].1
  {
    match FindKey(es, k)
    case Some(i) => es[i].1
    case None => default
  }
}
