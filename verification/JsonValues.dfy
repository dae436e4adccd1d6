/**
 JSON documents as Python holds them after `json.loads`: a dict is a finite
 map, so two dicts are equal whatever the order their members were written in.
 Numbers are integers, the only numbers these documents carry.
 */
module JsonValues {

  datatype Json =
    | Null
    | Bool(b: bool)
    | Int(n: int)
    | Str(s: string)
    | Arr(items: seq<Json>)
    | Obj(members: map<string, Json>)

  type Dict = map<string, Json>

  /** `d.get(key)`: null when the key is absent. */
  function Get(d: Dict, key: string): Json {
    if key in d then d[key] else Null
  }

  /** The number that Python takes a value for in a comparison: `False == 0` and `True == 1`. */
  function PythonNumber(v: Json): int
    requires v.Int? || v.Bool?
  {
    match v
    case Int(n) => n
    case Bool(b) => if b then 1 else 0
  }

  /** Python's `v == w` for values that are not containers. */
  predicate PythonEqual(v: Json, w: Json) {
    if (v.Int? || v.Bool?) && (w.Int? || w.Bool?) then PythonNumber(v) == PythonNumber(w) else v == w
  }

  function Strings(xs: seq<string>): (r: seq<Json>)
    ensures |r| == |xs|
    ensures forall i :: 0 <= i < |xs| ==> r[i] == Str(xs[i])
  {
    seq(|xs|, i requires 0 <= i < |xs| => Str(xs[i]))
  }
}
