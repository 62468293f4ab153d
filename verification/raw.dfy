/** Raw, JSON-like response data as the transport layer hands it over:
    parsed JSON with Python's dict/list/str/number/bool/None values. */
module RawValues {
  import opened Results
  import Ordering

  /** One parsed JSON value. Numbers are opaque payloads; only their
      truthiness (zero or not) matters to the record machinery. */
  datatype Raw =
    | Null
    | Bool(b: bool)
    | Num(n: real)
    | Str(s: string)
    | Obj(fields: map<string, Raw>)
    | Arr(items: seq<Raw>)

  /** Python truthiness: None, False, 0, "", {} and [] are falsy. */
  predicate Truthy(x: Raw) {
    match x
    case Null => false
    case Bool(b) => b
    case Num(n) => n != 0.0
    case Str(s) => |s| > 0
    case Obj(m) => |m| > 0
    case Arr(xs) => |xs| > 0
  }

  /** `m.get(key)`: the value under `key`, or None. */
  function Get(m: map<string, Raw>, key: string): Raw {
    if key in m then m[key] else Null
  }

  /** `m.get(key, default)`. */
  function GetOr(m: map<string, Raw>, key: string, default: Raw): Raw {
    if key in m then m[key] else default
  }

  /** What Python's `for` and `tuple()` see when they iterate a value:
      the items of a list, the one-character strings of a string, the keys
      of a dict, and a TypeError for None, numbers and booleans. */
  function Iterate(x: Raw): (r: Result<seq<Raw>>)
    ensures r.Failure? <==> x.Null? || x.Bool? || x.Num?
    ensures r.Failure? ==> r.error == NotIterable
    ensures x.Arr? ==> r == Success(x.items)
    ensures x.Str? ==> r.Success? && |r.value| == |x.s|
                       && forall i :: 0 <= i < |x.s| ==> r.value[i] == Str([x.s[i]])
    ensures x.Obj? ==> r.Success? && |r.value| == |x.fields|
                       && forall y :: y in r.value <==> y.Str? && y.s in x.fields
  {
    match x
    case Arr(xs) => Success(xs)
    case Str(s) => Success(seq(|s|, i requires 0 <= i < |s| => Str([s[i]])))
    case Obj(m) =>
      var keys := Ordering.SortedKeys(m.Keys);
      var ys := seq(|keys|, i requires 0 <= i < |keys| => Str(keys[i]));
      assert forall y :: y in ys <==> y.Str? && y.s in m by {
        forall y
          ensures y in ys <==> y.Str? && y.s in m
        {
          if y.Str? && y.s in m {
            var i :| 0 <= i < |keys| && keys[i] == y.s;
            assert ys[i] == y;
          }
        }
      }
      Success(ys)
    case _ => Failure(NotIterable)
  }
}
