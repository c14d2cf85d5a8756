/** Small shared vocabulary: optional values, results, and the "name-keyed registry"
    facts that the endpoint, checker and alerter registries all rely on. */
module Common {

  /** Go's "nil or a value". */
  datatype Option<+T> = None | Some(value: T)

  /** A value or an error, for Go's `(T, error)` pairs whose two halves are exclusive. */
  datatype Result<+T, +E> = Ok(value: T) | Err(error: E)

  /** True iff no element occurs twice in `s`. */
  predicate NoDuplicates<T(==)>(s: seq<T>)
  {
    forall i, j :: 0 <= i < j < |s| ==> s[i] != s[j]
  }

  /** `order` lists every element of `keys` exactly once: one of the orders in
      which Go's `range` may visit a map whose keys are `keys`. */
  predicate IsEnumeration<T(==,!new)>(order: seq<T>, keys: set<T>)
  {
    && NoDuplicates(order)
    && (forall x :: x in order ==> x in keys)
    && (forall x :: x in keys ==> x in order)
  }

  /** The registry map after registering `v` under `name` when the first
      registration of a name wins: an absent name is added, a present one is
      left exactly as it was, and no other name is touched. */
  function FirstWins<V>(m: map<string, V>, name: string, v: V): (r: map<string, V>)
    ensures name in r && r[name] == (if name in m then m[name] else v)
    ensures r.Keys == m.Keys + {name}
    ensures forall n :: n in m && n != name ==> r[n] == m[n]
    ensures name in m ==> r == m
  {
    if name in m then m else m[name := v]
  }

  /** An enumeration of a set has exactly one entry per element. */
  lemma {:induction false} EnumerationSize<T(!new)>(order: seq<T>, keys: set<T>)
    requires IsEnumeration(order, keys)
    ensures |order| == |keys|
    decreases |order|
  {
    if |order| > 0 {
      var rest := keys - {order[0]};
      forall x | x in order[1..] ensures x in rest {
        var j :| 1 <= j < |order| && order[j] == x;
        assert order[0] != order[j];
      }
      assert IsEnumeration(order[1..], rest);
      EnumerationSize(order[1..], rest);
    }
  }
}
