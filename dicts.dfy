/** Python dicts filled by successive `d[k] = v` assignments. */
module Dicts {

  /** The dict obtained by assigning every pair of `pairs`, in order, to an empty dict. */
  function Assign<K, V>(pairs: seq<(K, V)>): (m: map<K, V>)
    ensures m.Keys == set i | 0 <= i < |pairs| :: pairs[i].0
  {
    if pairs == [] then map[]
    else
      var m := Assign(pairs[..|pairs| - 1]);
      var last := pairs[|pairs| - 1];
      assert forall i :: 0 <= i < |pairs| - 1 ==> pairs[..|pairs| - 1][i] == pairs[i];
      m[last.0 := last.1]
  }

  /** The position of the last pair whose key is `k`, or -1. */
  function LastIndex<K(==), V>(pairs: seq<(K, V)>, k: K): (r: int)
    ensures -1 <= r < |pairs|
    ensures r >= 0 ==> pairs[r].0 == k
    ensures forall j :: r < j < |pairs| ==> pairs[j].0 != k
  {
    if pairs == [] then -1
    else if pairs[|pairs| - 1].0 == k then |pairs| - 1
    else LastIndex(pairs[..|pairs| - 1], k)
  }

  /** A later assignment to the same key overwrites an earlier one. */
  lemma {:induction false} LastAssignmentWins<K, V>(pairs: seq<(K, V)>, k: K)
    requires k in Assign(pairs)
    ensures 0 <= LastIndex(pairs, k) && Assign(pairs)[k] == pairs[LastIndex(pairs, k)].1
  {
    var n := |pairs|;
    if pairs[n - 1].0 != k {
      LastAssignmentWins(pairs[..n - 1], k);
    }
  }

  lemma AssignSnoc<K, V>(pairs: seq<(K, V)>, p: (K, V))
    ensures Assign(pairs + [p]) == Assign(pairs)[p.0 := p.1]
  {
    assert (pairs + [p])[..|pairs|] == pairs;
  }
}
