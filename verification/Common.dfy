/** Small things several components share. */
module Common {

  datatype Option<T> = None | Some(value: T)

  /** A pointer to node number n, or null. */
  datatype Ref = Null | Node(n: nat)

  /** The pointer to the i-th node of a chain; null at its end. */
  function RefAt(chain: seq<nat>, i: nat): Ref { if i < |chain| then Node(chain[i]) else Null }

  /** In a sequence whose items carry their own position, no item occurs twice. */
  lemma {:induction false} DistinctIds<T>(q: seq<T>, id: T -> nat, i: nat)
    requires i < |q| && forall j :: 0 <= j < |q| ==> id(q[j]) == j
    ensures multiset(q)[q[i]] == 1
  {
    var m := |q| - 1;
    assert q == q[..m] + [q[m]];
    if i < m {
      DistinctIds(q[..m], id, i);
    } else {
      assert forall j :: 0 <= j < m ==> id(q[..m][j]) == j;
      assert q[i] !in q[..m];
    }
  }
}
