/** Sequences as the lists and queues of the kernel use them. */
module Sequences {
  predicate Distinct<T(==)>(q: seq<T>) {
    forall i, j :: 0 <= i < j < |q| ==> q[i] != q[j]
  }

  function Without<T>(q: seq<T>, i: nat): seq<T>
    requires i < |q|
  {
    q[..i] + q[i + 1..]
  }

  lemma WithoutMembers<T>(q: seq<T>, i: nat)
    requires Distinct(q) && i < |q|
    ensures Distinct(Without(q, i)) && q[i] !in Without(q, i)
    ensures forall n :: n in q <==> n == q[i] || n in Without(q, i)
  {
    assert q == q[..i] + [q[i]] + q[i + 1..];
  }
}
