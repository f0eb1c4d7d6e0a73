/**
 What several modules share: optional values, thread identifiers, the smaller and the larger of two
 numbers, and lists without repetition, as the intrusive lists of the kernel are used.
 */
module Basics {
  datatype Option<+T> = None | Some(value: T)

  type Tid = nat

  function Min(a: nat, b: nat): nat { if a < b then a else b }

  function Max(a: nat, b: nat): nat { if a < b then b else a }

  ghost predicate NoDuplicates(q: seq<nat>) { forall i, j :: 0 <= i < j < |q| ==> q[i] != q[j] }

  lemma EmptyExact()
    ensures NoDuplicates([])
  {
  }

  /** The list without the first occurrence of `t`. */
  function Drop(s: seq<nat>, t: nat): (r: seq<nat>)
    ensures |r| == if t in s then |s| - 1 else |s|
  {
    if s == [] then [] else if s[0] == t then s[1..] else [s[0]] + Drop(s[1..], t)
  }

  lemma {:induction false} DropExact(q: seq<nat>, t: nat)
    requires NoDuplicates(q)
    ensures NoDuplicates(Drop(q, t)) && forall u :: u in Drop(q, t) <==> u in q && u != t
  {
    if q != [] {
      DropExact(q[1..], t);
      assert q == [q[0]] + q[1..];
      assert q[0] !in q[1..];
    }
  }

  /** What is left after the first occurrence of `t` at `k` is gone. */
  lemma {:induction false} DropAt(q: seq<nat>, t: nat, k: nat)
    requires k < |q| && q[k] == t && forall i :: 0 <= i < k ==> q[i] != t
    ensures |Drop(q, t)| == |q| - 1
    ensures forall i :: 0 <= i < k ==> Drop(q, t)[i] == q[i]
    ensures forall i :: k <= i < |q| - 1 ==> Drop(q, t)[i] == q[i + 1]
  {
    if k > 0 { DropAt(q[1..], t, k - 1); }
  }

  lemma TailExact(q: seq<nat>)
    requires q != [] && NoDuplicates(q)
    ensures NoDuplicates(q[1..]) && forall t :: t in q[1..] <==> t in q && t != q[0]
  {
    assert q == [q[0]] + q[1..];
  }

  lemma AppendExact(q: seq<nat>, t: nat)
    requires NoDuplicates(q) && t !in q
    ensures NoDuplicates(q + [t]) && NoDuplicates([t] + q)
    ensures forall u :: (u in q + [t] <==> u in q || u == t) && (u in [t] + q <==> u in q || u == t)
  {
  }

  lemma InitExact(q: seq<nat>)
    requires q != [] && NoDuplicates(q)
    ensures var n := |q| - 1; NoDuplicates(q[..n]) && forall t :: t in q[..n] <==> t in q && t != q[n]
  {
    assert q == q[..|q| - 1] + [q[|q| - 1]];
  }
}
