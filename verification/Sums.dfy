/** Totals over the entries of a table, and how updating one entry changes them. */
module Sums {

  function Total(ns: seq<nat>): nat {
    if ns == [] then 0 else ns[0] + Total(ns[1..])
  }

  lemma {:induction false} TotalUpdate(ns: seq<nat>, i: nat, n: nat)
    requires i < |ns|
    ensures Total(ns[i := n]) + ns[i] == Total(ns) + n
  {
    if i == 0 {
      assert ns[0 := n][1..] == ns[1..];
    } else {
      assert ns[i := n][1..] == ns[1..][i - 1 := n];
      TotalUpdate(ns[1..], i - 1, n);
    }
  }

  lemma {:induction false} TotalMonotone(ms: seq<nat>, ns: seq<nat>)
    requires |ms| == |ns| && forall i | 0 <= i < |ns| :: ms[i] <= ns[i]
    ensures Total(ms) <= Total(ns)
  {
    if ns != [] {
      TotalMonotone(ms[1..], ns[1..]);
    }
  }

  lemma {:induction false} TotalZero(ns: seq<nat>)
    requires forall i | 0 <= i < |ns| :: ns[i] == 0
    ensures Total(ns) == 0
  {
    if ns != [] {
      TotalZero(ns[1..]);
    }
  }

  ghost function Gather<T>(ms: seq<multiset<T>>): multiset<T> {
    if ms == [] then multiset{} else ms[0] + Gather(ms[1..])
  }

  lemma {:induction false} GatherUpdate<T>(ms: seq<multiset<T>>, i: nat, m: multiset<T>)
    requires i < |ms|
    ensures Gather(ms[i := m]) + ms[i] == Gather(ms) + m
  {
    if i == 0 {
      assert ms[0 := m][1..] == ms[1..];
    } else {
      var rest := ms[1..];
      assert ms[i := m][1..] == rest[i - 1 := m];
      GatherUpdate(rest, i - 1, m);
      assert Gather(ms[i := m]) + ms[i] == ms[0] + (Gather(rest[i - 1 := m]) + rest[i - 1]);
    }
  }
}
