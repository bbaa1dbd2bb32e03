/** Counting in logs, joining them, and summing over tables. */
module Logs {

  /** How often x occurs in a log. */
  function Count(x: nat, log: seq<nat>): nat {
    if log == [] then 0 else Count(x, log[..|log| - 1]) + if log[|log| - 1] == x then 1 else 0
  }

  lemma {:induction false} CountAppend(x: nat, s: seq<nat>, t: seq<nat>)
    ensures Count(x, s + t) == Count(x, s) + Count(x, t)
    decreases |t|
  {
    if t == [] {
      assert s + t == s;
    } else {
      CountAppend(x, s, t[..|t| - 1]);
      assert (s + t)[..|s + t| - 1] == s + t[..|t| - 1];
    }
  }

  /** The first n of some lists, one after the other. */
  function Flat<X>(parts: seq<seq<X>>, n: nat): seq<X>
    requires n <= |parts|
  {
    if n == 0 then [] else Flat(parts, n - 1) + parts[n - 1]
  }

  /** What holds of nothing and the first stop, and goes on from stop to stop, holds of all parts up to each stop. */
  lemma {:induction false} Chained<X, Y>(leads: (seq<X>, Y) -> bool, stops: seq<Y>, parts: seq<seq<X>>, n: nat)
    requires |stops| == |parts| + 1 && n <= |parts| && leads([], stops[0])
    requires forall i, xs :: 0 <= i < |parts| && leads(xs, stops[i]) ==> leads(xs + parts[i], stops[i + 1])
    ensures leads(Flat(parts, n), stops[n])
  {
    if n > 0 {
      Chained(leads, stops, parts, n - 1);
      assert leads(Flat(parts, n - 1) + parts[n - 1], stops[n - 1 + 1]);
    }
  }

  function Sum(ns: seq<nat>): nat {
    if ns == [] then 0 else Sum(ns[..|ns| - 1]) + ns[|ns| - 1]
  }

  lemma {:induction false} SumUpdate(ns: seq<nat>, i: nat, n: nat)
    requires i < |ns|
    ensures Sum(ns[i := n]) + ns[i] == Sum(ns) + n
    decreases |ns|
  {
    var last := |ns| - 1;
    if i == last {
      assert ns[i := n][..last] == ns[..last];
    } else {
      SumUpdate(ns[..last], i, n);
      assert ns[i := n][..last] == ns[..last][i := n];
    }
  }

  lemma {:induction false} SumZeros(ns: seq<nat>, zeros: seq<nat>)
    requires forall i :: 0 <= i < |zeros| ==> zeros[i] == 0
    ensures Sum(ns + zeros) == Sum(ns)
    decreases |zeros|
  {
    if zeros == [] {
      assert ns + zeros == ns;
    } else {
      SumZeros(ns, zeros[..|zeros| - 1]);
      assert (ns + zeros)[..|ns + zeros| - 1] == ns + zeros[..|zeros| - 1];
    }
  }

  lemma SumOfZeros(ns: seq<nat>)
    requires forall i :: 0 <= i < |ns| ==> ns[i] == 0
    ensures Sum(ns) == 0
  {
    SumZeros([], ns);
    assert [] + ns == ns;
  }

  lemma {:induction false} SumZeroMeansZeros(ns: seq<nat>)
    requires Sum(ns) == 0
    ensures forall i :: 0 <= i < |ns| ==> ns[i] == 0
    decreases |ns|
  {
    if ns != [] {
      SumZeroMeansZeros(ns[..|ns| - 1]);
      forall i | 0 <= i < |ns| - 1 ensures ns[i] == 0 {
        assert ns[..|ns| - 1][i] == ns[i];
      }
    }
  }
}
