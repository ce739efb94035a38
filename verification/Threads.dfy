/** Counting threads, for protocols modelled as steps of numbered threads. */
module Threads {

  /** How many threads are in a state that satisfies p. */
  function Count<T>(ts: seq<T>, p: T -> bool): nat {
    if ts == [] then 0 else Count(ts[..|ts| - 1], p) + (if p(ts[|ts| - 1]) then 1 else 0)
  }

  /** One thread moves. */
  lemma {:induction false} CountUpdate<T>(ts: seq<T>, p: T -> bool, t: nat, to: T)
    requires t < |ts|
    ensures Count(ts[t := to], p) + (if p(ts[t]) then 1 else 0) == Count(ts, p) + (if p(to) then 1 else 0)
  {
    var n := |ts| - 1;
    if t < n {
      assert ts[t := to][..n] == ts[..n][t := to];
      CountUpdate(ts[..n], p, t, to);
    } else {
      assert ts[t := to][..n] == ts[..n];
    }
  }

  lemma {:induction false} CountNone<T>(ts: seq<T>, p: T -> bool)
    ensures Count(ts, p) == 0 <==> forall t :: 0 <= t < |ts| ==> !p(ts[t])
  {
    if ts != [] {
      var n := |ts| - 1;
      CountNone(ts[..n], p);
      assert forall t :: 0 <= t < n ==> ts[..n][t] == ts[t];
    }
  }
}
