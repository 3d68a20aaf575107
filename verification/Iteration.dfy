/** Repeating a step: what every step keeps holds after any number of them. */
module Iteration {

  function Iterate<S>(f: S -> S, s: S, n: nat): S {
    if n == 0 then s else Iterate(f, f(s), n - 1)
  }

  /** If every step from a good state leads to a good state and relates the views of the two, then so does every
      step of a repetition: the list of views along it has n + 1 entries, each related to the one before. */
  lemma {:induction false} Along<S(!new), V>(f: S -> S, good: S -> bool, view: S -> V, related: (V, V) -> bool, s: S, n: nat)
    returns (vs: seq<V>)
    requires good(s)
    requires forall x :: good(x) ==> good(f(x)) && related(view(x), view(f(x)))
    ensures good(Iterate(f, s, n))
    ensures |vs| == n + 1 && vs[0] == view(s) && vs[n] == view(Iterate(f, s, n))
    ensures forall i :: 0 < i <= n ==> related(vs[i - 1], vs[i])
    decreases n
  {
    if n == 0 {
      vs := [view(s)];
    } else {
      var rest := Along(f, good, view, related, f(s), n - 1);
      vs := [view(s)] + rest;
    }
  }
}
