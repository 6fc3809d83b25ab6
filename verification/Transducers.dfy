/** A program that handles one message at a time, over a whole queue of them. */
module Transducers {
  function Run<S, I, O>(step: (S, I) -> (S, seq<O>), s: S, ms: seq<I>): (S, seq<O>)
    decreases |ms|
  {
    if ms == [] then (s, [])
    else
      var (s1, o1) := step(s, ms[0]);
      var (s2, o2) := Run(step, s1, ms[1..]);
      (s2, o1 + o2)
  }

  /** A queue may be cut anywhere. */
  lemma {:induction false} RunAppend<S, I, O>(step: (S, I) -> (S, seq<O>), s: S, a: seq<I>, b: seq<I>)
    ensures Run(step, s, a + b).0 == Run(step, Run(step, s, a).0, b).0
    ensures Run(step, s, a + b).1 == Run(step, s, a).1 + Run(step, Run(step, s, a).0, b).1
    decreases |a|
  {
    if a == [] {
      assert a + b == b;
    } else {
      assert (a + b)[1..] == a[1..] + b;
      RunAppend(step, step(s, a[0]).0, a[1..], b);
    }
  }

  lemma RunOne<S, I, O>(step: (S, I) -> (S, seq<O>), s: S, m: I)
    ensures Run(step, s, [m]) == step(s, m)
  {
    assert [m][1..] == [];
    var (s1, o1) := step(s, m);
    assert o1 + [] == o1;
  }
}
