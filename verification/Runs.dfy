/** Sequences of steps under a step relation. */
module Runs {
  /** `steps` lead from `a` to `b`. */
  ghost predicate Leads<S(!new), T>(next: (S, S, T) -> bool, a: S, steps: seq<T>, b: S)
    decreases |steps|
  {
    if steps == [] then a == b
    else exists m :: next(a, m, steps[0]) && Leads(next, m, steps[1..], b)
  }

  lemma OneStep<S(!new), T>(next: (S, S, T) -> bool, a: S, b: S, step: T)
    requires next(a, b, step)
    ensures Leads(next, a, [step], b)
  {
    assert Leads(next, b, [step][1..], b);
  }

  lemma {:induction false} LeadsOn<S(!new), T>(next: (S, S, T) -> bool, a: S, s: seq<T>, b: S, t: seq<T>, c: S)
    requires Leads(next, a, s, b) && Leads(next, b, t, c)
    ensures Leads(next, a, s + t, c)
    decreases |s|
  {
    if s == [] {
      assert s + t == t;
    } else {
      var m :| next(a, m, s[0]) && Leads(next, m, s[1..], b);
      LeadsOn(next, m, s[1..], b, t, c);
      assert (s + t)[1..] == s[1..] + t;
    }
  }
}
