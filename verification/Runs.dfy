/** Runs of a state machine: sequences of events, each enabled where it happens. */
module Runs {

  /** `step` is partial: an event is enabled where it is defined. */
  ghost predicate Run<S(!new), E>(step: (S, E) --> S, s: S, evs: seq<E>)
    decreases |evs|, 0
  {
    evs == [] ||
    (Run(step, s, evs[..|evs| - 1]) && step.requires(After(step, s, evs[..|evs| - 1]), evs[|evs| - 1]))
  }

  ghost function After<S(!new), E>(step: (S, E) --> S, s: S, evs: seq<E>): S
    requires Run(step, s, evs)
    decreases |evs|, 1
  {
    if evs == [] then s else step(After(step, s, evs[..|evs| - 1]), evs[|evs| - 1])
  }

  lemma LastStep<S(!new), E>(step: (S, E) --> S, s: S, evs: seq<E>)
    requires Run(step, s, evs) && evs != []
    ensures var n := |evs| - 1;
            && Run(step, s, evs[..n]) && step.requires(After(step, s, evs[..n]), evs[n])
            && After(step, s, evs) == step(After(step, s, evs[..n]), evs[n])
  {
  }

  lemma Single<S(!new), E>(step: (S, E) --> S, s: S, ev: E)
    requires step.requires(s, ev)
    ensures Run(step, s, [ev]) && After(step, s, [ev]) == step(s, ev)
  {
    OneMore(step, s, [], ev);
    assert [] + [ev] == [ev];
  }

  lemma OneMore<S(!new), E>(step: (S, E) --> S, s: S, evs: seq<E>, ev: E)
    requires Run(step, s, evs) && step.requires(After(step, s, evs), ev)
    ensures Run(step, s, evs + [ev]) && After(step, s, evs + [ev]) == step(After(step, s, evs), ev)
  {
    assert (evs + [ev])[..|evs|] == evs;
  }

  lemma {:induction false} Compose<S(!new), E>(step: (S, E) --> S, s: S, a: seq<E>, b: seq<E>)
    requires Run(step, s, a) && Run(step, After(step, s, a), b)
    ensures Run(step, s, a + b) && After(step, s, a + b) == After(step, After(step, s, a), b)
    decreases |b|
  {
    if b == [] {
      assert a + b == a;
    } else {
      var n := |b| - 1;
      LastStep(step, After(step, s, a), b);
      Compose(step, s, a, b[..n]);
      OneMore(step, s, a + b[..n], b[n]);
      assert a + b == a + b[..n] + [b[n]];
    }
  }
}
