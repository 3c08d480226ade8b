/** Running a machine. */
module Runs {
  import opened Bytes

  /** `n` steps of a machine; `None` when one of them faults. */
  function Run<S>(step: S -> Option<S>, n: nat, s: S): Option<S> {
    if n == 0 then Some(s)
    else
      var s' :- step(s);
      Run(step, n - 1, s')
  }

  lemma {:induction false} RunCompose<S>(step: S -> Option<S>, a: nat, b: nat, s: S)
    requires Run(step, a, s).Some?
    ensures Run(step, a + b, s) == Run(step, b, Run(step, a, s).value)
  {
    if a == 0 {
    } else {
      RunCompose(step, a - 1, b, step(s).value);
    }
  }

  lemma {:induction false} RunFaults<S>(step: S -> Option<S>, a: nat, b: nat, s: S)
    requires Run(step, a, s).None?
    ensures Run(step, a + b, s).None?
  {
    if a == 0 {
    } else if step(s).Some? {
      RunFaults(step, a - 1, b, step(s).value);
    }
  }

  lemma RunOne<S>(step: S -> Option<S>, s: S)
    ensures Run(step, 1, s) == step(s)
  {
    if step(s).Some? {
      assert Run(step, 0, step(s).value) == Some(step(s).value);
    }
  }

  lemma RunTwo<S>(step: S -> Option<S>, s: S, s': S)
    requires step(s) == Some(s')
    ensures Run(step, 2, s) == step(s')
  {
    RunOne(step, s');
  }

  /** Two steps, of which the first may fault. */
  lemma RunPair<S>(step: S -> Option<S>, s: S, first: Option<S>, second: Option<S>)
    requires step(s) == first && (first.Some? ==> step(first.value) == second) && (first.None? ==> second.None?)
    ensures Run(step, 2, s) == second
  {
    if first.Some? {
      RunTwo(step, s, first.value);
    }
  }

  lemma RunThen<S>(step: S -> Option<S>, a: nat, b: nat, s: S, s': S, r: Option<S>)
    requires Run(step, a, s) == Some(s') && Run(step, b, s') == r
    ensures Run(step, a + b, s) == r
  {
    RunCompose(step, a, b, s);
  }

  /** `n` items, of which each takes `steps` steps. */
  function Total<I>(steps: I -> nat, items: seq<I>): nat {
    if items == [] then 0 else steps(items[0]) + Total(steps, items[1..])
  }

  /** One step of the first machine and the steps for the same item of the second keep the relation, or both fault. */
  ghost predicate Mirrored<S(!new), I(!new)>(step: S -> Option<S>, steps: I -> nat, tracks: (seq<I>, S, S) -> bool) {
    forall items: seq<I>, s: S, s': S | items != [] && tracks(items, s, s') ::
      match step(s)
      case None => Run(step, steps(items[0]), s').None?
      case Some(o) =>
        Run(step, steps(items[0]), s').Some? && tracks(items[1..], o, Run(step, steps(items[0]), s').value)
  }

  lemma {:induction false} MirroredRun<S(!new), I(!new)>(step: S -> Option<S>, steps: I -> nat,
          tracks: (seq<I>, S, S) -> bool, items: seq<I>, s: S, s': S)
    requires Mirrored(step, steps, tracks) && tracks(items, s, s')
    ensures match Run(step, |items|, s)
            case None => Run(step, Total(steps, items), s').None?
            case Some(o) =>
              Run(step, Total(steps, items), s').Some? && tracks([], o, Run(step, Total(steps, items), s').value)
  {
    if items == [] {
    } else {
      var rest, first := Total(steps, items[1..]), steps(items[0]);
      if step(s).Some? {
        var o, o' := step(s).value, Run(step, first, s').value;
        MirroredRun(step, steps, tracks, items[1..], o, o');
        RunCompose(step, first, rest, s');
        assert Run(step, |items|, s) == Run(step, |items[1..]|, o);
      } else {
        RunFaults(step, first, rest, s');
      }
    }
  }
}
