/** Walking through a template, from its first byte to the thunk asm block. */
module Walks {
  import opened Bytes
  import opened SafeJit
  import opened Runs

  /** What is at an offset of a template: the thunk asm block, an instruction after which the walk goes on at `next`, or
      something that is refused. */
  datatype Fate = AtBlock | Passes(next: nat) | Stops(error: JitError)

  type Fates = nat -> Fate

  function Walker(fate: Fates): nat -> Option<nat> {
    (o: nat) => match fate(o) case Passes(next) => Some(next) case _ => None
  }

  /** The walk from offset `o` ends at offset `last`. */
  ghost predicate Ends(fate: Fates, o: nat, last: nat) { exists n: nat :: EndsIn(fate, n, o, last) }

  predicate EndsIn(fate: Fates, n: nat, o: nat, last: nat) {
    Run(Walker(fate), n, o) == Some(last) && !fate(last).Passes?
  }

  /** The walk from the start of the template reaches the thunk asm block. */
  ghost predicate Arrives(fate: Fates) { exists last: nat :: ArrivesAt(fate, last) }

  ghost predicate ArrivesAt(fate: Fates, last: nat) { Ends(fate, 0, last) && fate(last).AtBlock? }

  /** It ends at something that is refused with `e`. */
  ghost predicate Fails(fate: Fates, e: JitError) { exists last: nat :: FailsAt(fate, last, e) }

  ghost predicate FailsAt(fate: Fates, last: nat, e: JitError) { Ends(fate, 0, last) && fate(last) == Stops(e) }

  /** The walk from offset `o` passes offset `q` as its `n`th. */
  predicate PassesIn(fate: Fates, n: nat, o: nat, q: nat) { Run(Walker(fate), n, o) == Some(q) && fate(q).Passes? }

  lemma PassesFirst(fate: Fates, o: nat)
    ensures forall q: nat :: PassesIn(fate, 0, o, q) <==> q == o && fate(o).Passes?
    ensures !fate(o).Passes? ==> forall n: nat, q: nat :: !PassesIn(fate, n, o, q)
  {
    if !fate(o).Passes? {
      assert Walker(fate)(o) == None;
    }
  }

  lemma PassesLater(fate: Fates, n: nat, o: nat, q: nat)
    requires fate(o).Passes?
    ensures PassesIn(fate, n + 1, o, q) <==> PassesIn(fate, n, fate(o).next, q)
  {
    assert Walker(fate)(o) == Some(fate(o).next);
  }

  lemma EndsHere(fate: Fates, o: nat)
    requires !fate(o).Passes?
    ensures Ends(fate, o, o)
  {
    assert EndsIn(fate, 0, o, o);
  }

  lemma EndsLater(fate: Fates, o: nat, last: nat)
    requires fate(o).Passes? && Ends(fate, fate(o).next, last)
    ensures Ends(fate, o, last)
  {
    var n: nat :| EndsIn(fate, n, fate(o).next, last);
    assert Walker(fate)(o) == Some(fate(o).next);
    assert EndsIn(fate, n + 1, o, last);
  }

  /** A walk ends at most once. */
  lemma {:induction false} EndsOnce(fate: Fates, m: nat, n: nat, o: nat, a: nat, b: nat)
    requires EndsIn(fate, m, o, a) && EndsIn(fate, n, o, b)
    ensures a == b
    decreases m
  {
    if fate(o).Passes? {
      assert Walker(fate)(o) == Some(fate(o).next);
      EndsOnce(fate, m - 1, n - 1, fate(o).next, a, b);
    } else {
      assert Walker(fate)(o) == None;
    }
  }

  lemma EndsUnique(fate: Fates, o: nat, a: nat, b: nat)
    requires Ends(fate, o, a) && Ends(fate, o, b)
    ensures a == b
  {
    var m: nat :| EndsIn(fate, m, o, a);
    var n: nat :| EndsIn(fate, n, o, b);
    EndsOnce(fate, m, n, o, a, b);
  }

  /** Why something failed, if it did. */
  function ErrorOf<T>(r: Result<T>): Option<JitError> {
    match r case Ok(_) => None case Err(e) => Some(e)
  }

  /** A verdict that is right about where the walk ends is right about whether it arrives, and why not. */
  lemma VerdictExact(fate: Fates, last: nat, error: Option<JitError>)
    requires Ends(fate, 0, last)
    requires match error case None => fate(last).AtBlock? case Some(e) => fate(last) == Stops(e)
    ensures error.None? <==> Arrives(fate)
    ensures forall e :: error == Some(e) <==> Fails(fate, e)
  {
    if error.None? {
      assert ArrivesAt(fate, last);
    } else {
      assert FailsAt(fate, last, error.value);
    }
    forall a: nat | Ends(fate, 0, a)
      ensures a == last
    {
      EndsUnique(fate, 0, a, last);
    }
  }
}
