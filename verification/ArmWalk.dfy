/** What the scan of the Arm relocators makes of a template, in terms of the walk through it. */
module ArmWalk {
  import opened SafeJit
  import opened Walks
  import opened ArmReloc

  /** The decision at every offset is what `fate` says of it. */
  ghost predicate Tells(visit: Visitor, fate: Fates, len: nat)
    requires Covers(visit, len)
  {
    forall o: nat | o <= len :: TellsAt(visit(o), fate(o))
  }

  predicate TellsAt(v: Visit, f: Fate) {
    match v
    case Reached => f.AtBlock?
    case Failed(e) => f == Stops(e)
    case Visited(item) => f == Passes(item.Next())
  }

  /** The scan follows the walk to its end. */
  lemma {:induction false} ScanEnds(visit: Visitor, fate: Fates, len: nat, o: nat) returns (last: nat)
    requires Covers(visit, len) && Tells(visit, fate, len) && o <= len && AdvancesFrom(visit, len, o)
    ensures Ends(fate, o, last)
    ensures match Scan(visit, len, o)
            case Err(e) => fate(last) == Stops(e)
            case Ok(plan) => last == plan.asmAt && fate(last).AtBlock?
    decreases len - o
  {
    assert TellsAt(visit(o), fate(o));
    last := o;
    if visit(o).Visited? {
      last := ScanEnds(visit, fate, len, visit(o).item.Next());
      EndsLater(fate, o, last);
    } else {
      EndsHere(fate, o);
    }
  }

  /** It succeeds exactly when the walk arrives at the thunk asm block, and otherwise fails for the reason the walk
      stops. */
  lemma ScanExact(visit: Visitor, fate: Fates, len: nat)
    requires Advances(visit, len) && Tells(visit, fate, len)
    ensures Scan(visit, len, 0).Ok? <==> Arrives(fate)
    ensures forall e :: Scan(visit, len, 0) == Err(e) <==> Fails(fate, e)
  {
    var last := ScanEnds(visit, fate, len, 0);
    VerdictExact(fate, last, ErrorOf(Scan(visit, len, 0)));
  }
}
