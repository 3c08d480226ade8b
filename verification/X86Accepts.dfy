/** Which templates the 32-bit x86 relocator accepts, and why it refuses the others. */
module X86Accepts {
  import opened Bytes
  import opened SafeJit
  import opened Walks
  import opened X86Reloc
  import opened X86Correct

  // ---------- the walk ----------

  /** What is at offset `o`. The thunk asm block starts sixteen bytes before the magic. An instruction that continues is
      passed, and so is a CALL to the next instruction together with the POP that must follow; nothing else is. */
  function FateAt(job: Job, o: nat): Fate {
    if o >= |job.t| then Stops(NoThunkAsm)
    else if o + 16 == job.magic then AtBlock
    else
      match job.decode(job.t[o..])
      case None => Stops(InvalidInstruction)
      case Some(insn) =>
        match insn.op
        case PopReg(_) => Passes(o + insn.len)
        case MovImm(_, _) => Passes(o + insn.len)
        case Other(_) => Passes(o + insn.len)
        case Call(rel) => if rel == 0 then AfterCall(job, o + insn.len) else Stops(UnsupportedInstruction)
        case JumpReg(_) => Stops(UnsupportedInstruction)
        case OtherFlow => Stops(UnsupportedInstruction)
  }

  /** What follows the CALL that ends at offset `o`. */
  function AfterCall(job: Job, o: nat): Fate {
    if o > |job.t| || job.decode(job.t[o..]).None? then Stops(UnsupportedInstruction)
    else
      var pop := job.decode(job.t[o..]).value;
      if pop.op.PopReg? then Passes(o + pop.len) else Stops(UnsupportedInstruction)
  }

  function X86Fates(job: Job): Fates { (o: nat) => FateAt(job, o) }

  predicate CallAt(job: Job, o: nat) {
    o < |job.t| && job.decode(job.t[o..]).Some? && job.decode(job.t[o..]).value.op.Call?
  }

  predicate TellsAt(v: Visit, f: Fate) {
    match v
    case Reached => f.AtBlock?
    case Failed(e) => f == Stops(e)
    case Visited(item) => f == Passes(item.At() + item.Len())
  }

  /** A CALL leads to the next instruction exactly when it jumps by zero. */
  lemma JumpsByZero(next: int, rel: Word)
    ensures Wrap32(Wrap32(next) + rel) == Wrap32(next) <==> rel == 0
  {
  }

  lemma BlockAt(magic: nat, o: nat, len: nat)
    requires magic <= len < 0x1_0000_0000 && o <= len
    ensures o == WrappingAdd(magic, THUNK_CODE_OFFSET) <==> o + 16 == magic
  {
  }

  lemma LookTells(job: Job, o: nat)
    requires job.Valid() && o <= |job.t|
    ensures TellsAt(job.Look(o), FateAt(job, o))
    ensures job.Look(o).Visited? ==> (job.Look(o).item.Pair? <==> CallAt(job, o))
  {
    BlockAt(job.magic, o, |job.t|);
    if o < |job.t| && job.decode(job.t[o..]).Some? {
      var insn := job.decode(job.t[o..]).value;
      assert job.Sized(insn, |job.t[o..]|);
      if insn.op.Call? {
        JumpsByZero(job.ip + o + insn.len, insn.op.rel);
        assert job.NextIp(o + insn.len) == Wrap32(job.ip + o + insn.len);
      }
    }
  }

  // ---------- the scan ----------

  /** The scan follows the walk to its end. */
  lemma {:induction false} ScanEnds(job: Job, look: Looks, fates: Fates, o: nat) returns (last: nat)
    requires LooksAt(look, job) && o <= |job.t| && fates == X86Fates(job)
    ensures Ends(fates, o, last)
    ensures match Scan(look, |job.t|, o)
            case Err(e) => fates(last) == Stops(e)
            case Ok(p) => last == p.asmAt && fates(last).AtBlock?
    decreases |job.t| - o
  {
    assert SameLook(look, job, o) && AdvancesAt(look(o), o, |job.t|);
    LookTells(job, o);
    last := o;
    if look(o).Visited? {
      last := ScanEnds(job, look, fates, o + look(o).item.Len());
      EndsLater(fates, o, last);
    } else {
      EndsHere(fates, o);
    }
  }

  /** The walk from offset `o` passes no CALL. */
  ghost predicate CallFree(job: Job, fates: Fates, o: nat) {
    forall n: nat, q: nat | PassesIn(fates, n, o, q) :: !CallAt(job, q)
  }

  /** Without pairs the scan has passed no CALL, and without CALLs it has found no pairs. */
  lemma {:induction false} PairsExact(job: Job, look: Looks, fates: Fates, o: nat)
    requires LooksAt(look, job) && o <= |job.t| && fates == X86Fates(job) && Scan(look, |job.t|, o).Ok?
    ensures CallPops(Scan(look, |job.t|, o).value.items) == [] <==> CallFree(job, fates, o)
    decreases |job.t| - o
  {
    assert SameLook(look, job, o) && AdvancesAt(look(o), o, |job.t|);
    LookTells(job, o);
    PassesFirst(fates, o);
    if look(o).Visited? {
      var next := o + look(o).item.Len();
      PairsExact(job, look, fates, next);
      PairsStep(look, |job.t|, o, next);
      CallFreeStep(job, fates, o, next);
    }
  }

  lemma PairsStep(look: Looks, len: nat, o: nat, next: nat)
    requires Advances(look, len) && o <= next <= len && Scan(look, len, o).Ok?
    requires look(o).Visited? && next == o + look(o).item.Len()
    ensures Scan(look, len, next).Ok?
    ensures CallPops(Scan(look, len, o).value.items) == []
       <==> !look(o).item.Pair? && CallPops(Scan(look, len, next).value.items) == []
  {
    assert AdvancesAt(look(o), o, len);
    var item, rest := look(o).item, Scan(look, len, next).value.items;
    assert ([item] + rest)[1..] == rest;
  }

  lemma CallFreeStep(job: Job, fates: Fates, o: nat, next: nat)
    requires fates(o) == Passes(next)
    ensures CallFree(job, fates, o) <==> !CallAt(job, o) && CallFree(job, fates, next)
  {
    PassesFirst(fates, o);
    assert PassesIn(fates, 0, o, o);
    if CallFree(job, fates, o) {
      forall n: nat, q: nat | PassesIn(fates, n, next, q)
        ensures !CallAt(job, q)
      {
        PassesLater(fates, n, o, q);
      }
    }
    if !CallAt(job, o) && CallFree(job, fates, next) {
      forall n: nat, q: nat | PassesIn(fates, n, o, q)
        ensures !CallAt(job, q)
      {
        if n > 0 {
          PassesLater(fates, n - 1, o, q);
        }
      }
    }
  }

  // ---------- the verdict ----------

  /** Every pair makes the template shorter. */
  lemma UnchangedExact(job: Job, look: Looks, p: Prologue)
    requires job.Valid() && LooksAt(look, job) && Scan(look, |job.t|, 0) == Ok(p) && Path(p.items, 0, p.asmAt)
    ensures Finished(job, p) == RelocThunk(job.t, job.magic) <==> CallPops(p.items) == []
  {
    ScanDecodes(job, look, 0);
    assert SameLook(look, job, p.asmAt);
    BlockAt(job.magic, p.asmAt, |job.t|);
    FinishedShape(job, p);
    SavedAtLeast(job, p.items);
  }

  /**
   The relocator accepts a template exactly when the walk from its first byte arrives at the thunk asm block, and
   refuses it for the reason the walk stops. The thunk is the template with its magic where it was exactly when the
   walk passes no CALL.
   */
  lemma X86AcceptanceExact(job: Job, fates: Fates, r: Result<RelocThunk>)
    requires job.Valid() && fates == X86Fates(job) && r == Relocated(job)
    ensures r.Ok? <==> Arrives(fates)
    ensures forall e :: r == Err(e) <==> Fails(fates, e)
    ensures r.Ok? ==> (r.value == RelocThunk(job.t, job.magic) <==> CallFree(job, fates, 0))
  {
    var look := Looker(job);
    LookerLooks(job);
    var last := ScanEnds(job, look, fates, 0);
    VerdictExact(fates, last, ErrorOf(Scan(look, |job.t|, 0)));
    if r.Ok? {
      ScanPath(look, |job.t|, 0);
      PairsExact(job, look, fates, 0);
      UnchangedExact(job, look, Scan(look, |job.t|, 0).value);
    }
  }
}
