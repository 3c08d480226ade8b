/** Which templates the x86-64 relocator accepts, and why it refuses the others. */
module X64Accepts {
  import opened Bytes
  import opened SafeJit
  import opened Walks
  import opened X64Machine
  import opened X64Reloc
  import opened X64Liveness

  // ---------- the scan ----------

  /** What is at offset `o`: nothing, or what does not decode; an instruction that neither continues nor branches on the
      flags; one whose operand is the magic; or any other. */
  function FateAt(job: Job, o: nat): Fate {
    if o >= |job.t| then Stops(NoThunkAsm)
    else
      match job.decode(job.t[o..])
      case None => Stops(InvalidInstruction)
      case Some(insn) =>
        if insn.flow.OtherFlow? then Stops(UnsupportedInstruction)
        else if insn.mem.IpRel? && (o + insn.len + insn.mem.disp) % 0x1_0000_0000_0000_0000 == job.magic then AtBlock
        else Passes(o + insn.len)
  }

  function X64Fates(job: Job): Fates { (o: nat) => FateAt(job, o) }

  /** An address relative to the instruction pointer, taken relative to the template, is relative to the offset. */
  lemma WrapsBack(ip: nat, end: nat, disp: int)
    ensures WrappingAdd(WrappingAdd(ip + end, disp), 0 - ip) == (end + disp) % 0x1_0000_0000_0000_0000
  {
    var m := 0x1_0000_0000_0000_0000;
    assert (ip + end + disp) % m == ip + end + disp - m * ((ip + end + disp) / m);
  }

  lemma AtMagicIs(job: Job, e: Entry)
    ensures job.AtMagic(e)
       <==> e.insn.mem.IpRel? && (e.at + e.insn.len + e.insn.mem.disp) % 0x1_0000_0000_0000_0000 == job.magic
  {
    if e.insn.mem.IpRel? {
      WrapsBack(job.ip, e.at + e.insn.len, e.insn.mem.disp);
      assert job.ip + e.at + e.insn.len == job.ip + (e.at + e.insn.len);
    }
  }

  predicate TellsAt(v: Visit, f: Fate) {
    match v
    case Reached(_) => f.AtBlock?
    case Failed(e) => f == Stops(e)
    case Visited(e) => f == Passes(e.at + e.insn.len)
  }

  lemma LookTells(job: Job, o: nat)
    requires o <= |job.t|
    ensures TellsAt(job.Look(o), FateAt(job, o))
  {
    if o < |job.t| && job.decode(job.t[o..]).Some? {
      AtMagicIs(job, Entry(job.decode(job.t[o..]).value, o));
    }
  }

  ghost predicate Tells(look: Looks, fate: Fates, len: nat)
    requires Advances(look, len)
  {
    forall o: nat | o <= len :: TellsAt(look(o), fate(o))
  }

  /** The scan follows the walk to its end. */
  lemma {:induction false} ScanEnds(look: Looks, fate: Fates, len: nat, o: nat) returns (last: nat)
    requires Advances(look, len) && Tells(look, fate, len) && o <= len
    ensures Ends(fate, o, last)
    ensures match Scan(look, len, o)
            case Err(e) => fate(last) == Stops(e)
            case Ok(p) => last == p.asmAt && fate(last).AtBlock?
    decreases len - o
  {
    assert TellsAt(look(o), fate(o)) && AdvancesAt(look(o), o, len);
    last := o;
    if look(o).Visited? {
      last := ScanEnds(look, fate, len, o + look(o).entry.insn.len);
      EndsLater(fate, o, last);
    } else {
      EndsHere(fate, o);
    }
  }

  /** The scan succeeds exactly when the walk arrives at the thunk asm block, and otherwise fails for the reason the
      walk stops. */
  lemma X64ScanExact(job: Job, look: Looks, fates: Fates)
    requires Advances(look, |job.t|) && forall o: nat | o <= |job.t| :: look(o) == job.Look(o)
    requires fates == X64Fates(job)
    ensures Scan(look, |job.t|, 0).Ok? <==> Arrives(fates)
    ensures forall e :: Scan(look, |job.t|, 0) == Err(e) <==> Fails(fates, e)
  {
    forall o: nat | o <= |job.t|
      ensures TellsAt(look(o), fates(o))
    {
      LookTells(job, o);
    }
    var last := ScanEnds(look, fates, |job.t|, 0);
    VerdictExact(fates, last, ErrorOf(Scan(look, |job.t|, 0)));
  }

  // ---------- the prologue ----------

  /** `p` is what the walk from offset `o` passes on its way to the thunk asm block. */
  predicate Walked(job: Job, p: Prologue, o: nat) {
    && p.Off(0) == o && FateAt(job, p.asmAt).AtBlock? && job.decode(job.t[p.asmAt..]) == Some(p.asm)
    && forall i | 0 <= i < |p.entries| :: WalkedAt(job, p, i)
  }

  predicate WalkedAt(job: Job, p: Prologue, i: nat)
    requires i < |p.entries|
  {
    && FateAt(job, p.entries[i].at) == Passes(p.Off(i + 1))
    && job.decode(job.t[p.entries[i].at..]) == Some(p.entries[i].insn)
  }

  lemma ScannedWalked(job: Job, p: Prologue)
    requires job.Valid() && job.Scanned(p, 0)
    ensures Walked(job, p, 0)
  {
    AtMagicIs(job, Entry(p.asm, p.asmAt));
    forall i | 0 <= i < |p.entries|
      ensures WalkedAt(job, p, i)
    {
      assert job.ScannedAt(p, i);
      AtMagicIs(job, p.entries[i]);
    }
  }

  /** The scan finds what the walk passes. */
  lemma {:induction false} WalkedScan(job: Job, look: Looks, p: Prologue, o: nat)
    requires Advances(look, |job.t|) && forall o: nat | o <= |job.t| :: look(o) == job.Look(o)
    requires Walked(job, p, o)
    ensures o <= |job.t| && Scan(look, |job.t|, o) == Ok(p)
    decreases |p.entries|
  {
    if p.entries == [] {
      LookTells(job, o);
    } else {
      var e, rest := p.entries[0], p.(entries := p.entries[1..]);
      assert WalkedAt(job, p, 0);
      LookTells(job, o);
      forall i | 0 <= i < |rest.entries|
        ensures WalkedAt(job, rest, i)
      {
        assert WalkedAt(job, p, i + 1);
      }
      WalkedScan(job, look, rest, o + e.insn.len);
      assert [e] + rest.entries == p.entries;
    }
  }

  // ---------- branches ----------

  /** Instruction `i`, or the first of the thunk asm block, branches past the start of that block. */
  predicate LeadsOut(p: Prologue, i: nat)
    requires i <= |p.entries|
  {
    if i == |p.entries| then JumpsPast(p.asm, p.asmAt, p.asmAt)
    else JumpsPast(p.entries[i].insn, p.entries[i].at, p.asmAt)
  }

  predicate JumpsPast(insn: Insn, at: nat, bound: nat) {
    insn.flow.Jcc? && (at + insn.len + insn.flow.rel) % 0x1_0000_0000_0000_0000 > bound
  }

  lemma JccOffsetIs(job: Job, e: Entry)
    requires e.insn.flow.Jcc?
    ensures job.JccOffset(e) == (e.at + e.insn.len + e.insn.flow.rel) % 0x1_0000_0000_0000_0000
  {
    WrapsBack(job.ip, e.at + e.insn.len, e.insn.flow.rel);
    assert job.ip + e.at + e.insn.len == job.ip + (e.at + e.insn.len);
  }

  lemma {:induction false} MaxJccExact(job: Job, entries: seq<Entry>, bound: nat)
    ensures job.MaxJcc(entries) > bound
       <==> exists i | 0 <= i < |entries| :: JumpsPast(entries[i].insn, entries[i].at, bound)
    decreases |entries|
  {
    if entries != [] {
      var n := |entries| - 1;
      var rest, e := entries[..n], entries[n];
      MaxJccExact(job, rest, bound);
      if e.insn.flow.Jcc? {
        JccOffsetIs(job, e);
      }
      assert forall i | 0 <= i < n :: rest[i] == entries[i];
    }
  }

  lemma BranchesExact(job: Job, p: Prologue)
    ensures job.HighestJcc(p) > p.asmAt <==> exists i | 0 <= i <= |p.entries| :: LeadsOut(p, i)
  {
    var all := p.entries + [Entry(p.asm, p.asmAt)];
    MaxJccExact(job, all, p.asmAt);
    forall i | 0 <= i <= |p.entries|
      ensures LeadsOut(p, i) <==> JumpsPast(all[i].insn, all[i].at, p.asmAt)
    {
    }
  }

  // ---------- registers ----------

  lemma {:induction false} NumRelocExact(entries: seq<Entry>)
    ensures NumReloc(entries) == 0 <==> forall i | 0 <= i < |entries| :: !entries[i].insn.mem.IpRel?
    decreases |entries|
  {
    if entries != [] {
      var n := |entries| - 1;
      NumRelocExact(entries[..n]);
      assert forall i | 0 <= i < n :: entries[..n][i] == entries[i];
    }
  }

  /** The register with the lowest number that is dead before instruction `i` and not overlooked. */
  ghost predicate Picks(p: Prologue, i: nat, r: Gpr)
    requires i <= |p.entries|
  {
    Dead(p, i, r) && !Overlooked(p, i, r) && forall q: Gpr | q < r && Dead(p, i, q) :: Overlooked(p, i, q)
  }

  /** Every register that is dead before instruction `i` is overlooked. */
  ghost predicate NonePicked(p: Prologue, i: nat)
    requires i <= |p.entries|
  {
    forall r: Gpr | Dead(p, i, r) :: Overlooked(p, i, r)
  }

  lemma ChosenPicks(p: Prologue, i: nat)
    requires p.asm.op0 < 16 && i < |p.entries|
    ensures p.Chosen(i).None? <==> NonePicked(p, i)
    ensures p.Chosen(i).Some? ==> Picks(p, i, p.Chosen(i).value)
  {
    forall r: Gpr
      ensures Available(p.Table(i)[r], i) <==> Dead(p, i, r) && !Overlooked(p, i, r)
    {
      AvailableExact(p, i, r);
    }
  }

  /** The encoder fails on the instruction with the register picked for it as its operand. */
  ghost predicate EncodingFails(job: Job, p: Prologue, i: nat)
    requires i < |p.entries|
  {
    exists r: Gpr :: Picks(p, i, r) && job.encode(p.entries[i].insn.(mem := AtRegister(r))).None?
  }

  lemma PicksOnce(p: Prologue, i: nat, q: Gpr, r: Gpr)
    requires i <= |p.entries| && Picks(p, i, q) && Picks(p, i, r)
    ensures q == r
  {
  }

  lemma ServedExact(p: Prologue)
    requires p.asm.op0 < 16
    ensures p.Served(p.Choices())
       <==> forall i | 0 <= i < |p.entries| && p.entries[i].insn.mem.IpRel? :: !NonePicked(p, i)
  {
    forall i | 0 <= i < |p.entries|
      ensures p.ServedAt(p.Choices(), i) <==> (p.entries[i].insn.mem.IpRel? ==> !NonePicked(p, i))
    {
      ChosenPicks(p, i);
    }
  }

  // ---------- encoding ----------

  lemma {:induction false} CodeExact(job: Job, entries: seq<Entry>, rs: seq<Option<Gpr>>, i: nat)
    requires i <= |entries| == |rs|
    ensures job.Code(entries, rs, i).Some? <==> forall j | i <= j < |entries| :: job.Piece(entries[j], rs[j]).Some?
    decreases |entries| - i
  {
    if i < |entries| {
      CodeExact(job, entries, rs, i + 1);
    }
  }

  lemma PieceExact(job: Job, p: Prologue, i: nat)
    requires job.Scanned(p, 0) && p.asm.op0 < 16 && i < |p.entries| && p.Served(p.Choices())
    ensures job.Piece(p.entries[i], p.Choices()[i]).Some?
       <==> !(p.entries[i].insn.mem.IpRel? && EncodingFails(job, p, i))
  {
    assert job.ScannedAt(p, i) && p.ServedAt(p.Choices(), i);
    if p.entries[i].NeedsReloc() {
      ChosenPicks(p, i);
      var c := p.Chosen(i).value;
      forall r: Gpr | Picks(p, i, r)
        ensures r == c
      {
        PicksOnce(p, i, c, r);
      }
    }
  }

  lemma EncodedExact(job: Job, p: Prologue)
    requires job.Scanned(p, 0) && p.asm.op0 < 16 && p.Served(p.Choices())
    ensures job.Code(p.entries, p.Choices(), 0).Some?
       <==> forall i | 0 <= i < |p.entries| && p.entries[i].insn.mem.IpRel? :: !EncodingFails(job, p, i)
  {
    CodeExact(job, p.entries, p.Choices(), 0);
    forall i | 0 <= i < |p.entries|
      ensures job.Piece(p.entries[i], p.Choices()[i]).Some?
         <==> (p.entries[i].insn.mem.IpRel? ==> !EncodingFails(job, p, i))
    {
      PieceExact(job, p, i);
    }
  }

  // ---------- the verdict ----------

  /** What comes of a prologue, in the order of the checks: no branch leads past the start of the thunk asm block; a
      template without an operand relative to the instruction pointer is the thunk as it is; the closure register is
      looked up in a table of sixteen; every such operand needs a register; and every one must encode. */
  ghost predicate Verdict(job: Job, p: Prologue, r: Result<RelocThunk>) {
    if exists i | 0 <= i <= |p.entries| :: LeadsOut(p, i) then r == Err(UnsupportedControlFlow)
    else if forall i | 0 <= i < |p.entries| :: !p.entries[i].insn.mem.IpRel? then r == Ok(RelocThunk(job.t, job.magic))
    else if p.asm.op0 >= 16 then r == Err(IndexOutOfBounds)
    else if exists i | 0 <= i < |p.entries| && p.entries[i].insn.mem.IpRel? :: NonePicked(p, i) then
      r == Err(NoAvailableRegister)
    else if exists i | 0 <= i < |p.entries| && p.entries[i].insn.mem.IpRel? :: EncodingFails(job, p, i) then
      r == Err(EncodingError)
    else r.Ok?
  }

  lemma RelocatedVerdict(job: Job, p: Prologue)
    requires job.Valid() && Scan(job.Looker(), |job.t|, 0) == Ok(p) && job.Scanned(p, 0)
    ensures Verdict(job, p, job.Relocated())
  {
    BranchesExact(job, p);
    NumRelocExact(p.entries);
    if p.asm.op0 < 16 {
      ServedExact(p);
      if p.Served(p.Choices()) {
        EncodedExact(job, p);
      }
    }
  }

  /**
   The relocator refuses a template from which the walk does not arrive at the thunk asm block, for the reason it stops.
   Otherwise there is exactly one prologue the walk passes, and the verdict on it is the one above.
   */
  lemma X64AcceptanceExact(job: Job, fates: Fates, r: Result<RelocThunk>)
    requires job.Valid() && fates == X64Fates(job) && r == job.Relocated()
    ensures Arrives(fates) <==> exists p :: Walked(job, p, 0)
    ensures !Arrives(fates) ==> r.Err? && Fails(fates, r.error)
    ensures forall p, q | Walked(job, p, 0) && Walked(job, q, 0) :: p == q
    ensures forall p | Walked(job, p, 0) :: Verdict(job, p, r)
  {
    var look := job.Looker();
    X64ScanExact(job, look, fates);
    forall p | Walked(job, p, 0)
      ensures Scan(look, |job.t|, 0) == Ok(p) && Verdict(job, p, r)
    {
      WalkedScan(job, look, p, 0);
      ScanScanned(job, look, 0);
      RelocatedVerdict(job, p);
    }
    if Scan(look, |job.t|, 0).Ok? {
      ScanScanned(job, look, 0);
      ScannedWalked(job, Scan(look, |job.t|, 0).value);
    }
  }
}
