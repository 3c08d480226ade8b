/** Which templates the AArch64 relocator accepts, and why it refuses the others. */
module A64Accepts {
  import opened Bytes
  import opened SafeJit
  import opened Walks
  import opened EncodingA64
  import opened A64Machine
  import opened ArmReloc
  import opened A64Reloc
  import opened ArmLayout
  import opened ArmShape
  import opened ArmWalk
  import opened A64Simulation
  import opened A64Correct

  // ---------- the scan ----------

  /** What becomes of an instruction that decodes: literal loads, ADR and ADRP are passed, a forward branch inside the
      template is followed, any other instruction is passed unless it is in a group numbered below eight. The walk is at
      the thunk asm block when a literal load loads the magic. */
  ghost function InsnFate(insn: Insn, groups: seq<nat>, pc: Address, len: nat, magic: nat, o: nat): Fate {
    match insn
    case LoadLiteral(_, _, offset) => if WrappingAdd(pc + o, offset) == pc + magic then AtBlock else Passes(o + 4)
    case PcRelative(_, _, _) => Passes(o + 4)
    case Jump(offset) =>
      var to := WrappingAdd(pc + o, offset);
      if pc + o + 4 <= to < pc + len then Passes(to - pc) else Stops(UnsupportedInstruction)
    case _ => if exists g | g in groups :: g < 8 then Stops(UnsupportedInstruction) else Passes(o + 4)
  }

  ghost function FateAt(decode: Word -> Insn, cs: Disassembler, t: seq<Byte>, pc: Address, magic: nat, o: nat): Fate {
    if o + 4 > |t| || cs(WordAt(t, o)).None? then Stops(NoThunkAsm)
    else InsnFate(decode(WordAt(t, o)), cs(WordAt(t, o)).value, pc, |t|, magic, o)
  }

  ghost function A64Fates(decode: Word -> Insn, cs: Disassembler, t: seq<Byte>, pc: Address, magic: nat): Fates {
    (o: nat) => FateAt(decode, cs, t, pc, magic, o)
  }

  lemma DecideFate(decode: Word -> Insn, d: Decoded, insn: Insn, groups: seq<nat>, pc: Address, len: nat, magic: nat,
                   o: nat)
    requires pc + len < 0x1_0000_0000_0000_0000 && o + 4 <= len && AgreesOn(decode, d, insn, pc + o)
    ensures TellsAt(Decide(d, HasUnsupportedInsnGroup(groups), pc, len, magic, o),
                     InsnFate(insn, groups, pc, len, magic, o))
  {
    UnsupportedExact(groups);
  }

  lemma VisitFate<E>(m: Machine<E>, cs: Disassembler, recognise: Recogniser, t: seq<Byte>, pc: Address, magic: nat,
                     o: nat)
    requires Recognises(m, recognise) && Template(t, pc, magic) && o <= |t|
    ensures TellsAt(VisitAt(cs, recognise, t, pc, magic, o), FateAt(m.decode, cs, t, pc, magic, o))
  {
    if o + 4 <= |t| && cs(WordAt(t, o)).Some? {
      var w := WordAt(t, o);
      DecideFate(m.decode, recognise(w, pc + o), m.decode(w), cs(w).value, pc, |t|, magic, o);
    }
  }

  lemma VisitorFates<E>(m: Machine<E>, cs: Disassembler, recognise: Recogniser, t: seq<Byte>, pc: Address, magic: nat,
                        visit: Visitor)
    requires Recognises(m, recognise) && Template(t, pc, magic) && visit == VisitorOf(cs, recognise, t, pc, magic)
    ensures Tells(visit, A64Fates(m.decode, cs, t, pc, magic), |t|)
  {
    forall o: nat | o <= |t|
      ensures TellsAt(VisitAt(cs, recognise, t, pc, magic, o), FateAt(m.decode, cs, t, pc, magic, o))
    {
      VisitFate(m, cs, recognise, t, pc, magic, o);
    }
  }

  /** The scan succeeds exactly when the walk arrives at the thunk asm block, and otherwise fails for the reason the
      walk stops. */
  lemma A64ScanExact<E>(m: Machine<E>, cs: Disassembler, t: seq<Byte>, pc: Address, magic: nat, visit: Visitor)
    requires m.IsA64() && Template(t, pc, magic) && visit == VisitorOf(cs, A64Recogniser(), t, pc, magic)
    ensures Scan(visit, |t|, 0).Ok? <==> Arrives(A64Fates(m.decode, cs, t, pc, magic))
    ensures forall e :: Scan(visit, |t|, 0) == Err(e) <==> Fails(A64Fates(m.decode, cs, t, pc, magic), e)
  {
    A64RecogniserAgrees(m);
    VisitorFates(m, cs, A64Recogniser(), t, pc, magic, visit);
    ScanExact(visit, A64Fates(m.decode, cs, t, pc, magic), |t|);
  }

  // ---------- the pool ----------

  /** A load at `at` is accepted for a literal at `here`: as a 32-bit number, the distance is below 2 MiB, or no more
      than that and three bytes below zero. */
  predicate Accepted(at: nat, here: nat) { at <= here && -0x20_0004 < AsI32((here - at) % 0x1_0000_0000) < 0x20_0000 }

  lemma PoolLoadAccepted(reg: nat, distance: nat)
    requires reg < 32
    ensures PoolLoad(reg, distance).Some? <==> -0x20_0004 < AsI32(distance % 0x1_0000_0000) < 0x20_0000
  {
    LdrImmNewReadsBack(Load64, reg, Quotient(AsI32(distance % 0x1_0000_0000), 4));
  }

  /** `encode` makes a load exactly where one is accepted. */
  ghost predicate Encodes(encode: LoadEncoder) {
    forall reg: nat, at: nat, here: nat | reg < 32 :: EncodesAt(encode, reg, at, here)
  }

  predicate EncodesAt(encode: LoadEncoder, reg: nat, at: nat, here: nat) {
    encode(reg, at, here).Some? <==> Accepted(at, here)
  }

  lemma PoolEncodes()
    ensures Encodes(PoolEncoder())
  {
    var load := (reg: nat, distance: nat) => PoolLoad(reg, distance);
    forall reg: nat, d: nat | reg < 32
      ensures LoadAccepted(load, reg, d)
    {
      PoolLoadAccepted(reg, d);
    }
    EncoderEncodes(load);
  }

  predicate LoadAccepted(load: (nat, nat) -> Option<LdrImm>, reg: nat, d: nat) {
    load(reg, d).Some? <==> -0x20_0004 < AsI32(d % 0x1_0000_0000) < 0x20_0000
  }

  lemma EncoderEncodes(load: (nat, nat) -> Option<LdrImm>)
    requires forall reg: nat, d: nat | reg < 32 :: LoadAccepted(load, reg, d)
    ensures Encodes(EncoderOf(load))
  {
    forall reg: nat, at: nat, here: nat | reg < 32
      ensures EncodesAt(EncoderOf(load), reg, at, here)
    {
      if at <= here {
        assert LoadAccepted(load, reg, here - at);
      }
    }
  }

  /** Every literal of the pool, which starts at offset `pool`, is accepted. */
  ghost predicate AllAccepted(fixups: seq<Fixup>, pool: nat) {
    forall i | 0 <= i < |fixups| :: Accepted(fixups[i].at, pool + 8 * i)
  }

  lemma AllEncode(encode: LoadEncoder, fixups: seq<Fixup>, pool: nat)
    requires Encodes(encode) && forall f | f in fixups :: f.reg < 32
    ensures AllAccepted(fixups, pool) <==> forall i | 0 <= i < |fixups| :: LoadEncodes(8, encode, fixups[i], pool, i)
  {
    forall i | 0 <= i < |fixups|
      ensures Accepted(fixups[i].at, pool + 8 * i) <==> LoadEncodes(8, encode, fixups[i], pool, i)
    {
      assert EncodesAt(encode, fixups[i].reg, fixups[i].at, pool + 8 * i);
    }
  }

  /** Once the scan has succeeded, the relocator fails exactly when a literal is not accepted. */
  lemma RelocatedExact(encode: LoadEncoder, visit: Visitor, t: seq<Byte>, magic: nat, plan: Plan, pool: nat)
    requires Encodes(encode) && Advances(visit, |t|) && magic <= |t| && Scan(visit, |t|, 0) == Ok(plan)
    requires Sound(plan, |t|, 32) && pool == |BeforePool(8, EmitAll(Start(t, magic), plan.items))|
    ensures Relocated(visit, 8, encode, t, magic).Ok? <==> AllAccepted(Fixups(plan.items, 0), pool)
    ensures Relocated(visit, 8, encode, t, magic).Err? ==> Relocated(visit, 8, encode, t, magic) == Err(EncodingError)
  {
    var start, fixups := Start(t, magic), Fixups(plan.items, 0);
    var p := EmitAll(start, plan.items);
    EmitAllInBounds(start, plan.items);
    EmitAllSizes(start, plan.items, 0);
    assert p.extra == fixups;
    BackpatchExact(8, encode, BeforePool(8, p), fixups);
    FixupsOf(plan.items, 32, 0);
    AllEncode(encode, fixups, pool);
  }

  /** What is in place of a plan whatever the disassembler reports. */
  lemma PlanSound<E>(m: Machine<E>, cs: Disassembler, recognise: Recogniser, visit: Visitor, t: seq<Byte>, pc: Address,
                     magic: nat, plan: Plan)
    requires Recognises(m, recognise) && Template(t, pc, magic) && visit == VisitorOf(cs, recognise, t, pc, magic)
    requires Scan(visit, |t|, 0) == Ok(plan)
    ensures Sound(plan, |t|, 32)
  {
    PlanVisited(cs, recognise, visit, t, pc, magic, plan);
    PlanAligned(m, cs, recognise, t, pc, magic, plan);
    forall i | 0 <= i < |plan.items|
      ensures plan.items[i].Rewritten() ==> plan.items[i].reg < 32
    {
      ItemRegister(m, cs, recognise, t, pc, magic, plan.items[i]);
    }
  }

  lemma ItemRegister<E>(m: Machine<E>, cs: Disassembler, recognise: Recogniser, t: seq<Byte>, pc: Address, magic: nat,
                        item: Item)
    requires Recognises(m, recognise) && Template(t, pc, magic) && VisitedAs(cs, recognise, t, pc, magic, item)
    ensures item.Rewritten() ==> item.reg < 32
  {
    var w := WordAt(t, item.at);
    assert AgreesOn(m.decode, recognise(w, pc + item.at), m.decode(w), pc + item.at);
  }

  /** The pool of a plan starts where the rest of the new code ends. */
  ghost predicate PoolAccepted(t: seq<Byte>, magic: nat, plan: Plan) {
    Path(plan.items, 0, |t|)
    && AllAccepted(Fixups(plan.items, 0), |BeforePool(8, EmitAll(Start(t, magic), plan.items))|)
  }

  /**
   The relocator accepts a template exactly when the walk from its first instruction arrives at the thunk asm block and
   every literal is accepted at its place in the pool. It refuses one for the reason the walk stops, or with an encoding
   error when the walk arrives. The thunk is the template unchanged exactly when nothing was rewritten.
   */
  lemma A64AcceptanceExact<E>(m: Machine<E>, cs: Disassembler, t: seq<Byte>, pc: Address, magic: nat, visit: Visitor,
                              fates: Fates, r: Result<RelocThunk>)
    requires m.IsA64() && Template(t, pc, magic) && visit == VisitorOf(cs, A64Recogniser(), t, pc, magic)
    requires fates == A64Fates(m.decode, cs, t, pc, magic) && r == Relocated(visit, 8, PoolEncoder(), t, magic)
    ensures Arrives(fates) ==> Scan(visit, |t|, 0).Ok?
    ensures Arrives(fates) ==>
              if PoolAccepted(t, magic, Scan(visit, |t|, 0).value) then r.Ok? else r == Err(EncodingError)
    ensures !Arrives(fates) ==> r.Err? && Fails(fates, r.error)
    ensures r.Ok? ==> (r.value == RelocThunk(t, magic) <==> NoneRewritten(Scan(visit, |t|, 0).value.items))
  {
    A64ScanExact(m, cs, t, pc, magic, visit);
    if Scan(visit, |t|, 0).Ok? {
      A64RecogniserAgrees(m);
      PoolEncodes();
      PlanExact(m, cs, A64Recogniser(), PoolEncoder(), visit, t, pc, magic, Scan(visit, |t|, 0).value);
      if r.Ok? {
        UnchangedExact(8, PoolEncoder(), visit, t, magic, Scan(visit, |t|, 0).value, r.value);
      }
    }
  }

  lemma PlanExact<E>(m: Machine<E>, cs: Disassembler, recognise: Recogniser, encode: LoadEncoder, visit: Visitor,
                     t: seq<Byte>, pc: Address, magic: nat, plan: Plan)
    requires Recognises(m, recognise) && Encodes(encode)
    requires Template(t, pc, magic) && visit == VisitorOf(cs, recognise, t, pc, magic)
    requires Scan(visit, |t|, 0) == Ok(plan)
    ensures Relocated(visit, 8, encode, t, magic).Ok? <==> PoolAccepted(t, magic, plan)
    ensures Relocated(visit, 8, encode, t, magic).Err? ==> Relocated(visit, 8, encode, t, magic) == Err(EncodingError)
  {
    PlanSound(m, cs, recognise, visit, t, pc, magic, plan);
    RelocatedExact(encode, visit, t, magic, plan, |BeforePool(8, EmitAll(Start(t, magic), plan.items))|);
  }
}
