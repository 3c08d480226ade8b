/** Which templates the A32 relocator accepts, and why it refuses the others. */
module A32Accepts {
  import opened Bytes
  import opened BitField
  import opened SafeJit
  import opened Walks
  import opened EncodingA32
  import opened ArmReloc
  import opened A32Reloc
  import opened ArmLayout
  import opened ArmShape
  import opened ArmWalk
  import opened A32Scan

  // ---------- the scan ----------

  /** ADD or SUB of an immediate to the program counter, on the condition AL. */
  predicate IsAdr(w: Word) { w / 0x1_0000 == 0xE24F || w / 0x1_0000 == 0xE28F }

  /** The base register of a load is the program counter. */
  predicate FromPc(w: Word) { w / 0x1_0000 % 0x10 == 15 }

  predicate IsLoad(id: InsnId) { id.WordOrByteLoad? || id.ExtraLoad? }

  /** The displacement of a load: twelve bits, or two groups of four. */
  function Displacement(id: InsnId, w: Word): nat {
    if id.ExtraLoad? then 0x10 * (w / 0x100 % 0x10) + w % 0x10 else w % 0x1000
  }

  /** The literal of a load at address `a`: bit 23 tells whether the displacement is added. */
  function Literal(id: InsnId, w: Word, a: Word): int {
    var base, disp := (a + 8) / 4 * 4, Displacement(id, w);
    (if w / 0x80_0000 % 2 == 1 then base + disp else base - disp) % 0x1_0000_0000
  }

  /** What becomes of an instruction that decodes. A branch inside the template is followed. Anything but a branch that
      writes the program counter or is in a group numbered below eight is refused; anything else that does not read the
      program counter is passed. What does read it must do so always, and be an ADR or a load relative to it. The walk
      is at the thunk asm block when such a load loads the magic. */
  ghost function InsnFate(d: Detail, w: Word, pc: Word, len: nat, magic: nat, o: nat): Fate
    requires pc + o < 0x1_0000_0000
  {
    if d.id.Branch? && pc <= d.target < pc + len then Passes(d.target - pc)
    else if !d.id.Branch? && (d.writesPc || exists g | g in d.groups :: g < 8) then Stops(UnsupportedInstruction)
    else if !d.readsPc then Passes(o + 4)
    else if !d.always then Stops(UnsupportedInstruction)
    else if IsAdr(w) then Passes(o + 4)
    else if !IsLoad(d.id) || !FromPc(w) then Stops(UnsupportedInstruction)
    else if Literal(d.id, w, pc + o) == pc + magic then AtBlock
    else Passes(o + 4)
  }

  ghost function FateAt(cs: Disassembler, t: seq<Byte>, pc: Word, magic: nat, o: nat): Fate {
    if o + 4 > |t| || pc + |t| >= 0x1_0000_0000 || cs(WordAt(t, o), pc + o).None? then Stops(NoThunkAsm)
    else InsnFate(cs(WordAt(t, o), pc + o).value, WordAt(t, o), pc, |t|, magic, o)
  }

  ghost function A32Fates(cs: Disassembler, t: seq<Byte>, pc: Word, magic: nat): Fates {
    (o: nat) => FateAt(cs, t, pc, magic, o)
  }

  // ---------- the decoders ----------

  lemma Powers()
    ensures Pow2(0) == 1 && Pow2(1) == 2 && Pow2(2) == 4 && Pow2(4) == 0x10 && Pow2(8) == 0x100 && Pow2(12) == 0x1000
    ensures Pow2(16) == 0x1_0000 && Pow2(20) == 0x10_0000 && Pow2(22) == 0x40_0000 && Pow2(23) == 0x80_0000
    ensures Pow2(24) == 0x100_0000
  {
    LowPowers();
    Pow2Sum(8, 8);
    Pow2Sum(16, 4);
    Pow2Sum(20, 2);
    Pow2Sum(22, 1);
    Pow2Sum(22, 2);
  }

  lemma LowPowers()
    ensures Pow2(0) == 1 && Pow2(1) == 2 && Pow2(2) == 4 && Pow2(4) == 0x10 && Pow2(8) == 0x100 && Pow2(12) == 0x1000
  {
    Pow2Sum(4, 4);
    Pow2Sum(8, 4);
  }

  lemma AdrExact(w: Word)
    ensures Adr.TryFromRaw(w).Some? <==> IsAdr(w)
  {
    Powers();
    GetIsDivMod(ADR_SIGN, w);
    GetIsDivMod(ADR_PC, w);
    GetIsDivMod(ADR_FIXED0, w);
    GetIsDivMod(ADR_FIXED1, w);
    AdrParts(w, w / 0x40_0000 % 4, w / 0x1_0000 % 0x10, w / 0x10_0000 % 4, w / 0x100_0000 % 0x100);
  }

  lemma AdrParts(w: Word, sign: nat, base: nat, fixed0: nat, fixed1: nat)
    requires sign == w / 0x40_0000 % 4 && base == w / 0x1_0000 % 0x10 && fixed0 == w / 0x10_0000 % 4
    requires fixed1 == w / 0x100_0000 % 0x100
    ensures (sign == 1 || sign == 2) && base == 15 && fixed0 == 0 && fixed1 == 0xE2 <==> IsAdr(w)
  {
  }

  lemma LoadFields(w: Word)
    ensures LDR_RN.Get(w) == w / 0x1_0000 % 0x10 && LDR_U.Get(w) == w / 0x80_0000 % 2 && LDR_IMM.Get(w) == w % 0x1000
    ensures EX_IMM_LO.Get(w) == w % 0x10 && EX_IMM_HI.Get(w) == w / 0x100 % 0x10
  {
    Powers();
    GetIsDivMod(LDR_RN, w);
    GetIsDivMod(LDR_U, w);
    GetIsDivMod(LDR_IMM, w);
    GetIsDivMod(EX_IMM_LO, w);
    GetIsDivMod(EX_IMM_HI, w);
  }

  lemma DisplacedIs(a: Word, add: bool, disp: nat, base: int)
    requires base == (a + 8) / 4 * 4
    ensures Displaced(EffectivePc(a), add, disp) == (if add then base + disp else base - disp) % 0x1_0000_0000
  {
    assert EffectivePc(a) == base;
  }

  /** The target of a load, and the fields it is made of. */
  lemma TargetParts(load: LoadImm, w: Word, a: Word) returns (r: Option<Word>, disp: nat)
    requires load.raw == w
    ensures r == load.TargetPc(a)
    ensures r == if w / 0x1_0000 % 0x10 != 15 then None
                 else Some(Displaced(EffectivePc(a), w / 0x80_0000 % 2 == 1, disp))
    ensures disp == if load.WB? then w % 0x1000 else 0x10 * (w / 0x100 % 0x10) + w % 0x10
  {
    LoadFields(w);
    disp := load.Imm();
    r := load.TargetPc(a);
  }

  lemma TargetIs(id: InsnId, w: Word, a: Word, add: bool, disp: nat, base: int, r: Option<Word>)
    requires add == (w / 0x80_0000 % 2 == 1) && disp == Displacement(id, w) && base == (a + 8) / 4 * 4
    requires r == if FromPc(w) then Some((if add then base + disp else base - disp) % 0x1_0000_0000) else None
    ensures r == if FromPc(w) then Some(Literal(id, w, a)) else None
  {
  }

  lemma LoadTarget(load: LoadImm, id: InsnId, w: Word, a: Word) returns (r: Option<Word>)
    requires LoadImm.TryFromRaw(id, w) == Some(load)
    ensures r == load.TargetPc(a) && r == if FromPc(w) then Some(Literal(id, w, a)) else None
  {
    var disp;
    r, disp := TargetParts(load, w, a);
    var add, base := w / 0x80_0000 % 2 == 1, (a + 8) / 4 * 4;
    DisplacedIs(a, add, disp, base);
    TargetIs(id, w, a, add, disp, base, r);
  }

  /** What the decoders make of an instruction, in terms of its bits. */
  ghost predicate Decides(d: Decoded, id: InsnId, w: Word, a: Word) {
    && (d.AnAdr? <==> IsAdr(w))
    && (!IsAdr(w) ==> (d.AnLdr? <==> IsLoad(id)))
    && (d.AnLdr? ==> (d.literal.Some? <==> FromPc(w)) && (FromPc(w) ==> d.literal == Some(Literal(id, w, a))))
  }

  lemma RecogniseDecides(id: InsnId, w: Word, a: Word) returns (d: Decoded)
    ensures d == Recognise(id, w, a) && Decides(d, id, w, a)
  {
    d := RecogniseCases(id, w, a);
    AdrExact(w);
    if !IsAdr(w) && IsLoad(id) {
      var r := LoadTarget(LoadImm.TryFromRaw(id, w).value, id, w, a);
    }
  }

  ghost predicate AllDecide(recognise: Recogniser) {
    forall id: InsnId, w: Word, a: Word :: Decides(recognise(id, w, a), id, w, a)
  }

  lemma RecogniserDecides()
    ensures AllDecide(A32Recogniser())
  {
    forall id: InsnId, w: Word, a: Word
      ensures Decides(A32Recogniser()(id, w, a), id, w, a)
    {
      var d := RecogniseDecides(id, w, a);
    }
  }

  lemma DecideFate(d: Detail, decoded: Decoded, w: Word, pc: Word, len: nat, magic: nat, o: nat)
    requires pc + len < 0x1_0000_0000 && o + 4 <= len && Decides(decoded, d.id, w, pc + o)
    ensures TellsAt(Decide(d, decoded, pc, len, magic, o), InsnFate(d, w, pc, len, magic, o))
  {
    UnsupportedExact(d.groups);
  }

  lemma VisitFate(cs: Disassembler, recognise: Recogniser, t: seq<Byte>, pc: Word, magic: nat, o: nat)
    requires AllDecide(recognise) && Template(t, pc, magic) && o <= |t|
    ensures TellsAt(VisitAt(cs, recognise, t, pc, magic, o), FateAt(cs, t, pc, magic, o))
  {
    if o + 4 <= |t| && cs(WordAt(t, o), pc + o).Some? {
      var w, a := WordAt(t, o), pc + o;
      var d := cs(w, a).value;
      DecideFate(d, recognise(d.id, w, a), w, pc, |t|, magic, o);
    }
  }

  lemma VisitorFates(cs: Disassembler, recognise: Recogniser, t: seq<Byte>, pc: Word, magic: nat, visit: Visitor)
    requires AllDecide(recognise) && Template(t, pc, magic) && visit == VisitorOf(cs, recognise, t, pc, magic)
    ensures Tells(visit, A32Fates(cs, t, pc, magic), |t|)
  {
    forall o: nat | o <= |t|
      ensures TellsAt(VisitAt(cs, recognise, t, pc, magic, o), FateAt(cs, t, pc, magic, o))
    {
      VisitFate(cs, recognise, t, pc, magic, o);
    }
  }

  /** A scan that goes forward succeeds exactly when the walk arrives at the thunk asm block, and otherwise fails for
      the reason the walk stops. */
  lemma A32ScanExact(cs: Disassembler, t: seq<Byte>, pc: Word, magic: nat, visit: Visitor, fates: Fates)
    requires Template(t, pc, magic) && visit == VisitorOf(cs, A32Recogniser(), t, pc, magic) && Advances(visit, |t|)
    requires fates == A32Fates(cs, t, pc, magic)
    ensures Scan(visit, |t|, 0).Ok? <==> Arrives(fates)
    ensures forall e :: Scan(visit, |t|, 0) == Err(e) <==> Fails(fates, e)
  {
    RecogniserDecides();
    VisitorFates(cs, A32Recogniser(), t, pc, magic, visit);
    ScanExact(visit, fates, |t|);
  }

  // ---------- the pool ----------

  /** The literal at `here` is less than 4096 bytes from the program counter a load at `at` sees, as if the new code
      stood at `pc`. */
  predicate Accepted(pc: Word, at: nat, here: nat) { -0x1000 < pc + here - (pc + at + 8) / 4 * 4 < 0x1000 }

  /** Both registers fit in four bits, so nothing but the immediate can fail. */
  lemma RegistersFit(w: Word, reg: nat)
    requires reg < 16
    ensures LDR_RT.TrySet(w, reg).Some? && LDR_RN.TrySet(w, 15).Some?
  {
    assert Pow2(4) == 16;
    TrySetExact(LDR_RT, w, reg);
    TrySetExact(LDR_RN, w, 15);
  }

  lemma NewSucceeds(reg: nat, imm: int)
    requires reg < 16
    ensures LdrImm.New(reg, 15, imm).Some? <==> -0x1000 < imm < 0x1000
  {
    var withImm := LDR_IMM.TrySet(0, Abs(imm));
    ImmFits(imm);
    if withImm.Some? {
      RegistersFit(withImm.value, reg);
      RegistersFit(LDR_RT.TrySet(withImm.value, reg).value, reg);
    }
  }

  lemma ImmFits(imm: int)
    ensures LDR_IMM.TrySet(0, Abs(imm)).Some? <==> -0x1000 < imm < 0x1000
  {
    Powers();
    TrySetExact(LDR_IMM, 0, Abs(imm));
  }

  lemma NewLitSucceeds(pc: nat, reg: nat, target: nat)
    requires reg < 16
    ensures LdrImm.NewLit(pc, reg, target).Some? <==> -0x1000 < target - EffectivePc(pc) < 0x1000
  {
    NewSucceeds(reg, target - EffectivePc(pc));
  }

  lemma AcceptedIs(pc: Word, at: nat, here: nat)
    ensures Accepted(pc, at, here) <==> -0x1000 < pc + here - EffectivePc(pc + at) < 0x1000
  {
  }

  /** `encode` makes a load exactly where one is accepted. */
  ghost predicate Encodes(encode: LoadEncoder, pc: Word) {
    forall reg: nat, at: nat, here: nat | reg < 16 :: EncodesAt(encode, pc, reg, at, here)
  }

  predicate EncodesAt(encode: LoadEncoder, pc: Word, reg: nat, at: nat, here: nat) {
    encode(reg, at, here).Some? <==> Accepted(pc, at, here)
  }

  lemma LiteralEncodes(pc: Word)
    ensures Encodes(LiteralEncoder(pc), pc)
  {
    var load := (reg: nat, at: nat, here: nat) => LiteralLoad(pc, reg, at, here);
    forall reg: nat, at: nat, here: nat | reg < 16
      ensures load(reg, at, here).Some? <==> Accepted(pc, at, here)
    {
      NewLitSucceeds(pc + at, reg, pc + here);
      AcceptedIs(pc, at, here);
    }
    EncoderEncodes(load, pc);
  }

  lemma EncoderEncodes(load: (nat, nat, nat) -> Option<LdrImm>, pc: Word)
    requires forall reg: nat, at: nat, here: nat | reg < 16 :: load(reg, at, here).Some? <==> Accepted(pc, at, here)
    ensures Encodes(EncoderOf(load), pc)
  {
    forall reg: nat, at: nat, here: nat | reg < 16
      ensures EncodesAt(EncoderOf(load), pc, reg, at, here)
    {
      assert load(reg, at, here).Some? <==> Accepted(pc, at, here);
    }
  }

  /** Every literal of the pool, which starts at offset `pool`, is accepted. */
  ghost predicate AllAccepted(pc: Word, fixups: seq<Fixup>, pool: nat) {
    forall i | 0 <= i < |fixups| :: Accepted(pc, fixups[i].at, pool + 4 * i)
  }

  lemma AllEncode(encode: LoadEncoder, pc: Word, fixups: seq<Fixup>, pool: nat)
    requires Encodes(encode, pc) && forall f | f in fixups :: f.reg < 16
    ensures AllAccepted(pc, fixups, pool)
            <==> forall i | 0 <= i < |fixups| :: LoadEncodes(4, encode, fixups[i], pool, i)
  {
    forall i | 0 <= i < |fixups|
      ensures Accepted(pc, fixups[i].at, pool + 4 * i) <==> LoadEncodes(4, encode, fixups[i], pool, i)
    {
      assert EncodesAt(encode, pc, fixups[i].reg, fixups[i].at, pool + 4 * i);
    }
  }

  lemma PlanRegisters(cs: Disassembler, t: seq<Byte>, pc: Word, magic: nat, visit: Visitor, plan: Plan)
    requires Template(t, pc, magic) && visit == VisitorOf(cs, A32Recogniser(), t, pc, magic) && Advances(visit, |t|)
    requires Scan(visit, |t|, 0) == Ok(plan)
    ensures Path(plan.items, 0, |t|) && forall i | 0 <= i < |plan.items| :: RegisterBelow(plan.items[i], 16)
  {
    PlanVisited(cs, A32Recogniser(), visit, t, pc, magic, plan);
    forall i | 0 <= i < |plan.items|
      ensures RegisterBelow(plan.items[i], 16)
    {
      PathItem(plan.items, 0, |t|, i);
      ItemRegister(cs, A32Recogniser(), t, pc, magic, plan.items[i]);
    }
  }

  lemma ItemRegister(cs: Disassembler, recognise: Recogniser, t: seq<Byte>, pc: Word, magic: nat, item: Item)
    requires recognise == A32Recogniser()
    requires Template(t, pc, magic) && VisitedAs(cs, recognise, t, pc, magic, item) && item.at + 4 <= |t|
    ensures RegisterBelow(item, 16)
  {
    var w, a := WordAt(t, item.at), pc + item.at;
    var d, decoded := VisitDecided(cs, recognise, t, pc, magic, item, w, a);
    DecodedRegister(recognise, d, w, a, decoded);
    DecideRegister(d, decoded, pc, |t|, magic, item.at, item);
  }

  lemma DecideRegister(d: Detail, decoded: Decoded, pc: Word, len: nat, magic: nat, o: nat, item: Item)
    requires Decide(d, decoded, pc, len, magic, o) == Visited(item)
    requires decoded.Another? || decoded.reg < 16
    ensures RegisterBelow(item, 16)
  {
  }

  lemma DecodedRegister(recognise: Recogniser, d: Detail, w: Word, a: Word, decoded: Decoded)
    requires recognise == A32Recogniser() && decoded == recognise(d.id, w, a)
    ensures decoded.Another? || decoded.reg < 16
  {
    var r := RecogniseCases(d.id, w, a);
    assert r == decoded;
    Powers();
    GetIsDivMod(ADR_RD, w);
    GetIsDivMod(LDR_RT, w);
  }

  /** Once the scan has succeeded, the relocator fails exactly when a literal is not accepted. */
  lemma PlanExact(encode: LoadEncoder, pc: Word, visit: Visitor, t: seq<Byte>, magic: nat, plan: Plan)
    requires Encodes(encode, pc) && Advances(visit, |t|) && magic <= |t| && Scan(visit, |t|, 0) == Ok(plan)
    requires Path(plan.items, 0, |t|) && forall i | 0 <= i < |plan.items| :: RegisterBelow(plan.items[i], 16)
    ensures Relocated(visit, 4, encode, t, magic).Ok? <==> PoolAccepted(t, pc, magic, plan)
    ensures Relocated(visit, 4, encode, t, magic).Err? ==> Relocated(visit, 4, encode, t, magic) == Err(EncodingError)
  {
    var start, fixups := Start(t, magic), Fixups(plan.items, 0);
    var p := EmitAll(start, plan.items);
    EmitAllInBounds(start, plan.items);
    EmitAllSizes(start, plan.items, 0);
    assert p.extra == fixups;
    BackpatchExact(4, encode, BeforePool(4, p), fixups);
    FixupRegisters(plan.items, 16, 0);
    AllEncode(encode, pc, fixups, |BeforePool(4, p)|);
  }

  /** The pool of a plan starts where the rest of the new code ends. */
  ghost predicate PoolAccepted(t: seq<Byte>, pc: Word, magic: nat, plan: Plan) {
    Path(plan.items, 0, |t|)
    && AllAccepted(pc, Fixups(plan.items, 0), |BeforePool(4, EmitAll(Start(t, magic), plan.items))|)
  }

  /**
   The relocator accepts a template whose scan goes forward exactly when the walk from its first instruction arrives
   at the thunk asm block and every literal is accepted at its place in the pool. It refuses one for the reason the
   walk stops, or with an encoding error when the walk arrives. The thunk is the template unchanged exactly when
   nothing was rewritten.
   */
  lemma A32AcceptanceExact(cs: Disassembler, t: seq<Byte>, pc: Word, magic: nat, visit: Visitor, fates: Fates,
                           r: Result<RelocThunk>)
    requires Template(t, pc, magic) && visit == VisitorOf(cs, A32Recogniser(), t, pc, magic) && Advances(visit, |t|)
    requires fates == A32Fates(cs, t, pc, magic) && r == Relocated(visit, 4, LiteralEncoder(pc), t, magic)
    ensures Arrives(fates) ==> Scan(visit, |t|, 0).Ok?
    ensures Arrives(fates) ==>
              if PoolAccepted(t, pc, magic, Scan(visit, |t|, 0).value) then r.Ok? else r == Err(EncodingError)
    ensures !Arrives(fates) ==> r.Err? && Fails(fates, r.error)
    ensures r.Ok? ==> (r.value == RelocThunk(t, magic) <==> NoneRewritten(Scan(visit, |t|, 0).value.items))
  {
    A32ScanExact(cs, t, pc, magic, visit, fates);
    if Scan(visit, |t|, 0).Ok? {
      var plan := Scan(visit, |t|, 0).value;
      PlanRegisters(cs, t, pc, magic, visit, plan);
      LiteralEncodes(pc);
      PlanExact(LiteralEncoder(pc), pc, visit, t, magic, plan);
      if r.Ok? {
        UnchangedExact(4, LiteralEncoder(pc), visit, t, magic, Scan(visit, |t|, 0).value, r.value);
      }
    }
  }
}
