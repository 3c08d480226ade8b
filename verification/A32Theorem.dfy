/** The results for the A32 relocator's own decoders and encoders, on the thunk that `AllocatedThunk::new` places. */
module A32Theorem {
  import opened Bytes
  import opened Runs
  import opened SafeJit
  import opened Placement
  import opened ArmReloc
  import opened ArmLayout
  import opened ArmShape
  import opened EncodingA32
  import opened A32Machine
  import opened A32Reloc
  import opened A32Simulation
  import opened A32Correct
  import opened A32Scan
  import opened A32Pool
  import opened A32EndToEnd

  // ---------- the prologue ----------

  /** `thunk` is what relocating the template `t`, mapped at `pc`, makes of it by way of `plan`; the disassembler is
      truthful about every instruction visited, and the relocator's assumptions hold of it. */
  ghost predicate RelocatedBy<E(!new)>(m: Machine<E>, cs: Disassembler, recognise: Recogniser,
                                       named: (InsnId, Word) -> bool, visit: Visitor, encode: LoadEncoder,
                                       t: seq<Byte>, pc: Word, magic: nat, plan: Plan, thunk: RelocThunk)
  {
    && Template(t, pc, magic) && m.Holds(pc, t)
    && visit == VisitorOf(cs, recognise, t, pc, magic) && Advances(visit, |t|) && Scan(visit, |t|, 0) == Ok(plan)
    && Reports(m, recognise, named, cs, t, pc, plan.items) && AllUnchecked(m.decode, cs, t, pc, plan.items)
    && Relocated(visit, 4, encode, t, magic) == Ok(thunk)
  }

  /** Decoders and an encoder that agree with the machine. */
  ghost predicate Trusted<E(!new)>(m: Machine<E>, recognise: Recogniser, named: (InsnId, Word) -> bool,
                                   encode: LoadEncoder)
  {
    Recognises(m, recognise, named) && LiteralLoads(m.decode, encode)
  }

  lemma A32Trusted<E(!new)>(m: Machine<E>, pc: Word)
    requires m.IsA32() && pc % 4 == 0
    ensures Trusted(m, A32Recogniser(), A32Named(), LiteralEncoder(pc))
  {
    A32RecogniserAgrees(m);
    LiteralEncoderLoads(m, pc);
  }

  lemma ScannedLaidOut<E(!new)>(m: Machine<E>, cs: Disassembler, recognise: Recogniser, named: (InsnId, Word) -> bool,
                                encode: LoadEncoder, visit: Visitor, t: seq<Byte>, pc: Word, magic: nat, plan: Plan,
                                thunk: RelocThunk, k: nat, pool: nat)
    requires Trusted(m, recognise, named, encode)
    requires RelocatedBy(m, cs, recognise, named, visit, encode, t, pc, magic, plan, thunk)
    requires k == 4 * Loads(plan.items) && pool == |t| + k
    ensures LaidOut(m.decode, t, plan, thunk.thunk, k, pool) && thunk.magicOffset == magic + k
    ensures Sound(plan, |t|, 15) && plan.asmAt % 4 == 0
    ensures forall i | 0 <= i < |plan.items| :: Understood(m, t, pc, plan.items[i])
  {
    PlanUnderstood(m, cs, recognise, named, visit, t, pc, magic, plan);
    RelocatedLaidOut(m.decode, encode, visit, t, magic, plan, k, pool, thunk);
  }

  lemma ScannedSimulates<E(!new)>(m: Machine<E>, cs: Disassembler, recognise: Recogniser, named: (InsnId, Word) -> bool,
                                  encode: LoadEncoder, visit: Visitor, t: seq<Byte>, pc: Word, magic: nat, plan: Plan,
                                  thunk: RelocThunk, base: Word, end: Word, n: nat, mid: Word)
    requires Trusted(m, recognise, named, encode)
    requires RelocatedBy(m, cs, recognise, named, visit, encode, t, pc, magic, plan, thunk)
    requires m.Holds(base, thunk.thunk)
    requires end == pc + plan.asmAt && n == Total(Steps, plan.items) && mid == base + plan.asmAt + 4 * Loads(plan.items)
    ensures Simulates(m.Step, pc, plan.items, end, base, n, mid)
  {
    var k := 4 * Loads(plan.items);
    var pool := |t| + k;
    ScannedLaidOut(m, cs, recognise, named, encode, visit, t, pc, magic, plan, thunk, k, pool);
    PlacedSimulates(m, t, pc, plan, thunk.thunk, base, pool, end, n, mid);
  }

  /**
   The relocated prologue, mapped at any address that is a multiple of four, does what the original does: it faults
   exactly when the original faults, and otherwise reaches the moved thunk asm block in the state in which the
   original reaches its own.
   */
  lemma A32RelocationSimulates<E(!new)>(m: Machine<E>, cs: Disassembler, visit: Visitor, t: seq<Byte>, pc: Word,
                                        magic: nat, plan: Plan, thunk: RelocThunk, base: Word, end: Word, n: nat,
                                        mid: Word)
    requires m.IsA32()
    requires RelocatedBy(m, cs, A32Recogniser(), A32Named(), visit, LiteralEncoder(pc), t, pc, magic, plan, thunk)
    requires m.Holds(base, thunk.thunk)
    requires end == pc + plan.asmAt && n == Total(Steps, plan.items) && mid == base + plan.asmAt + 4 * Loads(plan.items)
    ensures Simulates(m.Step, pc, plan.items, end, base, n, mid)
  {
    A32Trusted(m, pc);
    ScannedSimulates(m, cs, A32Recogniser(), A32Named(), LiteralEncoder(pc), visit, t, pc, magic, plan, thunk, base,
                     end, n, mid);
  }

  /** Once the scan has succeeded, the relocator fails exactly when a literal is 4096 bytes or more from the program
      counter its load sees, and then with an encoding error. */
  lemma A32RelocationExact<E(!new)>(m: Machine<E>, cs: Disassembler, visit: Visitor, t: seq<Byte>, pc: Word, magic: nat,
                                    plan: Plan, pool: nat)
    requires m.IsA32() && pc % 4 == 0
    requires Template(t, pc, magic) && visit == VisitorOf(cs, A32Recogniser(), t, pc, magic) && Advances(visit, |t|)
    requires Scan(visit, |t|, 0) == Ok(plan) && AllUnchecked(m.decode, cs, t, pc, plan.items)
    requires Reports(m, A32Recogniser(), A32Named(), cs, t, pc, plan.items)
    requires pool == |BeforePool(4, EmitAll(Start(t, magic), plan.items))|
    ensures Relocated(visit, 4, LiteralEncoder(pc), t, magic).Ok? <==> AllInReach(Fixups(plan.items, 0), pool)
    ensures Relocated(visit, 4, LiteralEncoder(pc), t, magic).Err? ==>
              Relocated(visit, 4, LiteralEncoder(pc), t, magic) == Err(EncodingError)
  {
    A32Trusted(m, pc);
    PlanUnderstood(m, cs, A32Recogniser(), A32Named(), visit, t, pc, magic, plan);
    RelocatedExact(m.decode, LiteralEncoder(pc), visit, t, magic, plan, pool);
  }

  // ---------- the placed thunk ----------

  /** The relocator as the allocator calls it. */
  ghost function A32Relocator(cs: Disassembler): Relocator {
    (t: seq<Byte>, pc: Address, magic: nat)
      requires pc + |t| < 0x1_0000_0000 && Template(t, pc, magic)
      requires Advances(VisitorOf(cs, A32Recogniser(), t, pc, magic), |t|) =>
      Relocated(VisitorOf(cs, A32Recogniser(), t, pc, magic), 4, LiteralEncoder(pc), t, magic)
  }

  /** The scan of the template goes forward, and its thunk fits in the address space at `rx`. */
  ghost predicate ThunkFits(cs: Disassembler, t: seq<Byte>, ptr: Word, off: nat, rx: Address)
    requires Template(t, ptr, off)
  {
    && Advances(VisitorOf(cs, A32Recogniser(), t, ptr, off), |t|)
    && var r := A32Relocator(cs)(t, ptr, off);
       r.Ok? ==> rx + |r.value.thunk| + 4 <= 0x1_0000_0000
  }

  /** `New` may be given the A32 relocator: the thunk it makes has room for both pointer slots. */
  lemma A32Placeable(cs: Disassembler, mem: seq<Byte>, ptr: Word, rx: Address)
    requires ptr + |mem| < 0x1_0000_0000
    requires forall off: nat | off + 8 <= |mem| && FirstMagic(ARM, mem, ptr, off) ::
               ThunkFits(cs, TemplateAt(ARM, mem, off), ptr, off, rx)
    ensures Placeable(ARM, A32Relocator(cs), mem, ptr, rx)
  {
    forall off: nat | off + ARM.returnOffset <= |mem| && FirstMagic(ARM, mem, ptr, off)
      ensures A32Relocator(cs).requires(TemplateAt(ARM, mem, off), ptr, off)
      ensures match A32Relocator(cs)(TemplateAt(ARM, mem, off), ptr, off)
              case Err(_) => true
              case Ok(thunk) => HasRoom(ARM, thunk) && rx + |thunk.thunk| + ARM.align <= 0x1_0000_0000_0000_0000
    {
      var t := TemplateAt(ARM, mem, off);
      assert ThunkFits(cs, t, ptr, off, rx);
      if A32Relocator(cs)(t, ptr, off).Ok? {
        RelocatedHasRoom(LiteralEncoder(ptr), VisitorOf(cs, A32Recogniser(), t, ptr, off), t, off);
      }
    }
  }

  /** `New` has placed the thunk at `base`, where it is mapped. */
  ghost predicate PlacedThunk<E(!new)>(m: Machine<E>, thunk: RelocThunk, block: seq<Byte>, rx: Address, base: Word,
                                       closure: Word, back: Word)
  {
    && HasRoom(ARM, thunk) && rx <= base
    && PlacedAt(ARM, block, thunk, rx, base - rx, closure, back)
    && m.Maps(base, block[base - rx..base - rx + |thunk.thunk|])
  }

  lemma PlacedThunkEnters<E(!new)>(m: Machine<E>, decode: Word -> Insn, t: seq<Byte>, pc: Word, magic: nat, plan: Plan,
                                   thunk: RelocThunk, block: seq<Byte>, rx: Address, base: Word, k: nat, pool: nat,
                                   closure: Word, back: Word, cl: nat, jmp: nat, n: nat)
    requires decode == m.decode && LaidOut(decode, t, plan, thunk.thunk, k, pool) && thunk.magicOffset == magic + k
    requires PlacedThunk(m, thunk, block, rx, base, closure, back) && magic % 4 == 0 && k == 4 * Loads(plan.items)
    requires |t| == magic + 8 && Sound(plan, |t|, 15) && plan.asmAt % 4 == 0 && back % 4 == 0 && m.Holds(pc, t)
    requires AsmBlock(decode, t, plan.asmAt, magic, cl, jmp) && n == Total(Steps, plan.items) + 3
    requires forall i | 0 <= i < |plan.items| :: Understood(m, t, pc, plan.items[i])
    ensures EntersClosure(m.Step, pc, plan.items, base, n, cl, jmp, closure, back)
  {
    var code, slot := block[base - rx..base - rx + |thunk.thunk|], magic + k;
    PlacedAligned(rx, base, magic, Loads(plan.items), slot);
    PatchReadsBack(thunk, closure, back, code, slot);
    PatchedEntersClosure(m, t, pc, magic, plan, thunk.thunk, code, base, k, pool, slot, cl, jmp, closure, back, n);
  }

  /** A thunk whose magic is at a multiple of four starts at one. */
  lemma PlacedAligned(rx: Address, base: Word, magic: nat, loads: nat, slot: nat)
    requires rx <= base && magic % 4 == 0 && slot == magic + 4 * loads && AlignedAt(rx + (base - rx), slot, ARM.align)
    ensures base % 4 == 0
  {
  }

  lemma AlignedReturn(pc: Word, magic: nat, back: Word)
    requires pc % 4 == 0 && magic % 4 == 0 && back == pc + magic + 8
    ensures back % 4 == 0
  {
  }

  lemma ScannedThunkEnters<E(!new)>(m: Machine<E>, cs: Disassembler, recognise: Recogniser,
                                    named: (InsnId, Word) -> bool, encode: LoadEncoder, visit: Visitor, t: seq<Byte>,
                                    pc: Word, magic: nat, plan: Plan, thunk: RelocThunk, block: seq<Byte>,
                                    rx: Address, base: Word, closure: Word, back: Word, cl: nat, jmp: nat, n: nat)
    requires Trusted(m, recognise, named, encode)
    requires RelocatedBy(m, cs, recognise, named, visit, encode, t, pc, magic, plan, thunk)
    requires AsmBlock(m.decode, t, plan.asmAt, magic, cl, jmp)
    requires PlacedThunk(m, thunk, block, rx, base, closure, back)
    requires |t| == magic + 8 && magic % 4 == 0 && back == pc + magic + 8 && n == Total(Steps, plan.items) + 3
    ensures EntersClosure(m.Step, pc, plan.items, base, n, cl, jmp, closure, back)
  {
    var k := 4 * Loads(plan.items);
    var pool := |t| + k;
    AlignedReturn(pc, magic, back);
    ScannedLaidOut(m, cs, recognise, named, encode, visit, t, pc, magic, plan, thunk, k, pool);
    PlacedThunkEnters(m, m.decode, t, pc, magic, plan, thunk, block, rx, base, k, pool, closure, back, cl, jmp, n);
  }

  /**
   End to end. The template at `pc`, which ends with the asm block and its magic, is relocated and placed by `New` at
   `base`. Entering the thunk, for as many steps as the prologue and the asm block take, faults if and only if the
   original prologue faults; otherwise it reaches the template's code after the asm block in the state the original
   prologue leaves, except that the closure register holds the closure pointer and the jump register the address
   reached.
   */
  lemma A32ThunkEntersClosure<E(!new)>(m: Machine<E>, cs: Disassembler, visit: Visitor, t: seq<Byte>, pc: Word,
                                       magic: nat, plan: Plan, thunk: RelocThunk, block: seq<Byte>, rx: Address,
                                       base: Word, closure: Word, back: Word, cl: nat, jmp: nat, n: nat)
    requires m.IsA32()
    requires RelocatedBy(m, cs, A32Recogniser(), A32Named(), visit, LiteralEncoder(pc), t, pc, magic, plan, thunk)
    requires AsmBlock(m.decode, t, plan.asmAt, magic, cl, jmp)
    requires PlacedThunk(m, thunk, block, rx, base, closure, back)
    requires |t| == magic + 8 && magic % 4 == 0 && back == pc + magic + 8 && n == Total(Steps, plan.items) + 3
    ensures EntersClosure(m.Step, pc, plan.items, base, n, cl, jmp, closure, back)
  {
    A32Trusted(m, pc);
    ScannedThunkEnters(m, cs, A32Recogniser(), A32Named(), LiteralEncoder(pc), visit, t, pc, magic, plan, thunk,
                       block, rx, base, closure, back, cl, jmp, n);
  }
}
