/** The end-to-end result for the relocator's own decoders and encoders, on the thunk that `AllocatedThunk::new`
    places. */
module A64Theorem {
  import opened Bytes
  import opened SafeJit
  import opened Placement
  import opened A64Machine
  import opened ArmReloc
  import opened A64Reloc
  import opened ArmLayout
  import opened A64Decode
  import opened A64Simulation
  import opened A64Correct
  import opened A64EndToEnd

  /** The relocator as the allocator calls it. */
  function A64Relocator(cs: Disassembler): Relocator {
    (t: seq<Byte>, pc: Address, magic: nat) requires Template(t, pc, magic) =>
      Relocated(VisitorOf(cs, A64Recogniser(), t, pc, magic), 8, PoolEncoder(), t, magic)
  }

  /** What the relocator leaves unchecked about an instruction it visits; `signed` tells the words whose ADR sign is
      read as the architecture has it. */
  ghost predicate Unchecked<E(!new)>(m: Machine<E>, signed: Word -> bool, w: Word, item: Item) {
    match item
    case Kept(_) => Movable(m, w)
    case Followed(_, _) => true
    case Load(_, reg, _, _) => reg != 31
    case AddressOf(_, _, _) => signed(w)
  }

  ghost predicate AllUnchecked<E(!new)>(m: Machine<E>, signed: Word -> bool, t: seq<Byte>, items: seq<Item>) {
    forall i | 0 <= i < |items| && items[i].at + 4 <= |t| :: Unchecked(m, signed, WordAt(t, items[i].at), items[i])
  }

  /** The targets recorded are right for the words `signed` tells. */
  ghost predicate TargetsRight<E>(m: Machine<E>, recognise: Recogniser, signed: Word -> bool) {
    forall w: Word, a: Address :: recognise(w, a).AnAdr? && signed(w) && m.decode(w).PcRelative? ==>
      PcRelativeTarget(m.decode(w).page, m.decode(w).imm, a) == recognise(w, a).target
  }

  function A64Signed(): Word -> bool { (w: Word) => AdrBitsAgree(w) }

  lemma A64TargetsRight<E>(m: Machine<E>)
    requires m.IsA64()
    ensures TargetsRight(m, A64Recogniser(), A64Signed())
  {
    forall w: Word, a: Address | Recognise(w, a).AnAdr? && AdrBitsAgree(w)
      ensures m.decode(w).PcRelative? ==>
                PcRelativeTarget(m.decode(w).page, m.decode(w).imm, a) == Recognise(w, a).target
    {
      RecogniseAgrees(w, a);
      assert m.decode(w) == Decode(w);
    }
  }

  lemma UncheckedSupported<E(!new)>(m: Machine<E>, cs: Disassembler, recognise: Recogniser, signed: Word -> bool,
                                    t: seq<Byte>, pc: Address, magic: nat, item: Item)
    requires TargetsRight(m, recognise, signed) && Template(t, pc, magic)
    requires VisitedAs(cs, recognise, t, pc, magic, item) && Unchecked(m, signed, WordAt(t, item.at), item)
    ensures Supported(m, WordAt(t, item.at), item, pc + item.at)
  {
    var d := recognise(WordAt(t, item.at), pc + item.at);
    if item.AddressOf? {
      assert d.AnAdr?;
    }
  }

  /** Where nothing is left unchecked, the scan has settled the rest. */
  lemma ItemsSupported<E(!new)>(m: Machine<E>, cs: Disassembler, recognise: Recogniser, signed: Word -> bool,
                                t: seq<Byte>, pc: Address, magic: nat, items: seq<Item>)
    requires TargetsRight(m, recognise, signed) && Template(t, pc, magic)
    requires forall i | 0 <= i < |items| :: VisitedAs(cs, recognise, t, pc, magic, items[i])
    requires AllUnchecked(m, signed, t, items)
    ensures AllSupported(m, t, pc, items)
  {
    forall i | 0 <= i < |items| && items[i].at + 4 <= |t|
      ensures Supported(m, WordAt(t, items[i].at), items[i], pc + items[i].at)
    {
      UncheckedSupported(m, cs, recognise, signed, t, pc, magic, items[i]);
    }
  }

  /** The thunk for the template whose magic is at `off` fits in the address space at `rx`. */
  ghost predicate ThunkFits(cs: Disassembler, t: seq<Byte>, ptr: Address, off: nat, rx: Address)
    requires Template(t, ptr, off)
  {
    var r := A64Relocator(cs)(t, ptr, off);
    r.Ok? ==> rx + |r.value.thunk| + 8 <= 0x1_0000_0000_0000_0000
  }

  /** `New` may be given the A64 relocator: the thunk it makes has room for both pointer slots. */
  lemma A64Placeable(cs: Disassembler, mem: seq<Byte>, ptr: Address, rx: Address)
    requires ptr + |mem| < 0x1_0000_0000_0000_0000
    requires forall off: nat | off + 16 <= |mem| && FirstMagic(A64, mem, ptr, off) ::
               ThunkFits(cs, TemplateAt(A64, mem, off), ptr, off, rx)
    ensures Placeable(A64, A64Relocator(cs), mem, ptr, rx)
  {
    forall off: nat | off + A64.returnOffset <= |mem| && FirstMagic(A64, mem, ptr, off)
      ensures A64Relocator(cs).requires(TemplateAt(A64, mem, off), ptr, off)
      ensures match A64Relocator(cs)(TemplateAt(A64, mem, off), ptr, off)
              case Err(_) => true
              case Ok(thunk) => HasRoom(A64, thunk) && rx + |thunk.thunk| + A64.align <= 0x1_0000_0000_0000_0000
    {
      var t := TemplateAt(A64, mem, off);
      assert ThunkFits(cs, t, ptr, off, rx);
      if A64Relocator(cs)(t, ptr, off).Ok? {
        RelocatedHasRoom(PoolEncoder(), VisitorOf(cs, A64Recogniser(), t, ptr, off), t, off);
      }
    }
  }

  /** Decoders and an encoder that agree with the machine. */
  ghost predicate Trusted<E>(m: Machine<E>, recognise: Recogniser, encode: LoadEncoder, signed: Word -> bool) {
    Recognises(m, recognise) && Reaches(m.decode, encode) && TargetsRight(m, recognise, signed)
  }

  lemma A64Trusted<E>(m: Machine<E>)
    requires m.IsA64()
    ensures Trusted(m, A64Recogniser(), PoolEncoder(), A64Signed())
  {
    A64RecogniserAgrees(m);
    PoolEncoderReaches(m);
    A64TargetsRight(m);
  }

  /** What the theorem asks of a template: it ends with the asm block and its magic, is mapped at `pc`, its branches are
      reported, and it was relocated into at most 1 MiB. */
  ghost predicate Relocatable<E(!new)>(m: Machine<E>, cs: Disassembler, visit: Visitor, encode: LoadEncoder,
                                       signed: Word -> bool, t: seq<Byte>, pc: Address, magic: nat, plan: Plan,
                                       thunk: RelocThunk, cl: nat, jmp: nat)
    requires Advances(visit, |t|)
  {
    && |t| == magic + 16 && |t| % 4 == 0 && m.Holds(pc, t)
    && Scan(visit, |t|, 0) == Ok(plan)
    && ReportsBranches(m.decode, cs, t, plan.items) && AllUnchecked(m, signed, t, plan.items)
    && AsmBlock(m.decode, t, plan.asmAt, magic, cl, jmp)
    && Relocated(visit, 8, encode, t, magic) == Ok(thunk) && |thunk.thunk| <= 0x10_0000
  }

  /** `New` has placed the thunk at `base`, where it is mapped. */
  ghost predicate PlacedThunk<E>(m: Machine<E>, thunk: RelocThunk, block: seq<Byte>, rx: Address, base: Address,
                                 closure: Address, back: Address)
  {
    && HasRoom(A64, thunk) && rx <= base
    && PlacedAt(A64, block, thunk, rx, base - rx, closure, back)
    && m.Holds(base, block[base - rx..base - rx + |thunk.thunk|])
  }

  lemma PlacedThunkEnters<E(!new)>(m: Machine<E>, visit: Visitor, encode: LoadEncoder, t: seq<Byte>, pc: Address,
                                   magic: nat, plan: Plan, thunk: RelocThunk, block: seq<Byte>, rx: Address,
                                   base: Address, closure: Address, back: Address, cl: nat, jmp: nat, steps: nat,
                                   n: nat)
    requires RelocatedBy(m.decode, visit, encode, t, magic, plan, thunk)
    requires forall i | 0 <= i < |plan.items| :: Understood(m, t, pc, plan.items[i])
    requires AsmBlock(m.decode, t, plan.asmAt, magic, cl, jmp) && m.Holds(pc, t)
    requires PlacedThunk(m, thunk, block, rx, base, closure, back)
    requires steps == |plan.items| + Loads(plan.items) && n == steps + 3
    ensures EntersClosure(m.Step, pc, plan, base, n, cl, jmp, closure, back)
  {
    var code, k := block[base - rx..base - rx + |thunk.thunk|], 4 * Loads(plan.items);
    ThunkEntersClosure(m, visit, encode, t, pc, magic, plan, thunk, code, base, k, steps, cl, jmp, closure, back, n);
  }

  lemma ScannedThunkEnters<E(!new)>(m: Machine<E>, cs: Disassembler, recognise: Recogniser, encode: LoadEncoder,
                                    signed: Word -> bool, visit: Visitor, t: seq<Byte>, pc: Address, magic: nat,
                                    plan: Plan, thunk: RelocThunk, block: seq<Byte>, rx: Address, base: Address,
                                    closure: Address, back: Address, cl: nat, jmp: nat, n: nat)
    requires Trusted(m, recognise, encode, signed)
    requires Template(t, pc, magic) && visit == VisitorOf(cs, recognise, t, pc, magic)
    requires Relocatable(m, cs, visit, encode, signed, t, pc, magic, plan, thunk, cl, jmp)
    requires PlacedThunk(m, thunk, block, rx, base, closure, back)
    requires back == pc + magic + 16 && n == |plan.items| + Loads(plan.items) + 3
    ensures EntersClosure(m.Step, pc, plan, base, n, cl, jmp, closure, back)
  {
    PlanVisited(cs, recognise, visit, t, pc, magic, plan);
    ItemsSupported(m, cs, recognise, signed, t, pc, magic, plan.items);
    PlanUnderstood(m, cs, recognise, visit, t, pc, magic, plan);
    PlacedThunkEnters(m, visit, encode, t, pc, magic, plan, thunk, block, rx, base, closure, back, cl, jmp,
                      |plan.items| + Loads(plan.items), n);
  }

  /**
   End to end. The template at `pc` is relocated with its magic at `magic` and placed by `New` at
   `base`. Entering the thunk, for as many steps as the prologue and the asm block take, faults
   if and only if the original prologue faults; otherwise it reaches the template's code after the
   asm block with memory and registers as the original prologue leaves them, except that the closure
   register holds the closure pointer and the jump register the address reached.
   */
  lemma A64ThunkEntersClosure<E(!new)>(m: Machine<E>, cs: Disassembler, visit: Visitor, t: seq<Byte>, pc: Address,
                                       magic: nat, plan: Plan, thunk: RelocThunk, block: seq<Byte>, rx: Address,
                                       base: Address, closure: Address, back: Address, cl: nat, jmp: nat, n: nat)
    requires m.IsA64()
    requires Template(t, pc, magic) && visit == VisitorOf(cs, A64Recogniser(), t, pc, magic)
    requires Relocatable(m, cs, visit, PoolEncoder(), A64Signed(), t, pc, magic, plan, thunk, cl, jmp)
    requires PlacedThunk(m, thunk, block, rx, base, closure, back)
    requires back == pc + magic + 16 && n == |plan.items| + Loads(plan.items) + 3
    ensures EntersClosure(m.Step, pc, plan, base, n, cl, jmp, closure, back)
  {
    A64Trusted(m);
    ScannedThunkEnters(m, cs, A64Recogniser(), PoolEncoder(), A64Signed(), visit, t, pc, magic, plan, thunk,
                       block, rx, base, closure, back, cl, jmp, n);
  }
}
