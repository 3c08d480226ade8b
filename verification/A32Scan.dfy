/** What the A32 relocator's scan knows about the instructions it visits. */
module A32Scan {
  import opened Bytes
  import opened BitField
  import opened SafeJit
  import opened ArmReloc
  import opened ArmShape
  import opened EncodingA32
  import opened A32Machine
  import opened A32Decode
  import opened A32Reloc
  import opened A32Simulation

  // ---------- the decoders ----------

  /** What the decoders make of an instruction at an aligned address is what the architecture makes of it. */
  predicate AgreesOn(decode: Word -> Insn, d: Decoded, insn: Insn, a: Word) {
    match d
    case AnAdr(reg, target) => reg < 15 ==> insn.Address? && insn.rd == reg && FromPc(a, insn.offset) == target
    case AnLdr(reg, literal, through) =>
      insn.LoadImmediate? ==>
        && insn.rt == reg < 15 && literal == (if insn.rn == 15 then Some(FromPc(a, insn.offset)) else None)
        && decode(through) == LoadImmediate(insn.kind, reg, reg, 0)
    case Another => true
  }

  /** `named` tells the instruction words a name fits. */
  ghost predicate Recognises<E(!new)>(m: Machine<E>, recognise: Recogniser, named: (InsnId, Word) -> bool) {
    forall id: InsnId, w: Word, a: Word | a % 4 == 0 && named(id, w) ::
      AgreesOn(m.decode, recognise(id, w, a), m.decode(w), a)
  }

  /** The name of a load with an immediate offset tells where in the encoding it is: the word and byte loads and the
      extra loads are in different parts. */
  predicate Named(id: InsnId, w: Word) {
    Decode(w).LoadImmediate? ==>
      (id.WordOrByteLoad? ==> FieldsOf(w).op1 == 2) && (id.ExtraLoad? ==> FieldsOf(w).op1 == 0)
  }

  function A32Named(): (InsnId, Word) -> bool { (id: InsnId, w: Word) => Named(id, w) }

  lemma AdrAgrees(decode: Word -> Insn, w: Word, a: Word, insn: Insn)
    requires a % 4 == 0 && Adr.TryFromRaw(w).Some? && insn == Decode(w)
    ensures AgreesOn(decode, AnAdr(Adr(w).DestReg(), Adr(w).TargetPc(a)), insn, a)
  {
    AdrDecodes(w, a, insn);
  }

  lemma LoadAgrees(decode: Word -> Insn, a: Word, load: LoadImm, insn: Insn, literal: Option<Word>, through: Word)
    requires FormAgrees(load) && insn == Decode(load.raw) && decode(through) == Decode(through)
    requires literal == load.TargetPc(a) && through == load.AsRtLoad()
    ensures AgreesOn(decode, AnLdr(load.Rt(), literal, through), insn, a)
  {
    if insn.LoadImmediate? {
      LoadTargetExact(load, a, insn);
      RtLoadDecodes(load);
    }
  }

  /** The decoders tried in turn. */
  lemma RecogniseCases(id: InsnId, w: Word, a: Word) returns (d: Decoded)
    ensures d == Recognise(id, w, a)
    ensures Adr.TryFromRaw(w).Some? ==> d == AnAdr(Adr(w).DestReg(), Adr(w).TargetPc(a))
    ensures Adr.TryFromRaw(w).None? ==>
              match LoadImm.TryFromRaw(id, w)
              case None => d == Another
              case Some(load) => d == AnLdr(load.Rt(), load.TargetPc(a), load.AsRtLoad())
  {
    d := Recognise(id, w, a);
  }

  lemma RecogniseAgrees<E(!new)>(m: Machine<E>, id: InsnId, w: Word, a: Word) returns (d: Decoded)
    requires m.IsA32() && a % 4 == 0 && Named(id, w)
    ensures d == Recognise(id, w, a) && AgreesOn(m.decode, d, m.decode(w), a)
  {
    d := RecogniseCases(id, w, a);
    var insn := m.decode(w);
    assert insn == Decode(w);
    if Adr.TryFromRaw(w).Some? {
      AdrAgrees(m.decode, w, a, insn);
    } else if LoadImm.TryFromRaw(id, w).Some? && insn.LoadImmediate? {
      var load := LoadImm.TryFromRaw(id, w).value;
      var through := load.AsRtLoad();
      assert m.decode(through) == Decode(through);
      LoadAgrees(m.decode, a, load, insn, load.TargetPc(a), through);
    }
  }

  lemma A32RecogniserAgrees<E(!new)>(m: Machine<E>)
    requires m.IsA32()
    ensures Recognises(m, A32Recogniser(), A32Named())
  {
    forall id: InsnId, w: Word, a: Word | a % 4 == 0 && A32Named()(id, w)
      ensures AgreesOn(m.decode, A32Recogniser()(id, w, a), m.decode(w), a)
    {
      var _ := RecogniseAgrees(m, id, w, a);
    }
  }

  // ---------- the disassembler ----------

  /** The instruction writes the program counter, or is in one of the groups numbered below eight. */
  predicate Refused(d: Detail) { d.writesPc || exists g | g in d.groups :: g < 8 }

  lemma RefusedExact(d: Detail)
    ensures Refused(d) <==> d.writesPc || HasUnsupportedInsnGroup(d.groups)
  {
    UnsupportedExact(d.groups);
  }

  /** The condition is reported, of an instruction that has one; those that have none are not among the loads. */
  predicate ConditionReported(d: Detail, w: Word) {
    && (Bits(w, 28, 32) < 15 ==> (d.always <==> Bits(w, 28, 32) == 14))
    && (d.id.WordOrByteLoad? || d.id.ExtraLoad? ==> Bits(w, 28, 32) < 15)
  }

  /** What is reported about an instruction at address `a`: its condition, branches and their targets, whether the
      program counter is read or written, and a fitting name. An instruction that is not refused and does not read the
      program counter does the same everywhere. */
  ghost predicate Truthful<E(!new)>(m: Machine<E>, named: (InsnId, Word) -> bool, d: Detail, w: Word, a: Word) {
    var insn := m.decode(w);
    && named(d.id, w) && ConditionReported(d, w)
    && (insn.Jump? ==> d.id.Branch?) && (d.id.Branch? ==> insn.Jump? || insn.Other?)
    && (d.id.Branch? && d.always ==> insn.Jump? && BranchTarget(a, insn.offset) == d.target)
    && (d.id.Branch? ==> d.target % 4 == 0)
    && (insn.JumpRegister? ==> Refused(d))
    && (insn.Address? || (insn.LoadImmediate? && insn.rn >= 15) ==> d.readsPc)
    && (insn.Other? && !Refused(d) && !d.readsPc && !d.id.Branch? ==> Movable(m, w))
  }

  /** The instruction at offset `o` of the template, as reported, when the scan has visited it. */
  function DetailAt(cs: Disassembler, t: seq<Byte>, pc: Word, o: nat): Option<Detail>
    requires pc + |t| < 0x1_0000_0000 && o + 4 <= |t|
  {
    cs(WordAt(t, o), pc + o)
  }

  /** The disassembler is truthful about the instructions visited, and the scan refuses an ADR into the program
      counter. */
  ghost predicate Reports<E(!new)>(m: Machine<E>, recognise: Recogniser, named: (InsnId, Word) -> bool,
                                   cs: Disassembler, t: seq<Byte>, pc: Word, items: seq<Item>)
    requires pc + |t| < 0x1_0000_0000
  {
    forall i | 0 <= i < |items| && items[i].at + 4 <= |t| :: ReportedAt(m, recognise, named, cs, t, pc, items[i].at)
  }

  ghost predicate ReportedAt<E(!new)>(m: Machine<E>, recognise: Recogniser, named: (InsnId, Word) -> bool,
                                      cs: Disassembler, t: seq<Byte>, pc: Word, o: nat)
    requires pc + |t| < 0x1_0000_0000 && o + 4 <= |t|
  {
    match DetailAt(cs, t, pc, o)
    case None => true
    case Some(d) =>
      Truthful(m, named, d, WordAt(t, o), pc + o) && PcWriteReported(recognise(d.id, WordAt(t, o), pc + o), d)
  }

  predicate PcWriteReported(decoded: Decoded, d: Detail) {
    decoded.AnAdr? && decoded.reg >= 15 ==> Refused(d) && !d.id.Branch?
  }

  // ---------- what is left unchecked ----------

  /** What the relocator leaves unchecked about an instruction it visits: a branch it keeps because its target is
      outside the template, a conditional branch it follows, and a load in a form other than a plain immediate
      offset. */
  predicate Unchecked(decode: Word -> Insn, d: Detail, w: Word, item: Item) {
    match item
    case Kept(_) => !d.id.Branch?
    case Followed(_, _) => d.always
    case Load(_, _, _, _) => decode(w).LoadImmediate?
    case AddressOf(_, _, _) => true
  }

  /** A branch out of the template that is not said to read the program counter is copied as it is, and leads to the
      same place only from its old address. */
  lemma KeptBranchMoves(d: Detail, decoded: Decoded, pc: Word, len: nat, magic: nat, o: nat, base: Word, offset: int)
    requires d.id.Branch? && !d.readsPc && !(pc <= d.target < pc + len) && pc + o < 0x1_0000_0000
    requires base + o < 0x1_0000_0000
    ensures Decide(d, decoded, pc, len, magic, o) == Visited(Kept(o))
    ensures BranchTarget(base + o, offset) == BranchTarget(pc + o, offset) <==> base == pc
  {
    JumpWraps(base + o, offset);
    JumpWraps(pc + o, offset);
    WrapApart(base + o + 8 + offset, pc + o + 8 + offset);
  }

  lemma WrapApart(x: int, y: int)
    requires -0x1_0000_0000 < x - y < 0x1_0000_0000
    ensures Wrap32(x) == Wrap32(y) <==> x == y
  {
  }

  lemma DecideDescribes<E(!new)>(m: Machine<E>, named: (InsnId, Word) -> bool, d: Detail, decoded: Decoded, w: Word,
                                 pc: Word, len: nat, magic: nat, o: nat, item: Item)
    requires pc + len < 0x1_0000_0000 && o + 4 <= len && AgreesOn(m.decode, decoded, m.decode(w), pc + o)
    requires Truthful(m, named, d, w, pc + o) && PcWriteReported(decoded, d)
    requires Decide(d, decoded, pc, len, magic, o) == Visited(item) && Unchecked(m.decode, d, w, item)
    ensures Describes(m.decode, item, m.decode(w), pc + o, pc)
    ensures item.Kept? && m.decode(w).Other? ==> Movable(m, w)
  {
  }

  ghost predicate AllUnchecked(decode: Word -> Insn, cs: Disassembler, t: seq<Byte>, pc: Word, items: seq<Item>)
    requires pc + |t| < 0x1_0000_0000
  {
    forall i | 0 <= i < |items| && items[i].at + 4 <= |t| :: UncheckedAt(decode, cs, t, pc, items[i])
  }

  predicate UncheckedAt(decode: Word -> Insn, cs: Disassembler, t: seq<Byte>, pc: Word, item: Item)
    requires pc + |t| < 0x1_0000_0000 && item.at + 4 <= |t|
  {
    DetailAt(cs, t, pc, item.at).Some? ==>
      Unchecked(decode, DetailAt(cs, t, pc, item.at).value, WordAt(t, item.at), item)
  }

  /** The scan visited `item` in template `t` at `pc`. */
  predicate VisitedAs(cs: Disassembler, recognise: Recogniser, t: seq<Byte>, pc: Word, magic: nat, item: Item)
    requires Template(t, pc, magic)
  {
    item.at <= |t| && item.at < item.Next() <= |t| && VisitAt(cs, recognise, t, pc, magic, item.at) == Visited(item)
  }

  /** What the scan has decided about an instruction it visits. */
  lemma VisitDecided(cs: Disassembler, recognise: Recogniser, t: seq<Byte>, pc: Word, magic: nat, item: Item, w: Word,
                     a: Word) returns (d: Detail, decoded: Decoded)
    requires Template(t, pc, magic) && VisitedAs(cs, recognise, t, pc, magic, item)
    requires item.at + 4 <= |t| && w == WordAt(t, item.at) && a == pc + item.at
    ensures DetailAt(cs, t, pc, item.at) == Some(d) && decoded == recognise(d.id, w, a)
    ensures Decide(d, decoded, pc, |t|, magic, item.at) == Visited(item)
  {
    d := cs(w, a).value;
    decoded := recognise(d.id, w, a);
  }

  /** Only unconditional instructions are rewritten. */
  lemma RewrittenAlways(cs: Disassembler, recognise: Recogniser, t: seq<Byte>, pc: Word, magic: nat, item: Item,
                        w: Word)
    requires recognise == A32Recogniser()
    requires Template(t, pc, magic) && VisitedAs(cs, recognise, t, pc, magic, item) && item.Rewritten()
    requires item.at + 4 <= |t| && w == WordAt(t, item.at)
    requires DetailAt(cs, t, pc, item.at).Some? ==> ConditionReported(DetailAt(cs, t, pc, item.at).value, w)
    ensures Bits(w, 28, 32) == 14
  {
    var d, decoded := VisitDecided(cs, recognise, t, pc, magic, item, w, pc + item.at);
    RecognisedCondition(recognise, d, w, pc + item.at, decoded);
    DecideAlways(d, decoded, pc, |t|, magic, item.at, item);
  }

  lemma DecideAlways(d: Detail, decoded: Decoded, pc: Word, len: nat, magic: nat, o: nat, item: Item)
    requires Decide(d, decoded, pc, len, magic, o) == Visited(item) && item.Rewritten()
    ensures d.always && !decoded.Another?
  {
  }

  /** What the decoders recognise is not among the instructions that have no condition. */
  lemma RecognisedCondition(recognise: Recogniser, d: Detail, w: Word, a: Word, decoded: Decoded)
    requires recognise == A32Recogniser() && decoded == recognise(d.id, w, a) && ConditionReported(d, w)
    ensures d.always && !decoded.Another? ==> Bits(w, 28, 32) == 14
  {
    var r := RecogniseCases(d.id, w, a);
    assert r == decoded;
    if Adr.TryFromRaw(w).Some? {
      AdrCondition(w);
    }
  }

  /** ADR is recognised with the condition AL only. */
  lemma AdrCondition(w: Word)
    requires Adr.TryFromRaw(w).Some?
    ensures Bits(w, 28, 32) == 14
  {
    SubField(ADR_FIXED1, Field(28, 32), w);
    DigitIs(0xE2, 4, 4, 16, 16, 14);
  }

  /** Any instruction visited but a branch is in none of the groups numbered below eight, and does not write the program
      counter; one that is kept does not read it either. */
  lemma VisitedGroups(cs: Disassembler, recognise: Recogniser, t: seq<Byte>, pc: Word, magic: nat, item: Item,
                      d: Detail)
    requires Template(t, pc, magic) && VisitedAs(cs, recognise, t, pc, magic, item)
    requires item.at + 4 <= |t| && DetailAt(cs, t, pc, item.at) == Some(d)
    ensures !d.id.Branch? ==> !d.writesPc && forall g | g in d.groups :: g >= 8
    ensures item.Kept? ==> !d.readsPc
  {
    RefusedExact(d);
  }

  /** The scan understands an instruction it visits at an aligned offset, apart from what is left unchecked. */
  lemma VisitUnderstood<E(!new)>(m: Machine<E>, cs: Disassembler, recognise: Recogniser, named: (InsnId, Word) -> bool,
                                 t: seq<Byte>, pc: Word, magic: nat, item: Item)
    requires Recognises(m, recognise, named) && Template(t, pc, magic) && pc % 4 == 0 && item.at % 4 == 0
    requires VisitedAs(cs, recognise, t, pc, magic, item) && item.at + 4 <= |t|
    requires ReportedAt(m, recognise, named, cs, t, pc, item.at) && UncheckedAt(m.decode, cs, t, pc, item)
    ensures Understood(m, t, pc, item)
  {
    var w, a := WordAt(t, item.at), pc + item.at;
    var d := cs(w, a).value;
    assert AgreesOn(m.decode, recognise(d.id, w, a), m.decode(w), a);
    DecideDescribes(m, named, d, recognise(d.id, w, a), w, pc, |t|, magic, item.at, item);
  }

  /** From an aligned offset the scan leads to an aligned offset. */
  lemma VisitAligned<E(!new)>(m: Machine<E>, cs: Disassembler, recognise: Recogniser, named: (InsnId, Word) -> bool,
                              t: seq<Byte>, pc: Word, magic: nat, item: Item)
    requires Template(t, pc, magic) && pc % 4 == 0 && VisitedAs(cs, recognise, t, pc, magic, item)
    requires item.at + 4 <= |t| && ReportedAt(m, recognise, named, cs, t, pc, item.at)
    ensures StaysAligned(item)
  {
    var w, a := WordAt(t, item.at), pc + item.at;
    var d := cs(w, a).value;
    DecideAligned(d, recognise(d.id, w, a), pc, |t|, magic, item.at, item);
  }

  lemma DecideAligned(d: Detail, decoded: Decoded, pc: Word, len: nat, magic: nat, o: nat, item: Item)
    requires pc % 4 == 0 && (d.id.Branch? ==> d.target % 4 == 0) && item.at == o
    requires Decide(d, decoded, pc, len, magic, o) == Visited(item)
    ensures StaysAligned(item)
  {
  }

  /** Every item of the plan has been visited. */
  lemma PlanVisited(cs: Disassembler, recognise: Recogniser, visit: Visitor, t: seq<Byte>, pc: Word, magic: nat,
                    plan: Plan)
    requires Template(t, pc, magic) && visit == VisitorOf(cs, recognise, t, pc, magic) && Advances(visit, |t|)
    requires Scan(visit, |t|, 0) == Ok(plan)
    ensures Path(plan.items, 0, |t|) && Chain(plan.items, 0, plan.asmAt) && plan.asmAt <= |t|
    ensures forall i | 0 <= i < |plan.items| :: VisitedAs(cs, recognise, t, pc, magic, plan.items[i])
  {
    ScanVisits(visit, |t|, 0);
    forall i | 0 <= i < |plan.items|
      ensures VisitedAs(cs, recognise, t, pc, magic, plan.items[i])
    {
      PathItem(plan.items, 0, |t|, i);
      assert visit(plan.items[i].at) == Visited(plan.items[i]);
    }
  }

  lemma PlanAligned<E(!new)>(m: Machine<E>, cs: Disassembler, recognise: Recogniser, named: (InsnId, Word) -> bool,
                             t: seq<Byte>, pc: Word, magic: nat, plan: Plan)
    requires Template(t, pc, magic) && pc % 4 == 0 && Reports(m, recognise, named, cs, t, pc, plan.items)
    requires Path(plan.items, 0, |t|) && Chain(plan.items, 0, plan.asmAt)
    requires forall i | 0 <= i < |plan.items| :: VisitedAs(cs, recognise, t, pc, magic, plan.items[i])
    ensures plan.asmAt % 4 == 0 && forall i | 0 <= i < |plan.items| :: plan.items[i].at % 4 == 0
  {
    forall i | 0 <= i < |plan.items|
      ensures StaysAligned(plan.items[i])
    {
      PathItem(plan.items, 0, |t|, i);
      VisitAligned(m, cs, recognise, named, t, pc, magic, plan.items[i]);
    }
    ChainAligned(plan.items, 0, plan.asmAt);
  }

  lemma ItemsUnderstood<E(!new)>(m: Machine<E>, cs: Disassembler, recognise: Recogniser, named: (InsnId, Word) -> bool,
                                 t: seq<Byte>, pc: Word, magic: nat, items: seq<Item>)
    requires Recognises(m, recognise, named) && Template(t, pc, magic) && pc % 4 == 0 && Path(items, 0, |t|)
    requires Reports(m, recognise, named, cs, t, pc, items) && AllUnchecked(m.decode, cs, t, pc, items)
    requires forall i | 0 <= i < |items| :: VisitedAs(cs, recognise, t, pc, magic, items[i]) && items[i].at % 4 == 0
    ensures forall i | 0 <= i < |items| :: Understood(m, t, pc, items[i])
  {
    forall i | 0 <= i < |items|
      ensures Understood(m, t, pc, items[i])
    {
      PathItem(items, 0, |t|, i);
      VisitUnderstood(m, cs, recognise, named, t, pc, magic, items[i]);
    }
  }

  /** Every instruction of the plan is understood. */
  lemma PlanUnderstood<E(!new)>(m: Machine<E>, cs: Disassembler, recognise: Recogniser, named: (InsnId, Word) -> bool,
                                visit: Visitor, t: seq<Byte>, pc: Word, magic: nat, plan: Plan)
    requires Recognises(m, recognise, named) && pc % 4 == 0
    requires Template(t, pc, magic) && visit == VisitorOf(cs, recognise, t, pc, magic) && Advances(visit, |t|)
    requires Scan(visit, |t|, 0) == Ok(plan) && Reports(m, recognise, named, cs, t, pc, plan.items)
    requires AllUnchecked(m.decode, cs, t, pc, plan.items)
    ensures Sound(plan, |t|, 15) && plan.asmAt % 4 == 0
    ensures forall i | 0 <= i < |plan.items| :: Understood(m, t, pc, plan.items[i])
  {
    PlanVisited(cs, recognise, visit, t, pc, magic, plan);
    PlanAligned(m, cs, recognise, named, t, pc, magic, plan);
    ItemsUnderstood(m, cs, recognise, named, t, pc, magic, plan.items);
  }
}
