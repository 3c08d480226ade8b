/** The A32 relocator: `arm.rs` in ARM mode. */
module A32Reloc {
  import opened Bytes
  import opened EncodingA32
  import opened CowBuf
  import opened SafeJit
  import opened ArmReloc

  // ---------- the scan ----------

  /** What the disassembler reports: the kind of instruction, the target of a branch, whether the program counter is
      read or written, the groups, and whether the condition is AL. */
  datatype Detail = Detail(id: InsnId, target: Word, readsPc: bool, writesPc: bool, groups: seq<nat>, always: bool)

  /** The disassembler, on an instruction word and its address. */
  type Disassembler = (Word, Word) -> Option<Detail>

  /** What the decoders make of an instruction that reads the program counter; a load comes with the word that loads
      through its register, and has a target when its base is the program counter. */
  datatype Decoded =
    | AnAdr(reg: nat, target: Word)
    | AnLdr(reg: nat, literal: Option<Word>, through: Word)
    | Another

  function Recognise(id: InsnId, w: Word, a: Word): Decoded {
    if Adr.TryFromRaw(w).Some? then AnAdr(Adr(w).DestReg(), Adr(w).TargetPc(a))
    else
      match LoadImm.TryFromRaw(id, w)
      case None => Another
      case Some(load) => AnLdr(load.Rt(), load.TargetPc(a), load.AsRtLoad())
  }

  type Recogniser = (InsnId, Word, Word) -> Decoded

  function A32Recogniser(): Recogniser { (id: InsnId, w: Word, a: Word) => Recognise(id, w, a) }

  predicate Template(t: seq<Byte>, pc: Word, magic: nat) {
    pc + |t| < 0x1_0000_0000 && magic <= |t|
  }

  predicate Follows(d: Detail, pc: Word, len: nat) { d.id.Branch? && pc <= d.target < pc + len }

  /** The branches of the scan loop. */
  function Decide(d: Detail, decoded: Decoded, pc: Word, len: nat, magic: nat, o: nat): Visit {
    if Follows(d, pc, len) then Visited(Followed(o, d.target - pc))
    else if !d.id.Branch? && (d.writesPc || HasUnsupportedInsnGroup(d.groups)) then Failed(UnsupportedInstruction)
    else if !d.readsPc then Visited(Kept(o))
    else if !d.always then Failed(UnsupportedInstruction)
    else
      match decoded
      case AnAdr(reg, target) => Visited(AddressOf(o, reg, target))
      case AnLdr(reg, Some(target), through) =>
        if target == pc + magic then Reached else Visited(Load(o, reg, target, through))
      case _ => Failed(UnsupportedInstruction)
  }

  function VisitAt(cs: Disassembler, recognise: Recogniser, t: seq<Byte>, pc: Word, magic: nat, o: nat): Visit
    requires Template(t, pc, magic) && o <= |t|
  {
    if o + 4 > |t| then Failed(NoThunkAsm)
    else
      var w := WordAt(t, o);
      match cs(w, pc + o)
      case None => Failed(NoThunkAsm)
      case Some(d) => Decide(d, recognise(d.id, w, pc + o), pc, |t|, magic, o)
  }

  function VisitorOf(cs: Disassembler, recognise: Recogniser, t: seq<Byte>, pc: Word, magic: nat): (visit: Visitor)
    requires Template(t, pc, magic)
    ensures Covers(visit, |t|)
  {
    (o: nat) requires o <= |t| => VisitAt(cs, recognise, t, pc, magic, o)
  }

  // ---------- literals ----------

  /** The word of the load, where there is one. */
  function EncoderOf(load: (nat, nat, nat) -> Option<LdrImm>): LoadEncoder {
    (reg: nat, at: nat, here: nat) => if load(reg, at, here).Some? then Some(load(reg, at, here).value.raw) else None
  }

  /** The load of a literal, computed as if the new code stood where the template stands. */
  function LiteralLoad(pc: Word, reg: nat, at: nat, here: nat): Option<LdrImm> {
    LdrImm.NewLit(pc + at, reg, pc + here)
  }

  function LiteralEncoder(pc: Word): LoadEncoder {
    EncoderOf((reg: nat, at: nat, here: nat) => LiteralLoad(pc, reg, at, here))
  }

  // ---------- the relocator ----------

  /** The edits the scan makes for one instruction. */
  method EmitItem(cowBuf: CowBuffer, item: Item, newMagicOffset: nat, extraLdrs: seq<Fixup>)
    returns (newMagicOffset': nat, extraLdrs': seq<Fixup>)
    requires cowBuf.numCopied <= item.at && item.at + 4 <= |cowBuf.origBytes|
    modifies cowBuf
    ensures Progress(cowBuf.AsView(), newMagicOffset', extraLdrs')
         == Emit(Progress(old(cowBuf.AsView()), newMagicOffset, extraLdrs), item)
  {
    newMagicOffset', extraLdrs' := newMagicOffset, extraLdrs;
    if item.Rewritten() {
      ghost var copied := cowBuf.newBytes + cowBuf.origBytes[cowBuf.numCopied..item.at];
      // allocate space for a new LDR
      var ldrOfs := cowBuf.Append(item.at, Zeros(4));
      extraLdrs' := extraLdrs' + [Fixup(ldrOfs, item.reg, item.target)];
      assert cowBuf.newBytes + cowBuf.origBytes[item.at..item.at] == cowBuf.newBytes;
      if item.Load? {
        newMagicOffset' := newMagicOffset' + 4;
        var _ := cowBuf.Append(item.at, Le4(item.word));
      }
      assert cowBuf.newBytes == copied + item.Replacement();
      assert cowBuf.newBytes + cowBuf.origBytes[item.at..item.at] == cowBuf.newBytes;
      var _ := cowBuf.Ignore(item.at, 4);
    }
  }

  method Relocate(visit: Visitor, encode: LoadEncoder, t: seq<Byte>, magic: nat) returns (r: Result<RelocThunk>)
    requires Advances(visit, |t|)
    ensures r == Relocated(visit, 4, encode, t, magic)
  {
    var next, newMagicOffset, hasThunkAsm := 0, magic, false;
    var extraLdrs: seq<Fixup> := [];
    var cowBuf := new CowBuffer(t);
    ghost var start, whole := Start(t, magic), Scan(visit, |t|, 0);
    while !hasThunkAsm
      invariant next <= |t| && AdvancesFrom(visit, |t|, next) && cowBuf.origBytes == t && fresh(cowBuf)
      invariant Pending(whole, Scan(visit, |t|, next), start, Progress(cowBuf.AsView(), newMagicOffset, extraLdrs),
                  next)
      invariant hasThunkAsm ==> Scan(visit, |t|, next) == Ok(Plan([], next))
      decreases |t| - next, !hasThunkAsm
    {
      match visit(next) {
        case Failed(e) =>
          return Err(e);
        case Reached =>
          hasThunkAsm := true;
        case Visited(item) =>
          PendingStep(whole, Scan(visit, |t|, item.Next()), start,
                      Progress(cowBuf.AsView(), newMagicOffset, extraLdrs), next, item);
          newMagicOffset, extraLdrs := EmitItem(cowBuf, item, newMagicOffset, extraLdrs);
          next := item.Next();
      }
    }
    ghost var done := Progress(cowBuf.AsView(), newMagicOffset, extraLdrs);
    assert EmitAll(done, []) == done;
    assert Relocated(visit, 4, encode, t, magic) == Finish(4, encode, done);
    r := FinishThunk(4, encode, cowBuf, newMagicOffset, extraLdrs);
  }

  method TryRelocThunkTemplate(cs: Disassembler, t: seq<Byte>, pc: Word, magic: nat) returns (r: Result<RelocThunk>)
    requires Template(t, pc, magic) && Advances(VisitorOf(cs, A32Recogniser(), t, pc, magic), |t|)
    ensures r == Relocated(VisitorOf(cs, A32Recogniser(), t, pc, magic), 4, LiteralEncoder(pc), t, magic)
  {
    r := Relocate(VisitorOf(cs, A32Recogniser(), t, pc, magic), LiteralEncoder(pc), t, magic);
  }
}
