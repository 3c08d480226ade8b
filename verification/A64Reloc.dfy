/** The AArch64 relocator of `aarch64.rs`. */
module A64Reloc {
  import opened Bytes
  import opened EncodingA64
  import opened CowBuf
  import opened SafeJit
  import opened ArmReloc

  // ---------- the scan ----------

  /** The disassembler: the groups of an instruction, or nothing where it does not decode. */
  type Disassembler = Word -> Option<seq<nat>>

  /** The template ends below the top of the address space and contains the magic offset. */
  predicate Template(t: seq<Byte>, pc: Address, magic: nat) {
    pc + |t| < 0x1_0000_0000_0000_0000 && magic <= |t|
  }

  /** What the decoders make of an instruction word at address `a`; a load comes with the word that
      loads through its register, when that can be encoded. */
  datatype Decoded =
    | AnLdr(reg: nat, target: Address, through: Option<Word>)
    | AnAdr(reg: nat, target: Address)
    | ABranch(target: Address)
    | Another

  function Recognise(w: Word, a: Address): Decoded {
    if LdrImm.TryFromRaw(w).Some? then
      AnLdr(LdrImm(w).Reg(), LdrImm(w).TargetPc(a), LoadThrough(LdrImm(w).Opc(), LdrImm(w).Reg()))
    else if Adr.TryFromRaw(w).Some? then AnAdr(Adr(w).Reg(), Adr(w).TargetPc(a))
    else if Branch.TryFromRaw(w).Some? then ABranch(Branch(w).TargetPc(a))
    else Another
  }

  function LoadThrough(opc: LdrImmOpc, reg: nat): Option<Word> {
    var ldr64 :- LdrOfs.New(opc, reg, reg, 0);
    Some(ldr64.raw)
  }

  type Recogniser = (Word, Address) -> Decoded

  function A64Recogniser(): Recogniser {
    (w: Word, a: Address) => Recognise(w, a)
  }

  /** The branches of the scan loop. */
  function Decide(d: Decoded, unsupported: bool, pc: Address, len: nat, magic: nat, o: nat): (v: Visit)
    requires o + 4 <= len
    ensures v.Visited? ==> v.item.at == o && o + 4 <= v.item.Next() <= len
  {
    match d
    case AnLdr(reg, target, through) =>
      if target == pc + magic then Reached
      else if through.None? then Failed(EncodingError)
      else Visited(Load(o, reg, target, through.value))
    case AnAdr(reg, target) => Visited(AddressOf(o, reg, target))
    case ABranch(target) =>
      // follow forward branches that stay within the template
      if pc + o + 4 <= target < pc + len then Visited(Followed(o, target - pc)) else Failed(UnsupportedInstruction)
    case Another =>
      if unsupported then Failed(UnsupportedInstruction) else Visited(Kept(o))
  }

  function VisitAt(cs: Disassembler, recognise: Recogniser, t: seq<Byte>, pc: Address, magic: nat, o: nat): (v: Visit)
    requires Template(t, pc, magic) && o <= |t|
    ensures v.Visited? ==> v.item.at == o && o + 4 <= v.item.Next() <= |t|
    ensures v.Reached? ==> o + 4 <= |t|
  {
    if o + 4 > |t| || cs(WordAt(t, o)).None? then Failed(NoThunkAsm)
    else
      var w := WordAt(t, o);
      Decide(recognise(w, pc + o), HasUnsupportedInsnGroup(cs(w).value), pc, |t|, magic, o)
  }

  function VisitorOf(cs: Disassembler, recognise: Recogniser, t: seq<Byte>, pc: Address, magic: nat): (visit: Visitor)
    requires Template(t, pc, magic)
    ensures Advances(visit, |t|)
  {
    var visit := (o: nat) requires o <= |t| => VisitAt(cs, recognise, t, pc, magic, o);
    ForwardAdvances(visit, |t|, 0);
    visit
  }

  // ---------- literals ----------

  /** `a / b` rounds toward zero. */
  function Quotient(a: int, b: int): int
    requires b > 0
  {
    if a >= 0 then a / b else -((-a) / b)
  }

  /** The literal load for a placeholder, when its literal is `distance` bytes further on. */
  function PoolLoad(reg: nat, distance: nat): Option<LdrImm> {
    LdrImm.New(Load64, reg, Quotient(AsI32(distance % 0x1_0000_0000), 4))
  }

  /** The distance is all that matters. */
  function EncoderOf(load: (nat, nat) -> Option<LdrImm>): LoadEncoder {
    (reg: nat, at: nat, here: nat) =>
      if at <= here && load(reg, here - at).Some? then Some(load(reg, here - at).value.raw) else None
  }

  function PoolEncoder(): LoadEncoder { EncoderOf((reg: nat, distance: nat) => PoolLoad(reg, distance)) }

  // ---------- the relocator ----------

  /** The edits the scan makes for one instruction. */
  method EmitItem(cowBuf: CowBuffer, item: Item, newMagicOffset: nat, extraLdrs: seq<Fixup>)
    returns (newMagicOffset': nat, extraLdrs': seq<Fixup>)
    requires cowBuf.numCopied <= item.at && item.at + 4 <= |cowBuf.origBytes|
    modifies cowBuf
    ensures Progress(cowBuf.AsView(), newMagicOffset', extraLdrs')
         == Emit(Progress(old(cowBuf.AsView()), newMagicOffset, extraLdrs), item)
  {
    ghost var copied := cowBuf.newBytes + cowBuf.origBytes[cowBuf.numCopied..item.at];
    newMagicOffset', extraLdrs' := newMagicOffset, extraLdrs;
    match item {
      case Load(offset, reg, target, word) =>
        // make room for a literal load of the address, then load through the register
        var toEncode := cowBuf.Append(offset, Zeros(4));
        extraLdrs' := extraLdrs' + [Fixup(toEncode, reg, target)];
        newMagicOffset' := newMagicOffset' + 4;
        assert cowBuf.newBytes + cowBuf.origBytes[offset..offset] == cowBuf.newBytes;
        var _ := cowBuf.Replace(offset, Le4(word));
        assert cowBuf.newBytes == copied + item.Replacement();
      case AddressOf(offset, reg, target) =>
        var toEncode := cowBuf.Replace(offset, Zeros(4));
        extraLdrs' := extraLdrs' + [Fixup(toEncode, reg, target)];
      case _ =>
    }
  }

  method Relocate(visit: Visitor, encode: LoadEncoder, t: seq<Byte>, magic: nat) returns (r: Result<RelocThunk>)
    requires Advances(visit, |t|)
    ensures r == Relocated(visit, 8, encode, t, magic)
  {
    var next := 0;
    var newMagicOffset := magic;
    var hasThunkAsm := false;
    var extraLdrs: seq<Fixup> := [];
    var cowBuf := new CowBuffer(t);
    ghost var whole := Scan(visit, |t|, 0);

    while !hasThunkAsm
      invariant next <= |t| && AdvancesFrom(visit, |t|, next) && cowBuf.origBytes == t && fresh(cowBuf)
      invariant Pending(whole, Scan(visit, |t|, next), Start(t, magic),
                        Progress(cowBuf.AsView(), newMagicOffset, extraLdrs), next)
      invariant hasThunkAsm ==> Scan(visit, |t|, next) == Ok(Plan([], next))
      decreases |t| - next, !hasThunkAsm
    {
      match visit(next) {
        case Failed(e) =>
          return Err(e);
        case Reached =>
          hasThunkAsm := true;
        case Visited(item) =>
          PendingStep(whole, Scan(visit, |t|, item.Next()), Start(t, magic),
                      Progress(cowBuf.AsView(), newMagicOffset, extraLdrs), next, item);
          newMagicOffset, extraLdrs := EmitItem(cowBuf, item, newMagicOffset, extraLdrs);
          next := item.Next();
      }
    }

    ghost var done := Progress(cowBuf.AsView(), newMagicOffset, extraLdrs);
    assert EmitAll(done, []) == done;
    assert Relocated(visit, 8, encode, t, magic) == Finish(8, encode, done);
    r := FinishThunk(8, encode, cowBuf, newMagicOffset, extraLdrs);
  }

  method TryRelocThunkTemplate(cs: Disassembler, t: seq<Byte>, pc: Address, magic: nat)
    returns (r: Result<RelocThunk>)
    requires Template(t, pc, magic)
    ensures r == Relocated(VisitorOf(cs, A64Recogniser(), t, pc, magic), 8, PoolEncoder(), t, magic)
  {
    r := Relocate(VisitorOf(cs, A64Recogniser(), t, pc, magic), PoolEncoder(), t, magic);
  }
}
