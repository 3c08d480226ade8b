/** The relocator's decoders and encoders, against the architecture. */
module A64Decode {
  import opened Arith
  import opened Bytes
  import opened BitField
  import opened EncodingA64
  import opened A64Machine
  import opened ArmReloc
  import opened A64Reloc

  function WidthOf(opc: LdrImmOpc): Width {
    match opc case Load32 => Word32 case Load64 => Word64 case Load32Sx => Signed32
  }

  /** A field's signed getter is its architectural two's complement value. */
  lemma SignedField(f: Field, w: Word, size: nat)
    requires f.Valid() && size == Pow2(f.Bits())
    ensures f.GetSigned(w) == Signed(f.Get(w), size)
  {
    SignedIsTwosComplement(f, w);
  }

  /** LDR (literal) is recognised exactly when the architecture decodes one, with the same operands. */
  lemma LdrImmDecodes(w: Word)
    ensures LdrImm.TryFromRaw(w).Some? <==> Decode(w).LoadLiteral?
    ensures LdrImm.TryFromRaw(w).Some? ==>
              Decode(w) == LoadLiteral(WidthOf(LdrImm(w).Opc()), LdrImm(w).Reg(), LdrImm(w).Imm() * 4)
  {
    FieldSizes();
    SignedField(LDR_IMM, w, 0x8_0000);
    OpcRawBound(w);
  }

  lemma Pow2Of26()
    ensures Pow2(26) == 0x400_0000
  {
    assert Pow2(2) == 4 && Pow2(8) == 0x100;
    Pow2Sum(8, 8);
    Pow2Sum(16, 8);
    Pow2Sum(24, 2);
  }

  lemma BranchImm(w: Word)
    ensures Branch(w).Imm() == Signed(Bits(w, 0, 26), 0x400_0000)
  {
    Pow2Of26();
    SignedField(B_IMM, w, 0x400_0000);
  }

  /** B is recognised exactly when the architecture decodes one, with the same offset. */
  lemma BranchDecodes(w: Word)
    requires !Decode(w).LoadLiteral? && !Decode(w).PcRelative?
    ensures Branch.TryFromRaw(w).Some? <==> Decode(w).Jump?
    ensures Branch.TryFromRaw(w).Some? ==> Decode(w) == Jump(Branch(w).Imm() * 4)
  {
    BranchImm(w);
    var imm := Branch(w).Imm();
    assert Branch.TryFromRaw(w).Some? <==> Bits(w, 26, 32) == 5;
    if Bits(w, 26, 32) == 5 {
      assert Decode(w) == Jump(imm * 4);
    }
  }

  /** ADR and ADRP are recognised exactly when the architecture decodes one. */
  lemma AdrDecodes(w: Word)
    requires !Decode(w).LoadLiteral?
    ensures Adr.TryFromRaw(w).Some? <==> Decode(w).PcRelative?
    ensures Adr.TryFromRaw(w).Some? ==>
              Decode(w) == PcRelative(Adr(w).IsAdrp(), Adr(w).Reg(), Signed(Adr(w).UnsignedImm(), 0x20_0000))
  {
  }

  /** Bits 19 and 20 of the 21-bit immediate of ADR or ADRP. */
  predicate AdrBitsAgree(w: Word) {
    Adr(w).UnsignedImm() / 0x8_0000 % 2 == Adr(w).UnsignedImm() / 0x10_0000 % 2
  }

  /** The sign is taken from bit 19 instead of bit 20, so the target is right exactly when the two agree. */
  lemma AdrTargetExact(w: Word, pc: Address)
    ensures Adr(w).TargetPc(pc)
         == PcRelativeTarget(Adr(w).IsAdrp(), Signed(Adr(w).UnsignedImm(), 0x20_0000), pc)
         <==> AdrBitsAgree(w)
  {
    var u := Adr(w).UnsignedImm();
    AdrSigned(u);
    SignTells(Adr(w).IsAdrp(), Adr(w).SignedImm(), Signed(u, 0x20_0000), pc, AdrBitsAgree(w));
  }

  /** Immediates 1 MiB, or pages, apart are of different addresses. */
  lemma SignTells(page: bool, code: int, arch: int, pc: Address, agree: bool)
    requires if agree then code == arch else code == arch + 0x10_0000 || code == arch - 0x10_0000
    ensures PcRelativeTarget(page, code, pc) == PcRelativeTarget(page, arch, pc) <==> agree
  {
    if !agree {
      if page {
        Apart(pc - pc % 0x1000 + arch * 0x1000, code * 0x1000 - arch * 0x1000);
      } else {
        Apart(pc + arch, code - arch);
      }
    }
  }

  lemma Apart(a: int, d: int)
    requires d == 0x10_0000 || d == -0x10_0000 || d == 0x1_0000_0000 || d == -0x1_0000_0000
    ensures WrappingAdd(a, d) != WrappingAdd(a, 0)
  {
  }

  /** ADR X0 of an address half a mebibyte further on. */
  const FAR_ADR: Word := 0x1040_0000

  /** It is recognised, and taken for an ADR of the address half a mebibyte before it. */
  lemma AdrSignLost(w: Word, pc: Address)
    requires w == FAR_ADR
    ensures Adr.TryFromRaw(w).Some? && !AdrBitsAgree(w) && Decode(w) == PcRelative(false, 0, 0x8_0000)
    ensures Adr(w).TargetPc(pc) == WrappingAdd(pc, -0x8_0000) != PcRelativeTarget(false, 0x8_0000, pc)
  {
    FarAdrFields(w);
    FarTarget(w, pc, Adr(w).UnsignedImm());
  }

  lemma FarTarget(w: Word, pc: Address, u: nat)
    requires u == Adr(w).UnsignedImm() == 0x8_0000 && !Adr(w).IsAdrp()
    ensures !AdrBitsAgree(w)
    ensures Adr(w).TargetPc(pc) == WrappingAdd(pc, -0x8_0000) != PcRelativeTarget(false, 0x8_0000, pc)
  {
    assert u * 0x1000 % 0x1_0000_0000 == 0x8000_0000;
  }

  lemma FieldValue(f: Field, w: Word, u: nat, s: nat, v: nat)
    requires f.Valid() && u == Pow2(f.start) && s == Pow2(f.Bits()) && v == w / u % s
    ensures f.Get(w) == v
  {
    GetIsDivMod(f, w);
  }

  lemma FarAdrFields(w: Word)
    requires w == FAR_ADR
    ensures Adr.TryFromRaw(w).Some? && !Adr(w).IsAdrp() && Adr(w).UnsignedImm() == 0x8_0000
    ensures Decode(w) == PcRelative(false, 0, 0x8_0000)
  {
    FarPowers();
    FarDigits(w);
    FieldValue(ADR_REG, w, 1, 0x20, 0);
    FieldValue(ADR_IMM_HI, w, 0x20, 0x8_0000, 0x2_0000);
    FieldValue(ADR_FIXED, w, 0x100_0000, 0x20, 16);
    FieldValue(ADR_IMM_LO, w, 0x2000_0000, 4, 0);
    FieldValue(ADR_IS_ADRP, w, 0x8000_0000, 2, 0);
    FieldValue(Field(24, 30), w, 0x100_0000, 0x40, 16);
    FarDecodes(w);
  }

  lemma FarDigits(w: nat)
    requires w == 0x1040_0000
    ensures w / 1 % 0x20 == 0 && w / 0x20 % 0x8_0000 == 0x2_0000 && w / 0x100_0000 % 0x20 == 16
    ensures w / 0x2000_0000 % 4 == 0 && w / 0x8000_0000 % 2 == 0 && w / 0x100_0000 % 0x40 == 16
  {
  }

  lemma FarDecodes(w: Word)
    requires ADR_REG.Get(w) == 0 && ADR_IMM_HI.Get(w) == 0x2_0000 && ADR_FIXED.Get(w) == 16 && ADR_IMM_LO.Get(w) == 0
    requires ADR_IS_ADRP.Get(w) == 0 && Field(24, 30).Get(w) == 16
    ensures Adr.TryFromRaw(w).Some? && !Adr(w).IsAdrp() && Adr(w).UnsignedImm() == 0x8_0000
    ensures Decode(w) == PcRelative(false, 0, 0x8_0000)
  {
    AdrDecodes(w);
  }

  lemma FarPowers()
    ensures Pow2(0) == 1 && Pow2(1) == 2 && Pow2(2) == 4 && Pow2(4) == 16
    ensures Pow2(5) == 0x20 && Pow2(6) == 0x40 && Pow2(19) == 0x8_0000
    ensures Pow2(24) == 0x100_0000 && Pow2(29) == 0x2000_0000 && Pow2(30) == 0x4000_0000 && Pow2(31) == 0x8000_0000
  {
    FieldSizes();
    Pow2Sum(5, 19);
    Pow2Sum(5, 24);
    Pow2Sum(1, 29);
    Pow2Sum(2, 29);
  }

  lemma AdrSigned(u: nat)
    requires u < 0x20_0000
    ensures var code := AsI32(u * 0x1000 % 0x1_0000_0000) / 0x1000;
            var arch := Signed(u, 0x20_0000);
            if u / 0x8_0000 % 2 == u / 0x10_0000 % 2 then code == arch
            else code == arch + 0x10_0000 || code == arch - 0x10_0000
  {
    if u < 0x10_0000 {
      assert u * 0x1000 % 0x1_0000_0000 == u * 0x1000;
    } else {
      assert u * 0x1000 % 0x1_0000_0000 == (u - 0x10_0000) * 0x1000;
    }
  }

  /** The word that replaces a literal load is a load of the same width through the same register. */
  lemma LoadThroughDecodes(opc: LdrImmOpc, reg: nat)
    requires reg < 32
    ensures LoadThrough(opc, reg).Some?
    ensures Decode(LoadThrough(opc, reg).value) == LoadOffset(WidthOf(opc), reg, reg, 0)
  {
    LdrOfsNewReadsBack(opc, reg, reg, 0);
    var w := LdrOfs.New(opc, reg, reg, 0).value.raw;
    ZeroFactor(OFS_DISP.Get(w), Pow2(OFS_SCALE.Get(w)));
    LoadOffsetWord(w, opc, reg);
  }

  lemma LoadOffsetWord(w: Word, opc: LdrImmOpc, reg: nat)
    requires OFS_FIXED.Get(w) == 57 && OFS_OPC.Get(w) == OfsOpc(opc) && OFS_SCALE.Get(w) == OfsScale(opc)
    requires OFS_DEST.Get(w) == reg && OFS_BASE.Get(w) == reg && OFS_DISP.Get(w) == 0
    ensures Decode(w) == LoadOffset(WidthOf(opc), reg, reg, 0)
  {
    FixedBits(w);
  }

  /** A word with 57 in bits 24 to 29 is neither ADR nor B. */
  lemma FixedBits(w: Word)
    requires Field(24, 30).Get(w) == 57
    ensures Field(24, 29).Get(w) != 16 && Field(26, 32).Get(w) != 5
  {
    SubField(Field(24, 30), Field(24, 29), w);
    SubField(Field(24, 30), Field(26, 30), w);
    SubField(Field(26, 32), Field(26, 30), w);
    LowValues();
  }

  lemma LowValues()
    ensures Low(Shr(57, 0), 5) == 25 && Low(Shr(57, 2), 4) == 14 && Low(Shr(5, 0), 4) == 5
  {
  }

  lemma ZeroFactor(d: nat, p: nat)
    requires p > 0 && d * p == 0
    ensures d == 0
  {
    if d > 0 {
      MulMono(1, d, p);
    }
  }

  /** `imm` is the quotient computed, `read` what the instruction's immediate decodes to. */
  lemma ReachExact(distance: nat, imm: int, ok: bool, read: int)
    requires imm == Quotient(AsI32(distance % 0x1_0000_0000), 4)
    requires ok <==> -0x8_0000 <= imm < 0x8_0000
    requires ok ==> -0x4_0000 <= read < 0x4_0000 && (read == imm <==> -0x4_0000 <= imm < 0x4_0000)
    ensures ok && read * 4 == distance <==> distance % 4 == 0 && distance < 0x10_0000
  {
  }

  /**
   The literal load of a placeholder reaches its literal exactly when the distance is a multiple of
   four below 1 MiB.
   */
  lemma PoolLoadReaches(reg: nat, distance: nat)
    requires reg < 32
    ensures PoolLoad(reg, distance).Some?
            && Decode(PoolLoad(reg, distance).value.raw) == LoadLiteral(Word64, reg, distance)
            <==> distance % 4 == 0 && distance < 0x10_0000
  {
    var imm := Quotient(AsI32(distance % 0x1_0000_0000), 4);
    LdrImmNewReadsBack(Load64, reg, imm);
    var load := PoolLoad(reg, distance);
    if load.Some? {
      PoolWordDecodes(load.value, reg);
      ReachExact(distance, imm, true, load.value.Imm());
    } else {
      ReachExact(distance, imm, false, 0);
    }
  }

  /** A literal one mebibyte further on, or up to two, is accepted, and the load made for it reads somewhere else. */
  lemma PoolLoadMisses(reg: nat, distance: nat)
    requires reg < 32 && distance % 4 == 0 && 0x10_0000 <= distance < 0x20_0000
    ensures PoolLoad(reg, distance).Some?
    ensures Decode(PoolLoad(reg, distance).value.raw).LoadLiteral?
    ensures Decode(PoolLoad(reg, distance).value.raw) != LoadLiteral(Word64, reg, distance)
  {
    var imm := FarQuotient(distance);
    LdrImmNewReadsBack(Load64, reg, imm);
    PoolWordDecodes(LdrImm.New(Load64, reg, imm).value, reg);
    PoolLoadReaches(reg, distance);
  }

  lemma FarQuotient(distance: nat) returns (imm: int)
    requires 0x10_0000 <= distance < 0x20_0000
    ensures imm == Quotient(AsI32(distance % 0x1_0000_0000), 4) && 0x4_0000 <= imm < 0x8_0000
  {
    imm := distance / 4;
  }

  lemma PoolWordDecodes(ldr: LdrImm, reg: nat)
    requires LdrImm.TryFromRaw(ldr.raw) == Some(ldr) && ldr.Opc() == Load64 && ldr.Reg() == reg
    ensures Decode(ldr.raw) == LoadLiteral(Word64, reg, ldr.Imm() * 4)
    ensures -0x4_0000 <= ldr.Imm() < 0x4_0000
  {
    LdrImmDecodes(ldr.raw);
    LdrImmRange(ldr);
  }

  /** What the decoders make of a word is what it means. */
  predicate Agrees(d: Decoded, insn: Insn, w: Word, a: Address) {
    match d
    case AnLdr(reg, target, through) =>
      && insn.LoadLiteral? && insn.rt == reg < 32 && WrappingAdd(a, insn.offset) == target
      && through.Some? && Decode(through.value) == LoadOffset(insn.width, reg, reg, 0)
    case AnAdr(reg, target) =>
      && insn.PcRelative? && insn.rd == reg < 32
      && (PcRelativeTarget(insn.page, insn.imm, a) == target <==> AdrBitsAgree(w))
    case ABranch(target) => insn.Jump? && WrappingAdd(a, insn.offset) == target
    case Another => insn.LoadOffset? || insn.JumpRegister? || insn.OtherBranch? || insn.Other?
  }

  lemma LdrAgrees(w: Word, a: Address)
    requires LdrImm.TryFromRaw(w).Some?
    ensures Agrees(Recognise(w, a), Decode(w), w, a)
  {
    LdrImmDecodes(w);
    LoadThroughDecodes(LdrImm(w).Opc(), LdrImm(w).Reg());
  }

  lemma AdrAgrees(w: Word, a: Address)
    requires LdrImm.TryFromRaw(w).None? && Adr.TryFromRaw(w).Some?
    ensures Agrees(Recognise(w, a), Decode(w), w, a)
  {
    LdrImmDecodes(w);
    AdrDecodes(w);
    AdrTargetExact(w, a);
  }

  lemma BranchAgrees(w: Word, a: Address)
    requires LdrImm.TryFromRaw(w).None? && Adr.TryFromRaw(w).None? && Branch.TryFromRaw(w).Some?
    ensures Agrees(Recognise(w, a), Decode(w), w, a)
  {
    LdrImmDecodes(w);
    AdrDecodes(w);
    BranchDecodes(w);
    assert Recognise(w, a) == ABranch(Branch(w).TargetPc(a));
    assert Decode(w) == Jump(Branch(w).Imm() * 4);
  }

  lemma JumpAligned(w: Word)
    ensures Decode(w).Jump? ==> Decode(w).offset % 4 == 0
  {
    FourTimes(Signed(Bits(w, 0, 26), 0x400_0000));
  }

  lemma FourTimes(x: int)
    ensures 4 * x % 4 == 0
  {
  }

  lemma NoneAgrees(w: Word, a: Address)
    requires LdrImm.TryFromRaw(w).None? && Adr.TryFromRaw(w).None? && Branch.TryFromRaw(w).None?
    ensures Agrees(Recognise(w, a), Decode(w), w, a)
  {
    LdrImmDecodes(w);
    AdrDecodes(w);
    BranchDecodes(w);
    assert Recognise(w, a) == Another;
  }

  /** A literal load into a vector register, or a prefetch of a literal, is taken for an instruction that can be kept:
      the scan copies it as it is, and moved by `delta` to a copy at `base` it names the same address exactly when that
      leaves it where it was. */
  lemma LiteralKept(w: Word, pc: Address, len: nat, magic: nat, o: nat, base: Address, delta: nat)
    requires UnhandledLiteral(w) && o + 4 <= len && pc + len < 0x1_0000_0000_0000_0000
    requires base + o + delta < 0x1_0000_0000_0000_0000
    ensures Decode(w) == Other && Decide(Recognise(w, pc + o), false, pc, len, magic, o) == Visited(Kept(o))
    ensures LiteralAddress(w, base + o + delta) == LiteralAddress(w, pc + o) <==> base + delta == pc
  {
    LiteralBits(w);
    NoneAgrees(w, pc + o);
    SameOffset(base + o + delta, pc + o, 4 * Signed(Bits(w, 5, 24), 0x8_0000));
  }

  /** Two addresses the same distance away are the same only from the same address. */
  lemma SameOffset(a: Address, b: Address, offset: int)
    ensures WrappingAdd(a, offset) == WrappingAdd(b, offset) <==> a == b
  {
    if WrappingAdd(a, offset) == WrappingAdd(b, offset) {
      var p, q := (a + offset) / 0x1_0000_0000_0000_0000, (b + offset) / 0x1_0000_0000_0000_0000;
      assert a - b == 0x1_0000_0000_0000_0000 * (p - q);
    }
  }

  lemma LiteralBits(w: Word)
    requires UnhandledLiteral(w)
    ensures LdrImm.TryFromRaw(w).None? && Adr.TryFromRaw(w).None? && Branch.TryFromRaw(w).None? && Decode(w) == Other
  {
    LiteralNotAdr(w, Bits(w, 24, 30));
    LiteralNotB(w, Bits(w, 24, 30));
    LiteralNotBranch(w, Bits(w, 24, 30));
    LiteralNotJump(w, Bits(w, 24, 30));
  }

  lemma LiteralNotAdr(w: Word, v: nat)
    requires v == Bits(w, 24, 30) && (v == 24 || v == 28)
    ensures Bits(w, 24, 29) != 16
  {
    SubField(Field(24, 30), Field(24, 29), w);
    AdrValues();
  }

  lemma LiteralNotB(w: Word, v: nat)
    requires v == Bits(w, 24, 30) && (v == 24 || v == 28)
    ensures Bits(w, 26, 32) != 5 && Bits(w, 26, 32) != 37
  {
    SubField(Field(24, 30), Field(26, 30), w);
    SubField(Field(26, 32), Field(26, 30), w);
    BValues();
  }

  lemma AdrValues()
    ensures Low(Shr(24, 0), 5) == 24 && Low(Shr(28, 0), 5) == 28
  {
    FiveBits(24, 24);
    FiveBits(28, 28);
  }

  lemma BValues()
    ensures Low(Shr(24, 2), 4) == 6 && Low(Shr(28, 2), 4) == 7 && Low(Shr(5, 0), 4) == 5 && Low(Shr(37, 0), 4) == 5
  {
    FarPowers();
    DigitIs(24, 2, 4, 4, 16, 6);
    DigitIs(28, 2, 4, 4, 16, 7);
    DigitIs(5, 0, 4, 1, 16, 5);
    DigitIs(37, 0, 4, 1, 16, 5);
  }

  lemma BranchValues()
    ensures Low(Shr(24, 1), 5) == 12 && Low(Shr(28, 1), 5) == 14 && Low(Shr(42, 0), 5) == 10
    ensures Low(Shr(107, 0), 5) == 11
    ensures Low(Shr(26, 0), 5) == 26 && Low(Shr(27, 0), 5) == 27
  {
    FarPowers();
    DigitIs(24, 1, 5, 2, 32, 12);
    DigitIs(28, 1, 5, 2, 32, 14);
    FiveBits(42, 10);
    FiveBits(107, 11);
    FiveBits(26, 26);
    FiveBits(27, 27);
  }

  lemma FiveBits(x: nat, v: nat)
    requires v == x % 32
    ensures Low(Shr(x, 0), 5) == v
  {
    FieldSizes();
    DigitIs(x, 0, 5, 1, 32, v);
  }

  lemma JumpValue()
    ensures Low(Shr(0x35_87C0, 14), 6) == 22
  {
    assert Shr(0x35_87C0, 14) == 214 && Low(214, 6) == 22;
  }

  lemma LiteralNotBranch(w: Word, v: nat)
    requires v == Bits(w, 24, 30) && (v == 24 || v == 28)
    ensures Bits(w, 25, 32) != 42 && Bits(w, 25, 32) != 107 && Bits(w, 25, 31) != 26 && Bits(w, 25, 31) != 27
  {
    SubField(Field(24, 30), Field(25, 30), w);
    SubField(Field(25, 32), Field(25, 30), w);
    SubField(Field(25, 31), Field(25, 30), w);
    BranchValues();
  }

  lemma LiteralNotJump(w: Word, v: nat)
    requires v == Bits(w, 24, 30) && (v == 24 || v == 28)
    ensures Bits(w, 10, 32) != 0x35_87C0
  {
    SubField(Field(10, 32), Field(24, 30), w);
    JumpValue();
  }

  lemma RecogniseAgrees(w: Word, a: Address)
    ensures Agrees(Recognise(w, a), Decode(w), w, a)
  {
    if LdrImm.TryFromRaw(w).Some? {
      LdrAgrees(w, a);
    } else if Adr.TryFromRaw(w).Some? {
      AdrAgrees(w, a);
    } else if Branch.TryFromRaw(w).Some? {
      BranchAgrees(w, a);
    } else {
      NoneAgrees(w, a);
    }
  }
}
