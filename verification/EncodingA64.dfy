/** The A64 instruction encoders and decoders of `encoding_aarch64.rs`. */
module EncodingA64 {
  import opened Arith
  import opened Bytes
  import opened BitField

  datatype LdrImmOpc = Load32 | Load64 | Load32Sx {
    function Raw(): nat {
      match this case Load32 => 0 case Load64 => 1 case Load32Sx => 2
    }
  }

  // ---------- LDR (literal) ----------

  const LDR_REG := Field(0, 5)
  const LDR_IMM := Field(5, 24)
  const LDR_FIXED := Field(24, 30)
  const LDR_OPC := Field(30, 32)

  datatype LdrImm = LdrImm(raw: Word) {
    function Reg(): (r: nat)
      ensures r < 32
    {
      FieldSizes();
      LDR_REG.Get(raw)
    }

    function Imm(): int { LDR_IMM.GetSigned(raw) }
    function OpcRaw(): nat { LDR_OPC.Get(raw) }

    predicate AssertOpcode() { LDR_FIXED.Get(raw) == 24 && OpcRaw() != 3 }

    static function TryFromRaw(raw: Word): Option<LdrImm> {
      if LdrImm(raw).AssertOpcode() then Some(LdrImm(raw)) else None
    }

    static function New(opc: LdrImmOpc, reg: nat, imm: int): Option<LdrImm> {
      var withReg :- LDR_REG.TrySet(0, reg);
      var withImm :- LDR_IMM.TrySetSigned(withReg, imm);
      Some(LdrImm(LDR_OPC.Set(LDR_FIXED.Set(withImm, 24), opc.Raw())))
    }

    function TargetPc(pc: Address): Address { WrappingAdd(pc, Imm() * 4) }

    function Opc(): LdrImmOpc
      requires AssertOpcode()
    {
      OpcRawBound(raw);
      match OpcRaw() case 0 => Load32 case 1 => Load64 case 2 => Load32Sx
    }
  }

  lemma OpcRawBound(raw: Word)
    ensures LDR_OPC.Get(raw) < 4
  {
    assert Pow2(2) == 4;
  }

  lemma FieldSizes()
    ensures Pow2(2) == 4 && Pow2(5) == 32 && Pow2(6) == 64
    ensures Pow2(18) == 0x4_0000 && Pow2(19) == 0x8_0000
  {
    assert Pow2(9) == 0x200;
    Pow2Sum(9, 9);
  }

  lemma LdrImmNewSucceeds(opc: LdrImmOpc, reg: nat, imm: int)
    ensures LdrImm.New(opc, reg, imm).Some? <==> reg < 32 && -0x8_0000 <= imm < 0x8_0000
  {
    FieldSizes();
    TrySetExact(LDR_REG, 0, reg);
    TrySetSignedExact(LDR_IMM, LDR_REG.Set(0, reg), imm);
  }

  function SetAll(opc: LdrImmOpc, reg: nat, imm: int): Word {
    LDR_OPC.Set(LDR_FIXED.Set(LDR_IMM.Set(LDR_REG.Set(0, reg), imm), 24), opc.Raw())
  }

  lemma LdrImmNewIsSets(opc: LdrImmOpc, reg: nat, imm: int)
    requires LdrImm.New(opc, reg, imm).Some?
    ensures LdrImm.New(opc, reg, imm).value.raw == SetAll(opc, reg, imm % 0x1_0000_0000)
  {
  }

  lemma LdrImmNewFields(opc: LdrImmOpc, reg: nat, imm: int)
    requires LdrImm.New(opc, reg, imm).Some?
    ensures var r := LdrImm.New(opc, reg, imm).value.raw;
            && LDR_REG.Get(r) == Low(reg, 5) && LDR_FIXED.Get(r) == Low(24, 6) && LDR_OPC.Get(r) == Low(opc.Raw(), 2)
            && LDR_IMM.Get(r) == LDR_IMM.Get(LDR_IMM.SetSigned(LDR_REG.Set(0, reg), imm))
  {
    LdrImmNewIsSets(opc, reg, imm);
    SetFour(LDR_REG, LDR_IMM, LDR_FIXED, LDR_OPC, 0, reg, imm % 0x1_0000_0000, 24, opc.Raw());
  }

  lemma LdrImmNewImm(opc: LdrImmOpc, reg: nat, imm: int)
    requires LdrImm.New(opc, reg, imm).Some?
    ensures LdrImm.New(opc, reg, imm).value.Imm() == imm <==> -0x4_0000 <= imm < 0x4_0000
  {
    FieldSizes();
    LdrImmNewFields(opc, reg, imm);
    TrySetSignedExact(LDR_IMM, LDR_REG.Set(0, reg), imm);
    SignedInjective(LDR_IMM, LdrImm.New(opc, reg, imm).value.raw, LDR_IMM.SetSigned(LDR_REG.Set(0, reg), imm));
  }

  /**
   `new` succeeds exactly on a 5-bit register and an immediate in [-2^19, 2^19). The word it builds
   decodes back to the opcode and register, and to the immediate exactly when it is in [-2^18, 2^18).
   */
  lemma LdrImmNewReadsBack(opc: LdrImmOpc, reg: nat, imm: int)
    ensures LdrImm.New(opc, reg, imm).Some? <==> reg < 32 && -0x8_0000 <= imm < 0x8_0000
    ensures LdrImm.New(opc, reg, imm).Some? ==>
              var ldr := LdrImm.New(opc, reg, imm).value;
              && LdrImm.TryFromRaw(ldr.raw) == Some(ldr)
              && ldr.Opc() == opc && ldr.Reg() == reg
              && (ldr.Imm() == imm <==> -0x4_0000 <= imm < 0x4_0000)
  {
    LdrImmNewSucceeds(opc, reg, imm);
    if LdrImm.New(opc, reg, imm).Some? {
      LdrImmNewImm(opc, reg, imm);
      LdrImmNewFields(opc, reg, imm);
      FieldSizes();
      LowOfSmall(reg, 5);
      LowOfSmall(24, 6);
      LowOfSmall(opc.Raw(), 2);
    }
  }

  lemma LdrRegValue(w: Word)
    ensures LDR_REG.Get(w) == w % 32
  {
    FieldSizes();
    GetIsDivMod(LDR_REG, w);
  }

  lemma LdrImmValue(w: Word)
    ensures LDR_IMM.Get(w) == w / 32 % 0x8_0000
  {
    FieldSizes();
    GetIsDivMod(LDR_IMM, w);
  }

  lemma LdrFixedValue(w: Word)
    ensures LDR_FIXED.Get(w) == w / 0x100_0000 % 64
  {
    FieldSizes();
    Pow2Sum(5, 19);
    GetIsDivMod(LDR_FIXED, w);
  }

  lemma LdrOpcValue(w: Word)
    ensures LDR_OPC.Get(w) == w / 0x4000_0000 % 4
  {
    FieldSizes();
    Pow2Sum(5, 19);
    Pow2Sum(24, 6);
    GetIsDivMod(LDR_OPC, w);
  }

  /** A word is the sum of its four LDR (literal) fields. */
  lemma LdrImmWord(w: Word)
    ensures w == LDR_REG.Get(w) + 32 * LDR_IMM.Get(w) + 0x100_0000 * LDR_FIXED.Get(w) + 0x4000_0000 * LDR_OPC.Get(w)
  {
    LdrRegValue(w);
    LdrImmValue(w);
    LdrFixedValue(w);
    LdrOpcValue(w);
    FourDigits(w);
  }

  lemma LdrImmSameFields(a: Word, b: Word)
    requires LDR_REG.Get(a) == LDR_REG.Get(b) && LDR_IMM.Get(a) == LDR_IMM.Get(b)
    requires LDR_FIXED.Get(a) == LDR_FIXED.Get(b) && LDR_OPC.Get(a) == LDR_OPC.Get(b)
    ensures a == b
  {
    LdrImmWord(a);
    LdrImmWord(b);
  }

  lemma LdrImmRange(ldr: LdrImm)
    ensures -0x4_0000 <= ldr.Imm() < 0x4_0000
  {
    FieldSizes();
    SignedIsTwosComplement(LDR_IMM, ldr.raw);
  }

  lemma LdrImmDetermined(a: LdrImm, b: LdrImm)
    requires a.AssertOpcode() && b.AssertOpcode()
    requires a.Opc() == b.Opc() && a.Reg() == b.Reg() && a.Imm() == b.Imm()
    ensures a == b
  {
    OpcRawBound(a.raw);
    OpcRawBound(b.raw);
    SignedInjective(LDR_IMM, a.raw, b.raw);
    LdrImmSameFields(a.raw, b.raw);
  }

  /** Every word accepted as an LDR (literal) is rebuilt exactly from its decoded fields. */
  lemma LdrImmRebuilt(ldr: LdrImm)
    requires ldr.AssertOpcode()
    ensures LdrImm.New(ldr.Opc(), ldr.Reg(), ldr.Imm()) == Some(ldr)
  {
    LdrImmRange(ldr);
    var opc, reg, imm := ldr.Opc(), ldr.Reg(), ldr.Imm();
    LdrImmNewReadsBack(opc, reg, imm);
    LdrImmDetermined(ldr, LdrImm.New(opc, reg, imm).value);
  }

  // ---------- ADR and ADRP ----------

  const ADR_REG := Field(0, 5)
  const ADR_IMM_HI := Field(5, 24)
  const ADR_FIXED := Field(24, 29)
  const ADR_IMM_LO := Field(29, 31)
  const ADR_IS_ADRP := Field(31, 32)

  datatype Adr = Adr(raw: Word) {
    function Reg(): (r: nat)
      ensures r < 32
    {
      FieldSizes();
      ADR_REG.Get(raw)
    }

    predicate AssertOpcode() { ADR_FIXED.Get(raw) == 16 }
    predicate IsAdrp() { ADR_IS_ADRP.Get(raw) == 1 }

    static function TryFromRaw(raw: Word): Option<Adr> {
      if Adr(raw).AssertOpcode() then Some(Adr(raw)) else None
    }

    /** The 21-bit immediate, before any sign is given to it. */
    function UnsignedImm(): (u: nat)
      ensures u < 0x20_0000
    {
      FieldSizes();
      4 * ADR_IMM_HI.Get(raw) + ADR_IMM_LO.Get(raw)
    }

    /** `(unsigned_imm << 12) as i32 >> 12`. */
    function SignedImm(): int {
      AsI32(UnsignedImm() * 0x1000 % 0x1_0000_0000) / 0x1000
    }

    function TargetPc(pc: Address): Address {
      if IsAdrp() then WrappingAdd(pc - pc % 0x1000, SignedImm() * 0x1000)
      else WrappingAdd(pc, SignedImm())
    }
  }

  // ---------- B ----------

  const B_IMM := Field(0, 26)
  const B_FIXED := Field(26, 32)

  datatype Branch = Branch(raw: Word) {
    function Imm(): int { B_IMM.GetSigned(raw) }
    predicate AssertOpcode() { B_FIXED.Get(raw) == 5 }

    static function TryFromRaw(raw: Word): Option<Branch> {
      if Branch(raw).AssertOpcode() then Some(Branch(raw)) else None
    }

    function TargetPc(pc: Address): Address { WrappingAdd(pc, Imm() * 4) }
  }

  // ---------- LDR (immediate, unsigned offset) ----------

  const OFS_DEST := Field(0, 5)
  const OFS_BASE := Field(5, 10)
  const OFS_DISP := Field(10, 22)
  const OFS_OPC := Field(22, 24)
  const OFS_FIXED := Field(24, 30)
  const OFS_SCALE := Field(30, 32)

  datatype LdrOfs = LdrOfs(raw: Word) {
    function RegDest(): nat { OFS_DEST.Get(raw) }
    function RegBase(): nat { OFS_BASE.Get(raw) }
    function Scale(): nat { OFS_SCALE.Get(raw) }
    function Disp(): nat { OFS_DISP.Get(raw) * Pow2(Scale()) }

    function TrySetDisp(disp: nat): Option<LdrOfs> {
      if disp % Pow2(Scale()) != 0 then None
      else
        var withDisp :- OFS_DISP.TrySet(raw, disp / Pow2(Scale()));
        Some(LdrOfs(withDisp))
    }

    static function New(opc: LdrImmOpc, regDest: nat, regBase: nat, disp: nat): Option<LdrOfs> {
      var withDest :- OFS_DEST.TrySet(OFS_FIXED.Set(0, 57), regDest);
      var withBase :- OFS_BASE.TrySet(withDest, regBase);
      LdrOfs(OFS_SCALE.Set(OFS_OPC.Set(withBase, OfsOpc(opc)), OfsScale(opc))).TrySetDisp(disp)
    }
  }

  function OfsOpc(opc: LdrImmOpc): nat { if opc == Load32Sx then 2 else 1 }
  function OfsScale(opc: LdrImmOpc): nat { if opc == Load64 then 3 else 2 }

  /** The word before the displacement is set. */
  function OfsWord(opc: LdrImmOpc, regDest: nat, regBase: nat): Word {
    OFS_SCALE.Set(OFS_OPC.Set(OFS_BASE.Set(OFS_DEST.Set(OFS_FIXED.Set(0, 57), regDest), regBase), OfsOpc(opc)),
                  OfsScale(opc))
  }

  lemma OfsWordFields(opc: LdrImmOpc, regDest: nat, regBase: nat)
    ensures var r := OfsWord(opc, regDest, regBase);
            && OFS_FIXED.Get(r) == Low(57, 6) && OFS_DEST.Get(r) == Low(regDest, 5)
            && OFS_BASE.Get(r) == Low(regBase, 5)
            && OFS_OPC.Get(r) == Low(OfsOpc(opc), 2) && OFS_SCALE.Get(r) == Low(OfsScale(opc), 2)
  {
    var w := OFS_OPC.Set(OFS_BASE.Set(OFS_DEST.Set(OFS_FIXED.Set(0, 57), regDest), regBase), OfsOpc(opc));
    SetFour(OFS_FIXED, OFS_DEST, OFS_BASE, OFS_OPC, 0, 57, regDest, regBase, OfsOpc(opc));
    SetKeepsDisjoint(OFS_SCALE, OFS_FIXED, w, OfsScale(opc));
    SetKeepsDisjoint(OFS_SCALE, OFS_DEST, w, OfsScale(opc));
    SetKeepsDisjoint(OFS_SCALE, OFS_BASE, w, OfsScale(opc));
    SetKeepsDisjoint(OFS_SCALE, OFS_OPC, w, OfsScale(opc));
  }

  lemma LdrOfsNewIsWord(opc: LdrImmOpc, regDest: nat, regBase: nat, disp: nat)
    ensures LdrOfs.New(opc, regDest, regBase, disp)
         == if regDest < 32 && regBase < 32 then LdrOfs(OfsWord(opc, regDest, regBase)).TrySetDisp(disp) else None
  {
    assert Pow2(5) == 32;
    TrySetExact(OFS_DEST, OFS_FIXED.Set(0, 57), regDest);
    TrySetExact(OFS_BASE, OFS_DEST.Set(OFS_FIXED.Set(0, 57), regDest), regBase);
  }

  lemma OfsWordValues(opc: LdrImmOpc, regDest: nat, regBase: nat)
    requires regDest < 32 && regBase < 32
    ensures var r := OfsWord(opc, regDest, regBase);
            && OFS_FIXED.Get(r) == 57 && OFS_DEST.Get(r) == regDest && OFS_BASE.Get(r) == regBase
            && OFS_OPC.Get(r) == OfsOpc(opc) && OFS_SCALE.Get(r) == OfsScale(opc)
  {
    FieldSizes();
    OfsWordFields(opc, regDest, regBase);
    LowOfSmall(57, 6);
    LowOfSmall(regDest, 5);
    LowOfSmall(regBase, 5);
    LowOfSmall(OfsOpc(opc), 2);
    LowOfSmall(OfsScale(opc), 2);
  }

  lemma LdrOfsDisp(r: Word, x: nat)
    requires x < 0x1000
    ensures OFS_DISP.TrySet(r, x).Some?
    ensures var s := OFS_DISP.TrySet(r, x).value;
            && OFS_DISP.Get(s) == x && OFS_FIXED.Get(s) == OFS_FIXED.Get(r) && OFS_DEST.Get(s) == OFS_DEST.Get(r)
            && OFS_BASE.Get(s) == OFS_BASE.Get(r) && OFS_OPC.Get(s) == OFS_OPC.Get(r)
            && OFS_SCALE.Get(s) == OFS_SCALE.Get(r)
  {
    assert Pow2(12) == 0x1000;
    TrySetExact(OFS_DISP, r, x);
    SetKeepsDisjoint(OFS_DISP, OFS_FIXED, r, x);
    SetKeepsDisjoint(OFS_DISP, OFS_DEST, r, x);
    SetKeepsDisjoint(OFS_DISP, OFS_BASE, r, x);
    SetKeepsDisjoint(OFS_DISP, OFS_OPC, r, x);
    SetKeepsDisjoint(OFS_DISP, OFS_SCALE, r, x);
  }

  /**
   `LdrOfs::new` succeeds exactly on two 5-bit registers and a displacement that is a multiple of the
   access size with a 12-bit quotient, and every field of the word reads back.
   */
  lemma LdrOfsNewReadsBack(opc: LdrImmOpc, regDest: nat, regBase: nat, disp: nat)
    ensures LdrOfs.New(opc, regDest, regBase, disp).Some? <==>
              && regDest < 32 && regBase < 32
              && (if opc == Load64 then disp % 8 == 0 && disp < 0x8000 else disp % 4 == 0 && disp < 0x4000)
    ensures LdrOfs.New(opc, regDest, regBase, disp).Some? ==>
              var ldr := LdrOfs.New(opc, regDest, regBase, disp).value;
              && OFS_FIXED.Get(ldr.raw) == 57 && OFS_OPC.Get(ldr.raw) == OfsOpc(opc) && ldr.Scale() == OfsScale(opc)
              && ldr.RegDest() == regDest && ldr.RegBase() == regBase && ldr.Disp() == disp
  {
    LdrOfsNewIsWord(opc, regDest, regBase, disp);
    if regDest < 32 && regBase < 32 {
      OfsWordValues(opc, regDest, regBase);
      LdrOfsScaled(OfsWord(opc, regDest, regBase), OfsScale(opc), disp);
    }
  }

  lemma LdrOfsScaled(r: Word, scale: nat, disp: nat)
    requires 2 <= scale <= 3 && OFS_SCALE.Get(r) == scale
    ensures LdrOfs(r).TrySetDisp(disp).Some? <==>
              if scale == 3 then disp % 8 == 0 && disp < 0x8000 else disp % 4 == 0 && disp < 0x4000
    ensures LdrOfs(r).TrySetDisp(disp).Some? ==>
              var s := LdrOfs(r).TrySetDisp(disp).value;
              && s.Disp() == disp && OFS_FIXED.Get(s.raw) == OFS_FIXED.Get(r) && OFS_DEST.Get(s.raw) == OFS_DEST.Get(r)
              && OFS_BASE.Get(s.raw) == OFS_BASE.Get(r) && OFS_OPC.Get(s.raw) == OFS_OPC.Get(r)
              && s.Scale() == scale
  {
    var size := if scale == 3 then 8 else 4;
    assert Pow2(scale) == size;
    assert Pow2(12) == 0x1000;
    if disp % size == 0 {
      var x := disp / size;
      TrySetExact(OFS_DISP, r, x);
      if x < 0x1000 {
        LdrOfsDisp(r, x);
      }
    }
  }
}
