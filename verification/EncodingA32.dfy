/** The A32 instruction encoders and decoders of `encoding_arm.rs`. */
module EncodingA32 {
  import opened Bytes
  import opened BitField

  const PC_OFFSET := 8

  /** `x & !3`. */
  function ClearLowTwo(x: int): int { x - x % 4 }

  /** The value of PC an instruction uses as the base of a literal. */
  function EffectivePc(instrPc: int): int { ClearLowTwo(instrPc + PC_OFFSET) }

  /** `pc + disp` or `pc - disp`, in 32 bits. */
  function Displaced(pc: int, add: bool, disp: int): Word { if add then Wrap32(pc + disp) else Wrap32(pc - disp) }

  // ---------- LDR (immediate) ----------

  const LDR_IMM := Field(0, 12)
  const LDR_RT := Field(12, 16)
  const LDR_RN := Field(16, 20)
  const LDR_FIXED0 := Field(20, 23)
  const LDR_U := Field(23, 24)
  const LDR_FIXED1 := Field(24, 32)

  function Abs(x: int): nat { if x < 0 then -x else x }

  datatype LdrImm = LdrImm(raw: Word) {
    static function New(rt: nat, rn: nat, imm: int): Option<LdrImm> {
      var withImm :- LDR_IMM.TrySet(0, Abs(imm));
      var withRt :- LDR_RT.TrySet(withImm, rt);
      var withRn :- LDR_RN.TrySet(withRt, rn);
      Some(LdrImm(LDR_FIXED1.Set(LDR_U.Set(LDR_FIXED0.Set(withRn, 1), if imm >= 0 then 1 else 0), 0xE5)))
    }

    /** A load of the literal at `target` by an instruction at `pc`. */
    static function NewLit(pc: nat, reg: nat, target: nat): Option<LdrImm> {
      New(reg, 15, target - EffectivePc(pc))
    }
  }

  // ---------- loads ----------

  /** The instructions the disassembler tells apart: the word and byte loads, the extra loads, and the rest. */
  datatype InsnId = WordOrByteLoad | ExtraLoad | Branch | AnyOther

  const EX_IMM_LO := Field(0, 4)
  const EX_IMM_HI := Field(8, 12)

  datatype LoadImm = WB(raw: Word) | Ex(raw: Word) {
    static function TryFromRaw(id: InsnId, raw: Word): Option<LoadImm> {
      match id
      case WordOrByteLoad => Some(WB(raw))
      case ExtraLoad => Some(Ex(raw))
      case _ => None
    }

    function Rt(): nat { LDR_RT.Get(raw) }

    /** Shifting and or-ing disjoint bits is multiplying and adding. */
    function Imm(): nat {
      if WB? then LDR_IMM.Get(raw) else 0x10 * EX_IMM_HI.Get(raw) + EX_IMM_LO.Get(raw)
    }

    function TargetPc(instrPc: Word): Option<Word> {
      if LDR_RN.Get(raw) != 15 then None
      else
        Some(Displaced(EffectivePc(instrPc), LDR_U.Get(raw) == 1, Imm()))
    }

    /** The same load with its base register set to its target register and a zero immediate. */
    function AsRtLoad(): Word {
      var withRn := LDR_RN.Set(raw, Rt());
      if WB? then LDR_IMM.Set(withRn, 0) else EX_IMM_HI.Set(EX_IMM_LO.Set(withRn, 0), 0)
    }
  }

  // ---------- ADR ----------

  const ADR_IMM := Field(0, 8)
  const ADR_ROT := Field(8, 12)
  const ADR_RD := Field(12, 16)
  const ADR_PC := Field(16, 20)
  const ADR_FIXED0 := Field(20, 22)
  const ADR_SIGN := Field(22, 24)
  const ADR_FIXED1 := Field(24, 32)

  /** `x.rotate_right(n)`. */
  function RotateRight(x: Word, n: nat): int
    requires n <= 32
  {
    Shr(x, n) + Shl(Low(x, n), 32 - n)
  }

  datatype Adr = Adr(raw: Word) {
    static function TryFromRaw(raw: Word): Option<Adr> {
      var sign := ADR_SIGN.Get(raw);
      if (sign == 1 || sign == 2) && ADR_PC.Get(raw) == 15 && ADR_FIXED0.Get(raw) == 0 && ADR_FIXED1.Get(raw) == 0xE2
      then Some(Adr(raw)) else None
    }

    function DestReg(): nat { ADR_RD.Get(raw) }

    function TargetPc(instrPc: Word): Word {
      RotBound(raw);
      var disp := RotateRight(ImmWord(raw), 2 * ADR_ROT.Get(raw));
      Displaced(instrPc + PC_OFFSET, ADR_SIGN.Get(raw) == 2, disp)
    }
  }

  function ImmWord(raw: Word): (r: Word)
    ensures r < 0x100
  {
    assert Pow2(8) == 0x100;
    ADR_IMM.Get(raw)
  }

  lemma RotBound(raw: Word)
    ensures ADR_ROT.Get(raw) < 16
  {
    assert Pow2(4) == 16;
  }
}
