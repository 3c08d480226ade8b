/** The A32 decoders and encoders, against the architecture. */
module A32Decode {
  import opened Arith
  import opened Bytes
  import opened BitField
  import opened EncodingA32
  import opened A32Machine

  // ---------- rotation ----------

  lemma HighBit(h: int, a: int, b: int, c: int, q: int, p: int, half: int)
    requires h == a * p + b && q * p == half
    ensures h + c * half == (a + c * q) * p + b
  {
    Assoc(c, q, p);
    Split(a, c * q, p);
  }

  lemma Split(a: int, b: int, c: int)
    ensures (a + b) * c == a * c + b * c
  {
  }

  lemma RotatedParts(x: Word, n: nat)
    requires n < 32
    ensures Shr(Ror1(x), n) == Shr(x / 2, n) + x % 2 * Pow2(31 - n)
    ensures Low(Ror1(x), n) == Low(x / 2, n)
  {
    ShrIsDiv(Ror1(x), n);
    ShrIsDiv(x / 2, n);
    LowIsMod(Ror1(x), n);
    LowIsMod(x / 2, n);
    Pow2Sum(31 - n, n);
    Pow2Of31();
    AddedAbove(x / 2, x % 2, Pow2(31 - n), Pow2(n), 0x8000_0000);
  }

  lemma AddedAbove(h: nat, c: nat, q: nat, p: nat, half: nat)
    requires p > 0 && q * p == half
    ensures (h + c * half) / p == h / p + c * q && (h + c * half) % p == h % p
  {
    var a, b := Divide(h, p);
    HighBit(h, a, b, c, q, p, half);
    DivAdd(a + c * q, p, b);
  }

  lemma Pow2Of31()
    ensures Pow2(31) == 0x8000_0000
  {
    Pow2Word();
    assert Pow2(32) == 2 * Pow2(31);
  }

  /** `rotate_right` is repeated rotation by one. */
  lemma {:induction false} RotateExact(x: Word, n: nat)
    requires n <= 32
    ensures RotateRight(x, n) == Ror(x, n)
    decreases n
  {
    if n == 0 {
      ShlIsMul(0, 32);
    } else {
      var y, c, v := Ror1(x), x % 2, Low(x / 2, n - 1);
      RotateExact(y, n - 1);
      RotatedParts(x, n - 1);
      RotateStep(c, v, n);
      assert Low(x, n) == c + 2 * v && Shr(x, n) == Shr(x / 2, n - 1);
      assert RotateRight(y, n - 1) == Shr(x, n) + c * Pow2(32 - n) + Shl(v, 33 - n);
    }
  }

  lemma RotateStep(c: nat, v: nat, n: nat)
    requires 0 < n <= 32
    ensures Shl(c + 2 * v, 32 - n) == c * Pow2(32 - n) + Shl(v, 33 - n)
  {
    ShlIsMul(c + 2 * v, 32 - n);
    ShlIsMul(v, 32 - n);
    Distribute(c, 1, 2 * v, Pow2(32 - n));
    Assoc(2, v, Pow2(32 - n));
    assert Shl(v, 33 - n) == 2 * Shl(v, 32 - n);
    Split(c, 2 * v, Pow2(32 - n));
  }

  // ---------- fields ----------

  lemma {:induction false} LowSplit(x: int, m: nat, n: nat)
    ensures Low(x, m + n) == Low(x, m) + Pow2(m) * Low(Shr(x, m), n)
    decreases m
  {
    if m > 0 {
      var high := Low(Shr(x / 2, m - 1), n);
      LowSplit(x / 2, m - 1, n);
      Assoc(2, Pow2(m - 1), high);
    }
  }

  /** A field is its lower part and its upper part. */
  lemma Cut(w: Word, lo: nat, mid: nat, hi: nat)
    requires lo < mid < hi <= 32 && hi - lo < 32
    ensures Bits(w, lo, hi) == Bits(w, lo, mid) + Pow2(mid - lo) * Bits(w, mid, hi)
  {
    LowSplit(Shr(w, lo), mid - lo, hi - mid);
    ShrShr(w, lo, mid - lo);
  }

  lemma SmallPowers()
    ensures Pow2(1) == 2 && Pow2(2) == 4 && Pow2(3) == 8 && Pow2(4) == 16 && Pow2(8) == 0x100 && Pow2(12) == 0x1000
  {
    Pow2Sum(8, 4);
  }

  /** The fields of the encoders in terms of those decoding looks at. */
  lemma FieldParts(w: Word)
    ensures var f := FieldsOf(w);
            && LDR_FIXED0.Get(w) == f.l + 2 * f.w + 4 * f.b
            && LDR_FIXED1.Get(w) == f.p + 2 * f.op1 + 16 * f.cond
            && ADR_FIXED0.Get(w) == f.l + 2 * f.w && ADR_SIGN.Get(w) == f.b + 2 * f.u
            && f.l < 2 && f.w < 2 && f.b < 2 && f.u < 2 && f.p < 2 && f.op1 < 8 && f.cond < 16
            && f.rn < 16 && f.rt < 16 && f.lo < 16 && f.hi < 16 && f.mid < 16
  {
    SmallPowers();
    Cut(w, 20, 21, 22);
    Cut(w, 20, 22, 23);
    Cut(w, 22, 23, 24);
    Cut(w, 24, 25, 28);
    Cut(w, 24, 28, 32);
  }

  // ---------- LDR (immediate) ----------

  function SetAll(w: Word, rt: nat, rn: nat, imm: nat, u: nat): Word {
    LDR_FIXED1.Set(LDR_U.Set(LDR_FIXED0.Set(LDR_RN.Set(LDR_RT.Set(LDR_IMM.Set(w, imm), rt), rn), 1), u), 0xE5)
  }

  lemma NewIsSets(rt: nat, rn: nat, imm: int)
    ensures LdrImm.New(rt, rn, imm).Some? <==> -0x1000 < imm < 0x1000 && rt < 16 && rn < 16
    ensures LdrImm.New(rt, rn, imm).Some? ==>
              LdrImm.New(rt, rn, imm).value.raw == NewRaw(rt, rn, imm)
  {
    SmallPowers();
  }

  function NewRaw(rt: nat, rn: nat, imm: int): Word { SetAll(0, rt, rn, Abs(imm), if imm >= 0 then 1 else 0) }

  /** The fields of the word all read back. */
  lemma SetAllFields(w0: Word, rt: nat, rn: nat, imm: nat, u: nat)
    ensures var r := SetAll(w0, rt, rn, imm, u);
            && LDR_IMM.Get(r) == Low(imm, 12) && LDR_RT.Get(r) == Low(rt, 4) && LDR_RN.Get(r) == Low(rn, 4)
            && LDR_FIXED0.Get(r) == Low(1, 3) && LDR_U.Get(r) == Low(u, 1) && LDR_FIXED1.Get(r) == Low(0xE5, 8)
  {
    var w := LDR_IMM.Set(w0, imm);
    var w1 := LDR_RT.Set(w, rt);
    SetFour(LDR_RN, LDR_FIXED0, LDR_U, LDR_FIXED1, w1, rn, 1, u, 0xE5);
    SetKeepsDisjoint(LDR_RT, LDR_IMM, w, rt);
    KeepsFour(LDR_IMM, w1, rn, u);
    KeepsFour(LDR_RT, w1, rn, u);
    assert LDR_IMM.Get(SetAll(w0, rt, rn, imm, u)) == LDR_IMM.Get(w1) == LDR_IMM.Get(w);
  }

  lemma KeepsFour(g: Field, w: Word, rn: nat, u: nat)
    requires g.Valid() && g.end <= 16
    ensures g.Get(LDR_FIXED1.Set(LDR_U.Set(LDR_FIXED0.Set(LDR_RN.Set(w, rn), 1), u), 0xE5)) == g.Get(w)
  {
    var w1 := LDR_RN.Set(w, rn);
    var w2 := LDR_FIXED0.Set(w1, 1);
    var w3 := LDR_U.Set(w2, u);
    SetKeepsDisjoint(LDR_RN, g, w, rn);
    SetKeepsDisjoint(LDR_FIXED0, g, w1, 1);
    SetKeepsDisjoint(LDR_U, g, w2, u);
    SetKeepsDisjoint(LDR_FIXED1, g, w3, 0xE5);
  }

  /** A word with the fields of an unconditional LDR is one. */
  lemma LoadWordDecodes(r: Word, rt: nat, rn: nat, imm: nat, add: bool)
    requires LDR_FIXED0.Get(r) == 1 && LDR_FIXED1.Get(r) == 0xE5 && LDR_RT.Get(r) == rt < 15 && LDR_RN.Get(r) == rn
    requires LDR_IMM.Get(r) == imm && LDR_U.Get(r) == if add then 1 else 0
    ensures Decode(r) == LoadImmediate(LdrWord, rt, rn, WithSign(add, imm))
  {
    FieldParts(r);
    EightBits(r);
    WordFields(FieldsOf(r), rt, rn, imm, add);
  }

  lemma WordFields(f: Fields, rt: nat, rn: nat, imm: nat, add: bool)
    requires f.l + 2 * f.w + 4 * f.b == 1 && f.p + 2 * f.op1 + 16 * f.cond == 0xE5
    requires f.l < 2 && f.w < 2 && f.b < 2 && f.p < 2 && f.op1 < 8 && f.imm8 < 0x100
    requires f.rt == rt < 15 && f.rn == rn && f.imm12 == imm && f.u == if add then 1 else 0
    ensures DecodeFields(f) == LoadImmediate(LdrWord, rt, rn, WithSign(add, imm))
  {
  }

  /** `ldr` is an unconditional LDR without writeback, and there is one exactly for registers below 16 and offsets
      between -4095 and 4095. */
  predicate IsLoadOf(ldr: Option<LdrImm>, rt: nat, rn: nat, offset: int) {
    && (ldr.Some? <==> -0x1000 < offset < 0x1000 && rt < 16 && rn < 16)
    && (ldr.Some? && rt < 15 ==> Decode(ldr.value.raw) == LoadImmediate(LdrWord, rt, rn, offset))
  }

  lemma NewDecodes(rt: nat, rn: nat, imm: int)
    ensures IsLoadOf(LdrImm.New(rt, rn, imm), rt, rn, imm)
  {
    NewIsSets(rt, rn, imm);
    if -0x1000 < imm < 0x1000 && rt < 15 && rn < 16 {
      NewRawDecodes(rt, rn, imm);
    }
    IsLoadFrom(LdrImm.New(rt, rn, imm), NewRaw(rt, rn, imm), rt, rn, imm);
  }

  lemma IsLoadFrom(ldr: Option<LdrImm>, raw: Word, rt: nat, rn: nat, offset: int)
    requires ldr.Some? <==> -0x1000 < offset < 0x1000 && rt < 16 && rn < 16
    requires ldr.Some? ==> ldr.value.raw == raw
    requires ldr.Some? && rt < 15 ==> Decode(raw) == LoadImmediate(LdrWord, rt, rn, offset)
    ensures IsLoadOf(ldr, rt, rn, offset)
  {
  }

  lemma NewRawDecodes(rt: nat, rn: nat, imm: int)
    requires rt < 15 && rn < 16 && -0x1000 < imm < 0x1000
    ensures Decode(NewRaw(rt, rn, imm)) == LoadImmediate(LdrWord, rt, rn, imm)
  {
    var n, u, add := Abs(imm), if imm >= 0 then 1 else 0, imm >= 0;
    SetAllFields(0, rt, rn, n, u);
    LowConstants(rt, rn, n, u);
    LoadWordDecodes(SetAll(0, rt, rn, n, u), rt, rn, n, add);
  }

  lemma LowConstants(rt: nat, rn: nat, imm: nat, u: nat)
    requires rt < 16 && rn < 16 && imm < 0x1000 && u < 2
    ensures Low(imm, 12) == imm && Low(rt, 4) == rt && Low(rn, 4) == rn && Low(1, 3) == 1 && Low(u, 1) == u
    ensures Low(0xE5, 8) == 0xE5
  {
    SmallPowers();
    LowOfSmall(imm, 12);
    LowOfSmall(rt, 4);
    LowOfSmall(rn, 4);
    LowOfSmall(1, 3);
    LowOfSmall(u, 1);
    LowOfSmall(0xE5, 8);
  }

  /** The instruction at `at` of code at `base` loads the literal at `here`. */
  function LiteralOffset(at: int, here: int): int { here - at - 8 }

  /** `new_lit` makes a load of the literal from wherever both are placed, as long as their addresses stay the same
      modulo four; it fails exactly when the literal is too far away. */
  lemma NewLitDecodes(pc: Word, at: nat, reg: nat, here: nat)
    requires pc % 4 == 0 && at % 4 == 0
    ensures IsLoadOf(LdrImm.NewLit(pc + at, reg, pc + here), reg, 15, LiteralOffset(at, here))
  {
    AlignedEffectivePc(pc, at);
    NewDecodes(reg, 15, LiteralOffset(at, here));
  }

  lemma AlignedEffectivePc(pc: Word, at: nat)
    requires pc % 4 == 0 && at % 4 == 0
    ensures EffectivePc(pc + at) == pc + at + 8
  {
  }

  // ---------- loads through a register ----------

  /** What `as_rt_load` leaves of a word. */
  lemma RtLoadFields(load: LoadImm)
    ensures var f, g := FieldsOf(load.raw), FieldsOf(load.AsRtLoad());
            && g.cond == f.cond && g.op1 == f.op1 && g.p == f.p && g.b == f.b && g.w == f.w && g.l == f.l
            && g.rt == f.rt && g.rn == f.rt
            && (load.WB? ==> g.imm12 == 0)
            && (load.Ex? ==> g.hi == 0 && g.lo == 0 && g.mid == f.mid)
  {
    var w := load.raw;
    var w1 := LDR_RN.Set(w, load.Rt());
    SmallPowers();
    LowOfSmall(load.Rt(), 4);
    LowOfSmall(0, 4);
    LowOfSmall(0, 12);
    RnKeeps(w, load.Rt());
    if load.WB? {
      ImmKeeps(LDR_IMM, w1);
    } else {
      var w2 := EX_IMM_LO.Set(w1, 0);
      ImmKeeps(EX_IMM_LO, w1);
      ImmKeeps(EX_IMM_HI, w2);
      SetKeepsDisjoint(LDR_RN, Field(4, 8), w, load.Rt());
      SetKeepsDisjoint(EX_IMM_LO, Field(4, 8), w1, 0);
      SetKeepsDisjoint(EX_IMM_HI, Field(4, 8), w2, 0);
      SetKeepsDisjoint(EX_IMM_HI, EX_IMM_LO, w2, 0);
    }
  }

  /** The fields other than RN and the immediates. */
  predicate SameHead(w: Word, v: Word) {
    var f, g := FieldsOf(w), FieldsOf(v);
    && g.cond == f.cond && g.op1 == f.op1 && g.p == f.p && g.b == f.b && g.w == f.w && g.l == f.l && g.rt == f.rt
  }

  lemma RnKeeps(w: Word, v: int)
    ensures SameHead(w, LDR_RN.Set(w, v))
  {
    SetKeepsDisjoint(LDR_RN, Field(28, 32), w, v);
    SetKeepsDisjoint(LDR_RN, Field(25, 28), w, v);
    SetKeepsDisjoint(LDR_RN, Field(24, 25), w, v);
    SetKeepsDisjoint(LDR_RN, Field(22, 23), w, v);
    SetKeepsDisjoint(LDR_RN, Field(21, 22), w, v);
    SetKeepsDisjoint(LDR_RN, Field(20, 21), w, v);
    SetKeepsDisjoint(LDR_RN, Field(12, 16), w, v);
  }

  lemma ImmKeeps(f: Field, w: Word)
    requires f.Valid() && f.end <= 12
    ensures SameHead(w, f.Set(w, 0)) && Bits(f.Set(w, 0), 16, 20) == Bits(w, 16, 20)
  {
    SetKeepsDisjoint(f, Field(28, 32), w, 0);
    SetKeepsDisjoint(f, Field(25, 28), w, 0);
    SetKeepsDisjoint(f, Field(24, 25), w, 0);
    SetKeepsDisjoint(f, Field(22, 23), w, 0);
    SetKeepsDisjoint(f, Field(21, 22), w, 0);
    SetKeepsDisjoint(f, Field(20, 21), w, 0);
    SetKeepsDisjoint(f, Field(16, 20), w, 0);
    SetKeepsDisjoint(f, Field(12, 16), w, 0);
  }

  // ---------- loads ----------

  /** The disassembler's name for a load tells its form. */
  predicate FormAgrees(load: LoadImm) {
    FieldsOf(load.raw).op1 == if load.WB? then 2 else 0
  }

  lemma RtFieldsDecode(f: Fields, g: Fields, wb: bool)
    requires f.imm8 < 0x100 && g.imm8 < 0x100 && DecodeFields(f).LoadImmediate? && f.op1 == if wb then 2 else 0
    requires g.cond == f.cond && g.op1 == f.op1 && g.p == f.p && g.b == f.b && g.w == f.w && g.l == f.l
    requires g.rt == f.rt && g.rn == f.rt && (wb ==> g.imm12 == 0) && (!wb ==> g.hi == 0 && g.lo == 0 && g.mid == f.mid)
    ensures DecodeFields(g) == LoadImmediate(DecodeFields(f).kind, f.rt, f.rt, 0) && DecodeFields(f).rt == f.rt < 15
    ensures wb || f.mid < 16
  {
  }

  /** `as_rt_load` makes the same load, of the address in its own target register. */
  lemma RtLoadDecodes(load: LoadImm)
    requires FormAgrees(load) && Decode(load.raw).LoadImmediate?
    ensures Decode(load.AsRtLoad()) == LoadImmediate(Decode(load.raw).kind, Decode(load.raw).rt, Decode(load.raw).rt, 0)
    ensures Decode(load.raw).rt == load.Rt() < 15
  {
    RtLoadFields(load);
    EightBits(load.raw);
    EightBits(load.AsRtLoad());
    FieldParts(load.raw);
    RtFieldsDecode(FieldsOf(load.raw), FieldsOf(load.AsRtLoad()), load.WB?);
  }

  lemma FieldsTarget(f: Fields, wb: bool)
    requires f.imm8 < 0x100 && DecodeFields(f).LoadImmediate? && f.op1 == if wb then 2 else 0
    ensures DecodeFields(f).rn == f.rn
    ensures DecodeFields(f).offset == WithSign(f.u == 1, if wb then f.imm12 else 16 * f.hi + f.lo)
  {
  }

  lemma DisplacedIs(pc: int, add: bool, disp: int, a: Word, offset: int)
    requires offset == WithSign(add, disp) && (pc == EffectivePc(a) || (a % 4 == 0 && pc == a + 8))
    ensures Displaced(pc, add, disp) == FromPc(a, offset)
  {
    PcWraps(a, offset);
  }

  /** `target_pc` is the address the architecture loads a literal from. */
  lemma LoadTargetExact(load: LoadImm, a: Word, insn: Insn)
    requires FormAgrees(load) && insn == Decode(load.raw) && insn.LoadImmediate?
    ensures load.TargetPc(a) == if insn.rn == 15 then Some(FromPc(a, insn.offset)) else None
  {
    var offset := OffsetExact(load, insn);
    if insn.rn == 15 {
      DisplacedIs(EffectivePc(a), LDR_U.Get(load.raw) == 1, load.Imm(), a, offset);
    }
  }

  lemma OffsetExact(load: LoadImm, insn: Insn) returns (offset: int)
    requires FormAgrees(load) && insn == Decode(load.raw) && insn.LoadImmediate?
    ensures insn.rn == LDR_RN.Get(load.raw) && insn.offset == offset == WithSign(LDR_U.Get(load.raw) == 1, load.Imm())
  {
    EightBits(load.raw);
    OffsetOfFields(FieldsOf(load.raw), load, insn);
    offset := insn.offset;
  }

  lemma OffsetOfFields(f: Fields, load: LoadImm, insn: Insn)
    requires f.imm8 < 0x100 && insn == DecodeFields(f) && insn.LoadImmediate? && f.op1 == if load.WB? then 2 else 0
    requires f.rn == LDR_RN.Get(load.raw) && f.u == LDR_U.Get(load.raw) && f.imm12 == LDR_IMM.Get(load.raw)
    requires f.hi == EX_IMM_HI.Get(load.raw) && f.lo == EX_IMM_LO.Get(load.raw)
    ensures insn.rn == LDR_RN.Get(load.raw) && insn.offset == WithSign(LDR_U.Get(load.raw) == 1, load.Imm())
  {
    FieldsTarget(f, load.WB?);
  }

  lemma PcWraps(a: Word, offset: int)
    ensures Wrap32(EffectivePc(a) + offset) == FromPc(a, offset)
    ensures a % 4 == 0 ==> Wrap32(a + 8 + offset) == FromPc(a, offset)
  {
    var pc, aligned := EffectivePc(a), AlignedPc(a);
    PcParts(a);
    WrapOnce(pc + offset, aligned + offset);
  }

  lemma PcParts(a: Word)
    ensures EffectivePc(a) == AlignedPc(a) || EffectivePc(a) == AlignedPc(a) + 0x1_0000_0000
    ensures a % 4 == 0 ==> EffectivePc(a) == a + 8
  {
    assert ReadPc(a) == a + 8 || ReadPc(a) == a + 8 - 0x1_0000_0000;
  }

  lemma WrapOnce(x: int, y: int)
    requires x == y || x == y + 0x1_0000_0000
    ensures Wrap32(x) == Wrap32(y)
  {
  }

  // ---------- ADR ----------

  lemma AdrFields(f: Fields, sign: nat, fixed0: nat, fixed1: nat)
    requires f.imm8 < 0x100
    requires fixed0 == f.l + 2 * f.w && sign == f.b + 2 * f.u && fixed1 == f.p + 2 * f.op1 + 16 * f.cond
    requires f.l < 2 && f.w < 2 && f.b < 2 && f.u < 2 && f.p < 2 && f.op1 < 8 && f.cond < 16
    ensures (sign == 1 || sign == 2) && f.rn == 15 && fixed0 == 0 && fixed1 == 0xE2 && f.rt < 15
            <==> DecodeFields(f).Address?
    ensures DecodeFields(f).Address? ==>
              DecodeFields(f) == Address(f.rt, WithSign(sign == 2, ExpandImm(f.imm8, f.hi)))
  {
  }

  /** ADR is recognised exactly when the architecture decodes one, or one into the program counter, with the same
      target at every aligned address. */
  lemma AdrDecodes(w: Word, a: Word, insn: Insn)
    requires a % 4 == 0 && insn == Decode(w)
    ensures Adr.TryFromRaw(w).Some? && Adr(w).DestReg() < 15 <==> insn.Address?
    ensures insn.Address? ==> insn.rd == Adr(w).DestReg() && Adr(w).TargetPc(a) == FromPc(a, insn.offset)
  {
    EightBits(w);
    FieldParts(w);
    AdrOfFields(FieldsOf(w), w, insn);
    if insn.Address? {
      var disp := AdrDisp(w);
      AdrTarget(w, a, disp, insn.offset);
    }
  }

  lemma AdrOfFields(f: Fields, w: Word, insn: Insn)
    requires f.imm8 < 0x100 && insn == DecodeFields(f) && f.imm8 == ADR_IMM.Get(w) && f.hi == ADR_ROT.Get(w)
    requires f.rn == ADR_PC.Get(w) && f.rt == ADR_RD.Get(w) && ADR_FIXED0.Get(w) == f.l + 2 * f.w
    requires ADR_SIGN.Get(w) == f.b + 2 * f.u && ADR_FIXED1.Get(w) == f.p + 2 * f.op1 + 16 * f.cond
    requires f.l < 2 && f.w < 2 && f.b < 2 && f.u < 2 && f.p < 2 && f.op1 < 8 && f.cond < 16
    ensures Adr.TryFromRaw(w).Some? && Adr(w).DestReg() < 15 <==> insn.Address?
    ensures insn.Address? ==>
              insn == Address(Adr(w).DestReg(), WithSign(ADR_SIGN.Get(w) == 2, ExpandImm(ImmWord(w), ADR_ROT.Get(w))))
  {
    AdrFields(f, ADR_SIGN.Get(w), ADR_FIXED0.Get(w), ADR_FIXED1.Get(w));
  }

  /** The displacement is the architecture's modified immediate. */
  lemma AdrDisp(w: Word) returns (disp: int)
    ensures 2 * ADR_ROT.Get(w) <= 32
    ensures disp == RotateRight(ImmWord(w), 2 * ADR_ROT.Get(w)) == ExpandImm(ImmWord(w), ADR_ROT.Get(w))
  {
    RotBound(w);
    disp := RotateRight(ImmWord(w), 2 * ADR_ROT.Get(w));
    RotateExact(ImmWord(w), 2 * ADR_ROT.Get(w));
  }

  lemma AdrTarget(w: Word, a: Word, disp: int, offset: int)
    requires 2 * ADR_ROT.Get(w) <= 32 && disp == RotateRight(ImmWord(w), 2 * ADR_ROT.Get(w))
    requires a % 4 == 0 && offset == WithSign(ADR_SIGN.Get(w) == 2, disp)
    ensures Adr(w).TargetPc(a) == FromPc(a, offset)
  {
    DisplacedIs(a + PC_OFFSET, ADR_SIGN.Get(w) == 2, disp, a, offset);
    TargetIsDisplaced(w, a, disp);
  }

  lemma TargetIsDisplaced(w: Word, a: Word, disp: int)
    requires 2 * ADR_ROT.Get(w) <= 32 && disp == RotateRight(ImmWord(w), 2 * ADR_ROT.Get(w))
    ensures Adr(w).TargetPc(a) == Displaced(a + PC_OFFSET, ADR_SIGN.Get(w) == 2, disp)
  {
  }
}
