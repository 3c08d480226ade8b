/**
 An A32 machine (ARMv7-A, the ARM instruction set): the instructions the relocator rewrites or emits
 are given their architectural meaning; every other instruction is a parameter.
 */
module A32Machine {
  import opened Bytes
  import opened BitField
  import opened CodePages

  /** R0 to R14. */
  type Registers = x: seq<Word> | |x| == 15 witness seq(15, _ => 0)

  /** `rest` is everything but the registers and the program counter: memory, flags, vector registers. */
  datatype Cpu<E> = Cpu(r: Registers, rest: E) {
    function Set(n: nat, v: Word): Cpu<E> {
      if n < 15 then this.(r := r[n := v]) else this
    }
  }

  /** LDR, LDRB, LDRH, LDRSB, LDRSH and LDRD. */
  datatype LoadKind = LdrWord | LdrByte | LdrHalf | LdrSignedByte | LdrSignedHalf | LdrDual

  /** Loads with an immediate offset and no writeback, ADR, B and BX, when they are not conditional. */
  datatype Insn =
    | LoadImmediate(kind: LoadKind, rt: nat, rn: nat, offset: int)
    | Address(rd: nat, offset: int)
    | Jump(offset: int)
    | JumpRegister(rm: nat)
    | Other

  function Bits(w: Word, lo: nat, hi: nat): nat
    requires Field(lo, hi).Valid()
  {
    Field(lo, hi).Get(w)
  }

  /** One step of a rotation to the right. */
  function Ror1(x: Word): Word { x / 2 + x % 2 * 0x8000_0000 }

  /** ROR of section A2.2.1. */
  function Ror(x: Word, n: nat): Word
    decreases n
  {
    if n == 0 then x else Ror(Ror1(x), n - 1)
  }

  /** ARMExpandImm of section A5.2.4: eight bits rotated right by twice the upper four. */
  function ExpandImm(imm8: nat, rot: nat): Word
    requires imm8 < 0x100
  {
    Ror(imm8, 2 * rot)
  }

  function WithSign(add: bool, imm: int): int { if add then imm else -imm }

  function SignExtend24(imm: int): int { if imm < 0x80_0000 then imm else imm - 0x100_0000 }

  /** The fields decoding looks at. */
  datatype Fields = Fields(cond: nat, op1: nat, p: nat, u: nat, b: nat, w: nat, l: nat, rn: nat, rt: nat,
                           hi: nat, mid: nat, lo: nat, imm12: nat, imm8: nat, imm24: nat, bx: nat)

  function FieldsOf(w: Word): Fields {
    Fields(Bits(w, 28, 32), Bits(w, 25, 28), Bits(w, 24, 25), Bits(w, 23, 24), Bits(w, 22, 23), Bits(w, 21, 22),
           Bits(w, 20, 21), Bits(w, 16, 20), Bits(w, 12, 16), Bits(w, 8, 12), Bits(w, 4, 8), Bits(w, 0, 4),
           Bits(w, 0, 12), Bits(w, 0, 8), Bits(w, 0, 24), Bits(w, 4, 28))
  }

  /** LDR and LDRB (immediate), sections A8.8.63 to A8.8.69. */
  function DecodeWordOrByte(f: Fields): Insn {
    if f.l == 1 && f.p == 1 && f.w == 0 && f.rt < 15 then
      LoadImmediate(if f.b == 1 then LdrByte else LdrWord, f.rt, f.rn, WithSign(f.u == 1, f.imm12))
    else Other
  }

  /** The extra loads (immediate), section A5.2.8. */
  function DecodeExtra(f: Fields): Insn {
    var offset := WithSign(f.u == 1, 16 * f.hi + f.lo);
    if f.b != 1 || f.p != 1 || f.w != 0 || f.rt >= 15 then Other
    else if f.l == 1 && f.mid == 11 then LoadImmediate(LdrHalf, f.rt, f.rn, offset)
    else if f.l == 1 && f.mid == 13 then LoadImmediate(LdrSignedByte, f.rt, f.rn, offset)
    else if f.l == 1 && f.mid == 15 then LoadImmediate(LdrSignedHalf, f.rt, f.rn, offset)
    else if f.l == 0 && f.mid == 13 && f.rt % 2 == 0 && f.rt < 14 then LoadImmediate(LdrDual, f.rt, f.rn, offset)
    else Other
  }

  /** ADR, encodings A1 and A2 of section A8.8.12. */
  function DecodeAddress(f: Fields): Insn
    requires f.imm8 < 0x100
  {
    if f.p == 0 && f.w == 0 && f.l == 0 && f.u != f.b && f.rn == 15 && f.rt < 15 then
      Address(f.rt, WithSign(f.u == 1, ExpandImm(f.imm8, f.hi)))
    else Other
  }

  function DecodeFields(f: Fields): Insn
    requires f.imm8 < 0x100
  {
    if f.cond != 14 then Other
    else if f.op1 == 2 then DecodeWordOrByte(f)
    else if f.op1 == 0 && f.mid % 2 == 1 && f.mid >= 8 then DecodeExtra(f)
    else if f.op1 == 0 && f.bx == 0x12_FFF1 && f.lo < 15 then JumpRegister(f.lo)
    else if f.op1 == 1 then DecodeAddress(f)
    else if f.op1 == 5 && f.p == 0 then Jump(4 * SignExtend24(f.imm24))
    else Other
  }

  function Decode(w: Word): Insn {
    EightBits(w);
    DecodeFields(FieldsOf(w))
  }

  lemma EightBits(w: Word)
    ensures Bits(w, 0, 8) < 0x100
  {
    assert Pow2(8) == 0x100;
  }

  /** PC reads as the address of the instruction plus eight. */
  function ReadPc(a: Word): Word { Wrap32(a + 8) }

  /** Align(PC, 4). */
  function AlignedPc(a: Word): Word { ReadPc(a) - ReadPc(a) % 4 }

  /** The address at an offset from the aligned program counter. */
  function FromPc(a: Word, offset: int): Word { Wrap32(AlignedPc(a) + offset) }

  /** Where a branch at an address leads. */
  function BranchTarget(a: Word, offset: int): Word { Wrap32(ReadPc(a) + offset) }

  datatype State<E> = State(pc: Word, cpu: Cpu<E>)

  /**
   `rom` holds the pages that are not writable while code runs; `read` reads a byte of memory.
   `decode` is `Decode` on a real machine; `exec` is the effect of every instruction it leaves to
   `Other`, at an address; `None` is a fault.
   */
  datatype Machine<!E(!new)> = Machine(rom: map<Address, Byte>, decode: Word -> Insn,
                                       exec: (Word, Word, Cpu<E>) -> Option<Cpu<E>>, read: (E, Word) -> Option<Byte>)
  {
    ghost predicate IsA32() {
      forall w: Word :: decode(w) == Decode(w)
    }

    function Fetch(pc: Word): Option<Word> {
      var w := Window(rom, pc, 4);
      if |w| == 4 then Some(FromLe4(w)) else None
    }

    function Read2(e: E, a: Word): Option<nat> {
      var b0 :- read(e, a);
      var b1 :- read(e, Wrap32(a + 1));
      Some(b0 + 0x100 * b1)
    }

    function Read4(e: E, a: Word): Option<Word> {
      var b0 :- read(e, a);
      var b1 :- read(e, Wrap32(a + 1));
      var b2 :- read(e, Wrap32(a + 2));
      var b3 :- read(e, Wrap32(a + 3));
      Some(FromLe4([b0, b1, b2, b3]))
    }

    /** The effect of a load from address `a`. */
    function Load(kind: LoadKind, rt: nat, a: Word, cpu: Cpu<E>): Option<Cpu<E>> {
      match kind
      case LdrWord =>
        var v :- Read4(cpu.rest, a);
        Some(cpu.Set(rt, v))
      case LdrByte =>
        var v :- read(cpu.rest, a);
        Some(cpu.Set(rt, v))
      case LdrSignedByte =>
        var v :- read(cpu.rest, a);
        Some(cpu.Set(rt, if v < 0x80 then v else v + 0xFFFF_FF00))
      case LdrHalf =>
        var v :- Read2(cpu.rest, a);
        Some(cpu.Set(rt, Wrap32(v)))
      case LdrSignedHalf =>
        var v :- Read2(cpu.rest, a);
        Some(cpu.Set(rt, if v < 0x8000 then v else Wrap32(v + 0xFFFF_0000)))
      case LdrDual =>
        var v :- Read4(cpu.rest, a);
        var v' :- Read4(cpu.rest, Wrap32(a + 4));
        Some(cpu.Set(rt, v).Set(rt + 1, v'))
    }

    function Execute(insn: Insn, w: Word, s: State<E>): Option<State<E>> {
      var next := Wrap32(s.pc + 4);
      match insn
      case LoadImmediate(kind, rt, rn, offset) =>
        var a := if rn < 15 then Wrap32(s.cpu.r[rn] + offset) else FromPc(s.pc, offset);
        var cpu :- Load(kind, rt, a, s.cpu);
        Some(State(next, cpu))
      case Address(rd, offset) => Some(State(next, s.cpu.Set(rd, FromPc(s.pc, offset))))
      case Jump(offset) => Some(State(BranchTarget(s.pc, offset), s.cpu))
      case JumpRegister(rm) =>
        // BX to an address with its low bits set does not stay in A32
        var to := if rm < 15 then s.cpu.r[rm] else ReadPc(s.pc);
        if to % 4 == 0 then Some(State(to, s.cpu)) else None
      case Other =>
        var cpu :- exec(w, s.pc, s.cpu);
        Some(State(next, cpu))
    }

    function Step(s: State<E>): Option<State<E>> {
      var w :- Fetch(s.pc);
      Execute(decode(w), w, s)
    }

    /** `code` is mapped at `base`, for fetching and for reading. */
    ghost predicate Maps(base: Word, code: seq<Byte>) {
      && base + |code| < 0x1_0000_0000 && Mapped(rom, base, code)
      && forall p: nat, e: E | p < |code| :: Readable(base, code, p, e)
    }

    /** `code` is mapped at `base`, which is a multiple of four. */
    ghost predicate Holds(base: Word, code: seq<Byte>) { base % 4 == 0 && Maps(base, code) }

    predicate Readable(base: Word, code: seq<Byte>, p: nat, e: E)
      requires p < |code| && base + |code| < 0x1_0000_0000
    {
      read(e, base + p) == Some(code[p])
    }
  }

  lemma FetchHolds<E(!new)>(m: Machine<E>, base: Word, code: seq<Byte>, p: nat)
    requires m.Holds(base, code) && p + 4 <= |code|
    ensures m.Fetch(base + p) == Some(WordAt(code, p))
  {
    var w := Window(m.rom, base + p, 4);
    WindowHolds(m.rom, base, code, p, 4, 4);
    WindowSize(m.rom, base + p, 4);
    assert w == code[p..p + 4];
  }

  lemma {:induction false} WindowSize(rom: map<Address, Byte>, a: Address, n: nat)
    ensures |Window(rom, a, n)| <= n
    decreases n
  {
    if n > 0 && a in rom {
      WindowSize(rom, WrappingAdd(a, 1), n - 1);
    }
  }

  lemma ReadHolds<E(!new)>(m: Machine<E>, base: Word, code: seq<Byte>, p: nat, e: E)
    requires m.Holds(base, code) && p + 4 <= |code|
    ensures m.Read4(e, base + p) == Some(FromLe4(code[p..p + 4]))
  {
    assert m.Readable(base, code, p, e) && m.Readable(base, code, p + 1, e);
    assert m.Readable(base, code, p + 2, e) && m.Readable(base, code, p + 3, e);
    assert code[p..p + 4] == [code[p], code[p + 1], code[p + 2], code[p + 3]];
  }
}
