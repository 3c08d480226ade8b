/**
 An A64 machine: the instructions the relocator rewrites or emits are given their architectural
 meaning (ARM DDI 0602, Base Instructions); every other instruction is a parameter.
 */
module A64Machine {
  import opened Bytes
  import opened BitField

  type Registers = x: seq<Address> | |x| == 31 witness seq(31, _ => 0)

  /** The state an instruction can change, apart from the program counter. `other` is whatever else
      the processor holds: flags, vector registers, system registers. */
  datatype Cpu<E> = Cpu(x: Registers, sp: Address, ram: map<Address, Byte>, other: E) {
    /** Register 31 reads as zero. */
    function X(n: nat): Address { if n < 31 then x[n] else 0 }

    /** A write to register 31 is discarded. */
    function SetX(n: nat, v: Address): Cpu<E> {
      if n < 31 then this.(x := x[n := v]) else this
    }

    /** As a base register, 31 is the stack pointer. */
    function Base(n: nat): Address { if n < 31 then x[n] else sp }
  }

  datatype Width = Word32 | Word64 | Signed32

  datatype Insn =
    | LoadLiteral(width: Width, rt: nat, offset: int)
    | PcRelative(page: bool, rd: nat, imm: int)
    | Jump(offset: int)
    | LoadOffset(width: Width, rt: nat, rn: nat, disp: nat)
    | JumpRegister(rn: nat)
    | OtherBranch
    | Other

  function Bits(w: Word, lo: nat, hi: nat): nat
    requires Field(lo, hi).Valid()
  {
    Field(lo, hi).Get(w)
  }

  /** The two's complement value of `u` as a number of `size` = 2^n values. */
  function Signed(u: int, size: int): int {
    if u < size / 2 then u else u - size
  }

  function Decode(w: Word): Insn {
    if Bits(w, 24, 30) == 24 && Bits(w, 30, 32) != 3 then
      var width := if Bits(w, 30, 32) == 0 then Word32 else if Bits(w, 30, 32) == 1 then Word64 else Signed32;
      LoadLiteral(width, Bits(w, 0, 5), 4 * Signed(Bits(w, 5, 24), 0x8_0000))
    else if Bits(w, 24, 29) == 16 then
      PcRelative(Bits(w, 31, 32) == 1, Bits(w, 0, 5), Signed(4 * Bits(w, 5, 24) + Bits(w, 29, 31), 0x20_0000))
    else if Bits(w, 26, 32) == 5 then
      Jump(4 * Signed(Bits(w, 0, 26), 0x400_0000))
    else if Bits(w, 24, 30) == 57 && Bits(w, 22, 24) == 1 && Bits(w, 30, 32) == 2 then
      LoadOffset(Word32, Bits(w, 0, 5), Bits(w, 5, 10), 4 * Bits(w, 10, 22))
    else if Bits(w, 24, 30) == 57 && Bits(w, 22, 24) == 1 && Bits(w, 30, 32) == 3 then
      LoadOffset(Word64, Bits(w, 0, 5), Bits(w, 5, 10), 8 * Bits(w, 10, 22))
    else if Bits(w, 24, 30) == 57 && Bits(w, 22, 24) == 2 && Bits(w, 30, 32) == 2 then
      LoadOffset(Signed32, Bits(w, 0, 5), Bits(w, 5, 10), 4 * Bits(w, 10, 22))
    else if Bits(w, 10, 32) == 0x35_87C0 && Bits(w, 0, 5) == 0 then
      JumpRegister(Bits(w, 5, 10))
    else if IsBranch(w) then
      OtherBranch
    else
      Other
  }

  /** The branches other than B: B.cond, CBZ and CBNZ, TBZ and TBNZ, BL, and the branches to a register. */
  predicate IsBranch(w: Word) {
    || Bits(w, 25, 32) == 42 || Bits(w, 25, 31) == 26 || Bits(w, 25, 31) == 27 || Bits(w, 26, 32) == 37
    || Bits(w, 25, 32) == 107
  }

  /** The value of ADR, or of ADRP when `page` is set, at address `pc`. */
  function PcRelativeTarget(page: bool, imm: int, pc: Address): Address {
    if page then WrappingAdd(pc - pc % 0x1000, imm * 0x1000) else WrappingAdd(pc, imm)
  }

  /** Literal loads the relocator does not rewrite: vector registers, and PRFM. */
  predicate UnhandledLiteral(w: Word) {
    Bits(w, 24, 30) == 28 || (Bits(w, 24, 30) == 24 && Bits(w, 30, 32) == 3)
  }

  /** The address a literal load or prefetch at `pc` names. */
  function LiteralAddress(w: Word, pc: Address): Address {
    WrappingAdd(pc, 4 * Signed(Bits(w, 5, 24), 0x8_0000))
  }

  datatype State<E> = State(pc: Address, cpu: Cpu<E>)

  /**
   `rom` holds the pages that are not writable while code runs: the program's own code and constants,
   and the thunks. `decode` is `Decode` on a real machine; `exec` is the effect of every instruction
   it leaves to `Other`, where `None` is a fault.
   */
  datatype Machine<!E> = Machine(rom: map<Address, Byte>, decode: Word -> Insn,
                                 exec: (Word, Address, Cpu<E>) -> Option<Cpu<E>>)
  {
    ghost predicate IsA64() {
      forall w: Word :: decode(w) == Decode(w)
    }

    predicate Mapped(cpu: Cpu<E>, a: Address) { a in rom || a in cpu.ram }

    function ReadByte(cpu: Cpu<E>, a: Address): Byte
      requires Mapped(cpu, a)
    {
      if a in rom then rom[a] else cpu.ram[a]
    }

    function Read(cpu: Cpu<E>, a: Address, n: nat): (r: Option<seq<Byte>>)
      ensures r.Some? ==> |r.value| == n
    {
      if forall i | 0 <= i < n :: Mapped(cpu, WrappingAdd(a, i))
      then Some(seq(n, i requires 0 <= i < n => ReadByte(cpu, WrappingAdd(a, i))))
      else None
    }

    function LoadValue(width: Width, cpu: Cpu<E>, a: Address): Option<Address> {
      match width
      case Word64 =>
        var bytes :- Read(cpu, a, 8);
        Some(FromLe8(bytes))
      case Word32 =>
        var bytes :- Read(cpu, a, 4);
        Some(FromLe4(bytes))
      case Signed32 =>
        var bytes :- Read(cpu, a, 4);
        Some(SignExtend32(FromLe4(bytes)))
    }

    /** Instructions are fetched from pages that are not writable. */
    function Fetch(pc: Address): Option<Word> {
      if forall i | 0 <= i < 4 :: WrappingAdd(pc, i) in rom
      then Some(FromLe4(seq(4, i requires 0 <= i < 4 => rom[WrappingAdd(pc, i)])))
      else None
    }

    /** The effect of the instruction `insn`, whose word is `w`. */
    function Execute(insn: Insn, w: Word, s: State<E>): Option<State<E>> {
      var next := WrappingAdd(s.pc, 4);
      match insn
      case LoadLiteral(width, rt, offset) =>
        var v :- LoadValue(width, s.cpu, WrappingAdd(s.pc, offset));
        Some(State(next, s.cpu.SetX(rt, v)))
      case PcRelative(page, rd, imm) =>
        Some(State(next, s.cpu.SetX(rd, PcRelativeTarget(page, imm, s.pc))))
      case Jump(offset) =>
        Some(State(WrappingAdd(s.pc, offset), s.cpu))
      case LoadOffset(width, rt, rn, disp) =>
        var v :- LoadValue(width, s.cpu, WrappingAdd(s.cpu.Base(rn), disp));
        Some(State(next, s.cpu.SetX(rt, v)))
      case JumpRegister(rn) =>
        Some(State(s.cpu.X(rn), s.cpu))
      case OtherBranch => None
      case Other =>
        var cpu :- exec(w, s.pc, s.cpu);
        Some(State(next, cpu))
    }

    function Step(s: State<E>): Option<State<E>> {
      var w :- Fetch(s.pc);
      Execute(decode(w), w, s)
    }

    /** `code` is mapped at `base`. */
    ghost predicate Holds(base: Address, code: seq<Byte>) {
      && base + |code| < 0x1_0000_0000_0000_0000
      && forall i {:trigger code[i]} | 0 <= i < |code| :: base + i in rom && rom[base + i] == code[i]
    }
  }


  lemma FetchHolds<E>(m: Machine<E>, base: Address, code: seq<Byte>, p: nat)
    requires m.Holds(base, code) && p + 4 <= |code|
    ensures m.Fetch(base + p) == Some(WordAt(code, p))
  {
    forall i {:trigger WrappingAdd(base + p, i)} | 0 <= i < 4
      ensures WrappingAdd(base + p, i) in m.rom && m.rom[WrappingAdd(base + p, i)] == code[p..p + 4][i]
    {
      HoldsAt(m, base, code, p, i);
    }
    assert seq(4, i requires 0 <= i < 4 => m.rom[WrappingAdd(base + p, i)]) == code[p..p + 4];
  }

  lemma HoldsAt<E>(m: Machine<E>, base: Address, code: seq<Byte>, p: nat, i: nat)
    requires m.Holds(base, code) && p + i < |code|
    ensures WrappingAdd(base + p, i) == base + p + i
    ensures base + p + i in m.rom && m.rom[base + p + i] == code[p + i]
  {
    var b := code[p + i];
    assert base + (p + i) in m.rom && m.rom[base + (p + i)] == code[p + i];
  }

  lemma ReadHolds<E>(m: Machine<E>, base: Address, code: seq<Byte>, cpu: Cpu<E>, p: nat, n: nat)
    requires m.Holds(base, code) && p + n <= |code|
    ensures base + p < 0x1_0000_0000_0000_0000 && m.Read(cpu, base + p, n) == Some(code[p..p + n])
  {
    forall i {:trigger WrappingAdd(base + p, i)} | 0 <= i < n
      ensures m.Mapped(cpu, WrappingAdd(base + p, i))
      ensures m.ReadByte(cpu, WrappingAdd(base + p, i)) == code[p..p + n][i]
    {
      HoldsAt(m, base, code, p, i);
    }
    assert seq(n, i requires 0 <= i < n => m.ReadByte(cpu, WrappingAdd(base + p, i))) == code[p..p + n];
  }
}
