/**
 A 32-bit x86 machine over decoded instructions. The decoder and the effect of most instructions are
 parameters; the instructions the relocator and the thunk rely on have their architectural meaning.
 */
module X86Machine {
  import opened Bytes
  import opened CodePages

  /** A 32-bit general purpose register, numbered from EAX. */
  type Reg32 = r: nat | r < 8
  type Regs = x: seq<Word> | |x| == 8 witness seq(8, _ => 0)

  const ESP: Reg32 := 4

  /** `rest` is everything but the general purpose registers, memory and the program counter. */
  datatype Cpu<E> = Cpu(reg: Regs, ram: map<Word, Byte>, rest: E) {
    function Set(r: Reg32, v: Word): Cpu<E> { this.(reg := reg[r := v]) }

    predicate Mapped4(a: Word) {
      a in ram && Wrap32(a as int + 1) in ram && Wrap32(a as int + 2) in ram && Wrap32(a as int + 3) in ram
    }

    function Load(a: Word): Option<Word> {
      if Mapped4(a) then
        Some(FromLe4([ram[a], ram[Wrap32(a as int + 1)], ram[Wrap32(a as int + 2)], ram[Wrap32(a as int + 3)]]))
      else None
    }

    function Store(a: Word, v: Word): Option<Cpu<E>> {
      if Mapped4(a) then
        var b := Le4(v);
        Some(this.(ram := ram[a := b[0]][Wrap32(a as int + 1) := b[1]][Wrap32(a as int + 2) := b[2]]
                             [Wrap32(a as int + 3) := b[3]]))
      else None
    }

    function Push(v: Word): Option<Cpu<E>> {
      var top := Wrap32(reg[ESP] as int - 4);
      Set(ESP, top).Store(top, v)
    }

    /** The stack pointer moves before the register is written. */
    function Pop(r: Reg32): Option<Cpu<E>> {
      var v :- Load(reg[ESP]);
      Some(Set(ESP, Wrap32(reg[ESP] as int + 4)).Set(r, v))
    }
  }

  /** CALL rel32; POP r32; MOV r32, imm32; JMP r32; and all others, with their operands. */
  datatype Op = Call(rel: Word) | PopReg(reg: Reg32) | MovImm(reg: Reg32, imm: Word) | JumpReg(reg: Reg32)
              | Other(id: nat) | OtherFlow

  datatype Insn = Insn(len: nat, op: Op) {
    /** Execution continues at the following instruction. */
    predicate Continues() { op.PopReg? || op.MovImm? || op.Other? }
  }

  /** The instruction at the start of a byte sequence. */
  type Decoder = seq<Byte> -> Option<Insn>

  /** Decoding looks at the bytes of the instruction and no further. */
  ghost predicate Local(decode: Decoder) {
    forall s: seq<Byte>, t: seq<Byte> :: LocalAt(decode, s, t)
  }

  predicate LocalAt(decode: Decoder, s: seq<Byte>, t: seq<Byte>) {
    match decode(s)
    case None => true
    case Some(insn) => 0 < insn.len <= 15 && insn.len <= |s| && (s[..insn.len] <= t ==> decode(t) == decode(s))
  }

  datatype State<E> = State(pc: Word, cpu: Cpu<E>)

  /** `exec` is the effect of the instructions left to `Other`, where `None` is a fault. */
  datatype Machine<!E(!new)> = Machine(rom: map<Address, Byte>, decode: Decoder,
                                       exec: (nat, Cpu<E>) -> Option<Cpu<E>>) {
    function Fetch(pc: Word): Option<Insn> { decode(Window(rom, pc, 15)) }

    /** The effect of an instruction that simply continues. */
    function Perform(op: Op, cpu: Cpu<E>): Option<Cpu<E>> {
      match op
      case PopReg(r) => cpu.Pop(r)
      case MovImm(r, imm) => Some(cpu.Set(r, imm))
      case Other(id) => exec(id, cpu)
      case _ => None
    }

    /** Of the instructions that do not simply continue, only CALL rel32 and JMP r32 are modelled. */
    function Execute(insn: Insn, pc: Word, cpu: Cpu<E>): Option<State<E>> {
      var next := Wrap32(pc + insn.len);
      match insn.op
      case Call(rel) =>
        var cpu' :- cpu.Push(next);
        Some(State(Wrap32(next + rel), cpu'))
      case JumpReg(r) => Some(State(cpu.reg[r], cpu))
      case _ =>
        var cpu' :- Perform(insn.op, cpu);
        Some(State(next, cpu'))
    }

    function Step(s: State<E>): Option<State<E>> {
      var insn :- Fetch(s.pc);
      Execute(insn, s.pc, s.cpu)
    }

    /** `code` is mapped at `base`. */
    ghost predicate Holds(base: Word, code: seq<Byte>) {
      base + |code| < 0x1_0000_0000 && Mapped(rom, base, code)
    }
  }

  /** Code that is mapped is executed. */
  lemma StepAt<E(!new)>(m: Machine<E>, base: Word, code: seq<Byte>, p: nat, insn: Insn, cpu: Cpu<E>)
    requires m.Holds(base, code) && Local(m.decode) && p <= |code| && m.decode(code[p..]) == Some(insn)
    ensures 0 < insn.len && p + insn.len <= |code|
    ensures m.Step(State(base + p, cpu)) == m.Execute(insn, base + p, cpu)
    ensures Wrap32(base + p + insn.len) == base + p + insn.len
  {
    FetchAt(m, base, code, p, insn);
  }

  lemma FetchAt<E(!new)>(m: Machine<E>, base: Word, code: seq<Byte>, p: nat, insn: Insn)
    requires m.Holds(base, code) && Local(m.decode) && p <= |code| && m.decode(code[p..]) == Some(insn)
    ensures 0 < insn.len && p + insn.len <= |code| && m.Fetch(base + p) == Some(insn)
  {
    var w := Window(m.rom, base + p, 15);
    assert LocalAt(m.decode, code[p..], w);
    WindowHolds(m.rom, base, code, p, insn.len, 15);
    assert code[p..][..insn.len] == code[p..p + insn.len];
  }

  /** What is stored is read back, and no more than four bytes of memory change. */
  lemma StoreLoad<E>(cpu: Cpu<E>, a: Word, v: Word)
    requires cpu.Store(a, v).Some?
    ensures var c := cpu.Store(a, v).value;
            && c.Load(a) == Some(v) && c.reg == cpu.reg && c.rest == cpu.rest && c.ram.Keys == cpu.ram.Keys
            && forall w: Word | w in cpu.ram && w !in Cells(a) :: c.ram[w] == cpu.ram[w]
  {
    var b := Le4(v);
    assert b == [b[0], b[1], b[2], b[3]];
    Le4RoundTrip(v);
  }

  /** The four bytes at address `a`. */
  function Cells(a: Word): set<Word> { {a, Wrap32(a as int + 1), Wrap32(a as int + 2), Wrap32(a as int + 3)} }

  /** CALL to the next instruction followed by POP leaves, but for the memory below the stack, the address of the
      POP. */
  lemma PushPop<E>(cpu: Cpu<E>, v: Word, r: Reg32)
    requires cpu.Push(v).Some?
    ensures cpu.Push(v).value.Pop(r) == Some(Cpu(cpu.Set(r, v).reg, cpu.Push(v).value.ram, cpu.rest))
    ensures cpu.Push(v).value.ram.Keys == cpu.ram.Keys
    ensures forall w: Word | w in cpu.ram && w !in Cells(Wrap32(cpu.reg[ESP] as int - 4)) ::
              cpu.Push(v).value.ram[w] == cpu.ram[w]
  {
    var top := Wrap32(cpu.reg[ESP] as int - 4);
    var lowered := cpu.Set(ESP, top);
    var pushed := lowered.Store(top, v).value;
    StoreLoad(lowered, top, v);
    assert cpu.Push(v) == Some(pushed) && pushed.reg[ESP] == top;
    PushedBack(cpu.reg[ESP]);
    SetTwice(cpu.reg, top, v, r);
  }

  lemma PushedBack(a: Word)
    ensures Wrap32(Wrap32(a as int - 4) as int + 4) == a
  {
  }

  lemma SetTwice(regs: Regs, top: Word, v: Word, r: Reg32)
    ensures regs[ESP := top][ESP := regs[ESP]][r := v] == regs[r := v]
  {
  }
}
