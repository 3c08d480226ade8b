/**
 An x86-64 machine over decoded instructions. The decoder and the effect of most instructions are
 parameters; the instructions the thunk relies on have their architectural meaning.
 */
module X64Machine {
  import opened Bytes
  import opened CodePages

  /** A general purpose register, numbered from RAX. */
  type Gpr = r: nat | r < 16
  type Gprs = x: seq<Address> | |x| == 16 witness seq(16, _ => 0)

  /** `rest` is everything but the general purpose registers and the program counter: memory, flags, vector
      registers. */
  datatype Cpu<E> = Cpu(gpr: Gprs, rest: E) {
    function Set(r: Gpr, v: Address): Cpu<E> { this.(gpr := gpr[r := v]) }
  }

  datatype Access = NoAccess | Read | Write | ReadWrite | CondRead | CondWrite | ReadCondWrite | NoMemAccess

  /** A register an instruction uses: the full register when it is a general purpose one, and the size of the part
      used. */
  datatype Use = Use(gpr: Option<Gpr>, size: nat, access: Access)

  /** `OtherFlow` covers every instruction that does not simply continue, apart from short and near Jcc. */
  datatype Flow = Next | Jcc(rel: int) | OtherFlow

  /** The memory operand, when it is relative to the instruction pointer or is just a register. */
  datatype Mem = Elsewhere | IpRel(disp: int) | AtRegister(reg: Gpr)

  /** MOV r64, imm64; MOV r64, m64; JMP m64; and all others, with their operands. */
  datatype Op = MovImm(reg: Gpr, imm: Address) | LoadFrom(reg: Gpr) | JumpTo | Other(id: nat)

  /** `op0` is the register that is the first operand, numbered from RAX, and 16 or more where it is not one of the
      64-bit general purpose registers. */
  datatype Insn = Insn(len: nat, op: Op, flow: Flow, mem: Mem, used: seq<Use>, op0: nat)

  /** The instruction at the start of a byte sequence. */
  type Decoder = seq<Byte> -> Option<Insn>

  /** Decoding looks at the bytes of the instruction and no further. */
  ghost predicate Local(decode: Decoder) {
    forall s: seq<Byte>, t: seq<Byte> :: LocalAt(decode, s, t)
  }

  predicate LocalAt(decode: Decoder, s: seq<Byte>, t: seq<Byte>) {
    match decode(s)
    case None => true
    case Some(insn) => 0 < insn.len <= 15 && insn.len <= |s| && (s[..insn.len] <= t ==> decode(t) == decode(s))
  }

  datatype State<E> = State(pc: Address, cpu: Cpu<E>)

  /**
   `rom` holds the pages that are not writable while code runs. `exec` is the effect of the
   instructions left to `Other`, given the address of an operand in `Mem`; `taken` decides a Jcc on
   the flags; `read` reads eight bytes of memory. `None` is a fault.
   */
  datatype Machine<!E(!new)> = Machine(rom: map<Address, Byte>, decode: Decoder,
                                 exec: (nat, Address, Cpu<E>) -> Option<Cpu<E>>,
                                 taken: (Op, E) -> bool, read: (E, Address) -> Option<Address>)
  {
    function Fetch(pc: Address): Option<Insn> { decode(Window(rom, pc, 15)) }

    /** The address of the operand of an instruction that ends at `next`. */
    function Effective(mem: Mem, next: Address, cpu: Cpu<E>): Address {
      match mem
      case Elsewhere => 0
      case IpRel(disp) => WrappingAdd(next, disp)
      case AtRegister(r) => cpu.gpr[r]
    }

    function Perform(op: Op, ea: Address, cpu: Cpu<E>): Option<Cpu<E>> {
      match op
      case MovImm(r, imm) => Some(cpu.Set(r, imm))
      case LoadFrom(r) =>
        var v :- read(cpu.rest, ea);
        Some(cpu.Set(r, v))
      case JumpTo => None
      case Other(id) => exec(id, ea, cpu)
    }

    /** Of the instructions that do not simply continue, only Jcc and JMP m64 are modelled. */
    function Execute(insn: Insn, pc: Address, cpu: Cpu<E>): Option<State<E>> {
      var next := WrappingAdd(pc, insn.len);
      var ea := Effective(insn.mem, next, cpu);
      match insn.flow
      case Next =>
        var cpu' :- Perform(insn.op, ea, cpu);
        Some(State(next, cpu'))
      case Jcc(rel) => Some(State(if taken(insn.op, cpu.rest) then WrappingAdd(next, rel) else next, cpu))
      case OtherFlow =>
        if insn.op.JumpTo? then
          var a :- read(cpu.rest, ea);
          Some(State(a, cpu))
        else None
    }

    function Step(s: State<E>): Option<State<E>> {
      var insn :- Fetch(s.pc);
      Execute(insn, s.pc, s.cpu)
    }

    /** `code` is mapped at `base`, for fetching and for reading. */
    ghost predicate Holds(base: Address, code: seq<Byte>) {
      && Mapped(rom, base, code)
      && forall p: nat, e: E | p + 8 <= |code| :: Reads(code, base, p, e)
    }

    predicate Reads(code: seq<Byte>, base: Address, p: nat, e: E)
      requires p + 8 <= |code| && base + |code| < 0x1_0000_0000_0000_0000
    {
      read(e, base + p) == Some(FromLe8(code[p..p + 8]))
    }
  }

  /** Code that is mapped is executed. */
  lemma StepAt<E(!new)>(m: Machine<E>, base: Address, code: seq<Byte>, p: nat, insn: Insn, cpu: Cpu<E>)
    requires m.Holds(base, code) && Local(m.decode) && p <= |code| && m.decode(code[p..]) == Some(insn)
    ensures 0 < insn.len && p + insn.len <= |code|
    ensures m.Step(State(base + p, cpu)) == m.Execute(insn, base + p, cpu)
    ensures WrappingAdd(base + p, insn.len) == base + p + insn.len
  {
    var w := Window(m.rom, base + p, 15);
    assert LocalAt(m.decode, code[p..], w);
    WindowHolds(m.rom, base, code, p, insn.len, 15);
    assert code[p..][..insn.len] == code[p..p + insn.len];
    assert m.Fetch(base + p) == Some(insn);
  }
}
