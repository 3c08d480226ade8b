/** The 32-bit x86 relocator of `x86.rs`. */
module X86Reloc {
  import opened Bytes
  import opened SafeJit
  import opened X86Machine

  /** CALL to the next instruction followed by POP r32, at an offset of the template. */
  datatype CallPop = CallPop(offset: nat, len: nat, target: Word, reg: Reg32)

  datatype Item =
    | Kept(at: nat, insn: Insn)
    | Pair(pair: CallPop)
  {
    function At(): nat { if Kept? then at else pair.offset }
    function Len(): nat { if Kept? then insn.len else pair.len }
  }

  /** MOV r32, imm32: B8+r and the immediate. */
  function MovR32Imm32(r: Reg32, imm: Word): (s: seq<Byte>)
    ensures |s| == 5
  {
    [0xB8 + r] + Le4(imm)
  }

  datatype Visit = Failed(error: JitError) | Reached | Visited(item: Item)

  /** From the start of the thunk asm block to the magic. */
  const THUNK_CODE_OFFSET := -16

  datatype Job = Job(decode: Decoder, t: seq<Byte>, ip: Word, magic: nat) {
    /** The template lies below the top of the address space, and an instruction does not go past its end; CALL rel32
        takes at least five bytes. */
    ghost predicate Valid() {
      && ip + |t| < 0x1_0000_0000 && magic <= |t|
      && forall s: seq<Byte> :: decode(s).Some? ==> Sized(decode(s).value, |s|)
    }

    predicate Sized(insn: Insn, n: nat) { 0 < insn.len <= n && (insn.op.Call? ==> insn.len >= 5) }

    /** The address after an instruction that ends at offset `o`. */
    function NextIp(o: nat): Word { Wrap32(ip + o) }

    /** What the scan makes of the instruction at offset `o`. */
    function Look(o: nat): Visit
      requires Valid() && o <= |t|
    {
      if o == |t| then Failed(NoThunkAsm)
      else if o == WrappingAdd(magic, THUNK_CODE_OFFSET) then Reached
      else
        match decode(t[o..])
        case None => Failed(InvalidInstruction)
        case Some(insn) => if insn.Continues() then Visited(Kept(o, insn)) else LookPair(o, insn)
    }

    /** An instruction that does not simply continue must be a CALL to the next one, which must be POP. */
    function LookPair(o: nat, insn: Insn): Visit
      requires o + insn.len <= |t|
    {
      if !insn.op.Call? || Wrap32(NextIp(o + insn.len) + insn.op.rel) != NextIp(o + insn.len) then
        Failed(UnsupportedInstruction)
      else
        match decode(t[o + insn.len..])
        case None => Failed(UnsupportedInstruction)
        case Some(pop) =>
          if pop.op.PopReg?
          then Visited(Pair(CallPop(o, pop.len + insn.len, NextIp(o + insn.len), pop.op.reg)))
          else Failed(UnsupportedInstruction)
    }
  }

  /** What the scan makes of every offset. */
  type Looks = nat --> Visit

  ghost predicate Advances(look: Looks, len: nat) {
    forall o: nat | o <= len :: look.requires(o) && AdvancesAt(look(o), o, len)
  }

  predicate AdvancesAt(v: Visit, o: nat, len: nat) {
    v.Visited? ==> v.item.At() == o && 0 < v.item.Len() && o + v.item.Len() <= len
  }

  /** The instructions before the thunk asm block, and the offset of that block. */
  datatype Prologue = Prologue(items: seq<Item>, asmAt: nat)

  function PrependAll(items: seq<Item>, rest: Result<Prologue>): Result<Prologue> {
    match rest
    case Err(e) => Err(e)
    case Ok(p) => Ok(p.(items := items + p.items))
  }

  function Scan(look: Looks, len: nat, o: nat): (r: Result<Prologue>)
    requires Advances(look, len) && o <= len
    ensures r.Ok? ==> r.value.asmAt <= len
    decreases len - o
  {
    assert AdvancesAt(look(o), o, len);
    match look(o)
    case Failed(e) => Err(e)
    case Reached => Ok(Prologue([], o))
    case Visited(item) =>
      PrependAll([item], Scan(look, len, o + item.Len()))
  }

  /** The items follow each other from offset `o` to offset `end`. */
  predicate Path(items: seq<Item>, o: nat, end: nat)
    decreases items
  {
    if items == [] then o == end
    else items[0].At() == o && 0 < items[0].Len() && Path(items[1..], o + items[0].Len(), end)
  }

  lemma {:induction false} ScanPath(look: Looks, len: nat, o: nat)
    requires Advances(look, len) && o <= len && Scan(look, len, o).Ok?
    ensures Path(Scan(look, len, o).value.items, o, Scan(look, len, o).value.asmAt)
    decreases len - o
  {
    assert AdvancesAt(look(o), o, len);
    if look(o).Visited? {
      var item := look(o).item;
      ScanPath(look, len, o + item.Len());
      var rest := Scan(look, len, o + item.Len()).value;
      assert ([item] + rest.items)[1..] == rest.items;
    }
  }

  /** What the relocator keeps of the scan. */
  function CallPops(items: seq<Item>): seq<CallPop>
    decreases items
  {
    if items == [] then []
    else if items[0].Pair? then [items[0].pair] + CallPops(items[1..])
    else CallPops(items[1..])
  }

  /** The pairs lie in order between offset `o` and offset `end`. */
  predicate Ordered(pairs: seq<CallPop>, o: nat, end: nat)
    decreases pairs
  {
    if pairs == [] then o <= end
    else o <= pairs[0].offset && Ordered(pairs[1..], pairs[0].offset + pairs[0].len, end)
  }

  lemma {:induction false} PathOrdered(items: seq<Item>, from: nat, o: nat, end: nat)
    requires Path(items, o, end) && from <= o
    ensures Ordered(CallPops(items), from, end) && o <= end
    decreases items
  {
    if items == [] {
    } else if items[0].Pair? {
      PathOrdered(items[1..], o + items[0].Len(), o + items[0].Len(), end);
      assert CallPops(items)[1..] == CallPops(items[1..]);
    } else {
      PathOrdered(items[1..], from, o + items[0].Len(), end);
    }
  }

  /** The template from offset `o` on, with every pair replaced by a MOV. */
  function Spliced(t: seq<Byte>, pairs: seq<CallPop>, o: nat): seq<Byte>
    requires Ordered(pairs, o, |t|)
    decreases pairs
  {
    if pairs == [] then t[o..]
    else
      OrderedBound(pairs[1..], pairs[0].offset + pairs[0].len, |t|);
      t[o..pairs[0].offset] + MovR32Imm32(pairs[0].reg, pairs[0].target)
      + Spliced(t, pairs[1..], pairs[0].offset + pairs[0].len)
  }

  lemma {:induction false} OrderedBound(pairs: seq<CallPop>, o: nat, end: nat)
    requires Ordered(pairs, o, end)
    ensures o <= end
    decreases pairs
  {
    if pairs != [] {
      OrderedBound(pairs[1..], pairs[0].offset + pairs[0].len, end);
    }
  }

  function Finished(job: Job, p: Prologue): RelocThunk
    requires Path(p.items, 0, p.asmAt) && p.asmAt <= |job.t|
  {
    var pairs := CallPops(p.items);
    if pairs == [] then RelocThunk(job.t, job.magic)
    else
      PathOrdered(p.items, 0, 0, p.asmAt);
      OrderedLater(pairs, 0, p.asmAt, |job.t|);
      var thunk := Spliced(job.t, pairs, 0);
      RelocThunk(thunk, WrappingAdd(job.magic, |thunk| - |job.t|))
  }

  lemma {:induction false} OrderedLater(pairs: seq<CallPop>, o: nat, end: nat, later: nat)
    requires Ordered(pairs, o, end) && end <= later
    ensures Ordered(pairs, o, later)
    decreases pairs
  {
    if pairs != [] {
      OrderedLater(pairs[1..], pairs[0].offset + pairs[0].len, end, later);
    }
  }

  function Looker(job: Job): (look: Looks)
    requires job.Valid()
    ensures Advances(look, |job.t|)
  {
    (o: nat) requires o <= |job.t| => job.Look(o)
  }

  function Relocated(job: Job): Result<RelocThunk>
    requires job.Valid()
  {
    match Scan(Looker(job), |job.t|, 0)
    case Err(e) => Err(e)
    case Ok(p) =>
      ScanPath(Looker(job), |job.t|, 0);
      Ok(Finished(job, p))
  }

  // ---------- the relocator ----------

  lemma {:induction false} CallPopsAppend(items: seq<Item>, item: Item)
    ensures CallPops(items + [item]) == CallPops(items) + if item.Pair? then [item.pair] else []
    decreases items
  {
    if items == [] {
      assert ([] + [item])[1..] == [];
    } else {
      CallPopsAppend(items[1..], item);
      assert (items + [item])[1..] == items[1..] + [item];
    }
  }

  lemma ScanAppend(look: Looks, len: nat, items: seq<Item>, o: nat)
    requires Advances(look, len) && o <= len
    ensures AdvancesAt(look(o), o, len)
    ensures match look(o)
            case Failed(e) => PrependAll(items, Scan(look, len, o)) == Err(e)
            case Reached => PrependAll(items, Scan(look, len, o)) == Ok(Prologue(items, o))
            case Visited(item) =>
              PrependAll(items, Scan(look, len, o)) == PrependAll(items + [item], Scan(look, len, o + item.Len()))
  {
    assert items + [] == items;
    if look(o).Visited? {
      var item := look(o).item;
      var rest := Scan(look, len, o + item.Len());
      if rest.Ok? {
        assert items + ([item] + rest.value.items) == items + [item] + rest.value.items;
      }
    }
  }

  /** `look` is what the scan makes of the template of `job`. */
  ghost predicate LooksAt(look: Looks, job: Job) {
    job.Valid() && Advances(look, |job.t|) && forall o: nat | o <= |job.t| :: SameLook(look, job, o)
  }

  ghost predicate SameLook(look: Looks, job: Job, o: nat)
    requires job.Valid() && Advances(look, |job.t|) && o <= |job.t|
  {
    look(o) == job.Look(o)
  }

  /** Decode what stands at `position`; a CALL is decoded together with the POP after it. */
  method DecodeNext(job: Job, ghost look: Looks, position: nat, callPops: seq<CallPop>)
    returns (v: Visit, callPops': seq<CallPop>)
    requires LooksAt(look, job) && position <= |job.t|
    ensures v == look(position)
    ensures callPops' == callPops + if v.Visited? && v.item.Pair? then [v.item.pair] else []
  {
    assert SameLook(look, job, position);
    callPops' := callPops;
    if position == |job.t| {
      return Failed(NoThunkAsm), callPops';
    }
    if position == WrappingAdd(job.magic, THUNK_CODE_OFFSET) {
      return Reached, callPops';
    }
    var decoded := job.decode(job.t[position..]);
    if decoded.None? {
      return Failed(InvalidInstruction), callPops';
    }
    var instruction := decoded.value;
    if !instruction.Continues() {
      var next := position + instruction.len;
      if instruction.op.Call? && Wrap32(job.NextIp(next) + instruction.op.rel) == job.NextIp(next) {
        var nextInstruction := job.decode(job.t[next..]);
        if nextInstruction.Some? && nextInstruction.value.op.PopReg? {
          var pop := nextInstruction.value;
          var pair := CallPop(position, pop.len + instruction.len, job.NextIp(next), pop.op.reg);
          return Visited(Pair(pair)), callPops' + [pair];
        }
      }
      return Failed(UnsupportedInstruction), callPops';
    }
    return Visited(Kept(position, instruction)), callPops';
  }

  method ScanForward(job: Job, ghost look: Looks) returns (r: Result<seq<CallPop>>)
    requires LooksAt(look, job)
    ensures match Scan(look, |job.t|, 0)
            case Err(e) => r == Err(e)
            case Ok(p) => r == Ok(CallPops(p.items))
  {
    var position := 0;
    var callPops: seq<CallPop> := [];
    ghost var items: seq<Item> := [];
    ghost var whole := Scan(look, |job.t|, 0);
    var reachedThunkAsm := false;
    PrependNothing(whole);
    while !reachedThunkAsm
      invariant position <= |job.t|
      invariant whole == PrependAll(items, Scan(look, |job.t|, position))
      invariant reachedThunkAsm ==> look(position) == Reached
      invariant callPops == CallPops(items)
      decreases |job.t| - position, !reachedThunkAsm
    {
      var v;
      v, callPops := DecodeNext(job, look, position, callPops);
      ScanAppend(look, |job.t|, items, position);
      match v {
        case Failed(e) =>
          return Err(e);
        case Reached =>
          reachedThunkAsm := true;
        case Visited(item) =>
          CallPopsAppend(items, item);
          items := items + [item];
          position := position + item.Len();
      }
    }
    ScanAppend(look, |job.t|, items, position);
    return Ok(callPops);
  }

  lemma PrependNothing(r: Result<Prologue>)
    ensures PrependAll([], r) == r
  {
    assert r.Ok? ==> [] + r.value.items == r.value.items;
  }

  /** Copy the template, with a MOV in place of each pair. */
  method ReplacePairs(t: seq<Byte>, callPops: seq<CallPop>) returns (buffer: seq<Byte>)
    requires Ordered(callPops, 0, |t|)
    ensures buffer == Spliced(t, callPops, 0)
  {
    var offset: nat := 0;
    buffer := [];
    ghost var whole := Spliced(t, callPops, 0);
    assert [] + whole == whole;
    for i := 0 to |callPops|
      invariant offset <= |t| && Ordered(callPops[i..], offset, |t|)
      invariant buffer + Spliced(t, callPops[i..], offset) == whole
    {
      var callPop := callPops[i];
      ghost var rest, after := callPops[i + 1..], callPop.offset + callPop.len;
      assert callPops[i..][0] == callPop && callPops[i..][1..] == rest;
      OrderedBound(rest, after, |t|);
      var mov := MovR32Imm32(callPop.reg, callPop.target);
      SpliceStep(buffer, t[offset..callPop.offset], mov, Spliced(t, rest, after));
      buffer := buffer + t[offset..callPop.offset];
      offset := callPop.offset + callPop.len;
      buffer := buffer + mov;
    }
    buffer := buffer + t[offset..];
  }

  lemma SpliceStep(a: seq<Byte>, b: seq<Byte>, c: seq<Byte>, d: seq<Byte>)
    ensures a + (b + c + d) == a + b + c + d
  {
  }

  method TryRelocThunkTemplate(job: Job) returns (r: Result<RelocThunk>)
    requires job.Valid()
    ensures r == Relocated(job)
  {
    ghost var look := Looker(job);
    LookerLooks(job);
    var scanned := ScanForward(job, look);
    if scanned.Err? {
      return Err(scanned.error);
    }
    ghost var p := Scan(look, |job.t|, 0).value;
    ScanPath(look, |job.t|, 0);
    r := Rewrite(job, p, scanned.value);
  }

  lemma LookerLooks(job: Job)
    requires job.Valid()
    ensures LooksAt(Looker(job), job)
  {
    assert forall o: nat | o <= |job.t| :: SameLook(Looker(job), job, o);
  }

  /** Everything after the scan. */
  method Rewrite(job: Job, ghost p: Prologue, callPops: seq<CallPop>) returns (r: Result<RelocThunk>)
    requires Path(p.items, 0, p.asmAt) && p.asmAt <= |job.t| && callPops == CallPops(p.items)
    ensures r == Ok(Finished(job, p))
  {
    if callPops == [] {
      return Ok(RelocThunk(job.t, job.magic));
    }
    PathOrdered(p.items, 0, 0, p.asmAt);
    OrderedLater(callPops, 0, p.asmAt, |job.t|);
    var newBytes := ReplacePairs(job.t, callPops);
    return Ok(RelocThunk(newBytes, WrappingAdd(job.magic, |newBytes| - |job.t|)));
  }
}
