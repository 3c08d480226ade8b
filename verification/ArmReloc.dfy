/** What the AArch64 and the A32 relocator share: the scan, the edits, and the literal pool. */
module ArmReloc {
  import opened Bytes
  import opened CowBuf
  import opened SafeJit

  // ---------- the scan ----------

  /** INVALID, JUMP, CALL, RET, INT, IRET, PRIVILEGE and BRANCH_RELATIVE. */
  const UNSUPPORTED_GROUPS: seq<nat> := [0, 1, 2, 3, 4, 5, 6, 7]

  predicate HasUnsupportedInsnGroup(groups: seq<nat>) {
    exists g | g in groups :: g in UNSUPPORTED_GROUPS
  }

  /** Unsupported are the groups numbered below eight. */
  lemma UnsupportedExact(groups: seq<nat>)
    ensures HasUnsupportedInsnGroup(groups) <==> exists g | g in groups :: g < 8
  {
    assert forall g: nat :: g in UNSUPPORTED_GROUPS <==> g < 8;
  }

  /**
   What the scan does with the instruction at offset `at` of the template. A load carries the word
   that is to load through the register once it holds the address.
   */
  datatype Item =
    | Kept(at: nat)
    | Followed(at: nat, to: nat)
    | Load(at: nat, reg: nat, target: Address, word: Word)
    | AddressOf(at: nat, reg: nat, target: Address)
  {
    function Next(): nat { if Followed? then to else at + 4 }

    /** Does the instruction get replaced? */
    predicate Rewritten() { Load? || AddressOf? }

    /** What replaces it: room for a literal load of the target, then the load through the register. */
    function Replacement(): (r: seq<Byte>)
      requires Rewritten()
      ensures |r| == if Load? then 8 else 4
    {
      if Load? then Zeros(4) + Le4(word) else Zeros(4)
    }
  }

  datatype Visit = Reached | Visited(item: Item) | Failed(error: JitError)

  /** The instructions visited before the thunk asm block, and where that block starts. */
  datatype Plan = Plan(items: seq<Item>, asmAt: nat)

  function Prepend(item: Item, rest: Result<Plan>): Result<Plan> {
    match rest
    case Err(e) => Err(e)
    case Ok(plan) => Ok(Plan([item] + plan.items, plan.asmAt))
  }

  /** The decision for every offset of a template of `len` bytes. */
  type Visitor = nat --> Visit

  /** There is a decision for every offset. */
  ghost predicate Covers(visit: Visitor, len: nat) {
    forall o: nat | o <= len :: visit.requires(o) && (visit(o).Visited? ==> visit(o).item.at == o)
  }

  /** Every instruction the scan visits from offset `o` on leads forward, inside the template. */
  ghost predicate AdvancesFrom(visit: Visitor, len: nat, o: nat)
    requires Covers(visit, len) && o <= len
    decreases len - o
  {
    visit(o).Visited? ==> o + 4 <= visit(o).item.Next() <= len && AdvancesFrom(visit, len, visit(o).item.Next())
  }

  ghost predicate Advances(visit: Visitor, len: nat) { Covers(visit, len) && AdvancesFrom(visit, len, 0) }

  /** The decisions lead forward at every offset, visited or not. */
  ghost predicate Forward(visit: Visitor, len: nat)
    requires Covers(visit, len)
  {
    forall o: nat | o <= len && visit(o).Visited? :: o + 4 <= visit(o).item.Next() <= len
  }

  lemma {:induction false} ForwardAdvances(visit: Visitor, len: nat, o: nat)
    requires Covers(visit, len) && Forward(visit, len) && o <= len
    ensures AdvancesFrom(visit, len, o)
    decreases len - o
  {
    if visit(o).Visited? {
      ForwardAdvances(visit, len, visit(o).item.Next());
    }
  }

  /** Every instruction the scan visits from offset `o` on. */
  function Scan(visit: Visitor, len: nat, o: nat): (r: Result<Plan>)
    requires Covers(visit, len) && o <= len && AdvancesFrom(visit, len, o)
    ensures r.Ok? ==> Path(r.value.items, o, len)
    decreases len - o
  {
    match visit(o)
    case Failed(e) => Err(e)
    case Reached => Ok(Plan([], o))
    case Visited(item) => Prepend(item, Scan(visit, len, item.Next()))
  }

  /** Items at increasing offsets, each after the end of the previous one. */
  predicate Path(items: seq<Item>, from: nat, len: nat) {
    if items == [] then from <= len
    else from <= items[0].at && items[0].at + 4 <= items[0].Next() && Path(items[1..], items[0].Next(), len)
  }

  lemma PathFrom(items: seq<Item>, less: nat, from: nat, len: nat)
    requires Path(items, from, len) && less <= from
    ensures Path(items, less, len) && from <= len
  {
  }

  // ---------- emission ----------

  /** A placeholder for a literal load of `target` into `reg`, at an offset of the new code. */
  datatype Fixup = Fixup(at: nat, reg: nat, target: Address)

  /** The relocator's variables: the buffer, the new magic offset and the placeholders. */
  datatype Progress = Progress(buf: View, newMagic: nat, extra: seq<Fixup>)

  predicate InBounds(fixups: seq<Fixup>, len: nat) {
    forall f | f in fixups :: f.at + 4 <= len
  }

  /** The edits made for one item. */
  function Emit(p: Progress, item: Item): (r: Progress)
    requires p.buf.copied <= item.at && item.at + 4 <= |p.buf.orig|
    ensures r.buf.orig == p.buf.orig && p.buf.copied <= r.buf.copied <= item.at + 4
  {
    if !item.Rewritten() then p
    else
      var slot := |p.buf.out| + item.at - p.buf.copied;
      var out := p.buf.out + p.buf.orig[p.buf.copied..item.at] + item.Replacement();
      Progress(View(p.buf.orig, out, item.at + 4), p.newMagic + |item.Replacement()| - 4,
               p.extra + [Fixup(slot, item.reg, item.target)])
  }

  function EmitAll(p: Progress, items: seq<Item>): (r: Progress)
    requires Path(items, p.buf.copied, |p.buf.orig|)
    ensures r.buf.orig == p.buf.orig && r.buf.Valid()
    decreases items
  {
    if items == [] then p
    else
      PathFrom(items[1..], items[0].at + 4, items[0].Next(), |p.buf.orig|);
      PathFrom(items[1..], Emit(p, items[0]).buf.copied, items[0].at + 4, |p.buf.orig|);
      EmitAll(Emit(p, items[0]), items[1..])
  }

  lemma {:induction false} EmitAllInBounds(p: Progress, items: seq<Item>)
    requires Path(items, p.buf.copied, |p.buf.orig|) && InBounds(p.extra, |p.buf.out|)
    ensures InBounds(EmitAll(p, items).extra, |EmitAll(p, items).buf.out|)
    decreases items
  {
    if items == [] {
    } else {
      PathFrom(items[1..], items[0].at + 4, items[0].Next(), |p.buf.orig|);
      PathFrom(items[1..], Emit(p, items[0]).buf.copied, items[0].at + 4, |p.buf.orig|);
      EmitAllInBounds(Emit(p, items[0]), items[1..]);
    }
  }

  /** How to load into a register, at an offset of the new code, the literal at a later offset. */
  type LoadEncoder = (nat, nat, nat) -> Option<Word>

  /** Append a literal of `width` bytes and fill in the placeholder that loads it. */
  function BackpatchOne(width: nat, encode: LoadEncoder, code: seq<Byte>, f: Fixup): (r: Result<seq<Byte>>)
    requires f.at + 4 <= |code|
    ensures r.Ok? ==> |r.value| == |code| + width
  {
    match encode(f.reg, f.at, |code|)
    case None => Err(EncodingError)
    case Some(ldr) => Ok(Splice(code + Le(f.target, width), f.at, 4, Le4(ldr)))
  }

  function Backpatch(width: nat, encode: LoadEncoder, code: seq<Byte>, fixups: seq<Fixup>): Result<seq<Byte>>
    requires InBounds(fixups, |code|)
    decreases fixups
  {
    if fixups == [] then Ok(code)
    else
      match BackpatchOne(width, encode, code, fixups[0])
      case Err(e) => Err(e)
      case Ok(patched) => Backpatch(width, encode, patched, fixups[1..])
  }

  /** The code the literals are appended to: the whole template, padded by half a literal where it is not a multiple of
      `width` bytes past the magic. */
  function BeforePool(width: nat, p: Progress): (r: seq<Byte>)
    requires p.buf.Valid() && width > 0
    ensures |r| >= |p.buf.out|
  {
    var copied := p.buf.CopyTo(|p.buf.orig|).out;
    if (|copied| - p.newMagic) % width != 0 then copied + Zeros(width / 2) else copied
  }

  function Finish(width: nat, encode: LoadEncoder, p: Progress): Result<RelocThunk>
    requires p.buf.Valid() && InBounds(p.extra, |p.buf.out|) && width > 0
  {
    if p.extra == [] then Ok(RelocThunk(p.buf.IntoBytes(), p.newMagic))
    else
      match Backpatch(width, encode, BeforePool(width, p), p.extra)
      case Err(e) => Err(e)
      case Ok(code) => Ok(RelocThunk(code, p.newMagic))
  }

  function Start(t: seq<Byte>, magic: nat): Progress {
    Progress(View(t, [], 0), magic, [])
  }

  /** What relocating a template returns. */
  function Relocated(visit: Visitor, width: nat, encode: LoadEncoder, t: seq<Byte>, magic: nat): Result<RelocThunk>
    requires Advances(visit, |t|) && width > 0
  {
    match Scan(visit, |t|, 0)
    case Err(e) => Err(e)
    case Ok(plan) =>
      EmitAllInBounds(Start(t, magic), plan.items);
      Finish(width, encode, EmitAll(Start(t, magic), plan.items))
  }

  // ---------- the relocator ----------

  /** At offset `o`, what has been emitted followed by what is still to be visited is the whole. */
  ghost predicate Pending(whole: Result<Plan>, here: Result<Plan>, start: Progress, now: Progress, o: nat) {
    && now.buf.orig == start.buf.orig && start.buf.Valid()
    && now.buf.copied <= o <= |now.buf.orig|
    && InBounds(now.extra, |now.buf.out|)
    && (now.extra == [] ==> now.buf.out == [] && now.buf.copied == 0)
    && (now.extra != [] ==> now.buf.out != [])
    && (here.Err? ==> whole == here)
    && (here.Ok? ==>
          && whole.Ok? && whole.value.asmAt == here.value.asmAt
          && Path(here.value.items, now.buf.copied, |now.buf.orig|)
          && Path(whole.value.items, start.buf.copied, |start.buf.orig|)
          && EmitAll(now, here.value.items) == EmitAll(start, whole.value.items))
  }

  lemma PendingStep(whole: Result<Plan>, rest: Result<Plan>, start: Progress, now: Progress, o: nat, item: Item)
    requires Pending(whole, Prepend(item, rest), start, now, o)
    requires item.at == o && o + 4 <= item.Next() <= |now.buf.orig|
    requires rest.Ok? ==> Path(rest.value.items, item.Next(), |now.buf.orig|)
    ensures Pending(whole, rest, start, Emit(now, item), item.Next())
  {
    if rest.Ok? {
      assert ([item] + rest.value.items)[1..] == rest.value.items;
      PathFrom(rest.value.items, item.at + 4, item.Next(), |now.buf.orig|);
      PathFrom(rest.value.items, Emit(now, item).buf.copied, item.at + 4, |now.buf.orig|);
    }
  }

  method FillPlaceholder(width: nat, encode: LoadEncoder, cowBuf: CowBuffer, f: Fixup) returns (ok: bool)
    requires f.at + 4 <= |cowBuf.newBytes|
    modifies cowBuf`newBytes
    ensures ok ==> BackpatchOne(width, encode, old(cowBuf.newBytes), f) == Ok(cowBuf.newBytes)
    ensures !ok ==> BackpatchOne(width, encode, old(cowBuf.newBytes), f) == Err(EncodingError)
  {
    var ldr := encode(f.reg, f.at, |cowBuf.newBytes|);
    if ldr.None? {
      return false;
    }
    cowBuf.newBytes := cowBuf.newBytes + Le(f.target, width);
    cowBuf.newBytes := Splice(cowBuf.newBytes, f.at, 4, Le4(ldr.value));
    return true;
  }

  /** Append the pool once the scan has reached the thunk asm block. */
  method EmitPool(width: nat, encode: LoadEncoder, cowBuf: CowBuffer, newMagicOffset: nat, extraLdrs: seq<Fixup>)
    returns (ok: bool)
    requires cowBuf.AsView().Valid() && InBounds(extraLdrs, |cowBuf.newBytes|) && cowBuf.newBytes != [] && width > 0
    modifies cowBuf
    ensures var r := Backpatch(width, encode,
              BeforePool(width, Progress(old(cowBuf.AsView()), newMagicOffset, extraLdrs)),
                               extraLdrs);
            && (ok ==> r == Ok(cowBuf.newBytes) && cowBuf.newBytes != [] && cowBuf.numCopied == |cowBuf.origBytes|)
            && (!ok ==> r == Err(EncodingError))
  {
    cowBuf.CopyUpTo(|cowBuf.origBytes|);
    if (|cowBuf.newBytes| - newMagicOffset) % width != 0 {
      cowBuf.newBytes := cowBuf.newBytes + Zeros(width / 2);
    }
    ghost var code := cowBuf.newBytes;
    assert code == BeforePool(width, Progress(old(cowBuf.AsView()), newMagicOffset, extraLdrs));
    for i := 0 to |extraLdrs|
      invariant cowBuf.numCopied == |cowBuf.origBytes| && cowBuf.newBytes != []
      invariant InBounds(extraLdrs[i..], |cowBuf.newBytes|)
      invariant Backpatch(width, encode, cowBuf.newBytes, extraLdrs[i..]) == Backpatch(width, encode, code, extraLdrs)
    {
      assert extraLdrs[i..][0] == extraLdrs[i] && extraLdrs[i..][1..] == extraLdrs[i + 1..];
      ok := FillPlaceholder(width, encode, cowBuf, extraLdrs[i]);
      if !ok {
        return;
      }
    }
    return true;
  }

  /** The second half of a relocator: the pool, if there is anything to load, and the finished bytes. */
  method FinishThunk(width: nat, encode: LoadEncoder, cowBuf: CowBuffer, newMagicOffset: nat, extraLdrs: seq<Fixup>)
    returns (r: Result<RelocThunk>)
    requires cowBuf.AsView().Valid() && InBounds(extraLdrs, |cowBuf.newBytes|) && width > 0
    requires extraLdrs != [] ==> cowBuf.newBytes != []
    modifies cowBuf
    ensures r == Finish(width, encode, Progress(old(cowBuf.AsView()), newMagicOffset, extraLdrs))
  {
    ghost var done := Progress(cowBuf.AsView(), newMagicOffset, extraLdrs);
    if extraLdrs != [] {
      var ok := EmitPool(width, encode, cowBuf, newMagicOffset, extraLdrs);
      if !ok {
        return Err(EncodingError);
      }
    }
    var thunk := cowBuf.IntoBytes();
    if extraLdrs != [] {
      assert cowBuf.origBytes[cowBuf.numCopied..] == [];
      assert thunk == cowBuf.newBytes;
      assert Backpatch(width, encode, BeforePool(width, done), extraLdrs) == Ok(thunk);
    }
    return Ok(RelocThunk(thunk, newMagicOffset));
  }
}
