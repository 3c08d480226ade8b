/** `AllocatedThunk::new` of `arch.rs`: finding the magic, placing the relocated thunk, and patching it. */
module Placement {
  import opened Arith
  import opened Bytes
  import opened CowBuf
  import opened SafeJit

  /** The layout of the thunk asm block around the magic, per architecture. */
  datatype Consts = Consts(align: nat, magic: seq<Byte>, ptr: nat, closureAt: int, returnAt: int, returnOffset: nat) {
    /** The slots do not overlap and end inside the part of the template that is kept. */
    predicate Valid() {
      align > 0 && ptr > 0 && |magic| <= returnOffset && closureAt + ptr <= returnAt && returnAt + ptr <= returnOffset
    }
  }

  const A64_MAGIC: Address := 0x0000_DEAD_0000_DEAD
  const X86_MAGIC: seq<Byte> := [0xF0, 0xF0, 0xF0, 0xF0, 0xF0, 0xF0, 0xF0, 0xF0,
                                 0xF0, 0xF0, 0xF0, 0xF0, 0xF0, 0xF0, 0xFF, 0xF0]

  const A64 := Consts(8, Le8(A64_MAGIC), 8, 0, 8, 16)
  const X86_64 := Consts(8, X86_MAGIC, 8, 0, 8, 16)
  /** `[u64; 2]` is aligned to four or eight bytes on 32-bit targets. */
  function X86(align: nat): Consts { Consts(align, X86_MAGIC, 4, -15, -10, 16) }
  const ARM := Consts(4, Le4(0xE7FD_EAFD), 4, 0, 4, 8)

  // ---------- finding the magic ----------

  predicate AlignedAt(a: nat, k: nat, align: nat)
    requires align > 0
  {
    (a + k) % align == 0
  }

  /** Bytes from `a` to the next multiple of `align`. */
  function AlignOffset(a: nat, align: nat): (r: nat)
    requires align > 0
    ensures r < align && AlignedAt(a, r, align)
    ensures forall k: nat | AlignedAt(a, k, align) :: r <= k
  {
    var r := (align - a % align) % align;
    AlignExact(a, align, r);
    r
  }

  lemma AlignExact(a: nat, align: nat, r: nat)
    requires align > 0 && r == (align - a % align) % align
    ensures AlignedAt(a, r, align)
    ensures forall k: nat | AlignedAt(a, k, align) :: r <= k
  {
    var q, lo := Divide(a, align);
    if lo == 0 {
      DivAdd(1, align, 0);
    } else {
      DivAdd(0, align, align - lo);
      Distribute(1, q, 1, align);
      DivAdd(q + 1, align, 0);
      forall k: nat | AlignedAt(a, k, align)
        ensures r <= k
      {
        if k < r {
          DivAdd(q, align, lo + k);
        }
      }
    }
  }

  predicate MagicAt(c: Consts, mem: seq<Byte>, ptr: Address, k: nat) {
    c.align > 0 && AlignedAt(ptr, k, c.align) && k + |c.magic| <= |mem| && mem[k..k + |c.magic|] == c.magic
  }

  /** `off` is the first aligned occurrence of the magic. */
  ghost predicate FirstMagic(c: Consts, mem: seq<Byte>, ptr: Address, off: nat) {
    MagicAt(c, mem, ptr, off) && forall k | 0 <= k < off :: !MagicAt(c, mem, ptr, k)
  }

  /** The search ends at the first aligned occurrence, on every template that has one. */
  method FindMagic(c: Consts, mem: seq<Byte>, ptr: Address, ghost there: nat) returns (off: nat)
    requires c.Valid() && MagicAt(c, mem, ptr, there)
    ensures FirstMagic(c, mem, ptr, off) && off <= there
  {
    off := AlignOffset(ptr, c.align);
    while mem[off..off + |c.magic|] != c.magic
      invariant off <= there && AlignedAt(ptr, off, c.align)
      invariant forall k | 0 <= k < off :: !MagicAt(c, mem, ptr, k)
      decreases there - off
    {
      NextAligned(ptr + off, ptr + there, c.align);
      forall k | off <= k < off + c.align
        ensures !MagicAt(c, mem, ptr, k)
      {
        if k > off && (ptr + k) % c.align == 0 {
          NextAligned(ptr + off, ptr + k, c.align);
        }
      }
      off := off + c.align;
    }
  }

  lemma NextAligned(a: nat, b: nat, align: nat)
    requires align > 0 && a % align == 0 && b % align == 0 && a < b
    ensures a + align <= b && (a + align) % align == 0
  {
    var p, _ := Divide(a, align);
    var q, _ := Divide(b, align);
    if q <= p {
      MulMono(q, p, align);
    }
    MulMono(p + 1, q, align);
    Distribute(1, p, 1, align);
    DivAdd(p + 1, align, 0);
  }

  // ---------- placing and patching ----------

  /** The relocated thunk with the closure pointer and the return address written into their slots. */
  function Patched(c: Consts, thunk: RelocThunk, closure: Address, back: Address): (r: seq<Byte>)
    requires HasRoom(c, thunk)
    ensures |r| == |thunk.thunk|
  {
    var withClosure := Splice(thunk.thunk, thunk.magicOffset + c.closureAt, c.ptr, Le(closure, c.ptr));
    Splice(withClosure, thunk.magicOffset + c.returnAt, c.ptr, Le(back, c.ptr))
  }

  /** Both slots lie inside the relocated thunk. */
  predicate HasRoom(c: Consts, thunk: RelocThunk) {
    && thunk.magicOffset + c.closureAt >= 0 && thunk.magicOffset + c.returnAt >= 0
    && thunk.magicOffset + c.closureAt + c.ptr <= |thunk.thunk|
    && thunk.magicOffset + c.returnAt + c.ptr <= |thunk.thunk|
  }

  /** `p` holds `a` at `i` and `b` at `j`, and is `s` everywhere else. */
  predicate SlotsFilled(p: seq<Byte>, s: seq<Byte>, i: nat, a: seq<Byte>, j: nat, b: seq<Byte>)
    requires i + |a| <= |s| && j + |b| <= |s|
  {
    && |p| == |s| && p[i..i + |a|] == a && p[j..j + |b|] == b
    && forall k | 0 <= k < |s| && !(i <= k < i + |a|) && !(j <= k < j + |b|) :: p[k] == s[k]
  }

  /** Both slots read back what was written, and every other byte is the relocated thunk's. */
  lemma PatchedReadsBack(c: Consts, thunk: RelocThunk, closure: Address, back: Address, i: nat, j: nat)
    requires c.Valid() && HasRoom(c, thunk)
    requires i == thunk.magicOffset + c.closureAt && j == thunk.magicOffset + c.returnAt
    ensures SlotsFilled(Patched(c, thunk, closure, back), thunk.thunk, i, Le(closure, c.ptr), j, Le(back, c.ptr))
  {
    var n, a, b := c.ptr, Le(closure, c.ptr), Le(back, c.ptr);
    TwoSplices(thunk.thunk, i, a, j, b, n, Patched(c, thunk, closure, back));
  }

  lemma TwoSplices(s: seq<Byte>, i: nat, a: seq<Byte>, j: nat, b: seq<Byte>, n: nat, p: seq<Byte>)
    requires |a| == |b| == n && i + n <= j && j + n <= |s| && p == Splice(Splice(s, i, n, a), j, n, b)
    ensures SlotsFilled(p, s, i, a, j, b)
  {
    var first := Splice(s, i, n, a);
    SpliceIndex(s, i, a);
    SpliceIndex(first, j, b);
    assert p[i..i + n] == first[i..i + n];
  }

  /** A view of executable memory and the writable view of the same memory, handed out by the allocator. */
  class JitAlloc {
    var exhausted: bool
    var nextRx: Address
    var nextRw: Address

    constructor (exhausted: bool, nextRx: Address, nextRw: Address)
      ensures this.exhausted == exhausted && this.nextRx == nextRx && this.nextRw == nextRw
    {
      this.exhausted, this.nextRx, this.nextRw := exhausted, nextRx, nextRw;
    }

    method Alloc(size: nat) returns (ok: bool, block: array<Byte>)
      ensures ok == !exhausted && fresh(block) && (ok ==> block.Length == size)
    {
      ok := !exhausted;
      block := new Byte[if ok then size else 0](_ => 0);
    }
  }

  method Write(block: array<Byte>, at: nat, bytes: seq<Byte>)
    requires at + |bytes| <= block.Length
    modifies block
    ensures block[..] == Splice(old(block[..]), at, |bytes|, bytes)
  {
    forall k | 0 <= k < |bytes| {
      block[at + k] := bytes[k];
    }
  }

  datatype Outcome =
    | TemplateItself(thunk: Address)
    | Allocated(allocBase: Address, thunk: Address, skip: nat)
    | OutOfMemory
    | Panic(error: JitError)

  type Relocator = (seq<Byte>, Address, nat) --> Result<RelocThunk>

  /** The part of the template that is kept when its magic is at `off`: up to the end of the thunk asm block. */
  function TemplateAt(c: Consts, mem: seq<Byte>, off: nat): seq<Byte>
    requires off + c.returnOffset <= |mem|
  {
    mem[..off + c.returnOffset]
  }

  /** The relocator accepts the template whose magic is the first, and what it makes of it leaves room for both slots
      and fits in the address space. */
  ghost predicate Placeable(c: Consts, relocate: Relocator, mem: seq<Byte>, ptr: Address, rx: Address) {
    forall off: nat | off + c.returnOffset <= |mem| && FirstMagic(c, mem, ptr, off) ::
      relocate.requires(TemplateAt(c, mem, off), ptr, off) &&
      match relocate(TemplateAt(c, mem, off), ptr, off)
      case Err(_) => true
      case Ok(thunk) => HasRoom(c, thunk) && rx + |thunk.thunk| + c.align <= 0x1_0000_0000_0000_0000
  }

  /** The thunk `base` bytes into an allocated block is aligned, inside the block, and patched. */
  predicate PlacedAt(c: Consts, block: seq<Byte>, thunk: RelocThunk, rx: Address, skip: nat, closure: Address,
                     back: Address)
    requires c.Valid() && HasRoom(c, thunk)
  {
    && |block| == |thunk.thunk| + c.align - 1 && skip + |thunk.thunk| <= |block|
    && AlignedAt(rx + skip, thunk.magicOffset, c.align)
    && block[skip..skip + |thunk.thunk|] == Patched(c, thunk, closure, back)
  }

  /** The allocated half of `New`: the two views start at addresses congruent modulo the alignment. */
  method Place(jit: JitAlloc, c: Consts, thunk: RelocThunk, closure: Address, back: Address)
    returns (r: Outcome, block: array<Byte>)
    requires c.Valid() && HasRoom(c, thunk)
    requires jit.nextRx % c.align == jit.nextRw % c.align
    requires jit.nextRx + |thunk.thunk| + c.align <= 0x1_0000_0000_0000_0000
    ensures jit.exhausted ==> r == OutOfMemory
    ensures !jit.exhausted ==>
              && r.Allocated? && r.allocBase == jit.nextRx && r.thunk == r.allocBase + r.skip
              && PlacedAt(c, block[..], thunk, jit.nextRx, r.skip, closure, back)
  {
    var ok;
    ok, block := jit.Alloc(|thunk.thunk| + c.align - 1);
    if !ok {
      return OutOfMemory, block;
    }
    var skip := AlignOffset(jit.nextRw + thunk.magicOffset, c.align);
    SameAlignment(jit.nextRx, jit.nextRw, thunk.magicOffset + skip, c.align);
    WriteThunk(block, skip, c, thunk, closure, back);
    return Allocated(jit.nextRx, jit.nextRx + skip, skip), block;
  }

  /** Copy the thunk to `skip`, then write both slots in place. */
  method WriteThunk(block: array<Byte>, skip: nat, c: Consts, thunk: RelocThunk, closure: Address, back: Address)
    requires c.Valid() && HasRoom(c, thunk) && skip + |thunk.thunk| <= block.Length
    modifies block
    ensures block[..][skip..skip + |thunk.thunk|] == Patched(c, thunk, closure, back)
  {
    var i, j, n := thunk.magicOffset + c.closureAt, thunk.magicOffset + c.returnAt, |thunk.thunk|;
    Write(block, skip, thunk.thunk);
    assert block[..][skip..skip + n] == thunk.thunk;
    WriteSlots(block, skip, n, i, Le(closure, c.ptr), j, Le(back, c.ptr));
  }

  /** Both slots of a window of `n` bytes, written in place. */
  method WriteSlots(block: array<Byte>, skip: nat, n: nat, i: nat, a: seq<Byte>, j: nat, b: seq<Byte>)
    requires skip + n <= block.Length && i + |a| <= n && j + |b| <= n
    modifies block
    ensures block[..][skip..skip + n] == Splice(Splice(old(block[..])[skip..skip + n], i, |a|, a), j, |b|, b)
  {
    WriteInside(block, skip, n, i, a);
    WriteInside(block, skip, n, j, b);
  }

  method WriteInside(block: array<Byte>, skip: nat, n: nat, at: nat, bytes: seq<Byte>)
    requires skip + n <= block.Length && at + |bytes| <= n
    modifies block
    ensures block[..][skip..skip + n] == Splice(old(block[..])[skip..skip + n], at, |bytes|, bytes)
  {
    SpliceInside(block[..], skip, n, at, bytes);
    Write(block, skip + at, bytes);
  }

  /** Writing inside a window of a block is writing to the window. */
  lemma SpliceInside(s: seq<Byte>, skip: nat, n: nat, at: nat, inserted: seq<Byte>)
    requires skip + n <= |s| && at + |inserted| <= n
    ensures Splice(s, skip + at, |inserted|, inserted)[skip..skip + n]
              == Splice(s[skip..skip + n], at, |inserted|, inserted)
  {
    SpliceIndex(s, skip + at, inserted);
    SpliceIndex(s[skip..skip + n], at, inserted);
    var x := Splice(s, skip + at, |inserted|, inserted)[skip..skip + n];
    var y := Splice(s[skip..skip + n], at, |inserted|, inserted);
    forall k | 0 <= k < n
      ensures x[k] == y[k]
    {
      if at <= k < at + |inserted| {
        assert x[k] == Splice(s, skip + at, |inserted|, inserted)[skip + at..skip + at + |inserted|][k - at];
        assert y[k] == y[at..at + |inserted|][k - at];
      }
    }
  }

  /** Congruent addresses stay congruent after the same offset. */
  lemma SameAlignment(x: nat, y: nat, k: nat, align: nat)
    requires align > 0 && x % align == y % align
    ensures (x + k) % align == (y + k) % align
  {
    var p, r := Divide(x, align);
    var q, _ := Divide(y, align);
    var e, f := Divide(r + k, align);
    Distribute(1, p, e, align);
    Distribute(1, q, e, align);
    DivAdd(p + e, align, f);
    DivAdd(q + e, align, f);
  }

  /**
   The thunk for a closure: the template itself for a closure of size zero; otherwise the relocated
   template, placed so that the magic is aligned, with both slots filled.
   */
  method New(jit: JitAlloc, relocate: Relocator, c: Consts, mem: seq<Byte>, ptr: Address, closure: Address,
             closureSize: nat, ghost there: nat)
    returns (r: Outcome, block: array<Byte>, off: nat)
    requires c.Valid() && MagicAt(c, mem, ptr, there) && there + c.returnOffset <= |mem|
    requires ptr + |mem| < 0x1_0000_0000_0000_0000
    requires jit.nextRx % c.align == jit.nextRw % c.align && Placeable(c, relocate, mem, ptr, jit.nextRx)
    ensures closureSize == 0 ==> r == TemplateItself(ptr)
    ensures closureSize != 0 ==>
              && FirstMagic(c, mem, ptr, off) && off + c.returnOffset <= |mem|
              && match relocate(TemplateAt(c, mem, off), ptr, off)
                 case Err(e) => r == Panic(e)
                 case Ok(thunk) =>
                   && (jit.exhausted ==> r == OutOfMemory)
                   && (!jit.exhausted ==>
                         && r.Allocated? && r.allocBase == jit.nextRx && r.thunk == r.allocBase + r.skip
                         && PlacedAt(c, block[..], thunk, jit.nextRx, r.skip, closure, ptr + off + c.returnOffset))
  {
    off := 0;
    if closureSize == 0 {
      block := new Byte[0];
      return TemplateItself(ptr), block, off;
    }
    off := FindMagic(c, mem, ptr, there);
    var relocated := relocate(TemplateAt(c, mem, off), ptr, off);
    match relocated {
      case Err(e) =>
        block := new Byte[0];
        return Panic(e), block, off;
      case Ok(thunk) =>
        r, block := Place(jit, c, thunk, closure, ptr + off + c.returnOffset);
    }
  }
}
