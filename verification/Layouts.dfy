/** What finding, placing and patching mean on each architecture, in numbers. */
module Layouts {
  import opened Bytes
  import opened SafeJit
  import opened Placement

  /** `off` is the lowest offset at an address that is a multiple of `n` at which `magic` stands. */
  predicate LowestAt(mem: seq<Byte>, ptr: Address, n: nat, magic: seq<Byte>, off: nat)
    requires n > 0
  {
    && StandsAt(mem, ptr, n, magic, off)
    && forall k: nat | k < off :: !StandsAt(mem, ptr, n, magic, k)
  }

  predicate StandsAt(mem: seq<Byte>, ptr: Address, n: nat, magic: seq<Byte>, k: nat)
    requires n > 0
  {
    (ptr + k) % n == 0 && k + |magic| <= |mem| && mem[k..k + |magic|] == magic
  }

  lemma FirstIsLowest(c: Consts, mem: seq<Byte>, ptr: Address, off: nat)
    requires c.align > 0
    ensures FirstMagic(c, mem, ptr, off) <==> LowestAt(mem, ptr, c.align, c.magic, off)
  {
    forall k: nat
      ensures MagicAt(c, mem, ptr, k) <==> StandsAt(mem, ptr, c.align, c.magic, k)
    {
    }
  }

  /** The block is `n - 1` bytes longer than the thunk, whose magic is at an address that is a multiple of `n`. The
      slots `closureAt` and `returnAt` bytes from it hold the closure pointer and the return address, and the rest of
      the thunk is as it was. */
  predicate Placed(block: seq<Byte>, thunk: RelocThunk, rx: Address, skip: nat, n: nat, closureAt: int,
                   closure: seq<Byte>, returnAt: int, back: seq<Byte>)
    requires n > 0
  {
    var i, j, len := thunk.magicOffset + closureAt, thunk.magicOffset + returnAt, |thunk.thunk|;
    && |block| == len + n - 1 && skip < n && (rx + skip + thunk.magicOffset) % n == 0
    && 0 <= i && i + |closure| <= len && 0 <= j && j + |back| <= len
    && SlotsFilled(block[skip..skip + len], thunk.thunk, i, closure, j, back)
  }

  lemma PlacedIs(c: Consts, block: seq<Byte>, thunk: RelocThunk, rx: Address, skip: nat, closure: Address,
                 back: Address)
    requires c.Valid() && HasRoom(c, thunk) && PlacedAt(c, block, thunk, rx, skip, closure, back)
    ensures Placed(block, thunk, rx, skip, c.align, c.closureAt, Le(closure, c.ptr), c.returnAt, Le(back, c.ptr))
  {
    var a, b := Le(closure, c.ptr), Le(back, c.ptr);
    PatchedReadsBack(c, thunk, closure, back, thunk.magicOffset + c.closureAt, thunk.magicOffset + c.returnAt);
    PlacedFrom(block, thunk, rx, skip, c.align, c.closureAt, a, c.returnAt, b, Patched(c, thunk, closure, back));
  }

  lemma PlacedFrom(block: seq<Byte>, thunk: RelocThunk, rx: Address, skip: nat, n: nat, closureAt: int, a: seq<Byte>,
                   returnAt: int, b: seq<Byte>, p: seq<Byte>)
    requires n > 0 && |block| == |thunk.thunk| + n - 1 && skip + |thunk.thunk| <= |block|
    requires AlignedAt(rx + skip, thunk.magicOffset, n) && block[skip..skip + |thunk.thunk|] == p
    requires 0 <= thunk.magicOffset + closureAt && thunk.magicOffset + closureAt + |a| <= |thunk.thunk|
    requires 0 <= thunk.magicOffset + returnAt && thunk.magicOffset + returnAt + |b| <= |thunk.thunk|
    requires SlotsFilled(p, thunk.thunk, thunk.magicOffset + closureAt, a, thunk.magicOffset + returnAt, b)
    ensures Placed(block, thunk, rx, skip, n, closureAt, a, returnAt, b)
  {
  }

  // ---------- bytes ----------

  lemma OneByte(x: nat, n: nat, a: Byte, y: nat)
    requires x == a + 0x100 * y
    ensures Le(x, n + 1) == [a] + Le(y, n)
  {
  }

  lemma FourBytes(x: nat, a: Byte, b: Byte, c: Byte, d: Byte)
    requires x == a + 0x100 * (b + 0x100 * (c + 0x100 * d))
    ensures Le(x, 4) == [a, b, c, d]
  {
    OneByte(x, 3, a, b + 0x100 * (c + 0x100 * d));
    OneByte(b + 0x100 * (c + 0x100 * d), 2, b, c + 0x100 * d);
    OneByte(c + 0x100 * d, 1, c, d);
    OneByte(d, 0, d, 0);
  }

  lemma EightBytes(x: nat, a: Byte, b: Byte, c: Byte, d: Byte, e: Byte, f: Byte, g: Byte, h: Byte)
    requires x == a + 0x100 * (b + 0x100 * (c + 0x100 * (d + 0x100 * (e + 0x100 * (f + 0x100 * (g + 0x100 * h))))))
    ensures Le(x, 8) == [a, b, c, d, e, f, g, h]
  {
    var y := e + 0x100 * (f + 0x100 * (g + 0x100 * h));
    FourBytes(y, e, f, g, h);
    OneByte(d + 0x100 * y, 4, d, y);
    OneByte(c + 0x100 * (d + 0x100 * y), 5, c, d + 0x100 * y);
    OneByte(b + 0x100 * (c + 0x100 * (d + 0x100 * y)), 6, b, c + 0x100 * (d + 0x100 * y));
    OneByte(x, 7, a, b + 0x100 * (c + 0x100 * (d + 0x100 * y)));
  }

  // ---------- AArch64 ----------

  /** The magic is UDF 0xDEAD twice, at a multiple of eight, and the template is kept up to sixteen bytes past it; the
      block is seven bytes longer than the thunk, and its magic is again at a multiple of eight. */
  lemma A64InNumbers(mem: seq<Byte>, ptr: Address, off: nat, block: seq<Byte>, thunk: RelocThunk, rx: Address,
                     skip: nat, closure: Address, back: Address)
    requires FirstMagic(A64, mem, ptr, off) && off + A64.returnOffset <= |mem| && back == ptr + off + A64.returnOffset
    requires HasRoom(A64, thunk) && PlacedAt(A64, block, thunk, rx, skip, closure, back)
    ensures LowestAt(mem, ptr, 8, [0xAD, 0xDE, 0, 0, 0xAD, 0xDE, 0, 0], off)
    ensures off + 16 <= |mem| && TemplateAt(A64, mem, off) == mem[..off + 16] && back == ptr + off + 16
    ensures |block| == |thunk.thunk| + 7 && (rx + skip + thunk.magicOffset) % 8 == 0
    ensures Placed(block, thunk, rx, skip, 8, 0, Le(closure, 8), 8, Le(back, 8))
  {
    A64MagicBytes();
    FirstIsLowest(A64, mem, ptr, off);
    PlacedIs(A64, block, thunk, rx, skip, closure, back);
  }

  lemma A64MagicBytes()
    ensures A64.magic == [0xAD, 0xDE, 0, 0, 0xAD, 0xDE, 0, 0]
  {
    EightBytes(A64_MAGIC, 0xAD, 0xDE, 0, 0, 0xAD, 0xDE, 0, 0);
  }

  // ---------- x86-64 ----------

  /** The magic is LOCK fourteen times and PUSH RAX, in the encoding of two bytes. */
  const LOCK_PUSH := [0xF0, 0xF0, 0xF0, 0xF0, 0xF0, 0xF0, 0xF0, 0xF0, 0xF0, 0xF0, 0xF0, 0xF0, 0xF0, 0xF0, 0xFF, 0xF0]

  /** On x86-64 it is at a multiple of eight, and so is the thunk's. */
  lemma X86_64InNumbers(mem: seq<Byte>, ptr: Address, off: nat, block: seq<Byte>, thunk: RelocThunk, rx: Address,
                        skip: nat, closure: Address, back: Address)
    requires FirstMagic(X86_64, mem, ptr, off) && off + X86_64.returnOffset <= |mem|
    requires back == ptr + off + X86_64.returnOffset
    requires HasRoom(X86_64, thunk) && PlacedAt(X86_64, block, thunk, rx, skip, closure, back)
    ensures LowestAt(mem, ptr, 8, LOCK_PUSH, off)
    ensures off + 16 <= |mem| && TemplateAt(X86_64, mem, off) == mem[..off + 16] && back == ptr + off + 16
    ensures |block| == |thunk.thunk| + 7 && (rx + skip + thunk.magicOffset) % 8 == 0
    ensures Placed(block, thunk, rx, skip, 8, 0, Le(closure, 8), 8, Le(back, 8))
  {
    FirstIsLowest(X86_64, mem, ptr, off);
    PlacedIs(X86_64, block, thunk, rx, skip, closure, back);
  }

  // ---------- x86 ----------

  /** On 32-bit x86 the slots are the immediates of the two MOVs that start the asm block, sixteen bytes before the
      magic; a MOV is one byte and its immediate. */
  lemma X86InNumbers(align: nat, mem: seq<Byte>, ptr: Address, off: nat, block: seq<Byte>, thunk: RelocThunk,
                     rx: Address, skip: nat, closure: Address, back: Address)
    requires align > 0 && FirstMagic(X86(align), mem, ptr, off) && off + X86(align).returnOffset <= |mem|
    requires back == ptr + off + X86(align).returnOffset
    requires HasRoom(X86(align), thunk) && PlacedAt(X86(align), block, thunk, rx, skip, closure, back)
    ensures LowestAt(mem, ptr, align, LOCK_PUSH, off)
    ensures off + 16 <= |mem| && TemplateAt(X86(align), mem, off) == mem[..off + 16] && back == ptr + off + 16
    ensures Placed(block, thunk, rx, skip, align, -15, Le(closure, 4), -10, Le(back, 4))
  {
    FirstIsLowest(X86(align), mem, ptr, off);
    PlacedIs(X86(align), block, thunk, rx, skip, closure, back);
  }

  // ---------- A32 ----------

  /** The magic is UDF 0xDEAD, at a multiple of four, and the template is kept up to eight bytes past it; the block is
      three bytes longer than the thunk, and its magic is again at a multiple of four. */
  lemma A32InNumbers(mem: seq<Byte>, ptr: Address, off: nat, block: seq<Byte>, thunk: RelocThunk, rx: Address,
                     skip: nat, closure: Address, back: Address)
    requires FirstMagic(ARM, mem, ptr, off) && off + ARM.returnOffset <= |mem| && back == ptr + off + ARM.returnOffset
    requires HasRoom(ARM, thunk) && PlacedAt(ARM, block, thunk, rx, skip, closure, back)
    ensures LowestAt(mem, ptr, 4, [0xFD, 0xEA, 0xFD, 0xE7], off)
    ensures off + 8 <= |mem| && TemplateAt(ARM, mem, off) == mem[..off + 8] && back == ptr + off + 8
    ensures |block| == |thunk.thunk| + 3 && (rx + skip + thunk.magicOffset) % 4 == 0
    ensures Placed(block, thunk, rx, skip, 4, 0, Le(closure, 4), 4, Le(back, 4))
  {
    A32MagicBytes();
    FirstIsLowest(ARM, mem, ptr, off);
    PlacedIs(ARM, block, thunk, rx, skip, closure, back);
  }

  lemma A32MagicBytes()
    ensures ARM.magic == [0xFD, 0xEA, 0xFD, 0xE7]
  {
    FourBytes(0xE7FD_EAFD, 0xFD, 0xEA, 0xFD, 0xE7);
  }
}
