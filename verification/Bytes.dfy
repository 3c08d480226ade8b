/** Bytes, machine words and their little-endian images. */
module Bytes {

  type Byte = b: nat | b < 0x100
  type Word = w: nat | w < 0x1_0000_0000
  type Address = a: nat | a < 0x1_0000_0000_0000_0000 witness 0

  datatype Option<+T> = None | Some(value: T) {
    predicate IsFailure() { None? }
    function PropagateFailure<U>(): Option<U> requires None? { None }
    function Extract(): T requires Some? { value }
  }

  /** The bit pattern of `w` read as an `i32` (`w as i32`). */
  function AsI32(w: Word): int {
    if w < 0x8000_0000 then w else w - 0x1_0000_0000
  }

  /** The bit pattern of `w` read as an `i32` and widened to a 64-bit register. */
  function SignExtend32(w: Word): Address {
    AsI32(w) % 0x1_0000_0000_0000_0000
  }

  /** `a.wrapping_add_signed(d)` on a 64-bit `usize`. */
  function WrappingAdd(a: int, d: int): Address {
    (a + d) % 0x1_0000_0000_0000_0000
  }

  /** Arithmetic on a 32-bit `usize`. */
  function Wrap32(a: int): Word { a % 0x1_0000_0000 }

  function Pow256(n: nat): (p: nat)
    ensures p > 0
  {
    if n == 0 then 1 else 0x100 * Pow256(n - 1)
  }

  /** The low `n` bytes of `x`, least significant first. */
  function Le(x: nat, n: nat): (s: seq<Byte>)
    ensures |s| == n
  {
    if n == 0 then [] else [x % 0x100] + Le(x / 0x100, n - 1)
  }

  function FromLe(s: seq<Byte>): (x: nat)
    ensures x < Pow256(|s|)
  {
    if s == [] then 0 else s[0] + 0x100 * FromLe(s[1..])
  }

  function Le4(w: Word): (s: seq<Byte>)
    ensures |s| == 4
  {
    Le(w, 4)
  }

  function Le8(a: Address): (s: seq<Byte>)
    ensures |s| == 8
  {
    Le(a, 8)
  }

  function FromLe4(s: seq<Byte>): Word
    requires |s| == 4
  {
    assert Pow256(4) == 0x1_0000_0000;
    FromLe(s)
  }

  function FromLe8(s: seq<Byte>): Address
    requires |s| == 8
  {
    assert Pow256(8) == 0x1_0000_0000_0000_0000;
    FromLe(s)
  }

  lemma {:induction false} LeRoundTrip(x: nat, n: nat)
    requires x < Pow256(n)
    ensures FromLe(Le(x, n)) == x
  {
    if n == 0 {
    } else {
      LeRoundTrip(x / 0x100, n - 1);
      assert Le(x, n)[1..] == Le(x / 0x100, n - 1);
    }
  }

  lemma Le4RoundTrip(w: Word)
    ensures FromLe4(Le4(w)) == w
  {
    assert Pow256(4) == 0x1_0000_0000;
    LeRoundTrip(w, 4);
  }

  lemma Le8RoundTrip(a: Address)
    ensures FromLe8(Le8(a)) == a
  {
    assert Pow256(8) == 0x1_0000_0000_0000_0000;
    LeRoundTrip(a, 8);
  }

  /** The instruction word at offset `p` of a code sequence. */
  function WordAt(code: seq<Byte>, p: nat): Word
    requires p + 4 <= |code|
  {
    FromLe4(code[p..p + 4])
  }

  function Zeros(n: nat): (s: seq<Byte>)
    ensures |s| == n
  {
    seq(n, _ => 0)
  }

  lemma SliceSlice(s: seq<Byte>, a: nat, b: nat, c: nat, d: nat)
    requires a <= b <= |s| && c <= d <= b - a
    ensures s[a..b][c..d] == s[a + c..a + d]
  {
    var x := s[a..b];
    forall i | 0 <= i < d - c
      ensures x[c..d][i] == s[a + c..a + d][i]
    {
      assert x[c..d][i] == x[c + i] == s[a + (c + i)];
    }
  }
}
