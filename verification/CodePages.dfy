/** Code mapped in pages that are not writable while it runs. */
module CodePages {
  import opened Bytes

  /** Up to `n` mapped bytes from address `a` on. */
  function Window(rom: map<Address, Byte>, a: Address, n: nat): seq<Byte>
    decreases n
  {
    if n == 0 || a !in rom then [] else [rom[a]] + Window(rom, WrappingAdd(a, 1), n - 1)
  }

  /** `code` is mapped at `base`. */
  ghost predicate Mapped(rom: map<Address, Byte>, base: Address, code: seq<Byte>) {
    && base + |code| < 0x1_0000_0000_0000_0000
    && forall i {:trigger code[i]} | 0 <= i < |code| :: base + i in rom && rom[base + i] == code[i]
  }

  lemma {:induction false} WindowHolds(rom: map<Address, Byte>, base: Address, code: seq<Byte>, p: nat, k: nat, n: nat)
    requires Mapped(rom, base, code) && p + k <= |code| && k <= n
    ensures code[p..p + k] <= Window(rom, base + p, n)
    decreases k
  {
    if k == 0 {
    } else {
      var first := code[p];
      assert base + p in rom && rom[base + p] == first;
      WindowHolds(rom, base, code, p + 1, k - 1, n - 1);
      assert WrappingAdd(base + p, 1) == base + (p + 1);
      assert code[p..p + k] == [first] + code[p + 1..p + 1 + (k - 1)];
    }
  }
}
