/**
 The fields of a 32-bit instruction word, as the `bitflags_field` macro generates them.

 Shifts and masks are functions on the bits of an integer; clearing a field before or-ing a
 shifted value into it is a subtraction followed by an addition.
 */
module BitField {
  import opened Arith
  import opened Bytes

  function Pow2(n: nat): (p: nat)
    ensures p > 0
  {
    if n == 0 then 1 else 2 * Pow2(n - 1)
  }

  /** `x >> n`, arithmetic on negative numbers. */
  function Shr(x: int, n: nat): (r: int)
    ensures x >= 0 ==> r >= 0
    decreases n, x < 0
  {
    if n == 0 then x else Shr(x / 2, n - 1)
  }

  /** `x << n`, before truncation to a machine width. */
  function Shl(x: int, n: nat): int {
    if n == 0 then x else 2 * Shl(x, n - 1)
  }

  /** The low `n` bits of `x`: `x & ((1 << n) - 1)`. */
  function Low(x: int, n: nat): (r: nat)
    ensures r < Pow2(n)
    decreases n, x < 0
  {
    if n == 0 then 0 else x % 2 + 2 * Low(x / 2, n - 1)
  }

  datatype Field = Field(start: nat, end: nat) {

    predicate Valid() { start < end <= 32 }

    function Bits(): nat
      requires Valid()
    {
      end - start
    }

    /** The unsigned getter. */
    function Get(w: Word): (r: nat)
      requires Valid()
      ensures r < Pow2(Bits())
    {
      Low(Shr(w, start), Bits())
    }

    /** The setter: clear the field, then or in the low bits of `v`. */
    function Set(w: Word, v: int): (r: Word)
      requires Valid()
      ensures Get(r) == Low(v, Bits())
    {
      SetInWord(this, w, v);
      w - Shl(Get(w), start) + Shl(Low(v, Bits()), start)
    }

    /** The unsigned try-setter. */
    function TrySet(w: Word, v: nat): Option<Word>
      requires Valid()
    {
      if v > Pow2(Bits()) - 1 then None else Some(Set(w, v))
    }

    /** The signed getter: shift the field to the top of an `i32`, then shift it back arithmetically. */
    function GetSigned(w: Word): int
      requires Valid()
    {
      Shr(AsI32(Shl(w, 32 - end) % 0x1_0000_0000), 32 - end + start)
    }

    /** The signed setter: `val as u32` reduces modulo 2^32. */
    function SetSigned(w: Word, v: int): Word
      requires Valid()
    {
      Set(w, v % 0x1_0000_0000)
    }

    /** The signed try-setter: the bits shifted out must be all zeros or all ones. It is not generated for a field of
        the whole word, where there are none to shift out. */
    function TrySetSigned(w: Word, v: int): Option<Word>
      requires Valid() && Bits() < 32
    {
      var extraBits := Shr(v, Bits());
      if extraBits != -1 && extraBits != 0 then None else Some(SetSigned(w, v))
    }

    predicate Disjoint(that: Field) {
      end <= that.start || that.end <= start
    }
  }

  // ---------- shifts and masks as arithmetic ----------

  lemma {:induction false} Pow2Sum(m: nat, n: nat)
    ensures Pow2(m + n) == Pow2(m) * Pow2(n)
  {
    if m == 0 {
    } else {
      Pow2Sum(m - 1, n);
      Assoc(2, Pow2(m - 1), Pow2(n));
    }
  }

  lemma Pow2Word()
    ensures Pow2(32) == 0x1_0000_0000
  {
    assert Pow2(8) == 0x100;
    Pow2Sum(8, 8);
    Pow2Sum(16, 16);
  }

  lemma {:induction false} ShrIsDiv(x: int, n: nat)
    ensures Shr(x, n) == x / Pow2(n)
    decreases n, x < 0
  {
    if n == 0 {
    } else {
      ShrIsDiv(x / 2, n - 1);
      Commute(2, Pow2(n - 1));
      DivDiv(x, Pow2(n - 1), 2);
    }
  }

  lemma {:induction false} LowIsMod(x: int, n: nat)
    ensures Low(x, n) == x % Pow2(n)
    decreases n, x < 0
  {
    if n == 0 {
    } else {
      LowIsMod(x / 2, n - 1);
      Commute(2, Pow2(n - 1));
      DivDiv(x, Pow2(n - 1), 2);
    }
  }

  lemma {:induction false} ShlIsMul(x: int, n: nat)
    ensures Shl(x, n) == x * Pow2(n)
  {
    if n == 0 {
    } else {
      ShlIsMul(x, n - 1);
      Assoc(x, 2, Pow2(n - 1));
    }
  }

  lemma DigitIs(x: nat, lo: nat, n: nat, u: nat, s: nat, v: nat)
    requires u == Pow2(lo) && s == Pow2(n) && v == x / u % s
    ensures Low(Shr(x, lo), n) == v
  {
    ShrIsDiv(x, lo);
    LowIsMod(Shr(x, lo), n);
  }

  lemma GetIsDivMod(f: Field, w: Word)
    requires f.Valid()
    ensures f.Get(w) == w / Pow2(f.start) % Pow2(f.Bits())
  {
    ShrIsDiv(w, f.start);
    LowIsMod(Shr(w, f.start), f.Bits());
  }

  /** A word is the bits above a field, the field, and the bits below it. */
  lemma CutWord(f: Field, w: Word) returns (hi: nat, lo: nat)
    requires f.Valid()
    ensures w == hi * (Pow2(f.Bits()) * Pow2(f.start)) + f.Get(w) * Pow2(f.start) + lo
    ensures lo < Pow2(f.start) && hi < Pow2(32 - f.end)
  {
    var u, s := Pow2(f.start), Pow2(f.Bits());
    GetIsDivMod(f, w);
    var q, v;
    q, lo := Divide(w, u);
    hi, v := Divide(q, s);
    Distribute(hi, s, v, u);
    Around(f);
    if hi >= Pow2(32 - f.end) {
      MulMono(Pow2(32 - f.end), hi, s * u);
      MulMono(0, v, u);
    }
  }

  lemma Around(f: Field)
    requires f.Valid()
    ensures Pow2(32 - f.end) * (Pow2(f.Bits()) * Pow2(f.start)) == 0x1_0000_0000
    ensures Pow2(f.Bits()) * Pow2(f.start) == Pow2(f.end)
  {
    Pow2Sum(f.Bits(), f.start);
    Pow2Sum(32 - f.end, f.end);
    Pow2Word();
  }

  lemma SetInWord(f: Field, w: Word, v: int)
    requires f.Valid()
    ensures var r := w - Shl(f.Get(w), f.start) + Shl(Low(v, f.Bits()), f.start);
            0 <= r < 0x1_0000_0000 && Low(Shr(r, f.start), f.Bits()) == Low(v, f.Bits())
  {
    var was, now := f.Get(w), Low(v, f.Bits());
    var hi, lo := CutWord(f, w);
    ShlIsMul(was, f.start);
    ShlIsMul(now, f.start);
    Around(f);
    var r := ReplaceDigit(w, hi, was, now, lo, Pow2(f.start), Pow2(f.Bits()), Pow2(32 - f.end));
    ShrIsDiv(r, f.start);
    LowIsMod(Shr(r, f.start), f.Bits());
  }

  // ---------- properties of the generated accessors ----------

  /** Setting a field subtracts what it held and adds what it is to hold. */
  lemma SetIsDifference(f: Field, w: Word, v: int) returns (was: nat, now: nat, p: nat)
    requires f.Valid()
    ensures p == Pow2(f.start) && was == f.Get(w) < Pow2(f.Bits()) && now == Low(v, f.Bits())
    ensures f.Set(w, v) == w - was * p + now * p
  {
    was, now, p := f.Get(w), Low(v, f.Bits()), Pow2(f.start);
    ShlIsMul(was, f.start);
    ShlIsMul(now, f.start);
  }

  lemma SetKeepsAbove(f: Field, g: Field, w: Word, v: int)
    requires f.Valid() && g.Valid() && f.end <= g.start
    ensures f.Set(w, v) / Pow2(g.start) == w / Pow2(g.start)
  {
    var was, now, u := SetIsDifference(f, w, v);
    var hi, lo := CutWord(f, w);
    Around(f);
    Pow2Sum(g.start - f.end, f.end);
    KeepsHigh(hi, was, now, lo, u, Pow2(f.Bits()), Pow2(g.start - f.end));
  }

  lemma SetKeepsBelow(f: Field, g: Field, w: Word, v: int)
    requires f.Valid() && g.Valid() && g.end <= f.start
    ensures f.Set(w, v) / Pow2(g.start) % Pow2(g.Bits()) == w / Pow2(g.start) % Pow2(g.Bits())
  {
    var was, now, p := SetIsDifference(f, w, v);
    Around(g);
    Pow2Sum(f.start - g.end, g.end);
    KeepsLow(w, was, now, p, Pow2(f.start - g.end), Pow2(g.start), Pow2(g.Bits()));
  }

  /** Setting a field leaves every disjoint field as it was. */
  lemma SetKeepsDisjoint(f: Field, g: Field, w: Word, v: int)
    requires f.Valid() && g.Valid() && f.Disjoint(g)
    ensures g.Get(f.Set(w, v)) == g.Get(w)
  {
    var r := f.Set(w, v);
    GetIsDivMod(g, w);
    GetIsDivMod(g, r);
    if f.end <= g.start {
      SetKeepsAbove(f, g, w, v);
    } else {
      SetKeepsBelow(f, g, w, v);
    }
  }

  /** Four fields set one after another all read back. */
  lemma SetFour(f: Field, g: Field, h: Field, k: Field, w: Word, a: int, b: int, c: int, d: int)
    requires f.Valid() && g.Valid() && h.Valid() && k.Valid()
    requires f.Disjoint(g) && f.Disjoint(h) && f.Disjoint(k) && g.Disjoint(h) && g.Disjoint(k) && h.Disjoint(k)
    ensures var r := k.Set(h.Set(g.Set(f.Set(w, a), b), c), d);
            && f.Get(r) == Low(a, f.Bits()) && g.Get(r) == Low(b, g.Bits())
            && h.Get(r) == Low(c, h.Bits()) && k.Get(r) == Low(d, k.Bits())
  {
    var w1 := f.Set(w, a);
    var w2 := g.Set(w1, b);
    var w3 := h.Set(w2, c);
    SetKeepsDisjoint(g, f, w1, b);
    SetKeepsDisjoint(h, f, w2, c);
    SetKeepsDisjoint(h, g, w2, c);
    SetKeepsDisjoint(k, f, w3, d);
    SetKeepsDisjoint(k, g, w3, d);
    SetKeepsDisjoint(k, h, w3, d);
  }

  lemma LowOfSmall(v: int, n: nat)
    requires 0 <= v < Pow2(n)
    ensures Low(v, n) == v
  {
    LowIsMod(v, n);
    DivAdd(0, Pow2(n), v);
  }

  /** The unsigned try-setter succeeds exactly on the values the field can hold, and then holds them. */
  lemma TrySetExact(f: Field, w: Word, v: nat)
    requires f.Valid()
    ensures f.TrySet(w, v).Some? <==> v < Pow2(f.Bits())
    ensures f.TrySet(w, v).Some? ==> f.Get(f.TrySet(w, v).value) == v
  {
    if v < Pow2(f.Bits()) {
      LowOfSmall(v, f.Bits());
    }
  }

  lemma SignedShift(f: Field, w: Word)
    requires f.Valid()
    ensures f.GetSigned(w)
         == AsI32(w * Pow2(32 - f.end) % 0x1_0000_0000) / (Pow2(32 - f.end) * Pow2(f.start))
  {
    ShlIsMul(w, 32 - f.end);
    Pow2Sum(32 - f.end, f.start);
    ShrIsDiv(AsI32(Shl(w, 32 - f.end) % 0x1_0000_0000), 32 - f.end + f.start);
  }

  /** The signed getter is the field in two's complement. */
  lemma SignedIsTwosComplement(f: Field, w: Word)
    requires f.Valid()
    ensures f.GetSigned(w)
         == if f.Get(w) < Pow2(f.Bits() - 1) then f.Get(w) else f.Get(w) - Pow2(f.Bits())
  {
    var hi, lo := CutWord(f, w);
    Around(f);
    Commute(Pow2(32 - f.end), Pow2(f.Bits()) * Pow2(f.start));
    SignedShift(f, w);
    SignedParts(w, hi, f.Get(w), lo, Pow2(f.start), Pow2(f.Bits()), Pow2(32 - f.end), Pow2(f.Bits() - 1));
  }

  /** Two words with the same signed field hold the same bits there. */
  lemma SignedInjective(f: Field, a: Word, b: Word)
    requires f.Valid()
    ensures f.GetSigned(a) == f.GetSigned(b) <==> f.Get(a) == f.Get(b)
  {
    SignedIsTwosComplement(f, a);
    SignedIsTwosComplement(f, b);
  }

  lemma SignedParts(w: int, hi: nat, v: nat, lo: nat, u: nat, s: int, l: nat, half: nat)
    requires w == hi * (s * u) + v * u + lo && v < s && lo < u
    requires l > 0 && s == 2 * half && s * u * l == 0x1_0000_0000
    ensures l * u > 0
    ensures AsI32(w * l % 0x1_0000_0000) / (l * u) == if v < half then v else v - s
  {
    Digits(v, lo, u, s);
    ShiftUp(hi, v * u + lo, s * u, l);
    SignBit(v, lo, u, l, half);
    Commute(u, l);
    ShiftDown(v, lo, u, l);
    SubDistribute(v, s, u);
    ShiftDown(v - s, lo, u, l);
    SubDistribute(v * u + lo, s * u, l);
  }

  lemma SignBit(v: nat, lo: nat, u: nat, l: nat, half: nat)
    requires lo < u && l > 0 && 2 * half * u * l == 0x1_0000_0000
    ensures (v * u + lo) * l < 0x8000_0000 <==> v < half
  {
    Assoc(2, half, u);
    Assoc(2, half * u, l);
    if v < half {
      Digits(v, lo, u, half);
      MulMono(v * u + lo + 1, half * u, l);
      Distribute(1, v * u + lo, 1, l);
    } else {
      MulMono(half, v, u);
      MulMono(half * u, v * u + lo, l);
    }
  }

  /** Truncating to a word first does not change what a field holds. */
  lemma LowOfWord(v: int, n: nat)
    requires n <= 32
    ensures Low(v % 0x1_0000_0000, n) == Low(v, n)
  {
    LowIsMod(v, n);
    LowIsMod(v % 0x1_0000_0000, n);
    Pow2Sum(32 - n, n);
    Pow2Word();
    ModMod(v, Pow2(32 - n), Pow2(n));
  }

  /**
   The signed try-setter of an n-bit field accepts [-2^n, 2^n), one bit more than the field can
   hold: reading the field back gives the value exactly on [-2^(n-1), 2^(n-1)).
   */
  lemma TrySetSignedExact(f: Field, w: Word, v: int)
    requires f.Valid() && f.Bits() < 32
    ensures f.TrySetSigned(w, v).Some? <==> -(Pow2(f.Bits()) as int) <= v < Pow2(f.Bits())
    ensures f.TrySetSigned(w, v).Some? ==>
              var r := f.TrySetSigned(w, v).value;
              f.GetSigned(r) == v <==> -(Pow2(f.Bits() - 1) as int) <= v < Pow2(f.Bits() - 1)
  {
    var n := f.Bits();
    ShrIsDiv(v, n);
    QuotientRange(v, Pow2(n));
    if f.TrySetSigned(w, v).Some? {
      LowOfWord(v, n);
      SignedIsTwosComplement(f, f.SetSigned(w, v));
      LowOfSigned(v, n);
    }
  }

  lemma LowOfSigned(v: int, n: nat)
    requires -(Pow2(n) as int) <= v < Pow2(n)
    ensures Low(v, n) == if v < 0 then v + Pow2(n) else v
  {
    LowIsMod(v, n);
    if v < 0 {
      DivAdd(-1, Pow2(n), v + Pow2(n));
    } else {
      DivAdd(0, Pow2(n), v);
    }
  }

  // ---------- fields inside fields ----------

  lemma {:induction false} ShrShr(x: int, m: nat, n: nat)
    ensures Shr(Shr(x, m), n) == Shr(x, m + n)
    decreases m
  {
    if m == 0 {
    } else {
      ShrShr(x / 2, m - 1, n);
    }
  }

  lemma {:induction false} ShrLow(x: int, m: nat, n: nat)
    requires n <= m
    ensures Shr(Low(x, m), n) == Low(Shr(x, n), m - n)
    decreases n
  {
    if n == 0 {
    } else {
      ShrLow(x / 2, m - 1, n - 1);
      assert Low(x, m) / 2 == Low(x / 2, m - 1);
    }
  }

  lemma {:induction false} LowLow(x: int, m: nat, n: nat)
    requires n <= m
    ensures Low(Low(x, m), n) == Low(x, n)
    decreases n
  {
    if n == 0 {
    } else {
      LowLow(x / 2, m - 1, n - 1);
      assert Low(x, m) / 2 == Low(x / 2, m - 1) && Low(x, m) % 2 == x % 2;
    }
  }

  /** A field that lies inside another one is read from it. */
  lemma SubField(f: Field, g: Field, w: Word)
    requires f.Valid() && g.Valid() && f.start <= g.start && g.end <= f.end
    ensures g.Get(w) == Low(Shr(f.Get(w), g.start - f.start), g.Bits())
  {
    var x := Shr(w, f.start);
    ShrShr(w, f.start, g.start - f.start);
    ShrLow(x, f.Bits(), g.start - f.start);
    LowLow(Shr(x, g.start - f.start), f.Bits() - (g.start - f.start), g.Bits());
  }
}
