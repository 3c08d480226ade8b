/** Integer facts the bit-field proofs rest on. */
module Arith {

  lemma Distribute(a: int, b: int, c: int, d: int)
    ensures (a * b + c) * d == a * (b * d) + c * d
  {
  }

  lemma SubDistribute(a: int, b: int, c: int)
    ensures (a - b) * c == a * c - b * c
  {
  }

  lemma Assoc(a: int, b: int, c: int)
    ensures a * (b * c) == a * b * c
  {
  }

  lemma Commute(a: int, b: int)
    ensures a * b == b * a
  {
  }

  lemma MulMono(a: int, b: int, c: nat)
    requires a <= b
    ensures a * c <= b * c
  {
  }

  lemma Divide(w: int, u: nat) returns (q: int, r: nat)
    requires u > 0
    ensures q == w / u && r == w % u && w == q * u + r && r < u
    ensures w >= 0 ==> q >= 0
  {
    q, r := w / u, w % u;
    assert w == w / u * u + w % u;
  }

  lemma DivAdd(q: int, d: int, r: int)
    requires 0 <= r < d
    ensures (q * d + r) / d == q && (q * d + r) % d == r
  {
    var x := q * d + r;
    var e, f := Divide(x, d);
    if e > q {
      MulMono(1, e - q, d);
    } else if e < q {
      MulMono(1, q - e, d);
    }
  }

  /** `v * u + lo` is a digit: below `s * u` when `v` is below `s`. */
  lemma Digits(v: nat, lo: nat, u: nat, s: nat)
    requires v < s && lo < u
    ensures 0 <= v * u + lo < s * u
  {
    MulMono(0, v, u);
    MulMono(v + 1, s, u);
    Distribute(1, v, 1, u);
  }

  lemma HighPart(hi: int, v: nat, lo: nat, u: nat, s: nat)
    requires v < s && lo < u
    ensures s * u > 0
    ensures (hi * (s * u) + v * u + lo) / (s * u) == hi
    ensures (hi * (s * u) + v * u + lo) % (s * u) == v * u + lo
  {
    Digits(v, lo, u, s);
    DivAdd(hi, s * u, v * u + lo);
  }

  lemma MiddlePart(hi: int, v: nat, lo: nat, u: nat, s: nat)
    requires v < s && lo < u
    ensures (hi * (s * u) + v * u + lo) / u % s == v
  {
    Distribute(hi, s, v, u);
    DivAdd(hi * s + v, u, lo);
    DivAdd(hi, s, v);
  }

  /** A high part below `rest`, a digit and a low part put together stay below `rest * (s * u)`. */
  lemma Join(hi: nat, v: nat, lo: nat, u: nat, s: nat, rest: nat) returns (r: nat)
    requires v < s && lo < u && hi < rest
    ensures r == hi * (s * u) + v * u + lo && r < rest * (s * u)
    ensures r / u % s == v
  {
    Digits(v, lo, u, s);
    Digits(hi, v * u + lo, s * u, rest);
    MiddlePart(hi, v, lo, u, s);
    r := hi * (s * u) + v * u + lo;
  }

  lemma DivDiv(w: int, a: nat, b: nat)
    requires a > 0 && b > 0
    ensures a * b > 0 && w / (a * b) == w / b / a
    ensures w % (a * b) == w / b % a * b + w % b
  {
    var q, lo := Divide(w, b);
    var hi, v := Divide(q, a);
    Distribute(hi, a, v, b);
    HighPart(hi, v, lo, b, a);
  }

  lemma ModMod(w: int, a: nat, b: nat)
    requires a > 0 && b > 0
    ensures a * b > 0 && w % (a * b) % b == w % b
  {
    var q, lo := Divide(w, b);
    var hi, v := Divide(q, a);
    Distribute(hi, a, v, b);
    HighPart(hi, v, lo, b, a);
    DivAdd(v, b, lo);
  }

  /** Adding a multiple of everything up to and including the middle digit keeps the middle digit. */
  lemma AddAbove(w: int, k: int, d: nat, u: nat, s: nat)
    requires u > 0 && s > 0
    ensures (w + k * (d * (s * u))) / u % s == w / u % s
  {
    var q, lo := Divide(w, u);
    var hi, f := Divide(q, s);
    calc {
      k * (d * (s * u));
      { Assoc(d, s, u); Assoc(k, d * s, u); }
      k * (d * s) * u;
      { Assoc(k, d, s); }
      k * d * s * u;
    }
    Distribute(k * d, s, q, u);
    Assoc(k * d, s, u);
    DivAdd(k * d * s + q, u, lo);
    Distribute(1, k * d, hi, s);
    DivAdd(k * d + hi, s, f);
  }

  /** A number with its middle digit `was` replaced by `now`. */
  lemma ReplaceDigit(w: int, hi: nat, was: nat, now: nat, lo: nat, u: nat, s: nat, rest: nat) returns (r: nat)
    requires w == hi * (s * u) + was * u + lo && now < s && lo < u && hi < rest
    ensures r == w - was * u + now * u && r < rest * (s * u) && r / u % s == now
  {
    r := Join(hi, now, lo, u, s, rest);
  }

  /** Changing a digit keeps every quotient above it. */
  lemma KeepsHigh(hi: int, v: nat, x: nat, lo: nat, u: nat, s: nat, d: nat)
    requires v < s && x < s && lo < u && d > 0
    ensures d * (s * u) > 0
    ensures (hi * (s * u) + v * u + lo) / (d * (s * u)) == (hi * (s * u) + x * u + lo) / (d * (s * u))
  {
    HighPart(hi, v, lo, u, s);
    HighPart(hi, x, lo, u, s);
    DivDiv(hi * (s * u) + v * u + lo, d, s * u);
    DivDiv(hi * (s * u) + x * u + lo, d, s * u);
  }

  /** Changing a digit keeps every digit below it. */
  lemma KeepsLow(w: int, v: int, x: int, p: nat, d: nat, u: nat, s: nat)
    requires u > 0 && s > 0 && p == d * (s * u)
    ensures (w - v * p + x * p) / u % s == w / u % s
  {
    SubDistribute(x, v, p);
    AddAbove(w, x - v, d, u, s);
  }

  /** Shifting up by `l` modulo `m * l` drops the part above `m`. */
  lemma ShiftUp(hi: int, x: nat, m: nat, l: nat)
    requires x < m && l > 0
    ensures m * l > 0 && (hi * m + x) * l % (m * l) == x * l
  {
    Distribute(hi, m, x, l);
    MulMono(0, x, l);
    MulMono(x + 1, m, l);
    Distribute(1, x, 1, l);
    DivAdd(hi, m * l, x * l);
  }

  lemma ShiftDown(v: int, lo: nat, u: nat, l: nat)
    requires lo < u && l > 0
    ensures u * l > 0 && (v * u + lo) * l / (u * l) == v
  {
    Distribute(v, u, lo, l);
    MulMono(0, lo, l);
    MulMono(lo + 1, u, l);
    Distribute(1, lo, 1, l);
    DivAdd(v, u * l, lo * l);
  }

  lemma QuotientRange(v: int, s: int)
    requires s > 0
    ensures v / s == -1 || v / s == 0 <==> -s <= v < s
  {
    var q, r := Divide(v, s);
    if q < -1 { MulMono(q, -2, s); }
    if q > 0 { MulMono(1, q, s); }
  }

  /** A 32-bit number is made of its parts of 5, 19, 6 and 2 bits. */
  lemma FourDigits(w: nat)
    requires w < 0x1_0000_0000
    ensures w == w % 32 + 32 * (w / 32 % 0x8_0000) + 0x100_0000 * (w / 0x100_0000 % 64)
                 + 0x4000_0000 * (w / 0x4000_0000 % 4)
  {
    var q := w / 32;
    var q2 := q / 0x8_0000;
    var q3 := q2 / 64;
    assert w == 32 * q + w % 32;
    assert q == 0x8_0000 * q2 + q % 0x8_0000;
    assert q2 == 64 * q3 + q2 % 64;
    assert w / 0x100_0000 == q2;
    assert w / 0x4000_0000 == q3;
    assert q3 < 4;
  }
}
