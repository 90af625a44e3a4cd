/**
 Bit arithmetic of src/sys/eros/ffs.h and fls.h and of the buddy allocator, on natural numbers:
 masks of low bits are remainders and shifts are divisions by powers of two.
 */
module Bits {

  function Pow2(n: nat): (p: nat)
    ensures p > 0
  {
    if n == 0 then 1 else 2 * Pow2(n - 1)
  }

  lemma {:induction false} Pow2Add(a: nat, b: nat)
    ensures Pow2(a + b) == Pow2(a) * Pow2(b)
  {
    if b > 0 {
      Pow2Add(a, b - 1);
      assert Pow2(a + b) == 2 * (Pow2(a) * Pow2(b - 1)) == Pow2(a) * (2 * Pow2(b - 1));
    }
  }

  lemma {:induction false} Pow2Monotone(a: nat, b: nat)
    requires a <= b
    ensures Pow2(a) <= Pow2(b) && (a < b ==> 2 * Pow2(a) <= Pow2(b))
  {
    if a < b {
      Pow2Monotone(a, b - 1);
    }
  }

  lemma Pow2Values()
    ensures Pow2(0) == 1 && Pow2(1) == 2 && Pow2(2) == 4 && Pow2(4) == 16 && Pow2(8) == 256 && Pow2(16) == 65536
    ensures Pow2(3) == 8 && Pow2(5) == 32 && Pow2(6) == 64 && Pow2(7) == 128 && Pow2(32) == 0x1_0000_0000
  {
    assert Pow2(4) == 16 && Pow2(8) == 256 && Pow2(12) == 4096 && Pow2(16) == 65536;
    Pow2Add(16, 16);
  }

  /** x is a multiple of 2**n. */
  predicate Aligned(x: nat, n: nat) {
    x % Pow2(n) == 0
  }

  /** w is `word` shifted left by num bits. */
  ghost predicate Shifted(w: nat, word: nat, num: nat) {
    w == word * Pow2(num)
  }

  lemma MulAssoc(a: nat, b: nat, c: nat)
    ensures (a * b) * c == a * (c * b)
  {
  }

  lemma Quotient(x: nat, c: nat)
    requires c > 0
    ensures (x / c) * c <= x && x + 1 <= (x / c + 1) * c
    ensures x % c == 0 ==> (x / c) * c == x
  {
  }

  lemma ShiftRight(w: nat, word: nat, num: nat, d: nat, c: nat, q: nat)
    requires Shifted(w, word, num) && c == Pow2(d) && word == q * c
    ensures Shifted(w, q, num + d)
  {
    Pow2Add(num, d);
    MulAssoc(q, c, Pow2(num));
  }

  /** A number not divisible by c*c, but by c, is not divisible by c once more. */
  lemma DivisibleOnce(word: nat, c: nat, cc: nat)
    requires c > 0 && cc == c * c && word % cc != 0 && word % c == 0
    ensures (word / c) % c != 0
  {
    if (word / c) % c == 0 {
      var q := word / c / c;
      assert word == (q * c) * c == q * cc;
      MulMod(q, cc);
    }
  }

  /** One test of ffs32: the shift, if the low bits are zero, and what it leaves. */
  lemma FfsStep(w: nat, word: nat, num: nat, d: nat, c: nat, cc: nat)
    requires Shifted(w, word, num) && c == Pow2(d) && cc == c * c && (w > 0 ==> word % cc != 0)
    requires (w == 0 ==> word == 0)
    ensures word % c == 0 ==> Shifted(w, word / c, num + d)
    ensures w > 0 ==> (if word % c == 0 then word / c else word) % c != 0
  {
    if word % c == 0 {
      Quotient(word, c);
      ShiftRight(w, word, num, d, c, word / c);
      if w > 0 {
        DivisibleOnce(word, c, cc);
      }
    }
  }

  /** ffs32: the number of zero bits below the lowest one bit; 31 when there is none. */
  method Ffs32(w: nat) returns (num: nat)
    requires w < 0x1_0000_0000
    ensures w == 0 ==> num == 31
    ensures w > 0 ==> num < 32 && exists odd: nat :: odd % 2 == 1 && Shifted(w, odd, num)
  {
    assert Shifted(w, w, 0);
    Pow2Values();
    hide Shifted, Pow2;
    var word := w;
    FfsStep(w, word, 0, 16, 0x10000, 0x1_0000_0000);
    if word % 0x10000 == 0 {
      num := 16;
      word := word / 0x10000;
    } else {
      num := 0;
    }
    FfsStep(w, word, num, 8, 0x100, 0x10000);
    if word % 0x100 == 0 {
      num := num + 8;
      word := word / 0x100;
    }
    FfsStep(w, word, num, 4, 0x10, 0x100);
    if word % 0x10 == 0 {
      num := num + 4;
      word := word / 0x10;
    }
    FfsStep(w, word, num, 2, 4, 0x10);
    if word % 4 == 0 {
      num := num + 2;
      word := word / 4;
    }
    FfsStep(w, word, num, 1, 2, 4);
    if word % 2 == 0 {
      num := num + 1;
      word := word / 2;
    }
  }

  /** x has the bits of w from that of weight p up. */
  ghost predicate Above(w: nat, x: nat, p: nat) {
    x * p <= w < (x + 1) * p
  }

  lemma MulMono(a: nat, b: nat, p: nat)
    requires a <= b
    ensures a * p <= b * p
  {
  }

  lemma AboveQuotient(w: nat, x: nat, p: nat, c: nat, q: nat)
    requires Above(w, x, p) && q * c <= x && x + 1 <= (q + 1) * c
    ensures Above(w, q, p * c)
  {
    MulMono(q * c, x, p);
    MulMono(x + 1, (q + 1) * c, p);
    MulAssoc(q, c, p);
    MulAssoc(q + 1, c, p);
  }

  lemma AboveShift(w: nat, x: nat, s: nat, d: nat, c: nat, q: nat)
    requires c == Pow2(d) && q * c <= x && x + 1 <= (q + 1) * c
    requires Above(w, x, Pow2(s))
    ensures Above(w, q, Pow2(s + d))
  {
    hide Above;
    Pow2Add(s, d);
    AboveQuotient(w, x, Pow2(s), c, q);
  }

  /** x has the bits of w from bit r - 1 up, and is below c. */
  ghost predicate From(w: nat, x: nat, r: nat, c: nat) {
    1 <= x < c && 1 <= r <= 32 && Above(w, x, Pow2(r - 1))
  }

  /** One test of fls32. */
  lemma FlsStep(w: nat, x: nat, r: nat, d: nat, c: nat, q: nat)
    requires c == Pow2(d) && c > 1 && q * c <= x && x + 1 <= (q + 1) * c && r + d <= 32
    requires From(w, x, r, c * c)
    ensures if x >= c then From(w, q, r + d, c) else From(w, x, r, c)
  {
    hide Above;
    AboveShift(w, x, r - 1, d, c, q);
    if x >= c {
      MulLess(c, 1, q + 1);
      MulLess(c, q, c);
    }
  }

  lemma FromAll(w: nat)
    requires 0 < w < 0x1_0000_0000
    ensures From(w, w, 1, 0x10000 * 0x10000)
  {
  }

  /** fls32: the number of the highest one bit, counting from one; zero when there is none. */
  method Fls32(w: nat) returns (r: nat)
    requires w < 0x1_0000_0000
    ensures w == 0 ==> r == 0
    ensures w > 0 ==> 1 <= r <= 32 && Pow2(r - 1) <= w < Pow2(r)
  {
    hide *;
    if w == 0 {
      return 0;
    }
    FromAll(w);
    Pow2Values();
    var x := w;
    r := 1;
    FlsStep(w, x, r, 16, 0x10000, x / 0x10000);
    if x >= 0x10000 {
      r := r + 16;
      x := x / 0x10000;
    }
    assert From(w, x, r, 0x10000) && r <= 17;
    FlsStep(w, x, r, 8, 0x100, x / 0x100);
    if x >= 0x100 {
      r := r + 8;
      x := x / 0x100;
    }
    assert From(w, x, r, 0x100) && r <= 25;
    FlsStep(w, x, r, 4, 0x10, x / 0x10);
    if x >= 0x10 {
      x := x / 0x10;
      r := r + 4;
    }
    assert From(w, x, r, 0x10) && r <= 29;
    FlsStep(w, x, r, 2, 4, x / 4);
    if x >= 4 {
      x := x / 4;
      r := r + 2;
    }
    assert From(w, x, r, 4) && r <= 31;
    TopBit(w, x, r);
    if x >= 2 {
      r := r + 1;
    }
  }

  lemma TopBit(w: nat, x: nat, r: nat)
    requires From(w, x, r, 4)
    ensures var r' := if x >= 2 then r + 1 else r; Pow2(r' - 1) <= w < Pow2(r')
  {
    MulMono(x + 1, 4, Pow2(r - 1));
  }

  /** x & -x: the lowest one bit of x. */
  function LowBit(x: nat): (b: nat)
    requires x > 0
    ensures 0 < b <= x
  {
    if x % 2 == 1 then 1 else 2 * LowBit(x / 2)
  }

  /** x & (x - 1): x without its lowest one bit. */
  function ClearLowBit(x: nat): nat
    requires x > 0
  {
    x - LowBit(x)
  }

  /** A number whose lowest one bit is at least 2**n is a multiple of 2**n. */
  lemma {:induction false} LowBitAligned(x: nat, n: nat)
    requires x > 0
    ensures LowBit(x) >= Pow2(n) <==> Aligned(x, n)
    decreases n
  {
    if n > 0 {
      var p := Pow2(n - 1);
      if x % 2 == 0 {
        LowBitAligned(x / 2, n - 1);
        HalfAligned(x, p);
      } else {
        OddUnaligned(x, p);
      }
    }
  }

  lemma OddUnaligned(x: nat, p: nat)
    requires p > 0 && x % 2 == 1
    ensures x % (2 * p) != 0
  {
    var q := x / (2 * p);
    assert x == q * (2 * p) + x % (2 * p);
    assert q * (2 * p) == 2 * (q * p);
  }

  lemma HalfAligned(x: nat, p: nat)
    requires p > 0 && x % 2 == 0
    ensures x % (2 * p) == 0 <==> (x / 2) % p == 0
  {
    if x % (2 * p) == 0 {
      var q := x / (2 * p);
      assert x == q * (2 * p) == 2 * (q * p);
      assert x / 2 == q * p;
      MulMod(q, p);
    }
    if (x / 2) % p == 0 {
      var q := (x / 2) / p;
      assert x == 2 * (q * p) == q * (2 * p);
      MulMod(q, 2 * p);
    }
  }

  lemma MulMod(q: nat, p: nat)
    requires p > 0
    ensures (q * p) % p == 0 && (q * p) / p == q
  {
    assert q * p == p * q + 0;
    ModUnique(q * p, p, q, 0);
  }

  lemma ModUnique(x: nat, p: nat, q: nat, r: nat)
    requires p > 0 && x == p * q + r && r < p
    ensures x % p == r && x / p == q
  {
    var q', r' := x / p, x % p;
    assert x == p * q' + r';
    MulLess(p, q', q + 1);
    MulLess(p, q, q' + 1);
  }

  lemma MulLess(p: nat, a: nat, b: nat)
    requires p * a < p * b
    ensures a < b
  {
  }

  /** The lowest one bit of odd * 2**n. */
  lemma {:induction false} LowBitOf(odd: nat, n: nat)
    requires odd % 2 == 1
    ensures odd * Pow2(n) > 0 && LowBit(odd * Pow2(n)) == Pow2(n)
  {
    if n > 0 {
      LowBitOf(odd, n - 1);
      assert odd * Pow2(n) == 2 * (odd * Pow2(n - 1));
    } else {
      assert odd * Pow2(0) == odd;
    }
  }

  /** Clearing the lowest one bit does not go below a multiple of a greater power of two. */
  lemma ClearLowBitStays(x: nat, h: nat, n: nat)
    requires Aligned(h, n) && h < x < h + Pow2(n)
    ensures h <= ClearLowBit(x) < x
  {
    var b := LowBit(x);
    LowBitWithin(x, h, n);
  }

  lemma {:induction false} LowBitWithin(x: nat, h: nat, n: nat)
    requires Aligned(h, n) && h < x < h + Pow2(n)
    ensures LowBit(x) <= x - h
    decreases n
  {
    var p := if n > 0 then Pow2(n - 1) else 1;
    assert n > 0;
    if x % 2 == 0 {
      assert h % 2 == 0 by {
        assert h == (h / Pow2(n)) * (2 * p) == 2 * ((h / Pow2(n)) * p);
      }
      HalfAligned(h, p);
      LowBitWithin(x / 2, h / 2, n - 1);
    }
  }
}
