/** Powers of two as alignments: the bit tests and masks of internal_memalign
    (kernel/libc/malloc/malloc.c:4887-4921). */
module Alignment {
  import opened BinIndex
  import opened BinMaps

  predicate MultipleOf(x: int, a: nat) { a > 0 && x % a == 0 }

  predicate IsPow2(a: nat) { a > 0 && a == Pow2(Log2(a)) }

  lemma {:induction false} AndSelf(x: nat)
    ensures And(x, x) == x
  {
    if x > 0 { AndSelf(x / 2); }
  }

  // a & (a - 1) is zero exactly for the powers of two
  lemma {:induction false} PowerTest(a: nat)
    requires a > 0
    ensures And(a, a - 1) == 0 <==> IsPow2(a)
  {
    if a > 1 {
      if a % 2 == 1 {
        assert (a - 1) / 2 == a / 2;
        AndSelf(a / 2);
      } else {
        assert (a - 1) / 2 == a / 2 - 1;
        PowerTest(a / 2);
      }
    }
  }

  // x & (2^n - 1)
  lemma {:induction false} MaskLow(x: nat, n: nat)
    ensures And(x, Pow2(n) - 1) == x % Pow2(n)
  {
    if n == 0 {
      AndNothing(x);
    } else {
      MaskLow(x / 2, n - 1);
      MaskLowStep(x, Pow2(n - 1));
    }
  }

  lemma MaskLowStep(x: nat, m: nat)
    requires m > 0 && And(x / 2, m - 1) == x / 2 % m
    ensures And(x, 2 * m - 1) == x % (2 * m)
  {
    hide And;
    AndUnfold(x, 2 * m - 1);
    assert (2 * m - 1) / 2 == m - 1 && (2 * m - 1) % 2 == 1;
    HalveMod(x, m);
  }

  lemma AndUnfold(x: nat, y: nat)
    ensures And(x, y) == (if x % 2 == 1 && y % 2 == 1 then 1 else 0) + 2 * And(x / 2, y / 2)
  {}

  lemma {:induction false} AndNothing(x: nat)
    ensures And(x, 0) == 0
  {
    if x > 0 { AndNothing(x / 2); }
  }

  lemma HalveMod(x: nat, m: nat)
    requires m > 0
    ensures x % (2 * m) == x % 2 + 2 * (x / 2 % m)
  {
    var h := x / 2;
    var q := h / m;
    var r := x % 2 + 2 * (h % m);
    assert h == m * q + h % m;
    assert x == (2 * m) * q + r by { assert x == 2 * h + x % 2; Distribute(m, q); }
    ModIs(x, 2 * m, q, r);
  }

  lemma Distribute(m: nat, q: nat)
    ensures 2 * (m * q) == (2 * m) * q
  {}

  lemma ModIs(x: nat, d: nat, q: nat, r: nat)
    requires d > 0 && x == d * q + r && r < d
    ensures x % d == r && x / d == q
  {
    var q', r' := x / d, x % d;
    assert x == d * q' + r';
    if q < q' { Above(d, q, q'); }
    if q' < q { Above(d, q', q); }
  }

  lemma Above(d: nat, a: nat, b: nat)
    requires a < b
    ensures d * a + d <= d * b
  {
    assert d * (a + 1) <= d * b;
  }

  // x & -2^n, for words
  lemma {:induction false} MaskHigh(x: nat, n: nat, w: nat)
    requires n <= w && x < Pow2(w)
    ensures Pow2(n) <= Pow2(w) && And(x, Pow2(w) - Pow2(n)) == x - x % Pow2(n)
  {
    Pow2Mono(n, w);
    if n == 0 {
      AndAll(x, w);
      assert x % 1 == 0;
    } else {
      MaskHigh(x / 2, n - 1, w - 1);
      var m, d := Pow2(n - 1), Pow2(w - 1);
      assert Pow2(n) == 2 * m && Pow2(w) == 2 * d;
      hide And, Pow2;
      MaskHighStep(x, m, d - m);
    }
  }

  lemma MaskHighStep(x: nat, m: nat, d: nat)
    requires m > 0 && And(x / 2, d) == x / 2 - x / 2 % m
    ensures And(x, 2 * d) == x - x % (2 * m)
  {
    hide And;
    AndUnfold(x, 2 * d);
    assert 2 * d / 2 == d && 2 * d % 2 == 0;
    HalveMod(x, m);
  }

  lemma {:induction false} AndAll(x: nat, w: nat)
    requires x < Pow2(w)
    ensures And(x, Pow2(w) - 1) == x
  {
    if w > 0 && x > 0 {
      assert (Pow2(w) - 1) / 2 == Pow2(w - 1) - 1;
      AndAll(x / 2, w - 1);
    }
  }

  // the next multiple of 2^n from x up, as memalign computes it
  lemma RoundUp(x: nat, n: nat)
    requires n < 32 && Pow2(n) < WORD && x + Pow2(n) - 1 < WORD
    ensures var a := Pow2(n); var y := And(x + a - 1, Neg(a));
            && MultipleOf(y, a) && x <= y < x + a
  {
    hide And, Pow2;
    var a := Pow2(n);
    WordIsPow2();
    var z := x + a - 1;
    MaskHigh(z, n, 32);
    RoundDown(z, a);
  }

  lemma RoundDown(z: nat, a: nat)
    requires a > 0
    ensures (z - z % a) % a == 0
  {
    ModIs(z - z % a, a, z / a, 0);
  }

  lemma WordIsPow2()
    ensures Pow2(31) == 0x8000_0000 && Pow2(32) == WORD
  {
    assert Pow2(8) == 256;
    assert Pow2(16) == 0x1_0000;
    assert Pow2(24) == 0x100_0000;
    assert Pow2(31) == 0x8000_0000;
  }

  // a power of two from 16 up is a multiple of 16
  lemma {:induction false} Pow2Multiple(n: nat, m: nat)
    requires m <= n
    ensures Pow2(m) <= Pow2(n) && Pow2(n) % Pow2(m) == 0
  {
    if m < n {
      Pow2Multiple(n - 1, m);
      var d, q := Pow2(m), Pow2(n - 1) / Pow2(m);
      assert Pow2(n - 1) == d * q;
      Twice(d, q);
      ModIs(Pow2(n), d, 2 * q, 0);
    }
  }

  lemma Twice(d: nat, q: nat)
    ensures 2 * (d * q) == d * (2 * q)
  {}

  // what is divisible by a is divisible by each divisor of a
  lemma DivisorOf(x: nat, a: nat, d: nat)
    requires a > 0 && d > 0 && a % d == 0 && x % a == 0
    ensures x % d == 0
  {
    var p, q := a / d, x / a;
    assert a == d * p && x == a * q;
    Assoc(d, p, q);
    ModIs(x, d, p * q, 0);
  }

  lemma Assoc(d: nat, p: nat, q: nat)
    ensures (d * p) * q == d * (p * q)
  {}

  // a after k rounds of a <<= 1, in 32 bits
  function Doubled(k: nat): nat { 16 * Pow2(k) % WORD }

  // The loop that looks for a power of two comes to an end exactly for alignments up to 2^31:
  // after 2^31 its variable is 0 for good.
  lemma LoopEndsIff(asked: nat)
    requires asked < WORD
    ensures (exists k :: Doubled(k) >= asked) <==> asked <= 0x8000_0000
  {
    Pow2Values();
    Sixteen();
    Pow2Add(4, 27);
    assert Doubled(27) == 0x8000_0000;
    forall k ensures Doubled(k) <= 0x8000_0000 { DoubledBound(k); }
  }

  lemma DoubledBound(k: nat)
    ensures Doubled(k) <= 0x8000_0000
  {
    Pow2Values();
    Sixteen();
    hide Pow2;
    Pow2Add(4, k);
    if k <= 27 {
      Pow2Mono(k + 4, 31);
    } else {
      Pow2Add(32, k - 28);
      ModIs(Pow2(k + 4), WORD, Pow2(k - 28), 0);
    }
  }

  function Doubling(a: nat, asked: nat): (r: nat)
    requires a > 0
    ensures r >= a && r >= asked
    decreases asked - a
  {
    if a >= asked then a else Doubling(2 * a, asked)
  }

  // the alignment internal_memalign works with
  function RoundAlignment(asked: nat): (r: nat)
    ensures r >= 16 && r >= asked
  {
    Doubling(16, asked)
  }

  lemma {:induction false} DoublingBelow(a: nat, asked: nat)
    requires a > 0
    ensures Doubling(a, asked) == a || Doubling(a, asked) < 2 * asked
    decreases asked - a
  {
    if a < asked { DoublingBelow(2 * a, asked); }
  }

  lemma AlignmentBelow(asked: nat)
    ensures RoundAlignment(asked) <= 2 * asked + 16
  {
    DoublingBelow(16, asked);
  }

  // ... is the smallest power of two that is at least 16 and at least what was asked for
  lemma {:induction false} DoublingIs(n: nat, m: nat, asked: nat)
    requires n <= m && asked <= Pow2(m) && (m == n || Pow2(m - 1) < asked)
    ensures Doubling(Pow2(n), asked) == Pow2(m)
    decreases m - n
  {
    hide Pow2;
    if n < m {
      Pow2Step(n);
      Pow2Mono(n, m - 1);
      DoublingIs(n + 1, m, asked);
    }
  }

  method NormalAlignment(asked: nat) returns (alignment: nat, ghost n: nat)
    requires asked <= 0x8000_0000
    ensures 4 <= n < 32 && alignment == Pow2(n) && asked <= alignment <= 0x8000_0000 && (n == 4 || Pow2(n - 1) < asked)
    ensures alignment == RoundAlignment(asked)
  {
    hide Pow2, And;
    Sixteen();
    alignment := asked;
    if alignment < 16 {
      alignment := 16;
    }
    PowerTest(alignment);
    n := Log2(alignment);
    if And(alignment, alignment - 1) != 0 {
      var a := 16;
      n := 4;
      while a < alignment
        invariant 4 <= n < 32 && a == Pow2(n) && (n == 4 || Pow2(n - 1) < alignment)
        decreases 31 - n
      {
        Pow2Step(n);
        Pow2Below(n, alignment);
        a := 2 * a;
        n := n + 1;
      }
      alignment := a;
    } else {
      Pow2Bounds(n, alignment);
    }
    DoublingIs(4, n, asked);
    Pow2Mono(n, 31);
    WordIsPow2();
  }

  lemma Sixteen()
    ensures Pow2(4) == 16
  {}

  lemma Pow2Step(n: nat)
    ensures Pow2(n + 1) == 2 * Pow2(n)
  {}

  lemma Pow2Below(n: nat, x: nat)
    requires Pow2(n) < x <= 0x8000_0000
    ensures n < 31
  {
    if n >= 31 {
      Pow2Mono(31, n);
      WordIsPow2();
    }
  }

  lemma Pow2Bounds(n: nat, x: nat)
    requires Pow2(n) == x && 16 <= x <= 0x8000_0000
    ensures 4 <= n < 32 && (n == 4 || Pow2(n - 1) < x)
  {
    if n < 4 { Pow2Mono(n, 3); }
    if n >= 32 {
      Pow2Mono(32, n);
      WordIsPow2();
    }
  }
}
