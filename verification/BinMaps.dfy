/** The bin bitmaps smallmap and treemap (kernel/libc/malloc/malloc.c:2910-2975).
    A binmap_t is a number below 2^32; its bits are read off by halving, and the C bit
    operators are the usual digit-by-digit functions on such numbers. The lemmas give
    the set-of-bins meaning of the bit tricks dlmalloc plays with the two maps. */
module BinMaps {
  import opened BinIndex

  type BinMap = x: nat | x < WORD

  predicate Bit(x: nat, i: nat) {
    if i == 0 then x % 2 == 1 else Bit(x / 2, i - 1)
  }

  function Or(x: nat, y: nat): nat {
    if x == 0 then y else
      (if x % 2 == 1 || y % 2 == 1 then 1 else 0) + 2 * Or(x / 2, y / 2)
  }

  function And(x: nat, y: nat): nat {
    if x == 0 then 0 else
      (if x % 2 == 1 && y % 2 == 1 then 1 else 0) + 2 * And(x / 2, y / 2)
  }

  function Not(x: BinMap): BinMap { WORD - 1 - x }

  function Neg(x: BinMap): BinMap { (WORD - x) % WORD }

  function Shl(x: nat, n: nat): BinMap { (x * Pow2(n)) % WORD }

  function Shr(x: nat, n: nat): nat {
    if n == 0 then x else Shr(x / 2, n - 1)
  }

  // idx2bit
  function Idx2Bit(i: nat): nat { Pow2(i) }

  // smallmap_is_marked, treemap_is_marked
  predicate Marked(x: BinMap, i: nat) { And(x, Idx2Bit(i)) != 0 }

  function LeastBit(x: BinMap): nat { And(x, Neg(x)) }

  function LeftBits(x: nat): nat { Or(Shl(x, 1), Neg(Shl(x, 1))) }

  // __builtin_ctz, for a non-zero word
  function Ctz(x: nat): nat
    requires x > 0
  {
    if x % 2 == 1 then 0 else 1 + Ctz(x / 2)
  }

  // ---------------- digits ----------------

  lemma {:induction false} BitOr(x: nat, y: nat, i: nat)
    ensures Bit(Or(x, y), i) <==> Bit(x, i) || Bit(y, i)
  {
    if x == 0 { BitZero(i); }
    else if i > 0 {
      BitOr(x / 2, y / 2, i - 1);
      assert Or(x, y) / 2 == Or(x / 2, y / 2);
    }
  }

  lemma {:induction false} BitAnd(x: nat, y: nat, i: nat)
    ensures Bit(And(x, y), i) <==> Bit(x, i) && Bit(y, i)
  {
    if x == 0 { BitZero(i); }
    else if i > 0 {
      BitAnd(x / 2, y / 2, i - 1);
      assert And(x, y) / 2 == And(x / 2, y / 2);
    }
  }

  lemma {:induction false} BitZero(i: nat)
    ensures !Bit(0, i)
  {
    if i > 0 { BitZero(i - 1); }
  }

  lemma {:induction false} BitPow2(k: nat, i: nat)
    ensures Bit(Pow2(k), i) <==> i == k
  {
    if k == 0 {
      if i > 0 { BitZero(i - 1); }
    } else if i > 0 {
      BitPow2(k - 1, i - 1);
    }
  }

  lemma {:induction false} BitHigh(x: nat, n: nat, i: nat)
    requires x < Pow2(n) && i >= n
    ensures !Bit(x, i)
  {
    if n == 0 { BitZero(i); }
    else { BitHigh(x / 2, n - 1, i - 1); }
  }

  // digits of 2^n - 1 - x
  lemma {:induction false} BitComplement(x: nat, n: nat, i: nat)
    requires x < Pow2(n) && i < n
    ensures Bit(Pow2(n) - 1 - x, i) <==> !Bit(x, i)
  {
    var d := Pow2(n - 1);
    assert Pow2(n) == 2 * d;
    Complement(x, d);
    if i > 0 {
      BitComplement(x / 2, n - 1, i - 1);
    }
  }

  lemma Complement(x: nat, d: nat)
    requires x < 2 * d
    ensures x / 2 < d && (2 * d - 1 - x) / 2 == d - 1 - x / 2 && (2 * d - 1 - x) % 2 == 1 - x % 2
  {}

  // digits of 2^n - 2^k
  lemma {:induction false} BitUpper(k: nat, n: nat, i: nat)
    requires k <= n && i < n
    ensures Pow2(k) <= Pow2(n)
    ensures Bit(Pow2(n) - Pow2(k), i) <==> i >= k
  {
    Pow2Mono(k, n);
    if k == 0 {
      BitComplement(0, n, i);
      BitZero(i);
    } else if i > 0 {
      assert (Pow2(n) - Pow2(k)) / 2 == Pow2(n - 1) - Pow2(k - 1);
      BitUpper(k - 1, n - 1, i - 1);
    }
  }

  lemma {:induction false} BitShr(x: nat, n: nat, i: nat)
    ensures Bit(Shr(x, n), i) <==> Bit(x, i + n)
  {
    if n > 0 { BitShr(x / 2, n - 1, i); }
  }

  lemma {:induction false} BitTimes(x: nat, n: nat, i: nat)
    ensures Bit(x * Pow2(n), i) <==> i >= n && Bit(x, i - n)
  {
    if n > 0 {
      assert x * Pow2(n) == 2 * (x * Pow2(n - 1));
      hide Pow2;
      if i > 0 { BitTimes(x, n - 1, i - 1); }
    }
  }

  lemma {:induction false} BitAddHigh(r: nat, q: nat, n: nat, i: nat)
    requires i < n
    ensures Bit(r + q * Pow2(n), i) <==> Bit(r, i)
  {
    assert q * Pow2(n) == 2 * (q * Pow2(n - 1));
    hide Pow2;
    if i > 0 { BitAddHigh(r / 2, q, n - 1, i - 1); }
  }

  lemma BitMod(x: nat, n: nat, i: nat)
    requires i < n
    ensures Bit(x % Pow2(n), i) <==> Bit(x, i)
  {
    hide Bit, Pow2;
    var m := Pow2(n);
    assert x == x % m + (x / m) * m;
    BitAddHigh(x % m, x / m, n, i);
  }

  lemma BitShl(x: nat, n: nat, i: nat)
    requires i < 32
    ensures Bit(Shl(x, n), i) <==> i >= n && Bit(x, i - n)
  {
    Pow2Values();
    BitMod(x * Pow2(n), 32, i);
    BitTimes(x, n, i);
  }

  // a word without set digits is zero
  lemma {:induction false} ZeroWord(x: nat, n: nat)
    requires x < Pow2(n) && forall i: nat :: i < n ==> !Bit(x, i)
    ensures x == 0
  {
    if n > 0 {
      assert !Bit(x, 0);
      forall i: nat | i < n - 1 ensures !Bit(x / 2, i) { assert !Bit(x, i + 1); }
      ZeroWord(x / 2, n - 1);
    }
  }

  // ---------------- the maps ----------------

  lemma MarkedBit(x: BinMap, i: nat)
    ensures Marked(x, i) <==> Bit(x, i)
  {
    forall j: nat ensures Bit(And(x, Pow2(i)), j) <==> j == i && Bit(x, i) {
      BitAnd(x, Pow2(i), j);
      BitPow2(i, j);
    }
    AndBelow(x, Pow2(i));
    Pow2Values();
    if !Bit(x, i) { ZeroWord(And(x, Pow2(i)), 32); }
    BitZero(i);
  }

  lemma {:induction false} AndBelow(x: nat, y: nat)
    ensures And(x, y) <= x
  {
    if x > 0 { AndBelow(x / 2, y / 2); }
  }

  lemma {:induction false} OrBelow(x: nat, y: nat, n: nat)
    requires x < Pow2(n) && y < Pow2(n)
    ensures Or(x, y) < Pow2(n)
  {
    if x > 0 {
      assert n > 0;
      OrBelow(x / 2, y / 2, n - 1);
    }
  }

  lemma WordBit(i: nat)
    requires i < 32
    ensures Pow2(i) < WORD == Pow2(32)
  {
    Pow2Values();
    Pow2Mono(i, 31);
  }

  // mark_smallmap, mark_treemap
  function Mark(x: BinMap, i: nat): BinMap
    requires i < 32
  {
    Pow2Values(); Pow2Mono(i, 31); OrBelow(x, Idx2Bit(i), 32);
    Or(x, Idx2Bit(i))
  }

  // clear_smallmap, clear_treemap
  function Clear(x: BinMap, i: nat): BinMap
    requires i < 32
  {
    Pow2Values(); Pow2Mono(i, 31); AndBelow(x, Not(Idx2Bit(i)));
    And(x, Not(Idx2Bit(i)))
  }

  lemma MarkMeaning(x: BinMap, i: nat)
    requires i < 32
    ensures forall j :: 0 <= j < 32 ==> (Marked(Mark(x, i), j) <==> j == i || Marked(x, j))
  {
    forall j | 0 <= j < 32 ensures Marked(Mark(x, i), j) <==> j == i || Marked(x, j) {
      MarkedBit(x, j);
      MarkedBit(Mark(x, i), j);
      BitOr(x, Pow2(i), j);
      BitPow2(i, j);
    }
  }

  lemma ClearMeaning(x: BinMap, i: nat)
    requires i < 32
    ensures forall j :: 0 <= j < 32 ==> (Marked(Clear(x, i), j) <==> j != i && Marked(x, j))
  {
    WordBit(i);
    hide Marked, Bit, And, Pow2;
    forall j | 0 <= j < 32 ensures Marked(Clear(x, i), j) <==> j != i && Marked(x, j) {
      MarkedBit(x, j);
      MarkedBit(Clear(x, i), j);
      BitAnd(x, Not(Pow2(i)), j);
      BitComplement(Pow2(i), 32, j);
      BitPow2(i, j);
    }
  }

  // x & -x is the lowest set digit alone
  lemma {:induction false} LeastDigit(x: nat, n: nat)
    requires 0 < x < Pow2(n)
    ensures And(x, Pow2(n) - x) == Pow2(Ctz(x))
  {
    if x % 2 == 1 {
      assert (Pow2(n) - x) / 2 == Pow2(n - 1) - 1 - x / 2;
      AndComplement(x / 2, n - 1);
    } else {
      assert (Pow2(n) - x) / 2 == Pow2(n - 1) - x / 2;
      LeastDigit(x / 2, n - 1);
    }
  }

  lemma {:induction false} AndComplement(x: nat, n: nat)
    requires x < Pow2(n)
    ensures And(x, Pow2(n) - 1 - x) == 0
  {
    if x > 0 {
      assert (Pow2(n) - 1 - x) / 2 == Pow2(n - 1) - 1 - x / 2;
      AndComplement(x / 2, n - 1);
    }
  }

  lemma {:induction false} CtzPow2(n: nat)
    ensures Ctz(Pow2(n)) == n
  {
    if n > 0 { CtzPow2(n - 1); }
  }

  // ctz finds the lowest set digit
  lemma {:induction false} CtzLowest(x: nat, n: nat)
    requires 0 < x < Pow2(n)
    ensures Ctz(x) < n && Bit(x, Ctz(x))
    ensures forall j: nat :: j < Ctz(x) ==> !Bit(x, j)
  {
    if x % 2 == 0 {
      CtzLowest(x / 2, n - 1);
      forall j: nat | j < Ctz(x) ensures !Bit(x, j) {
        if j > 0 { assert !Bit(x / 2, j - 1); }
      }
    }
  }

  lemma LeastBitWord(x: BinMap)
    requires x != 0
    ensures LeastBit(x) == Pow2(Ctz(x))
  {
    hide And, Pow2, Ctz;
    WordBit(0);
    LeastDigit(x, 32);
  }

  // least_bit followed by compute_bit2idx: the lowest marked bin
  lemma LowestBin(x: BinMap)
    requires x != 0
    ensures LeastBit(x) > 0
    ensures var i := Ctz(LeastBit(x));
            i < 32 && Marked(x, i) && forall j :: 0 <= j < i ==> !Marked(x, j)
  {
    hide And, Bit, Pow2, Ctz, Marked, LeastBit;
    LeastBitWord(x);
    var n := Ctz(x);
    CtzPow2(n);
    WordBit(0);
    CtzLowest(x, 32);
    MarkedBit(x, n);
    forall j | 0 <= j < n ensures !Marked(x, j) { MarkedBit(x, j); }
  }

  lemma ZeroMap(x: BinMap)
    ensures x == 0 <==> forall j :: 0 <= j < 32 ==> !Marked(x, j)
  {
    if x != 0 { LowestBin(x); }
  }

  lemma ShiftOne(i: nat)
    requires i < 32
    ensures Shl(Idx2Bit(i), 1) == if i == 31 then 0 else Pow2(i + 1)
  {
    Pow2Values();
    if i < 31 { WordBit(i + 1); }
    assert Pow2(1) == 2 && Pow2(i + 1) == 2 * Pow2(i);
  }

  // left_bits(idx2bit(i)): the bins above i
  lemma LeftBitsOf(i: nat, j: nat)
    requires i < 32 && j < 32
    ensures Bit(LeftBits(Idx2Bit(i)), j) <==> j > i
  {
    hide Or, Bit, Pow2, Shl, Neg;
    ShiftOne(i);
    var v := Shl(Idx2Bit(i), 1);
    BitOr(v, Neg(v), j);
    if i < 31 { BitPow2(i + 1, j); } else { BitZero(j); }
    NegOf(i, j);
  }

  lemma NegOf(i: nat, j: nat)
    requires i < 32 && j < 32
    ensures Bit(Neg(Shl(Idx2Bit(i), 1)), j) <==> j > i
  {
    hide Bit, Pow2, Shl;
    ShiftOne(i);
    if i == 31 {
      BitZero(j);
    } else {
      WordBit(i + 1);
      BitUpper(i + 1, 32, j);
    }
  }

  // left_bits(idx2bit(i)) & map: the marked bins above i
  lemma BinsAbove(x: BinMap, i: nat)
    requires i < 32
    ensures And(LeftBits(Idx2Bit(i)), x) < WORD
    ensures forall j :: 0 <= j < 32 ==> (Marked(And(LeftBits(Idx2Bit(i)), x), j) <==> j > i && Marked(x, j))
  {
    LeftBitsWord(i);
    AndBelow(LeftBits(Idx2Bit(i)), x);
    forall j | 0 <= j < 32 ensures Marked(And(LeftBits(Idx2Bit(i)), x), j) <==> j > i && Marked(x, j) {
      MarkedBit(x, j);
      MarkedBit(And(LeftBits(Idx2Bit(i)), x), j);
      BitAnd(LeftBits(Idx2Bit(i)), x, j);
      LeftBitsOf(i, j);
    }
  }

  lemma LeftBitsWord(i: nat)
    ensures LeftBits(Idx2Bit(i)) < WORD
  {
    Pow2Values();
    var v := Shl(Idx2Bit(i), 1);
    OrBelow(v, Neg(v), 32);
  }

  // smallbits = smallmap >> idx: bit k of it is bin idx + k
  lemma SmallBits(x: BinMap, i: nat)
    requires i < 32
    ensures Shr(x, i) < WORD
    ensures And(Shr(x, i), 3) != 0 <==> Marked(x, i) || Marked(x, i + 1)
    ensures And(Not(Shr(x, i)), 1) == if Marked(x, i) then 0 else 1
    ensures Shr(x, i) != 0 <==> exists j :: i <= j < 32 && Marked(x, j)
  {
    ShrBelow(x, i);
    hide Shr, Marked, And, Bit;
    MarkedBit(x, i);
    MarkedBit(x, i + 1);
    BitShr(x, i, 0);
    BitShr(x, i, 1);
    AndThree(Shr(x, i));
    AndOne(Not(Shr(x, i)));
    BitLow(Shr(x, i));
    SomeAbove(x, i);
  }

  lemma BitLow(y: nat)
    ensures Bit(y, 0) <==> y % 2 == 1
  {}

  lemma SomeAbove(x: BinMap, i: nat)
    requires i < 32
    ensures Shr(x, i) != 0 <==> exists j :: i <= j < 32 && Marked(x, j)
  {
    ShrBelow(x, i);
    WordBit(i);
    hide Shr, Marked, Bit, Ctz;
    var y := Shr(x, i);
    if y == 0 {
      forall j | i <= j < 32 ensures !Marked(x, j) {
        MarkedBit(x, j);
        BitShr(x, i, j - i);
        BitZero(j - i);
      }
    } else {
      CtzLowest(y, 32);
      var j := i + Ctz(y);
      BitShr(x, i, Ctz(y));
      MarkedBit(x, j);
      if j >= 32 { BitHigh(x, 32, j); }
    }
  }

  lemma {:induction false} ShrBelow(x: nat, n: nat)
    ensures Shr(x, n) <= x
  {
    if n > 0 { ShrBelow(x / 2, n - 1); }
  }

  lemma AndThree(y: nat)
    ensures And(y, 3) != 0 <==> Bit(y, 0) || Bit(y, 1)
  {
    if y > 0 && y / 2 > 0 { AndZero(y / 4); assert And(y / 2 / 2, 0) == 0; assert And(y / 2, 1) == (if y / 2 % 2 == 1 then 1 else 0); }
  }

  lemma AndOne(y: nat)
    ensures And(y, 1) == y % 2
  {
    AndZero(y / 2);
  }

  lemma {:induction false} AndZero(y: nat)
    ensures And(y, 0) == 0
  {
    if y > 0 { AndZero(y / 2); }
  }

  // (smallbits << idx) & left_bits(idx2bit(idx)): the marked small bins above idx
  lemma SmallBinsAbove(x: BinMap, i: nat)
    requires i < 32
    ensures And(Shl(Shr(x, i), i), LeftBits(Idx2Bit(i))) < WORD
    ensures forall j :: 0 <= j < 32 ==>
              (Marked(And(Shl(Shr(x, i), i), LeftBits(Idx2Bit(i))), j) <==> j > i && Marked(x, j))
  {
    var m := Shl(Shr(x, i), i);
    AndBelow(m, LeftBits(Idx2Bit(i)));
    forall j | 0 <= j < 32
      ensures Marked(And(m, LeftBits(Idx2Bit(i))), j) <==> j > i && Marked(x, j)
    {
      MarkedBit(x, j);
      MarkedBit(And(m, LeftBits(Idx2Bit(i))), j);
      BitAnd(m, LeftBits(Idx2Bit(i)), j);
      LeftBitsOf(i, j);
      BitShl(Shr(x, i), i, j);
      if j >= i { BitShr(x, i, j - i); }
    }
  }

  lemma MarkedInRange(x: BinMap, i: nat)
    requires Marked(x, i)
    ensures i < 32
  {
    WordBit(0);
    hide Marked, Bit, Pow2;
    MarkedBit(x, i);
    if i >= 32 { BitHigh(x, 32, i); }
  }
}
