/** Index arithmetic of dlmalloc's tree bins (kernel/libc/malloc/malloc.c:2822-2907):
    which bin a size belongs to, and the bits a trie inspects below that bin. */
module BinIndex {
  const NTREEBINS: nat := 32
  const WORD: nat := 0x1_0000_0000  // 2^32, the modulus of size_t

  function Pow2(n: nat): (r: nat)
    ensures r >= 1
  {
    if n == 0 then 1 else 2 * Pow2(n - 1)
  }

  // position of the highest set bit: 31 - clz(x)
  function Log2(x: nat): nat
    requires x > 0
  {
    if x == 1 then 0 else 1 + Log2(x / 2)
  }

  lemma {:induction false} Log2Bounds(x: nat)
    requires x > 0
    ensures Pow2(Log2(x)) <= x < 2 * Pow2(Log2(x))
  {
    if x > 1 { Log2Bounds(x / 2); }
  }

  lemma {:induction false} Pow2Mono(a: nat, b: nat)
    requires a <= b
    ensures Pow2(a) <= Pow2(b)
    ensures a < b ==> 2 * Pow2(a) <= Pow2(b)
  {
    if a < b { Pow2Mono(a, b - 1); }
  }

  lemma {:induction false} Pow2Add(a: nat, b: nat)
    ensures Pow2(a) * Pow2(b) == Pow2(a + b)
  {
    if a > 0 {
      Pow2Add(a - 1, b);
      assert Pow2(a) * Pow2(b) == 2 * (Pow2(a - 1) * Pow2(b));
    }
  }

  // the exponent of x is pinned by the power-of-two interval x lies in
  lemma Log2Unique(x: nat, n: nat)
    requires x > 0 && Pow2(n) <= x < 2 * Pow2(n)
    ensures Log2(x) == n
  {
    Log2Bounds(x);
    if Log2(x) < n { Pow2Mono(Log2(x), n); }
    if n < Log2(x) { Pow2Mono(n, Log2(x)); }
  }

  // compute_tree_index
  function TreeIndex(s: nat): nat {
    var x := s / 256;
    if x == 0 then 0
    else if x > 0xFFFF then NTREEBINS - 1
    else
      var k := Log2(x);
      2 * k + (s / Pow2(k + 7)) % 2
  }

  // minsize_for_tree_index; the two or-ed terms share no bit
  function MinSizeForTreeIndex(i: nat): nat {
    Pow2(i / 2 + 8) + (if i % 2 == 1 then Pow2(i / 2 + 7) else 0)
  }

  lemma Pow2Values()
    ensures Pow2(7) == 0x80 && Pow2(8) == 0x100 && Pow2(16) == 0x1_0000
    ensures Pow2(23) == 0x80_0000 && Pow2(24) == 0x100_0000 && Pow2(31) == 0x8000_0000 && Pow2(32) == WORD
  {
    assert Pow2(4) == 16 && Pow2(8) == 0x100 by { Pow2Add(4, 4); }
    assert Pow2(7) == 0x80;
    Pow2Add(8, 8);
    Pow2Add(16, 8);
    Pow2Add(24, 8);
  }

  // the shape of one power-of-two octave: x*256 splits into two half-octave bins
  lemma OctaveSplit(s: nat, k: nat)
    requires s / 256 > 0 && Log2(s / 256) == k
    ensures Pow2(k + 8) <= s < 2 * Pow2(k + 8)
    ensures (s / Pow2(k + 7)) % 2 == if s < Pow2(k + 8) + Pow2(k + 7) then 0 else 1
  {
    Log2Bounds(s / 256);
    Pow2Values();
    Pow2Add(k, 8);
    var h := Pow2(k + 7);
    assert Pow2(k + 8) == 2 * h;
    assert Pow2(k) * 256 <= s < 2 * Pow2(k) * 256;
    HalfOctave(s, h);
  }

  lemma HalfOctave(s: nat, h: nat)
    requires h > 0 && 2 * h <= s < 4 * h
    ensures s / h == if s < 3 * h then 2 else 3
  {
    var q := s / h;
    assert s == q * h + s % h;
    assert q <= 1 ==> q * h <= h;
    assert q >= 4 ==> q * h >= 4 * h;
  }

  // consecutive bins are half an octave apart
  lemma NextMinSize(i: nat)
    ensures MinSizeForTreeIndex(i + 1) == MinSizeForTreeIndex(i) + Pow2(i / 2 + 7)
  {
    if i % 2 == 1 {
      assert (i + 1) / 2 == i / 2 + 1 && (i + 1) % 2 == 0;
    } else {
      assert (i + 1) / 2 == i / 2 && (i + 1) % 2 == 1;
    }
  }

  lemma OctaveExponent(x: nat)
    requires 0 < x <= 0xFFFF
    ensures Log2(x) <= 15
  {
    Log2Bounds(x);
    Pow2Values();
    if Log2(x) > 15 { Pow2Mono(16, Log2(x)); }
  }

  lemma OctaveIndex(s: nat, k: nat)
    requires 0 < s / 256 <= 0xFFFF && Log2(s / 256) == k
    ensures k <= 15 && TreeIndex(s) / 2 == k && TreeIndex(s) < NTREEBINS
    ensures MinSizeForTreeIndex(TreeIndex(s)) <= s < MinSizeForTreeIndex(TreeIndex(s)) + Pow2(k + 7)
  {
    OctaveSplit(s, k);
    OctaveExponent(s / 256);
    var h := Pow2(k + 7);
    assert Pow2(k + 8) == 2 * h;
    var i := TreeIndex(s);
    if s < 3 * h {
      assert i == 2 * k;
    } else {
      assert i == 2 * k + 1;
    }
    hide Pow2, Log2, TreeIndex;
  }

  lemma TopIndex(s: nat)
    requires s / 256 > 0xFFFF
    ensures TreeIndex(s) == 31 && MinSizeForTreeIndex(31) <= s
  {
    assert Pow2(23) == 0x80_0000 && Pow2(22) <= 0x40_0000 by { Pow2Values(); }
  }

  // compute_tree_index picks the bin whose interval holds the size
  lemma IndexBounds(s: nat)
    requires 256 <= s < WORD
    ensures TreeIndex(s) < NTREEBINS
    ensures MinSizeForTreeIndex(TreeIndex(s)) <= s
    ensures TreeIndex(s) < NTREEBINS - 1 ==> s < MinSizeForTreeIndex(TreeIndex(s) + 1)
  {
    hide TreeIndex, MinSizeForTreeIndex, Pow2, Log2;
    if s / 256 > 0xFFFF {
      TopIndex(s);
    } else {
      OctaveIndex(s, Log2(s / 256));
      NextMinSize(TreeIndex(s));
    }
  }

  lemma {:induction false} MinSizeMono(i: nat, j: nat)
    requires i < j
    ensures MinSizeForTreeIndex(i) < MinSizeForTreeIndex(i + 1) <= MinSizeForTreeIndex(j)
    decreases j - i
  {
    NextMinSize(i);
    if i + 1 < j { MinSizeMono(i + 1, j); }
  }

  // the bins partition the large sizes, in order
  lemma IndexIff(s: nat, i: nat)
    requires 256 <= s < WORD && i < NTREEBINS
    ensures TreeIndex(s) == i <==>
            MinSizeForTreeIndex(i) <= s && (i < NTREEBINS - 1 ==> s < MinSizeForTreeIndex(i + 1))
  {
    IndexBounds(s);
    var t := TreeIndex(s);
    if t < i { MinSizeMono(t, i); }
    if i < t { MinSizeMono(i, t); }
  }

  lemma IndexMonotone(s: nat, t: nat)
    requires 256 <= s <= t < WORD
    ensures TreeIndex(s) <= TreeIndex(t)
  {
    IndexBounds(s);
    IndexBounds(t);
    if TreeIndex(t) < TreeIndex(s) { MinSizeMono(TreeIndex(t), TreeIndex(s)); }
  }

  // ---- the bits a trie looks at ----

  // number of size bits below a bin; the last bin resolves all 32
  function Width(i: nat): nat {
    if i == NTREEBINS - 1 then 32 else i / 2 + 7
  }

  // leftshift_for_tree_index
  function LeftShift(i: nat): int {
    if i == NTREEBINS - 1 then 0 else 31 - (i / 2 + 8 - 2)
  }

  function Base(i: nat): nat {
    if i == NTREEBINS - 1 then 0 else MinSizeForTreeIndex(i)
  }

  // A size of bin i as a leaf position of the binary trie: a leading 1 followed by
  // the Width(i) bits below the bin. Ancestors are reached by halving.
  function Key(i: nat, s: nat): int {
    s - Base(i) + Pow2(Width(i))
  }

  lemma KeyBounds(s: nat)
    requires 256 <= s < WORD
    ensures var i := TreeIndex(s);
            Key(i, s) > 0 && Log2(Key(i, s)) == Width(i) && 0 <= s - Base(i) < Pow2(Width(i))
  {
    var i := TreeIndex(s);
    IndexBounds(s);
    if i < NTREEBINS - 1 {
      NextMinSize(i);
    } else {
      assert Pow2(32) == WORD by { Pow2Values(); }
    }
    hide Pow2;
    Log2Unique(Key(i, s), Width(i));
  }

  // `sizebits = size << leftshift`: the bits below the bin, moved to the top of the word
  lemma SizeBits(s: nat)
    requires 256 <= s < WORD
    ensures var i := TreeIndex(s);
            0 <= LeftShift(i) == 32 - Width(i) &&
            0 <= s - Base(i) < Pow2(Width(i)) &&
            (s * Pow2(LeftShift(i))) % WORD == (s - Base(i)) * Pow2(32 - Width(i))
  {
    var i := TreeIndex(s);
    KeyBounds(s);
    IndexBounds(s);
    hide *;
    if i < NTREEBINS - 1 {
      SizeBitsBelow(s, i);
    } else {
      SizeBitsLast(s);
    }
  }

  lemma SizeBitsLast(s: nat)
    requires s < WORD
    ensures LeftShift(31) == 32 - Width(31) == 0
    ensures (s * Pow2(LeftShift(31))) % WORD == (s - Base(31)) * Pow2(32 - Width(31))
  {
    assert Pow2(0) == 1 && Base(31) == 0;
    hide *;
  }

  lemma SizeBitsBelow(s: nat, i: nat)
    requires i < NTREEBINS - 1 && 0 <= s - Base(i) < Pow2(Width(i))
    ensures LeftShift(i) == 32 - Width(i) >= 0
    ensures (s * Pow2(LeftShift(i))) % WORD == (s - Base(i)) * Pow2(32 - Width(i))
  {
    BaseMultiple(i);
    hide *;
    WordSplit(Width(i));
    ShiftedOut(s, Base(i), Pow2(Width(i)), Pow2(32 - Width(i)));
  }

  lemma WordSplit(w: nat)
    requires w <= 32
    ensures Pow2(w) * Pow2(32 - w) == WORD
  {
    Pow2Add(w, 32 - w);
    Pow2Values();
  }

  lemma BaseMultiple(i: nat)
    requires i < NTREEBINS - 1
    ensures Width(i) <= 22 && LeftShift(i) == 32 - Width(i)
    ensures Base(i) == 2 * Pow2(Width(i)) || Base(i) == 3 * Pow2(Width(i))
  {
    assert Pow2(i / 2 + 8) == 2 * Pow2(i / 2 + 7);
  }

  lemma ShiftedOut(s: nat, base: nat, w: nat, p: nat)
    requires base == 2 * w || base == 3 * w
    requires base <= s < base + w && w * p == WORD
    ensures (s * p) % WORD == (s - base) * p
  {
    var q := if base == 2 * w then 2 else 3;
    var r := s - base;
    MulLess(r, w, p);
    assert base * p == q * WORD by { MulAssoc(q, w, p); }
    assert s * p == base * p + r * p by { MulSum(base, r, p); }
    ModOf(s * p, q, r * p);
  }

  lemma MulSum(a: nat, b: nat, p: nat)
    ensures (a + b) * p == a * p + b * p
  {}

  lemma MulLess(a: nat, b: nat, p: nat)
    requires a < b && p > 0
    ensures a * p < b * p
  {}

  lemma MulAssoc(a: nat, b: nat, c: nat)
    ensures a * b * c == a * (b * c)
  {}

  lemma ModOf(x: nat, q: nat, r: nat)
    requires x == r + q * WORD && r < WORD
    ensures x % WORD == r
  {}
}
