/** Positions in a binary trie, numbered as in a heap: the root is 1 and the children of
    k are 2k and 2k+1. A size's key is itself such a number, so "the bits of the size
    agree with the path to k" is "k is an ancestor of the key". */
module Codes {
  import opened BinIndex

  ghost predicate Under(n: nat, k: nat) {
    n == k || (n > k && Under(n / 2, k))
  }

  lemma {:induction false} UnderTrans(n: nat, m: nat, k: nat)
    requires Under(n, m) && Under(m, k)
    ensures Under(n, k)
  {
    if n != m {
      UnderTrans(n / 2, m, k);
      UnderLe(n / 2, k);
    }
  }

  lemma {:induction false} UnderLe(n: nat, k: nat)
    requires Under(n, k)
    ensures n >= k
  {}

  lemma UnderChild(k: nat)
    requires k >= 1
    ensures Under(2 * k, k) && Under(2 * k + 1, k)
  {}

  // Two ancestors of one position are themselves comparable.
  lemma {:induction false} Comparable(n: nat, a: nat, b: nat)
    requires Under(n, a) && Under(n, b)
    ensures Under(a, b) || Under(b, a)
  {
    if n != a && n != b { Comparable(n / 2, a, b); }
  }

  // A proper descendant of k lies below exactly one of its children.
  lemma {:induction false} DescendOne(n: nat, k: nat)
    requires k >= 1 && Under(n, k) && n != k
    ensures Under(n, 2 * k) || Under(n, 2 * k + 1)
  {
    if n / 2 != k { DescendOne(n / 2, k); }
  }

  lemma {:induction false} UnderLog(n: nat, k: nat)
    requires k >= 1 && Under(n, k)
    ensures Log2(n) >= Log2(k)
    ensures Log2(n) == Log2(k) ==> n == k
  {
    if n != k { UnderLog(n / 2, k); }
  }

  // Same-level subtrees are ordered, left before right.
  lemma {:induction false} SubtreeOrder(a: nat, b: nat, k: nat, l: nat)
    requires k >= 1 && l >= 1 && Under(a, k) && Under(b, l)
    requires Log2(a) == Log2(b) && Log2(k) == Log2(l) && k < l
    ensures a < b
  {
    UnderLog(a, k);
    UnderLog(b, l);
    if a != k {
      assert Log2(a) > Log2(k);
      assert b != l;
      SubtreeOrder(a / 2, b / 2, k, l);
    }
  }

  // Every position descends from the root.
  lemma {:induction false} UnderRoot(n: nat)
    requires n >= 1
    ensures Under(n, 1)
  {
    if n > 1 { UnderRoot(n / 2); }
  }

  // `sizebits` after walking from the root to k: the bits of key below k, left-aligned.
  ghost predicate Register(bits: nat, key: nat, k: nat) {
    key >= 1 && k >= 1 && Under(key, k) && Aligned(bits, key, k, Log2(key) - Log2(k))
  }

  ghost predicate Aligned(bits: nat, key: nat, k: nat, q: int) {
    0 <= q <= 32 && Offset(bits, key - k * Pow2(q), Pow2(q), Pow2(32 - q))
  }

  ghost predicate Offset(bits: nat, r: int, p: nat, shift: nat) {
    0 <= r < p && bits == r * shift
  }

  lemma TopBit(r: nat, q: nat)
    requires 1 <= q <= 32 && r < Pow2(q)
    ensures var bits := r * Pow2(32 - q); var half := Pow2(q - 1);
            && bits < WORD
            && (bits >= WORD / 2 <==> r >= half)
            && (2 * bits) % WORD == (if r >= half then r - half else r) * Pow2(33 - q)
  {
    var p := Pow2(32 - q);
    var half := Pow2(q - 1);
    WordSplit(q);
    assert Pow2(33 - q) == 2 * p;
    assert Pow2(q) == 2 * half;
    hide *;
    TopBitArith(r, half, p);
  }

  lemma TopBitArith(r: nat, half: nat, p: nat)
    requires r < 2 * half && (2 * half) * p == WORD
    ensures r * p < WORD
    ensures r * p >= WORD / 2 <==> r >= half
    ensures (2 * (r * p)) % WORD == (if r >= half then r - half else r) * (2 * p)
  {
    assert half * p == WORD / 2;
    MulLess(r, 2 * half, p);
    if r >= half {
      assert r * p == (r - half) * p + half * p by { MulSum(r - half, half, p); }
      if r > half { MulLess(half, r, p); }
      assert (r - half) * p < WORD / 2 by { MulLess(r - half, half, p); }
      var t := (r - half) * p;
      assert 2 * (r * p) == 2 * t + WORD;
      ModOf(2 * (r * p), 1, 2 * t);
      assert (r - half) * (2 * p) == 2 * t;
    } else {
      MulLess(r, half, p);
      var t := r * p;
      ModOf(2 * t, 0, 2 * t);
      assert r * (2 * p) == 2 * t;
    }
  }

  // The descendants of k at one level are an interval.
  lemma {:induction false} UnderInterval(n: nat, k: nat)
    requires k >= 1 && Under(n, k)
    ensures Log2(n) >= Log2(k)
    ensures var p := Pow2(Log2(n) - Log2(k)); k * p <= n < k * p + p
  {
    UnderLog(n, k);
    if n != k {
      UnderInterval(n / 2, k);
      UnderLog(n / 2, k);
      var p := Pow2(Log2(n / 2) - Log2(k));
      assert Pow2(Log2(n) - Log2(k)) == 2 * p;
      Doubled(n, k, p);
    }
  }

  lemma Doubled(n: nat, k: nat, p: nat)
    requires k * p <= n / 2 < k * p + p
    ensures k * (2 * p) <= n < k * (2 * p) + 2 * p
  {
    assert k * (2 * p) == 2 * (k * p);
  }

  lemma RegisterRoot(bits: nat, key: nat, w: nat)
    requires key >= 1 && Log2(key) == w <= 32
    requires bits == (key - Pow2(w)) * Pow2(32 - w)
    ensures Register(bits, key, 1)
  {
    UnderRoot(key);
    Log2Bounds(key);
    assert Log2(1) == 0;
  }

  // the child of k on the key's path, and the key's offset below it
  ghost predicate OnPath(key: nat, k: nat, c: nat, half: nat) {
    && (c == 2 * k || c == 2 * k + 1)
    && (var r := key - k * (2 * half);
        && 0 <= r < 2 * half
        && (r >= half <==> c == 2 * k + 1)
        && key - c * half == if c == 2 * k then r else r - half)
  }

  lemma DescentChild(key: nat, k: nat, q: int) returns (c: nat)
    requires k >= 1 && Under(key, k) && key != k && q == Log2(key) - Log2(k)
    ensures q >= 1 && c >= 1 && Under(key, c) && Log2(c) == Log2(k) + 1
    ensures OnPath(key, k, c, Pow2(q - 1))
  {
    UnderLog(key, k);
    DescendOne(key, k);
    ChildLog(k);
    c := if Under(key, 2 * k) then 2 * k else 2 * k + 1;
    UnderInterval(key, c);
    var half := Pow2(q - 1);
    ChildOffset(key, k, c, half, key - k * (2 * half));
  }

  // One turn of the descent: the top bit selects the child on the path to key.
  lemma RegisterStep(bits: nat, key: nat, k: nat)
    requires Register(bits, key, k) && key != k
    ensures bits < WORD
    ensures var b := if bits >= WORD / 2 then 1 else 0;
            Under(key, 2 * k + b) && Register((2 * bits) % WORD, key, 2 * k + b)
  {
    hide Pow2, Log2, Under, Aligned, OnPath;
    var q := Log2(key) - Log2(k);
    var c := DescentChild(key, k, q);
    AlignedStep(bits, key, k, c, q);
  }

  lemma AlignedStep(bits: nat, key: nat, k: nat, c: nat, q: int)
    requires q >= 1 && Aligned(bits, key, k, q) && OnPath(key, k, c, Pow2(q - 1))
    ensures bits < WORD && c == 2 * k + if bits >= WORD / 2 then 1 else 0
    ensures Aligned((2 * bits) % WORD, key, c, q - 1)
  {
    var half := Pow2(q - 1);
    assert Pow2(q) == 2 * half;
    var r := key - k * Pow2(q);
    hide Pow2;
    TopBit(r, q);
    assert 32 - (q - 1) == 33 - q;
    assert Offset((2 * bits) % WORD, key - c * half, half, Pow2(33 - q));
  }

  lemma ChildLog(k: nat)
    requires k >= 1
    ensures Log2(2 * k) == Log2(k) + 1 && Log2(2 * k + 1) == Log2(k) + 1
  {}

  lemma ChildOffset(key: nat, k: nat, c: nat, half: nat, r: int)
    requires r == key - k * (2 * half) && c * half <= key < c * half + half
    requires c == 2 * k || c == 2 * k + 1
    ensures r >= half <==> c == 2 * k + 1
    ensures key - c * half == if c == 2 * k then r else r - half
  {
    assert k * (2 * half) == 2 * k * half;
    assert (2 * k + 1) * half == 2 * k * half + half;
  }
}
