/** strncpy and strcpy a word at a time (kernel/libc/newlib/strncpy.c:49-123,
    kernel/libc/newlib/strcpy.c:45-97). Memory is an array of bytes; a long has four, the
    lowest first. */
module Strings {
  import opened Memmove

  const LONG: nat := 4

  function DetectNull(x: bv32): bv32 {
    (x - 0x0101_0101) & !x & 0x8080_8080
  }

  function Word(b0: Byte, b1: Byte, b2: Byte, b3: Byte): bv32 {
    (b0 as bv32) | ((b1 as bv32) << 8) | ((b2 as bv32) << 16) | ((b3 as bv32) << 24)
  }

  // DETECTNULL is non-zero exactly when some byte is zero.
  lemma DetectNullIff(b0: Byte, b1: Byte, b2: Byte, b3: Byte)
    ensures DetectNull(Word(b0, b1, b2, b3)) != 0 <==> b0 == 0 || b1 == 0 || b2 == 0 || b3 == 0
  {}

  // the word that starts at address a
  function WordAt(m: seq<Byte>, a: nat): bv32
    requires a + LONG <= |m|
  {
    Word(m[a], m[a + 1], m[a + 2], m[a + 3])
  }

  // both are aligned
  predicate Aligned(x: nat, y: nat) { x % LONG == 0 && y % LONG == 0 }

  // the word address a lies in is in memory
  predicate WholeWord(m: seq<Byte>, a: nat) { a - a % LONG + LONG <= |m| }

  // ---------------- the strings ----------------

  // the characters before the first zero among the count bytes at src, or all of them
  function Length(m: seq<Byte>, src: nat, count: nat): (n: nat)
    ensures n <= count && (n > 0 ==> src + n <= |m|)
    decreases count
  {
    if count == 0 || src >= |m| || m[src] == 0 then 0 else 1 + Length(m, src + 1, count - 1)
  }

  lemma {:induction false} LengthIs(m: seq<Byte>, src: nat, count: nat, n: nat)
    requires n <= count && src + n <= |m| && (forall j :: src <= j < src + n ==> m[j] != 0)
    requires n == count || (src + n < |m| && m[src + n] == 0)
    ensures Length(m, src, count) == n
    decreases count
  {
    if n > 0 { LengthIs(m, src + 1, count - 1, n - 1); }
  }

  // the bytes strncpy may look at lie in memory, and the destination does not start inside them
  ghost predicate Readable(m: seq<Byte>, dst: nat, src: nat, count: nat, n: nat) {
    && n <= count && src + n <= |m| && dst + count <= |m|
    && (forall j :: src <= j < src + n ==> m[j] != 0)
    && (n < count ==> src + n < |m| && m[src + n] == 0)
    && (dst <= src || src + n + (if n < count then 1 else 0) <= dst)
  }

  // what strncpy leaves at address i: the string, padded with zeros; all else untouched
  function NcpyValue(m: seq<Byte>, dst: nat, src: nat, count: nat, i: nat): Byte
    requires i < |m|
  {
    if dst <= i < dst + count then
      if i - dst < Length(m, src, count) && src + (i - dst) < |m| then m[src + (i - dst)] else 0
    else m[i]
  }

  ghost predicate Ncpy(m': seq<Byte>, m: seq<Byte>, dst: nat, src: nat, count: nat) {
    |m'| == |m| && forall i {:trigger m'[i]} :: 0 <= i < |m| ==> m'[i] == NcpyValue(m, dst, src, count, i)
  }

  // the byte loops, from offset k on: the loops of lines 79-86 and of lines 113-121
  method CopyTail(mem: array<Byte>, dst: nat, src: nat, count: nat, k: nat, ghost m0: seq<Byte>, ghost n: nat)
    requires k <= n && Readable(m0, dst, src, count, n) && |m0| == mem.Length
    requires Copied(mem[..], m0, dst, dst + k, src - dst)
    modifies mem
    ensures Ncpy(mem[..], m0, dst, src, count)
  {
    hide Copied;
    var d, s, c := dst + k, src + k, count - k;
    var found := false;
    while c > 0 && !found
      invariant 0 <= c <= count && d == dst + (count - c) && s == src + (count - c)
      invariant if found then count - c == n + 1 else count - c <= n
      invariant Copied(mem[..], m0, dst, d, src - dst)
      decreases c, !found
    {
      c := c - 1;
      ghost var m := mem[..];
      SourceKept(m, m0, dst, src, count, n, s, d);
      mem[d] := mem[s];
      OneByte(m, mem[..], d, s);
      CopiedMore(m, mem[..], m0, dst, d, d, d + 1, src - dst);
      found := mem[d] == 0;
      d, s := d + 1, s + 1;
    }
    ghost var m := mem[..];
    ghost var d0 := d;
    while c > 0
      invariant 0 <= c <= count && d0 <= d == dst + (count - c)
      invariant forall i :: 0 <= i < mem.Length ==> mem[i] == if d0 <= i < d then 0 else m[i]
    {
      c := c - 1;
      mem[d] := 0;
      d := d + 1;
    }
    ghost var m1 := mem[..];
    forall i | 0 <= i < |m| ensures m1[i] == if d0 <= i < dst + count then 0 else m[i] { assert m1[i] == mem[i]; }
    Padded(m1, m, m0, dst, src, count, n, d0);
  }

  lemma OneByte(m: seq<Byte>, m': seq<Byte>, d: nat, s: nat)
    requires d < |m| && s < |m| && m' == m[d := m[s]]
    ensures Copied(m', m, d, d + 1, s - d)
  {}

  // a source byte not read yet is as it was
  lemma SourceKept(m: seq<Byte>, m0: seq<Byte>, dst: nat, src: nat, count: nat, n: nat, s: nat, d: nat)
    requires Readable(m0, dst, src, count, n) && Copied(m, m0, dst, d, src - dst)
    requires src <= s <= src + n && s < src + count && d == dst + (s - src)
    ensures s < |m| && m[s] == m0[s] && (m[s] == 0 <==> s == src + n) && d < |m|
    ensures s < d ==> s + 1 <= dst
  {
    assert m[s] == Value(m0, dst, d, src - dst, s);
  }

  lemma Padded(m': seq<Byte>, m: seq<Byte>, m0: seq<Byte>, dst: nat, src: nat, count: nat, n: nat, d: nat)
    requires Readable(m0, dst, src, count, n) && Copied(m, m0, dst, d, src - dst) && |m'| == |m|
    requires d == dst + count || d == dst + n + 1 <= dst + count
    requires d == dst + count ==> n >= count - 1
    requires forall i :: 0 <= i < |m| ==> m'[i] == if d <= i < dst + count then 0 else m[i]
    ensures Ncpy(m', m0, dst, src, count)
  {
    LengthIs(m0, src, count, n);
    forall i | 0 <= i < |m0| ensures m'[i] == NcpyValue(m0, dst, src, count, i) {
      assert m[i] == Value(m0, dst, d, src - dst, i);
    }
  }

  // strncpy as built for size: byte by byte
  method StrncpyBytes(mem: array<Byte>, dst: nat, src: nat, count: nat, ghost n: nat) returns (r: nat)
    requires Readable(mem[..], dst, src, count, n)
    modifies mem
    ensures r == dst && Ncpy(mem[..], old(mem[..]), dst, src, count)
  {
    NothingCopied(mem[..], dst, src - dst);
    CopyTail(mem, dst, src, count, 0, mem[..], n);
    r := dst;
  }

  lemma NothingCopied(m: seq<Byte>, lo: int, d: int)
    ensures Copied(m, m, lo, lo, d)
  {}

  // strncpy: words as long as they hold no zero, when both addresses are aligned
  method Strncpy(mem: array<Byte>, dst: nat, src: nat, count: nat, ghost n: nat) returns (r: nat)
    requires Readable(mem[..], dst, src, count, n) && (Aligned(src, dst) && n < count ==> WholeWord(mem[..], src + n))
    modifies mem
    ensures r == dst && Ncpy(mem[..], old(mem[..]), dst, src, count)
  {
    hide Copied;
    ghost var m0 := mem[..];
    NothingCopied(m0, dst, src - dst);
    var k := 0;
    if Aligned(src, dst) && !(count < LONG) {
      while count - k >= LONG
        invariant k % LONG == 0 && k <= n && Copied(mem[..], m0, dst, dst + k, src - dst)
        decreases count - k
      {
        ghost var m := mem[..];
        WordKept(m, m0, dst, src, count, n, k);
        if DetectNull(WordAt(mem[..], src + k)) != 0 {
          break;
        }
        MoveWord(mem, dst + k, src + k);
        CopiedMore(m, mem[..], m0, dst, dst + k, dst + k, dst + k + 4, src - dst);
        k := k + LONG;
      }
    }
    CopyTail(mem, dst, src, count, k, m0, n);
    r := dst;
  }

  // The next word can be read, is still what it was, and if it holds no zero the string goes
  // on past it.
  lemma WordKept(m: seq<Byte>, m0: seq<Byte>, dst: nat, src: nat, count: nat, n: nat, k: nat)
    requires Readable(m0, dst, src, count, n) && Copied(m, m0, dst, dst + k, src - dst)
    requires n < count ==> WholeWord(m0, src + n)
    requires k <= n && k + LONG <= count && Aligned(src, dst) && k % LONG == 0
    ensures |m| == |m0| && src + k + LONG <= |m| && dst + k + LONG <= |m|
    ensures DetectNull(WordAt(m, src + k)) == 0 ==> k + LONG <= n && (src + k + LONG <= dst || dst + k <= src + k)
  {
    var a := src + k;
    assert a < |m0|;
    assert a + LONG <= |m0|;
    DetectNullIff(m[a], m[a + 1], m[a + 2], m[a + 3]);
    if src + n < |m0| { assert m[src + n] == Value(m0, dst, dst + k, src - dst, src + n); }
  }

  // ---------------- strcpy ----------------

  // the string at src and its terminating zero lie in memory, and the destination does not start inside them
  ghost predicate Terminated(m: seq<Byte>, dst: nat, src: nat, n: nat) {
    && src + n < |m| && dst + n < |m| && m[src + n] == 0 && (forall j :: src <= j < src + n ==> m[j] != 0)
    && (dst <= src || src + n < dst)
  }

  // strcpy leaves the string with its terminating zero at dst, and touches nothing else
  method Strcpy(mem: array<Byte>, dst: nat, src: nat, ghost n: nat) returns (r: nat)
    requires Terminated(mem[..], dst, src, n) && (Aligned(src, dst) ==> WholeWord(mem[..], src + n))
    modifies mem
    ensures r == dst && Copied(mem[..], old(mem[..]), dst, dst + n + 1, src - dst)
  {
    hide Copied;
    ghost var m0 := mem[..];
    NothingCopied(m0, dst, src - dst);
    var k := 0;
    if Aligned(src, dst) {
      while true
        invariant k % LONG == 0 && k <= n && Copied(mem[..], m0, dst, dst + k, src - dst)
        decreases n - k
      {
        ghost var m := mem[..];
        StringWord(m, m0, dst, src, n, k);
        if DetectNull(WordAt(mem[..], src + k)) != 0 {
          break;
        }
        MoveWord(mem, dst + k, src + k);
        CopiedMore(m, mem[..], m0, dst, dst + k, dst + k, dst + k + 4, src - dst);
        k := k + LONG;
      }
    }
    StrcpyTail(mem, dst, src, k, m0, n);
    r := dst;
  }

  // strcpy as built for size
  method StrcpyBytes(mem: array<Byte>, dst: nat, src: nat, ghost n: nat) returns (r: nat)
    requires Terminated(mem[..], dst, src, n)
    modifies mem
    ensures r == dst && Copied(mem[..], old(mem[..]), dst, dst + n + 1, src - dst)
  {
    NothingCopied(mem[..], dst, src - dst);
    StrcpyTail(mem, dst, src, 0, mem[..], n);
    r := dst;
  }

  lemma StringWord(m: seq<Byte>, m0: seq<Byte>, dst: nat, src: nat, n: nat, k: nat)
    requires Terminated(m0, dst, src, n) && Copied(m, m0, dst, dst + k, src - dst) && WholeWord(m0, src + n)
    requires k <= n && Aligned(src, dst) && k % LONG == 0
    ensures |m| == |m0| && src + k + LONG <= |m|
    ensures DetectNull(WordAt(m, src + k)) == 0 ==>
              k + LONG <= n && dst + k + LONG <= |m| && (src + k + LONG <= dst || dst + k <= src + k)
  {
    var a := src + k;
    assert a + LONG <= |m0|;
    DetectNullIff(m[a], m[a + 1], m[a + 2], m[a + 3]);
    if src + n < |m0| { assert m[src + n] == Value(m0, dst, dst + k, src - dst, src + n); }
  }

  method StrcpyTail(mem: array<Byte>, dst: nat, src: nat, k: nat, ghost m0: seq<Byte>, ghost n: nat)
    requires k <= n && Terminated(m0, dst, src, n) && |m0| == mem.Length
    requires Copied(mem[..], m0, dst, dst + k, src - dst)
    modifies mem
    ensures Copied(mem[..], m0, dst, dst + n + 1, src - dst)
  {
    hide Copied;
    var d, s := dst + k, src + k;
    while true
      invariant src + k <= s <= src + n && d == dst + (s - src) && Copied(mem[..], m0, dst, d, src - dst)
      decreases src + n - s
    {
      ghost var m := mem[..];
      StringKept(m, m0, dst, src, n, s, d);
      mem[d] := mem[s];
      OneByte(m, mem[..], d, s);
      CopiedMore(m, mem[..], m0, dst, d, d, d + 1, src - dst);
      var c := mem[d];
      d, s := d + 1, s + 1;
      if c == 0 {
        break;
      }
    }
  }

  lemma StringKept(m: seq<Byte>, m0: seq<Byte>, dst: nat, src: nat, n: nat, s: nat, d: nat)
    requires Terminated(m0, dst, src, n) && Copied(m, m0, dst, d, src - dst) && src <= s <= src + n && d == dst + (s - src)
    ensures s < |m| && m[s] == m0[s] && (m[s] == 0 <==> s == src + n) && d < |m|
  {
    assert m[s] == Value(m0, dst, d, src - dst, s);
  }
}
