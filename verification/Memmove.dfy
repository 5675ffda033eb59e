/** memmove in assembly (kernel/libc/newlib/memmove.S:27-137). Memory is an array of bytes and
    an address its index; a register that is decremented past 0 is a negative number here. */
module Memmove {
  type Byte = bv8

  const WORD32: nat := 0x1_0000_0000

  // byte i after [lo, hi) got what lay d bytes further on
  function Value(m0: seq<Byte>, lo: int, hi: int, d: int, i: int): Byte
    requires 0 <= i < |m0|
  {
    if lo <= i < hi && 0 <= i + d < |m0| then m0[i + d] else m0[i]
  }

  // [lo, hi) holds what lay d bytes further on in m0; the rest is untouched
  ghost predicate Copied(m: seq<Byte>, m0: seq<Byte>, lo: int, hi: int, d: int) {
    |m| == |m0| && forall i {:trigger m[i]} :: 0 <= i < |m| ==> m[i] == Value(m0, lo, hi, d, i)
  }

  // another part copied, next to [lo, hi), from bytes not overwritten yet
  lemma CopiedMore(m: seq<Byte>, m': seq<Byte>, m0: seq<Byte>, lo: int, hi: int, a: int, b: int, d: int)
    requires Copied(m, m0, lo, hi, d) && Copied(m', m, a, b, d) && lo <= hi && a <= b && (b == lo || a == hi)
    requires 0 <= a + d && b + d <= |m| && (b + d <= lo || hi <= a + d)
    ensures Copied(m', m0, if a < lo then a else lo, if b > hi then b else hi, d)
  {
    var lo', hi' := if a < lo then a else lo, if b > hi then b else hi;
    forall i | 0 <= i < |m'| ensures m'[i] == Value(m0, lo', hi', d, i) {
      assert m'[i] == Value(m, a, b, d, i) && m[i] == Value(m0, lo, hi, d, i);
      if a <= i < b { assert m[i + d] == Value(m0, lo, hi, d, i + d); }
    }
  }

  // copying upwards from byte k on reads nothing that was overwritten
  predicate SafeUp(dst: int, src: int, n: int) { dst <= src || src + n <= dst }

  // the four bytes are read before any is written
  method MoveWord(mem: array<Byte>, edi: int, esi: int)
    requires 0 <= edi && edi + 4 <= mem.Length && 0 <= esi && esi + 4 <= mem.Length
    modifies mem
    ensures Copied(mem[..], old(mem[..]), edi, edi + 4, esi - edi)
  {
    var b0, b1, b2, b3 := mem[esi], mem[esi + 1], mem[esi + 2], mem[esi + 3];
    mem[edi], mem[edi + 1], mem[edi + 2], mem[edi + 3] := b0, b1, b2, b3;
  }

  // rep movsb, with the direction flag clear
  method MovsbUp(mem: array<Byte>, edi: int, esi: int, ecx: nat, ghost m0: seq<Byte>, ghost dst: int, ghost src: int, ghost n: int)
    returns (edi': int, esi': int)
    requires 0 <= dst <= edi && edi + ecx <= dst + n <= mem.Length && 0 <= src && src + n <= mem.Length && esi == src + (edi - dst)
    requires SafeUp(dst, src, n) && Copied(mem[..], m0, dst, edi, src - dst)
    modifies mem
    ensures edi' == edi + ecx && esi' == esi + ecx && Copied(mem[..], m0, dst, edi', src - dst)
  {
    edi', esi' := edi, esi;
    var c := ecx;
    while c > 0
      invariant edi' == edi + (ecx - c) && esi' == esi + (ecx - c) && Copied(mem[..], m0, dst, edi', src - dst)
    {
      ghost var m := mem[..];
      mem[edi'] := mem[esi'];
      CopiedMore(m, mem[..], m0, dst, edi', edi', edi' + 1, src - dst);
      edi', esi', c := edi' + 1, esi' + 1, c - 1;
    }
  }

  // rep movsl, with the direction flag clear
  method MovslUp(mem: array<Byte>, edi: int, esi: int, ecx: nat, ghost m0: seq<Byte>, ghost dst: int, ghost src: int, ghost n: int)
    returns (edi': int, esi': int)
    requires 0 <= dst <= edi && edi + 4 * ecx <= dst + n <= mem.Length && 0 <= src && src + n <= mem.Length && esi == src + (edi - dst)
    requires SafeUp(dst, src, n) && Copied(mem[..], m0, dst, edi, src - dst)
    modifies mem
    ensures edi' == edi + 4 * ecx && esi' == esi + 4 * ecx && Copied(mem[..], m0, dst, edi', src - dst)
  {
    hide Copied;
    edi', esi' := edi, esi;
    var c := ecx;
    while c > 0
      invariant edi' == edi + 4 * (ecx - c) && esi' == esi + 4 * (ecx - c) && Copied(mem[..], m0, dst, edi', src - dst)
    {
      ghost var m := mem[..];
      MoveWord(mem, edi', esi');
      CopiedMore(m, mem[..], m0, dst, edi', edi', edi' + 4, src - dst);
      edi', esi', c := edi' + 4, esi' + 4, c - 1;
    }
  }

  // rep movsb, with the direction flag set: edi and esi are the bytes to copy first
  method MovsbDown(mem: array<Byte>, edi: int, esi: int, ecx: nat, ghost m0: seq<Byte>, ghost dst: int, ghost src: int, ghost n: int)
    returns (edi': int, esi': int)
    requires 0 <= dst && dst + n <= mem.Length && 0 <= src < dst && edi < dst + n && dst + ecx <= edi + 1 && esi == src + (edi - dst)
    requires Copied(mem[..], m0, edi + 1, dst + n, src - dst)
    modifies mem
    ensures edi' == edi - ecx && esi' == esi - ecx && Copied(mem[..], m0, edi' + 1, dst + n, src - dst)
  {
    edi', esi' := edi, esi;
    var c := ecx;
    while c > 0
      invariant edi' == edi - (ecx - c) && esi' == esi - (ecx - c) && Copied(mem[..], m0, edi' + 1, dst + n, src - dst)
    {
      ghost var m := mem[..];
      mem[edi'] := mem[esi'];
      CopiedMore(m, mem[..], m0, edi' + 1, dst + n, edi', edi' + 1, src - dst);
      edi', esi', c := edi' - 1, esi' - 1, c - 1;
    }
  }

  // rep movsl, with the direction flag set: edi and esi start the words to copy first
  method MovslDown(mem: array<Byte>, edi: int, esi: int, ecx: nat, ghost m0: seq<Byte>, ghost dst: int, ghost src: int, ghost n: int)
    returns (edi': int, esi': int)
    requires 0 <= dst && dst + n <= mem.Length && 0 <= src < dst && edi + 4 <= dst + n && dst + 4 * ecx <= edi + 4 && esi == src + (edi - dst)
    requires Copied(mem[..], m0, edi + 4, dst + n, src - dst)
    modifies mem
    ensures edi' == edi - 4 * ecx && esi' == esi - 4 * ecx && Copied(mem[..], m0, edi' + 4, dst + n, src - dst)
  {
    hide Copied;
    edi', esi' := edi, esi;
    var c := ecx;
    while c > 0
      invariant edi' == edi - 4 * (ecx - c) && esi' == esi - 4 * (ecx - c) && Copied(mem[..], m0, edi' + 4, dst + n, src - dst)
    {
      ghost var m := mem[..];
      MoveWord(mem, edi', esi');
      CopiedMore(m, mem[..], m0, edi' + 4, dst + n, edi', edi' + 4, src - dst);
      edi', esi', c := edi' - 4, esi' - 4, c - 1;
    }
  }

  // .L2 on
  method CopyUp(mem: array<Byte>, dst: nat, src: nat, n: nat)
    requires dst + n <= mem.Length && src + n <= mem.Length && SafeUp(dst, src, n)
    modifies mem
    ensures Copied(mem[..], old(mem[..]), dst, dst + n, src - dst)
  {
    ghost var m0 := mem[..];
    var edi, esi, ecx := dst, src, n;
    if ecx > 8 {
      var edx := edi % 4;
      var ebx := ecx;
      if edx != 0 {
        ecx := (4 - edx) % 4;
        ebx := ebx - ecx;
        edi, esi := MovsbUp(mem, edi, esi, ecx, m0, dst, src, n);
        ecx := ebx;
      }
      ecx := ecx / 4;
      edi, esi := MovslUp(mem, edi, esi, ecx, m0, dst, src, n);
      ecx := ebx % 4;
    }
    edi, esi := MovsbUp(mem, edi, esi, ecx, m0, dst, src, n);
  }

  // the code for destructive overlap
  method CopyDown(mem: array<Byte>, dst: nat, src: nat, n: nat)
    requires dst + n <= mem.Length && src < dst
    modifies mem
    ensures Copied(mem[..], old(mem[..]), dst, dst + n, src - dst)
  {
    ghost var m0 := mem[..];
    var edi, esi, ecx := dst + n, src + n, n;
    if ecx > 8 {
      var edx := edi % 4;
      var ebx := ecx;
      if edx != 0 {
        ecx := edx;
        esi := esi - 1;
        edi := edi - 1;
        ebx := ebx - ecx;
        edi, esi := MovsbDown(mem, edi, esi, ecx, m0, dst, src, n);
        ecx := ebx;
        esi := esi + 1;
        edi := edi + 1;
      }
      ecx := ecx / 4;
      esi := esi - 4;
      edi := edi - 4;
      edi, esi := MovslDown(mem, edi, esi, ecx, m0, dst, src, n);
      esi := esi + 4;
      edi := edi + 4;
      ecx := ebx % 4;
    }
    esi := esi - 1;
    edi := edi - 1;
    edi, esi := MovsbDown(mem, edi, esi, ecx, m0, dst, src, n);
  }

  // memmove gives the destination the source's bytes, overlapping or not, and changes
  // nothing else.
  method Memmove(mem: array<Byte>, dst: nat, src: nat, n: nat) returns (eax: nat)
    requires mem.Length <= WORD32 && dst + n <= mem.Length && src + n <= mem.Length && dst < WORD32 && src < WORD32
    modifies mem
    ensures eax == dst
    ensures mem[dst..dst + n] == old(mem[src..src + n])
    ensures mem[..dst] == old(mem[..dst]) && mem[dst + n..] == old(mem[dst + n..])
  {
    ghost var m0 := mem[..];
    var ebx := (n + src - 1) % WORD32;
    if src >= dst || dst > ebx {
      CopyUp(mem, dst, src, n);
    } else {
      CopyDown(mem, dst, src, n);
    }
    eax := dst;
    Read(mem[..], m0, dst, src, n);
  }

  lemma Read(m: seq<Byte>, m0: seq<Byte>, dst: nat, src: nat, n: nat)
    requires Copied(m, m0, dst, dst + n, src - dst) && dst + n <= |m| && src + n <= |m|
    ensures m[dst..dst + n] == m0[src..src + n] && m[..dst] == m0[..dst] && m[dst + n..] == m0[dst + n..]
  {
    var a, b := m[dst..dst + n], m0[src..src + n];
    forall i | 0 <= i < n ensures a[i] == b[i] { assert m[dst + i] == Value(m0, dst, dst + n, src - dst, dst + i); }
    forall i | 0 <= i < dst ensures m[i] == m0[i] { assert m[i] == Value(m0, dst, dst + n, src - dst, i); }
    forall i | dst + n <= i < |m| ensures m[i] == m0[i] { assert m[i] == Value(m0, dst, dst + n, src - dst, i); }
  }
}
