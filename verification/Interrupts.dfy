/** Interrupt vectors (kernel/drivers/cpu/idt.c:41, 102, 169-184). */
module Interrupts {
  import opened BinIndex
  import opened Alignment
  import Blocks

  const VECTORS: nat := 0x100
  const EXCEPTIONS: nat := 0x20

  datatype Range = Range(base: nat, count: nat)

  predicate Holds(r: Range, v: int) { r.base <= v < r.base + r.count }

  predicate Apart(r: Range, s: Range) { r.base + r.count <= s.base || s.base + s.count <= r.base }

  predicate InSome(given: seq<Range>, v: int) { exists k :: 0 <= k < |given| && Holds(given[k], v) }

  // count vectors from base on are all free
  predicate AllFree(used: seq<bool>, base: nat, count: nat) {
    base + count <= |used| && forall i :: base <= i < base + count ==> !used[i]
  }

  // no aligned range of count vectors below `limit` is free
  ghost predicate NoneFree(used: seq<bool>, count: nat, limit: nat) {
    forall b: nat {:trigger AllFree(used, b, count)} :: b < limit && MultipleOf(b, count) ==> !AllFree(used, b, count)
  }

  lemma NextBase(base: nat, b: nat, count: nat)
    requires MultipleOf(base, count) && MultipleOf(b, count) && base <= b < base + count
    ensures b == base
  {
    if base < b { Blocks.Gap(base, b, count); }
  }

  lemma StartBase(count: nat)
    requires count > 0
    ensures MultipleOf(0, count)
  {}

  lemma StepBase(base: nat, count: nat)
    requires MultipleOf(base, count)
    ensures MultipleOf(base + count, count)
  {
    ModIs(base + count, count, base / count + 1, 0);
  }

  lemma {:induction false} Fits(base: nat, o: nat)
    requires o < 8 && MultipleOf(base, Pow2(o)) && base < VECTORS
    ensures base + Pow2(o) <= VECTORS
  {
    Whole();
    Pow2Multiple(8, o);
    hide Pow2;
    Blocks.Gap(base, VECTORS, Pow2(o));
  }

  lemma Whole()
    ensures Pow2(8) == VECTORS
  {
    assert Pow2(4) == 16;
  }

  // A range of vectors that are neither exceptions nor given out lies above the exceptions and
  // misses every range given out.
  lemma FreshRange(used: seq<bool>, given: seq<Range>, base: nat, count: nat)
    requires |used| == VECTORS && count > 0 && AllFree(used, base, count)
    requires forall v :: 0 <= v < VECTORS ==> (used[v] <==> v < EXCEPTIONS || InSome(given, v))
    requires forall k :: 0 <= k < |given| ==> given[k].count > 0
    ensures base >= 0x20 && forall k :: 0 <= k < |given| ==> Apart(given[k], Range(base, count))
  {
    assert !used[base];
    forall k | 0 <= k < |given| ensures Apart(given[k], Range(base, count)) {
      var r := given[k];
      var v := if r.base < base then base else r.base;
      assert Holds(r, v) ==> InSome(given, v);
      assert base <= v < base + count ==> !used[v];
    }
  }

  class Vectors {
    const used: array<bool>              // used_interrupts
    // the ranges handed out
    ghost var given: seq<Range>

    ghost predicate Valid()
      reads this, used
    {
      && used.Length == VECTORS
      && (forall v :: 0 <= v < VECTORS ==> (used[v] <==> v < EXCEPTIONS || InSome(given, v)))
      && (forall k :: 0 <= k < |given| ==> given[k].count > 0 && EXCEPTIONS <= given[k].base && given[k].base + given[k].count <= VECTORS)
      && (forall j, k :: 0 <= j < k < |given| ==> Apart(given[j], given[k]))
    }

    // the memset of CONSTRUCTOR(idt)
    constructor ()
      ensures Valid() && given == [] && fresh(used)
      ensures used.Length == 0x100 && forall v :: 0 <= v < 0x100 ==> (used[v] <==> v < 0x20)
    {
      used := new bool[VECTORS](i => i < EXCEPTIONS);
      given := [];
    }

    // A free range of 2^order vectors at a multiple of its size, the lowest there is; -1 for
    // 2^8 vectors and up, and when there is none. Ranges handed out never overlap, and none
    // reaches below vector 0x20.
    method Allocate(order: nat) returns (base: int)
      requires Valid()
      modifies this, used
      ensures Valid() && base >= -1
      ensures base == -1 <==> order >= 8 || NoneFree(old(used[..]), Pow2(order), VECTORS)
      ensures base == -1 ==> given == old(given) && used[..] == old(used[..])
      ensures base != -1 ==> given == old(given) + [Range(base, Pow2(order))] && MultipleOf(base, Pow2(order)) && 0x20 <= base
      ensures base != -1 ==> forall v :: 0 <= v < 0x100 ==> used[v] == (old(used[v]) || base <= v < base + Pow2(order))
      ensures base != -1 ==> AllFree(old(used[..]), base, Pow2(order)) && NoneFree(old(used[..]), Pow2(order), base)
    {
      hide Pow2, MultipleOf;
      if order >= 8 {
        return -1;
      }
      var count := Pow2(order);
      ghost var used0 := used[..];
      var b := 0;
      StartBase(count);
      while b < VECTORS
        invariant 0 <= b && MultipleOf(b, count) && used[..] == used0 && NoneFree(used0, count, b)
        invariant Valid() && given == old(given)
        decreases VECTORS - b
      {
        Fits(b, order);
        var i := 0;
        while i < count && !used[b + i]
          invariant 0 <= i <= count && forall j :: b <= j < b + i ==> !used[j]
          modifies {}
        {
          i := i + 1;
        }
        if i == count {
          assert AllFree(used0, b, count);
          assert !NoneFree(used0, count, VECTORS);
          Reserve(b, count);
          return b;
        }
        assert used0[b + i];
        assert !AllFree(used0, b, count);
        forall c: nat | c < b + count && MultipleOf(c, count) ensures !AllFree(used0, c, count) {
          if c >= b { NextBase(b, c, count); }
        }
        StepBase(b, count);
        b := b + count;
      }
      assert NoneFree(used0, count, VECTORS) by {
        forall c: nat | c < VECTORS && MultipleOf(c, count) ensures !AllFree(used0, c, count) { assert c < b; }
      }
      return -1;
    }

    // memset(used_interrupts + base, 1, count)
    method Reserve(base: nat, count: nat)
      requires Valid() && AllFree(used[..], base, count) && count > 0
      modifies this, used
      ensures Valid() && given == old(given) + [Range(base, count)] && base >= 0x20
      ensures forall v :: 0 <= v < VECTORS ==> used[v] == (old(used[v]) || base <= v < base + count)
    {
      ghost var used0 := used[..];
      ghost var given0 := given;
      var i := 0;
      while i < count
        invariant 0 <= i <= count && given == given0
        invariant forall v :: 0 <= v < VECTORS ==> used[v] == (used0[v] || base <= v < base + i)
        modifies used
      {
        used[base + i] := true;
        i := i + 1;
      }
      given := given + [Range(base, count)];
      FreshRange(used0, given0, base, count);
      forall v | 0 <= v < VECTORS ensures used[v] <==> v < EXCEPTIONS || InSome(given, v) {
        if k :| 0 <= k < |given0| && Holds(given0[k], v) { assert given[k] == given0[k]; }
        if Holds(Range(base, count), v) { assert given[|given0|] == Range(base, count); }
      }
    }
  }
}
