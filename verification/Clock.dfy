/** Conversions between time-stamp ticks and nanoseconds (kernel/drivers/cpu/kvm.c:32-56). */
module Clock {
  import opened BinIndex
  import Alignment

  const WORD32: nat := 0x1_0000_0000
  const WORD64: nat := 0x1_0000_0000_0000_0000

  // the scale KVM publishes: a shift, then a factor in units of 2^-32
  datatype Scale = Scale(shift: int, mul: nat) {
    predicate Usable() { -64 < shift < 64 && 0 < mul < WORD32 }
  }

  // x << n and x >> n in 64 bits
  function Left(x: nat, n: nat): nat { x * Pow2(n) % WORD64 }

  function Right(x: nat, n: nat): nat { Over(x, Pow2(n)) }

  function Over(x: nat, d: nat): nat
    requires d > 0
  {
    x / d
  }

  function TscToNs(tsc: nat, c: Scale): nat {
    var r := if c.shift >= 0 then Left(tsc, c.shift) else Right(tsc, -c.shift);
    r * c.mul % WORD64 / WORD32
  }

  // (ns << 32) / mul in 64 bits
  function Scaled(ns: nat, mul: nat): nat
    requires mul > 0
  {
    ns * WORD32 % WORD64 / mul
  }

  function NsToTsc(ns: nat, c: Scale): nat
    requires c.Usable()
  {
    var r := Scaled(ns, c.mul);
    if c.shift >= 0 then Right(r, c.shift) else Left(r, -c.shift)
  }

  // nanoseconds in one tick of the coarser side, rounded up
  function Grain(c: Scale): nat {
    (Pow2(if c.shift > 0 then c.shift else 0) * c.mul + WORD32 - 1) / WORD32
  }

  // what the shift left of NsToTsc can drop
  predicate Fits(ns: nat, c: Scale)
    requires c.Usable()
  {
    c.shift < 0 ==> ns * WORD32 / c.mul * Pow2(-c.shift) < WORD64
  }

  // There and back loses less than a grain and gains nothing.
  lemma RoundTrip(ns: nat, c: Scale)
    requires c.Usable() && ns < WORD32 && Fits(ns, c)
    ensures ns - Grain(c) <= TscToNs(NsToTsc(ns, c), c) <= ns
  {
    hide *;
    Ticks(ns, c);
    if c.shift >= 0 { TripUp(ns, c); } else { TripDown(ns, c); }
  }

  // without wrap-around, the division done by NsToTsc
  lemma Ticks(ns: nat, c: Scale)
    requires c.Usable() && ns < WORD32
    ensures ns * WORD32 % WORD64 == ns * WORD32
    ensures c.mul * (ns * WORD32 / c.mul) <= ns * WORD32 < c.mul * (ns * WORD32 / c.mul) + c.mul
  {
    Quotient(ns * WORD32, c.mul);
  }

  lemma TripUp(ns: nat, c: Scale)
    requires c.Usable() && ns < WORD32 && c.shift >= 0 && ns * WORD32 % WORD64 == ns * WORD32
    requires c.mul * (ns * WORD32 / c.mul) <= ns * WORD32 < c.mul * (ns * WORD32 / c.mul) + c.mul
    ensures ns - Grain(c) <= TscToNs(NsToTsc(ns, c), c) <= ns
  {
    hide Pow2, TscToNs;
    var n, p := ns * WORD32, Pow2(c.shift);
    var q := n / c.mul;
    var t := q / p;
    assert NsToTsc(ns, c) == t;
    Quotient(q, p);
    Commute(t, p);
    var u := t * p;
    Back(n, c.mul, q, p, u);
    Finish(ns, p, c.mul, u);
    UpTicks(t, c, u);
    GrainIs(c, p);
  }

  lemma TripDown(ns: nat, c: Scale)
    requires c.Usable() && ns < WORD32 && c.shift < 0 && Fits(ns, c) && ns * WORD32 % WORD64 == ns * WORD32
    requires c.mul * (ns * WORD32 / c.mul) <= ns * WORD32 < c.mul * (ns * WORD32 / c.mul) + c.mul
    ensures ns - Grain(c) <= TscToNs(NsToTsc(ns, c), c) <= ns
  {
    hide Pow2, TscToNs;
    var n, k := ns * WORD32, Pow2(-c.shift);
    var q := n / c.mul;
    assert NsToTsc(ns, c) == q * k;
    Back(n, c.mul, q, 1, q);
    Finish(ns, 1, c.mul, q);
    Undo(q, k);
    DownTicks(q * k, c, q);
    One();
    GrainIs(c, 1);
  }

  lemma UpTicks(t: nat, c: Scale, u: nat)
    requires c.shift >= 0 && u == t * Pow2(c.shift) && u < WORD64 && u * c.mul < WORD64
    ensures TscToNs(t, c) == u * c.mul / WORD32
  {
    hide Pow2;
  }

  lemma DownTicks(t: nat, c: Scale, q: nat)
    requires c.shift < 0 && q == t / Pow2(-c.shift) && q * c.mul < WORD64
    ensures TscToNs(t, c) == q * c.mul / WORD32
  {
    hide Pow2;
  }

  lemma GrainIs(c: Scale, p: nat)
    requires p == Pow2(if c.shift > 0 then c.shift else 0)
    ensures Grain(c) == (p * c.mul + WORD32 - 1) / WORD32
  {
    hide Pow2;
  }

  // the promise of the round trip
  predicate Kept(ns: nat, c: Scale)
    requires c.Usable()
  {
    ns - Grain(c) <= TscToNs(NsToTsc(ns, c), c) <= ns
  }

  // When it is kept: for counts that fit 32 bits, since the multiplication by 2^32 forgets the
  // others' high bits, if the shift left drops nothing either (one nanosecond may be lost
  // anyhow). A grain of 2^32 nanoseconds or more forgives any loss up to it.
  lemma RoundTripIff(ns: nat, c: Scale)
    requires c.Usable() && ns < WORD64
    ensures NsToTsc(ns, c) == NsToTsc(ns % WORD32, c)
    ensures Kept(ns, c) <==>
      if c.shift < 0 then ns < WORD32 && (Fits(ns, c) || ns == 1)
      else ns < WORD32 || WORD32 <= ns <= Grain(c)
  {
    hide Pow2, Grain, TscToNs, Fits;
    LowWord(ns);
    if c.shift >= 0 {
      if Grain(c) < WORD32 { RoundTripSmall(ns, c); } else { RoundTripHuge(ns, c); }
    } else {
      RoundTripDown(ns, c);
    }
  }

  lemma RoundTripSmall(ns: nat, c: Scale)
    requires c.Usable() && c.shift >= 0 && ns < WORD64 && Grain(c) < WORD32
    ensures Kept(ns, c) <==> ns < WORD32
  {
    hide Pow2, Grain, TscToNs;
    LowWord(ns);
    RoundTrip(ns % WORD32, c);
  }

  lemma RoundTripHuge(ns: nat, c: Scale)
    requires c.Usable() && c.shift >= 0 && ns < WORD64 && Grain(c) >= WORD32
    ensures Kept(ns, c) <==> ns <= Grain(c)
  {
    hide Pow2, TscToNs, NsToTsc, Grain;
    NothingBack(ns, c);
  }

  // a grain of 2^32 nanoseconds or more is longer than any count NsToTsc sees
  lemma NothingBack(ns: nat, c: Scale)
    requires c.Usable() && c.shift >= 0 && ns < WORD64 && Grain(c) >= WORD32
    ensures TscToNs(NsToTsc(ns, c), c) == 0
  {
    hide Pow2, TscToNs, NsToTsc, Grain;
    LongGrain(c, Pow2(c.shift));
    NoTicksTo(ns, c, Pow2(c.shift));
    NoTicks(c);
  }

  lemma LongGrain(c: Scale, p: nat)
    requires c.shift >= 0 && p == Pow2(c.shift) && Grain(c) >= WORD32
    ensures p * c.mul > (WORD32 - 1) * WORD32
  {
    hide Pow2, Grain;
    GrainIs(c, p);
    WholeGrain(p * c.mul);
  }

  lemma WholeGrain(x: nat)
    requires (x + WORD32 - 1) / WORD32 >= WORD32
    ensures x > (WORD32 - 1) * WORD32
  {}

  lemma NoTicksTo(ns: nat, c: Scale, p: nat)
    requires c.Usable() && c.shift >= 0 && ns < WORD64 && p == Pow2(c.shift) && p * c.mul > (WORD32 - 1) * WORD32
    ensures NsToTsc(ns, c) == 0
  {
    hide Pow2, NsToTsc, Scaled;
    ShortScaled(ns, c.mul, p);
    TicksUp(ns, c, p);
  }

  lemma ShortScaled(ns: nat, mul: nat, p: nat)
    requires ns < WORD64 && mul > 0 && p * mul > (WORD32 - 1) * WORD32
    ensures Scaled(ns, mul) < p
  {
    LowBound(ns);
    var n := ns * WORD32 % WORD64;
    assert Scaled(ns, mul) == n / mul;
    hide Scaled;
    BelowGrain(n, mul, p);
  }

  lemma LowBound(ns: nat)
    requires ns < WORD64
    ensures 0 <= ns * WORD32 % WORD64 <= (WORD32 - 1) * WORD32
  {
    LowWord(ns);
  }

  lemma NoTicks(c: Scale)
    ensures TscToNs(0, c) == 0
  {
    hide Pow2;
    var d := Pow2(if c.shift >= 0 then c.shift else -c.shift);
    assert 0 * d % WORD64 == 0 && 0 / d == 0;
  }

  lemma TicksUp(ns: nat, c: Scale, p: nat)
    requires c.Usable() && c.shift >= 0 && p == Pow2(c.shift) && Scaled(ns, c.mul) < p
    ensures NsToTsc(ns, c) == 0
  {
    hide Pow2, Scaled;
    ZeroTicks(Scaled(ns, c.mul), p);
  }

  lemma BelowGrain(n: nat, mul: nat, p: nat)
    requires mul > 0 && n <= (WORD32 - 1) * WORD32 < p * mul
    ensures n / mul < p
  {
    Quotient(n, mul);
    Commute(mul, p);
    if n / mul >= p { MulMono(mul, p, n / mul); }
  }

  lemma ZeroTicks(q: nat, p: nat)
    requires q < p
    ensures q / p == 0
  {}

  lemma MulMono(d: nat, a: nat, b: nat)
    requires a <= b
    ensures d * a <= d * b
  {}

  lemma RoundTripDown(ns: nat, c: Scale)
    requires c.Usable() && c.shift < 0 && ns < WORD64
    ensures Kept(ns, c) <==> ns < WORD32 && (Fits(ns, c) || ns == 1)
  {
    hide Pow2, TscToNs, NsToTsc, Fits;
    One();
    GrainIs(c, 1);
    assert Grain(c) == 1;
    var low := ns % WORD32;
    LowWord(ns);
    assert NsToTsc(ns, c) == NsToTsc(low, c) by { SameTicks(ns, c); }
    if Fits(low, c) { RoundTrip(low, c); } else { Dropped(low, c); }
  }

  lemma SameTicks(ns: nat, c: Scale)
    requires c.Usable() && ns < WORD64
    ensures NsToTsc(ns, c) == NsToTsc(ns % WORD32, c)
  {
    hide Pow2;
    LowWord(ns);
  }

  // The shift left dropped ticks: less than half of the nanoseconds come back.
  lemma Dropped(ns: nat, c: Scale)
    requires c.Usable() && c.shift < 0 && ns < WORD32 && !Fits(ns, c)
    ensures 2 * TscToNs(NsToTsc(ns, c), c) < ns
  {
    hide Pow2, TscToNs, NsToTsc, Fits, Grain;
    Ticks(ns, c);
    var n, k := ns * WORD32, Pow2(-c.shift);
    var q := n / c.mul;
    TicksDown(ns, c, q, k);
    Pow2Room(-c.shift);
    var room := WORD64 / k;
    var t, r := q * k % WORD64, q % room;
    LostHalf(n, c.mul, q, k, room);
    DownTicks(t, c, r);
    Cancel(r * c.mul / WORD32, ns);
  }

  lemma TicksDown(ns: nat, c: Scale, q: nat, k: nat)
    requires c.Usable() && c.shift < 0 && ns * WORD32 % WORD64 == ns * WORD32 && q == ns * WORD32 / c.mul && k == Pow2(-c.shift)
    ensures NsToTsc(ns, c) == q * k % WORD64 && (Fits(ns, c) <==> q * k < WORD64)
  {
    hide Pow2;
  }

  lemma LostHalf(n: nat, mul: nat, q: nat, k: nat, room: nat)
    requires k > 0 && room > 0 && k * room == WORD64 && q * k >= WORD64 && mul > 0 && mul * q <= n < WORD64
    ensures var r := q % room;
      q * k % WORD64 / k == r && r * mul < WORD64 && 2 * (r * mul / WORD32) * WORD32 < n
  {
    KeptTicks(q, k, room);
    if q < room { MulLess(q, room, k); }
    Half(q, room);
    HalfScaled(q % room, q, mul, n);
  }

  lemma Cancel(x: nat, ns: nat)
    requires 2 * x * WORD32 < ns * WORD32
    ensures 2 * x < ns
  {}

  lemma Pow2Room(e: nat)
    requires e <= 64
    ensures var k := Pow2(e); WORD64 / k > 0 && k * (WORD64 / k) == WORD64
  {
    Pow2Values();
    hide Pow2;
    Pow2Add(32, 32);
    Pow2Add(e, 64 - e);
    Alignment.ModIs(WORD64, Pow2(e), Pow2(64 - e), 0);
  }

  // shifting left and right again leaves the ticks modulo the room there was
  lemma KeptTicks(q: nat, k: nat, room: nat)
    requires k > 0 && room > 0 && k * room == WORD64
    ensures q * k % WORD64 / k == q % room
  {
    var h, r := q / room, q % room;
    assert q == room * h + r;
    calc {
      q * k;
      (room * h + r) * k;
      room * h * k + r * k;
      { Regroup(room, h, k); }
      WORD64 * h + r * k;
    }
    assert r * k < WORD64 by { MulLess(r, room, k); }
    Alignment.ModIs(q * k, WORD64, h, r * k);
    Undo(r, k);
  }

  lemma Regroup(room: nat, h: nat, k: nat)
    ensures room * h * k == k * room * h
  {}

  lemma MulLess(r: nat, room: nat, k: nat)
    requires r < room && k > 0
    ensures r * k < k * room
  {}

  lemma Half(q: nat, room: nat)
    requires 0 < room <= q
    ensures 2 * (q % room) < q
  {
    var h, r := q / room, q % room;
    assert q == room * h + r && h >= 1;
    MulMono(room, 1, h);
  }

  lemma HalfScaled(r: nat, q: nat, mul: nat, n: nat)
    requires 2 * r < q && mul * q <= n < WORD64 && mul > 0
    ensures r * mul < WORD64 && 2 * (r * mul / WORD32) * WORD32 < n
  {
    MulMono(mul, 2 * r + 1, q);
    assert mul * (2 * r + 1) == 2 * (r * mul) + mul;
  }

  lemma LowWord(ns: nat)
    requires ns < WORD64
    ensures ns * WORD32 % WORD64 == ns % WORD32 * WORD32 == ns % WORD32 * WORD32 % WORD64
  {
    var h, l := ns / WORD32, ns % WORD32;
    assert ns * WORD32 == h * WORD64 + l * WORD32;
  }

  lemma One()
    ensures Pow2(0) == 1
  {}

  lemma Quotient(n: nat, d: nat)
    requires d > 0
    ensures d * (n / d) <= n < d * (n / d) + d
  {}

  lemma Commute(a: nat, b: nat)
    ensures a * b == b * a
  {}

  lemma Undo(q: nat, k: nat)
    requires k > 0
    ensures q * k / k == q
  {
    Alignment.ModIs(q * k, k, q, 0);
  }

  // u ticks at the scaled rate miss n by less than p factors
  lemma Back(n: nat, mul: nat, q: nat, p: nat, u: nat)
    requires mul > 0 && mul * q <= n < mul * q + mul && u <= q < u + p
    ensures n - p * mul < u * mul <= n
  {
    assert u * mul <= q * mul;
    assert (u + p) * mul >= (q + 1) * mul;
  }

  lemma Finish(ns: nat, p: nat, mul: nat, u: nat)
    requires mul > 0 && ns < WORD32 && ns * WORD32 - p * mul < u * mul <= ns * WORD32
    ensures u * mul < WORD64 && u < WORD64 && ns - (p * mul + WORD32 - 1) / WORD32 <= u * mul / WORD32 <= ns
  {
    assert u <= u * mul;
  }

  // ---------------- ticks to nanoseconds ----------------

  // what tsc ticks are in units of 2^-32 nanoseconds, after the shift
  function Units(tsc: nat, c: Scale): nat
    requires c.Usable()
  {
    Product(if c.shift >= 0 then Product(tsc, Pow2(c.shift)) else Right(tsc, -c.shift), c.mul)
  }

  function Product(a: nat, b: nat): nat { a * b }

  lemma WrapProduct(a: nat, b: nat)
    ensures a % WORD64 * b % WORD64 == Product(a, b) % WORD64
  {
    var q, r := a / WORD64, a % WORD64;
    var p, m := r * b / WORD64, r * b % WORD64;
    assert a == WORD64 * q + r;
    assert a * b == WORD64 * (q * b) + r * b;
    assert a * b == WORD64 * (q * b + p) + m;
    Alignment.ModIs(a * b, WORD64, q * b + p, m);
  }

  lemma WrapHalf(x: nat)
    ensures x % WORD64 / WORD32 == x / WORD32 <==> x < WORD64
  {
    var q, r := x / WORD64, x % WORD64;
    assert x == WORD64 * q + r;
    assert x / WORD32 == WORD32 * q + r / WORD32;
  }

  // The conversion rounds down, exactly as long as the product fits 64 bits.
  lemma TicksExact(tsc: nat, c: Scale)
    requires c.Usable() && tsc < WORD64
    ensures TscToNs(tsc, c) == Units(tsc, c) / WORD32 <==> Units(tsc, c) < WORD64
  {
    hide Pow2, Over;
    if c.shift >= 0 {
      WrapProduct(Product(tsc, Pow2(c.shift)), c.mul);
    }
    WrapHalf(Units(tsc, c));
  }

  // So time does not run backwards, until then.
  lemma TicksMonotone(t: nat, u: nat, c: Scale)
    requires c.Usable() && t <= u < WORD64 && Units(u, c) < WORD64
    ensures Units(t, c) <= Units(u, c) && TscToNs(t, c) <= TscToNs(u, c)
  {
    UnitsGrow(t, u, c);
    TicksExact(t, c);
    TicksExact(u, c);
    hide Units, TscToNs;
    assert Units(t, c) / WORD32 <= Units(u, c) / WORD32;
  }

  lemma UnitsGrow(t: nat, u: nat, c: Scale)
    requires c.Usable() && t <= u
    ensures Units(t, c) <= Units(u, c)
  {
    hide Pow2, Product, Over;
    if c.shift >= 0 {
      Times(t, u, Pow2(c.shift));
      Times(Product(t, Pow2(c.shift)), Product(u, Pow2(c.shift)), c.mul);
    } else {
      Shares(t, u, Pow2(-c.shift));
      Times(Right(t, -c.shift), Right(u, -c.shift), c.mul);
    }
  }

  lemma Times(a: nat, b: nat, m: nat)
    requires a <= b
    ensures Product(a, m) <= Product(b, m)
  {}

  lemma Shares(a: nat, b: nat, d: nat)
    requires a <= b && d > 0
    ensures Over(a, d) <= Over(b, d)
  {
    var p, q := a / d, b / d;
    assert d * p <= a && b < d * q + d;
    if p > q { Times(q + 1, p, d); }
  }
}
