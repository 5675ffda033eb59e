/** Numerals and the fields of formatted output (kernel/lib/bprintf.c:149-547; section 7.19.6.1 of ISO C99). */
module Numerals {
  const WORD: nat := 0x1_0000_0000
  const WIDE: nat := 0x1_0000_0000_0000_0000

  // c, n times over
  function Rep(c: char, n: nat): (s: seq<char>)
    ensures |s| == n && forall i :: 0 <= i < n ==> s[i] == c
  {
    seq(n, _ => c)
  }

  lemma RepPlus(c: char, m: nat, n: nat)
    ensures Rep(c, m) + Rep(c, n) == Rep(c, m + n)
  {}

  function Digit(d: nat, upper: bool): char
    requires d < 16
  {
    if upper then "0123456789ABCDEF"[d] else "0123456789abcdef"[d]
  }

  function DigitValue(c: char): nat {
    if '0' <= c <= '9' then (c - '0') as nat
    else if 'a' <= c <= 'f' then (c - 'a') as nat + 10
    else if 'A' <= c <= 'F' then (c - 'A') as nat + 10
    else 0
  }

  // the digits of n, highest first; none for zero
  function Numeral(n: nat, base: nat, upper: bool): seq<char>
    requires 2 <= base <= 16
  {
    if n == 0 then [] else Numeral(n / base, base, upper) + [Digit(n % base, upper)]
  }

  // what a numeral stands for
  function Value(s: seq<char>, base: nat): nat {
    if s == [] then 0 else Value(s[..|s| - 1], base) * base + DigitValue(s[|s| - 1])
  }

  predicate Digits(s: seq<char>, base: nat) {
    forall i :: 0 <= i < |s| ==> DigitOk(s[i], base)
  }

  predicate DigitOk(c: char, base: nat) {
    DigitValue(c) < base && ('0' <= c <= '9' || 'a' <= c <= 'f' || 'A' <= c <= 'F')
  }

  // A numeral reads back as its number, has only digits of the base, and no leading zero.
  lemma {:induction false} ReadsBack(n: nat, base: nat, upper: bool)
    requires 2 <= base <= 16
    ensures Value(Numeral(n, base, upper), base) == n && Digits(Numeral(n, base, upper), base)
    ensures n > 0 ==> Numeral(n, base, upper) != [] && Numeral(n, base, upper)[0] != '0'
  {
    if n > 0 {
      Smaller(n, base);
      ReadsBack(n / base, base, upper);
      hide Numeral, Value;
      OneMore(n, base, upper);
      DigitRight(n % base, base, upper);
    }
  }

  lemma DigitRight(d: nat, base: nat, upper: bool)
    requires d < base <= 16
    ensures DigitValue(Digit(d, upper)) == d && DigitOk(Digit(d, upper), base) && (d > 0 ==> Digit(d, upper) != '0')
  {}

  lemma OneMore(n: nat, base: nat, upper: bool)
    requires 2 <= base <= 16 && n > 0
    ensures var s, front, d := Numeral(n, base, upper), Numeral(n / base, base, upper), Digit(n % base, upper);
      s == front + [d] && Value(s, base) == Value(front, base) * base + DigitValue(d) && (n / base == 0 ==> n % base == n && front == [])
  {
    var s, front, d := Numeral(n, base, upper), Numeral(n / base, base, upper), Digit(n % base, upper);
    hide Digit, DigitValue;
    assert s == front + [d] && s[..|s| - 1] == front;
  }

  lemma Smaller(n: nat, base: nat)
    requires n > 0 && base >= 2
    ensures n / base < n && n / base * base + n % base == n
  {}

  function Power(base: nat, e: nat): nat {
    if e == 0 then 1 else base * Power(base, e - 1)
  }

  // ---------------- conversions ----------------

  datatype Flags = Flags(alternative: bool, zeroPad: bool, leftAdjust: bool, space: bool, sign: bool)

  datatype Length = Plain | Char | Short | Long | LongLong

  datatype Radix = Decimal | Octal | Hex | HEX

  // a conversion specification, with the positions in the format and among the arguments that follow it
  datatype Spec = Spec(flags: Flags, width: nat, hasPrecision: bool, precision: nat, length: Length, conv: char, next: nat, arg: nat) {
    predicate Sized() { width < WORD && precision < WORD }
  }

  function Base(r: Radix): nat {
    match r case Decimal => 10 case Octal => 8 case Hex => 16 case HEX => 16
  }

  function Abs(n: int): nat { if n < 0 then -n else n }

  // ---------------- what the code prints ----------------

  // no digits for zero under a precision
  function DigitsOf(n: nat, r: Radix, hasPrecision: bool): seq<char> {
    if n == 0 then (if hasPrecision then [] else "0") else Numeral(n, Base(r), r == HEX)
  }

  // precision_count, the difference 0 - digits_count as a size_t
  function Zeros(sp: Spec, digits: nat): (z: nat)
    ensures z < WORD
  {
    if sp.hasPrecision && digits < sp.precision then (0 - digits) % WORD else 0
  }

  function SignOf(f: Flags, negative: bool): seq<char> {
    if negative then "-" else if f.sign then "+" else if f.space then " " else ""
  }

  // prefix, zeros and digits, padded to the width
  function FieldText(sp: Spec, prefix: seq<char>, digits: seq<char>, zeroPad: bool): seq<char> {
    var zeros := Zeros(sp, |digits|);
    var total := (|digits| + zeros + |prefix|) % WORD;
    var body := prefix + Rep('0', zeros) + digits;
    if sp.width <= total || sp.flags.leftAdjust then
      body + (if sp.width > total then Rep(' ', sp.width - total) else [])
    else
      Rep(if sp.hasPrecision || !zeroPad then ' ' else '0', sp.width - total) + body
  }

  function SignedText(sp: Spec, n: int): seq<char> {
    FieldText(sp, SignOf(sp.flags, n < 0), DigitsOf(Abs(n), Decimal, sp.hasPrecision), sp.flags.zeroPad)
  }

  // the flag `alternative` where the prefix is chosen
  function Alternative(sp: Spec, n: nat, r: Radix): bool {
    sp.flags.alternative && r != Decimal && (n != 0 || (sp.length == LongLong && sp.hasPrecision))
  }

  function PrefixOf(alternative: bool, r: Radix): seq<char> {
    if !alternative then "" else match r case Decimal => "" case Octal => "0" case Hex => "0x" case HEX => "0X"
  }

  function UnsignedText(sp: Spec, n: nat, r: Radix): seq<char> {
    FieldText(sp, PrefixOf(Alternative(sp, n, r), r), DigitsOf(n, r, sp.hasPrecision), sp.flags.zeroPad)
  }

  function PointerText(sp: Spec, n: nat): seq<char> {
    if n == 0 then FieldText(sp, "", "(nil)", false)
    else FieldText(sp, "0x", Numeral(n, 16, false), sp.flags.zeroPad)
  }

  function CharText(sp: Spec, c: char): seq<char> {
    if sp.width <= 1 then [c]
    else if sp.flags.leftAdjust then [c] + Rep(' ', sp.width - 1) else Rep(' ', sp.width - 1) + [c]
  }

  function StringText(sp: Spec, s: seq<char>): seq<char> {
    if sp.width <= |s| then s
    else if sp.flags.leftAdjust then s + Rep(' ', sp.width - |s|) else Rep(' ', sp.width - |s|) + s
  }

  // ---------------- what the standard asks for ----------------

  // A precision is the least number of digits, 1 by default; a field narrower than the width is
  // padded with blanks, or with zeros after the prefix when the flag 0 stands alone.
  function StandardField(sp: Spec, prefix: seq<char>, digits: seq<char>, least: nat): seq<char> {
    var zeros := if |digits| < least then least - |digits| else 0;
    var numeral := Rep('0', zeros) + digits;
    var body := prefix + numeral;
    if sp.width <= |body| then body
    else if sp.flags.leftAdjust then body + Rep(' ', sp.width - |body|)
    else if sp.flags.zeroPad && !sp.hasPrecision then prefix + Rep('0', sp.width - |body|) + numeral
    else Rep(' ', sp.width - |body|) + body
  }

  function Least(sp: Spec): nat { if sp.hasPrecision then sp.precision else 1 }

  function StandardSigned(sp: Spec, n: int): seq<char> {
    StandardField(sp, SignOf(sp.flags, n < 0), Numeral(Abs(n), 10, false), Least(sp))
  }

  // #o raises the precision until the first digit is a zero; #x and #X put 0x or 0X before a non-zero number
  function StandardUnsigned(sp: Spec, n: nat, r: Radix): seq<char> {
    var digits := Numeral(n, Base(r), r == HEX);
    var raised := if sp.flags.alternative && r == Octal && Least(sp) <= |digits| then |digits| + 1 else Least(sp);
    var prefix := if sp.flags.alternative && n != 0 && (r == Hex || r == HEX) then PrefixOf(true, r) else "";
    StandardField(sp, prefix, digits, raised)
  }

  // ---------------- where the two agree ----------------

  // no zeros owed to a precision, and none to be put between a sign and the digits
  predicate SignedGood(sp: Spec, n: int) {
    var digits, signs := |DigitsOf(Abs(n), Decimal, sp.hasPrecision)|, |SignOf(sp.flags, n < 0)|;
    if sp.hasPrecision then sp.precision <= digits
    else !(sp.flags.zeroPad && !sp.flags.leftAdjust && signs > 0 && sp.width > digits + signs)
  }

  lemma SignedIff(sp: Spec, n: int)
    requires sp.Sized() && Abs(n) < WIDE
    ensures SignedText(sp, n) == StandardSigned(sp, n) <==> SignedGood(sp, n)
  {
    hide Numeral, Rep, StandardField, FieldText;
    NumeralZero(10, false);
    var digits := Numeral(Abs(n), 10, false);
    NumeralShort(Abs(n), 10, false);
    if n != 0 { ReadsBack(Abs(n), 10, false); }
    var signs := SignOf(sp.flags, n < 0);
    if sp.hasPrecision {
      if sp.precision <= |digits| { Same(sp, signs, digits, sp.precision); } else { Short(sp, signs, digits, sp.precision); }
    } else {
      var shown := DigitsOf(Abs(n), Decimal, false);
      Shown(sp, signs, digits, shown);
      if SignedGood(sp, n) { Same(sp, signs, shown, 1); } else { Misplaced(sp, signs, shown, 1); }
    }
  }

  // Besides that, zeros must not be put before 0x, and zero under a precision is right in
  // few cases: its prefix is printed only by the wide conversions.
  predicate UnsignedGood(sp: Spec, n: nat, r: Radix) {
    var digits, alt := |DigitsOf(n, r, sp.hasPrecision)|, sp.flags.alternative && r != Decimal;
    if !sp.hasPrecision then
      !(sp.flags.zeroPad && !sp.flags.leftAdjust && alt && r != Octal && n != 0 && sp.width > digits + 2)
    else if n != 0 then sp.precision <= digits
    else if !alt then sp.precision == 0
    else if r == Octal then sp.length == LongLong && sp.precision <= 1
    else sp.length != LongLong && sp.precision == 0
  }

  lemma UnsignedIff(sp: Spec, n: nat, r: Radix)
    requires sp.Sized() && n < WIDE
    ensures UnsignedText(sp, n, r) == StandardUnsigned(sp, n, r) <==> UnsignedGood(sp, n, r)
  {
    hide Numeral, Rep, StandardField, FieldText;
    NumeralZero(Base(r), r == HEX);
    if n == 0 { UnsignedZero(sp, r); } else { UnsignedSome(sp, n, r); }
  }

  lemma UnsignedSome(sp: Spec, n: nat, r: Radix)
    requires sp.Sized() && 0 < n < WIDE
    ensures UnsignedText(sp, n, r) == StandardUnsigned(sp, n, r) <==> UnsignedGood(sp, n, r)
  {
    hide Numeral, Rep, StandardField, FieldText;
    var digits := Numeral(n, Base(r), r == HEX);
    NumeralShort(n, Base(r), r == HEX);
    ReadsBack(n, Base(r), r == HEX);
    var prefix := PrefixOf(Alternative(sp, n, r), r);
    assert DigitsOf(n, r, sp.hasPrecision) == digits;
    if sp.hasPrecision && sp.precision > |digits| {
      OursLong(sp, prefix, digits);
      StandardLength(sp, if r == Octal then [] else prefix, digits, sp.precision);
    } else if r == Octal && sp.flags.alternative {
      OctalPrefix(sp, digits);
      Same(sp, [], "0" + digits, |digits| + 1);
    } else if UnsignedGood(sp, n, r) {
      Same(sp, prefix, digits, Least(sp));
    } else {
      Misplaced(sp, prefix, digits, Least(sp));
    }
  }

  // the octal prefix is one more digit
  lemma OctalPrefix(sp: Spec, digits: seq<char>)
    requires sp.Sized() && |digits| < 50 && (sp.hasPrecision ==> sp.precision <= |digits|)
    ensures FieldText(sp, "0", digits, sp.flags.zeroPad) == FieldText(sp, [], "0" + digits, sp.flags.zeroPad)
    ensures StandardField(sp, [], digits, |digits| + 1) == StandardField(sp, [], "0" + digits, |digits| + 1)
  {
    OursPlain(sp, "0", digits, sp.flags.zeroPad);
    OursPlain(sp, [], "0" + digits, sp.flags.zeroPad);
    OctalStandard(sp, digits);
    hide FieldText, StandardField;
    assert [] + ("0" + digits) == "0" + digits;
  }

  lemma OctalStandard(sp: Spec, digits: seq<char>)
    ensures StandardField(sp, [], digits, |digits| + 1) == StandardField(sp, [], "0" + digits, |digits| + 1)
  {
    assert Rep('0', 1) + digits == "0" + digits == Rep('0', 0) + ("0" + digits);
  }

  lemma UnsignedZero(sp: Spec, r: Radix)
    requires sp.Sized()
    ensures UnsignedText(sp, 0, r) == StandardUnsigned(sp, 0, r) <==> UnsignedGood(sp, 0, r)
  {
    hide Numeral, Rep, StandardField, FieldText;
    NumeralZero(Base(r), r == HEX);
    var prefix := PrefixOf(Alternative(sp, 0, r), r);
    var octal := sp.flags.alternative && r == Octal;
    var least := if octal && Least(sp) == 0 then 1 else Least(sp);
    assert StandardUnsigned(sp, 0, r) == StandardField(sp, [], [], least);
    if !sp.hasPrecision {
      Shown(sp, [], [], "0");
      Same(sp, [], "0", 1);
    } else if prefix == [] && least == 0 {
      Same(sp, [], [], 0);
    } else if prefix == [] {
      OursBlank(sp, []);
      StandardZero(sp, [], least);
    } else if r == Octal {
      OneZero(sp, least);
    } else {
      OursX(sp, prefix, prefix[1]);
      StandardDigits(sp, least);
    }
  }

  // a lone 0 where `least` of them are asked for
  lemma OneZero(sp: Spec, least: nat)
    requires sp.Sized() && sp.hasPrecision && least >= 1
    ensures FieldText(sp, "0", [], sp.flags.zeroPad) == StandardField(sp, [], [], least) <==> least == 1
  {
    assert Zeros(sp, 0) == 0;
    assert "0" + Rep('0', 0) + [] == "0" && "0" + [] == "0";
    var ours, theirs := FieldText(sp, "0", [], sp.flags.zeroPad), StandardField(sp, [], [], least);
    assert ours == if sp.width <= 1 then "0" else if sp.flags.leftAdjust then "0" + Rep(' ', sp.width - 1) else Rep(' ', sp.width - 1) + "0";
    StandardZeros(sp, least);
    hide FieldText, StandardField;
    assert Rep('0', 1) == "0";
    if least > 1 && sp.width >= least {
      var at := if sp.flags.leftAdjust then 1 else sp.width - 2;
      assert ours[at] == ' ' && theirs[at] == '0';
    }
  }

  lemma StandardZeros(sp: Spec, least: nat)
    requires sp.hasPrecision
    ensures StandardField(sp, [], [], least) ==
      if sp.width <= least then Rep('0', least)
      else if sp.flags.leftAdjust then Rep('0', least) + Rep(' ', sp.width - least)
      else Rep(' ', sp.width - least) + Rep('0', least)
  {
    assert [] + (Rep('0', least) + []) == Rep('0', least);
  }

  lemma StandardDigits(sp: Spec, least: nat)
    requires sp.hasPrecision
    ensures forall c :: c in StandardField(sp, [], [], least) ==> c == '0' || c == ' '
  {
    StandardZeros(sp, least);
    hide StandardField;
  }

  lemma OursX(sp: Spec, prefix: seq<char>, x: char)
    requires sp.Sized() && |prefix| == 2 && prefix[1] == x
    ensures x in FieldText(sp, prefix, [], sp.flags.zeroPad)
  {
    var ours := FieldText(sp, prefix, [], sp.flags.zeroPad);
    assert Zeros(sp, 0) == 0;
    assert prefix + Rep('0', 0) + [] == prefix;
    var at := if sp.width <= 2 || sp.flags.leftAdjust then 1 else sp.width - 1;
    assert ours[at] == x;
  }

  // Without a precision and without the flag 0, the field is blanks, a sign, a numeral that reads
  // back as the number, and blanks.
  lemma SignedReadsBack(sp: Spec, n: int) returns (a: nat, b: nat, digits: seq<char>)
    requires sp.Sized() && Abs(n) < WIDE && !sp.hasPrecision && !sp.flags.zeroPad
    ensures SignedText(sp, n) == Rep(' ', a) + SignOf(sp.flags, n < 0) + digits + Rep(' ', b)
    ensures Value(digits, 10) == Abs(n) && Digits(digits, 10) && digits != []
    ensures a + b == if sp.width <= |SignOf(sp.flags, n < 0)| + |digits| then 0 else sp.width - |SignOf(sp.flags, n < 0)| - |digits|
    ensures if sp.flags.leftAdjust then a == 0 else b == 0
  {
    digits := DigitsOf(Abs(n), Decimal, false);
    a, b := Plainly(sp, SignOf(sp.flags, n < 0), digits, Abs(n), Decimal);
  }

  lemma UnsignedReadsBack(sp: Spec, n: nat, r: Radix) returns (a: nat, b: nat, digits: seq<char>)
    requires sp.Sized() && n < WIDE && !sp.hasPrecision && !sp.flags.zeroPad
    ensures UnsignedText(sp, n, r) == Rep(' ', a) + PrefixOf(sp.flags.alternative && n != 0, r) + digits + Rep(' ', b)
    ensures Value(digits, Base(r)) == n && Digits(digits, Base(r)) && digits != []
    ensures var shown := |PrefixOf(sp.flags.alternative && n != 0, r)| + |digits|; a + b == if sp.width <= shown then 0 else sp.width - shown
    ensures if sp.flags.leftAdjust then a == 0 else b == 0
  {
    digits := DigitsOf(n, r, false);
    assert PrefixOf(Alternative(sp, n, r), r) == PrefixOf(sp.flags.alternative && n != 0, r);
    a, b := Plainly(sp, PrefixOf(Alternative(sp, n, r), r), digits, n, r);
  }

  lemma Plainly(sp: Spec, prefix: seq<char>, digits: seq<char>, n: nat, r: Radix) returns (a: nat, b: nat)
    requires sp.Sized() && n < WIDE && !sp.hasPrecision && !sp.flags.zeroPad && |prefix| <= 2 && digits == DigitsOf(n, r, false)
    ensures FieldText(sp, prefix, digits, false) == Rep(' ', a) + prefix + digits + Rep(' ', b)
    ensures Value(digits, Base(r)) == n && Digits(digits, Base(r)) && digits != []
    ensures a + b == if sp.width <= |prefix| + |digits| then 0 else sp.width - |prefix| - |digits|
    ensures if sp.flags.leftAdjust then a == 0 else b == 0
  {
    hide Numeral, FieldText;
    NumeralShort(n, Base(r), r == HEX);
    ReadsBack(n, Base(r), r == HEX);
    ZeroReads(Base(r));
    OursPlain(sp, prefix, digits, false);
    hide Value, Digits, DigitsOf;
    var body := prefix + digits;
    var pad := if sp.width <= |body| then 0 else sp.width - |body|;
    a, b := if sp.flags.leftAdjust then 0 else pad, if sp.flags.leftAdjust then pad else 0;
    Padded(prefix, digits, a, b);
  }

  lemma Padded(prefix: seq<char>, digits: seq<char>, a: nat, b: nat)
    ensures var body := prefix + digits;
      Rep(' ', a) + prefix + digits + Rep(' ', b) == if a == 0 then (if b == 0 then body else body + Rep(' ', b)) else if b == 0 then Rep(' ', a) + body else Rep(' ', a) + body + Rep(' ', b)
  {
    assert Rep(' ', 0) == [];
    assert Rep(' ', a) + prefix + digits == Rep(' ', a) + (prefix + digits);
  }

  lemma ZeroReads(base: nat)
    requires base >= 8
    ensures Value("0", base) == 0 && Digits("0", base)
  {
    assert Value("0", base) == Value("0"[..0], base) * base + 0;
  }

  lemma NumeralZero(base: nat, upper: bool)
    requires 2 <= base <= 16
    ensures Numeral(0, base, upper) == []
  {}

  // zero's one digit is what the default precision puts there
  lemma Shown(sp: Spec, prefix: seq<char>, digits: seq<char>, shown: seq<char>)
    requires shown == if digits == [] then "0" else digits
    ensures StandardField(sp, prefix, digits, 1) == StandardField(sp, prefix, shown, 1)
  {
    assert Rep('0', 1) + [] == "0" && Rep('0', 0) + shown == shown;
    assert digits != [] ==> Rep('0', 0) + digits == digits;
  }

  // the same field when there are enough digits and zeros need not go inside
  lemma Same(sp: Spec, prefix: seq<char>, digits: seq<char>, least: nat)
    requires sp.Sized() && |digits| < 100 && |prefix| <= 2 && least <= |digits| && (sp.hasPrecision ==> sp.precision <= |digits|)
    requires sp.hasPrecision || !sp.flags.zeroPad || sp.flags.leftAdjust || sp.width <= |digits| + |prefix| || prefix == []
    ensures FieldText(sp, prefix, digits, sp.flags.zeroPad) == StandardField(sp, prefix, digits, least)
  {
    OursPlain(sp, prefix, digits, sp.flags.zeroPad);
    StandardPlain(sp, prefix, digits, least);
    if prefix == [] && sp.width > |digits| {
      assert prefix + Rep('0', sp.width - |digits|) + digits == Rep('0', sp.width - |digits|) + (prefix + digits);
    }
  }

  lemma OursPlain(sp: Spec, prefix: seq<char>, digits: seq<char>, zeroPad: bool)
    requires sp.Sized() && |digits| < 100 && |prefix| <= 2 && (sp.hasPrecision ==> sp.precision <= |digits|)
    ensures var body, size := prefix + digits, |prefix| + |digits|;
      FieldText(sp, prefix, digits, zeroPad) ==
      if sp.width <= size then body
      else if sp.flags.leftAdjust then body + Rep(' ', sp.width - size)
      else Rep(if sp.hasPrecision || !zeroPad then ' ' else '0', sp.width - size) + body
  {
    assert Zeros(sp, |digits|) == 0;
    assert prefix + Rep('0', 0) + digits == prefix + digits;
    assert prefix + digits + [] == prefix + digits;
  }

  lemma StandardPlain(sp: Spec, prefix: seq<char>, digits: seq<char>, least: nat)
    requires least <= |digits|
    ensures var body, size := prefix + digits, |prefix| + |digits|;
      StandardField(sp, prefix, digits, least) ==
      if sp.width <= size then body
      else if sp.flags.leftAdjust then body + Rep(' ', sp.width - size)
      else if sp.flags.zeroPad && !sp.hasPrecision then prefix + Rep('0', sp.width - size) + digits
      else Rep(' ', sp.width - size) + body
  {
    assert Rep('0', 0) + digits == digits;
  }

  // zeros before a sign or before 0x are never the standard's field
  lemma Misplaced(sp: Spec, prefix: seq<char>, digits: seq<char>, least: nat)
    requires sp.Sized() && !sp.hasPrecision && 0 < |digits| < 100 && 0 < |prefix| <= 2 && least <= |digits|
    requires sp.flags.zeroPad && !sp.flags.leftAdjust && sp.width > |digits| + |prefix|
    requires prefix[0] != '0' || (|prefix| == 2 && prefix[1] != '0')
    ensures FieldText(sp, prefix, digits, true) != StandardField(sp, prefix, digits, least)
  {
    var pad := Rep('0', sp.width - |prefix| - |digits|);
    assert Rep('0', 0) + digits == digits && prefix + Rep('0', 0) + digits == prefix + digits;
    var ours, theirs := FieldText(sp, prefix, digits, true), StandardField(sp, prefix, digits, least);
    assert ours == pad + (prefix + digits) && theirs == prefix + pad + digits;
    assert ours[0] == '0' && theirs[0] == prefix[0];
    if |prefix| == 2 {
      assert theirs[1] == prefix[1];
      assert ours[1] == if |pad| > 1 then '0' else prefix[0];
    }
  }

  // Too few digits for the precision: about 2^32 zeros are printed where a few are asked for, or
  // none where some are.
  lemma Short(sp: Spec, prefix: seq<char>, digits: seq<char>, least: nat)
    requires sp.Sized() && sp.hasPrecision && |digits| < sp.precision == least && |digits| < 100 && |prefix| <= 2
    requires digits == [] ==> '0' !in prefix
    ensures FieldText(sp, prefix, digits, sp.flags.zeroPad) != StandardField(sp, prefix, digits, least)
  {
    var ours, theirs := FieldText(sp, prefix, digits, sp.flags.zeroPad), StandardField(sp, prefix, digits, least);
    StandardLength(sp, prefix, digits, least);
    if digits != [] {
      assert Zeros(sp, |digits|) == WORD - |digits|;
      OursLong(sp, prefix, digits);
    } else {
      OursBlank(sp, prefix);
      StandardZero(sp, prefix, least);
    }
  }

  lemma StandardLength(sp: Spec, prefix: seq<char>, digits: seq<char>, least: nat)
    requires |digits| <= least
    ensures |StandardField(sp, prefix, digits, least)| == if sp.width <= |prefix| + least then |prefix| + least else sp.width
  {}

  lemma OursLong(sp: Spec, prefix: seq<char>, digits: seq<char>)
    requires sp.Sized() && sp.hasPrecision && |digits| < sp.precision && 0 < |digits| < 100 && |prefix| <= 2
    ensures |FieldText(sp, prefix, digits, sp.flags.zeroPad)| >= WORD + |prefix|
  {
    assert Zeros(sp, |digits|) == WORD - |digits|;
  }

  lemma OursBlank(sp: Spec, prefix: seq<char>)
    requires sp.Sized() && sp.hasPrecision && |prefix| <= 2 && '0' !in prefix
    ensures '0' !in FieldText(sp, prefix, [], sp.flags.zeroPad)
  {
    assert Rep('0', 0) == [];
  }

  lemma StandardZero(sp: Spec, prefix: seq<char>, least: nat)
    requires sp.hasPrecision && least > 0
    ensures '0' in StandardField(sp, prefix, [], least)
  {
    var numeral := Rep('0', least) + [];
    var body := prefix + numeral;
    assert body[|prefix|] == '0';
    var theirs := StandardField(sp, prefix, [], least);
    var at := if sp.width <= |body| || sp.flags.leftAdjust then |prefix| else sp.width - |body| + |prefix|;
    assert theirs[at] == '0';
  }

  // at most 22 digits for 64 bits, in any base the formatter uses
  lemma NumeralShort(n: nat, base: nat, upper: bool)
    requires n < WIDE && 8 <= base <= 16
    ensures |Numeral(n, base, upper)| <= 22
  {
    EightCap();
    NumeralLength(n, base, upper, 22);
  }

  lemma EightCap()
    ensures Power(8, 22) >= WIDE
  {
    assert Power(8, 5) == 0x8000;
    assert Power(8, 10) == 0x4000_0000;
    assert Power(8, 15) == 0x2000_0000_0000;
    assert Power(8, 20) == 0x1000_0000_0000_0000;
  }

  lemma {:induction false} NumeralLength(n: nat, base: nat, upper: bool, e: nat)
    requires 8 <= base <= 16 && n < Power(8, e)
    ensures |Numeral(n, base, upper)| <= e
  {
    if n > 0 {
      Shrinks(n, base, Power(8, e - 1));
      NumeralLength(n / base, base, upper, e - 1);
    }
  }

  lemma Shrinks(n: nat, base: nat, p: nat)
    requires base >= 8 && n < 8 * p
    ensures n / base < p
  {
    var q := n / base;
    assert base * q <= n;
    assert 8 * q <= base * q;
  }
}
