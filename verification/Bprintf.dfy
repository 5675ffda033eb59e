/** Formatted output into a bounded buffer (kernel/lib/bprintf.c:48-629). */
module Bprintf {
  import opened Numerals
  import Alignment

  // what va_arg finds: four bytes, eight bytes, a string without its terminator, or the place %n writes to
  datatype Arg = Word(w: nat) | DoubleWord(ww: nat) | Text(s: seq<char>) | Counter

  // *(format + i); the format ends with a zero byte
  function At(format: seq<char>, i: nat): char { if i < |format| then format[i] else '\0' }

  // ---------------- a conversion specification ----------------

  predicate IsFlag(c: char) { c == '#' || c == '0' || c == '-' || c == ' ' || c == '+' }

  predicate IsDigit(c: char) { '0' <= c <= '9' }

  function WithFlag(f: Flags, c: char): Flags {
    if c == '#' then f.(alternative := true) else if c == '0' then f.(zeroPad := true)
    else if c == '-' then f.(leftAdjust := true) else if c == ' ' then f.(space := true) else f.(sign := true)
  }

  function FlagsFrom(format: seq<char>, i: nat, f: Flags): (r: (Flags, nat))
    ensures r.1 >= i
    decreases |format| - i
  {
    if IsFlag(At(format, i)) then FlagsFrom(format, i + 1, WithFlag(f, At(format, i))) else (f, i)
  }

  function NextNumber(n: nat, c: char): nat
    requires IsDigit(c)
  {
    (n * 10 + (c - '0') as nat) % WORD
  }

  function NumberFrom(format: seq<char>, i: nat, n: nat): (r: (nat, nat))
    ensures r.1 >= i
    decreases |format| - i
  {
    if IsDigit(At(format, i)) then NumberFrom(format, i + 1, NextNumber(n, At(format, i))) else (n, i)
  }

  function WordAt(args: seq<Arg>, k: nat): nat {
    if k < |args| && args[k].Word? && args[k].w < WORD then args[k].w else 0
  }

  // two's complement of the given width
  function Signed(w: nat, half: nat): int { if w < half then w else w - 2 * half }

  datatype Part = Part(flags: Flags, value: nat, next: nat, arg: nat)

  function WidthFrom(format: seq<char>, i: nat, f: Flags, args: seq<Arg>, k: nat): (p: Part)
    ensures p.next >= i
  {
    if At(format, i) == '*' then
      var width := Signed(WordAt(args, k), WORD / 2);
      Part(if width < 0 then f.(leftAdjust := true) else f, Abs(width), i + 1, k + 1)
    else
      var n := NumberFrom(format, i, 0);
      Part(f, n.0, n.1, k)
  }

  function PrecisionFrom(format: seq<char>, i: nat, f: Flags, args: seq<Arg>, k: nat): (p: Part)
    ensures p.next >= i
  {
    if At(format, i) != '.' then Part(f, 0, i, k)
    else if At(format, i + 1) == '*' then Part(f, WordAt(args, k), i + 2, k + 1)
    else
      var n := NumberFrom(format, i + 1, 0);
      Part(f, n.0, n.1, k)
  }

  function LengthFrom(format: seq<char>, i: nat): (r: (Length, nat))
    ensures r.1 >= i
  {
    if At(format, i) == 'h' then (if At(format, i + 1) == 'h' then (Char, i + 2) else (Short, i + 1))
    else if At(format, i) == 'l' then (if At(format, i + 1) == 'l' then (LongLong, i + 2) else (Long, i + 1))
    else (Plain, i)
  }

  const NO_FLAGS: Flags := Flags(false, false, false, false, false)

  // the specification whose % is just before i
  function SpecFrom(format: seq<char>, i: nat, args: seq<Arg>, k: nat): (sp: Spec)
    ensures sp.next > i
  {
    var f := FlagsFrom(format, i, NO_FLAGS);
    var w := WidthFrom(format, f.1, f.0, args, k);
    var p := PrecisionFrom(format, w.next, w.flags, args, w.arg);
    var l := LengthFrom(format, p.next);
    Spec(w.flags, w.value, At(format, w.next) == '.', p.value, l.0, At(format, l.1), l.1 + 1, p.arg)
  }

  // A width or precision in the format is the value of its digits, as an unsigned int.
  lemma {:induction false} NumberReads(format: seq<char>, i: nat)
    requires i <= |format|
    ensures var r := NumberFrom(format, i, 0);
      r.1 <= |format| && Digits(format[i..r.1], 10) && !IsDigit(At(format, r.1)) && r.0 == Value(format[i..r.1], 10) % WORD
  {
    NumberGoesOn(format, i, i, 0);
  }

  lemma {:induction false} NumberGoesOn(format: seq<char>, from: nat, i: nat, n: nat)
    requires from <= i <= |format| && Digits(format[from..i], 10) && n == Value(format[from..i], 10) % WORD
    ensures var r := NumberFrom(format, i, n);
      r.1 <= |format| && Digits(format[from..r.1], 10) && !IsDigit(At(format, r.1)) && r.0 == Value(format[from..r.1], 10) % WORD
    decreases |format| - i
  {
    var c := At(format, i);
    if IsDigit(c) {
      var s := format[from..i + 1];
      assert s[..|s| - 1] == format[from..i] && s[|s| - 1] == c;
      WrapStep(Value(format[from..i], 10), (c - '0') as nat);
      assert DigitOk(c, 10);
      forall j | 0 <= j < |s| ensures DigitOk(s[j], 10) {
        if j < |s| - 1 { assert s[j] == format[from..i][j]; }
      }
      NumberGoesOn(format, from, i + 1, NextNumber(n, c));
    }
  }

  lemma WrapStep(v: nat, d: nat)
    ensures (v % WORD * 10 + d) % WORD == (v * 10 + d) % WORD
  {
    var q, m := v / WORD, v % WORD;
    var a, b := (m * 10 + d) / WORD, (m * 10 + d) % WORD;
    Alignment.ModIs(v * 10 + d, WORD, 10 * q + a, b);
  }

  lemma WrapTwice(v: nat, d: nat)
    ensures (v % WORD + d) % WORD == (v + d) % WORD
  {}

  // ---------------- the text of a format ----------------

  predicate Takes(conv: char) { IsSigned(conv) || IsUnsigned(conv) || conv == 'p' || conv == 'c' || conv == 's' || conv == 'n' }

  predicate IsSigned(conv: char) { conv == 'd' || conv == 'i' }

  predicate IsUnsigned(conv: char) { conv == 'u' || conv == 'o' || conv == 'x' || conv == 'X' }

  function RadixOf(conv: char): Radix {
    if conv == 'o' then Octal else if conv == 'x' then Hex else if conv == 'X' then HEX else Decimal
  }

  // the caller passed what the conversion reads
  predicate ArgFits(sp: Spec, args: seq<Arg>) {
    Takes(sp.conv) ==>
      && sp.arg < |args|
      && var a := args[sp.arg];
         if sp.conv == 's' then a.Text? && '\0' !in a.s
         else if sp.conv == 'n' then a.Counter?
         else if (IsSigned(sp.conv) || IsUnsigned(sp.conv)) && sp.length == LongLong then a.DoubleWord? && a.ww < WIDE
         else a.Word? && a.w < WORD
  }

  // the conversion's number, cut to its length
  function SignedNumber(sp: Spec, a: Arg): int {
    match a
    case Word(w) => if sp.length == Short then Signed(w % 0x1_0000, 0x8000)
                    else if sp.length == Char then Signed(w % 0x100, 0x80) else Signed(w, WORD / 2)
    case DoubleWord(w) => Signed(w, WIDE / 2)
    case _ => 0
  }

  function UnsignedNumber(sp: Spec, a: Arg): nat {
    match a
    case Word(w) => if sp.length == Short then w % 0x1_0000 else if sp.length == Char then w % 0x100 else w
    case DoubleWord(w) => w
    case _ => 0
  }

  function StringOf(a: Arg): seq<char> { match a case Text(s) => s case _ => [] }

  function CharOf(a: Arg): char { match a case Word(w) => (w % 0x100) as char case _ => '\0' }

  function ConvText(sp: Spec, args: seq<Arg>): seq<char> {
    if !Takes(sp.conv) || sp.arg >= |args| then []
    else
      var a := args[sp.arg];
      if IsSigned(sp.conv) then SignedText(sp, SignedNumber(sp, a))
      else if IsUnsigned(sp.conv) then UnsignedText(sp, UnsignedNumber(sp, a), RadixOf(sp.conv))
      else if sp.conv == 'p' then PointerText(sp, UnsignedNumber(sp.(length := Plain), a))
      else if sp.conv == 'c' then CharText(sp, CharOf(a))
      else if sp.conv == 's' then StringText(sp, StringOf(a))
      else []
  }

  function ArgAfter(sp: Spec): nat { if Takes(sp.conv) then sp.arg + 1 else sp.arg }

  // all that format[i..] prints with the arguments from k on, given room
  function FormatText(format: seq<char>, i: nat, args: seq<Arg>, k: nat): seq<char>
    decreases |format| - i
  {
    var c := At(format, i);
    if c == '\0' then []
    else if c != '%' then [c] + FormatText(format, i + 1, args, k)
    else if At(format, i + 1) == '%' then ['%'] + FormatText(format, i + 2, args, k)
    else
      var sp := SpecFrom(format, i + 1, args, k);
      ConvText(sp, args) + FormatText(format, sp.next, args, ArgAfter(sp))
  }

  // what the %n conversions reached with room left store, n characters having been printed
  function Counts(format: seq<char>, i: nat, args: seq<Arg>, k: nat, n: nat, max: nat): seq<nat>
    decreases |format| - i
  {
    var c := At(format, i);
    if c == '\0' || n >= max then []
    else if c != '%' then Counts(format, i + 1, args, k, n + 1, max)
    else if At(format, i + 1) == '%' then Counts(format, i + 2, args, k, n + 1, max)
    else
      var sp := SpecFrom(format, i + 1, args, k);
      (if sp.conv == 'n' then [n] else []) + Counts(format, sp.next, args, ArgAfter(sp), n + |ConvText(sp, args)|, max)
  }

  // stars have their words
  predicate StarsFit(format: seq<char>, i: nat, args: seq<Arg>, k: nat) {
    var f := FlagsFrom(format, i, NO_FLAGS);
    var w := WidthFrom(format, f.1, f.0, args, k);
    && (At(format, f.1) == '*' ==> IsWord(args, k))
    && (At(format, w.next) == '.' && At(format, w.next + 1) == '*' ==> IsWord(args, w.arg))
  }

  predicate IsWord(args: seq<Arg>, k: nat) { k < |args| && args[k].Word? && args[k].w < WORD }

  // Every conversion reached with room left ends before the format does, and its arguments are
  // of the kinds it reads; n characters are printed so far.
  predicate Proper(format: seq<char>, i: nat, args: seq<Arg>, k: nat, n: nat, max: nat)
    decreases |format| - i
  {
    var c := At(format, i);
    if c == '\0' || n >= max then true
    else if c != '%' then Proper(format, i + 1, args, k, n + 1, max)
    else if At(format, i + 1) == '%' then Proper(format, i + 2, args, k, n + 1, max)
    else
      && StarsFit(format, i + 1, args, k)
      && var sp := SpecFrom(format, i + 1, args, k);
         sp.conv != '\0' && ArgFits(sp, args) && Proper(format, sp.next, args, ArgAfter(sp), n + |ConvText(sp, args)|, max)
  }

  // ---------------- parsing ----------------

  method ParseNumber(format: seq<char>, i0: nat) returns (n: nat, i: nat)
    ensures (n, i) == NumberFrom(format, i0, 0)
  {
    n, i := 0, i0;
    while IsDigit(At(format, i))
      invariant NumberFrom(format, i, n) == NumberFrom(format, i0, 0)
      decreases |format| - i
    {
      ghost var n0 := n;
      n := n * 10 % WORD;
      n := (n + (At(format, i) - '0') as nat) % WORD;
      WrapTwice(n0 * 10, (At(format, i) - '0') as nat);
      i := i + 1;
    }
  }

  method ParseFlags(format: seq<char>, i0: nat) returns (f: Flags, i: nat)
    ensures (f, i) == FlagsFrom(format, i0, NO_FLAGS)
  {
    f, i := NO_FLAGS, i0;
    while IsFlag(At(format, i))
      invariant FlagsFrom(format, i, f) == FlagsFrom(format, i0, NO_FLAGS)
      decreases |format| - i
    {
      var c := At(format, i);
      if c == '#' {
        f := f.(alternative := true);
      } else if c == '0' {
        f := f.(zeroPad := true);
      } else if c == '-' {
        f := f.(leftAdjust := true);
      } else if c == ' ' {
        f := f.(space := true);
      } else {
        f := f.(sign := true);
      }
      i := i + 1;
    }
  }

  method ParseLength(format: seq<char>, i0: nat) returns (length: Length, i: nat)
    ensures (length, i) == LengthFrom(format, i0)
  {
    length, i := Plain, i0;
    if At(format, i) == 'h' {
      i := i + 1;
      if At(format, i) == 'h' {
        length, i := Char, i + 1;
      } else {
        length := Short;
      }
    } else if At(format, i) == 'l' {
      i := i + 1;
      if At(format, i) == 'l' {
        length, i := LongLong, i + 1;
      } else {
        length := Long;
      }
    }
  }

  method ParseSpec(format: seq<char>, i0: nat, args: seq<Arg>, k0: nat) returns (sp: Spec)
    requires StarsFit(format, i0, args, k0)
    ensures sp == SpecFrom(format, i0, args, k0)
  {
    hide FlagsFrom, NumberFrom, LengthFrom;
    var f, i := ParseFlags(format, i0);
    var k, width := k0, 0;
    if At(format, i) == '*' {
      var w := Signed(args[k].w, WORD / 2);
      if w < 0 {
        f := f.(leftAdjust := true);
        width := -w;
      } else {
        width := w;
      }
      i, k := i + 1, k + 1;
    } else {
      width, i := ParseNumber(format, i);
    }
    var hasPrecision, precision := false, 0;
    if At(format, i) == '.' {
      i := i + 1;
      if At(format, i) == '*' {
        precision := args[k].w;
        i, k := i + 1, k + 1;
      } else {
        precision, i := ParseNumber(format, i);
      }
      hasPrecision := true;
    }
    var length;
    length, i := ParseLength(format, i);
    sp := Spec(f, width, hasPrecision, precision, length, At(format, i), i + 1, k);
  }

  // widths and precisions are unsigned ints
  lemma SpecSized(format: seq<char>, i: nat, args: seq<Arg>, k: nat)
    ensures SpecFrom(format, i, args, k).Sized()
  {
    var f := FlagsFrom(format, i, NO_FLAGS);
    NumberSized(format, f.1, 0);
    var w := WidthFrom(format, f.1, f.0, args, k);
    NumberSized(format, w.next + 1, 0);
  }

  lemma {:induction false} NumberSized(format: seq<char>, i: nat, n: nat)
    requires n < WORD
    ensures NumberFrom(format, i, n).0 < WORD
    decreases |format| - i
  {
    if IsDigit(At(format, i)) { NumberSized(format, i + 1, NextNumber(n, At(format, i))); }
  }

  // ---------------- digits ----------------

  function Rev(s: seq<char>): (r: seq<char>)
    ensures |r| == |s|
  {
    if s == [] then [] else [s[|s| - 1]] + Rev(s[..|s| - 1])
  }

  lemma RevPush(s: seq<char>, c: char)
    ensures Rev(s + [c]) == [c] + Rev(s)
  {
    assert (s + [c])[..|s|] == s;
  }

  lemma {:induction false} RevAt(s: seq<char>, i: nat)
    requires i < |s|
    ensures Rev(s)[i] == s[|s| - 1 - i]
  {
    if i > 0 { RevAt(s[..|s| - 1], i - 1); }
  }

  lemma RevIs(s: seq<char>, t: seq<char>)
    requires |s| == |t| && forall i :: 0 <= i < |s| ==> t[i] == s[|s| - 1 - i]
    ensures Rev(s) == t
  {
    forall i | 0 <= i < |s| ensures Rev(s)[i] == t[i] { RevAt(s, i); }
  }

  const DIGITS: nat := 23

  // do { *(digits_top++) = digit; num /= base; } while (num)
  method PutDigits(num0: nat, base: nat, upper: bool, digits: array<char>) returns (top: nat)
    requires 0 < num0 < WIDE && 8 <= base <= 16 && digits.Length == DIGITS
    modifies digits
    ensures top <= 22 && Rev(digits[..top]) == Numeral(num0, base, upper)
  {
    hide Power, Rev, Numeral, Digit;
    var num: nat := num0;
    top := 0;
    EightCap();
    RevNone(digits[..0]);
    NumeralZero(base, upper);
    while num > 0
      invariant top <= 22 && num < Power(8, 22 - top)
      invariant Numeral(num, base, upper) + Rev(digits[..top]) == Numeral(num0, base, upper)
      decreases num
    {
      ghost var num1, done := num, digits[..top];
      Fewer(num, base, 22 - top);
      var digit, rest := num % base, num / base;
      var c := Digit(digit, upper);
      digits[top] := c;
      top := top + 1;
      num := rest;
      assert digits[..top] == done + [c];
      OneDigit(num1, base, upper, done, c);
    }
  }

  lemma OneDigit(n: nat, base: nat, upper: bool, done: seq<char>, c: char)
    requires 8 <= base <= 16 && n > 0 && n / base >= 0 && 0 <= n % base < 16 && c == Digit(n % base, upper)
    ensures Numeral(n / base, base, upper) + Rev(done + [c]) == Numeral(n, base, upper) + Rev(done)
  {
    var front, all := Numeral(n / base, base, upper), Numeral(n, base, upper);
    assert all == front + [c];
    hide *;
    RevPush(done, c);
    Regroup(front, [c], Rev(done));
  }

  lemma Fewer(n: nat, base: nat, e: nat)
    requires 8 <= base <= 16 && 0 < n < Power(8, e)
    ensures e > 0 && n / base < Power(8, e - 1) && 0 <= n / base < n && 0 <= n % base < 16
  {
    PowerStep(e, n);
    Shrinks(n, base, Power(8, e - 1));
    Smaller(n, base);
  }

  lemma PowerStep(e: nat, n: nat)
    requires 0 < n < Power(8, e)
    ensures e > 0 && Power(8, e) == 8 * Power(8, e - 1)
  {}

  // the digits of the two numbers that have no positive counterpart
  method PutMinimum(wide: bool, digits: array<char>) returns (top: nat)
    requires digits.Length == DIGITS
    modifies digits
    ensures top <= 19 && Rev(digits[..top]) == Numeral(if wide then WIDE / 2 else WORD / 2, 10, false)
  {
    hide Rev, Numeral;
    if wide {
      top := PutLiteral("8085774586302733229", digits);
      WideMinimum();
    } else {
      top := PutLiteral("8463847412", digits);
      WordMinimum();
    }
  }

  // *(digits_top++) for each character in turn
  method PutLiteral(s: seq<char>, digits: array<char>) returns (top: nat)
    requires |s| <= 19 && digits.Length == DIGITS
    modifies digits
    ensures top == |s| && digits[..top] == s
  {
    top := 0;
    while top < |s|
      invariant top <= |s| && digits[..top] == s[..top]
    {
      digits[top] := s[top];
      top := top + 1;
      assert digits[..top] == s[..top];
    }
  }

  // one more digit at the end
  lemma Next(n: nat, m: nat, s: seq<char>, t: seq<char>)
    requires n > 0 && |s| < |t| && t[..|s|] == s && |t| == |s| + 1 && m == n * 10 + DigitValue(t[|s|])
    requires '0' <= t[|s|] <= '9' && Numeral(n, 10, false) == s
    ensures Numeral(m, 10, false) == t
  {
    var d := DigitValue(t[|s|]);
    assert m / 10 == n && m % 10 == d;
    assert Digit(d, false) == t[|s|];
    assert t == s + [t[|s|]];
  }

  lemma WordMinimum()
    ensures Rev("8463847412") == Numeral(2147483648, 10, false)
  {
    hide Rev;
    RevIs("8463847412", "2147483648");
    assert Numeral(2, 10, false) == "2";
    hide Numeral;
    Next(2, 21, "2", "21");
    Next(21, 214, "21", "214");
    Next(214, 2147, "214", "2147");
    Next(2147, 21474, "2147", "21474");
    Next(21474, 214748, "21474", "214748");
    Next(214748, 2147483, "214748", "2147483");
    Next(2147483, 21474836, "2147483", "21474836");
    Next(21474836, 214748364, "21474836", "214748364");
    Next(214748364, 2147483648, "214748364", "2147483648");
  }

  lemma WideMinimum()
    ensures Rev("8085774586302733229") == Numeral(9223372036854775808, 10, false)
  {
    hide Rev;
    RevIs("8085774586302733229", "9223372036854775808");
    WideFront();
    hide Numeral;
    Next(9223372036854, 92233720368547, "9223372036854", "92233720368547");
    Next(92233720368547, 922337203685477, "92233720368547", "922337203685477");
    Next(922337203685477, 9223372036854775, "922337203685477", "9223372036854775");
    Next(9223372036854775, 92233720368547758, "9223372036854775", "92233720368547758");
    Next(92233720368547758, 922337203685477580, "92233720368547758", "922337203685477580");
    Next(922337203685477580, 9223372036854775808, "922337203685477580", "9223372036854775808");
  }

  lemma WideFront()
    ensures Numeral(9223372036854, 10, false) == "9223372036854"
  {
    WideStart();
    hide Numeral;
    Next(9223372, 92233720, "9223372", "92233720");
    Next(92233720, 922337203, "92233720", "922337203");
    Next(922337203, 9223372036, "922337203", "9223372036");
    Next(9223372036, 92233720368, "9223372036", "92233720368");
    Next(92233720368, 922337203685, "92233720368", "922337203685");
    Next(922337203685, 9223372036854, "922337203685", "9223372036854");
  }

  lemma WideStart()
    ensures Numeral(9223372, 10, false) == "9223372"
  {
    assert Numeral(9, 10, false) == "9";
    hide Numeral;
    Next(9, 92, "9", "92");
    Next(92, 922, "92", "922");
    Next(922, 9223, "922", "9223");
    Next(9223, 92233, "9223", "92233");
    Next(92233, 922337, "92233", "922337");
    Next(922337, 9223372, "922337", "9223372");
  }

  // ---------------- the output ----------------

  // `buffer` and `max` as they move: what is printed goes to the buffer until no room is left
  class Sink {
    const buffer: array<char>
    const max: nat
    ghost const before: seq<char>
    var at: nat
    var room: nat
    // all that was to be printed
    ghost var text: seq<char>

    ghost predicate Valid()
      reads this, buffer
    {
      && max <= buffer.Length == |before| && at + room == max
      && at == (if |text| < max then |text| else max)
      && buffer[..at] == text[..at] && buffer[at..] == before[at..]
    }

    constructor (buffer: array<char>, max: nat)
      requires max <= buffer.Length
      ensures Valid() && this.buffer == buffer && this.max == max && text == [] && before == buffer[..]
    {
      this.buffer := buffer;
      this.max := max;
      before := buffer[..];
      at, room, text := 0, max, [];
    }

    // *(buffer++) = c; --max;
    method Put(c: char)
      requires Valid() && room > 0
      modifies this, buffer
      ensures Valid() && text == old(text) + [c] && room == old(room) - 1
    {
      ghost var b0, t0 := buffer[..], text;
      buffer[at] := c;
      at, room, text := at + 1, room - 1, text + [c];
      assert buffer[..at] == b0[..at - 1] + [c];
      assert buffer[at..] == b0[at..] == before[at..] by { assert b0[at - 1..] == before[at - 1..]; }
    }

    // without room nothing more is printed
    ghost method Past(s: seq<char>)
      requires Valid() && room == 0
      modifies `text
      ensures Valid() && text == old(text) + s
    {
      text := text + s;
    }

    // memset(buffer, c, n) cut to the room
    method Fill(c: char, n: nat)
      requires Valid()
      modifies this, buffer
      ensures Valid() && text == old(text) + Rep(c, n)
    {
      var w := if n > room then room else n;
      var j := 0;
      assert old(text) + Rep(c, 0) == text;
      while j < w
        invariant Valid() && j <= w && room == old(room) - j && text == old(text) + Rep(c, j)
      {
        Put(c);
        RepPlus(c, j, 1);
        assert Rep(c, 1) == [c];
        assert old(text) + Rep(c, j) + [c] == old(text) + (Rep(c, j) + [c]);
        j := j + 1;
      }
      RepPlus(c, w, n - w);
      assert old(text) + Rep(c, w) + Rep(c, n - w) == old(text) + (Rep(c, w) + Rep(c, n - w));
      if w < n { Past(Rep(c, n - w)); }
    }

    method PutText(s: seq<char>)
      requires Valid()
      modifies this, buffer
      ensures Valid() && text == old(text) + s
      ensures room == if |s| < old(room) then old(room) - |s| else 0
    {
      var j := 0;
      while j < |s| && room > 0
        invariant Valid() && j <= |s| && room == old(room) - j && text == old(text) + s[..j]
      {
        Put(s[j]);
        assert s[..j + 1] == s[..j] + [s[j]];
        j := j + 1;
      }
      assert s[..j] + s[j..] == s;
      if j < |s| { Past(s[j..]); }
      assert old(text) + s[..j] + s[j..] == old(text) + s;
    }

    // while (digits_top != digits && max) *(buffer++) = *(--digits_top);
    method TakeDigits(digits: array<char>, top0: nat)
      requires Valid() && digits != buffer && top0 <= digits.Length
      modifies this, buffer
      ensures Valid() && text == old(text) + Rev(digits[..top0])
    {
      var top: nat := top0;
      while top > 0 && room > 0
        invariant Valid() && top <= top0 && text + Rev(digits[..top]) == old(text) + Rev(digits[..top0])
      {
        top := top - 1;
        assert digits[..top + 1] == digits[..top] + [digits[top]];
        RevPush(digits[..top], digits[top]);
        ghost var t0 := text;
        Put(digits[top]);
        assert t0 + [digits[top]] + Rev(digits[..top]) == t0 + ([digits[top]] + Rev(digits[..top]));
      }
      if top > 0 { Past(Rev(digits[..top])); }
    }

    // sign or 0x, zeros and digits
    method PutBody(prefix: seq<char>, zeros: nat, digits: array<char>, top: nat)
      requires Valid() && digits != buffer && top <= digits.Length
      modifies this, buffer
      ensures Valid() && text == old(text) + (prefix + Rep('0', zeros) + Rev(digits[..top]))
    {
      hide Rev;
      ghost var t0, shown := text, Rev(digits[..top]);
      PutText(prefix);
      Fill('0', zeros);
      TakeDigits(digits, top);
      assert t0 + prefix + Rep('0', zeros) + shown == t0 + (prefix + Rep('0', zeros) + shown);
    }

    // padded to the width
    method PutField(sp: Spec, prefix: seq<char>, digits: array<char>, top: nat, zeroPad: bool)
      requires Valid() && digits != buffer && top <= digits.Length
      modifies this, buffer
      ensures Valid() && text == old(text) + FieldText(sp, prefix, Rev(digits[..top]), zeroPad)
    {
      hide Rev, Rep, FieldText;
      var zeros := 0;
      if sp.hasPrecision && top < sp.precision {
        zeros := (zeros - top) % WORD;
      }
      var total := (top + zeros + |prefix|) % WORD;
      FieldIs(sp, prefix, Rev(digits[..top]), zeroPad, zeros, total);
      if sp.width <= total || sp.flags.leftAdjust {
        PutLeft(sp.width, total, prefix, zeros, digits, top);
      } else {
        PutRight(if sp.hasPrecision || !zeroPad then ' ' else '0', sp.width - total, prefix, zeros, digits, top);
      }
    }

    method PutLeft(width: nat, total: nat, prefix: seq<char>, zeros: nat, digits: array<char>, top: nat)
      requires Valid() && digits != buffer && top <= digits.Length
      modifies this, buffer
      ensures Valid() && text == old(text) + (prefix + Rep('0', zeros) + Rev(digits[..top]) + (if width > total then Rep(' ', width - total) else []))
    {
      hide Rev, Rep;
      ghost var t0, body := text, prefix + Rep('0', zeros) + Rev(digits[..top]);
      PutBody(prefix, zeros, digits, top);
      PutPad(width, total);
      Regroup(t0, body, if width > total then Rep(' ', width - total) else []);
    }

    method PutRight(c: char, n: nat, prefix: seq<char>, zeros: nat, digits: array<char>, top: nat)
      requires Valid() && digits != buffer && top <= digits.Length
      modifies this, buffer
      ensures Valid() && text == old(text) + (Rep(c, n) + (prefix + Rep('0', zeros) + Rev(digits[..top])))
    {
      hide Rev, Rep;
      ghost var t0, body := text, prefix + Rep('0', zeros) + Rev(digits[..top]);
      Fill(c, n);
      PutBody(prefix, zeros, digits, top);
      Regroup(t0, Rep(c, n), body);
    }

    // blanks up to the width
    method PutPad(width: nat, total: nat)
      requires Valid()
      modifies this, buffer
      ensures Valid() && text == old(text) + if width > total then Rep(' ', width - total) else []
    {
      if room > 0 && width > total {
        Fill(' ', width - total);
      } else if width > total {
        Past(Rep(' ', width - total));
      }
    }

    method PutSigned(sp: Spec, a: Arg)
      requires Valid() && if sp.length == LongLong then a.DoubleWord? && a.ww < WIDE else a.Word? && a.w < WORD
      modifies this, buffer
      ensures Valid() && text == old(text) + SignedText(sp, SignedNumber(sp, a))
    {
      hide Numeral, Rev, FieldText;
      var digits, top, negative := new char[DIGITS], 0, false;
      var num := SignedNumber(sp, a);
      ghost var num0 := num;
      if num == if sp.length == LongLong then -(WIDE / 2) else -(WORD / 2) {
        negative := true;
        top := PutMinimum(sp.length == LongLong, digits);
      } else {
        if num < 0 {
          negative := true;
          num := -num;
        }
        if num != 0 {
          top := PutDigits(num, 10, false, digits);
        } else if !sp.hasPrecision {
          top := PutZero(digits);
        } else {
          RevNone(digits[..0]);
        }
      }
      assert Rev(digits[..top]) == DigitsOf(Abs(num0), Decimal, sp.hasPrecision);
      PutField(sp, SignOf(sp.flags, negative), digits, top, sp.flags.zeroPad);
    }

    method PutUnsigned(sp: Spec, a: Arg)
      requires Valid() && IsUnsigned(sp.conv)
      requires if sp.length == LongLong then a.DoubleWord? && a.ww < WIDE else a.Word? && a.w < WORD
      modifies this, buffer
      ensures Valid() && text == old(text) + UnsignedText(sp, UnsignedNumber(sp, a), RadixOf(sp.conv))
    {
      hide Numeral, Rev, FieldText;
      var digits, top := new char[DIGITS], 0;
      var r := RadixOf(sp.conv);
      var alternative := sp.flags.alternative && sp.conv != 'u';
      var num := UnsignedNumber(sp, a);
      if num != 0 {
        top := PutDigits(num, Base(r), r == HEX, digits);
      } else if sp.length == LongLong {
        if !sp.hasPrecision {
          alternative := false;
          top := PutZero(digits);
        } else {
          RevNone(digits[..0]);
        }
      } else {
        alternative := false;
        if !sp.hasPrecision {
          top := PutZero(digits);
        } else {
          RevNone(digits[..0]);
        }
      }
      assert Rev(digits[..top]) == DigitsOf(num, r, sp.hasPrecision);
      PutField(sp, PrefixOf(alternative, r), digits, top, sp.flags.zeroPad);
    }

    method PutPointer(sp: Spec, num: nat)
      requires Valid() && num < WORD
      modifies this, buffer
      ensures Valid() && text == old(text) + PointerText(sp, num)
    {
      hide Numeral, FieldText;
      var digits, top := new char[DIGITS], 0;
      if num != 0 {
        hide Rev;
        top := PutDigits(num, 16, false, digits);
        PutField(sp, "0x", digits, top, sp.flags.zeroPad);
      } else {
        top := PutLiteral(")lin(", digits);
        RevIs(")lin(", "(nil)");
        PutField(sp, "", digits, top, false);
      }
    }

    method PutChar(sp: Spec, c: char)
      requires Valid() && room > 0
      modifies this, buffer
      ensures Valid() && text == old(text) + CharText(sp, c)
    {
      ghost var t0 := text;
      if sp.width <= 1 || sp.flags.leftAdjust {
        Put(c);
        if sp.width > 1 {
          Fill(' ', sp.width - 1);
          assert t0 + [c] + Rep(' ', sp.width - 1) == t0 + ([c] + Rep(' ', sp.width - 1));
        }
      } else {
        Fill(' ', sp.width - 1);
        if room > 0 {
          Put(c);
        } else {
          Past([c]);
        }
        assert t0 + Rep(' ', sp.width - 1) + [c] == t0 + (Rep(' ', sp.width - 1) + [c]);
      }
    }

    method PutString(sp: Spec, s: seq<char>)
      requires Valid()
      modifies this, buffer
      ensures Valid() && text == old(text) + StringText(sp, s)
    {
      ghost var t0 := text;
      if sp.width == 0 || sp.flags.leftAdjust {
        PutText(s);
        PutPad(sp.width, |s|);
        assert sp.width > |s| ==> t0 + s + Rep(' ', sp.width - |s|) == t0 + (s + Rep(' ', sp.width - |s|));
      } else {
        if sp.width > |s| {
          Fill(' ', sp.width - |s|);
        }
        PutText(s);
        assert sp.width > |s| ==> t0 + Rep(' ', sp.width - |s|) + s == t0 + (Rep(' ', sp.width - |s|) + s);
      }
    }

    // the switch on the conversion character, but for %n
    method Convert(sp: Spec, args: seq<Arg>)
      requires Valid() && room > 0 && ArgFits(sp, args)
      modifies this, buffer
      ensures Valid() && text == old(text) + ConvText(sp, args)
    {
      hide SignedText, UnsignedText, PointerText, CharText, StringText;
      match sp.conv
      case 'd' => PutSigned(sp, args[sp.arg]);
      case 'i' => PutSigned(sp, args[sp.arg]);
      case 'u' => PutUnsigned(sp, args[sp.arg]);
      case 'o' => PutUnsigned(sp, args[sp.arg]);
      case 'x' => PutUnsigned(sp, args[sp.arg]);
      case 'X' => PutUnsigned(sp, args[sp.arg]);
      case 'p' => PutPointer(sp, args[sp.arg].w);
      case 'c' => PutChar(sp, CharOf(args[sp.arg]));
      case 's' => PutString(sp, args[sp.arg].s);
      case _ =>
    }

    // one turn of the loop over the format
    method PutPiece(format: seq<char>, i0: nat, args: seq<Arg>, k0: nat) returns (stored: seq<nat>, i: nat, k: nat)
      requires Valid() && room > 0 && At(format, i0) != '\0' && Fits(format, i0, args, k0)
      modifies this, buffer
      ensures Valid() && text == old(text) + Piece(format, i0, args, k0) && (i, k) == After(format, i0, args, k0)
      ensures stored == Stored(format, i0, args, k0, |old(text)|)
    {
      hide ConvText, SpecFrom, StarsFit, ArgFits;
      i, k, stored := i0, k0, [];
      var c := At(format, i);
      if c != '%' {
        Put(c);
        i := i + 1;
      } else if At(format, i + 1) == '%' {
        Put('%');
        i := i + 2;
      } else {
        var sp := ParseSpec(format, i + 1, args, k);
        if sp.conv == 'n' {
          stored := [at];
        }
        Convert(sp, args);
        i, k := sp.next, ArgAfter(sp);
      }
    }
  }

  lemma FieldIs(sp: Spec, prefix: seq<char>, shown: seq<char>, zeroPad: bool, zeros: nat, total: nat)
    requires zeros == Zeros(sp, |shown|) && total == (|shown| + zeros + |prefix|) % WORD
    ensures FieldText(sp, prefix, shown, zeroPad) ==
      if sp.width <= total || sp.flags.leftAdjust then
        prefix + Rep('0', zeros) + shown + (if sp.width > total then Rep(' ', sp.width - total) else [])
      else
        Rep(if sp.hasPrecision || !zeroPad then ' ' else '0', sp.width - total) + (prefix + Rep('0', zeros) + shown)
  {
    hide Rep;
  }

  method PutZero(digits: array<char>) returns (top: nat)
    requires digits.Length == DIGITS
    modifies digits
    ensures top == 1 && Rev(digits[..1]) == "0"
  {
    digits[0] := '0';
    top := 1;
    assert digits[..1] == "0";
  }

  lemma RevNone(s: seq<char>)
    requires s == []
    ensures Rev(s) == []
  {}

  // The first max characters of the format's text are written, and nothing else; no more than 22
  // digits are ever collected.
  method Vbprintf(buffer: array<char>, max: nat, format: seq<char>, args: seq<Arg>) returns (written: nat, stored: seq<nat>)
    requires max <= buffer.Length && Proper(format, 0, args, 0, 0, max)
    modifies buffer
    ensures var text := FormatText(format, 0, args, 0);
      && written == (if |text| < max then |text| else max)
      && buffer[..written] == text[..written] && buffer[written..] == old(buffer[written..])
    ensures stored == Counts(format, 0, args, 0, 0, max)
  {
    hide ConvText, SpecFrom, FormatText, Counts, Proper, Piece, After;
    var out := new Sink(buffer, max);
    ghost var all, counts := FormatText(format, 0, args, 0), Counts(format, 0, args, 0, 0, max);
    var i, k := 0, 0;
    stored := [];
    while At(format, i) != '\0' && out.room > 0
      invariant out.Valid() && out.buffer == buffer && out.max == max && out.before == old(buffer[..]) && fresh(out)
      invariant Proper(format, i, args, k, |out.text|, max)
      invariant out.text + FormatText(format, i, args, k) == all
      invariant stored + Counts(format, i, args, k, |out.text|, max) == counts
      decreases |format| - i
    {
      ghost var t0, stored0 := out.text, stored;
      Unfold(format, i, args, k, |t0|, max);
      ghost var s := Piece(format, i, args, k);
      var n;
      n, i, k := out.PutPiece(format, i, args, k);
      stored := stored + n;
      Regroup(t0, s, FormatText(format, i, args, k));
      Regroup(stored0, n, Counts(format, i, args, k, |t0| + |s|, max));
    }
    assert FormatText(format, i, args, k) == [] || out.room == 0 by { Ended(format, i, args, k, |out.text|, max); }
    Ended(format, i, args, k, |out.text|, max);
    written := out.at;
    assert out.text[..written] == all[..written];
  }

  lemma Regroup<T>(a: seq<T>, b: seq<T>, c: seq<T>)
    ensures a + b + c == a + (b + c)
  {}

  // what the next turn of the loop prints, where it goes on, and what it stores
  function Piece(format: seq<char>, i: nat, args: seq<Arg>, k: nat): seq<char> {
    if At(format, i) != '%' then [At(format, i)]
    else if At(format, i + 1) == '%' then ['%']
    else ConvText(SpecFrom(format, i + 1, args, k), args)
  }

  function After(format: seq<char>, i: nat, args: seq<Arg>, k: nat): (r: (nat, nat))
    ensures r.0 > i
  {
    if At(format, i) != '%' then (i + 1, k)
    else if At(format, i + 1) == '%' then (i + 2, k)
    else var sp := SpecFrom(format, i + 1, args, k); (sp.next, ArgAfter(sp))
  }

  predicate IsSpec(format: seq<char>, i: nat) { At(format, i) == '%' && At(format, i + 1) != '%' }

  // the arguments suit the next turn
  predicate Fits(format: seq<char>, i: nat, args: seq<Arg>, k: nat) {
    IsSpec(format, i) ==> StarsFit(format, i + 1, args, k) && ArgFits(SpecFrom(format, i + 1, args, k), args)
  }

  function Stored(format: seq<char>, i: nat, args: seq<Arg>, k: nat, n: nat): seq<nat> {
    if IsSpec(format, i) && SpecFrom(format, i + 1, args, k).conv == 'n' then [n] else []
  }

  lemma Unfold(format: seq<char>, i: nat, args: seq<Arg>, k: nat, n: nat, max: nat)
    requires At(format, i) != '\0' && n < max && Proper(format, i, args, k, n, max)
    ensures var s, next := Piece(format, i, args, k), After(format, i, args, k);
      && FormatText(format, i, args, k) == s + FormatText(format, next.0, args, next.1)
      && Counts(format, i, args, k, n, max) == Stored(format, i, args, k, n) + Counts(format, next.0, args, next.1, n + |s|, max)
      && Proper(format, next.0, args, next.1, n + |s|, max) && Fits(format, i, args, k)
  {
    hide ConvText, SpecFrom;
  }

  lemma Ended(format: seq<char>, i: nat, args: seq<Arg>, k: nat, n: nat, max: nat)
    requires At(format, i) == '\0' || n >= max
    ensures (At(format, i) == '\0' ==> FormatText(format, i, args, k) == []) && Counts(format, i, args, k, n, max) == []
  {}

  // With more room the same counts are stored, and then perhaps more.
  lemma MoreRoom(format: seq<char>, args: seq<Arg>, m: nat, n: nat)
    requires m <= n
    ensures Counts(format, 0, args, 0, 0, m) <= Counts(format, 0, args, 0, 0, n)
  {
    CountsGrow(format, 0, args, 0, 0, m, n);
  }

  lemma {:induction false} CountsGrow(format: seq<char>, i: nat, args: seq<Arg>, k: nat, p: nat, m: nat, n: nat)
    requires m <= n
    ensures Counts(format, i, args, k, p, m) <= Counts(format, i, args, k, p, n)
    decreases |format| - i
  {
    hide SpecFrom, ConvText;
    var c := At(format, i);
    if c != '\0' && p < m {
      if c != '%' {
        CountsGrow(format, i + 1, args, k, p + 1, m, n);
      } else if At(format, i + 1) == '%' {
        CountsGrow(format, i + 2, args, k, p + 1, m, n);
      } else {
        var sp := SpecFrom(format, i + 1, args, k);
        CountsGrow(format, sp.next, args, ArgAfter(sp), p + |ConvText(sp, args)|, m, n);
      }
    }
  }
}
