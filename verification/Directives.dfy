/** What each conversion of a format prints, read off the characters of the format
    (kernel/lib/bprintf.c:48-617). */
module Directives {
  import opened Numerals
  import opened Bprintf

  // the parts of a conversion as they are written; precise says whether there is a period, and
  // width and precision may be a star
  datatype Directive = Directive(flags: seq<char>, width: seq<char>, precise: bool, precision: seq<char>, length: seq<char>, conv: char)

  function Point(d: Directive): seq<char> { if d.precise then "." + d.precision else "" }

  function FromLength(d: Directive): seq<char> { d.length + [d.conv] }

  function FromPoint(d: Directive): seq<char> { Point(d) + FromLength(d) }

  function FromWidth(d: Directive): seq<char> { d.width + FromPoint(d) }

  function FromFlags(d: Directive): seq<char> { d.flags + FromWidth(d) }

  function Written(d: Directive): seq<char> { "%" + FromFlags(d) }

  predicate IsDecimal(c: char) { '0' <= c <= '9' }

  predicate AllDigits(s: seq<char>) { forall i :: 0 <= i < |s| ==> IsDecimal(s[i]) }

  predicate Flag(c: char) { c == '#' || c == '0' || c == '-' || c == ' ' || c == '+' }

  predicate AllFlags(s: seq<char>) { forall i :: 0 <= i < |s| ==> Flag(s[i]) }

  predicate Conversion(c: char) {
    c == 'd' || c == 'i' || c == 'u' || c == 'o' || c == 'x' || c == 'X' || c == 'c' || c == 's' || c == 'p' || c == 'n'
  }

  // a character that is no part of a conversion but its last
  predicate Ends(c: char) {
    !Flag(c) && !IsDecimal(c) && c != '.' && c != '*' && c != 'h' && c != 'l' && c != '%' && c != '\0'
  }

  predicate WellFormed(d: Directive) {
    && AllFlags(d.flags)
    && (d.width == "*" || (AllDigits(d.width) && (d.width != [] ==> d.width[0] != '0')))
    && (d.precision == "*" || AllDigits(d.precision)) && (!d.precise ==> d.precision == [])
    && (d.length == "" || d.length == "h" || d.length == "hh" || d.length == "l" || d.length == "ll")
    && Ends(d.conv)
  }

  // s stands at position i of the format
  predicate Stands(format: seq<char>, i: nat, s: seq<char>) {
    i + |s| <= |format| && format[i..i + |s|] == s
  }

  lemma StandsTwo(format: seq<char>, i: nat, s: seq<char>, t: seq<char>)
    requires Stands(format, i, s + t)
    ensures Stands(format, i, s) && Stands(format, i + |s|, t)
  {
    var u := format[i..i + |s + t|];
    assert u[..|s|] == s && u[|s|..] == t;
  }

  lemma StandsAt(format: seq<char>, i: nat, s: seq<char>)
    requires Stands(format, i, s) && s != []
    ensures At(format, i) == s[0] && Stands(format, i + 1, s[1..])
  {
    assert format[i..i + |s|][0] == s[0];
    assert format[i..i + |s|][1..] == s[1..];
  }

  // ---------------- reading a conversion ----------------

  lemma {:induction false} FlagsRead(format: seq<char>, i: nat, fs: seq<char>, f: Flags)
    requires Stands(format, i, fs) && AllFlags(fs) && !Flag(At(format, i + |fs|))
    ensures var r := FlagsFrom(format, i, f);
      && r.1 == i + |fs|
      && (r.0.alternative <==> f.alternative || '#' in fs) && (r.0.zeroPad <==> f.zeroPad || '0' in fs)
      && (r.0.leftAdjust <==> f.leftAdjust || '-' in fs) && (r.0.space <==> f.space || ' ' in fs) && (r.0.sign <==> f.sign || '+' in fs)
    decreases |fs|
  {
    hide Stands;
    if fs != [] {
      StandsAt(format, i, fs);
      FlagsRead(format, i + 1, fs[1..], WithFlag(f, fs[0]));
      FirstIn(fs);
    }
  }

  lemma FirstIn(s: seq<char>)
    requires s != []
    ensures forall c :: c in s <==> c == s[0] || c in s[1..]
  {
    assert s == [s[0]] + s[1..];
  }

  lemma {:induction false} NumberEnds(format: seq<char>, i: nat, s: seq<char>, n: nat)
    requires Stands(format, i, s) && AllDigits(s) && !IsDecimal(At(format, i + |s|))
    ensures NumberFrom(format, i, n).1 == i + |s|
    decreases |s|
  {
    if s != [] {
      StandsAt(format, i, s);
      NumberEnds(format, i + 1, s[1..], NextNumber(n, s[0]));
    }
  }

  lemma NumberRead(format: seq<char>, i: nat, s: seq<char>)
    requires Stands(format, i, s) && AllDigits(s) && !IsDecimal(At(format, i + |s|))
    ensures NumberFrom(format, i, 0) == (Value(s, 10) % WORD, i + |s|)
  {
    hide NumberFrom, Value;
    NumberEnds(format, i, s, 0);
    NumberReads(format, i);
  }

  lemma LengthRead(format: seq<char>, i: nat, s: seq<char>, conv: char)
    requires Stands(format, i, s) && At(format, i + |s|) == conv && Ends(conv)
    requires s == "" || s == "h" || s == "hh" || s == "l" || s == "ll"
    ensures var l := LengthFrom(format, i);
      l.1 == i + |s| && (l.0.Short? <==> s == "h") && (l.0.Char? <==> s == "hh") && (l.0.LongLong? <==> s == "ll")
  {
    if |s| > 0 { StandsAt(format, i, s); }
    if |s| > 1 { StandsAt(format, i + 1, s[1..]); }
  }

  lemma HeadLength(d: Directive)
    requires WellFormed(d)
    ensures FromLength(d) != [] && var c := FromLength(d)[0]; !IsDecimal(c) && c != '.' && c != '*' && c != '%' && !Flag(c)
  {}

  lemma HeadPoint(d: Directive)
    requires WellFormed(d)
    ensures FromPoint(d) != [] && var c := FromPoint(d)[0]; !IsDecimal(c) && (c == '.' <==> d.precise) && c != '*' && c != '%' && !Flag(c)
  {
    HeadLength(d);
    hide FromLength;
  }

  lemma HeadWidth(d: Directive)
    requires WellFormed(d)
    ensures FromWidth(d) != [] && var c := FromWidth(d)[0]; (c == '*' <==> d.width == "*") && c != '%' && !Flag(c)
  {
    HeadPoint(d);
    hide FromPoint;
  }

  lemma HeadFlags(d: Directive)
    requires WellFormed(d)
    ensures FromFlags(d) != [] && FromFlags(d)[0] != '%'
  {
    HeadWidth(d);
    hide FromWidth;
  }

  // where the flags stand, and the rest
  lemma PartFlags(format: seq<char>, i: nat, d: Directive)
    requires Stands(format, i, Written(d)) && WellFormed(d)
    ensures var a := i + 1 + |d.flags|;
      && At(format, i) == '%' && At(format, i + 1) != '%' && Stands(format, i + 1, d.flags)
      && !Flag(At(format, a)) && (At(format, a) == '*' <==> d.width == "*") && Stands(format, a, FromWidth(d))
      && i + |Written(d)| == a + |FromWidth(d)|
  {
    HeadFlags(d);
    HeadWidth(d);
    assert |Written(d)| == 1 + |d.flags| + |FromWidth(d)|;
    hide Stands, FromWidth, WellFormed, Flag;
    StandsTwo(format, i, "%", FromFlags(d));
    StandsTwo(format, i + 1, d.flags, FromWidth(d));
    StandsAt(format, i, "%");
    StandsAt(format, i + 1, FromFlags(d));
    StandsAt(format, i + 1 + |d.flags|, FromWidth(d));
  }

  lemma PartWidth(format: seq<char>, a: nat, d: Directive)
    requires Stands(format, a, FromWidth(d)) && WellFormed(d)
    ensures var b := a + |d.width|;
      && Stands(format, a, d.width) && !IsDecimal(At(format, b)) && (At(format, b) == '.' <==> d.precise)
      && Stands(format, b, FromPoint(d)) && |FromWidth(d)| == |d.width| + |FromPoint(d)|
  {
    HeadPoint(d);
    StandsTwo(format, a, d.width, FromPoint(d));
    hide Stands, FromPoint, WellFormed;
    StandsAt(format, a + |d.width|, FromPoint(d));
  }

  lemma PartPoint(format: seq<char>, b: nat, d: Directive)
    requires Stands(format, b, FromPoint(d)) && WellFormed(d)
    ensures var c := b + |Point(d)|;
      && (d.precise ==> Stands(format, b + 1, d.precision) && (At(format, b + 1) == '*' <==> d.precision == "*") && c == b + 1 + |d.precision|)
      && !IsDecimal(At(format, c)) && Stands(format, c, FromLength(d)) && |FromPoint(d)| == |Point(d)| + |FromLength(d)|
  {
    HeadLength(d);
    StandsTwo(format, b, Point(d), FromLength(d));
    if d.precise { StandsTwo(format, b, ".", d.precision); }
    hide Stands, FromLength;
    StandsAt(format, b + |Point(d)|, FromLength(d));
    if d.precise && d.precision != [] { StandsAt(format, b + 1, d.precision); }
  }

  lemma PartLength(format: seq<char>, c: nat, d: Directive)
    requires Stands(format, c, FromLength(d)) && WellFormed(d)
    ensures Stands(format, c, d.length) && At(format, c + |d.length|) == d.conv && |FromLength(d)| == |d.length| + 1
  {
    StandsTwo(format, c, d.length, [d.conv]);
    hide Stands;
    StandsAt(format, c + |d.length|, [d.conv]);
  }

  // what width and precision come to, whether the field is adjusted to the left, and which is the
  // argument converted
  datatype Layout = Layout(width: nat, left: bool, precision: nat, arg: nat)

  function Past(s: seq<char>, k: nat): nat { if s == "*" then k + 1 else k }

  function Given(args: seq<Arg>, k: nat): (w: nat)
    ensures w < 0x1_0000_0000
  {
    if IsWord(args, k) then args[k].w else 0
  }

  // A star takes an int from the arguments; a negative width also adjusts to the left.
  function LayoutOf(d: Directive, args: seq<Arg>, k: nat): Layout {
    var w := Given(args, k);
    Layout(if d.width != "*" then Value(d.width, 10) % 0x1_0000_0000 else if w < 0x8000_0000 then w else 0x1_0000_0000 - w,
           '-' in d.flags || (d.width == "*" && w >= 0x8000_0000),
           if d.precision != "*" then Value(d.precision, 10) % 0x1_0000_0000 else Given(args, Past(d.width, k)),
           Past(d.precision, Past(d.width, k)))
  }

  predicate StarsGiven(d: Directive, args: seq<Arg>, k: nat) {
    (d.width == "*" ==> IsWord(args, k)) && (d.precision == "*" ==> IsWord(args, Past(d.width, k)))
  }

  // the specification has the parts
  ghost predicate ReadAs(sp: Spec, d: Directive, m: Layout) {
    && (sp.flags.alternative <==> '#' in d.flags) && (sp.flags.zeroPad <==> '0' in d.flags)
    && (sp.flags.leftAdjust <==> m.left) && (sp.flags.space <==> ' ' in d.flags) && (sp.flags.sign <==> '+' in d.flags)
    && sp.width == m.width && sp.hasPrecision == d.precise && sp.precision == m.precision && sp.arg == m.arg
    && (sp.length.Short? <==> d.length == "h") && (sp.length.Char? <==> d.length == "hh") && (sp.length.LongLong? <==> d.length == "ll")
    && sp.conv == d.conv
  }

  // The parts are read for what they are: a flag is set when its character is among the flags,
  // width and precision are the values of their digits or the arguments stars take, and the
  // length is the letters'.
  lemma SpecReads(format: seq<char>, i: nat, d: Directive, args: seq<Arg>, k: nat)
    requires Stands(format, i, Written(d)) && WellFormed(d) && StarsGiven(d, args, k)
    ensures var sp := SpecFrom(format, i + 1, args, k); ReadAs(sp, d, LayoutOf(d, args, k)) && sp.next == i + |Written(d)|
    ensures At(format, i) == '%' && At(format, i + 1) != '%'
  {
    hide Written, FromWidth, FromPoint, FromLength, Point, FlagsFrom, NumberFrom, Value, LengthFrom, Stands, WidthFrom, PrecisionFrom;
    hide AllDigits, AllFlags, Flag, IsDecimal, Ends;
    var a := i + 1 + |d.flags|;
    var b := a + |d.width|;
    var c := b + |Point(d)|;
    PartFlags(format, i, d);
    PartWidth(format, a, d);
    PartPoint(format, b, d);
    PartLength(format, c, d);
    FlagsRead(format, i + 1, d.flags, NO_FLAGS);
    var f := FlagsFrom(format, i + 1, NO_FLAGS);
    WidthRead(format, a, d, f.0, args, k);
    var w := WidthFrom(format, a, f.0, args, k);
    PrecisionRead(format, b, d, w.flags, args, Past(d.width, k));
    LengthRead(format, c, d.length, d.conv);
  }

  lemma WidthRead(format: seq<char>, i: nat, d: Directive, f: Flags, args: seq<Arg>, k: nat)
    requires Stands(format, i, d.width) && WellFormed(d) && !IsDecimal(At(format, i + |d.width|))
    requires (At(format, i) == '*' <==> d.width == "*") && (d.width == "*" ==> IsWord(args, k))
    ensures var p := WidthFrom(format, i, f, args, k); var w := Given(args, k);
      && p.next == i + |d.width| && p.arg == Past(d.width, k)
      && p.value == (if d.width != "*" then Value(d.width, 10) % 0x1_0000_0000 else if w < 0x8000_0000 then w else 0x1_0000_0000 - w)
      && (p.flags.leftAdjust <==> f.leftAdjust || (d.width == "*" && w >= 0x8000_0000))
      && p.flags == f.(leftAdjust := p.flags.leftAdjust)
  {
    hide NumberFrom, Value, Stands;
    if d.width != "*" { NumberRead(format, i, d.width); }
  }

  lemma PrecisionRead(format: seq<char>, i: nat, d: Directive, f: Flags, args: seq<Arg>, k: nat)
    requires WellFormed(d) && (At(format, i) == '.' <==> d.precise) && !IsDecimal(At(format, i + |Point(d)|))
    requires d.precise ==> Stands(format, i + 1, d.precision) && (At(format, i + 1) == '*' <==> d.precision == "*")
    requires d.precision == "*" ==> IsWord(args, k)
    ensures PrecisionFrom(format, i, f, args, k) ==
      Part(f, if d.precision != "*" then Value(d.precision, 10) % 0x1_0000_0000 else Given(args, k), i + |Point(d)|, Past(d.precision, k))
  {
    hide NumberFrom, Value, Stands;
    if !d.precise { NoPoint(d); } else if d.precision != "*" { NumberRead(format, i + 1, d.precision); }
  }

  lemma NoPoint(d: Directive)
    requires WellFormed(d) && !d.precise
    ensures Point(d) == [] && Value(d.precision, 10) == 0
  {}

  // ---------------- what is printed ----------------

  // the padded field: body, with pad characters in front or blanks behind up to the width
  ghost predicate Padded(text: seq<char>, body: seq<char>, width: nat, left: bool, pad: char) {
    if |body| >= width then text == body
    else
      && |text| == width
      && if left then text[..|body|] == body && forall j :: |body| <= j < width ==> text[j] == ' '
         else text[width - |body|..] == body && forall j :: 0 <= j < width - |body| ==> text[j] == pad
  }

  // What comes of a precision that asks for more digits than there are: the zeros in front of the
  // digits are 2^32 less their number, and the padding is up to a width that counts neither.
  ghost predicate Overlong(text: seq<char>, prefix: seq<char>, digits: seq<char>, width: nat, left: bool) {
    var zeros := if digits == [] then 0 else 0x1_0000_0000 - |digits|;
    var blanks := if width > |prefix| then width - |prefix| else 0;
    && |digits| <= 22 && |text| == blanks + |prefix| + zeros + |digits|
    && OverlongAt(text, if left then 0 else blanks, prefix, zeros, digits)
  }

  // from `at` on prefix, zeros and digits stand in the text, and blanks elsewhere
  ghost predicate OverlongAt(text: seq<char>, at: nat, prefix: seq<char>, zeros: nat, digits: seq<char>) {
    var z := at + |prefix|;
    && z + zeros + |digits| <= |text|
    && text[at..z] == prefix && text[z + zeros..z + zeros + |digits|] == digits
    && (forall j :: z <= j < z + zeros ==> text[j] == '0')
    && (forall j :: 0 <= j < at || z + zeros + |digits| <= j < |text| ==> text[j] == ' ')
  }

  lemma FieldOverlong(sp: Spec, prefix: seq<char>, digits: seq<char>, zeroPad: bool)
    requires |prefix| <= 2 && |digits| <= 22 && sp.hasPrecision && sp.precision > |digits|
    ensures Overlong(FieldText(sp, prefix, digits, zeroPad), prefix, digits, sp.width, sp.flags.leftAdjust)
  {
    var zeros := Zeros(sp, |digits|);
    ZerosOwed(sp, |digits|, |prefix|);
    var blanks := if sp.width > |prefix| then sp.width - |prefix| else 0;
    LongField(sp, prefix, digits, zeroPad, blanks);
    hide FieldText, Zeros, Rep, Overlong;
    var body := prefix + Rep('0', zeros) + digits;
    OverlongBody(body, prefix, Rep('0', zeros), digits);
    OverlongText(FieldText(sp, prefix, digits, zeroPad), body, Rep(' ', blanks), prefix, digits, zeros, sp.width, sp.flags.leftAdjust);
  }

  lemma LongField(sp: Spec, prefix: seq<char>, digits: seq<char>, zeroPad: bool, blanks: nat)
    requires sp.hasPrecision && blanks == (if sp.width > |prefix| then sp.width - |prefix| else 0)
    requires (|digits| + Zeros(sp, |digits|) + |prefix|) % WORD == |prefix|
    ensures var body := prefix + Rep('0', Zeros(sp, |digits|)) + digits;
      FieldText(sp, prefix, digits, zeroPad) == if sp.flags.leftAdjust then body + Rep(' ', blanks) else Rep(' ', blanks) + body
  {
    hide Zeros, Rep;
    var body := prefix + Rep('0', Zeros(sp, |digits|)) + digits;
    NoBlanks(body);
  }

  lemma NoBlanks(s: seq<char>)
    ensures s + Rep(' ', 0) == s == Rep(' ', 0) + s && s + [] == s
  {}

  lemma ZerosOwed(sp: Spec, n: nat, m: nat)
    requires m <= 2 && n <= 22 && sp.hasPrecision && sp.precision > n
    ensures Zeros(sp, n) == (if n == 0 then 0 else 0x1_0000_0000 - n) && (n + Zeros(sp, n) + m) % WORD == m
  {}

  lemma OverlongBody(body: seq<char>, prefix: seq<char>, zeros: seq<char>, digits: seq<char>)
    requires body == prefix + zeros + digits
    ensures |body| == |prefix| + |zeros| + |digits| && body[..|prefix|] == prefix && body[|prefix| + |zeros|..] == digits
    ensures forall j :: |prefix| <= j < |prefix| + |zeros| ==> body[j] == zeros[j - |prefix|]
  {}

  lemma OverlongText(text: seq<char>, body: seq<char>, blanks: seq<char>, prefix: seq<char>, digits: seq<char>, zeros: nat, width: nat, left: bool)
    requires text == if left then body + blanks else blanks + body
    requires |body| == |prefix| + zeros + |digits| && body[..|prefix|] == prefix && body[|prefix| + zeros..] == digits
    requires (forall j :: |prefix| <= j < |prefix| + zeros ==> body[j] == '0') && forall j :: 0 <= j < |blanks| ==> blanks[j] == ' '
    requires |digits| <= 22 && zeros == (if |digits| == 0 then 0 else 0x1_0000_0000 - |digits|)
    requires |blanks| == if width > |prefix| then width - |prefix| else 0
    ensures Overlong(text, prefix, digits, width, left)
  {
    var at := if left then 0 else |blanks|;
    forall j | 0 <= j < at || at + |body| <= j < |text| ensures text[j] == ' ' { assert text[j] == blanks[if left then j - |body| else j]; }
    assert text[at..at + |body|] == body;
    Standing(text, at, body, prefix, zeros, digits);
    hide OverlongAt;
  }

  lemma Standing(text: seq<char>, at: nat, body: seq<char>, prefix: seq<char>, zeros: nat, digits: seq<char>)
    requires at + |body| <= |text| && text[at..at + |body|] == body
    requires |body| == |prefix| + zeros + |digits| && body[..|prefix|] == prefix && body[|prefix| + zeros..] == digits
    requires forall j :: |prefix| <= j < |prefix| + zeros ==> body[j] == '0'
    requires forall j :: 0 <= j < at || at + |body| <= j < |text| ==> text[j] == ' '
    ensures OverlongAt(text, at, prefix, zeros, digits)
  {
    Slices(text, at, body, 0, |prefix|);
    Slices(text, at, body, |prefix| + zeros, |body|);
  }

  lemma Slices(text: seq<char>, at: nat, s: seq<char>, x: nat, y: nat)
    requires at + |s| <= |text| && text[at..at + |s|] == s && x <= y <= |s|
    ensures text[at + x..at + y] == s[x..y] && forall j :: at <= j < at + |s| ==> text[j] == s[j - at]
  {
    forall j | at <= j < at + |s| ensures text[j] == s[j - at] { assert text[at..at + |s|][j - at] == text[j]; }
  }

  // digits that stand for n in the base, the letters of one case only, without leading zeros
  ghost predicate Denotes(digits: seq<char>, n: nat, base: nat, upper: bool) {
    && Value(digits, base) == n && digits != [] && (digits[0] == '0' ==> n == 0 && |digits| == 1)
    && forall j :: 0 <= j < |digits| ==>
         IsDecimal(digits[j]) || (base == 16 && if upper then 'A' <= digits[j] <= 'F' else 'a' <= digits[j] <= 'f')
  }

  lemma {:induction false} NumeralCase(n: nat, base: nat, upper: bool)
    requires base == 8 || base == 10 || base == 16
    ensures forall j :: 0 <= j < |Numeral(n, base, upper)| ==>
      var c := Numeral(n, base, upper)[j]; IsDecimal(c) || (base == 16 && if upper then 'A' <= c <= 'F' else 'a' <= c <= 'f')
  {
    if n > 0 {
      Smaller(n, base);
      NumeralCase(n / base, base, upper);
      DigitCase(n % base, base, upper);
    }
  }

  lemma DigitCase(d: nat, base: nat, upper: bool)
    requires d < base && (base == 8 || base == 10 || base == 16)
    ensures var c := Digit(d, upper); IsDecimal(c) || (base == 16 && if upper then 'A' <= c <= 'F' else 'a' <= c <= 'f')
  {}

  lemma NumeralDenotes(n: nat, base: nat, upper: bool)
    requires base == 8 || base == 10 || base == 16
    ensures n > 0 ==> Denotes(Numeral(n, base, upper), n, base, upper)
    ensures Denotes("0", 0, base, upper)
  {
    hide Numeral, Digits, Value, IsDecimal;
    ReadsBack(n, base, upper);
    NumeralCase(n, base, upper);
    ZeroDenotes(base, upper);
  }

  lemma ZeroDenotes(base: nat, upper: bool)
    ensures Denotes("0", 0, base, upper)
  {
    ValueZero(base);
    hide Value;
  }

  lemma ValueZero(base: nat)
    ensures Value("0", base) == 0
  {
    assert "0"[..0] == [];
    assert Value([], base) == 0;
  }

  // The field of a conversion whose precision is met by its digits.
  lemma FieldPadded(sp: Spec, prefix: seq<char>, digits: seq<char>, zeroPad: bool)
    requires |prefix| + |digits| < WORD && (sp.hasPrecision ==> sp.precision <= |digits|)
    ensures Padded(FieldText(sp, prefix, digits, zeroPad), prefix + digits, sp.width, sp.flags.leftAdjust,
                   if zeroPad && !sp.hasPrecision then '0' else ' ')
  {
    var body := prefix + digits;
    assert Zeros(sp, |digits|) == 0;
    assert prefix + Rep('0', 0) + digits == body;
    var pad := if sp.hasPrecision || !zeroPad then ' ' else '0';
    var text := FieldText(sp, prefix, digits, zeroPad);
    if |body| < sp.width {
      var n := sp.width - |body|;
      if sp.flags.leftAdjust {
        assert text == body + Rep(' ', n);
      } else {
        assert text == Rep(pad, n) + body;
      }
    } else {
      assert text == body + [] == body;
    }
  }

  // the conversion standing at i, and the rest of the format
  lemma OneConversion(format: seq<char>, i: nat, d: Directive, args: seq<Arg>, k: nat)
    requires Stands(format, i, Written(d)) && WellFormed(d) && StarsGiven(d, args, k)
    ensures var next := LayoutOf(d, args, k).arg + if Conversion(d.conv) then 1 else 0;
      FormatText(format, i, args, k) == ConvText(SpecFrom(format, i + 1, args, k), args) + FormatText(format, i + |Written(d)|, args, next)
  {
    hide *;
    SpecReads(format, i, d, args, k);
    ConversionTakes(SpecFrom(format, i + 1, args, k), d, LayoutOf(d, args, k));
    ConversionStep(format, i, args, k);
  }

  lemma ConversionTakes(sp: Spec, d: Directive, m: Layout)
    requires ReadAs(sp, d, m)
    ensures ArgAfter(sp) == m.arg + if Conversion(d.conv) then 1 else 0
  {}

  lemma ConversionStep(format: seq<char>, i: nat, args: seq<Arg>, k: nat)
    requires At(format, i) == '%' && At(format, i + 1) != '%'
    ensures var sp := SpecFrom(format, i + 1, args, k);
      FormatText(format, i, args, k) == ConvText(sp, args) + FormatText(format, sp.next, args, ArgAfter(sp))
  {
    hide SpecFrom, ConvText, ArgAfter;
  }

  // ---------------- unsigned conversions ----------------

  // what %u, %o, %x and %X read
  ghost predicate TakesUnsigned(d: Directive, a: Arg) {
    if d.length == "ll" then a.DoubleWord? && a.ww < 0x1_0000_0000_0000_0000 else a.Word? && a.w < 0x1_0000_0000
  }

  // the argument cut to the length written
  function UnsignedOf(d: Directive, a: Arg): nat {
    match a
    case DoubleWord(w) => w
    case Word(w) => if d.length == "h" then w % 0x1_0000 else if d.length == "hh" then w % 0x100 else w
    case _ => 0
  }

  function BaseOf(conv: char): nat { if conv == 'o' then 8 else if conv == 'u' then 10 else 16 }

  // what stands in front of the digits of n
  function PrefixFor(d: Directive, n: nat): seq<char> {
    if '#' !in d.flags || d.conv == 'u' || (n == 0 && !(d.length == "ll" && d.precise)) then ""
    else if d.conv == 'o' then "0" else if d.conv == 'x' then "0x" else "0X"
  }

  function PadOf(d: Directive): char { if '0' in d.flags && !d.precise then '0' else ' ' }

  // %u, %o, %x and %X print the argument, cut to the length written, in base 10, 8, 16 and 16, with
  // lower-case letters for x and upper-case ones for X; zero under a precision has no digits. A #
  // puts 0, 0x or 0X in front. Shorter than the width, the field is padded behind with - and in
  // front without, then with zeros when 0 is written and no precision is. A precision that asks
  // for more digits than there are comes out as Overlong says.
  lemma UnsignedPrints(format: seq<char>, i: nat, d: Directive, args: seq<Arg>, k: nat) returns (digits: seq<char>, text: seq<char>)
    requires Stands(format, i, Written(d)) && WellFormed(d) && StarsGiven(d, args, k)
    requires d.conv == 'u' || d.conv == 'o' || d.conv == 'x' || d.conv == 'X'
    requires var m := LayoutOf(d, args, k); m.arg < |args| && TakesUnsigned(d, args[m.arg])
    ensures var m := LayoutOf(d, args, k);
      FormatText(format, i, args, k) == text + FormatText(format, i + |Written(d)|, args, m.arg + 1)
    ensures var m := LayoutOf(d, args, k); UnsignedShown(d, m, UnsignedOf(d, args[m.arg]), digits, text)
  {
    assert Conversion(d.conv);
    hide *;
    SpecReads(format, i, d, args, k);
    OneConversion(format, i, d, args, k);
    digits, text := UnsignedField(SpecFrom(format, i + 1, args, k), d, LayoutOf(d, args, k), args);
  }

  ghost predicate UnsignedShown(d: Directive, m: Layout, n: nat, digits: seq<char>, text: seq<char>) {
    && (if n == 0 && d.precise then digits == [] else Denotes(digits, n, BaseOf(d.conv), d.conv == 'X'))
    && Laid(d, m, PrefixFor(d, n), digits, PadOf(d), text)
  }

  // prefix and digits laid out as width and precision ask for
  ghost predicate Laid(d: Directive, m: Layout, prefix: seq<char>, digits: seq<char>, pad: char, text: seq<char>) {
    if d.precise && m.precision > |digits| then Overlong(text, prefix, digits, m.width, m.left)
    else Padded(text, prefix + digits, m.width, m.left, pad)
  }

  lemma LaidField(sp: Spec, d: Directive, m: Layout, prefix: seq<char>, digits: seq<char>, zeroPad: bool)
    requires ReadAs(sp, d, m) && |prefix| <= 2 && |digits| <= 22
    ensures Laid(d, m, prefix, digits, if zeroPad && !d.precise then '0' else ' ', FieldText(sp, prefix, digits, zeroPad))
  {
    hide FieldText, Padded, Overlong;
    if d.precise && m.precision > |digits| { FieldOverlong(sp, prefix, digits, zeroPad); } else { FieldPadded(sp, prefix, digits, zeroPad); }
  }

  lemma UnsignedField(sp: Spec, d: Directive, m: Layout, args: seq<Arg>) returns (digits: seq<char>, text: seq<char>)
    requires ReadAs(sp, d, m) && (d.conv == 'u' || d.conv == 'o' || d.conv == 'x' || d.conv == 'X')
    requires m.arg < |args| && TakesUnsigned(d, args[m.arg])
    ensures text == ConvText(sp, args) && UnsignedShown(d, m, UnsignedOf(d, args[m.arg]), digits, text)
  {
    hide FieldText, Laid, Numeral, Value, Denotes;
    var n, r := UnsignedNumber(sp, args[m.arg]), RadixOf(d.conv);
    assert n == UnsignedOf(d, args[m.arg]) && n < WIDE && Base(r) == BaseOf(d.conv) && (r == HEX <==> d.conv == 'X');
    digits := DigitsOf(n, r, d.precise);
    text := ConvText(sp, args);
    NumeralDenotes(n, Base(r), r == HEX);
    NumeralShort(n, Base(r), r == HEX);
    var prefix := PrefixOf(Alternative(sp, n, r), r);
    assert prefix == PrefixFor(d, n);
    LaidField(sp, d, m, prefix, digits, sp.flags.zeroPad);
  }

  // ---------------- %d and %i ----------------

  // the argument cut to the length written, in two's complement
  function SignedOf(d: Directive, a: Arg): int {
    var w := UnsignedOf(d, a);
    var half := if d.length == "ll" then 0x8000_0000_0000_0000 else if d.length == "h" then 0x8000
                else if d.length == "hh" then 0x80 else 0x8000_0000;
    if w < half then w else w - 2 * half
  }

  function SignFor(d: Directive, n: int): seq<char> {
    if n < 0 then "-" else if '+' in d.flags then "+" else if ' ' in d.flags then " " else ""
  }

  // %d and %i print a minus sign for a negative argument, else what + or a blank asks for, and
  // its absolute value in base 10.
  lemma SignedPrints(format: seq<char>, i: nat, d: Directive, args: seq<Arg>, k: nat) returns (digits: seq<char>, text: seq<char>)
    requires Stands(format, i, Written(d)) && WellFormed(d) && StarsGiven(d, args, k) && (d.conv == 'd' || d.conv == 'i')
    requires var m := LayoutOf(d, args, k); m.arg < |args| && TakesUnsigned(d, args[m.arg])
    ensures var m := LayoutOf(d, args, k);
      FormatText(format, i, args, k) == text + FormatText(format, i + |Written(d)|, args, m.arg + 1)
    ensures var m := LayoutOf(d, args, k); SignedShown(d, m, SignedOf(d, args[m.arg]), digits, text)
  {
    assert Conversion(d.conv);
    hide *;
    SpecReads(format, i, d, args, k);
    OneConversion(format, i, d, args, k);
    digits, text := SignedField(SpecFrom(format, i + 1, args, k), d, LayoutOf(d, args, k), args);
  }

  ghost predicate SignedShown(d: Directive, m: Layout, n: int, digits: seq<char>, text: seq<char>) {
    && (if n == 0 && d.precise then digits == [] else Denotes(digits, Abs(n), 10, false))
    && Laid(d, m, SignFor(d, n), digits, PadOf(d), text)
  }

  lemma SignedField(sp: Spec, d: Directive, m: Layout, args: seq<Arg>) returns (digits: seq<char>, text: seq<char>)
    requires ReadAs(sp, d, m) && (d.conv == 'd' || d.conv == 'i') && m.arg < |args| && TakesUnsigned(d, args[m.arg])
    ensures text == ConvText(sp, args) && SignedShown(d, m, SignedOf(d, args[m.arg]), digits, text)
  {
    hide FieldText, Laid, Numeral, Value, Denotes;
    var n := SignedNumber(sp, args[m.arg]);
    assert n == SignedOf(d, args[m.arg]) && Abs(n) < WIDE;
    digits := DigitsOf(Abs(n), Decimal, d.precise);
    text := ConvText(sp, args);
    NumeralDenotes(Abs(n), 10, false);
    NumeralShort(Abs(n), 10, false);
    assert SignOf(sp.flags, n < 0) == SignFor(d, n);
    LaidField(sp, d, m, SignFor(d, n), digits, sp.flags.zeroPad);
  }

  // ---------------- the others ----------------

  // %p prints 0x and the argument in base 16, or (nil).
  lemma PointerPrints(format: seq<char>, i: nat, d: Directive, args: seq<Arg>, k: nat) returns (shown: seq<char>, text: seq<char>)
    requires Stands(format, i, Written(d)) && WellFormed(d) && StarsGiven(d, args, k) && d.conv == 'p' && IsWord(args, LayoutOf(d, args, k).arg)
    ensures var m := LayoutOf(d, args, k);
      FormatText(format, i, args, k) == text + FormatText(format, i + |Written(d)|, args, m.arg + 1)
    ensures var m := LayoutOf(d, args, k); PointerShown(d, m, args[m.arg].w, shown, text)
  {
    assert LayoutOf(d, args, k).arg < |args|;
    assert Conversion(d.conv);
    hide *;
    SpecReads(format, i, d, args, k);
    OneConversion(format, i, d, args, k);
    shown, text := PointerField(SpecFrom(format, i + 1, args, k), d, LayoutOf(d, args, k), args);
  }

  ghost predicate PointerShown(d: Directive, m: Layout, n: nat, shown: seq<char>, text: seq<char>) {
    if n > 0 then Denotes(shown, n, 16, false) && Laid(d, m, "0x", shown, PadOf(d), text)
    else shown == "(nil)" && Laid(d, m, "", shown, ' ', text)
  }

  lemma PointerField(sp: Spec, d: Directive, m: Layout, args: seq<Arg>) returns (shown: seq<char>, text: seq<char>)
    requires ReadAs(sp, d, m) && d.conv == 'p' && IsWord(args, m.arg)
    ensures text == ConvText(sp, args) && PointerShown(d, m, args[m.arg].w, shown, text)
  {
    hide FieldText, Laid, Numeral, Value, Denotes;
    var n := args[m.arg].w;
    shown := if n > 0 then Numeral(n, 16, false) else "(nil)";
    var prefix, zeroPad := if n > 0 then "0x" else "", n > 0 && sp.flags.zeroPad;
    text := ConvText(sp, args);
    assert text == FieldText(sp, prefix, shown, zeroPad);
    NumeralDenotes(n, 16, false);
    NumeralShort(n, 16, false);
    LaidField(sp, d, m, prefix, shown, zeroPad);
  }

  // %c prints the character whose code is the argument's low byte, and %s the string.
  lemma TextPrints(format: seq<char>, i: nat, d: Directive, args: seq<Arg>, k: nat) returns (text: seq<char>)
    requires Stands(format, i, Written(d)) && WellFormed(d) && StarsGiven(d, args, k) && (d.conv == 'c' || d.conv == 's')
    requires var m := LayoutOf(d, args, k); m.arg < |args| && if d.conv == 'c' then args[m.arg].Word? else args[m.arg].Text?
    ensures var m := LayoutOf(d, args, k);
      FormatText(format, i, args, k) == text + FormatText(format, i + |Written(d)|, args, m.arg + 1)
    ensures var m := LayoutOf(d, args, k); var a := args[m.arg];
      Padded(text, if d.conv == 'c' then [(a.w % 0x100) as char] else a.s, m.width, m.left, ' ')
  {
    assert Conversion(d.conv);
    hide *;
    SpecReads(format, i, d, args, k);
    OneConversion(format, i, d, args, k);
    text := ConvText(SpecFrom(format, i + 1, args, k), args);
    TextField(SpecFrom(format, i + 1, args, k), d, LayoutOf(d, args, k), args);
  }

  lemma TextField(sp: Spec, d: Directive, m: Layout, args: seq<Arg>)
    requires ReadAs(sp, d, m) && (d.conv == 'c' || d.conv == 's') && m.arg < |args|
    requires if d.conv == 'c' then args[m.arg].Word? else args[m.arg].Text?
    ensures var a := args[m.arg];
      Padded(ConvText(sp, args), if d.conv == 'c' then [(a.w % 0x100) as char] else a.s, m.width, m.left, ' ')
  {
    hide Value;
  }

  // Other characters stand for themselves, %% for a percent sign, and %n prints nothing.
  lemma PlainPrints(format: seq<char>, i: nat, args: seq<Arg>, k: nat)
    requires i < |format| && format[i] != '\0'
    ensures format[i] != '%' ==> FormatText(format, i, args, k) == [format[i]] + FormatText(format, i + 1, args, k)
    ensures format[i] == '%' && i + 1 < |format| && format[i + 1] == '%' ==> FormatText(format, i, args, k) == "%" + FormatText(format, i + 2, args, k)
  {}

  // A conversion with %n, or a character that stands for none, prints nothing; the latter takes no
  // argument.
  lemma NothingPrints(format: seq<char>, i: nat, d: Directive, args: seq<Arg>, k: nat)
    requires Stands(format, i, Written(d)) && WellFormed(d) && StarsGiven(d, args, k) && (d.conv == 'n' || !Conversion(d.conv))
    ensures var next := LayoutOf(d, args, k).arg + if d.conv == 'n' then 1 else 0;
      FormatText(format, i, args, k) == FormatText(format, i + |Written(d)|, args, next)
  {
    assert d.conv == 'n' ==> Conversion(d.conv);
    hide *;
    SpecReads(format, i, d, args, k);
    OneConversion(format, i, d, args, k);
    var m := LayoutOf(d, args, k);
    NoText(SpecFrom(format, i + 1, args, k), d, m, args);
    var next := m.arg + if d.conv == 'n' then 1 else 0;
    assert [] + FormatText(format, i + |Written(d)|, args, next) == FormatText(format, i + |Written(d)|, args, next);
  }

  lemma NoText(sp: Spec, d: Directive, m: Layout, args: seq<Arg>)
    requires ReadAs(sp, d, m) && (d.conv == 'n' || !Conversion(d.conv))
    ensures ConvText(sp, args) == []
  {}

  // ---------------- %n ----------------

  // A %n reached with room left stores the number of characters printed so far, and no other
  // conversion stores anything; n characters are printed in front of i.
  lemma CountsRead(format: seq<char>, i: nat, d: Directive, args: seq<Arg>, k: nat, n: nat, max: nat)
    requires Stands(format, i, Written(d)) && WellFormed(d) && StarsGiven(d, args, k) && n < max
    ensures var next := LayoutOf(d, args, k).arg + if Conversion(d.conv) then 1 else 0;
      var here, rest := FormatText(format, i, args, k), FormatText(format, i + |Written(d)|, args, next);
      && |here| >= |rest|
      && Counts(format, i, args, k, n, max)
         == (if d.conv == 'n' then [n] else []) + Counts(format, i + |Written(d)|, args, next, n + |here| - |rest|, max)
  {
    hide *;
    SpecReads(format, i, d, args, k);
    OneConversion(format, i, d, args, k);
    var sp := SpecFrom(format, i + 1, args, k);
    ConversionTakes(sp, d, LayoutOf(d, args, k));
    ConvIs(sp, d, LayoutOf(d, args, k));
    CountsStep(format, i, args, k, n, max);
  }

  lemma ConvIs(sp: Spec, d: Directive, m: Layout)
    requires ReadAs(sp, d, m)
    ensures sp.conv == d.conv
  {}

  lemma CountsStep(format: seq<char>, i: nat, args: seq<Arg>, k: nat, n: nat, max: nat)
    requires At(format, i) == '%' && At(format, i + 1) != '%' && n < max
    ensures var sp := SpecFrom(format, i + 1, args, k);
      Counts(format, i, args, k, n, max) == (if sp.conv == 'n' then [n] else []) + Counts(format, sp.next, args, ArgAfter(sp), n + |ConvText(sp, args)|, max)
  {
    hide SpecFrom, ConvText, ArgAfter;
  }

  // Plain characters and %% store nothing.
  lemma PlainCounts(format: seq<char>, i: nat, args: seq<Arg>, k: nat, n: nat, max: nat)
    requires i < |format| && format[i] != '\0' && n < max
    ensures format[i] != '%' ==> Counts(format, i, args, k, n, max) == Counts(format, i + 1, args, k, n + 1, max)
    ensures format[i] == '%' && i + 1 < |format| && format[i + 1] == '%' ==> Counts(format, i, args, k, n, max) == Counts(format, i + 2, args, k, n + 1, max)
  {}

  // Nothing is printed or stored from the format's end on, nor stored when the room is used up.
  lemma EndPrints(format: seq<char>, i: nat, args: seq<Arg>, k: nat, n: nat, max: nat)
    ensures i >= |format| || format[i] == '\0' ==> FormatText(format, i, args, k) == [] && Counts(format, i, args, k, n, max) == []
    ensures n >= max ==> Counts(format, i, args, k, n, max) == []
  {}
}
