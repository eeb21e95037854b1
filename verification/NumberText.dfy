/** The text of a number with printf flags, and its reading back. */
module NumberText {
  import opened Powers

  const ZEROPAD: bv8 := 1
  const SIGN: bv8 := 2
  const PLUS: bv8 := 4
  const SPACE: bv8 := 8
  const LEFT: bv8 := 16
  const SPECIAL: bv8 := 32
  const SMALL: bv8 := 64

  predicate Has(flags: bv8, flag: bv8) {
    flags & flag != 0
  }

  const INT_LIMIT: int := 0x8000_0000
  const WORD: int := 0x1_0000_0000

  predicate IsInt(x: int) {
    -INT_LIMIT <= x < INT_LIMIT
  }

  /** A 32-bit int read as an unsigned one. */
  function Unsigned(x: int): (u: nat)
    requires IsInt(x)
    ensures u < WORD
  {
    if x < 0 then x + WORD else x
  }

  /** An unsigned 32-bit value read as an int, and the negation of an int: the most
      negative one stays as it is. */
  function Signed(u: nat): (x: int)
    requires u < WORD
    ensures IsInt(x) && Unsigned(x) == u
  {
    if u < INT_LIMIT then u else u - WORD
  }

  function Negated(x: int): (r: int)
    requires IsInt(x)
    ensures IsInt(r)
  {
    if x == -INT_LIMIT then x else -x
  }

  function Repeat(c: char, n: int): (s: string)
    ensures |s| == (if n > 0 then n else 0)
    ensures forall k :: 0 <= k < |s| ==> s[k] == c
  {
    seq(if n > 0 then n else 0, _ => c)
  }

  function Max(a: int, b: int): int {
    if a > b then a else b
  }

  const UPPER: string := "0123456789ABCDEFGHIJKLMNOPQRSTUVWXYZ"
  const LOWER: string := "0123456789abcdefghijklmnopqrstuvwxyz"

  function DigitTable(flags: bv8): (t: string)
    ensures |t| == 36
  {
    if Has(flags, SMALL) then LOWER else UPPER
  }

  /** The digits of m, most significant first; 0 has one digit. */
  function Digits(m: nat, base: nat, table: string): (s: string)
    requires 2 <= base <= 36 && |table| == 36
    ensures |s| >= 1
  {
    if m < base then [table[m]]
    else
      DivSmaller(m, base);
      Digits(m / base, base, table) + [table[m % base]]
  }

  /** The value whose digits are printed: negative numbers count as unsigned words unless
      a sign is asked for. */
  function Magnitude(num: int, flags: bv8): (m: nat)
    requires IsInt(num)
    ensures m < WORD
  {
    if Has(flags, SIGN) && num < 0 then -num else Unsigned(num)
  }

  function SignText(num: int, flags: bv8): string {
    if Has(flags, SIGN) && num < 0 then "-"
    else if Has(flags, PLUS) then "+"
    else if Has(flags, SPACE) then " "
    else ""
  }

  function PrefixText(base: nat, flags: bv8): string {
    if !Has(flags, SPECIAL) then ""
    else if base == 8 then "0"
    else if base == 16 then if Has(flags, SMALL) then "0x" else "0X"
    else ""
  }

  /** Sign, prefix, digits with leading zeros up to the precision; and around or inside
      that the padding up to the width. */
  function Layout(sign: string, prefix: string, digits: string, size: int, precision: int,
                  left: bool, zeropad: bool): string
  {
    var number := Repeat('0', precision - |digits|) + digits;
    var pad := size - |sign| - |prefix| - |number|;
    if left then sign + prefix + number + Repeat(' ', pad)
    else if zeropad then sign + prefix + Repeat('0', pad) + number
    else Repeat(' ', pad) + sign + prefix + number
  }

  function Text(num: int, base: nat, size: int, precision: int, flags: bv8): string
    requires IsInt(num) && 2 <= base <= 36
  {
    Layout(SignText(num, flags), PrefixText(base, flags), Digits(Magnitude(num, flags), base, DigitTable(flags)),
           size, precision, Has(flags, LEFT), Has(flags, ZEROPAD))
  }

  // ----- Length -----

  /** The text is as long as the width or as what has to be shown, whichever is more. */
  lemma TextLength(num: int, base: nat, size: int, precision: int, flags: bv8)
    requires IsInt(num) && 2 <= base <= 36
    ensures var digits := Digits(Magnitude(num, flags), base, DigitTable(flags));
            |Text(num, base, size, precision, flags)| ==
              Max(size, |SignText(num, flags)| + |PrefixText(base, flags)| + Max(precision, |digits|))
  {
  }

  lemma {:induction false} DigitCount(m: nat, base: nat, table: string, k: nat)
    requires 2 <= base <= 36 && |table| == 36 && m < Pow2(k) && k >= 1
    ensures |Digits(m, base, table)| <= k
  {
    if m >= base {
      assert k > 1 && Pow2(k) == 2 * Pow2(k - 1);
      DivMonotonic(m, 2, base);
      DigitCount(m / base, base, table, k - 1);
    }
  }

  lemma DivMonotonic(m: nat, a: nat, b: nat)
    requires 0 < a <= b
    ensures m / b <= m / a
  {
    var q := m / b;
    assert q * a <= q * b <= m;
    DivAtLeast(m, a, q);
  }

  lemma DivSmaller(m: nat, base: nat)
    requires 2 <= base <= m
    ensures m / base < m
  {
    DivMonotonic(m, 2, base);
  }

  lemma DivAtLeast(m: nat, a: nat, q: nat)
    requires a > 0 && q * a <= m
    ensures q <= m / a
  {
    assert (m / a + 1) * a > m;
    LessFactor(q, m / a + 1, a);
  }

  lemma LessFactor(x: nat, y: nat, a: nat)
    requires a > 0 && x * a < y * a
    ensures x < y
  {
  }

  /** A 32-bit value has at most 32 digits in any base. */
  lemma AtMost32Digits(m: nat, base: nat, table: string)
    requires 2 <= base <= 36 && |table| == 36 && m < WORD
    ensures |Digits(m, base, table)| <= 32
  {
    assert Pow2(8) == 256;
    assert Pow2(16) == 65536;
    assert Pow2(24) == 0x100_0000;
    assert Pow2(32) == WORD;
    DigitCount(m, base, table, 32);
  }

  // ----- Reading back -----

  function DigitValue(c: char): int {
    if '0' <= c <= '9' then c as int - '0' as int
    else if 'A' <= c <= 'Z' then c as int - 'A' as int + 10
    else if 'a' <= c <= 'z' then c as int - 'a' as int + 10
    else 36
  }

  predicate IsDigit(c: char, base: nat) {
    DigitValue(c) < base
  }

  function Value(s: string, base: nat): int {
    if s == "" then 0 else Value(s[..|s|-1], base) * base + DigitValue(s[|s|-1])
  }

  function SkipSpaces(s: string): (r: string)
    ensures |r| <= |s|
  {
    if s != "" && s[0] == ' ' then SkipSpaces(s[1..]) else s
  }

  function LeadingDigits(s: string, base: nat): string {
    if s != "" && IsDigit(s[0], base) then [s[0]] + LeadingDigits(s[1..], base) else ""
  }

  /** Skips spaces, reads a sign, skips the prefix the flags announce, reads digits. */
  function ReadBack(text: string, base: nat, flags: bv8): int {
    var s := SkipSpaces(text);
    var negative := s != "" && s[0] == '-';
    var t := if s != "" && (s[0] == '-' || s[0] == '+') then s[1..] else s;
    var p := |PrefixText(base, flags)|;
    var v := Value(LeadingDigits(if p <= |t| then t[p..] else t, base), base);
    if negative then -v else v
  }

  lemma UpperDigit(d: nat)
    requires d < 36
    ensures DigitValue(UPPER[d]) == d
  {
  }

  lemma LowerDigit(d: nat)
    requires d < 36
    ensures DigitValue(LOWER[d]) == d
  {
  }

  lemma DigitOfTable(d: nat, flags: bv8)
    requires d < 36
    ensures DigitValue(DigitTable(flags)[d]) == d
  {
    hide DigitValue, Has;
    UpperDigit(d);
    LowerDigit(d);
  }

  lemma TableDigit(d: nat, base: nat, flags: bv8)
    requires d < base <= 36
    ensures IsDigit(DigitTable(flags)[d], base)
  {
    DigitOfTable(d, flags);
  }

  lemma {:induction false} ValueOfDigits(m: nat, base: nat, flags: bv8)
    requires 2 <= base <= 36
    ensures var s := Digits(m, base, DigitTable(flags));
            Value(s, base) == m && forall k :: 0 <= k < |s| ==> IsDigit(s[k], base)
  {
    hide DigitTable, IsDigit, DigitValue;
    var table := DigitTable(flags);
    var s := Digits(m, base, table);
    if m < base {
      DigitOfTable(m, flags);
      TableDigit(m, base, flags);
      assert s == [table[m]];
      assert Value(s[..0], base) == 0;
    } else {
      DivSmaller(m, base);
      ValueOfDigits(m / base, base, flags);
      DigitOfTable(m % base, flags);
      TableDigit(m % base, base, flags);
      assert s[..|s|-1] == Digits(m / base, base, table);
      LastDigit(m, base);
      assert Value(s, base) == Value(s[..|s|-1], base) * base + DigitValue(table[m % base]);
    }
  }

  lemma LastDigit(m: nat, base: nat)
    requires base > 0
    ensures m == m / base * base + m % base
  {
  }

  lemma {:induction false} ValueOfZeros(n: nat, s: string, base: nat)
    ensures Value(Repeat('0', n) + s, base) == Value(s, base)
  {
    var t := Repeat('0', n) + s;
    if s != "" {
      assert t[..|t|-1] == Repeat('0', n) + s[..|s|-1];
      ValueOfZeros(n, s[..|s|-1], base);
    } else if n > 0 {
      assert t[..|t|-1] == Repeat('0', n - 1) + s;
      ValueOfZeros(n - 1, s, base);
    }
  }

  lemma {:induction false} SkipRepeated(n: nat, s: string)
    ensures SkipSpaces(Repeat(' ', n) + s) == SkipSpaces(s)
  {
    if n > 0 {
      assert (Repeat(' ', n) + s)[1..] == Repeat(' ', n - 1) + s;
      SkipRepeated(n - 1, s);
    } else {
      assert Repeat(' ', n) + s == s;
    }
  }

  lemma {:induction false} LeadingOfDigits(s: string, rest: string, base: nat)
    requires forall k :: 0 <= k < |s| ==> IsDigit(s[k], base)
    requires rest != "" ==> !IsDigit(rest[0], base)
    ensures LeadingDigits(s + rest, base) == s
  {
    if s == "" {
      assert s + rest == rest;
    } else {
      assert (s + rest)[1..] == s[1..] + rest;
      LeadingOfDigits(s[1..], rest, base);
    }
  }

  /** A layout is blanks, sign, prefix, zeros, digits, blanks, and at most one of the
      paddings is used. */
  lemma LayoutShape(sign: string, prefix: string, digits: string, size: int, precision: int, left: bool, zeropad: bool)
    returns (a: nat, z: nat, b: nat)
    ensures Layout(sign, prefix, digits, size, precision, left, zeropad) ==
            Repeat(' ', a) + (sign + (prefix + (Repeat('0', z) + digits + Repeat(' ', b))))
    ensures (a > 0 ==> b == 0) && (a > 0 || b > 0 ==> z == Max(0, precision - |digits|))
    ensures (left ==> a == 0) && (!left ==> b == 0) && (!left && zeropad ==> a == 0)
    ensures left || !zeropad ==> z == Max(0, precision - |digits|)
    ensures a + z + b == Max(Max(0, precision - |digits|), size - |sign| - |prefix| - |digits|)
  {
    hide Repeat, Layout;
    z := Max(0, precision - |digits|);
    var pad := Max(0, size - |sign| - |prefix| - z - |digits|);
    a, b := 0, 0;
    if left {
      b := pad;
      ShapeLeft(sign, prefix, digits, size, precision, zeropad);
    } else if zeropad {
      ShapeZeros(sign, prefix, digits, size, precision);
      z := z + pad;
    } else {
      a := pad;
      ShapeRight(sign, prefix, digits, size, precision);
    }
  }

  lemma ShapeLeft(sign: string, prefix: string, digits: string, size: int, precision: int, zeropad: bool)
    ensures var z := Max(0, precision - |digits|);
            var pad := Max(0, size - |sign| - |prefix| - z - |digits|);
            Layout(sign, prefix, digits, size, precision, true, zeropad) ==
              Repeat(' ', 0) + (sign + (prefix + (Repeat('0', z) + digits + Repeat(' ', pad))))
  {
    hide Repeat;
    var gap := precision - |digits|;
    NoneRepeated('0', gap);
    NoneRepeated(' ', size - |sign| - |prefix| - Max(0, gap) - |digits|);
    NoneRepeated(' ', 0);
    Reassociate("", sign, prefix, Repeat('0', gap), digits,
                Repeat(' ', size - |sign| - |prefix| - Max(0, gap) - |digits|));
  }

  lemma ShapeZeros(sign: string, prefix: string, digits: string, size: int, precision: int)
    ensures var z := Max(0, precision - |digits|);
            var pad := Max(0, size - |sign| - |prefix| - z - |digits|);
            Layout(sign, prefix, digits, size, precision, false, true) ==
              Repeat(' ', 0) + (sign + (prefix + (Repeat('0', z + pad) + digits + Repeat(' ', 0))))
  {
    hide Repeat, Layout;
    var z := Max(0, precision - |digits|);
    var pad := Max(0, size - |sign| - |prefix| - z - |digits|);
    LayoutOfZeros(sign, prefix, digits, size, precision);
    NoneRepeated(' ', 0);
    RepeatedTwice('0', pad, z);
    Inserted(sign + prefix, Repeat('0', pad), Repeat('0', z), digits);
    Reassociate("", sign, prefix, Repeat('0', pad + z), digits, "");
  }

  lemma LayoutOfZeros(sign: string, prefix: string, digits: string, size: int, precision: int)
    ensures var z := Max(0, precision - |digits|);
            var pad := Max(0, size - |sign| - |prefix| - z - |digits|);
            Layout(sign, prefix, digits, size, precision, false, true) ==
              sign + prefix + Repeat('0', pad) + (Repeat('0', z) + digits)
  {
    hide Repeat;
    NoneRepeated('0', precision - |digits|);
    NoneRepeated('0', size - |sign| - |prefix| - Max(0, precision - |digits|) - |digits|);
  }

  lemma ShapeRight(sign: string, prefix: string, digits: string, size: int, precision: int)
    ensures var z := Max(0, precision - |digits|);
            var pad := Max(0, size - |sign| - |prefix| - z - |digits|);
            Layout(sign, prefix, digits, size, precision, false, false) ==
              Repeat(' ', pad) + (sign + (prefix + (Repeat('0', z) + digits + Repeat(' ', 0))))
  {
    hide Repeat;
    var z := Max(0, precision - |digits|);
    NoneRepeated('0', precision - |digits|);
    NoneRepeated(' ', size - |sign| - |prefix| - z - |digits|);
    NoneRepeated(' ', 0);
    Reassociate(Repeat(' ', size - |sign| - |prefix| - z - |digits|), sign, prefix, Repeat('0', z), digits, "");
  }

  lemma Inserted(front: string, a: string, b: string, tail: string)
    ensures front + a + (b + tail) == front + ((a + b) + tail)
  {
  }

  lemma NoneRepeated(c: char, n: int)
    ensures n <= 0 ==> Repeat(c, n) == ""
    ensures Repeat(c, n) == Repeat(c, Max(0, n))
  {
  }

  lemma RepeatedTwice(c: char, n: nat, m: nat)
    ensures Repeat(c, n) + Repeat(c, m) == Repeat(c, n + m)
  {
  }

  lemma Reassociate(lead: string, sign: string, prefix: string, zeros: string, digits: string, tail: string)
    ensures lead + sign + prefix + (zeros + digits) + tail == lead + (sign + (prefix + (zeros + digits + tail)))
    ensures sign + prefix + (zeros + digits) + tail == "" + (sign + (prefix + (zeros + digits + tail)))
    ensures lead + sign + prefix + (zeros + digits) == lead + (sign + (prefix + (zeros + digits + "")))
    ensures sign + prefix + (zeros + digits) == "" + (sign + (prefix + (zeros + digits + "")))
  {
  }

  /** The round trip: what number prints reads back as the number, or, when no sign is
      asked for, as the unsigned word. */
  lemma RoundTrip(num: int, base: nat, size: int, precision: int, flags: bv8)
    requires IsInt(num) && 2 <= base <= 36
    ensures ReadBack(Text(num, base, size, precision, flags), base, flags) ==
            if Has(flags, SIGN) then num else Unsigned(num)
  {
    hide Digits, DigitTable, Has, SignText, PrefixText, Layout, DigitValue;
    var m := Magnitude(num, flags);
    var digits := Digits(m, base, DigitTable(flags));
    var a, z, b := LayoutShape(SignText(num, flags), PrefixText(base, flags), digits, size, precision,
                               Has(flags, LEFT), Has(flags, ZEROPAD));
    var number, tail := Repeat('0', z) + digits, Repeat(' ', b);
    ValueOfDigits(m, base, flags);
    ValueOfZeros(z, digits, base);
    assert IsDigit('0', base) by { ZeroIsDigit(base); }
    NumberReads(number, tail, base);
    SkipRepeated(a, SignText(num, flags) + (PrefixText(base, flags) + (number + tail)));
    FrontReads(num, base, flags, number + tail);
  }

  lemma ZeroIsDigit(base: nat)
    requires base >= 2
    ensures IsDigit('0', base)
  {
  }

  lemma NumberReads(number: string, tail: string, base: nat)
    requires base <= 36 && forall k :: 0 <= k < |number| ==> IsDigit(number[k], base)
    requires forall k :: 0 <= k < |tail| ==> tail[k] == ' '
    ensures LeadingDigits(number + tail, base) == number
  {
    LeadingOfDigits(number, tail, base);
  }

  /** Skipping spaces and taking the sign off leaves the prefix and what follows. */
  lemma FrontReads(num: int, base: nat, flags: bv8, rest: string)
    requires base <= 36 && rest != "" && IsDigit(rest[0], base)
    ensures var s := SkipSpaces(SignText(num, flags) + (PrefixText(base, flags) + rest));
            var t := if s != "" && (s[0] == '-' || s[0] == '+') then s[1..] else s;
            && t == PrefixText(base, flags) + rest
            && t[|PrefixText(base, flags)|..] == rest
            && (s[0] == '-' <==> Has(flags, SIGN) && num < 0)
  {
    var sign, prefix := SignText(num, flags), PrefixText(base, flags);
    var t := prefix + rest;
    assert t[0] == if prefix == "" then rest[0] else '0';
    assert t[0] != ' ' && t[0] != '-' && t[0] != '+';
    assert SkipSpaces(t) == t;
    var s := sign + t;
    if sign == "" {
      assert s == t;
    } else {
      assert s[1..] == t;
    }
  }

  // ----- The text, part by part -----

  /** The digit characters in their order, letters in the case asked for. */
  lemma DigitCharacter(d: nat, flags: bv8)
    requires d < 36
    ensures d < 10 ==> DigitTable(flags)[d] == '0' + d as char
    ensures d >= 10 && flags & 64 != 0 ==> DigitTable(flags)[d] == 'a' + (d - 10) as char
    ensures d >= 10 && flags & 64 == 0 ==> DigitTable(flags)[d] == 'A' + (d - 10) as char
  {
  }

  predicate InCase(c: char, flags: bv8) {
    '0' <= c <= '9' || if Has(flags, SMALL) then 'a' <= c <= 'z' else 'A' <= c <= 'Z'
  }

  lemma TableInCase(d: nat, flags: bv8)
    requires d < 36
    ensures InCase(DigitTable(flags)[d], flags) && (DigitTable(flags)[d] == '0' ==> d == 0)
  {
    DigitCharacter(d, flags);
  }

  /** Only 0 is printed with a first digit 0. */
  lemma {:induction false} DigitsAre(m: nat, base: nat, flags: bv8)
    requires 2 <= base <= 36
    ensures var s := Digits(m, base, DigitTable(flags));
      (s[0] == '0' ==> m == 0) && forall k :: 0 <= k < |s| ==> InCase(s[k], flags)
  {
    hide DigitTable, InCase;
    if m < base {
      TableInCase(m, flags);
    } else {
      DivSmaller(m, base);
      DivAtLeast(m, base, 1);
      DigitsAre(m / base, base, flags);
      TableInCase(m % base, flags);
    }
  }

  /** What a printed number consists of: blanks, a sign, a prefix, zeros, digits and blanks. */
  datatype Parts = Parts(before: nat, sign: string, prefix: string, zeros: nat, digits: string, after: nat) {
    function Joined(): string {
      Repeat(' ', before) + (sign + (prefix + (Repeat('0', zeros) + digits + Repeat(' ', after))))
    }
  }

  /** The parts of every printed number: the digits, none too many and in one case, are its
      value in the base; sign and prefix are what the flags ask for; and the padding stands
      on the side the flags name. */
  lemma TextParts(num: int, base: nat, size: int, precision: int, flags: bv8) returns (p: Parts)
    requires IsInt(num) && 2 <= base <= 36
    ensures Text(num, base, size, precision, flags) == p.Joined()
    ensures Value(p.digits, base) == if Has(flags, SIGN) then (if num < 0 then -num else num) else Unsigned(num)
    ensures p.digits != "" && (p.digits[0] == '0' ==> Value(p.digits, base) == 0)
    ensures forall k :: 0 <= k < |p.digits| ==> InCase(p.digits[k], flags) && IsDigit(p.digits[k], base)
    ensures Has(flags, SIGN) && num < 0 ==> p.sign == "-"
    ensures !(Has(flags, SIGN) && num < 0) && Has(flags, PLUS) ==> p.sign == "+"
    ensures !(Has(flags, SIGN) && num < 0) && !Has(flags, PLUS) ==> p.sign == if Has(flags, SPACE) then " " else ""
    ensures Has(flags, SPECIAL) && base == 8 ==> p.prefix == "0"
    ensures Has(flags, SPECIAL) && base == 16 ==> p.prefix == if Has(flags, SMALL) then "0x" else "0X"
    ensures !Has(flags, SPECIAL) || (base != 8 && base != 16) ==> p.prefix == ""
    ensures Has(flags, LEFT) ==> p.before == 0
    ensures !Has(flags, LEFT) ==> p.after == 0 && (Has(flags, ZEROPAD) ==> p.before == 0)
    ensures Has(flags, LEFT) || !Has(flags, ZEROPAD) ==> p.zeros == Max(0, precision - |p.digits|)
    ensures p.before + p.zeros + p.after ==
      Max(Max(0, precision - |p.digits|), size - |p.sign| - |p.prefix| - |p.digits|)
  {
    hide Digits, DigitTable, Has, Layout, InCase, IsDigit, Value;
    var digits := Digits(Magnitude(num, flags), base, DigitTable(flags));
    var sign, prefix := SignText(num, flags), PrefixText(base, flags);
    var a, z, b := LayoutShape(sign, prefix, digits, size, precision, Has(flags, LEFT), Has(flags, ZEROPAD));
    ValueOfDigits(Magnitude(num, flags), base, flags);
    DigitsAre(Magnitude(num, flags), base, flags);
    p := Parts(a, sign, prefix, z, digits, b);
  }

  /** One case only, the prefix included. */
  lemma TextInCase(num: int, base: nat, size: int, precision: int, flags: bv8, c: char)
    requires IsInt(num) && 2 <= base <= 36 && c in Text(num, base, size, precision, flags)
    ensures Has(flags, SMALL) ==> !('A' <= c <= 'Z')
    ensures !Has(flags, SMALL) ==> !('a' <= c <= 'z')
  {
    hide Text, Has, Value, IsDigit;
    var p := TextParts(num, base, size, precision, flags);
    assert c == ' ' || c == '0' || c in p.sign || c in p.prefix || c in p.digits;
  }
}
