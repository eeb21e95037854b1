/** The kernel's number formatting, as it runs: one size counter carried through all the
    padding loops, and the digits produced backwards into a scratch buffer. */
module KernelPrintf {
  import opened NumberText
  import opened Options

  function Reversed(s: string): (r: string)
    ensures |r| == |s|
  {
    seq(|s|, k requires 0 <= k < |s| => s[|s| - 1 - k])
  }

  /** Pads with c as often as the counter says, which is left at -1, or one lower than it
      was when it was not positive. */
  method Fill(str: string, size: int, c: char) returns (out: string, left: int)
    ensures out == str + Repeat(c, size)
    ensures left == (if size > 0 then 0 else size) - 1
  {
    out, left := str, size;
    ghost var done := 0;
    while left > 0
      invariant done >= 0 && out == str + Repeat(c, done)
      invariant if size > 0 then left >= 0 && left + done == size else left == size && done == 0
    {
      out := out + [c];
      left := left - 1;
      assert Repeat(c, done) + [c] == Repeat(c, done + 1);
      done := done + 1;
    }
    left := left - 1;
  }

  /** divl: the word is divided as an unsigned one. */
  method DoDiv(n: int, base: nat) returns (q: int, r: nat)
    requires IsInt(n) && 2 <= base
    ensures IsInt(q) && Unsigned(q) == Unsigned(n) / base && r == Unsigned(n) % base
  {
    DivSmall(Unsigned(n), base);
    q := Signed(Unsigned(n) / base);
    r := Unsigned(n) % base;
  }

  lemma DivSmall(u: nat, base: nat)
    requires base >= 2
    ensures u / base <= u
  {
    DivMonotonic(u, 1, base);
  }

  /** The digits of the word, least significant first; at most 32 of the 36 places are used. */
  method PutDigits(num: int, base: nat, table: string) returns (tmp: array<char>, i: nat)
    requires IsInt(num) && 2 <= base <= 36 && |table| == 36 && table[0] == '0'
    ensures fresh(tmp) && tmp.Length == 36 && i <= 32
    ensures Reversed(tmp[..i]) == Digits(Unsigned(num), base, table)
  {
    tmp := new char[36](_ => '\0');
    i := 0;
    var n := num;
    AtMost32Digits(Unsigned(num), base, table);
    if n == 0 {
      tmp[i] := '0';
      i := i + 1;
      assert Reversed(tmp[..1]) == ['0'];
    } else {
      ghost var all := Digits(Unsigned(num), base, table);
      while n != 0
        invariant IsInt(n) && i <= |all|
        invariant n != 0 ==> all == Digits(Unsigned(n), base, table) + Reversed(tmp[..i])
        invariant n == 0 ==> all == Reversed(tmp[..i])
        decreases Unsigned(n)
      {
        ghost var m := Unsigned(n);
        ghost var before := tmp[..i];
        var q, r := DoDiv(n, base);
        DigitsStep(m, base, table, before, all);
        tmp[i] := table[r];
        n := q;
        i := i + 1;
        assert tmp[..i] == before + [table[r]];
        assert Reversed(before + [table[r]]) == [table[r]] + Reversed(before);
      }
    }
  }

  /** Taking the last digit off. */
  lemma DigitsStep(m: nat, base: nat, table: string, before: string, all: string)
    requires m > 0 && 2 <= base <= 36 && |table| == 36
    requires all == Digits(m, base, table) + Reversed(before)
    ensures |before| < |all| && m / base < m
    ensures m / base > 0 ==> all == Digits(m / base, base, table) + ([table[m % base]] + Reversed(before))
    ensures m / base == 0 ==> all == [table[m % base]] + Reversed(before)
  {
    hide Reversed;
    QuotientAndRest(m, base);
    if m >= base {
      var first, last := Digits(m / base, base, table), [table[m % base]];
      assert first + last + Reversed(before) == first + (last + Reversed(before));
    }
  }

  lemma QuotientAndRest(m: nat, base: nat)
    requires m > 0 && 2 <= base
    ensures m < base ==> m / base == 0 && m % base == m
    ensures m >= base ==> 1 <= m / base
    ensures m / base < m
  {
    if m >= base {
      DivSmaller(m, base);
      DivAtLeast(m, base, 1);
    }
  }

  /** number(): the text is appended at str; None is the null it returns for a bad base. */
  method Number(str: string, num: int, base: int, size: int, precision: int, flags: bv8) returns (r: Option<string>)
    requires IsInt(num)
    ensures r.None? <==> base < 2 || base > 36
    ensures r.Some? ==> r.value == str + Text(num, base, size, precision, flags)
  {
    hide Digits, Layout;
    var digits := UPPER;
    if Has(flags, SMALL) {
      digits := LOWER;
    }
    var kind := flags;
    if Has(kind, LEFT) {
      kind := kind & !ZEROPAD;
    }
    if base < 2 || base > 36 {
      return None;
    }
    ClearedFlags(flags, kind);
    var n := num;
    var sign: char;
    if Has(kind, SIGN) && n < 0 {
      sign := '-';
      n := Negated(n);
    } else {
      sign := if Has(kind, PLUS) then '+' else if Has(kind, SPACE) then ' ' else '\0';
    }
    assert Unsigned(n) == Magnitude(num, flags);
    var width := size;
    if sign != '\0' {
      width := width - 1;
    }
    if Has(kind, SPECIAL) {
      if base == 16 {
        width := width - 2;
      } else if base == 8 {
        width := width - 1;
      }
    }
    var tmp, i := PutDigits(n, base, digits);
    var out := Emit(str, sign, digits, base, width, precision, kind, tmp, i);
    PrefixOfKind(base, flags, kind);
    assert (if sign == '\0' then "" else [sign]) == SignText(num, flags);
    LayoutLeft(SignText(num, flags), PrefixText(base, flags), Reversed(tmp[..i]), size, precision,
               Has(flags, LEFT), Has(flags, ZEROPAD));
    return Some(out);
  }

  lemma PrefixOfKind(base: nat, flags: bv8, kind: bv8)
    requires Has(kind, SPECIAL) == Has(flags, SPECIAL) && Has(kind, SMALL) == Has(flags, SMALL)
    ensures PrefixText(base, kind) == PrefixText(base, flags)
  {
  }

  /** The part of number() that writes: width is what is left of the field after the sign
      and the prefix. */
  method Emit(str: string, sign: char, digits: string, base: nat, width: int, precision: int, kind: bv8,
              tmp: array<char>, n: nat) returns (out: string)
    requires n <= tmp.Length && digits == DigitTable(kind)
    requires Has(kind, LEFT) ==> !Has(kind, ZEROPAD)
    ensures var front := if sign == '\0' then "" else [sign];
            out == str + Layout(front, PrefixText(base, kind), Reversed(tmp[..n]),
                                width + |front| + |PrefixText(base, kind)|, precision,
                                Has(kind, LEFT), Has(kind, ZEROPAD))
  {
    hide Reversed, Layout, Repeat, PrefixText;
    var c := if Has(kind, ZEROPAD) then '0' else ' ';
    ghost var front := if sign == '\0' then "" else [sign];
    ghost var prefix := PrefixText(base, kind);
    var i := n;
    var prec := precision;
    if i > prec {
      prec := i;
    }
    var left := width - prec;
    ghost var pad := left;
    LayoutParts(front, prefix, Reversed(tmp[..n]), width + |front| + |prefix|, precision,
                Has(kind, LEFT), Has(kind, ZEROPAD));
    out, left := FillIf(str, left, ' ', !Has(kind, ZEROPAD) && !Has(kind, LEFT));
    ghost var left1 := left;
    out := PutSign(out, sign);
    out := PutPrefix(out, digits, base, kind);
    out, left := FillIf(out, left, c, !Has(kind, LEFT));
    ghost var left2 := left;
    var ignored;
    out, ignored := Fill(out, prec - i, '0');
    out := PutBack(out, tmp, i);
    out, left := Fill(out, left, ' ');
    OnePadding(pad, left1, left2, c, Has(kind, LEFT), Has(kind, ZEROPAD));
    ghost var a := if !Has(kind, LEFT) && !Has(kind, ZEROPAD) then Repeat(' ', pad) else "";
    ghost var b := if !Has(kind, LEFT) then Repeat(c, left1) else "";
    Chain(str, a, front, prefix, b, Repeat('0', prec - i), Reversed(tmp[..n]), Repeat(' ', left2));
  }

  method FillIf(str: string, size: int, c: char, needed: bool) returns (out: string, left: int)
    ensures out == str + if needed then Repeat(c, size) else ""
    ensures left == if !needed then size else (if size > 0 then 0 else size) - 1
  {
    out, left := str, size;
    if needed {
      out, left := Fill(str, size, c);
    }
  }

  method PutSign(str: string, sign: char) returns (out: string)
    ensures out == str + if sign == '\0' then "" else [sign]
  {
    out := str;
    if sign != '\0' {
      out := out + [sign];
    }
  }

  /** Only one of the three padding loops emits anything: the counter it leaves behind is
      negative for the later ones. */
  lemma OnePadding(pad: int, left1: int, left2: int, c: char, left: bool, zeropad: bool)
    requires !(left && zeropad)
    requires c == if zeropad then '0' else ' '
    requires left1 == if left || zeropad then pad else (if pad > 0 then 0 else pad) - 1
    requires left2 == if left then left1 else (if left1 > 0 then 0 else left1) - 1
    ensures (if !left then Repeat(c, left1) else "") == if !left && zeropad then Repeat('0', pad) else ""
    ensures Repeat(' ', left2) == if left then Repeat(' ', pad) else ""
  {
  }

  method PutPrefix(str: string, digits: string, base: nat, kind: bv8) returns (out: string)
    requires digits == DigitTable(kind)
    ensures out == str + PrefixText(base, kind)
  {
    out := str;
    if Has(kind, SPECIAL) {
      if base == 8 {
        out := out + ['0'];
      } else if base == 16 {
        out := out + ['0'];
        out := out + [digits[33]];
      }
    }
  }

  lemma LayoutLeft(sign: string, prefix: string, digits: string, size: int, precision: int, left: bool, zeropad: bool)
    ensures Layout(sign, prefix, digits, size, precision, left, zeropad && !left) ==
            Layout(sign, prefix, digits, size, precision, left, zeropad)
  {
  }

  /** A layout, written out with all the places where padding can go. */
  lemma LayoutParts(sign: string, prefix: string, digits: string, size: int, precision: int, left: bool, zeropad: bool)
    ensures var prec := Max(precision, |digits|);
            var pad := size - |sign| - |prefix| - prec;
            Layout(sign, prefix, digits, size, precision, left, zeropad) ==
              (if !left && !zeropad then Repeat(' ', pad) else "") + sign + prefix +
              (if !left && zeropad then Repeat('0', pad) else "") +
              Repeat('0', prec - |digits|) + digits +
              (if left then Repeat(' ', pad) else "")
  {
  }

  lemma Chain(str: string, a: string, b: string, c: string, d: string, e: string, f: string, g: string)
    ensures str + a + b + c + d + e + f + g == str + (a + b + c + d + e + f + g)
  {
  }

  /** Emits the scratch digits, last one first. */
  method PutBack(str: string, tmp: array<char>, n: nat) returns (out: string)
    requires n <= tmp.Length
    ensures out == str + Reversed(tmp[..n])
  {
    out := str;
    var i := n;
    while i > 0
      invariant 0 <= i <= n && out == str + Reversed(tmp[..n])[..n - i]
    {
      i := i - 1;
      out := out + [tmp[i]];
      assert Reversed(tmp[..n])[n - 1 - i] == tmp[i];
      assert Reversed(tmp[..n])[..n - i] == Reversed(tmp[..n])[..n - 1 - i] + [tmp[i]];
    }
    assert Reversed(tmp[..n])[..n] == Reversed(tmp[..n]);
  }

  /** Dropping the zero padding of a left-justified number changes no other flag. */
  lemma ClearedFlags(flags: bv8, kind: bv8)
    requires kind == if Has(flags, LEFT) then flags & !ZEROPAD else flags
    ensures Has(kind, LEFT) == Has(flags, LEFT) && Has(kind, ZEROPAD) == (Has(flags, ZEROPAD) && !Has(flags, LEFT))
    ensures Has(kind, SIGN) == Has(flags, SIGN) && Has(kind, PLUS) == Has(flags, PLUS)
    ensures Has(kind, SPACE) == Has(flags, SPACE) && Has(kind, SPECIAL) == Has(flags, SPECIAL)
    ensures Has(kind, SMALL) == Has(flags, SMALL)
  {
  }
}
