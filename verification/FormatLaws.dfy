/** What formats say and what their conversions print, letter by letter. */
module FormatLaws {
  import opened NumberText
  import opened FormatSpec

  // ----- Flags and numbers of a format -----

  /** The flags end at the first character that is none of the five. */
  lemma {:induction false} FlagsAre(f: string, k: nat)
    requires k <= |f|
    ensures forall j :: k <= j < FlagsEnd(f, k) ==> f[j] in "-+ #0"
    ensures FlagsEnd(f, k) < |f| ==> f[FlagsEnd(f, k)] !in "-+ #0"
    decreases |f| - k
  {
    if k < |f| && IsFlag(f[k]) {
      FlagsAre(f, k + 1);
    }
  }

  /** What the flag characters of a format set: each its own flag, and none of them the sign
      or the case. */
  predicate SaysFlags(flags: bv8, shown: string) {
    && (Has(flags, LEFT) <==> '-' in shown)
    && (Has(flags, PLUS) <==> '+' in shown)
    && (Has(flags, SPACE) <==> ' ' in shown)
    && (Has(flags, SPECIAL) <==> '#' in shown)
    && (Has(flags, ZEROPAD) <==> '0' in shown)
    && !Has(flags, SIGN) && !Has(flags, SMALL)
  }

  /** The flags of a conversion are those its flag characters say. */
  lemma {:induction false} FlagsMean(f: string, k: nat)
    requires k <= |f|
    ensures SaysFlags(FlagBits(f, k), f[k..FlagsEnd(f, k)])
    decreases |f| - k
  {
    hide SaysFlags, HasEither, FlagOf;
    if IsFlag(CharAt(f, k)) {
      FlagsMean(f, k + 1);
      EitherEach(FlagOf(f[k]), FlagBits(f, k + 1));
      OneMoreFlag(f[k], FlagBits(f, k + 1), f[k+1..FlagsEnd(f, k + 1)], FlagBits(f, k));
      assert f[k..FlagsEnd(f, k)] == [f[k]] + f[k+1..FlagsEnd(f, k + 1)];
    } else {
      assert f[k..FlagsEnd(f, k)] == "" && FlagBits(f, k) == 0;
      NoFlags();
    }
  }

  lemma NoFlags()
    ensures SaysFlags(0, "")
  {
  }

  lemma OneMoreFlag(c: char, flags: bv8, shown: string, both: bv8)
    requires SaysFlags(flags, shown) && HasEither(FlagOf(c), flags, both)
    ensures SaysFlags(both, [c] + shown)
  {
    hide Has, FlagOf;
    FlagAlone(c);
  }

  predicate HasEither(a: bv8, b: bv8, both: bv8) {
    && (Has(both, LEFT) <==> Has(a, LEFT) || Has(b, LEFT))
    && (Has(both, PLUS) <==> Has(a, PLUS) || Has(b, PLUS))
    && (Has(both, SPACE) <==> Has(a, SPACE) || Has(b, SPACE))
    && (Has(both, SPECIAL) <==> Has(a, SPECIAL) || Has(b, SPECIAL))
    && (Has(both, ZEROPAD) <==> Has(a, ZEROPAD) || Has(b, ZEROPAD))
    && (Has(both, SIGN) <==> Has(a, SIGN) || Has(b, SIGN))
    && (Has(both, SMALL) <==> Has(a, SMALL) || Has(b, SMALL))
  }

  lemma EitherEach(a: bv8, b: bv8)
    ensures HasEither(a, b, a | b)
  {
    hide Has;
    EitherFlag(a, b, LEFT);
    EitherFlag(a, b, PLUS);
    EitherFlag(a, b, SPACE);
    EitherFlag(a, b, SPECIAL);
    EitherFlag(a, b, ZEROPAD);
    EitherFlag(a, b, SIGN);
    EitherFlag(a, b, SMALL);
  }

  lemma FlagAlone(c: char)
    ensures Has(FlagOf(c), LEFT) <==> c == '-'
    ensures Has(FlagOf(c), PLUS) <==> c == '+'
    ensures Has(FlagOf(c), SPACE) <==> c == ' '
    ensures Has(FlagOf(c), SPECIAL) <==> c == '#'
    ensures Has(FlagOf(c), ZEROPAD) <==> c == '0'
    ensures !Has(FlagOf(c), SIGN) && !Has(FlagOf(c), SMALL)
  {
  }

  lemma EitherFlag(a: bv8, b: bv8, flag: bv8)
    ensures Has(a | b, flag) <==> Has(a, flag) || Has(b, flag)
  {
  }

  /** A number is as long as there are digits. */
  lemma {:induction false} DigitsEndAt(f: string, k: nat, e: nat)
    requires k <= e <= |f| && forall j :: k <= j < e ==> '0' <= f[j] <= '9'
    requires e < |f| ==> !('0' <= f[e] <= '9')
    ensures DigitsEnd(f, k) == e
    decreases e - k
  {
    if k < e {
      DigitsEndAt(f, k + 1, e);
    }
  }

  lemma {:induction false} FlagsEndAt(f: string, k: nat, e: nat)
    requires k <= e <= |f| && forall j :: k <= j < e ==> f[j] in "-+ #0"
    requires e < |f| ==> f[e] !in "-+ #0"
    ensures FlagsEnd(f, k) == e
    decreases e - k
  {
    if k < e {
      FlagsEndAt(f, k + 1, e);
    }
  }

  /** A decimal number reads back as itself. */
  function Decimal(n: nat): (s: string)
    ensures s != ""
  {
    Digits(n, 10, DigitTable(0))
  }

  lemma {:induction false} DecimalIsValue(s: string)
    requires forall k :: 0 <= k < |s| ==> '0' <= s[k] <= '9'
    ensures DecimalValue(s) == Value(s, 10)
  {
    if s != "" {
      DecimalIsValue(s[..|s|-1]);
    }
  }

  lemma DecimalReads(n: nat)
    ensures DecimalValue(Decimal(n)) == n
    ensures forall k :: 0 <= k < |Decimal(n)| ==> '0' <= Decimal(n)[k] <= '9'
    ensures n > 0 ==> Decimal(n)[0] != '0'
  {
    hide Digits, Value, DigitTable;
    var s := Decimal(n);
    ValueOfDigits(n, 10, 0);
    DigitsAre(n, 10, 0);
    forall k | 0 <= k < |s| ensures '0' <= s[k] <= '9' {
      assert IsDigit(s[k], 10);
    }
    DecimalIsValue(s);
  }

  // ----- Formats as they are written -----

  /** A field as written: a width never begins with 0, which would be a flag; a precision of
      0 may be left out behind its dot. */
  function WidthText(width: Field): string
    requires width.Absent? || (width.Given? && width.n > 0)
  {
    if width.Absent? then "" else Decimal(width.n)
  }

  function PrecisionText(precision: Field): string
    requires !precision.Star?
  {
    if precision.Absent? then "" else "." + Decimal(precision.n)
  }

  predicate EndsConversion(c: char) {
    c !in "-+ #0123456789.*hlL" && c != '\0'
  }

  /** s stands in f at k. */
  predicate Stands(f: string, k: nat, s: string) {
    k + |s| <= |f| && f[k..k + |s|] == s
  }

  lemma WidthReads(f: string, k: nat, width: Field)
    requires width.Absent? || (width.Given? && width.n > 0)
    requires Stands(f, k, WidthText(width))
    requires var next := CharAt(f, k + |WidthText(width)|); !IsDecimal(next) && next != '*'
    ensures WidthAt(f, k) == (width, k + |WidthText(width)|)
    ensures width.Given? ==> CharAt(f, k) in "123456789"
  {
    hide Decimal, DecimalValue, DigitsEnd;
    if width.Given? {
      DecimalReads(width.n);
      DigitsStand(f, k, Decimal(width.n));
    }
  }

  lemma StandsAt(f: string, k: nat, s: string)
    requires Stands(f, k, s)
    ensures k + |s| <= |f| && forall j :: k <= j < k + |s| ==> f[j] == s[j - k]
  {
    forall j | k <= j < k + |s| ensures f[j] == s[j - k] {
      assert f[k..k + |s|][j - k] == f[j];
    }
  }

  lemma DigitsStand(f: string, k: nat, s: string)
    requires Stands(f, k, s) && s != "" && !IsDecimal(CharAt(f, k + |s|))
    requires forall j :: 0 <= j < |s| ==> IsDecimal(s[j])
    ensures DigitsEnd(f, k) == k + |s| && f[k..k + |s|] == s && CharAt(f, k) == s[0]
  {
    hide DigitsEnd;
    StandsAt(f, k, s);
    DigitsEndAt(f, k, k + |s|);
  }

  lemma PrecisionReads(f: string, k: nat, precision: Field)
    requires !precision.Star? && Stands(f, k, PrecisionText(precision))
    requires var next := CharAt(f, k + |PrecisionText(precision)|); !IsDecimal(next) && next != '.'
    ensures PrecisionAt(f, k) == (precision, k + |PrecisionText(precision)|)
    ensures precision.Given? ==> CharAt(f, k) == '.'
  {
    hide Decimal, DecimalValue, DigitsEnd;
    if precision.Given? {
      var digits := Decimal(precision.n);
      DecimalReads(precision.n);
      StandsAt(f, k, "." + digits);
      assert f[k + 1..k + 1 + |digits|] == digits by { assert f[k + 1..k + 1 + |digits|] == ("." + digits)[1..]; }
      DigitsStand(f, k + 1, digits);
    }
  }

  /** A dot with no number behind it is a precision of 0. */
  lemma LoneDot(f: string, k: nat)
    requires k < |f| && f[k] == '.' && (k + 1 < |f| ==> f[k + 1] !in "0123456789*")
    ensures PrecisionAt(f, k) == (Given(0), k + 1)
  {
  }

  lemma NothingWritten()
    ensures WidthText(Absent) == PrecisionText(Absent) == ""
  {
  }

  /** A conversion as it is written: flags, width, precision, length and letter. */
  function Written(flags: string, width: Field, precision: Field, length: string, c: char): (s: string)
    requires (width.Absent? || (width.Given? && width.n > 0)) && !precision.Star?
    ensures s != "" && s[|s|-1] == c
  {
    flags + (WidthText(width) + (PrecisionText(precision) + (length + [c])))
  }

  /** It is read as what it says, whatever stands before and behind it. */
  lemma ConversionReads(before: string, flags: string, width: Field, precision: Field, length: string, c: char,
                        rest: string)
    requires forall k :: 0 <= k < |flags| ==> flags[k] in "-+ #0"
    requires (width.Absent? || (width.Given? && width.n > 0)) && !precision.Star?
    requires length in ["", "h", "l", "L"] && EndsConversion(c)
    ensures var written := Written(flags, width, precision, length, c);
      var f, k := before + (written + rest), |before|;
      && ConversionAt(f, k) == (Conversion(FlagBits(f, k), width, precision, c), k + |written|)
      && f[k..FlagsEnd(f, k)] == flags
  {
    hide FlagBits, FlagsEnd, ConversionAt, WidthText, PrecisionText;
    var w, p := WidthText(width), PrecisionText(precision);
    var f, k := before + (Written(flags, width, precision, length, c) + rest), |before|;
    InPlaces(before, flags, w, p, length, c, rest);
    ConversionStands(f, k, flags, width, precision, length, c);
  }

  lemma InPlaces(before: string, flags: string, w: string, p: string, length: string, c: char, rest: string)
    ensures var f, k1 := before + ((flags + (w + (p + (length + [c])))) + rest), |before| + |flags|;
      && Stands(f, |before|, flags) && Stands(f, k1, w) && Stands(f, k1 + |w|, p)
      && Stands(f, k1 + |w| + |p|, length + [c])
  {
    var written := flags + (w + (p + (length + [c])));
    var f, k1 := before + (written + rest), |before| + |flags|;
    assert f == before + flags + w + p + (length + [c]) + rest;
  }

  /** A conversion is read where its parts stand one behind the other. */
  lemma ConversionStands(f: string, k: nat, flags: string, width: Field, precision: Field, length: string, c: char)
    requires forall k :: 0 <= k < |flags| ==> flags[k] in "-+ #0"
    requires (width.Absent? || (width.Given? && width.n > 0)) && !precision.Star?
    requires length in ["", "h", "l", "L"] && EndsConversion(c)
    requires var k1 := k + |flags|; var k2 := k1 + |WidthText(width)|; var k3 := k2 + |PrecisionText(precision)|;
      && Stands(f, k, flags) && Stands(f, k1, WidthText(width)) && Stands(f, k2, PrecisionText(precision))
      && Stands(f, k3, length + [c])
    ensures var e := k + |flags| + |WidthText(width)| + |PrecisionText(precision)| + |length| + 1;
      ConversionAt(f, k) == (Conversion(FlagBits(f, k), width, precision, c), e) && f[k..FlagsEnd(f, k)] == flags
  {
    hide FlagBits, FlagsEnd, WidthAt, PrecisionAt, WidthText, PrecisionText, Stands;
    var k1 := k + |flags|;
    var k2 := k1 + |WidthText(width)|;
    var k3 := k2 + |PrecisionText(precision)|;
    NothingWritten();
    StandsAt(f, k3, length + [c]);
    assert CharAt(f, k3) == if length == "" then c else length[0];
    assert CharAt(f, k3 + |length|) == c;
    PrecisionReads(f, k2, precision);
    WidthReads(f, k1, width);
    StandsAt(f, k, flags);
    FlagsEndAt(f, k, k1);
  }

  // ----- What each letter prints -----

  /** The conversion's argument, which comes after those of its stars. */
  function ArgumentOf(item: Item, args: seq<Word>): Word
    requires item.Conversion? && TakesArgument(item.conv) && ArgCount(item) <= |args|
  {
    args[ArgCount(item) - 1]
  }

  /** Every conversion of a number, however it is laid out, reads back in the base of its
      letter: o in 8, p, x and X in 16, b in 2, u, d and i in 10; as a signed number with d
      and i, and otherwise as the word it is. */
  lemma NumbersReadBack(item: Item, args: seq<Word>, memory: Word -> string)
    requires item.Conversion? && ArgCount(item) <= |args| && !Has(item.flags, SIGN)
    ensures var shown, text := FlagsValue(item, args), ItemText(item, args, memory);
      && (item.conv == 'o' ==> ReadBack(text, 8, shown) == ArgumentOf(item, args))
      && (item.conv in "pxX" ==> ReadBack(text, 16, shown) == ArgumentOf(item, args))
      && (item.conv == 'b' ==> ReadBack(text, 2, shown) == ArgumentOf(item, args))
      && (item.conv == 'u' ==> ReadBack(text, 10, shown) == ArgumentOf(item, args))
      && (item.conv in "di" ==> ReadBack(text, 10, shown) == Signed(ArgumentOf(item, args)))
  {
    hide Text, ReadBack, Has, FlagsValue, WidthValue, PrecisionValue;
    if TakesArgument(item.conv) {
      var shown := FlagsValue(item, args);
      NoSignShown(item, args);
      NumberReadsBack(item.conv, shown, WidthValue(item, args), PrecisionValue(item, args), ArgumentOf(item, args),
                      memory);
    }
  }

  lemma NoSignShown(item: Item, args: seq<Word>)
    requires item.Conversion? && ArgCount(item) <= |args| && !Has(item.flags, SIGN)
    ensures !Has(FlagsValue(item, args), SIGN)
  {
    EitherFlag(item.flags, LEFT, SIGN);
  }

  lemma NumberReadsBack(conv: char, flags: bv8, width: int, precision: int, w: Word, memory: Word -> string)
    requires TakesArgument(conv) && !Has(flags, SIGN)
    ensures var text := ArgumentText(conv, flags, width, precision, w, memory);
      && (conv == 'o' ==> ReadBack(text, 8, flags) == w)
      && (conv in "pxX" ==> ReadBack(text, 16, flags) == w)
      && (conv == 'b' ==> ReadBack(text, 2, flags) == w)
      && (conv == 'u' ==> ReadBack(text, 10, flags) == w)
      && (conv in "di" ==> ReadBack(text, 10, flags) == Signed(w))
  {
    hide Text, ReadBack, Has, TakesArgument, Justified, Cut;
    match conv {
      case 'o' => RoundTrip(Signed(w), 8, width, precision, flags);
      case 'p' => Unsigned16(w, if width == -1 then 8 else width, precision, flags, if width == -1 then ZEROPAD else 0);
      case 'x' => Unsigned16(w, width, precision, flags, SMALL);
      case 'X' => RoundTrip(Signed(w), 16, width, precision, flags);
      case 'b' => RoundTrip(Signed(w), 2, width, precision, flags);
      case 'u' => RoundTrip(Signed(w), 10, width, precision, flags);
      case 'd' => Signed10(w, width, precision, flags);
      case 'i' => Signed10(w, width, precision, flags);
      case _ =>
    }
  }

  lemma Unsigned16(w: Word, width: int, precision: int, flags: bv8, more: bv8)
    requires !Has(flags, SIGN) && more in [0, ZEROPAD, SMALL]
    ensures ReadBack(Text(Signed(w), 16, width, precision, flags | more), 16, flags) == w
    ensures flags | 0 == flags
  {
    hide Text, ReadBack, Has;
    EitherFlag(flags, more, SIGN);
    FlagsApart();
    RoundTrip(Signed(w), 16, width, precision, flags | more);
    SamePrefix(Text(Signed(w), 16, width, precision, flags | more), 16, flags, more);
  }

  lemma Signed10(w: Word, width: int, precision: int, flags: bv8)
    ensures ReadBack(Text(Signed(w), 10, width, precision, flags | SIGN), 10, flags) == Signed(w)
  {
    hide Text, ReadBack, Has;
    EitherFlag(flags, SIGN, SIGN);
    FlagsApart();
    RoundTrip(Signed(w), 10, width, precision, flags | SIGN);
    SamePrefix(Text(Signed(w), 10, width, precision, flags | SIGN), 10, flags, SIGN);
  }

  lemma FlagsApart()
    ensures !Has(0, SIGN) && !Has(ZEROPAD, SIGN) && !Has(SMALL, SIGN) && Has(SIGN, SIGN) && Has(SMALL, SMALL)
    ensures !Has(0, SPECIAL) && !Has(ZEROPAD, SPECIAL) && !Has(SMALL, SPECIAL) && !Has(SIGN, SPECIAL)
    ensures !Has(0, SMALL) && !Has(ZEROPAD, SMALL) && !Has(SIGN, SMALL) && !Has(LEFT, SMALL) && !Has(LEFT, SPECIAL)
  {
  }

  /** Reading back depends on the flags by the prefix alone. */
  lemma SamePrefix(text: string, base: nat, flags: bv8, more: bv8)
    requires !Has(more, SPECIAL)
    ensures ReadBack(text, base, flags | more) == ReadBack(text, base, flags)
  {
    hide Has, SkipSpaces, LeadingDigits, Value;
    EitherFlag(flags, more, SPECIAL);
  }

  /** x shows no capital, X and p no small letter, the prefix included. */
  lemma OneCase(item: Item, args: seq<Word>, memory: Word -> string, c: char)
    requires item.Conversion? && item.conv in "xXp" && ArgCount(item) <= |args| && !Has(item.flags, SMALL)
    requires c in ItemText(item, args, memory)
    ensures item.conv == 'x' ==> !('A' <= c <= 'Z')
    ensures item.conv != 'x' ==> !('a' <= c <= 'z')
  {
    hide Text, Has, WidthValue, PrecisionValue;
    var shown, num := FlagsValue(item, args), Signed(ArgumentOf(item, args));
    var width, precision := WidthValue(item, args), PrecisionValue(item, args);
    FlagsApart();
    EitherFlag(item.flags, LEFT, SMALL);
    EitherFlag(shown, SMALL, SMALL);
    EitherFlag(shown, ZEROPAD, SMALL);
    var flags := if item.conv == 'x' then shown | SMALL else if item.conv == 'p' && width == -1 then shown | ZEROPAD
      else shown;
    TextInCase(num, 16, if item.conv == 'p' && width == -1 then 8 else width, precision, flags, c);
  }

  /** A text in its field: at the left end with LEFT, otherwise at the right end; blanks
      everywhere else; and as wide as the width or the text, whichever is more. */
  predicate InField(field: string, s: string, width: int, left: bool) {
    && |field| == Max(width, |s|)
    && (left ==> field[..|s|] == s && forall k :: |s| <= k < |field| ==> field[k] == ' ')
    && (!left ==> field[|field|-|s|..] == s && forall k :: 0 <= k < |field| - |s| ==> field[k] == ' ')
  }

  lemma JustifiedIs(s: string, width: int, flags: bv8)
    ensures InField(Justified(s, width, flags), s, width, Has(flags, LEFT))
  {
  }

  /** s prints the text at its argument, or as many characters of it as the precision says;
      c the character of the argument's low byte. */
  lemma TextsInFields(item: Item, args: seq<Word>, memory: Word -> string)
    requires item.Conversion? && ArgCount(item) <= |args|
    ensures var text, width, precision :=
        ItemText(item, args, memory), WidthValue(item, args), PrecisionValue(item, args);
      var left := Has(FlagsValue(item, args), LEFT);
      && (item.conv == 'c' ==> InField(text, [(ArgumentOf(item, args) % 256) as char], width, left))
      && (item.conv == 's' ==>
            var s := memory(ArgumentOf(item, args));
            InField(text, if 0 <= precision < |s| then s[..precision] else s, width, left))
  {
    hide Justified, InField, Has, FlagsValue, WidthValue, PrecisionValue;
    if item.conv == 'c' {
      JustifiedIs([(ArgumentOf(item, args) % 256) as char], WidthValue(item, args), FlagsValue(item, args));
    } else if item.conv == 's' {
      JustifiedIs(Cut(memory(ArgumentOf(item, args)), PrecisionValue(item, args)), WidthValue(item, args),
                  FlagsValue(item, args));
    }
  }

  /** n prints nothing and stores how much was printed before; no other letter stores, and
      a letter that is no conversion is shown behind its '%'. */
  lemma OtherLetters(item: Item, args: seq<Word>, memory: Word -> string, count: nat)
    requires item.Conversion? && ArgCount(item) <= |args|
    ensures item.conv == 'n' ==>
      ItemText(item, args, memory) == "" && ItemStores(item, args, count) == [(ArgumentOf(item, args), count)]
    ensures item.conv != 'n' ==> ItemStores(item, args, count) == []
    ensures item.conv !in "csopxXdiubn%" && item.conv != '\0' ==> ItemText(item, args, memory) == "%" + [item.conv]
    ensures item.conv == '%' || item.conv == '\0' ==> ItemText(item, args, memory) == "%"
  {
  }

  // ----- Whole formats -----

  /** A format of one conversion, written out, takes one argument and prints a number that
      reads back as it. */
  lemma PrintedReadsBack(flags: string, width: Field, precision: Field, length: string, c: char, w: Word,
                         memory: Word -> string)
    requires forall k :: 0 <= k < |flags| ==> flags[k] in "-+ #0"
    requires (width.Absent? || (width.Given? && width.n > 0)) && !precision.Star?
    requires length in ["", "h", "l", "L"] && c in "opxXubdi"
    ensures var items := Parse("%" + Written(flags, width, precision, length, c), 0);
      && ArgsNeeded(items) == 1
      && var text, shown := Render(items, [w], memory, 0).text, if '#' in flags then SPECIAL else 0;
      && (c == 'o' ==> ReadBack(text, 8, shown) == w)
      && (c in "pxX" ==> ReadBack(text, 16, shown) == w)
      && (c == 'b' ==> ReadBack(text, 2, shown) == w)
      && (c == 'u' ==> ReadBack(text, 10, shown) == w)
      && (c in "di" ==> ReadBack(text, 10, shown) == Signed(w))
  {
    hide Text, ReadBack, Has, Written, ConversionAt, ItemText, FlagBits, FlagsEnd;
    var written := Written(flags, width, precision, length, c);
    var f := "%" + written;
    assert "%" + (written + "") == f;
    ConversionReads("%", flags, width, precision, length, c, "");
    FlagsMean(f, 1);
    var item := Conversion(FlagBits(f, 1), width, precision, c);
    OneItem(f, item);
    NumbersReadBack(item, [w], memory);
    RenderOne(item, [w], memory);
    BySpecial(ItemText(item, [w], memory), 8, item.flags);
    BySpecial(ItemText(item, [w], memory), 16, item.flags);
    BySpecial(ItemText(item, [w], memory), 2, item.flags);
    BySpecial(ItemText(item, [w], memory), 10, item.flags);
  }

  lemma OneItem(f: string, item: Item)
    requires |f| > 1 && f[0] == '%' && ConversionAt(f, 1) == (item, |f|)
    ensures Parse(f, 0) == [item]
  {
    hide ConversionAt;
  }

  lemma RenderOne(item: Item, args: seq<Word>, memory: Word -> string)
    requires ArgCount(item) <= |args|
    ensures ArgsNeeded([item]) == ArgCount(item) && Render([item], args, memory, 0).text == ItemText(item, args, memory)
  {
    hide ItemText, ItemStores;
    NeededFirst([item]);
    RenderNothing(args[ArgCount(item)..], memory, |ItemText(item, args, memory)|);
    RenderFirst([item], args, memory, 0);
  }

  lemma BySpecial(text: string, base: nat, flags: bv8)
    ensures ReadBack(text, base, flags) == ReadBack(text, base, if Has(flags, SPECIAL) then SPECIAL else 0)
  {
    hide SkipSpaces, LeadingDigits, Value;
  }
}
