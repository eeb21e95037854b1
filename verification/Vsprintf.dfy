/** The kernel's vsprintf, as it runs over the format with one cursor and one argument
    list, proved to write what the format means. */
module Vsprintf {
  import opened NumberText
  import opened FormatSpec
  import opened FormatLaws
  import KernelPrintf

  /** Reads a decimal number and leaves the cursor behind it. */
  method SkipAtoi(f: string, k: nat) returns (i: nat, e: nat)
    requires k <= |f|
    ensures e == DigitsEnd(f, k) && i == DecimalValue(f[k..e])
  {
    i, e := 0, k;
    while IsDecimal(CharAt(f, e))
      invariant k <= e <= |f| && DigitsEnd(f, e) == DigitsEnd(f, k)
      invariant i == DecimalValue(f[k..e])
      decreases |f| - e
    {
      assert f[k..e+1][..e-k] == f[k..e];
      i := i * 10 + (f[e] as nat - '0' as nat);
      e := e + 1;
    }
  }

  method SkipFlags(f: string, k: nat) returns (flags: bv8, e: nat)
    requires k <= |f|
    ensures e == FlagsEnd(f, k) && flags == FlagBits(f, k)
  {
    hide FlagOf, IsFlag;
    flags, e := 0, k;
    while IsFlag(CharAt(f, e))
      invariant k <= e <= |f| && FlagsEnd(f, e) == FlagsEnd(f, k)
      invariant flags | FlagBits(f, e) == FlagBits(f, k)
      decreases |f| - e
    {
      OrAssociates(flags, FlagOf(f[e]), FlagBits(f, e + 1));
      flags := flags | FlagOf(f[e]);
      e := e + 1;
    }
    OrAssociates(flags, 0, 0);
  }

  lemma OrAssociates(a: bv8, b: bv8, c: bv8)
    ensures (a | b) | c == a | (b | c)
    ensures a | 0 == a
  {
  }

  /** Everything of a conversion up to its letter: the cursor is left on the letter, or on
      the NUL, and next is the first argument not used yet. */
  method ScanConversion(f: string, k: nat, args: seq<Word>, a: nat)
    returns (flags: bv8, width: int, precision: int, e: nat, next: nat)
    requires k <= |f| && a + ArgCount(ConversionAt(f, k).0) <= |args|
    ensures var item := ConversionAt(f, k).0;
            && flags == FlagsValue(item, args[a..]) && width == WidthValue(item, args[a..])
            && precision == PrecisionValue(item, args[a..])
            && e <= |f| && CharAt(f, e) == item.conv
            && ConversionAt(f, k).1 == (if e < |f| then e + 1 else e)
            && next == a + StarCount(item.width) + StarCount(item.precision)
  {
    hide FlagBits, FlagsEnd, DigitsEnd, DecimalValue;
    flags, e := SkipFlags(f, k);
    next := a;
    width := -1;
    if IsDecimal(CharAt(f, e)) {
      width, e := SkipAtoi(f, e);
    } else if CharAt(f, e) == '*' {
      width := Signed(args[next]);
      next := next + 1;
      if width < 0 {
        width := Negated(width);
        flags := flags | LEFT;
      }
    }
    precision := -1;
    if CharAt(f, e) == '.' {
      e := e + 1;
      if IsDecimal(CharAt(f, e)) {
        precision, e := SkipAtoi(f, e);
      } else if CharAt(f, e) == '*' {
        precision := Signed(args[next]);
        next := next + 1;
      }
      if precision < 0 {
        precision := 0;
      }
    }
    if CharAt(f, e) == 'h' || CharAt(f, e) == 'l' || CharAt(f, e) == 'L' {
      e := e + 1;
    }
  }

  /** Pads to one less than the width; the counter is left at 0, or one below a width that
      needed no padding. */
  method FillBelow(str: string, width: int) returns (out: string, left: int)
    ensures out == str + Repeat(' ', width - 1)
    ensures left == if width > 1 then 0 else width - 1
  {
    out, left := str, width - 1;
    ghost var done := 0;
    while left > 0
      invariant done >= 0 && out == str + Repeat(' ', done)
      invariant if width > 1 then left >= 0 && left + done == width - 1 else left == width - 1 && done == 0
    {
      out := out + [' '];
      assert Repeat(' ', done) + [' '] == Repeat(' ', done + 1);
      left := left - 1;
      done := done + 1;
    }
  }

  /** Pads the width down to the length; the counter is left one below the length, or below
      a width that needed no padding. */
  method FillAbove(str: string, len: nat, width: int) returns (out: string, left: int)
    ensures out == str + Repeat(' ', width - len)
    ensures left == if width > len then len - 1 else width - 1
  {
    out, left := str, width;
    ghost var done := 0;
    while len < left
      invariant done >= 0 && out == str + Repeat(' ', done)
      invariant if width > len then left >= len && left + done == width else left == width && done == 0
    {
      out := out + [' '];
      assert Repeat(' ', done) + [' '] == Repeat(' ', done + 1);
      left := left - 1;
      done := done + 1;
    }
    left := left - 1;
  }

  method PutChar(str: string, c: char, width: int, flags: bv8) returns (out: string)
    ensures out == str + Justified([c], width, flags)
  {
    var left := width;
    out := str;
    if !Has(flags, LEFT) {
      out, left := FillBelow(out, left);
    }
    out := out + [c];
    out, left := FillBelow(out, left);
  }

  method PutString(str: string, s: string, width: int, precision: int, flags: bv8) returns (out: string)
    ensures out == str + Justified(Cut(s, precision), width, flags)
  {
    hide Repeat;
    var len := |s|;
    if precision >= 0 && len > precision {
      len := precision;
    }
    assert s[..len] == Cut(s, precision);
    var left := width;
    out := str;
    if !Has(flags, LEFT) {
      out, left := FillAbove(out, len, left);
      NoneLeft(left - len);
    }
    out := PutFirst(out, s, len);
    out, left := FillAbove(out, len, left);
    FieldParts(str, Cut(s, precision), width, flags);
  }

  method PutFirst(str: string, s: string, len: nat) returns (out: string)
    requires len <= |s|
    ensures out == str + s[..len]
  {
    out := str;
    var i := 0;
    while i < len
      invariant 0 <= i <= len <= |s| && out == str + s[..i]
    {
      out := out + [s[i]];
      i := i + 1;
    }
  }

  lemma FieldParts(str: string, s: string, width: int, flags: bv8)
    ensures Has(flags, LEFT) ==> str + s + Repeat(' ', width - |s|) == str + Justified(s, width, flags)
    ensures !Has(flags, LEFT) ==> str + Repeat(' ', width - |s|) + s + "" == str + Justified(s, width, flags)
  {
    hide Repeat;
  }

  lemma NoneLeft(n: int)
    requires n <= 0
    ensures Repeat(' ', n) == ""
  {
  }

  method PutNumber(str: string, num: int, base: nat, width: int, precision: int, flags: bv8) returns (out: string)
    requires IsInt(num) && 2 <= base <= 36
    ensures out == str + Text(num, base, width, precision, flags)
  {
    var r := KernelPrintf.Number(str, num, base, width, precision, flags);
    out := r.value;
  }

  /** The conversions that take an argument. */
  method Convert(str: string, conv: char, flags: bv8, width: int, precision: int, w: Word, memory: Word -> string)
    returns (out: string)
    requires TakesArgument(conv)
    ensures out == str + ArgumentText(conv, flags, width, precision, w, memory)
    ensures conv == 'o' && !Has(flags, SIGN) ==> ReadBack(out[|str|..], 8, flags) == w
    ensures conv in "pxX" && !Has(flags, SIGN) ==> ReadBack(out[|str|..], 16, flags) == w
    ensures conv == 'b' && !Has(flags, SIGN) ==> ReadBack(out[|str|..], 2, flags) == w
    ensures conv == 'u' && !Has(flags, SIGN) ==> ReadBack(out[|str|..], 10, flags) == w
    ensures conv in "di" && !Has(flags, SIGN) ==> ReadBack(out[|str|..], 10, flags) == Signed(w)
  {
    hide Text, Justified, ReadBack, Has;
    if !Has(flags, SIGN) {
      NumberReadsBack(conv, flags, width, precision, w, memory);
    }
    match conv {
      case 'c' => out := PutChar(str, (w % 256) as char, width, flags);
      case 's' => out := PutString(str, memory(w), width, precision, flags);
      case 'o' => out := PutNumber(str, Signed(w), 8, width, precision, flags);
      case 'p' =>
        var fieldWidth, kind := width, flags;
        if fieldWidth == -1 {
          fieldWidth := 8;
          kind := kind | ZEROPAD;
        }
        out := PutNumber(str, Signed(w), 16, fieldWidth, precision, kind);
      case 'x' => out := PutNumber(str, Signed(w), 16, width, precision, flags | SMALL);
      case 'X' => out := PutNumber(str, Signed(w), 16, width, precision, flags);
      case 'd' => out := PutNumber(str, Signed(w), 10, width, precision, flags | SIGN);
      case 'i' => out := PutNumber(str, Signed(w), 10, width, precision, flags | SIGN);
      case 'u' => out := PutNumber(str, Signed(w), 10, width, precision, flags);
      case 'b' => out := PutNumber(str, Signed(w), 2, width, precision, flags);
      case _ => out := str;
    }
  }

  /** One conversion, from behind its '%' to behind its letter. */
  method ConvertNext(format: string, k: nat, args: seq<Word>, a: nat, memory: Word -> string,
                     str: string, stored: seq<(Word, nat)>)
    returns (out: string, stores: seq<(Word, nat)>, after: nat, next: nat)
    requires '\0' !in format && k <= |format| && a + ArgCount(ConversionAt(format, k).0) <= |args|
    ensures var item := ConversionAt(format, k).0;
            && out == str + ItemText(item, args[a..], memory)
            && stores == stored + ItemStores(item, args[a..], |str|)
            && after == ConversionAt(format, k).1 && next == a + ArgCount(item)
  {
    hide ConversionAt, ArgumentText, FlagsValue, WidthValue, PrecisionValue;
    StoreOnly(args, memory);
    ghost var item := ConversionAt(format, k).0;
    var flags, width, precision, e, last := ScanConversion(format, k, args, a);
    var conv := CharAt(format, e);
    out, stores, after, next := str, stored, e, last;
    if conv == 'n' {
      stores := stores + [(args[last], |str|)];
      next := last + 1;
      after := e + 1;
    } else if TakesArgument(conv) {
      out := Convert(out, conv, flags, width, precision, args[last], memory);
      next := last + 1;
      after := e + 1;
    } else {
      if conv != '%' {
        out := out + ['%'];
      }
      if conv != '\0' {
        out := out + [conv];
        after := e + 1;
      }
      assert str + ['%'] + [conv] == str + ['%', conv];
    }
    if TakesArgument(conv) {
      LastArgument(item, args, a);
    }
  }

  /** %n writes nothing. */
  lemma StoreOnly(args: seq<Word>, memory: Word -> string)
    ensures TakesArgument('n')
    ensures forall flags: bv8, width: int, precision: int, w: Word ::
      ArgumentText('n', flags, width, precision, w, memory) == ""
  {
  }

  /** vsprintf(): the text written and the counts stored, for every format and every
      argument list that is long enough for it. */
  method Vsprintf(format: string, args: seq<Word>, memory: Word -> string)
    returns (out: string, stores: seq<(Word, nat)>, length: nat)
    requires '\0' !in format && ArgsNeeded(Parse(format, 0)) <= |args|
    ensures Output(out, stores) == Render(Parse(format, 0), args, memory, 0)
    ensures length == |out|
  {
    hide Parse, Render, ConversionAt, ItemText, ItemStores, ArgCount;
    out, stores := "", [];
    var k: nat, a: nat := 0, 0;
    ghost var whole := Render(Parse(format, 0), args, memory, 0);
    assert args[0..] == args;
    while CharAt(format, k) != '\0'
      invariant k <= |format| && a <= |args|
      invariant ArgsNeeded(Parse(format, k)) <= |args| - a
      invariant Joined(whole, out, stores, Render(Parse(format, k), args[a..], memory, |out|))
      decreases |format| - k
    {
      ParseStep(format, k, args, a, memory, |out|);
      if format[k] != '%' {
        JoinStep(whole, out, stores, [format[k]], [], Render(Parse(format, k + 1), args[a..], memory, |out| + 1));
        out := out + [format[k]];
        k := k + 1;
      } else {
        ghost var item, after := ConversionAt(format, k + 1).0, ConversionAt(format, k + 1).1;
        ghost var text := ItemText(item, args[a..], memory);
        JoinStep(whole, out, stores, text, ItemStores(item, args[a..], |out|),
                 Render(Parse(format, after), args[a + ArgCount(item)..], memory, |out| + |text|));
        out, stores, k, a := ConvertNext(format, k + 1, args, a, memory, out, stores);
      }
    }
    RenderEnd(format, k, args[a..], memory, |out|);
    length := |out|;
  }

  ghost predicate Joined(whole: Output, out: string, stores: seq<(Word, nat)>, rest: Output) {
    whole.text == out + rest.text && whole.stores == stores + rest.stores
  }

  lemma JoinStep(whole: Output, out: string, stores: seq<(Word, nat)>,
                 text: string, more: seq<(Word, nat)>, rest: Output)
    requires Joined(whole, out, stores, Output(text + rest.text, more + rest.stores))
    ensures Joined(whole, out + text, stores + more, rest)
  {
    assert out + (text + rest.text) == (out + text) + rest.text;
    assert stores + (more + rest.stores) == (stores + more) + rest.stores;
  }

  /** The item at the cursor, and what is left of the meaning after it. */
  lemma ParseStep(f: string, k: nat, args: seq<Word>, a: nat, memory: Word -> string, count: nat)
    requires k < |f| && a <= |args| && ArgsNeeded(Parse(f, k)) <= |args| - a
    ensures f[k] != '%' ==>
      ArgsNeeded(Parse(f, k + 1)) <= |args| - a &&
      var rest := Render(Parse(f, k + 1), args[a..], memory, count + 1);
      Render(Parse(f, k), args[a..], memory, count) == Output([f[k]] + rest.text, [] + rest.stores)
    ensures f[k] == '%' ==>
      var item, next := ConversionAt(f, k + 1).0, ConversionAt(f, k + 1).1;
      var a' := a + ArgCount(item);
      a' <= |args| && ArgsNeeded(Parse(f, next)) <= |args| - a' &&
      var text := ItemText(item, args[a..], memory);
      var rest := Render(Parse(f, next), args[a'..], memory, count + |text|);
      Render(Parse(f, k), args[a..], memory, count) ==
        Output(text + rest.text, ItemStores(item, args[a..], count) + rest.stores)
  {
    hide ItemText, ItemStores, ConversionAt;
    var items := Parse(f, k);
    if f[k] != '%' {
      assert items == [Literal(f[k])] + Parse(f, k + 1);
      assert items[1..] == Parse(f, k + 1);
      assert args[a..][0..] == args[a..];
      LiteralItem(f[k], args[a..], memory, count);
    } else {
      var item, next := ConversionAt(f, k + 1).0, ConversionAt(f, k + 1).1;
      assert items == [item] + Parse(f, next);
      assert items[1..] == Parse(f, next);
      assert args[a..][ArgCount(item)..] == args[a + ArgCount(item)..];
    }
  }

  lemma LiteralItem(c: char, args: seq<Word>, memory: Word -> string, count: nat)
    ensures ItemText(Literal(c), args, memory) == [c] && ItemStores(Literal(c), args, count) == []
  {
  }

  /** The argument a conversion shows comes after those its stars take. */
  lemma LastArgument(item: Item, args: seq<Word>, a: nat)
    requires item.Conversion? && TakesArgument(item.conv) && a + ArgCount(item) <= |args|
    ensures args[a..][ArgCount(item) - 1] == args[a + StarCount(item.width) + StarCount(item.precision)]
  {
  }

  lemma RenderEnd(f: string, k: nat, args: seq<Word>, memory: Word -> string, count: nat)
    requires k == |f|
    ensures ArgsNeeded(Parse(f, k)) == 0 && Render(Parse(f, k), args, memory, count) == Output("", [])
  {
  }
}
