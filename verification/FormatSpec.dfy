/** What a printf format means: first its items, by syntax alone, then the text of each
    item and the arguments it takes. */
module FormatSpec {
  import opened NumberText

  type Word = w: nat | w < WORD

  datatype Field = Absent | Given(n: nat) | Star

  /** conv is the conversion letter, or NUL when the format ends inside a conversion. */
  datatype Item = Literal(c: char) | Conversion(flags: bv8, width: Field, precision: Field, conv: char)

  /** A format is read up to its terminating NUL and no further. */
  function CharAt(f: string, k: nat): char
    requires k <= |f|
  {
    if k < |f| then f[k] else '\0'
  }

  predicate IsDecimal(c: char) {
    '0' <= c <= '9'
  }

  function FlagOf(c: char): bv8 {
    match c
    case '-' => LEFT
    case '+' => PLUS
    case ' ' => SPACE
    case '#' => SPECIAL
    case '0' => ZEROPAD
    case _ => 0
  }

  predicate IsFlag(c: char) {
    c == '-' || c == '+' || c == ' ' || c == '#' || c == '0'
  }

  function FlagsEnd(f: string, k: nat): (e: nat)
    requires k <= |f|
    ensures k <= e <= |f|
    decreases |f| - k
  {
    if IsFlag(CharAt(f, k)) then FlagsEnd(f, k + 1) else k
  }

  function FlagBits(f: string, k: nat): bv8
    requires k <= |f|
    decreases |f| - k
  {
    if IsFlag(CharAt(f, k)) then FlagOf(f[k]) | FlagBits(f, k + 1) else 0
  }

  function DigitsEnd(f: string, k: nat): (e: nat)
    requires k <= |f|
    ensures k <= e <= |f|
    decreases |f| - k
  {
    if IsDecimal(CharAt(f, k)) then DigitsEnd(f, k + 1) else k
  }

  function WidthAt(f: string, k: nat): (r: (Field, nat))
    requires k <= |f|
    ensures k <= r.1 <= |f|
  {
    if IsDecimal(CharAt(f, k)) then (Given(DecimalValue(f[k..DigitsEnd(f, k)])), DigitsEnd(f, k))
    else if CharAt(f, k) == '*' then (Star, k)
    else (Absent, k)
  }

  function PrecisionAt(f: string, k: nat): (r: (Field, nat))
    requires k <= |f|
    ensures k <= r.1 <= |f|
  {
    if CharAt(f, k) != '.' then (Absent, k)
    else if IsDecimal(CharAt(f, k + 1)) then (Given(DecimalValue(f[k+1..DigitsEnd(f, k + 1)])), DigitsEnd(f, k + 1))
    else if CharAt(f, k + 1) == '*' then (Star, k + 1)
    else (Given(0), k + 1)
  }

  function DecimalValue(s: string): (n: nat) {
    if s == "" then 0
    else DecimalValue(s[..|s|-1]) * 10 + (if IsDecimal(s[|s|-1]) then s[|s|-1] as nat - '0' as nat else 0)
  }

  predicate IsLength(c: char) {
    c == 'h' || c == 'l' || c == 'L'
  }

  /** The conversion whose text begins at k, after its '%', and where the format goes on. */
  function ConversionAt(f: string, k: nat): (r: (Item, nat))
    requires k <= |f|
    ensures k <= r.1 <= |f| && r.0.Conversion?
  {
    var k1 := FlagsEnd(f, k);
    var (width, k2) := WidthAt(f, k1);
    var (precision, k3) := PrecisionAt(f, k2);
    var k4 := if IsLength(CharAt(f, k3)) then k3 + 1 else k3;
    (Conversion(FlagBits(f, k), width, precision, CharAt(f, k4)), if k4 < |f| then k4 + 1 else k4)
  }

  function Parse(f: string, k: nat): seq<Item>
    requires k <= |f|
    decreases |f| - k
  {
    if k == |f| then []
    else if f[k] != '%' then [Literal(f[k])] + Parse(f, k + 1)
    else var (item, next) := ConversionAt(f, k + 1); [item] + Parse(f, next)
  }

  // ----- Meaning -----

  predicate TakesArgument(conv: char) {
    conv in "csopxXdiubn"
  }

  function StarCount(field: Field): nat {
    if field.Star? then 1 else 0
  }

  function ArgCount(item: Item): nat {
    match item
    case Literal(_) => 0
    case Conversion(_, width, precision, conv) =>
      StarCount(width) + StarCount(precision) + (if TakesArgument(conv) then 1 else 0)
  }

  function ArgsNeeded(items: seq<Item>): nat {
    if items == [] then 0 else ArgCount(items[0]) + ArgsNeeded(items[1..])
  }

  /** A width of -1 stands for none; a negative one from an argument left-justifies. */
  function WidthValue(item: Item, args: seq<Word>): int
    requires item.Conversion? && ArgCount(item) <= |args|
  {
    match item.width
    case Absent => -1
    case Given(n) => n
    case Star => if Signed(args[0]) < 0 then Negated(Signed(args[0])) else Signed(args[0])
  }

  function FlagsValue(item: Item, args: seq<Word>): bv8
    requires item.Conversion? && ArgCount(item) <= |args|
  {
    if item.width.Star? && Signed(args[0]) < 0 then item.flags | LEFT else item.flags
  }

  /** A precision of -1 stands for none; a negative one from an argument counts as 0. */
  function PrecisionValue(item: Item, args: seq<Word>): int
    requires item.Conversion? && ArgCount(item) <= |args|
  {
    match item.precision
    case Absent => -1
    case Given(n) => n
    case Star => Max(0, Signed(args[StarCount(item.width)]))
  }

  /** A string in a field of this width. */
  function Justified(s: string, width: int, flags: bv8): string {
    if Has(flags, LEFT) then s + Repeat(' ', width - |s|) else Repeat(' ', width - |s|) + s
  }

  function Cut(s: string, precision: int): string {
    if 0 <= precision < |s| then s[..precision] else s
  }

  /** The text of a conversion that takes the argument w; strings live in memory. */
  function ArgumentText(conv: char, flags: bv8, width: int, precision: int, w: Word, memory: Word -> string): string
    requires TakesArgument(conv)
  {
    match conv
    case 'c' => Justified([(w % 256) as char], width, flags)
    case 's' => Justified(Cut(memory(w), precision), width, flags)
    case 'o' => Text(Signed(w), 8, width, precision, flags)
    case 'p' => if width == -1 then Text(Signed(w), 16, 8, precision, flags | ZEROPAD)
                else Text(Signed(w), 16, width, precision, flags)
    case 'x' => Text(Signed(w), 16, width, precision, flags | SMALL)
    case 'X' => Text(Signed(w), 16, width, precision, flags)
    case 'd' => Text(Signed(w), 10, width, precision, flags | SIGN)
    case 'i' => Text(Signed(w), 10, width, precision, flags | SIGN)
    case 'u' => Text(Signed(w), 10, width, precision, flags)
    case 'b' => Text(Signed(w), 2, width, precision, flags)
    case _ => ""
  }

  /** Any other letter is shown after a '%', which stands for itself when doubled. */
  function PlainText(conv: char): string {
    if conv == '%' then "%" else if conv == '\0' then "%" else ['%', conv]
  }

  function ItemText(item: Item, args: seq<Word>, memory: Word -> string): string
    requires ArgCount(item) <= |args|
  {
    match item
    case Literal(c) => [c]
    case Conversion(_, width, precision, conv) =>
      if TakesArgument(conv) then
        ArgumentText(conv, FlagsValue(item, args), WidthValue(item, args), PrecisionValue(item, args),
                     args[ArgCount(item) - 1], memory)
      else PlainText(conv)
  }

  /** The text written, and the counts %n stores, each with the address it goes to. */
  datatype Output = Output(text: string, stores: seq<(Word, nat)>)

  function ItemStores(item: Item, args: seq<Word>, count: nat): seq<(Word, nat)>
    requires ArgCount(item) <= |args|
  {
    if item.Conversion? && item.conv == 'n' then [(args[ArgCount(item) - 1], count)] else []
  }

  /** The meaning of a list of items when count characters have been written before. */
  function Render(items: seq<Item>, args: seq<Word>, memory: Word -> string, count: nat): Output
    requires ArgsNeeded(items) <= |args|
    decreases |items|
  {
    if items == [] then Output("", [])
    else
      var text := ItemText(items[0], args, memory);
      var rest := Render(items[1..], args[ArgCount(items[0])..], memory, count + |text|);
      Output(text + rest.text, ItemStores(items[0], args, count) + rest.stores)
  }

  // ----- Laws -----

  /** Characters that are no directive stand for themselves: doubling every '%' of a text
      gives a format that prints the text. */
  function Escaped(s: string): string {
    if s == "" then "" else (if s[0] == '%' then "%%" else [s[0]]) + Escaped(s[1..])
  }

  function PlainItem(c: char): Item {
    if c == '%' then Conversion(0, Absent, Absent, '%') else Literal(c)
  }

  lemma {:induction false} EscapeParses(s: string, before: string)
    ensures var f := before + Escaped(s);
            && |Parse(f, |before|)| == |s|
            && forall k :: 0 <= k < |s| ==> Parse(f, |before|)[k] == PlainItem(s[k])
    decreases |s|
  {
    var f := before + Escaped(s);
    var k := |before|;
    if s != "" {
      var head := if s[0] == '%' then "%%" else [s[0]];
      assert f == (before + head) + Escaped(s[1..]);
      EscapeParses(s[1..], before + head);
      assert f[k] == s[0];
      if s[0] == '%' {
        assert f[k+1] == '%';
        assert ConversionAt(f, k + 1) == (Conversion(0, Absent, Absent, '%'), k + 2);
      }
    }
  }

  lemma {:induction false} PlainRender(items: seq<Item>, s: string, args: seq<Word>, memory: Word -> string, count: nat)
    requires |items| == |s|
    requires forall k :: 0 <= k < |s| ==> items[k] == PlainItem(s[k])
    ensures ArgsNeeded(items) == 0 && Render(items, args, memory, count) == Output(s, [])
    decreases |s|
  {
    hide ItemText, ItemStores, ArgCount, PlainItem;
    if s != "" {
      PlainItemIs(s[0], args, memory, count);
      PlainRender(items[1..], s[1..], args, memory, count + 1);
      assert args[0..] == args;
      assert [s[0]] + s[1..] == s;
    }
  }

  lemma PlainItemIs(c: char, args: seq<Word>, memory: Word -> string, count: nat)
    ensures ArgCount(PlainItem(c)) == 0
    ensures ItemText(PlainItem(c), args, memory) == [c] && ItemStores(PlainItem(c), args, count) == []
  {
  }

  /** Printing an escaped text gives the text. */
  lemma EscapeRoundTrip(s: string, args: seq<Word>, memory: Word -> string)
    ensures ArgsNeeded(Parse(Escaped(s), 0)) == 0
    ensures Render(Parse(Escaped(s), 0), args, memory, 0) == Output(s, [])
  {
    EscapeParses(s, "");
    assert "" + Escaped(s) == Escaped(s);
    PlainRender(Parse(Escaped(s), 0), s, args, memory, 0);
  }

  /** Printing in sequence is printing one after the other, with the arguments handed on. */
  lemma {:induction false} RenderAppend(a: seq<Item>, b: seq<Item>, args: seq<Word>, memory: Word -> string, count: nat)
    requires ArgsNeeded(a) + ArgsNeeded(b) <= |args|
    ensures ArgsNeeded(a + b) == ArgsNeeded(a) + ArgsNeeded(b)
    ensures var first := Render(a, args, memory, count);
            var second := Render(b, args[ArgsNeeded(a)..], memory, count + |first.text|);
            Render(a + b, args, memory, count) == Output(first.text + second.text, first.stores + second.stores)
    decreases |a|
  {
    hide ItemText, ItemStores, ArgCount, Render, ArgsNeeded;
    if a == [] {
      assert a + b == b;
      assert args[0..] == args;
      RenderNothing(args, memory, count);
    } else {
      assert (a + b)[1..] == a[1..] + b && (a + b)[0] == a[0];
      NeededFirst(a);
      NeededFirst(a + b);
      var rest := args[ArgCount(a[0])..];
      var text := ItemText(a[0], args, memory);
      RenderAppend(a[1..], b, rest, memory, count + |text|);
      assert rest[ArgsNeeded(a[1..])..] == args[ArgsNeeded(a)..];
      RenderFirst(a, args, memory, count);
      RenderFirst(a + b, args, memory, count);
      var first := Render(a[1..], rest, memory, count + |text|);
      var second := Render(b, args[ArgsNeeded(a)..], memory, count + |text| + |first.text|);
      JoinOutputs(Output(text, ItemStores(a[0], args, count)), first, second);
    }
  }

  lemma RenderNothing(args: seq<Word>, memory: Word -> string, count: nat)
    ensures ArgsNeeded([]) == 0 && Render([], args, memory, count) == Output("", [])
  {
  }

  lemma NeededFirst(items: seq<Item>)
    requires items != []
    ensures ArgsNeeded(items) == ArgCount(items[0]) + ArgsNeeded(items[1..])
  {
  }

  lemma RenderFirst(items: seq<Item>, args: seq<Word>, memory: Word -> string, count: nat)
    requires items != [] && ArgsNeeded(items) <= |args| && ArgCount(items[0]) + ArgsNeeded(items[1..]) <= |args|
    ensures var text := ItemText(items[0], args, memory);
      var rest := Render(items[1..], args[ArgCount(items[0])..], memory, count + |text|);
      Render(items, args, memory, count) ==
        Output(text + rest.text, ItemStores(items[0], args, count) + rest.stores)
  {
    hide ItemText, ItemStores, ArgCount;
  }

  lemma JoinOutputs(a: Output, b: Output, c: Output)
    ensures a.text + (b.text + c.text) == (a.text + b.text) + c.text
    ensures a.stores + (b.stores + c.stores) == (a.stores + b.stores) + c.stores
  {
  }

  /** A star takes its argument and is then shown: since it stays in the format it is also
      the conversion letter, and an unknown one, so no text is ever laid out by it. */
  lemma StarIsShown(f: string, k: nat, args: seq<Word>, memory: Word -> string, count: nat)
    requires k <= |f|
    ensures var item := ConversionAt(f, k).0;
      item.width.Star? || item.precision.Star? ==>
        && item.conv == '*' && !TakesArgument(item.conv) && ArgCount(item) == 1
        && (1 <= |args| ==> ItemText(item, args, memory) == "%*" && ItemStores(item, args, count) == [])
  {
    hide FlagBits, FlagsEnd, DigitsEnd, DecimalValue, Justified, Text;
  }

  /** What "%*d" prints: itself, one argument gone. */
  lemma StarredDecimal(w: Word, memory: Word -> string)
    ensures ArgsNeeded(Parse("%*d", 0)) == 1
    ensures Render(Parse("%*d", 0), [w], memory, 0) == Output("%*d", [])
  {
    hide Text, Justified;
    var f := "%*d";
    assert ConversionAt(f, 1) == (Conversion(0, Star, Absent, '*'), 2);
    assert Parse(f, 3) == [];
    assert Parse(f, 2) == [Literal('d')];
    var star := Conversion(0, Star, Absent, '*');
    assert Parse(f, 0) == [star, Literal('d')];
    assert [star, Literal('d')][1..] == [Literal('d')] && [Literal('d')][1..] == [];
    assert ArgsNeeded([Literal('d')]) == 0;
    StarIsShown(f, 1, [w], memory, 0);
    assert Render([Literal('d')], [w][1..], memory, 2) == Output("d", []);
  }

  /** A decimal conversion, however it is laid out, reads back as the number. */
  lemma DecimalRoundTrip(flags: bv8, width: Field, precision: Field, args: seq<Word>, memory: Word -> string)
    requires var item := Conversion(flags, width, precision, 'd'); ArgCount(item) <= |args|
    ensures var item := Conversion(flags, width, precision, 'd');
            var shown := FlagsValue(item, args) | SIGN;
            ReadBack(ItemText(item, args, memory), 10, shown) == Signed(args[ArgCount(item) - 1])
  {
    hide Text, ReadBack;
    var item := Conversion(flags, width, precision, 'd');
    var shown := FlagsValue(item, args) | SIGN;
    SignIsSet(FlagsValue(item, args));
    RoundTrip(Signed(args[ArgCount(item) - 1]), 10, WidthValue(item, args), PrecisionValue(item, args), shown);
  }

  lemma SignIsSet(flags: bv8)
    ensures Has(flags | SIGN, SIGN)
  {
  }
}
