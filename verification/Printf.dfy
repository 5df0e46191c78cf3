// do_printf of lib/stdio/doprintf.c: what a format means, and the fall-through
// state machine that produces it.

module Printf {
  import opened Words
  import opened Formats
  import opened Numerals

  const PR_LJ: bv8 := 0x01
  const PR_CA: bv8 := 0x02
  const PR_SG: bv8 := 0x04
  const PR_32: bv8 := 0x08
  const PR_16: bv8 := 0x10
  const PR_WS: bv8 := 0x20
  const PR_LZ: bv8 := 0x40
  const PR_FP: bv8 := 0x80

  const SHORT_SIZE := 0x1_0000

  type CText = s: CString | |s| < WORD_SIZE - 1

  // One va_arg slot: the word in it, and the string that starts at that address.
  datatype Arg = Arg(word: u32, text: CText)

  type Args = nat -> Arg

  // ----- What a format means -----

  predicate IsNumeric(c: char) {
    c == 'X' || c == 'x' || c == 'p' || c == 'n' || c == 'd' || c == 'i' || c == 'u' || c == 'o'
  }

  // Every other conversion is dropped, and takes no argument.
  predicate TakesArg(c: char) {
    IsNumeric(c) || c == 'c' || c == 's'
  }

  predicate IsSigned(c: char) {
    c == 'd' || c == 'i'
  }

  function RadixOf(c: char): (radix: nat)
    ensures IsRadix(radix)
  {
    if c == 'd' || c == 'i' || c == 'u' then 10 else if c == 'o' then 8 else 16
  }

  // A word as the argument of a numeric conversion; h yields to l.
  function NumberOf(mods: string, signed: bool, word: u32): (v: int)
    ensures -(WORD_SIZE / 2) <= v < WORD_SIZE
  {
    var size := if 'h' in mods && 'l' !in mods then SHORT_SIZE else WORD_SIZE;
    var low := word % size;
    if signed && low >= size / 2 then low - size else low
  }

  function Abs(v: int): nat {
    if v < 0 then -v else v
  }

  function Fill(c: char, n: nat): string {
    seq(n, _ => c)
  }

  function Padded(left: bool, pad: char, wd: nat, body: string, size: nat): string {
    var fill := if wd > size then wd - size else 0;
    if left then body + Fill(' ', fill) else Fill(pad, fill) + body
  }

  // Zeros go between the sign and the digits, spaces in front of the sign.
  function Field(left: bool, zero: bool, wd: nat, sign: string, body: string, size: nat): string {
    if zero then sign + Padded(left, '0', wd, body, size) else Padded(left, ' ', wd, sign + body, size)
  }

  function WidthOf(width: string): u32 {
    Reading(width, 10) % WORD_SIZE
  }

  function Sign(v: int): string {
    if v < 0 then "-" else ""
  }

  function Number(left: bool, zero: bool, wd: nat, v: int, radix: nat, upper: bool): string
    requires IsRadix(radix)
  {
    var digits := Numeral(Abs(v), radix, upper);
    Field(left, zero, wd, Sign(v), digits, |Sign(v)| + |digits|)
  }

  // A character 0 ends the buffer it is put in, but takes its place in the width.
  function Character(word: u32): CText {
    if word % 0x100 == 0 then "" else [(word % 0x100) as char]
  }

  function Meaning(item: Item, arg: Arg): string {
    match item
    case Literal(c) => [c]
    case Percent(_) => "%"
    case Illegal => ""
    case Spec(left, zero, width, mods, conv) =>
      if IsNumeric(conv) then
        Number(left, zero, WidthOf(width), NumberOf(mods, IsSigned(conv), arg.word), RadixOf(conv), conv == 'X')
      else if conv == 'c' then Field(left, false, WidthOf(width), "", Character(arg.word), 1)
      else if conv == 's' then Field(left, false, WidthOf(width), "", arg.text, |arg.text|)
      else ""
  }

  // How many arguments the items take.
  function Used(items: seq<Item>): nat {
    if items == [] then 0 else
      var last := items[|items| - 1];
      Used(items[..|items| - 1]) + if last.Spec? && TakesArg(last.conv) then 1 else 0
  }

  function Denote(items: seq<Item>, args: Args): string {
    if items == [] then "" else
      var before := items[..|items| - 1];
      Denote(before, args) + Meaning(items[|items| - 1], args(Used(before)))
  }

  // ----- Properties of the meaning -----

  // A numeric conversion takes exactly its width, or what sign and digits need.
  lemma NumberLength(left: bool, zero: bool, wd: nat, v: int, radix: nat, upper: bool)
    requires IsRadix(radix)
    ensures var need := |Sign(v)| + |Numeral(Abs(v), radix, upper)|;
            |Number(left, zero, wd, v, radix, upper)| == if wd > need then wd else need
  {
  }

  lemma FillPrefix(c: char, n: nat, body: string)
    ensures (Fill(c, n) + body)[n..] == body && |Fill(c, n) + body| == n + |body|
    ensures forall i | 0 <= i < n :: (Fill(c, n) + body)[i] == c
  {
  }

  lemma {:induction false} ZerosRead(n: nat, digits: string, radix: nat)
    requires digits != ""
    ensures Reading(Fill('0', n) + digits, radix) == Reading(digits, radix)
    decreases n + |digits|
  {
    var s := Fill('0', n) + digits;
    if |digits| > 1 {
      assert s[..|s| - 1] == Fill('0', n) + digits[..|digits| - 1];
      ZerosRead(n, digits[..|digits| - 1], radix);
    } else {
      assert s[..|s| - 1] == Fill('0', n);
      AllZeros(n, radix);
      assert digits[..|digits| - 1] == "";
    }
  }

  lemma {:induction false} AllZeros(n: nat, radix: nat)
    ensures Reading(Fill('0', n), radix) == 0
  {
    if n == 0 {
    } else {
      assert Fill('0', n)[..n - 1] == Fill('0', n - 1);
      AllZeros(n - 1, radix);
    }
  }

  // %c takes its width, or one column; a character 0 is missing from it.
  lemma CharacterLength(left: bool, zero: bool, width: string, mods: string, arg: Arg)
    ensures var wd := WidthOf(width);
            |Meaning(Spec(left, zero, width, mods, 'c'), arg)| ==
            (if wd > 1 then wd else 1) - (if arg.word % 0x100 == 0 then 1 else 0)
  {
    hide WidthOf;
  }

  // Where sign, digits and padding go: left justified they are followed by
  // spaces; otherwise they end the field, behind spaces or, with the zero flag,
  // with zeros that do not change the number read after the sign.
  lemma NumberShape(left: bool, zero: bool, wd: nat, v: int, radix: nat, upper: bool)
    requires IsRadix(radix)
    ensures var s := Number(left, zero, wd, v, radix, upper);
            var shown := Sign(v) + Numeral(Abs(v), radix, upper);
            && |s| >= |shown|
            && (left ==> s[..|shown|] == shown && forall i | |shown| <= i < |s| :: s[i] == ' ')
            && (!left && !zero ==> s[|s| - |shown|..] == shown && forall i | 0 <= i < |s| - |shown| :: s[i] == ' ')
            && (!left && zero ==> s[..|Sign(v)|] == Sign(v) && Reading(s[|Sign(v)|..], radix) == Abs(v))
  {
    var digits := Numeral(Abs(v), radix, upper);
    var shown := Sign(v) + digits;
    var fill := if wd > |shown| then wd - |shown| else 0;
    NumeralReads(Abs(v), radix, upper);
    hide Numeral, Reading, Sign;
    if left {
      assert Number(left, zero, wd, v, radix, upper) == shown + Fill(' ', fill);
    } else if zero {
      assert Number(left, zero, wd, v, radix, upper) == Sign(v) + (Fill('0', fill) + digits);
      ZerosRead(fill, digits, radix);
    } else {
      FillPrefix(' ', fill, shown);
    }
  }

  // The digits read back as the magnitude of the argument, the least signed value
  // included, and there are at most eleven of them.
  lemma NumberReads(mods: string, conv: char, word: u32)
    requires IsNumeric(conv)
    ensures var v := NumberOf(mods, IsSigned(conv), word);
            var digits := Numeral(Abs(v), RadixOf(conv), conv == 'X');
            && Reading(digits, RadixOf(conv)) == Abs(v) <= WORD_SIZE / 2 * (if v < 0 then 1 else 2)
            && 0 < |digits| <= MAX_DIGITS && '\0' !in digits
            && (v < 0 ==> IsSigned(conv))
            && (!('h' in mods && 'l' !in mods) ==> v % WORD_SIZE == word)
  {
    var v := NumberOf(mods, IsSigned(conv), word);
    NumeralReads(Abs(v), RadixOf(conv), conv == 'X');
    NumeralFits(Abs(v), RadixOf(conv), conv == 'X');
  }

  // The conversions, and the radix each prints in.
  predicate Converts(c: char, radix: nat) {
    || (c in "Xxpn" && radix == 16)
    || (c in "diu" && radix == 10)
    || (c == 'o' && radix == 8)
  }

  // The number an argument word stands for: h takes its lower half, d and i take
  // it as two's complement.
  predicate Represents(v: int, word: u32, mods: string, c: char) {
    var size := if 'h' in mods && 'l' !in mods then 0x1_0000 else 0x1_0000_0000;
    (v - word) % size == 0 && if c in "di" then -size <= 2 * v < size else 0 <= v < size
  }

  // What %x, %X, %p and %n print in radix 16, %o in 8, and %d, %i and %u in 10: the
  // argument's sign and digits, in a field of the width that was given.
  lemma NumericText(left: bool, zero: bool, width: string, mods: string, c: char, radix: nat, arg: Arg, v: int)
    requires Converts(c, radix) && Represents(v, arg.word, mods, c)
    ensures var s := Meaning(Spec(left, zero, width, mods, c), arg);
            var sign := if v < 0 then "-" else "";
            var digits := Numeral(if v < 0 then -v else v, radix, c == 'X');
            var shown := sign + digits; var wd := Reading(width, 10) % 0x1_0000_0000;
            && |s| == (if wd > |shown| then wd else |shown|)
            && (left ==> s[..|shown|] == shown && forall i | |shown| <= i < |s| :: s[i] == ' ')
            && (!left && !zero ==> s[|s| - |shown|..] == shown && forall i | 0 <= i < |s| - |shown| :: s[i] == ' ')
            && (!left && zero ==>
                  && s[..|sign|] == sign && s[|s| - |digits|..] == digits
                  && forall i | |sign| <= i < |s| - |digits| :: s[i] == '0')
  {
    RepresentsOne(v, arg.word, mods, c);
    var wd := WidthOf(width);
    hide Numeral, Reading, WidthOf, NumberOf;
    NumberShows(left, zero, wd, v, radix, c == 'X');
  }

  lemma RepresentsOne(v: int, word: u32, mods: string, c: char)
    requires Represents(v, word, mods, c)
    ensures NumberOf(mods, c in "di", word) == v
  {
    var size := if 'h' in mods && 'l' !in mods then SHORT_SIZE else WORD_SIZE;
    var low := word % size;
    var q := (v - word) / size + word / size;
    assert v == low + size * q;
  }

  lemma NumberShows(left: bool, zero: bool, wd: nat, v: int, radix: nat, upper: bool)
    requires IsRadix(radix)
    ensures var s := Number(left, zero, wd, v, radix, upper); var digits := Numeral(Abs(v), radix, upper);
            var shown := Sign(v) + digits;
            && |s| == (if wd > |shown| then wd else |shown|)
            && (left ==> s[..|shown|] == shown && forall i | |shown| <= i < |s| :: s[i] == ' ')
            && (!left && !zero ==> s[|s| - |shown|..] == shown && forall i | 0 <= i < |s| - |shown| :: s[i] == ' ')
            && (!left && zero ==>
                  && s[..|Sign(v)|] == Sign(v) && s[|s| - |digits|..] == digits
                  && forall i | |Sign(v)| <= i < |s| - |digits| :: s[i] == '0')
  {
    hide Numeral;
    NumberShape(left, zero, wd, v, radix, upper);
    NumberLength(left, zero, wd, v, radix, upper);
    if !left && zero {
      var digits := Numeral(Abs(v), radix, upper);
      var fill := if wd > |Sign(v) + digits| then wd - |Sign(v) + digits| else 0;
      assert Number(left, zero, wd, v, radix, upper) == Sign(v) + Fill('0', fill) + digits;
    }
  }

  // Without flags, width and modifiers: the text reads back as the argument word,
  // and under %d and %i as its magnitude behind a dash; %X alone prints capitals.
  lemma PlainNumber(c: char, radix: nat, arg: Arg)
    requires Converts(c, radix)
    ensures var s := Meaning(Spec(false, false, "", "", c), arg);
            if c in "di" && arg.word >= 0x8000_0000
            then |s| > 1 && s[0] == '-' && Reading(s[1..], radix) == 0x1_0000_0000 - arg.word
            else Reading(s, radix) == arg.word
                 && forall d | d in s ::
                      '0' <= d <= '9' || (radix == 16 && if c == 'X' then 'A' <= d <= 'F' else 'a' <= d <= 'f')
  {
    var v := if c in "di" && arg.word >= 0x8000_0000 then arg.word - 0x1_0000_0000 else arg.word as int;
    assert Represents(v, arg.word, "", c);
    NumericText(false, false, "", "", c, radix, arg, v);
    ReadingSays("", '0', 10);
    NumeralReads(Abs(v), radix, c == 'X');
    NumeralLooks(Abs(v), radix, c == 'X');
    hide Numeral, Reading, Meaning, Represents;
    var digits := Numeral(Abs(v), radix, c == 'X');
    assert Meaning(Spec(false, false, "", "", c), arg) == (if v < 0 then "-" else "") + digits;
  }

  // %s prints the string at its argument and %c its lowest byte, in the width given,
  // in front of or behind spaces whatever the zero flag says.
  lemma StringText(left: bool, zero: bool, width: string, mods: string, c: char, arg: Arg)
    requires c == 's' || (c == 'c' && arg.word % 0x100 != 0)
    ensures var s := Meaning(Spec(left, zero, width, mods, c), arg); var wd := Reading(width, 10) % 0x1_0000_0000;
            var shown := if c == 's' then arg.text else [(arg.word % 0x100) as char];
            && |s| == (if wd > |shown| then wd else |shown|)
            && (left ==> s[..|shown|] == shown && forall i | |shown| <= i < |s| :: s[i] == ' ')
            && (!left ==> s[|s| - |shown|..] == shown && forall i | 0 <= i < |s| - |shown| :: s[i] == ' ')
  {
    hide Reading;
  }

  // Text prints itself, %% and %-% a percent sign, and %-- and every other
  // conversion nothing.
  lemma OtherText(item: Item, arg: Arg)
    ensures item.Literal? ==> Meaning(item, arg) == [item.c]
    ensures item.Percent? ==> Meaning(item, arg) == "%"
    ensures item.Illegal? || (item.Spec? && item.conv !in "Xxpndiuocs") ==> Meaning(item, arg) == ""
  {
  }

  // Each numeric, character or string conversion takes one argument, and the next
  // item that takes one gets the next.
  lemma ArgumentsTaken(items: seq<Item>, item: Item, args: Args)
    ensures Used([]) == 0 && Denote([], args) == ""
    ensures Denote(items + [item], args) == Denote(items, args) + Meaning(item, args(Used(items)))
    ensures Used(items + [item]) == Used(items) + if item.Spec? && item.conv in "Xxpndiuocs" then 1 else 0
  {
    DenoteMore(items, item, args);
  }

  lemma DenoteMore(items: seq<Item>, item: Item, args: Args)
    ensures Denote(items + [item], args) == Denote(items, args) + Meaning(item, args(Used(items)))
    ensures Used(items + [item]) == Used(items) + if item.Spec? && TakesArg(item.conv) then 1 else 0
  {
    assert (items + [item])[..|items|] == items;
  }

  // ----- The flag word -----

  function ModBits(mods: string): bv8 {
    if mods == "" then 0 else ModBits(mods[..|mods| - 1]) | ModBit(mods[|mods| - 1])
  }

  function ModBit(c: char): bv8 {
    if c == 'F' then PR_FP else if c == 'l' then PR_32 else if c == 'h' then PR_16 else 0
  }

  // The flags of a specification before its conversion is looked at.
  function FlagBits(left: bool, zero: bool, mods: string): bv8 {
    (if left then PR_LJ else 0) | (if zero then PR_LZ else 0) | ModBits(mods)
  }

  lemma {:induction false} ModBitsSay(mods: string)
    ensures ModBits(mods) & PR_32 != 0 <==> 'l' in mods
    ensures ModBits(mods) & PR_16 != 0 <==> 'h' in mods
    ensures ModBits(mods) & (PR_LJ | PR_CA | PR_SG | PR_WS | PR_LZ) == 0
  {
    if mods == "" {
    } else {
      var before, last := mods[..|mods| - 1], mods[|mods| - 1];
      ModBitsSay(before);
      assert mods == before + [last];
      OrBits(ModBits(before), ModBit(last));
    }
  }

  lemma OrBits(f: bv8, g: bv8)
    requires g == 0 || g == PR_FP || g == PR_32 || g == PR_16
    ensures (f | g) & PR_32 != 0 <==> f & PR_32 != 0 || g == PR_32
    ensures (f | g) & PR_16 != 0 <==> f & PR_16 != 0 || g == PR_16
    ensures (f | g) & (PR_LJ | PR_CA | PR_SG | PR_WS | PR_LZ) == f & (PR_LJ | PR_CA | PR_SG | PR_WS | PR_LZ)
  {
  }

  lemma FlagBitsSay(left: bool, zero: bool, mods: string)
    ensures var f := FlagBits(left, zero, mods);
            && (f & PR_LJ != 0 <==> left) && (f & PR_LZ != 0 <==> zero)
            && (f & PR_32 != 0 <==> 'l' in mods) && (f & PR_16 != 0 <==> 'h' in mods)
            && f & PR_CA == 0 && f & PR_SG == 0 && f & PR_WS == 0
  {
    ModBitsSay(mods);
    HeadBits(left, zero, ModBits(mods));
  }

  lemma HeadBits(left: bool, zero: bool, m: bv8)
    requires m & (PR_LJ | PR_CA | PR_SG | PR_WS | PR_LZ) == 0
    ensures var f := (if left then PR_LJ else 0) | (if zero then PR_LZ else 0) | m;
            && (f & PR_LJ != 0 <==> left) && (f & PR_LZ != 0 <==> zero)
            && f & PR_32 == m & PR_32 && f & PR_16 == m & PR_16
            && f & PR_CA == 0 && f & PR_SG == 0 && f & PR_WS == 0
  {
  }

  lemma SignBits(f: bv8)
    ensures f & (PR_WS | PR_LZ) == PR_WS <==> f & PR_WS != 0 && f & PR_LZ == 0
    ensures f & (PR_WS | PR_LZ) == PR_WS | PR_LZ <==> f & PR_WS != 0 && f & PR_LZ != 0
  {
  }

  lemma SetSign(f: bv8)
    ensures (f | PR_WS) & PR_WS != 0 && (f | PR_WS) & PR_LZ == f & PR_LZ && (f | PR_WS) & PR_LJ == f & PR_LJ
    ensures (f | PR_WS) & PR_CA == f & PR_CA
  {
  }

  lemma SetCapitals(f: bv8)
    ensures var g := f | PR_CA;
            && g & PR_CA != 0 && g & PR_LZ == f & PR_LZ && g & PR_LJ == f & PR_LJ && g & PR_SG == f & PR_SG
            && g & PR_32 == f & PR_32 && g & PR_16 == f & PR_16 && g & PR_WS == f & PR_WS
  {
  }

  lemma SetSigned(f: bv8)
    ensures var g := f | PR_SG;
            && g & PR_SG != 0 && g & PR_LZ == f & PR_LZ && g & PR_LJ == f & PR_LJ && g & PR_CA == f & PR_CA
            && g & PR_32 == f & PR_32 && g & PR_16 == f & PR_16 && g & PR_WS == f & PR_WS
  {
  }

  lemma ClearZero(f: bv8)
    ensures var g := f & !PR_LZ; g & PR_LZ == 0 && g & PR_LJ == f & PR_LJ && g & PR_WS == f & PR_WS
  {
  }

  // ----- The argument as a C long -----

  // The bits of `low` modulo `size`, as a signed number.
  function SignExtend(low: nat, size: nat): int {
    if low >= size / 2 then low - size else low
  }

  // The assignment to `num`: a short is extended with or without its sign, and
  // everything else is the word itself.
  function LoadLong(flags: bv8, word: u32): int {
    if flags & PR_32 != 0 then SignExtend(word, WORD_SIZE)
    else if flags & PR_16 != 0 then
      if flags & PR_SG != 0 then SignExtend(word % SHORT_SIZE, SHORT_SIZE) else word % SHORT_SIZE
    else SignExtend(word, WORD_SIZE)
  }

  // Negation wraps around: the least long is its own negative.
  function NegLong(n: int): int {
    if n == -(WORD_SIZE / 2) then n else -n
  }

  // What the digit loop is given, read as unsigned, is the magnitude.
  lemma LoadedNumber(flags: bv8, mods: string, word: u32)
    requires (flags & PR_32 != 0 <==> 'l' in mods) && (flags & PR_16 != 0 <==> 'h' in mods)
    ensures var n := LoadLong(flags, word); var v := NumberOf(mods, flags & PR_SG != 0, word);
            && (flags & PR_SG != 0 ==> (n < 0 <==> v < 0))
            && (if flags & PR_SG != 0 && n < 0 then NegLong(n) else n) % WORD_SIZE == Abs(v)
            && (flags & PR_SG == 0 ==> v >= 0)
  {
  }

  lemma SameBeforeNul(a: string, b: string)
    requires a + "\0" == b + "\0"
    ensures a == b
  {
    assert |a + "\0"| == |a| + 1 && |b + "\0"| == |b| + 1;
    assert (a + "\0")[..|a|] == a && (b + "\0")[..|b|] == b;
  }

  lemma JoinPadded(start: string, left: bool, pad: char, given: nat, neg: bool, text: string, actual: nat)
    ensures var fill := if given > actual then given - actual else 0;
            var begun := if left then start else start + Fill(pad, fill);
            var signed := if neg then begun + ['-'] else begun;
            signed + text + Fill(' ', if left then fill else 0) ==
            start + Padded(left, pad, given, (if neg then "-" else "") + text, actual)
  {
  }

  lemma JoinField(start: string, neg: bool, zero: bool, left: bool, given: nat, text: string)
    ensures var sign := if neg then "-" else "";
            var inner := if neg && !zero then "-" else "";
            var outer := if neg && zero then start + ['-'] else start;
            var pad := if zero then '0' else ' ';
            outer + Padded(left, pad, given, inner + text, |sign| + |text|) ==
            start + Field(left, zero, given, sign, text, |sign| + |text|)
  {
    assert "" + text == text;
    hide Padded;
  }

  lemma SpaceField(left: bool, given: nat, text: string, size: nat)
    ensures Field(left, false, given, "", text, size) == Padded(left, ' ', given, "" + text, size)
  {
  }

  // ----- Emitting -----

  class Printer {
    var out: string
    var count: u32

    ghost predicate Valid()
      reads this
    {
      count == |out| % WORD_SIZE
    }

    constructor ()
      ensures Valid() && out == ""
    {
      out, count := "", 0;
    }

    // fn, and the count that goes with it.
    method Fn(c: char)
      requires Valid()
      modifies this
      ensures Valid() && out == old(out) + [c]
    {
      out := out + [c];
      count := Add32(count, 1);
    }

    method PutAll(text: string)
      requires Valid()
      modifies this
      ensures Valid() && out == old(out) + text
    {
      for i := 0 to |text|
        invariant Valid() && out == old(out) + text[..i]
      {
        Fn(text[i]);
      }
    }

    // Emit c until wd has come down to `actual`.
    method PadTo(c: char, given: u32, actual: u32) returns (wd: u32)
      requires Valid()
      modifies this
      ensures Valid() && wd == (if given > actual then actual else given)
      ensures out == old(out) + Fill(c, given - wd)
    {
      wd := given;
      while wd > actual
        invariant Valid()
        invariant given >= wd >= (if given > actual then actual else given)
        invariant out == old(out) + Fill(c, given - wd)
      {
        Fn(c);
        wd := wd - 1;
      }
    }

    // The rest of a field from EMIT2 on.
    method EmitPadded(flags: bv8, given: u32, text: CText, actual: u32)
      requires Valid()
      modifies this
      ensures Valid()
      ensures var sign := if flags & PR_WS != 0 && flags & PR_LZ == 0 then "-" else "";
              var pad := if flags & PR_LZ != 0 then '0' else ' ';
              out == old(out) + Padded(flags & PR_LJ != 0, pad, given, sign + text, actual)
    {
      hide Padded, Fill;
      SignBits(flags);
      var wd := given;
      ghost var start := out;
      ghost var left, neg := flags & PR_LJ != 0, flags & PR_WS != 0 && flags & PR_LZ == 0;
      JoinPadded(start, left, if flags & PR_LZ != 0 then '0' else ' ', given, neg, text, actual);
      if flags & PR_LJ == 0 {
        wd := PadTo(if flags & PR_LZ != 0 then '0' else ' ', given, actual);
      }
      if flags & (PR_WS | PR_LZ) == PR_WS {
        Fn('-');
      }
      PutAll(text);
      wd := if wd < actual then 0 else wd - actual;
      wd := PadTo(' ', wd, 0);
    }

    // The rest of a field from EMIT on.
    method Emit(flags: bv8, given: u32, text: CText)
      requires Valid()
      modifies this
      ensures Valid()
      ensures var sign := if flags & PR_WS != 0 then "-" else "";
              out == old(out) + Field(flags & PR_LJ != 0, flags & PR_LZ != 0, given, sign, text, |sign| + |text|)
    {
      hide Padded, Field;
      SignBits(flags);
      var actual: u32 := |text|;
      if flags & PR_WS != 0 {
        actual := actual + 1;
      }
      ghost var start := out;
      if flags & (PR_WS | PR_LZ) == PR_WS | PR_LZ {
        Fn('-');
      }
      EmitPadded(flags, given, text, actual);
      JoinField(start, flags & PR_WS != 0, flags & PR_LZ != 0, flags & PR_LJ != 0, given, text);
    }

    // The DO_NUM part: load the argument, take care of its sign, convert, emit.
    method EmitNumber(flags: bv8, given: u32, radix: nat, word: u32, ghost mods: string)
      requires Valid() && IsRadix(radix)
      requires (flags & PR_32 != 0 <==> 'l' in mods) && (flags & PR_16 != 0 <==> 'h' in mods) && flags & PR_WS == 0
      modifies this
      ensures Valid()
      ensures out == old(out) + Number(flags & PR_LJ != 0, flags & PR_LZ != 0, given,
                                       NumberOf(mods, flags & PR_SG != 0, word), radix, flags & PR_CA != 0)
    {
      hide Numeral, Field;
      var num := LoadLong(flags, word);
      var fl := flags;
      LoadedNumber(flags, mods, word);
      if flags & PR_SG != 0 && num < 0 {
        SetSign(flags);
        fl := flags | PR_WS;
        num := NegLong(num);
      }
      var buf := new char[PR_BUFLEN];
      buf[PR_BUFLEN - 1] := '\0';
      var value: u32 := num % WORD_SIZE;
      var where := WriteDigits(value, radix, fl & PR_CA != 0, buf);
      NumeralReads(value, radix, fl & PR_CA != 0);
      var text := buf[where..PR_BUFLEN - 1];
      assert buf[where..] == text + "\0";
      SameBeforeNul(text, Numeral(value, radix, fl & PR_CA != 0));
      Emit(fl, given, text);
    }

    // STATE 4.  Returns whether the conversion took an argument.
    method Convert(flags: bv8, given: u32, conv: char, arg: Arg,
                   ghost left: bool, ghost zero: bool, ghost width: string, ghost mods: string)
      returns (took: bool)
      requires Valid() && flags == FlagBits(left, zero, mods) && given == WidthOf(width)
      modifies this
      ensures Valid() && took == TakesArg(conv)
      ensures out == old(out) + Meaning(Spec(left, zero, width, mods, conv), arg)
    {
      hide FlagBits, Number, NumberOf, Field, Padded, WidthOf, Character;
      FlagBitsSay(left, zero, mods);
      var fl := flags;
      took := true;
      if conv == 'X' {
        SetCapitals(fl);
        fl := fl | PR_CA;
        EmitNumber(fl, given, 16, arg.word, mods);
      } else if conv == 'x' || conv == 'p' || conv == 'n' {
        EmitNumber(fl, given, 16, arg.word, mods);
      } else if conv == 'd' || conv == 'i' {
        SetSigned(fl);
        fl := fl | PR_SG;
        EmitNumber(fl, given, 10, arg.word, mods);
      } else if conv == 'u' {
        EmitNumber(fl, given, 10, arg.word, mods);
      } else if conv == 'o' {
        EmitNumber(fl, given, 8, arg.word, mods);
      } else if conv == 'c' {
        ClearZero(fl);
        fl := fl & !PR_LZ;
        EmitPadded(fl, given, Character(arg.word), 1);
        SpaceField(left, given, Character(arg.word), 1);
      } else if conv == 's' {
        ClearZero(fl);
        fl := fl & !PR_LZ;
        Emit(fl, given, arg.text);
      } else {
        took := false;
      }
    }
  }

  // ----- The scan -----

  // The items read so far, followed by a format.
  function Glue(done: seq<Item>, f: Format): Format {
    Format(done + f.items, f.tail)
  }

  // What the scan has seen of the current specification.
  datatype Seen = Seen(state: nat, left: bool, zero: bool, width: string, mods: string)

  const START := Seen(0, false, false, "", "")

  // The rest of the format, as the state reads it.
  function Resume(g: Seen, s: string): Format {
    if g.state == 0 then Text(s)
    else if g.state == 1 then Flag(g.left, s)
    else if g.state == 2 then Width(g.left, g.zero, g.width, s)
    else Mods(g.left, g.zero, g.width, g.mods, s)
  }

  // The variables a state has not used yet are in their initial state.
  predicate Fresh(g: Seen) {
    && g.state <= 3
    && (g.state == 0 ==> !g.left)
    && (g.state <= 1 ==> !g.zero && g.width == "")
    && (g.state <= 2 ==> g.mods == "")
  }

  // At the head of the loop a state has been left only by a character of its own.
  predicate Settled(g: Seen) {
    && (g.state == 1 ==> g.left)
    && (g.state == 2 ==> g.width != "")
    && (g.state == 3 ==> g.mods != "")
  }

  ghost predicate Scanned(fmt: string, i: nat, g: Seen, done: seq<Item>) {
    i <= |fmt| && Fresh(g) && Text(fmt) == Glue(done, Resume(g, fmt[i..]))
  }

  // The character at i belongs to the specification g, which it makes h.
  predicate Extends(fmt: string, i: nat, g: Seen, h: Seen)
    requires i < |fmt|
  {
    && (g.state == 0 ==> fmt[i] == '%' && h == g.(state := 1))
    && (g.state == 1 ==>
          (fmt[i] == '-' && !g.left && h == g.(left := true)) || (fmt[i] == '0' && h == g.(state := 2, zero := true)))
    && (g.state == 2 ==> IsDigit(fmt[i]) && h == g.(width := g.width + [fmt[i]]))
    && (g.state == 3 ==> IsMod(fmt[i]) && h == g.(mods := g.mods + [fmt[i]]))
  }

  // The character at i ends the specification g, or is text, and makes it `item`.
  predicate Ends(fmt: string, i: nat, g: Seen, item: Item)
    requires i < |fmt|
  {
    && (g.state == 0 ==> fmt[i] != '%' && item == Literal(fmt[i]))
    && (g.state == 1 ==>
          (fmt[i] == '%' && item == Percent(g.left)) || (fmt[i] == '-' && g.left && item == Illegal))
    && g.state != 2
    && (g.state == 3 ==> !IsMod(fmt[i]) && item == Spec(g.left, g.zero, g.width, g.mods, fmt[i]))
  }

  lemma GlueItem(done: seq<Item>, item: Item, f: Format)
    ensures Glue(done, Cons(item, f)) == Glue(done + [item], f)
  {
    assert done + ([item] + f.items) == done + [item] + f.items;
  }

  lemma ScanStart(fmt: string)
    ensures Scanned(fmt, 0, START, [])
  {
    assert fmt[0..] == fmt;
    assert [] + Text(fmt).items == Text(fmt).items;
  }

  // An item is complete, and the scan starts afresh behind its last character.
  lemma ScanItem(fmt: string, i: nat, g: Seen, done: seq<Item>, item: Item)
    requires Scanned(fmt, i, g, done) && i < |fmt|
    requires Ends(fmt, i, g, item)
    ensures Scanned(fmt, i + 1, START, done + [item])
  {
    assert fmt[i..][1..] == fmt[i + 1..];
    assert Resume(g, fmt[i..]) == Cons(item, Text(fmt[i + 1..])) by { hide Scanned; }
    GlueItem(done, item, Text(fmt[i + 1..]));
    hide Text, Glue, Flag, Width, Mods;
  }

  // A character of the current specification is taken.
  lemma ScanTake(fmt: string, i: nat, g: Seen, done: seq<Item>, h: Seen)
    requires Scanned(fmt, i, g, done) && i < |fmt|
    requires Extends(fmt, i, g, h)
    ensures Scanned(fmt, i + 1, h, done)
  {
    assert fmt[i..][1..] == fmt[i + 1..];
    assert Resume(g, fmt[i..]) == Resume(h, fmt[i + 1..]) by { hide Scanned; }
    hide Text, Glue, Flag, Width, Mods;
  }

  // The character, or the end of the string, is not one of the state's own: fall
  // through to the next.
  lemma ScanFall(fmt: string, i: nat, g: Seen, done: seq<Item>)
    requires Scanned(fmt, i, g, done) && (g.state == 1 || g.state == 2)
    requires g.state == 1 && i < |fmt| ==> fmt[i] != '%' && fmt[i] != '-' && fmt[i] != '0'
    requires g.state == 2 && i < |fmt| ==> !IsDigit(fmt[i])
    ensures Scanned(fmt, i, g.(state := g.state + 1), done)
  {
    assert Resume(g, fmt[i..]) == Resume(g.(state := g.state + 1), fmt[i..]) by { hide Scanned; }
    hide Text, Glue, Flag, Width, Mods;
  }

  lemma ScanEnd(fmt: string, g: Seen, done: seq<Item>)
    requires Scanned(fmt, |fmt|, g, done)
    ensures Text(fmt) == Format(done, if g.state == 0 then Complete else Cut(g.left, g.zero, g.width, g.mods))
  {
    assert fmt[|fmt|..] == "";
    assert done + [] == done;
  }

  ghost predicate Agrees(g: Seen, flags: bv8, given: u32) {
    flags == FlagBits(g.left, g.zero, g.mods) && given == WidthOf(g.width)
  }

  lemma AgreesStart()
    ensures Agrees(START, 0, 0)
  {
    assert Reading("", 10) == 0;
  }

  lemma AgreesFlag(g: Seen, flags: bv8, given: u32)
    requires Agrees(g, flags, given) && g.mods == ""
    ensures flags & PR_LJ != 0 <==> g.left
    ensures Agrees(g.(left := true), flags | PR_LJ, given)
    ensures Agrees(g.(state := 2, zero := true), flags | PR_LZ, given)
  {
    FlagBitsSay(g.left, g.zero, g.mods);
    OrHead(g.left, g.zero);
    hide WidthOf;
  }

  lemma OrHead(left: bool, zero: bool)
    ensures FlagBits(left, zero, "") | PR_LJ == FlagBits(true, zero, "")
    ensures FlagBits(left, zero, "") | PR_LZ == FlagBits(left, true, "")
  {
  }

  lemma AgreesDigit(g: Seen, flags: bv8, given: u32, c: char)
    requires Agrees(g, flags, given) && IsDigit(c)
    ensures Agrees(g.(width := g.width + [c]), flags, (10 * given + (c as nat - '0' as nat)) % WORD_SIZE)
  {
    var w := g.width + [c];
    assert w[..|w| - 1] == g.width;
    assert Reading(w, 10) == Reading(g.width, 10) * 10 + DigitValue(c);
    HornerWraps(Reading(g.width, 10), DigitValue(c));
    hide FlagBits;
  }

  lemma HornerWraps(a: nat, d: nat)
    ensures (10 * (a % WORD_SIZE) + d) % WORD_SIZE == (a * 10 + d) % WORD_SIZE
  {
    var q := a / WORD_SIZE;
    assert a * 10 + d == (10 * (a % WORD_SIZE) + d) + WORD_SIZE * (10 * q);
  }

  lemma AgreesMod(g: Seen, flags: bv8, given: u32, c: char)
    requires Agrees(g, flags, given)
    ensures Agrees(g.(mods := g.mods + [c]), flags | ModBit(c), given)
  {
    var m := g.mods + [c];
    assert m[..|m| - 1] == g.mods;
    OrMod(if g.left then PR_LJ else 0, if g.zero then PR_LZ else 0, ModBits(g.mods), ModBit(c));
    hide WidthOf;
  }

  lemma OrMod(a: bv8, b: bv8, c: bv8, d: bv8)
    ensures a | b | (c | d) == (a | b | c) | d
  {
  }

  // The character under the scan, or the terminating NUL.
  function CharAt(fmt: string, i: nat): char
    requires i <= |fmt|
  {
    if i < |fmt| then fmt[i] else '\0'
  }

  lemma AgreesState(g: Seen, flags: bv8, given: u32, state: nat)
    requires Agrees(g, flags, given)
    ensures Agrees(g.(state := state), flags, given)
  {
  }

  // What the variables of the scan say: `done` is read and printed, g is the
  // specification begun, and the rest is still to be read.
  ghost predicate Running(fmt: string, args: Args, i: nat, g: Seen, done: seq<Item>,
                          flags: bv8, given: u32, k: nat, out: string) {
    Scanned(fmt, i, g, done) && Agrees(g, flags, given) && k == Used(done) && out == Denote(done, args)
  }

  lemma RunStart(fmt: string, args: Args)
    ensures Running(fmt, args, 0, START, [], 0, 0, 0, "")
  {
    ScanStart(fmt);
    AgreesStart();
  }

  lemma RunItem(fmt: string, args: Args, i: nat, g: Seen, done: seq<Item>,
                flags: bv8, given: u32, k: nat, out: string, item: Item)
    requires Running(fmt, args, i, g, done, flags, given, k, out) && i < |fmt|
    requires Ends(fmt, i, g, item)
    ensures Running(fmt, args, i + 1, START, done + [item], 0, 0,
                    k + (if item.Spec? && TakesArg(item.conv) then 1 else 0), out + Meaning(item, args(k)))
  {
    ScanItem(fmt, i, g, done, item);
    DenoteMore(done, item, args);
    AgreesStart();
    hide Scanned, Denote, Used, Agrees, Meaning;
  }

  lemma RunTake(fmt: string, args: Args, i: nat, g: Seen, done: seq<Item>,
                flags: bv8, given: u32, k: nat, out: string, h: Seen, newFlags: bv8, newGiven: u32)
    requires Running(fmt, args, i, g, done, flags, given, k, out) && i < |fmt|
    requires Extends(fmt, i, g, h)
    requires Agrees(h, newFlags, newGiven)
    ensures Running(fmt, args, i + 1, h, done, newFlags, newGiven, k, out)
  {
    hide Extends;
    ScanTake(fmt, i, g, done, h);
    hide Scanned, Denote, Used, Agrees;
  }

  lemma RunFall(fmt: string, args: Args, i: nat, g: Seen, done: seq<Item>,
                flags: bv8, given: u32, k: nat, out: string)
    requires Running(fmt, args, i, g, done, flags, given, k, out) && (g.state == 1 || g.state == 2)
    requires g.state == 1 && i < |fmt| ==> fmt[i] != '%' && fmt[i] != '-' && fmt[i] != '0'
    requires g.state == 2 && i < |fmt| ==> !IsDigit(fmt[i])
    ensures Running(fmt, args, i, g.(state := g.state + 1), done, flags, given, k, out)
  {
    ScanFall(fmt, i, g, done);
    hide Scanned, Denote, Used;
  }

  lemma RunSays(fmt: string, args: Args, i: nat, g: Seen, done: seq<Item>,
                flags: bv8, given: u32, k: nat, out: string)
    requires Running(fmt, args, i, g, done, flags, given, k, out)
    ensures i <= |fmt| && Fresh(g) && Agrees(g, flags, given)
    ensures flags == FlagBits(g.left, g.zero, g.mods) && given == WidthOf(g.width)
    ensures g.state == 0 ==> flags == 0 && given == 0
    ensures i == |fmt| ==>
              Text(fmt) == Format(done, if g.state == 0 then Complete else Cut(g.left, g.zero, g.width, g.mods))
    ensures out == Denote(done, args)
  {
    if i == |fmt| {
      ScanEnd(fmt, g, done);
    }
    AgreesStart();
    hide Text, Denote, FlagBits, WidthOf;
  }

  lemma MeaningMarks(c: char, arg: Arg)
    ensures Meaning(Literal(c), arg) == [c] && Meaning(Percent(true), arg) == Meaning(Percent(false), arg) == "%"
    ensures Meaning(Illegal, arg) == ""
  {
  }

  lemma NoMeaning(left: bool, zero: bool, width: string, mods: string, arg: Arg)
    ensures Meaning(Spec(left, zero, width, mods, '\0'), arg) == "" && !TakesArg('\0')
  {
  }

  // The variables of do_printf between two characters, and the body of its switch,
  // one method for each state.  A method returns whether it has taken the
  // character (`break` in the source) or falls through to the next state.
  class Scanner {
    const fmt: CString
    const args: Args
    const printer: Printer
    var i: nat
    var state: nat
    var flags: bv8
    var given: u32
    var k: nat
    ghost var g: Seen
    ghost var done: seq<Item>

    ghost predicate Here()
      reads this, printer
    {
      && printer.Valid() && Running(fmt, args, i, g, done, flags, given, k, printer.out)
      && i <= |fmt| && state == g.state && Fresh(g)
    }

    // Falling through at the end of the string, the scan will overrun it.
    ghost predicate AtEnd()
      reads this
    {
      i == |fmt| ==> Overruns(Cut(g.left, g.zero, g.width, g.mods))
    }

    constructor (fmt: CString, args: Args)
      ensures this.fmt == fmt && this.args == args && fresh(printer) && Here() && i == state == 0
    {
      this.fmt, this.args := fmt, args;
      printer := new Printer();
      i, state, flags, given, k := 0, 0, 0, 0, 0;
      g, done := START, [];
      RunStart(fmt, args);
    }

    lemma Says()
      requires Here()
      ensures printer.Valid() && i <= |fmt| && state == g.state && Fresh(g) && Agrees(g, flags, given)
      ensures flags == FlagBits(g.left, g.zero, g.mods) && given == WidthOf(g.width)
    {
      hide Running, Agrees;
      RunSays(fmt, args, i, g, done, flags, given, k, printer.out);
    }

    // The character belongs to the specification.
    method Take(ghost h: Seen, newState: nat, newFlags: bv8, newGiven: u32)
      requires Here() && i < |fmt| && Extends(fmt, i, g, h) && Agrees(h, newFlags, newGiven) && newState == h.state
      modifies this
      ensures Here() && g == h && i == old(i) + 1 && state == newState && done == old(done)
    {
      hide Running, Agrees, Extends, Printer.Valid;
      RunTake(fmt, args, i, g, done, flags, given, k, printer.out, h, newFlags, newGiven);
      RunSays(fmt, args, i + 1, h, done, newFlags, newGiven, k, printer.out);
      g := h;
      state, flags, given := newState, newFlags, newGiven;
      i := i + 1;
    }

    // The character does not: fall through.
    method Fall()
      requires Here() && (state == 1 || state == 2)
      requires state == 1 && i < |fmt| ==> fmt[i] != '%' && fmt[i] != '-' && fmt[i] != '0'
      requires state == 2 && i < |fmt| ==> !IsDigit(fmt[i])
      modifies this`g, this`state
      ensures Here() && g == old(g).(state := old(state) + 1) && state == old(state) + 1
    {
      hide Running, Printer.Valid;
      RunFall(fmt, args, i, g, done, flags, given, k, printer.out);
      g, state := g.(state := state + 1), state + 1;
      RunSays(fmt, args, i, g, done, flags, given, k, printer.out);
    }

    // An item is complete: print its meaning, state = flags = given_wd = 0.
    method Finish(ghost item: Item)
      requires i < |fmt| && printer.Valid()
      requires Running(fmt, args, i + 1, START, done + [item], 0, 0, k, printer.out)
      modifies this
      ensures Here() && state == 0 && g == START && i == old(i) + 1
    {
      hide Running;
      done, g := done + [item], START;
      state, flags, given := 0, 0, 0;
      i := i + 1;
    }

    // A character of text or of an item without arguments.
    method Mark(ghost item: Item, c: char)
      requires Here() && i < |fmt| && Ends(fmt, i, g, item) && !item.Spec? && Meaning(item, args(k)) == [c]
      modifies this, printer
      ensures Here() && state == 0 && g == START && i == old(i) + 1
    {
      hide Running, Meaning, Denote;
      ghost var out := printer.out;
      RunItem(fmt, args, i, g, done, flags, given, k, out, item);
      printer.Fn(c);
      Finish(item);
    }

    // STATE 0: awaiting %
    method StateText() returns (taken: bool)
      requires Here() && state == 0 && i < |fmt|
      modifies this, printer
      ensures Here() && i == old(i) + 1 && (if taken then state == 0 else state == 1 && AtEnd())
    {
      hide Meaning, FlagBits, WidthOf, Agrees, Here;
      Says();
      if fmt[i] != '%' {
        MeaningMarks(fmt[i], args(k));
        Mark(Literal(fmt[i]), fmt[i]);
        return true;
      }
      AgreesState(g, flags, given, 1);
      Take(g.(state := 1), 1, flags, given);
      return false;
    }

    // STATE 1: awaiting flags
    method StateFlags() returns (taken: bool)
      requires Here() && state == 1 && AtEnd()
      modifies this, printer
      ensures Here() && (if taken then Settled(g) && i == old(i) + 1 else state == 2 && i >= old(i) && AtEnd())
    {
      hide Meaning, FlagBits, WidthOf, Agrees, Here;
      Says();
      var c := CharAt(fmt, i);
      if c == '%' {
        MeaningMarks(c, args(k));
        Mark(Percent(g.left), c);
        return true;
      }
      if c == '-' {
        Dash();
        return true;
      }
      if c == '0' {
        AgreesFlag(g, flags, given);
        Take(g.(state := 2, zero := true), 2, flags | PR_LZ, given);
      } else {
        Fall();
      }
      return false;
    }

    // A first - sets the flag, a second one is illegal.
    method Dash()
      requires Here() && state == 1 && i < |fmt| && fmt[i] == '-'
      modifies this
      ensures Here() && Settled(g) && i == old(i) + 1
    {
      hide Meaning, FlagBits, WidthOf, Agrees, Here;
      Says();
      AgreesFlag(g, flags, given);
      if flags & PR_LJ != 0 {
        Drop();
      } else {
        Take(g.(left := true), 1, flags | PR_LJ, given);
      }
    }

    method Drop()
      requires Here() && state == 1 && i < |fmt| && fmt[i] == '-' && g.left
      modifies this
      ensures Here() && state == 0 && g == START && i == old(i) + 1
    {
      hide Running, Meaning, Denote;
      RunItem(fmt, args, i, g, done, flags, given, k, printer.out, Illegal);
      MeaningMarks('-', args(k));
      assert printer.out + "" == printer.out;
      Finish(Illegal);
    }

    // STATE 2: awaiting (numeric) field width
    method StateWidth() returns (taken: bool)
      requires Here() && state == 2 && AtEnd()
      modifies this
      ensures Here() && (if taken then Settled(g) && i == old(i) + 1 else state == 3 && i == old(i) && AtEnd())
    {
      hide FlagBits, WidthOf, Agrees, Here;
      Says();
      var c := CharAt(fmt, i);
      if IsDigit(c) {
        AgreesDigit(g, flags, given, c);
        Take(g.(width := g.width + [c]), 2, flags, (10 * given + (c as nat - '0' as nat)) % WORD_SIZE);
        return true;
      }
      Fall();
      return false;
    }

    // STATE 3: awaiting modifier characters
    method StateMods() returns (taken: bool)
      requires Here() && state == 3 && AtEnd()
      modifies this
      ensures Here() && (if taken then Settled(g) && i == old(i) + 1
                         else state == 3 && i == old(i) && AtEnd() && !IsMod(CharAt(fmt, i)))
    {
      hide FlagBits, WidthOf, Agrees, Here, ModBit;
      Says();
      var c := CharAt(fmt, i);
      if !IsMod(c) {
        return false;
      }
      AgreesMod(g, flags, given, c);
      var f := SetModifier(flags, c);
      Take(g.(mods := g.mods + [c]), 3, f, given);
      return true;
    }

    static method SetModifier(flags: bv8, c: char) returns (f: bv8)
      ensures f == flags | ModBit(c)
    {
      f := flags;
      if c == 'F' {
        f := f | PR_FP;
      } else if c == 'l' {
        f := f | PR_32;
      } else if c == 'h' {
        f := f | PR_16;
      }
    }

    // STATE 4: the conversion character, and the reset.  At the end of the string
    // it is the terminating NUL, and the scan goes past it.
    method StateConversion()
      requires Here() && state == 3 && AtEnd() && !IsMod(CharAt(fmt, i))
      modifies this, printer
      ensures i == old(i) + 1 && printer.Valid()
      ensures i <= |fmt| ==> Here() && state == 0
      ensures i > |fmt| ==> printer.out == Denote(Text(fmt).items, args) && Overruns(Text(fmt).tail)
    {
      hide Meaning, Denote, Text, FlagBits, WidthOf, Agrees, Running, TakesArg;
      ghost var out := printer.out;
      var c := CharAt(fmt, i);
      RunSays(fmt, args, i, g, done, flags, given, k, out);
      var took := printer.Convert(flags, given, c, args(k), g.left, g.zero, g.width, g.mods);
      if i < |fmt| {
        ghost var item := Spec(g.left, g.zero, g.width, g.mods, c);
        RunItem(fmt, args, i, g, done, flags, given, k, out, item);
        if took {
          k := k + 1;
        }
        Finish(item);
      } else {
        NoMeaning(g.left, g.zero, g.width, g.mods, args(k));
        assert out + "" == out;
        state, flags, given := 0, 0, 0;
        i := i + 1;
      }
    }
  }

  // For every format and all arguments: what is printed is the meaning of the
  // format's items, the result counts it, and the scan runs past the end of the
  // format exactly where a flag or conversion is missing there.
  method DoPrintf(fmt: CString, args: Args) returns (out: string, count: u32, overran: bool)
    ensures out == Denote(Text(fmt).items, args)
    ensures count == |out| % WORD_SIZE
    ensures overran <==> Overruns(Text(fmt).tail)
  {
    hide Text, Denote, Running;
    var s := new Scanner(fmt, args);
    while s.i < |fmt|
      invariant s.i <= |fmt| + 1 && fresh(s) && fresh(s.printer) && s.printer.Valid() && s.fmt == fmt && s.args == args
      invariant s.i <= |fmt| ==> s.Here() && Settled(s.g)
      invariant s.i > |fmt| ==> s.printer.out == Denote(Text(fmt).items, args) && Overruns(Text(fmt).tail)
    {
      ScanOne(s);
    }
    if s.i == |fmt| {
      RunSays(fmt, args, s.i, s.g, s.done, s.flags, s.given, s.k, s.printer.out);
    }
    out, count, overran := s.printer.out, s.printer.count, s.i > |fmt|;
  }

  // One turn of the loop: the switch, falling through from the current state.
  method ScanOne(s: Scanner)
    requires s.Here() && Settled(s.g) && s.i < |s.fmt|
    modifies s, s.printer
    ensures old(s.i) < s.i <= |s.fmt| + 1 && s.printer.Valid()
    ensures s.i <= |s.fmt| ==> s.Here() && Settled(s.g)
    ensures s.i > |s.fmt| ==>
              s.printer.out == Denote(Text(s.fmt).items, s.args) && Overruns(Text(s.fmt).tail)
  {
    hide Text, Denote, Running;
    var taken := false;
    if s.state == 0 {
      taken := s.StateText();
    }
    if !taken && s.state == 1 {
      taken := s.StateFlags();
    }
    if !taken && s.state == 2 {
      taken := s.StateWidth();
    }
    if !taken {
      taken := s.StateMods();
    }
    if !taken {
      s.StateConversion();
    }
  }
}
