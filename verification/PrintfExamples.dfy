// Formats that are put together piece by piece, and what the examples at the end of
// lib/stdio/doprintf.c print.

module PrintfExamples {
  import opened Words
  import opened Formats
  import opened Numerals
  import opened Printf

  // fmt is a whole format that takes `used` arguments and prints `out`.
  ghost predicate Prints(fmt: string, args: Args, out: string, used: nat) {
    && '\0' !in fmt && Text(fmt).tail == Complete
    && Denote(Text(fmt).items, args) == out && Used(Text(fmt).items) == used
  }

  lemma PrintsNothing(args: Args)
    ensures Prints("", args, "", 0)
  {
  }

  lemma {:induction false} RenderMore(items: seq<Item>, item: Item)
    ensures Render(Format(items + [item], Complete)) == Render(Format(items, Complete)) + RenderItem(item)
    decreases |items|
  {
    var more := items + [item];
    if items == [] {
      assert more[0] == item && more[1..] == [];
      assert Render(Format([], Complete)) == "";
    } else {
      assert more[0] == items[0] && more[1..] == items[1..] + [item];
      RenderMore(items[1..], item);
      hide RenderItem;
    }
  }

  lemma GoodMore(items: seq<Item>, item: Item)
    requires Good(Format(items, Complete)) && GoodItem(item)
    ensures Good(Format(items + [item], Complete))
  {
    hide GoodItem;
  }

  lemma TextMore(fmt: CString, item: Item)
    requires Text(fmt).tail == Complete && GoodItem(item)
    ensures Text(fmt + RenderItem(item)) == Format(Text(fmt).items + [item], Complete)
  {
    hide Render, RenderItem, Good, GoodItem, Text;
    var items := Text(fmt).items;
    assert Text(fmt) == Format(items, Complete);
    TextRenders(fmt);
    RenderMore(items, item);
    GoodMore(items, item);
    TextReads(Format(items + [item], Complete));
  }

  // A whole format followed by one more item prints what it printed, and then the
  // item's meaning for the next argument.
  lemma PrintsItem(fmt: string, args: Args, out: string, used: nat, item: Item)
    requires Prints(fmt, args, out, used) && GoodItem(item) && '\0' !in RenderItem(item)
    ensures Prints(fmt + RenderItem(item), args, out + Meaning(item, args(used)),
                   used + if item.Spec? && item.conv in "Xxpndiuocs" then 1 else 0)
  {
    hide RenderItem, GoodItem, Text, Meaning, Denote, Used;
    TextMore(fmt, item);
    ArgumentsTaken(Text(fmt).items, item, args);
  }

  lemma PrintsLetter(fmt: string, args: Args, out: string, used: nat, c: char)
    requires Prints(fmt, args, out, used) && c != '%' && c != '\0'
    ensures Prints(fmt + [c], args, out + [c], used)
  {
    OtherText(Literal(c), args(used));
    assert RenderItem(Literal(c)) == [c];
    hide Prints, Meaning, RenderItem;
    PrintsItem(fmt, args, out, used, Literal(c));
  }

  lemma {:induction false} PrintsText(fmt: string, args: Args, out: string, used: nat, t: string)
    requires Prints(fmt, args, out, used) && '%' !in t && '\0' !in t
    ensures Prints(fmt + t, args, out + t, used)
    decreases |t|
  {
    hide Prints;
    if t == "" {
      assert fmt + t == fmt && out + t == out;
    } else {
      PrintsLetter(fmt, args, out, used, t[0]);
      PrintsText(fmt + [t[0]], args, out + [t[0]], used, t[1..]);
      assert fmt + t == fmt + [t[0]] + t[1..] && out + t == out + [t[0]] + t[1..];
    }
  }

  // A conversion and the text behind it.
  lemma PrintsPlain(fmt: string, args: Args, out: string, used: nat, item: Item, t: string, shown: string)
    requires Prints(fmt, args, out, used) && GoodItem(item) && item.Spec? && item.conv in "Xxpndiuocs"
    requires '\0' !in RenderItem(item) && '%' !in t && '\0' !in t && Meaning(item, args(used)) == shown
    ensures Prints(fmt + RenderItem(item) + t, args, out + shown + t, used + 1)
  {
    hide Prints, Meaning, RenderItem, GoodItem;
    PrintsItem(fmt, args, out, used, item);
    PrintsText(fmt + RenderItem(item), args, out + shown, used + 1, t);
  }

  // Item i, written w, with the text behind it.
  predicate Piece(i: Item, w: string, t: string) {
    && RenderItem(i) == w && '\0' !in w && '%' !in t && '\0' !in t && i.Spec? && i.conv in "Xxpndiuocs"
  }

  // Two conversions take the first two arguments.
  lemma PrintsTwo(args: Args, t: string, i: Item, v: string, t1: string, j: Item, w: string, t2: string)
    requires '%' !in t && '\0' !in t && Piece(i, v, t1) && Piece(j, w, t2) && GoodItem(i) && GoodItem(j)
    ensures Prints(t + v + t1 + w + t2, args, t + Meaning(i, args(0)) + t1 + Meaning(j, args(1)) + t2, 2)
  {
    hide Prints, Meaning, RenderItem, GoodItem;
    PrintsNothing(args);
    PrintsText("", args, "", 0, t);
    assert "" + t == t;
    PrintsPlain(t, args, t, 0, i, t1, Meaning(i, args(0)));
    PrintsPlain(t + v + t1, args, t + Meaning(i, args(0)) + t1, 1, j, t2, Meaning(j, args(1)));
  }

  lemma AllOnes()
    ensures Numeral(0xFFFF_FFFF, 16, true) == "FFFFFFFF" && Numeral(0xFFFF_FFFF, 8, false) == "37777777777"
  {
    assert Numeral(0xF, 16, true) == "F";
    assert Numeral(0xFF, 16, true) == "FF";
    assert Numeral(0xFFF, 16, true) == "FFF";
    assert Numeral(0xFFFF, 16, true) == "FFFF";
    assert Numeral(0xF_FFFF, 16, true) == "FFFFF";
    assert Numeral(0xFF_FFFF, 16, true) == "FFFFFF";
    assert Numeral(0xFFF_FFFF, 16, true) == "FFFFFFF";
    assert Numeral(3, 8, false) == "3";
    assert Numeral(0x1F, 8, false) == "37";
    assert Numeral(0xFF, 8, false) == "377";
    assert Numeral(0x7FF, 8, false) == "3777";
    assert Numeral(0x3FFF, 8, false) == "37777";
    assert Numeral(0x1_FFFF, 8, false) == "377777";
    assert Numeral(0xF_FFFF, 8, false) == "3777777";
    assert Numeral(0x7F_FFFF, 8, false) == "37777777";
    assert Numeral(0x3FF_FFFF, 8, false) == "377777777";
    assert Numeral(0x1FFF_FFFF, 8, false) == "3777777777";
  }

  lemma ScoreParts(args: Args)
    requires args(0).word == 4 && args(1).word == 0x1_0000_0000 - 7
    ensures Meaning(Spec(false, false, "", "", 'u'), args(0)) == "4"
    ensures Meaning(Spec(false, false, "", "", 'i'), args(1)) == "-7"
  {
  }

  lemma Score(args: Args)
    requires args(0).word == 4 && args(1).word == 0x1_0000_0000 - 7
    ensures Prints("" + "%u" + " score and " + "%i" + " years ago...\n", args,
                   "" + "4" + " score and " + "-7" + " years ago...\n", 2)
  {
    var u, i := Spec(false, false, "", "", 'u'), Spec(false, false, "", "", 'i');
    assert GoodItem(u) && Piece(u, "%u", " score and ") && GoodItem(i) && Piece(i, "%i", " years ago...\n");
    hide Prints, Meaning, RenderItem, GoodItem, Piece;
    ScoreParts(args);
    PrintsTwo(args, "", u, "%u", " score and ", i, "%i", " years ago...\n");
  }

  lemma OctalParts(arg: Arg)
    requires arg.word == 0xFFFF_FFFF
    ensures Meaning(Spec(false, false, "", "l", 'X'), arg) == "FFFFFFFF"
    ensures Meaning(Spec(false, false, "", "l", 'o'), arg) == "37777777777"
  {
    AllOnes();
    hide Numeral;
    NumericText(false, false, "", "l", 'X', 16, arg, 0xFFFF_FFFF);
    NumericText(false, false, "", "l", 'o', 8, arg, 0xFFFF_FFFF);
    hide Meaning;
    ReadingSays("", '0', 10);
    assert "" + "FFFFFFFF" == "FFFFFFFF" && "" + "37777777777" == "37777777777";
  }

  lemma OctalPieces()
    ensures GoodItem(Spec(false, false, "", "l", 'X')) && GoodItem(Spec(false, false, "", "l", 'o'))
    ensures Piece(Spec(false, false, "", "l", 'X'), "%lX", " == octal ")
    ensures Piece(Spec(false, false, "", "l", 'o'), "%lo", "\n")
  {
  }

  lemma Octal(args: Args)
    requires args(0).word == args(1).word == 0xFFFF_FFFF
    ensures Prints("-1L == 0x" + "%lX" + " == octal " + "%lo" + "\n", args,
                   "-1L == 0x" + "FFFFFFFF" + " == octal " + "37777777777" + "\n", 2)
  {
    var x, o := Spec(false, false, "", "l", 'X'), Spec(false, false, "", "l", 'o');
    hide Prints, Meaning, RenderItem, GoodItem, Piece;
    OctalPieces();
    OctalParts(args(0));
    OctalParts(args(1));
    PrintsTwo(args, "-1L == 0x", x, "%lX", " == octal ", o, "%lo", "\n");
  }

  lemma Eight()
    ensures Reading("8", 10) % 0x1_0000_0000 == 8
  {
    ReadingSays("", '8', 10);
    assert "" + "8" == "8";
  }

  lemma JustifiedParts(args: Args)
    requires args(0).text == "left" && args(1).text == "right"
    ensures Meaning(Spec(true, true, "8", "", 's'), args(0)) == "left" + "    "
    ensures Meaning(Spec(false, true, "8", "", 's'), args(1)) == "   " + "right"
  {
    hide Meaning, Reading;
    Eight();
    StringText(true, true, "8", "", 's', args(0));
    StringText(false, true, "8", "", 's', args(1));
    var l, r := Meaning(Spec(true, true, "8", "", 's'), args(0)), Meaning(Spec(false, true, "8", "", 's'), args(1));
    assert l == l[..4] + l[4..] && l[4..] == "    ";
    assert r == r[..3] + r[3..] && r[..3] == "   ";
  }

  lemma Justified(args: Args)
    requires args(0).text == "left" && args(1).text == "right"
    ensures Prints("<" + "%-08s" + "> and <" + "%08s" + "> justified strings\n", args,
                   "<" + ("left" + "    ") + "> and <" + ("   " + "right") + "> justified strings\n", 2)
  {
    var l, r := Spec(true, true, "8", "", 's'), Spec(false, true, "8", "", 's');
    assert GoodItem(l) && Piece(l, "%-08s", "> and <") && GoodItem(r) && Piece(r, "%08s", "> justified strings\n");
    hide Prints, Meaning, RenderItem, GoodItem, Piece;
    JustifiedParts(args);
    PrintsTwo(args, "<", l, "%-08s", "> and <", r, "%08s", "> justified strings\n");
  }
}
