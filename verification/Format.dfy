// The format language of do_printf (lib/stdio/doprintf.c) as a grammar: what a
// format string is made of, how it is written, and how it is read.

module Formats {
  // A string ends at its NUL, which is not part of it.
  type CString = s: string | '\0' !in s

  datatype Item =
    | Literal(c: char)
    | Percent(left: bool)         // %% or %-%
    | Illegal                     // %--
    | Spec(left: bool, zero: bool, width: string, mods: string, conv: char)

  // What may be left over at the end of the string.
  datatype Tail = Complete | Cut(left: bool, zero: bool, width: string, mods: string)

  datatype Format = Format(items: seq<Item>, tail: Tail)

  predicate IsDigit(c: char) {
    '0' <= c <= '9'
  }

  predicate IsMod(c: char) {
    c == 'F' || c == 'N' || c == 'l' || c == 'h'
  }

  // ----- The grammar -----

  // The first zero of a width is the zero flag.
  ghost predicate GoodHead(zero: bool, width: string, mods: string) {
    && (forall i | 0 <= i < |width| :: IsDigit(width[i]))
    && (forall i | 0 <= i < |mods| :: IsMod(mods[i]))
    && (!zero && width != "" ==> width[0] != '0')
  }

  predicate GoodConv(zero: bool, width: string, mods: string, c: char) {
    && c != '\0' && !IsMod(c)
    && (mods == "" ==> !IsDigit(c))
    && (mods == "" && width == "" && !zero ==> c != '%' && c != '-')
  }

  ghost predicate GoodItem(item: Item) {
    match item
    case Literal(c) => c != '%' && c != '\0'
    case Percent(_) => true
    case Illegal => true
    case Spec(_, zero, width, mods, conv) => GoodHead(zero, width, mods) && GoodConv(zero, width, mods, conv)
  }

  ghost predicate Good(f: Format) {
    && (forall i | 0 <= i < |f.items| :: GoodItem(f.items[i]))
    && (f.tail.Cut? ==> GoodHead(f.tail.zero, f.tail.width, f.tail.mods))
  }

  function Head(left: bool, zero: bool, width: string, mods: string): string {
    "%" + (if left then "-" else "") + (if zero then "0" else "") + width + mods
  }

  function RenderItem(item: Item): string {
    match item
    case Literal(c) => [c]
    case Percent(left) => Head(left, false, "", "") + "%"
    case Illegal => "%--"
    case Spec(left, zero, width, mods, conv) => Head(left, zero, width, mods) + [conv]
  }

  function RenderTail(tail: Tail): string {
    match tail
    case Complete => ""
    case Cut(left, zero, width, mods) => Head(left, zero, width, mods)
  }

  function Render(f: Format): string
    decreases |f.items|
  {
    if f.items == [] then RenderTail(f.tail)
    else RenderItem(f.items[0]) + Render(Format(f.items[1..], f.tail))
  }

  // ----- Reading it, one character at a time -----

  function Cons(item: Item, f: Format): Format {
    Format([item] + f.items, f.tail)
  }

  function Text(s: string): Format
    decreases |s|, 3
  {
    if s == "" then Format([], Complete)
    else if s[0] != '%' then Cons(Literal(s[0]), Text(s[1..]))
    else Flag(false, s[1..])
  }

  function Flag(left: bool, s: string): Format
    decreases |s|, 2
  {
    if s == "" then Format([], Cut(left, false, "", ""))
    else if s[0] == '%' then Cons(Percent(left), Text(s[1..]))
    else if s[0] == '-' then if left then Cons(Illegal, Text(s[1..])) else Flag(true, s[1..])
    else if s[0] == '0' then Width(left, true, "", s[1..])
    else Width(left, false, "", s)
  }

  function Width(left: bool, zero: bool, width: string, s: string): Format
    decreases |s|, 1
  {
    if s == "" then Format([], Cut(left, zero, width, ""))
    else if IsDigit(s[0]) then Width(left, zero, width + [s[0]], s[1..])
    else Mods(left, zero, width, "", s)
  }

  function Mods(left: bool, zero: bool, width: string, mods: string, s: string): Format
    decreases |s|, 0
  {
    if s == "" then Format([], Cut(left, zero, width, mods))
    else if IsMod(s[0]) then Mods(left, zero, width, mods + [s[0]], s[1..])
    else Cons(Spec(left, zero, width, mods, s[0]), Text(s[1..]))
  }

  // ----- Reading a string back gives the string -----

  lemma RenderCons(item: Item, f: Format)
    ensures Render(Cons(item, f)) == RenderItem(item) + Render(f)
    ensures Good(f) && GoodItem(item) ==> Good(Cons(item, f))
  {
    var g := Cons(item, f);
    assert g.items[0] == item && g.items[1..] == f.items && Format(g.items[1..], g.tail) == f;
  }

  // An item that writes `text`, read in front of the rest of s.
  lemma ItemRenders(item: Item, f: Format, before: string, s: string)
    requires GoodItem(item) && s != "" && RenderItem(item) == before + [s[0]]
    requires Good(f) && Render(f) == s[1..]
    ensures Good(Cons(item, f)) && Render(Cons(item, f)) == before + s
  {
    hide Good, Render, RenderItem, GoodItem;
    RenderCons(item, f);
    assert before + [s[0]] + s[1..] == before + s;
  }

  lemma {:induction false} TextRenders(s: CString)
    ensures Good(Text(s)) && Render(Text(s)) == s
    decreases |s|, 3
  {
    hide Good, Render;
    if s == "" {
      assert Good(Format([], Complete)) && Render(Format([], Complete)) == "" by { CompleteRenders(); }
    } else if s[0] != '%' {
      TextRenders(s[1..]);
      ItemRenders(Literal(s[0]), Text(s[1..]), "", s);
      assert "" + s == s;
    } else {
      FlagRenders(false, s[1..]);
      assert Head(false, false, "", "") + s[1..] == s;
    }
  }

  lemma CompleteRenders()
    ensures Good(Format([], Complete)) && Render(Format([], Complete)) == ""
  {
  }

  lemma CutRenders(left: bool, zero: bool, width: string, mods: string)
    requires GoodHead(zero, width, mods)
    ensures Good(Format([], Cut(left, zero, width, mods)))
    ensures Render(Format([], Cut(left, zero, width, mods))) == Head(left, zero, width, mods) + ""
  {
    assert Head(left, zero, width, mods) + "" == Head(left, zero, width, mods);
  }

  lemma HeadFlags(s: string)
    requires s != ""
    ensures s[0] == '-' ==> Head(true, false, "", "") + s[1..] == Head(false, false, "", "") + s
    ensures forall left :: s[0] == '0' ==> Head(left, true, "", "") + s[1..] == Head(left, false, "", "") + s
  {
    assert s == [s[0]] + s[1..];
  }

  lemma HeadDigit(left: bool, zero: bool, width: string, c: char, s: string)
    ensures Head(left, zero, width + [c], "") + s == Head(left, zero, width, "") + ([c] + s)
  {
  }

  lemma HeadMod(left: bool, zero: bool, width: string, mods: string, c: char, s: string)
    ensures Head(left, zero, width, mods + [c]) + s == Head(left, zero, width, mods) + ([c] + s)
  {
  }

  lemma {:induction false} FlagRenders(left: bool, s: CString)
    ensures Good(Flag(left, s)) && Render(Flag(left, s)) == Head(left, false, "", "") + s
    decreases |s|, 2
  {
    hide Good, Render, Head;
    if s == "" {
      CutRenders(left, false, "", "");
    } else if s[0] == '%' {
      TextRenders(s[1..]);
      ItemRenders(Percent(left), Text(s[1..]), Head(left, false, "", ""), s);
    } else if s[0] == '-' {
      if left {
        TextRenders(s[1..]);
        assert Head(true, false, "", "") + "-" == "%--" by { HeadIllegal(); }
        ItemRenders(Illegal, Text(s[1..]), Head(true, false, "", ""), s);
      } else {
        FlagRenders(true, s[1..]);
        HeadFlags(s);
      }
    } else if s[0] == '0' {
      WidthRenders(left, true, "", s[1..]);
      HeadFlags(s);
    } else {
      WidthRenders(left, false, "", s);
    }
  }

  lemma HeadIllegal()
    ensures Head(true, false, "", "") + "-" == "%--"
  {
  }

  // What Width may be asked to go on with.
  ghost predicate GoodRest(zero: bool, width: string, s: string) {
    GoodHead(zero, width, "") && (!zero && width == "" && s != "" ==> s[0] != '0' && s[0] != '%' && s[0] != '-')
  }

  lemma {:induction false} WidthRenders(left: bool, zero: bool, width: string, s: CString)
    requires GoodRest(zero, width, s)
    ensures Good(Width(left, zero, width, s)) && Render(Width(left, zero, width, s)) == Head(left, zero, width, "") + s
    decreases |s|, 1
  {
    hide Good, Render, Head;
    if s == "" {
      CutRenders(left, zero, width, "");
    } else if IsDigit(s[0]) {
      WidthRenders(left, zero, width + [s[0]], s[1..]);
      HeadDigit(left, zero, width, s[0], s[1..]);
      assert s == [s[0]] + s[1..];
    } else {
      ModsRenders(left, zero, width, "", s);
    }
  }

  // What Mods may be asked to go on with.
  ghost predicate GoodEnd(zero: bool, width: string, mods: string, s: string) {
    GoodHead(zero, width, mods) && (s != "" && !IsMod(s[0]) ==> GoodConv(zero, width, mods, s[0]))
  }

  lemma {:induction false} ModsRenders(left: bool, zero: bool, width: string, mods: string, s: CString)
    requires GoodEnd(zero, width, mods, s)
    ensures Good(Mods(left, zero, width, mods, s))
    ensures Render(Mods(left, zero, width, mods, s)) == Head(left, zero, width, mods) + s
    decreases |s|, 0
  {
    hide Good, Render, Head;
    if s == "" {
      CutRenders(left, zero, width, mods);
    } else if IsMod(s[0]) {
      ModsRenders(left, zero, width, mods + [s[0]], s[1..]);
      HeadMod(left, zero, width, mods, s[0], s[1..]);
      assert s == [s[0]] + s[1..];
    } else {
      TextRenders(s[1..]);
      ItemRenders(Spec(left, zero, width, mods, s[0]), Text(s[1..]), Head(left, zero, width, mods), s);
    }
  }

  // ----- Writing a format and reading it gives the format -----

  lemma {:induction false} ModsRead(left: bool, zero: bool, width: string, mods: string, more: string, s: string)
    requires forall i | 0 <= i < |more| :: IsMod(more[i])
    ensures Mods(left, zero, width, mods, more + s) == Mods(left, zero, width, mods + more, s)
    decreases |more|
  {
    if more == "" {
      assert more + s == s && mods + more == mods;
    } else {
      assert (more + s)[0] == more[0] && (more + s)[1..] == more[1..] + s;
      assert mods + [more[0]] + more[1..] == mods + more;
      ModsRead(left, zero, width, mods + [more[0]], more[1..], s);
    }
  }

  lemma {:induction false} WidthReads(left: bool, zero: bool, width: string, more: string, s: string)
    requires (forall i | 0 <= i < |more| :: IsDigit(more[i])) && (s != "" ==> !IsDigit(s[0]))
    ensures Width(left, zero, width, more + s) ==
            if s == "" then Format([], Cut(left, zero, width + more, "")) else Mods(left, zero, width + more, "", s)
    decreases |more|
  {
    if more == "" {
      assert more + s == s && width + more == width;
    } else {
      assert (more + s)[0] == more[0] && (more + s)[1..] == more[1..] + s;
      assert width + [more[0]] + more[1..] == width + more;
      WidthReads(left, zero, width + [more[0]], more[1..], s);
    }
  }

  // The characters after the flags are read as width, modifiers and the rest.
  lemma RestReads(left: bool, zero: bool, width: string, mods: string, s: string)
    requires GoodHead(zero, width, mods) && (s != "" ==> GoodConv(zero, width, mods, s[0]))
    ensures Width(left, zero, "", width + (mods + s)) == Mods(left, zero, width, mods, s)
  {
    var rest := mods + s;
    assert rest != "" ==> rest[0] == if mods == "" then s[0] else mods[0];
    WidthReads(left, zero, "", width, rest);
    assert "" + width == width && "" + mods == mods;
    ModsRead(left, zero, width, "", mods, s);
    if rest == "" {
      assert mods == "" && s == "";
    }
  }

  lemma FlagsRead(left: bool, zero: bool, width: string, mods: string, s: string)
    requires GoodHead(zero, width, mods) && (s != "" ==> GoodConv(zero, width, mods, s[0]))
    ensures Flag(left, (if zero then "0" else "") + (width + (mods + s))) == Mods(left, zero, width, mods, s)
  {
    var rest := width + (mods + s);
    RestReads(left, zero, width, mods, s);
    if zero {
      assert ("0" + rest)[0] == '0' && ("0" + rest)[1..] == rest;
    } else {
      assert "" + rest == rest;
      if rest == "" {
        assert width == "" && mods == "" && s == "";
      } else {
        assert rest[0] == if width != "" then width[0] else if mods != "" then mods[0] else s[0];
      }
    }
  }

  lemma HeadParts(left: bool, zero: bool, width: string, mods: string, s: string)
    ensures Head(left, zero, width, mods) + s ==
            "%" + ((if left then "-" else "") + ((if zero then "0" else "") + (width + (mods + s))))
  {
  }

  lemma FlagReads(left: bool, s: string)
    requires !left ==> s == "" || s[0] != '-'
    ensures Text("%" + ((if left then "-" else "") + s)) == Flag(left, s)
  {
    if left {
      assert "%" + ("-" + s) == ['%', '-'] + s;
      assert (['%', '-'] + s)[1..] == "-" + s && ("-" + s)[1..] == s;
    } else {
      assert "%" + ("" + s) == "%" + s && ("%" + s)[1..] == s;
    }
  }

  lemma HeadReads(left: bool, zero: bool, width: string, mods: string, s: string)
    requires GoodHead(zero, width, mods) && (s != "" ==> GoodConv(zero, width, mods, s[0]))
    ensures Text(Head(left, zero, width, mods) + s) == Mods(left, zero, width, mods, s)
  {
    var tail := (if zero then "0" else "") + (width + (mods + s));
    hide Text, Flag, Mods, Head;
    HeadParts(left, zero, width, mods, s);
    FlagsRead(left, zero, width, mods, s);
    if tail != "" {
      assert tail[0] == if zero then '0' else if width != "" then width[0] else if mods != "" then mods[0] else s[0];
    }
    FlagReads(left, tail);
  }

  lemma MarkReads(left: bool, s: string)
    ensures Text(RenderItem(Percent(left)) + s) == Cons(Percent(left), Text(s))
    ensures Text(RenderItem(Illegal) + s) == Cons(Illegal, Text(s))
  {
    assert RenderItem(Percent(left)) + s == "%" + ((if left then "-" else "") + ("%" + s));
    assert RenderItem(Illegal) + s == "%" + ("-" + ("-" + s));
    hide RenderItem, Text;
    FlagReads(left, "%" + s);
    FlagReads(true, "-" + s);
    assert ("%" + s)[0] == '%' && ("%" + s)[1..] == s;
    assert ("-" + s)[0] == '-' && ("-" + s)[1..] == s;
  }

  lemma SpecReads(left: bool, zero: bool, width: string, mods: string, conv: char, s: string)
    requires GoodHead(zero, width, mods) && GoodConv(zero, width, mods, conv)
    ensures Text(Head(left, zero, width, mods) + [conv] + s) == Cons(Spec(left, zero, width, mods, conv), Text(s))
  {
    hide Head, Text, GoodHead;
    assert Head(left, zero, width, mods) + [conv] + s == Head(left, zero, width, mods) + ([conv] + s);
    assert ([conv] + s)[0] == conv && ([conv] + s)[1..] == s;
    HeadReads(left, zero, width, mods, [conv] + s);
  }

  lemma ItemReads(item: Item, s: string)
    requires GoodItem(item)
    ensures Text(RenderItem(item) + s) == Cons(item, Text(s))
  {
    match item
    case Literal(c) => assert ([c] + s)[0] == c && ([c] + s)[1..] == s;
    case Percent(left) => MarkReads(left, s);
    case Illegal => MarkReads(false, s);
    case Spec(left, zero, width, mods, conv) => SpecReads(left, zero, width, mods, conv, s);
  }

  // Every format is read as it was written: the grammar is unambiguous, and with
  // TextRenders reading and writing are inverse to each other.
  lemma {:induction false} TextReads(f: Format)
    requires Good(f)
    ensures Text(Render(f)) == f
    decreases |f.items|
  {
    if f.items != [] {
      var g := Format(f.items[1..], f.tail);
      assert Cons(f.items[0], g) == f;
      TextReads(g);
      hide Text, RenderItem;
      ItemReads(f.items[0], Render(g));
    } else if f.tail.Cut? {
      var t := f.tail;
      HeadReads(t.left, t.zero, t.width, t.mods, "");
      assert Head(t.left, t.zero, t.width, t.mods) + "" == Head(t.left, t.zero, t.width, t.mods);
    }
  }

  // So a string has exactly one reading, the one the scan finds.
  lemma OneReading(s: CString, f: Format)
    ensures Good(f) && Render(f) == s <==> f == Text(s)
  {
    TextRenders(s);
    if Good(f) && Render(f) == s {
      TextReads(f);
    }
  }

  // The format ends where a flag or a conversion must follow.
  predicate Overruns(t: Tail) {
    t.Cut? && t.width == "" && t.mods == "" && (t.zero || !t.left)
  }

  // Seen in the text: the last specification stops right after %, %0 or %-0.
  lemma OverrunsText(t: Tail)
    requires t.Cut? ==> GoodHead(t.zero, t.width, t.mods)
    ensures Overruns(t) <==> RenderTail(t) == "%" || RenderTail(t) == "%0" || RenderTail(t) == "%-0"
  {
    if t.Cut? && !Overruns(t) {
      var h := RenderTail(t);
      var flags := "%" + (if t.left then "-" else "") + (if t.zero then "0" else "");
      var rest := t.width + t.mods;
      assert h == flags + rest;
      if rest != "" {
        assert rest[0] == if t.width != "" then t.width[0] else t.mods[0];
        assert h[|flags|] == rest[0] != '-' && (!t.zero ==> rest[0] != '0');
        assert |flags| > 1 ==> h[1] == if t.left then '-' else '0';
        assert |h| == |flags| + |rest|;
      } else {
        assert h == flags == "%-";
      }
    }
  }

  // What a character between % and d is taken for.
  lemma OneCharacter(c: char)
    ensures Text(['%', c, 'd']) ==
            Format(if c == '%' then [Percent(false), Literal('d')]
                   else if c == '-' then [Spec(true, false, "", "", 'd')]
                   else if c == '0' then [Spec(false, true, "", "", 'd')]
                   else if '1' <= c <= '9' then [Spec(false, false, [c], "", 'd')]
                   else if c in "FNlh" then [Spec(false, false, "", [c], 'd')]
                   else [Spec(false, false, "", "", c), Literal('d')], Complete)
  {
    var s := ['%', c, 'd'];
    assert s[1..] == [c, 'd'] && [c, 'd'][1..] == "d";
    assert Text(s) == Flag(false, [c, 'd']);
    LastCharacter();
    hide Text, Width, Mods;
    if c != '%' && c != '-' && c != '0' {
      AfterPercent(c);
    }
  }

  lemma LastCharacter()
    ensures "d"[1..] == "" && Text("d") == Format([Literal('d')], Complete)
    ensures forall zero: bool, left: bool, width: string, mods: string ::
              && Mods(left, zero, width, mods, "d") == Format([Spec(left, zero, width, mods, 'd')], Complete)
              && Width(left, zero, width, "d") == Format([Spec(left, zero, width, "", 'd')], Complete)
    ensures Flag(true, "d") == Format([Spec(true, false, "", "", 'd')], Complete)
  {
    assert "d"[1..] == "";
    assert Text("") == Format([], Complete);
  }

  lemma AfterPercent(c: char)
    requires c != '%' && c != '-' && c != '0'
    ensures Width(false, false, "", [c, 'd']) ==
            Format(if '1' <= c <= '9' then [Spec(false, false, [c], "", 'd')]
                   else if c in "FNlh" then [Spec(false, false, "", [c], 'd')]
                   else [Spec(false, false, "", "", c), Literal('d')], Complete)
  {
    var s := [c, 'd'];
    assert s[1..] == "d";
    LastCharacter();
    assert "" + [c] == [c];
    if !('1' <= c <= '9') {
      assert Width(false, false, "", s) == Mods(false, false, "", "", s);
    }
  }
}
