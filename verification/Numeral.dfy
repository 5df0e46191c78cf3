// The digit loop of do_printf (lib/stdio/doprintf.c): a number written backwards
// into a buffer of 16 characters.

module Numerals {
  import opened Words

  const PR_BUFLEN := 16
  const MAX_DIGITS := 11

  predicate IsRadix(radix: nat) {
    radix == 8 || radix == 10 || radix == 16
  }

  function Digit(d: nat, upper: bool): char
    requires d < 16
  {
    (d + if d < 10 then '0' as int else if upper then 'A' as int - 10 else 'a' as int - 10) as char
  }

  function DigitValue(c: char): nat {
    if '0' <= c <= '9' then c as nat - '0' as nat
    else if 'A' <= c <= 'F' then c as nat - 'A' as nat + 10
    else if 'a' <= c <= 'f' then c as nat - 'a' as nat + 10
    else 0
  }

  lemma DigitRead(d: nat, upper: bool)
    requires d < 16
    ensures DigitValue(Digit(d, upper)) == d && Digit(d, upper) != '\0' && (Digit(d, upper) == '0' <==> d == 0)
  {
  }

  // The digits of v, most significant first.
  function Numeral(v: nat, radix: nat, upper: bool): string
    requires IsRadix(radix)
  {
    if v < radix then [Digit(v, upper)] else Numeral(v / radix, radix, upper) + [Digit(v % radix, upper)]
  }

  // The value of a string of digits.
  function Reading(s: string, radix: nat): nat {
    if s == "" then 0 else Reading(s[..|s| - 1], radix) * radix + DigitValue(s[|s| - 1])
  }

  // Reading the digits back gives the number; there is no leading zero and no
  // terminating NUL among them.
  lemma {:induction false} NumeralReads(v: nat, radix: nat, upper: bool)
    requires IsRadix(radix)
    ensures Reading(Numeral(v, radix, upper), radix) == v
    ensures '\0' !in Numeral(v, radix, upper) && |Numeral(v, radix, upper)| > 0
    ensures v > 0 ==> Numeral(v, radix, upper)[0] != '0'
  {
    var s := Numeral(v, radix, upper);
    if v < radix {
      DigitRead(v, upper);
      assert s[..0] == "";
    } else {
      DigitRead(v % radix, upper);
      NumeralReads(v / radix, radix, upper);
      assert s[..|s| - 1] == Numeral(v / radix, radix, upper);
    }
  }

  // Digits are counted in tens from '0' and in sixteens on from 'A' or 'a'.
  lemma ReadingSays(s: string, c: char, radix: nat)
    ensures Reading("", radix) == 0
    ensures Reading(s + [c], radix) == Reading(s, radix) * radix +
              if '0' <= c <= '9' then c as int - 0x30
              else if 'A' <= c <= 'F' then c as int - 0x41 + 10
              else if 'a' <= c <= 'f' then c as int - 0x61 + 10
              else 0
  {
    assert (s + [c])[..|s|] == s;
  }

  // A number shows decimal digits, and above nine letters of the case asked for.
  lemma {:induction false} NumeralLooks(v: nat, radix: nat, upper: bool)
    requires IsRadix(radix)
    ensures forall c | c in Numeral(v, radix, upper) ::
              '0' <= c <= '9' || (radix == 16 && if upper then 'A' <= c <= 'F' else 'a' <= c <= 'f')
  {
    if v >= radix {
      NumeralLooks(v / radix, radix, upper);
    }
  }

  function Power(b: nat, n: nat): nat {
    if n == 0 then 1 else b * Power(b, n - 1)
  }

  lemma {:induction false} NumeralLength(v: nat, radix: nat, upper: bool, n: nat)
    requires IsRadix(radix) && v < Power(radix, n) && n > 0
    ensures |Numeral(v, radix, upper)| <= n
  {
    if v >= radix {
      assert Power(radix, n) == radix * Power(radix, n - 1);
      assert Power(radix, 0) == 1;
      assert v / radix < Power(radix, n - 1);
      NumeralLength(v / radix, radix, upper, n - 1);
    }
  }

  lemma {:induction false} PowerGrows(radix: nat, n: nat)
    requires radix >= 8
    ensures Power(radix, n) >= Power(8, n)
  {
    if n == 0 {
    } else {
      PowerGrows(radix, n - 1);
      assert radix * Power(radix, n - 1) >= 8 * Power(8, n - 1);
    }
  }

  lemma EightToEleven()
    ensures Power(8, MAX_DIGITS) > WORD_SIZE
  {
    assert Power(8, 3) == 512;
    assert Power(8, 6) == 0x4_0000;
    assert Power(8, 9) == 0x800_0000;
    assert Power(8, 11) == 0x2_0000_0000;
  }

  // A 32-bit value has at most 11 digits.
  lemma NumeralFits(v: u32, radix: nat, upper: bool)
    requires IsRadix(radix)
    ensures |Numeral(v, radix, upper)| <= MAX_DIGITS
  {
    PowerGrows(radix, MAX_DIGITS);
    EightToEleven();
    hide Power;
    NumeralLength(v, radix, upper, MAX_DIGITS);
  }

  // One round of the loop moves the last digit to the front of the text.
  lemma LastDigit(num: nat, radix: nat, upper: bool, text: string)
    requires IsRadix(radix)
    ensures Numeral(num, radix, upper) + text ==
            (if num / radix == 0 then "" else Numeral(num / radix, radix, upper)) + ([Digit(num % radix, upper)] + text)
    ensures num / radix != 0 ==> num / radix < num
  {
    if num >= radix {
      assert num / radix > 0;
    } else {
      assert num / radix == 0 && num % radix == num;
    }
  }

  // From `where` on, the buffer then holds the digits and their terminating NUL;
  // what lies below it was never written.
  method WriteDigits(value: u32, radix: nat, upper: bool, buf: array<char>) returns (where: nat)
    requires IsRadix(radix) && buf.Length == PR_BUFLEN && buf[PR_BUFLEN - 1] == '\0'
    modifies buf
    ensures PR_BUFLEN - 1 - MAX_DIGITS <= where < PR_BUFLEN - 1
    ensures buf[where..] == Numeral(value, radix, upper) + "\0"
    ensures buf[..where] == old(buf[..where])
  {
    hide Numeral, Digit, Power;
    NumeralFits(value, radix, upper);
    NumeralReads(value, radix, upper);
    where := PR_BUFLEN - 1;
    var num: nat := value;
    var more := true;
    while more
      invariant where < PR_BUFLEN && |buf[where..]| >= 1
      invariant Numeral(value, radix, upper) + "\0" ==
                (if more then Numeral(num, radix, upper) else "") + buf[where..]
      invariant more ==> |Numeral(num, radix, upper)| > 0
      invariant !more ==> where < PR_BUFLEN - 1
      invariant buf[..where] == old(buf[..where])
      decreases more, num
    {
      ghost var text := buf[where..];
      var digit := num % radix;
      LastDigit(num, radix, upper, text);
      where := where - 1;
      buf[where] := Digit(digit, upper);
      assert buf[where..] == [Digit(digit, upper)] + text;
      num := num / radix;
      NumeralReads(num, radix, upper);
      more := num != 0;
    }
  }
}
