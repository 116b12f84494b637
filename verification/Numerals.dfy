/**
 Integers as text: reading a decimal literal, and printing in a base.
 */
module Numerals {
  import opened Options
  import opened Numbers

  // --------------------------------------------------------------------------
  // Digits
  // --------------------------------------------------------------------------

  function DigitChar(d: nat): char
    requires d < 16
  {
    if d < 10 then '0' + d as char else 'A' + (d - 10) as char
  }

  /** The digit a character stands for; 16 when it stands for none. */
  function DigitOf(c: char): nat {
    if '0' <= c <= '9' then (c - '0') as nat else if 'A' <= c <= 'F' then (c - 'A') as nat + 10 else 16
  }

  predicate IsDigits(s: string, radix: nat) {
    s != "" && forall i :: 0 <= i < |s| ==> DigitOf(s[i]) < radix
  }

  function Value(s: string, radix: nat): nat {
    if s == "" then 0 else Value(s[..|s| - 1], radix) * radix + DigitOf(s[|s| - 1])
  }

  /** The digits of `m`, most significant first. */
  function ToDigits(m: nat, radix: nat): string
    requires 2 <= radix <= 16
  {
    if m < radix then [DigitChar(m)]
    else
      SmallerQuotient(m, radix);
      ToDigits(m / radix, radix) + [DigitChar(m % radix)]
  }

  lemma SmallerQuotient(m: nat, radix: nat)
    requires 2 <= radix <= m
    ensures m / radix < m && m == (m / radix) * radix + m % radix && m % radix < radix
  {
    NatDivision(m, radix);
    TimesAtLeastTwo(m / radix, radix);
  }

  lemma DigitRoundTrip(d: nat)
    requires d < 16
    ensures DigitOf(DigitChar(d)) == d
  {
  }

  lemma ValueSnoc(s: string, c: char, radix: nat)
    ensures Value(s + [c], radix) == Value(s, radix) * radix + DigitOf(c)
  {
    assert (s + [c])[..|s|] == s;
  }

  lemma {:induction false} ToDigitsValue(m: nat, radix: nat)
    requires 2 <= radix <= 16
    ensures IsDigits(ToDigits(m, radix), radix) && Value(ToDigits(m, radix), radix) == m
    decreases m
  {
    if m < radix {
      DigitRoundTrip(m);
      ValueSnoc("", DigitChar(m), radix);
      assert "" + [DigitChar(m)] == [DigitChar(m)];
    } else {
      SmallerQuotient(m, radix);
      ToDigitsValue(m / radix, radix);
      DigitRoundTrip(m % radix);
      ValueSnoc(ToDigits(m / radix, radix), DigitChar(m % radix), radix);
    }
  }

  /** `s` with zeros in front up to `width` characters. */
  function Padded(s: string, width: nat): string
    decreases width - |s|
  {
    if |s| >= width then s else Padded("0" + s, width)
  }

  lemma {:induction false} LeadingZero(s: string, radix: nat)
    ensures Value("0" + s, radix) == Value(s, radix)
  {
    if s == "" {
      assert "0" + s == "0" && "0"[..0] == "";
    } else {
      LeadingZero(s[..|s| - 1], radix);
      assert ("0" + s)[..|s|] == "0" + s[..|s| - 1];
    }
  }

  lemma {:induction false} PaddingKeepsValue(s: string, width: nat, radix: nat)
    requires IsDigits(s, radix)
    ensures IsDigits(Padded(s, width), radix) && Value(Padded(s, width), radix) == Value(s, radix)
    decreases width - |s|
  {
    if |s| < width {
      LeadingZero(s, radix);
      PaddingKeepsValue("0" + s, width, radix);
    }
  }

  // --------------------------------------------------------------------------
  // Decimal texts
  // --------------------------------------------------------------------------

  /** What a text spells. Texts that are not digits are left to the float reader. */
  datatype Num = IntNum(n: int) | NotANumber | MaybeFloat

  predicate IsSign(c: char) {
    c == '+' || c == '-'
  }

  function Unsigned(text: string): string {
    if text != "" && IsSign(text[0]) then text[1..] else text
  }

  function Signed(text: string, magnitude: int): int {
    if text != "" && text[0] == '-' then -magnitude else magnitude
  }

  /** A machine integer's text, if the machine integer exists. */
  function ParseI64(text: string): Option<I64> {
    if IsDigits(Unsigned(text), 10) then Machine(Signed(text, Value(Unsigned(text), 10))) else None
  }

  function Parse(text: string): Num {
    if IsDigits(Unsigned(text), 10) then
      match AndChecked(ParseI64(text))
      case Some(n) => IntNum(n)
      case None => NotANumber
    else MaybeFloat
  }

  /** An integer as it is printed. */
  function Decimal(n: int): string {
    if n < 0 then "-" + ToDigits(-n, 10) else ToDigits(n, 10)
  }

  lemma FirstDigitIsNoSign(s: string, radix: nat)
    requires IsDigits(s, radix) && radix <= 16
    ensures !IsSign(s[0]) && Unsigned(s) == s && Signed(s, Value(s, radix)) == Value(s, radix)
  {
  }

  /** A printed integer reads back as itself in range, and as no number at all outside, never as a float. */
  lemma ParseDecimal(n: int)
    ensures Parse(Decimal(n)) == if InIntRange(n) then IntNum(n) else NotANumber
  {
    ToDigitsValue(Abs(n), 10);
    FirstDigitIsNoSign(ToDigits(Abs(n), 10), 10);
    if n < 0 {
      assert Decimal(n)[1..] == ToDigits(-n, 10);
    }
  }

  lemma SignInFront(sign: string, digits: string)
    requires sign == "" || sign == "+" || sign == "-"
    requires IsDigits(digits, 10)
    ensures Unsigned(sign + digits) == digits
    ensures Signed(sign + digits, Value(digits, 10)) == Signed(sign, Value(digits, 10))
  {
    FirstDigitIsNoSign(digits, 10);
    if sign == "" {
      assert sign + digits == digits;
    } else {
      assert (sign + digits)[0] == sign[0] && (sign + digits)[1..] == digits;
    }
  }

  /** Signs and leading zeros do not matter: digits are judged by the integer they spell. */
  lemma ParseSpelling(sign: string, n: nat, width: nat)
    requires sign == "" || sign == "+" || sign == "-"
    ensures Parse(sign + Padded(ToDigits(n, 10), width))
            == if InIntRange(Signed(sign, n)) then IntNum(Signed(sign, n)) else NotANumber
  {
    ToDigitsValue(n, 10);
    PaddingKeepsValue(ToDigits(n, 10), width, 10);
    SignInFront(sign, Padded(ToDigits(n, 10), width));
  }

  // --------------------------------------------------------------------------
  // Based texts
  // --------------------------------------------------------------------------

  function BaseString(n: int, radix: nat): string {
    var sign := if n < 0 then "-" else "";
    var m := Abs(n);
    match radix
    case 2 => sign + ("0b" + ToDigits(m, 2))
    case 8 => sign + ("0o" + ToDigits(m, 8))
    case 10 => sign + ("0d" + Padded(ToDigits(m, 10), 4))
    case _ => sign + ("0x" + Padded(ToDigits(m, 16), 4))
  }

  lemma {:induction false} ToDigitsShortest(m: nat, radix: nat)
    requires 2 <= radix <= 16
    ensures |ToDigits(m, radix)| == 1 || ToDigits(m, radix)[0] != '0'
    ensures m > 0 ==> ToDigits(m, radix)[0] != '0'
    decreases m
  {
    if m >= radix {
      SmallerQuotient(m, radix);
      ToDigitsShortest(m / radix, radix);
    }
  }

  lemma {:induction false} PaddedWidth(s: string, width: nat)
    requires s != ""
    ensures |Padded(s, width)| == if |s| < width then width else |s|
    ensures |Padded(s, width)| > width ==> Padded(s, width)[0] == s[0]
    decreases width - |s|
  {
    if |s| < width {
      PaddedWidth("0" + s, width);
    }
  }

  /** How many digits a based text has at least. */
  function LeastDigits(radix: nat): nat {
    match radix
    case 2 => 1
    case 8 => 1
    case _ => 4
  }

  /** What stands behind the sign, `0` and the letter of the base. */
  function DigitsPart(text: string): string {
    var from := if text != "" && text[0] == '-' then 3 else 2;
    if |text| < from then "" else text[from..]
  }

  lemma DigitsBehind(sign: string, prefix: string, digits: string)
    requires (sign == "" || sign == "-") && |prefix| == 2 && prefix[0] == '0'
    ensures DigitsPart(sign + (prefix + digits)) == digits
  {
    assert (prefix + digits)[2..] == digits;
    if sign == "" {
      assert sign + (prefix + digits) == prefix + digits;
    } else {
      assert (sign + (prefix + digits))[3..] == digits;
    }
  }

  /** A based text has the least number of digits, or more if it needs them, and no further zeros in front. */
  lemma BaseStringWidth(n: int, radix: nat)
    ensures var digits := DigitsPart(BaseString(n, radix));
            && LeastDigits(radix) <= |digits|
            && (|digits| > LeastDigits(radix) ==> digits[0] != '0')
  {
    var used := if radix == 2 || radix == 8 || radix == 10 then radix else 16;
    var shortest := ToDigits(Abs(n), used);
    ToDigitsValue(Abs(n), used);
    ToDigitsShortest(Abs(n), used);
    PaddedWidth(shortest, 4);
    var prefix := if used == 2 then "0b" else if used == 8 then "0o" else if used == 10 then "0d" else "0x";
    DigitsBehind(if n < 0 then "-" else "", prefix, if used < 10 then shortest else Padded(shortest, 4));
  }

  function RadixOf(letter: char): nat {
    match letter
    case 'b' => 2
    case 'o' => 8
    case 'd' => 10
    case 'x' => 16
    case _ => 0
  }

  /** Reads a sign, `0`, the letter of a base and digits of that base. */
  function ReadBased(text: string): Option<int> {
    var rest := if text != "" && text[0] == '-' then text[1..] else text;
    if |rest| >= 3 && rest[0] == '0' && RadixOf(rest[1]) != 0 && IsDigits(rest[2..], RadixOf(rest[1]))
    then Some(Signed(text, Value(rest[2..], RadixOf(rest[1])))) else None
  }

  lemma ReadsBased(n: int, letter: char, digits: string)
    requires RadixOf(letter) != 0 && IsDigits(digits, RadixOf(letter)) && Value(digits, RadixOf(letter)) == Abs(n)
    ensures ReadBased((if n < 0 then "-" else "") + ("0" + [letter] + digits)) == Some(n)
  {
    var body := "0" + [letter] + digits;
    assert body[0] == '0' && body[1] == letter && body[2..] == digits;
    if n < 0 {
      assert ("-" + body)[0] == '-' && ("-" + body)[1..] == body;
    } else {
      assert "" + body == body;
    }
  }

  /** A based text reads back as the integer it was printed from, whatever its sign. */
  lemma BaseStringRoundTrip(n: int, radix: nat)
    ensures ReadBased(BaseString(n, radix)) == Some(n)
  {
    var used := if radix == 2 || radix == 8 || radix == 10 then radix else 16;
    var letter := if used == 2 then 'b' else if used == 8 then 'o' else if used == 10 then 'd' else 'x';
    var digits := if used < 10 then ToDigits(Abs(n), used) else Padded(ToDigits(Abs(n), used), 4);
    ToDigitsValue(Abs(n), used);
    PaddingKeepsValue(ToDigits(Abs(n), used), 4, used);
    assert "0b" == "0" + ['b'] && "0o" == "0" + ['o'] && "0d" == "0" + ['d'] && "0x" == "0" + ['x'];
    ReadsBased(n, letter, digits);
  }
}
