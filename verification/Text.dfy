/** Strings as both source languages see them: white space, trimming, searching and decimal numerals. */
module Text {

  /** The characters `String.prototype.trim` removes (sections 12.2 and 12.3 of ECMA-262). */
  predicate IsJsSpace(c: char) {
    || '\U{0009}' <= c <= '\U{000D}' || c == ' ' || c == '\U{00A0}' || c == '\U{1680}'
    || '\U{2000}' <= c <= '\U{200A}' || c == '\U{2028}' || c == '\U{2029}' || c == '\U{202F}'
    || c == '\U{205F}' || c == '\U{3000}' || c == '\U{FEFF}'
  }

  function TrimStart(s: string): string {
    if s != "" && IsJsSpace(s[0]) then TrimStart(s[1..]) else s
  }

  function TrimEnd(s: string): string {
    if s != "" && IsJsSpace(s[|s| - 1]) then TrimEnd(s[..|s| - 1]) else s
  }

  function Trim(s: string): string {
    TrimEnd(TrimStart(s))
  }

  /** No white space at either end. */
  predicate IsTrimmed(s: string) {
    s != "" ==> !IsJsSpace(s[0]) && !IsJsSpace(s[|s| - 1])
  }

  lemma {:induction false} TrimStartEdge(s: string)
    ensures TrimStart(s) != "" ==> !IsJsSpace(TrimStart(s)[0])
    ensures |TrimStart(s)| <= |s|
  {
    if s != "" && IsJsSpace(s[0]) {
      TrimStartEdge(s[1..]);
    }
  }

  lemma {:induction false} TrimEndEdge(s: string)
    ensures TrimEnd(s) <= s
    ensures TrimEnd(s) != "" ==> !IsJsSpace(TrimEnd(s)[|TrimEnd(s)| - 1])
  {
    if s != "" && IsJsSpace(s[|s| - 1]) {
      TrimEndEdge(s[..|s| - 1]);
    }
  }

  /** Trimming yields trimmed text and changes nothing else. */
  lemma TrimmedFixpoint(s: string)
    ensures IsTrimmed(Trim(s))
    ensures IsTrimmed(s) <==> Trim(s) == s
  {
    TrimStartEdge(s);
    TrimEndEdge(TrimStart(s));
  }

  /** The white space characters, by their numbers. */
  lemma JsSpaces(c: char)
    ensures IsJsSpace(c) <==>
            c as int in {0x9, 0xA, 0xB, 0xC, 0xD, 0x20, 0xA0, 0x1680, 0x2000, 0x2001, 0x2002, 0x2003, 0x2004, 0x2005,
                         0x2006, 0x2007, 0x2008, 0x2009, 0x200A, 0x2028, 0x2029, 0x202F, 0x205F, 0x3000, 0xFEFF}
  {
  }

  predicate IsBlank(s: string) {
    forall i | 0 <= i < |s| :: IsJsSpace(s[i])
  }

  lemma {:induction false} TrimStartCuts(s: string) returns (front: string)
    ensures IsBlank(front) && s == front + TrimStart(s)
  {
    if s != "" && IsJsSpace(s[0]) {
      front := TrimStartCuts(s[1..]);
      assert s == [s[0]] + front + TrimStart(s);
      front := [s[0]] + front;
    } else {
      front := "";
    }
  }

  lemma {:induction false} TrimEndCuts(s: string) returns (back: string)
    ensures IsBlank(back) && s == TrimEnd(s) + back
  {
    if s != "" && IsJsSpace(s[|s| - 1]) {
      back := TrimEndCuts(s[..|s| - 1]);
      assert s == TrimEnd(s) + (back + [s[|s| - 1]]);
      back := back + [s[|s| - 1]];
    } else {
      back := "";
    }
  }

  /** Trimming cuts white space off both ends and nothing else. */
  lemma TrimCuts(s: string) returns (front: string, back: string)
    ensures IsBlank(front) && IsBlank(back) && s == front + Trim(s) + back && IsTrimmed(Trim(s))
  {
    front := TrimStartCuts(s);
    back := TrimEndCuts(TrimStart(s));
    TrimmedFixpoint(s);
    assert s == front + Trim(s) + back;
  }

  lemma BlankIsTrimmedAway(s: string)
    ensures Trim(s) == "" <==> IsBlank(s)
  {
    var front, back := TrimCuts(s);
    if Trim(s) != "" {
      assert s[|front|] == Trim(s)[0];
    }
  }

  // ---------------------------------------------------------------- decimal numerals

  predicate IsDigit(c: char) {
    '0' <= c <= '9'
  }

  predicate IsDigits(s: string) {
    s != "" && forall c | c in s :: IsDigit(c)
  }

  function DigitValue(c: char): nat
    requires IsDigit(c)
  {
    c as nat - '0' as nat
  }

  function DigitChar(n: nat): (c: char)
    requires n < 10
    ensures IsDigit(c) && DigitValue(c) == n
  {
    ('0' as nat + n) as char
  }

  /** `Number.parseInt(s, 10)` of a digit string. */
  function ParseDigits(s: string): nat
    requires forall c | c in s :: IsDigit(c)
  {
    if s == "" then 0 else 10 * ParseDigits(s[..|s| - 1]) + DigitValue(s[|s| - 1])
  }

  /** The decimal numeral of a number, as string interpolation prints it. */
  function Numeral(n: nat): (s: string)
    ensures IsDigits(s)
  {
    if n < 10 then [DigitChar(n)] else Numeral(n / 10) + [DigitChar(n % 10)]
  }

  function SignedNumeral(n: int): string {
    if n < 0 then "-" + Numeral(-n) else Numeral(n)
  }

  lemma {:induction false} ParseNumeral(n: nat)
    ensures ParseDigits(Numeral(n)) == n
    ensures Numeral(n)[0] == '0' ==> n == 0
  {
    if n >= 10 {
      ParseNumeral(n / 10);
      assert Numeral(n)[..|Numeral(n)| - 1] == Numeral(n / 10);
    }
  }

  lemma NumeralSnoc(n: nat, d: nat)
    requires d < 10
    ensures n > 0 ==> Numeral(10 * n + d) == Numeral(n) + [DigitChar(d)]
    ensures n == 0 ==> Numeral(10 * n + d) == [DigitChar(d)]
  {
  }

  /** Printing a parsed numeral restores it when it has no leading zero. */
  lemma {:induction false} NumeralParse(s: string)
    requires IsDigits(s) && s[0] != '0'
    ensures Numeral(ParseDigits(s)) == s && ParseDigits(s) > 0
  {
    var init, last := s[..|s| - 1], s[|s| - 1];
    assert s == init + [last];
    assert last in s;
    if init != "" {
      assert init[0] == s[0];
      NumeralParse(init);
    }
    DigitAppended(init, last);
  }

  lemma DigitAppended(init: string, last: char)
    requires (forall c | c in init :: IsDigit(c)) && IsDigit(last) && (init == "" ==> last != '0')
    requires init != "" ==> Numeral(ParseDigits(init)) == init && ParseDigits(init) > 0
    ensures forall c | c in init + [last] :: IsDigit(c)
    ensures ParseDigits(init + [last]) > 0 && Numeral(ParseDigits(init + [last])) == init + [last]
  {
    assert (init + [last])[..|init|] == init;
    NumeralSnoc(ParseDigits(init), DigitValue(last));
  }

  /** And only then, but for zero itself. */
  lemma PaddedNumeral(s: string)
    requires IsDigits(s) && s[0] == '0' && s != "0"
    ensures Numeral(ParseDigits(s)) != s
  {
  }

  lemma DigitValues()
    ensures DigitValue('0') == 0 && DigitValue('1') == 1 && DigitValue('2') == 2 && DigitValue('3') == 3
    ensures DigitValue('4') == 4 && DigitValue('5') == 5 && DigitValue('6') == 6 && DigitValue('7') == 7
    ensures DigitValue('8') == 8 && DigitValue('9') == 9
    ensures forall n: nat | n < 10 :: DigitValue(DigitChar(n)) == n
    ensures forall c: char :: IsDigit(c) <==> c in "0123456789"
  {
  }

  lemma DigitByDigit(s: string, c: char)
    requires (forall d | d in s :: IsDigit(d)) && IsDigit(c)
    ensures ParseDigits("") == 0 && (forall d | d in s + [c] :: IsDigit(d))
    ensures ParseDigits(s + [c]) == 10 * ParseDigits(s) + DigitValue(c)
  {
    assert (s + [c])[..|s|] == s;
  }

  lemma SignedNumerals(n: int)
    ensures SignedNumeral(n) == if n < 0 then "-" + Numeral(-n) else Numeral(n)
    ensures Numeral(0) == "0" && Numeral(7) == "7" && SignedNumeral(-5) == "-5"
  {
  }
}
