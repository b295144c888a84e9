/**
 Decimal text. A Go string is a sequence of bytes; here each char stands for one byte.
 */
module Decimal {
  import opened Prelude
  import opened Int64

  predicate IsDigit(c: char) {
    '0' <= c <= '9'
  }

  predicate AllDigits(s: string) {
    forall i :: 0 <= i < |s| ==> IsDigit(s[i])
  }

  function DigitChar(d: nat): (c: char)
    requires d < 10
    ensures IsDigit(c)
  {
    ('0' as int + d) as char
  }

  function Digits(n: nat): (s: string)
    ensures s != [] && AllDigits(s)
  {
    if n < 10 then [DigitChar(n)] else Digits(n / 10) + [DigitChar(n % 10)]
  }

  function Value(s: string): nat
    requires AllDigits(s)
  {
    if s == [] then 0 else 10 * Value(s[..|s| - 1]) + (s[|s| - 1] as int - '0' as int)
  }

  /** strconv.FormatInt(n, 10). */
  function FormatInt(n: int): string {
    if n < 0 then "-" + Digits(-n) else Digits(n)
  }

  /** The text with its sign, if it has one, taken off. */
  function Magnitude(s: string): string {
    if s != [] && (s[0] == '+' || s[0] == '-') then s[1..] else s
  }

  /** An optional sign and decimal digits, of any length; no other text is a number. */
  function ReadInt(s: string): Option<int> {
    var m := Magnitude(s);
    if m == [] || !AllDigits(m) then None
    else
      var v: int := Value(m);
      Some(if s[0] == '-' then -v else v)
  }

  ghost predicate Written(text: string, digits: string, v: int)
    requires AllDigits(digits)
  {
    || (text == digits && v == Value(digits))
    || (text == "+" + digits && v == Value(digits))
    || (text == "-" + digits && v + Value(digits) == 0)
  }

  /** The text is an optional sign and digits, at least one, and v is the number they write. */
  ghost predicate Numeral(text: string, v: int) {
    exists digits: string :: digits != "" && AllDigits(digits) && Written(text, digits, v)
  }

  /** What is read as a number, and as which: exactly the numerals. */
  lemma ReadsNumerals(text: string, v: int)
    ensures ReadInt(text) == Some(v) <==> Numeral(text, v)
  {
    var m := Magnitude(text);
    if ReadInt(text) == Some(v) {
      assert m == text || text == [text[0]] + m;
      assert Written(text, m, v);
    }
    if Numeral(text, v) {
      var digits: string :| digits != "" && AllDigits(digits) && Written(text, digits, v);
      assert IsDigit(digits[0]);
      assert m == digits;
    }
  }

  /** Zeros in front change nothing. */
  lemma {:induction false} LeadingZero(digits: string)
    requires AllDigits(digits)
    ensures Value("0" + digits) == Value(digits)
  {
    if digits != "" {
      var all, n := "0" + digits, |digits|;
      LeadingZero(digits[..n - 1]);
      assert all[..n] == "0" + digits[..n - 1];
    }
  }

  /** strconv.ParseInt(s, 10, 64); values outside 64 bits are errors. */
  function ParseInt(s: string): Option<int> {
    var r := ReadInt(s);
    if r.Some? && IsInt64(r.value) then r else None
  }

  lemma {:induction false} ValueOfDigits(n: nat)
    ensures Value(Digits(n)) == n
  {
    if n >= 10 {
      ValueOfDigits(n / 10);
      var s := Digits(n);
      assert s[..|s| - 1] == Digits(n / 10);
    }
  }

  /** Not more digits than bits. */
  lemma {:induction false} DigitsAreFew(n: nat, k: nat)
    requires n < Pow2(k) && k >= 1
    ensures |Digits(n)| <= k
  {
    if n >= 10 {
      DigitsAreFew(n / 10, k - 1);
    }
  }

  /** What was printed is read back, whatever the number. */
  lemma ReadFormat(n: int)
    ensures ReadInt(FormatInt(n)) == Some(n)
  {
    ValueOfDigits(if n < 0 then -n else n);
    if n < 0 {
      assert FormatInt(n)[1..] == Digits(-n);
    }
  }

  /** The round trip over all of int64, the most negative number included. */
  lemma ParseFormat(n: int)
    requires IsInt64(n)
    ensures ParseInt(FormatInt(n)) == Some(n)
  {
    ReadFormat(n);
  }

  /** Printed numbers are digits and at most a minus sign in front. */
  lemma FormatShape(n: int)
    ensures FormatInt(n) != []
    ensures forall i :: 0 <= i < |FormatInt(n)| ==>
              IsDigit(FormatInt(n)[i]) || (i == 0 && FormatInt(n)[i] == '-')
  {
  }

  predicate IsSpace(c: char) {
    c == ' ' || 9 as char <= c <= 13 as char
  }

  function TrimLeft(s: string): string {
    if s != [] && IsSpace(s[0]) then TrimLeft(s[1..]) else s
  }

  function TrimRight(s: string): string {
    if s != [] && IsSpace(s[|s| - 1]) then TrimRight(s[..|s| - 1]) else s
  }

  /** strings.TrimSpace on ASCII text. */
  function Trim(s: string): string {
    TrimRight(TrimLeft(s))
  }

  ghost predicate Blank(s: string) {
    forall i :: 0 <= i < |s| ==> s[i] as int in {9, 10, 11, 12, 13, 32}
  }

  lemma {:induction false} TrimLeftBlank(a: string, b: string)
    requires Blank(a) && (b == "" || !(b[0] as int in {9, 10, 11, 12, 13, 32}))
    ensures TrimLeft(a + b) == b
  {
    if a == "" {
      assert a + b == b;
    } else {
      assert (a + b)[1..] == a[1..] + b;
      TrimLeftBlank(a[1..], b);
    }
  }

  lemma {:induction false} TrimRightBlank(b: string, c: string)
    requires Blank(c) && b != "" && !(b[|b| - 1] as int in {9, 10, 11, 12, 13, 32})
    ensures TrimRight(b + c) == b
  {
    if c == "" {
      assert b + c == b;
    } else {
      assert (b + c)[..|b + c| - 1] == b + c[..|c| - 1];
      TrimRightBlank(b, c[..|c| - 1]);
    }
  }

  /** Blanks on either side are taken off, and nothing else. */
  lemma TrimsBlanks(a: string, b: string, c: string)
    requires Blank(a) && Blank(c) && b != ""
    requires !(b[0] as int in {9, 10, 11, 12, 13, 32}) && !(b[|b| - 1] as int in {9, 10, 11, 12, 13, 32})
    ensures Trim(a + b + c) == b
  {
    assert a + b + c == a + (b + c);
    TrimLeftBlank(a, b + c);
    TrimRightBlank(b, c);
  }
}
