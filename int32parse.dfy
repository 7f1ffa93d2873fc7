/** How the driver turns a token into a number: .NET's Int32.TryParse with its
    default number style (leading and trailing white space, an optional leading
    sign, decimal digits, and a value that fits in 32 bits).  On failure the
    routine reports false and sets its out value to 0; the driver uses that
    value whether or not parsing succeeded.
 */
module Int32Parse {

  const MinInt32: int := -0x8000_0000
  const MaxInt32: int := 0x7FFF_FFFF

  predicate InInt32(n: int) {
    MinInt32 <= n <= MaxInt32
  }

  /** The (return value, out value) pair of TryParse. */
  datatype Parsed = Parsed(ok: bool, value: int)

  /** White space as the number parser sees it: tab, line feed, vertical tab,
      form feed, carriage return and space. */
  predicate IsWhite(c: char) {
    '\t' <= c <= '\r' || c == ' '
  }

  predicate IsDigit(c: char) {
    '0' <= c <= '9'
  }

  predicate IsSign(c: char) {
    c == '+' || c == '-'
  }

  /** Characters that can appear in a number TryParse accepts. */
  predicate IsNumeric(c: char) {
    IsWhite(c) || IsDigit(c) || IsSign(c)
  }

  predicate AllDigits(s: string) {
    forall i :: 0 <= i < |s| ==> IsDigit(s[i])
  }

  predicate AllWhite(s: string) {
    forall i :: 0 <= i < |s| ==> IsWhite(s[i])
  }

  function DigitValue(c: char): nat
    requires IsDigit(c)
  {
    (c as int) - ('0' as int)
  }

  /** The value of the digits `s` read after the digits worth `acc`, most significant first. */
  function DigitsFrom(acc: nat, s: string): nat
    requires AllDigits(s)
    decreases |s|
  {
    if s == [] then acc else DigitsFrom(acc * 10 + DigitValue(s[0]), s[1..])
  }

  /** Where the parser is in the text: before the number, just after its
      sign, inside its digits, or in the white space after it. */
  datatype Phase = Leading | Signed | InDigits | Trailing

  /** The outcome once the whole text is read: the signed magnitude, if it fits in 32 bits. */
  function Finish(negative: bool, magnitude: nat): (r: Parsed)
    ensures !r.ok ==> r.value == 0
    ensures r.ok ==> InInt32(r.value) && (if negative then -r.value else r.value) == magnitude
  {
    var n := if negative then -(magnitude as int) else magnitude as int;
    if InInt32(n) then Parsed(true, n) else Parsed(false, 0)
  }

  /** Reads `s` one character at a time from the given phase; `negative` and
      `magnitude` are the sign and the value of the digits read so far. */
  function Scan(s: string, phase: Phase, negative: bool, magnitude: nat): (r: Parsed)
    ensures !r.ok ==> r.value == 0
    ensures r.ok ==> InInt32(r.value)
    decreases |s|
  {
    if s == [] then
      if phase == InDigits || phase == Trailing then Finish(negative, magnitude) else Parsed(false, 0)
    else
      var c := s[0];
      match phase
      case Leading =>
        if IsWhite(c) then Scan(s[1..], Leading, false, 0)
        else if IsSign(c) then Scan(s[1..], Signed, c == '-', 0)
        else if IsDigit(c) then Scan(s[1..], InDigits, false, DigitValue(c))
        else Parsed(false, 0)
      case Signed =>
        if IsDigit(c) then Scan(s[1..], InDigits, negative, DigitValue(c)) else Parsed(false, 0)
      case InDigits =>
        if IsDigit(c) then Scan(s[1..], InDigits, negative, magnitude * 10 + DigitValue(c))
        else if IsWhite(c) then Scan(s[1..], Trailing, negative, magnitude)
        else Parsed(false, 0)
      case Trailing =>
        if IsWhite(c) then Scan(s[1..], Trailing, negative, magnitude) else Parsed(false, 0)
  }

  /** Int32.TryParse(s, out value). */
  function TryParseInt32(s: string): (r: Parsed)
    ensures !r.ok ==> r.value == 0
    ensures r.ok ==> InInt32(r.value)
  {
    Scan(s, Leading, false, 0)
  }

  function DigitChar(d: nat): (c: char)
    requires d < 10
  {
    ('0' as int + d) as char
  }

  /** The decimal digits of `n`, without leading zeros. */
  function NatDigits(n: nat): string
    decreases n
  {
    if n < 10 then [DigitChar(n)] else NatDigits(n / 10) + [DigitChar(n % 10)]
  }

  /** The usual decimal text of `n`, with a minus sign when it is negative. */
  function Decimal(n: int): string {
    if n < 0 then ['-'] + NatDigits(-n) else NatDigits(n)
  }

  /** Appending a digit shifts the value read so far one decimal place. */
  lemma {:induction false} DigitsFromAppend(acc: nat, s: string, c: char)
    requires AllDigits(s) && IsDigit(c)
    ensures AllDigits(s + [c])
    ensures DigitsFrom(acc, s + [c]) == DigitsFrom(acc, s) * 10 + DigitValue(c)
    decreases |s|
  {
    if s != [] {
      assert (s + [c])[1..] == s[1..] + [c];
      DigitsFromAppend(acc * 10 + DigitValue(s[0]), s[1..], c);
    }
  }

  lemma {:induction false} NatDigitsValue(n: nat)
    ensures |NatDigits(n)| > 0 && AllDigits(NatDigits(n))
    ensures DigitsFrom(0, NatDigits(n)) == n
    decreases n
  {
    if n >= 10 {
      NatDigitsValue(n / 10);
      DigitsFromAppend(0, NatDigits(n / 10), DigitChar(n % 10));
    }
  }

  /** Once inside the digits, the parser reads all remaining digits into the magnitude. */
  lemma {:induction false} ScanDigits(s: string, negative: bool, magnitude: nat)
    requires AllDigits(s)
    ensures Scan(s, InDigits, negative, magnitude) == Finish(negative, DigitsFrom(magnitude, s))
    decreases |s|
  {
    if s != [] {
      ScanDigits(s[1..], negative, magnitude * 10 + DigitValue(s[0]));
    }
  }

  /** TryParse reads back every 32-bit integer from its decimal text. */
  lemma DecimalRoundTrip(n: int)
    requires InInt32(n)
    ensures TryParseInt32(Decimal(n)) == Parsed(true, n)
  {
    var m: nat := if n < 0 then -n else n;
    var digits := NatDigits(m);
    NatDigitsValue(m);
    ScanDigits(digits[1..], n < 0, DigitValue(digits[0]));
    if n < 0 {
      var d := Decimal(n);
      assert d[0] == '-' && d[1..] == digits;
      assert Scan(d, Leading, false, 0) == Scan(digits, Signed, true, 0);
    }
  }

  /** Wherever the parser is, a character that cannot belong to a number
      ahead of it makes the parse fail. */
  lemma {:induction false} ScanFailsAt(s: string, i: nat, phase: Phase, negative: bool, magnitude: nat)
    requires i < |s| && !IsNumeric(s[i])
    ensures Scan(s, phase, negative, magnitude) == Parsed(false, 0)
    decreases i
  {
    if i > 0 {
      forall p: Phase, b: bool, v: nat
        ensures Scan(s[1..], p, b, v) == Parsed(false, 0)
      {
        ScanFailsAt(s[1..], i - 1, p, b, v);
      }
    }
  }

  /** A token holding any character that cannot belong to a number fails to
      parse, and its out value is 0. */
  lemma NonNumericFails(s: string, i: nat)
    requires i < |s| && !IsNumeric(s[i])
    ensures TryParseInt32(s) == Parsed(false, 0)
  {
    ScanFailsAt(s, i, Leading, false, 0);
  }

  lemma {:induction false} ScanLeadingWhite(a: string, s: string)
    requires AllWhite(a)
    ensures Scan(a + s, Leading, false, 0) == Scan(s, Leading, false, 0)
    decreases |a|
  {
    if a != [] {
      assert (a + s)[0] == a[0];
      assert (a + s)[1..] == a[1..] + s;
      ScanLeadingWhite(a[1..], s);
    } else {
      assert a + s == s;
    }
  }

  lemma {:induction false} ScanOnlyWhite(b: string, phase: Phase, negative: bool, magnitude: nat)
    requires AllWhite(b)
    ensures Scan(b, phase, negative, magnitude) == Scan([], phase, negative, magnitude)
    decreases |b|
  {
    if b != [] {
      if phase == InDigits {
        ScanOnlyWhite(b[1..], Trailing, negative, magnitude);
      } else {
        ScanOnlyWhite(b[1..], phase, negative, magnitude);
      }
    }
  }

  lemma {:induction false} ScanTrailingWhite(s: string, b: string, phase: Phase, negative: bool, magnitude: nat)
    requires AllWhite(b)
    ensures Scan(s + b, phase, negative, magnitude) == Scan(s, phase, negative, magnitude)
    decreases |s|
  {
    if s == [] {
      assert s + b == b;
      ScanOnlyWhite(b, phase, negative, magnitude);
    } else {
      assert (s + b)[0] == s[0];
      assert (s + b)[1..] == s[1..] + b;
      forall p: Phase, n: bool, m: nat
        ensures Scan(s[1..] + b, p, n, m) == Scan(s[1..], p, n, m)
      {
        ScanTrailingWhite(s[1..], b, p, n, m);
      }
    }
  }

  /** White space around a number changes nothing: TryParse's default style
      allows it before and after. */
  lemma WhiteSpaceIgnored(a: string, t: string, b: string)
    requires AllWhite(a) && AllWhite(b)
    ensures TryParseInt32(a + t + b) == TryParseInt32(t)
  {
    assert a + t + b == a + (t + b);
    ScanLeadingWhite(a, t + b);
    ScanTrailingWhite(t, b, Leading, false, 0);
  }
}
