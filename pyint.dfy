/** Python's `int(s)` on a string, base 10, restricted to ASCII text:
    surrounding whitespace is ignored, an optional `+` or `-` sign is
    allowed, and the digits may be grouped by single underscores
    (`"1_000"`). Anything else is a `ValueError`, modelled as `None`. */
module PyInt {
  import opened Wrappers
  import PyStr

  /** The whitespace `int()` skips in an ASCII string: space, \t, \n, \v, \f, \r. */
  predicate IsAsciiSpace(c: char) {
    c == ' ' || ('\t' <= c <= '\r')
  }

  predicate IsDigit(c: char) {
    '0' <= c <= '9'
  }

  function DigitValue(c: char): nat
    requires IsDigit(c)
  {
    (c as int) - ('0' as int)
  }

  function DigitChar(d: nat): (c: char)
    requires d < 10
    ensures IsDigit(c) && DigitValue(c) == d
  {
    (('0' as int) + d) as char
  }

  /** Decimal digits, with single underscores allowed between two digits. */
  predicate IsDigitGroup(s: string)
    decreases |s|
  {
    s != [] && IsDigit(s[0])
    && (|s| == 1 || if s[1] == '_' then IsDigitGroup(s[2..]) else IsDigitGroup(s[1..]))
  }

  /** The value of the digits of `s`, read as one decimal number; other
      characters (the underscores) are skipped. */
  function DigitsValue(s: string): nat
    decreases |s|
  {
    if s == [] then 0
    else if IsDigit(s[|s| - 1]) then DigitsValue(s[..|s| - 1]) * 10 + DigitValue(s[|s| - 1])
    else DigitsValue(s[..|s| - 1])
  }

  /** `int(s)`: `None` stands for the `ValueError` it raises. */
  function ParseInt(s: string): Option<int> {
    var t := PyStr.StripChars(s, IsAsciiSpace);
    if t == [] then None
    else
      var negative := t[0] == '-';
      var body := if t[0] == '-' || t[0] == '+' then t[1..] else t;
      if !IsDigitGroup(body) then None
      else
        var v: int := DigitsValue(body);
        Some(if negative then -v else v)
  }

  /** The canonical decimal spelling of a natural number, as `str(n)` writes it. */
  function Decimal(n: nat): (s: string)
    ensures s != [] && forall k :: 0 <= k < |s| ==> IsDigit(s[k])
    decreases n
  {
    if n < 10 then [DigitChar(n)] else Decimal(n / 10) + [DigitChar(n % 10)]
  }

  /** Reading back the digits of `Decimal(n)` gives `n`. */
  lemma {:induction false} DecimalValue(n: nat)
    ensures DigitsValue(Decimal(n)) == n
    decreases n
  {
    if n >= 10 {
      var s := Decimal(n);
      assert s[..|s| - 1] == Decimal(n / 10);
      DecimalValue(n / 10);
    }
  }

  /** A non-empty run of digits is a digit group. */
  lemma {:induction false} DigitsAreDigitGroup(s: string)
    requires s != [] && forall k :: 0 <= k < |s| ==> IsDigit(s[k])
    ensures IsDigitGroup(s)
    decreases |s|
  {
    if |s| > 1 {
      DigitsAreDigitGroup(s[1..]);
    }
  }

  /** `int(str(n)) == n` and `int("-" + str(n)) == -n`. */
  lemma DecimalRoundTrip(n: nat)
    ensures ParseInt(Decimal(n)) == Some(n)
    ensures ParseInt("-" + Decimal(n)) == Some(-(n as int))
  {
    var s := Decimal(n);
    DecimalValue(n);
    DigitsAreDigitGroup(s);
    PyStr.StripCharsUnchanged(s, IsAsciiSpace);
    var m := "-" + s;
    PyStr.StripCharsUnchanged(m, IsAsciiSpace);
    assert m[1..] == s;
  }

  /** A sign with no digits, such as git's `-` marker for a binary file,
      is not a number. */
  lemma SignAloneIsNotANumber()
    ensures ParseInt("-") == None && ParseInt("+") == None
  {
    PyStr.StripCharsUnchanged("-", IsAsciiSpace);
    PyStr.StripCharsUnchanged("+", IsAsciiSpace);
  }
}
