/** The two JavaScript string built-ins the application relies on:
    `String.prototype.trim` and the decimal rendering of a non-negative
    integer inside a template literal. */
module JsText {

  /** WhiteSpace and LineTerminator code points as ECMAScript's `trim` strips them. */
  predicate IsWhitespace(c: char) {
    || c == '\t' || c == '\n' || c == '\U{000B}' || c == '\U{000C}' || c == '\r'
    || c == ' ' || c == '\U{00A0}' || c == '\U{1680}'
    || ('\U{2000}' <= c <= '\U{200A}')
    || c == '\U{2028}' || c == '\U{2029}' || c == '\U{202F}' || c == '\U{205F}'
    || c == '\U{3000}' || c == '\U{FEFF}'
  }

  /** Every character of `s` in positions `lo` up to `hi` is whitespace. */
  predicate WhitespaceBetween(s: string, lo: nat, hi: nat)
    requires lo <= hi <= |s|
  {
    forall i :: lo <= i < hi ==> IsWhitespace(s[i])
  }

  predicate AllWhitespace(s: string) {
    WhitespaceBetween(s, 0, |s|)
  }

  /** The number of whitespace characters `s` starts with: all of them are
      whitespace and the next character, if any, is not. */
  function LeadingWhitespace(s: string): (n: nat)
    ensures n <= |s| && WhitespaceBetween(s, 0, n)
    ensures n < |s| ==> !IsWhitespace(s[n])
  {
    if s != [] && IsWhitespace(s[0]) then
      var n := 1 + LeadingWhitespace(s[1..]);
      assert forall i :: 1 <= i < n ==> s[i] == s[1..][i - 1];
      n
    else
      0
  }

  /** Where the trailing whitespace of `s` begins: every character from there on
      is whitespace and the one before, if any, is not. */
  function TrailingWhitespaceStart(s: string): (n: nat)
    ensures n <= |s| && WhitespaceBetween(s, n, |s|)
    ensures 0 < n ==> !IsWhitespace(s[n - 1])
  {
    if s != [] && IsWhitespace(s[|s| - 1]) then
      var n := TrailingWhitespaceStart(s[..|s| - 1]);
      assert forall i :: n <= i < |s| - 1 ==> s[i] == s[..|s| - 1][i];
      n
    else
      |s|
  }

  /** `s.trim()`: the slice of `s` left once the leading and then the trailing
      whitespace is removed. */
  function Trim(s: string): (r: string)
    ensures var lead := LeadingWhitespace(s);
      && lead + |r| <= |s|
      && r == s[lead..lead + |r|]
      && WhitespaceBetween(s, 0, lead) && WhitespaceBetween(s, lead + |r|, |s|)
    ensures r != [] ==> !IsWhitespace(r[0]) && !IsWhitespace(r[|r| - 1])
  {
    var lead := LeadingWhitespace(s);
    var t := s[lead..];
    var n := TrailingWhitespaceStart(t);
    assert WhitespaceBetween(s, lead + n, |s|) by {
      forall i | lead + n <= i < |s| ensures IsWhitespace(s[i]) {
        assert s[i] == t[i - lead];
      }
    }
    assert t[..n] == s[lead..lead + n];
    t[..n]
  }

  /** A string trims to the empty string exactly when it is all whitespace
      (`!input.trim()` in the source). */
  lemma TrimEmptyIff(s: string)
    ensures Trim(s) == [] <==> AllWhitespace(s)
  {
    var lead := LeadingWhitespace(s);
    if Trim(s) == [] {
      assert s == s[..lead] + s[lead..];
    } else {
      assert Trim(s)[0] == s[lead];
    }
  }

  function DigitChar(d: nat): (c: char)
    requires d < 10
  {
    ('0' as int + d) as char
  }

  predicate IsDigit(c: char) {
    '0' <= c <= '9'
  }

  function DigitValue(c: char): nat
    requires IsDigit(c)
  {
    c as int - '0' as int
  }

  /** `${n}` for a non-negative integer `n`: its decimal digits, most significant first. */
  function Decimal(n: nat): (r: string)
    ensures r != []
    ensures forall i :: 0 <= i < |r| ==> IsDigit(r[i])
  {
    if n < 10 then [DigitChar(n)] else Decimal(n / 10) + [DigitChar(n % 10)]
  }

  /** Reads a string of decimal digits back as a number. */
  function ParseDecimal(s: string): nat
    requires forall i :: 0 <= i < |s| ==> IsDigit(s[i])
  {
    if s == [] then 0
    else ParseDecimal(s[..|s| - 1]) * 10 + DigitValue(s[|s| - 1])
  }

  /** Parsing inverts rendering. */
  lemma {:induction false} DecimalRoundTrip(n: nat)
    ensures ParseDecimal(Decimal(n)) == n
  {
    var s := Decimal(n);
    if n >= 10 {
      assert s[..|s| - 1] == Decimal(n / 10);
      DecimalRoundTrip(n / 10);
    }
  }

  /** Different numbers render differently. */
  lemma DecimalInjective(m: nat, n: nat)
    ensures Decimal(m) == Decimal(n) ==> m == n
  {
    DecimalRoundTrip(m);
    DecimalRoundTrip(n);
  }
}
