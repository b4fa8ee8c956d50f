/**
 * The two conversions between integers and decimal text that the front end
 * borrows from the C++ library: `std::to_string` of a non-negative integer
 * (used on character codes by the lexer) and `std::stoi` (used by the parser
 * on integer literals).
 */
module Decimal {

  predicate IsDigitChar(c: char) {
    '0' <= c <= '9'
  }

  /** The characters `std::isspace` accepts in the "C" locale. */
  predicate IsSpaceChar(c: char) {
    c == ' ' || c == '\t' || c == '\n' || c == '\U{B}' || c == '\U{C}' || c == '\r'
  }

  function DigitChar(d: nat): (c: char)
    requires d < 10
    ensures IsDigitChar(c) && DigitValue(c) == d
  {
    ('0' as int + d) as char
  }

  function DigitValue(c: char): (d: nat)
    requires IsDigitChar(c)
    ensures d < 10
  {
    c as int - '0' as int
  }

  predicate AllDigits(s: string) {
    forall i :: 0 <= i < |s| ==> IsDigitChar(s[i])
  }

  /** The number a string of decimal digits denotes, most significant digit first. */
  function DigitsValue(s: string): nat
    requires AllDigits(s)
  {
    if s == [] then 0 else DigitsValue(s[..|s| - 1]) * 10 + DigitValue(s[|s| - 1])
  }

  /** `std::to_string` of a non-negative integer: its shortest decimal spelling. */
  function NatToString(n: nat): (s: string)
    ensures |s| >= 1 && AllDigits(s)
    ensures |s| > 1 ==> s[0] != '0'
  {
    if n < 10 then [DigitChar(n)] else NatToString(n / 10) + [DigitChar(n % 10)]
  }

  /** Reading back what `NatToString` wrote gives the number again. */
  lemma {:induction false} NatToStringRoundTrip(n: nat)
    ensures DigitsValue(NatToString(n)) == n
  {
    if n >= 10 {
      var s := NatToString(n);
      assert s[..|s| - 1] == NatToString(n / 10);
      NatToStringRoundTrip(n / 10);
    }
  }

  /** The number of leading characters of `s` that `std::isspace` accepts. */
  function SpacePrefix(s: string): (k: nat)
    ensures k <= |s|
    ensures forall i :: 0 <= i < k ==> IsSpaceChar(s[i])
    ensures k == |s| || !IsSpaceChar(s[k])
  {
    if s != [] && IsSpaceChar(s[0]) then 1 + SpacePrefix(s[1..]) else 0
  }

  /** The number of leading decimal digits of `s`. */
  function DigitPrefix(s: string): (k: nat)
    ensures k <= |s| && AllDigits(s[..k])
    ensures k == |s| || !IsDigitChar(s[k])
  {
    if s != [] && IsDigitChar(s[0]) then
      var k := 1 + DigitPrefix(s[1..]);
      assert s[..k] == [s[0]] + s[1..][..k - 1];
      k
    else 0
  }

  datatype StoiResult = Converted(value: int) | InvalidArgument

  /**
   * `std::stoi(s)` in base 10: leading white space is skipped, one optional
   * sign is read, then the longest run of digits; the rest of the string is
   * ignored. With no digit at all it throws `std::invalid_argument`.
   */
  function Stoi(s: string): StoiResult {
    var t := s[SpacePrefix(s)..];
    var signed := |t| > 0 && (t[0] == '+' || t[0] == '-');
    var u := if signed then t[1..] else t;
    var k := DigitPrefix(u);
    if k == 0 then InvalidArgument
    else
      var v: int := DigitsValue(u[..k]);
      Converted(if signed && t[0] == '-' then -v else v)
  }

  /** On a string of digits the digit run is the whole string. */
  lemma {:induction false} DigitPrefixAll(s: string)
    requires AllDigits(s)
    ensures DigitPrefix(s) == |s|
  {
    if s != [] {
      DigitPrefixAll(s[1..]);
    }
  }

  /** A non-empty run of digits converts to the number it denotes. */
  lemma StoiDigits(s: string)
    requires |s| > 0 && AllDigits(s)
    ensures Stoi(s) == Converted(DigitsValue(s))
  {
    assert !IsSpaceChar(s[0]) && !(s[0] == '+' || s[0] == '-');
    assert s[SpacePrefix(s)..] == s;
    DigitPrefixAll(s);
    assert s[..|s|] == s;
  }

  /** `std::stoi` reads back what `std::to_string` wrote. */
  lemma StoiNatToString(n: nat)
    ensures Stoi(NatToString(n)) == Converted(n)
  {
    StoiDigits(NatToString(n));
    NatToStringRoundTrip(n);
  }

  /** A string with no digit anywhere, the empty one included, is rejected. */
  lemma StoiNoDigit(s: string)
    requires forall i :: 0 <= i < |s| ==> !IsDigitChar(s[i])
    ensures Stoi(s) == InvalidArgument
  {
    var j := SpacePrefix(s);
    var t := s[j..];
    var signed := |t| > 0 && (t[0] == '+' || t[0] == '-');
    var j' := if signed then j + 1 else j;
    var u := s[j'..];
    assert u == if signed then t[1..] else t;
    assert u == [] || !IsDigitChar(s[j']);
  }
}
