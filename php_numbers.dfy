/**
 * PHP 8's loose comparison `$v > 0` of an option value with the integer 0.
 *
 * An int compares by value and a bool by truthiness.  A string that is
 * numeric (optional white space, an optional sign, a decimal mantissa, an
 * optional exponent, optional white space) compares by the number it
 * denotes; any other string is compared with `"0"` byte by byte, as
 * `strcmp` does.
 */
module PhpNumbers {
  import opened Wrappers
  import opened PhpValues

  /** The white space PHP allows around a numeric string: space, `\t`, `\n`, `\v`, `\f`, `\r`. */
  predicate IsSpace(c: char) {
    c == ' ' || '\t' <= c <= '\r'
  }

  /** The length of the white space at the start of `s`. */
  function SpaceRun(s: string): (n: nat)
    ensures n <= |s|
    ensures forall i :: 0 <= i < n ==> IsSpace(s[i])
    ensures n < |s| ==> !IsSpace(s[n])
    decreases |s|
  {
    if |s| > 0 && IsSpace(s[0]) then
      var k := SpaceRun(s[1..]);
      assert forall i :: 1 <= i < 1 + k ==> s[i] == s[1..][i - 1];
      1 + k
    else 0
  }

  /** The length of the decimal digits at the start of `s`. */
  function DigitRun(s: string): (n: nat)
    ensures n <= |s|
    ensures forall i :: 0 <= i < n ==> IsDigit(s[i])
    ensures n < |s| ==> !IsDigit(s[n])
    decreases |s|
  {
    if |s| > 0 && IsDigit(s[0]) then
      var k := DigitRun(s[1..]);
      assert forall i :: 1 <= i < 1 + k ==> s[i] == s[1..][i - 1];
      1 + k
    else 0
  }

  /** The length of an exponent (`e` or `E`, an optional sign, at least one digit) at the start of `s`, or 0 when there is none. */
  function ExponentRun(s: string): (n: nat)
    ensures n <= |s|
    ensures n > 0 ==> (s[0] == 'e' || s[0] == 'E') && IsDigit(s[n - 1])
  {
    if |s| >= 2 && (s[0] == 'e' || s[0] == 'E') then
      var k := if s[1] == '+' || s[1] == '-' then 2 else 1;
      var d := DigitRun(s[k..]);
      if d > 0 then
        assert s[k + d - 1] == s[k..][d - 1];
        k + d
      else 0
    else 0
  }

  /** A numeric string as PHP 8 reads it: its sign and the text of its mantissa. */
  datatype Number = Number(negative: bool, mantissa: string)

  /**
   * PHP 8's numeric-string test.  The mantissa is digits with an optional
   * fraction, or a fraction alone, and holds at least one digit.
   */
  function ReadNumber(s: string): (r: Option<Number>)
    ensures r.Some? ==> exists i :: 0 <= i < |r.value.mantissa| && IsDigit(r.value.mantissa[i])
  {
    var t := s[SpaceRun(s)..];
    var signed := |t| > 0 && (t[0] == '+' || t[0] == '-');
    var u := if signed then t[1..] else t;
    var n := DigitRun(u);
    var dot := n < |u| && u[n] == '.';
    var f := if dot then DigitRun(u[n + 1..]) else 0;
    var m := if dot then n + 1 + f else n;
    var rest := u[m..];
    var tail := rest[ExponentRun(rest)..];
    if n + f == 0 || SpaceRun(tail) < |tail| then None
    else
      if n > 0 then
        assert IsDigit(u[..m][0]);
        Some(Number(signed && t[0] == '-', u[..m]))
      else
        assert u[..m][n + 1] == u[n + 1..][0];
        Some(Number(signed && t[0] == '-', u[..m]))
  }

  /** Some digit of the text is not zero. */
  predicate HasNonZeroDigit(m: string) {
    exists i :: 0 <= i < |m| && '1' <= m[i] <= '9'
  }

  /**
   * `$s > 0` for a string: a numeric string by whether its number is
   * positive, any other string by `strcmp($s, "0") > 0`.  In UTF-8 a
   * character above `'0'` starts with a byte above `'0'`, so comparing the
   * first character decides the first byte.
   */
  predicate StringAboveZero(s: string) {
    match ReadNumber(s)
    case Some(Number(negative, mantissa)) => !negative && HasNonZeroDigit(mantissa)
    case None => |s| > 0 && (s[0] > '0' || (s[0] == '0' && |s| > 1))
  }

  /** `$v > 0` for an option value. */
  predicate AboveZero(v: Opt) {
    match v
    case IntV(i) => i > 0
    case BoolV(b) => b
    case StrV(s) => StringAboveZero(s)
  }

  /** A text of digits only is one digit run. */
  lemma {:induction false} AllDigitsRun(s: string)
    requires forall i :: 0 <= i < |s| ==> IsDigit(s[i])
    ensures DigitRun(s) == |s|
    decreases |s|
  {
    if |s| > 0 {
      assert forall i :: 0 <= i < |s| - 1 ==> s[1..][i] == s[i + 1];
      AllDigitsRun(s[1..]);
    }
  }

  /** The decimal digits of a natural number read as that number, positive exactly when it is. */
  lemma ReadNatDigits(n: nat)
    ensures ReadNumber(NatDigits(n)) == Some(Number(false, NatDigits(n)))
    ensures HasNonZeroDigit(NatDigits(n)) <==> n > 0
  {
    var s := NatDigits(n);
    assert SpaceRun(s) == 0;
    assert s[0..] == s;
    AllDigitsRun(s);
    assert s[|s|..] == [] && s[..|s|] == s;
    NatDigitsValue(n);
    if n == 0 {
      assert s == ['0'];
    } else {
      assert s[0] != '0';
    }
  }

  /** `(string)$n > 0` is `$n > 0`: the string form of an int compares with 0 as the int does. */
  lemma DecimalAboveZero(n: int)
    ensures StringAboveZero(DecimalString(n)) <==> n > 0
  {
    var s := DecimalString(n);
    if n < 0 {
      assert s[0] == '-';
      assert SpaceRun(s) == 0 && s[0..] == s;
    } else {
      ReadNatDigits(n);
    }
  }

  /** `""`, `"0"`, `"-1"` and `"0.0"` are not above 0; `"1"`, `" 2e3 "` and `"abc"` are. */
  lemma StringComparisons()
    ensures !StringAboveZero("") && !StringAboveZero("0") && !StringAboveZero("-1") && !StringAboveZero("0.0")
    ensures StringAboveZero("1") && StringAboveZero(" 2e3 ") && StringAboveZero("abc")
  {
    EmptyString();
    DecimalExample(0, "0");
    DecimalExample(-1, "-1");
    DecimalExample(1, "1");
    ZeroPointZero();
    SpacedExponent();
    Letters();
  }

  lemma EmptyString()
    ensures !StringAboveZero("")
  {
    assert SpaceRun("") == 0;
  }

  lemma DecimalExample(n: int, s: string)
    requires s == DecimalString(n)
    ensures StringAboveZero(s) <==> n > 0
  {
    DecimalAboveZero(n);
  }

  lemma ZeroPointZero()
    ensures ReadNumber("0.0") == Some(Number(false, "0.0"))
    ensures !StringAboveZero("0.0")
  {
    var s := "0.0";
    assert SpaceRun(s) == 0 && s[0..] == s;
    assert DigitRun(s) == 1;
    assert s[2..] == "0" && DigitRun(s[2..]) == 1;
    assert s[3..] == [] && s[..3] == s;
  }

  lemma SpacedExponent()
    ensures ReadNumber(" 2e3 ") == Some(Number(false, "2"))
    ensures StringAboveZero(" 2e3 ")
  {
    var s := " 2e3 ";
    assert SpaceRun(s[1..]) == 0;
    assert SpaceRun(s) == 1;
    var u := s[1..];
    assert u == "2e3 ";
    assert DigitRun(u[1..]) == 0;
    assert DigitRun(u) == 1;
    var rest := u[1..];
    assert rest == "e3 " && rest[1..] == "3 ";
    assert DigitRun(rest[1..][1..]) == 0;
    assert DigitRun(rest[1..]) == 1;
    assert ExponentRun(rest) == 2;
    assert rest[2..] == " ";
    assert SpaceRun(rest[2..][1..]) == 0;
    assert SpaceRun(rest[2..]) == 1;
    assert u[..1] == "2";
  }

  lemma Letters()
    ensures ReadNumber("abc") == None
    ensures StringAboveZero("abc")
  {
    var s := "abc";
    assert SpaceRun(s) == 0 && s[0..] == s;
    assert DigitRun(s) == 0;
  }
}
