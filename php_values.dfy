/**
 * The PHP values and built-in behaviour the cookie library relies on:
 * option values, `(string)` conversion, truthiness, `strpos`/`explode`, and
 * the exceptions the library raises.
 *
 * A PHP string is a byte string; the model represents it as the text whose
 * UTF-8 encoding it holds.  Every character the library looks for (`=`,
 * `;`, `,`, white space) is ASCII, and in UTF-8 an ASCII byte never occurs
 * inside the encoding of another character, so searching characters finds
 * the same places as searching bytes.
 */
module PhpValues {
  import opened Wrappers
  import opened OrderedMaps

  /** A cookie option value: the library documents int, string and bool options. */
  datatype Opt = IntV(i: int) | StrV(s: string) | BoolV(b: bool)

  /** An options array such as `['expires' => 0, 'path' => '/']`, in its key order. */
  type Options = OrderedMap<string, Opt>

  /** The exceptions of the library, by cause. */
  datatype Error =
    | UnknownOption(key: string)   // DomainException "<key> in unexpected cookie option."
    | MalformedPath                // DomainException "Cookie paths cannot contain any of ..."
    | AssertionFailed              // AssertionError of a failed `assert(...)`
    | UndefinedOffset(key: string) // reading a missing array key, then returning null as a SetCookie

  /** The array `['name' => ..., 'value' => ..., 'options' => ...]` that `toArray` builds. */
  datatype CookieArray = CookieArray(name: string, value: string, options: Options)

  function DigitChar(d: nat): (c: char)
    requires d < 10
    ensures IsDigit(c) && DigitValue(c) == d
  {
    ('0' as int + d) as char
  }

  predicate IsDigit(c: char) {
    '0' <= c <= '9'
  }

  function DigitValue(c: char): nat
    requires IsDigit(c)
  {
    c as int - '0' as int
  }

  /** Decimal digits of a natural number, most significant first. */
  function NatDigits(n: nat): (r: string)
    ensures |r| > 0 && forall i :: 0 <= i < |r| ==> IsDigit(r[i])
    decreases n
  {
    if n < 10 then [DigitChar(n)] else NatDigits(n / 10) + [DigitChar(n % 10)]
  }

  /** `(string)$n` for an integer: optional minus sign, then the digits. */
  function DecimalString(n: int): (r: string)
    ensures |r| > 0
    ensures r[0] == '-' ==> n < 0 && forall i :: 1 <= i < |r| ==> IsDigit(r[i])
    ensures r[0] != '-' ==> forall i :: 0 <= i < |r| ==> IsDigit(r[i])
  {
    if n < 0 then "-" + NatDigits(-n) else NatDigits(n)
  }

  /** The number a string of decimal digits denotes. */
  function DecimalValue(s: string): nat
    requires forall i :: 0 <= i < |s| ==> IsDigit(s[i])
    decreases |s|
  {
    if |s| == 0 then 0 else DecimalValue(s[..|s| - 1]) * 10 + DigitValue(s[|s| - 1])
  }

  /** Reading a decimal integer back: `(int)` of a string that `DecimalString` produced. */
  function ParseDecimal(s: string): int
    requires |s| > 0
    requires s[0] == '-' ==> forall i :: 1 <= i < |s| ==> IsDigit(s[i])
    requires s[0] != '-' ==> forall i :: 0 <= i < |s| ==> IsDigit(s[i])
  {
    if s[0] == '-' then -(DecimalValue(s[1..]) as int) else DecimalValue(s)
  }

  /** The digits of `n` are digits, without a leading zero, and denote `n`. */
  lemma {:induction false} NatDigitsValue(n: nat)
    ensures |NatDigits(n)| > 1 ==> NatDigits(n)[0] != '0'
    ensures DecimalValue(NatDigits(n)) == n
    decreases n
  {
    if n >= 10 {
      NatDigitsValue(n / 10);
      var s, init := NatDigits(n), NatDigits(n / 10);
      assert s[..|s| - 1] == init && s[|s| - 1] == DigitChar(n % 10);
      assert DecimalValue(s) == DecimalValue(init) * 10 + n % 10;
      assert s[0] == init[0];
    }
  }

  /** `(string)` of an integer reads back as the same integer. */
  lemma DecimalStringRoundTrip(n: int)
    ensures |DecimalString(n)| > 0
    ensures ParseDecimal(DecimalString(n)) == n
  {
    NatDigitsValue(if n < 0 then -n else n);
    if n < 0 {
      assert DecimalString(n)[1..] == NatDigits(-n);
    }
  }

  /** `(string)$v`: how PHP turns an option value into a string. */
  function Stringify(v: Opt): string {
    match v
    case IntV(i) => DecimalString(i)
    case StrV(s) => s
    case BoolV(b) => if b then "1" else ""
  }

  /** `if ($v)`: PHP truthiness of an option value. */
  predicate Truthy(v: Opt) {
    match v
    case IntV(i) => i != 0
    case StrV(s) => s != "" && s != "0"
    case BoolV(b) => b
  }

  /**
   * `strpos($s, $sep) !== false ? explode($sep, $s, 2)[0] : none`: the text
   * before the first `sep`, when there is one.
   */
  function ExplodeHead(s: string, sep: char): (r: Option<string>)
    ensures r.Some? <==> sep in s
    ensures r.Some? ==> sep !in r.value && r.value + [sep] <= s
  {
    if |s| == 0 then None
    else if s[0] == sep then Some([])
    else match ExplodeHead(s[1..], sep)
      case None => None
      case Some(head) => Some([s[0]] + head)
  }

  /** The head before `sep` is unaffected by what follows its first occurrence. */
  lemma {:induction false} ExplodeHeadOfJoin(head: string, sep: char, rest: string)
    requires sep !in head
    ensures ExplodeHead(head + [sep] + rest, sep) == Some(head)
    decreases |head|
  {
    var s := head + [sep] + rest;
    if |head| > 0 {
      assert s[0] == head[0] && head[0] in head;
      assert s[1..] == head[1..] + [sep] + rest;
      ExplodeHeadOfJoin(head[1..], sep, rest);
      assert head == [head[0]] + head[1..];
    }
  }
}
