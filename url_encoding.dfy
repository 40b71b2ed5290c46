/**
 * PHP's `urlencode`, the form encoding (`application/x-www-form-urlencoded`)
 * applied byte by byte: ASCII letters, digits and `.`, `_`, `-` are kept,
 * a space becomes `+`, and every other byte becomes `%` followed by two
 * upper-case hexadecimal digits.  This is not the `%20` style of section
 * 2.1 of RFC 3986.  Its partner is PHP's `urldecode`, which undoes it.
 */
module UrlEncoding {

  type Byte = b: int | 0 <= b < 256

  /** The UTF-8 encoding of one character (section 3 of RFC 3629). */
  function Utf8(c: char): (bs: seq<Byte>)
    ensures 1 <= |bs| <= 4
    ensures c as int < 128 ==> bs == [c as int]
  {
    var n := c as int;
    if n < 0x80 then [n]
    else if n < 0x800 then [0xC0 + n / 64, 0x80 + n % 64]
    else if n < 0x1_0000 then [0xE0 + n / 4096, 0x80 + (n / 64) % 64, 0x80 + n % 64]
    else [0xF0 + n / 262144, 0x80 + (n / 4096) % 64, 0x80 + (n / 64) % 64, 0x80 + n % 64]
  }

  /** The bytes of the PHP string holding the text `s`. */
  function Utf8String(s: string): seq<Byte>
    decreases |s|
  {
    if |s| == 0 then [] else Utf8(s[0]) + Utf8String(s[1..])
  }

  /** The bytes `urlencode` leaves as they are: `[A-Za-z0-9._-]`. */
  predicate Unreserved(b: int) {
    || 'A' as int <= b <= 'Z' as int
    || 'a' as int <= b <= 'z' as int
    || '0' as int <= b <= '9' as int
    || b == '.' as int || b == '_' as int || b == '-' as int
  }

  predicate UnreservedChar(c: char) {
    Unreserved(c as int)
  }

  /** The characters `urlencode` can produce. */
  predicate EncodedChar(c: char) {
    UnreservedChar(c) || c == '+' || c == '%'
  }

  function HexDigit(d: int): (c: char)
    requires 0 <= d < 16
    ensures UnreservedChar(c)
  {
    "0123456789ABCDEF"[d]
  }

  /** The encoding of one byte. */
  function EncodeByte(b: Byte): (s: string)
    ensures forall i :: 0 <= i < |s| ==> EncodedChar(s[i])
  {
    if Unreserved(b) then [b as char]
    else if b == ' ' as int then "+"
    else ['%', HexDigit(b / 16), HexDigit(b % 16)]
  }

  function UrlEncodeBytes(bs: seq<Byte>): (s: string)
    ensures forall i :: 0 <= i < |s| ==> EncodedChar(s[i])
    decreases |bs|
  {
    if |bs| == 0 then [] else EncodeByte(bs[0]) + UrlEncodeBytes(bs[1..])
  }

  /**
   * `urlencode($s)`.  Its output never holds a separator of a `Set-Cookie`
   * line: no `=`, `;`, `,` or white space.
   */
  function UrlEncode(s: string): (r: string)
    ensures forall i :: 0 <= i < |r| ==> EncodedChar(r[i])
    ensures '=' !in r && ';' !in r && ',' !in r && ' ' !in r
  {
    UrlEncodeBytes(Utf8String(s))
  }

  /** PHP's `isxdigit`: upper- and lower-case hexadecimal digits. */
  predicate IsHexChar(c: char) {
    ('0' <= c <= '9') || ('A' <= c <= 'F') || ('a' <= c <= 'f')
  }

  function HexValue(c: char): (d: int)
    requires IsHexChar(c)
    ensures 0 <= d < 16
  {
    if '0' <= c <= '9' then c as int - '0' as int
    else if 'A' <= c <= 'F' then c as int - 'A' as int + 10
    else c as int - 'a' as int + 10
  }

  /**
   * `urldecode($s)`: `+` is a space, `%` with two hexadecimal digits is that
   * byte, and every other character stands for its own bytes.
   */
  function UrlDecode(s: string): seq<Byte>
    decreases |s|
  {
    if |s| == 0 then []
    else if s[0] == '+' then [' ' as int] + UrlDecode(s[1..])
    else if s[0] == '%' && |s| >= 3 && IsHexChar(s[1]) && IsHexChar(s[2]) then
      [HexValue(s[1]) * 16 + HexValue(s[2])] + UrlDecode(s[3..])
    else Utf8(s[0]) + UrlDecode(s[1..])
  }

  lemma HexDigitValue(d: int)
    requires 0 <= d < 16
    ensures IsHexChar(HexDigit(d)) && HexValue(HexDigit(d)) == d
  {
  }

  /** Decoding the encoding of one byte gives that byte, whatever follows. */
  lemma DecodeEncodedByte(b: Byte, rest: string)
    ensures UrlDecode(EncodeByte(b) + rest) == [b] + UrlDecode(rest)
  {
    if Unreserved(b) {
      DecodeKept(b, rest);
    } else if b == ' ' as int {
      DecodeSpace(rest);
    } else {
      DecodeEscaped(b, rest);
    }
  }

  /** An unreserved character decodes to its own byte. */
  lemma DecodeKept(b: Byte, rest: string)
    requires Unreserved(b)
    ensures UrlDecode(EncodeByte(b) + rest) == [b] + UrlDecode(rest)
  {
    var s := [b as char] + rest;
    assert EncodeByte(b) + rest == s;
    assert s[0] == b as char && s[1..] == rest;
  }

  /** `+` decodes to a space. */
  lemma DecodeSpace(rest: string)
    ensures UrlDecode(EncodeByte(' ' as int) + rest) == [' ' as int] + UrlDecode(rest)
  {
    var s := ['+'] + rest;
    assert EncodeByte(' ' as int) + rest == s;
    assert s[0] == '+' && s[1..] == rest;
  }

  /** `%XY` decodes to the byte with hex digits X and Y. */
  lemma DecodeEscaped(b: Byte, rest: string)
    requires !Unreserved(b) && b != ' ' as int
    ensures UrlDecode(EncodeByte(b) + rest) == [b] + UrlDecode(rest)
  {
    var hi, lo := b / 16, b % 16;
    assert b == hi * 16 + lo;
    assert EncodeByte(b) == ['%', HexDigit(hi), HexDigit(lo)];
    DecodeHex(hi, lo, rest);
    assert [hi * 16 + lo] == [b];
  }

  /** `%` and the hex digits of `hi` and `lo` decode to the byte `16 * hi + lo`. */
  lemma DecodeHex(hi: int, lo: int, rest: string)
    requires 0 <= hi < 16 && 0 <= lo < 16
    ensures UrlDecode(['%', HexDigit(hi), HexDigit(lo)] + rest) == [hi * 16 + lo] + UrlDecode(rest)
  {
    HexDigitValue(hi);
    HexDigitValue(lo);
    var s := ['%', HexDigit(hi), HexDigit(lo)] + rest;
    assert s[1] == HexDigit(hi) && s[2] == HexDigit(lo) && s[3..] == rest;
    DecodePercent(s);
  }

  /** `%` and two hex digits decode to the byte they spell. */
  lemma DecodePercent(s: string)
    requires |s| >= 3 && s[0] == '%' && IsHexChar(s[1]) && IsHexChar(s[2])
    ensures UrlDecode(s) == [HexValue(s[1]) * 16 + HexValue(s[2])] + UrlDecode(s[3..])
  {
  }



  /** `urldecode(urlencode(x)) == x` on bytes. */
  lemma {:induction false} UrlDecodeEncodeBytes(bs: seq<Byte>)
    ensures UrlDecode(UrlEncodeBytes(bs)) == bs
    decreases |bs|
  {
    if |bs| > 0 {
      DecodeEncodedByte(bs[0], UrlEncodeBytes(bs[1..]));
      UrlDecodeEncodeBytes(bs[1..]);
      assert bs == [bs[0]] + bs[1..];
    }
  }

  /** `urldecode(urlencode($s))` gives back the bytes of `$s`: nothing is lost. */
  lemma UrlEncodeRoundTrip(s: string)
    ensures UrlDecode(UrlEncode(s)) == Utf8String(s)
  {
    UrlDecodeEncodeBytes(Utf8String(s));
  }

  /** Text made only of `[A-Za-z0-9._-]` is left unchanged: `urlencode("Name") == "Name"`. */
  lemma {:induction false} UrlEncodeKeepsUnreserved(s: string)
    requires forall i :: 0 <= i < |s| ==> UnreservedChar(s[i])
    ensures UrlEncode(s) == s
    decreases |s|
  {
    if |s| > 0 {
      UrlEncodeKeepsUnreserved(s[1..]);
      assert Utf8String(s) == [s[0] as int] + Utf8String(s[1..]);
      assert UrlEncodeBytes(Utf8String(s)) == EncodeByte(s[0] as int) + UrlEncodeBytes(Utf8String(s[1..]));
      assert s == [s[0]] + s[1..];
    }
  }

  /** `urlencode` works character by character: the encoding of a concatenation is the concatenation of the encodings. */
  lemma {:induction false} UrlEncodeConcat(a: string, b: string)
    ensures UrlEncode(a + b) == UrlEncode(a) + UrlEncode(b)
    decreases |a|
  {
    Utf8StringConcat(a, b);
    UrlEncodeBytesConcat(Utf8String(a), Utf8String(b));
  }

  lemma {:induction false} Utf8StringConcat(a: string, b: string)
    ensures Utf8String(a + b) == Utf8String(a) + Utf8String(b)
    decreases |a|
  {
    if |a| > 0 {
      assert (a + b)[1..] == a[1..] + b;
      Utf8StringConcat(a[1..], b);
    } else {
      assert a + b == b;
    }
  }

  lemma {:induction false} UrlEncodeBytesConcat(a: seq<Byte>, b: seq<Byte>)
    ensures UrlEncodeBytes(a + b) == UrlEncodeBytes(a) + UrlEncodeBytes(b)
    decreases |a|
  {
    if |a| > 0 {
      assert (a + b)[1..] == a[1..] + b;
      UrlEncodeBytesConcat(a[1..], b);
    } else {
      assert a + b == b;
    }
  }

  /** A space is encoded as `+`, so `urlencode("is zero.") == "is+zero."`. */
  lemma UrlEncodeSpace()
    ensures UrlEncode(" ") == "+"
  {
    assert Utf8String(" ") == [32];
    assert UrlEncodeBytes([32]) == "+";
  }

  /** `s` is made of `[A-Za-z0-9._-]` only, checked character by character. */
  predicate Plain(s: string)
    decreases |s|
  {
    |s| == 0 || (UnreservedChar(s[0]) && Plain(s[1..]))
  }

  lemma {:induction false} PlainUnreserved(s: string)
    requires Plain(s)
    ensures forall i :: 0 <= i < |s| ==> UnreservedChar(s[i])
    decreases |s|
  {
    if |s| > 0 {
      PlainUnreserved(s[1..]);
      forall i | 1 <= i < |s| ensures UnreservedChar(s[i]) {
        assert s[i] == s[1..][i - 1];
      }
    }
  }

  /** Plain text, a space and plain text encode as the two joined by `+`: `urlencode("is zero.") == "is+zero."`. */
  lemma SpacedPlain(a: string, b: string)
    requires Plain(a) && Plain(b)
    ensures UrlEncode(a + " " + b) == a + "+" + b
  {
    PlainUnreserved(a);
    PlainUnreserved(b);
    UrlEncodeConcat(a + " ", b);
    UrlEncodeConcat(a, " ");
    UrlEncodeSpace();
    UrlEncodeKeepsUnreserved(a);
    UrlEncodeKeepsUnreserved(b);
  }
}
