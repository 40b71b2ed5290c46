/**
 * The cases of tests/SetCookieTest.php, stated about the model.  The test
 * file expects capitalised attribute names (`Expires=`, `Path=`, `Domain=`,
 * `Secure`); src/SetCookie.php writes them in lower case, and the lines
 * below follow the code.  The date text is whatever `fmt` gives.
 */
module SetCookieExamples {
  import opened Wrappers
  import opened OrderedMaps
  import opened PhpValues
  import opened UrlEncoding
  import opened SetCookies
  import opened PhpNumbers

  /** `SetCookieTest::NOW`. */
  function Now(): int { 1578813956 }

  /** `new SetCookie('Name', 'Value')` keeps both strings; with no options its line is `Name=Value`. */
  lemma NameValueMade(r: Result<SetCookie, Error>)
    requires r == NewSetCookie("Name", StrV("Value"), [])
    ensures r.Success? && r.value.ToArray() == CookieArray("Name", "Value", [])
  {
  }

  /** An integer value is stored as its decimal string: 12345 becomes `"12345"`, and the line is `Number=12345`. */
  lemma NumberMade(r: Result<SetCookie, Error>)
    requires r == NewSetCookie("Number", IntV(12345), [])
    ensures r.Success? && r.value.ToArray() == CookieArray("Number", "12345", [])
  {
    Digits12345();
  }

  lemma Digits12345()
    ensures Stringify(IntV(12345)) == "12345"
  {
    assert NatDigits(1) == "1";
    assert NatDigits(12) == "12";
    assert NatDigits(123) == "123";
    assert NatDigits(1234) == "1234";
    assert NatDigits(12345) == "12345";
  }

  /** The options of the `Full` case, with its values as parameters. */
  function AllOptions(exp: int, path: string, domain: string, sameSite: string): Options {
    [ ("expires", IntV(exp)), ("path", StrV(path)), ("domain", StrV(domain)),
      ("secure", BoolV(true)), ("httponly", BoolV(true)), ("samesite", StrV(sameSite)) ]
  }

  /** Each option of `AllOptions` reads back as given. */
  lemma AllOptionsGet(exp: int, path: string, domain: string, sameSite: string)
    ensures var o := AllOptions(exp, path, domain, sameSite);
      && Get(o, "expires") == Some(IntV(exp)) && Get(o, "path") == Some(StrV(path))
      && Get(o, "domain") == Some(StrV(domain)) && Get(o, "secure") == Some(BoolV(true))
      && Get(o, "httponly") == Some(BoolV(true)) && Get(o, "samesite") == Some(StrV(sameSite))
  {
    var o := AllOptions(exp, path, domain, sameSite);
    GetAt(o, 0);
    GetAt(o, 1);
    GetAt(o, 2);
    GetAt(o, 3);
    GetAt(o, 4);
    GetAt(o, 5);
  }

  /** The six slots of `AllOptions` when every value switches its segment on. */
  lemma AllOptionsAttributes(o: Options, exp: int, path: string, domain: string, sameSite: string, now: int, fmt: int -> string)
    requires o == AllOptions(exp, path, domain, sameSite)
    requires exp > 0 && exp > now && path != "" && !HasMalformedPathChar(path) && domain != ""
    requires sameSite != "" && sameSite != "0"
    ensures Attributes(o, now, fmt) == Success([Expires(fmt(exp), exp - now)] + [Path(path)] + [Domain(UrlEncode(domain))]
      + [Secure] + [HttpOnly] + [SameSite(UrlEncode(sameSite))])
  {
    AllOptionsGet(exp, path, domain, sameSite);
    var e, p, d := [Expires(fmt(exp), exp - now)], [Path(path)], [Domain(UrlEncode(domain))];
    assert ExpiresPart(Get(o, "expires"), now, fmt) == Success(e);
    assert PathPart(Get(o, "path")) == Success(p);
    assert DomainPart(Get(o, "domain")) == Success(d);
    AttributesOfParts(o, now, fmt, e, p, d);
  }

  /**
   * The `Full` case (expires one hour after now, path `/dir/`, domain
   * `cookie.example.net`, secure, httponly, SameSite `Strict`), for any such
   * values: the line is the base followed by all six segments, in their
   * fixed order.
   */
  lemma FullLine(c: SetCookie, exp: int, path: string, domain: string, sameSite: string, now: int, fmt: int -> string)
    requires c.options == AllOptions(exp, path, domain, sameSite)
    requires exp > 0 && exp > now && path != "" && !HasMalformedPathChar(path) && domain != ""
    requires sameSite != "" && sameSite != "0"
    ensures CompileHeaderLine(c, now, fmt) == Success(
      BaseLine(c) + (Render(Expires(fmt(exp), exp - now)) + Render(Path(path)) + Render(Domain(UrlEncode(domain)))
      + Render(Secure) + Render(HttpOnly) + Render(SameSite(UrlEncode(sameSite)))))
  {
    AllOptionsAttributes(c.options, exp, path, domain, sameSite, now, fmt);
    RenderSix(Expires(fmt(exp), exp - now), Path(path), Domain(UrlEncode(domain)), Secure, HttpOnly, SameSite(UrlEncode(sameSite)));
  }

  lemma RenderSix(a1: Attribute, a2: Attribute, a3: Attribute, a4: Attribute, a5: Attribute, a6: Attribute)
    ensures RenderAll([a1] + [a2] + [a3] + [a4] + [a5] + [a6])
      == Render(a1) + Render(a2) + Render(a3) + Render(a4) + Render(a5) + Render(a6)
  {
    RenderAllConcat([a1] + [a2] + [a3] + [a4] + [a5], [a6]);
    RenderAllConcat([a1] + [a2] + [a3] + [a4], [a5]);
    RenderAllConcat([a1] + [a2] + [a3], [a4]);
    RenderAllConcat([a1] + [a2], [a3]);
    RenderAllConcat([a1], [a2]);
    OneSegment(a1);
    OneSegment(a2);
    OneSegment(a3);
    OneSegment(a4);
    OneSegment(a5);
    OneSegment(a6);
  }

  lemma OneSegment(a: Attribute)
    ensures RenderAll([a]) == Render(a)
  {
    assert RenderAll([a]) == Render(a) + RenderAll([]);
  }

  /** With the test's values one hour ahead reads `Max-Age=3600`. */
  lemma OneHour()
    ensures DecimalString(Now() + 3600 - Now()) == "3600"
  {
    assert NatDigits(3) == "3" && NatDigits(36) == "36" && NatDigits(360) == "360";
  }

  /**
   * The `Expires` cases: with `expires` 0 there is no expiry segment (a
   * session cookie); with a positive `expires` at or before now (1, now, one
   * second ago) the segment carries a zero Max-Age.
   */
  lemma ExpiresOnly(c: SetCookie, exp: int, now: int, fmt: int -> string)
    requires c.options == [("expires", IntV(exp))]
    requires exp <= now
    ensures exp <= 0 ==> CompileHeaderLine(c, now, fmt) == Success(BaseLine(c))
    ensures exp > 0 ==> CompileHeaderLine(c, now, fmt) == Success(BaseLine(c) + Render(Expires(fmt(exp), 0)))
  {
    ExpiresOnlyAttributes(c.options, exp, now, fmt);
    if exp > 0 {
      OneSegment(Expires(fmt(exp), 0));
    } else {
      assert RenderAll([]) == "" && BaseLine(c) + "" == BaseLine(c);
    }
  }

  lemma ExpiresOnlyAttributes(o: Options, exp: int, now: int, fmt: int -> string)
    requires o == [("expires", IntV(exp))]
    requires exp <= now
    ensures Attributes(o, now, fmt) == Success(if exp > 0 then [Expires(fmt(exp), 0)] else [])
  {
    GetAt(o, 0);
    assert Keys(o) == ["expires"];
    assert Get(o, "path") == None && Get(o, "domain") == None && Get(o, "secure") == None;
    assert Get(o, "httponly") == None && Get(o, "samesite") == None;
    var e: seq<Attribute> := if exp > 0 then [Expires(fmt(exp), 0)] else [];
    assert ExpiresPart(Get(o, "expires"), now, fmt) == Success(e);
    AttributesOfParts(o, now, fmt, e, [], []);
    assert FlagPart(None, Secure) == [] && FlagPart(None, HttpOnly) == [] && SameSitePart(None) == [];
    var none: seq<Attribute> := [];
    assert e + none + none + none + none + none == e;
  }

  /**
   * A string `expires` alone: the line fails the `is_int` assertion when PHP
   * finds the string above 0, and is the bare `name=value` otherwise.
   */
  lemma StringExpiresOnly(c: SetCookie, s: string, now: int, fmt: int -> string)
    requires c.options == [("expires", StrV(s))]
    ensures CompileHeaderLine(c, now, fmt) ==
      if StringAboveZero(s) then Failure(AssertionFailed) else Success(BaseLine(c))
  {
    var o := c.options;
    GetAt(o, 0);
    assert Keys(o) == ["expires"];
    assert Get(o, "path") == None && Get(o, "domain") == None && Get(o, "secure") == None;
    assert Get(o, "httponly") == None && Get(o, "samesite") == None;
    if !StringAboveZero(s) {
      var none: seq<Attribute> := [];
      assert ExpiresPart(Get(o, "expires"), now, fmt) == Success(none);
      AttributesOfParts(o, now, fmt, none, [], []);
      assert FlagPart(None, Secure) == [] && FlagPart(None, HttpOnly) == [] && SameSitePart(None) == [];
      assert none + none + none + none + none + none == none;
      assert RenderAll([]) == "" && BaseLine(c) + "" == BaseLine(c);
    }
  }

  /** `expires` set to `""`, `"0"` or `"-1"` compiles to the bare line; `"1"` or `"abc"` fails the assertion. */
  lemma StringExpiresExamples(c: SetCookie, s: string, now: int, fmt: int -> string)
    requires c.options == [("expires", StrV(s))]
    ensures s == "" || s == "0" || s == "-1" ==> CompileHeaderLine(c, now, fmt) == Success(BaseLine(c))
    ensures s == "1" || s == "abc" ==> CompileHeaderLine(c, now, fmt) == Failure(AssertionFailed)
  {
    StringComparisons();
    StringExpiresOnly(c, s, now, fmt);
  }

  /** `Max-Age=0` is the text of a zero Max-Age. */
  lemma ZeroMaxAge(date: string)
    ensures Render(Expires(date, 0)) == "; expires=" + date + "; Max-Age=0"
  {
    assert NatDigits(0) == "0";
  }
}
