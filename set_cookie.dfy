/**
 * `SetCookie` (src/SetCookie.php): an immutable cookie whose option keys
 * were checked when it was made, and that compiles itself into the value
 * of one `Set-Cookie` header line in the sense of section 4.1.1 of RFC 6265.
 *
 * The PHP code runs its `assert(...)` statements; a failing one is the
 * error `AssertionFailed`.  The date text of `date(DATE_COOKIE, $t)`
 * depends on the host's time zone and is the parameter `fmt`; the current
 * time is the parameter `now`.
 */
module SetCookies {
  import opened Wrappers
  import opened OrderedMaps
  import opened PhpValues
  import opened UrlEncoding
  import opened PhpNumbers

  /** The keys of `KNOWN_OPTIONS`. */
  const KnownOptionNames: seq<string> := ["expires", "path", "domain", "secure", "httponly", "samesite"]

  /** The six known option names differ from each other. */
  lemma KnownNamesDistinct()
    ensures forall i, j :: 0 <= i < j < |KnownOptionNames| ==> KnownOptionNames[i] != KnownOptionNames[j]
  {
    assert "expires"[0] == 'e' && "path"[0] == 'p' && "domain"[0] == 'd';
    assert "secure"[0] == 's' && "httponly"[0] == 'h' && "samesite"[0] == 's';
    assert "secure"[1] == 'e' && "samesite"[1] == 'a';
  }

  predicate IsKnownOption(key: string) {
    key in KnownOptionNames
  }

  predicate AllKnown(options: seq<(string, Opt)>) {
    forall i :: 0 <= i < |options| ==> IsKnownOption(options[i].0)
  }

  /**
   * What `assertOptions` does: it passes when every key is known, and
   * otherwise throws naming the first unknown key.  Values are not looked at.
   */
  function CheckOptions(options: seq<(string, Opt)>): (r: Outcome<Error>)
    ensures r.Pass? <==> AllKnown(options)
    ensures r.Fail? ==> exists i :: FirstUnknownAt(options, i) && r.error == UnknownOption(options[i].0)
    decreases |options|
  {
    if |options| == 0 then Pass
    else if !IsKnownOption(options[0].0) then
      assert FirstUnknownAt(options, 0);
      Fail(UnknownOption(options[0].0))
    else
      var r := CheckOptions(options[1..]);
      if r.Fail? then
        var i :| FirstUnknownAt(options[1..], i) && r.error == UnknownOption(options[1..][i].0);
        assert FirstUnknownAt(options, i + 1);
        r
      else
        r
  }

  /** Index `i` holds the first key that `KNOWN_OPTIONS` does not list. */
  predicate FirstUnknownAt(options: seq<(string, Opt)>, i: int) {
    && 0 <= i < |options|
    && !IsKnownOption(options[i].0)
    && forall j :: 0 <= j < i ==> IsKnownOption(options[j].0)
  }

  /** `SetCookie::assertOptions`: the `foreach` over the option keys. */
  method AssertOptions(options: Options) returns (r: Outcome<Error>)
    ensures r == CheckOptions(options)
  {
    var i := 0;
    while i < |options|
      invariant 0 <= i <= |options|
      invariant forall j :: 0 <= j < i ==> IsKnownOption(options[j].0)
    {
      if !IsKnownOption(options[i].0) {
        assert FirstUnknownAt(options, i);
        FirstUnknownUnique(options, i);
        return Fail(UnknownOption(options[i].0));
      }
      i := i + 1;
    }
    return Pass;
  }

  /** There is only one first unknown key, so the exception is determined. */
  lemma FirstUnknownUnique(options: seq<(string, Opt)>, i: int)
    requires FirstUnknownAt(options, i)
    ensures CheckOptions(options) == Fail(UnknownOption(options[i].0))
  {
    var r := CheckOptions(options);
    var k :| FirstUnknownAt(options, k) && r.error == UnknownOption(options[k].0);
    assert !(k < i) && !(i < k);
  }

  /** A constructed SetCookie: fields are read-only, and `value` already is a string. */
  datatype SetCookie = SetCookie(name: string, value: string, options: Options) {
    /** The `toArray()` view. */
    function ToArray(): CookieArray {
      CookieArray(name, value, options)
    }
  }

  /**
   * `new SetCookie($name, $value, $options)`: all or nothing.  The options
   * are checked first; if a key is unknown no cookie exists, otherwise the
   * value is stored as its string form and the options as given.
   */
  function NewSetCookie(name: string, value: Opt, options: Options): (r: Result<SetCookie, Error>)
    ensures r.Success? <==> AllKnown(options)
    ensures r.Success? ==> r.value.name == name && r.value.value == Stringify(value) && r.value.options == options
    ensures r.Failure? ==> Fail(r.error) == CheckOptions(options)
  {
    match CheckOptions(options)
    case Fail(e) => Failure(e)
    case Pass => Success(SetCookie(name, Stringify(value), options))
  }

  /** `fromArray($data)` (an instance method in PHP that ignores `$this`). */
  function FromArray(data: CookieArray): Result<SetCookie, Error> {
    NewSetCookie(data.name, StrV(data.value), data.options)
  }

  /** Every cookie that construction can produce survives `fromArray(toArray())` unchanged. */
  lemma FromArrayToArray(name: string, value: Opt, options: Options)
    requires NewSetCookie(name, value, options).Success?
    ensures FromArray(NewSetCookie(name, value, options).value.ToArray()) == NewSetCookie(name, value, options)
  {
  }

  /** `toArray(fromArray($data))` is `$data` whenever `fromArray` succeeds, and it fails only on an unknown key. */
  lemma ToArrayFromArray(data: CookieArray)
    ensures FromArray(data).Success? <==> AllKnown(data.options)
    ensures FromArray(data).Success? ==> FromArray(data).value.ToArray() == data
  {
  }

  /** `RE_MALFORMED_PATH`: the characters `, ; space \t \r \n \013 \014`. */
  predicate MalformedPathChar(c: char) {
    c == ',' || c == ';' || c == ' ' || c == '\t' || c == '\r' || c == '\n' || c == 11 as char || c == 12 as char
  }

  predicate HasMalformedPathChar(s: string) {
    exists i :: 0 <= i < |s| && MalformedPathChar(s[i])
  }

  /** One `; ...` segment of a header line. */
  datatype Attribute =
    | Expires(date: string, maxAge: int)
    | Path(path: string)
    | Domain(domain: string)
    | Secure
    | HttpOnly
    | SameSite(sameSite: string)

  /** The fixed place of each segment in a line. */
  function Rank(a: Attribute): nat {
    match a
    case Expires(_, _) => 0
    case Path(_) => 1
    case Domain(_) => 2
    case Secure => 3
    case HttpOnly => 4
    case SameSite(_) => 5
  }

  function Render(a: Attribute): string {
    match a
    case Expires(date, maxAge) => "; expires=" + date + "; Max-Age=" + DecimalString(maxAge)
    case Path(p) => "; path=" + p
    case Domain(d) => "; domain=" + d
    case Secure => "; secure"
    case HttpOnly => "; HttpOnly"
    case SameSite(s) => "; SameSite=" + s
  }

  function RenderAll(attrs: seq<Attribute>): string
    decreases |attrs|
  {
    if |attrs| == 0 then "" else Render(attrs[0]) + RenderAll(attrs[1..])
  }

  /** Rendering is segment by segment. */
  lemma {:induction false} RenderAllConcat(a: seq<Attribute>, b: seq<Attribute>)
    ensures RenderAll(a + b) == RenderAll(a) + RenderAll(b)
    decreases |a|
  {
    if |a| == 0 {
      assert a + b == b;
    } else {
      assert (a + b)[1..] == a[1..] + b;
      RenderAllConcat(a[1..], b);
    }
  }

  /** `max(0, $expires - $now)`: seconds left until expiry, never negative. */
  function MaxAge(expires: int, now: int): (r: int)
    ensures r >= 0
    ensures expires >= now ==> r == expires - now
    ensures expires <= now ==> r == 0
  {
    if expires - now > 0 then expires - now else 0
  }

  /** Segments come in strictly increasing rank: each kind at most once, in a fixed order. */
  predicate Ordered(attrs: seq<Attribute>) {
    forall i, j :: 0 <= i < j < |attrs| ==> Rank(attrs[i]) < Rank(attrs[j])
  }

  /** At most one segment, of rank `k`. */
  predicate Slot(attrs: seq<Attribute>, k: nat) {
    |attrs| <= 1 && forall i :: 0 <= i < |attrs| ==> Rank(attrs[i]) == k
  }

  /**
   * The segments of `$expires = $options['expires'] ?? 0; if ($expires > 0)
   * { assert(is_int($expires)); ... }`: the loose comparison comes first, so
   * a value PHP does not find above 0 adds nothing whatever its type.
   */
  function ExpiresPart(v: Option<Opt>, now: int, fmt: int -> string): (r: Result<seq<Attribute>, Error>)
    ensures r.Success? ==> Slot(r.value, 0)
  {
    match v
    case None => Success([])
    case Some(e) =>
      if !AboveZero(e) then Success([])
      else if e.IntV? then Success([Expires(fmt(e.i), MaxAge(e.i, now))])
      else Failure(AssertionFailed)
  }

  /**
   * A string `expires` that holds `(string)$n` fails the `is_int` assertion
   * exactly when `$n > 0`; otherwise it adds no segment and nothing fails.
   */
  lemma StringExpires(n: int, now: int, fmt: int -> string)
    ensures ExpiresPart(Some(StrV(DecimalString(n))), now, fmt) ==
      if n > 0 then Failure(AssertionFailed) else Success([])
  {
    DecimalAboveZero(n);
  }

  /** The segments of `$path = $options['path'] ?? ''; if ($path !== '') ...`. */
  function PathPart(v: Option<Opt>): (r: Result<seq<Attribute>, Error>)
    ensures r.Success? ==> Slot(r.value, 1)
  {
    match v
    case None => Success([])
    case Some(StrV(p)) =>
      if p == "" then Success([])
      else if HasMalformedPathChar(p) then Failure(MalformedPath)
      else Success([Path(p)])
    case Some(_) => Failure(AssertionFailed)
  }

  /** The segments of `$domain = $options['domain'] ?? ''; if ($domain !== '') ...`. */
  function DomainPart(v: Option<Opt>): (r: Result<seq<Attribute>, Error>)
    ensures r.Success? ==> Slot(r.value, 2)
  {
    match v
    case None => Success([])
    case Some(StrV(d)) => if d == "" then Success([]) else Success([Domain(UrlEncode(d))])
    case Some(_) => Failure(AssertionFailed)
  }

  /** The segment of a flag such as `$secure = $options['secure'] ?? false; if ($secure) ...`. */
  function FlagPart(v: Option<Opt>, a: Attribute): (r: seq<Attribute>)
    ensures Slot(r, Rank(a))
  {
    if Truthy(v.GetOr(BoolV(false))) then [a] else []
  }

  function SameSitePart(v: Option<Opt>): (r: seq<Attribute>)
    ensures Slot(r, 5)
  {
    var s := v.GetOr(BoolV(false));
    if Truthy(s) then [SameSite(UrlEncode(Stringify(s)))] else []
  }

  /** The segments of the line, in the order `compileHeaderLine` appends them, or the exception it throws. */
  function Attributes(options: Options, now: int, fmt: int -> string): Result<seq<Attribute>, Error> {
    var e :- ExpiresPart(Get(options, "expires"), now, fmt);
    var p :- PathPart(Get(options, "path"));
    var d :- DomainPart(Get(options, "domain"));
    Success(e + p + d + FlagPart(Get(options, "secure"), Secure) + FlagPart(Get(options, "httponly"), HttpOnly)
      + SameSitePart(Get(options, "samesite")))
  }

  /** How `Attributes` puts the six slots together when none of them throws. */
  lemma AttributesOfParts(options: Options, now: int, fmt: int -> string, e: seq<Attribute>, p: seq<Attribute>, d: seq<Attribute>)
    requires ExpiresPart(Get(options, "expires"), now, fmt) == Success(e)
    requires PathPart(Get(options, "path")) == Success(p)
    requires DomainPart(Get(options, "domain")) == Success(d)
    ensures Attributes(options, now, fmt) == Success(e + p + d + FlagPart(Get(options, "secure"), Secure)
      + FlagPart(Get(options, "httponly"), HttpOnly) + SameSitePart(Get(options, "samesite")))
  {
  }

  /** `urlencode($name) . '=' . urlencode($value)`, the start of every line. */
  function BaseLine(c: SetCookie): string {
    UrlEncode(c.name) + "=" + UrlEncode(c.value)
  }

  /**
   * `compileHeaderLine($now)`.  A compiled line is the base followed by the
   * rendered segments, and its text before the first `=` is the encoded name,
   * the key under which a parser of header lines finds it again.
   */
  function CompileHeaderLine(c: SetCookie, now: int, fmt: int -> string): (r: Result<string, Error>)
    ensures r.Success? <==> Attributes(c.options, now, fmt).Success?
    ensures r.Success? ==> r.value == BaseLine(c) + RenderAll(Attributes(c.options, now, fmt).value)
    ensures r.Success? ==> BaseLine(c) <= r.value
    ensures r.Success? ==> ExplodeHead(r.value, '=') == Some(UrlEncode(c.name))
  {
    var attrs :- Attributes(c.options, now, fmt);
    BaseLineHead(c, RenderAll(attrs));
    Success(BaseLine(c) + RenderAll(attrs))
  }

  /** Whatever follows the base of a line, the line is keyed by the encoded name. */
  lemma BaseLineHead(c: SetCookie, tail: string)
    ensures BaseLine(c) <= BaseLine(c) + tail
    ensures ExplodeHead(BaseLine(c) + tail, '=') == Some(UrlEncode(c.name))
  {
    JoinedHead(UrlEncode(c.name), UrlEncode(c.value), tail);
  }

  /** `n=v` followed by anything is keyed by `n` when `n` holds no `=`. */
  lemma JoinedHead(n: string, v: string, tail: string)
    requires '=' !in n
    ensures n + "=" + v <= n + "=" + v + tail
    ensures ExplodeHead(n + "=" + v + tail, '=') == Some(n)
  {
    assert n + "=" + v + tail == n + ['='] + (v + tail);
    ExplodeHeadOfJoin(n, '=', v + tail);
  }

  /** The predicates below say which options make `compileHeaderLine` fail. */
  predicate ExpiresIllTyped(options: Options) {
    var v := Get(options, "expires");
    v.Some? && AboveZero(v.value) && !v.value.IntV?
  }

  predicate PathIllTyped(options: Options) {
    var v := Get(options, "path");
    v.Some? && !v.value.StrV?
  }

  predicate PathMalformed(options: Options) {
    var v := Get(options, "path");
    v.Some? && v.value.StrV? && HasMalformedPathChar(v.value.s)
  }

  predicate DomainIllTyped(options: Options) {
    var v := Get(options, "domain");
    v.Some? && !v.value.StrV?
  }

  /**
   * `compileHeaderLine` throws exactly when `expires` is not an integer but
   * PHP finds it above 0 (`true`, a positive numeric string, or a
   * non-numeric string that sorts after `"0"`), or `path` or `domain` is set to a non-string, or the path holds a
   * forbidden character; the forbidden-path exception is raised unless the
   * `expires` assertion failed first, and an unknown-option error never arises.
   */
  lemma CompileFailures(c: SetCookie, now: int, fmt: int -> string)
    ensures CompileHeaderLine(c, now, fmt).Failure? <==>
      ExpiresIllTyped(c.options) || PathIllTyped(c.options) || PathMalformed(c.options) || DomainIllTyped(c.options)
    ensures CompileHeaderLine(c, now, fmt) == Failure(MalformedPath) <==>
      !ExpiresIllTyped(c.options) && PathMalformed(c.options)
    ensures CompileHeaderLine(c, now, fmt).Failure? ==>
      CompileHeaderLine(c, now, fmt).error == MalformedPath || CompileHeaderLine(c, now, fmt).error == AssertionFailed
  {
  }

  lemma OrderedConcat(a: seq<Attribute>, b: seq<Attribute>)
    requires Ordered(a) && Ordered(b)
    requires forall i, j :: 0 <= i < |a| && 0 <= j < |b| ==> Rank(a[i]) < Rank(b[j])
    ensures Ordered(a + b)
  {
    var c := a + b;
    forall i, j | 0 <= i < j < |c| ensures Rank(c[i]) < Rank(c[j]) {
      if j < |a| {
        assert c[i] == a[i] && c[j] == a[j];
      } else if i >= |a| {
        assert c[i] == b[i - |a|] && c[j] == b[j - |a|];
      } else {
        assert c[i] == a[i] && c[j] == b[j - |a|];
      }
    }
  }

  /** Every segment ranks below `k`. */
  predicate Below(attrs: seq<Attribute>, k: nat) {
    forall i :: 0 <= i < |attrs| ==> Rank(attrs[i]) < k
  }

  /** Appending a slot of higher rank than everything so far keeps the order. */
  lemma OrderedSnoc(a: seq<Attribute>, b: seq<Attribute>, k: nat)
    requires Ordered(a) && Below(a, k)
    requires Slot(b, k)
    ensures Ordered(a + b) && Below(a + b, k + 1)
  {
    OrderedConcat(a, b);
    var c := a + b;
    forall i | 0 <= i < |c| ensures Rank(c[i]) < k + 1 {
      if i < |a| {
        assert c[i] == a[i];
      } else {
        assert c[i] == b[i - |a|];
      }
    }
  }

  /** The segments of a line come in the order expires, path, domain, secure, HttpOnly, SameSite, each at most once. */
  lemma SegmentsOrdered(options: Options, now: int, fmt: int -> string)
    requires Attributes(options, now, fmt).Success?
    ensures Ordered(Attributes(options, now, fmt).value)
  {
    var e := ExpiresPart(Get(options, "expires"), now, fmt).value;
    var p := PathPart(Get(options, "path")).value;
    var d := DomainPart(Get(options, "domain")).value;
    var s := FlagPart(Get(options, "secure"), Secure);
    var h := FlagPart(Get(options, "httponly"), HttpOnly);
    var ss := SameSitePart(Get(options, "samesite"));
    assert Attributes(options, now, fmt).value == e + p + d + s + h + ss;
    SlotsOrdered(e, p, d, s, h, ss);
  }

  lemma SlotsOrdered(e: seq<Attribute>, p: seq<Attribute>, d: seq<Attribute>,
                     s: seq<Attribute>, h: seq<Attribute>, ss: seq<Attribute>)
    requires Slot(e, 0) && Slot(p, 1) && Slot(d, 2) && Slot(s, 3) && Slot(h, 4) && Slot(ss, 5)
    ensures Ordered(e + p + d + s + h + ss)
  {
    var x0: seq<Attribute> := [];
    OrderedSnoc(x0, e, 0);
    var x1 := x0 + e;
    OrderedSnoc(x1, p, 1);
    var x2 := x1 + p;
    OrderedSnoc(x2, d, 2);
    var x3 := x2 + d;
    OrderedSnoc(x3, s, 3);
    var x4 := x3 + s;
    OrderedSnoc(x4, h, 4);
    var x5 := x4 + h;
    OrderedSnoc(x5, ss, 5);
    assert x5 + ss == e + p + d + s + h + ss;
  }

  /** List membership in six slots of ranks 0 to 5. */
  lemma InSlots(a: Attribute, e: seq<Attribute>, p: seq<Attribute>, d: seq<Attribute>,
                s: seq<Attribute>, h: seq<Attribute>, ss: seq<Attribute>)
    requires Slot(e, 0) && Slot(p, 1) && Slot(d, 2) && Slot(s, 3) && Slot(h, 4) && Slot(ss, 5)
    ensures a in e + p + d + s + h + ss <==>
      match Rank(a)
      case 0 => a in e
      case 1 => a in p
      case 2 => a in d
      case 3 => a in s
      case 4 => a in h
      case _ => a in ss
  {
  }

  /** The int, string or boolean the option `key` holds switches its segment on. */
  predicate ExpiryWanted(options: Options) {
    var v := Get(options, "expires");
    v.Some? && v.value.IntV? && v.value.i > 0
  }

  predicate Wanted(options: Options, key: string) {
    Truthy(Get(options, key).GetOr(BoolV(false)))
  }

  /**
   * A line has an expiry segment exactly when `expires` is a positive integer;
   * it then carries the formatted date and a Max-Age that is never negative.
   */
  lemma ExpirySegment(options: Options, now: int, fmt: int -> string)
    requires Attributes(options, now, fmt).Success?
    ensures var attrs := Attributes(options, now, fmt).value;
      && ((exists a :: a in attrs && a.Expires?) <==> ExpiryWanted(options))
      && (ExpiryWanted(options) ==>
            var e := Get(options, "expires").value.i;
            Expires(fmt(e), MaxAge(e, now)) in attrs && MaxAge(e, now) >= 0)
  {
    ShowSlots(options, now, fmt);
    if ExpiryWanted(options) {
      var e := Get(options, "expires").value.i;
      assert Rank(Expires(fmt(e), MaxAge(e, now))) == 0;
    }
  }

  /** A line has a path segment exactly when `path` is a non-empty string, which then appears verbatim and is free of forbidden characters. */
  lemma PathSegment(options: Options, now: int, fmt: int -> string)
    requires Attributes(options, now, fmt).Success?
    ensures var attrs := Attributes(options, now, fmt).value;
      && (forall q :: Path(q) in attrs <==> Get(options, "path") == Some(StrV(q)) && q != "")
      && (forall q :: Path(q) in attrs ==> !HasMalformedPathChar(q))
  {
    ShowSlots(options, now, fmt);
  }

  /** A line has a domain segment exactly when `domain` is a non-empty string; it is written url-encoded. */
  lemma DomainSegment(options: Options, now: int, fmt: int -> string)
    requires Attributes(options, now, fmt).Success?
    ensures var attrs := Attributes(options, now, fmt).value;
      && ((exists a :: a in attrs && a.Domain?) <==> Get(options, "domain").Some? && Get(options, "domain") != Some(StrV("")))
      && (forall q :: Get(options, "domain") == Some(StrV(q)) && q != "" ==> Domain(UrlEncode(q)) in attrs)
  {
    var attrs := Attributes(options, now, fmt).value;
    var v := Get(options, "domain");
    var d := DomainPart(v).value;
    ShowSlots(options, now, fmt);
    forall a | a in attrs && a.Domain? ensures v.Some? && v != Some(StrV("")) {
      assert Rank(a) == 2 && a in d;
    }
    if v.Some? && v != Some(StrV("")) {
      assert d == [Domain(UrlEncode(v.value.s))];
      assert Rank(d[0]) == 2 && d[0] in attrs;
    }
  }

  /** `secure` and `httponly` each add their segment exactly when truthy. */
  lemma FlagSegments(options: Options, now: int, fmt: int -> string)
    requires Attributes(options, now, fmt).Success?
    ensures var attrs := Attributes(options, now, fmt).value;
      && (Secure in attrs <==> Wanted(options, "secure"))
      && (HttpOnly in attrs <==> Wanted(options, "httponly"))
  {
    ShowSlots(options, now, fmt);
    assert Rank(Secure) == 3 && Rank(HttpOnly) == 4;
  }

  /** `samesite` adds its segment exactly when truthy, carrying the url-encoded value. */
  lemma SameSiteSegment(options: Options, now: int, fmt: int -> string)
    requires Attributes(options, now, fmt).Success?
    ensures var attrs := Attributes(options, now, fmt).value;
      && ((exists a :: a in attrs && a.SameSite?) <==> Wanted(options, "samesite"))
      && (Wanted(options, "samesite") ==>
            SameSite(UrlEncode(Stringify(Get(options, "samesite").value))) in attrs)
  {
    var attrs := Attributes(options, now, fmt).value;
    var ss := SameSitePart(Get(options, "samesite"));
    ShowSlots(options, now, fmt);
    forall a | a in attrs && a.SameSite? ensures Wanted(options, "samesite") {
      assert Rank(a) == 5 && a in ss;
    }
    if Wanted(options, "samesite") {
      assert Rank(ss[0]) == 5 && ss[0] in attrs;
    }
  }

  /** The segments of a successful line are the six slots, in order. */
  lemma ShowSlots(options: Options, now: int, fmt: int -> string)
    requires Attributes(options, now, fmt).Success?
    ensures var attrs := Attributes(options, now, fmt).value;
      forall a :: a in attrs <==>
        match Rank(a)
        case 0 => a in ExpiresPart(Get(options, "expires"), now, fmt).value
        case 1 => a in PathPart(Get(options, "path")).value
        case 2 => a in DomainPart(Get(options, "domain")).value
        case 3 => a in FlagPart(Get(options, "secure"), Secure)
        case 4 => a in FlagPart(Get(options, "httponly"), HttpOnly)
        case _ => a in SameSitePart(Get(options, "samesite"))
  {
    var e := ExpiresPart(Get(options, "expires"), now, fmt).value;
    var p := PathPart(Get(options, "path")).value;
    var d := DomainPart(Get(options, "domain")).value;
    var s := FlagPart(Get(options, "secure"), Secure);
    var h := FlagPart(Get(options, "httponly"), HttpOnly);
    var ss := SameSitePart(Get(options, "samesite"));
    forall a {
      InSlots(a, e, p, d, s, h, ss);
    }
  }

  /**
   * Only the values stored under the six known keys matter, not the order of
   * the options array: two cookies with the same name, value and option
   * values compile to the same line, or fail the same way.
   */
  lemma CompileIgnoresOptionOrder(c1: SetCookie, c2: SetCookie, now: int, fmt: int -> string)
    requires c1.name == c2.name && c1.value == c2.value
    requires forall i :: 0 <= i < |KnownOptionNames| ==> Get(c1.options, KnownOptionNames[i]) == Get(c2.options, KnownOptionNames[i])
    ensures CompileHeaderLine(c1, now, fmt) == CompileHeaderLine(c2, now, fmt)
  {
    assert Get(c1.options, KnownOptionNames[0]) == Get(c2.options, KnownOptionNames[0]);
    assert Get(c1.options, KnownOptionNames[1]) == Get(c2.options, KnownOptionNames[1]);
    assert Get(c1.options, KnownOptionNames[2]) == Get(c2.options, KnownOptionNames[2]);
    assert Get(c1.options, KnownOptionNames[3]) == Get(c2.options, KnownOptionNames[3]);
    assert Get(c1.options, KnownOptionNames[4]) == Get(c2.options, KnownOptionNames[4]);
    assert Get(c1.options, KnownOptionNames[5]) == Get(c2.options, KnownOptionNames[5]);
    assert Attributes(c1.options, now, fmt) == Attributes(c2.options, now, fmt);
  }

  /** A cookie without options compiles to `urlencode(name)=urlencode(value)` and nothing else. */
  lemma CompileWithoutOptions(c: SetCookie, now: int, fmt: int -> string)
    requires c.options == []
    ensures CompileHeaderLine(c, now, fmt) == Success(BaseLine(c))
  {
    assert Keys(c.options) == [];
    assert Get(c.options, "expires") == None && Get(c.options, "path") == None && Get(c.options, "domain") == None;
    assert Get(c.options, "secure") == None && Get(c.options, "httponly") == None && Get(c.options, "samesite") == None;
    assert ExpiresPart(None, now, fmt) == Success([]) && PathPart(None) == Success([]) && DomainPart(None) == Success([]);
    assert FlagPart(None, Secure) == [] && FlagPart(None, HttpOnly) == [] && SameSitePart(None) == [];
    var none: seq<Attribute> := [];
    assert none + none + none + none + none + none == [];
    assert Attributes(c.options, now, fmt) == Success([]);
    assert RenderAll([]) == "" && BaseLine(c) + "" == BaseLine(c);
  }
}
