/**
 * The emitter for PHP before 7.3, whose `setcookie` takes seven positional
 * arguments and knows no SameSite attribute.  `emitCookie` fills in the
 * arguments from an options array and smuggles `SameSite=...` into the path
 * argument, so that the header PHP writes, `...; path=/; SameSite=Lax`,
 * still carries it.  The call of `setcookie` itself is the argument tuple
 * returned here; what `setcookie` answers is a parameter of the callers.
 */
module LegacyEmitter {
  import opened Wrappers
  import opened OrderedMaps
  import opened PhpValues
  import opened UrlEncoding
  import opened SetCookies

  /** `PHP_VERSION_ID` of PHP 7.3.0, the first `setcookie` accepting an options array. */
  const Php73VersionId: int := 70300

  /** The seven arguments of `setcookie($name, $value, $expires, $path, $domain, $secure, $httponly)`. */
  datatype LegacyCall = LegacyCall(
    name: string,
    value: string,
    expires: Opt,
    path: Opt,
    domain: Opt,
    secure: Opt,
    httponly: Opt)

  /** The text appended to the path to carry the SameSite value. */
  function SameSiteSuffix(samesite: Opt): string {
    "; SameSite=" + UrlEncode(Stringify(samesite))
  }

  /**
   * The path argument: `$options['path'] ?? ''`, followed, when `samesite`
   * is set, by the SameSite suffix, with `/` standing in for an empty path.
   * The `''` test is PHP's strict `===`, so only the empty string counts as empty.
   */
  function PathArgument(options: Options): Opt {
    var path := Get(options, "path").GetOr(StrV(""));
    match Get(options, "samesite")
    case None => path
    case Some(samesite) =>
      if path == StrV("") then StrV("/" + SameSiteSuffix(samesite))
      else StrV(Stringify(path) + SameSiteSuffix(samesite))
  }

  /**
   * `emitCookie($name, $value, $options)`: the `setcookie` call it makes,
   * after `assert(PHP_VERSION_ID < 70300)`.  A missing option takes
   * `setcookie`'s own default.
   */
  function EmitCookie(version: int, name: string, value: string, options: Options): (r: Result<LegacyCall, Error>)
    ensures r.Failure? <==> version >= Php73VersionId
    ensures r.Failure? ==> r.error == AssertionFailed
    ensures r.Success? ==> r.value.name == name && r.value.value == value
    ensures r.Success? ==> r.value.expires == Get(options, "expires").GetOr(IntV(0))
    ensures r.Success? ==> r.value.domain == Get(options, "domain").GetOr(StrV(""))
    ensures r.Success? ==> r.value.secure == Get(options, "secure").GetOr(BoolV(false))
    ensures r.Success? ==> r.value.httponly == Get(options, "httponly").GetOr(BoolV(false))
  {
    if version >= Php73VersionId then Failure(AssertionFailed)
    else Success(LegacyCall(
      name,
      value,
      Get(options, "expires").GetOr(IntV(0)),
      PathArgument(options),
      Get(options, "domain").GetOr(StrV("")),
      Get(options, "secure").GetOr(BoolV(false)),
      Get(options, "httponly").GetOr(BoolV(false))))
  }

  /** Without `samesite` the path argument is the `path` option, or `''` when there is none. */
  lemma PathWithoutSameSite(version: int, name: string, value: string, options: Options)
    requires version < Php73VersionId
    requires "samesite" !in Keys(options)
    ensures EmitCookie(version, name, value, options).Success?
    ensures EmitCookie(version, name, value, options).value.path == Get(options, "path").GetOr(StrV(""))
  {
    assert Get(options, "samesite") == None;
  }

  /** With `samesite` and an empty or missing path, the path argument is `/; SameSite=<urlencoded samesite>`. */
  lemma PathSameSiteAtRoot(version: int, name: string, value: string, options: Options, samesite: Opt)
    requires version < Php73VersionId
    requires Get(options, "samesite") == Some(samesite)
    requires "path" !in Keys(options) || Get(options, "path") == Some(StrV(""))
    ensures EmitCookie(version, name, value, options).Success?
    ensures EmitCookie(version, name, value, options).value.path == StrV("/; SameSite=" + UrlEncode(Stringify(samesite)))
  {
    assert "/" + SameSiteSuffix(samesite) == "/; SameSite=" + UrlEncode(Stringify(samesite));
  }

  /** With `samesite` and a non-empty path, the suffix is appended to the path's string form. */
  lemma PathSameSiteAppended(version: int, name: string, value: string, options: Options, path: Opt, samesite: Opt)
    requires version < Php73VersionId
    requires Get(options, "samesite") == Some(samesite)
    requires Get(options, "path") == Some(path) && path != StrV("")
    ensures EmitCookie(version, name, value, options).Success?
    ensures EmitCookie(version, name, value, options).value.path == StrV(Stringify(path) + "; SameSite=" + UrlEncode(Stringify(samesite)))
  {
    assert Stringify(path) + SameSiteSuffix(samesite) == Stringify(path) + "; SameSite=" + UrlEncode(Stringify(samesite));
  }

  /** On PHP 7.3 and later the emitter refuses with an `AssertionError`, whatever the cookie. */
  lemma RefusedFromPhp73(version: int, name: string, value: string, options: Options)
    requires version >= Php73VersionId
    ensures EmitCookie(version, name, value, options) == Failure(AssertionFailed)
  {
  }

  /** An empty options array gives `setcookie`'s defaults: expiry 0, empty path and domain, no flags. */
  lemma EmptyOptionsDefaults(version: int, name: string, value: string)
    requires version < Php73VersionId
    ensures EmitCookie(version, name, value, []) ==
      Success(LegacyCall(name, value, IntV(0), StrV(""), StrV(""), BoolV(false), BoolV(false)))
  {
  }

  /** What the path argument starts with when `samesite` is set: the path, or `/` for an empty one. */
  function PathHead(options: Options): string {
    var path := Get(options, "path").GetOr(StrV(""));
    if path == StrV("") then "/" else Stringify(path)
  }

  /**
   * The path argument still yields the cookie's path: when that contains no
   * `;`, the text before the first `;` is the path (or `/`), and the rest is
   * ` SameSite=` followed by text that `urldecode` turns back into the
   * SameSite value.
   */
  lemma PathArgumentSplits(options: Options, samesite: Opt)
    requires Get(options, "samesite") == Some(samesite)
    requires ';' !in Stringify(Get(options, "path").GetOr(StrV("")))
    ensures Stringify(PathArgument(options)) == PathHead(options) + SameSiteSuffix(samesite)
    ensures ExplodeHead(Stringify(PathArgument(options)), ';') == Some(PathHead(options))
    ensures UrlDecode(Stringify(PathArgument(options))[|PathHead(options)| + 11..]) == Utf8String(Stringify(samesite))
  {
    var head := PathHead(options);
    PathArgumentText(options, samesite, head);
    SuffixSplits(head, samesite);
  }

  /** With `samesite` set, the path argument is the path (or `/`) followed by the suffix. */
  lemma PathArgumentText(options: Options, samesite: Opt, head: string)
    requires Get(options, "samesite") == Some(samesite)
    requires ';' !in Stringify(Get(options, "path").GetOr(StrV("")))
    requires head == PathHead(options)
    ensures Stringify(PathArgument(options)) == head + SameSiteSuffix(samesite)
    ensures ';' !in head
  {
    assert "/" == ['/'];
  }

  /** A head without `;` followed by the suffix: the head, then the encoded value from offset `|head| + 11`. */
  lemma SuffixSplits(head: string, samesite: Opt)
    requires ';' !in head
    ensures ExplodeHead(head + SameSiteSuffix(samesite), ';') == Some(head)
    ensures UrlDecode((head + SameSiteSuffix(samesite))[|head| + 11..]) == Utf8String(Stringify(samesite))
  {
    SuffixShape(samesite);
    SplitAtSemicolon(head, SameSiteSuffix(samesite), UrlEncode(Stringify(samesite)));
    UrlEncodeRoundTrip(Stringify(samesite));
  }

  /** A `;`-free head, then text opening with `;` whose part from offset 11 is `rest`. */
  lemma SplitAtSemicolon(head: string, t: string, rest: string)
    requires ';' !in head && |t| >= 11 && t[0] == ';' && t[11..] == rest
    ensures ExplodeHead(head + t, ';') == Some(head)
    ensures (head + t)[|head| + 11..] == rest
  {
    assert head + t == head + [';'] + t[1..];
    ExplodeHeadOfJoin(head, ';', t[1..]);
  }

  /** The suffix opens with `;`, and its eleven-character tag is followed by the encoded value. */
  lemma SuffixShape(samesite: Opt)
    ensures |SameSiteSuffix(samesite)| >= 11 && SameSiteSuffix(samesite)[0] == ';'
    ensures SameSiteSuffix(samesite)[11..] == UrlEncode(Stringify(samesite))
  {
    var tag := "; SameSite=";
    assert |tag| == 11 && tag[0] == ';';
    assert SameSiteSuffix(samesite) == tag + UrlEncode(Stringify(samesite));
  }

  /**
   * The suffix is exactly the SameSite segment `compileHeaderLine` renders
   * for the same value, so both emitters of a truthy SameSite value produce
   * the same attribute text.
   */
  lemma SuffixIsLineSegment(samesite: Opt)
    requires Truthy(samesite)
    ensures SameSitePart(Some(samesite)) == [SameSite(UrlEncode(Stringify(samesite)))]
    ensures SameSiteSuffix(samesite) == RenderAll(SameSitePart(Some(samesite)))
  {
    assert RenderAll([SameSite(UrlEncode(Stringify(samesite)))]) == Render(SameSite(UrlEncode(Stringify(samesite))));
  }

  /**
   * The emitter tests `isset`, `compileHeaderLine` tests truthiness: a set but
   * falsy SameSite value (`''`, `'0'`, `false`, `0`) still reaches the legacy
   * path argument, while the header line leaves the attribute out.
   */
  lemma FalsySameSiteStillSent(options: Options, samesite: Opt)
    requires Get(options, "samesite") == Some(samesite) && !Truthy(samesite)
    ensures SameSitePart(Get(options, "samesite")) == []
    ensures PathArgument(options).StrV?
    ensures var text := PathArgument(options).s;
      |text| >= 11 && text[|text| - |SameSiteSuffix(samesite)|..] == SameSiteSuffix(samesite)
  {
  }
}
