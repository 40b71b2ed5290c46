/**
 * The library's plain functions: `oven()` (which is `new Oven`, modelled by
 * `Ovens.Oven.New`), `create_emitter()`, `emit()` and the `setcookie()`
 * replacement with PHP's positional signature.  `PHP_VERSION_ID` is the
 * parameter `version`; whether PHP's `setcookie` succeeds is the parameter
 * `setcookie`, applied to the argument tuple of each call.
 */
module CookieFunctions {
  import opened Wrappers
  import opened OrderedMaps
  import opened PhpValues
  import opened SetCookies
  import opened Ovens
  import opened LegacyEmitter
  import ModernEmitter

  /** The two emitter classes. */
  datatype EmitterKind = PhpLegacyFunction | Php73Function

  /** `create_emitter()`: the legacy emitter before PHP 7.3, the array-taking one from 7.3 on. */
  function CreateEmitter(version: int): EmitterKind {
    if version < Php73VersionId then PhpLegacyFunction else Php73Function
  }

  /** A call of PHP's `setcookie`, in the signature of either emitter. */
  datatype PrimitiveCall =
    | LegacyArgs(legacy: LegacyCall)
    | ArrayArgs(modern: ModernEmitter.ModernCall)

  /** `$emitter->emitCookie($name, $value, $options)` for an emitter of the given kind. */
  function EmitterCall(kind: EmitterKind, version: int, name: string, value: string, options: Options): Result<PrimitiveCall, Error> {
    match kind
    case PhpLegacyFunction =>
      var call :- LegacyEmitter.EmitCookie(version, name, value, options);
      Success(LegacyArgs(call))
    case Php73Function =>
      var call :- ModernEmitter.EmitCookie(version, name, value, options);
      Success(ArrayArgs(call))
  }

  /**
   * The emitter `create_emitter` picks never fails its own version assertion,
   * and the other one always does.
   */
  lemma CreatedEmitterAccepts(version: int, name: string, value: string, options: Options)
    ensures CreateEmitter(version) == PhpLegacyFunction <==> version < Php73VersionId
    ensures EmitterCall(CreateEmitter(version), version, name, value, options).Success?
    ensures var other := if CreateEmitter(version) == PhpLegacyFunction then Php73Function else PhpLegacyFunction;
      EmitterCall(other, version, name, value, options) == Failure(AssertionFailed)
  {
  }

  /** PHP 7.1 and 7.2 get the legacy emitter, PHP 7.3 and 7.4 the array-taking one. */
  lemma CreateEmitterVersions()
    ensures CreateEmitter(70100) == PhpLegacyFunction && CreateEmitter(70200) == PhpLegacyFunction
    ensures CreateEmitter(70300) == Php73Function && CreateEmitter(70400) == Php73Function
  {
  }

  /**
   * The primitive call made for one cookie by the emitter `create_emitter`
   * picks for the given version; that emitter's version assertion holds.
   */
  function CallFor(version: int, c: SetCookie): (call: PrimitiveCall)
    ensures version < Php73VersionId ==> call == LegacyArgs(LegacyEmitter.EmitCookie(version, c.name, c.value, c.options).value)
    ensures version >= Php73VersionId ==> call == ArrayArgs(ModernEmitter.ModernCall(c.name, c.value, c.options))
  {
    CreatedEmitterAccepts(version, c.name, c.value, c.options);
    EmitterCall(CreateEmitter(version), version, c.name, c.value, c.options).value
  }

  /**
   * `emit($cookie_oven)`: `$success = $success && $emitter->emitCookie(...)`
   * for each cookie in jar order, with the emitter `create_emitter` picks
   * (`CallFor`).  Because `&&` short-circuits, the cookies after the first
   * refused one are not emitted at all; `calls` are the calls made, in order.
   */
  method Emit(oven: Oven, version: int, setcookie: PrimitiveCall -> bool) returns (success: bool, calls: seq<PrimitiveCall>)
    ensures |calls| <= |oven.bag|
    ensures forall i :: 0 <= i < |calls| ==> calls[i] == CallFor(version, oven.bag[i].1)
    ensures forall i :: 0 <= i < |calls| - 1 ==> setcookie(calls[i])
    ensures success <==> forall i :: 0 <= i < |oven.bag| ==> setcookie(CallFor(version, oven.bag[i].1))
    ensures success ==> |calls| == |oven.bag|
    ensures !success ==> 0 < |calls| && !setcookie(calls[|calls| - 1])
  {
    var cookies := oven.Entries();
    var callFor := c => CallFor(version, c);
    success, calls := EmitEach(cookies, callFor, setcookie);
    forall i | 0 <= i < |cookies| ensures callFor(cookies[i].1) == CallFor(version, oven.bag[i].1) {
    }
  }

  /** The `foreach` of `emit` over the jar's entries, making the call `callFor` gives for each cookie. */
  method EmitEach(cookies: seq<(string, SetCookie)>, callFor: SetCookie -> PrimitiveCall, setcookie: PrimitiveCall -> bool) returns (success: bool, calls: seq<PrimitiveCall>)
    ensures |calls| <= |cookies|
    ensures forall i :: 0 <= i < |calls| ==> calls[i] == callFor(cookies[i].1)
    ensures forall i :: 0 <= i < |calls| - 1 ==> setcookie(calls[i])
    ensures success <==> forall i :: 0 <= i < |cookies| ==> setcookie(callFor(cookies[i].1))
    ensures success ==> |calls| == |cookies|
    ensures !success ==> 0 < |calls| && !setcookie(calls[|calls| - 1])
  {
    success := true;
    calls := [];
    var i := 0;
    while i < |cookies|
      invariant 0 <= i <= |cookies| && |calls| <= i
      invariant forall j :: 0 <= j < |calls| ==> calls[j] == callFor(cookies[j].1)
      invariant forall j :: 0 <= j < |calls| - 1 ==> setcookie(calls[j])
      invariant success <==> forall j :: 0 <= j < i ==> setcookie(callFor(cookies[j].1))
      invariant success ==> |calls| == i
      invariant !success ==> 0 < |calls| && !setcookie(calls[|calls| - 1])
    {
      var cookie := cookies[i].1;
      if success {
        var call := callFor(cookie);
        calls := calls + [call];
        success := setcookie(call);
      }
      i := i + 1;
    }
  }


  /**
   * The options array of `setcookie()`: all six keys in the order expires,
   * path, domain, secure, httponly, samesite, after `unset` has removed the
   * path, domain and samesite that are null.
   */
  function SetcookieOptions(expires: int, path: Option<string>, domain: Option<string>, secure: bool, httponly: bool, samesite: Option<string>): (r: Options)
    ensures AllKnown(r)
  {
    var p := if path.Some? then [("path", StrV(path.value))] else [];
    var d := if domain.Some? then [("domain", StrV(domain.value))] else [];
    var s := if samesite.Some? then [("samesite", StrV(samesite.value))] else [];
    var r := [("expires", IntV(expires))] + p + d + [("secure", BoolV(secure)), ("httponly", BoolV(httponly))] + s;
    SlotsDistinct(expires, secure, httponly, p, d, s);
    r
  }

  /** Each option sits in its own slot, so the keys of the array differ and are all known. */
  lemma SlotsDistinct(expires: int, secure: bool, httponly: bool, p: seq<(string, Opt)>, d: seq<(string, Opt)>, s: seq<(string, Opt)>)
    requires |p| <= 1 && |d| <= 1 && |s| <= 1
    requires forall i :: 0 <= i < |p| ==> p[i].0 == "path"
    requires forall i :: 0 <= i < |d| ==> d[i].0 == "domain"
    requires forall i :: 0 <= i < |s| ==> s[i].0 == "samesite"
    ensures var r := [("expires", IntV(expires))] + p + d + [("secure", BoolV(secure)), ("httponly", BoolV(httponly))] + s;
      DistinctKeys(r) && AllKnown(r)
  {
    KnownNamesDistinct();
    var r := [("expires", IntV(expires))] + p + d + [("secure", BoolV(secure)), ("httponly", BoolV(httponly))] + s;
    var n := 1 + |p| + |d|;
    forall i | 0 <= i < |r| ensures r[i].0 == KnownOptionNames[SlotRank(r, i, |p|, |d|)] {
      if i == 0 {
      } else if 1 <= i < 1 + |p| {
        assert r[i] == p[i - 1];
      } else if 1 + |p| <= i < n {
        assert r[i] == d[i - 1 - |p|];
      } else if n + 2 <= i {
        assert r[i] == s[i - n - 2];
      }
    }
  }

  /** The index in `KnownOptionNames` of the key in slot `i`. */
  function SlotRank(r: seq<(string, Opt)>, i: nat, np: nat, nd: nat): (k: nat)
    ensures k < 6
  {
    if i == 0 then 0
    else if i < 1 + np then 1
    else if i < 1 + np + nd then 2
    else if i == 1 + np + nd then 3
    else if i == 2 + np + nd then 4
    else 5
  }

  /** `expires`, `secure` and `httponly` are always present, with their value. */
  lemma SetcookieOptionsReads(expires: int, path: Option<string>, domain: Option<string>, secure: bool, httponly: bool, samesite: Option<string>)
    ensures var r := SetcookieOptions(expires, path, domain, secure, httponly, samesite);
      && Get(r, "expires") == Some(IntV(expires))
      && Get(r, "secure") == Some(BoolV(secure))
      && Get(r, "httponly") == Some(BoolV(httponly))
  {
    var r := SetcookieOptions(expires, path, domain, secure, httponly, samesite);
    var n := 1 + (if path.Some? then 1 else 0) + (if domain.Some? then 1 else 0);
    assert r[0] == ("expires", IntV(expires));
    assert r[n] == ("secure", BoolV(secure));
    assert r[n + 1] == ("httponly", BoolV(httponly));
    ReadAt(r, 0, "expires", true);
    ReadAt(r, n, "secure", true);
    ReadAt(r, n + 1, "httponly", true);
  }

  /** `path`, `domain` and `samesite` are present exactly when they are not null, with their value. */
  lemma SetcookieOptionsNullable(expires: int, path: Option<string>, domain: Option<string>, secure: bool, httponly: bool, samesite: Option<string>)
    ensures var r := SetcookieOptions(expires, path, domain, secure, httponly, samesite);
      && Get(r, "path") == (if path.Some? then Some(StrV(path.value)) else None)
      && Get(r, "domain") == (if domain.Some? then Some(StrV(domain.value)) else None)
      && Get(r, "samesite") == (if samesite.Some? then Some(StrV(samesite.value)) else None)
  {
    KnownNamesDistinct();
    var r := SetcookieOptions(expires, path, domain, secure, httponly, samesite);
    var p := if path.Some? then 1 else 0;
    var n := 1 + p + (if domain.Some? then 1 else 0);
    assert |r| == n + 2 + (if samesite.Some? then 1 else 0);
    assert path.Some? ==> r[1] == ("path", StrV(path.value));
    assert domain.Some? ==> r[1 + p] == ("domain", StrV(domain.value));
    assert samesite.Some? ==> r[n + 2] == ("samesite", StrV(samesite.value));
    ReadAt(r, 1, "path", path.Some?);
    ReadAt(r, 1 + p, "domain", domain.Some?);
    ReadAt(r, n + 2, "samesite", samesite.Some?);
  }

  /** `setcookie('Name')` with every other argument left at its default: expiry 0 and both flags off. */
  lemma SetcookieDefaults()
    ensures SetcookieOptions(0, None, None, false, false, None) ==
      [("expires", IntV(0)), ("secure", BoolV(false)), ("httponly", BoolV(false))]
  {
  }

  /** Adding to an empty default set takes the per-call options as they are. */
  lemma UnionNoDefaults(options: Options)
    ensures Union(options, []) == options
  {
    var empty: Options := [];
    assert Missing(empty, Keys(options)) == [];
  }

  /**
   * `setcookie($name, $value, ...)`: `emit(oven()->add($name, $value, $options))`,
   * so exactly one primitive call is made, for the one cookie with those
   * options, and its answer is the result.
   */
  method Setcookie(version: int, setcookie: PrimitiveCall -> bool,
                   name: string, value: string, expires: int, path: Option<string>, domain: Option<string>,
                   secure: bool, httponly: bool, samesite: Option<string>)
    returns (success: bool, calls: seq<PrimitiveCall>)
    ensures var options := SetcookieOptions(expires, path, domain, secure, httponly, samesite);
      calls == [CallFor(version, SetCookie(name, value, options))]
    ensures success == setcookie(calls[0])
  {
    var options := SetcookieOptions(expires, path, domain, secure, httponly, samesite);
    var empty: Options := [];
    var made := Oven.New(empty);
    var oven := made.value;
    UnionNoDefaults(options);
    var added := oven.Add(name, StrV(value), options);
    assert oven.bag == [(name, SetCookie(name, value, options))];
    success, calls := Emit(oven, version, setcookie);
  }
}
