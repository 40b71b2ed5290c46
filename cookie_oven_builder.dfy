/**
 * The immutable builder of an oven's default options.  It starts from the
 * recommended defaults (path `/`, secure, HttpOnly), every `with*` gives a
 * new builder that differs in one field, and `getOptions` lists the fields
 * that are set, in a fixed key order.
 */
module OvenBuilders {
  import opened Wrappers
  import opened OrderedMaps
  import opened PhpValues
  import opened SetCookies
  import opened Ovens

  /** The option keys in the order `getOptions` lists them. */
  const OptionOrder: seq<string> := ["expires", "domain", "path", "secure", "httponly", "samesite"]

  /** The builder's fields; a `None` field is PHP `null`, an unset option. */
  datatype CookieOvenBuilder = CookieOvenBuilder(
    expires: Option<int>,
    domain: Option<string>,
    path: string,
    secure: bool,
    httponly: bool,
    samesite: Option<string>)
  {
    /**
     * `getOptions()`: the six options in key order, with `expires`,
     * `domain` and `samesite` left out when they are null.
     */
    function GetOptions(): (r: Options)
      ensures forall i :: 0 <= i < |r| ==> r[i].0 in OptionOrder
    {
      var e := if expires.Some? then [("expires", IntV(expires.value))] else [];
      var d := if domain.Some? then [("domain", StrV(domain.value))] else [];
      var s := if samesite.Some? then [("samesite", StrV(samesite.value))] else [];
      BuilderSlots(e, d, s, path, secure, httponly);
      e + d + [("path", StrV(path)), ("secure", BoolV(secure)), ("httponly", BoolV(httponly))] + s
    }

    function WithExpires(e: int): CookieOvenBuilder {
      CookieOvenBuilder(Some(e), domain, path, secure, httponly, samesite)
    }

    function WithDomain(d: string): CookieOvenBuilder {
      CookieOvenBuilder(expires, Some(d), path, secure, httponly, samesite)
    }

    function WithSecure(b: bool): CookieOvenBuilder {
      CookieOvenBuilder(expires, domain, path, b, httponly, samesite)
    }

    function WithHttpOnly(b: bool): CookieOvenBuilder {
      CookieOvenBuilder(expires, domain, path, secure, b, samesite)
    }

    /** `withSameSite($samesite)`, where null clears the option. */
    function WithSameSite(s: Option<string>): CookieOvenBuilder {
      CookieOvenBuilder(expires, domain, path, secure, httponly, s)
    }
  }

  /** `new CookieOvenBuilder()`: no expiry, no domain, path `/`, secure, HttpOnly, no SameSite. */
  function DefaultBuilder(): CookieOvenBuilder {
    CookieOvenBuilder(None, None, "/", true, true, None)
  }

  /** `OptionOrder` holds the known option names with `domain` before `path`, so its names differ too. */
  lemma KeyNamesDistinct()
    ensures forall i, j :: 0 <= i < j < |OptionOrder| ==> OptionOrder[i] != OptionOrder[j]
  {
    KnownNamesDistinct();
    var k := KnownOptionNames;
    assert OptionOrder == [k[0], k[2], k[1], k[3], k[4], k[5]];
  }

  /** Each option of `getOptions` sits in its own slot, so the keys differ and follow `OptionOrder`. */
  lemma BuilderSlots(e: seq<(string, Opt)>, d: seq<(string, Opt)>, s: seq<(string, Opt)>, path: string, secure: bool, httponly: bool)
    requires |e| <= 1 && |d| <= 1 && |s| <= 1
    requires forall i :: 0 <= i < |e| ==> e[i].0 == "expires"
    requires forall i :: 0 <= i < |d| ==> d[i].0 == "domain"
    requires forall i :: 0 <= i < |s| ==> s[i].0 == "samesite"
    ensures var r := e + d + [("path", StrV(path)), ("secure", BoolV(secure)), ("httponly", BoolV(httponly))] + s;
      DistinctKeys(r) && forall i :: 0 <= i < |r| ==> r[i].0 in OptionOrder
  {
    KeyNamesDistinct();
    var r := e + d + [("path", StrV(path)), ("secure", BoolV(secure)), ("httponly", BoolV(httponly))] + s;
    var n := |e| + |d|;
    forall i | 0 <= i < |r| ensures r[i].0 == OptionOrder[SlotOf(i, |e|, |d|)] {
      if i < |e| {
        assert r[i] == e[i];
      } else if i < n {
        assert r[i] == d[i - |e|];
      } else if n + 3 <= i {
        assert r[i] == s[i - n - 3];
      }
    }
  }

  /** The index in `OptionOrder` of the key in slot `i`, with `ne` and `nd` slots for expires and domain. */
  function SlotOf(i: nat, ne: nat, nd: nat): (k: nat)
    ensures k < 6
  {
    if i < ne then 0
    else if i < ne + nd then 1
    else if i == ne + nd then 2
    else if i == ne + nd + 1 then 3
    else if i == ne + nd + 2 then 4
    else 5
  }

  /** The position of a key in `OptionOrder`. */
  function OrderRank(key: string): nat {
    if key == "expires" then 0 else if key == "domain" then 1 else if key == "path" then 2
    else if key == "secure" then 3 else if key == "httponly" then 4 else 5
  }

  /** What `getOptions` holds under each of the six keys: exactly the fields that are not null. */
  lemma GetOptionsReads(b: CookieOvenBuilder)
    ensures Get(b.GetOptions(), "expires") == if b.expires.Some? then Some(IntV(b.expires.value)) else None
    ensures Get(b.GetOptions(), "domain") == if b.domain.Some? then Some(StrV(b.domain.value)) else None
    ensures Get(b.GetOptions(), "path") == Some(StrV(b.path))
    ensures Get(b.GetOptions(), "secure") == Some(BoolV(b.secure))
    ensures Get(b.GetOptions(), "httponly") == Some(BoolV(b.httponly))
    ensures Get(b.GetOptions(), "samesite") == if b.samesite.Some? then Some(StrV(b.samesite.value)) else None
  {
    KeyNamesDistinct();
    var r := b.GetOptions();
    var e := if b.expires.Some? then 1 else 0;
    var n := e + (if b.domain.Some? then 1 else 0) + 3;
    assert |r| == n + (if b.samesite.Some? then 1 else 0);
    ReadsNullable(b, r, e, n);
    ReadsFixed(b, r, n);
  }

  /** The three options that are always present sit just before `samesite`. */
  lemma ReadsFixed(b: CookieOvenBuilder, r: Options, n: nat)
    requires r == b.GetOptions() && 3 <= n <= |r|
    requires n == (if b.expires.Some? then 1 else 0) + (if b.domain.Some? then 1 else 0) + 3
    ensures Get(r, "path") == Some(StrV(b.path))
    ensures Get(r, "secure") == Some(BoolV(b.secure))
    ensures Get(r, "httponly") == Some(BoolV(b.httponly))
  {
    assert r[n - 3] == ("path", StrV(b.path));
    assert r[n - 2] == ("secure", BoolV(b.secure));
    assert r[n - 1] == ("httponly", BoolV(b.httponly));
    ReadAt(r, n - 3, "path", true);
    ReadAt(r, n - 2, "secure", true);
    ReadAt(r, n - 1, "httponly", true);
  }

  /** The three nullable options are present exactly when their field is set. */
  lemma ReadsNullable(b: CookieOvenBuilder, r: Options, e: nat, n: nat)
    requires r == b.GetOptions() && e == (if b.expires.Some? then 1 else 0)
    requires n == e + (if b.domain.Some? then 1 else 0) + 3
    requires |r| == n + (if b.samesite.Some? then 1 else 0)
    ensures Get(r, "expires") == if b.expires.Some? then Some(IntV(b.expires.value)) else None
    ensures Get(r, "domain") == if b.domain.Some? then Some(StrV(b.domain.value)) else None
    ensures Get(r, "samesite") == if b.samesite.Some? then Some(StrV(b.samesite.value)) else None
  {
    KeyNamesDistinct();
    assert b.expires.Some? ==> r[0] == ("expires", IntV(b.expires.value));
    assert b.domain.Some? ==> r[e] == ("domain", StrV(b.domain.value));
    assert b.samesite.Some? ==> r[n] == ("samesite", StrV(b.samesite.value));
    ReadAt(r, 0, "expires", b.expires.Some?);
    ReadAt(r, e, "domain", b.domain.Some?);
    ReadAt(r, n, "samesite", b.samesite.Some?);
  }

  /** The keys of `getOptions` come in the order expires, domain, path, secure, httponly, samesite. */
  lemma GetOptionsOrdered(b: CookieOvenBuilder)
    ensures forall i, j :: 0 <= i < j < |b.GetOptions()| ==> OrderRank(b.GetOptions()[i].0) < OrderRank(b.GetOptions()[j].0)
  {
  }

  /** A fresh builder's options are exactly `['path' => '/', 'secure' => true, 'httponly' => true]`. */
  lemma DefaultOptions()
    ensures DefaultBuilder().GetOptions() == [("path", StrV("/")), ("secure", BoolV(true)), ("httponly", BoolV(true))]
  {
  }

  /** Every option of a builder is one `assertOptions` accepts, so `build()` never throws. */
  lemma BuilderOptionsKnown(b: CookieOvenBuilder)
    ensures AllKnown(b.GetOptions())
  {
  }

  /** `withExpires` changes the `expires` option and no other. */
  lemma WithExpiresOnly(b: CookieOvenBuilder, e: int, key: string)
    ensures Get(b.WithExpires(e).GetOptions(), key) ==
      if key == "expires" then Some(IntV(e)) else Get(b.GetOptions(), key)
  {
    OnlyField(b, b.WithExpires(e), "expires", key);
    GetOptionsReads(b.WithExpires(e));
  }

  /** `withDomain` changes the `domain` option and no other. */
  lemma WithDomainOnly(b: CookieOvenBuilder, d: string, key: string)
    ensures Get(b.WithDomain(d).GetOptions(), key) ==
      if key == "domain" then Some(StrV(d)) else Get(b.GetOptions(), key)
  {
    OnlyField(b, b.WithDomain(d), "domain", key);
    GetOptionsReads(b.WithDomain(d));
  }

  /** `withSecure` changes the `secure` option and no other. */
  lemma WithSecureOnly(b: CookieOvenBuilder, s: bool, key: string)
    ensures Get(b.WithSecure(s).GetOptions(), key) ==
      if key == "secure" then Some(BoolV(s)) else Get(b.GetOptions(), key)
  {
    OnlyField(b, b.WithSecure(s), "secure", key);
    GetOptionsReads(b.WithSecure(s));
  }

  /** `withHttpOnly` changes the `httponly` option and no other. */
  lemma WithHttpOnlyOnly(b: CookieOvenBuilder, h: bool, key: string)
    ensures Get(b.WithHttpOnly(h).GetOptions(), key) ==
      if key == "httponly" then Some(BoolV(h)) else Get(b.GetOptions(), key)
  {
    OnlyField(b, b.WithHttpOnly(h), "httponly", key);
    GetOptionsReads(b.WithHttpOnly(h));
  }

  /** `withSameSite` sets the `samesite` option, or removes it for null, and changes no other. */
  lemma WithSameSiteOnly(b: CookieOvenBuilder, s: Option<string>, key: string)
    ensures Get(b.WithSameSite(s).GetOptions(), key) ==
      if key == "samesite" then (if s.Some? then Some(StrV(s.value)) else None) else Get(b.GetOptions(), key)
  {
    OnlyField(b, b.WithSameSite(s), "samesite", key);
    GetOptionsReads(b.WithSameSite(s));
  }

  /** The fields behind each option key agree between two builders. */
  predicate SameField(b1: CookieOvenBuilder, b2: CookieOvenBuilder, key: string) {
    match key
    case "expires" => b1.expires == b2.expires
    case "domain" => b1.domain == b2.domain
    case "path" => b1.path == b2.path
    case "secure" => b1.secure == b2.secure
    case "httponly" => b1.httponly == b2.httponly
    case "samesite" => b1.samesite == b2.samesite
    case _ => true
  }

  /** Builders that agree on the field behind `key` list the same value under it; keys outside the six are never listed. */
  lemma OnlyField(b1: CookieOvenBuilder, b2: CookieOvenBuilder, changed: string, key: string)
    requires forall k :: k != changed ==> SameField(b1, b2, k)
    ensures key != changed ==> Get(b1.GetOptions(), key) == Get(b2.GetOptions(), key)
  {
    if key != changed {
      assert SameField(b1, b2, key);
      if key in OptionOrder {
        GetOptionsReads(b1);
        GetOptionsReads(b2);
      } else {
        NotListed(b1, key);
        NotListed(b2, key);
      }
    }
  }

  /** A key outside the six is never listed. */
  lemma NotListed(b: CookieOvenBuilder, key: string)
    requires key !in OptionOrder
    ensures Get(b.GetOptions(), key) == None
  {
    assert key !in Keys(b.GetOptions());
  }

  /** The last write wins: a second `with*` of the same field overrides the first. */
  lemma LastWriteWins(b: CookieOvenBuilder, x: bool, y: bool, s: Option<string>, t: Option<string>)
    ensures b.WithSecure(x).WithSecure(y) == b.WithSecure(y)
    ensures b.WithHttpOnly(x).WithHttpOnly(y) == b.WithHttpOnly(y)
    ensures b.WithSameSite(s).WithSameSite(t) == b.WithSameSite(t)
    ensures Get(b.WithSameSite(s).WithSameSite(None).GetOptions(), "samesite") == None
  {
    WithSameSiteOnly(b.WithSameSite(s), None, "samesite");
  }

  /** `build()`: an oven whose default options are `getOptions()`. */
  method Build(b: CookieOvenBuilder) returns (oven: Oven)
    ensures fresh(oven) && oven.Valid()
    ensures oven.defaults == b.GetOptions() && oven.bag == []
  {
    BuilderOptionsKnown(b);
    var made := Oven.New(b.GetOptions());
    oven := made.value;
  }
}
