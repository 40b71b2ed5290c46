# bag2php/cookie in Dafny

This project models the core of the PHP library bag2php/cookie. The library keeps a jar of cookies (`Oven`) and turns it into `Set-Cookie` header values, in the sense of section 4.1.1 of RFC 6265. The model proves properties of:

 * **Option validation and line compilation** (`SetCookie`).
 * **The jar** (`Oven`) and its use as a PHP array: `add`, the `ArrayAccess` operations, `count` and iteration.
 * **Header merging:** `setTo`, `appendTo` and `parseLines`.
 * **The immutable builder of default options** (`CookieOvenBuilder`).
 * **The value holder** `Cookie`.
 * **The emitters:** the pre-7.3 emitter's SameSite-into-path rewriting, the 7.3 emitter, and the plain functions `oven`, `create_emitter`, `emit` and `setcookie`.

Each source file becomes one module:

| file | module |
|---|---|
| src/SetCookie.php | `SetCookies` (set_cookie.dfy), with the test cases in `SetCookieExamples` |
| src/Oven.php | `Ovens` (oven.dfy): the class `Ovens.Oven` with the bag as a field that its methods reassign, and `while` loops for `parseLines` and the jar loops of `appendTo`/`setTo`. Each method is proved equal to a specification function, and the properties are lemmas about those functions. |
| src/CookieOvenBuilder.php | `OvenBuilders` (cookie_oven_builder.dfy) |
| src/Cookie.php | `Cookies` (cookie.dfy) |
| src/Emitter/PhpLegacyFunction.php | `LegacyEmitter` (php_legacy_function.dfy) |
| src/Emitter/Php73Function.php | `ModernEmitter` (php73_function.dfy) |
| src/functions.php | `CookieFunctions` (functions.dfy) |

The shared modules are:

 * **`OrderedMaps`:** a PHP array is a sequence of key/value pairs with distinct keys, in insertion order.
   * `$a[$k] = $v` is `Put`: it updates in place, or appends.
   * `unset` is `Remove`.
   * `$a + $b` is `Union`.
   * A loop of writes is `PutAll`.
 * **`PhpValues`:** the option values (`int`, `string`, `bool`), `(string)`, truthiness, `explode('=', $s, 2)[0]`, and the exceptions.
 * **`PhpNumbers`:** PHP 8's loose comparison `$v > 0`. Numeric strings compare by their number, and other strings compare with `"0"` byte by byte.
 * **`UrlEncoding`:** PHP's `urlencode` over the UTF-8 bytes of a string, and its inverse `urldecode`.
 * **`Wrappers`:** `Option`, `Result` and `Outcome`.

Modelling choices:

 * **Exceptions and assertions are results.** A thrown `DomainException` and a failed `assert(...)` are both `Failure`/`Fail` values. Assertions are modelled as enabled, as the library's tests need them.
 * **Time is a parameter.** The current time (`$now`) and `date(DATE_COOKIE, ...)` are both parameters, `now` and `fmt`.
 * **PHP's `setcookie` primitive is not modelled.** Each emitter returns the argument tuple it would pass to it. Whether the primitive succeeds is the parameter `setcookie` of `CookieFunctions.Emit`.
 * **The version is a parameter.** `PHP_VERSION_ID` is the parameter `version`.
 * **`__invoke` is `emitCookie`.** The `__invoke` of either emitter only calls `emitCookie`, so it is modelled by the same function.
 * **The oven's functions take the per-cookie compiler as a parameter.** `appendTo` and `setTo` are specified by functions that take the line compiler as a parameter (`Compiler`). The class uses `LineCompiler(now, fmt)`, which is `compileHeaderLine`. This keeps the jar reasoning apart from the line format.
 * **Attribute labels are lower case, as written.** src/SetCookie.php writes `; expires=`, `; path=`, `; domain=` and `; secure` in lower case. tests/SetCookieTest.php:81 and tests/OvenTest.php:96 expect `Expires=`, `Path=`, `Domain=` and `Secure`. The model follows the code.
 * **Only option keys are validated at construction.** `assertOptions` checks keys only. tests/SetCookie/AssertOptionsTest.php:33-48 also expects checks on values when a cookie is made: path and domain characters, booleans, the SameSite values. The code makes none of those checks at construction. It checks only the path characters, and only when a line is compiled. The model follows the code.

## Model

| member | source | states |
|---|---|---|
| `OrderedMaps.Put` | src/Oven.php:56 | `$a[$k] = $v`: a present key is updated in its own slot and every other slot is unchanged; a new key is appended at the end. |
| `OrderedMaps.PutGet` | src/Oven.php:139 | After a write, reading the written key gives the new value and reading any other key gives what it gave before. |
| `OrderedMaps.PutKeys` | src/Oven.php:56 | A write keeps the key order: the keys are unchanged for a present key, or gain the new key at the end. |
| `OrderedMaps.Remove` | src/Oven.php:108 | `unset($a[$k])` drops exactly the slot of `k` and keeps the others in order; an absent key changes nothing. |
| `OrderedMaps.RemoveGet` | src/Oven.php:108 | After `unset`, the key reads as absent and every other key reads as before. |
| `OrderedMaps.RemoveGone` | src/Oven.php:108 | A removed key is no longer among the keys. |
| `OrderedMaps.RemoveKept` | src/Oven.php:108 | Removing one key leaves every other present key's value. |
| `OrderedMaps.Union` | src/Oven.php:56 | `$a + $b`: all of `$a` in its order, then the entries of `$b` whose keys `$a` lacks, in `$b`'s order. |
| `OrderedMaps.UnionLeft` | src/Oven.php:56 | A key of the left operand reads from its own slot, which the union keeps in place. |
| `OrderedMaps.UnionRight` | src/Oven.php:56 | A key only the right operand has reads the right operand's value. |
| `OrderedMaps.UnionGet` | src/Oven.php:56 | In `$a + $b` the left operand wins: a key of `$a` reads from `$a`, any other key reads from `$b`. |
| `OrderedMaps.PutAllShape` | src/Oven.php:84-86 | After a loop of writes, the old slots keep their positions, each carrying the written value where its key was written; the new keys follow in the order written. |
| `PhpValues.DecimalString` | src/SetCookie.php:45 | `(string)$int` has a minus sign exactly for negative numbers, and digits elsewhere. |
| `PhpValues.DecimalStringRoundTrip` | src/SetCookie.php:45 | Reading the decimal string of an integer gives back that integer. |
| `PhpValues.ExplodeHead` | src/Oven.php:163-164 | There is a head exactly when the separator occurs; the head holds no separator, and head plus separator is a prefix of the line. |
| `PhpValues.ExplodeHeadOfJoin` | src/Oven.php:164 | The head of `head . '=' . rest` is `head` when `head` holds no `=`, whatever `rest` holds. |
| `PhpNumbers.ReadNatDigits` | src/SetCookie.php:101 | A string of decimal digits is numeric and non-negative, and it is above 0 exactly when the number it spells is. |
| `PhpNumbers.DecimalAboveZero` | src/SetCookie.php:101 | `(string)$n > 0` holds exactly when `$n > 0`: an int's string form compares with 0 as the int does. |
| `PhpNumbers.StringComparisons` | src/SetCookie.php:101 | `""`, `"0"`, `"-1"` and `"0.0"` are not above 0. `"1"`, `" 2e3 "` (numeric, with white space) and `"abc"` (non-numeric, after `"0"`) are. |
| `UrlEncoding.UrlEncode` | src/SetCookie.php:98 | `urlencode` output is made of `[A-Za-z0-9._-+%]` only, so it holds no `=`, `;`, `,` or space. |
| `UrlEncoding.UrlEncodeRoundTrip` | src/SetCookie.php:98 | `urldecode(urlencode($s))` is the bytes of `$s`: the encoding loses nothing. |
| `UrlEncoding.UrlEncodeKeepsUnreserved` | src/SetCookie.php:98 | Text made of `[A-Za-z0-9._-]` is left unchanged, so `Name=Value` keeps its name. |
| `UrlEncoding.DecodeEncodedByte` | src/SetCookie.php:98 | `urldecode` undoes the encoding of each single byte, whatever text follows it. |
| `UrlEncoding.UrlEncodeConcat` | src/SetCookie.php:98 | The encoding of a concatenation is the concatenation of the encodings. |
| `UrlEncoding.SpacedPlain` | tests/SetCookieTest.php:96 | A space between plain words becomes `+`: `is zero.` encodes as `is+zero.`. |
| `SetCookies.CheckOptions` | src/SetCookie.php:87-94 | Passes exactly when every key is one of the six known options; otherwise it fails naming the first unknown key. Values are not inspected. |
| `SetCookies.AssertOptions` | src/SetCookie.php:87-94 | The `foreach` over the option keys gives exactly the `CheckOptions` verdict, with the first unknown key. |
| `SetCookies.FirstUnknownUnique` | src/SetCookie.php:89-92 | Whichever key is the first unknown one is the key the exception names. |
| `SetCookies.NewSetCookie` | src/SetCookie.php:40-47 | The constructor succeeds exactly when the options are known. It stores the name, the string form of the value and the options. A failure is the option exception, and no cookie exists. |
| `SetCookies.FromArrayToArray` | src/SetCookie.php:148-163 | `fromArray($c->toArray())` rebuilds the same cookie. |
| `SetCookies.ToArrayFromArray` | src/SetCookie.php:148-163 | `fromArray($data)` succeeds exactly for known options, and its `toArray()` is `$data` again. |
| `SetCookies.MaxAge` | src/SetCookie.php:105 | `max(0, $expires - $now)` is never negative: the seconds left for a future expiry, 0 otherwise. |
| `SetCookies.CompileHeaderLine` | src/SetCookie.php:95-142 | A line is `urlencode(name)=urlencode(value)` followed by the rendered segments. It fails exactly when the segments do. Its text before the first `=` is the encoded name. |
| `SetCookies.JoinedHead` | src/Oven.php:164 | A line `n=v...` with an `=`-free `n` has `n` as its text before the first `=`, and keeps `n=v` as its prefix. |
| `SetCookies.BaseLineHead` | src/SetCookie.php:98 | Whatever follows the `name=value` base, the text before the first `=` is the encoded name. |
| `SetCookies.KnownNamesDistinct` | src/SetCookie.php:17-24 | The six known option names differ from each other. |
| `SetCookies.StringExpires` | src/SetCookie.php:100-102 | A string `expires` holding `(string)$n` fails the `is_int` assertion exactly when `$n > 0`; otherwise it adds no segment. |
| `SetCookies.CompileFailures` | src/SetCookie.php:99-125 | Compiling fails exactly in these cases: an `expires` that is not an int but that PHP finds above 0 (`true`, a positive numeric string, or a non-numeric string sorting after `"0"`), a non-string `path` or `domain`, or a path holding `, ; space \t \r \n \013 \014`. The malformed-path exception is what is raised unless the `expires` assertion fails first. Only those two errors occur. |
| `SetCookies.SegmentsOrdered` | src/SetCookie.php:98-142 | The segments of a line come in the order expires, path, domain, secure, HttpOnly, SameSite, each at most once. |
| `SetCookies.ExpirySegment` | src/SetCookie.php:100-107 | The expiry segment appears exactly when `expires` is a positive int. It carries the formatted date and a Max-Age of `max(0, expires - now)`, which is never negative. |
| `SetCookies.PathSegment` | src/SetCookie.php:109-118 | The path segment appears exactly for a non-empty string path, written verbatim (not encoded) and free of forbidden characters. An empty or missing path adds nothing. |
| `SetCookies.DomainSegment` | src/SetCookie.php:120-125 | The domain segment appears exactly for a non-empty domain, and is written url-encoded. |
| `SetCookies.FlagSegments` | src/SetCookie.php:127-135 | `secure` and `HttpOnly` appear exactly when their option is truthy: absent and `false` behave alike. |
| `SetCookies.SameSiteSegment` | src/SetCookie.php:137-140 | The SameSite segment appears exactly when `samesite` is truthy, carrying its url-encoded value. |
| `SetCookies.CompileIgnoresOptionOrder` | src/SetCookie.php:98-142 | Two cookies with equal name, value and known option values compile to the same line, whatever the key order of their option arrays. |
| `SetCookies.CompileWithoutOptions` | src/SetCookie.php:98 | With no options, the line is exactly `urlencode(name)=urlencode(value)`. |
| `SetCookieExamples.NameValueMade` | tests/SetCookieTest.php:36-46 | `new SetCookie('Name', 'Value')` succeeds and its `toArray()` is `['Name', 'Value', []]`. |
| `SetCookieExamples.NumberMade` | tests/SetCookieTest.php:47-57 | The value 12345 is stored as the string `"12345"`. |
| `SetCookieExamples.Digits12345` | tests/SetCookieTest.php:53 | `(string)12345` is `"12345"`. |
| `SetCookieExamples.AllOptionsGet` | tests/SetCookieTest.php:61-68 | Each of the six options of the `Full` case reads back as given. |
| `SetCookieExamples.AllOptionsAttributes` | tests/SetCookieTest.php:58-82 | The `Full` case yields all six segments in order, with Max-Age `exp - now` and the domain and SameSite values url-encoded. |
| `SetCookieExamples.FullLine` | tests/SetCookieTest.php:58-82 | The whole `Full` line is the base followed by the six rendered segments in the fixed order. The date is left as `fmt`'s text and the labels are lower case. |
| `SetCookieExamples.RenderSix` | src/SetCookie.php:98-142 | Six segments render as their six texts joined. |
| `SetCookieExamples.OneSegment` | src/SetCookie.php:105 | One segment renders as its own text. |
| `SetCookieExamples.OneHour` | tests/SetCookieTest.php:81 | An expiry one hour ahead gives `Max-Age=3600`. |
| `SetCookieExamples.ExpiresOnly` | tests/SetCookieTest.php:83-142 | With only `expires`: 0 gives the bare base line (a session cookie). 1, now and one second ago all give an expiry segment with `Max-Age=0`. |
| `SetCookieExamples.StringExpiresOnly` | src/SetCookie.php:99-102 | With only a string `expires`, the line fails the assertion when PHP finds the string above 0, and is the bare base line otherwise. |
| `SetCookieExamples.StringExpiresExamples` | src/SetCookie.php:99-102 | `expires` set to `""`, `"0"` or `"-1"` compiles to the bare base line; `"1"` or `"abc"` fails the assertion. |
| `SetCookieExamples.ExpiresOnlyAttributes` | src/SetCookie.php:99-107 | With only `expires` at or before now, the segments are one zero-Max-Age expiry when positive, none otherwise. |
| `SetCookieExamples.ZeroMaxAge` | tests/SetCookieTest.php:111 | A zero Max-Age renders as `; Max-Age=0`. |
| `Cookies.NewCookie` | src/Cookie.php:28-33 | The constructor keeps name and options as given (no validation) and stores the string form of the value. |
| `Cookies.IntegerValueKept` | src/Cookie.php:31 | An integer value survives as its decimal string: reading it back gives the integer. |
| `Cookies.ArrayRoundTrip` | src/Cookie.php:73-88 | `fromArray(toArray())` is the same cookie, and `toArray(fromArray($data))` is `$data`. |
| `Cookies.ToSetCookie` | src/Cookie.php:28-33 | A `Cookie`'s fields make a `SetCookie` exactly when its options are known, with the same name, value and options. |
| `Ovens.KeyOfLine` | src/Oven.php:163-167 | A line is keyed by name exactly when it contains `=`, and the name is its text before the first `=`. |
| `Ovens.ParsedInvariant` | src/Oven.php:159-172 | Every named key of the parsed array is the head of its line. The positional keys are below the count of unkeyed lines. |
| `Ovens.PositionalIsNew` | src/Oven.php:167 | `$parsed[] = $line` appends: the next positional index is not yet a key. |
| `Ovens.ParsedKeys` | src/Oven.php:159-172 | The parsed keys are exactly the keys of the input lines. |
| `Ovens.ParsedKeysStep` | src/Oven.php:161-169 | One more line adds exactly its own key to the parsed keys. |
| `Ovens.ParsedValue` | src/Oven.php:165 | A key holds the last line carrying it: a later duplicate overwrites the value. |
| `Ovens.UnkeyedKept` | src/Oven.php:167 | Every line without `=` is kept, under its own positional index. |
| `Ovens.CountGrows` | src/Oven.php:167 | The number of unkeyed lines only grows along the input. |
| `Ovens.ParsedKeysGrow` | src/Oven.php:161-169 | The keys of a prefix are a prefix of the keys: a duplicate keeps its first occurrence's position. |
| `Ovens.ParseOneNamed` | tests/Oven/ParseLineTest.php:39-46 | A single line `name=value` with a `=`-free name parses to the one entry `name => 'name=value'`, as `['Name=Value']` does. |
| `Ovens.ParseDuplicateNamed` | tests/Oven/ParseLineTest.php:47-55 | Two lines for the same name, as `['Name=Value1', 'Name=Value2']`, parse to the single entry holding the second line. |
| `Ovens.ParseUnkeyed` | tests/Oven/ParseLineTest.php:64-73 | Two lines without `=` become the positional entries 0 and 1, in order. |
| `Ovens.LineCompilerKeys` | src/SetCookie.php:98 | Every compiled line is keyed, by `parseLines`, under its cookie's url-encoded name. |
| `Ovens.CompiledLines` | src/Oven.php:190-193 | Compiling a jar succeeds exactly when every cookie compiles. It gives one line per cookie, in jar order. Otherwise it fails with the first cookie's error. |
| `Ovens.BakedIsPutAll` | src/Oven.php:84-86 | The jar loop fails exactly when compiling does, with the same error. Otherwise it writes each compiled line under its bag key. |
| `Ovens.BakedPrefixFailure` | src/Oven.php:84-86 | Once a cookie throws, the loop's outcome is fixed: later cookies change nothing. |
| `Ovens.SetLinesAreCompiled` | src/Oven.php:183-196 | `setTo` ignores the existing lines and writes exactly `count()` lines: the compiled jar in jar order. |
| `Ovens.AppendShape` | src/Oven.php:70-89 | With a non-empty jar, the old (parsed) lines keep their slots, replaced where a jar key matches. Unmatched jar lines follow in jar order. Other lines survive. |
| `Ovens.AppendDuplicatesEncodedName` | src/Oven.php:84-86 | As written: a cookie whose name `urlencode` changes does not replace its own earlier line, which shares its head; both lines are output. |
| `Ovens.SpacedNameLine` | src/SetCookie.php:98 | The cookie `a b` with no options compiles to `a+b=<value>`. |
| `Ovens.SpacedNameHead` | src/Oven.php:164 | The line `a+b=...` is keyed by `a+b`, the encoding of `a b`, which differs from the raw name. |
| `Ovens.SpacedNameDuplicated` | src/Oven.php:77-88 | As written: appending the cookie `a b` next to an earlier `a+b=...` line outputs both lines. |
| `Ovens.SpacedNameExample` | src/Oven.php:77-88 | As written: the cookie `a b=1` next to the line `a+b=0` gives `['a+b=0', 'a+b=1']`. |
| `Ovens.KeyedByHead` | src/Oven.php:85 | Corrected keying: each jar line is written under the key `parseLines` would give it. |
| `Ovens.PutByHeadIsParse` | src/Oven.php:159-172 | Writing lines that hold `=` under their heads gives what parsing them after the existing lines gives. |
| `Ovens.AppendByLineKeyIsParse` | src/Oven.php:77-88 | Corrected: merging is the same as parsing the existing lines followed by the jar's lines. |
| `Ovens.ParsedHeadsDistinct` | src/Oven.php:159-172 | No two lines of a parsed array share their text before the first `=`. |
| `Ovens.AppendByLineKeyUnique` | src/Oven.php:77-88 | Corrected: a non-empty jar leaves at most one line per cookie name. No two output lines share a head. |
| `Ovens.ReAddReplaces` | src/Oven.php:54-59 | Re-adding a name replaces the first cookie in its slot, and the count is unchanged. |
| `Ovens.UnionKnown` | src/Oven.php:56 | With known defaults, the merged options are known exactly when the per-call options are. |
| `Ovens.Oven.Init` | src/Oven.php:38-44 | The constructed jar is empty and holds the defaults. |
| `Ovens.Oven.New` | src/Oven.php:38-44 | `new Oven($defaults)`, which is also `oven()`, succeeds exactly for known defaults, with an empty jar. Otherwise it fails with the option exception. |
| `Ovens.Oven.Add` | src/Oven.php:54-59 | `add` stores `SetCookie(name, (string)value, options + defaults)` under `name`: in place for a known name, appended otherwise. It does not inherit the previous cookie's options. An unknown option leaves the bag unchanged and fails. |
| `Ovens.Oven.OffsetSet` | src/Oven.php:135-140 | `$oven[$k] = $c` stores under `$k`, or under the cookie's name for `$oven[] = $c`. Nothing else changes. |
| `Ovens.Oven.OffsetUnset` | src/Oven.php:106-109 | `unset($oven[$k])` removes only that entry, and raises nothing when it is absent. |
| `Ovens.Oven.OffsetExists` | src/Oven.php:115-118 | `isset` is true exactly for a stored name. |
| `Ovens.Oven.OffsetGet` | src/Oven.php:124-127 | Reading a stored name gives its cookie. Reading a missing one fails. |
| `Ovens.Oven.Count` | src/Oven.php:96-99 | `count()` is the number of distinct names in the jar. |
| `Ovens.Oven.Entries` | src/Oven.php:146-152 | Iteration yields the jar's entries in insertion order, with distinct names. |
| `Ovens.Oven.ParseLines` | src/Oven.php:159-172 | The loop builds exactly the parsed array. |
| `Ovens.Oven.Bake` | src/Oven.php:84-86 | The jar loop writes each compiled line under its bag key, or stops with the first exception. |
| `Ovens.Oven.SetTo` | src/Oven.php:183-196 | `setTo` gives the jar's compiled lines, one per cookie in jar order, or the first exception. |
| `Ovens.Oven.AppendTo` | src/Oven.php:70-89 | `appendTo` returns the existing lines untouched, without de-duplicating, for an empty jar. Otherwise it gives the values of the parsed lines after the jar loop. |
| `OvenBuilders.CookieOvenBuilder.GetOptions` | src/CookieOvenBuilder.php:74-96 | `getOptions()` uses only the six option keys. |
| `OvenBuilders.GetOptionsReads` | src/CookieOvenBuilder.php:74-96 | `expires`, `domain` and `samesite` are present exactly when not null. `path`, `secure` and `httponly` are always present. Each carries its field's value. |
| `OvenBuilders.ReadsFixed` | src/CookieOvenBuilder.php:79-81 | The three always-present options carry their fields. |
| `OvenBuilders.ReadsNullable` | src/CookieOvenBuilder.php:85-93 | The three nullable options are present exactly when set. |
| `OvenBuilders.BuilderSlots` | src/CookieOvenBuilder.php:76-93 | The options array has distinct keys, all among the six option names. |
| `OvenBuilders.GetOptionsOrdered` | src/CookieOvenBuilder.php:76-83 | The keys come in the order expires, domain, path, secure, httponly, samesite. |
| `OvenBuilders.DefaultOptions` | src/CookieOvenBuilder.php:47-61 | A fresh builder's options are exactly `['path' => '/', 'secure' => true, 'httponly' => true]`. |
| `OvenBuilders.BuilderOptionsKnown` | src/CookieOvenBuilder.php:66-69 | Every builder's options pass `assertOptions`, so `build()` never throws. |
| `OvenBuilders.WithExpiresOnly` | src/CookieOvenBuilder.php:102-105 | `withExpires` sets `expires` and changes no other option. |
| `OvenBuilders.WithDomainOnly` | src/CookieOvenBuilder.php:111-114 | `withDomain` sets `domain` and changes no other option. |
| `OvenBuilders.WithSecureOnly` | src/CookieOvenBuilder.php:119-122 | `withSecure` sets `secure` and changes no other option. |
| `OvenBuilders.WithHttpOnlyOnly` | src/CookieOvenBuilder.php:127-130 | `withHttpOnly` sets `httponly` and changes no other option. |
| `OvenBuilders.WithSameSiteOnly` | src/CookieOvenBuilder.php:136-139 | `withSameSite` sets `samesite`, or removes it for null, and changes no other option. |
| `OvenBuilders.OnlyField` | src/CookieOvenBuilder.php:74-96 | Builders agreeing on the field behind a key list the same value under it. |
| `OvenBuilders.LastWriteWins` | src/CookieOvenBuilder.php:119-139 | A second `with*` of the same field overrides the first. `withSameSite(null)` removes `samesite`. |
| `OvenBuilders.Build` | src/CookieOvenBuilder.php:66-69 | `build()` gives a fresh, empty oven whose defaults are `getOptions()`. |
| `LegacyEmitter.EmitCookie` | src/Emitter/PhpLegacyFunction.php:26-49 | Before PHP 7.3, it passes name and value through unchanged. Missing options default to expires 0, domain `''`, secure false and httponly false. From 7.3 on, it fails its assertion. |
| `LegacyEmitter.PathWithoutSameSite` | src/Emitter/PhpLegacyFunction.php:30 | Without `samesite`, the path argument is the `path` option, or `''`. |
| `LegacyEmitter.PathSameSiteAtRoot` | src/Emitter/PhpLegacyFunction.php:32-34 | With `samesite` and an empty or missing path, the path argument is `/; SameSite=<urlencoded samesite>`. |
| `LegacyEmitter.PathSameSiteAppended` | src/Emitter/PhpLegacyFunction.php:35-37 | With `samesite` and a non-empty path, the path argument is `<path>; SameSite=<urlencoded samesite>`. |
| `LegacyEmitter.RefusedFromPhp73` | src/Emitter/PhpLegacyFunction.php:28 | From PHP 7.3 on, every call ends in an assertion failure. |
| `LegacyEmitter.EmptyOptionsDefaults` | src/Emitter/PhpLegacyFunction.php:40-48 | An empty options array gives the arguments `(name, value, 0, '', '', false, false)`. |
| `LegacyEmitter.PathArgumentSplits` | src/Emitter/PhpLegacyFunction.php:30-38 | The rewritten path still yields both parts: its text before `;` is the path (or `/`), and the rest url-decodes to the SameSite value. |
| `LegacyEmitter.SuffixSplits` | src/Emitter/PhpLegacyFunction.php:34 | A `;`-free head followed by the SameSite suffix splits back into the head and the encoded value. |
| `LegacyEmitter.SplitAtSemicolon` | src/Emitter/PhpLegacyFunction.php:36 | The first `;` after a `;`-free head is the one opening the suffix, so the head comes back whole. |
| `LegacyEmitter.SuffixShape` | src/Emitter/PhpLegacyFunction.php:34 | The suffix opens with `;`, and after its eleven-character tag comes exactly the url-encoded value. |
| `LegacyEmitter.PathArgumentText` | src/Emitter/PhpLegacyFunction.php:30-38 | With `samesite` set, the path argument is the path (or `/` for an empty one) followed by the suffix, and that head holds no `;`. |
| `LegacyEmitter.SuffixIsLineSegment` | src/Emitter/PhpLegacyFunction.php:34 | For a truthy value, the suffix is exactly the SameSite segment `compileHeaderLine` renders. |
| `LegacyEmitter.FalsySameSiteStillSent` | src/Emitter/PhpLegacyFunction.php:32 | A set but falsy SameSite value still reaches the path argument (the test is `isset`). The header line omits it, because its test is truthiness. |
| `ModernEmitter.EmitCookie` | src/Emitter/Php73Function.php:25-31 | From PHP 7.3 on, the call is `setcookie(name, value, options)` with all three unchanged. Before 7.3, it fails its assertion. |
| `ModernEmitter.EmittersPartitionVersions` | src/Emitter/Php73Function.php:27 | For every version, exactly one of the two emitters passes its assertion. |
| `CookieFunctions.CreatedEmitterAccepts` | src/functions.php:22-29 | `create_emitter` picks the legacy emitter exactly before 7.3. The emitter it picks passes its own assertion, and the other would fail. |
| `CookieFunctions.CreateEmitterVersions` | tests/functions/CreateEmitterTest.php:28-31 | 70100 and 70200 give the legacy emitter; 70300 and 70400 give the 7.3 one. |
| `CookieFunctions.CallFor` | src/functions.php:33-39 | The call made for a cookie: before 7.3, the legacy seven-argument call of its name, value and options; from 7.3 on, `(name, value, options)` unchanged. |
| `CookieFunctions.Emit` | src/functions.php:31-43 | `emit` makes calls for a prefix of the jar, in jar order, and all but the last call succeed. Its result is the AND over all cookies. On success every cookie was emitted. On failure the last call made is the first refused one, and nothing after it is emitted. An empty jar gives true with no calls. |
| `CookieFunctions.EmitEach` | src/functions.php:37-40 | The `foreach` makes the calls for a prefix of the jar in order and stops after the first refused one. Its result is the AND of all the answers. |
| `CookieFunctions.SetcookieOptions` | src/functions.php:64-83 | The options array uses known keys only, so adding it never throws. |
| `CookieFunctions.SetcookieOptionsReads` | src/functions.php:64-71 | `expires`, `secure` and `httponly` are always present with their arguments. |
| `CookieFunctions.SetcookieOptionsNullable` | src/functions.php:73-83 | `path`, `domain` and `samesite` are present exactly when not null, with their values. |
| `CookieFunctions.SetcookieDefaults` | tests/functions/SetcookieTest.php:42-47 | `setcookie('Name')` builds exactly `['expires' => 0, 'secure' => false, 'httponly' => false]`. |
| `CookieFunctions.UnionNoDefaults` | src/functions.php:85 | An oven with no defaults adds the per-call options unchanged. |
| `CookieFunctions.Setcookie` | src/functions.php:54-86 | `setcookie` makes exactly one call, for the single cookie with those options, and returns that call's result. |
| `CookieFunctions.SlotsDistinct` | src/functions.php:64-83 | The six option slots have distinct, known keys. |

## Left out

 * PSR-7 response objects (`getHeader`, `withHeader`) are modelled only as the `seq<string>` of `Set-Cookie` lines going in and coming out.
 * `time()`, the default for a missing `$now`, is not modelled; `now` is always passed.
 * `date(DATE_COOKIE, ...)` and the host's time zone are the parameter `fmt`. No property is stated about the date text.
 * PHP's own `setcookie` (the primitive) and the response headers it writes are not modelled. Its boolean answer is the parameter `setcookie`, and the model stops at the argument tuple.
 * src/Emitter.php is an interface only.
 * `__invoke` of both emitters only delegates to `emitCookie` and is covered by the same function.
 * `__get`, `__isset`, `__set` and `__unset` of `SetCookie` and `Cookie` are replaced by the immutability of Dafny datatypes. Reading a field is a field access, and a write cannot be expressed, which is what the throwing `__set`/`__unset` guarantee.
 * PHP turns integer-like string keys into int keys. A cookie named `"0"` could therefore collide with a positional key of `parseLines`. The model keeps names as strings and positions as `Positional(n)`, so that collision does not occur in the model.
 * SetCookies.ExpiresPart: `$expires > 0` follows PHP 8's comparison rules. Under PHP 7, a non-numeric string compares as its leading number, so `"abc" > 0` is false there but true in the model.
 * SetCookies.ExpiresPart: a numeric string counts as above 0 when it has no minus sign and a non-zero digit in its mantissa. A float that underflows to 0 (such as `"1e-400"`) is therefore counted as positive, while PHP finds it equal to 0.
 * SetCookies.MaxAge: PHP integers are 64-bit and the model's are unbounded. The model does not capture that `$expires - $now` overflows to a float when the difference exceeds `PHP_INT_MAX` (for instance with a very negative `now`), which makes PHP print a float such as `Max-Age=9.2233720368548E+18`. `IntV` values likewise may exceed the 64-bit range.
 * Ovens.Oven.OffsetSet: the `SetCookies.SetCookie` datatype accepts any options, while a PHP `SetCookie` object always has known options (its constructor runs `assertOptions`). `OffsetSet` can therefore store a cookie with unknown options, which no PHP code could build. No stated property depends on this.
 * Option values are `int`, `string` or `bool`, the documented types. Arrays, floats and `null` option values are not modelled.
 * The construction-time value checks that tests/SetCookie/AssertOptionsTest.php:33-48 expects are not in the code, so they are not in the model.
 * The attribute labels that tests/SetCookieTest.php:81 and tests/OvenTest.php:96 expect are capitalised (`Expires=`, `Path=`, `Domain=`, `Secure`). The model follows the code's lower-case labels.
 * tests/functions/EmitTest.php and tests/EmitterTest.php use a `Bag` class that is not part of this model.
 * `CookieFunctions.Emit` does not store the emitter object between iterations. `CallFor` re-derives the same emitter kind from the version for each cookie; `create_emitter` is pure, so this is the same choice.
 * `UrlEncoding.UrlEncode` works on the UTF-8 encoding of the model's text. A PHP string that is not valid UTF-8 cannot be represented.

## Findings

| source | as written | input that shows it | evidently intended | confidence | as-written member | corrected member |
|---|---|---|---|---|---|---|
| src/Oven.php:84-86 | `appendTo` writes each jar line under the bag key, the raw cookie name. `parseLines` keys the existing lines by their text before `=`, which is the url-encoded name. | A cookie named `a b` with value `1`, appended to a response already holding `a+b=0`, gives `['a+b=0', 'a+b=1']`: two lines for one cookie. | Jar lines replace the existing line of the same cookie, so each cookie name leaves at most one line. | not executed | `Ovens.SpacedNameExample` | `Ovens.AppendByLineKeyUnique` |

`Ovens.AppendLines` and the class method `Ovens.Oven.AppendTo` keep the code as written. `Ovens.AppendLinesByLineKey` keys each jar line by the head `parseLines` gives it. `Ovens.AppendByLineKeyIsParse` proves that this is parsing the existing lines followed by the jar's lines, and `Ovens.AppendByLineKeyUnique` proves that no two output lines then share a name.
