/**
 * `Cookie` (src/Cookie.php): an immutable value object holding a name, a
 * string value and an options array.  Unlike `SetCookie` it checks nothing
 * when made: any options array is accepted as it is.
 */
module Cookies {
  import opened Wrappers
  import opened PhpValues
  import SetCookies

  datatype Cookie = Cookie(name: string, value: string, options: Options) {
    /** The `toArray()` view. */
    function ToArray(): CookieArray {
      CookieArray(name, value, options)
    }
  }

  /** `new Cookie($name, $value, $options)`: the value is stored as `(string)$value`, the options as given, and nothing is checked. */
  function NewCookie(name: string, value: Opt, options: Options): (c: Cookie)
    ensures c.name == name && c.options == options
    ensures c.value == Stringify(value)
  {
    Cookie(name, Stringify(value), options)
  }

  /** An integer value reads back from the stored string: `(int)$cookie->value` is the integer given. */
  lemma IntegerValueKept(name: string, i: int, options: Options)
    ensures ParseDecimal(NewCookie(name, IntV(i), options).value) == i
  {
    DecimalStringRoundTrip(i);
  }

  /** `fromArray($data)` (an instance method in PHP that ignores `$this`). */
  function FromArray(data: CookieArray): Cookie {
    NewCookie(data.name, StrV(data.value), data.options)
  }

  /** `toArray` and `fromArray` are inverse: no field is lost or altered in either direction. */
  lemma ArrayRoundTrip(c: Cookie, data: CookieArray)
    ensures FromArray(c.ToArray()) == c
    ensures FromArray(data).ToArray() == data
  {
  }

  /**
   * A `Cookie` carries the same three values a `SetCookie` is made from; the
   * `SetCookie` exists exactly when every option key is known, and then holds
   * the same name, value and options.
   */
  lemma ToSetCookie(c: Cookie)
    ensures SetCookies.NewSetCookie(c.name, StrV(c.value), c.options).Success? <==> SetCookies.AllKnown(c.options)
    ensures SetCookies.NewSetCookie(c.name, StrV(c.value), c.options).Success? ==>
      SetCookies.NewSetCookie(c.name, StrV(c.value), c.options).value.ToArray() == c.ToArray()
  {
  }
}
