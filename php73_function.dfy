/**
 * The emitter for PHP 7.3 and later, whose `setcookie` takes the options
 * array itself: `emitCookie` asserts the version and hands the cookie over
 * unchanged.  The call of `setcookie` is the returned argument triple.
 */
module ModernEmitter {
  import opened Wrappers
  import opened PhpValues
  import opened LegacyEmitter

  /** The arguments of `setcookie($name, $value, $options)`. */
  datatype ModernCall = ModernCall(name: string, value: string, options: Options)

  /** `emitCookie($name, $value, $options)` after `assert(PHP_VERSION_ID >= 70300)`. */
  function EmitCookie(version: int, name: string, value: string, options: Options): (r: Result<ModernCall, Error>)
    ensures r.Failure? <==> version < Php73VersionId
    ensures r.Failure? ==> r.error == AssertionFailed
    ensures r.Success? ==> r.value.name == name && r.value.value == value && r.value.options == options
  {
    if version < Php73VersionId then Failure(AssertionFailed) else Success(ModernCall(name, value, options))
  }

  /** Exactly one of the two emitters accepts any given version. */
  lemma EmittersPartitionVersions(version: int, name: string, value: string, options: Options)
    ensures LegacyEmitter.EmitCookie(version, name, value, options).Success?
      != EmitCookie(version, name, value, options).Success?
  {
  }
}
