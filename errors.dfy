/**
 * The errors the package returns, one constructor per error site, with the
 * text Go formats for each of them.
 */
module Errors {

  datatype Error =
    | Required(section: string, key: string)             // config.go:20
    | EnvEmpty(section: string, key: string)             // config.go:38
    | NotExists(name: string)                            // inject.go:32
    | NotAssignable(valueType: string, fieldType: string) // a reflect.Set panic, recovered at inject.go:15-19
    | NotFound(name: string)                             // global.go:60
    | AlreadyRunning                                     // di.go:66
    | ParseFailed(cause: string)                         // global.go:32, 38
    | Raised(message: string)                            // an error returned by user code (New, Run, a callback)

  /** The message of `e`, as `Error()` would return it. */
  function Message(e: Error): string {
    match e
    case Required(section, key) => "di: \"" + section + "." + key + "\" is required"
    case EnvEmpty(section, key) => "di: \"" + section + "." + key + "\" env is empty"
    case NotExists(name) => "di/inject: dependency " + name + " not exists"
    case NotAssignable(v, f) =>
      "di/inject: reflect.Set: value of type " + v + " is not assignable to type " + f
    case NotFound(name) => "di: dependency " + name + " not found"
    case AlreadyRunning => "di: already running"
    case ParseFailed(cause) => "di/parse: " + cause
    case Raised(message) => message
  }

  /** The errors produced by the field injector. */
  predicate FromInjector(e: Error) {
    e.NotExists? || e.NotAssignable?
  }

  /** Every error of the field injector reads "di/inject: ...". */
  lemma InjectorMessagesArePrefixed(e: Error)
    requires FromInjector(e)
    ensures |Message(e)| >= 11 && Message(e)[..11] == "di/inject: "
  {
  }
}
