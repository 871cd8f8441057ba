/**
 * optional.go: the box that an `Optional[T]` field holds. Its only slot `v`
 * is written by the field injector and nowhere else; the three accessors
 * have value receivers, so in this model they are functions of the box and
 * cannot change it.
 */
module Optionals {
  import opened Wrappers

  datatype Optional<T> = Optional(v: Option<T>) {

    /** Get: the held dependency and true, or nothing and false. */
    function Get(): (r: (Option<T>, bool))
      ensures r.1 <==> v.Some?
      ensures r.1 ==> r.0 == v
      ensures !r.1 ==> r.0 == None
    {
      if v.None? then (None, false) else (v, true)
    }

    /**
     * Use: calls `f` with the held dependency, and only when there is one.
     * The call's effect is modelled by `f`'s result: `Some(f(x))` records
     * that `f` ran on `x`, `None` that it did not run.
     */
    function Use<U>(f: T -> U): (called: Option<U>)
      ensures called.Some? <==> v.Some?
      ensures v.Some? ==> called.value == f(v.value)
    {
      match v
      case Some(x) => Some(f(x))
      case None => None
    }

    /** With: the error of `f` on the held dependency, or no error without calling `f`. */
    function With<E>(f: T -> Option<E>): (err: Option<E>)
      ensures v.Some? ==> err == f(v.value)
      ensures v.None? ==> err == None
    {
      if v.Some? then f(v.value) else None
    }
  }
}
