/** Optional values: the model's reading of TypeScript's `T | null` and `T | undefined`. */
module Wrappers {

  datatype Option<+T> = None | Some(value: T) {

    /** The wrapped value, or `default` when there is none (TypeScript's `??`). */
    function GetOr(default: T): T {
      match this
      case Some(v) => v
      case None => default
    }
  }

  /** Object-spread override of one field: a present `patch` wins over `base`. */
  function Override<T>(base: Option<T>, patch: Option<T>): (r: Option<T>)
    ensures patch.Some? ==> r == patch
    ensures patch.None? ==> r == base
  {
    if patch.Some? then patch else base
  }
}
