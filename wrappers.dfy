/** Optional values, used wherever the source reports "found / not found". */
module Wrappers {
  datatype Option<T> = None | Some(value: T)
  {
    predicate IsSome() { this.Some? }
  }
}
