/** Failure-compatible wrappers and a small sequence vocabulary shared by the modules. */
module Wrappers {

  /** An optional value: a JSON field that may be absent, a lookup that may miss. */
  datatype Option<+T> = None | Some(value: T)

  /** The outcome of a request handler: a value, or the error response it returns. */
  datatype Result<+R, +E> = Success(value: R) | Failure(error: E)

  /** JavaScript truthiness of an optional string: an absent field and "" are both falsy. */
  predicate Truthy(s: Option<string>) {
    s.Some? && s.value != ""
  }

  /** `a` is `b` with some elements dropped and the rest kept in their order. */
  predicate IsSubsequence<T(==)>(a: seq<T>, b: seq<T>)
    decreases |b|
  {
    if a == [] then true
    else if b == [] then false
    else if a[0] == b[0] then IsSubsequence(a[1..], b[1..])
    else IsSubsequence(a, b[1..])
  }
}
