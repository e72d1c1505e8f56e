/** Values shared by every module: an optional value (JavaScript's `null`) and the way an
    awaited promise settles. */
module Async {

  /** `null` or a value. */
  datatype Option<+T> = None | Some(value: T)

  /** An awaited call either resolves with a value or rejects (throws). The model never
      needs to tell one error from another, so a rejection carries nothing. */
  datatype Settled<+T> = Resolved(value: T) | Rejected

  /** JavaScript truthiness of a `string | null`: neither null nor the empty string. */
  predicate Truthy(s: Option<string>) {
    s.Some? && s.value != ""
  }
}
