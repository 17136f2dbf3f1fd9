// The `Maybe` and `Result` shapes of src/lib/utils/monads.ts.
module Monads {
  /**
   * `Maybe<T>`: `none` is `{ exists: false }` and `some(v)` is
   * `{ exists: true, value: v }`.
   */
  datatype Maybe<T> = None | Some(value: T) {
    /** The `exists` discriminant. */
    predicate Exists() { Some? }
  }

  /**
   * `Result<T, E>`: `ok(v)` is `{ ok: true, value: v }` and `err(e)` is
   * `{ ok: false, error: e }`.
   */
  datatype Result<T, E> = Ok(value: T) | Err(error: E) {
    /** The `ok` discriminant. */
    predicate IsOk() { Ok? }
  }

  /** `emptyErr` is `err(undefined)`; `undefined` is the unit value here. */
  function EmptyErr(): (r: Result<(), ()>)
    ensures !r.IsOk() && r.error == ()
  {
    Err(())
  }
}
