/** The JavaScript values the handlers pass around besides plain records:
    optional values, results of calls that can throw, and what a `catch`
    block receives. */
module Values {

  datatype Option<+T> = None | Some(value: T)

  /** The outcome of a call that either returns a value or throws. */
  datatype Result<+T, +E> = Ok(value: T) | Err(error: E)

  /** A thrown value: an `Error` object with its message, or any other value
      (such as a plain error record returned by the store and re-thrown). */
  datatype Thrown = ErrorObject(message: string) | OtherValue

  /** The text every `catch` block in the views puts into `message`:
      `err instanceof Error ? err.message : fallback`. */
  function CaughtMessage(t: Thrown, fallback: string): (m: string)
    ensures t.ErrorObject? ==> m == t.message
    ensures t.OtherValue? ==> m == fallback
  {
    match t
    case ErrorObject(m) => m
    case OtherValue => fallback
  }

  /** `v || fallback` for an optional text: `undefined`, `null` and the empty
      text are all falsy. */
  function OrElse(v: Option<string>, fallback: string): (r: string)
    ensures r == fallback || (v.Some? && r == v.value)
    ensures v.Some? && v.value != "" ==> r == v.value
    ensures v.None? || v.value == "" ==> r == fallback
  {
    if v.Some? && v.value != "" then v.value else fallback
  }

  /** The rows a query returned, with `null` (a failed query) read as no
      rows, as `data || []` and `data?.forEach` do. */
  function RowsOf<T>(data: Option<seq<T>>): seq<T> {
    if data.Some? then data.value else []
  }
}
