/** The error replies of the API, one constructor each, and a failure-compatible result carrying one of them; an option
    type for values that may be absent; and the rule for reading a list piece by piece, where the first error wins. */
module Results {

  /** One constructor per error the modelled code raises; messages are not modelled. */
  datatype ApiError =
    | BadRequest        // 400 bad_request
    | ValidationFailed  // 422 validation_failed
    | UnknownColumn     // 400 unknown_column
    | MissingField      // 400 missing_field
    | NotFound          // 404 not_found
    | UpstreamError     // 502 upstream_error

  datatype Result<+T> = Ok(value: T) | Err(error: ApiError) {
    predicate IsFailure() { Err? }

    function PropagateFailure<U>(): Result<U>
      requires Err?
    {
      Err(error)
    }

    function Extract(): T
      requires Ok?
    {
      value
    }
  }

  datatype Option<+T> = None | Some(value: T)

  /** Puts items already read in front of what is still to be read; an error wins. */
  function Prepend<T>(items: seq<T>, r: Result<seq<T>>): Result<seq<T>> {
    if r.Ok? then Ok(items + r.value) else r
  }

  lemma PrependNothing<T>(r: Result<seq<T>>)
    ensures Prepend([], r) == r
  {
    if r.Ok? {
      assert [] + r.value == r.value;
    }
  }

  lemma PrependPrepend<T>(a: seq<T>, b: seq<T>, r: Result<seq<T>>)
    ensures Prepend(a, Prepend(b, r)) == Prepend(a + b, r)
  {
    if r.Ok? {
      assert a + (b + r.value) == (a + b) + r.value;
    }
  }
}
