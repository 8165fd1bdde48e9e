/** Shared vocabulary of the handlers: optional values, the HTTP response every
    handler produces, and JavaScript truthiness of the request fields it tests. */
module Common {

  datatype Option<+T> = None | Some(value: T)

  /** A handler's answer: a status code with a payload (the envelope's `data`),
      or a status code with the message of the AppError passed to `next`. */
  datatype Response<+T> = Success(code: int, data: T) | Error(code: int, message: string)

  /** `results` and the row list of a listing endpoint. */
  datatype Listing<+T> = Listing(results: nat, items: seq<T>)

  /** A request field that holds a string, or is absent/null (None). In
      JavaScript `!x` holds for absent, null and the empty string. */
  predicate Truthy(s: Option<string>)
  {
    s.Some? && s.value != ""
  }

  /** First row of a result set, or null (`rows[0] || null`; a row object is always truthy). */
  function FirstOrNull<T>(rows: seq<T>): (r: Option<T>)
    ensures r.None? <==> rows == []
    ensures r.Some? ==> r.value == rows[0]
  {
    if rows == [] then None else Some(rows[0])
  }
}
