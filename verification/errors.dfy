/** The `ApiError` record every handler throws, the other exceptions a handler
    can raise, and the result type the handlers return instead of throwing.
    `asyncHandler` forwards every rejection to Express, whose final handler
    answers with the error's `statusCode` when it is a 4xx or 5xx code and
    with 500 otherwise. */
module ApiErrors {
  import opened Js

  const DefaultMessage := "An unknown error occurred!"

  /** The fields an `ApiError` instance carries; `data` is always null, which
      is `None` here. */
  datatype ApiError = ApiError(
    statusCode: int,
    message: string,
    errors: seq<string>,
    success: bool,
    data: Option<string>)

  /** What `new ApiError(...)` evaluates to: the record, or the ReferenceError
      raised by assigning the undeclared `stack` when a truthy `statck` is passed. */
  datatype Construction = Constructed(error: ApiError) | StackReferenceError

  /** `new ApiError(statusCode, message, errors, statck)`, with `None` for an
      argument left undefined so that its default applies. */
  function NewApiError(statusCode: int, message: Option<string>, errors: Option<seq<string>>,
                       statck: Option<string>): (r: Construction)
    ensures r.Constructed? <==> !Truthy(statck)
    ensures r.Constructed? ==>
              && r.error.statusCode == statusCode
              && r.error.success == false
              && r.error.data == None
              && (message.None? ==> r.error.message == DefaultMessage)
              && (message.Some? ==> r.error.message == message.value)
              && (errors.None? ==> r.error.errors == [])
              && (errors.Some? ==> r.error.errors == errors.value)
  {
    if Truthy(statck) then StackReferenceError
    else
      var msg := match message case Some(m) => m case None => DefaultMessage;
      var errs := match errors case Some(e) => e case None => [];
      Constructed(ApiError(statusCode, msg, errs, false, None))
  }

  /** `new ApiError(code, message)`, the only form the handlers use. */
  function Raise(code: int, message: string): (e: ApiError)
    ensures NewApiError(code, Some(message), None, None) == Constructed(e)
  {
    NewApiError(code, Some(message), None, None).error
  }

  /** Everything a handler can throw. */
  datatype Failure =
    | Thrown(error: ApiError)         // an explicit `throw new ApiError(...)`
    | TypeError(reason: string)       // a property read or call on undefined or null
    | CastError(value: string)        // a string that is not an ObjectId where one is needed
    | BsonError(value: string)        // `new ObjectId(s)` rejected a string that is not an ObjectId
    | ValidationError(path: string)   // a schema validator rejected the document
    | DuplicateKey(path: string)      // a unique index rejected the document
    | LibraryError(message: string)   // a plain `Error` a library rejects with

  /** The HTTP status the client sees for a failure. Express's final handler
      only takes an error's `statusCode` when it is an error status (400 to
      599); anything else, and every error without one, is answered with 500. */
  function StatusOf(f: Failure): (code: int)
    ensures 400 <= code < 600
    ensures f.Thrown? && 400 <= f.error.statusCode < 600 ==> code == f.error.statusCode
    ensures !(f.Thrown? && 400 <= f.error.statusCode < 600) ==> code == 500
  {
    match f
    case Thrown(e) => if 400 <= e.statusCode < 600 then e.statusCode else 500
    case _ => 500
  }

  /** A handler's outcome: the value it sends, or what it throws. */
  datatype Result<+T> = Ok(value: T) | Err(failure: Failure) {
    predicate IsFailure() {
      Err?
    }

    function PropagateFailure<U>(): Result<U>
      requires Err?
    {
      Err(failure)
    }

    function Extract(): T
      requires Ok?
    {
      value
    }
  }

  /** `throw new ApiError(code, message)`. */
  function Fail<T>(code: int, message: string): Result<T> {
    Err(Thrown(Raise(code, message)))
  }

  /** The failure is an `ApiError` with this status code and message. */
  predicate IsApiError<T>(r: Result<T>, code: int, message: string) {
    r.Err? && r.failure.Thrown? && r.failure.error.statusCode == code
    && r.failure.error.message == message
  }

  /** Every error a handler throws explicitly reports failure, carries no data
      and has the default empty error list; the client sees its code when that
      is an error status. */
  lemma FailShape<T>(code: int, message: string)
    ensures var r: Result<T> := Fail(code, message);
            && IsApiError(r, code, message)
            && (400 <= code < 600 ==> StatusOf(r.failure) == code)
            && r.failure.error.success == false
            && r.failure.error.data == None
            && r.failure.error.errors == []
  {
  }
}
