/** What a handler hands back: either a success body together with the
    store after the request, or one of the three error kinds, which the
    error handlers turn into a uniform JSON envelope. */
module Responses {

  import opened Wrappers
  import opened Model

  /** The three recognised errors: 400, 404 and 422. */
  datatype Status = BadRequest | NotFound | Unprocessable

  function Code(e: Status): (c: nat)
    ensures c == 400 || c == 404 || c == 422
  {
    match e
    case BadRequest => 400
    case NotFound => 404
    case Unprocessable => 422
  }

  /** The error kind an HTTP status code selects, if it has a handler. */
  function FromCode(c: int): (r: Option<Status>)
    ensures r.None? <==> c != 400 && c != 404 && c != 422
    ensures r.Some? ==> Code(r.value) == c
  {
    if c == 400 then Some(BadRequest)
    else if c == 404 then Some(NotFound)
    else if c == 422 then Some(Unprocessable)
    else None
  }

  function Message(e: Status): string {
    match e
    case BadRequest => "bad request"
    case NotFound => "resource not found"
    case Unprocessable => "unprocessable"
  }

  /** The JSON body `{success, error, message}` of an error response. */
  datatype ErrorBody = ErrorBody(success: bool, error: nat, message: string)

  /** The error handlers: the envelope reports failure, carries the code
      that identifies the error kind, and the kind's fixed message. */
  function Envelope(e: Status): (b: ErrorBody)
    ensures !b.success
    ensures FromCode(b.error) == Some(e)
    ensures b.message == Message(e)
  {
    ErrorBody(false, Code(e), Message(e))
  }

  /** Code and FromCode are inverse: every error kind has its own code. */
  lemma CodeRoundTrip(e: Status, c: int)
    ensures FromCode(Code(e)) == Some(e)
    ensures FromCode(c) == Some(e) <==> Code(e) == c
  {
  }

  /** No two error kinds produce the same envelope. */
  lemma EnvelopeInjective(e1: Status, e2: Status)
    ensures Envelope(e1) == Envelope(e2) <==> e1 == e2
  {
  }

  /** A handler's result. On failure the request is aborted before any
      write, so there is no new store. */
  datatype Outcome<+T> = Ok(body: T, store: Store) | Fail(status: Status)

  /** The HTTP status of the response a handler's result produces. */
  function HttpStatus<T>(r: Outcome<T>): (c: nat)
    ensures r.Ok? <==> c == 200
    ensures r.Fail? ==> FromCode(c) == Some(r.status)
  {
    match r
    case Ok(_, _) => 200
    case Fail(e) => Code(e)
  }
}
