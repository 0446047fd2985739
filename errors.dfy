/**
 * The error objects of services/errorHandler.js: `throwError` builds an Error carrying
 * a status code and a generic message, `handleError` gives any error without a status
 * code the status 500, and `validateFields` rejects a list holding a falsy value.
 */
module Errors {
  import opened Wrappers

  /** A thrown JavaScript error: the `statusCode` property (absent on runtime
      errors such as a TypeError) and the `message`. */
  datatype Error = Error(statusCode: Option<int>, message: string)

  /** Outcome of a handler: its return value, or the error it throws. */
  datatype Result<+T> = Ok(value: T) | Err(error: Error)

  /** The message `throwError` assigns for a status code. */
  function MessageFor(code: int): string {
    match code
    case 400 => "Bad request."
    case 401 => "Unauthorized."
    case 403 => "Forbidden."
    case 404 => "Not found."
    case 409 => "Already exists."
    case 500 => "Internal server error."
    case _ => ""
  }

  /** The six codes `throwError` has a message for. */
  predicate IsKnownCode(code: int) {
    code == 400 || code == 401 || code == 403 || code == 404 || code == 409 || code == 500
  }

  /** `throwError(code)`: it takes the code only, so whatever message a caller passes
      as a second argument is dropped. */
  function ThrowError(code: int): (e: Error)
    ensures e.statusCode == Some(code)
    ensures e.message != "" <==> IsKnownCode(code)
  {
    Error(Some(code), MessageFor(code))
  }

  /** A handler that throws `throwError(code)`. */
  function Fail<T>(code: int): Result<T> {
    Err(ThrowError(code))
  }

  /** A runtime error raised by the JavaScript engine rather than by `throwError`
      (reading a property of null, a rejected database write): it has no status code. */
  const RuntimeError: Error := Error(None, "TypeError")

  /** The known codes get pairwise distinct messages, so the message identifies the code. */
  lemma {:induction false} KnownMessagesDistinct(c1: int, c2: int)
    requires IsKnownCode(c1) && IsKnownCode(c2) && c1 != c2
    ensures ThrowError(c1).message != ThrowError(c2).message
  {
    assert MessageFor(c1) != MessageFor(c2) by {
      assert "Bad request."[0] == 'B' && "Unauthorized."[0] == 'U' && "Forbidden."[0] == 'F';
      assert "Not found."[0] == 'N' && "Already exists."[0] == 'A' && "Internal server error."[0] == 'I';
    }
  }

  /** The error object a route hands to `handleError`, which updates it in place. */
  class ErrorObject {
    var statusCode: Option<int>
    var message: string

    constructor (e: Error)
      ensures statusCode == e.statusCode && message == e.message
    {
      statusCode := e.statusCode;
      message := e.message;
    }

    /** `handleError(err)`: an existing status code is kept, otherwise it becomes 500;
        the message is left alone. */
    method HandleError()
      modifies this
      ensures statusCode == if old(statusCode).Some? then old(statusCode) else Some(500)
      ensures message == old(message)
    {
      if statusCode.None? {
        statusCode := Some(500);
      }
    }
  }

  /** A JavaScript value, as far as truthiness is concerned. */
  datatype JsValue = Undefined | Null | Bool(b: bool) | Num(n: int) | NaN | Str(s: string) | Object

  /** JavaScript's falsy values (numbers are modelled as integers, so -0 is 0). */
  predicate Falsy(v: JsValue) {
    v.Undefined? || v.Null? || v == Bool(false) || v == Num(0) || v.NaN? || v == Str("")
  }

  /** `validateFields(fields)`: walks the list and throws 400 at the first falsy field. */
  method ValidateFields(fields: seq<JsValue>) returns (r: Result<()>)
    ensures r.Err? <==> exists i :: 0 <= i < |fields| && Falsy(fields[i])
    ensures r.Err? ==> r == Fail(400)
  {
    for i := 0 to |fields|
      invariant forall j :: 0 <= j < i ==> !Falsy(fields[j])
    {
      if Falsy(fields[i]) {
        return Fail(400);
      }
    }
    return Ok(());
  }
}
