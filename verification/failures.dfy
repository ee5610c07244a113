/**
  The exceptions that travel through the lookup slice, and the outcome of one
  HTTP GET as the web-service client reports it.
 */
module Failures {

  /** An exception, by the .NET class that carries it. */
  datatype Failure =
    /** `ArgumentException(message, paramName)` */
    | InvalidArgument(paramName: string, message: string)
    /** `ArgumentOutOfRangeException(paramName, message)`, a subclass of `ArgumentException` */
    | OutOfRange(paramName: string, message: string)
    /** `HttpRequestException` from `EnsureSuccessStatusCode` on a non-2xx status */
    | RemoteHttpError(statusCode: int)
    /** `TaskCanceledException`: the caller cancelled, or the client's timeout fired */
    | Cancelled
    /** `HttpRequestException` for a DNS, connection or TLS fault */
    | TransportError(message: string)
    /** `JsonException`: the body is not the expected JSON shape */
    | ParseError(message: string)
  {
    /** Caught by `catch (ArgumentException)`, which also catches the out-of-range subclass. */
    predicate IsArgumentException() {
      InvalidArgument? || OutOfRange?
    }

    /** `Exception.Message` of an argument exception: the text, then the parameter name. */
    function Message(): string
      requires IsArgumentException()
    {
      message + " (Parameter '" + paramName + "')"
    }
  }

  /** What one GET through the web-service client comes to. */
  datatype TransportOutcome =
    | Body(text: string)
    | HttpError(statusCode: int)
    | Aborted
    | Fault(message: string)

  /** The exception a failed GET throws. */
  function Raised(t: TransportOutcome): (f: Failure)
    requires !t.Body?
    ensures !f.IsArgumentException()
    ensures t.HttpError? <==> f.RemoteHttpError?
    ensures t.HttpError? ==> f.statusCode == t.statusCode
  {
    match t
    case HttpError(code) => RemoteHttpError(code)
    case Aborted => Cancelled
    case Fault(message) => TransportError(message)
  }
}
