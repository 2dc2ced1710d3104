/**
 * The client's REST calls (client/src/lib/api.ts): the request each call
 * builds and how the outcome of `fetch` is turned into a result or a thrown
 * error. The network is not modelled; the outcome of `fetch` and of reading
 * the response body is an input.
 */
module Api {
  import opened Types

  const Cancelled: string := "Detection cancelled"
  const NetworkFailure: string := "Network error during detection"
  const FailedPrefix: string := "Detection failed: "

  /** Default `confidence` of `detectImage` and `detectBase64`. */
  const DefaultConfidence: real := 0.5

  /** A file the user picked: its name, MIME type and bytes. */
  datatype File = File(name: string, mimeType: string, bytes: seq<bv8>)

  /** What `fetch` rejected with. */
  datatype FetchFailure = AbortError | OtherFailure(description: string)

  /** `new DetectionError(message, statusCode?, cause?)`. */
  datatype DetectionError = DetectionError(message: string, statusCode: Option<int>, cause: Option<FetchFailure>)

  /** How reading the response body as JSON ends. */
  datatype Body =
    | Parsed(result: DetectionResult)
    | Unparseable(message: string)   // the body is not JSON: a SyntaxError
    | ReadAborted(message: string)   // the signal fired while the body was read: a DOMException "AbortError"

  /** What the network did with one request. */
  datatype FetchOutcome =
    | Responded(ok: bool, status: int, statusText: string, body: Body)
    | Rejected(failure: FetchFailure)

  /** What the caller's `catch` receives. */
  datatype Thrown = Raised(error: DetectionError) | PlainError(name: string, message: string)

  datatype Settled = Resolved(result: DetectionResult) | Threw(thrown: Thrown)

  /** The payload of a request. */
  datatype Payload = FormFile(file: File) | JsonImage(image: string, confidence: real)

  datatype Request = Request(path: string, confidenceQuery: Option<real>, payload: Payload)

  function ConfidenceOrDefault(c: Option<real>): real {
    match c
    case None => DefaultConfidence
    case Some(v) => v
  }

  /** `detectImage`: the file goes in a form, the confidence in the query string. */
  function ImageRequest(file: File, confidence: Option<real>): (req: Request)
    ensures req.confidenceQuery == Some(ConfidenceOrDefault(confidence))
    ensures req.payload == FormFile(file)
  {
    Request("/api/detect", Some(ConfidenceOrDefault(confidence)), FormFile(file))
  }

  /** `detectBase64`: image and confidence both go in the JSON body. */
  function Base64Request(image: string, confidence: Option<real>): (req: Request)
    ensures req.confidenceQuery.None?
    ensures req.payload == JsonImage(image, ConfidenceOrDefault(confidence))
  {
    Request("/api/detect/base64", None, JsonImage(image, ConfidenceOrDefault(confidence)))
  }

  /**
   * How `detectImage` and `detectBase64` settle, as written: both share this
   * `try`/`catch`. Because `response.json()` is returned without `await`, a
   * failure while reading the body escapes the `catch` as it is.
   */
  function Settle(o: FetchOutcome): (s: Settled)
    // resolves exactly when the response is OK and its body parses, with that body
    ensures s.Resolved? <==> o.Responded? && o.ok && o.body.Parsed?
    ensures s.Resolved? ==> s.result == o.body.result
    // a status code is attached exactly to the error of a non-OK response: that
    // response's status, in an error thrown as it was built, without a cause
    ensures (s.Threw? && s.thrown.Raised? && s.thrown.error.statusCode.Some?) <==> (o.Responded? && !o.ok)
    ensures o.Responded? && !o.ok ==>
      s == Threw(Raised(DetectionError(FailedPrefix + o.statusText, Some(o.status), None)))
    // a fetch rejection is wrapped, keeping the original error as the cause
    ensures o.Rejected? ==>
      s.Threw? && s.thrown.Raised? && s.thrown.error.cause == Some(o.failure) &&
      s.thrown.error.statusCode.None? &&
      s.thrown.error.message == (if o.failure == AbortError then Cancelled else NetworkFailure)
  {
    match o
    case Responded(ok, status, text, body) =>
      if !ok then Threw(Raised(DetectionError(FailedPrefix + text, Some(status), None)))
      else (
        match body
        case Parsed(r) => Resolved(r)
        case Unparseable(m) => Threw(PlainError("SyntaxError", m))
        case ReadAborted(m) => Threw(PlainError("AbortError", m)))
    case Rejected(AbortError) => Threw(Raised(DetectionError(Cancelled, None, Some(AbortError))))
    case Rejected(f) => Threw(Raised(DetectionError(NetworkFailure, None, Some(f))))
  }

  /**
   * How the two calls settle once the body is read with `return await
   * response.json()`: a body failure then reaches the `catch` like a `fetch`
   * failure does.
   */
  function SettleAwaited(o: FetchOutcome): (s: Settled)
    ensures s.Threw? ==> s.thrown.Raised?
    ensures s.Resolved? <==> o.Responded? && o.ok && o.body.Parsed?
    ensures !(o.Responded? && o.ok && !o.body.Parsed?) ==> s == Settle(o)
  {
    match o
    case Responded(true, _, _, ReadAborted(_)) => Threw(Raised(DetectionError(Cancelled, None, Some(AbortError))))
    case Responded(true, _, _, Unparseable(m)) =>
      Threw(Raised(DetectionError(NetworkFailure, None, Some(OtherFailure(m)))))
    case _ => Settle(o)
  }

  /** The request was cut short by its abort signal, before or after the headers arrived. */
  predicate Aborted(o: FetchOutcome) {
    o == Rejected(AbortError) || (o.Responded? && o.ok && o.body.ReadAborted?)
  }
}
