/**
 * The tracker's choice of HTTP response for one request, given the
 * rate limiter's verdict on the request's source.
 */
module HttpResponse {

  datatype Option<T> = None | Some(value: T)

  /** The value of the `server` header (`KAPUA_SERVER_STRING`). */
  const KAPUA_SERVER_STRING: string := "kapua-tracker v0.0.1"

  /** The `retry-after` value sent with a denial, in seconds. */
  const RETRY_AFTER: string := "60"

  /** The only two statuses the tracker answers with. */
  datatype Status = Ok | TooManyRequests
  {
    /** The numeric HTTP status code. */
    function Code(): nat
    {
      match this
      case Ok => 200
      case TooManyRequests => 429
    }
  }

  /** The parts of a parsed request the response depends on. */
  datatype Request = Request(version: nat, keepAlive: bool)

  /** A response as the tracker builds it before writing it out. */
  datatype Response = Response(
    status: Status,
    version: nat,
    server: string,
    contentType: string,
    retryAfter: Option<string>,
    keepAlive: bool,
    body: string,
    contentLength: nat)

  /**
   * The response to `req`: a denial is a 429 carrying `retry-after`, an
   * admission a 200 without it; both are empty text/plain bodies that echo
   * the request's version and keep-alive preference.
   */
  function Respond(admitted: bool, req: Request): (r: Response)
    ensures r.status == (if admitted then Ok else TooManyRequests)
    ensures r.status.Code() == (if admitted then 200 else 429)
    ensures r.retryAfter.Some? <==> !admitted
    ensures !admitted ==> r.retryAfter == Some("60")
    ensures r.server == "kapua-tracker v0.0.1"
    ensures r.contentType == "text/plain"
    ensures r.body == "" && r.contentLength == |r.body|
    ensures r.keepAlive == req.keepAlive && r.version == req.version
  {
    if !admitted then
      Response(TooManyRequests, req.version, KAPUA_SERVER_STRING, "text/plain",
               Some(RETRY_AFTER), req.keepAlive, "", 0)
    else
      Response(Ok, req.version, KAPUA_SERVER_STRING, "text/plain",
               None, req.keepAlive, "", 0)
  }

  /** Admitted and denied responses differ in status and in `retry-after`, and in nothing else. */
  lemma VerdictChangesOnlyStatusAndRetryAfter(req: Request)
    ensures Respond(true, req).(status := TooManyRequests, retryAfter := Some(RETRY_AFTER))
            == Respond(false, req)
  {
  }
}
