/**
 * The upstream employee directory as the service sees it through its HTTP
 * client: a request goes out, and either a response comes back or the
 * client raises one of the exceptions the service distinguishes.
 */
module Upstream {
  import opened Wrappers

  datatype HttpMethod = Get | Post | Delete

  datatype Request = Request(verb: HttpMethod, url: string)

  /**
   * The JSON object the upstream answers with. A property that is absent
   * reads as null (`None`).
   */
  datatype Envelope<D> = Envelope(status: Option<string>, data: Option<D>, message: Option<string>)

  /**
   * The outcome of one exchange. `Responded` is a response the client's
   * error handler let through (any status outside 4xx and 5xx), with its
   * body or null. The other three are the exceptions: 429, 404, and every
   * other client failure (another 4xx or 5xx status, an I/O error, a body
   * that cannot be read).
   */
  datatype Exchange<D> =
    | Responded(code: int, body: Option<Envelope<D>>)
    | TooManyRequests
    | NotFound
    | Failed

  /**
   * The client's default error handler raises on every 4xx and 5xx status,
   * so a `Responded` outcome never carries one of those codes.
   */
  predicate Reachable<D>(x: Exchange<D>) {
    x.Responded? ==> !(400 <= x.code < 600)
  }

  /** HttpStatusCode.is2xxSuccessful. */
  predicate Is2xx(code: int) {
    200 <= code < 300
  }
}
