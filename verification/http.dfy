/** What a hook gets back from `fetch`, with the network itself abstracted
    away: either the request rejected, or a response with a status code and a
    body that `response.json()` either decoded or failed to decode. */
module Http {

  /** The result of `response.json()`. */
  datatype Body<T> = Parsed(value: T) | Malformed(message: string)

  /** The settled `fetch` promise. */
  datatype Outcome<T> = NetworkError(message: string) | Response(status: int, body: Body<T>)

  /** A decoded JSON value that is or is not an array (`Array.isArray`). */
  datatype Shape<T> = ArrayOf(items: seq<T>) | NotArray

  /** `response.ok`: a status in the range 200-299. */
  predicate IsOk(status: int) {
    200 <= status <= 299
  }

  /** An ok response whose body decoded. */
  predicate Delivered<T>(o: Outcome<T>) {
    o.Response? && IsOk(o.status) && o.body.Parsed?
  }

  /** An ok response whose body did not decode. */
  predicate OkButMalformed<T>(o: Outcome<T>) {
    o.Response? && IsOk(o.status) && o.body.Malformed?
  }

  /** 202 Accepted (section 15.3.3 of RFC 9110): the statistics are still being computed. */
  const Accepted: int := 202

  /** 422 Unprocessable Content (section 15.5.21 of RFC 9110). */
  const UnprocessableContent: int := 422
}
