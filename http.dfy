/**
 * What the network gives the scripts: a page fetched with some status, or a
 * request that raises; and what the Flask routes answer.
 */
module Http {

  /**
   * `requests.get(...)` or `session.get(...)`: `Unreachable` when the call
   * (or the name lookup before it) raises, otherwise the status code and
   * the parsed body.
   */
  datatype Fetch<P> = Unreachable | Fetched(status: nat, body: P)

  /** `response.raise_for_status()` raises for a client or server error status. */
  predicate ErrorStatus(status: nat) {
    400 <= status < 600
  }

  /** `jsonify(payload)`, or `jsonify({"error": error}), status`. */
  datatype Response<T> = Success(payload: T) | Failure(status: nat, error: string)

  /** The HTTP status of a response. */
  function Status<T>(r: Response<T>): nat {
    if r.Success? then 200 else r.status
  }
}
