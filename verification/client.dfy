/**
 * The retry and error policy of the API client (src/api/client.ts). Transport, timers and
 * clocks are parameters: each attempt's outcome is given by a function of its number.
 */
module ApiClient {
  import opened Wrappers

  /**
   * The status check every response passes through: only 2xx succeeds, and no accepted
   * status is one the retry rule would retry.
   */
  predicate IsSuccessStatus(status: int)
    ensures IsSuccessStatus(status) ==> status < 500 && status != 408 && status != 429
  {
    200 <= status < 300
  }

  /** A response body: an object (held as its `JSON.stringify` text) or anything else. */
  datatype Body = ObjectBody(json: string) | OtherBody

  datatype Response = Response(status: int, body: Body)

  /** A thrown error: an Axios error (with or without a response and code), or any other value. */
  datatype Failure =
    | AxiosFailure(response: Option<Response>, code: Option<string>, message: string)
    | OtherFailure(errorMessage: Option<string>)

  /** The outcome of one attempt. */
  datatype Attempt = Succeeded | Failed(failure: Failure)

  /** The network error codes worth retrying. */
  const RetryCodes: seq<string> := ["ECONNRESET", "ETIMEDOUT", "ECONNABORTED", "ENETUNREACH", "ENOTFOUND"]

  /**
   * `shouldRetry(error)` for an Axios error: an error with neither a response nor a code
   * is never retried, and neither is one carrying an accepted status.
   */
  predicate ShouldRetry(f: Failure)
    requires f.AxiosFailure?
    ensures ShouldRetry(f) ==> f.response.Some? || f.code.Some?
    ensures f.response.Some? && IsSuccessStatus(f.response.value.status) ==> !ShouldRetry(f)
  {
    match f.response
    case Some(r) => r.status >= 500 || r.status == 429 || r.status == 408
    case None => f.code.Some? && f.code.value in RetryCodes
  }

  /** The classification, by case. */
  lemma ShouldRetryCases(f: Failure)
    requires f.AxiosFailure?
    ensures f.response.Some? ==>
      (ShouldRetry(f) <==> f.response.value.status >= 500 || f.response.value.status in {408, 429})
    ensures f.response.None? && f.code.None? ==> !ShouldRetry(f)
    ensures f.response.None? && f.code.Some? ==>
      (ShouldRetry(f) <==> f.code.value in {"ECONNRESET", "ETIMEDOUT", "ECONNABORTED", "ENETUNREACH", "ENOTFOUND"})
    ensures forall c :: ShouldRetry(f.(code := c)) == (if f.response.Some? then ShouldRetry(f) else c.Some? && c.value in RetryCodes)
  {
  }

  /**
   * The outcome of one request that got a response: `validateStatus` accepts a 2xx status;
   * any other status makes axios reject with an error carrying the response.
   */
  function ResponseOutcome(r: Response, code: Option<string>, message: string): (a: Attempt)
    ensures a.Succeeded? <==> IsSuccessStatus(r.status)
    ensures a.Failed? ==> a.failure.AxiosFailure? && a.failure.response == Some(r)
  {
    if IsSuccessStatus(r.status) then Succeeded else Failed(AxiosFailure(Some(r), code, message))
  }

  /**
   * A rejected status is retried exactly for server errors, 408 and 429: a 3xx or any other
   * 4xx fails at once, whatever code axios attaches.
   */
  lemma RejectedStatusRetry(r: Response, code: Option<string>, message: string)
    requires ResponseOutcome(r, code, message).Failed?
    ensures Retryable(ResponseOutcome(r, code, message).failure) <==>
      r.status >= 500 || r.status == 408 || r.status == 429
    ensures 300 <= r.status < 500 && r.status != 408 && r.status != 429 ==>
      !Retryable(ResponseOutcome(r, code, message).failure)
  {
  }

  /** A failure the retry loop continues after: an Axios error it classifies as retryable. */
  predicate Retryable(f: Failure) {
    f.AxiosFailure? && ShouldRetry(f)
  }

  const DefaultMaxRetries: nat := 3

  /**
   * `executeWithRetry(operation, retryCount)`: the result is how many attempts were made and
   * the outcome of the last one.
   */
  function Run(outcome: nat -> Attempt, maxRetries: nat, retryCount: nat): (r: (nat, Attempt))
    requires retryCount <= maxRetries
    ensures retryCount < r.0 <= maxRetries + 1
    ensures r.1 == outcome(r.0 - 1)
    decreases maxRetries - retryCount
  {
    match outcome(retryCount)
    case Succeeded => (retryCount + 1, Succeeded)
    case Failed(f) =>
      if retryCount < maxRetries && Retryable(f) then Run(outcome, maxRetries, retryCount + 1)
      else (retryCount + 1, Failed(f))
  }

  /**
   * The attempt bound and the stopping rule: every attempt before the last failed in a
   * retryable way, and the last one succeeded, failed in a non-retryable way, or used up the
   * budget of `maxRetries + 1` attempts.
   */
  lemma {:induction false} RunStops(outcome: nat -> Attempt, maxRetries: nat, retryCount: nat)
    requires retryCount <= maxRetries
    ensures var (n, last) := Run(outcome, maxRetries, retryCount);
      && (forall k :: retryCount <= k < n - 1 ==> outcome(k).Failed? && Retryable(outcome(k).failure))
      && (last.Succeeded? || !Retryable(last.failure) || n == maxRetries + 1)
    decreases maxRetries - retryCount
  {
    match outcome(retryCount)
    case Succeeded =>
    case Failed(f) =>
      if retryCount < maxRetries && Retryable(f) {
        RunStops(outcome, maxRetries, retryCount + 1);
      }
  }

  /** With the default settings a request is tried at most four times. */
  lemma DefaultAttemptBound(outcome: nat -> Attempt)
    ensures Run(outcome, DefaultMaxRetries, 0).0 <= 4
  {
  }

  /** The first success ends the loop with that success. */
  lemma FirstSuccessReturns(outcome: nat -> Attempt, maxRetries: nat, k: nat)
    requires k <= maxRetries && outcome(k).Succeeded?
    requires forall j :: 0 <= j < k ==> outcome(j).Failed? && Retryable(outcome(j).failure)
    ensures Run(outcome, maxRetries, 0) == (k + 1, Succeeded)
  {
    FirstSuccessFrom(outcome, maxRetries, 0, k);
  }

  lemma {:induction false} FirstSuccessFrom(outcome: nat -> Attempt, maxRetries: nat, from: nat, k: nat)
    requires from <= k <= maxRetries && outcome(k).Succeeded?
    requires forall j :: from <= j < k ==> outcome(j).Failed? && Retryable(outcome(j).failure)
    ensures Run(outcome, maxRetries, from) == (k + 1, Succeeded)
    decreases k - from
  {
    if from < k {
      FirstSuccessFrom(outcome, maxRetries, from + 1, k);
    }
  }

  /** A non-retryable failure, or any non-Axios error, is rethrown at once. */
  lemma NonRetryableStops(outcome: nat -> Attempt, maxRetries: nat, retryCount: nat)
    requires retryCount <= maxRetries
    requires outcome(retryCount).Failed? && !Retryable(outcome(retryCount).failure)
    ensures Run(outcome, maxRetries, retryCount) == (retryCount + 1, outcome(retryCount))
  {
  }

  /** The retry loop as a loop: the same attempts and the same final outcome. */
  method ExecuteWithRetry(outcome: nat -> Attempt, maxRetries: nat) returns (attempts: nat, last: Attempt)
    ensures (attempts, last) == Run(outcome, maxRetries, 0)
    ensures 1 <= attempts <= maxRetries + 1
  {
    var retryCount := 0;
    while true
      invariant retryCount <= maxRetries
      invariant Run(outcome, maxRetries, retryCount) == Run(outcome, maxRetries, 0)
      decreases maxRetries - retryCount
    {
      var a := outcome(retryCount);
      if a.Succeeded? || retryCount >= maxRetries || !Retryable(a.failure) {
        return retryCount + 1, a;
      }
      retryCount := retryCount + 1;
    }
  }

  const MinRequestInterval: int := 1000

  /** `ensureRequestInterval`: how long to wait, given the time since the last request. */
  function Wait(elapsed: int): (w: int)
    ensures w >= 0
    ensures elapsed + w >= MinRequestInterval
    ensures w == 0 || elapsed + w == MinRequestInterval
  {
    if elapsed < MinRequestInterval then MinRequestInterval - elapsed else 0
  }

  /** On a clock that does not run backwards, a wait lies in (0, 1000], and there is one exactly when less than a second has passed. */
  lemma WaitBounds(elapsed: int)
    requires elapsed >= 0
    ensures Wait(elapsed) > 0 <==> elapsed < MinRequestInterval
    ensures Wait(elapsed) <= MinRequestInterval
  {
  }

  /** `ConfigAPIError(message, statusCode, endpoint)` */
  datatype ApiError = ApiError(message: string, statusCode: Option<int>, endpoint: string)

  /** The detail after the colon: a stringified object body, else the error's own message. */
  function Detail(f: Failure): string {
    match f
    case AxiosFailure(resp, _, msg) =>
      if resp.Some? && resp.value.body.ObjectBody? then resp.value.body.json else msg
    case OtherFailure(m) => m.GetOr("Unknown error")
  }

  /** `handleApiError(error, message, endpoint)` */
  function HandleApiError(f: Failure, message: string, endpoint: string): (e: ApiError)
    ensures e.message == message + ": " + Detail(f)
    ensures e.endpoint == endpoint
    ensures e.statusCode == (if f.AxiosFailure? && f.response.Some? then Some(f.response.value.status) else None)
  {
    var status := if f.AxiosFailure? && f.response.Some? then Some(f.response.value.status) else None;
    ApiError(message + ": " + Detail(f), status, endpoint)
  }

  /** The caller's message and the detail can be read back off the error message. */
  lemma ErrorMessageParts(f: Failure, message: string, endpoint: string)
    ensures var m := HandleApiError(f, message, endpoint).message;
      |m| >= |message| + 2 && m[..|message|] == message && m[|message|..|message| + 2] == ": "
      && m[|message| + 2..] == Detail(f)
  {
  }
}
