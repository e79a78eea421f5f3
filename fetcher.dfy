/** `fetchWithRetry` (background.js and its identical copy in popup.js): at most `retries`
    attempts, the first response with an ok status wins, and a doubling delay separates
    consecutive attempts.  The network is an injected sequence of attempt results and the
    timer a returned list of delays. */
module Fetcher {
  import opened Wrappers

  newtype Byte = b: int | 0 <= b < 256

  type Bytes = seq<Byte>

  /** An HTTP response: its status and its body (`response.arrayBuffer()`). */
  datatype Response = Response(status: int, body: Bytes)

  /** `response.ok`: a status in the range 200-299. */
  predicate IsOk(r: Response) {
    200 <= r.status <= 299
  }

  /** What one call of `fetch(url)` produces: it rejects (network error) or resolves with a response. */
  datatype Attempt = Rejected | Answered(response: Response)

  predicate Succeeds(a: Attempt) {
    a.Answered? && IsOk(a.response)
  }

  /** The error an attempt raises inside the retry loop. */
  datatype FetchError = NetworkError | HttpError(status: int)

  function ErrorOf(a: Attempt): FetchError
    requires !Succeeds(a)
  {
    match a
    case Rejected => NetworkError
    case Answered(r) => HttpError(r.status)
  }

  /** How a call of `fetchWithRetry` ends: it returns a response, rethrows the last error,
      or (only when `retries` is 0) falls out of the loop and returns `undefined`. */
  datatype Outcome = Fetched(response: Response) | Exhausted(error: FetchError) | NoAttempt

  /** The default of the `retries` parameter, used by every caller. */
  const DefaultRetries: nat := 3

  /** The base of the backoff, in milliseconds. */
  const BaseDelayMs: nat := 1000

  function Pow2(n: nat): (r: nat)
    ensures r >= 1
  {
    if n == 0 then 1 else 2 * Pow2(n - 1)
  }

  /** The delays slept after the first `n` failed attempts: 1000, 2000, 4000, ... ms. */
  function Backoff(n: nat): (r: seq<nat>)
    ensures |r| == n
    ensures forall j :: 0 <= j < n ==> r[j] == BaseDelayMs * Pow2(j)
  {
    if n == 0 then [] else Backoff(n - 1) + [BaseDelayMs * Pow2(n - 1)]
  }

  /** The index of the first successful attempt among the first `n`, if any. */
  function FirstSuccess(attempts: seq<Attempt>, n: nat): (r: Option<nat>)
    requires n <= |attempts|
    ensures r.Some? ==> r.value < n && Succeeds(attempts[r.value])
    ensures r.Some? ==> forall j :: 0 <= j < r.value ==> !Succeeds(attempts[j])
    ensures r.None? ==> forall j :: 0 <= j < n ==> !Succeeds(attempts[j])
  {
    if n == 0 then None
    else
      var earlier := FirstSuccess(attempts, n - 1);
      if earlier.Some? then earlier
      else if Succeeds(attempts[n - 1]) then Some(n - 1)
      else None
  }

  /** The outcome of `fetchWithRetry` when the successive `fetch` calls produce `attempts`. */
  function Retried(attempts: seq<Attempt>, retries: nat): (r: Outcome)
    requires retries <= |attempts|
    ensures r.NoAttempt? <==> retries == 0
    ensures r.Fetched? ==> exists k :: 0 <= k < retries && Succeeds(attempts[k]) && r.response == attempts[k].response
                                     && forall j :: 0 <= j < k ==> !Succeeds(attempts[j])
    ensures r.Exhausted? ==> (forall j :: 0 <= j < retries ==> !Succeeds(attempts[j]))
                             && r.error == ErrorOf(attempts[retries - 1])
    ensures (exists j :: 0 <= j < retries && Succeeds(attempts[j])) ==> r.Fetched?
  {
    match FirstSuccess(attempts, retries)
    case Some(k) => Fetched(attempts[k].response)
    case None => if retries == 0 then NoAttempt else Exhausted(ErrorOf(attempts[retries - 1]))
  }

  /** The number of `fetch` calls made: every call but the last failed, and the loop stops
      early only on a success. */
  function AttemptsMade(attempts: seq<Attempt>, retries: nat): (r: nat)
    requires retries <= |attempts|
    ensures r <= retries
    ensures r == 0 <==> retries == 0
    ensures forall j :: 0 <= j < r - 1 ==> !Succeeds(attempts[j])
    ensures 0 < r < retries ==> Succeeds(attempts[r - 1])
  {
    match FirstSuccess(attempts, retries)
    case Some(k) => k + 1
    case None => retries
  }

  /** The retry loop.  Returns the outcome, the number of `fetch` calls made and the delays slept. */
  method FetchWithRetry(attempts: seq<Attempt>, retries: nat) returns (outcome: Outcome, made: nat, delays: seq<nat>)
    requires retries <= |attempts|
    ensures outcome == Retried(attempts, retries)
    ensures made == AttemptsMade(attempts, retries)
    ensures made > 0 ==> delays == Backoff(made - 1)
    ensures made == 0 ==> delays == []
  {
    delays := [];
    var i := 0;
    while i < retries
      invariant i <= retries
      invariant retries == 0 || i < retries
      invariant forall j :: 0 <= j < i ==> !Succeeds(attempts[j])
      invariant FirstSuccess(attempts, i).None?
      invariant delays == Backoff(i)
    {
      var a := attempts[i];
      if Succeeds(a) {
        FirstSuccessAt(attempts, i, retries);
        return Fetched(a.response), i + 1, delays;
      }
      if i == retries - 1 {
        return Exhausted(ErrorOf(a)), i + 1, delays;
      }
      delays := delays + [BaseDelayMs * Pow2(i)];
      i := i + 1;
    }
    return NoAttempt, 0, [];
  }

  /** The first success found at `i` stays first among any longer prefix. */
  lemma {:induction false} FirstSuccessAt(attempts: seq<Attempt>, i: nat, n: nat)
    requires i < n <= |attempts|
    requires Succeeds(attempts[i]) && forall j :: 0 <= j < i ==> !Succeeds(attempts[j])
    ensures FirstSuccess(attempts, n) == Some(i)
  {
    if n > i + 1 {
      FirstSuccessAt(attempts, i, n - 1);
    }
  }
}
