/** What a failure is, and which failures are sent again (engine/errors.go, engine/retry.go retryPolicy). */
module RetryRules {
  import opened JsonString

  datatype Category = Transient | Client | Auth | Server | Adapter | Network | TimedOut | ResponseError

  /** A rule of a retry block, read: a status code, a gRPC status, or a category. Unmatched is any other text. */
  datatype Rule = Status(code: int) | Grpc(grpc: nat) | Named(category: Category) | Unmatched

  datatype Policy = Policy(max: int, on: seq<Rule>, failOn: seq<Rule>)

  /** A failed attempt as the rules read it; status is 0 without a response. */
  datatype Failure = Failure(category: Category, status: int, grpc: Option<nat>)

  const TOO_MANY_REQUESTS := 429

  /** The category of an error status. */
  function StatusCategory(code: int): (r: Option<Category>)
    ensures r == None <==> code < 400
    ensures r == Some(Transient) <==> code == 429 || 502 <= code <= 504
    ensures r == Some(Auth) <==> code == 401 || code == 403
    ensures r == Some(Server) <==> code >= 500 && !(502 <= code <= 504)
    ensures r.Some? ==> r.value in {Transient, Auth, Server, Client}
  {
    if code < 400 then None
    else if code == 401 || code == 403 then Some(Auth)
    else if code == 429 then Some(Transient)
    else if code == 500 || code == 501 then Some(Server)
    else if code == 502 || code == 503 || code == 504 then Some(Transient)
    else if code < 500 then Some(Client)
    else Some(Server)
  }

  predicate DefaultRetryable(c: Category) {
    c == Transient || c == TimedOut || c == Server
  }

  /** The category of the status that an error in a 200's body was given. */
  function BodyStatusCategory(f: Failure): Option<Category> {
    if f.category != ResponseError then None else StatusCategory(f.status)
  }

  predicate Matches(rule: Rule, f: Failure) {
    match rule
    case Status(code) => f.status != 0 && code == f.status
    case Grpc(grpc) => f.grpc == Some(grpc)
    case Named(category) => BodyStatusCategory(f) == Some(category) || category == f.category
    case Unmatched => false
  }

  predicate MatchesAny(rules: seq<Rule>, f: Failure) {
    exists i :: 0 <= i < |rules| && Matches(rules[i], f)
  }

  predicate ShouldRetry(f: Failure, policy: Policy, attempt: int) {
    && attempt <= policy.max
    && !MatchesAny(policy.failOn, f)
    && if |policy.on| > 0 then MatchesAny(policy.on, f)
       else DefaultRetryable(if BodyStatusCategory(f).Some? then BodyStatusCategory(f).value else f.category)
  }

  // ---------- An attempt ----------

  /** What came of sending a request: an error of some category, or a response; the status its failure
      stands for; and how long its response asked to wait, in milliseconds. */
  datatype Attempt = Attempt(error: Option<Category>, responded: bool, status: int, bodyError: bool,
                             failureStatus: int, grpc: Option<nat>, asked: Option<nat>)

  function Classify(a: Attempt): Option<Category> {
    if a.error.Some? then a.error
    else if StatusCategory(a.status).Some? then StatusCategory(a.status)
    else if a.bodyError then Some(ResponseError)
    else None
  }

  function FailureOf(a: Attempt, category: Category): Failure {
    Failure(category, a.failureStatus, a.grpc)
  }

  // ---------- The policy of a step ----------

  /** What a retry needs of a step: its retry block, and whether it expects a failure and which statuses. */
  datatype Step = Step(retry: Option<Policy>, expectsFailure: bool, expected: (int, Option<nat>) -> bool)

  const RATE_LIMIT := Policy(3, [Status(TOO_MANY_REQUESTS)], [])
  const CLEANUP := Policy(3, [], [])

  /** The block a step runs under, if any, and whether the step wrote it. */
  function PolicyOf(step: Step): (Option<Policy>, bool) {
    if step.expectsFailure then
      if step.retry.Some? && step.retry.value.max == 0 then (None, false) else (Some(RATE_LIMIT), false)
    else if step.retry == None then (Some(RATE_LIMIT), false)
    else (step.retry, true)
  }

  /** Why a step's result is a failure that may be sent again. */
  function FailedOf(step: Step): Attempt -> Option<Category> {
    (a: Attempt) => if step.expectsFailure
      && (!a.responded || a.failureStatus != TOO_MANY_REQUESTS || step.expected(a.failureStatus, a.grpc))
         then None
         else Classify(a)
  }

  /** A step without a retry block, and a test that expects a failure whatever block it has, sends again
      only what a rate limit turned away; the test not even that when a rate limit is what it expects. */
  lemma OnlyRateLimits(step: Step, a: Attempt, attempt: int)
    requires step.retry == None || step.expectsFailure
    requires PolicyOf(step).0.Some? && FailedOf(step)(a).Some?
    requires ShouldRetry(FailureOf(a, FailedOf(step)(a).value), PolicyOf(step).0.value, attempt)
    ensures a.failureStatus == TOO_MANY_REQUESTS && attempt <= 3 && !PolicyOf(step).1
    ensures step.expectsFailure ==> a.responded && !step.expected(a.failureStatus, a.grpc)
  {
    assert RATE_LIMIT.on == [Status(TOO_MANY_REQUESTS)];
  }

  /** A cleanup is sent again after a timeout, a transient failure or a server error, and after nothing else. */
  lemma CleanupRetries(a: Attempt, attempt: int)
    requires Classify(a).Some?
    ensures ShouldRetry(FailureOf(a, Classify(a).value), CLEANUP, attempt) <==>
            attempt <= 3 && (Classify(a).value in {Transient, TimedOut, Server}
                             || (Classify(a).value == ResponseError
                               && (a.failureStatus == 429 || a.failureStatus >= 500)))
  {
    var f := FailureOf(a, Classify(a).value);
    assert !MatchesAny(CLEANUP.failOn, f);
    assert BodyStatusCategory(f).Some?
      ==> f.category == ResponseError && BodyStatusCategory(f) == StatusCategory(a.failureStatus);
  }
}
