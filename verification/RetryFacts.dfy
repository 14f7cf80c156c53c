/** Which failures are sent again and how a request's attempts end, said of the attempts and of the step's own
    retry block (engine/retry.go, engine/errors.go shouldRetry). */
module RetryFacts {
  import opened JsonString
  import opened Retry
  import opened RetryRules

  // ---------- Which failures are sent again ----------

  /** The rule names the failure: by its status, by its gRPC status, by its category, or by the category of the status
      that an error in a response's body was given. */
  predicate Hits(rule: Rule, a: Attempt, category: Category) {
    match rule
    case Status(code) => a.failureStatus != 0 && code == a.failureStatus
    case Grpc(grpc) => a.grpc == Some(grpc)
    case Named(c) => c == category || (category == ResponseError && StatusIs(c, a.failureStatus))
    case Unmatched => false
  }

  /** The category a status from 400 on is of. */
  predicate StatusIs(c: Category, status: int) {
    && status >= 400
    && match c
       case Auth => status in [401, 403]
       case Transient => status in [429, 502, 503, 504]
       case Server => status >= 500 && status !in [502, 503, 504]
       case Client => status < 500 && status !in [401, 403, 429]
       case _ => false
  }

  lemma StatusCategoryIs(c: Category, status: int)
    ensures StatusCategory(status) == Some(c) <==> StatusIs(c, status)
    ensures StatusCategory(status) == None <==> status < 400
  {
  }

  predicate HitsAny(rules: seq<Rule>, a: Attempt, category: Category) {
    exists i :: 0 <= i < |rules| && Hits(rules[i], a, category)
  }

  /** Without rules of its own a block sends again after transient failures, timeouts and server errors. An error in a
      body that was given a status counts as that status does. */
  predicate IsPassing(a: Attempt, category: Category) {
    if category == ResponseError && a.failureStatus >= 400 then
      a.failureStatus == 429 || a.failureStatus >= 500
    else category in {Transient, TimedOut, Server}
  }

  lemma HitsMeans(rule: Rule, a: Attempt, category: Category)
    ensures Matches(rule, FailureOf(a, category)) <==> Hits(rule, a, category)
  {
    if rule.Named? {
      StatusCategoryIs(rule.category, a.failureStatus);
    }
  }

  lemma HitsAnyMeans(rules: seq<Rule>, a: Attempt, category: Category)
    ensures MatchesAny(rules, FailureOf(a, category)) <==> HitsAny(rules, a, category)
  {
    forall i | 0 <= i < |rules| ensures Matches(rules[i], FailureOf(a, category)) <==> Hits(rules[i], a, category) {
      HitsMeans(rules[i], a, category);
    }
  }

  /** A failure is sent again within the block's limit, unless a fail-on rule names it, where a rule of the block names
      it or, in a block without rules, where it may pass. */
  lemma SentAgainIff(a: Attempt, category: Category, policy: Policy, attempt: int)
    ensures ShouldRetry(FailureOf(a, category), policy, attempt) <==>
      attempt <= policy.max && !HitsAny(policy.failOn, a, category)
      && if policy.on == [] then IsPassing(a, category) else HitsAny(policy.on, a, category)
  {
    hide MatchesAny, HitsAny;
    HitsAnyMeans(policy.failOn, a, category);
    HitsAnyMeans(policy.on, a, category);
    var f := FailureOf(a, category);
    assert f.category == category && f.status == a.failureStatus;
  }

  /** What a result is a failure for: its error, its status, or an error in its body, in that order. */
  predicate FailedFor(a: Attempt, category: Category) {
    if a.error.Some? then category == a.error.value
    else if a.status >= 400 then StatusIs(category, a.status)
    else a.bodyError && category == ResponseError
  }

  lemma ClassifyIs(a: Attempt, category: Category)
    ensures Classify(a) == Some(category) <==> FailedFor(a, category)
  {
    StatusCategoryIs(category, a.status);
    if StatusCategory(a.status).Some? {
      StatusCategoryIs(StatusCategory(a.status).value, a.status);
    }
  }

  // ---------- Which failures of which step ----------

  /** What the step expects of this attempt is not that it fails, or it was turned away by a rate limit that the step
      does not expect. */
  predicate MayFail(step: Step, a: Attempt) {
    !step.expectsFailure || (a.responded && a.failureStatus == 429 && !step.expected(a.failureStatus, a.grpc))
  }

  /** After attempt k of a step, counted from 1, its failure for a category is one its retries cover: by the block the
      step wrote or, where it wrote none or expects to fail, by at most three more tries after a rate limit. */
  predicate Covers(step: Step, a: Attempt, category: Category, k: int) {
    && MayFail(step, a) && FailedFor(a, category)
    && if step.expectsFailure || step.retry == None then
         k <= 3 && a.failureStatus == 429 && (step.expectsFailure ==> step.retry == None || step.retry.value.max != 0)
       else
         var block := step.retry.value;
         && k <= block.max && !HitsAny(block.failOn, a, category)
         && if block.on == [] then IsPassing(a, category) else HitsAny(block.on, a, category)
  }

  lemma RateLimitHits(a: Attempt, category: Category)
    ensures HitsAny([Status(429)], a, category) <==> a.failureStatus == 429
    ensures !HitsAny([], a, category)
  {
    if a.failureStatus == 429 {
      assert Hits([Status(429)][0], a, category);
    }
  }

  /** A step's block and the failures it is for cover exactly these. */
  lemma StepIsSentAgainIff(step: Step, a: Attempt, category: Category, k: int)
    ensures PolicyOf(step).0.Some? && FailedOf(step)(a) == Some(category)
        && ShouldRetry(FailureOf(a, category), PolicyOf(step).0.value, k)
      <==> Covers(step, a, category, k)
  {
    hide ShouldRetry, HitsAny, IsPassing;
    ClassifyIs(a, category);
    RateLimitHits(a, category);
    if PolicyOf(step).0.Some? {
      SentAgainIff(a, category, PolicyOf(step).0.value, k);
    }
  }

  /** Whether it was the step's own block that was asked. */
  lemma OwnBlockIff(step: Step)
    ensures PolicyOf(step).0 == None <==> step.expectsFailure && step.retry.Some? && step.retry.value.max == 0
    ensures PolicyOf(step).1 <==> !step.expectsFailure && step.retry.Some?
  {
  }

  // ---------- How the attempts end ----------

  /** Attempt k, counted from 0, failed in a way the policy sends again; the server did not ask to wait for more than a
      minute, and the run went on until the next. */
  ghost predicate Followed(c: Course, policy: Policy, failed: Attempt -> Option<Category>, k: nat) {
    var a := c.attempts(k);
    && failed(a).Some? && ShouldRetry(FailureOf(a, failed(a).value), policy, k + 1)
    && (a.responded && a.asked.Some? ==> a.asked.value <= 60_000)
    && !c.before(k + 1) && !c.during(k + 1)
  }

  /** Why attempt n, the last, was the last, what the result then says, and how many retries it counts. */
  ghost predicate LastBecause(c: Course, policy: Policy, written: bool, failed: Attempt -> Option<Category>, n: nat,
                              r: Retried)
    requires n > 0
  {
    var a := c.attempts(n - 1);
    match failed(a)
    case None => !r.cancelled && r.why == None && r.retryCount == n - 1
    case Some(category) =>
      if n > policy.max then !r.cancelled && r.why == Some(Class(category, GaveUp, policy.max)) && r.retryCount == n - 1
      else if c.before(n) then r.cancelled && r.why == Some(Class(TimedOut, GaveUp, n)) && r.retryCount == n - 1
      else if !ShouldRetry(FailureOf(a, category), policy, n) then
        && !r.cancelled && r.retryCount == n - 1
        && r.why == Some(Class(category, if written then FailedFast else GaveUp, n - 1))
      else if a.responded && a.asked.Some? && a.asked.value > 60_000 then
        !r.cancelled && r.retryCount == n - 1 && r.why == Some(Class(category, FailedFast, n - 1))
      else c.during(n) && r.cancelled && r.why == Some(Class(TimedOut, GaveUp, n)) && r.retryCount == n
  }

  /** Every attempt but the last was followed, the result is the last's, and it tells why no other came and what each
      retry was for. */
  lemma EndsBecause(c: Course, policy: Policy, written: bool, failed: Attempt -> Option<Category>, r: Retried,
                    sent: nat)
    requires sent > 0 && (forall k: nat :: k < sent - 1 ==> GoesOn(c, policy, failed, k))
      && !GoesOn(c, policy, failed, sent - 1)
    requires r.retryCount == if Retryable(c, policy, failed, sent - 1) then sent else sent - 1
    requires |r.retriedOn| == r.retryCount && AreCategories(c, failed, r.retriedOn)
    requires EndsSo(c, policy, written, failed, sent, r)
    ensures forall k: nat :: k < sent - 1 ==> Followed(c, policy, failed, k)
    ensures r.attempt == c.attempts(sent - 1) && LastBecause(c, policy, written, failed, sent, r)
    ensures forall k: nat :: k < r.retryCount ==> failed(c.attempts(k)) == Some(r.retriedOn[k])
  {
    forall k: nat | k < sent - 1 ensures Followed(c, policy, failed, k) {
      assert GoesOn(c, policy, failed, k);
    }
  }
}
