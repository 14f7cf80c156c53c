/** Sending a failed request again (engine/retry.go retryResult). */
module Retry {
  import opened JsonString
  import opened RetryRules

  /** The longest wait a server may ask for, in milliseconds. */
  const MAX_RETRY_AFTER := 60_000

  /** What a step's attempts come to, the first being 0, and when the run is cancelled: before attempt k
      is judged, or during the wait after it. */
  datatype Course = Course(attempts: nat -> Attempt, before: nat -> bool, during: nat -> bool)

  datatype Action = GaveUp | FailedFast

  datatype Class = Class(category: Category, action: Action, retryAttempt: int)

  /** A step's result: its last attempt's, and what is recorded of the others. */
  datatype Retried = Retried(attempt: Attempt, cancelled: bool, why: Option<Class>, retryCount: nat,
    retriedOn: seq<Category>)

  predicate TooLong(a: Attempt) {
    a.responded && a.asked.Some? && a.asked.value > MAX_RETRY_AFTER
  }

  /** Attempt k failed, and in a way that is sent again. */
  predicate Retryable(c: Course, policy: Policy, failed: Attempt -> Option<Category>, k: nat) {
    var a := c.attempts(k);
    && k + 1 <= policy.max && failed(a).Some? && !c.before(k + 1)
    && ShouldRetry(FailureOf(a, failed(a).value), policy, k + 1) && !TooLong(a)
  }

  predicate GoesOn(c: Course, policy: Policy, failed: Attempt -> Option<Category>, k: nat) {
    Retryable(c, policy, failed, k) && !c.during(k + 1)
  }

  /** The categories of the first n attempts. */
  ghost predicate AreCategories(c: Course, failed: Attempt -> Option<Category>, on: seq<Category>) {
    forall k: nat :: k < |on| ==> failed(c.attempts(k)) == Some(on[k])
  }

  /** The last attempt, and why it is the last. */
  ghost predicate EndsSo(c: Course, policy: Policy, written: bool, failed: Attempt -> Option<Category>, sent: nat,
                         r: Retried)
    requires sent > 0
  {
    var a := c.attempts(sent - 1);
    r.attempt == a
    && if failed(a) == None then !r.cancelled && r.why == None
       else if sent > policy.max then !r.cancelled && r.why == Some(Class(failed(a).value, GaveUp, policy.max))
       else if c.before(sent) || r.retryCount == sent then r.cancelled && r.why == Some(Class(TimedOut, GaveUp, sent))
       else
         var category := if written || TooLongLast(a, policy, failed, sent) then FailedFast else GaveUp;
         !r.cancelled && r.why == Some(Class(failed(a).value, category, sent - 1))
  }

  predicate TooLongLast(a: Attempt, policy: Policy, failed: Attempt -> Option<Category>, sent: nat)
    requires failed(a).Some?
  {
    ShouldRetry(FailureOf(a, failed(a).value), policy, sent) && TooLong(a)
  }

  /** Sends until an attempt is not to be followed by another. */
  method RetryResult(c: Course, policy: Policy, written: bool, failed: Attempt -> Option<Category>)
    returns (r: Retried, sent: nat)
    ensures sent > 0 && (forall k: nat :: k < sent - 1 ==> GoesOn(c, policy, failed, k))
      && !GoesOn(c, policy, failed, sent - 1)
    ensures r.retryCount == if Retryable(c, policy, failed, sent - 1) then sent else sent - 1
    ensures |r.retriedOn| == r.retryCount && AreCategories(c, failed, r.retriedOn)
    ensures EndsSo(c, policy, written, failed, sent, r)
  {
    var result := c.attempts(0);
    sent := 1;
    var cls := failed(result);
    if cls == None {
      return Retried(result, false, None, 0, []), 1;
    }
    var refused := if written then FailedFast else GaveUp;
    var retriedOn: seq<Category> := [];
    var attempt: nat := 1;
    while attempt <= policy.max
      invariant sent == attempt && attempt - 1 <= (if policy.max > 0 then policy.max else 0)
      invariant result == c.attempts(sent - 1) && cls == failed(result) && cls.Some?
      invariant forall k: nat :: k < sent - 1 ==> GoesOn(c, policy, failed, k)
      invariant |retriedOn| == attempt - 1 && AreCategories(c, failed, retriedOn)
      decreases policy.max - attempt
    {
      if c.before(attempt) {
        return Retried(result, true, Some(Class(TimedOut, GaveUp, attempt)), attempt - 1, retriedOn), sent;
      }
      if !ShouldRetry(FailureOf(result, cls.value), policy, attempt) {
        return Retried(result, false, Some(Class(cls.value, refused, attempt - 1)), attempt - 1, retriedOn), sent;
      }
      if TooLong(result) {
        return Retried(result, false, Some(Class(cls.value, FailedFast, attempt - 1)), attempt - 1, retriedOn), sent;
      }
      assert Retryable(c, policy, failed, sent - 1);
      retriedOn := retriedOn + [cls.value];
      if c.during(attempt) {
        return Retried(result, true, Some(Class(TimedOut, GaveUp, attempt)), attempt, retriedOn), sent;
      }
      result := c.attempts(sent);
      sent := sent + 1;
      cls := failed(result);
      if cls == None {
        return Retried(result, false, None, attempt, retriedOn), sent;
      }
      attempt := attempt + 1;
    }
    r := Retried(result, false, Some(Class(cls.value, GaveUp, policy.max)), attempt - 1, retriedOn);
  }

  /** What holds however a request's attempts end. */
  ghost predicate Counted(c: Course, policy: Policy, failed: Attempt -> Option<Category>, r: Retried, sent: nat) {
    && |r.retriedOn| == r.retryCount && (r.retryCount > 0 ==> r.retryCount <= policy.max)
    && (sent == r.retryCount + 1 || (sent == r.retryCount > 0 && r.cancelled && c.during(sent)))
    && forall k: nat :: k < r.retryCount ==> RetriedFor(c.attempts(k), policy, failed, k, r.retriedOn[k])
  }

  /** Attempt k failed with the category, which the policy retries. */
  predicate RetriedFor(a: Attempt, policy: Policy, failed: Attempt -> Option<Category>, k: nat, category: Category) {
    failed(a) == Some(category) && ShouldRetry(FailureOf(a, category), policy, k + 1)
  }

  lemma CountsAgree(c: Course, policy: Policy, written: bool, failed: Attempt -> Option<Category>, r: Retried,
                    sent: nat)
    requires sent > 0 && (forall k: nat :: k < sent - 1 ==> GoesOn(c, policy, failed, k))
      && !GoesOn(c, policy, failed, sent - 1)
    requires r.retryCount == if Retryable(c, policy, failed, sent - 1) then sent else sent - 1
    requires |r.retriedOn| == r.retryCount && AreCategories(c, failed, r.retriedOn)
    requires EndsSo(c, policy, written, failed, sent, r)
    ensures Counted(c, policy, failed, r, sent)
  {
    forall k: nat | k < r.retryCount ensures RetriedFor(c.attempts(k), policy, failed, k, r.retriedOn[k]) {
      assert k < sent - 1 ==> GoesOn(c, policy, failed, k);
      assert Retryable(c, policy, failed, k) && failed(c.attempts(k)) == Some(r.retriedOn[k]);
    }
    if r.retryCount > 0 {
      var last: nat := r.retryCount - 1;
      assert last < sent - 1 ==> GoesOn(c, policy, failed, last);
    }
  }

  /** A step with the retries its policy allows it. */
  method ExecuteStepWithRetry(c: Course, step: Step) returns (r: Retried, sent: nat)
    ensures PolicyOf(step).0 == None ==> sent == 1 && r == Retried(c.attempts(0), false, None, 0, [])
    ensures PolicyOf(step).0.Some? ==> Counted(c, PolicyOf(step).0.value, FailedOf(step), r, sent)
    ensures sent > 0 && r.attempt == c.attempts(sent - 1)
    ensures step.retry == None || step.expectsFailure ==>
              r.retryCount <= 3 && forall k: nat :: k < r.retryCount
                                     ==> c.attempts(k).failureStatus == TOO_MANY_REQUESTS
  {
    var (policy, written) := PolicyOf(step);
    if policy == None {
      return Retried(c.attempts(0), false, None, 0, []), 1;
    }
    r, sent := RetryResult(c, policy.value, written, FailedOf(step));
    CountsAgree(c, policy.value, written, FailedOf(step), r, sent);
    if step.retry == None || step.expectsFailure {
      forall k: nat | k < r.retryCount ensures c.attempts(k).failureStatus == TOO_MANY_REQUESTS {
        assert RetriedFor(c.attempts(k), policy.value, FailedOf(step), k, r.retriedOn[k]);
        OnlyRateLimits(step, c.attempts(k), k + 1);
      }
    }
  }
}
