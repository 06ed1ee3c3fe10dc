/** The retry policy around the model call (`@retry` on `_call_gemini`):
    at most five attempts, retrying only rate-limit errors, with an
    exponential wait between attempts, re-raising the last error. The
    model service is an oracle `call`, indexed by attempt number from 1,
    and waits are recorded rather than slept. */
module Retry {
  import opened Wrappers
  import opened Text

  /** An exception: its text (`str(e)`) and its `status` attribute, if any. */
  datatype Error = Error(message: string, status: Option<int>)

  /** What one attempt of the service gives: a response whose `text` may be
      `None`, or a raised error. */
  datatype Response = Reply(text: Option<string>) | Raised(error: Error)

  /** `stop_after_attempt(5)`. */
  const MaxAttempts: nat := 5

  /** `wait_exponential(multiplier=2, min=4, max=60)`. */
  const WaitMultiplier: nat := 2
  const WaitMin: nat := 4
  const WaitMax: nat := 60

  /** `is_rate_limit_error`: "429" or "RATELIMIT_EXCEEDED" in the text as
      written, "quota" or "rate limit" in any case, or a status of 429. */
  function IsRateLimitError(e: Error): (b: bool)
    ensures b <==>
      || Mentions(e.message, "429")
      || Mentions(e.message, "RATELIMIT_EXCEEDED")
      || Mentions(Lower(e.message), "quota")
      || Mentions(Lower(e.message), "rate limit")
      || (e.status.Some? && e.status.value == 429)
  {
    || Contains(e.message, "429")
    || Contains(e.message, "RATELIMIT_EXCEEDED")
    || Contains(Lower(e.message), "quota")
    || Contains(Lower(e.message), "rate limit")
    || e.status == Some(429)
  }

  /** "429" and "quota" are recognised, and so is a bare status of 429. */
  lemma RateLimitExamples(a: string, b: string)
    requires a == "429 Too Many Requests" && b == "Quota exceeded"
    ensures IsRateLimitError(Error(a, None))
    ensures IsRateLimitError(Error(b, None))
    ensures IsRateLimitError(Error("", Some(429)))
  {
    assert OccursAt(a, "429", 0);
    assert OccursAt(Lower(b), "quota", 0);
  }

  /** The RATELIMIT_EXCEEDED code is matched case-sensitively, so its
      lower-case spelling alone is not a rate limit. */
  lemma LowerCaseCodeIsNotRateLimit(c: string)
    requires c == "ratelimit_exceeded"
    ensures !IsRateLimitError(Error(c, None))
  {
    assert !Contains(c, "429") by {
      MissingCharRulesOut(c, "429", 0);
    }
    assert !Contains(c, "RATELIMIT_EXCEEDED") by {
      MissingCharRulesOut(c, "RATELIMIT_EXCEEDED", 0);
    }
    LowerCaseCodeSpelling(c);
  }

  lemma LowerCaseCodeSpelling(c: string)
    requires c == "ratelimit_exceeded"
    ensures !Contains(Lower(c), "quota") && !Contains(Lower(c), "rate limit")
  {
    assert Lower(c) == c;
    assert !Contains(c, "quota") by {
      MissingCharRulesOut(c, "quota", 0);
    }
    assert !Contains(c, "rate limit") by {
      MissingCharRulesOut(c, "rate limit", 4);
    }
  }

  /** `response.text or ""`. */
  function ReplyText(text: Option<string>): (r: string)
    ensures text.Some? ==> r == text.value
    ensures text.None? ==> r == ""
  {
    text.GetOr("")
  }

  function Pow2(n: nat): (r: nat)
    ensures r >= 1
  {
    if n == 0 then 1 else 2 * Pow2(n - 1)
  }

  /** The wait after failed attempt `attempt`: `multiplier * 2^(attempt-1)`
      clamped to [4, 60] seconds. */
  function Backoff(attempt: nat): (w: nat)
    requires attempt >= 1
    ensures WaitMin <= w <= WaitMax
  {
    Max(WaitMin, Min(WaitMultiplier * Pow2(attempt - 1), WaitMax))
  }

  lemma {:induction false} Pow2Monotone(a: nat, b: nat)
    requires a <= b
    ensures Pow2(a) <= Pow2(b)
    decreases b
  {
    if a < b {
      Pow2Monotone(a, b - 1);
    }
  }

  /** Waits never shrink from one attempt to the next. */
  lemma BackoffMonotone(a: nat, b: nat)
    requires 1 <= a <= b
    ensures Backoff(a) <= Backoff(b)
  {
    Pow2Monotone(a - 1, b - 1);
  }

  /** From the third attempt on, each wait doubles the one before until it
      reaches the 60-second cap. */
  lemma BackoffDoubling(attempt: nat)
    requires attempt >= 3
    ensures Backoff(attempt) == Min(2 * Backoff(attempt - 1), WaitMax)
  {
    Pow2Monotone(1, attempt - 2);
  }

  /** The waits the five-attempt policy can ever take: 4, 4, 8 and 16
      seconds. */
  lemma BackoffSchedule()
    ensures [Backoff(1), Backoff(2), Backoff(3), Backoff(4)] == [4, 4, 8, 16]
  {
    assert Pow2(3) == 8;
  }

  /** What the decorated call produced: its result or the error it
      re-raised, how many attempts were made, and the waits taken between
      them. */
  datatype Trace = Trace(outcome: Result<string, Error>, attempts: nat, waits: seq<nat>)

  /** `t` is what the policy does from attempt `n` on, retrying the errors
      `retryable` accepts (`retry_if_exception(retryable)`): every attempt
      before the last raised a retryable error and was followed by its
      backoff; the last attempt either answered, or raised an error that
      is not retryable, or was the fifth. */
  ghost predicate FollowsPolicy(call: nat -> Response, retryable: Error -> bool, n: nat, t: Trace) {
    && 1 <= n <= t.attempts <= MaxAttempts
    && |t.waits| == t.attempts - n
    && (forall i :: 0 <= i < |t.waits| ==> t.waits[i] == Backoff(n + i))
    && (forall k :: n <= k < t.attempts ==> call(k).Raised? && retryable(call(k).error))
    && match call(t.attempts)
       case Reply(text) => t.outcome == Success(ReplyText(text))
       case Raised(e) => t.outcome == Failure(e) && (!retryable(e) || t.attempts == MaxAttempts)
  }

  /** The policy as a recursion over attempt numbers. */
  function RetryFrom(call: nat -> Response, retryable: Error -> bool, n: nat): (t: Trace)
    requires 1 <= n <= MaxAttempts
    ensures FollowsPolicy(call, retryable, n, t)
    decreases MaxAttempts - n
  {
    match call(n)
    case Reply(text) => Trace(Success(ReplyText(text)), n, [])
    case Raised(e) =>
      if !retryable(e) || n == MaxAttempts then Trace(Failure(e), n, [])
      else
        var rest := RetryFrom(call, retryable, n + 1);
        var waits := [Backoff(n)] + rest.waits;
        assert forall i :: 1 <= i < |waits| ==> waits[i] == rest.waits[i - 1];
        Trace(rest.outcome, rest.attempts, waits)
  }

  /** The decorated call: the whole policy from the first attempt,
      retrying rate-limit errors only. */
  function CallService(call: nat -> Response): (t: Trace)
    ensures FollowsPolicy(call, IsRateLimitError, 1, t)
  {
    RetryFrom(call, IsRateLimitError, 1)
  }

  /** The policy leaves no choice: only one trace follows it. */
  lemma {:induction false} PolicyDeterminesTrace(call: nat -> Response, retryable: Error -> bool, n: nat, t: Trace, u: Trace)
    requires FollowsPolicy(call, retryable, n, t) && FollowsPolicy(call, retryable, n, u)
    ensures t == u
  {
    assert t.waits == u.waits;
  }

  /** The tenacity loop itself: attempt, classify the error, stop or wait
      and go again. */
  method CallWithRetry(call: nat -> Response, retryable: Error -> bool) returns (t: Trace)
    ensures FollowsPolicy(call, retryable, 1, t)
  {
    var n := 1;
    var waits: seq<nat> := [];
    while true
      invariant 1 <= n <= MaxAttempts
      invariant |waits| == n - 1
      invariant forall i :: 0 <= i < |waits| ==> waits[i] == Backoff(1 + i)
      invariant forall k :: 1 <= k < n ==> call(k).Raised? && retryable(call(k).error)
      decreases MaxAttempts - n
    {
      match call(n)
      case Reply(text) =>
        return Trace(Success(ReplyText(text)), n, waits);
      case Raised(e) =>
        if !retryable(e) || n == MaxAttempts {
          return Trace(Failure(e), n, waits);
        }
        waits := waits + [Backoff(n)];
        n := n + 1;
    }
  }

  /** An error that is not a rate limit is re-raised after one attempt,
      without waiting. */
  lemma OtherErrorsAreNotRetried(call: nat -> Response, e: Error)
    requires call(1) == Raised(e) && !IsRateLimitError(e)
    ensures CallService(call) == Trace(Failure(e), 1, [])
  {
    PolicyDeterminesTrace(call, IsRateLimitError, 1, CallService(call), Trace(Failure(e), 1, []));
  }

  /** A service that keeps answering with rate-limit errors is tried five
      times, with 32 seconds of waiting in all, and its fifth error is
      re-raised. */
  lemma PersistentRateLimit(call: nat -> Response)
    requires forall k :: 1 <= k <= MaxAttempts ==> call(k).Raised? && IsRateLimitError(call(k).error)
    ensures CallService(call) == Trace(Failure(call(MaxAttempts).error), MaxAttempts, [4, 4, 8, 16])
  {
    BackoffSchedule();
    var t := Trace(Failure(call(MaxAttempts).error), MaxAttempts, [4, 4, 8, 16]);
    assert FollowsPolicy(call, IsRateLimitError, 1, t);
    PolicyDeterminesTrace(call, IsRateLimitError, 1, CallService(call), t);
  }

  /** An attempt `m` that answers after `m - 1` rate-limited ones gives
      the call its result. */
  lemma SucceedsAt(call: nat -> Response, m: nat)
    requires 1 <= m <= MaxAttempts && call(m).Reply?
    requires forall k :: 1 <= k < m ==> call(k).Raised? && IsRateLimitError(call(k).error)
    ensures CallService(call).outcome == Success(ReplyText(call(m).text))
    ensures CallService(call).attempts == m
  {
    var u := Trace(Success(ReplyText(call(m).text)), m, seq(m - 1, i requires 0 <= i < m - 1 => Backoff(1 + i)));
    assert FollowsPolicy(call, IsRateLimitError, 1, u);
    PolicyDeterminesTrace(call, IsRateLimitError, 1, CallService(call), u);
  }

  /** The call succeeds exactly when some attempt among the first five
      answers and every attempt before it hit a rate limit. */
  lemma SucceedsIff(call: nat -> Response)
    ensures CallService(call).outcome.Success? <==>
      exists m :: && 1 <= m <= MaxAttempts && call(m).Reply?
                  && forall k :: 1 <= k < m ==> call(k).Raised? && IsRateLimitError(call(k).error)
  {
    var t := CallService(call);
    if t.outcome.Success? {
      assert call(t.attempts).Reply?;
    }
    forall m | && 1 <= m <= MaxAttempts && call(m).Reply?
               && forall k :: 1 <= k < m ==> call(k).Raised? && IsRateLimitError(call(k).error)
      ensures t.outcome.Success?
    {
      SucceedsAt(call, m);
    }
  }
}
