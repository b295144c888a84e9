/**
 What becomes of a call, told by the events of its attempts alone: which of them are repeated, for
 which requests, with what result the call ends, and how long it waits in between.
 */
module Resilience {
  import opened Prelude
  import opened Int64
  import opened Decimal
  import opened Backoff
  import opened Clients

  // Retry-After.

  /** The field is not a number that an int64 holds. */
  ghost predicate NoNumber(field: string) {
    forall s: int :: Spells(field, s) ==> !IsInt64(s)
  }

  /** What is asked for: the product, for a number; the delay of the date, for a field that is not one. */
  lemma AskedExactly(field: string, dateDelay: Option<nat>, d: int)
    ensures ParseRetryAfter(field, dateDelay) == Some(d) <==>
              || (exists s: nat :: Spells(field, s) && s <= MAX_INT64 && d == Seconds(s))
              || (field != "" && NoNumber(field) && dateDelay.Some? && dateDelay.value == d)
  {
    assert ReadInt("").None?;
    match ReadInt(Trim(field))
    case None =>
    case Some(s) => assert Spells(field, s);
  }

  /** Blanks around the digits of a Retry-After, and a plus sign in front of them, do not matter. */
  lemma BlanksDoNotMatter(before: string, digits: string, after: string)
    requires Blank(before) && Blank(after) && digits != "" && AllDigits(digits)
    ensures Spells(before + digits + after, Value(digits))
    ensures Spells(before + ("+" + digits) + after, Value(digits))
  {
    hide Trim;
    assert IsDigit(digits[0]) && IsDigit(digits[|digits| - 1]);
    TrimsBlanks(before, digits, after);
    TrimsBlanks(before, "+" + digits, after);
    assert Written(digits, digits, Value(digits)) && Written("+" + digits, digits, Value(digits));
    ReadsNumerals(digits, Value(digits));
    ReadsNumerals("+" + digits, Value(digits));
  }

  /** The field names a longer wait than the cap. */
  ghost predicate AsksTooMuch(policy: RetryPolicy, field: string, dateDelay: Option<nat>) {
    || (exists s: nat :: Spells(field, s) && s <= MAX_INT64 && Seconds(s) > policy.maxDelay)
    || (field != "" && NoNumber(field) && dateDelay.Some? && dateDelay.value > policy.maxDelay)
  }

  lemma TooMuchExactly(policy: RetryPolicy, field: string, dateDelay: Option<nat>)
    ensures AsksTooMuch(policy, field, dateDelay)
            <==> ParseRetryAfter(field, dateDelay).Some? && ParseRetryAfter(field, dateDelay).value > policy.maxDelay
  {
    var asked := ParseRetryAfter(field, dateDelay);
    if asked.Some? {
      AskedExactly(field, dateDelay, asked.value);
    }
    if s: nat :| Spells(field, s) && s <= MAX_INT64 && Seconds(s) > policy.maxDelay {
      AskedExactly(field, dateDelay, Seconds(s));
    } else if field != "" && NoNumber(field) && dateDelay.Some? {
      AskedExactly(field, dateDelay, dateDelay.value);
    }
  }

  // One attempt.

  /**
   Nothing final happened to the attempt: the transport failed, the server was throttling or
   down, or the answer broke off. All of it but the throttling counts only for reads and for
   writes under a key.
   */
  ghost predicate Interrupted<B>(policy: RetryPolicy, request: Request, wanted: bool, m: Moment<B>) {
    var replayable := request.verb == GET || request.verb == HEAD || request.key != [];
    || (replayable && m.event == NoAnswer(false))
    || (&& m.event.Answered? && !AsksTooMuch(policy, m.event.retryAfter, m.dateDelay)
        && (m.event.status == 429 || (replayable && m.event.status in {500, 502, 503, 504})))
    || (&& replayable && wanted && m.event.Answered?
        && 200 <= m.event.status < 300 && m.event.body == CutOff(false))
  }

  /** Those attempts are the ones that ask for another. */
  lemma RepeatedExactly<B>(policy: RetryPolicy, request: Request, wanted: bool, m: Moment<B>)
    ensures Retryable(policy, ReplaySafe(request), wanted, m) <==> Interrupted(policy, request, wanted, m)
  {
    if m.event.Answered? {
      TooMuchExactly(policy, m.event.retryAfter, m.dateDelay);
    }
    hide ParseRetryAfter, AsksTooMuch;
  }

  /**
   The wait before the next attempt, for a policy whose cap is safe: the time that the server
   named in seconds or by a date, and otherwise the upper half of the doubled base under the cap.
   A policy without a base does not wait on its own account.
   */
  lemma WaitsExactly<B>(policy: RetryPolicy, attempt: nat, m: Moment<B>)
    requires attempt >= 1
    ensures var w := WaitAfter(policy, attempt, m);
            var field := if m.event.Answered? && 400 <= m.event.status < 600 then m.event.retryAfter else "";
            && (forall s: nat :: Spells(field, s) && s <= MAX_INT64 ==> w == Max(0, Seconds(s)))
            && (field != "" && NoNumber(field) && m.dateDelay.Some? ==> w == m.dateDelay.value)
            && (field == "" || (NoNumber(field) && m.dateDelay.None?) ==>
                  && (policy.baseDelay <= 0 || policy.maxDelay <= 0 ==> w == 0)
                  && (0 < policy.baseDelay <= MAX_INT64 && 0 < policy.maxDelay <= SafeCap(policy.baseDelay)
                      && policy.maxDelay <= MAX_INT64 ==>
                        var step := Min(policy.baseDelay * Pow2(attempt - 1), policy.maxDelay);
                        step / 2 <= w <= step))
  {
    hide SafeCap, CappedStep, Delay;
    assert !Spells("", 0);
    if m.event.Answered? {
      match ReadInt(Trim(m.event.retryAfter))
      case None =>
      case Some(s) => assert Spells(m.event.retryAfter, s);
    }
    if 0 < policy.baseDelay <= MAX_INT64 && 0 < policy.maxDelay <= SafeCap(policy.baseDelay)
       && policy.maxDelay <= MAX_INT64 {
      StepDoubles(policy.baseDelay, policy.maxDelay, attempt);
    }
  }

  // A whole call.

  /** What the last attempt's event means for the caller. */
  ghost predicate Tells<B>(event: Event<B>, wanted: bool, result: Result) {
    && (event.NotSent? ==> result == Err(RequestNotSent))
    && (event == NoAnswer(false) ==> result == Err(Transport))
    && (event == NoAnswer(true) ==> result == Err(Cancelled))
    && (event.Answered? ==>
          var status := event.status;
          && (400 <= status < 600 ==> result == Err(Problem(status)))
          && (!(200 <= status < 300) && !(400 <= status < 600) ==> result == Err(UnexpectedStatus(status)))
          && (200 <= status < 300 && (!wanted || event.body.Decoded?) ==> result == Ok)
          && (200 <= status < 300 && wanted ==>
                && (event.body == CutOff(false) ==> result == Err(Transport))
                && (event.body == CutOff(true) ==> result == Err(Cancelled))
                && (event.body == Incompatible ==> result == Err(DecodeFailed))))
  }

  lemma MeaningTells<B>(event: Event<B>, wanted: bool)
    ensures Tells(event, wanted, Meaning(wanted, event))
  {
  }

  /** The attempt was interrupted, and the wait after it was not. */
  ghost predicate Resumed<B>(policy: RetryPolicy, request: Request, wanted: bool, m: Moment<B>) {
    Interrupted(policy, request, wanted, m) && !m.cancelledWaiting
  }

  /** The attempts from at up to last ask for another each, and get it. */
  ghost predicate GoesOn<B>(policy: RetryPolicy, request: Request, wanted: bool, script: nat -> Moment<B>,
                            at: nat, last: nat) {
    && at <= last && (at < last ==> last - at < policy.maxAttempts)
    && forall n: nat :: at <= n < last ==> Resumed(policy, request, wanted, script(n))
  }

  lemma GoesOnWithin<B>(policy: RetryPolicy, request: Request, wanted: bool, script: nat -> Moment<B>,
                        at: nat, last: nat)
    requires GoesOn(policy, request, wanted, script, at, last)
    ensures at <= last && last - at + 1 <= Max(1, policy.maxAttempts)
  {
  }

  lemma {:induction false} GoneOn<B>(policy: RetryPolicy, request: Request, wanted: bool, script: nat -> Moment<B>,
                                     at: nat, last: nat, now: nat)
    requires GoesOn(policy, request, wanted, script, at, last) && at <= now <= last
    requires last - at + 1 < policy.maxAttempts ==> !Resumed(policy, request, wanted, script(last))
    ensures Attempts(policy, ReplaySafe(request), wanted, script, now, now - at + 1) == last - now + 1
    decreases last - now
  {
    hide Retryable, ReplaySafe, Interrupted;
    RepeatedExactly(policy, request, wanted, script(now));
    if now < last {
      assert Resumed(policy, request, wanted, script(now));
      GoneOn(policy, request, wanted, script, at, last, now + 1);
    }
  }

  /**
   The waits, one by one: one between any two attempts, and one more if the last attempt asked for
   another in vain.
   */
  lemma {:induction false} WaitsBetween<B>(policy: RetryPolicy, safe: bool, wanted: bool, script: nat -> Moment<B>,
                                           at: nat, attempt: nat)
    requires attempt >= 1
    ensures var n := Attempts(policy, safe, wanted, script, at, attempt);
            var waits := Waits(policy, safe, wanted, script, at, attempt);
            && |waits| == (if attempt + n - 1 < policy.maxAttempts
                              && Retryable(policy, safe, wanted, script(at + n - 1)) then n else n - 1)
            && forall i :: 0 <= i < |waits| ==> waits[i] == WaitAfter(policy, attempt + i, script(at + i))
    decreases policy.maxAttempts - attempt
  {
    hide Retryable, WaitAfter;
    OneAttempt(policy, safe, wanted, script, at, attempt);
    if attempt < policy.maxAttempts && Retryable(policy, safe, wanted, script(at)) && !script(at).cancelledWaiting {
      WaitsBetween(policy, safe, wanted, script, at + 1, attempt + 1);
    }
  }

  /**
   A call, whatever happens to it: it goes on as long as attempts are interrupted, the policy
   allows another and the wait is not cancelled. Each attempt sends the one request, unless it
   cannot be sent; and the result is what the last event tells, or the cancellation.
   */
  lemma CallExactly<B>(policy: RetryPolicy, request: Request, wanted: bool, script: nat -> Moment<B>,
                       at: nat, last: nat)
    requires GoesOn(policy, request, wanted, script, at, last)
    requires last - at + 1 < policy.maxAttempts ==> !Resumed(policy, request, wanted, script(last))
    ensures var run := Called(policy, request, wanted, script, at);
            var n, event := last - at + 1, script(last).event;
            var abandoned := n < policy.maxAttempts && Interrupted(policy, request, wanted, script(last));
            && run.attempts == n
            && |run.sent| == (if event.NotSent? then n - 1 else n)
            && (forall i :: 0 <= i < |run.sent| ==> run.sent[i] == request)
            && |run.waits| == (if abandoned then n else n - 1)
            && (forall i :: 0 <= i < |run.waits| ==> run.waits[i] == WaitAfter(policy, i + 1, script(at + i)))
            && (if abandoned then run.result == Err(Cancelled) else Tells(event, wanted, run.result))
  {
    hide Retryable, ReplaySafe, Interrupted, GoesOn, WaitAfter, Attempts, Waits, Tells, Meaning;
    GoesOnWithin(policy, request, wanted, script, at, last);
    GoneOn(policy, request, wanted, script, at, last, at);
    WaitsBetween(policy, ReplaySafe(request), wanted, script, at, 1);
    RepeatedExactly(policy, request, wanted, script(last));
    MeaningTells(script(last).event, wanted);
    assert at + (last - at + 1) - 1 == last;
  }

  /** Every call is of that kind, and has one such last attempt. */
  lemma CallStops<B>(policy: RetryPolicy, request: Request, wanted: bool, script: nat -> Moment<B>, at: nat)
    returns (last: nat)
    ensures GoesOn(policy, request, wanted, script, at, last)
    ensures last - at + 1 < policy.maxAttempts ==> !Resumed(policy, request, wanted, script(last))
  {
    hide Retryable, Interrupted;
    LongestRetryablePrefix(policy, ReplaySafe(request), wanted, script, at, 1);
    last := at + Attempts(policy, ReplaySafe(request), wanted, script, at, 1) - 1;
    forall n: nat | at <= n <= last
      ensures Retryable(policy, ReplaySafe(request), wanted, script(n))
              <==> Interrupted(policy, request, wanted, script(n))
    {
      RepeatedExactly(policy, request, wanted, script(n));
    }
  }

  lemma NothingAsked(policy: RetryPolicy, dateDelay: Option<nat>)
    ensures !AsksTooMuch(policy, "", dateDelay)
  {
    TooMuchExactly(policy, "", dateDelay);
  }

  /**
   A read, and a write under a key, comes through as many passing faults as the policy has spare
   attempts: lost requests and answers, throttling, the four server errors and, if an answer is
   wanted, answers that break off. Any other problem is final.
   */
  lemma ComesThroughFaults<B>(policy: RetryPolicy, request: Request, wanted: bool, script: nat -> Moment<B>,
                              at: nat, j: nat)
    requires request.verb == GET || request.verb == HEAD || request.key != []
    requires j < policy.maxAttempts
    requires forall n: nat :: at <= n < at + j ==>
               && !script(n).cancelledWaiting
               && var e := script(n).event;
                  || e == NoAnswer(false)
                  || (e.Answered? && e.status in {429, 500, 502, 503, 504} && e.retryAfter == "")
                  || (wanted && e.Answered? && 200 <= e.status < 300 && e.body == CutOff(false))
    ensures var run := Called(policy, request, wanted, script, at); var e := script(at + j).event;
            && (e.Answered? && 200 <= e.status < 300 && (wanted ==> e.body.Decoded?) ==>
                  run.result == Ok && run.attempts == j + 1 && |run.sent| == j + 1 && |run.waits| == j)
            && (e.Answered? && 400 <= e.status < 600 && e.status !in {429, 500, 502, 503, 504} ==>
                  run.result == Err(Problem(e.status)) && run.attempts == j + 1 && |run.waits| == j)
  {
    forall n: nat | at <= n < at + j
      ensures Resumed(policy, request, wanted, script(n))
    {
      NothingAsked(policy, script(n).dateDelay);
    }
    if !Interrupted(policy, request, wanted, script(at + j)) {
      CallExactly(policy, request, wanted, script, at, at + j);
    }
  }

  /**
   A write without a key comes through throttling only: whatever else goes wrong ends the call
   there and then, with the fault itself.
   */
  lemma UnkeyedWriteStops<B>(policy: RetryPolicy, request: Request, wanted: bool, script: nat -> Moment<B>,
                             at: nat, j: nat)
    requires request.verb != GET && request.verb != HEAD && request.key == []
    requires j < policy.maxAttempts
    requires forall n: nat :: at <= n < at + j ==>
               && !script(n).cancelledWaiting
               && var e := script(n).event;
                  e.Answered? && e.status == 429 && e.retryAfter == ""
    requires var e := script(at + j).event; e.Answered? ==> e.status != 429
    ensures var run := Called(policy, request, wanted, script, at); var e := script(at + j).event;
            && run.attempts == j + 1 && |run.waits| == j
            && (e == NoAnswer(false) ==> run.result == Err(Transport))
            && (e.Answered? && 400 <= e.status < 600 ==> run.result == Err(Problem(e.status)))
            && (e.Answered? && 200 <= e.status < 300 && wanted && e.body == CutOff(false) ==>
                  run.result == Err(Transport))
            && (e.Answered? && 200 <= e.status < 300 && (wanted ==> e.body.Decoded?) ==> run.result == Ok)
  {
    forall n: nat | at <= n < at + j
      ensures Resumed(policy, request, wanted, script(n))
    {
      NothingAsked(policy, script(n).dateDelay);
    }
    CallExactly(policy, request, wanted, script, at, at + j);
  }

  lemma DefaultPolicyWait<B>(attempt: nat, m: Moment<B>)
    requires 1 <= attempt <= 3 && (m.event.Answered? ==> m.event.retryAfter == "")
    ensures var step := if attempt == 1 then 200_000_000 else if attempt == 2 then 400_000_000 else 800_000_000;
            step / 2 <= WaitAfter(DEFAULT_RETRY_POLICY, attempt, m) <= step
  {
    hide WaitAfter, SafeCapUpTo;
    SmallProductIsSafe(200_000_000, 5_000_000_000, 63);
    WaitsExactly(DEFAULT_RETRY_POLICY, attempt, m);
    assert Pow2(0) == 1 && Pow2(1) == 2 && Pow2(2) == 4;
  }

  /**
   The default policy: four attempts, and without a Retry-After at most 200, 400 and 800
   milliseconds between them, and at least half of that.
   */
  lemma DefaultPolicyWaits<B>(request: Request, wanted: bool, script: nat -> Moment<B>, at: nat)
    requires forall n: nat :: at <= n && script(n).event.Answered? ==> script(n).event.retryAfter == ""
    ensures var run := Called(DEFAULT_RETRY_POLICY, request, wanted, script, at); var w := run.waits;
            && run.attempts <= 4 && |w| <= 3
            && (|w| > 0 ==> 100_000_000 <= w[0] <= 200_000_000)
            && (|w| > 1 ==> 200_000_000 <= w[1] <= 400_000_000)
            && (|w| > 2 ==> 400_000_000 <= w[2] <= 800_000_000)
  {
    hide GoesOn, Interrupted, WaitAfter, Tells, Called;
    var policy := DEFAULT_RETRY_POLICY;
    var last := CallStops(policy, request, wanted, script, at);
    CallExactly(policy, request, wanted, script, at, last);
    GoesOnWithin(policy, request, wanted, script, at, last);
    DefaultPolicyWait(1, script(at));
    DefaultPolicyWait(2, script(at + 1));
    DefaultPolicyWait(3, script(at + 2));
  }
}
