/** The request loop: one call of the client, over whatever the network and the server do to its attempts. */
module Clients {
  import opened Prelude
  import opened Int64
  import opened Decimal
  import opened Backoff
  import opened Idempotency

  datatype RetryPolicy = RetryPolicy(maxAttempts: int, baseDelay: int, maxDelay: int)

  const DEFAULT_RETRY_POLICY := RetryPolicy(4, 200_000_000, 5_000_000_000)

  datatype Verb = GET | HEAD | POST | PUT | PATCH | DELETE

  datatype Request = Request(verb: Verb, target: string, key: seq<Byte>, payload: Option<string>)

  /** A second copy does no harm: it only reads, or it carries a key by which the server knows it again. */
  predicate ReplaySafe(request: Request) {
    request.verb == GET || request.verb == HEAD || request.key != []
  }

  /** The body of a 2xx answer: cut off before the JSON value was complete, a value of the wrong shape, or a value. */
  datatype Body<+B> = CutOff(cancelled: bool) | Incompatible | Decoded(value: B)

  /**
   What became of one attempt, as the client sees it. NotSent: the credential, or the building
   of the request, failed. The flags say whether the context was found cancelled.
   */
  datatype Event<+B> =
    | NotSent
    | NoAnswer(cancelled: bool)
    | Answered(status: int, retryAfter: string, body: Body<B>)

  /**
   One attempt with the rest of its surroundings: the random draw for its backoff, the delay
   its Retry-After means if that is a date, and whether the context is cancelled during its wait.
   */
  datatype Moment<+B> = Moment(event: Event<B>, draw: nat, dateDelay: Option<nat>, cancelledWaiting: bool)

  datatype Error =
    | InvalidRequest | RequestNotSent | Cancelled | Transport
    | Problem(status: int) | UnexpectedStatus(status: int) | DecodeFailed

  datatype Result = Ok | Err(error: Error)

  /** Both forms of the field (section 10.2.3 of RFC 9110). The product is a 64-bit one. */
  function ParseRetryAfter(v: string, dateDelay: Option<nat>): Option<int> {
    if v == "" then None
    else
      match ParseInt(Trim(v))
      case Some(s) => if s < 0 then None else Some(Seconds(s))
      case None => if dateDelay.Some? then Some(dateDelay.value) else None
  }

  predicate IsProblem(status: int) {
    400 <= status < 600
  }

  predicate IsSuccess(status: int) {
    200 <= status < 300
  }

  /** The table of README.md: 429 always, four of the 5xx when a replay is safe, nothing else. */
  predicate RetryableStatus(status: int, safe: bool) {
    status == 429 || (safe && status in {500, 502, 503, 504})
  }

  /** Another attempt is due after this one, were it allowed. wanted: the caller wants the answer decoded. */
  predicate Retryable<B>(policy: RetryPolicy, safe: bool, wanted: bool, m: Moment<B>) {
    match m.event
    case NotSent => false
    case NoAnswer(cancelled) => safe && !cancelled
    case Answered(status, retryAfter, body) =>
      if IsProblem(status) then
        && RetryableStatus(status, safe)
        && var asked := ParseRetryAfter(retryAfter, m.dateDelay);
           (asked.Some? ==> asked.value <= policy.maxDelay)
      else IsSuccess(status) && wanted && body.CutOff? && !body.cancelled && safe
  }

  /** The time spent before the next attempt. */
  function WaitAfter<B>(policy: RetryPolicy, attempt: nat, m: Moment<B>): nat
    requires attempt >= 1
  {
    var asked := if m.event.Answered? && IsProblem(m.event.status)
                 then ParseRetryAfter(m.event.retryAfter, m.dateDelay) else None;
    if asked.Some? then Max(0, asked.value)
    else Delay(policy.baseDelay, policy.maxDelay, attempt, m.draw)
  }

  /** What an attempt means to the caller when no other follows it. */
  function Meaning<B>(wanted: bool, event: Event<B>): Result {
    match event
    case NotSent => Err(RequestNotSent)
    case NoAnswer(cancelled) => Err(if cancelled then Cancelled else Transport)
    case Answered(status, _, body) =>
      if IsProblem(status) then Err(Problem(status))
      else if !IsSuccess(status) then Err(UnexpectedStatus(status))
      else if !wanted then Ok
      else
        match body
        case CutOff(cancelled) => Err(if cancelled then Cancelled else Transport)
        case Incompatible => Err(DecodeFailed)
        case Decoded(_) => Ok
  }

  // The specification of a call, over a script that gives the n-th attempt of the process.

  /** The number of attempts made, this one and its successors. */
  function Attempts<B>(policy: RetryPolicy, safe: bool, wanted: bool, script: nat -> Moment<B>,
                       at: nat, attempt: nat): (n: nat)
    requires attempt >= 1
    ensures n >= 1
    decreases policy.maxAttempts - attempt
  {
    var m := script(at);
    if attempt < policy.maxAttempts && Retryable(policy, safe, wanted, m) && !m.cancelledWaiting
    then 1 + Attempts(policy, safe, wanted, script, at + 1, attempt + 1)
    else 1
  }

  /** The result of the last attempt. A retryable one can be last only by exhaustion or by a cancelled wait. */
  function Outcome<B>(policy: RetryPolicy, safe: bool, wanted: bool, m: Moment<B>, attempt: nat): Result {
    if attempt < policy.maxAttempts && Retryable(policy, safe, wanted, m) then Err(Cancelled)
    else Meaning(wanted, m.event)
  }

  function Waits<B>(policy: RetryPolicy, safe: bool, wanted: bool, script: nat -> Moment<B>,
                    at: nat, attempt: nat): seq<int>
    requires attempt >= 1
    decreases policy.maxAttempts - attempt
  {
    var m := script(at);
    if attempt < policy.maxAttempts && Retryable(policy, safe, wanted, m) then
      [WaitAfter(policy, attempt, m)]
      + if m.cancelledWaiting then [] else Waits(policy, safe, wanted, script, at + 1, attempt + 1)
    else []
  }

  function Copies(request: Request, n: nat): seq<Request> {
    seq(n, _ => request)
  }

  /** All that one call does: its attempts, the requests that left, the waits, and the result. */
  datatype Run = Run(attempts: nat, sent: seq<Request>, waits: seq<int>, result: Result)

  function Called<B>(policy: RetryPolicy, request: Request, wanted: bool, script: nat -> Moment<B>, at: nat): (run: Run)
    ensures run.attempts >= 1
  {
    var safe := ReplaySafe(request);
    var n := Attempts(policy, safe, wanted, script, at, 1);
    var last := script(at + n - 1);
    Run(n,
        Copies(request, if last.event.NotSent? then n - 1 else n),
        Waits(policy, safe, wanted, script, at, 1),
        Outcome(policy, safe, wanted, last, n))
  }

  lemma OneMoreCopy(request: Request, n: nat)
    ensures Copies(request, 0) == []
    ensures Copies(request, n) + [request] == Copies(request, n + 1)
  {
  }

  /** What the world has seen of us: how many attempts, which requests, which waits. */
  datatype Trail = Trail(clock: nat, sent: seq<Request>, slept: seq<int>)

  function After(trail: Trail, run: Run): Trail {
    Trail(trail.clock + run.attempts, trail.sent + run.sent, trail.slept + run.waits)
  }

  /** The trail after one attempt, before its wait. */
  function Attempted<B>(trail: Trail, request: Request, m: Moment<B>): Trail {
    Trail(trail.clock + 1, if m.event.NotSent? then trail.sent else trail.sent + [request], trail.slept)
  }

  function Waited(trail: Trail, d: int): Trail {
    trail.(slept := trail.slept + [d])
  }

  /** A call begun at start is about to make the given attempt, and is where its specification says. */
  ghost predicate Underway<B>(policy: RetryPolicy, request: Request, wanted: bool, script: nat -> Moment<B>,
                              start: Trail, now: Trail, attempt: nat) {
    var safe := ReplaySafe(request);
    && attempt >= 1 && now.clock == start.clock + attempt - 1
    && now.sent == start.sent + Copies(request, attempt - 1)
    && Attempts(policy, safe, wanted, script, start.clock, 1)
       == attempt - 1 + Attempts(policy, safe, wanted, script, now.clock, attempt)
    && start.slept + Waits(policy, safe, wanted, script, start.clock, 1)
       == now.slept + Waits(policy, safe, wanted, script, now.clock, attempt)
  }

  lemma Begin<B>(policy: RetryPolicy, request: Request, wanted: bool, script: nat -> Moment<B>, start: Trail)
    ensures Underway(policy, request, wanted, script, start, start, 1)
  {
  }

  /** One attempt of the specification, unrolled. */
  lemma OneAttempt<B>(policy: RetryPolicy, safe: bool, wanted: bool, script: nat -> Moment<B>, at: nat, attempt: nat)
    requires attempt >= 1
    ensures var m := script(at);
            var n := Attempts(policy, safe, wanted, script, at, attempt);
            var waits := Waits(policy, safe, wanted, script, at, attempt);
            if attempt < policy.maxAttempts && Retryable(policy, safe, wanted, m) then
              if m.cancelledWaiting then n == 1 && waits == [WaitAfter(policy, attempt, m)]
              else
                && n == 1 + Attempts(policy, safe, wanted, script, at + 1, attempt + 1)
                && waits == [WaitAfter(policy, attempt, m)] + Waits(policy, safe, wanted, script, at + 1, attempt + 1)
            else n == 1 && waits == []
  {
  }

  /** The attempt was the last one. */
  lemma Finish<B>(policy: RetryPolicy, request: Request, wanted: bool, script: nat -> Moment<B>,
                  start: Trail, now: Trail, attempt: nat)
    requires Underway(policy, request, wanted, script, start, now, attempt)
    requires !(attempt < policy.maxAttempts && Retryable(policy, ReplaySafe(request), wanted, script(now.clock)))
    ensures var run := Called(policy, request, wanted, script, start.clock); var m := script(now.clock);
            && run.attempts == attempt && run.result == Meaning(wanted, m.event)
            && now.clock == start.clock + attempt - 1
            && After(start, run) == Attempted(now, request, m)
  {
    OneAttempt(policy, ReplaySafe(request), wanted, script, now.clock, attempt);
    OneMoreCopy(request, attempt - 1);
  }

  lemma RetryableWasSent<B>(policy: RetryPolicy, safe: bool, wanted: bool, m: Moment<B>)
    requires Retryable(policy, safe, wanted, m)
    ensures !m.event.NotSent?
  {
  }

  /** Another attempt was due, but the wait for it was cancelled. */
  lemma GiveUp<B>(policy: RetryPolicy, request: Request, wanted: bool, script: nat -> Moment<B>,
                  start: Trail, now: Trail, attempt: nat)
    requires Underway(policy, request, wanted, script, start, now, attempt)
    requires attempt < policy.maxAttempts && Retryable(policy, ReplaySafe(request), wanted, script(now.clock))
    requires script(now.clock).cancelledWaiting
    ensures var run := Called(policy, request, wanted, script, start.clock); var m := script(now.clock);
            && run.attempts == attempt && run.result == Err(Cancelled)
            && After(start, run) == Waited(Attempted(now, request, m), WaitAfter(policy, attempt, m))
  {
    hide Retryable, WaitAfter, Attempts, Waits, Copies, ReplaySafe, Meaning;
    var m := script(now.clock);
    RetryableWasSent(policy, ReplaySafe(request), wanted, m);
    OneAttempt(policy, ReplaySafe(request), wanted, script, now.clock, attempt);
    OneMoreCopy(request, attempt - 1);
    Reassociate(start.sent, Copies(request, attempt - 1), [request]);
  }

  /** Another attempt was due, and follows. */
  lemma Continue<B>(policy: RetryPolicy, request: Request, wanted: bool, script: nat -> Moment<B>,
                    start: Trail, now: Trail, attempt: nat)
    requires Underway(policy, request, wanted, script, start, now, attempt)
    requires attempt < policy.maxAttempts && Retryable(policy, ReplaySafe(request), wanted, script(now.clock))
    requires !script(now.clock).cancelledWaiting
    ensures var m := script(now.clock);
            Underway(policy, request, wanted, script, start,
                     Waited(Attempted(now, request, m), WaitAfter(policy, attempt, m)), attempt + 1)
  {
    hide Retryable, WaitAfter, Attempts, Waits, Copies, ReplaySafe;
    var m := script(now.clock);
    RetryableWasSent(policy, ReplaySafe(request), wanted, m);
    OneAttempt(policy, ReplaySafe(request), wanted, script, now.clock, attempt);
    OneMoreCopy(request, attempt - 1);
    var w := WaitAfter(policy, attempt, m);
    var rest := Waits(policy, ReplaySafe(request), wanted, script, now.clock + 1, attempt + 1);
    Reassociate(now.slept, [w], rest);
    Reassociate(start.sent, Copies(request, attempt - 1), [request]);
  }

  /** The attempts made are one more than the longest run of attempts that ask for another, within the policy. */
  lemma {:induction false} LongestRetryablePrefix<B>(policy: RetryPolicy, safe: bool, wanted: bool,
                                                     script: nat -> Moment<B>, at: nat, attempt: nat)
    requires attempt >= 1
    ensures var n := Attempts(policy, safe, wanted, script, at, attempt);
            && attempt + n - 1 <= Max(attempt, policy.maxAttempts)
            && (forall i :: at <= i < at + n - 1 ==>
                  Retryable(policy, safe, wanted, script(i)) && !script(i).cancelledWaiting)
            && (attempt + n - 1 < policy.maxAttempts ==>
                  var last := script(at + n - 1);
                  !Retryable(policy, safe, wanted, last) || last.cancelledWaiting)
    decreases policy.maxAttempts - attempt
  {
    hide Retryable;
    var m := script(at);
    if attempt < policy.maxAttempts && Retryable(policy, safe, wanted, m) && !m.cancelledWaiting {
      LongestRetryablePrefix(policy, safe, wanted, script, at + 1, attempt + 1);
    }
  }

  /** No single wait exceeds the cap, jitter and Retry-After alike, whatever the 64-bit products came to. */
  lemma WaitIsCapped<B>(policy: RetryPolicy, safe: bool, wanted: bool, attempt: nat, m: Moment<B>)
    requires attempt >= 1 && Retryable(policy, safe, wanted, m)
    ensures WaitAfter(policy, attempt, m) <= Max(0, policy.maxDelay)
  {
    hide CappedStep, ParseRetryAfter;
  }

  /** The wait budget of one call: at most one capped wait for each attempt but the last. */
  lemma {:induction false} WaitBudget<B>(policy: RetryPolicy, safe: bool, wanted: bool,
                                         script: nat -> Moment<B>, at: nat, attempt: nat)
    requires attempt >= 1
    ensures var waits := Waits(policy, safe, wanted, script, at, attempt);
            && |waits| <= Max(0, policy.maxAttempts - attempt)
            && (forall i :: 0 <= i < |waits| ==> 0 <= waits[i] <= Max(0, policy.maxDelay))
    decreases policy.maxAttempts - attempt
  {
    hide WaitAfter, Retryable;
    var m := script(at);
    if attempt < policy.maxAttempts && Retryable(policy, safe, wanted, m) {
      WaitIsCapped(policy, safe, wanted, attempt, m);
      if !m.cancelledWaiting {
        WaitBudget(policy, safe, wanted, script, at + 1, attempt + 1);
      }
    }
  }

  lemma Scale(a: nat, b: nat, m: nat)
    requires a <= b
    ensures a * m <= b * m
  {
  }

  lemma TotalWait<B>(policy: RetryPolicy, safe: bool, wanted: bool, script: nat -> Moment<B>, at: nat)
    ensures Sum(Waits(policy, safe, wanted, script, at, 1)) <= Max(0, policy.maxAttempts - 1) * Max(0, policy.maxDelay)
  {
    var waits := Waits(policy, safe, wanted, script, at, 1);
    WaitBudget(policy, safe, wanted, script, at, 1);
    SumAtMost(waits, Max(0, policy.maxDelay));
    Scale(|waits|, Max(0, policy.maxAttempts - 1), Max(0, policy.maxDelay));
  }

  /** The field spells the number s: blanks around it, a sign in front and leading zeros make no difference. */
  predicate Spells(text: string, s: int) {
    ReadInt(Trim(text)) == Some(s)
  }

  lemma DigitsNeedNoTrim(text: string)
    requires text != "" && AllDigits(text)
    ensures Trim(text) == text
  {
    assert IsDigit(text[0]) && IsDigit(text[|text| - 1]);
  }

  /**
   A wait in whole seconds, in decimal digits of any number, is read as the 64-bit product; with
   seconds from 2^63 on it is as if the field were not there, unless it can be read as a date.
   */
  lemma ReadsRetryAfter(text: string, dateDelay: Option<nat>)
    requires text != "" && AllDigits(text)
    ensures var s := Value(text);
            && Spells(text, s)
            && ParseRetryAfter(text, dateDelay)
               == if s <= MAX_INT64 then Some(Seconds(s))
                  else if dateDelay.Some? then Some(dateDelay.value) else None
  {
    DigitsNeedNoTrim(text);
  }

  /** A retryable answer whose Retry-After names s seconds. A number that no int64 holds is no date either. */
  predicate AsksFor<B>(m: Moment<B>, safe: bool, s: nat) {
    && m.event.Answered? && IsProblem(m.event.status) && RetryableStatus(m.event.status, safe)
    && Spells(m.event.retryAfter, s) && (s > MAX_INT64 ==> m.dateDelay.None?)
  }

  /**
   The rule for a Retry-After of s seconds: wait that long if it is within the cap, and otherwise
   hand the problem back. It is kept exactly when the product fits 64 bits, or the seconds do and
   the wrapped product exceeds the cap all the same; and wherever another attempt is then made,
   the wait before it is the one asked for.
   */
  lemma RetryAfterExactly<B>(policy: RetryPolicy, safe: bool, wanted: bool, m: Moment<B>, s: nat)
    requires AsksFor(m, safe, s) && IsInt64(policy.maxDelay)
    ensures var kept := s <= 9_223_372_036 || (s <= MAX_INT64 && Seconds(s) > policy.maxDelay);
            && ((Retryable(policy, safe, wanted, m) <==> s * SECOND <= policy.maxDelay) <==> kept)
            && (kept && Retryable(policy, safe, wanted, m) ==>
                  forall attempt: nat :: attempt >= 1 ==> WaitAfter(policy, attempt, m) == s * SECOND)
  {
  }

  /** From 9223372037 to 18446744073 seconds the product is negative: the call goes on at once, without any wait. */
  lemma CenturiesAreNotWaited<B>(policy: RetryPolicy, safe: bool, wanted: bool, m: Moment<B>, s: nat, attempt: nat)
    requires AsksFor(m, safe, s) && 9_223_372_037 <= s <= 18_446_744_073
    requires policy.maxDelay >= 0 && attempt >= 1
    ensures Retryable(policy, safe, wanted, m) && WaitAfter(policy, attempt, m) == 0
  {
  }

  /** From 2^63 seconds on the field is ignored: the call goes on after its own backoff, which the cap bounds. */
  lemma AgesAreIgnored<B>(policy: RetryPolicy, safe: bool, wanted: bool, m: Moment<B>, s: nat, attempt: nat)
    requires AsksFor(m, safe, s) && s > MAX_INT64 && IsInt64(policy.maxDelay) && attempt >= 1
    ensures Retryable(policy, safe, wanted, m) && s * SECOND > policy.maxDelay
    ensures WaitAfter(policy, attempt, m) == Delay(policy.baseDelay, policy.maxDelay, attempt, m.draw)
  {
  }

  /** A decoded answer, or nothing. */
  function Delivered<B>(event: Event<B>): Option<B> {
    if event.Answered? && event.body.Decoded? then Some(event.body.value) else None
  }

  /** Where the caller wants the answer put. */
  class Slot<B> {
    var value: B

    constructor (value: B)
      ensures this.value == value
    {
      this.value := value;
    }
  }

  /** The world outside: what it does to each attempt, and what it has seen of us. */
  class Network<B> {
    const script: nat -> Moment<B>
    var trail: Trail

    constructor (script: nat -> Moment<B>)
      ensures this.script == script && trail == Trail(0, [], [])
    {
      this.script := script;
      trail := Trail(0, [], []);
    }

    /** One attempt: the request leaves, unless it could not be built or authorized. */
    method Send(request: Request) returns (m: Moment<B>)
      modifies this
      ensures m == script(old(trail).clock) && trail == Attempted(old(trail), request, m)
    {
      m := script(trail.clock);
      trail := Attempted(trail, request, m);
    }

    /** Waits at most d, less when the context is cancelled meanwhile. */
    method Wait(d: int, m: Moment<B>) returns (cancelled: bool)
      modifies this
      ensures cancelled == m.cancelledWaiting && trail == Waited(old(trail), Max(0, d))
    {
      trail := Waited(trail, Max(0, d));
      return m.cancelledWaiting;
    }
  }

  datatype Verdict = Return(result: Result) | Again(delay: int)

  /** The request body to be: none, its encoding, or a value that does not encode. */
  datatype Input = Nothing | Encoded(bytes: string) | Unencodable

  class Client {
    var retry: RetryPolicy

    constructor ()
      ensures retry == DEFAULT_RETRY_POLICY == RetryPolicy(4, 200_000_000, 5_000_000_000)
    {
      retry := DEFAULT_RETRY_POLICY;
    }

    /** A policy of fewer than one attempt is raised to one. */
    method WithRetryPolicy(policy: RetryPolicy)
      modifies this
      ensures retry == policy.(maxAttempts := Max(1, policy.maxAttempts))
    {
      retry := if policy.maxAttempts < 1 then policy.(maxAttempts := 1) else policy;
    }

    method WithoutRetries()
      modifies this
      ensures retry == old(retry).(maxAttempts := 1)
    {
      retry := retry.(maxAttempts := 1);
    }

    /** The status decision of one attempt. */
    predicate RetryableNow(status: int, safe: bool, attempt: nat)
      reads this
    {
      if attempt >= retry.maxAttempts then false
      else if status == 429 then true
      else if status == 500 || status == 502 || status == 503 || status == 504 then safe
      else false
    }

    /** The decisions after one attempt: return, having delivered the answer if there is one, or wait. */
    method Settle<B>(m: Moment<B>, safe: bool, attempt: nat, out: Slot?<B>) returns (verdict: Verdict)
      requires attempt >= 1
      modifies out
      ensures attempt < retry.maxAttempts && Retryable(retry, safe, out != null, m) ==>
                && !m.event.NotSent?
                && verdict.Again? && Max(0, verdict.delay) == WaitAfter(retry, attempt, m)
      ensures !(attempt < retry.maxAttempts && Retryable(retry, safe, out != null, m)) ==>
                verdict == Return(Meaning(out != null, m.event))
      ensures verdict == Return(Ok) && out != null ==> Delivered(m.event) == Some(out.value)
      ensures verdict != Return(Ok) && out != null ==> out.value == old(out.value)
    {
      var backoff := Delay(retry.baseDelay, retry.maxDelay, attempt, m.draw);
      hide Delay, ParseRetryAfter;
      match m.event
      case NotSent =>
        return Return(Err(RequestNotSent));
      case NoAnswer(cancelled) =>
        if cancelled {
          return Return(Err(Cancelled));
        }
        if safe && attempt < retry.maxAttempts {
          return Again(backoff);
        }
        return Return(Err(Transport));
      case Answered(status, retryAfter, body) =>
        if status >= 400 && status < 600 {
          if !RetryableNow(status, safe, attempt) {
            return Return(Err(Problem(status)));
          }
          var asked := ParseRetryAfter(retryAfter, m.dateDelay);
          if asked.Some? {
            if asked.value > retry.maxDelay {
              return Return(Err(Problem(status)));
            }
            return Again(asked.value);
          }
          return Again(backoff);
        }
        if status < 200 || status >= 300 {
          return Return(Err(UnexpectedStatus(status)));
        }
        if out == null {
          return Return(Ok);
        }
        match body
        case CutOff(cancelled) =>
          if cancelled {
            return Return(Err(Cancelled));
          }
          if safe && attempt < retry.maxAttempts {
            return Again(backoff);
          }
          return Return(Err(Transport));
        case Incompatible =>
          return Return(Err(DecodeFailed));
        case Decoded(value) =>
          out.value := value;
          return Return(Ok);
    }

    function RequestOf(verb: Verb, target: string, key: seq<Byte>, input: Input): (request: Request)
      requires !input.Unencodable?
      ensures request.verb == verb && request.target == target && request.key == key
      ensures input == Nothing <==> request.payload.None?
      ensures request.payload.Some? ==> input == Encoded(request.payload.value)
    {
      Request(verb, target, key, if input.Encoded? then Some(input.bytes) else None)
    }

    /** One call: every attempt carries the same request, and the answer is delivered whole or not at all. */
    method Do<B>(verb: Verb, target: string, key: seq<Byte>, input: Input, out: Slot?<B>, net: Network<B>)
      returns (result: Result)
      modifies net, out
      ensures input.Unencodable? || (key != [] && !Acceptable(key)) ==>
                result == Err(InvalidRequest) && net.trail == old(net.trail)
      ensures !input.Unencodable? && (key == [] || Acceptable(key)) ==>
                var start := old(net.trail);
                var run := Called(retry, RequestOf(verb, target, key, input), out != null, net.script, start.clock);
                && net.trail == After(start, run) && result == run.result
                && (result.Ok? && out != null ==>
                      Delivered(net.script(start.clock + run.attempts - 1).event) == Some(out.value))
      ensures result.Err? && out != null ==> out.value == old(out.value)
    {
      hide *;
      if input.Unencodable? {
        return Err(InvalidRequest);
      }
      if key != [] {
        var valid := Validate(key);
        if !valid {
          return Err(InvalidRequest);
        }
      }
      var request := RequestOf(verb, target, key, input);
      var safe := ReplaySafe(request);
      var attempt := 1;
      ghost var wanted := out != null;
      ghost var start := net.trail;
      Begin(retry, request, wanted, net.script, start);
      while true
        invariant attempt >= 1
        invariant Underway(retry, request, wanted, net.script, start, net.trail, attempt)
        invariant out != null ==> out.value == old(out.value)
        decreases retry.maxAttempts - attempt
      {
        ghost var now := net.trail;
        var m := net.Send(request);
        var verdict := Settle(m, safe, attempt, out);
        if verdict.Return? {
          Finish(retry, request, wanted, net.script, start, now, attempt);
          return verdict.result;
        }
        var cancelled := net.Wait(verdict.delay, m);
        if cancelled {
          GiveUp(retry, request, wanted, net.script, start, now, attempt);
          return Err(Cancelled);
        }
        Continue(retry, request, wanted, net.script, start, now, attempt);
        attempt := attempt + 1;
      }
    }

    /** A call that has to carry a key: without a good one nothing leaves the process. */
    method DoKeyed<B>(verb: Verb, target: string, key: seq<Byte>, input: Input, out: Slot?<B>, net: Network<B>)
      returns (result: Result)
      modifies net, out
      ensures input.Unencodable? || !Acceptable(key) ==> result == Err(InvalidRequest) && net.trail == old(net.trail)
      ensures !input.Unencodable? && Acceptable(key) ==>
                var start := old(net.trail);
                var run := Called(retry, RequestOf(verb, target, key, input), out != null, net.script, start.clock);
                && net.trail == After(start, run) && result == run.result
                && (result.Ok? && out != null ==>
                      Delivered(net.script(start.clock + run.attempts - 1).event) == Some(out.value))
      ensures result.Err? && out != null ==> out.value == old(out.value)
    {
      var valid := Validate(key);
      if !valid {
        return Err(InvalidRequest);
      }
      result := Do(verb, target, key, input, out, net);
    }
  }
}
