/**
 The other side of the protocol: a server that stores the first answer under a key, and a wire
 that may lose, cut, garble or replace anything. Against it, what the calls of any number of
 clients can bring about.
 */
module Exchange {
  import opened Prelude
  import opened Idempotency
  import opened Clients
  import opened Resilience

  datatype Reply<+B> = Reply(status: int, body: B)

  datatype Stored<+B> = Stored(request: Request, reply: Reply<B>)

  /** The answers kept under keys, and every effect there has been, oldest first. */
  datatype Server<+B> = Server(store: map<seq<Byte>, Stored<B>>, effects: seq<Request>)

  /** What the business behind the server makes of a request that it has not answered before. */
  datatype Decision<+B> = Perform(reply: Reply<B>) | Refuse(reply: Reply<B>, remember: bool)

  predicate IsRead(request: Request) {
    request.verb == GET || request.verb == HEAD
  }

  const CONFLICT := 409

  /**
   A read acts on nothing; a known key is replayed, or refused if the request differs; otherwise
   the decision is carried out.
   */
  function Handle<B>(server: Server<B>, request: Request, decision: Decision<B>): (Server<B>, Reply<B>) {
    var key := request.key;
    if IsRead(request) then (server, decision.reply)
    else if key in server.store then
      var known := server.store[key];
      (server, if known.request == request then known.reply else Reply(CONFLICT, decision.reply.body))
    else
      var kept := if key != [] && (decision.Perform? || decision.remember)
                  then server.store[key := Stored(request, decision.reply)] else server.store;
      (Server(kept, if decision.Perform? then server.effects + [request] else server.effects), decision.reply)
  }

  /** What becomes of the server's reply on its way back. */
  datatype Wire =
    | Intact(retryAfter: string)
    | LostReturning(cancelled: bool)
    | Truncated(cancelled: bool)
    | Garbled
    | Replaced(status: int, retryAfter: string)

  /** What becomes of one attempt. */
  datatype Fate<+B> =
    | Unsent
    | LostGoing(cancelled: bool)
    | Throttled(retryAfter: string)
    | Intercepted(status: int, retryAfter: string)
    | Landed(decision: Decision<B>, wire: Wire)

  datatype Try<+B> = Try(fate: Fate<B>, draw: nat, dateDelay: Option<nat>, cancelledWaiting: bool)

  /** Effects are answered with 2xx, refusals with 4xx or 5xx. */
  ghost predicate Candid<B>(decision: Decision<B>) {
    if decision.Perform? then IsSuccess(decision.reply.status) else IsProblem(decision.reply.status)
  }

  /**
   The only assumptions on the world: an effect is answered with 2xx and a refusal with 4xx or
   5xx; nobody but the server speaks 2xx; and a server that says 429 has done nothing.
   */
  ghost predicate Honest<B>(fate: Fate<B>) {
    match fate
    case Intercepted(status, _) => !IsSuccess(status)
    case Landed(decision, wire) =>
      && Candid(decision)
      && (wire.Replaced? ==> !IsSuccess(wire.status) && wire.status != 429)
    case _ => true
  }

  function Carried<B>(reply: Reply<B>, wire: Wire): Event<B> {
    match wire
    case Intact(retryAfter) => Answered(reply.status, retryAfter, Decoded(reply.body))
    case LostReturning(cancelled) => NoAnswer(cancelled)
    case Truncated(cancelled) => Answered(reply.status, "", CutOff(cancelled))
    case Garbled => Answered(reply.status, "", Incompatible)
    case Replaced(status, retryAfter) => Answered(status, retryAfter, Incompatible)
  }

  /** One attempt: its effect on the server, and what the client sees. */
  function Attempt<B>(server: Server<B>, request: Request, t: Try<B>): (Server<B>, Moment<B>) {
    var (after, event) :=
      match t.fate
      case Unsent => (server, NotSent)
      case LostGoing(cancelled) => (server, NoAnswer(cancelled))
      case Throttled(retryAfter) => (server, Answered(429, retryAfter, Incompatible))
      case Intercepted(status, retryAfter) => (server, Answered(status, retryAfter, Incompatible))
      case Landed(decision, wire) =>
        var (then', reply) := Handle(server, request, decision);
        (then', Carried(reply, wire));
    (after, Moment(event, t.draw, t.dateDelay, t.cancelledWaiting))
  }

  // The server's invariant.

  function Count(effects: seq<Request>, key: seq<Byte>): nat {
    if effects == [] then 0
    else Count(effects[..|effects| - 1], key) + if effects[|effects| - 1].key == key then 1 else 0
  }

  ghost predicate KeptAt<B>(server: Server<B>, key: seq<Byte>) {
    key in server.store ==> key != [] && server.store[key].request.key == key
  }

  ghost predicate CountedAt<B>(server: Server<B>, key: seq<Byte>) {
    key != [] ==>
      Count(server.effects, key) == if key in server.store && IsSuccess(server.store[key].reply.status) then 1 else 0
  }

  ghost predicate Owned<B>(store: map<seq<Byte>, Stored<B>>, effect: Request) {
    effect.key != [] ==> effect.key in store && store[effect.key].request == effect
  }

  /**
   Every key has at most one effect; it has one exactly when a 2xx answer is stored under it,
   and that effect is the very request the answer was given to.
   */
  ghost predicate Sound<B>(server: Server<B>) {
    && (forall key :: KeptAt(server, key))
    && (forall key :: CountedAt(server, key))
    && (forall i :: 0 <= i < |server.effects| ==> Owned(server.store, server.effects[i]))
  }

  lemma NewServerIsSound<B>()
    ensures Sound<B>(Server(map[], []))
  {
  }

  /** Stored answers are never changed or dropped. */
  ghost predicate Keeps<B>(before: Server<B>, after: Server<B>) {
    forall key :: key in before.store ==> key in after.store && after.store[key] == before.store[key]
  }

  /** No effect, or this one: and a keyed one only under a key that was not known. */
  ghost predicate AtMostThis<B>(before: Server<B>, after: Server<B>, request: Request) {
    || after.effects == before.effects
    || (&& after.effects == before.effects + [request]
        && (request.key != [] ==> request.key !in before.store && request.key in after.store))
  }

  lemma CountSnoc(effects: seq<Request>, request: Request, key: seq<Byte>)
    ensures Count(effects + [request], key) == Count(effects, key) + if request.key == key then 1 else 0
  {
    assert (effects + [request])[..|effects|] == effects;
  }

  lemma NewEffect<B>(server: Server<B>, request: Request, reply: Reply<B>)
    requires Sound(server) && IsSuccess(reply.status) && request.key !in server.store
    ensures var kept := if request.key == [] then server.store else server.store[request.key := Stored(request, reply)];
            Sound(Server(kept, server.effects + [request]))
  {
    var kept := if request.key == [] then server.store else server.store[request.key := Stored(request, reply)];
    var after := Server(kept, server.effects + [request]);
    forall key
      ensures KeptAt(after, key) && CountedAt(after, key)
    {
      assert KeptAt(server, key) && CountedAt(server, key);
      CountSnoc(server.effects, request, key);
    }
    forall i | 0 <= i < |after.effects|
      ensures Owned(after.store, after.effects[i])
    {
      assert i < |server.effects| ==> Owned(server.store, server.effects[i]);
    }
  }

  lemma NewRefusal<B>(server: Server<B>, request: Request, reply: Reply<B>)
    requires Sound(server) && !IsSuccess(reply.status) && request.key != [] && request.key !in server.store
    ensures Sound(Server(server.store[request.key := Stored(request, reply)], server.effects))
  {
    var after := Server(server.store[request.key := Stored(request, reply)], server.effects);
    forall key
      ensures KeptAt(after, key) && CountedAt(after, key)
    {
      assert KeptAt(server, key) && CountedAt(server, key);
    }
    forall i | 0 <= i < |after.effects|
      ensures Owned(after.store, after.effects[i])
    {
      assert Owned(server.store, server.effects[i]);
    }
  }

  lemma HandleKeepsSound<B>(server: Server<B>, request: Request, decision: Decision<B>)
    requires Sound(server) && Candid(decision)
    ensures var after := Handle(server, request, decision).0;
            Sound(after) && Keeps(server, after) && AtMostThis(server, after, request)
  {
    hide Sound;
    if !IsRead(request) && request.key !in server.store {
      if decision.Perform? {
        NewEffect(server, request, decision.reply);
      } else if request.key != [] {
        NewRefusal(server, request, decision.reply);
      }
    }
  }

  /** A 2xx answer to a write that reached the client. */
  ghost predicate Confirms<B>(before: Server<B>, after: Server<B>, request: Request, event: Event<B>) {
    if request.key == [] then after.effects == before.effects + [request]
    else
      && request.key in after.store
      && var known := after.store[request.key];
         && known.request == request && IsSuccess(known.reply.status)
         && (Delivered(event).Some? ==> Delivered(event) == Some(known.reply.body))
  }

  lemma KeyIsNotEmpty<B>(server: Server<B>, key: seq<Byte>)
    requires Sound(server) && key in server.store
    ensures key != []
  {
    assert KeptAt(server, key);
  }

  ghost predicate WasRefused<B>(m: Moment<B>) {
    m.event.Answered? && m.event.status == 429
  }

  /** Everything there is to know about one attempt at a write. */
  lemma AttemptFacts<B>(server: Server<B>, request: Request, t: Try<B>)
    requires Sound(server) && Honest(t.fate)
    ensures var (after, m) := Attempt(server, request, t);
            && Sound(after) && Keeps(server, after) && AtMostThis(server, after, request)
            && (IsRead(request) ==> after == server)
            && (WasRefused(m) ==> after.effects == server.effects)
            && (!IsRead(request) && m.event.Answered? && IsSuccess(m.event.status) ==>
                  Confirms(server, after, request, m.event))
  {
    if request.key in server.store {
      KeyIsNotEmpty(server, request.key);
    }
    hide Sound;
    if t.fate.Landed? {
      HandleKeepsSound(server, request, t.fate.decision);
    }
  }

  /** The effects under this request's key are one, and it is this request's. */
  ghost predicate ExactlyOne<B>(server: Server<B>, request: Request) {
    && Count(server.effects, request.key) == 1
    && request.key in server.store && server.store[request.key].request == request
  }

  /**
   What the server answers to a keyed write that lands twice in a row. The first decision stands,
   unless it was a refusal not worth remembering: the same request gets its answer again, another
   one under the key is refused with 409, and neither has an effect of its own.
   */
  lemma FirstAnswerStands<B>(server: Server<B>, request: Request, first: Try<B>, again: Request, second: Try<B>,
                             retryAfter: string)
    requires !IsRead(request) && request.key != [] && request.key !in server.store
    requires !IsRead(again) && again.key == request.key
    requires first.fate.Landed? && second.fate.Landed? && second.fate.wire == Intact(retryAfter)
    ensures var decision := first.fate.decision; var reply := decision.reply;
            var middle := Attempt(server, request, first).0;
            var (end, m) := Attempt(middle, again, second);
            && middle.effects == (if decision.Perform? then server.effects + [request] else server.effects)
            && (decision.Perform? || decision.remember ==>
                  && end == middle
                  && (again == request ==> m.event == Answered(reply.status, retryAfter, Decoded(reply.body)))
                  && (again != request ==> m.event.Answered? && m.event.status == 409))
            && (decision.Refuse? && !decision.remember ==> middle == server)
  {
  }

  // One call.

  function ServerAt<B>(server: Server<B>, request: Request, tries: nat -> Try<B>, n: nat): Server<B> {
    if n == 0 then server else Attempt(ServerAt(server, request, tries, n - 1), request, tries(n - 1)).0
  }

  /** What the client of a single call sees, attempt by attempt. */
  function Seen<B>(server: Server<B>, request: Request, tries: nat -> Try<B>, n: nat): Moment<B> {
    Attempt(ServerAt(server, request, tries, n), request, tries(n)).1
  }

  function Script<B>(server: Server<B>, request: Request, tries: nat -> Try<B>): nat -> Moment<B> {
    (n: nat) => Seen(server, request, tries, n)
  }

  lemma KeepsTrans<B>(a: Server<B>, b: Server<B>, c: Server<B>)
    requires Keeps(a, b) && Keeps(b, c)
    ensures Keeps(a, c)
  {
  }

  /** However often a keyed write is sent, and whatever becomes of it, it takes effect at most once. */
  lemma {:induction false} KeyedProgress<B>(server: Server<B>, request: Request, tries: nat -> Try<B>, n: nat)
    requires Sound(server) && request.key != [] && forall i :: 0 <= i < n ==> Honest(tries(i).fate)
    ensures var now := ServerAt(server, request, tries, n);
            Sound(now) && Keeps(server, now) && AtMostThis(server, now, request)
  {
    hide Sound;
    if n > 0 {
      KeyedProgress(server, request, tries, n - 1);
      var before := ServerAt(server, request, tries, n - 1);
      AttemptFacts(before, request, tries(n - 1));
      KeepsTrans(server, before, ServerAt(server, request, tries, n));
    }
  }

  /** An unkeyed write is sent again only after refusals, and refusals have no effect. */
  lemma {:induction false} UnkeyedProgress<B>(server: Server<B>, request: Request, tries: nat -> Try<B>, n: nat)
    requires Sound(server) && request.key == [] && forall i :: 0 <= i < n ==> Honest(tries(i).fate)
    requires forall i :: 0 <= i < n ==> WasRefused(Seen(server, request, tries, i))
    ensures var now := ServerAt(server, request, tries, n);
            Sound(now) && Keeps(server, now) && now.effects == server.effects
  {
    hide Sound, Attempt, AtMostThis, Confirms;
    if n > 0 {
      UnkeyedProgress(server, request, tries, n - 1);
      var before := ServerAt(server, request, tries, n - 1);
      assert WasRefused(Seen(server, request, tries, n - 1));
      AttemptFacts(before, request, tries(n - 1));
      KeepsTrans(server, before, ServerAt(server, request, tries, n));
    }
  }

  lemma UnsafeRetriesOnly429<B>(policy: RetryPolicy, wanted: bool, m: Moment<B>)
    requires Retryable(policy, false, wanted, m)
    ensures WasRefused(m)
  {
  }

  /** The end of a call's run, in terms of its last attempt. */
  lemma LastAttempt<B>(policy: RetryPolicy, request: Request, wanted: bool, script: nat -> Moment<B>)
    ensures var run := Called(policy, request, wanted, script, 0); var last := script(run.attempts - 1);
            && (forall i :: 0 <= i < run.attempts - 1 ==> Retryable(policy, ReplaySafe(request), wanted, script(i)))
            && (run.result.Ok? ==> last.event.Answered? && IsSuccess(last.event.status)
                                   && (wanted ==> Delivered(last.event).Some?))
  {
    hide Retryable;
    LongestRetryablePrefix(policy, ReplaySafe(request), wanted, script, 0, 1);
  }

  lemma OneEffect<B>(server: Server<B>, request: Request)
    requires Sound(server) && request.key != [] && request.key in server.store
    requires server.store[request.key].request == request && IsSuccess(server.store[request.key].reply.status)
    ensures ExactlyOne(server, request)
  {
    assert CountedAt(server, request.key);
  }

  /**
   At most one effect per call, keyed or not, under any loss; success means exactly one, and
   the answer delivered is the one the server keeps for it.
   */
  lemma AtMostOnce<B>(policy: RetryPolicy, request: Request, wanted: bool, server: Server<B>, tries: nat -> Try<B>)
    requires Sound(server) && !IsRead(request) && forall i: nat :: Honest(tries(i).fate)
    ensures var script := Script(server, request, tries);
            var run := Called(policy, request, wanted, script, 0);
            var end := ServerAt(server, request, tries, run.attempts);
            && Sound(end) && Keeps(server, end) && AtMostThis(server, end, request)
            && (run.result.Ok? ==>
                  if request.key == [] then end.effects == server.effects + [request]
                  else
                    && ExactlyOne(end, request)
                    && (wanted ==>
                          Delivered(script(run.attempts - 1).event) == Some(end.store[request.key].reply.body)))
  {
    hide Sound, Keeps, Called, Retryable;
    var script := Script(server, request, tries);
    var run := Called(policy, request, wanted, script, 0);
    var n := run.attempts - 1;
    LastAttempt(policy, request, wanted, script);
    if request.key == [] {
      forall i | 0 <= i < n
        ensures WasRefused(Seen(server, request, tries, i))
      {
        assert script(i) == Seen(server, request, tries, i);
        UnsafeRetriesOnly429(policy, wanted, script(i));
      }
      UnkeyedProgress(server, request, tries, n);
    } else {
      KeyedProgress(server, request, tries, n);
      KeyedProgress(server, request, tries, n + 1);
    }
    var before := ServerAt(server, request, tries, n);
    var end := ServerAt(server, request, tries, n + 1);
    AttemptFacts(before, request, tries(n));
    KeepsTrans(server, before, end);
    assert script(n) == Seen(server, request, tries, n);
    if request.key != [] && run.result.Ok? {
      OneEffect(end, request);
    }
  }

  ghost predicate Lost<B>(fate: Fate<B>, wanted: bool) {
    || fate == LostGoing(false)
    || (fate.Landed? && (fate.wire == LostReturning(false) || (wanted && fate.wire == Truncated(false))))
  }

  /**
   A keyed call that comes through: until try f nothing arrives, try f is the first to land and
   takes effect, from then on only answers are lost, and that to try j is not.
   */
  ghost predicate ComesBack<B>(request: Request, wanted: bool, server: Server<B>, tries: nat -> Try<B>,
                               f: nat, j: nat) {
    && !IsRead(request) && request.key != [] && request.key !in server.store && f <= j
    && (forall i: nat :: i < j ==> !tries(i).cancelledWaiting && Lost(tries(i).fate, wanted))
    && (forall i: nat :: i < f ==> tries(i).fate == LostGoing(false))
    && (forall i: nat :: i == f || i == j ==> tries(i).fate.Landed?)
    && tries(f).fate.decision.Perform? && 200 <= tries(f).fate.decision.reply.status < 300
    && tries(j).fate.wire.Intact?
  }

  /** The server after the first effect. */
  function AfterFirst<B>(server: Server<B>, request: Request, reply: Reply<B>): Server<B> {
    Server(server.store[request.key := Stored(request, reply)], server.effects + [request])
  }

  lemma {:induction false} ServerThen<B>(request: Request, wanted: bool, server: Server<B>, tries: nat -> Try<B>,
                                         f: nat, j: nat, n: nat)
    requires ComesBack(request, wanted, server, tries, f, j) && n <= j + 1
    ensures ServerAt(server, request, tries, n)
            == if n <= f then server else AfterFirst(server, request, tries(f).fate.decision.reply)
  {
    if n > 0 {
      ServerThen(request, wanted, server, tries, f, j, n - 1);
      assert n - 1 < j ==> Lost(tries(n - 1).fate, wanted);
    }
  }

  /** What the client sees of such a call: faults that pass, and then the first answer. */
  lemma SeenThen<B>(request: Request, wanted: bool, server: Server<B>, tries: nat -> Try<B>, f: nat, j: nat, n: nat)
    requires ComesBack(request, wanted, server, tries, f, j) && n <= j
    ensures var m := Seen(server, request, tries, n); var reply := tries(f).fate.decision.reply;
            if n < j then
              && !m.cancelledWaiting
              && (|| m.event == NoAnswer(false)
                  || (wanted && m.event == Answered(reply.status, "", CutOff(false))))
              && 200 <= reply.status < 300
            else
              && m.event.Answered? && m.event.status == reply.status && 200 <= reply.status < 300
              && m.event.body == Decoded(reply.body)
  {
    ServerThen(request, wanted, server, tries, f, j, n);
    hide ServerAt;
    assert n < j ==> Lost(tries(n).fate, wanted);
  }

  /**
   Such a call succeeds, within as many attempts as the policy allows, with the answer to the try
   that landed first; and it has taken effect exactly once.
   */
  lemma KeyedCallSucceeds<B>(policy: RetryPolicy, request: Request, wanted: bool, server: Server<B>,
                             tries: nat -> Try<B>, f: nat, j: nat)
    requires ComesBack(request, wanted, server, tries, f, j) && j < policy.maxAttempts
    ensures var script := Script(server, request, tries);
            var run := Called(policy, request, wanted, script, 0);
            var reply := tries(f).fate.decision.reply;
            && tries(f).fate.Landed? && run.result == Ok && run.attempts == j + 1
            && Delivered(script(j).event) == Some(reply.body)
            && ServerAt(server, request, tries, j + 1) == AfterFirst(server, request, reply)
  {
    hide ServerAt, Seen, Called;
    var script := Script(server, request, tries);
    forall n: nat | n < j
      ensures !script(n).cancelledWaiting
      ensures var e := script(n).event;
              || e == NoAnswer(false)
              || (wanted && e.Answered? && 200 <= e.status < 300 && e.body == CutOff(false))
    {
      SeenThen(request, wanted, server, tries, f, j, n);
    }
    SeenThen(request, wanted, server, tries, f, j, j);
    ComesThroughFaults(policy, request, wanted, script, 0, j);
    ServerThen(request, wanted, server, tries, f, j, j + 1);
  }

  /** A throttled server has done nothing yet. */
  lemma {:induction false} ThrottledSoFar<B>(request: Request, server: Server<B>, tries: nat -> Try<B>, n: nat)
    requires forall i: nat :: i < n ==> tries(i).fate == Throttled("")
    ensures ServerAt(server, request, tries, n) == server
  {
    if n > 0 {
      ThrottledSoFar(request, server, tries, n - 1);
    }
  }

  /**
   A write without a key is sent again while the server is throttling, and succeeds once. If the
   answer is lost it fails there and then, with the effect made: it is not sent a second time.
   */
  lemma UnkeyedCallLandsOnce<B>(policy: RetryPolicy, request: Request, wanted: bool, server: Server<B>,
                                tries: nat -> Try<B>, j: nat)
    requires !IsRead(request) && request.key == [] && request.key !in server.store && j < policy.maxAttempts
    requires forall i: nat :: i < j ==> tries(i).fate == Throttled("") && !tries(i).cancelledWaiting
    requires var fate := tries(j).fate;
             && fate.Landed? && fate.decision.Perform? && 200 <= fate.decision.reply.status < 300
             && (fate.wire.Intact? || fate.wire == LostReturning(false))
    ensures var script := Script(server, request, tries);
            var run := Called(policy, request, wanted, script, 0);
            var fate := tries(j).fate;
            && run.attempts == j + 1
            && run.result == (if fate.wire.Intact? then Ok else Err(Transport))
            && (fate.wire.Intact? ==> Delivered(script(j).event) == Some(fate.decision.reply.body))
            && ServerAt(server, request, tries, j + 1) == Server(server.store, server.effects + [request])
  {
    hide Called;
    var script := Script(server, request, tries);
    forall n: nat | n <= j
      ensures ServerAt(server, request, tries, n) == server
    {
      ThrottledSoFar(request, server, tries, n);
    }
    assert ServerAt(server, request, tries, j + 1) == Attempt(server, request, tries(j)).0;
    hide ServerAt;
    UnkeyedWriteStops(policy, request, wanted, script, 0, j);
  }

  /**
   An answer of the wrong shape is final, with a key or without: the call fails, and its effect
   has been made once.
   */
  lemma UnreadableAnswerIsFinal<B>(policy: RetryPolicy, request: Request, server: Server<B>, tries: nat -> Try<B>)
    requires !IsRead(request) && request.key !in server.store
    requires var fate := tries(0).fate;
             && fate.Landed? && fate.decision.Perform? && 200 <= fate.decision.reply.status < 300 && fate.wire.Garbled?
    ensures var run := Called(policy, request, true, Script(server, request, tries), 0);
            && run.attempts == 1 && run.result == Err(DecodeFailed)
            && ServerAt(server, request, tries, 1).effects == server.effects + [request]
  {
    hide Called;
    var script := Script(server, request, tries);
    assert script(0) == Attempt(server, request, tries(0)).1;
    CallExactly(policy, request, true, script, 0, 0);
  }

  /**
   The client's own loop against that server: what the caller holds is what the server keeps, and
   it happened once. It does succeed, with the first answer, if faults no more than pass.
   */
  method CallOnce<B>(policy: RetryPolicy, verb: Verb, target: string, key: seq<Byte>, payload: string, blank: B,
                     server: Server<B>, tries: nat -> Try<B>)
    returns (result: Result, answer: B, end: Server<B>)
    requires Sound(server) && Acceptable(key) && verb != GET && verb != HEAD
    requires forall i: nat :: Honest(tries(i).fate)
    ensures var request := Request(verb, target, key, Some(payload));
            && Sound(end) && Keeps(server, end) && AtMostThis(server, end, request)
            && (result.Ok? ==> ExactlyOne(end, request) && answer == end.store[key].reply.body)
    ensures result.Err? ==> answer == blank
    ensures forall f: nat, j: nat ::
              var request := Request(verb, target, key, Some(payload));
              ComesBack(request, true, server, tries, f, j) && j < policy.maxAttempts ==>
                && tries(f).fate.Landed? && result == Ok
                && answer == tries(f).fate.decision.reply.body
                && end == AfterFirst(server, request, tries(f).fate.decision.reply)
  {
    hide Sound, Keeps, AtMostThis, ExactlyOne, Called, ServerAt, Script, Seen, Delivered, Honest, ComesBack;
    var request := Request(verb, target, key, Some(payload));
    var client := new Client();
    client.WithRetryPolicy(policy);
    var net := new Network(Script(server, request, tries));
    ghost var run := Called(client.retry, request, true, net.script, 0);
    AtMostOnce(client.retry, request, true, server, tries);
    var out := new Slot(blank);
    assert client.RequestOf(verb, target, key, Encoded(payload)) == request && key != [];
    result := client.DoKeyed(verb, target, key, Encoded(payload), out, net);
    assert result == run.result && net.trail.clock == run.attempts;
    answer := out.value;
    end := ServerAt(server, request, tries, net.trail.clock);
    forall f: nat, j: nat | ComesBack(request, true, server, tries, f, j) && j < policy.maxAttempts
      ensures tries(f).fate.Landed? && result == Ok
      ensures answer == tries(f).fate.decision.reply.body
      ensures end == AfterFirst(server, request, tries(f).fate.decision.reply)
    {
      KeyedCallSucceeds(client.retry, request, true, server, tries, f, j);
    }
  }

  /** A read changes nothing, however often it is tried. */
  lemma {:induction false} ReadsChangeNothing<B>(server: Server<B>, request: Request, tries: nat -> Try<B>, n: nat)
    requires IsRead(request)
    ensures ServerAt(server, request, tries, n) == server
  {
    if n > 0 {
      ReadsChangeNothing(server, request, tries, n - 1);
    }
  }
}
