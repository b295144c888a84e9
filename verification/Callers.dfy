/**
 Any number of calls at once, by any number of processes, against one server: their attempts
 interleave in any order, calls may start late or be abandoned at any point, and calls may
 share a key, with the same request or with different ones.
 */
module Callers {
  import opened Prelude
  import opened Clients
  import opened Exchange

  /** One call: what it sends, what it has seen so far, and its result once it has returned. */
  datatype Caller<+B> =
    Caller(policy: RetryPolicy, request: Request, wanted: bool, log: seq<Moment<B>>, result: Option<Result>)

  datatype World<+B> = World(server: Server<B>, callers: seq<Caller<B>>)

  /** The caller's own decision after one more attempt. */
  function Observe<B>(caller: Caller<B>, m: Moment<B>): Caller<B> {
    var attempt := |caller.log| + 1;
    var retry := attempt < caller.policy.maxAttempts
                 && Retryable(caller.policy, ReplaySafe(caller.request), caller.wanted, m)
                 && !m.cancelledWaiting;
    Caller(caller.policy, caller.request, caller.wanted, caller.log + [m],
           if retry then None
           else Some(Outcome(caller.policy, ReplaySafe(caller.request), caller.wanted, m, attempt)))
  }

  /** One step: some caller that has not returned makes one attempt. A call never picked again is an abandoned one. */
  function Step<B>(world: World<B>, who: nat, t: Try<B>): World<B> {
    if who >= |world.callers| || world.callers[who].result.Some? then world
    else
      var (server, m) := Attempt(world.server, world.callers[who].request, t);
      World(server, world.callers[who := Observe(world.callers[who], m)])
  }

  datatype Pick<+B> = Pick(who: nat, t: Try<B>)

  function Play<B>(world: World<B>, schedule: seq<Pick<B>>): World<B> {
    if schedule == [] then world
    else
      var last := schedule[|schedule| - 1];
      Step(Play(world, schedule[..|schedule| - 1]), last.who, last.t)
  }

  /** Nobody has sent anything yet. */
  ghost predicate Fresh<B>(world: World<B>) {
    && Sound(world.server)
    && forall i :: 0 <= i < |world.callers| ==> world.callers[i].log == [] && world.callers[i].result.None?
  }

  ghost predicate HonestPlay<B>(schedule: seq<Pick<B>>) {
    forall i :: 0 <= i < |schedule| ==> Honest(schedule[i].t.fate)
  }

  // Each caller runs the loop of Client.Do.

  ghost predicate Agrees<B>(script: nat -> Moment<B>, log: seq<Moment<B>>) {
    forall i :: 0 <= i < |log| ==> script(i) == log[i]
  }

  ghost predicate Proceeded<B>(caller: Caller<B>, i: nat)
    requires i < |caller.log|
  {
    && i + 1 < caller.policy.maxAttempts
    && Retryable(caller.policy, ReplaySafe(caller.request), caller.wanted, caller.log[i])
    && !caller.log[i].cancelledWaiting
  }

  /**
   The caller's log is that of the loop: it went on after each attempt but the last, and it
   returned when the loop would.
   */
  ghost predicate OnCourse<B>(caller: Caller<B>) {
    && (forall i :: 0 <= i < |caller.log| - 1 ==> Proceeded(caller, i))
    && (caller.log != [] && caller.result.None? ==> Proceeded(caller, |caller.log| - 1))
    && (caller.result.Some? ==>
          && caller.log != []
          && var n := |caller.log|;
             && !Proceeded(caller, n - 1)
             && caller.result.value
                == Outcome(caller.policy, ReplaySafe(caller.request), caller.wanted, caller.log[n - 1], n))
  }

  lemma {:induction false} AttemptsOfLog<B>(caller: Caller<B>, script: nat -> Moment<B>, at: nat)
    requires OnCourse(caller) && caller.result.Some? && Agrees(script, caller.log) && at < |caller.log|
    ensures Attempts(caller.policy, ReplaySafe(caller.request), caller.wanted, script, at, at + 1) == |caller.log| - at
    decreases |caller.log| - at
  {
    hide Retryable;
    if at + 1 < |caller.log| {
      assert Proceeded(caller, at);
      AttemptsOfLog(caller, script, at + 1);
    } else {
      assert !Proceeded(caller, at);
    }
  }

  /** A caller that has returned did what Client.Do does on the moments it saw: as many attempts, and that result. */
  lemma ReturnedAsDo<B>(caller: Caller<B>, script: nat -> Moment<B>)
    requires OnCourse(caller) && caller.result.Some? && Agrees(script, caller.log)
    ensures var run := Called(caller.policy, caller.request, caller.wanted, script, 0);
            run.attempts == |caller.log| && Some(run.result) == caller.result
  {
    hide Retryable, Outcome;
    AttemptsOfLog(caller, script, 0);
  }

  lemma ObserveStaysOnCourse<B>(caller: Caller<B>, m: Moment<B>)
    requires OnCourse(caller) && caller.result.None?
    ensures OnCourse(Observe(caller, m))
  {
    hide Retryable, Meaning;
    var after := Observe(caller, m);
    forall i | 0 <= i < |after.log| - 1
      ensures Proceeded(after, i)
    {
      assert Proceeded(caller, i);
    }
  }

  // What the callers know is what the server keeps.

  /** A caller whose keyed write succeeded: the key is stored for its very request, and it holds the stored answer. */
  ghost predicate Informed<B>(server: Server<B>, caller: Caller<B>) {
    caller.result == Some(Ok) && !IsRead(caller.request) && caller.request.key != [] ==>
      && caller.request.key in server.store
      && var known := server.store[caller.request.key];
         && known.request == caller.request && IsSuccess(known.reply.status)
         && (caller.wanted ==>
               && caller.log != []
               && Delivered(caller.log[|caller.log| - 1].event) == Some(known.reply.body))
  }

  ghost predicate Good<B>(world: World<B>) {
    && Sound(world.server)
    && forall i :: 0 <= i < |world.callers| ==> OnCourse(world.callers[i]) && Informed(world.server, world.callers[i])
  }

  lemma InformedLater<B>(before: Server<B>, after: Server<B>, caller: Caller<B>)
    requires Informed(before, caller) && Keeps(before, after)
    ensures Informed(after, caller)
  {
  }

  lemma SuccessMeans<B>(policy: RetryPolicy, safe: bool, wanted: bool, m: Moment<B>, attempt: nat)
    requires Outcome(policy, safe, wanted, m, attempt) == Ok
    ensures m.event.Answered? && IsSuccess(m.event.status) && (wanted ==> Delivered(m.event).Some?)
  {
    hide Retryable;
  }

  lemma ObserveInforms<B>(server: Server<B>, caller: Caller<B>, t: Try<B>)
    requires Sound(server) && Honest(t.fate) && caller.result.None?
    ensures var (after, m) := Attempt(server, caller.request, t); Informed(after, Observe(caller, m))
  {
    hide Retryable, Sound, Outcome, Attempt;
    AttemptFacts(server, caller.request, t);
    var m := Attempt(server, caller.request, t).1;
    if Observe(caller, m).result == Some(Ok) {
      SuccessMeans(caller.policy, ReplaySafe(caller.request), caller.wanted, m, |caller.log| + 1);
    }
  }

  lemma KeepsItself<B>(server: Server<B>)
    ensures Keeps(server, server)
  {
  }

  lemma StepKeepsGood<B>(world: World<B>, who: nat, t: Try<B>)
    requires Good(world) && Honest(t.fate)
    ensures Good(Step(world, who, t)) && Keeps(world.server, Step(world, who, t).server)
  {
    hide Sound, OnCourse, Informed, Observe, Attempt, Keeps;
    if who < |world.callers| && world.callers[who].result.None? {
      var caller := world.callers[who];
      var (server, m) := Attempt(world.server, caller.request, t);
      AttemptFacts(world.server, caller.request, t);
      ObserveStaysOnCourse(caller, m);
      ObserveInforms(world.server, caller, t);
      forall i | 0 <= i < |world.callers| && i != who
        ensures Informed(server, world.callers[i])
      {
        InformedLater(world.server, server, world.callers[i]);
      }
    } else {
      KeepsItself(world.server);
    }
  }

  lemma {:induction false} PlayKeepsGood<B>(world: World<B>, schedule: seq<Pick<B>>)
    requires Good(world) && HonestPlay(schedule)
    ensures Good(Play(world, schedule)) && Keeps(world.server, Play(world, schedule).server)
    decreases |schedule|
  {
    hide Good, Keeps, Honest, Step;
    if schedule == [] {
      KeepsItself(world.server);
    } else {
      var n := |schedule| - 1;
      assert forall i :: 0 <= i < n ==> schedule[..n][i] == schedule[i];
      PlayKeepsGood(world, schedule[..n]);
      var before := Play(world, schedule[..n]);
      StepKeepsGood(before, schedule[n].who, schedule[n].t);
      KeepsTrans(world.server, before.server, Play(world, schedule).server);
    }
  }

  lemma FreshIsGood<B>(world: World<B>)
    requires Fresh(world)
    ensures Good(world)
  {
    hide Sound;
  }

  /** The call was a write under this key, and returned nil. */
  ghost predicate Succeeded<B>(caller: Caller<B>, key: seq<Byte>) {
    caller.result == Some(Ok) && !IsRead(caller.request) && caller.request.key == key
  }

  function Answer<B>(caller: Caller<B>): Option<B> {
    if caller.log == [] then None else Delivered(caller.log[|caller.log| - 1].event)
  }

  /**
   Replay across calls. In every world that can be reached: no key has more than one effect;
   any two calls that succeeded under one key had sent the same request and hold the same
   answer; and what took effect under that key is their request and no other.
   */
  lemma ReplayAcrossCalls<B>(world: World<B>, schedule: seq<Pick<B>>, key: seq<Byte>, i: nat, j: nat)
    requires Fresh(world) && HonestPlay(schedule) && key != []
    ensures var end := Play(world, schedule);
            && Count(end.server.effects, key) <= 1
            && (i < |end.callers| && j < |end.callers|
                && Succeeded(end.callers[i], key) && Succeeded(end.callers[j], key) ==>
                  && end.callers[i].request == end.callers[j].request
                  && ExactlyOne(end.server, end.callers[i].request)
                  && (end.callers[i].wanted && end.callers[j].wanted ==>
                        Answer(end.callers[i]) == Answer(end.callers[j])))
  {
    FreshIsGood(world);
    PlayKeepsGood(world, schedule);
    var end := Play(world, schedule);
    assert CountedAt(end.server, key);
    if i < |end.callers| && j < |end.callers| && Succeeded(end.callers[i], key) && Succeeded(end.callers[j], key) {
      assert Informed(end.server, end.callers[i]) && Informed(end.server, end.callers[j]);
      OneEffect(end.server, end.callers[i].request);
    }
  }

  /** A different request under a key that has its answer never succeeds, and never takes effect. */
  lemma ReusedKeyHasNoEffect<B>(world: World<B>, schedule: seq<Pick<B>>, i: nat)
    requires Fresh(world) && HonestPlay(schedule)
    ensures var end := Play(world, schedule);
            i < |end.callers| ==>
              var request := end.callers[i].request;
              !IsRead(request) && request.key in end.server.store
              && end.server.store[request.key].request != request ==>
                && !Succeeded(end.callers[i], request.key)
                && request !in end.server.effects
  {
    FreshIsGood(world);
    PlayKeepsGood(world, schedule);
    var end := Play(world, schedule);
    if i < |end.callers| {
      var request := end.callers[i].request;
      assert Informed(end.server, end.callers[i]) && KeptAt(end.server, request.key);
      if request in end.server.effects {
        var k :| 0 <= k < |end.server.effects| && end.server.effects[k] == request;
        assert Owned(end.server.store, end.server.effects[k]);
      }
    }
  }
}
