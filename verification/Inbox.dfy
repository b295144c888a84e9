/**
 The durable inbox: handler threads that accept deliveries, one worker that applies them, and
 a database whose transactions commit whole or not at all. Handlers, worker, failures and
 restarts interleave freely.
 */
module Inbox {
  import opened Prelude
  import opened Webhook

  /** The primary key of both tables. */
  datatype EventId = EventId(tenant: string, id: string)

  datatype Row = Row(body: string, signature: string, processed: bool)

  /** The committed database: inbox, effects, attempts and worker_failures. */
  datatype Tables = Tables(inbox: map<EventId, Row>, effects: seq<EventId>, attempts: seq<int>, failures: nat)

  const EMPTY_TABLES := Tables(map[], [], [], 0)

  // What a handler makes of one delivery.

  /**
   A body, as the receiver reads it: not JSON with two identifiers, JSON on which the lookups
   raise an error that is not caught, or an event. Identifiers are in their canonical text.
   */
  datatype Parsed =
    | Invalid
    | Shapeless
    | Event(tenant: string, id: string, hasType: bool, isText: bool)

  /** What the receiver does not decide: the MAC, and how a body reads. */
  datatype Rules = Rules(mac: Mac, parse: string -> Parsed)

  /** The signature header and the body, and the event-ID header, which nobody signs. */
  datatype Delivery = Delivery(size: Option<int>, header: string, body: string, eventIdHeader: string)

  datatype ConfigFile = Missing | Broken | Config(secret: string, tenant: string)

  datatype Conditions = Conditions(config: ConfigFile, now: int, rejecting: bool, diskFails: bool)

  datatype Admission = Take(id: EventId) | Answer(status: int) | BadLength | Drop

  const MAX_BODY := 1_048_576

  function Judge(rules: Rules, d: Delivery, c: Conditions): Admission {
    if d.size.None? then Drop
    else if d.size.value <= 0 || d.size.value > MAX_BODY then BadLength
    else
      match c.config
      case Missing => Answer(503)
      case Broken => Answer(401)
      case Config(secret, tenant) =>
        match PythonCheck(rules.mac, d.header, d.body, secret, c.now)
        case Failed => Answer(401)
        case Crashed => Drop
        case Passed =>
          match rules.parse(d.body)
          case Invalid => Answer(401)
          case Shapeless => Drop
          case Event(t, id, hasType, isText) =>
            if t != tenant || id == NIL_TEXT || !hasType then Answer(401)
            else if c.rejecting then Answer(503)
            else if !isText then Answer(401)
            else if c.diskFails then Answer(503)
            else Take(EventId(t, id))
  }

  /** The body is an event that can be taken, and names itself so. */
  ghost predicate ReadsAs(rules: Rules, body: string, id: EventId) {
    rules.parse(body) == Event(id.tenant, id.id, true, true) && id.id != NIL_TEXT
  }

  /** INSERT ... ON CONFLICT DO NOTHING. */
  function Enqueue(t: Tables, id: EventId, d: Delivery): Tables {
    if id in t.inbox then t else t.(inbox := t.inbox[id := Row(d.body, d.header, false)])
  }

  /** The database after the first half of a POST. */
  function Admitted(rules: Rules, t: Tables, d: Delivery, c: Conditions): Tables {
    var a := Judge(rules, d, c);
    if a.Take? then Enqueue(t, a.id, d) else t
  }

  /** The status that the second half will record and send, if there is a second half. */
  function StatusOf(a: Admission): Option<int> {
    match a
    case Take(_) => Some(200)
    case Answer(status) => Some(status)
    case _ => None
  }

  // Which deliveries are refused, and how.

  ghost predicate RightSize(d: Delivery) {
    d.size.Some? && 1 <= d.size.value <= 1_048_576
  }

  /** Refused before anything of it is read. */
  ghost predicate Oversized(d: Delivery) {
    d.size.Some? && !RightSize(d)
  }

  /** The signature holds, and the body is an event of this receiver's tenant. */
  ghost predicate ForUs(rules: Rules, d: Delivery, c: Conditions) {
    && c.config.Config? && PythonCheck(rules.mac, d.header, d.body, c.config.secret, c.now) == Passed
    && var p := rules.parse(d.body);
       && p.Event? && p.hasType && p.tenant == c.config.tenant
       && p.id != "00000000-0000-0000-0000-000000000000"
  }

  /** Not now: there is no configuration yet, the receiver is told to refuse, or the disk fails. */
  ghost predicate Unavailable(rules: Rules, d: Delivery, c: Conditions) {
    && RightSize(d)
    && (|| c.config.Missing?
        || (ForUs(rules, d, c) && (c.rejecting || (rules.parse(d.body).isText && c.diskFails))))
  }

  /** The connection is dropped, by an error that nobody catches. */
  ghost predicate Unanswerable(rules: Rules, d: Delivery, c: Conditions) {
    || d.size.None?
    || (&& RightSize(d) && c.config.Config?
        && var check := PythonCheck(rules.mac, d.header, d.body, c.config.secret, c.now);
           check == Crashed || (check == Passed && rules.parse(d.body).Shapeless?))
  }

  /** Not this: a broken configuration, a bad signature, a body that is no event, or another tenant's, or not text. */
  ghost predicate Unauthorized(rules: Rules, d: Delivery, c: Conditions) {
    && RightSize(d)
    && (|| c.config.Broken?
        || (&& c.config.Config?
            && var check := PythonCheck(rules.mac, d.header, d.body, c.config.secret, c.now);
               && check != Crashed
               && (check == Passed ==>
                     var p := rules.parse(d.body);
                     && !p.Shapeless?
                     && (ForUs(rules, d, c) ==> !c.rejecting && !p.isText))))
  }

  /** Every delivery gets the answer it should, or is taken. */
  lemma AnsweredExactly(rules: Rules, d: Delivery, c: Conditions)
    ensures var a := Judge(rules, d, c);
            && (a == BadLength <==> Oversized(d))
            && (StatusOf(a) == Some(503) <==> Unavailable(rules, d, c))
            && (StatusOf(a) == Some(401) <==> Unauthorized(rules, d, c))
            && (a == Drop <==> Unanswerable(rules, d, c))
            && (StatusOf(a) == Some(200) <==> a.Take?)
            && (a.Take? || a == BadLength || a == Drop || StatusOf(a) in {Some(401), Some(503)})
            && (StatusOf(a) == None <==> a == BadLength || a == Drop)
  {
    hide PythonCheck;
  }

  // What the worker does in one pass.

  /** Which of its transactions the storage fails, if any. */
  datatype Disk = Works | FailsFirst | FailsSecond

  function Pending(t: Tables): set<EventId> {
    set id | id in t.inbox && !t.inbox[id].processed
  }

  /** A pass over the chosen pending row: the database afterwards, and whether the thread is still running. */
  function WorkerPass(t: Tables, pick: Option<EventId>, failing: bool, disk: Disk): (Tables, bool) {
    if disk.FailsFirst? then (t, false)
    else if pick.None? then (t, true)
    else if pick.value in t.effects then (t, false)
    else if failing then (if disk.FailsSecond? then t else t.(failures := t.failures + 1), !disk.FailsSecond?)
    else if pick.value !in t.inbox then (t.(effects := t.effects + [pick.value]), true)
    else (t.(effects := t.effects + [pick.value],
             inbox := t.inbox[pick.value := t.inbox[pick.value].(processed := true)]), true)
  }

  /** The row a SELECT ... WHERE processed=0 LIMIT 1 may return. */
  predicate Selects(t: Tables, pick: Option<EventId>) {
    if Pending(t) == {} then pick.None? else pick.Some? && pick.value in Pending(t)
  }

  /** The process: its tables are on disk, its threads are not. */
  class Receiver {
    const rules: Rules
    var tables: Tables
    var workerRunning: bool

    constructor (rules: Rules, tables: Tables)
      ensures this.rules == rules && this.tables == tables && workerRunning
    {
      this.rules := rules;
      this.tables := tables;
      workerRunning := true;
    }

    /** The guarded half of a POST: every check, then one transaction. */
    method Accept(d: Delivery, c: Conditions) returns (a: Admission)
      modifies this`tables
      ensures a == Judge(rules, d, c) && tables == Admitted(rules, old(tables), d, c)
    {
      if d.size.None? {
        return Drop;
      }
      if d.size.value <= 0 || d.size.value > MAX_BODY {
        return BadLength;
      }
      if c.config.Missing? {
        return Answer(503);
      }
      if c.config.Broken? {
        return Answer(401);
      }
      var check := PythonCheck(rules.mac, d.header, d.body, c.config.secret, c.now);
      if check == Crashed {
        return Drop;
      }
      var parsed := rules.parse(d.body);
      if check == Failed || parsed.Invalid? {
        return Answer(401);
      }
      if parsed.Shapeless? {
        return Drop;
      }
      if !(parsed.tenant == c.config.tenant && parsed.id != NIL_TEXT && parsed.hasType) {
        return Answer(401);
      }
      if c.rejecting {
        return Answer(503);
      }
      var id := EventId(parsed.tenant, parsed.id);
      var transaction := tables;
      if !parsed.isText {
        return Answer(401);
      }
      if id !in transaction.inbox {
        transaction := transaction.(inbox := transaction.inbox[id := Row(d.body, d.header, false)]);
      }
      if c.diskFails {
        return Answer(503);
      }
      tables := transaction;
      return Take(id);
    }

    /** The unguarded half: the status is recorded, then sent; if recording it fails, nothing is sent. */
    method Reply(status: int, diskFails: bool) returns (sent: bool)
      modifies this`tables
      ensures sent == !diskFails
      ensures tables == if diskFails then old(tables) else old(tables).(attempts := old(tables).attempts + [status])
    {
      if diskFails {
        return false;
      }
      tables := tables.(attempts := tables.attempts + [status]);
      return true;
    }

    /**
     A whole POST, when nothing comes between its halves. The status None is a connection closed
     without one. Which status it is follows from the delivery and the circumstances alone.
     */
    method DoPost(d: Delivery, c: Conditions, replyFails: bool) returns (status: Option<int>)
      modifies this`tables
      ensures var a := Judge(rules, d, c); var code := StatusOf(a); var t := Admitted(rules, old(tables), d, c);
              && tables == (if code.Some? && !replyFails then t.(attempts := t.attempts + [code.value]) else t)
              && status == if a.BadLength? then Some(400) else if replyFails then None else code
      ensures status == Some(200) ==> Judge(rules, d, c).Take? && Judge(rules, d, c).id in tables.inbox
      ensures status.Some? && status != Some(200) ==> tables.inbox == old(tables).inbox
      ensures status == Some(400) <==> Oversized(d)
      ensures status == Some(503) <==> !replyFails && Unavailable(rules, d, c)
      ensures status == Some(401) <==> !replyFails && Unauthorized(rules, d, c)
      ensures status == None <==>
                || Unanswerable(rules, d, c)
                || (replyFails && !Oversized(d))
      ensures status.Some? ==> status.value in {200, 400, 401, 503}
    {
      AnsweredExactly(rules, d, c);
      hide Judge, Oversized, Unavailable, Unauthorized, Unanswerable, PythonCheck;
      var a := Accept(d, c);
      if a.BadLength? {
        return Some(400);
      }
      var code := StatusOf(a);
      if code.None? {
        return None;
      }
      var sent := Reply(code.value, replyFails);
      return if sent then code else None;
    }

    /** One turn of the worker's loop. Each branch that gives up leaves the transaction uncommitted. */
    method Work(failing: bool, disk: Disk) returns (ghost pick: Option<EventId>)
      modifies this
      ensures old(workerRunning) ==> Selects(old(tables), pick)
      ensures failing || disk.FailsFirst? ==>
                tables.inbox == old(tables).inbox && tables.effects == old(tables).effects
      ensures (tables, workerRunning) ==
                if old(workerRunning) then WorkerPass(old(tables), pick, failing, disk) else (old(tables), false)
    {
      pick := None;
      if !workerRunning {
        return;
      }
      if Pending(tables) != {} {
        var id :| id in Pending(tables);
        pick := Some(id);
        if disk.FailsFirst? {
          workerRunning := false;
          return;
        }
        var transaction := tables;
        if id in transaction.effects {
          workerRunning := false;
          return;
        }
        transaction := transaction.(effects := transaction.effects + [id]);
        if failing {
          if disk.FailsSecond? {
            workerRunning := false;
            return;
          }
          tables := tables.(failures := tables.failures + 1);
          return;
        }
        var row := transaction.inbox[id];
        transaction := transaction.(inbox := transaction.inbox[id := row.(processed := true)]);
        tables := transaction;
      } else if disk.FailsFirst? {
        workerRunning := false;
      }
    }

    /** The process dies and starts again on the same files. */
    method Restart()
      modifies this
      ensures tables == old(tables) && workerRunning
    {
      workerRunning := true;
    }
  }

  // The whole system.

  /** A handler between its two halves. */
  datatype Handler = Handler(status: int, about: Option<EventId>)

  /** acknowledged: the events for which a 200 has been sent, oldest first. */
  datatype System = System(tables: Tables, workerRunning: bool, handlers: seq<Handler>, acknowledged: seq<EventId>)

  const START := System(EMPTY_TABLES, true, [], [])

  datatype Action =
    | Deliver(d: Delivery, c: Conditions)
    | Finish(which: nat, diskFails: bool)
    | Pass(pick: Option<EventId>, failing: bool, disk: Disk)
    | Crash

  /** The action is one that can happen here. */
  predicate Enabled(s: System, action: Action) {
    match action
    case Finish(which, _) => which < |s.handlers|
    case Pass(pick, _, _) => s.workerRunning && Selects(s.tables, pick)
    case _ => true
  }

  function Act(rules: Rules, s: System, action: Action): System
    requires Enabled(s, action)
  {
    match action
    case Deliver(d, c) =>
      var a := Judge(rules, d, c);
      var code := StatusOf(a);
      s.(tables := Admitted(rules, s.tables, d, c),
         handlers := if code.None? then s.handlers
                     else s.handlers + [Handler(code.value, if a.Take? then Some(a.id) else None)])
    case Finish(which, diskFails) =>
      var h := s.handlers[which];
      var others := s.handlers[..which] + s.handlers[which + 1..];
      if diskFails then s.(handlers := others)
      else
        System(s.tables.(attempts := s.tables.attempts + [h.status]), s.workerRunning, others,
               if h.status == 200 && h.about.Some? then s.acknowledged + [h.about.value] else s.acknowledged)
    case Pass(pick, failing, disk) =>
      var (tables, running) := WorkerPass(s.tables, pick, failing, disk);
      s.(tables := tables, workerRunning := running)
    case Crash => s.(workerRunning := true, handlers := [])
  }

  /** A run: every state follows from the one before it by an action that is enabled there. */
  ghost predicate IsRun(rules: Rules, states: seq<System>, actions: seq<Action>) {
    && |states| == |actions| + 1
    && forall i :: 0 <= i < |actions| ==>
         Enabled(states[i], actions[i]) && states[i + 1] == Act(rules, states[i], actions[i])
  }

  // The invariant.

  ghost predicate NoRepeats<T>(s: seq<T>) {
    forall i, j :: 0 <= i < j < |s| ==> s[i] != s[j]
  }

  /** Exactly the processed rows have taken effect, each of them once. */
  ghost predicate EffectsAreProcessed(t: Tables) {
    && NoRepeats(t.effects)
    && forall id :: id in t.effects <==> id in t.inbox && t.inbox[id].processed
  }

  /** A 200 is on its way only for an event that is in the inbox. */
  ghost predicate Vouched(t: Tables, h: Handler) {
    && (h.status == 200 <==> h.about.Some?)
    && (h.about.Some? ==> h.about.value in t.inbox)
  }

  ghost predicate Inv(s: System) {
    && EffectsAreProcessed(s.tables)
    && (forall i :: 0 <= i < |s.handlers| ==> Vouched(s.tables, s.handlers[i]))
    && (forall id :: id in s.acknowledged ==> id in s.tables.inbox)
  }

  /**
   What never changes back: rows stay, with their first body and signature; processed stays
   processed; effects and acknowledgements only grow.
   */
  ghost predicate Later(before: System, after: System) {
    && (forall id :: id in before.tables.inbox ==>
          && id in after.tables.inbox
          && after.tables.inbox[id].body == before.tables.inbox[id].body
          && after.tables.inbox[id].signature == before.tables.inbox[id].signature
          && (before.tables.inbox[id].processed ==> after.tables.inbox[id].processed))
    && before.tables.effects <= after.tables.effects
    && before.acknowledged <= after.acknowledged
  }

  lemma PassKeepsEffects(t: Tables, pick: Option<EventId>, failing: bool, disk: Disk)
    requires EffectsAreProcessed(t) && Selects(t, pick)
    ensures EffectsAreProcessed(WorkerPass(t, pick, failing, disk).0)
    ensures pick.Some? ==> pick.value !in t.effects
  {
  }

  lemma StatusMeans(rules: Rules, d: Delivery, c: Conditions)
    ensures StatusOf(Judge(rules, d, c)) == Some(200) <==> Judge(rules, d, c).Take?
  {
    hide PythonCheck;
  }

  /** A delivery changes the inbox only to add its own verified event, and only when it will be answered with 200. */
  lemma OnlyAcceptedDeliveriesEnter(rules: Rules, t: Tables, d: Delivery, c: Conditions)
    ensures var after := Admitted(rules, t, d, c);
            && (StatusOf(Judge(rules, d, c)) != Some(200) ==> after == t)
            && (after != t ==>
                  && c.config.Config? && PythonCheck(rules.mac, d.header, d.body, c.config.secret, c.now) == Passed
                  && rules.parse(d.body).Event? && rules.parse(d.body).tenant == c.config.tenant
                  && var id := EventId(rules.parse(d.body).tenant, rules.parse(d.body).id);
                     id !in t.inbox && after == t.(inbox := t.inbox[id := Row(d.body, d.header, false)]))
            && (forall id :: id in t.inbox ==> id in after.inbox && after.inbox[id] == t.inbox[id])
  {
  }

  lemma DeliverKeepsInv(rules: Rules, s: System, d: Delivery, c: Conditions)
    requires Inv(s)
    ensures Inv(Act(rules, s, Deliver(d, c))) && Later(s, Act(rules, s, Deliver(d, c)))
  {
    StatusMeans(rules, d, c);
    OnlyAcceptedDeliveriesEnter(rules, s.tables, d, c);
    hide Judge, PythonCheck;
  }

  lemma FinishKeepsInv(rules: Rules, s: System, which: nat, diskFails: bool)
    requires Inv(s) && which < |s.handlers|
    ensures Inv(Act(rules, s, Finish(which, diskFails))) && Later(s, Act(rules, s, Finish(which, diskFails)))
  {
    assert Vouched(s.tables, s.handlers[which]);
  }

  lemma PassKeepsInv(rules: Rules, s: System, pick: Option<EventId>, failing: bool, disk: Disk)
    requires Inv(s) && Enabled(s, Pass(pick, failing, disk))
    ensures Inv(Act(rules, s, Pass(pick, failing, disk))) && Later(s, Act(rules, s, Pass(pick, failing, disk)))
  {
    PassKeepsEffects(s.tables, pick, failing, disk);
    hide EffectsAreProcessed;
    var after := WorkerPass(s.tables, pick, failing, disk).0;
    assert after.inbox.Keys == s.tables.inbox.Keys;
    forall i | 0 <= i < |s.handlers|
      ensures Vouched(after, s.handlers[i])
    {
      assert Vouched(s.tables, s.handlers[i]);
    }
  }

  lemma ActKeepsInv(rules: Rules, s: System, action: Action)
    requires Inv(s) && Enabled(s, action)
    ensures Inv(Act(rules, s, action)) && Later(s, Act(rules, s, action))
  {
    match action
    case Deliver(d, c) => DeliverKeepsInv(rules, s, d, c);
    case Finish(which, diskFails) => FinishKeepsInv(rules, s, which, diskFails);
    case Pass(pick, failing, disk) => PassKeepsInv(rules, s, pick, failing, disk);
    case Crash =>
  }

  lemma LaterTrans(a: System, b: System, c: System)
    requires Later(a, b) && Later(b, c)
    ensures Later(a, c)
  {
  }

  lemma LaterItself(s: System)
    ensures Later(s, s)
  {
  }

  /** Every state of every run: the invariant, and nothing earlier is ever taken back. */
  lemma {:induction false} RunKeepsInv(rules: Rules, states: seq<System>, actions: seq<Action>, i: nat, j: nat)
    requires IsRun(rules, states, actions) && i <= j < |states| && Inv(states[i])
    ensures Inv(states[j]) && Later(states[i], states[j])
    decreases j
  {
    hide Inv, Later, Act, Enabled;
    if i < j {
      RunKeepsInv(rules, states, actions, i, j - 1);
      assert states[j - 1 + 1] == Act(rules, states[j - 1], actions[j - 1]);
      ActKeepsInv(rules, states[j - 1], actions[j - 1]);
      LaterTrans(states[i], states[j - 1], states[j]);
    } else {
      LaterItself(states[i]);
    }
  }

  lemma StartIsGood()
    ensures Inv(START)
  {
  }

  /** The worker's INSERT never meets a row that is there already, so only a failing disk stops the worker. */
  lemma PrimaryKeyIsNeverHit(rules: Rules, states: seq<System>, actions: seq<Action>, j: nat)
    requires IsRun(rules, states, actions) && states[0] == START && j < |actions| && actions[j].Pass?
    ensures actions[j].pick.Some? ==> actions[j].pick.value !in states[j].tables.effects
    ensures actions[j].disk.Works? ==> states[j + 1].workerRunning
  {
    StartIsGood();
    RunKeepsInv(rules, states, actions, 0, j);
    PassKeepsEffects(states[j].tables, actions[j].pick, actions[j].failing, actions[j].disk);
  }

  /** Whatever is acknowledged at some point is in the inbox from then on, with one body and one signature. */
  lemma AcknowledgedIsDurable(rules: Rules, states: seq<System>, actions: seq<Action>, i: nat, j: nat, id: EventId)
    requires IsRun(rules, states, actions) && states[0] == START && i <= j < |states|
    requires id in states[i].acknowledged
    ensures id in states[i].tables.inbox && id in states[j].tables.inbox
    ensures states[j].tables.inbox[id].body == states[i].tables.inbox[id].body
    ensures states[j].tables.inbox[id].signature == states[i].tables.inbox[id].signature
  {
    StartIsGood();
    RunKeepsInv(rules, states, actions, 0, i);
    RunKeepsInv(rules, states, actions, i, j);
  }

  /** Exactly when a delivery is taken, and under which key. */
  lemma TakenExactly(rules: Rules, d: Delivery, c: Conditions, id: EventId)
    ensures Judge(rules, d, c) == Take(id) <==>
              && d.size.Some? && 1 <= d.size.value <= MAX_BODY
              && c.config.Config? && PythonCheck(rules.mac, d.header, d.body, c.config.secret, c.now) == Passed
              && ReadsAs(rules, d.body, id) && id.tenant == c.config.tenant
              && !c.rejecting && !c.diskFails
  {
    hide PythonCheck;
  }

  /**
   Every row of every reachable state came in by a delivery that was verified at that moment,
   was not there before, still shows that delivery's body and header, and is under the identity
   that its own body names.
   */
  lemma {:induction false} EveryRowWasVerified(rules: Rules, states: seq<System>, actions: seq<Action>,
                                               j: nat, id: EventId)
    returns (i: nat)
    requires IsRun(rules, states, actions) && states[0] == START && j < |states|
    requires id in states[j].tables.inbox
    ensures i < j && id !in states[i].tables.inbox
    ensures actions[i].Deliver? && Judge(rules, actions[i].d, actions[i].c) == Take(id)
    ensures states[j].tables.inbox[id].body == actions[i].d.body
    ensures states[j].tables.inbox[id].signature == actions[i].d.header
    ensures ReadsAs(rules, states[j].tables.inbox[id].body, id)
    decreases j
  {
    hide Judge, Inv, PythonCheck, ReadsAs;
    var s, action := states[j - 1], actions[j - 1];
    assert states[j - 1 + 1] == Act(rules, s, action);
    if id in s.tables.inbox {
      i := EveryRowWasVerified(rules, states, actions, j - 1, id);
      StartIsGood();
      RunKeepsInv(rules, states, actions, 0, j - 1);
      ActKeepsInv(rules, s, action);
    } else {
      i := j - 1;
      TakenExactly(rules, action.d, action.c, id);
    }
  }

  /**
   So the SDK verifies, at that moment and with the receiver's window, every stored row whose
   timestamp is canonical and whose secret was not empty.
   */
  lemma StoredRowsVerifyInGo(rules: Rules, states: seq<System>, actions: seq<Action>, j: nat, id: EventId)
    returns (secret: string, now: int)
    requires IsRun(rules, states, actions) && states[0] == START && j < |states|
    requires id in states[j].tables.inbox
    ensures var row := states[j].tables.inbox[id];
            IsClock(now) && IsCanonical(row.signature) && secret != "" ==>
              VerifySignature(rules.mac, row.signature, row.body, secret, PYTHON_TOLERANCE, now) == Webhook.Accepted
    ensures exists i :: 0 <= i < j && actions[i].Deliver? && actions[i].c.config.Config?
                        && actions[i].c.config.secret == secret && actions[i].c.now == now
  {
    var i := EveryRowWasVerified(rules, states, actions, j, id);
    TakenExactly(rules, actions[i].d, actions[i].c, id);
    secret, now := actions[i].c.config.secret, actions[i].c.now;
    if IsClock(now) {
      SdkAgrees(rules.mac, actions[i].d.header, actions[i].d.body, secret, now);
    }
  }

  /** The Go decoder finds in the body these identifiers, and a type. */
  ghost predicate DecodesTo(decode: string -> Option<Envelope>, body: string, id: EventId) {
    match decode(body)
    case None => false
    case Some(e) => EventId(e.tenant, e.id) == id && e.kind != ""
  }

  /**
   And ParseEvent gives a stored row's own key exactly when the Go decoder finds in the body what
   the receiver found, and the receiver was not set up for the zero tenant.
   */
  lemma StoredRowsParseInGo(rules: Rules, decode: string -> Option<Envelope>,
                            states: seq<System>, actions: seq<Action>, j: nat, id: EventId)
    requires IsRun(rules, states, actions) && states[0] == START && j < |states|
    requires id in states[j].tables.inbox
    ensures var body := states[j].tables.inbox[id].body; var event := ParseEvent(decode, body);
            && (event.Some? && EventId(event.value.tenant, event.value.id) == id
                <==> DecodesTo(decode, body, id) && id.tenant != NIL_TEXT)
            && (DecodesTo(decode, body, id) && id.tenant == NIL_TEXT ==> event.None?)
  {
    var i := EveryRowWasVerified(rules, states, actions, j, id);
  }

  // Deliveries of one body.

  /**
   Once an event has been taken, delivering it again adds no row and no effect, and changes no
   row: whatever the headers, the configuration and the clock are by then, and whatever else has
   happened meanwhile. The same event is the same body, or any body that reads as its identity.
   */
  lemma RedeliveryAddsNothing(rules: Rules, states: seq<System>, actions: seq<Action>, i: nat, j: nat, id: EventId)
    requires IsRun(rules, states, actions) && states[0] == START && i < j < |actions|
    requires actions[i].Deliver? && Judge(rules, actions[i].d, actions[i].c) == Take(id)
    requires actions[j].Deliver? && (actions[j].d.body == actions[i].d.body || ReadsAs(rules, actions[j].d.body, id))
    ensures states[j + 1].tables == states[j].tables
    ensures Judge(rules, actions[j].d, actions[j].c).Take? ==> Judge(rules, actions[j].d, actions[j].c) == Take(id)
  {
    hide Inv, PythonCheck;
    TakenExactly(rules, actions[i].d, actions[i].c, id);
    StartIsGood();
    RunKeepsInv(rules, states, actions, 0, i);
    assert states[i + 1] == Act(rules, states[i], actions[i]);
    ActKeepsInv(rules, states[i], actions[i]);
    assert id in states[i + 1].tables.inbox;
    RunKeepsInv(rules, states, actions, i + 1, j);
    assert states[j + 1] == Act(rules, states[j], actions[j]);
    var a := Judge(rules, actions[j].d, actions[j].c);
    if a.Take? {
      TakenExactly(rules, actions[j].d, actions[j].c, a.id);
    }
  }

  /** In every reachable state, one body is in one row at most, and so takes effect at most once. */
  lemma EachSignedBodyOnce(rules: Rules, states: seq<System>, actions: seq<Action>, j: nat)
    requires IsRun(rules, states, actions) && states[0] == START && j < |states|
    ensures var t := states[j].tables;
            && (forall id, id' :: id in t.inbox && id' in t.inbox && t.inbox[id].body == t.inbox[id'].body ==>
                  id == id')
            && (forall p :: 0 <= p < |t.effects| ==> t.effects[p] in t.inbox)
            && (forall p, q :: 0 <= p < q < |t.effects| ==> t.inbox[t.effects[p]].body != t.inbox[t.effects[q]].body)
  {
    hide Judge, Act;
    var t := states[j].tables;
    forall id, id' | id in t.inbox && id' in t.inbox && t.inbox[id].body == t.inbox[id'].body
      ensures id == id'
    {
      var _ := EveryRowWasVerified(rules, states, actions, j, id);
      var _ := EveryRowWasVerified(rules, states, actions, j, id');
    }
    StartIsGood();
    RunKeepsInv(rules, states, actions, 0, j);
  }

  function CountOf<T(==)>(s: seq<T>, x: T): nat {
    if s == [] then 0 else CountOf(s[..|s| - 1], x) + if s[|s| - 1] == x then 1 else 0
  }

  lemma {:induction false} CountWithoutRepeats<T>(s: seq<T>, x: T)
    requires NoRepeats(s)
    ensures CountOf(s, x) == if x in s then 1 else 0
  {
    if s != [] {
      CountWithoutRepeats(s[..|s| - 1], x);
    }
  }

  /**
   Exactly once: in every reachable state in which nothing is pending, every acknowledged event
   has taken effect once; and in every reachable state no event has taken effect twice, nor at
   all without a verified delivery in the inbox.
   */
  lemma ExactlyOnce(rules: Rules, states: seq<System>, actions: seq<Action>, j: nat, id: EventId)
    requires IsRun(rules, states, actions) && states[0] == START && j < |states|
    ensures var t := states[j].tables;
            && CountOf(t.effects, id) <= 1
            && (CountOf(t.effects, id) == 1 <==> id in t.inbox && t.inbox[id].processed)
            && (id in states[j].acknowledged && Pending(t) == {} ==> CountOf(t.effects, id) == 1)
  {
    StartIsGood();
    RunKeepsInv(rules, states, actions, 0, j);
    CountWithoutRepeats(states[j].tables.effects, id);
    if id in states[j].acknowledged && Pending(states[j].tables) == {} {
      assert id !in Pending(states[j].tables);
    }
  }

  // What each step does, over runs.

  /**
   The injected failure undoes the pass: neither the effect nor the marker stays, and the failure
   is counted once. A failing disk undoes it as well, and stops the worker.
   */
  lemma FailingPassUndoes(rules: Rules, states: seq<System>, actions: seq<Action>, j: nat)
    requires IsRun(rules, states, actions) && states[0] == START && j < |actions| && actions[j].Pass?
    ensures var before, after := states[j], states[j + 1]; var disk := actions[j].disk;
            && (actions[j].failing || disk.FailsFirst? ==>
                  after.tables.inbox == before.tables.inbox && after.tables.effects == before.tables.effects)
            && (actions[j].failing && actions[j].pick.Some? && disk.Works? ==>
                  after == before.(tables := before.tables.(failures := before.tables.failures + 1)))
            && (disk.FailsFirst? || (actions[j].failing && actions[j].pick.Some? && disk.FailsSecond?) ==>
                  after == before.(workerRunning := false))
  {
    StartIsGood();
    RunKeepsInv(rules, states, actions, 0, j);
    PassKeepsEffects(states[j].tables, actions[j].pick, actions[j].failing, actions[j].disk);
    hide Inv, EffectsAreProcessed;
  }

  /** An undisturbed pass over a pending row makes its effect and marks it, and does nothing else. */
  lemma GoodPassApplies(rules: Rules, states: seq<System>, actions: seq<Action>, j: nat)
    requires IsRun(rules, states, actions) && states[0] == START && j < |actions| && actions[j].Pass?
    requires !actions[j].failing && !actions[j].disk.FailsFirst?
    ensures var before, after := states[j].tables, states[j + 1].tables; var pick := actions[j].pick;
            if pick.None? then states[j + 1] == states[j]
            else
              && pick.value in before.inbox && !before.inbox[pick.value].processed
              && states[j + 1].workerRunning && after.effects == before.effects + [pick.value]
              && after.inbox == before.inbox[pick.value := before.inbox[pick.value].(processed := true)]
              && after.attempts == before.attempts && after.failures == before.failures
  {
    StartIsGood();
    RunKeepsInv(rules, states, actions, 0, j);
    PassKeepsEffects(states[j].tables, actions[j].pick, actions[j].failing, actions[j].disk);
    hide Inv, EffectsAreProcessed;
  }

  /** And nothing else ever makes an effect or marks a row. */
  lemma OnlyGoodPassesApply(rules: Rules, states: seq<System>, actions: seq<Action>, j: nat, id: EventId)
    requires IsRun(rules, states, actions) && states[0] == START && j < |actions|
    requires || states[j + 1].tables.effects != states[j].tables.effects
             || (id in states[j].tables.inbox && id in states[j + 1].tables.inbox
                 && states[j + 1].tables.inbox[id] != states[j].tables.inbox[id])
    ensures actions[j].Pass? && !actions[j].failing && !actions[j].disk.FailsFirst? && actions[j].pick.Some?
  {
    hide Judge;
    assert states[j + 1] == Act(rules, states[j], actions[j]);
    if actions[j].Pass? {
      FailingPassUndoes(rules, states, actions, j);
      if !actions[j].failing && !actions[j].disk.FailsFirst? {
        GoodPassApplies(rules, states, actions, j);
      }
    }
  }

  /**
   The event is in the inbox, with this body and header unless it was there already, and a 200
   for it is on its way.
   */
  function Delivered(s: System, id: EventId, d: Delivery): System {
    var inbox := if id in s.tables.inbox then s.tables.inbox
                 else s.tables.inbox[id := Row(d.body, d.header, false)];
    s.(tables := s.tables.(inbox := inbox), handlers := s.handlers + [Handler(200, Some(id))])
  }

  /** A delivery gets its handler with the right status, or none; and it changes the tables only by being taken. */
  lemma DeliverExactly(rules: Rules, states: seq<System>, actions: seq<Action>, j: nat)
    requires IsRun(rules, states, actions) && j < |actions| && actions[j].Deliver?
    ensures var d, c := actions[j].d, actions[j].c; var before, after := states[j], states[j + 1];
            && (Oversized(d) || Unanswerable(rules, d, c) ==> after == before)
            && (Unavailable(rules, d, c) ==> after == before.(handlers := before.handlers + [Handler(503, None)]))
            && (Unauthorized(rules, d, c) ==> after == before.(handlers := before.handlers + [Handler(401, None)]))
            && (!Oversized(d) && !Unanswerable(rules, d, c)
                && !Unavailable(rules, d, c) && !Unauthorized(rules, d, c) ==>
                  exists id :: ReadsAs(rules, d.body, id) && after == Delivered(before, id, d))
  {
    var d, c := actions[j].d, actions[j].c;
    AnsweredExactly(rules, d, c);
    hide Oversized, Unanswerable, Unavailable, Unauthorized, PythonCheck;
    assert states[j + 1] == Act(rules, states[j], actions[j]);
    var a := Judge(rules, d, c);
    if a.Take? {
      TakenExactly(rules, d, c, a.id);
      assert states[j + 1] == Delivered(states[j], a.id, d);
    }
  }

  /** A reply is recorded and sent, or neither; a 200 counts as acknowledgement of the handler's event. */
  lemma FinishExactly(rules: Rules, states: seq<System>, actions: seq<Action>, j: nat)
    requires IsRun(rules, states, actions) && j < |actions| && actions[j].Finish?
    ensures var before, after := states[j], states[j + 1]; var which := actions[j].which;
            && which < |before.handlers| && var h := before.handlers[which];
            && after.handlers == before.handlers[..which] + before.handlers[which + 1..]
            && (actions[j].diskFails ==> after.tables == before.tables && after.acknowledged == before.acknowledged)
            && (!actions[j].diskFails ==>
                  && after.tables == before.tables.(attempts := before.tables.attempts + [h.status])
                  && after.acknowledged
                     == before.acknowledged + (if h.status == 200 && h.about.Some? then [h.about.value] else []))
  {
    assert states[j + 1] == Act(rules, states[j], actions[j]);
  }

  /** A crash takes the handlers with it, and nothing that was committed. */
  lemma CrashKeepsTables(rules: Rules, states: seq<System>, actions: seq<Action>, j: nat)
    requires IsRun(rules, states, actions) && j < |actions| && actions[j].Crash?
    ensures states[j + 1] == System(states[j].tables, true, [], states[j].acknowledged)
  {
    assert states[j + 1] == Act(rules, states[j], actions[j]);
  }

  /** Over every run, the recorded statuses that are 200 are as many as the acknowledgements sent. */
  lemma {:induction false} RecordsMatchReplies(rules: Rules, states: seq<System>, actions: seq<Action>, j: nat)
    requires IsRun(rules, states, actions) && states[0] == START && j < |states|
    ensures CountOf(states[j].tables.attempts, 200) == |states[j].acknowledged|
    decreases j
  {
    if j > 0 {
      RecordsMatchReplies(rules, states, actions, j - 1);
      StartIsGood();
      RunKeepsInv(rules, states, actions, 0, j - 1);
      hide Judge, EffectsAreProcessed, PythonCheck;
      var s, action := states[j - 1], actions[j - 1];
      assert states[j - 1 + 1] == Act(rules, s, action);
      if action.Finish? {
        var h := s.handlers[action.which];
        assert Vouched(s.tables, h);
        assert (s.tables.attempts + [h.status])[..|s.tables.attempts|] == s.tables.attempts;
      }
    }
  }

  // Draining.

  /** The worker runs alone and nothing fails. */
  ghost predicate Undisturbed(actions: seq<Action>) {
    forall i :: 0 <= i < |actions| ==> actions[i].Pass? && !actions[i].failing && actions[i].disk.Works?
  }

  lemma OnePassDrains(t: Tables, pick: Option<EventId>)
    requires EffectsAreProcessed(t) && Selects(t, pick)
    ensures var (after, running) := WorkerPass(t, pick, false, Works);
            && running && after.inbox.Keys == t.inbox.Keys
            && |Pending(after)| == if Pending(t) == {} then 0 else |Pending(t)| - 1
  {
    var after := WorkerPass(t, pick, false, Works).0;
    if pick.Some? {
      assert Pending(after) == Pending(t) - {pick.value};
    }
  }

  lemma InvHasEffects(s: System)
    requires Inv(s)
    ensures EffectsAreProcessed(s.tables)
  {
  }

  /**
   Left alone, the worker processes one pending row a pass: after k passes min(k, pending) of
   them are done, and once there have been as many passes as rows pending, all of them are.
   */
  lemma {:induction false} Drains(rules: Rules, states: seq<System>, actions: seq<Action>, k: nat)
    requires IsRun(rules, states, actions) && Undisturbed(actions) && Inv(states[0]) && k < |states|
    ensures |Pending(states[k].tables)| == Max(0, |Pending(states[0].tables)| - k)
    ensures states[k].tables.inbox.Keys == states[0].tables.inbox.Keys
    decreases k
  {
    if k > 0 {
      Drains(rules, states, actions, k - 1);
      RunKeepsInv(rules, states, actions, 0, k - 1);
      hide Inv, Pending, Selects, WorkerPass;
      var s, action := states[k - 1], actions[k - 1];
      assert states[k - 1 + 1] == Act(rules, s, action);
      InvHasEffects(s);
      OnePassDrains(s.tables, action.pick);
    }
  }

  /**
   From any reachable state, as many undisturbed passes as rows are pending apply everything in
   the inbox, once each.
   */
  lemma DrainedMeansApplied(rules: Rules, states: seq<System>, actions: seq<Action>, from: nat, id: EventId)
    requires IsRun(rules, states, actions) && states[0] == START && from <= |actions|
    requires Undisturbed(actions[from..]) && |actions| - from >= |Pending(states[from].tables)|
    ensures id in states[from].tables.inbox ==> CountOf(states[|actions|].tables.effects, id) == 1
  {
    hide Act, Inv;
    StartIsGood();
    RunKeepsInv(rules, states, actions, 0, from);
    var states', actions' := states[from..], actions[from..];
    assert IsRun(rules, states', actions') by {
      hide Enabled;
      forall i | 0 <= i < |actions'|
        ensures Enabled(states'[i], actions'[i]) && states'[i + 1] == Act(rules, states'[i], actions'[i])
      {
        assert states'[i] == states[from + i] && actions'[i] == actions[from + i];
        assert states'[i + 1] == states[from + i + 1];
      }
    }
    Drains(rules, states', actions', |actions'|);
    ExactlyOnce(rules, states, actions, |actions|, id);
    var end := states[|actions|].tables;
    assert states'[|actions'|] == states[|actions|];
    assert Pending(end) == {};
    assert id !in Pending(end);
  }
}
