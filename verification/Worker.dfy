/**
 * Workers consuming the stream: a message is fetched with its delivery number, processed in one
 * transaction, and acknowledged, dead-lettered or handed back. Workers crash anywhere, and an
 * unacknowledged message may be fetched again while an earlier handler is still at work.
 */
module Worker {
  import opened Base
  import opened Events
  import opened Pipeline

  /** A payload that does not decode is `None`. */
  datatype Message = Message(payload: Option<Event>, deliveries: nat, acked: bool)

  datatype Ending = Acknowledged | HandedBack | Crashed | DeadLetterFailed

  datatype Phase = Received | Committed | Failed | DeadLettered | Done(how: Ending)

  datatype Handler = Handler(message: nat, number: nat, phase: Phase)

  datatype Bus = Bus(db: Database, messages: seq<Message>, handlers: seq<Handler>, deadLetters: seq<nat>)

  const START := Bus(EMPTY, [], [], [])

  datatype BusEvent =
    | Publish(payload: Option<Event>)
    | Fetch(message: nat)
    | Handle(handler: nat, env: Environment, databaseDown: bool)
    | PublishDeadLetter(handler: nat, ok: bool)
    | HandBack(handler: nat)
    | Ack(handler: nat)
    | Crash(handler: nat)
    | Operate(op: Op)

  /** The limit of the worker and, by the same default, of the stream it subscribes to. */
  function MaxDeliveries(configured: int): (n: nat)
    ensures n >= 2
    ensures n == configured || n == 5
    ensures configured >= 2 ==> n == configured
  {
    if configured < 2 then 5 else configured
  }

  predicate Stored(db: Database, e: Event, opt: Options) {
    TupleOf(e, opt) in Tuples(db.visible)
  }

  /** The stream stops delivering a message after `limit` deliveries. */
  predicate Enabled(bus: Bus, ev: BusEvent, limit: nat) {
    match ev
    case Publish(_) => true
    case Fetch(m) => m < |bus.messages| && !bus.messages[m].acked && bus.messages[m].deliveries < limit
    case Handle(h, _, _) => h < |bus.handlers| && bus.handlers[h].phase.Received? && bus.handlers[h].message < |bus.messages|
    case PublishDeadLetter(h, _) => h < |bus.handlers| && bus.handlers[h].phase.Failed? && bus.handlers[h].number >= limit
    case HandBack(h) => h < |bus.handlers| && bus.handlers[h].phase.Failed? && bus.handlers[h].number < limit
    case Ack(h) =>
      && h < |bus.handlers| && bus.handlers[h].message < |bus.messages|
      && (bus.handlers[h].phase.Committed? || bus.handlers[h].phase.DeadLettered?)
    case Crash(h) => h < |bus.handlers| && !bus.handlers[h].phase.Done?
    case Operate(op) => !op.Deliver?
  }

  function SetPhase(bus: Bus, h: nat, phase: Phase): Bus
    requires h < |bus.handlers|
  {
    bus.(handlers := bus.handlers[h := bus.handlers[h].(phase := phase)])
  }

  /** Processing commits unless the payload does not decode, the database is down, or the event is not deliverable. */
  predicate Commits(bus: Bus, h: nat, env: Environment, databaseDown: bool, opt: Options)
    requires h < |bus.handlers| && bus.handlers[h].message < |bus.messages|
  {
    var payload := bus.messages[bus.handlers[h].message].payload;
    payload.Some? && !databaseDown && (Stored(bus.db, payload.value, opt) || Deliverable(env))
  }

  /** Operators move and acknowledge incidents in the same database, between any two steps of the workers. */
  function Next(bus: Bus, ev: BusEvent, limit: nat, opt: Options): (r: Bus)
    requires Shaped(bus.db)
    ensures Shaped(r.db)
  {
    if !Enabled(bus, ev, limit) then bus else
    match ev
    case Publish(payload) => bus.(messages := bus.messages + [Message(payload, 0, false)])
    case Fetch(m) =>
      var number := bus.messages[m].deliveries + 1;
      bus.(messages := bus.messages[m := bus.messages[m].(deliveries := number)],
           handlers := bus.handlers + [Handler(m, number, Received)])
    case Handle(h, env, databaseDown) =>
      if Commits(bus, h, env, databaseDown, opt)
      then SetPhase(bus, h, Committed)
           .(db := Perform(bus.db, Deliver(bus.messages[bus.handlers[h].message].payload.value, env, false), opt))
      else SetPhase(bus, h, Failed)
    case PublishDeadLetter(h, ok) =>
      if ok then SetPhase(bus, h, DeadLettered).(deadLetters := bus.deadLetters + [bus.handlers[h].message])
      else SetPhase(bus, h, Done(DeadLetterFailed))
    case HandBack(h) => SetPhase(bus, h, Done(HandedBack))
    case Ack(h) =>
      var m := bus.handlers[h].message;
      SetPhase(bus, h, Done(Acknowledged)).(messages := bus.messages[m := bus.messages[m].(acked := true)])
    case Crash(h) => SetPhase(bus, h, Done(Crashed))
    case Operate(op) => bus.(db := Perform(bus.db, op, opt))
  }

  function Run(bus: Bus, events: seq<BusEvent>, limit: nat, opt: Options): (r: Bus)
    requires Shaped(bus.db)
    ensures Shaped(r.db)
    decreases |events|
  {
    if events == [] then bus else Run(Next(bus, events[0], limit, opt), events[1..], limit, opt)
  }

  /** The event is in the database, or the message has a copy in the dead-letter subject. */
  ghost predicate Kept(bus: Bus, m: nat, opt: Options)
    requires m < |bus.messages|
  {
    || (bus.messages[m].payload.Some? && Stored(bus.db, bus.messages[m].payload.value, opt))
    || m in bus.deadLetters
  }

  ghost predicate HandlerOk(bus: Bus, h: nat, limit: nat, opt: Options)
    requires h < |bus.handlers|
  {
    var handler := bus.handlers[h];
    && handler.message < |bus.messages|
    && 1 <= handler.number <= bus.messages[handler.message].deliveries
    && (handler.phase.Committed? || handler.phase.DeadLettered? || handler.phase == Done(Acknowledged) ==>
          Kept(bus, handler.message, opt))
    && (handler.phase == Done(HandedBack) ==> handler.number < limit)
  }

  /** Deliveries are numbered without gaps: delivery `n` of message `m` has its handler. */
  ghost predicate Fetched(bus: Bus, m: nat, n: nat) {
    exists h | 0 <= h < |bus.handlers| :: bus.handlers[h].message == m && bus.handlers[h].number == n
  }

  ghost predicate MessageOk(bus: Bus, m: nat, limit: nat, opt: Options)
    requires m < |bus.messages|
  {
    && bus.messages[m].deliveries <= limit
    && (bus.messages[m].acked ==> Kept(bus, m, opt))
    && (bus.messages[m].deliveries > 0 ==> Fetched(bus, m, bus.messages[m].deliveries))
  }

  ghost predicate BusOk(bus: Bus, limit: nat, opt: Options) {
    && Shaped(bus.db)
    && (forall h | 0 <= h < |bus.handlers| :: HandlerOk(bus, h, limit, opt))
    && (forall m | 0 <= m < |bus.messages| :: MessageOk(bus, m, limit, opt))
  }

  lemma StoredStays(db: Database, e: Event, env: Environment, opt: Options)
    requires Shaped(db)
    ensures Tuples(db.visible) <= Tuples(Perform(db, Deliver(e, env, false), opt).visible)
    ensures Stored(db, e, opt) || Deliverable(env) ==> Stored(Perform(db, Deliver(e, env, false), opt), e, opt)
  {
    ProcessVisible(db, e, env, opt);
    if Deliverable(env) { AdmitTuples(db.visible, e, env, opt); }
  }

  lemma OperatorsKeepTuples(db: Database, op: Op, opt: Options)
    requires Shaped(db) && !op.Deliver?
    ensures Tuples(Perform(db, op, opt).visible) == Tuples(db.visible)
  {
    assert Perform(db, op, opt).visible.events == db.visible.events;
  }

  /** What is kept stays kept, and a message keeps its payload. */
  lemma KeptStays(bus: Bus, ev: BusEvent, limit: nat, opt: Options, m: nat)
    requires Shaped(bus.db) && m < |bus.messages|
    ensures m < |Next(bus, ev, limit, opt).messages|
    ensures Next(bus, ev, limit, opt).messages[m].payload == bus.messages[m].payload
    ensures bus.messages[m].deliveries <= Next(bus, ev, limit, opt).messages[m].deliveries
    ensures Kept(bus, m, opt) ==> Kept(Next(bus, ev, limit, opt), m, opt)
  {
    if ev.Handle? && Enabled(bus, ev, limit) && Commits(bus, ev.handler, ev.env, ev.databaseDown, opt) {
      StoredStays(bus.db, bus.messages[bus.handlers[ev.handler].message].payload.value, ev.env, opt);
      hide Perform;
    } else if ev.Operate? && Enabled(bus, ev, limit) {
      OperatorsKeepTuples(bus.db, ev.op, opt);
      hide Perform;
    }
  }

  lemma HandlerKeeps(bus: Bus, ev: BusEvent, limit: nat, opt: Options, h: nat)
    requires BusOk(bus, limit, opt) && h < |Next(bus, ev, limit, opt).handlers|
    ensures HandlerOk(Next(bus, ev, limit, opt), h, limit, opt)
  {
    if h < |bus.handlers| {
      assert HandlerOk(bus, h, limit, opt);
      KeptStays(bus, ev, limit, opt, bus.handlers[h].message);
      if ev.Handle? && Enabled(bus, ev, limit) && Commits(bus, ev.handler, ev.env, ev.databaseDown, opt) {
        StoredStays(bus.db, bus.messages[bus.handlers[ev.handler].message].payload.value, ev.env, opt);
      }
      hide Perform;
    }
  }

  lemma FetchedStays(bus: Bus, ev: BusEvent, limit: nat, opt: Options, m: nat, n: nat)
    requires Shaped(bus.db) && Fetched(bus, m, n)
    ensures Fetched(Next(bus, ev, limit, opt), m, n)
  {
    var h :| 0 <= h < |bus.handlers| && bus.handlers[h].message == m && bus.handlers[h].number == n;
    hide Perform;
    hide Commits;
    assert h < |Next(bus, ev, limit, opt).handlers| && Next(bus, ev, limit, opt).handlers[h].message == m;
  }

  lemma MessageKeeps(bus: Bus, ev: BusEvent, limit: nat, opt: Options, m: nat)
    requires BusOk(bus, limit, opt) && m < |Next(bus, ev, limit, opt).messages|
    ensures MessageOk(Next(bus, ev, limit, opt), m, limit, opt)
  {
    if m < |bus.messages| {
      assert MessageOk(bus, m, limit, opt);
      KeptStays(bus, ev, limit, opt, m);
      var n := bus.messages[m].deliveries;
      if n > 0 { FetchedStays(bus, ev, limit, opt, m, n); }
      if ev.Ack? && Enabled(bus, ev, limit) { assert HandlerOk(bus, ev.handler, limit, opt); }
      if ev.Fetch? && Enabled(bus, ev, limit) && ev.message == m {
        assert Next(bus, ev, limit, opt).handlers[|bus.handlers|] == Handler(m, n + 1, Received);
      }
      hide Perform;
      hide Commits;
    }
  }

  lemma NextOk(bus: Bus, ev: BusEvent, limit: nat, opt: Options)
    requires BusOk(bus, limit, opt)
    ensures BusOk(Next(bus, ev, limit, opt), limit, opt)
  {
    hide HandlerOk;
    hide MessageOk;
    var bus' := Next(bus, ev, limit, opt);
    forall h | 0 <= h < |bus'.handlers| ensures HandlerOk(bus', h, limit, opt) { HandlerKeeps(bus, ev, limit, opt, h); }
    forall m | 0 <= m < |bus'.messages| ensures MessageOk(bus', m, limit, opt) { MessageKeeps(bus, ev, limit, opt, m); }
    hide Next;
  }

  lemma {:induction false} RunOk(bus: Bus, events: seq<BusEvent>, limit: nat, opt: Options)
    requires BusOk(bus, limit, opt)
    ensures BusOk(Run(bus, events, limit, opt), limit, opt)
    decreases |events|
  {
    hide Next;
    if events != [] {
      NextOk(bus, events[0], limit, opt);
      hide BusOk;
      RunOk(Next(bus, events[0], limit, opt), events[1..], limit, opt);
    }
  }

  /** An acknowledged message is in the database or in the dead-letter subject, in every run. */
  lemma {:induction false} AckOnlyAfterKept(events: seq<BusEvent>, limit: nat, opt: Options, m: nat)
    requires m < |Run(START, events, limit, opt).messages| && Run(START, events, limit, opt).messages[m].acked
    ensures Kept(Run(START, events, limit, opt), m, opt)
  {
    RunOk(START, events, limit, opt);
    assert MessageOk(Run(START, events, limit, opt), m, limit, opt);
  }

  /**
   * As long as the stream still delivers it, a message that decodes and whose channels are known is
   * stored and acknowledged by a worker that does not crash, whatever happened before.
   */
  lemma MessageCanBeStored(bus: Bus, m: nat, env: Environment, limit: nat, opt: Options)
    requires Shaped(bus.db) && m < |bus.messages| && !bus.messages[m].acked && bus.messages[m].deliveries < limit
    requires bus.messages[m].payload.Some? && Deliverable(env)
    ensures var h := |bus.handlers|;
            var after := Next(Next(Next(bus, Fetch(m), limit, opt), Handle(h, env, false), limit, opt), Ack(h), limit, opt);
            && m < |after.messages| && after.messages[m].acked
            && Stored(after.db, bus.messages[m].payload.value, opt)
  {
    hide Stored;
    hide Perform;
    StoredStays(bus.db, bus.messages[m].payload.value, env, opt);
    var fetched := Next(bus, Fetch(m), limit, opt);
    assert fetched.handlers[|bus.handlers|] == Handler(m, bus.messages[m].deliveries + 1, Received);
  }

  // ---- Messages the stream gives up on ----------------------------------------------------

  predicate AtRest(bus: Bus, m: nat) {
    forall h | 0 <= h < |bus.handlers| && bus.handlers[h].message == m :: bus.handlers[h].phase.Done?
  }

  /** No further delivery is due and no handler is left. */
  predicate GivenUp(bus: Bus, m: nat, limit: nat)
    requires m < |bus.messages|
  {
    bus.messages[m].deliveries >= limit && AtRest(bus, m)
  }

  /**
   * The stream's delivery limit is the worker's: a message that is given up on and kept nowhere
   * had its last handler crash or fail to publish the dead letter.
   */
  lemma {:induction false} LostOnlyInLastDelivery(events: seq<BusEvent>, configured: int, opt: Options, m: nat)
    requires m < |Run(START, events, MaxDeliveries(configured), opt).messages|
    requires GivenUp(Run(START, events, MaxDeliveries(configured), opt), m, MaxDeliveries(configured))
    requires !Kept(Run(START, events, MaxDeliveries(configured), opt), m, opt)
    ensures var limit := MaxDeliveries(configured);
            var bus := Run(START, events, limit, opt);
            exists h | 0 <= h < |bus.handlers| ::
              && bus.handlers[h].message == m && bus.handlers[h].number == limit
              && (bus.handlers[h].phase == Done(Crashed) || bus.handlers[h].phase == Done(DeadLetterFailed))
  {
    var limit := MaxDeliveries(configured);
    var bus := Run(START, events, limit, opt);
    RunOk(START, events, limit, opt);
    hide Run;
    assert MessageOk(bus, m, limit, opt);
    assert Fetched(bus, m, limit);
    var h :| 0 <= h < |bus.handlers| && bus.handlers[h].message == m && bus.handlers[h].number == limit;
    assert HandlerOk(bus, h, limit, opt);
    assert bus.handlers[h].phase.Done?;
    assert bus.handlers[h].phase.how.Crashed? || bus.handlers[h].phase.how.DeadLetterFailed?;
  }

  lemma GivenUpRests(bus: Bus, ev: BusEvent, limit: nat, opt: Options, m: nat)
    requires BusOk(bus, limit, opt) && m < |bus.messages| && GivenUp(bus, m, limit)
    ensures var bus' := Next(bus, ev, limit, opt);
            && m < |bus'.messages| && bus'.messages[m] == bus.messages[m] && GivenUp(bus', m, limit)
            && (m in bus'.deadLetters <==> m in bus.deadLetters)
  {
  }

  /** Nothing more happens to it: if the last dead letter was not published, none ever is. */
  lemma {:induction false} GivenUpForGood(bus: Bus, events: seq<BusEvent>, limit: nat, opt: Options, m: nat)
    requires BusOk(bus, limit, opt) && m < |bus.messages| && GivenUp(bus, m, limit)
    ensures var bus' := Run(bus, events, limit, opt);
            && m < |bus'.messages| && bus'.messages[m] == bus.messages[m]
            && (m in bus'.deadLetters <==> m in bus.deadLetters)
    decreases |events|
  {
    hide Next;
    hide GivenUp;
    if events != [] {
      GivenUpRests(bus, events[0], limit, opt, m);
      NextOk(bus, events[0], limit, opt);
      hide BusOk;
      GivenUpForGood(Next(bus, events[0], limit, opt), events[1..], limit, opt, m);
    }
  }

  lemma {:induction false} DeadLettersStay(bus: Bus, events: seq<BusEvent>, limit: nat, opt: Options)
    requires Shaped(bus.db)
    ensures bus.deadLetters <= Run(bus, events, limit, opt).deadLetters
    decreases |events|
  {
    if events != [] {
      assert bus.deadLetters <= Next(bus, events[0], limit, opt).deadLetters;
      hide Next;
      DeadLettersStay(Next(bus, events[0], limit, opt), events[1..], limit, opt);
    }
  }

  /** After the last delivery failed, the message is dead-lettered ever after if and only if that one publish succeeds. */
  lemma {:induction false} LastDeadLetterDecides(bus: Bus, h: nat, ok: bool, events: seq<BusEvent>, limit: nat, opt: Options)
    requires BusOk(bus, limit, opt) && h < |bus.handlers| && bus.handlers[h].phase.Failed? && bus.handlers[h].number >= limit
    requires forall k | 0 <= k < |bus.handlers| && k != h && bus.handlers[k].message == bus.handlers[h].message ::
               bus.handlers[k].phase.Done?
    requires bus.handlers[h].message !in bus.deadLetters
    ensures bus.handlers[h].message in Run(Next(bus, PublishDeadLetter(h, ok), limit, opt), events, limit, opt).deadLetters
            <==> ok
  {
    var m := bus.handlers[h].message;
    var bus' := Next(bus, PublishDeadLetter(h, ok), limit, opt);
    assert HandlerOk(bus, h, limit, opt);
    if ok {
      assert bus'.deadLetters[|bus.deadLetters|] == m;
      DeadLettersStay(bus', events, limit, opt);
      assert Run(bus', events, limit, opt).deadLetters[|bus.deadLetters|] == m;
    } else {
      NextOk(bus, PublishDeadLetter(h, ok), limit, opt);
      assert GivenUp(bus', m, limit);
      GivenUpForGood(bus', events, limit, opt, m);
    }
  }

  // ---- A message that is lost ----------------------------------------------------------------

  /** A payload that does not decode, after `k` deliveries whose handlers crashed. */
  function Crashing(k: nat): Bus {
    Bus(EMPTY, [Message(None, k, false)], seq(k, i requires 0 <= i => Handler(0, i + 1, Done(Crashed))), [])
  }

  function CrashRun(k: nat): seq<BusEvent> {
    if k == 0 then [Publish(None)] else CrashRun(k - 1) + [Fetch(0)] + [Crash(k - 1)]
  }

  lemma {:induction false} RunThen(bus: Bus, events: seq<BusEvent>, ev: BusEvent, limit: nat, opt: Options)
    requires Shaped(bus.db)
    ensures Run(bus, events + [ev], limit, opt) == Next(Run(bus, events, limit, opt), ev, limit, opt)
    decreases |events|
  {
    hide Next;
    if events == [] {
      assert (events + [ev])[1..] == [];
    } else {
      assert (events + [ev])[1..] == events[1..] + [ev];
      RunThen(Next(bus, events[0], limit, opt), events[1..], ev, limit, opt);
    }
  }

  lemma CrashOnce(k: nat, limit: nat, opt: Options)
    requires k < limit
    ensures Next(Next(Crashing(k), Fetch(0), limit, opt), Crash(k), limit, opt) == Crashing(k + 1)
  {
    var bus := Next(Crashing(k), Fetch(0), limit, opt);
    assert bus.handlers == Crashing(k).handlers + [Handler(0, k + 1, Received)];
    assert bus.handlers[k := Handler(0, k + 1, Done(Crashed))] == Crashing(k + 1).handlers;
  }

  lemma {:induction false} CrashesUpTo(k: nat, limit: nat, opt: Options)
    requires k <= limit
    ensures Run(START, CrashRun(k), limit, opt) == Crashing(k)
  {
    hide Next;
    if k == 0 {
      RunThen(START, [], Publish(None), limit, opt);
      PublishFirst(limit, opt);
      assert [] + [Publish(None)] == [Publish(None)];
    } else {
      CrashesUpTo(k - 1, limit, opt);
      CrashOnce(k - 1, limit, opt);
      RunThen(START, CrashRun(k - 1), Fetch(0), limit, opt);
      RunThen(START, CrashRun(k - 1) + [Fetch(0)], Crash(k - 1), limit, opt);
    }
  }

  lemma PublishFirst(limit: nat, opt: Options)
    ensures Next(START, Publish(None), limit, opt) == Crashing(0)
  {
  }

  /** The last delivery of the message fails, and so does its one dead letter. */
  function LastFailure(env: Environment, limit: nat): seq<BusEvent>
    requires limit > 0
  {
    CrashRun(limit - 1) + [Fetch(0)] + [Handle(limit - 1, env, false)]
  }

  lemma LastDeliveryFails(env: Environment, limit: nat, opt: Options)
    requires limit > 0
    ensures Next(Next(Crashing(limit - 1), Fetch(0), limit, opt), Handle(limit - 1, env, false), limit, opt)
            == Bus(EMPTY, [Message(None, limit, false)], Crashing(limit - 1).handlers + [Handler(0, limit, Failed)], [])
  {
    var bus := Next(Crashing(limit - 1), Fetch(0), limit, opt);
    assert bus.handlers == Crashing(limit - 1).handlers + [Handler(0, limit, Received)];
    assert bus.handlers[limit - 1 := Handler(0, limit, Failed)] == Crashing(limit - 1).handlers + [Handler(0, limit, Failed)];
  }

  /** For every limit some run loses a message for good: nothing stores it and no later run dead-letters it. */
  lemma MessageIsLost(env: Environment, configured: int, opt: Options, events: seq<BusEvent>)
    ensures var limit := MaxDeliveries(configured);
            var failed := Run(START, LastFailure(env, limit), limit, opt);
            var bus := Run(Next(failed, PublishDeadLetter(limit - 1, false), limit, opt), events, limit, opt);
            0 < |bus.messages| && !bus.messages[0].acked && !Kept(bus, 0, opt)
  {
    hide Run;
    var limit := MaxDeliveries(configured);
    CrashesUpTo(limit - 1, limit, opt);
    RunThen(START, CrashRun(limit - 1), Fetch(0), limit, opt);
    RunThen(START, CrashRun(limit - 1) + [Fetch(0)], Handle(limit - 1, env, false), limit, opt);
    LastDeliveryFails(env, limit, opt);
    var failed := Run(START, LastFailure(env, limit), limit, opt);
    StartOk(limit, opt);
    RunOk(START, LastFailure(env, limit), limit, opt);
    var bus := Next(failed, PublishDeadLetter(limit - 1, false), limit, opt);
    NextOk(failed, PublishDeadLetter(limit - 1, false), limit, opt);
    LastDeadLetterDecides(failed, limit - 1, false, events, limit, opt);
    GivenUpForGood(bus, events, limit, opt, 0);
  }

  lemma StartOk(limit: nat, opt: Options)
    ensures BusOk(START, limit, opt)
  {
  }

  // ---- The schedule the database sees -----------------------------------------------------

  /** The deliveries that committed and what operators did, in order. */
  function Schedule(bus: Bus, events: seq<BusEvent>, limit: nat, opt: Options): seq<Op>
    requires Shaped(bus.db)
    decreases |events|
  {
    if events == [] then [] else
    Delivered(bus, events[0], limit, opt) + Schedule(Next(bus, events[0], limit, opt), events[1..], limit, opt)
  }

  function Delivered(bus: Bus, ev: BusEvent, limit: nat, opt: Options): seq<Op>
    requires Shaped(bus.db)
  {
    if ev.Handle? && Enabled(bus, ev, limit) && Commits(bus, ev.handler, ev.env, ev.databaseDown, opt)
    then [Deliver(bus.messages[bus.handlers[ev.handler].message].payload.value, ev.env, false)]
    else if ev.Operate? && Enabled(bus, ev, limit) then [ev.op] else []
  }

  lemma {:induction false} DatabaseStep(bus: Bus, ev: BusEvent, limit: nat, opt: Options)
    requires Shaped(bus.db)
    ensures Next(bus, ev, limit, opt).db == Pipeline.Run(bus.db, Delivered(bus, ev, limit, opt), opt)
  {
  }

  lemma {:induction false} ScheduleConcat(db: Database, first: seq<Op>, second: seq<Op>, opt: Options)
    requires Shaped(db)
    ensures Pipeline.Run(db, first + second, opt) == Pipeline.Run(Pipeline.Run(db, first, opt), second, opt)
    decreases |first|
  {
    hide Perform;
    if first == [] {
      assert first + second == second;
    } else {
      assert (first + second)[1..] == first[1..] + second;
      ScheduleConcat(Perform(db, first[0], opt), first[1..], second, opt);
    }
  }

  lemma {:induction false} DatabaseFollowsSchedule(bus: Bus, events: seq<BusEvent>, limit: nat, opt: Options)
    requires Shaped(bus.db)
    ensures Run(bus, events, limit, opt).db == Pipeline.Run(bus.db, Schedule(bus, events, limit, opt), opt)
    decreases |events|
  {
    hide Next;
    hide Delivered;
    if events != [] {
      var bus' := Next(bus, events[0], limit, opt);
      DatabaseStep(bus, events[0], limit, opt);
      DatabaseFollowsSchedule(bus', events[1..], limit, opt);
      ScheduleConcat(bus.db, Delivered(bus, events[0], limit, opt), Schedule(bus', events[1..], limit, opt), opt);
    }
  }

  /** Between whatever operators do, redeliveries, crashes and parallel handlers leave no trace in what responders see. */
  lemma {:induction false} EffectOnce(events: seq<BusEvent>, limit: nat, opt: Options)
    ensures Run(START, events, limit, opt).db.visible
            == Pipeline.Run(EMPTY, Erase(Schedule(START, events, limit, opt), {}, opt), opt).visible
  {
    DatabaseFollowsSchedule(START, events, limit, opt);
    RedeliveriesAreErased(EMPTY, EMPTY, Schedule(START, events, limit, opt), opt);
    assert Tuples(EMPTY.visible) == {};
  }
}
