/**
 * The event pipeline: at-least-once deliveries become canonical events, duplicate records,
 * incidents, links and outbox rows, one transaction a delivery.
 */
module Pipeline {
  import opened Base
  import opened Events
  import opened Incidents

  const MINUTE := 60 * SECOND
  const DAY := 24 * 60 * MINUTE

  datatype Options = Options(dedupeWindow: int, correlationWindow: int)

  function DedupeWindow(opt: Options): (w: int)
    ensures w > 0 && (w == opt.dedupeWindow || w == 900 * SECOND) && (opt.dedupeWindow > 0 ==> w == opt.dedupeWindow)
  {
    if opt.dedupeWindow <= 0 then 15 * MINUTE else opt.dedupeWindow
  }

  function CorrelationWindow(opt: Options): (w: int)
    ensures w > 0 && (w == opt.correlationWindow || w == 1800 * SECOND)
    ensures opt.correlationWindow > 0 ==> w == opt.correlationWindow
  {
    if opt.correlationWindow <= 0 then 30 * MINUTE else opt.correlationWindow
  }

  /** The unique tuple of `normalized_events`. */
  datatype Tuple = Tuple(tenant: string, source: string, key: string, bucket: int)

  function TupleOf(e: Event, opt: Options): Tuple {
    Tuple(e.tenant, e.source, DedupeKey(e), TimeBucket(e.receivedAt, DedupeWindow(opt)))
  }

  /** From 1970 on a tuple is exactly tenant, source, identity and dedupe window of an event. */
  lemma TupleIsExact(a: Event, b: Event, opt: Options)
    requires a.receivedAt >= 0 && b.receivedAt >= 0
    ensures var w := Seconds(DedupeWindow(opt));
            TupleOf(a, opt) == TupleOf(b, opt) <==>
            && a.tenant == b.tenant && a.source == b.source && IdentityOf(a) == IdentityOf(b)
            && (a.receivedAt / SECOND) / w == (b.receivedAt / SECOND) / w
  {
    hide DedupeKey;
    hide IdentityOf;
    hide TimeBucket;
    hide Seconds;
    DedupeKeyIsExact(a, b);
    BucketIsOneWindow(a.receivedAt, b.receivedAt, DedupeWindow(opt));
  }

  datatype CanonicalEvent = CanonicalEvent(event: Event, tuple: Tuple)

  datatype Link = Link(incident: nat, event: nat)

  /** The columns of the dedupe key of `delivery_attempts`. */
  datatype OutboxRow = OutboxRow(tenant: string, incident: nat, channel: string, state: State, severity: Severity)

  datatype AckToken = AckToken(incident: nat, expiresAt: int, used: bool)

  /** What responders see; a duplicate delivery must not change it. */
  datatype Visible = Visible(
    events: seq<CanonicalEvent>,
    incidents: seq<Incident>,
    links: seq<Link>,
    outbox: seq<OutboxRow>,
    tokens: seq<AckToken>)

  datatype DuplicateRow = DuplicateRow(event: nat, raw: nat, number: nat)

  /** `duplicateCount[c]` and `rawOf[c]` are columns of canonical event `c`. */
  datatype Database = Database(
    raw: seq<Event>,
    visible: Visible,
    rawOf: seq<nat>,
    duplicateCount: seq<nat>,
    duplicates: seq<DuplicateRow>)

  const EMPTY := Database([], Visible([], [], [], [], []), [], [], [])

  /** What one enabled policy says about the event being processed. */
  datatype Decision = Decision(matched: bool, suppress: bool, channels: seq<string>)

  /** The policies' decisions on the event, the enabled channels by key, and the clock. */
  datatype Environment = Environment(decisions: seq<Decision>, channels: map<string, string>, now: int)

  function MatchedChannels(decisions: seq<Decision>): seq<string> {
    if decisions == [] then [] else
    MatchedChannels(decisions[..|decisions| - 1])
    + if decisions[|decisions| - 1].matched then decisions[|decisions| - 1].channels else []
  }

  predicate Suppressed(decisions: seq<Decision>) {
    exists k | 0 <= k < |decisions| :: decisions[k].matched && decisions[k].suppress
  }

  function Targets(env: Environment): seq<string> {
    var channels := Unique(MatchedChannels(env.decisions));
    if channels == [] then ["local-mock"] else channels
  }

  /** Otherwise the transaction fails, whatever the database holds. */
  predicate Deliverable(env: Environment) {
    Suppressed(env.decisions) || forall k | 0 <= k < |Targets(env)| :: Targets(env)[k] in env.channels
  }

  predicate Candidate(x: Incident, e: Event, window: int) {
    && x.tenant == e.tenant && x.key == CorrelationKey(e)
    && IsOpen(x.state)
    && x.lastEventAt >= e.receivedAt - window
  }

  /** The open incident of the key with the latest event, if that is recent enough. */
  function Select(incidents: seq<Incident>, e: Event, window: int): (found: Option<nat>)
    ensures found.Some? ==> found.value < |incidents| && Candidate(incidents[found.value], e, window)
    ensures found.Some? ==> forall i | 0 <= i < |incidents| && Candidate(incidents[i], e, window) ::
                              incidents[i].lastEventAt <= incidents[found.value].lastEventAt
    ensures found.None? ==> forall i | 0 <= i < |incidents| :: !Candidate(incidents[i], e, window)
  {
    hide CorrelationKey;
    if incidents == [] then None else
    var n := |incidents| - 1;
    var rest := Select(incidents[..n], e, window);
    if Candidate(incidents[n], e, window) && (rest.None? || incidents[rest.value].lastEventAt < incidents[n].lastEventAt)
    then Some(n) else rest
  }

  function Enqueue(outbox: seq<OutboxRow>, i: nat, x: Incident, targets: seq<string>, channels: map<string, string>): seq<OutboxRow>
    requires forall k | 0 <= k < |targets| :: targets[k] in channels
  {
    if targets == [] then outbox else
    var n := |targets| - 1;
    var rows := Enqueue(outbox, i, x, targets[..n], channels);
    var row := OutboxRow(x.tenant, i, channels[targets[n]], x.state, x.severity);
    if row in rows then rows else rows + [row]
  }

  /** The transaction of a first delivery. */
  function Admit(v: Visible, e: Event, env: Environment, opt: Options): Visible
    requires Deliverable(env)
  {
    var found := Select(v.incidents, e, CorrelationWindow(opt));
    var i := if found.Some? then found.value else |v.incidents|;
    var x := if found.Some? then Attach(v.incidents[i], e) else Open(e);
    var incidents := if found.Some? then v.incidents[i := x] else v.incidents + [x];
    var outbox := if Suppressed(env.decisions) then v.outbox else Enqueue(v.outbox, i, x, Targets(env), env.channels);
    Visible(v.events + [CanonicalEvent(e, TupleOf(e, opt))], incidents, v.links + [Link(i, |v.events|)], outbox,
            if |outbox| > |v.outbox| then v.tokens + [AckToken(i, env.now + DAY, false)] else v.tokens)
  }

  function Find(events: seq<CanonicalEvent>, t: Tuple): (found: Option<nat>)
    ensures found.Some? ==> found.value < |events| && events[found.value].tuple == t
    ensures found.None? ==> forall c | 0 <= c < |events| :: events[c].tuple != t
  {
    if events == [] then None else
    if events[|events| - 1].tuple == t then Some(|events| - 1) else Find(events[..|events| - 1], t)
  }

  /** One run of ProcessEvent; a failed one is rolled back. */
  function Process(db: Database, e: Event, env: Environment, opt: Options): Database
    requires |db.duplicateCount| == |db.visible.events|
  {
    var c := Find(db.visible.events, TupleOf(e, opt));
    if c.Some? then
      var number := db.duplicateCount[c.value] + 1;
      db.(raw := db.raw + [e],
          duplicateCount := db.duplicateCount[c.value := number],
          duplicates := db.duplicates + [DuplicateRow(c.value, |db.raw|, number)])
    else if Deliverable(env) then
      db.(raw := db.raw + [e],
          visible := Admit(db.visible, e, env, opt),
          rawOf := db.rawOf + [|db.raw|],
          duplicateCount := db.duplicateCount + [0])
    else db
  }

  // ---- Operator transitions and runs ------------------------------------------------------

  function MoveIncident(v: Visible, i: nat, to: State, expectedVersion: int, now: int): Visible {
    if i < |v.incidents| && MayMove(v.incidents[i], to, expectedVersion)
    then v.(incidents := v.incidents[i := Move(v.incidents[i], to, now)]) else v
  }

  function AcknowledgeByToken(v: Visible, t: nat, now: int): Visible {
    if t >= |v.tokens| || v.tokens[t].expiresAt <= now || v.tokens[t].incident >= |v.incidents| then v else
    var x := v.incidents[v.tokens[t].incident];
    if v.tokens[t].used || x.state == Acknowledged || x.state == Investigating || !ValidTransition(x.state, Acknowledged)
    then v
    else v.(tokens := v.tokens[t := v.tokens[t].(used := true)],
            incidents := v.incidents[v.tokens[t].incident := Move(x, Acknowledged, now)])
  }

  /** `crash` means the worker dies, or the database fails, before the commit. */
  datatype Op =
    | Deliver(event: Event, env: Environment, crash: bool)
    | Transit(incident: nat, to: State, expectedVersion: int, now: int)
    | Acknowledge(token: nat, now: int)

  ghost predicate Shaped(db: Database) {
    |db.duplicateCount| == |db.rawOf| == |db.visible.events| == |db.visible.links|
  }

  function Perform(db: Database, op: Op, opt: Options): (r: Database)
    requires Shaped(db)
    ensures Shaped(r)
  {
    match op
    case Deliver(e, env, crash) => if crash then db else Process(db, e, env, opt)
    case Transit(i, to, expectedVersion, now) => db.(visible := MoveIncident(db.visible, i, to, expectedVersion, now))
    case Acknowledge(t, now) => db.(visible := AcknowledgeByToken(db.visible, t, now))
  }

  function Run(db: Database, ops: seq<Op>, opt: Options): (r: Database)
    requires Shaped(db)
    ensures Shaped(r)
    decreases |ops|
  {
    if ops == [] then db else Run(Perform(db, ops[0], opt), ops[1..], opt)
  }

  // ---- Redelivery erasure -----------------------------------------------------------------

  function Tuples(v: Visible): set<Tuple> {
    set c | 0 <= c < |v.events| :: v.events[c].tuple
  }

  /**
   * The schedule without crashed and failing deliveries and without every delivery of a tuple
   * that was delivered before; decided by the schedule alone.
   */
  function Erase(ops: seq<Op>, seen: set<Tuple>, opt: Options): seq<Op>
    decreases |ops|
  {
    if ops == [] then [] else
    if !ops[0].Deliver? then [ops[0]] + Erase(ops[1..], seen, opt) else
    var t := TupleOf(ops[0].event, opt);
    if ops[0].crash || t in seen || !Deliverable(ops[0].env) then Erase(ops[1..], seen, opt)
    else [ops[0]] + Erase(ops[1..], seen + {t}, opt)
  }

  ghost predicate NewTo(op: Op, seen: set<Tuple>, opt: Options) {
    op.Deliver? ==> !op.crash && Deliverable(op.env) && TupleOf(op.event, opt) !in seen
  }

  ghost predicate NotRepeated(a: Op, b: Op, opt: Options) {
    a.Deliver? && b.Deliver? ==> TupleOf(a.event, opt) != TupleOf(b.event, opt)
  }

  /** What is left delivers every tuple at most once. */
  lemma {:induction false} ErasedHasNoRepeats(ops: seq<Op>, seen: set<Tuple>, opt: Options)
    ensures forall k | 0 <= k < |Erase(ops, seen, opt)| :: NewTo(Erase(ops, seen, opt)[k], seen, opt)
    ensures forall k, l | 0 <= k < l < |Erase(ops, seen, opt)| ::
              NotRepeated(Erase(ops, seen, opt)[k], Erase(ops, seen, opt)[l], opt)
    decreases |ops|
  {
    if ops != [] {
      ErasedHasNoRepeats(ops[1..], seen, opt);
      if ops[0].Deliver? {
        var t := TupleOf(ops[0].event, opt);
        var rest := Erase(ops[1..], seen + {t}, opt);
        ErasedHasNoRepeats(ops[1..], seen + {t}, opt);
        forall k | 0 <= k < |rest|
          ensures NewTo(rest[k], seen, opt) && NotRepeated(ops[0], rest[k], opt)
        {
          assert NewTo(rest[k], seen + {t}, opt);
        }
      }
    }
  }

  lemma AdmitTuples(v: Visible, e: Event, env: Environment, opt: Options)
    requires Deliverable(env)
    ensures Tuples(Admit(v, e, env, opt)) == Tuples(v) + {TupleOf(e, opt)}
  {
    var w := Admit(v, e, env, opt);
    assert forall c | 0 <= c < |v.events| :: w.events[c] == v.events[c];
    assert w.events[|v.events|].tuple == TupleOf(e, opt);
    forall t | t in Tuples(v) ensures t in Tuples(w) {
      var c :| 0 <= c < |v.events| && v.events[c].tuple == t;
      assert w.events[c].tuple == t;
    }
  }

  /** Duplicates and aborted transactions are invisible; a first delivery is admitted. */
  lemma ProcessVisible(db: Database, e: Event, env: Environment, opt: Options)
    requires Shaped(db)
    ensures TupleOf(e, opt) in Tuples(db.visible) || !Deliverable(env) ==>
              Process(db, e, env, opt).visible == db.visible
    ensures TupleOf(e, opt) !in Tuples(db.visible) && Deliverable(env) ==>
              Process(db, e, env, opt).visible == Admit(db.visible, e, env, opt)
  {
  }

  lemma {:induction false} RedeliveriesAreErased(db: Database, clean: Database, ops: seq<Op>, opt: Options)
    requires Shaped(db) && Shaped(clean) && db.visible == clean.visible
    ensures Run(db, ops, opt).visible == Run(clean, Erase(ops, Tuples(db.visible), opt), opt).visible
    decreases |ops|
  {
    if ops != [] {
      var op, rest := ops[0], ops[1..];
      var db' := Perform(db, op, opt);
      if !op.Deliver? {
        RedeliveriesAreErased(db', Perform(clean, op, opt), rest, opt);
        assert ([op] + Erase(rest, Tuples(db.visible), opt))[1..] == Erase(rest, Tuples(db.visible), opt);
      } else {
        var t := TupleOf(op.event, opt);
        ProcessVisible(db, op.event, op.env, opt);
        ProcessVisible(clean, op.event, op.env, opt);
        if op.crash || t in Tuples(db.visible) || !Deliverable(op.env) {
          RedeliveriesAreErased(db', clean, rest, opt);
        } else {
          AdmitTuples(db.visible, op.event, op.env, opt);
          RedeliveriesAreErased(db', Perform(clean, op, opt), rest, opt);
          var kept := Erase(rest, Tuples(db.visible) + {t}, opt);
          assert ([op] + kept)[1..] == kept;
        }
      }
    }
  }
}
