/** The store's event and incident transactions as they are written, proved against the pipeline. */
module EventStore {
  import opened Base
  import opened Events
  import opened Incidents
  import opened Pipeline
  import opened PipelineInvariant
  import opened Notifications

  /** Accumulates channels and suppression over the matching policies. */
  method EvaluatePolicies(decisions: seq<Decision>) returns (channels: seq<string>, suppressed: bool)
    ensures channels == Unique(MatchedChannels(decisions))
    ensures suppressed == Suppressed(decisions)
  {
    var all: seq<string> := [];
    suppressed := false;
    for i := 0 to |decisions|
      invariant all == MatchedChannels(decisions[..i])
      invariant suppressed <==> exists k | 0 <= k < i :: decisions[k].matched && decisions[k].suppress
    {
      assert decisions[..i + 1][..i] == decisions[..i];
      if decisions[i].matched {
        suppressed := suppressed || decisions[i].suppress;
        all := all + decisions[i].channels;
      }
    }
    assert decisions[..|decisions|] == decisions;
    channels := UniqueStrings(all);
  }

  /** The query for the latest open incident of the key within the window. */
  method Correlate(incidents: seq<Incident>, e: Event, window: int) returns (found: Option<nat>)
    ensures found == Select(incidents, e, window)
  {
    found := None;
    for i := 0 to |incidents|
      invariant found == Select(incidents[..i], e, window)
    {
      assert incidents[..i + 1][..i] == incidents[..i];
      var x := incidents[i];
      if x.tenant == e.tenant && x.key == CorrelationKey(e) && IsOpen(x.state) && x.lastEventAt >= e.receivedAt - window {
        if found.None? || incidents[found.value].lastEventAt < x.lastEventAt { found := Some(i); }
      }
    }
    assert incidents[..|incidents|] == incidents;
  }

  /** Inserts one row a channel unless its dedupe key exists; an unknown channel fails the transaction. */
  method EnqueueNotifications(outbox: seq<OutboxRow>, i: nat, x: Incident, targets: seq<string>, channels: map<string, string>)
    returns (ok: bool, rows: seq<OutboxRow>)
    ensures ok <==> forall k | 0 <= k < |targets| :: targets[k] in channels
    ensures ok ==> rows == Enqueue(outbox, i, x, targets, channels)
  {
    rows := outbox;
    for k := 0 to |targets|
      invariant forall l | 0 <= l < k :: targets[l] in channels
      invariant rows == Enqueue(outbox, i, x, targets[..k], channels)
    {
      assert targets[..k + 1][..k] == targets[..k];
      if targets[k] !in channels { return false, rows; }
      var row := OutboxRow(x.tenant, i, channels[targets[k]], x.state, x.severity);
      if row !in rows { rows := rows + [row]; }
    }
    assert targets[..|targets|] == targets;
    ok := true;
  }

  /** The rows of the first delivery of a tuple: correlation, policies, outbox and token. */
  method AdmitRows(v: Visible, e: Event, env: Environment, opt: Options) returns (ok: bool, w: Visible)
    ensures ok <==> Deliverable(env)
    ensures ok <==> Silenced(env) || forall c | Wanted(env, c) :: c in env.channels
    ensures ok ==> w == Admit(v, e, env, opt) && Announces(v, w, env)
  {
    DeliverableIff(env);
    Announced(v, e, env, opt);
    hide Announces;
    hide Wanted;
    hide Silenced;
    hide TupleOf;
    hide CorrelationKey;
    hide Select;
    hide Enqueue;
    w := v;
    var found := Correlate(v.incidents, e, CorrelationWindow(opt));
    SelectInRange(v.incidents, e, CorrelationWindow(opt));
    var i := |v.incidents|;
    if found.Some? {
      i := found.value;
      w := w.(incidents := w.incidents[i := Attach(w.incidents[i], e)]);
    } else {
      w := w.(incidents := w.incidents + [Open(e)]);
    }
    w := w.(links := w.links + [Link(i, |v.events|)], events := w.events + [CanonicalEvent(e, TupleOf(e, opt))]);
    var channels, suppressed := EvaluatePolicies(env.decisions);
    if !suppressed {
      if channels == [] { channels := ["local-mock"]; }
      assert channels == Targets(env);
      var known, rows := EnqueueNotifications(v.outbox, i, w.incidents[i], channels, env.channels);
      if !known { return false, v; }
      w := w.(outbox := rows);
    }
    if |w.outbox| > |v.outbox| { w := w.(tokens := w.tokens + [AckToken(i, env.now + DAY, false)]); }
    ok := true;
  }

  lemma Announced(v: Visible, e: Event, env: Environment, opt: Options)
    ensures Deliverable(env) ==> Announces(v, Admit(v, e, env, opt), env)
  {
    hide Admit;
    hide Notified;
    if Deliverable(env) {
      var i, x := FirstDeliveryNotifies(v, e, env, opt);
    }
  }

  lemma {:induction false} SelectInRange(incidents: seq<Incident>, e: Event, window: int)
    ensures Select(incidents, e, window).Some? ==> Select(incidents, e, window).value < |incidents|
  {
  }

  lemma TokenInRange(db: Database, opt: Options, t: nat)
    requires DatabaseOk(db, opt) && t < |db.visible.tokens|
    ensures db.visible.tokens[t].incident < |db.visible.incidents|
  {
  }

  lemma OkIsShaped(db: Database, opt: Options)
    requires DatabaseOk(db, opt)
    ensures Shaped(db)
  {
  }

  /** What the caller of an acknowledgement link learns. */
  datatype Receipt = Unknown | AlreadyHandled | NotAcknowledgeable | Recorded

  class Store {
    var raw: seq<Event>
    var events: seq<CanonicalEvent>
    var rawOf: seq<nat>
    var duplicateCount: seq<nat>
    var duplicates: seq<DuplicateRow>
    var incidents: seq<Incident>
    var links: seq<Link>
    var outbox: seq<OutboxRow>
    var tokens: seq<AckToken>

    ghost function Tables(): Database
      reads this
    {
      Database(raw, Visible(events, incidents, links, outbox, tokens), rawOf, duplicateCount, duplicates)
    }

    ghost predicate Valid(opt: Options)
      reads this
    {
      DatabaseOk(Tables(), opt)
    }

    constructor (opt: Options)
      ensures Valid(opt) && Tables() == EMPTY
    {
      raw, events, rawOf, duplicateCount, duplicates := [], [], [], [], [];
      incidents, links, outbox, tokens := [], [], [], [];
      new;
      hide DatabaseOk;
      EmptyOk(opt);
    }

    method ProcessEvent(e: Event, env: Environment, opt: Options) returns (committed: bool)
      requires Valid(opt)
      modifies this
      ensures Valid(opt) && Tables() == Process(old(Tables()), e, env, opt)
      ensures committed <==> TupleOf(e, opt) in Tuples(old(Tables()).visible) || Deliverable(env)
      ensures committed && TupleOf(e, opt) !in Tuples(old(Tables()).visible) ==>
                Announces(old(Tables()).visible, Tables().visible, env)
    {
      hide Announces;
      hide DatabaseOk;
      hide Admit;
      hide TupleOf;
      OkIsShaped(Tables(), opt);
      ProcessOk(Tables(), e, env, opt);
      var t := TupleOf(e, opt);
      var canonical := Find(events, t);
      if canonical.Some? {
        RecordDuplicate(e, canonical.value);
        committed := true;
      } else {
        committed := AdmitEvent(e, env, opt);
      }
    }

    method RecordDuplicate(e: Event, c: nat)
      requires c < |duplicateCount|
      modifies this`raw, this`duplicateCount, this`duplicates
      ensures raw == old(raw) + [e]
      ensures duplicateCount == old(duplicateCount)[c := old(duplicateCount)[c] + 1]
      ensures duplicates == old(duplicates) + [DuplicateRow(c, |old(raw)|, old(duplicateCount)[c] + 1)]
    {
      var number := duplicateCount[c] + 1;
      duplicateCount := duplicateCount[c := number];
      duplicates := duplicates + [DuplicateRow(c, |raw|, number)];
      raw := raw + [e];
    }

    /** The first delivery of a tuple: correlation, policies and outbox, or nothing at all. */
    method AdmitEvent(e: Event, env: Environment, opt: Options) returns (committed: bool)
      modifies this
      ensures committed <==> Deliverable(env)
      ensures committed ==> Announces(old(Tables()).visible, Tables().visible, env)
      ensures committed ==>
                Tables() == old(Tables()).(raw := old(raw) + [e], visible := Admit(old(Tables()).visible, e, env, opt),
                                           rawOf := old(rawOf) + [|old(raw)|], duplicateCount := old(duplicateCount) + [0])
      ensures !committed ==> Tables() == old(Tables())
    {
      hide Announces;
      var v := Visible(events, incidents, links, outbox, tokens);
      var ok, w := AdmitRows(v, e, env, opt);
      hide Admit;
      hide Deliverable;
      if !ok { return false; }
      events, incidents, links := w.events, w.incidents, w.links;
      outbox, tokens := w.outbox, w.tokens;
      rawOf, duplicateCount := rawOf + [|raw|], duplicateCount + [0];
      raw := raw + [e];
      committed := true;
    }

    method TransitionIncident(i: nat, to: State, expectedVersion: int, now: int, ghost opt: Options) returns (committed: bool)
      requires Valid(opt)
      modifies this`incidents
      ensures Valid(opt) && Tables() == Perform(old(Tables()), Transit(i, to, expectedVersion, now), opt)
      ensures committed <==> i < |old(incidents)| && ValidTransition(old(incidents)[i].state, to)
                             && (expectedVersion <= 0 || expectedVersion == old(incidents)[i].version)
      ensures if committed then IsMoved(old(incidents), incidents, i, to, now) else incidents == old(incidents)
    {
      hide DatabaseOk;
      OkIsShaped(Tables(), opt);
      PerformOk(Tables(), Transit(i, to, expectedVersion, now), opt);
      if i >= |incidents| { return false; }
      var x := incidents[i];
      if expectedVersion > 0 && expectedVersion != x.version { return false; }
      if x.state == to || to !in TRANSITIONS[x.state] { return false; }
      var acknowledged, resolved := x.acknowledgedAt, x.resolvedAt;
      if to == Acknowledged { acknowledged := Some(now); }
      if to == Resolved { resolved := Some(now); }
      if to == Reopened { resolved := None; }
      var log := x.log + [Transition(Some(x.state), to)];
      x := x.(state := to, acknowledgedAt := acknowledged, resolvedAt := resolved, version := x.version + 1, log := log);
      incidents := incidents[i := x];
      committed := true;
    }

    method AcknowledgeByToken(t: nat, now: int, ghost opt: Options) returns (receipt: Receipt)
      requires Valid(opt)
      modifies this`incidents, this`tokens
      ensures Valid(opt) && Tables() == Perform(old(Tables()), Acknowledge(t, now), opt)
      ensures receipt.Recorded? <==> Tables() != old(Tables())
      ensures receipt.Recorded? ==>
                && t < |old(tokens)| && !old(tokens)[t].used && tokens == old(tokens)[t := old(tokens)[t].(used := true)]
                && IsMoved(old(incidents), incidents, old(tokens)[t].incident, Acknowledged, now)
      ensures receipt.Unknown? <==> t >= |old(tokens)| || old(tokens)[t].expiresAt <= now
      ensures receipt.NotAcknowledgeable? ==>
                t < |old(tokens)| && !old(tokens)[t].used && old(tokens)[t].incident < |old(incidents)|
                && old(incidents)[old(tokens)[t].incident].state in {Mitigated, Resolved, Closed}
    {
      hide DatabaseOk;
      OkIsShaped(Tables(), opt);
      PerformOk(Tables(), Acknowledge(t, now), opt);
      if t >= |tokens| || tokens[t].expiresAt <= now { return Unknown; }
      TokenInRange(Tables(), opt, t);
      var i := tokens[t].incident;
      var x := incidents[i];
      if tokens[t].used || x.state == Acknowledged || x.state == Investigating { return AlreadyHandled; }
      if !ValidTransition(x.state, Acknowledged) { return NotAcknowledgeable; }
      tokens := tokens[t := tokens[t].(used := true)];
      x := x.(log := x.log + [Transition(Some(x.state), Acknowledged)], state := Acknowledged,
              acknowledgedAt := Some(now), version := x.version + 1);
      incidents := incidents[i := x];
      assert incidents[i] != old(incidents)[i];
      receipt := Recorded;
    }
  }
}
