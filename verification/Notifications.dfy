/** Whom a first delivery notifies, what acknowledging does, and how often either can happen. */
module Notifications {
  import opened Base
  import opened Events
  import opened Incidents
  import opened Pipeline

  /** A matching policy suppresses the notification. */
  ghost predicate Silenced(env: Environment) {
    exists k | 0 <= k < |env.decisions| :: env.decisions[k].matched && env.decisions[k].suppress
  }

  /** A matching policy names the channel. */
  ghost predicate Named(env: Environment, channel: string) {
    channel != "" && exists k | 0 <= k < |env.decisions| :: env.decisions[k].matched && channel in env.decisions[k].channels
  }

  /** The channel is to be notified: a named one, or the local mock if no channel is named at all. */
  ghost predicate Wanted(env: Environment, channel: string) {
    Named(env, channel) || (channel == "local-mock" && forall c :: !Named(env, c))
  }

  lemma {:induction false} MatchedAreNamed(decisions: seq<Decision>, channel: string)
    ensures channel in MatchedChannels(decisions) <==>
            exists k | 0 <= k < |decisions| :: decisions[k].matched && channel in decisions[k].channels
    decreases |decisions|
  {
    if decisions != [] {
      var n := |decisions| - 1;
      MatchedAreNamed(decisions[..n], channel);
      if k :| 0 <= k < n && decisions[..n][k].matched && channel in decisions[..n][k].channels {
        assert decisions[k].matched;
      }
      if k :| 0 <= k < |decisions| && decisions[k].matched && channel in decisions[k].channels {
        assert k < n ==> decisions[..n][k] == decisions[k];
      }
    }
  }

  /** The targets are exactly the wanted channels. */
  lemma TargetsAreWanted(env: Environment)
    ensures forall c :: c in Targets(env) <==> Wanted(env, c)
  {
    var channels := Unique(MatchedChannels(env.decisions));
    forall c ensures c in channels <==> Named(env, c) {
      MatchedAreNamed(env.decisions, c);
    }
    if channels != [] {
      assert channels[0] in channels;
      assert Named(env, channels[0]);
    }
  }

  /** A first delivery commits exactly when it is silenced or every wanted channel is known. */
  lemma DeliverableIff(env: Environment)
    ensures Deliverable(env) <==> Silenced(env) || forall c | Wanted(env, c) :: c in env.channels
  {
    hide Wanted;
    TargetsAreWanted(env);
    if !Silenced(env) && Deliverable(env) {
      forall c | Wanted(env, c) ensures c in env.channels {
        var k :| 0 <= k < |Targets(env)| && Targets(env)[k] == c;
      }
    }
  }

  function RowFor(env: Environment, channel: string, i: nat, x: Incident): OutboxRow
    requires channel in env.channels
  {
    OutboxRow(x.tenant, i, env.channels[channel], x.state, x.severity)
  }

  ghost predicate IsRowOf(env: Environment, row: OutboxRow, i: nat, x: Incident) {
    exists c :: Wanted(env, c) && c in env.channels && row == RowFor(env, c, i, x)
  }

  /** The rows added to the outbox for incident `i`, as `x` is: one for every wanted channel, unless it is there, and no other. */
  ghost predicate RowsAdded(before: seq<OutboxRow>, after: seq<OutboxRow>, i: nat, x: Incident, env: Environment) {
    && before <= after
    && (forall c | Wanted(env, c) :: c in env.channels && RowFor(env, c, i, x) in after)
    && (forall r | |before| <= r < |after| :: IsRowOf(env, after[r], i, x))
  }

  /** What the delivery of an event to incident `i`, then `x`, adds to outbox and tokens. */
  ghost predicate Notified(v: Visible, w: Visible, i: nat, x: Incident, env: Environment) {
    if Silenced(env) then w.outbox == v.outbox && w.tokens == v.tokens
    else
      && RowsAdded(v.outbox, w.outbox, i, x, env)
      && w.tokens == (if w.outbox == v.outbox then v.tokens else v.tokens + [AckToken(i, env.now + 86_400 * SECOND, false)])
  }

  lemma {:induction false} EnqueueAdds(outbox: seq<OutboxRow>, i: nat, x: Incident, targets: seq<string>, channels: map<string, string>)
    requires forall k | 0 <= k < |targets| :: targets[k] in channels
    ensures var rows := Enqueue(outbox, i, x, targets, channels);
            && outbox <= rows
            && (forall c | c in targets :: OutboxRow(x.tenant, i, channels[c], x.state, x.severity) in rows)
            && (forall r | |outbox| <= r < |rows| ::
                  exists c | c in targets :: rows[r] == OutboxRow(x.tenant, i, channels[c], x.state, x.severity))
    decreases |targets|
  {
    if targets != [] {
      var n := |targets| - 1;
      EnqueueAdds(outbox, i, x, targets[..n], channels);
      assert targets == targets[..n] + [targets[n]];
      var before, rows := Enqueue(outbox, i, x, targets[..n], channels), Enqueue(outbox, i, x, targets, channels);
      forall r | |outbox| <= r < |rows|
        ensures exists c | c in targets :: rows[r] == OutboxRow(x.tenant, i, channels[c], x.state, x.severity)
      {
        if r < |before| {
          var c :| c in targets[..n] && before[r] == OutboxRow(x.tenant, i, channels[c], x.state, x.severity);
          assert c in targets;
        } else {
          assert targets[n] in targets;
        }
      }
    }
  }

  /** The incident that the new event was attached to, as it is after that. */
  ghost predicate AttachedTo(v: Visible, w: Visible, i: nat, x: Incident) {
    && |w.links| == |v.links| + 1 && w.links[|v.links|].incident == i
    && i < |w.incidents| && w.incidents[i] == x
  }

  lemma {:induction false} EnqueueNotifies(outbox: seq<OutboxRow>, i: nat, x: Incident, env: Environment)
    requires forall k | 0 <= k < |Targets(env)| :: Targets(env)[k] in env.channels
    ensures RowsAdded(outbox, Enqueue(outbox, i, x, Targets(env), env.channels), i, x, env)
  {
    hide Wanted;
    TargetsAreWanted(env);
    EnqueueAdds(outbox, i, x, Targets(env), env.channels);
    hide Enqueue;
    hide Targets;
    var rows := Enqueue(outbox, i, x, Targets(env), env.channels);
    forall r | |outbox| <= r < |rows| ensures IsRowOf(env, rows[r], i, x) {
      var c :| c in Targets(env) && rows[r] == OutboxRow(x.tenant, i, env.channels[c], x.state, x.severity);
      assert Wanted(env, c) && rows[r] == RowFor(env, c, i, x);
    }
  }

  /** The parts of an admission that responders are told by. */
  lemma AdmitParts(v: Visible, e: Event, env: Environment, opt: Options) returns (i: nat, x: Incident)
    requires Deliverable(env)
    ensures AttachedTo(v, Admit(v, e, env, opt), i, x)
    ensures Silenced(env) ==> Admit(v, e, env, opt).outbox == v.outbox
    ensures !Silenced(env) ==>
              && (forall k | 0 <= k < |Targets(env)| :: Targets(env)[k] in env.channels)
              && Admit(v, e, env, opt).outbox == Enqueue(v.outbox, i, x, Targets(env), env.channels)
    ensures Admit(v, e, env, opt).tokens
            == if |Admit(v, e, env, opt).outbox| > |v.outbox| then v.tokens + [AckToken(i, env.now + DAY, false)] else v.tokens
  {
    hide TupleOf;
    hide CorrelationKey;
    hide Enqueue;
    hide Targets;
    var found := Select(v.incidents, e, CorrelationWindow(opt));
    i := if found.Some? then found.value else |v.incidents|;
    x := if found.Some? then Attach(v.incidents[i], e) else Open(e);
  }

  /** The event was attached to an incident and everyone wanted is told of it. */
  ghost predicate Announces(v: Visible, w: Visible, env: Environment) {
    exists i, x :: AttachedTo(v, w, i, x) && Notified(v, w, i, x, env)
  }

  /** A committed first delivery notifies exactly the wanted channels about the incident as the event left it. */
  lemma FirstDeliveryNotifies(v: Visible, e: Event, env: Environment, opt: Options) returns (i: nat, x: Incident)
    requires Deliverable(env)
    ensures AttachedTo(v, Admit(v, e, env, opt), i, x) && Notified(v, Admit(v, e, env, opt), i, x, env)
  {
    hide Admit;
    hide Deliverable;
    hide Silenced;
    hide Wanted;
    hide Targets;
    hide Enqueue;
    i, x := AdmitParts(v, e, env, opt);
    if !Silenced(env) { EnqueueNotifies(v.outbox, i, x, env); }
  }

  // ---- Notifications, tokens and versions over runs -------------------------------------------

  /** Rows are never withdrawn, tokens never unspent, and versions never go back. */
  ghost predicate Later(v: Visible, w: Visible) {
    && v.outbox <= w.outbox
    && |v.tokens| <= |w.tokens| && |v.incidents| <= |w.incidents|
    && (forall t | 0 <= t < |v.tokens| ::
          && (w.tokens[t].incident, w.tokens[t].expiresAt) == (v.tokens[t].incident, v.tokens[t].expiresAt)
          && (v.tokens[t].used ==> w.tokens[t].used))
    && (forall i | 0 <= i < |v.incidents| :: v.incidents[i].version <= w.incidents[i].version)
  }

  lemma AdmitIsLater(v: Visible, e: Event, env: Environment, opt: Options)
    requires Deliverable(env)
    ensures Later(v, Admit(v, e, env, opt))
  {
    hide TupleOf;
    hide CorrelationKey;
    var found := Select(v.incidents, e, CorrelationWindow(opt));
    var i := if found.Some? then found.value else |v.incidents|;
    var x := if found.Some? then Attach(v.incidents[i], e) else Open(e);
    hide Select;
    if !Suppressed(env.decisions) { EnqueueAdds(v.outbox, i, x, Targets(env), env.channels); }
  }

  lemma PerformIsLater(db: Database, op: Op, opt: Options)
    requires Shaped(db)
    ensures Later(db.visible, Perform(db, op, opt).visible)
  {
    if op.Deliver? {
      ProcessVisible(db, op.event, op.env, opt);
      if Deliverable(op.env) { AdmitIsLater(db.visible, op.event, op.env, opt); }
      hide Process;
      hide Admit;
    }
  }

  lemma LaterTransitive(u: Visible, v: Visible, w: Visible)
    requires Later(u, v) && Later(v, w)
    ensures Later(u, w)
  {
  }

  lemma {:induction false} RunIsLater(db: Database, ops: seq<Op>, opt: Options)
    requires Shaped(db)
    ensures Later(db.visible, Run(db, ops, opt).visible)
    decreases |ops|
  {
    hide Perform;
    if ops != [] {
      var db' := Perform(db, ops[0], opt);
      PerformIsLater(db, ops[0], opt);
      hide Later;
      RunIsLater(db', ops[1..], opt);
      LaterTransitive(db.visible, db'.visible, Run(db', ops[1..], opt).visible);
    }
  }

  /** Whoever was to be notified of a first delivery is in the outbox of every later state. */
  lemma NotificationsStay(db: Database, e: Event, env: Environment, opt: Options, ops: seq<Op>, channel: string)
    returns (i: nat, x: Incident)
    requires Shaped(db) && TupleOf(e, opt) !in Tuples(db.visible) && Deliverable(env)
    requires !Silenced(env) && Wanted(env, channel)
    ensures AttachedTo(db.visible, Process(db, e, env, opt).visible, i, x) && channel in env.channels
    ensures RowFor(env, channel, i, x) in Run(Process(db, e, env, opt), ops, opt).visible.outbox
  {
    hide TupleOf;
    hide Wanted;
    hide Silenced;
    ProcessVisible(db, e, env, opt);
    i, x := FirstDeliveryNotifies(db.visible, e, env, opt);
    assert Perform(db, Deliver(e, env, false), opt) == Process(db, e, env, opt);
    hide Process;
    hide Admit;
    RunIsLater(Process(db, e, env, opt), ops, opt);
  }

  // ---- Moving and acknowledging ----------------------------------------------------------------

  /** Only incident `i` changes: it takes the state, one version and one entry of its log. */
  ghost predicate IsMoved(before: seq<Incident>, after: seq<Incident>, i: nat, to: State, now: int) {
    && i < |before| == |after|
    && (forall k | 0 <= k < |before| && k != i :: after[k] == before[k])
    && after[i].state == to && after[i].version == before[i].version + 1
    && after[i].log == before[i].log + [Transition(Some(before[i].state), to)]
    && after[i].acknowledgedAt == (if to == Acknowledged then Some(now) else before[i].acknowledgedAt)
    && after[i].resolvedAt == (if to == Resolved then Some(now) else if to == Reopened then None else before[i].resolvedAt)
    && (after[i].tenant, after[i].key, after[i].severity) == (before[i].tenant, before[i].key, before[i].severity)
    && (after[i].firstEventAt, after[i].lastEventAt) == (before[i].firstEventAt, before[i].lastEventAt)
  }

  /** A move is made exactly if it is legal and its version, if one is given, is the current one. */
  lemma MoveWrites(v: Visible, i: nat, to: State, version: int, now: int)
    requires i < |v.incidents|
    ensures var w := MoveIncident(v, i, to, version, now);
            if ValidTransition(v.incidents[i].state, to) && (version <= 0 || version == v.incidents[i].version)
            then IsMoved(v.incidents, w.incidents, i, to, now) && w == v.(incidents := w.incidents) else w == v
  {
    hide ValidTransition;
  }

  /** A version that a move was made with is spent: no run brings it back, and no second move is made with it. */
  lemma {:induction false} VersionIsSpent(db: Database, i: nat, to: State, version: int, now: int, opt: Options,
                                          ops: seq<Op>, again: State, later: int)
    requires Shaped(db) && i < |db.visible.incidents| && version > 0 && Perform(db, Transit(i, to, version, now), opt) != db
    ensures var after := Run(Perform(db, Transit(i, to, version, now), opt), ops, opt);
            && i < |after.visible.incidents| && version < after.visible.incidents[i].version
            && Perform(after, Transit(i, again, version, later), opt) == after
  {
    hide Run;
    hide ValidTransition;
    var moved := Perform(db, Transit(i, to, version, now), opt);
    MoveWrites(db.visible, i, to, version, now);
    RunIsLater(moved, ops, opt);
    MoveWrites(Run(moved, ops, opt).visible, i, again, version, later);
    hide MoveIncident;
  }

  /** A token acknowledges exactly a detected or reopened incident, once, before its time. */
  lemma TokenAcknowledges(v: Visible, t: nat, now: int)
    requires t < |v.tokens| && v.tokens[t].incident < |v.incidents|
    ensures var w, i := AcknowledgeByToken(v, t, now), v.tokens[t].incident;
            if now < v.tokens[t].expiresAt && !v.tokens[t].used && v.incidents[i].state in {Detected, Reopened}
            then
              && IsMoved(v.incidents, w.incidents, i, Acknowledged, now)
              && w == v.(incidents := w.incidents, tokens := v.tokens[t := v.tokens[t].(used := true)])
            else w == v
  {
  }

  /** A spent token never changes anything again. */
  lemma {:induction false} TokenIsSpent(db: Database, t: nat, now: int, opt: Options, ops: seq<Op>, later: int)
    requires Shaped(db) && t < |db.visible.tokens| && Perform(db, Acknowledge(t, now), opt) != db
    ensures var after := Run(Perform(db, Acknowledge(t, now), opt), ops, opt);
            Perform(after, Acknowledge(t, later), opt) == after
  {
    var used := Perform(db, Acknowledge(t, now), opt);
    assert used.visible.tokens[t].used;
    RunIsLater(used, ops, opt);
    hide Run;
  }
}
