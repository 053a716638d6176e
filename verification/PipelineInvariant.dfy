/** What every run of the pipeline keeps: counts, numbering, links, and incidents as folds of their history. */
module PipelineInvariant {
  import opened Events
  import opened Incidents
  import opened Pipeline

  ghost predicate TuplesDistinct(events: seq<CanonicalEvent>) {
    forall c, d | 0 <= c < d < |events| :: events[c].tuple != events[d].tuple
  }

  /** Every raw event is the raw of exactly one canonical event or one duplicate record of its tuple. */
  ghost predicate RawAccounted(db: Database, opt: Options) {
    && |db.raw| == |db.visible.events| + |db.duplicates| && |db.rawOf| == |db.visible.events|
    && (forall c | 0 <= c < |db.rawOf| :: db.rawOf[c] < |db.raw| && db.raw[db.rawOf[c]] == db.visible.events[c].event)
    && (forall c | 0 <= c < |db.rawOf| :: db.visible.events[c].tuple == TupleOf(db.visible.events[c].event, opt))
    && (forall d | 0 <= d < |db.duplicates| ::
          && db.duplicates[d].raw < |db.raw| && db.duplicates[d].event < |db.visible.events|
          && TupleOf(db.raw[db.duplicates[d].raw], opt) == db.visible.events[db.duplicates[d].event].tuple)
    && (forall c, c' | 0 <= c < c' < |db.rawOf| :: db.rawOf[c] != db.rawOf[c'])
    && (forall d, d' | 0 <= d < d' < |db.duplicates| :: db.duplicates[d].raw != db.duplicates[d'].raw)
    && (forall c, d | 0 <= c < |db.rawOf| && 0 <= d < |db.duplicates| :: db.rawOf[c] != db.duplicates[d].raw)
  }

  ghost predicate HasNumber(duplicates: seq<DuplicateRow>, c: nat, n: nat) {
    exists d | 0 <= d < |duplicates| :: duplicates[d].event == c && duplicates[d].number == n
  }

  /** The duplicate records of a canonical event carry exactly the numbers 1 to its duplicate count. */
  ghost predicate Numbered(duplicates: seq<DuplicateRow>, counts: seq<nat>) {
    && (forall d | 0 <= d < |duplicates| ::
          duplicates[d].event < |counts| && 1 <= duplicates[d].number <= counts[duplicates[d].event])
    && (forall d, d' | 0 <= d < d' < |duplicates| && duplicates[d].event == duplicates[d'].event ::
          duplicates[d].number < duplicates[d'].number)
    && (forall c, n: nat | 0 <= c < |counts| && 1 <= n <= counts[c] :: HasNumber(duplicates, c, n))
  }

  lemma NumberedAdmit(duplicates: seq<DuplicateRow>, counts: seq<nat>)
    requires Numbered(duplicates, counts)
    ensures Numbered(duplicates, counts + [0])
  {
  }

  lemma NumberedDuplicate(duplicates: seq<DuplicateRow>, counts: seq<nat>, c: nat, raw: nat)
    requires Numbered(duplicates, counts) && c < |counts|
    ensures Numbered(duplicates + [DuplicateRow(c, raw, counts[c] + 1)], counts[c := counts[c] + 1])
  {
    var more, counts' := duplicates + [DuplicateRow(c, raw, counts[c] + 1)], counts[c := counts[c] + 1];
    forall k, n: nat | 0 <= k < |counts'| && 1 <= n <= counts'[k] ensures HasNumber(more, k, n) {
      if k == c && n == counts[c] + 1 {
        assert more[|duplicates|] == DuplicateRow(k, raw, n);
      } else {
        assert HasNumber(duplicates, k, n);
        var d :| 0 <= d < |duplicates| && duplicates[d].event == k && duplicates[d].number == n;
        assert more[d] == duplicates[d];
      }
    }
  }

  // ---- Links and incidents ----------------------------------------------------------------

  function LinkCount(links: seq<Link>, i: nat): nat {
    if links == [] then 0 else
    LinkCount(links[..|links| - 1], i) + if links[|links| - 1].incident == i then 1 else 0
  }

  /** Canonical event `k` is attached to exactly one incident, by link `k`. */
  ghost predicate LinksOk(v: Visible) {
    && |v.links| == |v.events|
    && forall k | 0 <= k < |v.links| ::
         && v.links[k].event == k && v.links[k].incident < |v.incidents|
         && v.events[k].event.tenant == v.incidents[v.links[k].incident].tenant
         && CorrelationKey(v.events[k].event) == v.incidents[v.links[k].incident].key
  }

  ghost predicate Linked(events: seq<CanonicalEvent>, links: seq<Link>, i: nat, k: nat) {
    k < |links| && k < |events| && links[k].incident == i
  }

  /** Severity and time of the last event are the maxima over the events attached to incident `i`. */
  ghost predicate IsFold(events: seq<CanonicalEvent>, links: seq<Link>, i: nat, x: Incident) {
    && HistoryOk(x, LinkCount(links, i))
    && (forall k: nat | Linked(events, links, i, k) ::
          events[k].event.receivedAt <= x.lastEventAt && Rank(events[k].event.severity) <= Rank(x.severity))
    && (exists k: nat :: Linked(events, links, i, k) && events[k].event.receivedAt == x.lastEventAt)
    && (exists k: nat :: Linked(events, links, i, k) && events[k].event.severity == x.severity)
    && (exists k: nat :: Linked(events, links, i, k) && events[k].event.receivedAt == x.firstEventAt)
  }

  ghost predicate OutboxOk(v: Visible) {
    && (forall a, b | 0 <= a < b < |v.outbox| :: v.outbox[a] != v.outbox[b])
    && (forall a | 0 <= a < |v.outbox| :: v.outbox[a].incident < |v.incidents|)
    && (forall t | 0 <= t < |v.tokens| :: v.tokens[t].incident < |v.incidents|)
  }

  ghost predicate VisibleOk(v: Visible) {
    && TuplesDistinct(v.events)
    && LinksOk(v)
    && (forall i | 0 <= i < |v.incidents| :: IsFold(v.events, v.links, i, v.incidents[i]))
    && OutboxOk(v)
  }

  ghost predicate DatabaseOk(db: Database, opt: Options) {
    && Shaped(db)
    && RawAccounted(db, opt)
    && Numbered(db.duplicates, db.duplicateCount)
    && VisibleOk(db.visible)
  }

  lemma {:induction false} EnqueueOk(outbox: seq<OutboxRow>, i: nat, x: Incident, targets: seq<string>, channels: map<string, string>)
    requires forall k | 0 <= k < |targets| :: targets[k] in channels
    requires forall a, b | 0 <= a < b < |outbox| :: outbox[a] != outbox[b]
    ensures var rows := Enqueue(outbox, i, x, targets, channels);
            && outbox <= rows
            && (forall a, b | 0 <= a < b < |rows| :: rows[a] != rows[b])
            && (forall a | |outbox| <= a < |rows| :: rows[a].incident == i)
            && (forall k | 0 <= k < |targets| :: OutboxRow(x.tenant, i, channels[targets[k]], x.state, x.severity) in rows)
  {
    if targets != [] { EnqueueOk(outbox, i, x, targets[..|targets| - 1], channels); }
  }

  lemma LinkedAfter(events: seq<CanonicalEvent>, links: seq<Link>, i: nat, ce: CanonicalEvent, link: Link, k: nat)
    requires |links| == |events|
    ensures Linked(events + [ce], links + [link], i, k) <==>
            Linked(events, links, i, k) || (k == |events| && link.incident == i)
    ensures k < |events| ==> (events + [ce])[k] == events[k]
  {
  }

  lemma {:induction false} LinkCountAfter(links: seq<Link>, link: Link, i: nat)
    ensures LinkCount(links + [link], i) == LinkCount(links, i) + if link.incident == i then 1 else 0
  {
  }

  /** A link to another incident changes nothing about incident `i`. */
  lemma FoldFrame(events: seq<CanonicalEvent>, links: seq<Link>, i: nat, x: Incident, ce: CanonicalEvent, link: Link)
    requires |links| == |events| && IsFold(events, links, i, x) && link.incident != i
    ensures IsFold(events + [ce], links + [link], i, x)
  {
    LinkCountAfter(links, link, i);
    forall k: nat { LinkedAfter(events, links, i, ce, link, k); }
  }

  lemma FoldAttach(events: seq<CanonicalEvent>, links: seq<Link>, i: nat, x: Incident, ce: CanonicalEvent, link: Link)
    requires |links| == |events| && IsFold(events, links, i, x) && link.incident == i
    ensures IsFold(events + [ce], links + [link], i, Attach(x, ce.event))
  {
    LinkCountAfter(links, link, i);
    AttachHistory(x, ce.event, LinkCount(links, i));
    hide HistoryOk;
    forall k: nat { LinkedAfter(events, links, i, ce, link, k); }
    assert Linked(events + [ce], links + [link], i, |events|);
  }

  lemma {:induction false} NoLinks(links: seq<Link>, i: nat)
    requires forall k | 0 <= k < |links| :: links[k].incident != i
    ensures LinkCount(links, i) == 0
  {
    if links != [] { NoLinks(links[..|links| - 1], i); }
  }

  lemma FoldOpen(events: seq<CanonicalEvent>, links: seq<Link>, i: nat, ce: CanonicalEvent, link: Link)
    requires |links| == |events| && link.incident == i
    requires forall k | 0 <= k < |links| :: links[k].incident != i
    ensures IsFold(events + [ce], links + [link], i, Open(ce.event))
  {
    NoLinks(links, i);
    LinkCountAfter(links, link, i);
    OpenHistory(ce.event);
    forall k: nat { LinkedAfter(events, links, i, ce, link, k); }
    assert Linked(events + [ce], links + [link], i, |events|);
  }

  lemma FoldMove(events: seq<CanonicalEvent>, links: seq<Link>, i: nat, x: Incident, to: State, now: int)
    requires IsFold(events, links, i, x) && ValidTransition(x.state, to)
    ensures IsFold(events, links, i, Move(x, to, now))
  {
    MoveHistory(x, to, now, LinkCount(links, i));
    hide HistoryOk;
  }

  // ---- Every operation keeps the invariant ------------------------------------------------

  lemma AdmitKeepsFolds(v: Visible, e: Event, env: Environment, opt: Options)
    requires VisibleOk(v) && Deliverable(env)
    ensures var w := Admit(v, e, env, opt);
            forall i | 0 <= i < |w.incidents| :: IsFold(w.events, w.links, i, w.incidents[i])
  {
    var w := Admit(v, e, env, opt);
    var ce, link := w.events[|v.events|], w.links[|v.events|];
    hide IsFold;
    forall i | 0 <= i < |w.incidents| ensures IsFold(w.events, w.links, i, w.incidents[i]) {
      if i == |v.incidents| {
        FoldOpen(v.events, v.links, i, ce, link);
      } else if i == link.incident {
        FoldAttach(v.events, v.links, i, v.incidents[i], ce, link);
      } else {
        FoldFrame(v.events, v.links, i, v.incidents[i], ce, link);
      }
    }
  }

  lemma AdmitLinks(v: Visible, e: Event, env: Environment, opt: Options)
    requires LinksOk(v) && Deliverable(env)
    ensures LinksOk(Admit(v, e, env, opt))
  {
  }

  lemma AdmitOutbox(v: Visible, e: Event, env: Environment, opt: Options)
    requires OutboxOk(v) && Deliverable(env)
    ensures OutboxOk(Admit(v, e, env, opt))
  {
    var found := Select(v.incidents, e, CorrelationWindow(opt));
    var i := if found.Some? then found.value else |v.incidents|;
    var x := if found.Some? then Attach(v.incidents[i], e) else Open(e);
    if !Suppressed(env.decisions) {
      EnqueueOk(v.outbox, i, x, Targets(env), env.channels);
    }
  }

  lemma AdmitKeepsTuples(v: Visible, e: Event, env: Environment, opt: Options)
    requires TuplesDistinct(v.events) && Deliverable(env) && TupleOf(e, opt) !in Tuples(v)
    ensures TuplesDistinct(Admit(v, e, env, opt).events)
  {
  }

  lemma AdmitOk(v: Visible, e: Event, env: Environment, opt: Options)
    requires VisibleOk(v) && Deliverable(env) && TupleOf(e, opt) !in Tuples(v)
    ensures VisibleOk(Admit(v, e, env, opt))
  {
    hide Admit;
    hide IsFold;
    hide TuplesDistinct;
    hide LinksOk;
    hide OutboxOk;
    AdmitKeepsFolds(v, e, env, opt);
    AdmitKeepsTuples(v, e, env, opt);
    AdmitLinks(v, e, env, opt);
    AdmitOutbox(v, e, env, opt);
  }

  lemma MoveOk(v: Visible, i: nat, to: State, now: int)
    requires VisibleOk(v) && i < |v.incidents| && ValidTransition(v.incidents[i].state, to)
    ensures VisibleOk(v.(incidents := v.incidents[i := Move(v.incidents[i], to, now)]))
  {
    hide IsFold;
    hide TuplesDistinct;
    hide ValidTransition;
    FoldMove(v.events, v.links, i, v.incidents[i], to, now);
  }

  lemma AcknowledgeOk(v: Visible, t: nat, now: int)
    requires VisibleOk(v)
    ensures VisibleOk(AcknowledgeByToken(v, t, now))
  {
    hide IsFold;
    hide TuplesDistinct;
    hide ValidTransition;
    var w := AcknowledgeByToken(v, t, now);
    if w != v {
      MoveOk(v, v.tokens[t].incident, Acknowledged, now);
      assert w == v.(incidents := w.incidents, tokens := w.tokens);
    }
  }

  lemma ProcessOk(db: Database, e: Event, env: Environment, opt: Options)
    requires DatabaseOk(db, opt)
    ensures DatabaseOk(Process(db, e, env, opt), opt)
  {
    hide DatabaseOk;
    if Find(db.visible.events, TupleOf(e, opt)).Some? {
      DuplicateOk(db, e, env, opt);
    } else if Deliverable(env) {
      FirstDeliveryOk(db, e, env, opt);
    }
  }

  lemma DuplicateOk(db: Database, e: Event, env: Environment, opt: Options)
    requires DatabaseOk(db, opt) && Find(db.visible.events, TupleOf(e, opt)).Some?
    ensures DatabaseOk(Process(db, e, env, opt), opt)
  {
    hide VisibleOk;
    hide Numbered;
    hide TupleOf;
    var c := Find(db.visible.events, TupleOf(e, opt)).value;
    NumberedDuplicate(db.duplicates, db.duplicateCount, c, |db.raw|);
  }

  lemma FirstDeliveryOk(db: Database, e: Event, env: Environment, opt: Options)
    requires DatabaseOk(db, opt) && Find(db.visible.events, TupleOf(e, opt)).None? && Deliverable(env)
    ensures DatabaseOk(Process(db, e, env, opt), opt)
  {
    hide VisibleOk;
    hide Numbered;
    hide TupleOf;
    hide Admit;
    hide Deliverable;
    AdmitOk(db.visible, e, env, opt);
    AdmitEvents(db.visible, e, env, opt);
    NumberedAdmit(db.duplicates, db.duplicateCount);
  }

  lemma AdmitEvents(v: Visible, e: Event, env: Environment, opt: Options)
    requires Deliverable(env)
    ensures Admit(v, e, env, opt).events == v.events + [CanonicalEvent(e, TupleOf(e, opt))]
    ensures |Admit(v, e, env, opt).links| == |v.links| + 1
  {
  }

  lemma PerformOk(db: Database, op: Op, opt: Options)
    requires DatabaseOk(db, opt)
    ensures DatabaseOk(Perform(db, op, opt), opt)
  {
    hide VisibleOk;
    hide Numbered;
    match op
    case Deliver(e, env, crash) =>
      hide Process;
      hide DatabaseOk;
      if !crash { ProcessOk(db, e, env, opt); }
    case Transit(i, to, expectedVersion, now) =>
      if i < |db.visible.incidents| && MayMove(db.visible.incidents[i], to, expectedVersion) {
        MoveOk(db.visible, i, to, now);
      }
    case Acknowledge(t, now) =>
      AcknowledgeOk(db.visible, t, now);
  }

  lemma {:induction false} RunOk(db: Database, ops: seq<Op>, opt: Options)
    requires DatabaseOk(db, opt)
    ensures DatabaseOk(Run(db, ops, opt), opt)
    decreases |ops|
  {
    hide Perform;
    if ops != [] {
      PerformOk(db, ops[0], opt);
      hide DatabaseOk;
      RunOk(Perform(db, ops[0], opt), ops[1..], opt);
    }
  }

  lemma EmptyOk(opt: Options)
    ensures DatabaseOk(EMPTY, opt)
  {
  }

  /** Nothing is lost and nothing is counted twice, in every run. */
  lemma {:induction false} Conservation(ops: seq<Op>, opt: Options)
    ensures var db := Run(EMPTY, ops, opt);
            var v := db.visible;
            && |db.raw| == |v.events| + |db.duplicates|
            && |db.duplicateCount| == |v.events| == |v.links|
            && (forall c, n: nat | 0 <= c < |v.events| :: 1 <= n <= db.duplicateCount[c] <==> HasNumber(db.duplicates, c, n))
            && (forall d, d' | 0 <= d < d' < |db.duplicates| ::
                  (db.duplicates[d].event, db.duplicates[d].number) != (db.duplicates[d'].event, db.duplicates[d'].number))
            && (forall k | 0 <= k < |v.events| :: v.links[k].event == k && v.links[k].incident < |v.incidents|)
            && (forall a, b | 0 <= a < b < |v.outbox| :: v.outbox[a] != v.outbox[b])
  {
    EmptyOk(opt);
    RunOk(EMPTY, ops, opt);
  }

  /** In every run an incident row is what its events and its transitions make of it. */
  lemma {:induction false} IncidentIsFold(ops: seq<Op>, opt: Options, i: nat)
    requires i < |Run(EMPTY, ops, opt).visible.incidents|
    ensures var v := Run(EMPTY, ops, opt).visible;
            var x := v.incidents[i];
            && IsWalk(x.log, x.state)
            && (x.resolvedAt.Some? <==> x.state == Resolved || x.state == Closed)
            && x.version + 1 == LinkCount(v.links, i) + |x.log|
            && (forall k: nat | Linked(v.events, v.links, i, k) ::
                  v.events[k].event.receivedAt <= x.lastEventAt && Rank(v.events[k].event.severity) <= Rank(x.severity))
            && (exists k: nat :: Linked(v.events, v.links, i, k) && v.events[k].event.receivedAt == x.lastEventAt)
            && (exists k: nat :: Linked(v.events, v.links, i, k) && v.events[k].event.severity == x.severity)
  {
    EmptyOk(opt);
    RunOk(EMPTY, ops, opt);
  }
}
