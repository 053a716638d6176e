/** Correlation as sessionisation: incidents of one key are the sessions of its events. */
module Sessions {
  import opened Base
  import opened Events
  import opened Incidents
  import opened Pipeline
  import opened PipelineInvariant

  predicate SameKey(a: Event, b: Event) {
    a.tenant == b.tenant && CorrelationKey(a) == CorrelationKey(b)
  }

  /** The earlier session of a key ends more than a window before the later one begins. */
  predicate Apart(x: Incident, y: Incident, window: int) {
    x.tenant == y.tenant && x.key == y.key ==> x.lastEventAt + window < y.firstEventAt
  }

  ghost predicate SessionsApart(incidents: seq<Incident>, window: int) {
    && (forall i | 0 <= i < |incidents| :: IsOpen(incidents[i].state) && incidents[i].firstEventAt <= incidents[i].lastEventAt)
    && (forall i, j | 0 <= i < j < |incidents| :: Apart(incidents[i], incidents[j], window))
  }

  predicate IsNewest(incidents: seq<Incident>, i: nat, e: Event)
    requires i < |incidents|
  {
    && incidents[i].tenant == e.tenant && incidents[i].key == CorrelationKey(e)
    && forall j | i < j < |incidents| :: !(incidents[j].tenant == e.tenant && incidents[j].key == CorrelationKey(e))
  }

  /** The selected incident is the newest of its key, or no incident of the key is recent enough. */
  lemma {:induction false} SelectsNewest(incidents: seq<Incident>, e: Event, window: int)
    requires SessionsApart(incidents, window) && window > 0
    ensures Select(incidents, e, window).Some? ==> IsNewest(incidents, Select(incidents, e, window).value, e)
    ensures Select(incidents, e, window).None? ==>
              forall i | 0 <= i < |incidents| && incidents[i].tenant == e.tenant && incidents[i].key == CorrelationKey(e) ::
                incidents[i].lastEventAt + window < e.receivedAt
  {
  }

  /** Whatever the order of arrival, only the newest incident of a key grows and sessions stay apart. */
  lemma AdmitKeepsApart(v: Visible, e: Event, env: Environment, opt: Options)
    requires SessionsApart(v.incidents, CorrelationWindow(opt)) && Deliverable(env)
    ensures SessionsApart(Admit(v, e, env, opt).incidents, CorrelationWindow(opt))
    ensures var w := Admit(v, e, env, opt);
            && |w.links| == |v.links| + 1
            && w.links[|v.links|].incident < |w.incidents|
            && IsNewest(w.incidents, w.links[|v.links|].incident, e)
            && forall i | 0 <= i < |v.incidents| && i != w.links[|v.links|].incident :: w.incidents[i] == v.incidents[i]
  {
    var window := CorrelationWindow(opt);
    var w := Admit(v, e, env, opt);
    var found := Select(v.incidents, e, window);
    SelectsNewest(v.incidents, e, window);
    hide Select;
    forall i, j | 0 <= i < j < |w.incidents| ensures Apart(w.incidents[i], w.incidents[j], window) {
      if j < |v.incidents| { assert Apart(v.incidents[i], v.incidents[j], window); }
    }
  }

  /** No operator resolves or closes an incident. */
  predicate NoClosures(ops: seq<Op>) {
    forall k | 0 <= k < |ops| && ops[k].Transit? :: IsOpen(ops[k].to)
  }

  /** Everything correlation looks at is as before, and no incident was closed. */
  ghost predicate SameSessions(v: Visible, w: Visible) {
    && w.events == v.events && w.links == v.links && |w.incidents| == |v.incidents|
    && forall i | 0 <= i < |v.incidents| ::
         && (w.incidents[i].tenant, w.incidents[i].key) == (v.incidents[i].tenant, v.incidents[i].key)
         && w.incidents[i].firstEventAt == v.incidents[i].firstEventAt
         && w.incidents[i].lastEventAt == v.incidents[i].lastEventAt
         && (IsOpen(v.incidents[i].state) ==> IsOpen(w.incidents[i].state))
  }

  lemma OperatorsKeepSessions(db: Database, op: Op, opt: Options)
    requires Shaped(db) && !op.Deliver? && (op.Transit? ==> IsOpen(op.to))
    ensures SameSessions(db.visible, Perform(db, op, opt).visible)
  {
  }

  lemma SameSessionsApart(v: Visible, w: Visible, window: int)
    requires SameSessions(v, w) && SessionsApart(v.incidents, window)
    ensures SessionsApart(w.incidents, window)
  {
  }

  lemma ApartStep(db: Database, op: Op, opt: Options)
    requires Shaped(db) && SessionsApart(db.visible.incidents, CorrelationWindow(opt)) && (op.Transit? ==> IsOpen(op.to))
    ensures SessionsApart(Perform(db, op, opt).visible.incidents, CorrelationWindow(opt))
  {
    if op.Deliver? {
      ProcessVisible(db, op.event, op.env, opt);
      if Deliverable(op.env) { AdmitKeepsApart(db.visible, op.event, op.env, opt); }
      hide SessionsApart;
      hide Process;
    } else {
      OperatorsKeepSessions(db, op, opt);
      SameSessionsApart(db.visible, Perform(db, op, opt).visible, CorrelationWindow(opt));
    }
  }

  lemma {:induction false} SessionsRun(db: Database, ops: seq<Op>, opt: Options)
    requires Shaped(db) && SessionsApart(db.visible.incidents, CorrelationWindow(opt)) && NoClosures(ops)
    ensures SessionsApart(Run(db, ops, opt).visible.incidents, CorrelationWindow(opt))
    decreases |ops|
  {
    hide SessionsApart;
    hide Perform;
    if ops != [] {
      ApartStep(db, ops[0], opt);
      SessionsRun(Perform(db, ops[0], opt), ops[1..], opt);
    }
  }

  /** For every schedule without closures two incidents of one key are more than a window apart. */
  lemma {:induction false} SessionsNeverOverlap(ops: seq<Op>, opt: Options, i: nat, j: nat)
    requires NoClosures(ops) && i < j < |Run(EMPTY, ops, opt).visible.incidents|
    ensures var x, y := Run(EMPTY, ops, opt).visible.incidents[i], Run(EMPTY, ops, opt).visible.incidents[j];
            x.tenant == y.tenant && x.key == y.key ==> x.lastEventAt + CorrelationWindow(opt) < y.firstEventAt
  {
    SessionsRun(EMPTY, ops, opt);
    assert Apart(Run(EMPTY, ops, opt).visible.incidents[i], Run(EMPTY, ops, opt).visible.incidents[j], CorrelationWindow(opt));
  }

  // ---- In-order arrival -------------------------------------------------------------------

  /** The events of each key arrive in the order of their times. */
  ghost predicate InOrder(events: seq<CanonicalEvent>) {
    forall a, b | 0 <= a < b < |events| && SameKey(events[a].event, events[b].event) ::
      events[a].event.receivedAt <= events[b].event.receivedAt
  }

  /** The latest event below `n` of the key of `e`. */
  function Previous(events: seq<CanonicalEvent>, n: nat, e: Event): (p: Option<nat>)
    requires n <= |events|
    ensures p.Some? ==> p.value < n && SameKey(events[p.value].event, e)
    ensures forall k | (if p.Some? then p.value else -1) < k < n :: !SameKey(events[k].event, e)
  {
    if n == 0 then None else
    if SameKey(events[n - 1].event, e) then Some(n - 1) else Previous(events, n - 1, e)
  }

  /** From `a` to `b` no two neighbouring events of the key are more than a window apart. */
  predicate Unbroken(events: seq<CanonicalEvent>, window: int, a: nat, b: nat)
    requires a <= b < |events|
    decreases b
  {
    a == b ||
    (var p := Previous(events, b, events[b].event);
     && p.Some? && a <= p.value
     && events[b].event.receivedAt - events[p.value].event.receivedAt <= window
     && Unbroken(events, window, a, p.value))
  }

  predicate LastOfKey(events: seq<CanonicalEvent>, k: nat)
    requires k < |events|
  {
    forall l | k < l < |events| :: !SameKey(events[l].event, events[k].event)
  }

  /** Two events of a key share an incident exactly when nothing breaks the session between them. */
  ghost predicate SessionsExact(v: Visible, window: int) {
    && |v.links| == |v.events|
    && forall a, b | 0 <= a <= b < |v.events| && SameKey(v.events[a].event, v.events[b].event) ::
         v.links[a].incident == v.links[b].incident <==> Unbroken(v.events, window, a, b)
  }

  /** The latest event of a key sits in the newest incident of the key. */
  ghost predicate LatestInNewest(v: Visible) {
    && |v.links| == |v.events|
    && forall k | 0 <= k < |v.events| && LastOfKey(v.events, k) ::
         v.links[k].incident < |v.incidents| && IsNewest(v.incidents, v.links[k].incident, v.events[k].event)
  }

  ghost predicate SessionsOk(v: Visible, window: int) {
    VisibleOk(v) && SessionsApart(v.incidents, window) && SessionsExact(v, window) && LatestInNewest(v)
  }

  lemma {:induction false} PreviousPrefix(events: seq<CanonicalEvent>, ce: CanonicalEvent, n: nat, e: Event)
    requires n <= |events|
    ensures Previous(events + [ce], n, e) == Previous(events, n, e)
  {
    hide SameKey;
    if n > 0 { PreviousPrefix(events, ce, n - 1, e); }
  }

  lemma {:induction false} UnbrokenPrefix(events: seq<CanonicalEvent>, ce: CanonicalEvent, window: int, a: nat, b: nat)
    requires a <= b < |events|
    ensures Unbroken(events + [ce], window, a, b) == Unbroken(events, window, a, b)
    decreases b
  {
    hide SameKey;
    PreviousPrefix(events, ce, b, events[b].event);
    var p := Previous(events, b, events[b].event);
    if a != b && p.Some? && a <= p.value { UnbrokenPrefix(events, ce, window, a, p.value); }
  }

  /** In order, the time of the newest incident's last event is that of the latest event of the key. */
  lemma LatestIsLast(v: Visible, p: nat)
    requires VisibleOk(v) && LatestInNewest(v) && InOrder(v.events) && p < |v.events| && LastOfKey(v.events, p)
    ensures v.links[p].incident < |v.incidents|
    ensures v.incidents[v.links[p].incident].lastEventAt == v.events[p].event.receivedAt
  {
    hide IsFold;
    hide OutboxOk;
    hide TuplesDistinct;
    hide CorrelationKey;
    LatestEventIsLast(v.events, v.links, v.links[p].incident, v.incidents[v.links[p].incident], p);
  }

  lemma LatestEventIsLast(events: seq<CanonicalEvent>, links: seq<Link>, i: nat, x: Incident, p: nat)
    requires IsFold(events, links, i, x) && InOrder(events) && Linked(events, links, i, p) && LastOfKey(events, p)
    requires forall k | 0 <= k < |events| && k < |links| && links[k].incident == i :: SameKey(events[k].event, events[p].event)
    ensures x.lastEventAt == events[p].event.receivedAt
  {
  }

  /** The new event joins its predecessor's incident exactly when the gap is at most the window. */
  lemma AdmitJoinsPredecessor(v: Visible, e: Event, env: Environment, opt: Options, p: nat)
    requires SessionsOk(v, CorrelationWindow(opt)) && InOrder(v.events) && Deliverable(env)
    requires p < |v.events| && SameKey(v.events[p].event, e) && LastOfKey(v.events, p)
    ensures var w := Admit(v, e, env, opt);
            && |w.links| == |v.links| + 1 && p < |v.links|
            && (w.links[|v.links|].incident == v.links[p].incident
                <==> e.receivedAt - v.events[p].event.receivedAt <= CorrelationWindow(opt))
            && (w.links[|v.links|].incident == v.links[p].incident || w.links[|v.links|].incident == |v.incidents|)
  {
    hide CorrelationKey;
    hide Select;
    hide IsFold;
    hide OutboxOk;
    hide TuplesDistinct;
    hide SessionsExact;
    var i := v.links[p].incident;
    LatestIsLast(v, p);
    SelectsNewest(v.incidents, e, CorrelationWindow(opt));
    SelectedIsCandidate(v.incidents, e, CorrelationWindow(opt));
    assert IsNewest(v.incidents, i, v.events[p].event);
    assert IsOpen(v.incidents[i].state);
  }

  lemma {:induction false} SelectedIsCandidate(incidents: seq<Incident>, e: Event, window: int)
    ensures var found := Select(incidents, e, window);
            && (found.Some? ==> found.value < |incidents| && Candidate(incidents[found.value], e, window))
            && (found.None? ==> forall i | 0 <= i < |incidents| :: !Candidate(incidents[i], e, window))
  {
  }

  /** The new event shares the incident of event `a` exactly when the session is unbroken up to it. */
  lemma {:induction false} NewEventExact(v: Visible, e: Event, env: Environment, opt: Options, a: nat)
    requires SessionsOk(v, CorrelationWindow(opt)) && InOrder(v.events) && Deliverable(env)
    requires a < |v.events| && SameKey(v.events[a].event, e)
    ensures var w := Admit(v, e, env, opt);
            && |w.links| == |w.events| == |v.events| + 1
            && (w.links[a].incident == w.links[|v.events|].incident
                <==> Unbroken(w.events, CorrelationWindow(opt), a, |v.events|))
  {
    hide Admit;
    hide CorrelationKey;
    hide CorrelationWindow;
    hide VisibleOk;
    hide SessionsApart;
    hide LatestInNewest;
    var window, n := CorrelationWindow(opt), |v.events|;
    var w := Admit(v, e, env, opt);
    AdmitEvents(v, e, env, opt);
    AdmitExtendsLinks(v, e, env, opt);
    var p := Previous(v.events, n, e);
    assert p.Some? && LastOfKey(v.events, p.value) && a <= p.value;
    assert SameKey(v.events[a].event, v.events[p.value].event);
    hide SameKey;
    hide LastOfKey;
    AdmitJoinsPredecessor(v, e, env, opt, p.value);
    PreviousPrefix(v.events, w.events[n], n, e);
    UnbrokenPrefix(v.events, w.events[n], window, a, p.value);
    LinkInRange(v, a);
    hide SessionsOk;
    assert w.events[n].event == e && w.links[a] == v.links[a];
    assert Unbroken(w.events, window, a, p.value) <==> v.links[a].incident == v.links[p.value].incident;
  }

  lemma AdmitExact(v: Visible, e: Event, env: Environment, opt: Options)
    requires SessionsOk(v, CorrelationWindow(opt)) && InOrder(v.events) && Deliverable(env)
    ensures SessionsExact(Admit(v, e, env, opt), CorrelationWindow(opt))
  {
    hide Admit;
    hide CorrelationWindow;
    hide VisibleOk;
    hide SessionsApart;
    hide LatestInNewest;
    hide InOrder;
    hide SameKey;
    var window, n := CorrelationWindow(opt), |v.events|;
    var w := Admit(v, e, env, opt);
    AdmitEvents(v, e, env, opt);
    AdmitExtendsLinks(v, e, env, opt);
    forall a, b | 0 <= a <= b < |w.events| && SameKey(w.events[a].event, w.events[b].event)
      ensures w.links[a].incident == w.links[b].incident <==> Unbroken(w.events, window, a, b)
    {
      if b < n {
        UnbrokenPrefix(v.events, w.events[n], window, a, b);
        assert w.events[a] == v.events[a] && w.events[b] == v.events[b];
        assert w.links[a] == v.links[a] && w.links[b] == v.links[b];
      } else if a < n {
        assert w.events[a] == v.events[a];
        NewEventExact(v, e, env, opt, a);
      }
    }
  }

  lemma AdmitExtendsLinks(v: Visible, e: Event, env: Environment, opt: Options)
    requires Deliverable(env)
    ensures v.links <= Admit(v, e, env, opt).links && |Admit(v, e, env, opt).links| == |v.links| + 1
  {
  }

  lemma LinkInRange(v: Visible, a: nat)
    requires VisibleOk(v) && a < |v.events|
    ensures a < |v.links| && v.links[a].incident < |v.incidents|
  {
  }

  lemma AdmitLatest(v: Visible, e: Event, env: Environment, opt: Options)
    requires SessionsApart(v.incidents, CorrelationWindow(opt)) && LatestInNewest(v) && Deliverable(env)
    ensures LatestInNewest(Admit(v, e, env, opt))
  {
    var n := |v.events|;
    var w := Admit(v, e, env, opt);
    AdmitKeepsApart(v, e, env, opt);
    hide CorrelationKey;
    hide Select;
    forall k | 0 <= k < |w.events| && LastOfKey(w.events, k)
      ensures w.links[k].incident < |w.incidents| && IsNewest(w.incidents, w.links[k].incident, w.events[k].event)
    {
      if k < n {
        assert w.events[k] == v.events[k] && w.links[k] == v.links[k];
        assert !SameKey(w.events[n].event, w.events[k].event);
        assert LastOfKey(v.events, k) by {
          forall l | k < l < n ensures !SameKey(v.events[l].event, v.events[k].event) {
            assert w.events[l] == v.events[l];
          }
        }
      }
    }
  }

  lemma AdmitSessions(v: Visible, e: Event, env: Environment, opt: Options)
    requires SessionsOk(v, CorrelationWindow(opt)) && InOrder(v.events) && Deliverable(env) && TupleOf(e, opt) !in Tuples(v)
    ensures SessionsOk(Admit(v, e, env, opt), CorrelationWindow(opt))
  {
    AdmitExact(v, e, env, opt);
    hide Admit;
    hide VisibleOk;
    hide SessionsApart;
    hide SessionsExact;
    hide LatestInNewest;
    AdmitOk(v, e, env, opt);
    AdmitKeepsApart(v, e, env, opt);
    AdmitLatest(v, e, env, opt);
  }

  lemma EventsStep(db: Database, op: Op, opt: Options)
    requires Shaped(db)
    ensures db.visible.events <= Perform(db, op, opt).visible.events
  {
  }

  lemma {:induction false} EventsOnlyGrow(db: Database, ops: seq<Op>, opt: Options)
    requires Shaped(db)
    ensures db.visible.events <= Run(db, ops, opt).visible.events
    decreases |ops|
  {
    hide Perform;
    if ops != [] {
      EventsStep(db, ops[0], opt);
      EventsOnlyGrow(Perform(db, ops[0], opt), ops[1..], opt);
    }
  }

  lemma SameSessionsLatest(v: Visible, w: Visible)
    requires SameSessions(v, w) && LatestInNewest(v)
    ensures LatestInNewest(w)
  {
  }

  lemma SameSessionsOk(v: Visible, w: Visible, window: int)
    requires SameSessions(v, w) && SessionsOk(v, window) && VisibleOk(w)
    ensures SessionsOk(w, window)
  {
    hide VisibleOk;
    hide LatestInNewest;
    hide SessionsApart;
    SameSessionsApart(v, w, window);
    SameSessionsLatest(v, w);
  }

  lemma SessionsStep(db: Database, op: Op, opt: Options)
    requires DatabaseOk(db, opt) && SessionsOk(db.visible, CorrelationWindow(opt)) && InOrder(db.visible.events)
    requires op.Transit? ==> IsOpen(op.to)
    ensures SessionsOk(Perform(db, op, opt).visible, CorrelationWindow(opt))
  {
    hide VisibleOk;
    hide SessionsOk;
    hide InOrder;
    hide CorrelationWindow;
    hide Process;
    hide Admit;
    hide RawAccounted;
    hide Numbered;
    if op.Deliver? {
      ProcessVisible(db, op.event, op.env, opt);
      if !op.crash && Deliverable(op.env) && TupleOf(op.event, opt) !in Tuples(db.visible) {
        AdmitSessions(db.visible, op.event, op.env, opt);
      }
    } else {
      hide Perform;
      PerformOk(db, op, opt);
      OperatorsKeepSessions(db, op, opt);
      SameSessionsOk(db.visible, Perform(db, op, opt).visible, CorrelationWindow(opt));
    }
  }

  lemma {:induction false} InOrderRun(db: Database, ops: seq<Op>, opt: Options)
    requires DatabaseOk(db, opt) && SessionsOk(db.visible, CorrelationWindow(opt)) && NoClosures(ops)
    requires InOrder(Run(db, ops, opt).visible.events)
    ensures SessionsOk(Run(db, ops, opt).visible, CorrelationWindow(opt))
    decreases |ops|
  {
    hide SessionsOk;
    hide Perform;
    hide SameKey;
    if ops != [] {
      EventsOnlyGrow(db, ops, opt);
      PerformOk(db, ops[0], opt);
      SessionsStep(db, ops[0], opt);
      hide DatabaseOk;
      InOrderRun(Perform(db, ops[0], opt), ops[1..], opt);
    }
  }

  /**
   * When the events of each key arrive in order, two of them share an incident if and only if
   * no gap between neighbouring events of the key from the one to the other exceeds the window:
   * the incidents are the maximal runs.
   */
  lemma {:induction false} IncidentsAreMaximalRuns(ops: seq<Op>, opt: Options, a: nat, b: nat)
    requires NoClosures(ops) && InOrder(Run(EMPTY, ops, opt).visible.events)
    requires a <= b < |Run(EMPTY, ops, opt).visible.events|
    requires SameKey(Run(EMPTY, ops, opt).visible.events[a].event, Run(EMPTY, ops, opt).visible.events[b].event)
    ensures var v := Run(EMPTY, ops, opt).visible;
            && |v.links| == |v.events|
            && (v.links[a].incident == v.links[b].incident <==> Unbroken(v.events, CorrelationWindow(opt), a, b))
  {
    EmptyOk(opt);
    assert SessionsOk(EMPTY.visible, CorrelationWindow(opt));
    InOrderRun(EMPTY, ops, opt);
  }
}
