/** The incident row, its lifecycle, and its row of history. */
module Incidents {
  import opened Base
  import opened Events

  datatype State = Detected | Acknowledged | Investigating | Mitigated | Resolved | Closed | Reopened

  const TRANSITIONS: map<State, set<State>> := map[
    Detected := {Acknowledged, Investigating, Mitigated, Resolved},
    Acknowledged := {Investigating, Mitigated, Resolved},
    Investigating := {Mitigated, Resolved},
    Mitigated := {Investigating, Resolved},
    Resolved := {Closed, Reopened},
    Closed := {Reopened},
    Reopened := {Acknowledged, Investigating, Mitigated, Resolved}]

  predicate ValidTransition(from: State, to: State) {
    from != to && from in TRANSITIONS && to in TRANSITIONS[from]
  }

  /** How far the work on an incident has come; a reopened one starts over. */
  function Stage(state: State): nat {
    match state
    case Detected => 0 case Reopened => 0 case Acknowledged => 1 case Investigating => 2
    case Mitigated => 3 case Resolved => 4 case Closed => 5
  }

  /**
   * The table in words: work on an open incident goes forward, or from mitigated back to
   * investigating; only a resolved incident is closed; only an ended one is reopened; and nothing
   * becomes detected.
   */
  lemma LifecycleRule(from: State, to: State)
    ensures ValidTransition(from, to) <==>
            match to
            case Detected => false
            case Reopened => from == Resolved || from == Closed
            case Closed => from == Resolved
            case _ => Stage(from) < 4 && (Stage(from) < Stage(to) || (from == Mitigated && to == Investigating))
  {
  }

  predicate IsOpen(state: State) { state != Resolved && state != Closed }

  datatype Transition = Transition(from: Option<State>, to: State)

  /** A row of `incidents` with its rows of `incident_transitions`, oldest first. */
  datatype Incident = Incident(
    tenant: string,
    key: string,
    state: State,
    severity: Severity,
    firstEventAt: int,
    lastEventAt: int,
    acknowledgedAt: Option<int>,
    resolvedAt: Option<int>,
    version: nat,
    log: seq<Transition>)

  function Open(e: Event): Incident {
    Incident(e.tenant, CorrelationKey(e), Detected, e.severity, e.receivedAt, e.receivedAt, None, None, 1,
             [Transition(None, Detected)])
  }

  /** Another event is attached to the incident. */
  function Attach(x: Incident, e: Event): Incident {
    x.(lastEventAt := Max(x.lastEventAt, e.receivedAt), severity := MaxSeverity(x.severity, e.severity),
       version := x.version + 1)
  }

  function Move(x: Incident, to: State, now: int): Incident {
    x.(state := to,
       acknowledgedAt := if to == Acknowledged then Some(now) else x.acknowledgedAt,
       resolvedAt := if to == Resolved then Some(now) else if to == Reopened then None else x.resolvedAt,
       version := x.version + 1,
       log := x.log + [Transition(Some(x.state), to)])
  }

  /** A version of zero or less means the caller does not insist on one. */
  predicate MayMove(x: Incident, to: State, expectedVersion: int) {
    (expectedVersion > 0 ==> expectedVersion == x.version) && ValidTransition(x.state, to)
  }

  /** A legal walk of the lifecycle from its creation to the current state. */
  ghost predicate IsWalk(log: seq<Transition>, state: State) {
    && log != []
    && log[0] == Transition(None, Detected)
    && log[|log| - 1].to == state
    && forall k | 1 <= k < |log| :: log[k].from == Some(log[k - 1].to) && ValidTransition(log[k - 1].to, log[k].to)
  }

  /** The row agrees with its own history; `links` is the number of events attached to it. */
  ghost predicate HistoryOk(x: Incident, links: nat) {
    && IsWalk(x.log, x.state)
    && (x.resolvedAt.Some? <==> x.state == Resolved || x.state == Closed)
    && (x.acknowledgedAt.Some? <==> exists k | 0 <= k < |x.log| :: x.log[k].to == Acknowledged)
    && x.version + 1 == links + |x.log|
    && x.firstEventAt <= x.lastEventAt
  }

  lemma OpenHistory(e: Event)
    ensures HistoryOk(Open(e), 1)
  {
  }

  lemma AttachHistory(x: Incident, e: Event, links: nat)
    requires HistoryOk(x, links)
    ensures HistoryOk(Attach(x, e), links + 1)
  {
  }

  lemma MoveHistory(x: Incident, to: State, now: int, links: nat)
    requires HistoryOk(x, links) && ValidTransition(x.state, to)
    ensures HistoryOk(Move(x, to, now), links)
  {
    var y := Move(x, to, now);
    assert forall k | 0 <= k < |x.log| :: y.log[k] == x.log[k];
    assert y.log[|x.log|].to == to;
  }
}
