/**
 * Workers executing an HTTP step that has no idempotency header. Every claim starts a flight that
 * sends the request at most once, at any later time, and reports under its worker's name; leases
 * expire, workers crash and operators retry in between.
 */
module RunbookEngine {
  import opened Documents
  import opened Runbook
  import opened RunbookSafety
  import opened RunbookTheorems

  datatype Phase = Unsent | Sent | EndedUnsent | EndedSent

  datatype Flight = Flight(worker: string, phase: Phase)

  /** `forced` counts the operator retries accepted on the step while it was ambiguous. */
  datatype System = System(execution: Execution, flights: seq<Flight>, forced: nat, unsentFailures: nat)

  datatype Event =
    | TakeClaim(worker: string, now: int, leaseUntil: int)
    | Send(flight: nat)
    | FailUnsent(flight: nat, retryAt: int)
    | SkipUnsent(flight: nat, status: StepStatus)
    | Succeed(flight: nat, status: StepStatus)
    | Doubt(flight: nat)
    | Crash(flight: nat)
    | Other(action: Action)

  /** Reports on step `i` come from flights only; everything else commits in between. */
  predicate IsOther(a: Action, i: nat) {
    && !(a.Claim? && a.step == i)
    && !((a.Complete? || a.MarkAmbiguous? || a.ScheduleWait? || a.OpenApproval?) && a.step == i)
  }

  predicate Enabled(sys: System, i: nat, ev: Event) {
    match ev
    case TakeClaim(_, now, _) => Claimable(sys.execution, i, now)
    case Send(f) => f < |sys.flights| && sys.flights[f].phase.Unsent?
    case FailUnsent(f, _) => f < |sys.flights| && sys.flights[f].phase.Unsent?
    case SkipUnsent(f, _) => f < |sys.flights| && sys.flights[f].phase.Unsent?
    case Succeed(f, _) => f < |sys.flights| && sys.flights[f].phase.Sent?
    case Doubt(f) => f < |sys.flights| && sys.flights[f].phase.Sent?
    case Crash(f) => f < |sys.flights|
    case Other(a) => IsOther(a, i)
  }

  function Ended(phase: Phase): Phase {
    match phase case Unsent => EndedUnsent case Sent => EndedSent case _ => phase
  }

  function End(flights: seq<Flight>, f: nat): seq<Flight>
    requires f < |flights|
  {
    flights[f := flights[f].(phase := Ended(flights[f].phase))]
  }

  /** The failure is written to the step row: the reporting worker holds its lease. */
  predicate Accepted(e: Execution, i: nat, worker: string) {
    i < |e.steps| && Leased(e.steps[i].status) && HeldBy(e.steps[i], worker)
  }

  function After(sys: System, i: nat, ev: Event): System
    requires Enabled(sys, i, ev)
  {
    var e := sys.execution;
    match ev
    case TakeClaim(worker, now, leaseUntil) =>
      sys.(execution := Apply(e, Claim(i, worker, now, leaseUntil)), flights := sys.flights + [Flight(worker, Unsent)])
    case Send(f) =>
      sys.(flights := sys.flights[f := sys.flights[f].(phase := Sent)])
    case FailUnsent(f, retryAt) =>
      sys.(execution := Apply(e, Complete(i, sys.flights[f].worker, Failure, retryAt)),
           flights := End(sys.flights, f),
           unsentFailures := sys.unsentFailures + if Accepted(e, i, sys.flights[f].worker) then 1 else 0)
    case SkipUnsent(f, status) =>
      sys.(execution := Apply(e, Complete(i, sys.flights[f].worker, Success(status), 0)), flights := End(sys.flights, f))
    case Succeed(f, status) =>
      sys.(execution := Apply(e, Complete(i, sys.flights[f].worker, Success(status), 0)), flights := End(sys.flights, f))
    case Doubt(f) =>
      sys.(execution := Apply(e, MarkAmbiguous(i, sys.flights[f].worker)), flights := End(sys.flights, f))
    case Crash(f) =>
      sys.(flights := End(sys.flights, f))
    case Other(a) =>
      sys.(execution := Apply(e, a),
           forced := sys.forced + if Retries(a, i, true) && i < |e.steps| && e.steps[i].status.Ambiguous? then 1 else 0)
  }

  function Count(flights: seq<Flight>, sent: bool): nat {
    if flights == [] then 0 else
    var p := flights[|flights| - 1].phase;
    Count(flights[..|flights| - 1], sent)
    + if sent then (if p.Sent? || p.EndedSent? then 1 else 0) else (if p.EndedUnsent? then 1 else 0)
  }

  lemma {:induction false} CountUpdate(flights: seq<Flight>, f: nat, phase: Phase, sent: bool)
    requires f < |flights|
    ensures Count(flights[f := flights[f].(phase := phase)], sent) - Count([flights[f].(phase := phase)], sent)
            == Count(flights, sent) - Count([flights[f]], sent)
  {
    var last := |flights| - 1;
    var flight := flights[f].(phase := phase);
    assert [flight][..0] == [] && [flights[f]][..0] == [];
    if f == last {
      assert flights[f := flight][..last] == flights[..last];
    } else {
      assert flights[f := flight][..last] == flights[..last][f := flight];
      CountUpdate(flights[..last], f, phase, sent);
    }
  }

  lemma {:induction false} CountsAreDisjoint(flights: seq<Flight>)
    ensures Count(flights, true) + Count(flights, false) <= |flights|
  {
    if flights != [] { CountsAreDisjoint(flights[..|flights| - 1]); }
  }

  /** A step that is waiting to be claimed, or failed, has the payment for its next claim in hand. */
  function Credit(status: StepStatus): nat {
    if status.Pending? || status.Retrying? || status.Failed? then 0 else 1
  }

  /** Each claim beyond the first is paid for by a forced retry or by a flight that ended unsent. */
  ghost predicate SystemOk(sys: System, i: nat) {
    && ExecutionOk(sys.execution)
    && i < |sys.execution.steps|
    && sys.execution.steps[i].spec.kind == Http("")
    && sys.execution.steps[i].approval.None?
    && sys.unsentFailures <= Count(sys.flights, false)
    && |sys.flights| <= sys.forced + sys.unsentFailures + Credit(sys.execution.steps[i].status)
  }

  /** The row of step `i` after a transaction, as far as payment is concerned. */
  ghost predicate Paid(e: Execution, i: nat, e': Execution, payment: nat) {
    && ExecutionOk(e') && i < |e.steps| && i < |e'.steps|
    && e'.steps[i].spec == e.steps[i].spec
    && e'.steps[i].approval == e.steps[i].approval
    && Credit(e.steps[i].status) <= Credit(e'.steps[i].status) + payment
  }

  lemma OtherIsPaid(e: Execution, i: nat, a: Action)
    requires ExecutionOk(e) && i < |e.steps| && e.steps[i].spec.kind == Http("") && e.steps[i].approval.None?
    requires IsOther(a, i)
    ensures Paid(e, i, Apply(e, a), if Retries(a, i, true) && e.steps[i].status.Ambiguous? then 1 else 0)
  {
    RowFrame(e, a, i);
    NextOk(e, a);
    hide ExecutionOk;
    hide RowsOk;
  }

  lemma ReportIsPaid(e: Execution, i: nat, a: Action)
    requires ExecutionOk(e) && i < |e.steps| && (a.Complete? || a.MarkAmbiguous?) && a.step == i
    ensures Paid(e, i, Apply(e, a), if a.Complete? && a.report.Failure? && Accepted(e, i, a.worker) then 1 else 0)
  {
    RowFrame(e, a, i);
    NextOk(e, a);
    hide ExecutionOk;
  }

  lemma ClaimKeeps(sys: System, i: nat, worker: string, now: int, leaseUntil: int)
    requires SystemOk(sys, i) && Enabled(sys, i, TakeClaim(worker, now, leaseUntil))
    ensures SystemOk(After(sys, i, TakeClaim(worker, now, leaseUntil)), i)
  {
    var flights := sys.flights;
    NextOk(sys.execution, Claim(i, worker, now, leaseUntil));
    hide ExecutionOk;
    assert (flights + [Flight(worker, Unsent)])[..|flights|] == flights;
  }

  lemma StepKeeps(sys: System, i: nat, ev: Event)
    requires SystemOk(sys, i) && Enabled(sys, i, ev)
    ensures SystemOk(After(sys, i, ev), i)
  {
    hide Apply;
    hide ExecutionOk;
    var e, flights := sys.execution, sys.flights;
    match ev
    case TakeClaim(worker, now, leaseUntil) =>
      ClaimKeeps(sys, i, worker, now, leaseUntil);
    case Send(f) =>
      CountUpdate(flights, f, Sent, false);
    case FailUnsent(f, retryAt) =>
      ReportIsPaid(e, i, Complete(i, flights[f].worker, Failure, retryAt));
      CountUpdate(flights, f, EndedUnsent, false);
    case SkipUnsent(f, status) =>
      ReportIsPaid(e, i, Complete(i, flights[f].worker, Success(status), 0));
      CountUpdate(flights, f, EndedUnsent, false);
    case Succeed(f, status) =>
      ReportIsPaid(e, i, Complete(i, flights[f].worker, Success(status), 0));
      CountUpdate(flights, f, EndedSent, false);
    case Doubt(f) =>
      ReportIsPaid(e, i, MarkAmbiguous(i, flights[f].worker));
      CountUpdate(flights, f, EndedSent, false);
    case Crash(f) =>
      CountUpdate(flights, f, Ended(flights[f].phase), false);
    case Other(a) =>
      OtherIsPaid(e, i, a);
  }

  /** Events that are not possible when their turn comes do not happen. */
  function RunEvents(sys: System, i: nat, events: seq<Event>): System
    decreases |events|
  {
    if events == [] then sys else
    RunEvents(if Enabled(sys, i, events[0]) then After(sys, i, events[0]) else sys, i, events[1..])
  }

  lemma {:induction false} RunKeeps(sys: System, i: nat, events: seq<Event>)
    requires SystemOk(sys, i)
    ensures SystemOk(RunEvents(sys, i, events), i)
    decreases |events|
  {
    hide SystemOk;
    hide After;
    hide Enabled;
    if events != [] {
      if Enabled(sys, i, events[0]) { StepKeeps(sys, i, events[0]); }
      RunKeeps(if Enabled(sys, i, events[0]) then After(sys, i, events[0]) else sys, i, events[1..]);
    }
  }

  /**
   * Whatever the interleaving, the request of an HTTP step without idempotency header is sent at
   * most once, plus once for every retry an operator forced on its ambiguous outcome.
   */
  lemma {:induction false} RequestsSent(e: Execution, i: nat, events: seq<Event>)
    requires ExecutionOk(e) && i < |e.steps| && e.steps[i].status.Pending? && e.steps[i].spec.kind == Http("")
    ensures var sys := RunEvents(System(e, [], 0, 0), i, events);
            Count(sys.flights, true) <= 1 + sys.forced
  {
    var start := System(e, [], 0, 0);
    assert SystemOk(start, i);
    RunKeeps(start, i, events);
    CountsAreDisjoint(RunEvents(start, i, events).flights);
  }
}
