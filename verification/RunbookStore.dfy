/**
 * The store's transactions as they are written: rows are read, guarded and updated one after
 * the other on the transaction's own view, and the commit replaces the execution's rows.
 * Every method is proved against the transition it stands for.
 */
module RunbookStore {
  import opened Base
  import opened Documents
  import opened Runbook
  import opened RunbookSafety
  import opened RunbookEffects

  datatype ClaimedStep = ClaimedStep(execution: nat, step: nat, attempt: nat)

  /** The transaction is `a` on execution `x`: its writes if it commits, nothing and its error if not. */
  ghost predicate Applied(before: seq<Execution>, x: nat, a: Action, after: seq<Execution>, error: Option<Error>) {
    if x >= |before| then after == before && error == Some(NotFound)
    else match Next(before[x], a)
      case Committed(e) => after == before[x := e] && error.None?
      case Aborted(reason) => after == before && error == Some(reason)
  }

  ghost predicate AllOk(executions: seq<Execution>) {
    forall x | 0 <= x < |executions| :: ExecutionOk(executions[x])
  }

  lemma AppliedOk(before: seq<Execution>, x: nat, a: Action, after: seq<Execution>, error: Option<Error>)
    requires AllOk(before) && Applied(before, x, a, after, error)
    ensures AllOk(after)
  {
    if x < |before| { NextOk(before[x], a); }
    hide Next;
    hide ExecutionOk;
  }

  /** Counts the remaining rows of both lanes. */
  method FinalizeIfDone(e: Execution) returns (r: Execution)
    ensures r == Finalize(e)
  {
    var remaining := 0;
    for i := 0 to |e.steps|
      invariant remaining >= 0
      invariant remaining == 0 <==> AllSettled(e.steps[..i])
    {
      assert e.steps[..i + 1] == e.steps[..i] + [e.steps[i]];
      if !Settled(e.steps[i].status) {
        remaining := remaining + 1;
        assert !Settled(e.steps[..i + 1][i].status);
      }
    }
    assert e.steps[..|e.steps|] == e.steps;
    if remaining != 0 || (!e.status.ExecRunning? && !e.status.ExecRollingBack?) {
      return e;
    }
    var final := ExecCompleted;
    if e.status.ExecRollingBack? { final := ExecRolledBack; }
    return e.(status := final);
  }

  predicate Blocks(previous: Step, s: Step) {
    && previous.spec.isRollback == s.spec.isRollback
    && previous.spec.position < s.spec.position
    && !Finished(previous.status)
  }

  /** The candidate row of an execution, by a scan with an anti-join over earlier positions. */
  method FindCandidate(e: Execution, now: int) returns (found: Option<nat>)
    ensures found.Some? ==> Claimable(e, found.value, now)
    ensures found.None? ==> forall i: nat :: !Claimable(e, i, now)
  {
    var lane := e.status.ExecRollingBack?;
    if e.cancelRequested || (!lane && !e.status.ExecRunning?) { return None; }
    for i := 0 to |e.steps|
      invariant forall k: nat | k < i :: !Claimable(e, k, now)
    {
      var s := e.steps[i];
      if (s.status.Pending? || s.status.Retrying?) && s.nextAttemptAt <= now && s.spec.isRollback == lane {
        var blocked := false;
        for p := 0 to |e.steps|
          invariant blocked <==> exists q | 0 <= q < p :: Blocks(e.steps[q], s)
        {
          if Blocks(e.steps[p], s) { blocked := true; }
        }
        if !blocked {
          assert forall q | 0 <= q < |e.steps| :: !Blocks(e.steps[q], s);
          return Some(i);
        }
      }
    }
    return None;
  }

  /** An execution has at most one row to claim. */
  lemma AtMostOneCandidate(e: Execution, i: nat, j: nat, now: int)
    requires ExecutionOk(e) && Claimable(e, i, now) && Claimable(e, j, now)
    ensures i == j
  {
  }

  /** Recovery of the rows below `n`, one transaction's loop. */
  function RecoverBelow(e: Execution, n: nat, now: int): Execution {
    if n == 0 then e else Apply(RecoverBelow(e, n - 1, now), Recover(n - 1, now))
  }

  lemma RecoverOne(e: Execution, i: nat, now: int)
    requires i < |e.steps|
    ensures var steps := Apply(e, Recover(i, now)).steps;
            |steps| == |e.steps| && !Expired(steps[i], now) && forall k | 0 <= k < |steps| && k != i :: steps[k] == e.steps[k]
  {
  }

  /** Recovery leaves no expired lease behind and is a run of recoveries, so it keeps the invariant. */
  lemma {:induction false} RecoveryIsComplete(e: Execution, n: nat, now: int)
    requires ExecutionOk(e) && n <= |e.steps|
    ensures ExecutionOk(RecoverBelow(e, n, now)) && |RecoverBelow(e, n, now).steps| == |e.steps|
    ensures forall i | 0 <= i < n :: !Expired(RecoverBelow(e, n, now).steps[i], now)
    ensures forall i | n <= i < |e.steps| :: RecoverBelow(e, n, now).steps[i] == e.steps[i]
  {
    hide Apply;
    hide ExecutionOk;
    hide Expired;
    if n > 0 {
      RecoveryIsComplete(e, n - 1, now);
      NextOk(RecoverBelow(e, n - 1, now), Recover(n - 1, now));
      RecoverOne(RecoverBelow(e, n - 1, now), n - 1, now);
    }
  }

  /** Every expired lease of the execution, and nothing else, is retried if that is safe and ambiguous if not. */
  lemma {:induction false} RecoveryIsExact(e: Execution, n: nat, now: int)
    requires ExecutionOk(e) && n <= |e.steps|
    ensures IsRecovered(e, RecoverBelow(e, n, now), n, now)
  {
    hide Apply;
    hide IsRecovered;
    hide StepOk;
    if n == 0 {
      NothingRecovered(e, now);
    } else {
      RecoveryIsExact(e, n - 1, now);
      RecoverNextRow(e, RecoverBelow(e, n - 1, now), n - 1, now);
    }
  }

  lemma NothingRecovered(e: Execution, now: int)
    ensures IsRecovered(e, e, 0, now)
  {
  }

  predicate WaitOver(s: Step, now: int) {
    s.status.Waiting? && s.waitUntil <= now
  }

  function FireRow(s: Step, now: int): Step {
    if WaitOver(s, now) then s.(status := Completed) else s
  }

  /** All due waits of the execution complete at once; it is finalised if there was one. */
  function FireDue(e: Execution, now: int): Execution {
    if exists i | 0 <= i < |e.steps| :: WaitOver(e.steps[i], now)
    then Finalize(e.(steps := seq(|e.steps|, i requires 0 <= i < |e.steps| => FireRow(e.steps[i], now))))
    else e
  }

  /** At most one row of an execution waits, so firing all due timers is firing one. */
  lemma FireDueIsOneTimer(e: Execution, now: int) returns (i: nat)
    requires ExecutionOk(e)
    ensures FireDue(e, now) == Apply(e, FireTimer(i, now))
    ensures |FireDue(e, now).steps| == |e.steps|
  {
    if k :| 0 <= k < |e.steps| && WaitOver(e.steps[k], now) {
      i := k;
      forall j | 0 <= j < |e.steps| && j != i ensures !WaitOver(e.steps[j], now) {
        assert i < j ==> InOrder(e.steps[i], e.steps[j]);
        assert j < i ==> InOrder(e.steps[j], e.steps[i]);
      }
      hide ExecutionOk;
      var fired := seq(|e.steps|, j requires 0 <= j < |e.steps| => FireRow(e.steps[j], now));
      assert fired == e.steps[i := e.steps[i].(status := Completed)];
    } else {
      i := |e.steps|;
    }
  }

  /** What a sweep over all executions handles: expired leases, or waits that are over. */
  datatype Sweep = Leases | Waits

  predicate IsDue(s: Step, sweep: Sweep, now: int) {
    match sweep case Leases => Expired(s, now) case Waits => WaitOver(s, now)
  }

  function DueRows(steps: seq<Step>, sweep: Sweep, now: int): nat {
    if steps == [] then 0
    else DueRows(steps[..|steps| - 1], sweep, now) + if IsDue(steps[|steps| - 1], sweep, now) then 1 else 0
  }

  function AllDueRows(executions: seq<Execution>, sweep: Sweep, now: int): nat {
    if executions == [] then 0
    else AllDueRows(executions[..|executions| - 1], sweep, now) + DueRows(executions[|executions| - 1].steps, sweep, now)
  }

  function ExpireBelow(e: Execution, n: nat, now: int): Execution {
    if n == 0 then e else Apply(ExpireBelow(e, n - 1, now), ExpireApproval(n - 1, now))
  }

  lemma ExpireOne(e: Execution, i: nat, now: int)
    requires i < |e.steps|
    ensures var steps := Apply(e, ExpireApproval(i, now)).steps;
            |steps| == |e.steps| && !ApprovalDue(steps[i], now) && forall k | 0 <= k < |steps| && k != i :: steps[k] == e.steps[k]
  {
  }

  lemma {:induction false} ExpiryIsComplete(e: Execution, n: nat, now: int)
    requires ExecutionOk(e) && n <= |e.steps|
    ensures ExecutionOk(ExpireBelow(e, n, now)) && |ExpireBelow(e, n, now).steps| == |e.steps|
    ensures forall i | 0 <= i < n :: !ApprovalDue(ExpireBelow(e, n, now).steps[i], now)
    ensures forall i | n <= i < |e.steps| :: ExpireBelow(e, n, now).steps[i] == e.steps[i]
  {
    hide Apply;
    hide ExecutionOk;
    hide ApprovalDue;
    if n > 0 {
      ExpiryIsComplete(e, n - 1, now);
      NextOk(ExpireBelow(e, n - 1, now), ExpireApproval(n - 1, now));
      ExpireOne(ExpireBelow(e, n - 1, now), n - 1, now);
    }
  }

  lemma {:induction false} ExpiryIsExact(e: Execution, n: nat, now: int)
    requires n <= |e.steps|
    ensures IsExpired(e, ExpireBelow(e, n, now), n, now)
  {
    hide Apply;
    hide IsExpired;
    if n == 0 {
      NothingExpired(e, now);
    } else {
      ExpiryIsExact(e, n - 1, now);
      ExpireNextRow(e, ExpireBelow(e, n - 1, now), n - 1, now);
    }
  }

  lemma NothingExpired(e: Execution, now: int)
    ensures IsExpired(e, e, 0, now)
  {
  }

  lemma FiringIsExact(e: Execution, now: int)
    ensures IsFired(e, FireDue(e, now), now)
  {
  }

  /** Waits fire first, then approvals expire. */
  ghost predicate IsAdvanced(e: Execution, e': Execution, now: int) {
    exists mid :: IsFired(e, mid, now) && IsExpired(mid, e', |e.steps|, now)
  }

  predicate Claims(claimed: seq<ClaimedStep>, x: nat) {
    exists k | 0 <= k < |claimed| :: claimed[k].execution == x
  }

  ghost predicate IsClaim(before: seq<Execution>, after: seq<Execution>, c: ClaimedStep, worker: string, now: int, until: int) {
    && c.execution < |before| == |after|
    && Claimable(before[c.execution], c.step, now)
    && c.step < |before[c.execution].steps|
    && c.attempt == before[c.execution].steps[c.step].attempts + 1
    && after[c.execution] == ClaimStep(before[c.execution], c.step, worker, now, until).after
  }

  /** The claims are of distinct executions below `n`, in order, and nothing else is written. */
  ghost predicate Batch(before: seq<Execution>, after: seq<Execution>, claimed: seq<ClaimedStep>, n: nat,
                        worker: string, now: int, until: int) {
    && |after| == |before|
    && (forall k, l | 0 <= k < l < |claimed| :: claimed[k].execution < claimed[l].execution)
    && (forall k | 0 <= k < |claimed| :: claimed[k].execution < n && IsClaim(before, after, claimed[k], worker, now, until))
    && (forall x | 0 <= x < |before| && !Claims(claimed, x) :: after[x] == before[x])
  }

  ghost predicate NoneMissed(before: seq<Execution>, claimed: seq<ClaimedStep>, n: nat, now: int) {
    forall x, i: nat | 0 <= x < n && x < |before| && !Claims(claimed, x) :: !Claimable(before[x], i, now)
  }

  lemma BatchGrows(before: seq<Execution>, mid: seq<Execution>, after: seq<Execution>, claimed: seq<ClaimedStep>,
                   c: ClaimedStep, worker: string, now: int, until: int)
    requires Batch(before, mid, claimed, c.execution, worker, now, until)
    requires NoneMissed(before, claimed, c.execution, now)
    requires IsClaim(before, after, c, worker, now, until) && after == mid[c.execution := after[c.execution]]
    ensures Batch(before, after, claimed + [c], c.execution + 1, worker, now, until)
    ensures NoneMissed(before, claimed + [c], c.execution + 1, now)
  {
    hide Claimable;
    hide ClaimStep;
    var all := claimed + [c];
    forall k | 0 <= k < |all|
      ensures all[k].execution < c.execution + 1 && IsClaim(before, after, all[k], worker, now, until)
    {
      if k < |claimed| { assert all[k] == claimed[k]; }
    }
    assert Claims(all, c.execution) by { assert all[|claimed|] == c; }
    forall x: nat | Claims(claimed, x) ensures Claims(all, x) {
      var k :| 0 <= k < |claimed| && claimed[k].execution == x;
      assert all[k] == claimed[k];
    }
  }

  class Store {
    /** In order of creation. */
    var executions: seq<Execution>

    ghost predicate Valid()
      reads this
    {
      AllOk(executions)
    }

    constructor ()
      ensures Valid() && executions == []
    {
      executions := [];
    }

    method StartExecution(id: string, runbook: seq<StepDef>, now: int) returns (error: Option<Error>)
      requires Valid()
      modifies this
      ensures Valid()
      ensures ValidDocument(runbook) ==> error.None? && executions == old(executions) + [Start(id, runbook, now)]
      ensures !ValidDocument(runbook) ==> error == Some(InvalidRunbook) && executions == old(executions)
    {
      var ok := Validate(runbook);
      if !ok { return Some(InvalidRunbook); }
      var rows: seq<Step> := [];
      for position := 0 to |runbook|
        invariant |rows| == position
        invariant forall i | 0 <= i < position :: rows[i] == Fresh(ForwardSpec(id, runbook[i], i), now)
      {
        rows := rows + [Fresh(ForwardSpec(id, runbook[position], position), now)];
      }
      var e := Execution(id, runbook, ExecRunning, false, rows, []);
      assert e.steps == Start(id, runbook, now).steps;
      StartOk(id, runbook, now);
      hide ExecutionOk;
      executions := executions + [e];
      return None;
    }

    /** Claims, in order of creation, the candidate of every execution that has one, up to the limit. */
    method ClaimExecutionSteps(worker: string, limit: int, lease: int, now: int) returns (claimed: seq<ClaimedStep>)
      requires Valid()
      modifies this
      ensures Valid() && |claimed| <= ClaimLimit(limit)
      ensures Batch(old(executions), executions, claimed, |old(executions)|, worker, now, now + ClaimLease(lease))
      ensures |claimed| < ClaimLimit(limit) ==> NoneMissed(old(executions), claimed, |old(executions)|, now)
    {
      hide ExecutionOk;
      hide Claimable;
      hide ClaimStep;
      claimed := [];
      var x := 0;
      while x < |executions| && |claimed| < ClaimLimit(limit)
        invariant 0 <= x <= |executions| == |old(executions)| && Valid()
        invariant |claimed| <= ClaimLimit(limit)
        invariant Batch(old(executions), executions, claimed, x, worker, now, now + ClaimLease(lease))
        invariant NoneMissed(old(executions), claimed, x, now)
      {
        assert executions[x] == old(executions)[x];
        var found := FindCandidate(executions[x], now);
        if found.Some? {
          ghost var mid := executions;
          var attempt := ClaimRows(x, found.value, worker, now, now + ClaimLease(lease));
          var c := ClaimedStep(x, found.value, attempt);
          BatchGrows(old(executions), mid, executions, claimed, c, worker, now, now + ClaimLease(lease));
          claimed := claimed + [c];
        }
        x := x + 1;
      }
    }

    /** The update of a claim on one candidate row. */
    method ClaimRows(x: nat, i: nat, worker: string, now: int, leaseUntil: int) returns (attempt: nat)
      requires Valid() && x < |executions| && Claimable(executions[x], i, now)
      modifies this
      ensures Valid() && executions == old(executions)[x := ClaimStep(old(executions)[x], i, worker, now, leaseUntil).after]
      ensures i < |old(executions)[x].steps| && attempt == old(executions)[x].steps[i].attempts + 1
    {
      var e := executions[x];
      var s := e.steps[i];
      attempt := s.attempts + 1;
      s := s.(status := if s.spec.isRollback then RollingBack else Running);
      s := s.(lease := Some(Lease(worker, leaseUntil)), attempts := attempt);
      e := e.(steps := e.steps[i := s], claims := e.claims + [ClaimRecord(i, attempt, worker)]);
      ClaimOk(executions[x], i, worker, now, leaseUntil);
      hide ExecutionOk;
      executions := executions[x := e];
    }

    method RecoverExpiredStepLeases(now: int) returns (recovered: nat)
      requires Valid()
      modifies this
      ensures Valid() && |executions| == |old(executions)|
      ensures forall x | 0 <= x < |executions| ::
                IsRecovered(old(executions)[x], executions[x], |old(executions)[x].steps|, now)
      ensures recovered == AllDueRows(old(executions), Leases, now)
    {
      hide ExecutionOk;
      hide DueRows;
      hide IsRecovered;
      recovered := 0;
      for x := 0 to |executions|
        invariant |executions| == |old(executions)| && Valid()
        invariant forall y | 0 <= y < x ::
                    IsRecovered(old(executions)[y], executions[y], |old(executions)[y].steps|, now)
        invariant forall y | x <= y < |executions| :: executions[y] == old(executions)[y]
        invariant recovered == AllDueRows(old(executions)[..x], Leases, now)
      {
        assert old(executions)[..x + 1][..x] == old(executions)[..x];
        var e, n := RecoverRows(executions[x], now);
        RecoveryIsComplete(executions[x], |executions[x].steps|, now);
        RecoveryIsExact(executions[x], |executions[x].steps|, now);
        executions := executions[x := e];
        recovered := recovered + n;
      }
      assert old(executions)[..|executions|] == old(executions);
    }

    method ScheduleWait(x: nat, i: nat, worker: string, until: int) returns (error: Option<Error>)
      requires Valid()
      modifies this
      ensures Valid() && Applied(old(executions), x, Action.ScheduleWait(i, worker, until), executions, error)
    {
      if x >= |executions| { return Some(NotFound); }
      var e := executions[x];
      if i >= |e.steps| || !HeldBy(e.steps[i], worker) || !e.steps[i].status.Running? { return Some(LeaseLost); }
      var s := e.steps[i].(status := Waiting, waitUntil := until, nextAttemptAt := until, lease := None);
      e := e.(steps := e.steps[i := s]);
      ghost var before := executions;
      executions := executions[x := e];
      error := None;
      AppliedOk(before, x, Action.ScheduleWait(i, worker, until), executions, error);
    }

    method AdvanceRunbookTimers(now: int) returns (completed: nat)
      requires Valid()
      modifies this
      ensures Valid() && |executions| == |old(executions)|
      ensures forall x | 0 <= x < |executions| :: IsAdvanced(old(executions)[x], executions[x], now)
      ensures completed == AllDueRows(old(executions), Waits, now)
    {
      hide ExecutionOk;
      hide DueRows;
      hide IsFired;
      hide IsExpired;
      completed := 0;
      for x := 0 to |executions|
        invariant |executions| == |old(executions)| && Valid()
        invariant forall y | 0 <= y < x :: IsAdvanced(old(executions)[y], executions[y], now)
        invariant forall y | x <= y < |executions| :: executions[y] == old(executions)[y]
        invariant completed == AllDueRows(old(executions)[..x], Waits, now)
      {
        assert old(executions)[..x + 1][..x] == old(executions)[..x];
        var e, n := CompleteWaits(executions[x], now);
        ghost var fired := FireDueIsOneTimer(executions[x], now);
        NextOk(executions[x], FireTimer(fired, now));
        e := ExpireApprovals(e, now);
        ExpiryIsComplete(FireDue(executions[x], now), |executions[x].steps|, now);
        FiringIsExact(executions[x], now);
        ExpiryIsExact(FireDue(executions[x], now), |executions[x].steps|, now);
        executions := executions[x := e];
        completed := completed + n;
      }
      assert old(executions)[..|executions|] == old(executions);
    }

    method CompleteExecutionStep(x: nat, i: nat, worker: string, report: Report, retryAt: int) returns (error: Option<Error>)
      requires Valid()
      modifies this
      ensures Valid() && Applied(old(executions), x, Complete(i, worker, report, retryAt), executions, error)
      ensures error.None? ==> x < |old(executions)| == |executions| && executions == old(executions)[x := executions[x]]
                              && IsReported(old(executions)[x], executions[x], i, worker, report, retryAt)
    {
      if x >= |executions| || i >= |executions[x].steps| { return Some(NotFound); }
      var e := executions[x];
      var s := e.steps[i];
      if !Leased(s.status) { return Some(StepNotRunning); }
      var held := HeldBy(s, worker);
      if report.Success? {
        var status := report.status;
        if !status.Completed? && !status.Skipped? && !status.RolledBack? { status := Completed; }
        if held { e := e.(steps := e.steps[i := s.(status := status, lease := None)]); }
        e := FinalizeIfDone(e);
      } else if s.attempts < s.spec.maxAttempts {
        if held { e := e.(steps := e.steps[i := s.(status := Retrying, nextAttemptAt := retryAt, lease := None)]); }
      } else {
        if held { e := e.(steps := e.steps[i := s.(status := Failed, lease := None)]); }
        e := e.(status := ExecFailed);
      }
      ghost var before := executions;
      executions := executions[x := e];
      error := None;
      AppliedOk(before, x, Complete(i, worker, report, retryAt), executions, error);
      ReportWrites(before[x], i, worker, report, retryAt);
      hide IsReported;
    }

    method MarkExecutionStepAmbiguous(x: nat, i: nat, worker: string) returns (error: Option<Error>)
      requires Valid()
      modifies this
      ensures Valid() && Applied(old(executions), x, MarkAmbiguous(i, worker), executions, error)
    {
      if x >= |executions| { return Some(NotFound); }
      var e := executions[x];
      if i >= |e.steps| || !HeldBy(e.steps[i], worker) || !Leased(e.steps[i].status) { return Some(LeaseLost); }
      e := e.(steps := e.steps[i := e.steps[i].(status := Ambiguous, lease := None)]);
      e := e.(status := ExecAmbiguous);
      ghost var before := executions;
      executions := executions[x := e];
      error := None;
      AppliedOk(before, x, MarkAmbiguous(i, worker), executions, error);
    }

    /** Insert or keep the approval row, then release the step and park the execution. */
    method OpenApproval(x: nat, i: nat, worker: string, expiresAt: Option<int>) returns (error: Option<Error>)
      requires Valid()
      modifies this
      ensures Valid() && Applied(old(executions), x, Action.OpenApproval(i, worker, expiresAt), executions, error)
    {
      if x >= |executions| { return Some(NotFound); }
      var e := executions[x];
      if i >= |e.steps| { return Some(LeaseLost); }
      var s := e.steps[i];
      if s.approval.None? { s := s.(approval := Some(ApprovalRow(ApprovalPending, expiresAt))); }
      if !HeldBy(s, worker) { return Some(LeaseLost); }
      s := s.(status := WaitingApproval, lease := None);
      e := e.(steps := e.steps[i := s], status := ExecWaitingApproval);
      ghost var before := executions;
      executions := executions[x := e];
      error := None;
      AppliedOk(before, x, Action.OpenApproval(i, worker, expiresAt), executions, error);
    }

    method DecideApproval(x: nat, i: nat, approve: bool) returns (error: Option<Error>)
      requires Valid()
      modifies this
      ensures Valid() && Applied(old(executions), x, Decide(i, approve), executions, error)
      ensures error.None? ==> x < |old(executions)| == |executions| && executions == old(executions)[x := executions[x]]
                              && IsDecided(old(executions)[x], executions[x], i, approve)
    {
      if x >= |executions| || i >= |executions[x].steps| { return Some(NotFound); }
      var e := executions[x];
      var s := e.steps[i];
      if s.approval.None? { return Some(NotFound); }
      if !s.approval.value.status.ApprovalPending? { return Some(AlreadyDecided); }
      var decision, stepStatus := ApprovalApproved, Completed;
      if !approve { decision, stepStatus := ApprovalRejected, Failed; }
      s := s.(approval := Some(s.approval.value.(status := decision)));
      s := s.(status := stepStatus);
      e := e.(steps := e.steps[i := s]);
      if approve {
        e := e.(status := ExecRunning);
        e := FinalizeIfDone(e);
      } else {
        e := e.(status := ExecFailed);
      }
      ghost var before := executions;
      executions := executions[x := e];
      error := None;
      AppliedOk(before, x, Decide(i, approve), executions, error);
      DecisionWrites(before[x], i, approve);
      hide IsDecided;
    }

    method ChangeExecutionState(x: nat, action: string) returns (error: Option<Error>)
      requires Valid()
      modifies this
      ensures Valid()
      ensures action == "pause" ==> Applied(old(executions), x, Pause, executions, error)
      ensures action == "resume" ==> Applied(old(executions), x, Resume, executions, error)
      ensures action == "cancel" ==> Applied(old(executions), x, Cancel, executions, error)
      ensures action == "cancel" && error.None? ==>
                x < |old(executions)| == |executions| && IsCanceled(old(executions)[x], executions[x])
      ensures action !in {"pause", "resume", "cancel"} && x < |executions| ==>
                executions == old(executions) && error == Some(Unsupported)
    {
      if x >= |executions| { return Some(NotFound); }
      var e := executions[x];
      ghost var a := Pause;
      if action == "pause" {
        if !e.status.ExecRunning? { return Some(NotPausable); }
        e := e.(status := ExecPaused);
      } else if action == "resume" {
        if !e.status.ExecPaused? { return Some(NotPaused); }
        e := e.(status := ExecRunning);
        a := Resume;
      } else if action == "cancel" {
        if e.status.ExecCompleted? || e.status.ExecCanceled? || e.status.ExecRolledBack? { return Some(AlreadyTerminal); }
        e := e.(status := ExecCanceled, cancelRequested := true);
        var rows := CancelRows(e.steps);
        e := e.(steps := rows);
        a := Cancel;
        assert e.steps == CancelExecution(executions[x]).after.steps;
      } else {
        return Some(Unsupported);
      }
      ghost var before := executions;
      executions := executions[x := e];
      error := None;
      AppliedOk(before, x, a, executions, error);
      CancelWrites(before[x]);
      hide IsCanceled;
    }

    method RetryExecutionStep(x: nat, i: nat, force: bool, now: int) returns (error: Option<Error>)
      requires Valid()
      modifies this
      ensures Valid() && Applied(old(executions), x, Retry(i, force, now), executions, error)
    {
      if x >= |executions| || i >= |executions[x].steps| { return Some(NotFound); }
      var e := executions[x];
      var s := e.steps[i];
      if !s.status.Failed? && !s.status.Ambiguous? { return Some(NotRetryable); }
      var idempotent := s.spec.kind.Plugin? || (s.spec.kind.Http? && s.spec.kind.idempotencyHeader != "");
      if s.status.Ambiguous? && !idempotent && !force { return Some(ForceRequired); }
      s := s.(status := Retrying, nextAttemptAt := now, lease := None, retries := s.retries + 1);
      e := e.(steps := e.steps[i := s], status := ExecRunning);
      ghost var before := executions;
      executions := executions[x := e];
      error := None;
      AppliedOk(before, x, Retry(i, force, now), executions, error);
    }

    method StartExecutionRollback(x: nat, now: int) returns (error: Option<Error>)
      requires Valid()
      modifies this
      ensures Valid() && Applied(old(executions), x, StartRollback(now), executions, error)
    {
      if x >= |executions| { return Some(NotFound); }
      var e := executions[x];
      if !e.status.ExecCompleted? && !e.status.ExecFailed? && !e.status.ExecAmbiguous? { return Some(NotRollbackable); }
      var existing, sources := RollbackSources(e.steps);
      if existing { return Some(RollbackExists); }
      if sources == [] { return Some(NothingToRollBack); }
      var rows, failure := InsertPlan(e, sources, now);
      if failure.Some? { return failure; }
      e := e.(steps := e.steps + rows, status := ExecRollingBack);
      ghost var before := executions;
      executions := executions[x := e];
      error := None;
      AppliedOk(before, x, StartRollback(now), executions, error);
    }
  }

  method CompleteWaits(e: Execution, now: int) returns (r: Execution, fired: nat)
    ensures r == FireDue(e, now) && IsFired(e, r, now) && fired == DueRows(e.steps, Waits, now)
  {
    hide IsFired;
    hide Finalize;
    hide DueRows;
    FiringIsExact(e, now);
    var rows, n := FireRows(e.steps, now);
    r, fired := e, n;
    if fired > 0 {
      assert rows == seq(|e.steps|, i requires 0 <= i < |e.steps| => FireRow(e.steps[i], now));
      r := FinalizeIfDone(e.(steps := rows));
    }
  }

  method FireRows(steps: seq<Step>, now: int) returns (rows: seq<Step>, fired: nat)
    ensures |rows| == |steps| && forall k | 0 <= k < |steps| :: rows[k] == FireRow(steps[k], now)
    ensures fired > 0 <==> exists k | 0 <= k < |steps| :: WaitOver(steps[k], now)
    ensures fired == DueRows(steps, Waits, now)
  {
    rows, fired := [], 0;
    for i := 0 to |steps|
      invariant |rows| == i && forall k | 0 <= k < i :: rows[k] == FireRow(steps[k], now)
      invariant fired > 0 <==> exists k | 0 <= k < i :: WaitOver(steps[k], now)
      invariant fired == DueRows(steps[..i], Waits, now)
    {
      var s := steps[i];
      assert steps[..i + 1][..i] == steps[..i];
      if s.status.Waiting? && s.waitUntil <= now {
        s := s.(status := Completed);
        fired := fired + 1;
        assert WaitOver(steps[i], now);
      }
      rows := rows + [s];
    }
    assert steps[..|steps|] == steps;
  }

  method RecoverRows(e: Execution, now: int) returns (r: Execution, recovered: nat)
    requires ExecutionOk(e)
    ensures r == RecoverBelow(e, |e.steps|, now) && recovered == DueRows(e.steps, Leases, now)
    ensures IsRecovered(e, r, |e.steps|, now)
  {
    hide ExecutionOk;
    hide IsRecovered;
    r, recovered := e, 0;
    for i := 0 to |e.steps|
      invariant r == RecoverBelow(e, i, now)
      invariant recovered == DueRows(e.steps[..i], Leases, now)
    {
      RecoveryIsComplete(e, i, now);
      assert e.steps[..i + 1][..i] == e.steps[..i];
      var s := r.steps[i];
      if Expired(s, now) {
        var status, executionStatus := Ambiguous, ExecAmbiguous;
        if SafeReplay(s.spec.kind) && s.attempts < s.spec.maxAttempts {
          status, executionStatus := Retrying, ExecRunning;
        }
        s := s.(status := status, lease := None, nextAttemptAt := now);
        r := r.(steps := r.steps[i := s], status := executionStatus);
        recovered := recovered + 1;
      }
    }
    assert e.steps[..|e.steps|] == e.steps;
    RecoveryIsExact(e, |e.steps|, now);
  }

  method ExpireApprovals(e: Execution, now: int) returns (r: Execution)
    requires ExecutionOk(e)
    ensures r == ExpireBelow(e, |e.steps|, now) && IsExpired(e, r, |e.steps|, now)
  {
    hide ExecutionOk;
    hide IsExpired;
    r := e;
    for i := 0 to |e.steps|
      invariant r == ExpireBelow(e, i, now)
    {
      ExpiryIsComplete(e, i, now);
      var s := r.steps[i];
      if ApprovalDue(s, now) {
        s := s.(approval := Some(s.approval.value.(status := ApprovalExpired)));
        s := s.(status := Failed);
        r := r.(steps := r.steps[i := s], status := ExecFailed);
      }
    }
    ExpiryIsExact(e, |e.steps|, now);
  }

  method CancelRows(steps: seq<Step>) returns (rows: seq<Step>)
    ensures |rows| == |steps| && forall i | 0 <= i < |steps| :: rows[i] == CancelStep(steps[i])
  {
    rows := [];
    for i := 0 to |steps|
      invariant |rows| == i && forall k | 0 <= k < i :: rows[k] == CancelStep(steps[k])
    {
      var s := steps[i];
      if s.status.Pending? || s.status.Retrying? || s.status.Waiting? || s.status.WaitingApproval? {
        s := s.(status := Canceled, lease := None);
      }
      rows := rows + [s];
    }
  }

  /** Whether a plan exists, and the compensable rows from the highest position down. */
  method RollbackSources(steps: seq<Step>) returns (existing: bool, sources: seq<nat>)
    ensures existing <==> exists i | 0 <= i < |steps| :: steps[i].spec.isRollback
    ensures sources == Sources(steps, |steps|)
  {
    existing, sources := false, [];
    for i := 0 to |steps|
      invariant existing <==> exists k | 0 <= k < i :: steps[k].spec.isRollback
      invariant sources == Sources(steps, i)
    {
      var s := steps[i];
      if s.spec.isRollback { existing := true; }
      if !s.spec.isRollback && s.status.Completed? && s.spec.rollback.Some? { sources := [i] + sources; }
    }
  }

  /** Inserts the plan row by row; the first row that cannot be inserted aborts the whole plan. */
  method InsertPlan(e: Execution, sources: seq<nat>, now: int) returns (rows: seq<Step>, failure: Option<Error>)
    requires forall j | 0 <= j < |sources| :: sources[j] < |e.steps| && Compensable(e.steps[sources[j]])
    ensures failure.Some? <==> !Parsable(e.steps, sources) || KeyClash(e.steps, sources)
    ensures failure.Some? ==> failure.value == PlanRejected
    ensures failure.None? ==> rows == Plan(e, sources, now)
  {
    rows, failure := [], None;
    for position := 0 to |sources|
      invariant Parsable(e.steps, sources[..position])
      invariant |rows| == position && rows == Plan(e, sources[..position], now)
      invariant forall i, j | 0 <= i < |e.steps| && 0 <= j < position ::
                  e.steps[i].spec.key != "rollback-" + e.steps[sources[j]].spec.key
    {
      var source := e.steps[sources[position]].spec;
      if ParsedAttempts(source.rollback.value.maxAttempts).None? {
        failure := Some(PlanRejected);
        return;
      }
      for i := 0 to |e.steps|
        invariant forall k | 0 <= k < i :: e.steps[k].spec.key != "rollback-" + source.key
      {
        if e.steps[i].spec.key == "rollback-" + source.key {
          failure := Some(PlanRejected);
          return;
        }
      }
      rows := rows + [Fresh(CompensationSpec(e.id, source.key, source.rollback.value, sources[position], position), now)];
    }
    assert sources[..|sources|] == sources;
  }

  function ClaimLimit(limit: int): (n: nat)
    ensures 1 <= n <= 100
    ensures n == limit || n == 10
    ensures 1 <= limit <= 100 ==> n == limit
  {
    if limit <= 0 || limit > 100 then 10 else limit
  }

  /** In nanoseconds: a lease under five seconds becomes thirty. */
  function ClaimLease(lease: int): (n: int)
    ensures n >= 5_000_000_000
    ensures n == lease || n == 30_000_000_000
    ensures lease >= 5_000_000_000 ==> n == lease
  {
    if lease < 5_000_000_000 then 30_000_000_000 else lease
  }
}
