/** The notification outbox: leased deliveries, with workers that may report after their lease expired. */
module Outbox {
  import opened Base

  datatype Status = Pending | Delivering | Delivered | Failed | Ambiguous

  datatype Delivery = Delivery(mock: bool, status: Status, attempt: nat, leaseExpiresAt: Option<int>, nextAttemptAt: int)

  const LEASE := 30

  predicate LeaseExpired(d: Delivery, now: int) {
    d.status.Delivering? && d.leaseExpiresAt.Some? && d.leaseExpiresAt.value <= now
  }

  /** The first statement of a claim: an outcome that is unknown is retried for the mock channel only. */
  function ExpireRow(d: Delivery, now: int): Delivery {
    if LeaseExpired(d, now) then d.(status := if d.mock then Failed else Ambiguous, leaseExpiresAt := None) else d
  }

  predicate Due(d: Delivery, now: int) {
    (d.status.Pending? || d.status.Failed?) && d.nextAttemptAt <= now
  }

  function ClaimRow(d: Delivery, now: int): Delivery {
    d.(status := Delivering, attempt := d.attempt + 1, leaseExpiresAt := Some(now + LEASE))
  }

  /** The report looks neither at the status nor at the lease. Times are in seconds. */
  function ReportRow(d: Delivery, ok: bool, now: int): Delivery {
    if ok then d.(status := Delivered, leaseExpiresAt := None)
    else d.(status := if d.attempt >= 5 then Ambiguous else Failed, leaseExpiresAt := None,
            nextAttemptAt := now + Min(300, Power2(d.attempt)))
  }

  /** Delivered for good on success; on failure due again later, or unknown from the fifth attempt on. */
  ghost predicate IsReported(before: Delivery, after: Delivery, ok: bool, now: int) {
    && (after.mock, after.attempt, after.leaseExpiresAt) == (before.mock, before.attempt, None)
    && (if ok then after.status == Delivered && after.nextAttemptAt == before.nextAttemptAt
        else
          && (after.status == Ambiguous <==> before.attempt >= 5) && (after.status == Failed <==> before.attempt < 5)
          && now < after.nextAttemptAt <= now + 300)
  }

  lemma {:induction false} Power2Positive(n: nat)
    ensures Power2(n) >= 1
  {
    if n > 0 { Power2Positive(n - 1); }
  }

  // ---- One row under every schedule -------------------------------------------------------

  /** `outstanding` is the number of claims whose worker has neither reported nor crashed. */
  datatype Dispatch = Dispatch(row: Delivery, outstanding: nat)

  datatype Event = Expire(now: int) | Claim(now: int) | Report(ok: bool, now: int) | Crash

  function Next(d: Dispatch, ev: Event): Dispatch {
    match ev
    case Expire(now) => d.(row := ExpireRow(d.row, now))
    case Claim(now) => if Due(d.row, now) then Dispatch(ClaimRow(d.row, now), d.outstanding + 1) else d
    case Report(ok, now) => if d.outstanding > 0 then Dispatch(ReportRow(d.row, ok, now), d.outstanding - 1) else d
    case Crash => if d.outstanding > 0 then d.(outstanding := d.outstanding - 1) else d
  }

  function Run(d: Dispatch, events: seq<Event>): Dispatch
    decreases |events|
  {
    if events == [] then d else Run(Next(d, events[0]), events[1..])
  }

  function Enqueued(mock: bool, now: int): Dispatch {
    Dispatch(Delivery(mock, Pending, 0, None, now), 0)
  }

  /** For a channel that is not the mock: a claim is outstanding only while the outcome is open. */
  ghost predicate DispatchOk(d: Dispatch) {
    && !d.row.mock
    && d.outstanding <= 1
    && (d.outstanding == 1 ==> d.row.status.Delivering? || d.row.status.Ambiguous?)
    && (d.row.status.Pending? <==> d.row.attempt == 0)
    && (d.row.status.Failed? ==> d.row.attempt < 5)
    && d.row.attempt <= 5
  }

  lemma NextOk(d: Dispatch, ev: Event)
    requires DispatchOk(d)
    ensures DispatchOk(Next(d, ev))
    ensures d.row.status.Delivered? ==> Next(d, ev) == d
  {
  }

  lemma {:induction false} RunOk(d: Dispatch, events: seq<Event>)
    requires DispatchOk(d)
    ensures DispatchOk(Run(d, events))
    decreases |events|
  {
    if events != [] { RunOk(Next(d, events[0]), events[1..]); }
  }

  /** One outstanding claim, five attempts, whatever expires and whoever reports late. */
  lemma {:induction false} ExternalDeliveryIsSafe(now: int, events: seq<Event>)
    ensures var d := Run(Enqueued(false, now), events); d.outstanding <= 1 && d.row.attempt <= 5
  {
    RunOk(Enqueued(false, now), events);
  }

  /** A delivered notification is never claimed or changed again. */
  lemma {:induction false} DeliveredForGood(d: Dispatch, events: seq<Event>)
    requires DispatchOk(d) && d.row.status.Delivered?
    ensures Run(d, events) == d
    decreases |events|
  {
    if events != [] {
      NextOk(d, events[0]);
      DeliveredForGood(d, events[1..]);
    }
  }

  /** A failed attempt waits two seconds and twice as long after each further one; the cap of 300 is never reached. */
  lemma {:induction false} FailuresBackOff(now: int, events: seq<Event>, at: int)
    requires Run(Enqueued(false, now), events).outstanding > 0
    ensures var d := Run(Enqueued(false, now), events);
            var after := Next(d, Report(false, at)).row;
            && 2 <= after.nextAttemptAt - at == Power2(d.row.attempt) <= 32
            && (after.status.Failed? <==> d.row.attempt < 5)
  {
    RunOk(Enqueued(false, now), events);
    var attempt := Run(Enqueued(false, now), events).row.attempt;
    assert Power2(1) == 2 && Power2(2) == 4 && Power2(3) == 8;
    assert Power2(4) == 2 * Power2(3) && Power2(5) == 2 * Power2(4);
  }

  /** After a reported success nothing is claimed, reported or changed any more. */
  lemma {:induction false} SuccessIsFinal(now: int, events: seq<Event>, at: int, more: seq<Event>)
    requires Run(Enqueued(false, now), events).outstanding > 0
    ensures var d := Next(Run(Enqueued(false, now), events), Report(true, at));
            && d.row.status == Delivered && d.row.leaseExpiresAt == None && d.outstanding == 0
            && Run(d, more) == d
  {
    RunOk(Enqueued(false, now), events);
    var d := Run(Enqueued(false, now), events);
    hide Run;
    NextOk(d, Report(true, at));
    DeliveredForGood(Next(d, Report(true, at)), more);
  }

  /** A failed attempt that may be repeated is claimed exactly from its time on. */
  lemma {:induction false} BackOffIsHonoured(now: int, events: seq<Event>, at: int, claim: int)
    requires var d := Run(Enqueued(false, now), events); d.outstanding > 0 && d.row.attempt < 5
    ensures var d := Next(Run(Enqueued(false, now), events), Report(false, at));
            if at + Power2(d.row.attempt) <= claim
            then Next(d, Claim(claim)).outstanding == 1 && Next(d, Claim(claim)).row.attempt == d.row.attempt + 1
            else Next(d, Claim(claim)) == d
  {
    FailuresBackOff(now, events, at);
    RunOk(Enqueued(false, now), events);
  }

  /** A claim that nobody reports is given up exactly 30 seconds after it was made: unknown, or to be repeated for the mock. */
  lemma UnreportedClaimExpires(d: Delivery, now: int, later: int)
    requires Due(d, now)
    ensures var claimed := ClaimRow(d, now);
            if now + 30 <= later
            then ExpireRow(claimed, later) == claimed.(status := if d.mock then Failed else Ambiguous, leaseExpiresAt := None)
            else ExpireRow(claimed, later) == claimed
  {
  }

  lemma {:induction false} RunConcat(d: Dispatch, first: seq<Event>, second: seq<Event>)
    ensures Run(d, first + second) == Run(Run(d, first), second)
    decreases |first|
  {
    if first == [] {
      assert first + second == second;
    } else {
      assert (first + second)[1..] == first[1..] + second;
      RunConcat(Next(d, first[0]), first[1..], second);
    }
  }

  /** The mock channel's row becomes claimable while its last claim is still out. */
  function MockRun(now: int, n: nat): seq<Event> {
    if n == 0 then [] else MockRun(now, n - 1) + [Claim(now + LEASE * (n - 1)), Expire(now + LEASE * n)]
  }

  lemma {:induction false} MockClaimsPileUp(now: int, n: nat)
    ensures var d := Run(Enqueued(true, now), MockRun(now, n));
            d.outstanding == n && d.row.attempt == n && d.row.mock && d.row.nextAttemptAt == now
            && (d.row.status.Pending? || d.row.status.Failed?)
  {
    if n > 0 {
      MockClaimsPileUp(now, n - 1);
      var pair := [Claim(now + LEASE * (n - 1)), Expire(now + LEASE * n)];
      var d := Run(Enqueued(true, now), MockRun(now, n - 1));
      RunConcat(Enqueued(true, now), MockRun(now, n - 1), pair);
      assert pair[1..] == [Expire(now + LEASE * n)];
      assert Run(d, pair) == Run(Next(d, pair[0]), [pair[1]]);
    }
  }

  /** Some schedule has two claims out, and some exceeds five attempts, exactly for the mock channel. */
  lemma UnsafeIffMock(mock: bool, now: int)
    ensures mock <==> exists events :: Run(Enqueued(mock, now), events).outstanding >= 2
    ensures mock <==> exists events :: Run(Enqueued(mock, now), events).row.attempt > 5
  {
    if mock {
      MockClaimsPileUp(now, 2);
      MockClaimsPileUp(now, 6);
    } else {
      forall events ensures Run(Enqueued(mock, now), events).outstanding < 2 && Run(Enqueued(mock, now), events).row.attempt <= 5 {
        ExternalDeliveryIsSafe(now, events);
      }
    }
  }

  // ---- The transactions over the table ----------------------------------------------------

  class OutboxStore {
    var rows: seq<Delivery>

    constructor ()
      ensures rows == []
    {
      rows := [];
    }

    /** Expires leases, then claims due rows in order of their next attempt, up to the limit. */
    method ClaimDeliveries(limit: int, now: int) returns (claimed: seq<nat>)
      modifies this
      ensures |rows| == |old(rows)| && |claimed| <= ClaimLimit(limit)
      ensures forall k, l | 0 <= k < l < |claimed| :: claimed[k] != claimed[l]
      ensures forall k | 0 <= k < |claimed| :: claimed[k] < |rows| && Due(ExpireRow(old(rows)[claimed[k]], now), now)
      ensures forall i | 0 <= i < |rows| ::
                rows[i] == if i in claimed then ClaimRow(ExpireRow(old(rows)[i], now), now) else ExpireRow(old(rows)[i], now)
      ensures forall i, k | 0 <= i < |rows| && i !in claimed && Due(rows[i], now) && 0 <= k < |claimed| ::
                old(rows)[claimed[k]].nextAttemptAt <= rows[i].nextAttemptAt
      ensures |claimed| < ClaimLimit(limit) ==> forall i | 0 <= i < |rows| && i !in claimed :: !Due(rows[i], now)
    {
      ExpireLeases(now);
      ghost var expired := rows;
      claimed := [];
      while |claimed| < ClaimLimit(limit)
        invariant |rows| == |expired| && |claimed| <= ClaimLimit(limit)
        invariant forall k, l | 0 <= k < l < |claimed| :: claimed[k] != claimed[l]
        invariant forall k | 0 <= k < |claimed| :: claimed[k] < |rows| && Due(expired[claimed[k]], now)
        invariant forall i | 0 <= i < |rows| :: rows[i] == if i in claimed then ClaimRow(expired[i], now) else expired[i]
        invariant forall i, k | 0 <= i < |rows| && i !in claimed && Due(rows[i], now) && 0 <= k < |claimed| ::
                    expired[claimed[k]].nextAttemptAt <= rows[i].nextAttemptAt
        decreases ClaimLimit(limit) - |claimed|
      {
        var first := FirstDue(rows, now);
        if first.None? { break; }
        rows := rows[first.value := ClaimRow(rows[first.value], now)];
        claimed := claimed + [first.value];
      }
    }

    method ExpireLeases(now: int)
      modifies this
      ensures |rows| == |old(rows)| && forall i | 0 <= i < |rows| :: rows[i] == ExpireRow(old(rows)[i], now)
    {
      for i := 0 to |rows|
        invariant |rows| == |old(rows)|
        invariant forall k | 0 <= k < i :: rows[k] == ExpireRow(old(rows)[k], now)
        invariant forall k | i <= k < |rows| :: rows[k] == old(rows)[k]
      {
        var d := rows[i];
        if d.status.Delivering? && d.leaseExpiresAt.Some? && d.leaseExpiresAt.value <= now {
          d := d.(status := if d.mock then Failed else Ambiguous, leaseExpiresAt := None);
        }
        rows := rows[i := d];
      }
    }

    method CompleteDelivery(i: nat, ok: bool, now: int) returns (found: bool)
      modifies this
      ensures found <==> i < |old(rows)|
      ensures rows == if found then old(rows)[i := ReportRow(old(rows)[i], ok, now)] else old(rows)
      ensures found ==> IsReported(old(rows)[i], rows[i], ok, now)
    {
      if i >= |rows| { return false; }
      var d := rows[i];
      Power2Positive(d.attempt);
      d := d.(leaseExpiresAt := None);
      if ok {
        d := d.(status := Delivered);
      } else {
        var status := Failed;
        if d.attempt >= 5 { status := Ambiguous; }
        d := d.(status := status, nextAttemptAt := now + Min(300, Power2(d.attempt)));
      }
      rows := rows[i := d];
      found := true;
    }
  }

  /** The due row with the earliest next attempt. */
  method FirstDue(rows: seq<Delivery>, now: int) returns (first: Option<nat>)
    ensures first.Some? ==> first.value < |rows| && Due(rows[first.value], now)
    ensures first.Some? ==> forall i | 0 <= i < |rows| && Due(rows[i], now) ::
                              rows[first.value].nextAttemptAt <= rows[i].nextAttemptAt
    ensures first.None? ==> forall i | 0 <= i < |rows| :: !Due(rows[i], now)
  {
    first := None;
    for i := 0 to |rows|
      invariant first.Some? ==> first.value < i && Due(rows[first.value], now)
      invariant first.Some? ==> forall k | 0 <= k < i && Due(rows[k], now) ::
                                  rows[first.value].nextAttemptAt <= rows[k].nextAttemptAt
      invariant first.None? ==> forall k | 0 <= k < i :: !Due(rows[k], now)
    {
      if Due(rows[i], now) && (first.None? || rows[i].nextAttemptAt < rows[first.value].nextAttemptAt) {
        first := Some(i);
      }
    }
  }

  function ClaimLimit(limit: int): (n: nat)
    ensures 1 <= n <= 100
    ensures n == limit || n == 20
    ensures 1 <= limit <= 100 ==> n == limit
  {
    if limit <= 0 || limit > 100 then 20 else limit
  }
}
