/** The bounded cache of webhook replay keys, against a reference that is never pruned. */
module Replay {
  import opened Base

  datatype Reservation = Reserved | Duplicate | CapacityExceeded

  datatype Op = Reserve(key: string, expires: int, now: int) | Release(key: string)

  function Prune(seen: map<string, int>, now: int): map<string, int> {
    map key | key in seen && seen[key] > now :: seen[key]
  }

  /** Entries expired at `now` go only when the cache is full; what is still live is never evicted. */
  function ReserveIn(seen: map<string, int>, max: nat, key: string, expires: int, now: int)
    : (map<string, int>, Reservation)
  {
    if key in seen && seen[key] > now then (seen, Duplicate)
    else
      var kept := if |seen| >= max then Prune(seen, now) else seen;
      if |kept| >= max then (kept, CapacityExceeded) else (kept[key := expires], Reserved)
  }

  function ReleaseIn(seen: map<string, int>, key: string): map<string, int> {
    if key == "" then seen else seen - {key}
  }

  // ---- The reference: what the history of calls holds -------------------------------------

  /** `granted` says that the call was a reservation that succeeded. */
  datatype Call = Call(op: Op, granted: bool)

  /** The expiry under which the history holds the key, if it does. */
  function Holder(history: seq<Call>, key: string): Option<int> {
    if history == [] then None
    else
      var last := history[|history| - 1];
      if last.op.Release? && last.op.key == key && key != "" then None
      else if last.op.Reserve? && last.op.key == key && last.granted then Some(last.op.expires)
      else Holder(history[..|history| - 1], key)
  }

  predicate Live(history: seq<Call>, key: string, now: int) {
    Holder(history, key).Some? && Holder(history, key).value > now
  }

  function LiveKeys(history: seq<Call>, now: int): set<string> {
    set c | c in history && Live(history, c.op.key, now) :: c.op.key
  }

  function Reference(history: seq<Call>, max: nat, key: string, now: int): Reservation {
    if Live(history, key, now) then Duplicate
    else if |LiveKeys(history, now)| >= max then CapacityExceeded
    else Reserved
  }

  // ---- Runs ---------------------------------------------------------------------------------

  function Next(seen: map<string, int>, max: nat, op: Op): (map<string, int>, bool) {
    match op
    case Reserve(key, expires, now) =>
      var (after, result) := ReserveIn(seen, max, key, expires, now);
      (after, result.Reserved?)
    case Release(key) => (ReleaseIn(seen, key), false)
  }

  /** The cache after the calls. */
  function Cache(max: nat, ops: seq<Op>): map<string, int> {
    if ops == [] then map[]
    else Next(Cache(max, ops[..|ops| - 1]), max, ops[|ops| - 1]).0
  }

  function History(max: nat, ops: seq<Op>): (h: seq<Call>)
    ensures |h| == |ops| && forall i | 0 <= i < |ops| :: h[i].op == ops[i]
  {
    if ops == [] then []
    else
      var before := ops[..|ops| - 1];
      History(max, before) + [Call(ops[|ops| - 1], Next(Cache(max, before), max, ops[|ops| - 1]).1)]
  }

  /** No reservation before was made at a later reading of the clock, in whatever order they came. */
  ghost predicate IsLatest(ops: seq<Op>, now: int) {
    forall i | 0 <= i < |ops| && ops[i].Reserve? :: ops[i].now <= now
  }

  /** What the cache forgot had expired by the time of some reservation before. */
  ghost predicate Forgot(ops: seq<Op>, expires: int) {
    exists i :: 0 <= i < |ops| && ops[i].Reserve? && expires <= ops[i].now
  }

  ghost predicate CacheOk(seen: map<string, int>, max: nat, ops: seq<Op>, history: seq<Call>) {
    && |seen| <= max
    && (forall key | key in seen :: Holder(history, key) == Some(seen[key]))
    && (forall key | key !in seen && Holder(history, key).Some? :: Forgot(ops, Holder(history, key).value))
  }

  lemma SubsetSize<T>(small: set<T>, large: set<T>)
    requires small <= large
    ensures |small| <= |large|
  {
    if small != {} {
      var x :| x in small;
      SubsetSize(small - {x}, large - {x});
    }
  }

  lemma PruneShrinks(seen: map<string, int>, now: int)
    ensures |Prune(seen, now)| <= |seen|
  {
    var kept := Prune(seen, now);
    SubsetSize(kept.Keys, seen.Keys);
    assert |kept| == |kept.Keys| && |seen| == |seen.Keys|;
  }

  /** Only a call on the key can make the history hold it. */
  lemma {:induction false} HolderWasCalled(history: seq<Call>, key: string)
    requires Holder(history, key).Some?
    ensures exists c :: c in history && c.op.key == key
    decreases |history|
  {
    var last := history[|history| - 1];
    if last.op.key == key {
      assert last in history;
    } else {
      HolderWasCalled(history[..|history| - 1], key);
    }
  }

  lemma LiveKeysAreKept(seen: map<string, int>, max: nat, ops: seq<Op>, history: seq<Call>, now: int)
    requires CacheOk(seen, max, ops, history) && IsLatest(ops, now)
    ensures forall key :: Live(history, key, now) <==> key in Prune(seen, now)
    ensures LiveKeys(history, now) == Prune(seen, now).Keys
  {
    forall key ensures Live(history, key, now) <==> key in Prune(seen, now) {
    }
    forall key | key in Prune(seen, now) ensures key in LiveKeys(history, now) {
      HolderWasCalled(history, key);
    }
  }

  /** One call on a cache that agrees with the history answers as the reference does. */
  lemma ReserveIsExact(seen: map<string, int>, max: nat, ops: seq<Op>, history: seq<Call>, op: Op)
    requires CacheOk(seen, max, ops, history) && op.Reserve? && IsLatest(ops, op.now)
    ensures ReserveIn(seen, max, op.key, op.expires, op.now).1 == Reference(history, max, op.key, op.now)
  {
    LiveKeysAreKept(seen, max, ops, history, op.now);
    PruneShrinks(seen, op.now);
    var kept := Prune(seen, op.now);
    assert |kept| == |kept.Keys|;
  }

  lemma ForgotGrows(ops: seq<Op>, op: Op, expires: int)
    requires Forgot(ops, expires) || (op.Reserve? && expires <= op.now)
    ensures Forgot(ops + [op], expires)
  {
    if Forgot(ops, expires) {
      var i :| 0 <= i < |ops| && ops[i].Reserve? && expires <= ops[i].now;
      assert (ops + [op])[i] == ops[i];
    } else {
      assert (ops + [op])[|ops|] == op;
    }
  }

  lemma {:induction false} HolderOfAppend(history: seq<Call>, c: Call, key: string)
    ensures Holder(history + [c], key)
            == if c.op.Release? && c.op.key == key && key != "" then None
               else if c.op.Reserve? && c.op.key == key && c.granted then Some(c.op.expires)
               else Holder(history, key)
  {
  }

  lemma NextKeepsBound(seen: map<string, int>, max: nat, op: Op)
    requires |seen| <= max
    ensures |Next(seen, max, op).0| <= max
  {
    if op.Reserve? {
      PruneShrinks(seen, op.now);
      var kept := if |seen| >= max then Prune(seen, op.now) else seen;
      assert kept[op.key := op.expires].Keys == kept.Keys + {op.key};
      assert |kept.Keys| == |kept|;
    } else {
      var after := ReleaseIn(seen, op.key);
      SubsetSize(after.Keys, seen.Keys);
      assert |after.Keys| == |after| && |seen.Keys| == |seen|;
    }
  }

  lemma NextOk(seen: map<string, int>, max: nat, ops: seq<Op>, history: seq<Call>, op: Op)
    requires CacheOk(seen, max, ops, history)
    ensures var (after, granted) := Next(seen, max, op);
            CacheOk(after, max, ops + [op], history + [Call(op, granted)])
  {
    hide Holder;
    hide Forgot;
    NextKeepsBound(seen, max, op);
    var (after, granted) := Next(seen, max, op);
    var h := history + [Call(op, granted)];
    forall key ensures key in after ==> Holder(h, key) == Some(after[key]) {
      HolderOfAppend(history, Call(op, granted), key);
    }
    forall key | key !in after && Holder(h, key).Some? ensures Forgot(ops + [op], Holder(h, key).value) {
      HolderOfAppend(history, Call(op, granted), key);
      ForgotGrows(ops, op, Holder(h, key).value);
    }
  }

  lemma {:induction false} RunOk(max: nat, ops: seq<Op>)
    ensures CacheOk(Cache(max, ops), max, ops, History(max, ops))
    decreases |ops|
  {
    if ops != [] {
      hide CacheOk;
      hide Next;
      var before := ops[..|ops| - 1];
      RunOk(max, before);
      NextOk(Cache(max, before), max, before, History(max, before), ops[|ops| - 1]);
      assert ops == before + [ops[|ops| - 1]];
    }
  }

  /** Whatever was called before, a reservation at the latest reading so far is answered as the unpruned history answers it, within the bound. */
  lemma {:induction false} CacheIsExact(max: nat, ops: seq<Op>, op: Op)
    requires op.Reserve? && IsLatest(ops, op.now)
    ensures |Cache(max, ops)| <= max
    ensures ReserveIn(Cache(max, ops), max, op.key, op.expires, op.now).1
            == Reference(History(max, ops), max, op.key, op.now)
  {
    RunOk(max, ops);
    ReserveIsExact(Cache(max, ops), max, ops, History(max, ops), op);
  }

  // ---- What exactness buys: a key is granted once per lifetime -------------------------------

  ghost predicate NotReleased(ops: seq<Op>, key: string, from: nat, to: nat)
    requires to <= |ops|
  {
    forall l | from <= l < to :: ops[l] != Release(key) || key == ""
  }

  lemma {:induction false} HistoryPrefix(max: nat, ops: seq<Op>, n: nat)
    requires n <= |ops|
    ensures History(max, ops)[..n] == History(max, ops[..n])
    decreases |ops|
  {
    if n == |ops| {
      assert ops[..n] == ops && History(max, ops)[..n] == History(max, ops);
    } else {
      var before := ops[..|ops| - 1];
      HistoryPrefix(max, before, n);
      assert before[..n] == ops[..n];
      assert History(max, ops)[..n] == History(max, before)[..n];
    }
  }

  lemma {:induction false} NextOfPrefix(max: nat, ops: seq<Op>, j: nat)
    requires j < |ops|
    ensures History(max, ops)[j].granted == Next(Cache(max, ops[..j]), max, ops[j]).1
  {
    HistoryPrefix(max, ops, j + 1);
    assert ops[..j + 1][..j] == ops[..j];
    assert History(max, ops)[j] == History(max, ops)[..j + 1][j];
  }

  /** A granted key that nobody released is held until its expiry is read at some reservation. */
  lemma {:induction false} HeldUntilExpired(max: nat, ops: seq<Op>, i: nat, j: nat)
    requires i < j <= |ops| && ops[i].Reserve? && History(max, ops)[i].granted
    requires NotReleased(ops, ops[i].key, i + 1, j)
    ensures Holder(History(max, ops)[..j], ops[i].key) == Some(ops[i].expires) || Forgot(ops[..j], ops[i].expires)
    decreases j
  {
    hide Holder;
    hide History;
    hide Forgot;
    var h, key := History(max, ops), ops[i].key;
    assert h[..j] == h[..j - 1] + [h[j - 1]] && ops[..j] == ops[..j - 1] + [ops[j - 1]];
    HolderOfAppend(h[..j - 1], h[j - 1], key);
    if j > i + 1 {
      HeldUntilExpired(max, ops, i, j - 1);
      if Forgot(ops[..j - 1], ops[i].expires) {
        ForgotGrows(ops[..j - 1], ops[j - 1], ops[i].expires);
      } else if ops[j - 1].Reserve? && h[j - 1].granted && ops[j - 1].key == key {
        GrantExpires(max, ops, j - 1, ops[i].expires);
        ForgotGrows(ops[..j - 1], ops[j - 1], ops[i].expires);
      }
    }
  }

  /** What a grant replaces has expired. */
  lemma {:induction false} GrantExpires(max: nat, ops: seq<Op>, j: nat, expires: int)
    requires j < |ops| && ops[j].Reserve? && History(max, ops)[j].granted
    requires Holder(History(max, ops)[..j], ops[j].key) == Some(expires)
    ensures expires <= ops[j].now || Forgot(ops[..j], expires)
  {
    hide Holder;
    HistoryPrefix(max, ops, j);
    NextOfPrefix(max, ops, j);
    RunOk(max, ops[..j]);
    hide History;
  }

  /** Two grants of one key without a release between them: the first had expired at the second, if that is the latest. */
  lemma {:induction false} GrantedOncePerLifetime(max: nat, ops: seq<Op>, i: nat, j: nat)
    requires i < j < |ops| && ops[i].Reserve? && ops[j].Reserve? && ops[i].key == ops[j].key
    requires NotReleased(ops, ops[i].key, i + 1, j) && IsLatest(ops[..j], ops[j].now)
    requires History(max, ops)[i].granted && History(max, ops)[j].granted
    ensures ops[i].expires <= ops[j].now
  {
    hide Holder;
    hide History;
    HeldUntilExpired(max, ops, i, j);
    if !Forgot(ops[..j], ops[i].expires) { GrantExpires(max, ops, j, ops[i].expires); }
  }

  // ---- Why the clock must not go back ---------------------------------------------------------

  function Key(n: nat): (key: string)
    ensures |key| == n
  {
    seq(n, i => 'x')
  }

  /** n reservations at one reading, with one expiry. */
  function Fill(n: nat, now: int, expires: int): seq<Op> {
    seq(n, i requires 0 <= i => Reserve(Key(i + 1), expires, now))
  }

  lemma {:induction false} FillIsGranted(max: nat, n: nat, now: int, expires: int)
    requires n <= max
    ensures var ops := Fill(n, now, expires);
            && |Cache(max, ops)| == n
            && (forall key | key in Cache(max, ops) :: |key| <= n && Cache(max, ops)[key] == expires)
            && (n > 0 ==> Holder(History(max, ops), Key(1)) == Some(expires))
  {
    if n > 0 {
      FillIsGranted(max, n - 1, now, expires);
      var ops, op := Fill(n, now, expires), Reserve(Key(n), expires, now);
      assert ops[..n - 1] == Fill(n - 1, now, expires);
      assert ops[n - 1] == op;
      HolderOfAppend(History(max, Fill(n - 1, now, expires)), Call(op, true), Key(1));
    }
  }

  /** A full cache is pruned at reading `later`; then `now` grants a key that is held until `later`. */
  lemma {:induction false} EarlierReadingGrantsTwice(max: nat, now: int, later: int)
    requires max > 1 && now < later
    ensures var ops := Fill(max, now, later) + [Reserve("", later + 1, later)];
            && IsLatest(ops, later)
            && Live(History(max, ops), Key(1), now)
            && ReserveIn(Cache(max, ops), max, Key(1), later, now).1 == Reserved
  {
    FillIsGranted(max, max, now, later);
    var fill, op := Fill(max, now, later), Reserve("", later + 1, later);
    var ops := fill + [op];
    assert ops[..max] == fill;
    assert Prune(Cache(max, fill), later) == map[];
    assert Cache(max, ops) == map["" := later + 1];
    HolderOfAppend(History(max, fill), Call(op, true), Key(1));
  }

  ghost predicate ExactAt(max: nat, ops: seq<Op>, key: string, expires: int, now: int) {
    ReserveIn(Cache(max, ops), max, key, expires, now).1 == Reference(History(max, ops), max, key, now)
  }

  /** A reading is answered exactly after every history up to `latest` if and only if it is not before `latest`. */
  lemma ExactIffClockAdvances(max: nat, now: int, latest: int)
    requires max > 1
    ensures (forall ops, key, expires | IsLatest(ops, latest) :: ExactAt(max, ops, key, expires, now)) <==> latest <= now
  {
    if latest <= now {
      forall ops, key, expires | IsLatest(ops, latest) ensures ExactAt(max, ops, key, expires, now) {
        CacheIsExact(max, ops, Reserve(key, expires, now));
      }
    } else {
      EarlierReadingGrantsTwice(max, now, latest);
      assert !ExactAt(max, Fill(max, now, latest) + [Reserve("", latest + 1, latest)], Key(1), latest, now);
    }
  }

  // ---- The class ------------------------------------------------------------------------------

  class ReplayCache {
    var seen: map<string, int>
    const max: nat

    constructor (max: int)
      ensures seen == map[] && this.max >= 1000 && (max >= 1000 ==> this.max == max)
    {
      seen := map[];
      this.max := if max < 1000 then 1000 else max;
    }

    method Reserve(key: string, expires: int, now: int) returns (result: Reservation)
      modifies this
      ensures (seen, result) == ReserveIn(old(seen), max, key, expires, now)
    {
      if key in seen && seen[key] > now { return Duplicate; }
      if |seen| >= max {
        var rest := seen.Keys;
        while rest != {}
          invariant rest <= old(seen).Keys
          invariant forall k :: k in seen <==> k in old(seen) && (k in rest || old(seen)[k] > now)
          invariant forall k | k in seen :: seen[k] == old(seen)[k]
          decreases |rest|
        {
          var candidate :| candidate in rest;
          if seen[candidate] <= now { seen := seen - {candidate}; }
          rest := rest - {candidate};
        }
        assert seen == Prune(old(seen), now);
        if |seen| >= max { return CapacityExceeded; }
      }
      seen := seen[key := expires];
      result := Reserved;
    }

    method Accept(key: string, expires: int, now: int) returns (accepted: bool)
      modifies this
      ensures seen == ReserveIn(old(seen), max, key, expires, now).0
      ensures accepted == ReserveIn(old(seen), max, key, expires, now).1.Reserved?
    {
      var result := Reserve(key, expires, now);
      accepted := result == Reserved;
    }

    method Release(key: string)
      modifies this
      ensures seen == ReleaseIn(old(seen), key)
    {
      if key == "" { return; }
      seen := seen - {key};
    }
  }
}
