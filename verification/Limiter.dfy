/** The per-source token bucket, over exact reals, and what its refusals mean. */
module Limiter {
  /** A reading of the clock in seconds; ZERO stands for the zero time, which no real reading is. */
  const ZERO := 0.0

  datatype Bucket = Bucket(tokens: real, last: real)

  datatype Rule = Rule(rate: real, burst: real)

  /** The tokens that flow in between two readings; negative if the clock went back. */
  function Earned(rule: Rule, from: real, to: real): real {
    (to - from) * rule.rate
  }

  function Refill(b: Bucket, rule: Rule, now: real): Bucket {
    var start := if b.last == ZERO then Bucket(rule.burst, now) else b;
    var tokens := start.tokens + Earned(rule, start.last, now);
    Bucket(if tokens > rule.burst then rule.burst else tokens, now)
  }

  function Take(b: Bucket): Bucket {
    if b.tokens < 1.0 then b else b.(tokens := b.tokens - 1.0)
  }

  /** The bucket of one key after its calls, and whether the last of them was allowed. */
  function After(rule: Rule, times: seq<real>): Bucket {
    if times == [] then Bucket(0.0, ZERO) else Take(Refill(After(rule, times[..|times| - 1]), rule, times[|times| - 1]))
  }

  function Level(rule: Rule, times: seq<real>): real
    requires times != []
  {
    Refill(After(rule, times[..|times| - 1]), rule, times[|times| - 1]).tokens
  }

  predicate Allowed(rule: Rule, times: seq<real>)
    requires times != []
  {
    Level(rule, times) >= 1.0
  }

  /** How many of the calls from index a on were allowed. */
  function Count(rule: Rule, times: seq<real>, a: nat): nat {
    if a >= |times| then 0
    else Count(rule, times[..|times| - 1], a) + (if Allowed(rule, times) then 1 else 0)
  }

  /** What a window that starts at index a may still grant to the last call. */
  function Room(rule: Rule, times: seq<real>, a: nat): real
    requires a < |times|
  {
    rule.burst + Earned(rule, times[a], times[|times| - 1]) - Count(rule, times[..|times| - 1], a) as real
  }

  ghost predicate Read(times: seq<real>) {
    forall i | 0 <= i < |times| :: times[i] != ZERO
  }

  lemma EarnedAdds(rule: Rule, x: real, y: real, z: real)
    ensures Earned(rule, x, z) == Earned(rule, x, y) + Earned(rule, y, z)
    ensures Earned(rule, x, x) == 0.0
  {
  }

  /** A longer window has the room of the window one call before, refilled and charged for that call. */
  lemma RoomStep(rule: Rule, times: seq<real>, a: nat)
    requires |times| > 1 && a < |times| - 1
    ensures var before := times[..|times| - 1];
            Room(rule, times, a) == Room(rule, before, a) - (if Allowed(rule, before) then 1.0 else 0.0)
                                    + Earned(rule, before[|before| - 1], times[|times| - 1])
  {
    hide Earned;
    hide Level;
    var before := times[..|times| - 1];
    EarnedAdds(rule, times[a], before[|before| - 1], times[|times| - 1]);
  }

  lemma LevelStep(rule: Rule, times: seq<real>)
    requires |times| > 1 && Read(times)
    ensures var before := times[..|times| - 1];
            var tokens := Level(rule, before) - (if Allowed(rule, before) then 1.0 else 0.0)
                          + Earned(rule, before[|before| - 1], times[|times| - 1]);
            Level(rule, times) == if tokens > rule.burst then rule.burst else tokens
  {
    hide Earned;
  }

  /** No window has less room than the bucket's level. */
  lemma {:induction false} LevelFitsEveryWindow(rule: Rule, times: seq<real>, a: nat)
    requires a < |times| && Read(times)
    ensures Level(rule, times) <= Room(rule, times, a)
    decreases |times|
  {
    hide Earned;
    EarnedAdds(rule, times[a], times[a], times[a]);
    if a < |times| - 1 {
      LevelFitsEveryWindow(rule, times[..|times| - 1], a);
      RoomStep(rule, times, a);
      LevelStep(rule, times);
    }
  }

  /** Some window has exactly the room of the bucket's level. */
  lemma {:induction false} LevelIsSomeWindow(rule: Rule, times: seq<real>) returns (a: nat)
    requires times != [] && Read(times)
    ensures a < |times| && Level(rule, times) == Room(rule, times, a)
    decreases |times|
  {
    hide Earned;
    a := |times| - 1;
    EarnedAdds(rule, times[a], times[a], times[a]);
    if |times| > 1 {
      LevelStep(rule, times);
      if Level(rule, times) < rule.burst {
        a := LevelIsSomeWindow(rule, times[..|times| - 1]);
        RoomStep(rule, times, a);
      }
    }
  }

  /** Any window that ends in an allowed call has at most burst + rate × length allowed calls. */
  lemma WindowBound(rule: Rule, times: seq<real>, a: nat)
    requires a < |times| && Read(times) && Allowed(rule, times)
    ensures Count(rule, times, a) as real <= rule.burst + rule.rate * (times[|times| - 1] - times[a])
  {
    assert Earned(rule, times[a], times[|times| - 1]) == rule.rate * (times[|times| - 1] - times[a]);
    LevelFitsEveryWindow(rule, times, a);
  }

  /** The limiter refuses nothing needlessly: a call is allowed exactly when every window still has room for it. */
  lemma AllowedIffEveryWindowHasRoom(rule: Rule, times: seq<real>)
    requires times != [] && Read(times)
    ensures Allowed(rule, times) <==> forall a: nat | a < |times| :: Room(rule, times, a) >= 1.0
  {
    forall a: nat | a < |times| ensures Level(rule, times) <= Room(rule, times, a) {
      LevelFitsEveryWindow(rule, times, a);
    }
    var a := LevelIsSomeWindow(rule, times);
    assert Room(rule, times, a) == Level(rule, times);
  }

  // ---- Many keys ------------------------------------------------------------------------------

  datatype Call = Call(key: string, now: real)

  function Lookup(buckets: map<string, Bucket>, key: string): Bucket {
    if key in buckets then buckets[key] else Bucket(0.0, ZERO)
  }

  function AllowIn(buckets: map<string, Bucket>, rule: Rule, key: string, now: real): (map<string, Bucket>, bool) {
    var b := Refill(Lookup(buckets, key), rule, now);
    (buckets[key := Take(b)], b.tokens >= 1.0)
  }

  function Buckets(rule: Rule, calls: seq<Call>): map<string, Bucket> {
    if calls == [] then map[]
    else
      var last := calls[|calls| - 1];
      AllowIn(Buckets(rule, calls[..|calls| - 1]), rule, last.key, last.now).0
  }

  function TimesOf(calls: seq<Call>, key: string): seq<real> {
    if calls == [] then []
    else
      var last := calls[|calls| - 1];
      TimesOf(calls[..|calls| - 1], key) + (if last.key == key then [last.now] else [])
  }

  lemma {:induction false} BucketsAreIndependent(rule: Rule, calls: seq<Call>, key: string)
    ensures Lookup(Buckets(rule, calls), key) == After(rule, TimesOf(calls, key))
    decreases |calls|
  {
    if calls != [] {
      var before := calls[..|calls| - 1];
      BucketsAreIndependent(rule, before, key);
      var times := TimesOf(calls, key);
      if calls[|calls| - 1].key == key {
        assert times[..|times| - 1] == TimesOf(before, key);
      } else {
        assert times == TimesOf(before, key);
      }
    }
  }

  /** Whatever other keys do, a key's call is decided by its own readings alone. */
  lemma {:induction false} KeysAreIndependent(rule: Rule, calls: seq<Call>, key: string, now: real)
    ensures AllowIn(Buckets(rule, calls), rule, key, now).1 == Allowed(rule, TimesOf(calls, key) + [now])
  {
    BucketsAreIndependent(rule, calls, key);
    var times := TimesOf(calls, key) + [now];
    assert times[..|times| - 1] == TimesOf(calls, key);
  }

  class Limiter {
    var buckets: map<string, Bucket>
    const rate: real
    const burst: real

    constructor (ratePerSecond: real, burst: int)
      ensures buckets == map[] && rate == ratePerSecond && this.burst == burst as real
    {
      buckets := map[];
      rate := ratePerSecond;
      this.burst := burst as real;
    }

    method Allow(key: string, now: real) returns (ok: bool)
      modifies this
      ensures (buckets, ok) == AllowIn(old(buckets), Rule(rate, burst), key, now)
    {
      hide Earned;
      var b := if key in buckets then buckets[key] else Bucket(0.0, ZERO);
      if b.last == ZERO { b := Bucket(burst, now); }
      b := b.(tokens := b.tokens + Earned(Rule(rate, burst), b.last, now));
      if b.tokens > burst { b := b.(tokens := burst); }
      b := b.(last := now);
      if b.tokens < 1.0 {
        buckets := buckets[key := b];
        return false;
      }
      b := b.(tokens := b.tokens - 1.0);
      buckets := buckets[key := b];
      ok := true;
    }
  }
}
