/** Normalised events: the keys they are deduplicated and correlated by, and their severity. */
module Events {
  datatype Severity = Info | Warning | Error | Critical

  datatype Event = Event(
    tenant: string,
    source: string,
    idempotencyKey: string,
    sourceEventId: string,
    fingerprint: string,
    service: string,
    environment: string,
    resource: string,
    alertname: string,
    severity: Severity,
    receivedAt: int)

  function DedupeKey(e: Event): string {
    if e.idempotencyKey != "" then "idem:" + e.idempotencyKey
    else if e.sourceEventId != "" then "source:" + e.sourceEventId
    else "fingerprint:" + e.fingerprint
  }

  function CorrelationKey(e: Event): string {
    var key := e.tenant + "|" + e.service + "|" + e.environment + "|" + e.resource + "|" + e.alertname;
    if e.service == "" && e.environment == "" && e.resource == "" && e.alertname == "" then key + "|" + e.fingerprint
    else key
  }

  /** Which identity of the event its dedupe key is taken from. */
  datatype Identity = ByKey(key: string) | BySource(id: string) | ByContent(fingerprint: string)

  function IdentityOf(e: Event): Identity {
    if e.idempotencyKey != "" then ByKey(e.idempotencyKey)
    else if e.sourceEventId != "" then BySource(e.sourceEventId)
    else ByContent(e.fingerprint)
  }

  /** Keys of different kinds never collide: equal dedupe keys mean the same kind of identity and the same value. */
  lemma DedupeKeyIsExact(a: Event, b: Event)
    ensures DedupeKey(a) == DedupeKey(b) <==> IdentityOf(a) == IdentityOf(b)
  {
    var x, y := DedupeKey(a), DedupeKey(b);
    if x == y {
      assert x[0] == y[0];
      var n := if a.idempotencyKey != "" then 5 else if a.sourceEventId != "" then 7 else 12;
      assert x[n..] == y[n..];
      assert IdentityOf(a).ByKey? ==> x[n..] == a.idempotencyKey && y[n..] == b.idempotencyKey;
      assert IdentityOf(a).BySource? ==> x[n..] == a.sourceEventId && y[n..] == b.sourceEventId;
      assert IdentityOf(a).ByContent? ==> x[n..] == a.fingerprint && y[n..] == b.fingerprint;
    }
  }

  function Rank(s: Severity): nat {
    match s case Info => 0 case Warning => 1 case Error => 2 case Critical => 3
  }

  function MaxSeverity(a: Severity, b: Severity): (m: Severity)
    ensures m == Critical <==> a == Critical || b == Critical
    ensures m in {Critical, Error} <==> a in {Critical, Error} || b in {Critical, Error}
    ensures m == Info <==> a == Info && b == Info
  {
    if Rank(b) > Rank(a) then b else a
  }

  /** Go's integer division truncates toward zero. */
  function Quotient(a: int, b: int): int
    requires b > 0
  {
    if a >= 0 then a / b else -((-a) / b)
  }

  const SECOND := 1_000_000_000

  /** The window in whole seconds, at least one. */
  function Seconds(window: int): (w: int)
    ensures w >= 1
  {
    if Quotient(window, SECOND) < 1 then 1 else Quotient(window, SECOND)
  }

  /** Start, in Unix seconds, of the bucket of an instant given in nanoseconds. */
  function TimeBucket(t: int, window: int): int {
    Quotient(t / SECOND, Seconds(window)) * Seconds(window)
  }

  /**
   * From 1970 on a bucket is exactly one window of whole seconds: two instants share it if and
   * only if no multiple of the window separates them.
   */
  lemma BucketIsOneWindow(t: int, u: int, window: int)
    requires 0 <= t && 0 <= u
    ensures var w := Seconds(window);
            && TimeBucket(t, window) <= t / SECOND < TimeBucket(t, window) + w
            && (TimeBucket(t, window) == TimeBucket(u, window) <==> (t / SECOND) / w == (u / SECOND) / w)
  {
    hide Seconds;
    WindowOfSecond(t / SECOND, u / SECOND, Seconds(window));
  }

  lemma WindowOfSecond(s: int, u: int, w: int)
    requires 0 <= s && 0 <= u && 1 <= w
    ensures Quotient(s, w) * w <= s < Quotient(s, w) * w + w
    ensures Quotient(s, w) * w == Quotient(u, w) * w <==> s / w == u / w
  {
    assert s == (s / w) * w + s % w;
    MultiplesDiffer(s / w, u / w, w);
  }

  lemma MultiplesDiffer(a: int, b: int, w: int)
    requires 1 <= w
    ensures a * w == b * w <==> a == b
  {
    assert a < b ==> a * w < b * w;
    assert b < a ==> b * w < a * w;
  }

  /** An instant lies in its bucket if and only if it is not before 1970, or starts a window. */
  lemma BucketContainsIff(t: int, window: int)
    ensures TimeBucket(t, window) <= t / SECOND < TimeBucket(t, window) + Seconds(window)
            <==> t >= 0 || (t / SECOND) % Seconds(window) == 0
  {
    hide Seconds;
    var s, w := t / SECOND, Seconds(window);
    if t >= 0 {
      BucketIsOneWindow(t, t, window);
    } else {
      var n := -s;
      assert n > 0 && n == (n / w) * w + n % w;
      assert TimeBucket(t, window) == -(n / w) * w;
      DivisibleNegation(n, w);
    }
  }

  lemma DivisibleNegation(n: int, w: int)
    requires w > 0
    ensures n % w == 0 <==> (-n) % w == 0
  {
    assert n == (n / w) * w + n % w && -n == (-n / w) * w + (-n) % w;
    if n % w == 0 {
      assert (-n) % w == (-(n / w) - (-n / w)) * w;
      Multiple(-(n / w) - (-n / w), w);
    }
    if (-n) % w == 0 {
      assert n % w == (-(-n / w) - n / w) * w;
      Multiple(-(-n / w) - n / w, w);
    }
  }

  lemma Multiple(k: int, w: int)
    requires w > 0 && 0 <= k * w < w
    ensures k == 0
  {
    assert k >= 1 ==> k * w >= w;
    assert k <= -1 ==> k * w <= -w;
  }

  /** Membership of a channel list without repetitions and empty names, in order of first occurrence. */
  function Unique(names: seq<string>): (r: seq<string>)
    ensures forall n :: n in r <==> n in names && n != ""
    ensures forall i, j | 0 <= i < j < |r| :: r[i] != r[j]
  {
    if names == [] then [] else
    var rest, last := Unique(names[..|names| - 1]), names[|names| - 1];
    assert forall n :: n in names <==> n in names[..|names| - 1] || n == last;
    if last != "" && last !in rest then rest + [last] else rest
  }

  method UniqueStrings(names: seq<string>) returns (r: seq<string>)
    ensures r == Unique(names)
  {
    var seen: set<string> := {};
    r := [];
    for i := 0 to |names|
      invariant r == Unique(names[..i])
      invariant forall n :: n in seen <==> n in r
    {
      assert names[..i + 1][..i] == names[..i];
      if names[i] != "" && names[i] !in seen {
        seen := seen + {names[i]};
        r := r + [names[i]];
      }
    }
    assert names[..|names|] == names;
  }
}
