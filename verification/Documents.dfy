/** Runbook documents: the part of a step that decides how it is executed, and its validation. */
module Documents {
  import opened Base

  datatype StepKind = Http(idempotencyHeader: string) | Wait | Approval | Plugin

  /** A compensation: what a rollback-capable step runs to undo itself. */
  datatype ActionDef = ActionDef(kind: StepKind, maxAttempts: int)

  /** `maxAttempts == 0` means the document leaves it out. */
  datatype StepDef = StepDef(id: string, kind: StepKind, maxAttempts: int, rollback: Option<ActionDef>)

  /** Replaying the action with the same idempotency key is safe. */
  predicate SafeReplay(kind: StepKind) {
    kind.Plugin? || (kind.Http? && kind.idempotencyHeader != "")
  }

  function ParsedAttempts(raw: int): (parsed: Option<nat>)
    ensures parsed.Some? <==> 0 <= raw <= 10
    ensures parsed.Some? ==> 1 <= parsed.value <= 10 && (raw == 0 || parsed.value == raw)
    ensures raw == 0 ==> parsed == Some(3)
  {
    var attempts := if raw == 0 then 3 else raw;
    if 1 <= attempts <= 10 then Some(attempts) else None
  }

  predicate IdentifierHead(c: char) { 'a' <= c <= 'z' }

  predicate IdentifierTail(c: char) {
    'a' <= c <= 'z' || '0' <= c <= '9' || c == '.' || c == '_' || c == '-'
  }

  predicate ValidIdentifier(s: string) {
    && 1 <= |s| <= 64
    && IdentifierHead(s[0])
    && forall i | 1 <= i < |s| :: IdentifierTail(s[i])
  }

  predicate ValidAction(id: string, action: ActionDef) {
    && (action.kind.Http? || action.kind.Plugin?)
    && ValidIdentifier(id + "-rollback")
    && ParsedAttempts(action.maxAttempts).Some?
  }

  predicate ValidStep(d: StepDef) {
    && ValidIdentifier(d.id)
    && ParsedAttempts(d.maxAttempts).Some?
    && (d.rollback.Some? ==> ValidAction(d.id, d.rollback.value))
  }

  predicate DistinctIds(defs: seq<StepDef>) {
    forall i, j | 0 <= i < j < |defs| :: defs[i].id != defs[j].id
  }

  predicate ValidDocument(defs: seq<StepDef>) {
    && 1 <= |defs| <= 100
    && (forall i | 0 <= i < |defs| :: ValidStep(defs[i]))
    && DistinctIds(defs)
  }

  /** One pass with a set of the identifiers seen so far decides pairwise distinctness. */
  method Validate(defs: seq<StepDef>) returns (ok: bool)
    ensures ok <==> ValidDocument(defs)
  {
    if |defs| == 0 || |defs| > 100 { return false; }
    var seen: set<string> := {};
    for i := 0 to |defs|
      invariant forall k | 0 <= k < i :: ValidStep(defs[k])
      invariant forall id :: id in seen <==> exists k | 0 <= k < i :: defs[k].id == id
      invariant DistinctIds(defs[..i])
    {
      if !ValidStep(defs[i]) { return false; }
      if defs[i].id in seen {
        var k :| 0 <= k < i && defs[k].id == defs[i].id;
        assert !DistinctIds(defs);
        return false;
      }
      seen := seen + {defs[i].id};
    }
    assert defs[..|defs|] == defs;
    return true;
  }
}
