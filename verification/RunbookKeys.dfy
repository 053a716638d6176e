/** Idempotency keys: one per step row, fixed over its attempts, and shared by no two rows. */
module RunbookKeys {
  import opened Documents
  import opened Runbook
  import opened RunbookSafety
  import opened RunbookTheorems
  import opened RunbookRollback

  /** Execution ids are UUIDs, whose text form has no colon (section 3 of RFC 4122). */
  ghost predicate ColonFree(s: string) {
    ':' !in s
  }

  lemma SplitAtColon(a: string, rest: string, b: string, tail: string)
    requires ColonFree(a) && ColonFree(b) && a + ":" + rest == b + ":" + tail
    ensures a == b && rest == tail
  {
    var s := a + ":" + rest;
    assert s[|a|] == ':' && s[|b|] == ':';
    assert s[..|a|] == a && s[..|b|] == b;
    assert s[|a| + 1..] == rest && s[|b| + 1..] == tail;
  }

  lemma DropPrefix(p: string, a: string, b: string)
    requires p + a == p + b
    ensures a == b
  {
    assert (p + a)[|p|..] == a && (p + b)[|p|..] == b;
  }

  /** The part of a key after the execution id. */
  function KeySuffix(spec: StepSpec): string {
    if spec.isRollback then spec.key else "step:" + spec.key
  }

  lemma KeyShape(id: string, runbook: seq<StepDef>, steps: seq<Step>, i: nat)
    requires LayoutOk(id, runbook, steps) && i < |steps|
    ensures steps[i].spec.idempotencyKey == "runbook:" + (id + ":" + KeySuffix(steps[i].spec))
    ensures steps[i].spec.isRollback ==> "rollback-" <= steps[i].spec.key
  {
    if i >= |runbook| { assert IsCompensation(id, runbook, steps, i); }
    assert "runbook:" + id + ":step:" + steps[i].spec.key == "runbook:" + (id + ":" + ("step:" + steps[i].spec.key));
    assert "runbook:" + id + ":" + steps[i].spec.key == "runbook:" + (id + ":" + steps[i].spec.key);
  }

  lemma SuffixIsInjective(a: StepSpec, b: StepSpec)
    requires a.isRollback ==> "rollback-" <= a.key
    requires b.isRollback ==> "rollback-" <= b.key
    requires KeySuffix(a) == KeySuffix(b)
    ensures a.isRollback == b.isRollback && a.key == b.key
  {
    assert ("step:" + a.key)[0] == 's' && ("step:" + b.key)[0] == 's';
    assert a.isRollback ==> a.key[0] == "rollback-"[0];
    assert b.isRollback ==> b.key[0] == "rollback-"[0];
    if !a.isRollback && !b.isRollback { DropPrefix("step:", a.key, b.key); }
  }

  lemma StepKeysDistinct(id: string, runbook: seq<StepDef>, steps: seq<Step>, i: nat, j: nat)
    requires LayoutOk(id, runbook, steps) && i < j < |steps|
    ensures steps[i].spec.key != steps[j].spec.key
  {
    if j < |runbook| {
      assert runbook[i].id != runbook[j].id;
    } else {
      assert IsCompensation(id, runbook, steps, j);
      if |runbook| <= i {
        assert IsCompensation(id, runbook, steps, i);
        assert UndoneBefore(steps[i], steps[j]);
        var f, g := steps[i].spec.rollbackOf.value, steps[j].spec.rollbackOf.value;
        assert runbook[f].id != runbook[g].id;
        if steps[i].spec.key == steps[j].spec.key {
          DropPrefix("rollback-", runbook[f].id, runbook[g].id);
          assert false;
        }
      }
    }
  }

  /** Equal keys, in any reachable states of any two executions, mean the same execution, lane and step. */
  lemma KeysIdentifySteps(id: string, runbook: seq<StepDef>, now: int, actions: seq<Action>, i: nat,
                          id': string, runbook': seq<StepDef>, now': int, actions': seq<Action>, j: nat)
    requires ValidDocument(runbook) && ValidDocument(runbook') && ColonFree(id) && ColonFree(id')
    requires i < |Reached(id, runbook, now, actions).steps| && j < |Reached(id', runbook', now', actions').steps|
    requires Reached(id, runbook, now, actions).steps[i].spec.idempotencyKey
             == Reached(id', runbook', now', actions').steps[j].spec.idempotencyKey
    ensures var a, b := Reached(id, runbook, now, actions).steps[i].spec, Reached(id', runbook', now', actions').steps[j].spec;
            id == id' && a.isRollback == b.isRollback && a.key == b.key
  {
    hide LayoutOk;
    hide Run;
    hide ValidDocument;
    var e, e' := Reached(id, runbook, now, actions), Reached(id', runbook', now', actions');
    ReachedLayout(id, runbook, now, actions);
    ReachedLayout(id', runbook', now', actions');
    KeyShape(id, runbook, e.steps, i);
    KeyShape(id', runbook', e'.steps, j);
    DropPrefix("runbook:", id + ":" + KeySuffix(e.steps[i].spec), id' + ":" + KeySuffix(e'.steps[j].spec));
    SplitAtColon(id, KeySuffix(e.steps[i].spec), id', KeySuffix(e'.steps[j].spec));
    SuffixIsInjective(e.steps[i].spec, e'.steps[j].spec);
  }

  /** Within an execution no two rows share a step key, so none share an idempotency key. */
  lemma KeysAreUnique(id: string, runbook: seq<StepDef>, now: int, actions: seq<Action>, i: nat, j: nat)
    requires ValidDocument(runbook) && ColonFree(id)
    requires i < j < |Reached(id, runbook, now, actions).steps|
    ensures var steps := Reached(id, runbook, now, actions).steps;
            steps[i].spec.key != steps[j].spec.key && steps[i].spec.idempotencyKey != steps[j].spec.idempotencyKey
  {
    hide LayoutOk;
    hide Run;
    hide ValidDocument;
    var steps := Reached(id, runbook, now, actions).steps;
    ReachedLayout(id, runbook, now, actions);
    StepKeysDistinct(id, runbook, steps, i, j);
    if steps[i].spec.idempotencyKey == steps[j].spec.idempotencyKey {
      KeysIdentifySteps(id, runbook, now, actions, i, id, runbook, now, actions, j);
      assert false;
    }
  }

  /** Every later attempt of a step is sent with the key of the first. */
  lemma {:induction false} KeyIsStable(e: Execution, actions: seq<Action>, i: nat)
    requires ExecutionOk(e) && i < |e.steps|
    ensures i < |Run(e, actions).steps|
    ensures Run(e, actions).steps[i].spec.idempotencyKey == e.steps[i].spec.idempotencyKey
    decreases |actions|
  {
    hide Next;
    hide ExecutionOk;
    if actions != [] {
      RowsKept(e, actions[0]);
      NextOk(e, actions[0]);
      KeyIsStable(Apply(e, actions[0]), actions[1..], i);
    }
  }
}
