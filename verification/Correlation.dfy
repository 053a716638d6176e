/** What events of one correlation key have in common, and when the key tells groups apart. */
module Correlation {
  import opened Events

  predicate Unlabelled(e: Event) {
    e.service == "" && e.environment == "" && e.resource == "" && e.alertname == ""
  }

  /** The events belong together: same labels, or without any the same content. */
  predicate SameGroup(a: Event, b: Event) {
    && (a.service, a.environment, a.resource, a.alertname) == (b.service, b.environment, b.resource, b.alertname)
    && (Unlabelled(a) ==> a.fingerprint == b.fingerprint)
  }

  function Pipes(s: string): nat {
    if s == "" then 0 else Pipes(s[..|s| - 1]) + if s[|s| - 1] == '|' then 1 else 0
  }

  predicate PipeFree(e: Event) {
    '|' !in e.service && '|' !in e.environment && '|' !in e.resource && '|' !in e.alertname
  }

  lemma {:induction false} PipesConcat(s: string, t: string)
    ensures Pipes(s + t) == Pipes(s) + Pipes(t)
    decreases |t|
  {
    if t == "" {
      assert s + t == s;
    } else {
      assert (s + t)[..|s + t| - 1] == s + t[..|t| - 1];
      PipesConcat(s, t[..|t| - 1]);
    }
  }

  lemma {:induction false} NoPipes(s: string)
    ensures Pipes(s) == 0 <==> '|' !in s
    decreases |s|
  {
    if s != "" {
      NoPipes(s[..|s| - 1]);
      assert s == s[..|s| - 1] + [s[|s| - 1]];
    }
  }

  lemma SplitAtPipe(a: string, rest: string, b: string, tail: string)
    requires '|' !in a && '|' !in b && a + ("|" + rest) == b + ("|" + tail)
    ensures a == b && rest == tail
  {
    var s := a + ("|" + rest);
    assert s[|a|] == '|' && s[|b|] == '|';
    assert s[..|a|] == a && s[..|b|] == b;
    assert s[|a| + 1..] == rest && s[|b| + 1..] == tail;
  }

  lemma {:induction false} PipesJoin(a: string, rest: string)
    ensures Pipes(a + ("|" + rest)) == Pipes(a) + 1 + Pipes(rest)
  {
    PipesConcat(a, "|" + rest);
    PipesConcat("|", rest);
    assert "|"[..0] == "";
    assert Pipes("|") == 1;
  }

  function Labels(e: Event): string {
    e.service + ("|" + (e.environment + ("|" + (e.resource + ("|" + (e.alertname + if Unlabelled(e) then "|" + e.fingerprint else ""))))))
  }

  lemma KeyIsTenantAndLabels(e: Event)
    ensures CorrelationKey(e) == e.tenant + "|" + Labels(e)
  {
    var tail := if Unlabelled(e) then "|" + e.fingerprint else "";
    assert CorrelationKey(e)
           == e.tenant + "|" + e.service + "|" + e.environment + "|" + e.resource + "|" + e.alertname + tail;
  }

  lemma SameTenantKeys(a: Event, b: Event)
    requires a.tenant == b.tenant
    ensures CorrelationKey(a) == CorrelationKey(b) <==> Labels(a) == Labels(b)
  {
    KeyIsTenantAndLabels(a);
    KeyIsTenantAndLabels(b);
    var p := a.tenant + "|";
    assert (p + Labels(a))[|p|..] == Labels(a) && (p + Labels(b))[|p|..] == Labels(b);
  }

  lemma LabelPipes(e: Event)
    ensures Pipes(Labels(e)) == 3 + Pipes(e.service) + Pipes(e.environment) + Pipes(e.resource) + Pipes(e.alertname)
                                + if Unlabelled(e) then 1 + Pipes(e.fingerprint) else 0
  {
    var tail := e.alertname + if Unlabelled(e) then "|" + e.fingerprint else "";
    PipesJoin(e.service, e.environment + ("|" + (e.resource + ("|" + tail))));
    PipesJoin(e.environment, e.resource + ("|" + tail));
    PipesJoin(e.resource, tail);
    if Unlabelled(e) {
      PipesJoin(e.alertname, e.fingerprint);
    } else {
      assert e.alertname + "" == e.alertname;
    }
  }

  lemma FieldPipes(e: Event)
    ensures Pipes(e.service) + Pipes(e.environment) + Pipes(e.resource) + Pipes(e.alertname) == 0 <==> PipeFree(e)
  {
    NoPipes(e.service);
    NoPipes(e.environment);
    NoPipes(e.resource);
    NoPipes(e.alertname);
  }

  lemma PlainLabelsSplit(a: Event, b: Event)
    requires PipeFree(a) && PipeFree(b) && !Unlabelled(a) && !Unlabelled(b) && Labels(a) == Labels(b)
    ensures SameGroup(a, b)
  {
    assert a.alertname + "" == a.alertname && b.alertname + "" == b.alertname;
    SplitAtPipe(a.service, a.environment + ("|" + (a.resource + ("|" + a.alertname))),
                b.service, b.environment + ("|" + (b.resource + ("|" + b.alertname))));
    SplitAtPipe(a.environment, a.resource + ("|" + a.alertname), b.environment, b.resource + ("|" + b.alertname));
    SplitAtPipe(a.resource, a.alertname, b.resource, b.alertname);
  }

  lemma SameGroupSameKey(a: Event, b: Event)
    requires a.tenant == b.tenant && SameGroup(a, b)
    ensures CorrelationKey(a) == CorrelationKey(b)
  {
  }

  /** An event of the same key as a labelled one without separators in its labels is of the same group. */
  lemma PlainKeyIsExact(a: Event, b: Event)
    requires a.tenant == b.tenant && PipeFree(a) && !Unlabelled(a)
    ensures CorrelationKey(a) == CorrelationKey(b) <==> SameGroup(a, b)
  {
    hide CorrelationKey;
    hide Labels;
    hide SameGroup;
    if SameGroup(a, b) { SameGroupSameKey(a, b); }
    SameTenantKeys(a, b);
    if Labels(a) == Labels(b) {
      LabelPipes(a);
      LabelPipes(b);
      FieldPipes(a);
      FieldPipes(b);
      PlainLabelsSplit(a, b);
    }
  }

  /** Where the label `s` can be cut at a separator. */
  lemma Cut(s: string) returns (x: string, y: string)
    requires '|' in s
    ensures s == x + "|" + y
  {
    var i :| 0 <= i < |s| && s[i] == '|';
    x, y := s[..i], s[i + 1..];
  }

  /** A separator inside a label can be read as the one that follows it, or as the one before. */
  lemma Slide(x: string, y: string, next: string, rest: string)
    ensures (x + "|" + y) + ("|" + (next + rest)) == x + ("|" + ((y + "|" + next) + rest))
    ensures next + ("|" + (x + "|" + y)) == (next + "|" + x) + ("|" + y)
  {
  }

  lemma SameLabelsSameKey(a: Event, b: Event)
    requires a.tenant == b.tenant && Labels(a) == Labels(b)
    ensures CorrelationKey(a) == CorrelationKey(b)
  {
    hide CorrelationKey;
    hide Labels;
    SameTenantKeys(a, b);
  }

  lemma UnlabelledCollides(a: Event) returns (b: Event)
    requires Unlabelled(a)
    ensures b.tenant == a.tenant && Labels(b) == Labels(a) && !SameGroup(a, b)
  {
    b := a.(alertname := "|" + a.fingerprint);
    assert b.alertname + "" == b.alertname;
  }

  /** An event of another group with the same key. */
  lemma Collides(a: Event) returns (b: Event)
    requires !PipeFree(a) || Unlabelled(a)
    ensures b.tenant == a.tenant && CorrelationKey(b) == CorrelationKey(a) && !SameGroup(a, b)
  {
    hide CorrelationKey;
    var name := a.alertname;
    assert name + "" == name;
    if Unlabelled(a) {
      b := UnlabelledCollides(a);
    } else if '|' in a.service {
      var x, y := Cut(a.service);
      b := a.(service := x, environment := y + "|" + a.environment);
      Slide(x, y, a.environment, "|" + (a.resource + ("|" + name)));
      assert b.environment != "";
    } else if '|' in a.environment {
      var x, y := Cut(a.environment);
      b := a.(environment := x, resource := y + "|" + a.resource);
      Slide(x, y, a.resource, "|" + name);
      assert b.resource != "";
    } else if '|' in a.resource {
      var x, y := Cut(a.resource);
      b := a.(resource := x, alertname := y + "|" + name);
      Slide(x, y, name, "");
      assert b.alertname + "" == b.alertname && b.alertname != "";
    } else {
      var x, y := Cut(name);
      b := a.(resource := a.resource + "|" + x, alertname := y);
      Slide(x, y, a.resource, "");
      assert y + "" == y && b.resource != "";
    }
    assert Labels(a) == Labels(b);
    SameLabelsSameKey(b, a);
  }

  /** The key of an event groups exactly with its like if and only if it has labels and none contains the separator. */
  lemma KeyIsExactIff(a: Event)
    ensures (forall b: Event | b.tenant == a.tenant :: CorrelationKey(b) == CorrelationKey(a) <==> SameGroup(a, b))
            <==> PipeFree(a) && !Unlabelled(a)
  {
    hide CorrelationKey;
    hide SameGroup;
    if PipeFree(a) && !Unlabelled(a) {
      forall b: Event | b.tenant == a.tenant ensures CorrelationKey(b) == CorrelationKey(a) <==> SameGroup(a, b) {
        PlainKeyIsExact(a, b);
      }
    } else {
      var b := Collides(a);
    }
  }
}
