/** Policy expressions: validation, short-circuit evaluation with its explanation, and the recorded decision. */
module Policy {
  import opened Base

  type Inputs = map<string, string>

  /** A node as it is decoded: nothing but validation says that only one of its clauses is set. */
  datatype Expression = Expression(
    all: seq<Expression>,
    any: seq<Expression>,
    not: Option<Expression>,
    field: string,
    equals: string,
    oneOf: seq<string>)

  datatype Error = NotExactlyOneClause | SensitiveField | NoComparison | TwoComparisons

  /** The prefixes of an error message, outermost first; a negation adds none. */
  datatype Segment = InAll(index: nat) | InAny(index: nat)

  datatype Invalid = Invalid(path: seq<Segment>, error: Error)

  /** The lines of an explanation, before they are formatted. */
  datatype Line =
    | AllLine(matched: bool)
    | AnyLine(matched: bool)
    | NotLine(matched: bool)
    | EqualsLine(field: string, equals: string, matched: bool)
    | InLine(field: string, oneOf: seq<string>, matched: bool)

  const SENSITIVE := ["secret", "token", "password", "authorization", "cookie", "signature", "credential"]

  ghost predicate Contains(text: string, word: string) {
    exists i :: 0 <= i <= |text| && word <= text[i..]
  }

  /** `lower` is the library's lower-casing, whatever it does. */
  ghost predicate IsSensitive(lower: string -> string, field: string) {
    exists word :: word in SENSITIVE && Contains(lower(field), word)
  }

  // ---- Validation -------------------------------------------------------------------------------

  function Clauses(e: Expression): nat {
    (if |e.all| > 0 then 1 else 0) + (if |e.any| > 0 then 1 else 0)
    + (if e.not.Some? then 1 else 0) + (if e.field != "" then 1 else 0)
  }

  ghost function ValidateExpression(lower: string -> string, e: Expression): Option<Invalid>
    decreases e
  {
    if Clauses(e) != 1 then Some(Invalid([], NotExactlyOneClause))
    else if ValidateChildren(lower, e.all, false, 0).Some? then ValidateChildren(lower, e.all, false, 0)
    else if ValidateChildren(lower, e.any, true, 0).Some? then ValidateChildren(lower, e.any, true, 0)
    else if e.not.Some? then ValidateExpression(lower, e.not.value)
    else if e.field != "" && IsSensitive(lower, e.field) then Some(Invalid([], SensitiveField))
    else if e.field != "" && e.equals == "" && e.oneOf == [] then Some(Invalid([], NoComparison))
    else if e.equals != "" && e.oneOf != [] then Some(Invalid([], TwoComparisons))
    else None
  }

  function Under(any: bool, index: nat, invalid: Invalid): Invalid {
    invalid.(path := [if any then InAny(index) else InAll(index)] + invalid.path)
  }

  /** The children from index `first` of their list on. */
  ghost function ValidateChildren(lower: string -> string, children: seq<Expression>, any: bool, first: nat): Option<Invalid>
    decreases children
  {
    if children == [] then None
    else if ValidateExpression(lower, children[0]).Some?
    then Some(Under(any, first, ValidateExpression(lower, children[0]).value))
    else ValidateChildren(lower, children[1..], any, first + 1)
  }

  /** What validation is for, without its order: every node below has one clause and every atom one safe comparison. */
  ghost predicate WellFormed(lower: string -> string, e: Expression)
    decreases e
  {
    && Clauses(e) == 1
    && (forall c | c in e.all :: WellFormed(lower, c))
    && (forall c | c in e.any :: WellFormed(lower, c))
    && (e.not.Some? ==> WellFormed(lower, e.not.value))
    && (e.field != "" ==> !IsSensitive(lower, e.field) && (e.equals != "" || e.oneOf != []))
    && (e.not.None? ==> e.equals == "" || e.oneOf == [])
  }

  lemma {:induction false} ValidIsWellFormed(lower: string -> string, e: Expression)
    ensures ValidateExpression(lower, e).None? <==> WellFormed(lower, e)
    decreases e
  {
    hide IsSensitive;
    ValidChildren(lower, e.all, false, 0);
    ValidChildren(lower, e.any, true, 0);
    if e.not.Some? { ValidIsWellFormed(lower, e.not.value); }
  }

  lemma {:induction false} ValidChildren(lower: string -> string, children: seq<Expression>, any: bool, first: nat)
    ensures ValidateChildren(lower, children, any, first).None? <==> forall c | c in children :: WellFormed(lower, c)
    decreases children
  {
    if children != [] {
      assert children == [children[0]] + children[1..];
      ValidIsWellFormed(lower, children[0]);
      ValidChildren(lower, children[1..], any, first + 1);
    }
  }

  /** What is wrong with the node itself, its children aside. */
  ghost function OwnError(lower: string -> string, e: Expression): Option<Error> {
    if Clauses(e) != 1 then Some(NotExactlyOneClause)
    else if e.not.Some? then None
    else if e.field != "" && IsSensitive(lower, e.field) then Some(SensitiveField)
    else if e.field != "" && e.equals == "" && e.oneOf == [] then Some(NoComparison)
    else if e.equals != "" && e.oneOf != [] then Some(TwoComparisons)
    else None
  }

  /** The path leads to a node with this error of its own, past well-formed elder siblings only. */
  ghost predicate Blames(lower: string -> string, e: Expression, path: seq<Segment>, error: Error)
    decreases e
  {
    || (path == [] && OwnError(lower, e) == Some(error))
    || (e.not.Some? && Blames(lower, e.not.value, path, error))
    || (path != [] && path[0].InAll? && BlamesChild(lower, e.all, path[0].index, path[1..], error))
    || (path != [] && path[0].InAny? && BlamesChild(lower, e.any, path[0].index, path[1..], error))
  }

  ghost predicate BlamesChild(lower: string -> string, children: seq<Expression>, i: nat, path: seq<Segment>, error: Error)
    decreases children
  {
    && i < |children| && Blames(lower, children[i], path, error)
    && forall k | 0 <= k < i :: WellFormed(lower, children[k])
  }

  /** A rejected expression is blamed on the first offending node, under its own path. */
  lemma {:induction false} ErrorIsLocated(lower: string -> string, e: Expression)
    requires ValidateExpression(lower, e).Some?
    ensures var invalid := ValidateExpression(lower, e).value; Blames(lower, e, invalid.path, invalid.error)
    decreases e
  {
    hide IsSensitive;
    hide WellFormed;
    if Clauses(e) == 1 {
      if ValidateChildren(lower, e.all, false, 0).Some? {
        ChildIsBlamed(lower, e.all, false, 0);
      } else if ValidateChildren(lower, e.any, true, 0).Some? {
        ChildIsBlamed(lower, e.any, true, 0);
      } else if e.not.Some? {
        ErrorIsLocated(lower, e.not.value);
      }
    }
  }

  lemma {:induction false} ChildIsBlamed(lower: string -> string, children: seq<Expression>, any: bool, first: nat)
    requires ValidateChildren(lower, children, any, first).Some?
    ensures var invalid := ValidateChildren(lower, children, any, first).value;
            && invalid.path != [] && invalid.path[0].index >= first
            && (if any then invalid.path[0].InAny? else invalid.path[0].InAll?)
            && BlamesChild(lower, children, invalid.path[0].index - first, invalid.path[1..], invalid.error)
    decreases children
  {
    hide Blames;
    hide WellFormed;
    ValidIsWellFormed(lower, children[0]);
    if ValidateExpression(lower, children[0]).Some? {
      ErrorIsLocated(lower, children[0]);
      var inner := ValidateExpression(lower, children[0]).value;
      assert Under(any, first, inner).path[1..] == inner.path;
    } else {
      ChildIsBlamed(lower, children[1..], any, first + 1);
      var invalid := ValidateChildren(lower, children, any, first).value;
      var i := invalid.path[0].index - first;
      assert children[1..][i - 1] == children[i];
      forall k | 0 <= k < i ensures WellFormed(lower, children[k]) {
        assert k > 0 ==> children[1..][k - 1] == children[k];
      }
    }
  }

  // ---- Evaluation -------------------------------------------------------------------------------

  function Lookup(inputs: Inputs, field: string): string {
    if field in inputs then inputs[field] else ""
  }

  datatype Outcome = Outcome(matched: bool, lines: seq<Line>)

  function Eval(e: Expression, inputs: Inputs): Outcome
    decreases e
  {
    if |e.all| > 0 then
      var o := EvalUntil(e.all, inputs, false);
      Outcome(o.matched, o.lines + [AllLine(o.matched)])
    else if |e.any| > 0 then
      var o := EvalUntil(e.any, inputs, true);
      Outcome(o.matched, o.lines + [AnyLine(o.matched)])
    else if e.not.Some? then
      var o := Eval(e.not.value, inputs);
      Outcome(!o.matched, o.lines + [NotLine(!o.matched)])
    else if e.equals != "" then
      var ok := Lookup(inputs, e.field) == e.equals;
      Outcome(ok, [EqualsLine(e.field, e.equals, ok)])
    else
      var ok := Lookup(inputs, e.field) in e.oneOf;
      Outcome(ok, [InLine(e.field, e.oneOf, ok)])
  }

  /** Children in order, up to and including the first whose result is `stop`. */
  function EvalUntil(children: seq<Expression>, inputs: Inputs, stop: bool): Outcome
    decreases children
  {
    if children == [] then Outcome(!stop, [])
    else
      var first := Eval(children[0], inputs);
      if first.matched == stop then first
      else
        var rest := EvalUntil(children[1..], inputs, stop);
        Outcome(rest.matched, first.lines + rest.lines)
  }

  /** The plain Boolean meaning: every clause that is set holds, in no particular order. */
  ghost predicate Holds(e: Expression, inputs: Inputs)
    decreases e
  {
    && (forall c | c in e.all :: Holds(c, inputs))
    && (|e.any| > 0 ==> exists c :: c in e.any && Holds(c, inputs))
    && (e.not.Some? ==> !Holds(e.not.value, inputs))
    && (e.field != "" ==> Lookup(inputs, e.field) in (if e.equals != "" then [e.equals] else e.oneOf))
  }

  lemma {:induction false} EvalIsMeaning(lower: string -> string, e: Expression, inputs: Inputs)
    requires ValidateExpression(lower, e).None?
    ensures Eval(e, inputs).matched <==> Holds(e, inputs)
    decreases e
  {
    ValidIsWellFormed(lower, e);
    EvalHolds(lower, e, inputs);
  }

  lemma {:induction false} EvalHolds(lower: string -> string, e: Expression, inputs: Inputs)
    requires WellFormed(lower, e)
    ensures Eval(e, inputs).matched <==> Holds(e, inputs)
    decreases e
  {
    hide IsSensitive;
    if |e.all| > 0 {
      ChildrenHold(lower, e.all, inputs, false);
    } else if |e.any| > 0 {
      ChildrenHold(lower, e.any, inputs, true);
    } else if e.not.Some? {
      EvalHolds(lower, e.not.value, inputs);
    }
  }

  lemma {:induction false} ChildrenHold(lower: string -> string, children: seq<Expression>, inputs: Inputs, stop: bool)
    requires forall c | c in children :: WellFormed(lower, c)
    ensures EvalUntil(children, inputs, stop).matched == stop <==> exists c :: c in children && (Holds(c, inputs) <==> stop)
    decreases children
  {
    hide WellFormed;
    if children != [] {
      assert children == [children[0]] + children[1..];
      EvalHolds(lower, children[0], inputs);
      ChildrenHold(lower, children[1..], inputs, stop);
    }
  }

  // ---- The explanation --------------------------------------------------------------------------

  /** A line about a field says the truth about the inputs. */
  predicate Truthful(line: Line, inputs: Inputs) {
    match line
    case EqualsLine(field, equals, matched) => matched == (Lookup(inputs, field) == equals)
    case InLine(field, oneOf, matched) => matched == (Lookup(inputs, field) in oneOf)
    case _ => true
  }

  /** The last line is about the clause that the node has. */
  ghost predicate Describes(lines: seq<Line>, e: Expression) {
    && lines != []
    && var last := lines[|lines| - 1];
       if e.all != [] then last.AllLine? else if e.any != [] then last.AnyLine? else if e.not.Some? then last.NotLine?
       else if e.equals != "" then last.EqualsLine? && (last.field, last.equals) == (e.field, e.equals)
       else last.InLine? && (last.field, last.oneOf) == (e.field, e.oneOf)
  }

  /** Every comparison reported is true of the inputs, and the last line is about the node and carries its verdict. */
  lemma {:induction false} ExplanationIsTrue(e: Expression, inputs: Inputs)
    ensures var o := Eval(e, inputs); o.lines != [] && o.lines[|o.lines| - 1].matched == o.matched
    ensures Describes(Eval(e, inputs).lines, e)
    ensures forall line | line in Eval(e, inputs).lines :: Truthful(line, inputs)
    decreases e
  {
    if |e.all| > 0 {
      ChildLinesAreTrue(e.all, inputs, false);
    } else if |e.any| > 0 {
      ChildLinesAreTrue(e.any, inputs, true);
    } else if e.not.Some? {
      ExplanationIsTrue(e.not.value, inputs);
    }
  }

  lemma {:induction false} ChildLinesAreTrue(children: seq<Expression>, inputs: Inputs, stop: bool)
    ensures forall line | line in EvalUntil(children, inputs, stop).lines :: Truthful(line, inputs)
    decreases children
  {
    if children != [] {
      ExplanationIsTrue(children[0], inputs);
      ChildLinesAreTrue(children[1..], inputs, stop);
    }
  }

  // ---- The fields an expression refers to -------------------------------------------------------

  function Fields(e: Expression): set<string>
    decreases e
  {
    (if e.field != "" then {e.field} else {})
    + FieldsOf(e.all) + FieldsOf(e.any) + (if e.not.Some? then Fields(e.not.value) else {})
  }

  function FieldsOf(children: seq<Expression>): set<string>
    decreases children
  {
    if children == [] then {} else Fields(children[0]) + FieldsOf(children[1..])
  }

  ghost predicate AgreeOn(fields: set<string>, a: Inputs, b: Inputs) {
    forall f | f in fields :: Lookup(a, f) == Lookup(b, f)
  }

  /** The verdict and the whole explanation depend only on the collected fields. */
  lemma {:induction false} FieldsDecide(lower: string -> string, e: Expression, a: Inputs, b: Inputs)
    requires WellFormed(lower, e) && AgreeOn(Fields(e), a, b)
    ensures Eval(e, a) == Eval(e, b)
    decreases e
  {
    hide IsSensitive;
    if |e.all| > 0 {
      FieldsDecideChildren(lower, e.all, a, b, false);
    } else if |e.any| > 0 {
      FieldsDecideChildren(lower, e.any, a, b, true);
    } else if e.not.Some? {
      FieldsDecide(lower, e.not.value, a, b);
    } else {
      assert e.field in Fields(e);
    }
  }

  lemma {:induction false} FieldsDecideChildren(lower: string -> string, children: seq<Expression>, a: Inputs, b: Inputs, stop: bool)
    requires (forall c | c in children :: WellFormed(lower, c)) && AgreeOn(FieldsOf(children), a, b)
    ensures EvalUntil(children, a, stop) == EvalUntil(children, b, stop)
    decreases children
  {
    hide WellFormed;
    if children != [] {
      FieldsDecide(lower, children[0], a, b);
      FieldsDecideChildren(lower, children[1..], a, b, stop);
    }
  }

  lemma {:induction false} FieldsAreSafe(lower: string -> string, e: Expression)
    requires WellFormed(lower, e)
    ensures forall f | f in Fields(e) :: !IsSensitive(lower, f)
    decreases e
  {
    hide IsSensitive;
    FieldsOfAreSafe(lower, e.all);
    FieldsOfAreSafe(lower, e.any);
    if e.not.Some? { FieldsAreSafe(lower, e.not.value); }
  }

  lemma {:induction false} FieldsOfAreSafe(lower: string -> string, children: seq<Expression>)
    requires forall c | c in children :: WellFormed(lower, c)
    ensures forall f | f in FieldsOf(children) :: !IsSensitive(lower, f)
    decreases children
  {
    hide WellFormed;
    hide IsSensitive;
    if children != [] {
      FieldsAreSafe(lower, children[0]);
      FieldsOfAreSafe(lower, children[1..]);
    }
  }

  // ---- The decision -----------------------------------------------------------------------------

  datatype Actions = Actions(suppress: bool, requireApproval: bool, assignTeam: string, escalationPolicy: string,
                             channels: seq<string>, runbook: string)

  const NO_ACTIONS := Actions(false, false, "", "", [], "")

  datatype Document = Document(id: string, version: int, expression: Expression, actions: Actions)

  datatype Decision = Decision(matched: bool, id: string, version: int, actions: Actions, lines: seq<Line>, inputs: Inputs)

  const LIMIT := 256

  function Truncated(value: string): (cut: string)
    ensures cut <= value && |cut| <= LIMIT
    ensures |value| <= LIMIT ==> cut == value
    ensures |value| > LIMIT ==> |cut| == LIMIT
  {
    if |value| > LIMIT then value[..LIMIT] else value
  }

  ghost function Sanitized(lower: string -> string, field: string, value: string): string {
    if IsSensitive(lower, field) then "[REDACTED]" else Truncated(value)
  }

  ghost function Evaluate(lower: string -> string, d: Document, inputs: Inputs): Decision {
    var o := Eval(d.expression, inputs);
    Decision(o.matched, d.id, d.version, if o.matched then d.actions else NO_ACTIONS, o.lines,
             map f | f in Fields(d.expression) :: Sanitized(lower, f, Lookup(inputs, f)))
  }

  /** A validated policy acts exactly when its expression holds; otherwise its decision asks for nothing. */
  lemma {:induction false} DecisionActsIff(lower: string -> string, d: Document, inputs: Inputs)
    requires ValidateExpression(lower, d.expression).None?
    ensures var decision := Evaluate(lower, d, inputs);
            && (decision.id, decision.version) == (d.id, d.version)
            && (decision.matched <==> Holds(d.expression, inputs))
            && (Holds(d.expression, inputs) ==> decision.actions == d.actions)
            && (!Holds(d.expression, inputs) ==>
                  && !decision.actions.suppress && !decision.actions.requireApproval
                  && decision.actions.channels == [] && decision.actions.assignTeam == ""
                  && decision.actions.escalationPolicy == "" && decision.actions.runbook == "")
  {
    hide ValidateExpression;
    hide Holds;
    EvalIsMeaning(lower, d.expression, inputs);
  }

  /** A validated policy records every field it refers to and never redacts one. */
  lemma InputsAreNeverRedacted(lower: string -> string, d: Document, inputs: Inputs)
    requires ValidateExpression(lower, d.expression).None?
    ensures var recorded := Evaluate(lower, d, inputs).inputs;
            recorded.Keys == Fields(d.expression) && forall f | f in recorded :: recorded[f] == Truncated(Lookup(inputs, f))
  {
    ValidIsWellFormed(lower, d.expression);
    FieldsAreSafe(lower, d.expression);
  }

  /** The decision is the same when it is taken again on what it recorded. */
  ghost predicate Replays(lower: string -> string, d: Document, inputs: Inputs) {
    Evaluate(lower, d, Evaluate(lower, d, inputs).inputs) == Evaluate(lower, d, inputs)
  }

  lemma DecisionCanBeTakenAgain(lower: string -> string, d: Document, inputs: Inputs)
    requires ValidateExpression(lower, d.expression).None?
    requires forall f | f in Fields(d.expression) :: |Lookup(inputs, f)| <= LIMIT
    ensures Replays(lower, d, inputs)
  {
    hide ValidateExpression;
    hide IsSensitive;
    var first := Evaluate(lower, d, inputs);
    InputsAreNeverRedacted(lower, d, inputs);
    ValidIsWellFormed(lower, d.expression);
    assert AgreeOn(Fields(d.expression), inputs, first.inputs);
    FieldsDecide(lower, d.expression, inputs, first.inputs);
    var second := Evaluate(lower, d, first.inputs);
    assert second.inputs == first.inputs;
  }

  /** The policy that asks whether the field has the value. */
  function Asks(field: string, value: string): Document {
    Document("p", 1, Expression([], [], None, field, value, []), NO_ACTIONS)
  }

  lemma LongValueIsLost(lower: string -> string, field: string, inputs: Inputs)
    requires field != "" && !IsSensitive(lower, field) && |Lookup(inputs, field)| > LIMIT
    ensures var d := Asks(field, Lookup(inputs, field));
            && ValidateExpression(lower, d.expression).None?
            && Evaluate(lower, d, inputs).matched && !Replays(lower, d, inputs)
  {
  }

  lemma {:induction false} FieldsAreNamed(e: Expression)
    ensures "" !in Fields(e)
    decreases e
  {
    FieldsOfAreNamed(e.all);
    FieldsOfAreNamed(e.any);
    if e.not.Some? { FieldsAreNamed(e.not.value); }
  }

  lemma {:induction false} FieldsOfAreNamed(children: seq<Expression>)
    ensures "" !in FieldsOf(children)
    decreases children
  {
    if children != [] {
      FieldsAreNamed(children[0]);
      FieldsOfAreNamed(children[1..]);
    }
  }

  ghost predicate Recordable(lower: string -> string, inputs: Inputs) {
    forall f | f in inputs && f != "" && !IsSensitive(lower, f) :: |inputs[f]| <= LIMIT
  }

  /** Every validated policy decides the same again on its record if and only if no field it may refer to is too long. */
  lemma DecisionsReplayIff(lower: string -> string, inputs: Inputs)
    ensures (forall d: Document | ValidateExpression(lower, d.expression).None? :: Replays(lower, d, inputs)) <==> Recordable(lower, inputs)
  {
    hide ValidateExpression;
    hide IsSensitive;
    hide Replays;
    if Recordable(lower, inputs) {
      forall d: Document | ValidateExpression(lower, d.expression).None? ensures Replays(lower, d, inputs) {
        ValidIsWellFormed(lower, d.expression);
        FieldsAreSafe(lower, d.expression);
        FieldsAreNamed(d.expression);
        DecisionCanBeTakenAgain(lower, d, inputs);
      }
    } else {
      var f :| f in inputs && f != "" && !IsSensitive(lower, f) && |inputs[f]| > LIMIT;
      LongValueIsLost(lower, f, inputs);
      assert !Replays(lower, Asks(f, inputs[f]), inputs);
    }
  }

  // ---- The code with its loops ------------------------------------------------------------------

  method IsSensitiveField(lower: string -> string, field: string) returns (sensitive: bool)
    ensures sensitive <==> IsSensitive(lower, field)
  {
    var text := lower(field);
    for w := 0 to |SENSITIVE|
      invariant forall v | 0 <= v < w :: !Contains(text, SENSITIVE[v])
    {
      for i := 0 to |text| + 1
        invariant forall k | 0 <= k < i :: !(SENSITIVE[w] <= text[k..])
      {
        if SENSITIVE[w] <= text[i..] {
          assert SENSITIVE[w] in SENSITIVE;
          return true;
        }
      }
    }
    sensitive := false;
  }

  method Validate(lower: string -> string, e: Expression) returns (error: Option<Invalid>)
    ensures error == ValidateExpression(lower, e)
    decreases e
  {
    hide IsSensitive;
    if Clauses(e) != 1 { return Some(Invalid([], NotExactlyOneClause)); }
    error := ValidateEach(lower, e.all, false);
    if error.Some? { return; }
    error := ValidateEach(lower, e.any, true);
    if error.Some? { return; }
    if e.not.Some? {
      error := Validate(lower, e.not.value);
      return;
    }
    var sensitive := IsSensitiveField(lower, e.field);
    if e.field != "" && sensitive { return Some(Invalid([], SensitiveField)); }
    if e.field != "" && e.equals == "" && e.oneOf == [] { return Some(Invalid([], NoComparison)); }
    if e.equals != "" && e.oneOf != [] { return Some(Invalid([], TwoComparisons)); }
    error := None;
  }

  method ValidateEach(lower: string -> string, children: seq<Expression>, any: bool) returns (error: Option<Invalid>)
    ensures error == ValidateChildren(lower, children, any, 0)
    decreases children
  {
    assert children[0..] == children;
    for i := 0 to |children|
      invariant ValidateChildren(lower, children, any, 0) == ValidateChildren(lower, children[i..], any, i)
    {
      error := Validate(lower, children[i]);
      if error.Some? { return Some(Under(any, i, error.value)); }
      assert children[i..][1..] == children[i + 1..];
    }
    error := None;
  }

  method Match(e: Expression, inputs: Inputs) returns (matched: bool, lines: seq<Line>)
    ensures Outcome(matched, lines) == Eval(e, inputs)
    decreases e
  {
    if |e.all| > 0 {
      matched, lines := MatchUntil(e.all, inputs, false);
      lines := lines + [AllLine(matched)];
    } else if |e.any| > 0 {
      matched, lines := MatchUntil(e.any, inputs, true);
      lines := lines + [AnyLine(matched)];
    } else if e.not.Some? {
      matched, lines := Match(e.not.value, inputs);
      matched := !matched;
      lines := lines + [NotLine(matched)];
    } else {
      var actual := Lookup(inputs, e.field);
      if e.equals != "" {
        matched := actual == e.equals;
        return matched, [EqualsLine(e.field, e.equals, matched)];
      }
      for i := 0 to |e.oneOf|
        invariant actual !in e.oneOf[..i]
      {
        if actual == e.oneOf[i] { return true, [InLine(e.field, e.oneOf, true)]; }
      }
      matched, lines := false, [InLine(e.field, e.oneOf, false)];
    }
  }

  method MatchUntil(children: seq<Expression>, inputs: Inputs, stop: bool) returns (matched: bool, lines: seq<Line>)
    ensures Outcome(matched, lines) == EvalUntil(children, inputs, stop)
    decreases children
  {
    lines := [];
    assert children[0..] == children;
    for i := 0 to |children|
      invariant var rest := EvalUntil(children[i..], inputs, stop);
                EvalUntil(children, inputs, stop) == Outcome(rest.matched, lines + rest.lines)
    {
      var ok, childLines := Match(children[i], inputs);
      assert children[i..][1..] == children[i + 1..];
      lines := lines + childLines;
      if ok == stop { return stop, lines; }
    }
    matched := !stop;
  }

  method CollectFields(e: Expression, out: set<string>) returns (fields: set<string>)
    ensures fields == out + Fields(e)
    decreases e
  {
    fields := out;
    if e.field != "" { fields := fields + {e.field}; }
    fields := CollectEach(e.all, fields);
    fields := CollectEach(e.any, fields);
    if e.not.Some? { fields := CollectFields(e.not.value, fields); }
  }

  method CollectEach(children: seq<Expression>, out: set<string>) returns (fields: set<string>)
    ensures fields == out + FieldsOf(children)
    decreases children
  {
    fields := out;
    assert children[0..] == children;
    for i := 0 to |children|
      invariant fields + FieldsOf(children[i..]) == out + FieldsOf(children)
    {
      assert children[i..][1..] == children[i + 1..];
      fields := CollectFields(children[i], fields);
    }
  }

  method Decide(lower: string -> string, d: Document, inputs: Inputs) returns (decision: Decision)
    ensures decision == Evaluate(lower, d, inputs)
    ensures (decision.id, decision.version) == (d.id, d.version)
    ensures ValidateExpression(lower, d.expression).None? ==>
              && (decision.matched <==> Holds(d.expression, inputs))
              && decision.actions == (if Holds(d.expression, inputs) then d.actions else Actions(false, false, "", "", [], ""))
  {
    hide Sanitized;
    hide Eval;
    var matched, lines := Match(d.expression, inputs);
    var referenced := CollectFields(d.expression, {});
    var recorded := RecordInputs(lower, referenced, inputs);
    decision := Decision(matched, d.id, d.version, if matched then d.actions else NO_ACTIONS, lines, recorded);
    hide ValidateExpression;
    hide Holds;
    if ValidateExpression(lower, d.expression).None? { EvalIsMeaning(lower, d.expression, inputs); }
  }

  method RecordInputs(lower: string -> string, referenced: set<string>, inputs: Inputs) returns (recorded: Inputs)
    ensures recorded == map f | f in referenced :: Sanitized(lower, f, Lookup(inputs, f))
  {
    hide Sanitized;
    recorded := map[];
    var rest := referenced;
    while rest != {}
      invariant rest <= referenced && recorded.Keys == referenced - rest
      invariant forall f | f in recorded :: recorded[f] == Sanitized(lower, f, Lookup(inputs, f))
      decreases |rest|
    {
      var field :| field in rest;
      var value := Sanitize(lower, field, Lookup(inputs, field));
      recorded := recorded[field := value];
      rest := rest - {field};
    }
  }

  method Sanitize(lower: string -> string, field: string, value: string) returns (safe: string)
    ensures safe == Sanitized(lower, field, value)
    ensures IsSensitive(lower, field) ==> safe == "[REDACTED]"
    ensures !IsSensitive(lower, field) ==> safe <= value && |safe| == Min(|value|, 256)
  {
    hide IsSensitive;
    var sensitive := IsSensitiveField(lower, field);
    safe := if sensitive then "[REDACTED]" else Truncated(value);
  }

  function LabelField(name: string): string {
    "labels." + name
  }

  lemma LabelFieldsAreApart(k: string)
    ensures forall l :: LabelField(l) == LabelField(k) ==> l == k
    ensures LabelField(k) != "severity" && LabelField(k) != "type" && LabelField(k) != "source"
    ensures LabelField(k) != "subject" && LabelField(k) != "environment"
  {
    forall l | LabelField(l) == LabelField(k) ensures l == k {
      assert LabelField(l)[7..] == l && LabelField(k)[7..] == k;
    }
    assert LabelField(k)[0] == 'l' && LabelField(k)[1] == 'a';
  }

  /** A label is read under its prefix only, so no label can pass for an attribute of the event. */
  method EventInputs(severity: string, kind: string, source: string, subject: string, labels: map<string, string>)
    returns (inputs: Inputs)
    ensures forall k | k in labels :: LabelField(k) in inputs && inputs[LabelField(k)] == labels[k]
    ensures Lookup(inputs, "severity") == severity && Lookup(inputs, "type") == kind
    ensures Lookup(inputs, "source") == source && Lookup(inputs, "subject") == subject
    ensures Lookup(inputs, "environment") == Lookup(labels, "environment")
  {
    hide LabelField;
    inputs := map["severity" := severity, "type" := kind, "source" := source, "subject" := subject];
    inputs := AddLabels(inputs, labels);
    if Lookup(labels, "environment") != "" {
      forall k | k in labels ensures LabelField(k) != "environment" {
        LabelFieldsAreApart(k);
      }
      inputs := inputs["environment" := labels["environment"]];
    }
  }

  method AddLabels(inputs: Inputs, labels: map<string, string>) returns (out: Inputs)
    ensures forall k | k in labels :: LabelField(k) in out && out[LabelField(k)] == labels[k]
    ensures forall f | f in ["severity", "type", "source", "subject", "environment"] :: Lookup(out, f) == Lookup(inputs, f)
  {
    hide LabelField;
    out := inputs;
    var rest := labels.Keys;
    while rest != {}
      invariant rest <= labels.Keys
      invariant forall k | k in labels && k !in rest :: LabelField(k) in out && out[LabelField(k)] == labels[k]
      invariant forall f | f in ["severity", "type", "source", "subject", "environment"] :: Lookup(out, f) == Lookup(inputs, f)
      decreases |rest|
    {
      var k :| k in rest;
      LabelFieldsAreApart(k);
      out := out[LabelField(k) := labels[k]];
      rest := rest - {k};
    }
  }
}
