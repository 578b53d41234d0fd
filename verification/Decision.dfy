/** From rule evaluations to one terminal decision: the most severe one over all applicable rules. */
module Decision {
  import opened Wrappers

  datatype Decision = Allow | HoldAction | Block

  datatype EvalResult = Pass | Fail | Warn | NotApplicable

  datatype EvalOutcome = EvalOutcome(result: EvalResult, reason: string)

  datatype Mode = Advisory | Blocking

  datatype FailureMode = FailOpen | FailToHuman | FailClosed

  datatype SpanType = SideEffect | HumanApproval | OtherType(name: string)

  datatype Rule = Rule(id: string, spanType: SpanType, evaluator: string, actionTypes: seq<string>,
                       softFail: bool, mode: Mode, failureMode: FailureMode, enabled: bool)

  datatype RuleSet = RuleSet(version: string, rules: seq<Rule>)

  /** One gated span as the rules see it. */
  datatype Request = Request(spanType: SpanType, name: string, trajectoryId: string, spanId: string,
                             customer: string, actionType: Option<string>, attributes: string)

  /** The registered predicates, as an arbitrary function of rule and span. */
  type Evaluator = (Rule, Request) -> EvalOutcome

  datatype RuleVerdict = RuleVerdict(ruleId: string, result: EvalResult, policyVersion: string, reason: string)

  datatype DecisionResult = DecisionResult(decision: Decision, policyVersion: string, reason: string, ruleId: string,
                                           verdicts: seq<RuleVerdict>)

  function Severity(d: Decision): nat {
    match d case Allow => 0 case HoldAction => 1 case Block => 2
  }

  predicate Applies(rule: Rule, req: Request) {
    && rule.enabled && rule.spanType == req.spanType
    && (rule.actionTypes == [] || (req.actionType.Some? && req.actionType.value in rule.actionTypes))
  }

  function RulesFor(rules: seq<Rule>, req: Request): (r: seq<Rule>)
    ensures forall x :: x in r <==> x in rules && Applies(x, req)
  {
    if rules == [] then []
    else
      var init, last := rules[..|rules| - 1], rules[|rules| - 1];
      assert rules == init + [last];
      RulesFor(init, req) + if Applies(last, req) then [last] else []
  }

  /** What a single rule asks for: escalation only if it is blocking, hard and failed. */
  function Asks(evaluate: Evaluator, rule: Rule, req: Request): Decision {
    if evaluate(rule, req).result != Fail || rule.softFail || rule.mode != Blocking then Allow
    else match rule.failureMode case FailOpen => Allow case FailToHuman => HoldAction case FailClosed => Block
  }

  /** Rule i is the first that asks for the decision, and the decision carries its name and reason. */
  ghost predicate NamedBy(evaluate: Evaluator, rules: seq<Rule>, req: Request, r: DecisionResult, i: nat)
    requires i < |rules|
  {
    && Asks(evaluate, rules[i], req) == r.decision
    && (forall j :: 0 <= j < i ==> Severity(Asks(evaluate, rules[j], req)) < Severity(r.decision))
    && r.ruleId == rules[i].id && r.reason == evaluate(rules[i], req).reason
  }

  /** The decision is the most severe any applicable rule asks for, and it names the first rule that asks for it. */
  ghost predicate MostSevere(evaluate: Evaluator, rules: seq<Rule>, req: Request, r: DecisionResult) {
    && (forall i :: 0 <= i < |rules| ==> Severity(Asks(evaluate, rules[i], req)) <= Severity(r.decision))
    && (r.decision == Allow ==> r.ruleId == "" && r.reason == "")
    && (r.decision != Allow ==> exists i :: 0 <= i < |rules| && NamedBy(evaluate, rules, req, r, i))
  }

  lemma {:induction false} MostSevereGrows(evaluate: Evaluator, rules: seq<Rule>, rule: Rule, req: Request, r: DecisionResult)
    requires MostSevere(evaluate, rules, req, r)
    ensures var a := Asks(evaluate, rule, req);
            MostSevere(evaluate, rules + [rule], req,
                       if Severity(a) > Severity(r.decision)
                       then r.(decision := a, reason := evaluate(rule, req).reason, ruleId := rule.id) else r)
  {
    hide Asks;
    var longer, a := rules + [rule], Asks(evaluate, rule, req);
    if Severity(a) > Severity(r.decision) {
      assert NamedBy(evaluate, longer, req, r.(decision := a, reason := evaluate(rule, req).reason, ruleId := rule.id), |rules|);
    } else if r.decision != Allow {
      var i :| 0 <= i < |rules| && NamedBy(evaluate, rules, req, r, i);
      assert NamedBy(evaluate, longer, req, r, i);
    }
  }

  /** One recorded verdict per applicable rule; a failure is recorded under the rule's own on_fail label. */
  ghost predicate Recorded(evaluate: Evaluator, version: string, rules: seq<Rule>, req: Request, verdicts: seq<RuleVerdict>) {
    && |verdicts| == |rules|
    && forall i :: 0 <= i < |rules| ==>
         var o := evaluate(rules[i], req);
         verdicts[i] == RuleVerdict(rules[i].id, if o.result == Fail && rules[i].softFail then Warn else o.result, version, o.reason)
  }

  // ---- the decision, read off the rules as they were written ----

  /** The rule is about spans like this one. */
  predicate Concerns(rule: Rule, req: Request) {
    && rule.enabled && rule.spanType == req.spanType
    && (|rule.actionTypes| == 0 || exists a :: a in rule.actionTypes && req.actionType == Some(a))
  }

  /** The rule failed as a hard, blocking rule with this failure mode. */
  predicate Failed(evaluate: Evaluator, rule: Rule, req: Request, mode: FailureMode) {
    && Concerns(rule, req) && evaluate(rule, req).result == Fail
    && !rule.softFail && rule.mode == Blocking && rule.failureMode == mode
  }

  ghost predicate SomeFailed(evaluate: Evaluator, rules: seq<Rule>, req: Request, mode: FailureMode) {
    exists i :: 0 <= i < |rules| && Failed(evaluate, rules[i], req, mode)
  }

  /** Block if a fail-closed rule failed, hold if none did but a fail-to-human rule, and allow otherwise. */
  ghost predicate Decides(evaluate: Evaluator, rules: seq<Rule>, req: Request, d: Decision) {
    && (d == Block <==> SomeFailed(evaluate, rules, req, FailClosed))
    && (d == HoldAction <==> !SomeFailed(evaluate, rules, req, FailClosed) && SomeFailed(evaluate, rules, req, FailToHuman))
  }

  /** Anything but allow is named after the first rule of the deciding failure mode, and allow after none. */
  ghost predicate Names(evaluate: Evaluator, rules: seq<Rule>, req: Request, d: Decision, ruleId: string, reason: string) {
    && (d == Allow ==> ruleId == "" && reason == "")
    && (d != Allow ==> exists i :: FirstFailed(evaluate, rules, req, if d == Block then FailClosed else FailToHuman, i)
                                  && ruleId == rules[i].id && reason == evaluate(rules[i], req).reason)
  }

  predicate FirstFailed(evaluate: Evaluator, rules: seq<Rule>, req: Request, mode: FailureMode, i: int) {
    0 <= i < |rules| && Failed(evaluate, rules[i], req, mode) && forall j :: 0 <= j < i ==> !Failed(evaluate, rules[j], req, mode)
  }

  /** The recorded verdicts are those of the rules about such spans. */
  ghost predicate Records(evaluate: Evaluator, version: string, rules: seq<Rule>, req: Request, verdicts: seq<RuleVerdict>) {
    && (forall rule :: rule in rules && Concerns(rule, req) ==> exists v :: v in verdicts && RecordOf(evaluate, version, rule, req, v))
    && (forall v :: v in verdicts ==> exists rule :: rule in rules && Concerns(rule, req) && RecordOf(evaluate, version, rule, req, v))
  }

  /** A soft rule's failure is recorded as a warning. */
  predicate RecordOf(evaluate: Evaluator, version: string, rule: Rule, req: Request, v: RuleVerdict) {
    && v.ruleId == rule.id && v.policyVersion == version && v.reason == evaluate(rule, req).reason
    && (evaluate(rule, req).result == Fail && rule.softFail ==> v.result == Warn)
    && (!(evaluate(rule, req).result == Fail && rule.softFail) ==> v.result == evaluate(rule, req).result)
  }

  lemma {:induction false} AsksExactlyWhen(evaluate: Evaluator, rule: Rule, req: Request)
    ensures Applies(rule, req) <==> Concerns(rule, req)
    ensures Applies(rule, req) ==> (Asks(evaluate, rule, req) == Block <==> Failed(evaluate, rule, req, FailClosed))
    ensures Applies(rule, req) ==> (Asks(evaluate, rule, req) == HoldAction <==> Failed(evaluate, rule, req, FailToHuman))
  {
  }

  /** What the applicable rules ask for at most is what the rules decide. */
  lemma {:induction false} MaxDecides(evaluate: Evaluator, rules: seq<Rule>, req: Request)
    ensures Decides(evaluate, rules, req, MaxAsked(evaluate, RulesFor(rules, req), req))
  {
    hide Asks, Applies, Failed, Concerns, RulesFor;
    var applicable := RulesFor(rules, req);
    var d := MaxAsked(evaluate, applicable, req);
    forall i | 0 <= i < |rules| && Failed(evaluate, rules[i], req, FailClosed) ensures d == Block {
      EscalationCounts(evaluate, rules, req, i, FailClosed);
    }
    forall i | 0 <= i < |rules| && Failed(evaluate, rules[i], req, FailToHuman) ensures d != Allow {
      EscalationCounts(evaluate, rules, req, i, FailToHuman);
    }
    if d != Allow {
      DecisionIsAsked(evaluate, rules, req);
    }
  }

  lemma {:induction false} DecisionIsAsked(evaluate: Evaluator, rules: seq<Rule>, req: Request)
    requires MaxAsked(evaluate, RulesFor(rules, req), req) != Allow
    ensures SomeFailed(evaluate, rules, req, if MaxAsked(evaluate, RulesFor(rules, req), req) == Block then FailClosed else FailToHuman)
  {
    hide Asks, Applies, Failed, Concerns, RulesFor;
    var applicable := RulesFor(rules, req);
    var k :| 0 <= k < |applicable| && Asks(evaluate, applicable[k], req) == MaxAsked(evaluate, applicable, req);
    assert applicable[k] in applicable;
    AsksExactlyWhen(evaluate, applicable[k], req);
    var i :| 0 <= i < |rules| && rules[i] == applicable[k];
  }

  lemma {:induction false} EscalationCounts(evaluate: Evaluator, rules: seq<Rule>, req: Request, i: nat, mode: FailureMode)
    requires i < |rules| && Failed(evaluate, rules[i], req, mode) && mode != FailOpen
    ensures Severity(MaxAsked(evaluate, RulesFor(rules, req), req)) >= Severity(if mode == FailClosed then Block else HoldAction)
  {
    hide Asks, Applies;
    AsksExactlyWhen(evaluate, rules[i], req);
    assert rules[i] in RulesFor(rules, req);
    var k :| 0 <= k < |RulesFor(rules, req)| && RulesFor(rules, req)[k] == rules[i];
  }

  lemma {:induction false} RulesForLast(init: seq<Rule>, last: Rule, req: Request)
    ensures RulesFor(init + [last], req) == RulesFor(init, req) + if Applies(last, req) then [last] else []
  {
    assert (init + [last])[..|init|] == init;
  }

  /** The applicable rules are places of the rules, in order. */
  lemma {:induction false} PlaceOfRule(rules: seq<Rule>, req: Request, k: nat) returns (i: nat)
    requires k < |RulesFor(rules, req)|
    ensures i < |rules| && rules[i] == RulesFor(rules, req)[k]
    ensures forall j :: 0 <= j < i && Applies(rules[j], req) ==> rules[j] in RulesFor(rules, req)[..k]
    decreases |rules|
  {
    hide Applies, RulesFor;
    assert rules != [] by { NoneApply(req); }
    var init, last := rules[..|rules| - 1], rules[|rules| - 1];
    assert rules == init + [last];
    RulesForLast(init, last, req);
    var before := RulesFor(init, req);
    if k < |before| {
      i := PlaceOfRule(init, req, k);
      assert RulesFor(rules, req)[..k] == before[..k];
    } else {
      i := |init|;
      assert RulesFor(rules, req)[..k] == before;
      assert forall j :: 0 <= j < i ==> rules[j] in init;
    }
  }

  lemma {:induction false} NoneApply(req: Request)
    ensures RulesFor([], req) == []
  {
  }

  lemma {:induction false} MostSevereNames(evaluate: Evaluator, rules: seq<Rule>, req: Request, r: DecisionResult)
    requires MostSevere(evaluate, RulesFor(rules, req), req, r)
    ensures Names(evaluate, rules, req, r.decision, r.ruleId, r.reason)
  {
    hide Asks, Applies, Failed, RulesFor, Concerns;
    if r.decision != Allow {
      var applicable := RulesFor(rules, req);
      var k: nat :| 0 <= k < |applicable| && NamedBy(evaluate, applicable, req, r, k);
      var mode := if r.decision == Block then FailClosed else FailToHuman;
      var i := PlaceOfRule(rules, req, k);
      assert applicable[k] in applicable;
      AsksExactlyWhen(evaluate, rules[i], req);
      forall j | 0 <= j < i ensures !Failed(evaluate, rules[j], req, mode) {
        AsksExactlyWhen(evaluate, rules[j], req);
        FailedConcerns(evaluate, rules[j], req, mode);
        if Applies(rules[j], req) {
          var m :| 0 <= m < k && applicable[m] == rules[j];
        }
      }
      assert FirstFailed(evaluate, rules, req, mode, i);
    }
  }

  lemma {:induction false} FailedConcerns(evaluate: Evaluator, rule: Rule, req: Request, mode: FailureMode)
    ensures Failed(evaluate, rule, req, mode) ==> Concerns(rule, req)
  {
  }

  lemma {:induction false} RecordedRecords(evaluate: Evaluator, version: string, rules: seq<Rule>, req: Request, verdicts: seq<RuleVerdict>)
    requires Recorded(evaluate, version, RulesFor(rules, req), req, verdicts)
    ensures Records(evaluate, version, rules, req, verdicts)
  {
    hide Applies, Concerns, RulesFor;
    var applicable := RulesFor(rules, req);
    forall rule | rule in rules && Concerns(rule, req) ensures exists v :: v in verdicts && RecordOf(evaluate, version, rule, req, v) {
      AsksExactlyWhen(evaluate, rule, req);
      var k :| 0 <= k < |applicable| && applicable[k] == rule;
      assert verdicts[k] in verdicts && RecordOf(evaluate, version, rule, req, verdicts[k]);
    }
    forall v | v in verdicts ensures exists rule :: rule in rules && Concerns(rule, req) && RecordOf(evaluate, version, rule, req, v) {
      var k :| 0 <= k < |verdicts| && verdicts[k] == v;
      assert applicable[k] in applicable;
      AsksExactlyWhen(evaluate, applicable[k], req);
      assert RecordOf(evaluate, version, applicable[k], req, v);
    }
  }

  method Decide(evaluate: Evaluator, ruleset: RuleSet, req: Request) returns (r: DecisionResult)
    ensures MostSevere(evaluate, RulesFor(ruleset.rules, req), req, r)
    ensures Recorded(evaluate, ruleset.version, RulesFor(ruleset.rules, req), req, r.verdicts)
    ensures r.policyVersion == ruleset.version
    ensures Decides(evaluate, ruleset.rules, req, r.decision)
    ensures Names(evaluate, ruleset.rules, req, r.decision, r.ruleId, r.reason)
    ensures Records(evaluate, ruleset.version, ruleset.rules, req, r.verdicts)
  {
    hide Decides, Names, Records;
    hide MostSevere, Asks, RulesFor;
    var rules := RulesFor(ruleset.rules, req);
    r := DecisionResult(Allow, ruleset.version, "", "", []);
    NoRules(evaluate, req, r);
    for i := 0 to |rules|
      invariant MostSevere(evaluate, rules[..i], req, r)
      invariant Recorded(evaluate, ruleset.version, rules[..i], req, r.verdicts)
      invariant r.policyVersion == ruleset.version
    {
      var rule := rules[i];
      var outcome := evaluate(rule, req);
      var result := if outcome.result == Fail && rule.softFail then Warn else outcome.result;
      MostSevereGrows(evaluate, rules[..i], rule, req, r);
      assert rules[..i + 1] == rules[..i] + [rule];
      var candidate := Asks(evaluate, rule, req);
      if Severity(candidate) > Severity(r.decision) {
        r := r.(decision := candidate, reason := outcome.reason, ruleId := rule.id);
      }
      VerdictsDoNotMatter(evaluate, rules[..i + 1], req, r, r.verdicts + [RuleVerdict(rule.id, result, ruleset.version, outcome.reason)]);
      r := r.(verdicts := r.verdicts + [RuleVerdict(rule.id, result, ruleset.version, outcome.reason)]);
    }
    assert rules[..|rules|] == rules;
    DecisionIsMax(evaluate, rules, req, r);
    MaxDecides(evaluate, ruleset.rules, req);
    MostSevereNames(evaluate, ruleset.rules, req, r);
    RecordedRecords(evaluate, ruleset.version, ruleset.rules, req, r.verdicts);
  }

  lemma {:induction false} NoRules(evaluate: Evaluator, req: Request, r: DecisionResult)
    requires r.decision == Allow && r.ruleId == "" && r.reason == ""
    ensures MostSevere(evaluate, [], req, r)
  {
  }

  lemma {:induction false} VerdictsDoNotMatter(evaluate: Evaluator, rules: seq<Rule>, req: Request, r: DecisionResult, verdicts: seq<RuleVerdict>)
    requires MostSevere(evaluate, rules, req, r)
    ensures MostSevere(evaluate, rules, req, r.(verdicts := verdicts))
  {
    if r.decision != Allow {
      var i :| 0 <= i < |rules| && NamedBy(evaluate, rules, req, r, i);
      assert NamedBy(evaluate, rules, req, r.(verdicts := verdicts), i);
    }
  }

  function MaxAsked(evaluate: Evaluator, rules: seq<Rule>, req: Request): (d: Decision)
    ensures forall i :: 0 <= i < |rules| ==> Severity(Asks(evaluate, rules[i], req)) <= Severity(d)
    ensures d == Allow || exists i :: 0 <= i < |rules| && Asks(evaluate, rules[i], req) == d
  {
    if rules == [] then Allow
    else
      var init, last := rules[..|rules| - 1], rules[|rules| - 1];
      var d, a := MaxAsked(evaluate, init, req), Asks(evaluate, last, req);
      assert forall i :: 0 <= i < |init| ==> rules[i] == init[i];
      if Severity(a) > Severity(d) then a else d
  }

  /** The loop's decision is that maximum, so the order of the rules decides only whose name it carries. */
  lemma {:induction false} DecisionIsMax(evaluate: Evaluator, rules: seq<Rule>, req: Request, r: DecisionResult)
    requires MostSevere(evaluate, rules, req, r)
    ensures r.decision == MaxAsked(evaluate, rules, req)
  {
    var d := MaxAsked(evaluate, rules, req);
    if r.decision != Allow {
      var i :| 0 <= i < |rules| && NamedBy(evaluate, rules, req, r, i);
      assert Severity(r.decision) <= Severity(d);
    }
    assert Severity(d) <= Severity(r.decision);
  }

  lemma {:induction false} RulesForConcat(a: seq<Rule>, b: seq<Rule>, req: Request)
    ensures RulesFor(a + b, req) == RulesFor(a, req) + RulesFor(b, req)
  {
    hide Applies, RulesFor;
    if b == [] {
      NoneApply(req);
      assert a + b == a;
    } else {
      var init, last := b[..|b| - 1], b[|b| - 1];
      assert b == init + [last] && a + b == (a + init) + [last];
      RulesForConcat(a, init, req);
      RulesForLast(a + init, last, req);
      RulesForLast(init, last, req);
    }
  }

  lemma {:induction false} MaxOfConcat(evaluate: Evaluator, a: seq<Rule>, b: seq<Rule>, req: Request)
    ensures var x, y := MaxAsked(evaluate, a, req), MaxAsked(evaluate, b, req);
            MaxAsked(evaluate, a + b, req) == if Severity(y) > Severity(x) then y else x
  {
    hide Asks;
    if b == [] {
      assert a + b == a;
    } else {
      var init, last := b[..|b| - 1], b[|b| - 1];
      assert (a + b)[..|a + b| - 1] == a + init && (a + b)[|a + b| - 1] == last;
      MaxOfConcat(evaluate, a, init, req);
    }
  }

  /** Wherever it stands among the rules, an advisory, soft or disabled rule never changes the decision. */
  lemma {:induction false} AdvisoryNeverEscalates(evaluate: Evaluator, before: seq<Rule>, rule: Rule, after: seq<Rule>, req: Request)
    requires rule.mode == Advisory || rule.softFail || !rule.enabled
    ensures MaxAsked(evaluate, RulesFor(before + [rule] + after, req), req) == MaxAsked(evaluate, RulesFor(before + after, req), req)
  {
    var a, r, b := RulesFor(before, req), RulesFor([rule], req), RulesFor(after, req);
    RulesForConcat(before, [rule], req);
    RulesForConcat(before + [rule], after, req);
    RulesForConcat(before, after, req);
    MaxOfConcat(evaluate, a, r, req);
    MaxOfConcat(evaluate, a + r, b, req);
    MaxOfConcat(evaluate, a, b, req);
    SilentAlone(evaluate, rule, req);
  }

  lemma {:induction false} SilentAlone(evaluate: Evaluator, rule: Rule, req: Request)
    requires rule.mode == Advisory || rule.softFail || !rule.enabled
    ensures MaxAsked(evaluate, RulesFor([rule], req), req) == Allow
  {
    assert [rule][..0] == [];
    assert RulesFor([], req) == [] && [rule][..|[rule]| - 1] == [];
    assert RulesFor([rule], req) == [] || RulesFor([rule], req) == [rule];
  }
}
