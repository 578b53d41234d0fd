/** Redaction policy: replacement strategies, rule lookups, and the floor under recognized personal data. */
module Redaction {
  import opened Wrappers

  /** A fingerprint is an arbitrary function of the value; without a key it fails. */
  datatype Strategy = Full | PassThrough | Hmac(fingerprint: string -> Option<string>)

  datatype Rule = Rule(target: string, strategy: string)

  datatype Policy = Policy(defaultStrategy: string, strategies: map<string, Strategy>, fieldRules: seq<Rule>, patternRules: seq<Rule>)

  const FLOOR := {"ssn", "routing_number", "account_number", "micr", "date_of_birth"}

  /** None is a raised RedactionError. */
  function Replace(s: Strategy, value: string, fieldType: string): Option<string> {
    match s
    case Full => Some("[REDACTED:" + fieldType + "]")
    case PassThrough => Some(value)
    case Hmac(fingerprint) =>
      var f := fingerprint(value);
      if f.None? then None else Some("[FP:" + f.value + ":" + fieldType + "]")
  }

  /** A name without a declared strategy raises. */
  function Resolve(p: Policy, name: string): Option<Strategy> {
    if name in p.strategies then Some(p.strategies[name]) else None
  }

  function FirstRule(rules: seq<Rule>, target: string): (r: Option<Rule>)
    ensures r.Some? ==> exists i :: 0 <= i < |rules| && rules[i] == r.value && r.value.target == target
                                    && forall j :: 0 <= j < i ==> rules[j].target != target
    ensures r.None? ==> forall i :: 0 <= i < |rules| ==> rules[i].target != target
  {
    if rules == [] then None
    else if rules[0].target == target then Some(rules[0])
    else
      var r := FirstRule(rules[1..], target);
      assert forall i :: 0 <= i < |rules| - 1 ==> rules[1..][i] == rules[i + 1];
      assert r.Some? ==> exists i :: 0 < i < |rules| && rules[1..][i - 1] == rules[i] == r.value
                                     && forall j :: 0 < j < i ==> rules[1..][j - 1] == rules[j] && rules[j].target != target;
      r
  }

  /** What the customer's own rules say, before the floor. */
  function Chosen(p: Policy, fieldType: string): Option<Strategy> {
    var r := FirstRule(p.patternRules, fieldType);
    Resolve(p, if r.Some? then r.value.strategy else p.defaultStrategy)
  }

  /** The strategy the policy names for the type: that of its first rule for it, or the default one. */
  ghost predicate NamesStrategy(p: Policy, fieldType: string, name: string) {
    || (exists i :: 0 <= i < |p.patternRules| && p.patternRules[i] == Rule(fieldType, name)
                    && forall j :: 0 <= j < i ==> p.patternRules[j].target != fieldType)
    || (name == p.defaultStrategy && forall rule :: rule in p.patternRules ==> rule.target != fieldType)
  }

  /** The named strategy, if it is declared; but for five types of personal data full redaction instead of passing through. */
  ghost predicate Applies(p: Policy, fieldType: string, name: string, s: Option<Strategy>) {
    if name !in p.strategies then s.None?
    else if p.strategies[name].PassThrough? && fieldType in {"ssn", "account_number", "routing_number", "date_of_birth", "micr"}
    then s == Some(Full)
    else s == Some(p.strategies[name])
  }

  lemma {:induction false} StrategyExactly(p: Policy, fieldType: string) returns (name: string)
    ensures NamesStrategy(p, fieldType, name) && Applies(p, fieldType, name, StrategyFor(p, fieldType))
  {
    var r := FirstRule(p.patternRules, fieldType);
    name := if r.Some? then r.value.strategy else p.defaultStrategy;
    if r.None? {
      forall rule | rule in p.patternRules ensures rule.target != fieldType {
        var i :| 0 <= i < |p.patternRules| && p.patternRules[i] == rule;
      }
    }
  }

  method StrategyForPattern(p: Policy, fieldType: string) returns (s: Option<Strategy>)
    ensures s == StrategyFor(p, fieldType)
    ensures exists name :: NamesStrategy(p, fieldType, name) && Applies(p, fieldType, name, s)
  {
    hide NamesStrategy, Applies;
    ghost var name := StrategyExactly(p, fieldType);
    var resolved: Option<Strategy>;
    var i := 0;
    while i < |p.patternRules| && p.patternRules[i].target != fieldType
      invariant 0 <= i <= |p.patternRules|
      invariant FirstRule(p.patternRules, fieldType) == FirstRule(p.patternRules[i..], fieldType)
    {
      i := i + 1;
    }
    resolved := Resolve(p, if i < |p.patternRules| then p.patternRules[i].strategy else p.defaultStrategy);
    if fieldType in FLOOR && resolved == Some(PassThrough) {
      return Some(Full);
    }
    s := resolved;
  }

  /** The floor: personal data is never passed through; everything else is as the customer chose. */
  function StrategyFor(p: Policy, fieldType: string): (s: Option<Strategy>)
    ensures fieldType in FLOOR ==> s != Some(PassThrough)
    ensures s != Chosen(p, fieldType) ==> fieldType in FLOOR && Chosen(p, fieldType) == Some(PassThrough) && s == Some(Full)
  {
    var chosen := Chosen(p, fieldType);
    if fieldType in FLOOR && chosen == Some(PassThrough) then Some(Full) else chosen
  }
}
