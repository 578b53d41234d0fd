/** The recorder's gate client: ask for a verdict, poll a hold, or fall back. */
module EnforcementClient {
  import opened Wrappers
  import opened Decision
  import Holds

  /** What one HTTP exchange comes to: a decoded body, an HTTP failure, a body that does not decode,
      or a body of the wrong shape, on which the client raises something it does not catch. */
  datatype Reply<B> = Answer(body: B) | Transport | Undecodable | Crash

  datatype VerdictBody = VerdictBody(decision: string, reason: string, ruleId: string, policyVersion: string, holdId: Option<string>)

  datatype Verdict = Verdict(decision: Decision, reason: string, ruleId: string, policyVersion: string, holdId: Option<string>)

  datatype Config = Config(fallback: map<(string, string), string>, defaultMode: string, pollIntervalMs: nat, maxHoldWaitS: nat)

  /** What the gate hands back: a verdict, or an exception. */
  datatype Outcome = Final(verdict: Verdict) | Raised

  function MaxPolls(cfg: Config): (n: nat)
    ensures n >= 1
  {
    var n := cfg.maxHoldWaitS * 1000 / (if cfg.pollIntervalMs < 1 then 1 else cfg.pollIntervalMs);
    if n < 1 then 1 else n
  }

  function SpanTypeText(t: SpanType): string {
    match t case SideEffect => "side_effect" case HumanApproval => "human_approval" case OtherType(name) => name
  }

  /** An absent or empty action type leaves the span type as the class. */
  function ActionClass(req: Request): string {
    if req.actionType.Some? && req.actionType.value != "" then req.actionType.value else SpanTypeText(req.spanType)
  }

  function FallbackMode(cfg: Config, req: Request): string {
    var key := (req.customer, ActionClass(req));
    if key in cfg.fallback then cfg.fallback[key] else cfg.defaultMode
  }

  /** An unknown failure mode falls back to allow. */
  function FallbackDecision(mode: string): Decision {
    if mode == "fail_to_human" then HoldAction else if mode == "fail_closed" then Block else Allow
  }

  function FallbackVerdict(cfg: Config, req: Request): Verdict {
    Verdict(FallbackDecision(FallbackMode(cfg, req)), "verdict service unreachable; local fallback failure_mode=" + FallbackMode(cfg, req),
            "", "fallback", None)
  }

  /** An unknown decision string reads as allow. */
  function VerdictFrom(b: VerdictBody): Verdict {
    Verdict(if b.decision == "hold" then HoldAction else if b.decision == "block" then Block else Allow,
            b.reason, b.ruleId, b.policyVersion, b.holdId)
  }

  function ResolutionFrom(b: Holds.ResolutionBody, v: Verdict): Option<Verdict> {
    if b.status == "pending" || b.decision.None? || (b.decision.value != "allow" && b.decision.value != "block") then None
    else Some(v.(decision := if b.decision.value == "allow" then Allow else Block, reason := "hold " + b.status))
  }

  function AbortedVerdict(v: Verdict): Verdict {
    v.(decision := Block, reason := "hold wait exceeded")
  }

  /** The class under which the fallback table knows the span. */
  predicate ActsAs(req: Request, action: string) {
    match req.actionType
    case Some(a) => if |a| > 0 then action == a else OfType(req.spanType, action)
    case None => OfType(req.spanType, action)
  }

  predicate OfType(t: SpanType, name: string) {
    || (t == SideEffect && name == "side_effect")
    || (t == HumanApproval && name == "human_approval")
    || t == OtherType(name)
  }

  /** The table has this mode for the customer and the class, or has nothing for them and it is the default. */
  predicate TableSays(cfg: Config, customer: string, action: string, mode: string) {
    || ((customer, action) in cfg.fallback && cfg.fallback[(customer, action)] == mode)
    || ((customer, action) !in cfg.fallback && cfg.defaultMode == mode)
  }

  /** In an outage the table decides, for every span: one class and one mode apply, and the action is stopped exactly by the
      two modes that stop one. */
  lemma {:induction false} TableDecides(cfg: Config, req: Request, action: string, mode: string)
    ensures ActsAs(req, ActionClass(req)) && TableSays(cfg, req.customer, ActionClass(req), FallbackMode(cfg, req))
    ensures ActsAs(req, action) && TableSays(cfg, req.customer, action, mode) ==>
              var d := FallbackVerdict(cfg, req).decision;
              && mode == FallbackMode(cfg, req)
              && (d == Block <==> mode == "fail_closed") && (d == HoldAction <==> mode == "fail_to_human")
              && FallbackVerdict(cfg, req).reason == "verdict service unreachable; local fallback failure_mode=" + mode
  {
  }

  /** The budget is the number of whole intervals in the longest wait, but at least one poll; a zero interval counts as one
      millisecond. */
  lemma {:induction false} BudgetExactly(cfg: Config)
    ensures var n, wait := MaxPolls(cfg), cfg.maxHoldWaitS * 1000;
            var interval := if cfg.pollIntervalMs == 0 then 1 else cfg.pollIntervalMs;
            if wait < interval then n == 1 else n * interval <= wait < n * interval + interval
  {
    WholeParts(cfg.maxHoldWaitS * 1000, if cfg.pollIntervalMs == 0 then 1 else cfg.pollIntervalMs);
  }

  lemma {:induction false} WholeParts(n: nat, d: nat)
    requires d > 0
    ensures n / d * d <= n < n / d * d + d && (n / d < 1 <==> n < d)
  {
    assert n == n / d * d + n % d;
  }

  // ---- what a sequence of replies settles ----

  /** A poll after which the client keeps polling. */
  predicate Quiet(p: Reply<Holds.ResolutionBody>, v: Verdict) {
    p.Transport? || (p.Answer? && ResolutionFrom(p.body, v).None?)
  }

  /** The client keeps polling exactly on a transport failure, a pending hold, or a decision that is neither of the two. */
  lemma {:induction false} KeepsPollingExactlyWhen(p: Reply<Holds.ResolutionBody>, v: Verdict)
    ensures Quiet(p, v) <==>
              || p.Transport?
              || (p.Answer? && (p.body.status == "pending" || p.body.decision !in {Some("allow"), Some("block")}))
    ensures p.Answer? && !Quiet(p, v) ==>
              var r := ResolutionFrom(p.body, v).value;
              && (r.decision == Allow <==> p.body.decision == Some("allow")) && r.decision != HoldAction
              && r.reason == "hold " + p.body.status && r.ruleId == v.ruleId && r.policyVersion == v.policyVersion
  {
  }

  /** What a poll that is not quiet leads to. */
  function Ending(cfg: Config, req: Request, v: Verdict, p: Reply<Holds.ResolutionBody>): Outcome
    requires !Quiet(p, v)
  {
    match p
    case Answer(b) => Final(ResolutionFrom(b, v).value)
    case Undecodable => Final(FallbackVerdict(cfg, req))
    case Crash => Raised
  }

  /** The first poll that is not quiet decides, if it comes within the budget; None while the client still waits. */
  function Settled(cfg: Config, req: Request, v: Verdict, polls: seq<Reply<Holds.ResolutionBody>>, budget: nat): Option<Outcome> {
    if budget == 0 then Some(Final(AbortedVerdict(v)))
    else if polls == [] then None
    else if Quiet(polls[0], v) then Settled(cfg, req, v, polls[1..], budget - 1)
    else Some(Ending(cfg, req, v, polls[0]))
  }

  predicate MustPoll(v: Verdict) {
    v.decision == HoldAction && v.holdId.Some? && v.holdId.value != ""
  }

  function OutcomeOf(cfg: Config, req: Request, post: Reply<VerdictBody>, polls: seq<Reply<Holds.ResolutionBody>>): Option<Outcome> {
    match post
    case Transport => Some(Final(FallbackVerdict(cfg, req)))
    case Undecodable => Some(Final(FallbackVerdict(cfg, req)))
    case Crash => Some(Raised)
    case Answer(b) =>
      var v := VerdictFrom(b);
      if MustPoll(v) then Settled(cfg, req, v, polls, MaxPolls(cfg)) else Some(Final(v))
  }

  /** The polling loop: the i-th turn sees polls[i]. */
  method PollResolution(cfg: Config, req: Request, v: Verdict, polls: seq<Reply<Holds.ResolutionBody>>)
      returns (r: Result<Verdict, Reply<Holds.ResolutionBody>>)
    requires |polls| >= MaxPolls(cfg)
    ensures r.Ok? ==> Settled(cfg, req, v, polls, MaxPolls(cfg)) == Some(Final(r.value)) && r.value.decision in {Allow, Block}
    ensures r.Err? ==> r.error.Undecodable? || r.error.Crash?
    ensures r.Err? ==> Settled(cfg, req, v, polls, MaxPolls(cfg)) == Some(Ending(cfg, req, v, r.error))
  {
    assert polls[0..] == polls;
    for i := 0 to MaxPolls(cfg)
      invariant Settled(cfg, req, v, polls, MaxPolls(cfg)) == Settled(cfg, req, v, polls[i..], MaxPolls(cfg) - i)
    {
      assert polls[i..][0] == polls[i] && polls[i..][1..] == polls[i + 1..];
      match polls[i]
      case Answer(b) =>
        var resolved := ResolutionFrom(b, v);
        if resolved.Some? {
          return Ok(resolved.value);
        }
      case Transport =>
      case _ =>
        return Err(polls[i]);
    }
    r := Ok(AbortedVerdict(v));
  }

  method Evaluate(cfg: Config, req: Request, post: Reply<VerdictBody>, polls: seq<Reply<Holds.ResolutionBody>>)
      returns (r: Outcome)
    requires |polls| >= MaxPolls(cfg)
    ensures OutcomeOf(cfg, req, post, polls) == Some(r)
  {
    match post
    case Answer(b) =>
      var v := VerdictFrom(b);
      if v.decision == HoldAction && v.holdId.Some? && v.holdId.value != "" {
        var polled := PollResolution(cfg, req, v, polls);
        match polled
        case Ok(verdict) => return Final(verdict);
        case Err(failure) =>
          if failure.Undecodable? {
            return Final(FallbackVerdict(cfg, req));
          }
          return Raised;
      }
      return Final(v);
    case Crash => return Raised;
    case _ => return Final(FallbackVerdict(cfg, req));
  }

  /** Polling is bounded: once the budget of replies is in, there is an outcome, and if all were quiet it is block. */
  lemma {:induction false} SettlesInBudget(cfg: Config, req: Request, v: Verdict, polls: seq<Reply<Holds.ResolutionBody>>, budget: nat)
    ensures |polls| >= budget ==> Settled(cfg, req, v, polls, budget).Some?
    ensures |polls| >= budget && (forall p :: p in polls ==> Quiet(p, v)) ==>
              Settled(cfg, req, v, polls, budget) == Some(Final(AbortedVerdict(v)))
    ensures |polls| < budget && (forall p :: p in polls ==> Quiet(p, v)) ==> Settled(cfg, req, v, polls, budget).None?
  {
    if budget > 0 && polls != [] {
      assert polls == [polls[0]] + polls[1..];
      SettlesInBudget(cfg, req, v, polls[1..], budget - 1);
    }
  }

  /** Poll i is the first that is not quiet. */
  predicate FirstNoise(polls: seq<Reply<Holds.ResolutionBody>>, v: Verdict, i: int) {
    0 <= i < |polls| && !Quiet(polls[i], v) && forall j :: 0 <= j < i ==> Quiet(polls[j], v)
  }

  predicate AllQuiet(polls: seq<Reply<Holds.ResolutionBody>>, v: Verdict, n: nat) {
    n <= |polls| && forall j :: 0 <= j < n ==> Quiet(polls[j], v)
  }

  lemma {:induction false} NoiseInRest(polls: seq<Reply<Holds.ResolutionBody>>, v: Verdict, i: nat, k: nat)
    requires polls != [] && Quiet(polls[0], v) && i == k + 1
    ensures FirstNoise(polls, v, i) <==> FirstNoise(polls[1..], v, k)
    ensures AllQuiet(polls, v, i) <==> AllQuiet(polls[1..], v, k)
  {
    var rest := polls[1..];
    assert forall j :: 0 <= j < |rest| ==> rest[j] == polls[j + 1];
    assert forall j :: 1 <= j < |polls| ==> polls[j] == rest[j - 1];
  }

  /** Which poll decided: the first that is not quiet, if within the budget; block if the whole budget was quiet. */
  lemma {:induction false} SettledExactlyWhen(cfg: Config, req: Request, v: Verdict, polls: seq<Reply<Holds.ResolutionBody>>,
                                              budget: nat, o: Outcome)
    ensures Settled(cfg, req, v, polls, budget) == Some(o) <==>
              || (exists i :: i < budget && FirstNoise(polls, v, i) && Ending(cfg, req, v, polls[i]) == o)
              || (AllQuiet(polls, v, budget) && o == Final(v.(decision := Block, reason := "hold wait exceeded")))
  {
    if budget > 0 && polls != [] {
      if Quiet(polls[0], v) {
        var rest := polls[1..];
        SettledExactlyWhen(cfg, req, v, rest, budget - 1, o);
        NoiseInRest(polls, v, budget, budget - 1);
        if i :| i < budget && FirstNoise(polls, v, i) && Ending(cfg, req, v, polls[i]) == o {
          assert i > 0;
          NoiseInRest(polls, v, i, i - 1);
          assert rest[i - 1] == polls[i];
        }
        if k :| k < budget - 1 && FirstNoise(rest, v, k) && Ending(cfg, req, v, rest[k]) == o {
          NoiseInRest(polls, v, k + 1, k);
          assert rest[k] == polls[k + 1];
          assert FirstNoise(polls, v, k + 1);
        }
      } else {
        assert FirstNoise(polls, v, 0);
      }
    }
  }

  // ---- the gate in front of the host function ----

  predicate Gated(t: SpanType) {
    t.SideEffect? || t.HumanApproval?
  }

  /** The verdict the decorator sees: none without a gate or for other span types; an exception reads as allow. */
  function GateVerdict(registered: bool, t: SpanType, o: Outcome): Option<Verdict> {
    if !registered || !Gated(t) then None
    else if o.Raised? then Some(Verdict(Allow, "gate error: fail-open", "", "unknown", None))
    else Some(o.verdict)
  }

  predicate IsBlocking(v: Option<Verdict>) {
    v.Some? && v.value.decision != Allow
  }

  predicate Allows(o: Outcome) {
    o.Raised? || o.verdict.decision == Allow
  }

  /** The host function runs unless a registered gate stops a gated span that was really opened. */
  function HostRuns(spanOpened: bool, registered: bool, t: SpanType, o: Outcome): (runs: bool)
    ensures runs <==> !spanOpened || !registered || t !in {SideEffect, HumanApproval} || o.Raised? || o.verdict.decision == Allow
  {
    !spanOpened || !IsBlocking(GateVerdict(registered, t, o))
  }
}
