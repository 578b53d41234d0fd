/**
 Runs of recorder, verdict service, reviewer and timeout worker, in any interleaving.
 Each repository call is one atomic step; any reply may be lost or garbled on its way back.
 */
module GateRuns {
  import opened Wrappers
  import opened Decision
  import opened Holds
  import opened EnforcementClient

  /** One gated span's evaluation: what it asked, under which rules it was judged, and the replies so far. */
  datatype Call = Call(cfg: Config, req: Request, rules: RuleSet, post: Reply<VerdictBody>, polls: seq<Reply<ResolutionBody>>)

  datatype World = World(rules: RuleSet, holds: Queue, calls: map<nat, Call>)

  /** What becomes of a reply on its way to the client. */
  datatype Delivery = Intact | Lost | Garbled | Misshapen

  datatype Env = Env(evaluate: Evaluator, holdTimeout: nat)

  datatype Step =
    | Reloaded(rules: RuleSet)
    | Asked(call: nat, cfg: Config, req: Request, holdId: string, now: int, delivery: Delivery)
    | Unserved(call: nat, cfg: Config, req: Request, delivery: Delivery)
    | Polled(call: nat, delivery: Delivery)
    | Reviewed(holdId: string, decision: string, reviewer: Option<string>, approver: Option<string>, reason: string, now: int)
    | Expired(cutoff: int)

  function Arrives<B>(delivery: Delivery, body: B): Reply<B> {
    match delivery case Intact => Answer(body) case Lost => Transport case Garbled => Undecodable case Misshapen => Crash
  }

  function DecisionText(d: Decision): string {
    match d case Allow => "allow" case HoldAction => "hold" case Block => "block"
  }

  /** What the rules in force demand of the span. */
  function Demanded(env: Env, rules: RuleSet, req: Request): Decision {
    MaxAsked(env.evaluate, RulesFor(rules.rules, req), req)
  }

  predicate Legal(w: World, step: Step) {
    match step
    case Asked(call, _, _, holdId, _, _) => call !in w.calls && holdId !in w.holds && holdId != ""
    case Unserved(call, _, _, delivery) => call !in w.calls && delivery != Intact
    case Polled(call, _) => call in w.calls && StillPolling(w.calls[call])
    case _ => true
  }

  function Progress(c: Call): Option<Outcome> {
    OutcomeOf(c.cfg, c.req, c.post, c.polls)
  }

  predicate StillPolling(c: Call) {
    Progress(c).None? && c.post.Answer? && c.post.body.holdId.Some?
  }

  function SubjectOf(rules: RuleSet, req: Request, ruleId: string, reason: string): Subject {
    Subject(req.customer, req.trajectoryId, req.spanId, ruleId, rules.version,
            if req.actionType.Some? && req.actionType.value != "" then req.name + ":" + req.actionType.value else req.name, reason)
  }

  /** The rule that gives the decision its name: the first of the most severe. */
  function NamingRule(env: Env, rules: seq<Rule>, req: Request, d: Decision): Option<Rule> {
    if rules == [] then None
    else if Asks(env.evaluate, rules[0], req) == d then Some(rules[0])
    else NamingRule(env, rules[1..], req, d)
  }

  function BodyFor(env: Env, w: World, req: Request, holdId: string): VerdictBody {
    var d := Demanded(env, w.rules, req);
    var named := NamingRule(env, RulesFor(w.rules.rules, req), req, d);
    var source := if d == Allow then None else named;
    VerdictBody(DecisionText(d), if source.Some? then env.evaluate(source.value, req).reason else "",
                if source.Some? then source.value.id else "", w.rules.version, if d == HoldAction then Some(holdId) else None)
  }

  function PollBody(w: World, c: Call): Reply<ResolutionBody>
    requires c.post.Answer? && c.post.body.holdId.Some?
  {
    var id := c.post.body.holdId.value;
    if id in w.holds then Answer(ResolutionOf(w.holds[id])) else Transport
  }

  function Apply(env: Env, w: World, step: Step): World
    requires Legal(w, step)
  {
    match step
    case Reloaded(rules) => w.(rules := rules)
    case Asked(call, cfg, req, holdId, now, delivery) =>
      var body := BodyFor(env, w, req, holdId);
      var c := Call(cfg, req, w.rules, Arrives(delivery, body), []);
      if body.holdId.Some?
      then w.(calls := w.calls[call := c],
              holds := CreateStep(w.holds, holdId, SubjectOf(w.rules, req, body.ruleId, body.reason), now, env.holdTimeout))
      else w.(calls := w.calls[call := c])
    case Unserved(call, cfg, req, delivery) =>
      w.(calls := w.calls[call := Call(cfg, req, w.rules, Arrives(delivery, BodyFor(env, w, req, "")), [])])
    case Polled(call, delivery) =>
      var c := w.calls[call];
      var seen := PollBody(w, c);
      var reply := if seen.Answer? then Arrives(delivery, seen.body) else seen;
      w.(calls := w.calls[call := c.(polls := c.polls + [reply])])
    case Reviewed(id, decision, reviewer, approver, reason, now) =>
      w.(holds := ReviewStep(w.holds, id, decision, reviewer, approver, reason, now))
    case Expired(cutoff) => w.(holds := ExpireStep(w.holds, cutoff))
  }

  datatype Runs = Stuck | Reached(world: World)

  function Run(env: Env, start: World, steps: seq<Step>): Runs {
    if steps == [] then Reached(start)
    else
      var before := Run(env, start, steps[..|steps| - 1]);
      if before.Reached? && Legal(before.world, steps[|steps| - 1])
      then Reached(Apply(env, before.world, steps[|steps| - 1]))
      else Stuck
  }

  const EMPTY := World(RuleSet("none", []), map[], map[])

  // ---- the invariant ----

  /** A poll that spoke told the truth, and it is still true. */
  predicate PollTrue(h: Hold, p: Reply<ResolutionBody>) {
    p.Answer? ==>
      || p.body == ResolutionBody("pending", None)
      || (p.body == ResolutionOf(h) && h.status != Pending)
  }

  ghost predicate CallTrue(env: Env, holds: Queue, c: Call) {
    && (c.post.Answer? ==>
          var d := Demanded(env, c.rules, c.req);
          && c.post.body.decision == DecisionText(d)
          && (d == HoldAction <==> c.post.body.holdId.Some?))
    && (c.post.Answer? && c.post.body.holdId.Some? ==>
          var id := c.post.body.holdId.value;
          && id != "" && id in holds
          && holds[id].subject.spanId == c.req.spanId && holds[id].subject.trajectoryId == c.req.trajectoryId
          && holds[id].subject.customer == c.req.customer
          && forall p :: p in c.polls ==> PollTrue(holds[id], p))
    && (!(c.post.Answer? && c.post.body.holdId.Some?) ==> c.polls == [])
    && |c.polls| <= MaxPolls(c.cfg)
  }

  ghost predicate Inv(env: Env, w: World) {
    && (forall k :: k in w.calls ==> CallTrue(env, w.holds, w.calls[k]))
    && HoldsApart(w.calls)
  }

  ghost predicate HoldsApart(calls: map<nat, Call>) {
    forall j, k :: j in calls && k in calls && SameHold(calls[j], calls[k]) ==> j == k
  }

  /** No two calls wait on one hold. */
  predicate SameHold(a: Call, b: Call) {
    a.post.Answer? && b.post.Answer? && a.post.body.holdId.Some? && a.post.body.holdId == b.post.body.holdId
  }

  lemma {:induction false} StepSettles(env: Env, w: World, step: Step)
    requires Legal(w, step)
    ensures Settles(w.holds, Apply(env, w, step).holds)
  {
    match step
    case Reviewed(id, decision, reviewer, approver, reason, now) =>
      ReviewSettles(w.holds, id, decision, reviewer, approver, reason, now);
    case Expired(cutoff) => ExpireSettles(w.holds, cutoff);
    case _ =>
  }

  lemma {:induction false} CallStaysTrue(env: Env, before: Queue, after: Queue, c: Call)
    requires CallTrue(env, before, c) && Settles(before, after)
    ensures CallTrue(env, after, c)
  {
    hide Demanded;
  }

  lemma {:induction false} AskedCallTrue(env: Env, w: World, call: nat, cfg: Config, req: Request, holdId: string, now: int, delivery: Delivery)
    requires Legal(w, Asked(call, cfg, req, holdId, now, delivery))
    ensures var w' := Apply(env, w, Asked(call, cfg, req, holdId, now, delivery)); CallTrue(env, w'.holds, w'.calls[call])
  {
    hide Demanded, NamingRule;
  }

  lemma {:induction false} PolledCallTrue(env: Env, w: World, call: nat, delivery: Delivery)
    requires Inv(env, w) && Legal(w, Polled(call, delivery))
    ensures var w' := Apply(env, w, Polled(call, delivery)); CallTrue(env, w'.holds, w'.calls[call])
  {
    hide Demanded, NamingRule;
    var c := w.calls[call];
    var v := VerdictFrom(c.post.body);
    assert CallTrue(env, w.holds, c);
    SettlesInBudget(c.cfg, c.req, v, c.polls, MaxPolls(c.cfg));
  }

  lemma {:induction false} TouchedCallTrue(env: Env, w: World, step: Step, k: nat)
    requires Inv(env, w) && Legal(w, step)
    requires var w' := Apply(env, w, step); k in w'.calls && !(k in w.calls && w.calls[k] == w'.calls[k])
    ensures var w' := Apply(env, w, step); CallTrue(env, w'.holds, w'.calls[k])
  {
    hide Demanded, NamingRule, CallTrue, Inv;
    match step
    case Asked(call, cfg, req, holdId, now, delivery) => AskedCallTrue(env, w, call, cfg, req, holdId, now, delivery);
    case Polled(call, delivery) => PolledCallTrue(env, w, call, delivery);
    case Unserved(call, cfg, req, delivery) => UnservedCallTrue(env, Apply(env, w, step), call);
    case _ =>
  }

  lemma {:induction false} StepKeepsInv(env: Env, w: World, step: Step)
    requires Inv(env, w) && Legal(w, step)
    ensures Inv(env, Apply(env, w, step))
  {
    hide Demanded, NamingRule, CallTrue, HoldsApart;
    var w' := Apply(env, w, step);
    StepSettles(env, w, step);
    forall k | k in w'.calls ensures CallTrue(env, w'.holds, w'.calls[k]) {
      if k in w.calls && w.calls[k] == w'.calls[k] {
        CallStaysTrue(env, w.holds, w'.holds, w.calls[k]);
      } else {
        TouchedCallTrue(env, w, step, k);
      }
    }
    HoldsStayApart(env, w, step);
  }

  lemma {:induction false} HoldsStayApart(env: Env, w: World, step: Step)
    requires Inv(env, w) && Legal(w, step)
    ensures HoldsApart(Apply(env, w, step).calls)
  {
    hide Demanded, NamingRule, CallTrue;
    match step
    case Asked(call, cfg, req, holdId, now, delivery) => AskedHoldIsNew(env, w, step);
    case Polled(call, delivery) => PolledHoldsApart(env, w, step);
    case _ =>
  }

  lemma {:induction false} AskedHoldIsNew(env: Env, w: World, step: Step)
    requires Inv(env, w) && Legal(w, step) && step.Asked?
    ensures HoldsApart(Apply(env, w, step).calls)
  {
    hide Demanded, NamingRule, CallTrue;
    var calls := Apply(env, w, step).calls;
    assert calls[step.call].post.Answer? ==> calls[step.call].post.body == BodyFor(env, w, step.req, step.holdId);
    assert forall m :: m in w.calls ==> calls[m] == w.calls[m];
    forall j, k | j in calls && k in calls && SameHold(calls[j], calls[k]) ensures j == k {
      HoldKnown(env, w, j);
      HoldKnown(env, w, k);
    }
  }

  lemma {:induction false} PolledHoldsApart(env: Env, w: World, step: Step)
    requires Inv(env, w) && Legal(w, step) && step.Polled?
    ensures HoldsApart(Apply(env, w, step).calls)
  {
    hide Demanded, NamingRule, CallTrue, PollBody;
    var calls := Apply(env, w, step).calls;
    assert forall m :: m in calls ==> m in w.calls && calls[m].post == w.calls[m].post;
    forall j, k | j in calls && k in calls && SameHold(calls[j], calls[k]) ensures j == k {
      assert SameHold(w.calls[j], w.calls[k]);
    }
  }

  lemma {:induction false} UnservedCallTrue(env: Env, w: World, call: nat)
    requires call in w.calls && !w.calls[call].post.Answer? && w.calls[call].polls == []
    ensures CallTrue(env, w.holds, w.calls[call])
  {
  }

  lemma {:induction false} HoldKnown(env: Env, w: World, k: nat)
    requires Inv(env, w)
    ensures k in w.calls && w.calls[k].post.Answer? && w.calls[k].post.body.holdId.Some? ==>
              w.calls[k].post.body.holdId.value in w.holds
  {
    if k in w.calls {
      assert CallTrue(env, w.holds, w.calls[k]);
    }
  }

  lemma {:induction false} EveryRunKeepsInv(env: Env, steps: seq<Step>)
    requires Run(env, EMPTY, steps).Reached?
    ensures Inv(env, Run(env, EMPTY, steps).world)
  {
    hide Inv, Legal;
    if steps == [] {
      assert Inv(env, EMPTY) by { EmptyInv(env); }
    } else {
      var init := steps[..|steps| - 1];
      EveryRunKeepsInv(env, init);
      StepKeepsInv(env, Run(env, EMPTY, init).world, steps[|steps| - 1]);
    }
  }

  lemma {:induction false} EmptyInv(env: Env)
    ensures Inv(env, EMPTY)
  {
  }

  /** A hold leaves pending at most once and never changes again, whatever follows. */
  lemma {:induction false} SettledHoldsNeverChange(env: Env, start: World, steps: seq<Step>)
    requires Run(env, start, steps).Reached?
    ensures Settles(start.holds, Run(env, start, steps).world.holds)
  {
    if steps != [] {
      var init := steps[..|steps| - 1];
      SettledHoldsNeverChange(env, start, init);
      var w := Run(env, start, init).world;
      StepSettles(env, w, steps[|steps| - 1]);
      SettlesTransitive(start.holds, w.holds, Apply(env, w, steps[|steps| - 1]).holds);
    }
  }

  /** A poll can happen exactly while the call has no outcome, whatever becomes of the reply. */
  lemma {:induction false} PollsExactlyWhen(w: World, k: nat, delivery: Delivery)
    ensures Legal(w, Polled(k, delivery)) <==> k in w.calls && Progress(w.calls[k]) == None
  {
  }

  /** What a review step does to the queue, and that it does nothing else. */
  lemma {:induction false} ReviewedExactly(env: Env, w: World, step: Step, id: string)
    requires step.Reviewed? && id in w.holds
    ensures var w' := Apply(env, w, step);
            && w'.rules == w.rules && w'.calls == w.calls && w'.holds.Keys == w.holds.Keys
            && var reviewed := step.holdId == id && w.holds[id].status == Pending && step.decision in {"approved", "rejected"}
                               && (step.reviewer.Some? ==> step.reviewer.value == w.holds[id].subject.customer);
            && (reviewed ==> w'.holds[id].status == (if step.decision == "approved" then Approved else Rejected)
                             && w'.holds[id].approver == step.approver && w'.holds[id].resolvedAt == Some(step.now))
            && (!reviewed ==> w'.holds[id] == w.holds[id])
  {
  }

  /** What an expiry step does to the queue, and that it does nothing else. */
  lemma {:induction false} ExpiredExactly(env: Env, w: World, cutoff: int, id: string)
    requires id in w.holds
    ensures var w' := Apply(env, w, Expired(cutoff));
            && w'.rules == w.rules && w'.calls == w.calls && w'.holds.Keys == w.holds.Keys
            && var due := w.holds[id].status == Pending && w.holds[id].expiresAt <= cutoff;
            && (due ==> w'.holds[id].status == TimedOut)
            && (!due ==> w'.holds[id] == w.holds[id])
  {
  }

  // ---- when the host function can run ----

  /** Some hard, blocking rule about such spans failed that fails closed. */
  ghost predicate RulesBlocked(env: Env, c: Call) {
    SomeFailed(env.evaluate, c.rules.rules, c.req, FailClosed)
  }

  /** None of those failed, but one that fails to a human. */
  ghost predicate RulesHeld(env: Env, c: Call) {
    !RulesBlocked(env, c) && SomeFailed(env.evaluate, c.rules.rules, c.req, FailToHuman)
  }

  /** The verdict arrived and no rule of either kind failed. */
  ghost predicate RulesAllowed(env: Env, c: Call) {
    c.post.Answer? && !RulesBlocked(env, c) && !RulesHeld(env, c)
  }

  /** What the rules demand, read off the rules. */
  lemma {:induction false} DemandedExactlyWhen(env: Env, c: Call)
    ensures var d := Demanded(env, c.rules, c.req);
            && (d == Block <==> RulesBlocked(env, c)) && (d == HoldAction <==> RulesHeld(env, c))
  {
    MaxDecides(env.evaluate, c.rules.rules, c.req);
  }

  /** The hold of this call stands approved. */
  ghost predicate HoldApproved(env: Env, holds: Queue, c: Call) {
    c.post.Answer? && RulesHeld(env, c) && c.post.body.holdId.Some?
    && c.post.body.holdId.value in holds && holds[c.post.body.holdId.value].status == Approved
  }

  /** The fallback table says neither of the modes that stop an action. */
  ghost predicate FallbackOpen(c: Call) {
    exists action, mode :: ActsAs(c.req, action) && TableSays(c.cfg, c.req.customer, action, mode)
                           && mode !in {"fail_closed", "fail_to_human"}
  }

  lemma {:induction false} FallbackOpenExactlyWhen(c: Call)
    ensures FallbackOpen(c) <==> FallbackVerdict(c.cfg, c.req).decision == Allow
  {
    hide ActsAs, TableSays, FallbackVerdict;
    TableDecides(c.cfg, c.req, ActionClass(c.req), FallbackMode(c.cfg, c.req));
    if action, mode :| ActsAs(c.req, action) && TableSays(c.cfg, c.req.customer, action, mode)
                       && mode !in {"fail_closed", "fail_to_human"} {
      TableDecides(c.cfg, c.req, action, mode);
    }
  }

  /** The verdict request failed or did not decode, or a poll of the hold did not decode. */
  predicate FellBack(c: Call) {
    c.post.Transport? || c.post.Undecodable? || (c.post.Answer? && exists p :: p in c.polls && p.Undecodable?)
  }

  predicate GateFailed(c: Call) {
    c.post.Crash? || (c.post.Answer? && exists p :: p in c.polls && p.Crash?)
  }

  /** The host function runs only if the rules allowed it, its own hold stands approved, the fallback table left
      it open, or the client itself broke. */
  lemma {:induction false} AllowedOnlyIf(env: Env, w: World, k: nat)
    requires Inv(env, w) && k in w.calls && Progress(w.calls[k]).Some? && Allows(Progress(w.calls[k]).value)
    ensures var c := w.calls[k];
            RulesAllowed(env, c) || HoldApproved(env, w.holds, c) || (FellBack(c) && FallbackOpen(c)) || GateFailed(c)
  {
    hide Demanded, NamingRule, Settled, RulesBlocked, RulesHeld, FallbackOpen, FallbackVerdict;
    var c := w.calls[k];
    FallbackOpenExactlyWhen(c);
    DemandedExactlyWhen(env, c);
    assert CallTrue(env, w.holds, c);
    if c.post.Answer? && MustPoll(VerdictFrom(c.post.body)) {
      var v, o := VerdictFrom(c.post.body), Progress(c).value;
      SettledExactlyWhen(c.cfg, c.req, v, c.polls, MaxPolls(c.cfg), o);
      var i :| 0 <= i < |c.polls| && FirstNoise(c.polls, v, i) && Ending(c.cfg, c.req, v, c.polls[i]) == o;
      assert c.polls[i] in c.polls;
      NoiseMeans(env, w.holds, c, v, c.polls[i]);
    }
  }

  /** What an allowing poll tells about the hold as it stands. */
  lemma {:induction false} NoiseMeans(env: Env, holds: Queue, c: Call, v: Verdict, p: Reply<ResolutionBody>)
    requires c.post.Answer? && c.post.body.holdId.Some? && c.post.body.holdId.value in holds
    requires PollTrue(holds[c.post.body.holdId.value], p) && !Quiet(p, v) && Allows(Ending(c.cfg, c.req, v, p))
    ensures p.Crash? || (p.Undecodable? && FallbackOpen(c)) || holds[c.post.body.holdId.value].status == Approved
  {
    hide FallbackOpen, FallbackVerdict;
    FallbackOpenExactlyWhen(c);
  }

  /** The same over whole runs, for the function behind the gate. */
  lemma {:induction false} GatedFunctionRunsOnlyIf(env: Env, steps: seq<Step>, k: nat)
    requires Run(env, EMPTY, steps).Reached?
    requires var w := Run(env, EMPTY, steps).world;
             k in w.calls && Progress(w.calls[k]).Some? && w.calls[k].req.spanType in {SideEffect, HumanApproval}
             && HostRuns(true, true, w.calls[k].req.spanType, Progress(w.calls[k]).value)
    ensures var w := Run(env, EMPTY, steps).world;
            var c := w.calls[k];
            RulesAllowed(env, c) || HoldApproved(env, w.holds, c) || (FellBack(c) && FallbackOpen(c)) || GateFailed(c)
  {
    hide Run, Inv, Demanded, Progress;
    EveryRunKeepsInv(env, steps);
    AllowedOnlyIf(env, Run(env, EMPTY, steps).world, k);
  }

  /** No call polls past its budget, and at the budget it has its verdict. */
  lemma {:induction false} PollingEnds(env: Env, steps: seq<Step>, k: nat)
    requires Run(env, EMPTY, steps).Reached? && k in Run(env, EMPTY, steps).world.calls
    ensures var c := Run(env, EMPTY, steps).world.calls[k];
            |c.polls| <= MaxPolls(c.cfg) && (|c.polls| == MaxPolls(c.cfg) ==> Progress(c).Some?)
  {
    hide Run, Demanded;
    EveryRunKeepsInv(env, steps);
    var w := Run(env, EMPTY, steps).world;
    var c := w.calls[k];
    assert CallTrue(env, w.holds, c);
    if c.post.Answer? {
      SettlesInBudget(c.cfg, c.req, VerdictFrom(c.post.body), c.polls, MaxPolls(c.cfg));
    }
  }

  /** With a table that never fails open, only the rules, an approval or a broken client let an action run. */
  lemma {:induction false} ClosedFallbackNeverOpens(env: Env, w: World, k: nat)
    requires Inv(env, w) && k in w.calls && Progress(w.calls[k]).Some? && Allows(Progress(w.calls[k]).value)
    requires var cfg := w.calls[k].cfg; var stops := {"fail_closed", "fail_to_human"};
             cfg.defaultMode in stops && forall key :: key in cfg.fallback ==> cfg.fallback[key] in stops
    ensures var c := w.calls[k]; RulesAllowed(env, c) || HoldApproved(env, w.holds, c) || GateFailed(c)
  {
    hide Inv, Progress, RulesAllowed, HoldApproved, FellBack, GateFailed;
    AllowedOnlyIf(env, w, k);
  }

  /** What the verdict request alone decides: allowing rules and a crash let the action run, blocking rules stop it,
      and an outage does what the fallback table says. */
  lemma {:induction false} AllowedIf(env: Env, w: World, k: nat)
    requires Inv(env, w) && k in w.calls
    ensures var c := w.calls[k];
            && (RulesAllowed(env, c) || c.post.Crash? ==> Progress(c).Some? && Allows(Progress(c).value))
            && ((c.post.Transport? || c.post.Undecodable?) ==>
                  Progress(c).Some? && (Allows(Progress(c).value) <==> FallbackOpen(c)))
            && (c.post.Answer? && RulesBlocked(env, c) ==> Progress(c).Some? && !Allows(Progress(c).value))
  {
    hide Demanded, NamingRule, Settled, RulesBlocked, RulesHeld, FallbackOpen, FallbackVerdict;
    FallbackOpenExactlyWhen(w.calls[k]);
    DemandedExactlyWhen(env, w.calls[k]);
    assert CallTrue(env, w.holds, w.calls[k]);
  }

  /** A waiting call with an approved hold is let through by its next intact poll; with a settled other hold it is stopped. */
  lemma {:induction false} NextPollDecides(env: Env, w: World, k: nat)
    requires Inv(env, w) && Legal(w, Polled(k, Intact))
    ensures var id := w.calls[k].post.body.holdId.value;
            id in w.holds && w.holds[id].status != Pending ==>
              var p := Progress(Apply(env, w, Polled(k, Intact)).calls[k]);
              p.Some? && (Allows(p.value) <==> w.holds[id].status == Approved)
  {
    hide Demanded, NamingRule;
    var c := w.calls[k];
    assert CallTrue(env, w.holds, c);
    var id, v := c.post.body.holdId.value, VerdictFrom(c.post.body);
    if id in w.holds && w.holds[id].status != Pending {
      SettledByNext(c.cfg, c.req, v, c.polls, Answer(ResolutionOf(w.holds[id])), MaxPolls(c.cfg));
    }
  }

  /** A span that the rules hand to a human, and the human's word on it. */
  function HumanCase(rules: RuleSet, cfg: Config, req: Request, holdId: string, now: int, decision: string,
                     approver: Option<string>, reason: string, later: int): seq<Step>
  {
    [Reloaded(rules), Asked(0, cfg, req, holdId, now, Intact),
     Reviewed(holdId, decision, Some(req.customer), approver, reason, later), Polled(0, Intact)]
  }

  lemma {:induction false} RunGoesOn(env: Env, steps: seq<Step>, step: Step)
    requires Run(env, EMPTY, steps).Reached? && Legal(Run(env, EMPTY, steps).world, step)
    ensures Run(env, EMPTY, steps + [step]) == Reached(Apply(env, Run(env, EMPTY, steps).world, step))
  {
    assert (steps + [step])[..|steps|] == steps;
  }

  /** Whatever the rules, the timing and the client's settings: a span held for a human, asked for, reviewed and polled once is
      decided, and its action runs exactly if the human approved. */
  lemma {:induction false} HumanDecides(env: Env, rules: RuleSet, cfg: Config, req: Request, holdId: string, now: int,
                                        decision: string, approver: Option<string>, reason: string, later: int)
    requires holdId != "" && decision in {"approved", "rejected"}
    requires !SomeFailed(env.evaluate, rules.rules, req, FailClosed) && SomeFailed(env.evaluate, rules.rules, req, FailToHuman)
    ensures var run := Run(env, EMPTY, HumanCase(rules, cfg, req, holdId, now, decision, approver, reason, later));
            && run.Reached? && 0 in run.world.calls
            && var o := Progress(run.world.calls[0]); o.Some? && (Allows(o.value) <==> decision == "approved")
  {
    hide Run, Apply, Inv, Progress, SomeFailed, Legal;
    var loaded, asked := Reloaded(rules), Asked(0, cfg, req, holdId, now, Intact);
    var reviewed, polled := Reviewed(holdId, decision, Some(req.customer), approver, reason, later), Polled(0, Intact);
    assert Run(env, EMPTY, []) == Reached(EMPTY) by { NothingRun(env); }
    assert [] + [loaded] == [loaded] && [loaded] + [asked] == [loaded, asked];
    assert [loaded, asked] + [reviewed] == [loaded, asked, reviewed];
    assert HumanCase(rules, cfg, req, holdId, now, decision, approver, reason, later) == [loaded, asked, reviewed] + [polled];
    FirstSteps(env, rules, cfg, req, holdId, now, reviewed);
    RunGoesOn(env, [], loaded);
    RunGoesOn(env, [loaded], asked);
    var held := Run(env, EMPTY, [loaded, asked]).world;
    AskedIsHeld(env, Apply(env, EMPTY, loaded), cfg, req, holdId, now);
    ReviewedExactly(env, held, reviewed, holdId);
    assert Legal(held, reviewed) by { ReviewIsLegal(held, reviewed); }
    RunGoesOn(env, [loaded, asked], reviewed);
    var w := Run(env, EMPTY, [loaded, asked, reviewed]).world;
    PollsExactlyWhen(w, 0, Intact);
    EveryRunKeepsInv(env, [loaded, asked, reviewed]);
    NextPollDecides(env, w, 0);
    RunGoesOn(env, [loaded, asked, reviewed], polled);
    PolledCallStays(env, w, 0);
  }

  lemma {:induction false} ReviewIsLegal(w: World, step: Step)
    requires step.Reviewed?
    ensures Legal(w, step)
  {
  }

  lemma {:induction false} PolledCallStays(env: Env, w: World, k: nat)
    requires Legal(w, Polled(k, Intact))
    ensures k in Apply(env, w, Polled(k, Intact)).calls
  {
  }

  lemma {:induction false} FirstSteps(env: Env, rules: RuleSet, cfg: Config, req: Request, holdId: string, now: int, reviewed: Step)
    requires holdId != ""
    ensures Legal(EMPTY, Reloaded(rules))
    ensures var w := Apply(env, EMPTY, Reloaded(rules));
            w.rules == rules && Legal(w, Asked(0, cfg, req, holdId, now, Intact))
  {
  }

  lemma {:induction false} AskedIsHeld(env: Env, w: World, cfg: Config, req: Request, holdId: string, now: int)
    requires Legal(w, Asked(0, cfg, req, holdId, now, Intact))
    requires !SomeFailed(env.evaluate, w.rules.rules, req, FailClosed) && SomeFailed(env.evaluate, w.rules.rules, req, FailToHuman)
    ensures var w' := Apply(env, w, Asked(0, cfg, req, holdId, now, Intact));
            && 0 in w'.calls && Progress(w'.calls[0]) == None
            && w'.calls[0].post.Answer? && w'.calls[0].post.body.holdId == Some(holdId)
            && holdId in w'.holds && w'.holds[holdId].status == Pending && w'.holds[holdId].subject.customer == req.customer
  {
    hide Demanded, NamingRule, SomeFailed;
    assert Demanded(env, w.rules, req) == HoldAction by { DemandIsMax(env, w.rules, req); }
  }

  lemma {:induction false} DemandIsMax(env: Env, rules: RuleSet, req: Request)
    ensures Decides(env.evaluate, rules.rules, req, Demanded(env, rules, req))
  {
    MaxDecides(env.evaluate, rules.rules, req);
  }

  lemma {:induction false} NothingRun(env: Env)
    ensures Run(env, EMPTY, []) == Reached(EMPTY)
  {
  }

  /** A bad body ends the wait whatever the hold says: one that does not decode leaves it to the fallback table, one of
      the wrong shape lets the action run. */
  lemma {:induction false} BadPollDecides(env: Env, w: World, k: nat)
    requires Inv(env, w) && Legal(w, Polled(k, Garbled))
    ensures Legal(w, Polled(k, Misshapen))
    ensures var c := w.calls[k];
            var garbled, misshapen := Progress(Apply(env, w, Polled(k, Garbled)).calls[k]), Progress(Apply(env, w, Polled(k, Misshapen)).calls[k]);
            && garbled.Some? && (Allows(garbled.value) <==> FallbackOpen(c))
            && misshapen.Some? && Allows(misshapen.value)
  {
    hide Demanded, NamingRule, Settled, RulesBlocked, RulesHeld, FallbackOpen, FallbackVerdict;
    var c := w.calls[k];
    FallbackOpenExactlyWhen(c);
    DemandedExactlyWhen(env, c);
    assert CallTrue(env, w.holds, c);
    var v := VerdictFrom(c.post.body);
    SettledByNext(c.cfg, c.req, v, c.polls, Undecodable, MaxPolls(c.cfg));
    SettledByNext(c.cfg, c.req, v, c.polls, Crash, MaxPolls(c.cfg));
  }

  /** The deciding poll of a waiting call lets the action run: it saw the approval, or it was a bad body and opened. */
  ghost predicate PollAllows(c: Call) {
    c.post.Answer? && MustPoll(VerdictFrom(c.post.body)) &&
    exists i :: i < MaxPolls(c.cfg) && FirstNoise(c.polls, VerdictFrom(c.post.body), i) && OpeningPoll(c, c.polls[i])
  }

  ghost predicate OpeningPoll(c: Call, p: Reply<ResolutionBody>) {
    match p
    case Answer(body) => body == ResolutionBody("approved", Some("allow"))
    case Undecodable => FallbackOpen(c)
    case Crash => true
    case Transport => false
  }

  /** Exactly when a finished evaluation lets the action run. */
  lemma {:induction false} AllowedExactlyWhen(env: Env, w: World, k: nat)
    requires Inv(env, w) && k in w.calls && Progress(w.calls[k]).Some?
    ensures var c := w.calls[k];
            Allows(Progress(c).value) <==>
              || RulesAllowed(env, c) || c.post.Crash?
              || ((c.post.Transport? || c.post.Undecodable?) && FallbackOpen(c))
              || PollAllows(c)
  {
    hide Demanded, NamingRule, Settled, RulesBlocked, RulesHeld, FallbackOpen, FallbackVerdict;
    var c := w.calls[k];
    FallbackOpenExactlyWhen(c);
    DemandedExactlyWhen(env, c);
    assert CallTrue(env, w.holds, c);
    if c.post.Answer? && MustPoll(VerdictFrom(c.post.body)) {
      var v, o := VerdictFrom(c.post.body), Progress(c).value;
      SettledExactlyWhen(c.cfg, c.req, v, c.polls, MaxPolls(c.cfg), o);
      forall i | FirstNoise(c.polls, v, i)
        ensures Allows(Ending(c.cfg, c.req, v, c.polls[i])) <==> OpeningPoll(c, c.polls[i])
      {
        assert c.polls[i] in c.polls;
        OpeningMeans(w.holds[c.post.body.holdId.value], c, v, c.polls[i]);
      }
      forall i, j | FirstNoise(c.polls, v, i) && FirstNoise(c.polls, v, j) ensures i == j {
      }
    }
  }

  lemma {:induction false} OpeningMeans(h: Hold, c: Call, v: Verdict, p: Reply<ResolutionBody>)
    requires PollTrue(h, p) && !Quiet(p, v)
    ensures Allows(Ending(c.cfg, c.req, v, p)) <==> OpeningPoll(c, p)
  {
    hide FallbackOpen, FallbackVerdict;
    FallbackOpenExactlyWhen(c);
  }

  lemma {:induction false} SettledByNext(cfg: Config, req: Request, v: Verdict, polls: seq<Reply<ResolutionBody>>,
                                         p: Reply<ResolutionBody>, budget: nat)
    requires Settled(cfg, req, v, polls, budget).None? && !Quiet(p, v)
    ensures Settled(cfg, req, v, polls + [p], budget) == Some(Ending(cfg, req, v, p))
  {
    if polls != [] {
      assert (polls + [p])[1..] == polls[1..] + [p];
      SettledByNext(cfg, req, v, polls[1..], p, budget - 1);
    }
  }

  // ---- the service's own code ----

  lemma {:induction false} NamedIsNaming(env: Env, rules: seq<Rule>, req: Request, r: DecisionResult, i: nat)
    requires i < |rules| && NamedBy(env.evaluate, rules, req, r, i)
    ensures NamingRule(env, rules, req, r.decision) == Some(rules[i])
  {
    if i > 0 {
      assert Severity(Asks(env.evaluate, rules[0], req)) < Severity(r.decision);
      assert forall j :: 0 <= j < |rules| - 1 ==> rules[1..][j] == rules[j + 1];
      NamedIsNaming(env, rules[1..], req, r, i - 1);
    }
  }

  lemma {:induction false} NamedAsDecided(env: Env, rules: RuleSet, req: Request, r: DecisionResult)
    requires MostSevere(env.evaluate, RulesFor(rules.rules, req), req, r)
    ensures r.decision == Demanded(env, rules, req)
    ensures r.decision == Allow ==> r.ruleId == "" && r.reason == ""
    ensures r.decision != Allow ==>
              var named := NamingRule(env, RulesFor(rules.rules, req), req, r.decision);
              named.Some? && r.ruleId == named.value.id && r.reason == env.evaluate(named.value, req).reason
  {
    hide RulesFor, Asks, MaxAsked, NamingRule;
    var applicable := RulesFor(rules.rules, req);
    DecisionIsMax(env.evaluate, applicable, req, r);
    if r.decision != Allow {
      var i: nat :| 0 <= i < |applicable| && NamedBy(env.evaluate, applicable, req, r, i);
      NamedIsNaming(env, applicable, req, r, i);
    }
  }

  /** The body says what the rules decide, and names the rule that decided. */
  ghost predicate SaysWhatRulesDecide(env: Env, rules: RuleSet, req: Request, body: VerdictBody) {
    var blocked := SomeFailed(env.evaluate, rules.rules, req, FailClosed);
    var held := !blocked && SomeFailed(env.evaluate, rules.rules, req, FailToHuman);
    && body.decision == (if blocked then "block" else if held then "hold" else "allow")
    && Names(env.evaluate, rules.rules, req, if blocked then Block else if held then HoldAction else Allow, body.ruleId, body.reason)
  }

  lemma {:induction false} DecisionSaid(env: Env, rules: RuleSet, req: Request, r: DecisionResult)
    requires Decides(env.evaluate, rules.rules, req, r.decision)
    requires Names(env.evaluate, rules.rules, req, r.decision, r.ruleId, r.reason)
    ensures forall body: VerdictBody ::
              body.decision == DecisionText(r.decision) && body.ruleId == r.ruleId && body.reason == r.reason ==>
                SaysWhatRulesDecide(env, rules, req, body)
  {
    hide SomeFailed, Names;
  }

  /** A pending hold on this very span, under the deciding rule. */
  predicate OpensHold(rules: RuleSet, req: Request, body: VerdictBody, h: Hold, now: int, timeout: nat) {
    && h.status == Pending && h.createdAt == now && h.expiresAt - now == timeout && h.resolvedAt.None? && h.approver.None?
    && h.subject.customer == req.customer && h.subject.trajectoryId == req.trajectoryId && h.subject.spanId == req.spanId
    && h.subject.ruleId == body.ruleId && h.subject.policyVersion == rules.version && h.subject.reason == body.reason
    && h.subject.proposedAction
       == match req.actionType
          case Some(action) => if |action| > 0 then req.name + ":" + action else req.name
          case None => req.name
  }

  /** The verdict route: decide, and for a hold create its record. Its body and queue are those of the run's step. */
  method ServeVerdict(env: Env, rules: RuleSet, queue: HoldQueue, req: Request, holdId: string, now: int) returns (body: VerdictBody)
    requires holdId !in queue.holds
    modifies queue
    ensures var w := World(rules, old(queue.holds), map[]);
            && body == BodyFor(env, w, req, holdId)
            && (holdId != "" ==> queue.holds == Apply(env, w, Asked(0, Config(map[], "", 0, 0), req, holdId, now, Intact)).holds)
    ensures SaysWhatRulesDecide(env, rules, req, body)
    ensures body.policyVersion == rules.version && body.holdId == if body.decision == "hold" then Some(holdId) else None
    ensures body.decision != "hold" ==> queue.holds == old(queue.holds)
    ensures body.decision == "hold" ==>
              && queue.holds.Keys == old(queue.holds).Keys + {holdId}
              && (forall k :: k in old(queue.holds) ==> queue.holds[k] == old(queue.holds)[k])
              && OpensHold(rules, req, body, queue.holds[holdId], now, env.holdTimeout)
  {
    hide RulesFor, Asks, Decides, Names, Records, Recorded, MostSevere;
    var result := Decide(env.evaluate, rules, req);
    DecisionSaid(env, rules, req, result);
    NamedAsDecided(env, rules, req, result);
    var id: Option<string> := None;
    if result.decision == HoldAction {
      queue.Create(holdId, SubjectOf(rules, req, result.ruleId, result.reason), now, env.holdTimeout);
      id := Some(holdId);
    }
    body := VerdictBody(DecisionText(result.decision), result.reason, result.ruleId, result.policyVersion, id);
  }
}
