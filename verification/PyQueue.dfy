/**
 The Python exporter's queue shared by producer threads, a worker thread and a shutdown call.
 Each queue operation, counter update and flag access is one atomic step; steps interleave freely.
 */
module PyQueue {
  datatype Span = Span(id: string, critical: bool)

  /** A queued span, or the shutdown sentinel. */
  datatype Item = Job(span: Span) | Sentinel

  /** Where a producer thread is inside `export`. */
  datatype Producer =
    | Idle
    | Checked(span: Span)
    | Waiting(span: Span)
    | Evicting(span: Span)
    | Recording(span: Span, evicted: nat)
    | Retrying(span: Span)
    | Rejecting

  datatype Worker = Ready | Exporting(span: Span) | Exited

  datatype State = State(queue: seq<Item>, producers: seq<Producer>, worker: Worker, handed: seq<Span>,
                         dropped: nat, shutdown: bool, submitted: nat, lost: nat)

  datatype Step =
    | Submit(p: nat, span: Span)
    | Put(p: nat)
    | WaitPut(p: nat)
    | WaitExpires(p: nat)
    | Evict(p: nat)
    | Record(p: nat)
    | Retry(p: nat)
    | Take
    | HandOver
    | SetShutdown
    | PutSentinel

  /** A capacity of zero means no bound, as in the library queue. */
  predicate Full(capacity: nat, s: State) {
    capacity > 0 && |s.queue| >= capacity
  }

  predicate Legal(capacity: nat, s: State, step: Step) {
    match step
    case Submit(p, _) => p < |s.producers| && s.producers[p].Idle?
    case Put(p) => p < |s.producers| && s.producers[p].Checked?
    case WaitPut(p) => p < |s.producers| && s.producers[p].Waiting? && !Full(capacity, s)
    case WaitExpires(p) => p < |s.producers| && s.producers[p].Waiting?
    case Evict(p) => p < |s.producers| && s.producers[p].Evicting?
    case Record(p) => p < |s.producers| && (s.producers[p].Recording? || s.producers[p].Rejecting?)
    case Retry(p) => p < |s.producers| && s.producers[p].Retrying?
    case Take => s.worker.Ready? && s.queue != []
    case HandOver => s.worker.Exporting?
    case SetShutdown => !s.shutdown
    case PutSentinel => s.shutdown && !Full(capacity, s)
  }

  function At(s: State, p: nat, to: Producer): State
    requires p < |s.producers|
  {
    s.(producers := s.producers[p := to])
  }

  function Weight(i: Item): nat {
    if i.Job? then 1 else 0
  }

  function Apply(capacity: nat, s: State, step: Step): State
    requires Legal(capacity, s, step)
  {
    match step
    case Submit(p, span) =>
      if s.shutdown then At(s, p, Rejecting).(submitted := s.submitted + 1, lost := s.lost + 1)
      else At(s, p, Checked(span)).(submitted := s.submitted + 1)
    case Put(p) =>
      var span := s.producers[p].span;
      if !Full(capacity, s) then At(s, p, Idle).(queue := s.queue + [Job(span)])
      else if span.critical then At(s, p, Waiting(span)) else At(s, p, Evicting(span))
    case WaitPut(p) => At(s, p, Idle).(queue := s.queue + [Job(s.producers[p].span)])
    case WaitExpires(p) => At(s, p, Rejecting).(lost := s.lost + 1)
    case Evict(p) =>
      var span := s.producers[p].span;
      if s.queue == [] then At(s, p, Recording(span, 0))
      else
        var e := Weight(s.queue[0]);
        At(s, p, Recording(span, e)).(queue := s.queue[1..], lost := s.lost + e)
    case Record(p) =>
      if s.producers[p].Rejecting? then At(s, p, Idle).(dropped := s.dropped + 1)
      else At(s, p, Retrying(s.producers[p].span)).(dropped := s.dropped + 1)
    case Retry(p) =>
      if !Full(capacity, s) then At(s, p, Idle).(queue := s.queue + [Job(s.producers[p].span)])
      else At(s, p, Idle).(lost := s.lost + 1)
    case Take =>
      var rest := s.(queue := s.queue[1..]);
      if s.queue[0].Sentinel? then rest.(worker := Exited) else rest.(worker := Exporting(s.queue[0].span))
    case HandOver => s.(worker := Ready, handed := s.handed + [s.worker.span])
    case SetShutdown => s.(shutdown := true)
    case PutSentinel => s.(queue := s.queue + [Sentinel])
  }

  function Start(n: nat): State {
    State([], seq(n, _ => Idle), Ready, [], 0, false, 0, 0)
  }

  datatype Outcome = Impossible | Reached(state: State)

  function Run(capacity: nat, n: nat, steps: seq<Step>): Outcome {
    if steps == [] then Reached(Start(n))
    else
      var before := Run(capacity, n, steps[..|steps| - 1]);
      if before.Reached? && Legal(capacity, before.state, steps[|steps| - 1])
      then Reached(Apply(capacity, before.state, steps[|steps| - 1]))
      else Impossible
  }

  // ---- sums over producers and items ----

  /** A span still in a producer's own hands. */
  function InHand(p: Producer): int {
    if p.Idle? || p.Rejecting? then 0 else 1
  }

  /** Losses a producer has caused but not yet counted; a counted eviction leaves one loss in reserve. */
  function Uncounted(p: Producer): int {
    match p
    case Recording(_, e) => e
    case Rejecting => 1
    case Retrying(_) => -1
    case _ => 0
  }

  function Sum(ps: seq<Producer>, w: Producer -> int): int {
    if ps == [] then 0 else Sum(ps[..|ps| - 1], w) + w(ps[|ps| - 1])
  }

  lemma {:induction false} SumUpdate(ps: seq<Producer>, w: Producer -> int, p: nat, to: Producer)
    requires p < |ps|
    ensures Sum(ps[p := to], w) == Sum(ps, w) - w(ps[p]) + w(to)
  {
    var init := ps[..|ps| - 1];
    if p < |init| {
      SumUpdate(init, w, p, to);
      assert ps[p := to][..|ps| - 1] == init[p := to];
    } else {
      assert ps[p := to][..|ps| - 1] == init;
    }
  }

  function Jobs(q: seq<Item>): nat {
    if q == [] then 0 else Weight(q[0]) + Jobs(q[1..])
  }

  lemma {:induction false} JobsAppend(q: seq<Item>, i: Item)
    ensures Jobs(q + [i]) == Jobs(q) + Weight(i)
  {
    if q == [] {
      assert [i][1..] == [];
    } else {
      assert (q + [i])[1..] == q[1..] + [i];
      JobsAppend(q[1..], i);
    }
  }

  function InWorker(s: State): nat {
    if s.worker.Exporting? then 1 else 0
  }

  /** Spans queued for a worker that has exited: nobody will ever take them. */
  function Stranded(s: State): nat {
    if s.worker.Exited? then Jobs(s.queue) else 0
  }

  /** Spans queued for a worker that still runs. */
  function Pending(s: State): nat {
    if s.worker.Exited? then 0 else Jobs(s.queue)
  }

  /** Submitted spans that will never be handed over: evicted or given up, or stranded. */
  function Gone(s: State): nat {
    s.lost + Stranded(s)
  }

  // ---- the books ----

  /** Every submitted span is handed over, with the worker, queued (stranded or not), in a producer's hands, or lost. */
  ghost predicate Conserved(s: State) {
    s.submitted == |s.handed| + InWorker(s) + Jobs(s.queue) + Sum(s.producers, InHand) + s.lost
  }

  /** Losses are at most twice the counter, up to those whose counting is still in flight. */
  ghost predicate CountedTwice(s: State) {
    s.lost <= 2 * s.dropped + Sum(s.producers, Uncounted)
  }

  /** Jobs behind the first sentinel. */
  function Behind(q: seq<Item>): nat {
    if q == [] then 0 else if q[0].Sentinel? then Jobs(q[1..]) else Behind(q[1..])
  }

  function AfterStop(s: State): nat {
    if s.worker.Exited? then Jobs(s.queue) else Behind(s.queue)
  }

  /** Once the flag is set, only exports already under way can put spans behind the sentinel, one each. */
  ghost predicate StopBound(n: nat, s: State) {
    && |s.producers| == n
    && (s.shutdown ==> AfterStop(s) + Sum(s.producers, InHand) <= n)
    && (!s.shutdown ==> Sentinel !in s.queue && !s.worker.Exited?)
  }

  lemma {:induction false} BehindAppend(q: seq<Item>, i: Item)
    ensures Behind(q) <= Jobs(q)
    ensures Behind(q + [i]) <= Behind(q) + Weight(i)
  {
    if q == [] {
      assert [i][1..] == [];
    } else {
      assert (q + [i])[1..] == q[1..] + [i];
      BehindAppend(q[1..], i);
      JobsAppend(q[1..], i);
    }
  }

  lemma {:induction false} NothingBehind(q: seq<Item>)
    requires Sentinel !in q
    ensures Behind(q) == 0
  {
    if q != [] {
      assert q[0] in q;
      NothingBehind(q[1..]);
    }
  }

  lemma {:induction false} HandsAtMost(ps: seq<Producer>)
    ensures 0 <= Sum(ps, InHand) <= |ps|
  {
    if ps != [] {
      HandsAtMost(ps[..|ps| - 1]);
    }
  }

  lemma {:induction false} ProducerKeepsStopBound(capacity: nat, n: nat, s: State, step: Step)
    requires Legal(capacity, s, step) && OfProducer(step) && StopBound(n, s)
    ensures StopBound(n, Apply(capacity, s, step))
  {
    hide Sum, Jobs, Behind;
    var s' := Apply(capacity, s, step);
    MovesOne(s, step.p, s'.producers[step.p]);
    assert s'.producers == At(s, step.p, s'.producers[step.p]).producers;
    if s.producers[step.p].Checked? || s.producers[step.p].Waiting? || s.producers[step.p].Retrying? {
      JobsAppend(s.queue, Job(s.producers[step.p].span));
      BehindAppend(s.queue, Job(s.producers[step.p].span));
    } else if s.producers[step.p].Evicting? && s.queue != [] {
      HeadGone(s.queue);
    }
  }

  lemma {:induction false} HeadGone(q: seq<Item>)
    requires q != []
    ensures Jobs(q[1..]) <= Jobs(q) && Behind(q[1..]) <= Behind(q)
    ensures q[0].Sentinel? ==> Behind(q) == Jobs(q[1..])
  {
    BehindAppend(q[1..], Sentinel);
  }

  lemma {:induction false} StepKeepsStopBound(capacity: nat, n: nat, s: State, step: Step)
    requires Legal(capacity, s, step) && StopBound(n, s)
    ensures StopBound(n, Apply(capacity, s, step))
  {
    hide Sum, Jobs, Behind;
    if OfProducer(step) {
      ProducerKeepsStopBound(capacity, n, s, step);
    } else if step.PutSentinel? {
      JobsAppend(s.queue, Sentinel);
      BehindAppend(s.queue, Sentinel);
    } else if step.Take? {
      HeadGone(s.queue);
    } else if step.SetShutdown? {
      NothingBehind(s.queue);
      HandsAtMost(s.producers);
    }
  }

  lemma {:induction false} EveryRunKeepsStopBound(capacity: nat, n: nat, steps: seq<Step>)
    requires Run(capacity, n, steps).Reached?
    ensures StopBound(n, Run(capacity, n, steps).state)
  {
    hide StopBound, Legal;
    if steps == [] {
      assert StopBound(n, Start(n)) by { StartStopBound(n); }
    } else {
      var init := steps[..|steps| - 1];
      EveryRunKeepsStopBound(capacity, n, init);
      StepKeepsStopBound(capacity, n, Run(capacity, n, init).state, steps[|steps| - 1]);
    }
  }

  lemma {:induction false} StartStopBound(n: nat)
    ensures StopBound(n, Start(n))
  {
  }

  predicate SlotsOk(p: Producer) {
    p.Recording? ==> p.evicted <= 1
  }

  ghost predicate Inv(capacity: nat, s: State) {
    && Conserved(s) && CountedTwice(s)
    && (capacity >= 1 ==> |s.queue| <= capacity)
    && forall p :: p in s.producers ==> SlotsOk(p)
  }

  lemma {:induction false} MovesOne(s: State, p: nat, to: Producer)
    requires p < |s.producers|
    ensures Sum(At(s, p, to).producers, InHand) == Sum(s.producers, InHand) - InHand(s.producers[p]) + InHand(to)
    ensures Sum(At(s, p, to).producers, Uncounted) == Sum(s.producers, Uncounted) - Uncounted(s.producers[p]) + Uncounted(to)
  {
    SumUpdate(s.producers, InHand, p, to);
    SumUpdate(s.producers, Uncounted, p, to);
  }

  predicate OfProducer(step: Step) {
    !step.Take? && !step.HandOver? && !step.SetShutdown? && !step.PutSentinel?
  }

  lemma {:induction false} ProducerStepKeepsBooks(capacity: nat, s: State, step: Step)
    requires Legal(capacity, s, step) && OfProducer(step) && Conserved(s) && CountedTwice(s)
    requires SlotsOk(s.producers[step.p])
    ensures Conserved(Apply(capacity, s, step)) && CountedTwice(Apply(capacity, s, step))
  {
    hide Sum;
    var s' := Apply(capacity, s, step);
    MovesOne(s, step.p, s'.producers[step.p]);
    assert s'.producers == At(s, step.p, s'.producers[step.p]).producers;
    if s.producers[step.p].Checked? || s.producers[step.p].Waiting? || s.producers[step.p].Retrying? {
      JobsAppend(s.queue, Job(s.producers[step.p].span));
    }
  }

  lemma {:induction false} StepKeepsInv(capacity: nat, s: State, step: Step)
    requires Legal(capacity, s, step) && Inv(capacity, s)
    ensures Inv(capacity, Apply(capacity, s, step))
  {
    hide Sum;
    var s' := Apply(capacity, s, step);
    if OfProducer(step) {
      hide Conserved, CountedTwice;
      assert s.producers[step.p] in s.producers;
      ProducerStepKeepsBooks(capacity, s, step);
      forall p | p in s'.producers ensures SlotsOk(p) {
        assert p in s.producers || p == s'.producers[step.p];
      }
    } else if step.PutSentinel? {
      JobsAppend(s.queue, Sentinel);
    }
  }

  lemma {:induction false} StartSums(n: nat)
    ensures Sum(Start(n).producers, InHand) == 0 && Sum(Start(n).producers, Uncounted) == 0
  {
    if n > 0 {
      assert Start(n).producers[..n - 1] == Start(n - 1).producers;
      StartSums(n - 1);
    }
  }

  lemma {:induction false} EveryRunKeepsInv(capacity: nat, n: nat, steps: seq<Step>)
    requires Run(capacity, n, steps).Reached?
    ensures Inv(capacity, Run(capacity, n, steps).state)
  {
    hide Inv, Legal;
    if steps == [] {
      StartSums(n);
      assert Inv(capacity, Start(n)) by { StartInv(capacity, n); }
    } else {
      var init := steps[..|steps| - 1];
      EveryRunKeepsInv(capacity, n, init);
      StepKeepsInv(capacity, Run(capacity, n, init).state, steps[|steps| - 1]);
    }
  }

  lemma {:induction false} StartInv(capacity: nat, n: nat)
    ensures Inv(capacity, Start(n))
  {
    StartSums(n);
  }

  ghost predicate Quiet(s: State) {
    forall p :: p in s.producers ==> p.Idle?
  }

  lemma {:induction false} QuietSums(ps: seq<Producer>)
    requires forall p :: p in ps ==> p.Idle?
    ensures Sum(ps, InHand) == 0 && Sum(ps, Uncounted) == 0
  {
    if ps != [] {
      QuietSums(ps[..|ps| - 1]);
      assert ps[|ps| - 1] in ps;
    }
  }

  /** Whenever no export is under way, everything submitted is handed over, with the worker, pending or gone; and gone
      are at most twice the counter, and after a shutdown one more per producer. */
  lemma {:induction false} LossIsBounded(capacity: nat, n: nat, steps: seq<Step>)
    requires Run(capacity, n, steps).Reached? && Quiet(Run(capacity, n, steps).state)
    ensures var s := Run(capacity, n, steps).state;
            && s.submitted == |s.handed| + InWorker(s) + Pending(s) + Gone(s)
            && Gone(s) <= 2 * s.dropped + if s.shutdown then n else 0
  {
    EveryRunKeepsInv(capacity, n, steps);
    EveryRunKeepsStopBound(capacity, n, steps);
    QuietSums(Run(capacity, n, steps).state.producers);
  }

  /** An exited worker never hands anything over again. */
  lemma {:induction false} ExitedForGood(capacity: nat, n: nat, steps: seq<Step>, more: seq<Step>)
    requires Run(capacity, n, steps + more).Reached?
    ensures Run(capacity, n, steps).Reached?
    ensures var s, t := Run(capacity, n, steps).state, Run(capacity, n, steps + more).state;
            s.worker.Exited? ==> t.worker.Exited? && t.handed == s.handed
  {
    if more == [] {
      assert steps + more == steps;
    } else {
      var init, last := more[..|more| - 1], more[|more| - 1];
      RunBefore(capacity, n, steps + init, last, steps + more);
      ExitedForGood(capacity, n, steps, init);
      StepKeepsExited(capacity, Run(capacity, n, steps + init).state, last);
    }
  }

  lemma {:induction false} RunBefore(capacity: nat, n: nat, before: seq<Step>, step: Step, all: seq<Step>)
    requires all == before + [step] && Run(capacity, n, all).Reached?
    ensures Run(capacity, n, before).Reached? && Legal(capacity, Run(capacity, n, before).state, step)
    ensures Run(capacity, n, all).state == Apply(capacity, Run(capacity, n, before).state, step)
  {
    assert all[..|all| - 1] == before && all[|all| - 1] == step;
  }

  lemma {:induction false} StepKeepsExited(capacity: nat, s: State, step: Step)
    requires Legal(capacity, s, step)
    ensures var t := Apply(capacity, s, step); s.worker.Exited? ==> t.worker.Exited? && t.handed == s.handed
  {
  }

  /** The steps of a producer's export that do not wait for anybody. */
  function OnItsOwn(p: nat): set<Step> {
    {Put(p), WaitExpires(p), Evict(p), Record(p), Retry(p)}
  }

  /** No producer is ever stuck: inside an export exactly one step on its own is open to it, and it can then also get room
      while it waits; outside it can export anything. */
  lemma {:induction false} NeverStuck(capacity: nat, s: State, p: nat, span: Span)
    requires p < |s.producers|
    ensures s.producers[p].Idle? <==> Legal(capacity, s, Submit(p, span))
    ensures !s.producers[p].Idle? <==> exists step :: step in OnItsOwn(p) && Legal(capacity, s, step)
    ensures forall a, b :: a in OnItsOwn(p) && b in OnItsOwn(p) && Legal(capacity, s, a) && Legal(capacity, s, b) ==> a == b
    ensures Legal(capacity, s, WaitPut(p)) <==> Legal(capacity, s, WaitExpires(p)) && !(capacity > 0 && |s.queue| >= capacity)
  {
    assert Put(p) in OnItsOwn(p) && WaitExpires(p) in OnItsOwn(p) && Evict(p) in OnItsOwn(p);
    assert Record(p) in OnItsOwn(p) && Retry(p) in OnItsOwn(p);
  }

  /** Only critical spans wait for room, and only others evict. */
  ghost predicate ByKind(s: State) {
    forall p :: p in s.producers ==>
      (p.Waiting? ==> p.span.critical) && (p.Evicting? || p.Recording? || p.Retrying? ==> !p.span.critical)
  }

  lemma {:induction false} StepKeepsByKind(capacity: nat, s: State, step: Step)
    requires Legal(capacity, s, step) && ByKind(s)
    ensures ByKind(Apply(capacity, s, step))
  {
    var s' := Apply(capacity, s, step);
    if OfProducer(step) {
      assert s.producers[step.p] in s.producers;
      forall p | p in s'.producers ensures p in s.producers || p == s'.producers[step.p] {
      }
    }
  }

  /** Critical spans never cause an eviction: over every run a producer that waits has a critical
      span, and one that evicts, counts the eviction or tries again does not. */
  lemma {:induction false} EveryRunKeepsByKind(capacity: nat, n: nat, steps: seq<Step>)
    requires Run(capacity, n, steps).Reached?
    ensures ByKind(Run(capacity, n, steps).state)
  {
    hide ByKind, Legal;
    if steps == [] {
      assert ByKind(Start(n)) by { StartByKind(n); }
    } else {
      var init := steps[..|steps| - 1];
      EveryRunKeepsByKind(capacity, n, init);
      StepKeepsByKind(capacity, Run(capacity, n, init).state, steps[|steps| - 1]);
    }
  }

  lemma {:induction false} StartByKind(n: nat)
    ensures ByKind(Start(n))
  {
  }

  /** What a put comes to: the span is queued if there is room; else a critical one waits and a plain one evicts. */
  lemma {:induction false} PutExactly(capacity: nat, s: State, p: nat)
    requires Legal(capacity, s, Put(p))
    ensures var span, s' := s.producers[p].span, Apply(capacity, s, Put(p));
            && |s'.producers| == |s.producers|
            && (!(capacity > 0 && |s.queue| >= capacity) ==> s'.producers[p].Idle? && s'.queue == s.queue + [Job(span)])
            && (capacity > 0 && |s.queue| >= capacity ==>
                  s'.queue == s.queue && s'.producers[p] == if span.critical then Waiting(span) else Evicting(span))
  {
  }

  // ---- one producer ----

  /** With one producer and no shutdown, a made slot stays free for the span it was made for. */
  ghost predicate Alone(capacity: nat, s: State) {
    && |s.producers| == 1 && !s.shutdown && Sentinel !in s.queue
    && (s.producers[0].Recording? || s.producers[0].Retrying? ==> |s.queue| < capacity)
    && s.lost <= s.dropped + (match s.producers[0] case Recording(_, e) => e case Rejecting => 1 case _ => 0)
  }

  lemma {:induction false} StepKeepsAlone(capacity: nat, s: State, step: Step)
    requires capacity >= 1 && |s.queue| <= capacity && Alone(capacity, s) && SlotsOk(s.producers[0])
    requires Legal(capacity, s, step) && !step.SetShutdown? && !step.PutSentinel?
    ensures Alone(capacity, Apply(capacity, s, step))
  {
  }

  /** With a single producer and before shutdown, no more spans are lost than counted, up to the count under way. */
  lemma {:induction false} OneProducerCountsAll(capacity: nat, steps: seq<Step>)
    requires capacity >= 1 && Run(capacity, 1, steps).Reached?
    requires NoStop(steps)
    ensures Alone(capacity, Run(capacity, 1, steps).state)
    ensures var s := Run(capacity, 1, steps).state; Quiet(s) ==> s.lost <= s.dropped
  {
    if steps != [] {
      var init, last := steps[..|steps| - 1], steps[|steps| - 1];
      assert last in steps;
      OneProducerCountsAll(capacity, init);
      EveryRunKeepsInv(capacity, 1, init);
      assert SlotsOk(Run(capacity, 1, init).state.producers[0]);
      StepKeepsAlone(capacity, Run(capacity, 1, init).state, last);
    }
    var s := Run(capacity, 1, steps).state;
    assert s.producers[0] in s.producers;
  }

  // ---- no bound, or no producer ----

  /** Without a bound no producer ever waits or evicts. */
  ghost predicate Unbounded(s: State) {
    && (forall p :: p in s.producers ==> p.Idle? || p.Checked? || p.Rejecting?)
    && s.lost <= s.dropped + Sum(s.producers, Uncounted)
  }

  lemma {:induction false} StepKeepsUnbounded(s: State, step: Step)
    requires Unbounded(s) && Legal(0, s, step)
    ensures Unbounded(Apply(0, s, step))
  {
    hide Sum;
    var s' := Apply(0, s, step);
    if OfProducer(step) {
      assert s.producers[step.p] in s.producers;
      MovesOne(s, step.p, s'.producers[step.p]);
      assert s'.producers == At(s, step.p, s'.producers[step.p]).producers;
      forall p | p in s'.producers ensures p.Idle? || p.Checked? || p.Rejecting? {
        assert p in s.producers || p == s'.producers[step.p];
      }
    }
  }

  lemma {:induction false} UnboundedCountsAll(n: nat, steps: seq<Step>)
    requires Run(0, n, steps).Reached?
    ensures Unbounded(Run(0, n, steps).state)
    ensures var s := Run(0, n, steps).state; Quiet(s) ==> s.lost <= s.dropped
  {
    hide Unbounded, Legal;
    if steps == [] {
      StartUnbounded(n);
    } else {
      var init := steps[..|steps| - 1];
      UnboundedCountsAll(n, init);
      StepKeepsUnbounded(Run(0, n, init).state, steps[|steps| - 1]);
    }
    QuietUnbounded(Run(0, n, steps).state);
  }

  lemma {:induction false} StartUnbounded(n: nat)
    ensures Unbounded(Start(n))
  {
    StartSums(n);
  }

  lemma {:induction false} QuietUnbounded(s: State)
    requires Unbounded(s)
    ensures Quiet(s) ==> s.lost <= s.dropped
  {
    if Quiet(s) {
      QuietSums(s.producers);
    }
  }

  lemma {:induction false} NobodyLoses(capacity: nat, steps: seq<Step>)
    requires Run(capacity, 0, steps).Reached?
    ensures var s := Run(capacity, 0, steps).state; s.producers == [] && Gone(s) == 0 && Jobs(s.queue) == 0
  {
    if steps != [] {
      NobodyLoses(capacity, steps[..|steps| - 1]);
      JobsAppend(Run(capacity, 0, steps[..|steps| - 1]).state.queue, Sentinel);
    }
  }

  // ---- runs in which one count covers two losses ----

  function Idles(n: nat): (ps: seq<Producer>)
    ensures |ps| == n && forall p :: p in ps ==> p.Idle?
  {
    seq(n, _ => Idle)
  }

  function Copies(a: Span, k: nat): (q: seq<Item>)
    ensures |q| == k
  {
    seq(k, _ => Job(a))
  }

  /** Producer 0 puts k spans. */
  function Fill(a: Span, k: nat): seq<Step> {
    if k == 0 then [] else Fill(a, k - 1) + [Submit(0, a)] + [Put(0)]
  }

  /** The queue is full; producer 0 meets it with a plain span and evicts one. */
  function MakeRoom(capacity: nat, a: Span, b: Span): seq<Step> {
    Fill(a, capacity) + [Submit(0, b)] + [Put(0)] + [Evict(0)]
  }

  /** Another producer takes the room, or a shutdown call does, before producer 0 can. */
  function TakeRoom(stop: bool, c: Span): seq<Step> {
    (if stop then [SetShutdown] + [PutSentinel] else [Submit(1, c)] + [Put(1)]) + [Record(0)] + [Retry(0)]
  }

  lemma {:induction false} Extend(capacity: nat, n: nat, before: seq<Step>, step: Step, s: State, to: State)
    requires Run(capacity, n, before) == Reached(s) && Legal(capacity, s, step) && to == Apply(capacity, s, step)
    ensures Run(capacity, n, before + [step]) == Reached(to)
  {
    assert (before + [step])[..|before|] == before;
  }

  lemma {:induction false} Filled(capacity: nat, n: nat, a: Span, k: nat)
    requires n >= 1 && k <= capacity
    ensures Run(capacity, n, Fill(a, k)) == Reached(State(Copies(a, k), Idles(n), Ready, [], 0, false, k, 0))
  {
    if k > 0 {
      hide Run;
      Filled(capacity, n, a, k - 1);
      var s := State(Copies(a, k - 1), Idles(n), Ready, [], 0, false, k - 1, 0);
      var m := State(Copies(a, k - 1), Idles(n)[0 := Checked(a)], Ready, [], 0, false, k, 0);
      Extend(capacity, n, Fill(a, k - 1), Submit(0, a), s, m);
      assert m.producers[0 := Idle] == Idles(n);
      assert Copies(a, k - 1) + [Job(a)] == Copies(a, k);
      Extend(capacity, n, Fill(a, k - 1) + [Submit(0, a)], Put(0), m, State(Copies(a, k), Idles(n), Ready, [], 0, false, k, 0));
    }
  }

  lemma {:induction false} RoomMade(capacity: nat, n: nat, a: Span, b: Span)
    requires n >= 1 && capacity >= 1 && !b.critical
    ensures Run(capacity, n, MakeRoom(capacity, a, b))
            == Reached(State(Copies(a, capacity - 1), Idles(n)[0 := Recording(b, 1)], Ready, [], 0, false, capacity + 1, 1))
  {
    hide Run, Fill;
    Filled(capacity, n, a, capacity);
    var s := State(Copies(a, capacity), Idles(n), Ready, [], 0, false, capacity, 0);
    var m := s.(producers := Idles(n)[0 := Checked(b)], submitted := capacity + 1);
    Extend(capacity, n, Fill(a, capacity), Submit(0, b), s, m);
    var e := m.(producers := Idles(n)[0 := Evicting(b)]);
    assert m.producers[0 := Evicting(b)] == e.producers;
    Extend(capacity, n, Fill(a, capacity) + [Submit(0, b)], Put(0), m, e);
    assert e.producers[0 := Recording(b, 1)] == Idles(n)[0 := Recording(b, 1)];
    assert Copies(a, capacity)[1..] == Copies(a, capacity - 1) && Copies(a, capacity)[0] == Job(a);
    Extend(capacity, n, Fill(a, capacity) + [Submit(0, b)] + [Put(0)], Evict(0), e,
           State(Copies(a, capacity - 1), Idles(n)[0 := Recording(b, 1)], Ready, [], 0, false, capacity + 1, 1));
  }

  /** What producer 0 finds when its room was taken: it counts its eviction and loses its own span on the same count. */
  lemma {:induction false} RoomTaken(capacity: nat, n: nat, before: seq<Step>, q: seq<Item>, b: Span, stopped: bool, submitted: nat)
    requires n >= 1 && capacity >= 1 && |q| == capacity
    requires Run(capacity, n, before) == Reached(State(q, Idles(n)[0 := Recording(b, 1)], Ready, [], 0, stopped, submitted, 1))
    ensures Run(capacity, n, before + [Record(0)] + [Retry(0)]) == Reached(State(q, Idles(n), Ready, [], 1, stopped, submitted, 2))
  {
    hide Run;
    var s := State(q, Idles(n)[0 := Recording(b, 1)], Ready, [], 0, stopped, submitted, 1);
    var r := s.(producers := Idles(n)[0 := Retrying(b)], dropped := 1);
    assert s.producers[0 := Retrying(b)] == r.producers;
    Extend(capacity, n, before, Record(0), s, r);
    assert r.producers[0 := Idle] == Idles(n);
    Extend(capacity, n, before + [Record(0)], Retry(0), r, State(q, Idles(n), Ready, [], 1, stopped, submitted, 2));
  }

  /** With any bound, two producers can lose two spans on one count. */
  lemma {:induction false} TwoProducersLoseTwo(capacity: nat, n: nat, a: Span, b: Span, c: Span)
    requires n >= 2 && capacity >= 1 && !b.critical
    ensures Run(capacity, n, MakeRoom(capacity, a, b) + TakeRoom(false, c))
            == Reached(State(Copies(a, capacity - 1) + [Job(c)], Idles(n), Ready, [], 1, false, capacity + 2, 2))
  {
    hide Run, MakeRoom;
    RoomMade(capacity, n, a, b);
    var before, ps := MakeRoom(capacity, a, b), Idles(n)[0 := Recording(b, 1)];
    var s := State(Copies(a, capacity - 1), ps, Ready, [], 0, false, capacity + 1, 1);
    var m := s.(producers := ps[1 := Checked(c)], submitted := capacity + 2);
    Extend(capacity, n, before, Submit(1, c), s, m);
    var t := s.(queue := s.queue + [Job(c)], submitted := capacity + 2);
    assert m.producers[1 := Idle] == ps;
    Extend(capacity, n, before + [Submit(1, c)], Put(1), m, t);
    RoomTaken(capacity, n, before + [Submit(1, c)] + [Put(1)], t.queue, b, false, capacity + 2);
    assert before + TakeRoom(false, c) == before + [Submit(1, c)] + [Put(1)] + [Record(0)] + [Retry(0)];
  }

  /** With any bound, a shutdown call beside a single producer has the same effect. */
  lemma {:induction false} ShutdownLosesTwo(capacity: nat, n: nat, a: Span, b: Span)
    requires n >= 1 && capacity >= 1 && !b.critical
    ensures Run(capacity, n, MakeRoom(capacity, a, b) + TakeRoom(true, a))
            == Reached(State(Copies(a, capacity - 1) + [Sentinel], Idles(n), Ready, [], 1, true, capacity + 1, 2))
  {
    hide Run, MakeRoom;
    RoomMade(capacity, n, a, b);
    var before := MakeRoom(capacity, a, b);
    var s := State(Copies(a, capacity - 1), Idles(n)[0 := Recording(b, 1)], Ready, [], 0, false, capacity + 1, 1);
    Extend(capacity, n, before, SetShutdown, s, s.(shutdown := true));
    Extend(capacity, n, before + [SetShutdown], PutSentinel, s.(shutdown := true), s.(shutdown := true, queue := s.queue + [Sentinel]));
    RoomTaken(capacity, n, before + [SetShutdown] + [PutSentinel], s.queue + [Sentinel], b, true, capacity + 1);
    assert before + TakeRoom(true, a) == before + [SetShutdown] + [PutSentinel] + [Record(0)] + [Retry(0)];
  }

  // ---- runs that strand spans without a count ----

  /** The first k producers are past the check of the shutdown flag. */
  function Passed(n: nat, a: Span, k: nat): (ps: seq<Producer>)
    ensures |ps| == n
  {
    seq(n, i => if i < k then Checked(a) else Idle)
  }

  function SubmitAll(a: Span, k: nat): seq<Step> {
    if k == 0 then [] else SubmitAll(a, k - 1) + [Submit(k - 1, a)]
  }

  /** The shutdown call goes through and the worker exits on its sentinel. */
  function StopAfter(a: Span, n: nat): seq<Step> {
    SubmitAll(a, n) + [SetShutdown] + [PutSentinel] + [Take]
  }

  /** Producers n - 1 down to n - k put what they hold. */
  function PutLast(n: nat, k: nat): seq<Step>
    requires k <= n
  {
    if k == 0 then [] else PutLast(n, k - 1) + [Put(n - k)]
  }

  lemma {:induction false} AllPassed(capacity: nat, n: nat, a: Span, k: nat)
    requires k <= n
    ensures Run(capacity, n, SubmitAll(a, k)) == Reached(State([], Passed(n, a, k), Ready, [], 0, false, k, 0))
  {
    if k == 0 {
      assert Passed(n, a, 0) == Start(n).producers;
    } else {
      hide Run;
      AllPassed(capacity, n, a, k - 1);
      assert Passed(n, a, k - 1)[k - 1 := Checked(a)] == Passed(n, a, k);
      Extend(capacity, n, SubmitAll(a, k - 1), Submit(k - 1, a),
             State([], Passed(n, a, k - 1), Ready, [], 0, false, k - 1, 0), State([], Passed(n, a, k), Ready, [], 0, false, k, 0));
    }
  }

  lemma {:induction false} WorkerStopped(capacity: nat, n: nat, a: Span)
    ensures Run(capacity, n, StopAfter(a, n)) == Reached(State([], Passed(n, a, n), Exited, [], 0, true, n, 0))
  {
    hide Run, SubmitAll, Passed;
    AllPassed(capacity, n, a, n);
    var s := State([], Passed(n, a, n), Ready, [], 0, false, n, 0);
    Extend(capacity, n, SubmitAll(a, n), SetShutdown, s, s.(shutdown := true));
    Extend(capacity, n, SubmitAll(a, n) + [SetShutdown], PutSentinel, s.(shutdown := true), s.(shutdown := true, queue := [Sentinel]));
    Extend(capacity, n, SubmitAll(a, n) + [SetShutdown] + [PutSentinel], Take, s.(shutdown := true, queue := [Sentinel]),
           s.(shutdown := true, worker := Exited));
  }

  lemma {:induction false} PutsStrand(capacity: nat, n: nat, a: Span, k: nat)
    requires k <= n && (capacity == 0 || n <= capacity)
    ensures Run(capacity, n, StopAfter(a, n) + PutLast(n, k))
            == Reached(State(Copies(a, k), Passed(n, a, n - k), Exited, [], 0, true, n, 0))
  {
    hide Run, StopAfter;
    if k == 0 {
      WorkerStopped(capacity, n, a);
      assert StopAfter(a, n) + [] == StopAfter(a, n);
    } else {
      PutsStrand(capacity, n, a, k - 1);
      assert Passed(n, a, n - k + 1)[n - k := Idle] == Passed(n, a, n - k);
      assert Copies(a, k - 1) + [Job(a)] == Copies(a, k);
      assert StopAfter(a, n) + PutLast(n, k) == StopAfter(a, n) + PutLast(n, k - 1) + [Put(n - k)];
      Extend(capacity, n, StopAfter(a, n) + PutLast(n, k - 1), Put(n - k),
             State(Copies(a, k - 1), Passed(n, a, n - k + 1), Exited, [], 0, true, n, 0),
             State(Copies(a, k), Passed(n, a, n - k), Exited, [], 0, true, n, 0));
    }
  }

  lemma {:induction false} JobsOfCopies(a: Span, k: nat)
    ensures Jobs(Copies(a, k)) == k
  {
    if k > 0 {
      assert Copies(a, k)[1..] == Copies(a, k - 1);
      JobsOfCopies(a, k - 1);
    }
  }

  /** Producers that passed the flag before it was set can each put a span behind the exited worker: with room for
      them, one per producer is gone and none is counted, so the bound after a shutdown is reached. */
  lemma {:induction false} ShutdownStrandsAll(capacity: nat, n: nat, a: Span)
    requires capacity == 0 || n <= capacity
    ensures var r := Run(capacity, n, StopAfter(a, n) + PutLast(n, n));
            r.Reached? && Quiet(r.state) && r.state.shutdown && r.state.dropped == 0 && Gone(r.state) == n
  {
    PutsStrand(capacity, n, a, n);
    JobsOfCopies(a, n);
  }

  // ---- when the counter counts every loss ----

  predicate NoStop(steps: seq<Step>) {
    forall e :: e in steps ==> !e.SetShutdown? && !e.PutSentinel?
  }

  /** In every reachable state with no export under way, no more spans are gone than counted. */
  ghost predicate AlwaysCounted(capacity: nat, n: nat, mayStop: bool) {
    forall steps :: Run(capacity, n, steps).Reached? && (mayStop || NoStop(steps)) && Quiet(Run(capacity, n, steps).state) ==>
      Gone(Run(capacity, n, steps).state) <= Run(capacity, n, steps).state.dropped
  }

  /** Without a shutdown call the worker never exits. */
  lemma {:induction false} WorkerStays(capacity: nat, n: nat, steps: seq<Step>)
    requires Run(capacity, n, steps).Reached? && NoStop(steps)
    ensures !Run(capacity, n, steps).state.shutdown
  {
    if steps != [] {
      assert steps[|steps| - 1] in steps && forall e :: e in steps[..|steps| - 1] ==> e in steps;
      WorkerStays(capacity, n, steps[..|steps| - 1]);
    }
  }

  /** The counter covers every loss exactly if nobody produces, or if no shutdown call may happen and the queue has no
      bound or a single producer. */
  lemma {:induction false} CountsAllExactlyWhen(capacity: nat, n: nat, mayStop: bool)
    ensures AlwaysCounted(capacity, n, mayStop) <==> n == 0 || (!mayStop && (capacity == 0 || n == 1))
  {
    hide Run, Quiet, NoStop, Gone;
    if n == 0 || (!mayStop && (capacity == 0 || n == 1)) {
      forall steps | Run(capacity, n, steps).Reached? && (mayStop || NoStop(steps)) && Quiet(Run(capacity, n, steps).state)
        ensures Gone(Run(capacity, n, steps).state) <= Run(capacity, n, steps).state.dropped
      {
        CountedThen(capacity, n, mayStop, steps);
      }
    } else {
      var steps := FailingRun(capacity, n, mayStop);
      assert !(Gone(Run(capacity, n, steps).state) <= Run(capacity, n, steps).state.dropped);
    }
  }

  lemma {:induction false} CountedThen(capacity: nat, n: nat, mayStop: bool, steps: seq<Step>)
    requires n == 0 || (!mayStop && (capacity == 0 || n == 1))
    requires Run(capacity, n, steps).Reached? && (mayStop || NoStop(steps)) && Quiet(Run(capacity, n, steps).state)
    ensures Gone(Run(capacity, n, steps).state) <= Run(capacity, n, steps).state.dropped
  {
    hide Run, Quiet, NoStop;
    if n == 0 {
      NobodyLoses(capacity, steps);
    } else {
      WorkerStays(capacity, n, steps);
      EveryRunKeepsStopBound(capacity, n, steps);
      if capacity == 0 {
        UnboundedCountsAll(n, steps);
      } else {
        OneProducerCountsAll(capacity, steps);
      }
    }
  }

  lemma {:induction false} FailingRun(capacity: nat, n: nat, mayStop: bool) returns (steps: seq<Step>)
    requires n >= 1 && (mayStop || (capacity >= 1 && n >= 2))
    ensures Run(capacity, n, steps).Reached? && (mayStop || NoStop(steps)) && Quiet(Run(capacity, n, steps).state)
    ensures Gone(Run(capacity, n, steps).state) > Run(capacity, n, steps).state.dropped
  {
    hide Run, Quiet, NoStop;
    var plain := Span("", false);
    if capacity == 0 {
      ShutdownStrandsAll(capacity, n, plain);
      steps := StopAfter(plain, n) + PutLast(n, n);
    } else if n >= 2 {
      TwoProducersLoseTwo(capacity, n, plain, plain, plain);
      steps := MakeRoom(capacity, plain, plain) + TakeRoom(false, plain);
      RoomIsNoStop(capacity, plain);
      QuietIdles(Run(capacity, n, steps).state, n);
    } else {
      ShutdownLosesTwo(capacity, n, plain, plain);
      steps := MakeRoom(capacity, plain, plain) + TakeRoom(true, plain);
      QuietIdles(Run(capacity, n, steps).state, n);
    }
  }

  lemma {:induction false} QuietIdles(s: State, n: nat)
    requires s.producers == Idles(n)
    ensures Quiet(s)
  {
  }

  lemma {:induction false} FillIsNoStop(a: Span, k: nat)
    ensures NoStop(Fill(a, k))
  {
    if k > 0 {
      FillIsNoStop(a, k - 1);
    }
  }

  lemma {:induction false} RoomIsNoStop(capacity: nat, a: Span)
    ensures NoStop(MakeRoom(capacity, a, a) + TakeRoom(false, a))
  {
    FillIsNoStop(a, capacity);
  }

  // ---- which spans are where ----

  function OwnSpan(i: Item): seq<Span> {
    if i.Job? then [i.span] else []
  }

  function JobSpans(q: seq<Item>): seq<Span> {
    if q == [] then [] else OwnSpan(q[0]) + JobSpans(q[1..])
  }

  function AtWorker(s: State): seq<Span> {
    if s.worker.Exporting? then [s.worker.span] else []
  }

  /** The spans that got through, oldest first: handed over, with the worker, queued. */
  function Line(s: State): seq<Span> {
    s.handed + AtWorker(s) + JobSpans(s.queue)
  }

  function HandSpans(p: Producer): multiset<Span> {
    if p.Idle? || p.Rejecting? then multiset{} else multiset{p.span}
  }

  function InHands(ps: seq<Producer>): multiset<Span> {
    if ps == [] then multiset{} else InHands(ps[..|ps| - 1]) + HandSpans(ps[|ps| - 1])
  }

  /** The spans that exports were called with. */
  function SubmittedIn(steps: seq<Step>): multiset<Span> {
    if steps == [] then multiset{}
    else
      var last := steps[|steps| - 1];
      SubmittedIn(steps[..|steps| - 1]) + if last.Submit? then multiset{last.span} else multiset{}
  }

  lemma {:induction false} HandsUpdate(ps: seq<Producer>, p: nat, to: Producer)
    requires p < |ps|
    ensures InHands(ps[p := to]) + HandSpans(ps[p]) == InHands(ps) + HandSpans(to)
  {
    hide HandSpans;
    var init, last := ps[..|ps| - 1], HandSpans(ps[|ps| - 1]);
    if p < |init| {
      HandsUpdate(init, p, to);
      assert ps[p := to][..|ps| - 1] == init[p := to];
      OneMore(InHands(init[p := to]), HandSpans(ps[p]), InHands(init), HandSpans(to), last);
    } else {
      assert ps[p := to][..|ps| - 1] == init;
    }
  }

  lemma {:induction false} OneMore(a: multiset<Span>, x: multiset<Span>, b: multiset<Span>, y: multiset<Span>, more: multiset<Span>)
    requires a + x == b + y
    ensures (a + more) + x == (b + more) + y
  {
    assert (a + more) + x == (a + x) + more;
  }

  lemma {:induction false} JobSpansAppend(q: seq<Item>, i: Item)
    ensures JobSpans(q + [i]) == JobSpans(q) + OwnSpan(i)
  {
    if q == [] {
      assert q + [i] == [i] && [i][1..] == [];
    } else {
      hide OwnSpan;
      assert (q + [i])[1..] == q[1..] + [i];
      JobSpansAppend(q[1..], i);
    }
  }

  /** The span a producer has in its hands enters at the end of the line. */
  predicate Enters(s: State, step: Step, s': State) {
    && OfProducer(step) && step.p < |s.producers| == |s'.producers|
    && HandSpans(s.producers[step.p]) == multiset{SpanOf(s.producers[step.p])} && HandSpans(s'.producers[step.p]) == multiset{}
    && Line(s') == Line(s) + [SpanOf(s.producers[step.p])]
  }

  function SpanOf(p: Producer): Span {
    match p
    case Idle => Span("", false)
    case Rejecting => Span("", false)
    case _ => p.span
  }

  /** An eviction takes the oldest queued span out of the line. */
  predicate Leaves(s: State, step: Step, s': State) {
    step.Evict? && JobSpans(s.queue) != [] && Line(s') == s.handed + AtWorker(s) + JobSpans(s.queue)[1..]
  }

  /** A producer's put finds room, or its wait for room ends. */
  predicate GetsIn(capacity: nat, s: State, step: Step)
    requires Legal(capacity, s, step)
  {
    step.WaitPut? || ((step.Put? || step.Retry?) && !(capacity > 0 && |s.queue| >= capacity))
  }

  predicate Evicts(s: State, step: Step) {
    step.Evict? && |s.queue| > 0 && s.queue[0].Job?
  }

  /** The line keeps its order and its spans: a step adds a producer's span at its end exactly if its put gets in, evicts
      the oldest queued span exactly if that is what it is for, and leaves the line alone otherwise; and what is handed over
      is what the worker took. */
  lemma {:induction false} LineMoves(capacity: nat, s: State, step: Step)
    requires Legal(capacity, s, step)
    ensures var s' := Apply(capacity, s, step);
            && (GetsIn(capacity, s, step) ==> Enters(s, step, s'))
            && (Evicts(s, step) ==> Leaves(s, step, s'))
            && (!GetsIn(capacity, s, step) && !Evicts(s, step) ==> Line(s') == Line(s))
            && (step.HandOver? ==> s.worker.Exporting? && s'.handed == s.handed + [s.worker.span])
            && (!step.HandOver? ==> s'.handed == s.handed)
            && s'.dropped == s.dropped + if step.Record? then 1 else 0
  {
    hide Enters, Leaves, GetsIn, Evicts;
    var s' := Apply(capacity, s, step);
    if OfProducer(step) {
      ProducerMovesLine(capacity, s, step);
      ProducerHandsNothingOver(capacity, s, step);
    } else {
      assert !GetsIn(capacity, s, step) && !Evicts(s, step) by { OnlyProducersPut(capacity, s, step); }
      if step.PutSentinel? {
        JobSpansAppend(s.queue, Sentinel);
      } else if step.Take? && s.queue[0].Job? {
        assert s.handed + [] + ([s.queue[0].span] + JobSpans(s.queue[1..])) == s.handed + [s.queue[0].span] + JobSpans(s.queue[1..]);
      } else if step.HandOver? {
        assert (s.handed + [s.worker.span]) + [] == s.handed + [s.worker.span];
      }
    }
  }

  lemma {:induction false} OnlyProducersPut(capacity: nat, s: State, step: Step)
    requires Legal(capacity, s, step) && !OfProducer(step)
    ensures !GetsIn(capacity, s, step) && !Evicts(s, step)
  {
  }

  lemma {:induction false} ProducerHandsNothingOver(capacity: nat, s: State, step: Step)
    requires Legal(capacity, s, step) && OfProducer(step)
    ensures var s' := Apply(capacity, s, step); s'.handed == s.handed && s'.worker == s.worker
    ensures Apply(capacity, s, step).dropped == s.dropped + if step.Record? then 1 else 0
  {
  }

  lemma {:induction false} QueueAndLine(s: State, s': State)
    requires s'.handed == s.handed && s'.worker == s.worker
    ensures s'.queue == s.queue ==> Line(s') == Line(s)
    ensures forall x :: s'.queue == s.queue + [Job(x)] ==> Line(s') == Line(s) + [x]
  {
    forall x | s'.queue == s.queue + [Job(x)] ensures Line(s') == Line(s) + [x] {
      JobSpansAppend(s.queue, Job(x));
      assert (s.handed + AtWorker(s) + JobSpans(s.queue)) + [x] == s.handed + AtWorker(s) + (JobSpans(s.queue) + [x]);
    }
  }

  lemma {:induction false} ProducerMovesLine(capacity: nat, s: State, step: Step)
    requires Legal(capacity, s, step) && OfProducer(step)
    ensures var s' := Apply(capacity, s, step);
            && (GetsIn(capacity, s, step) ==> Enters(s, step, s'))
            && (Evicts(s, step) ==> Leaves(s, step, s'))
            && (!GetsIn(capacity, s, step) && !Evicts(s, step) ==> Line(s') == Line(s))
  {
    hide Line, Leaves;
    var s' := Apply(capacity, s, step);
    ProducerHandsNothingOver(capacity, s, step);
    QueueAndLine(s, s');
    if step.Evict? {
      EvictMovesLine(capacity, s, step);
    }
  }

  lemma {:induction false} EvictMovesLine(capacity: nat, s: State, step: Step)
    requires Legal(capacity, s, step) && step.Evict?
    ensures var s' := Apply(capacity, s, step);
            if Evicts(s, step) then Leaves(s, step, s') else Line(s') == Line(s)
  {
    if Evicts(s, step) {
      assert JobSpans(s.queue)[1..] == JobSpans(s.queue[1..]);
    }
  }

  /** All spans the queue still knows of. */
  function Known(s: State): multiset<Span> {
    multiset(Line(s)) + InHands(s.producers)
  }

  function Brings(step: Step): multiset<Span> {
    if step.Submit? then multiset{step.span} else multiset{}
  }

  lemma {:induction false} StepKnows(capacity: nat, s: State, step: Step)
    requires Legal(capacity, s, step)
    ensures Known(Apply(capacity, s, step)) <= Known(s) + Brings(step)
  {
    hide Line, InHands, HandSpans, Enters, Leaves;
    var s' := Apply(capacity, s, step);
    LineMoves(capacity, s, step);
    if OfProducer(step) {
      var from, to := s.producers[step.p], s'.producers[step.p];
      HandsUpdate(s.producers, step.p, to);
      assert s'.producers == s.producers[step.p := to];
      ProducerKnows(capacity, s, step);
      Balance(multiset(Line(s)), multiset(Line(s')), InHands(s.producers), InHands(s'.producers),
              HandSpans(from), HandSpans(to), Brings(step));
    } else {
      assert Line(s') == Line(s) by { OnlyProducersMoveLine(s, step, s'); }
    }
  }

  lemma {:induction false} OnlyProducersMoveLine(s: State, step: Step, s': State)
    requires !OfProducer(step)
    ensures !Enters(s, step, s') && !Leaves(s, step, s')
  {
  }

  lemma {:induction false} Balance(line: multiset<Span>, line': multiset<Span>, hands: multiset<Span>, hands': multiset<Span>,
                                   from: multiset<Span>, to: multiset<Span>, brings: multiset<Span>)
    requires hands' + from == hands + to && line' + to <= line + from + brings
    ensures line' + hands' <= line + hands + brings
  {
    forall x ensures (line' + hands')[x] <= (line + hands + brings)[x] {
      assert (hands' + from)[x] == (hands + to)[x] && (line' + to)[x] <= (line + from + brings)[x];
    }
  }

  /** Line and hand of the acting producer together gain nothing but what is submitted. */
  lemma {:induction false} ProducerKnows(capacity: nat, s: State, step: Step)
    requires Legal(capacity, s, step) && OfProducer(step)
    ensures var s' := Apply(capacity, s, step);
            multiset(Line(s')) + HandSpans(s'.producers[step.p])
            <= multiset(Line(s)) + HandSpans(s.producers[step.p]) + Brings(step)
  {
    hide Line, HandSpans, Apply, Legal, Brings;
    var s' := Apply(capacity, s, step);
    ProducerMovesLine(capacity, s, step);
    HandsGain(capacity, s, step);
    if Leaves(s, step, s') {
      LeavesLess(s, step, s');
    } else if Enters(s, step, s') {
      assert multiset(Line(s')) == multiset(Line(s)) + multiset{SpanOf(s.producers[step.p])};
    }
  }

  lemma {:induction false} HandsGain(capacity: nat, s: State, step: Step)
    requires Legal(capacity, s, step) && OfProducer(step)
    ensures step.p < |s.producers| == |Apply(capacity, s, step).producers|
    ensures HandSpans(Apply(capacity, s, step).producers[step.p]) <= HandSpans(s.producers[step.p]) + Brings(step)
  {
  }

  lemma {:induction false} LeavesLess(s: State, step: Step, s': State)
    requires Leaves(s, step, s')
    ensures multiset(Line(s')) <= multiset(Line(s))
  {
    hide JobSpans;
    var jobs := JobSpans(s.queue);
    assert jobs == [jobs[0]] + jobs[1..];
    DropOne(s.handed + AtWorker(s), jobs[0], jobs[1..]);
  }

  lemma {:induction false} DropOne(a: seq<Span>, x: Span, b: seq<Span>)
    ensures multiset(a + b) <= multiset(a + ([x] + b))
  {
    assert multiset(a + ([x] + b)) == multiset(a + b) + multiset{x};
  }

  lemma {:induction false} KnownWereSubmitted(capacity: nat, n: nat, steps: seq<Step>)
    requires Run(capacity, n, steps).Reached?
    ensures var s := Run(capacity, n, steps).state;
            Known(s) <= SubmittedIn(steps) && |SubmittedIn(steps)| == s.submitted
  {
    hide Known, Legal, Apply;
    if steps == [] {
      NothingKnown(n);
    } else {
      var init, last := steps[..|steps| - 1], steps[|steps| - 1];
      KnownWereSubmitted(capacity, n, init);
      StepKnows(capacity, Run(capacity, n, init).state, last);
      StepCounts(capacity, Run(capacity, n, init).state, last);
    }
  }

  lemma {:induction false} StepCounts(capacity: nat, s: State, step: Step)
    requires Legal(capacity, s, step)
    ensures Apply(capacity, s, step).submitted == s.submitted + |Brings(step)|
  {
  }

  lemma {:induction false} NothingKnown(n: nat)
    ensures Known(Start(n)) == multiset{} && Start(n).submitted == 0
  {
    NoHands(n);
  }

  lemma {:induction false} NoHands(n: nat)
    ensures InHands(Start(n).producers) == multiset{}
  {
    if n > 0 {
      assert Start(n).producers[..n - 1] == Start(n - 1).producers;
      NoHands(n - 1);
    }
  }

  lemma {:induction false} KnownCount(s: State)
    ensures |Known(s)| == |s.handed| + InWorker(s) + Jobs(s.queue) + Sum(s.producers, InHand)
  {
    JobSpansCount(s.queue);
    HandsCount(s.producers);
    assert |multiset(Line(s))| == |Line(s)|;
  }

  lemma {:induction false} JobSpansCount(q: seq<Item>)
    ensures |JobSpans(q)| == Jobs(q)
  {
    if q != [] {
      JobSpansCount(q[1..]);
    }
  }

  lemma {:induction false} HandsCount(ps: seq<Producer>)
    ensures |InHands(ps)| == Sum(ps, InHand)
  {
    if ps != [] {
      HandsCount(ps[..|ps| - 1]);
    }
  }

  /** Every span that is handed over, taken, queued or in a producer's hands was submitted, and as often as it is there;
      the others are those counted as lost. */
  lemma {:induction false} NothingInvented(capacity: nat, n: nat, steps: seq<Step>)
    requires Run(capacity, n, steps).Reached?
    ensures var s := Run(capacity, n, steps).state;
            Known(s) <= SubmittedIn(steps) && |SubmittedIn(steps)| == s.submitted && |SubmittedIn(steps) - Known(s)| == s.lost
  {
    hide Known, SubmittedIn, Run, Sum, Jobs;
    var s := Run(capacity, n, steps).state;
    KnownWereSubmitted(capacity, n, steps);
    EveryRunKeepsInv(capacity, n, steps);
    KnownCount(s);
    assert |SubmittedIn(steps) - Known(s)| == |SubmittedIn(steps)| - |Known(s)|;
  }
}
