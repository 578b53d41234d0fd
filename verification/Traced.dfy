/**
 Nested traced calls: the decorator and the context manager as drivers of the builder.
 A call may fail to open its span, be refused by the gate, raise, or propagate what a callee raises;
 the caller may catch. What is exported depends only on the tree of calls that really ran.
 */
module Traced {
  import opened Wrappers
  import opened Spans
  import opened SpanBuilder
  import opened BuilderRuns

  /** One traced call with what its environment supplies: fresh ids, clock readings, recorded payloads.
      `caught` says whether the caller catches what the call raises. */
  datatype Call = Call(
    spanOpens: bool, spanId: string, trace: string, customer: string, startTime: int, endTime: int,
    attributes: string, inputs: string, outputs: string,
    blocked: bool, refusedAttributes: Option<string>, refusal: string,
    body: seq<Call>, raises: bool, failure: string, caught: bool)

  /** The span that is the current parent. */
  datatype Context = Context(spanId: string, trajectoryId: string)

  /** Whether the call ends by raising into its caller. */
  predicate Raises(call: Call)
    decreases call, 0
  {
    (call.spanOpens && call.blocked) || BodyRaises(call.body) || call.raises
  }

  predicate BodyRaises(calls: seq<Call>)
    decreases calls, 0
  {
    calls != [] && (Escapes(calls[0]) || BodyRaises(calls[1..]))
  }

  predicate Escapes(call: Call)
    decreases call, 1
  {
    Raises(call) && !call.caught
  }

  function IdOf(call: Call, ctx: Option<Context>): string
    requires |call.trace| == 32
  {
    if ctx.None? then call.trace[..16] else call.spanId
  }

  function Inner(call: Call, ctx: Option<Context>): Context
    requires |call.trace| == 32
  {
    Context(IdOf(call, ctx), if ctx.None? then call.trace else ctx.value.trajectoryId)
  }

  predicate WellFormed(call: Call) {
    |call.trace| == 32 && forall s :: s in call.body ==> WellFormed(s)
  }

  function ViewOf(call: Call, ctx: Option<Context>, attributes: string): OpenView
    requires |call.trace| == 32
  {
    OpenView(if ctx.None? then None else Some(ctx.value.spanId), Inner(call, ctx).trajectoryId,
             call.customer, call.startTime, attributes, call.inputs, [])
  }

  function RefusedAttributes(call: Call): string {
    if call.refusedAttributes.Some? then call.refusedAttributes.value else call.attributes
  }

  /** How the span is closed: refused, failed, or returned. */
  function ClosingArgs(call: Call): CloseArgs {
    if call.blocked then CloseArgs("", StatusError(call.refusal), call.endTime)
    else if BodyRaises(call.body) || call.raises then CloseArgs("", StatusError(call.failure), call.endTime)
    else CloseArgs(call.outputs, StatusOk, call.endTime)
  }

  // ---- what the builder is told ----

  function Events(call: Call, ctx: Option<Context>): seq<Event>
    requires WellFormed(call)
    decreases call
  {
    if !call.spanOpens then BodyEvents(call.body, ctx)
    else
      var id := IdOf(call, ctx);
      [Opened(id, ViewOf(call, ctx, call.attributes))]
      + (if !call.blocked then BodyEvents(call.body, Some(Inner(call, ctx)))
         else [Updated(id, RefusedAttributes(call))])
      + [Closed(id, ClosingArgs(call))]
  }

  function BodyEvents(calls: seq<Call>, ctx: Option<Context>): seq<Event>
    requires forall s :: s in calls ==> WellFormed(s)
    decreases calls
  {
    if calls == [] then []
    else Events(calls[0], ctx) + (if Escapes(calls[0]) then [] else BodyEvents(calls[1..], ctx))
  }

  // ---- the calls that ran ----

  datatype Node = Node(id: string, view: OpenView, args: CloseArgs, children: seq<Node>)

  function Forest(call: Call, ctx: Option<Context>): seq<Node>
    requires WellFormed(call)
    decreases call
  {
    if !call.spanOpens then BodyForest(call.body, ctx)
    else
      [Node(IdOf(call, ctx),
            ViewOf(call, ctx, if call.blocked then RefusedAttributes(call) else call.attributes),
            ClosingArgs(call),
            if call.blocked then [] else BodyForest(call.body, Some(Inner(call, ctx))))]
  }

  function BodyForest(calls: seq<Call>, ctx: Option<Context>): seq<Node>
    requires forall s :: s in calls ==> WellFormed(s)
    decreases calls
  {
    if calls == [] then []
    else Forest(calls[0], ctx) + (if Escapes(calls[0]) then [] else BodyForest(calls[1..], ctx))
  }

  function AllIds(nodes: seq<Node>): seq<string> {
    if nodes == [] then [] else AllIds(nodes[0].children) + [nodes[0].id] + AllIds(nodes[1..])
  }

  function Final(env: Env, v: Node): Span {
    Finalize(env, v.id, v.view, v.args)
  }

  function Finals(env: Env, nodes: seq<Node>): (spans: seq<Span>)
    ensures |spans| == |nodes|
  {
    seq(|nodes|, i requires 0 <= i < |nodes| => Final(env, nodes[i]))
  }

  /** The closed form: everything below each node in turn, then its children, stamped; a root adds itself. */
  function LogOfForest(env: Env, nodes: seq<Node>, asRoots: bool): seq<Span> {
    if nodes == [] then []
    else
      var v := nodes[0];
      LogOfForest(env, v.children, false)
      + StampAll(Finals(env, v.children), Final(env, v).provenance.contentHash)
      + (if asRoots then [Final(env, v)] else [])
      + LogOfForest(env, nodes[1..], asRoots)
  }

  // ---- replaying a whole call ----

  ghost predicate Fresh(r: Run, nodes: seq<Node>) {
    Distinct(AllIds(nodes)) && forall id :: id in AllIds(nodes) ==> id !in r.builder.opens
  }

  ghost predicate InContext(r: Run, ctx: Option<Context>) {
    ctx.Some? ==> ctx.value.spanId in r.builder.opens
  }

  /** What running a forest under ctx does to the builder. */
  ghost predicate Effect(env: Env, r: Run, r': Run, ctx: Option<Context>, nodes: seq<Node>) {
    && r'.builder.log == r.builder.log + LogOfForest(env, nodes, ctx.None?)
    && (forall k :: k in r'.builder.opens <==> k in r.builder.opens || k in AllIds(nodes))
    && (forall k :: k in r'.closeOrder <==> k in r.closeOrder || k in AllIds(nodes))
    && (forall k :: k in r.builder.opens ==>
          && k in r'.builder.opens
          && r'.builder.opens[k] ==
             if ctx.Some? && ctx.value.spanId == k
             then r.builder.opens[k].(pending := r.builder.opens[k].pending + Finals(env, nodes))
             else r.builder.opens[k])
  }

  lemma {:induction false} AllIdsAppend(a: seq<Node>, b: seq<Node>)
    ensures AllIds(a + b) == AllIds(a) + AllIds(b)
    decreases |a|
  {
    if a == [] {
      assert a + b == b;
    } else {
      assert (a + b)[1..] == a[1..] + b;
      AllIdsAppend(a[1..], b);
    }
  }

  lemma {:induction false} LogOfForestAppend(env: Env, a: seq<Node>, b: seq<Node>, asRoots: bool)
    ensures LogOfForest(env, a + b, asRoots) == LogOfForest(env, a, asRoots) + LogOfForest(env, b, asRoots)
    decreases |a|
  {
    if a == [] {
      assert a + b == b;
    } else {
      assert (a + b)[1..] == a[1..] + b;
      LogOfForestAppend(env, a[1..], b, asRoots);
    }
  }

  lemma {:induction false} FinalsAppend(env: Env, a: seq<Node>, b: seq<Node>)
    ensures Finals(env, a + b) == Finals(env, a) + Finals(env, b)
  {
  }

  lemma {:induction false} EffectCompose(env: Env, r: Run, m: Run, r': Run, ctx: Option<Context>, a: seq<Node>, b: seq<Node>)
    requires Effect(env, r, m, ctx, a) && Effect(env, m, r', ctx, b)
    ensures Effect(env, r, r', ctx, a + b)
  {
    hide AllIds, LogOfForest, Finals;
    AllIdsAppend(a, b);
    LogOfForestAppend(env, a, b, ctx.None?);
    FinalsAppend(env, a, b);
    EffectOnOpens(env, r, m, r', ctx, a, b);
  }

  lemma {:induction false} EffectOnOpens(env: Env, r: Run, m: Run, r': Run, ctx: Option<Context>, a: seq<Node>, b: seq<Node>)
    requires Effect(env, r, m, ctx, a) && Effect(env, m, r', ctx, b)
    ensures forall k :: k in r.builder.opens ==>
              && k in r'.builder.opens
              && r'.builder.opens[k] ==
                 if ctx.Some? && ctx.value.spanId == k
                 then r.builder.opens[k].(pending := r.builder.opens[k].pending + Finals(env, a + b))
                 else r.builder.opens[k]
  {
    hide AllIds, LogOfForest, Finals;
    FinalsAppend(env, a, b);
    forall k | k in r.builder.opens
      ensures k in r'.builder.opens
      ensures r'.builder.opens[k] ==
              if ctx.Some? && ctx.value.spanId == k
              then r.builder.opens[k].(pending := r.builder.opens[k].pending + Finals(env, a + b))
              else r.builder.opens[k]
    {
      var was := r.builder.opens[k].pending;
      assert (was + Finals(env, a)) + Finals(env, b) == was + (Finals(env, a) + Finals(env, b));
    }
  }

  lemma {:induction false} EffectNothing(env: Env, r: Run, ctx: Option<Context>)
    ensures Effect(env, r, r, ctx, [])
  {
    assert forall k :: k in r.builder.opens ==> r.builder.opens[k].pending + [] == r.builder.opens[k].pending;
  }

  lemma {:induction false} SingleNode(env: Env, v: Node, asRoot: bool)
    ensures AllIds([v]) == AllIds(v.children) + [v.id]
    ensures Finals(env, [v]) == [Final(env, v)]
    ensures LogOfForest(env, [v], asRoot) ==
            LogOfForest(env, v.children, false)
            + (StampAll(Finals(env, v.children), Final(env, v).provenance.contentHash)
               + (if asRoot then [Final(env, v)] else []))
  {
    assert [v][1..] == [];
    assert AllIds([]) == [] && LogOfForest(env, [], asRoot) == [];
  }

  /** The state in which a span is about to close, given what its body did. */
  ghost predicate ReadyToClose(env: Env, r: Run, m: Run, ctx: Option<Context>, v: Node) {
    && v.id !in r.builder.opens && v.id !in r.closeOrder && v.id !in AllIds(v.children)
    && v.view.pending == [] && v.view.parent == (if ctx.None? then None else Some(ctx.value.spanId))
    && InContext(r, ctx)
    && (exists c :: Effect(env, Apply(env, r, Opened(v.id, v.view)), m, Some(Context(v.id, c)), v.children))
  }

  lemma {:induction false} CloseIsLegal(env: Env, r: Run, m: Run, ctx: Option<Context>, v: Node)
    requires Legal(r, Opened(v.id, v.view)) && ReadyToClose(env, r, m, ctx, v)
    ensures Legal(m, Closed(v.id, v.args))
    ensures m.builder.opens[v.id] == v.view.(pending := Finals(env, v.children))
    ensures forall k :: k in r.builder.opens ==> k in m.builder.opens && m.builder.opens[k] == r.builder.opens[k]
    ensures m.builder.log == r.builder.log + LogOfForest(env, v.children, false)
  {
    hide AllIds, LogOfForest, Finals;
    assert [] + Finals(env, v.children) == Finals(env, v.children);
  }

  /** Closing it adds exactly one node to the forest of its context. */
  lemma {:induction false} NodeEffectOnOpens(env: Env, r: Run, m: Run, ctx: Option<Context>, v: Node)
    requires Legal(r, Opened(v.id, v.view)) && ReadyToClose(env, r, m, ctx, v)
    ensures Legal(m, Closed(v.id, v.args))
    ensures var last := Apply(env, m, Closed(v.id, v.args));
            forall k :: k in r.builder.opens ==>
              && k in last.builder.opens
              && last.builder.opens[k] ==
                 if ctx.Some? && ctx.value.spanId == k
                 then r.builder.opens[k].(pending := r.builder.opens[k].pending + [Final(env, v)])
                 else r.builder.opens[k]
  {
    hide AllIds, LogOfForest, Finals, Finalize, StampAll;
    CloseIsLegal(env, r, m, ctx, v);
    FinalizeIgnoresPending(env, v.id, v.view, Finals(env, v.children), v.args);
    assert Finalize(env, v.id, m.builder.opens[v.id], v.args) == Final(env, v);
  }

  lemma {:induction false} NodeEffectOnLog(env: Env, r: Run, m: Run, ctx: Option<Context>, v: Node)
    requires Legal(r, Opened(v.id, v.view)) && ReadyToClose(env, r, m, ctx, v)
    ensures Legal(m, Closed(v.id, v.args))
    ensures Apply(env, m, Closed(v.id, v.args)).builder.log == r.builder.log + LogOfForest(env, [v], ctx.None?)
  {
    hide AllIds, LogOfForest, Finals, Finalize, StampAll;
    CloseIsLegal(env, r, m, ctx, v);
    SingleNode(env, v, ctx.None?);
    FinalizeIgnoresPending(env, v.id, v.view, Finals(env, v.children), v.args);
    var stamped := StampAll(Finals(env, v.children), Final(env, v).provenance.contentHash);
    var own := if ctx.None? then [Final(env, v)] else [];
    assert Apply(env, m, Closed(v.id, v.args)).builder.log == m.builder.log + (stamped + own);
    RegroupLog(r.builder.log, LogOfForest(env, v.children, false), stamped + own);
  }

  lemma {:induction false} RegroupLog(a: seq<Span>, b: seq<Span>, c: seq<Span>)
    ensures (a + b) + c == a + (b + c)
  {
  }

  lemma {:induction false} NodeEffectOnKeys(env: Env, r: Run, m: Run, ctx: Option<Context>, v: Node)
    requires Legal(r, Opened(v.id, v.view)) && ReadyToClose(env, r, m, ctx, v)
    ensures Legal(m, Closed(v.id, v.args))
    ensures var last := Apply(env, m, Closed(v.id, v.args));
            && (forall k :: k in last.builder.opens <==> k in r.builder.opens || k in AllIds([v]))
            && (forall k :: k in last.closeOrder <==> k in r.closeOrder || k in AllIds([v]))
  {
    hide AllIds, LogOfForest, Finals, Finalize, StampAll;
    CloseIsLegal(env, r, m, ctx, v);
    SingleNode(env, v, ctx.None?);
  }

  lemma {:induction false} NodeEffect(env: Env, r: Run, m: Run, ctx: Option<Context>, v: Node)
    requires Legal(r, Opened(v.id, v.view)) && ReadyToClose(env, r, m, ctx, v)
    ensures Legal(m, Closed(v.id, v.args)) && Effect(env, r, Apply(env, m, Closed(v.id, v.args)), ctx, [v])
  {
    hide AllIds, LogOfForest, Finals, Final, Apply, Legal, ReadyToClose;
    NodeEffectOnLog(env, r, m, ctx, v);
    NodeEffectOnKeys(env, r, m, ctx, v);
    NodeEffectOnOpens(env, r, m, ctx, v);
    SingleNode(env, v, ctx.None?);
  }

  lemma {:induction false} FinalizeIgnoresPending(env: Env, id: string, o: OpenView, pending: seq<Span>, args: CloseArgs)
    ensures Finalize(env, id, o.(pending := pending), args) == Finalize(env, id, o, args)
  {
  }

  ghost predicate Runnable(r: Run, ctx: Option<Context>, nodes: seq<Node>) {
    InContext(r, ctx) && Fresh(r, nodes) && forall k :: k in r.closeOrder ==> k in r.builder.opens
  }

  lemma {:induction false} FreshNode(env: Env, r: Run, ctx: Option<Context>, v: Node, inner: Context)
    requires Runnable(r, ctx, [v]) && inner.spanId == v.id
    requires v.view.pending == [] && v.view.parent == (if ctx.None? then None else Some(ctx.value.spanId))
    ensures v.id !in r.builder.opens && v.id !in r.closeOrder && v.id !in AllIds(v.children)
    ensures Legal(r, Opened(v.id, v.view))
    ensures Runnable(Apply(env, r, Opened(v.id, v.view)), Some(inner), v.children)
  {
    SingleNode(env, v, false);
    DistinctAppend(AllIds(v.children), [v.id]);
    assert v.id in AllIds([v]);
  }

  /** Rewriting the attributes right after opening is the same as opening with them. */
  lemma {:induction false} OpenThenUpdate(env: Env, r: Run, id: string, view: OpenView, attributes: string)
    requires Legal(r, Opened(id, view))
    ensures var opening := Apply(env, r, Opened(id, view));
            && Legal(opening, Updated(id, attributes))
            && Apply(env, opening, Updated(id, attributes)) == Apply(env, r, Opened(id, view.(attributes := attributes)))
            && Extend(env, Some(r), [Opened(id, view), Updated(id, attributes)])
               == Some(Apply(env, r, Opened(id, view.(attributes := attributes))))
  {
    var opening := Apply(env, r, Opened(id, view));
    assert [Opened(id, view), Updated(id, attributes)] == [Opened(id, view)] + [Updated(id, attributes)];
    ExtendAppend(env, Some(r), [Opened(id, view)], [Updated(id, attributes)]);
    ExtendOne(env, r, Opened(id, view));
    ExtendOne(env, opening, Updated(id, attributes));
  }

  /** All the events of a call that opens its span, before it closes. */
  function EventsBeforeClose(call: Call, ctx: Option<Context>): seq<Event>
    requires WellFormed(call)
  {
    [Opened(IdOf(call, ctx), ViewOf(call, ctx, call.attributes))]
    + (if !call.blocked then BodyEvents(call.body, Some(Inner(call, ctx)))
       else [Updated(IdOf(call, ctx), RefusedAttributes(call))])
  }

  lemma {:induction false} SpanEffect(env: Env, r: Run, call: Call, ctx: Option<Context>, m: Run)
    requires WellFormed(call) && call.spanOpens && Runnable(r, ctx, Forest(call, ctx))
    requires var v := Forest(call, ctx)[0];
             && Legal(r, Opened(v.id, v.view))
             && Extend(env, Some(r), EventsBeforeClose(call, ctx)) == Some(m)
             && Effect(env, Apply(env, r, Opened(v.id, v.view)), m, Some(Inner(call, ctx)), v.children)
    ensures var r' := Extend(env, Some(r), Events(call, ctx));
            r'.Some? && Effect(env, r, r'.value, ctx, Forest(call, ctx))
  {
    hide Effect, LogOfForest, Finals, Finalize, Apply, BodyForest, BodyEvents, Legal;
    var v := Forest(call, ctx)[0];
    assert Forest(call, ctx) == [v];
    FreshNode(env, r, ctx, v, Inner(call, ctx));
    assert Context(v.id, Inner(call, ctx).trajectoryId) == Inner(call, ctx);
    NodeEffect(env, r, m, ctx, v);
    assert Events(call, ctx) == EventsBeforeClose(call, ctx) + [Closed(v.id, v.args)];
    ExtendAppend(env, Some(r), EventsBeforeClose(call, ctx), [Closed(v.id, v.args)]);
    ExtendOne(env, m, Closed(v.id, v.args));
  }

  /** A traced call, on every path through it, exports its tree in the closed form. */
  lemma {:induction false} CallEffect(env: Env, r: Run, call: Call, ctx: Option<Context>)
    requires WellFormed(call) && Runnable(r, ctx, Forest(call, ctx))
    ensures var r' := Extend(env, Some(r), Events(call, ctx));
            r'.Some? && Effect(env, r, r'.value, ctx, Forest(call, ctx))
    decreases call
  {
    if !call.spanOpens {
      BodyEffect(env, r, call.body, ctx);
    } else {
      var v, inner := Forest(call, ctx)[0], Inner(call, ctx);
      assert Forest(call, ctx) == [v];
      FreshNode(env, r, ctx, v, inner);
      var view := ViewOf(call, ctx, call.attributes);
      var start := Apply(env, r, Opened(v.id, v.view));
      if call.blocked {
        OpenThenUpdate(env, r, v.id, view, RefusedAttributes(call));
        EffectNothing(env, start, Some(inner));
        assert EventsBeforeClose(call, ctx) == [Opened(v.id, view), Updated(v.id, RefusedAttributes(call))];
        SpanEffect(env, r, call, ctx, start);
      } else {
        BodyEffect(env, start, call.body, Some(inner));
        ExtendAppend(env, Some(r), [Opened(v.id, view)], BodyEvents(call.body, Some(inner)));
        ExtendOne(env, r, Opened(v.id, view));
        SpanEffect(env, r, call, ctx, Extend(env, Some(start), BodyEvents(call.body, Some(inner))).value);
      }
    }
  }

  lemma {:induction false} BodyEffect(env: Env, r: Run, calls: seq<Call>, ctx: Option<Context>)
    requires (forall c :: c in calls ==> WellFormed(c)) && Runnable(r, ctx, BodyForest(calls, ctx))
    ensures var r' := Extend(env, Some(r), BodyEvents(calls, ctx));
            r'.Some? && Effect(env, r, r'.value, ctx, BodyForest(calls, ctx))
    decreases calls
  {
    if calls == [] {
      EffectNothing(env, r, ctx);
    } else {
      var here := Forest(calls[0], ctx);
      var there := if Escapes(calls[0]) then [] else BodyForest(calls[1..], ctx);
      AllIdsAppend(here, there);
      DistinctAppend(AllIds(here), AllIds(there));
      CallEffect(env, r, calls[0], ctx);
      var m := Extend(env, Some(r), Events(calls[0], ctx)).value;
      if Escapes(calls[0]) {
        assert here + [] == here && Events(calls[0], ctx) + [] == Events(calls[0], ctx);
      } else {
        BodyEffect(env, m, calls[1..], ctx);
        ExtendAppend(env, Some(r), Events(calls[0], ctx), BodyEvents(calls[1..], ctx));
        EffectCompose(env, r, m, Extend(env, Some(m), BodyEvents(calls[1..], ctx)).value, ctx, here, there);
      }
    }
  }
}
