/** The log of a traced call tree tells, span by span, how each call that ran ended, and misses none. */
module CallRecords {
  import opened Wrappers
  import opened Spans
  import opened SpanBuilder
  import opened BuilderRuns
  import opened Traced
  import CallTrees

  /** The parent of what runs inside the call. */
  function Below(call: Call, ctx: Option<Context>): Option<Context>
    requires WellFormed(call)
  {
    if !call.spanOpens then ctx
    else if ctx.None? then Some(Context(call.trace[..16], call.trace))
    else Some(Context(call.spanId, ctx.value.trajectoryId))
  }

  /** The call ends by raising: it is refused, it raises itself, or something it calls does and it does not catch that. */
  ghost predicate Fails(call: Call)
    decreases call
  {
    || (call.spanOpens && call.blocked) || call.raises
    || exists i :: 0 <= i < |call.body| && Fails(call.body[i]) && !call.body[i].caught
  }

  lemma {:induction false} FailsExactlyWhen(call: Call)
    ensures Raises(call) <==> Fails(call)
    decreases call
  {
    BodyFails(call.body);
  }

  lemma {:induction false} BodyFails(calls: seq<Call>)
    ensures BodyRaises(calls) <==> exists i :: 0 <= i < |calls| && Fails(calls[i]) && !calls[i].caught
    decreases calls
  {
    if calls != [] {
      var rest := calls[1..];
      FailsExactlyWhen(calls[0]);
      BodyFails(rest);
      assert forall i :: 0 <= i < |rest| ==> rest[i] == calls[i + 1];
      assert forall i :: 1 <= i < |calls| ==> calls[i] == rest[i - 1];
    }
  }

  /** Call i of a body ran: none before it raised into the caller. */
  ghost predicate Reached(calls: seq<Call>, i: int) {
    0 <= i < |calls| && forall j :: 0 <= j < i ==> !Fails(calls[j]) || calls[j].caught
  }

  /** Call c ran inside `call`, under cctx: nothing above it was refused, and no call before it raised into its caller. */
  ghost predicate Ran(call: Call, ctx: Option<Context>, c: Call, cctx: Option<Context>)
    requires WellFormed(call)
    decreases call
  {
    || (c == call && cctx == ctx)
    || (!(call.spanOpens && call.blocked) && RanAmong(call.body, Below(call, ctx), c, cctx))
  }

  ghost predicate RanAmong(calls: seq<Call>, ctx: Option<Context>, c: Call, cctx: Option<Context>)
    requires forall s :: s in calls ==> WellFormed(s)
    decreases calls
  {
    exists i :: 0 <= i < |calls| && Ran(calls[i], ctx, c, cctx) && Reached(calls, i)
  }

  /** The span of a call that ran under ctx: what the call recorded, redacted, and how it ended. */
  ghost predicate Tells(env: Env, c: Call, ctx: Option<Context>, s: Content) {
    && c.spanOpens && |c.trace| == 32
    && (ctx.None? ==> s.spanId == c.trace[..16] && s.trajectoryId == c.trace && s.parentId == None)
    && (ctx.Some? ==> s.spanId == c.spanId && s.trajectoryId == ctx.value.trajectoryId && s.parentId == Some(ctx.value.spanId))
    && s.customer == c.customer && s.startTime == c.startTime && s.endTime == c.endTime
    && (s.status == StatusOk <==> !Fails(c))
    && (Fails(c) ==> s.status == StatusError(if c.blocked then c.refusal else c.failure))
    && s.payload == env.redact(Payload(if c.blocked && c.refusedAttributes.Some? then c.refusedAttributes.value else c.attributes,
                                       c.inputs, if Fails(c) then "" else c.outputs))
  }

  ghost predicate Told(env: Env, call: Call, ctx: Option<Context>, s: Content)
    requires WellFormed(call)
  {
    exists c, cctx :: Ran(call, ctx, c, cctx) && Tells(env, c, cctx, s)
  }

  ghost predicate ToldAmong(env: Env, calls: seq<Call>, ctx: Option<Context>, s: Content)
    requires forall c :: c in calls ==> WellFormed(c)
  {
    exists c, cctx :: RanAmong(calls, ctx, c, cctx) && Tells(env, c, cctx, s)
  }

  // ---- the nodes of a forest ----

  ghost predicate InForest(nodes: seq<Node>, v: Node) {
    v in nodes || exists w :: w in nodes && InForest(w.children, v)
  }

  lemma {:induction false} InSplitForest(a: seq<Node>, b: seq<Node>, v: Node)
    ensures InForest(a + b, v) <==> InForest(a, v) || InForest(b, v)
  {
    assert forall w :: w in a + b <==> w in a || w in b;
  }

  ghost predicate Holds(env: Env, log: seq<Span>, v: Node) {
    exists s :: s in log && s.content == Final(env, v).content
  }

  /** The log has one entry for each node, except the tops of a forest that has a parent. */
  lemma {:induction false} LogHoldsForest(env: Env, nodes: seq<Node>, asRoots: bool)
    ensures forall s :: s in LogOfForest(env, nodes, asRoots) ==> FromForest(env, nodes, s)
    ensures forall v :: InForest(nodes, v) && (asRoots || v !in nodes) ==> Holds(env, LogOfForest(env, nodes, asRoots), v)
  {
    if nodes != [] {
      hide Final, Finals, StampAll, Holds, FromForest, InForest;
      var v, rest := nodes[0], nodes[1..];
      assert nodes == [v] + rest;
      LogHoldsForest(env, v.children, false);
      LogHoldsForest(env, rest, asRoots);
      FirstTreeInLog(env, v, rest, asRoots);
    }
  }

  ghost predicate FromForest(env: Env, nodes: seq<Node>, s: Span) {
    exists v :: InForest(nodes, v) && s.content == Final(env, v).content
  }

  lemma {:induction false} FirstTreeInLog(env: Env, v: Node, rest: seq<Node>, asRoots: bool)
    requires forall s :: s in LogOfForest(env, v.children, false) ==> FromForest(env, v.children, s)
    requires forall w :: InForest(v.children, w) && w !in v.children ==> Holds(env, LogOfForest(env, v.children, false), w)
    requires forall s :: s in LogOfForest(env, rest, asRoots) ==> FromForest(env, rest, s)
    requires forall w :: InForest(rest, w) && (asRoots || w !in rest) ==> Holds(env, LogOfForest(env, rest, asRoots), w)
    ensures forall s :: s in LogOfForest(env, [v] + rest, asRoots) ==> FromForest(env, [v] + rest, s)
    ensures forall w :: InForest([v] + rest, w) && (asRoots || w !in [v] + rest) ==> Holds(env, LogOfForest(env, [v] + rest, asRoots), w)
  {
    hide Final, LogOfForest;
    var log := LogOfForest(env, [v] + rest, asRoots);
    var stamped := StampAll(Finals(env, v.children), Final(env, v).provenance.contentHash);
    LogOfFirst(env, v, rest, asRoots);
    forall s | s in log ensures FromForest(env, [v] + rest, s) {
      if s in stamped {
        var i :| 0 <= i < |stamped| && stamped[i] == s;
        assert v.children[i] in v.children && InForest(v.children, v.children[i]);
      }
      if w :| InForest(v.children, w) && s.content == Final(env, w).content {
        assert v in [v] && InForest([v], w);
        InSplitForest([v], rest, w);
      } else if w :| InForest(rest, w) && s.content == Final(env, w).content {
        InSplitForest([v], rest, w);
      }
    }
    forall w | InForest([v] + rest, w) && (asRoots || w !in [v] + rest) ensures Holds(env, log, w) {
      InSplitForest([v], rest, w);
      if w in v.children {
        var i :| 0 <= i < |v.children| && v.children[i] == w;
        assert stamped[i] in stamped;
      }
    }
  }

  lemma {:induction false} LogOfFirst(env: Env, v: Node, rest: seq<Node>, asRoots: bool)
    ensures forall s :: s in LogOfForest(env, [v] + rest, asRoots) <==>
              || s in LogOfForest(env, v.children, false)
              || s in StampAll(Finals(env, v.children), Final(env, v).provenance.contentHash)
              || (asRoots && s == Final(env, v))
              || s in LogOfForest(env, rest, asRoots)
  {
    assert ([v] + rest)[0] == v && ([v] + rest)[1..] == rest;
  }

  // ---- from calls to nodes ----

  lemma {:induction false} OwnNodeTells(env: Env, call: Call, ctx: Option<Context>)
    requires WellFormed(call) && call.spanOpens
    ensures |Forest(call, ctx)| == 1 && Tells(env, call, ctx, Final(env, Forest(call, ctx)[0]).content)
  {
    hide Fails;
    FailsExactlyWhen(call);
  }

  lemma {:induction false} OwnNodeHolds(call: Call, ctx: Option<Context>, v: Node)
    requires WellFormed(call) && call.spanOpens
    ensures InForest(Forest(call, ctx), v) <==>
              v == Forest(call, ctx)[0] || (!call.blocked && InForest(BodyForest(call.body, Below(call, ctx)), v))
  {
    var own := Forest(call, ctx)[0];
    assert Forest(call, ctx) == [own];
    assert own.children == if call.blocked then [] else BodyForest(call.body, Below(call, ctx));
  }

  lemma {:induction false} BodyRan(env: Env, call: Call, ctx: Option<Context>, s: Content)
    requires WellFormed(call) && !(call.spanOpens && call.blocked)
    ensures ToldAmong(env, call.body, Below(call, ctx), s) ==> Told(env, call, ctx, s)
  {
    hide Tells, RanAmong;
  }

  /** The nodes of the forest are the spans of the calls that ran. */
  lemma {:induction false} ForestTells(env: Env, call: Call, ctx: Option<Context>)
    requires WellFormed(call)
    ensures forall v :: InForest(Forest(call, ctx), v) ==> Told(env, call, ctx, Final(env, v).content)
    ensures forall c, cctx :: Ran(call, ctx, c, cctx) && c.spanOpens ==>
              exists v :: InForest(Forest(call, ctx), v) && Tells(env, c, cctx, Final(env, v).content)
    decreases call
  {
    hide Tells, Final, Told, ToldAmong, InForest, RanAmong;
    var inner := Below(call, ctx);
    if !(call.spanOpens && call.blocked) {
      BodyTells(env, call.body, inner);
    }
    forall v | InForest(Forest(call, ctx), v) ensures Told(env, call, ctx, Final(env, v).content) {
      if call.spanOpens {
        OwnNodeHolds(call, ctx, v);
      }
      if call.spanOpens && v == Forest(call, ctx)[0] {
        OwnCallTold(env, call, ctx);
      } else {
        BodyRan(env, call, ctx, Final(env, v).content);
      }
    }
    forall c, cctx | Ran(call, ctx, c, cctx) && c.spanOpens
      ensures exists v :: InForest(Forest(call, ctx), v) && Tells(env, c, cctx, Final(env, v).content)
    {
      if c == call && cctx == ctx {
        OwnNodeTells(env, call, ctx);
        OwnNodeHolds(call, ctx, Forest(call, ctx)[0]);
      } else {
        assert RanAmong(call.body, inner, c, cctx);
        var v :| InForest(BodyForest(call.body, inner), v) && Tells(env, c, cctx, Final(env, v).content);
        if call.spanOpens {
          OwnNodeHolds(call, ctx, v);
        }
      }
    }
  }

  lemma {:induction false} OwnCallTold(env: Env, call: Call, ctx: Option<Context>)
    requires WellFormed(call) && call.spanOpens
    ensures |Forest(call, ctx)| == 1 && Told(env, call, ctx, Final(env, Forest(call, ctx)[0]).content)
  {
    hide Tells, Final, Forest;
    OwnNodeTells(env, call, ctx);
    assert Ran(call, ctx, call, ctx);
  }

  lemma {:induction false} BodyTells(env: Env, calls: seq<Call>, ctx: Option<Context>)
    requires forall c :: c in calls ==> WellFormed(c)
    ensures forall v :: InForest(BodyForest(calls, ctx), v) ==> ToldAmong(env, calls, ctx, Final(env, v).content)
    ensures forall c, cctx :: RanAmong(calls, ctx, c, cctx) && c.spanOpens ==>
              exists v :: InForest(BodyForest(calls, ctx), v) && Tells(env, c, cctx, Final(env, v).content)
    decreases calls
  {
    hide Tells, Final;
    if calls != [] {
      var rest := calls[1..];
      var here, there := Forest(calls[0], ctx), if Escapes(calls[0]) then [] else BodyForest(rest, ctx);
      ForestTells(env, calls[0], ctx);
      BodyTells(env, rest, ctx);
      forall c, cctx ensures RanAmong(calls, ctx, c, cctx) <==>
                             Ran(calls[0], ctx, c, cctx) || (!Escapes(calls[0]) && RanAmong(rest, ctx, c, cctx))
      {
        RanFirstOrLater(calls, ctx, c, cctx);
      }
      forall v ensures InForest(BodyForest(calls, ctx), v) <==> InForest(here, v) || InForest(there, v) {
        InSplitForest(here, there, v);
      }
    }
  }

  lemma {:induction false} ReachedLater(calls: seq<Call>, i: nat, k: nat)
    requires calls != [] && i == k + 1
    ensures Reached(calls, i) <==> !Escapes(calls[0]) && Reached(calls[1..], k)
  {
    hide Fails, Raises;
    FailsExactlyWhen(calls[0]);
    var rest := calls[1..];
    assert forall j :: 0 <= j < |rest| ==> rest[j] == calls[j + 1];
    assert forall j :: 1 <= j < |calls| ==> calls[j] == rest[j - 1];
  }

  lemma {:induction false} RanFirstOrLater(calls: seq<Call>, ctx: Option<Context>, c: Call, cctx: Option<Context>)
    requires calls != [] && forall s :: s in calls ==> WellFormed(s)
    ensures RanAmong(calls, ctx, c, cctx) <==>
            Ran(calls[0], ctx, c, cctx) || (!Escapes(calls[0]) && RanAmong(calls[1..], ctx, c, cctx))
  {
    hide Ran, Fails, Raises, Escapes, Reached;
    var rest := calls[1..];
    if i :| 0 <= i < |calls| && Ran(calls[i], ctx, c, cctx) && Reached(calls, i) {
      if i > 0 {
        ReachedLater(calls, i, i - 1);
        assert rest[i - 1] == calls[i];
      }
    }
    if Ran(calls[0], ctx, c, cctx) {
      assert Reached(calls, 0) by { FirstReached(calls); }
    }
    if !Escapes(calls[0]) && RanAmong(rest, ctx, c, cctx) {
      var k: nat :| 0 <= k < |rest| && Ran(rest[k], ctx, c, cctx) && Reached(rest, k);
      ReachedLater(calls, k + 1, k);
      assert calls[k + 1] == rest[k];
    }
  }

  lemma {:induction false} FirstReached(calls: seq<Call>)
    requires calls != []
    ensures Reached(calls, 0)
  {
  }

  lemma {:induction false} LogIsForest(env: Env, call: Call)
    requires WellFormed(call) && Distinct(AllIds(Forest(call, None)))
    ensures var r := Replay(env, Events(call, None));
            r.Some? && r.value.builder.log == LogOfForest(env, Forest(call, None), true)
  {
    hide Replay, Events, Forest, LogOfForest, AllIds;
    CallTrees.TracedCallReplays(env, call);
  }

  // ---- main result ----

  /** Every span in the log of a traced call tree is that of a call that ran, recorded as the call went and ended, and every
      call that ran and got a span is in the log. */
  lemma {:induction false} LogTellsEveryCall(env: Env, call: Call)
    requires WellFormed(call) && Distinct(AllIds(Forest(call, None)))
    ensures var r := Replay(env, Events(call, None));
            && r.Some?
            && (forall s :: s in r.value.builder.log ==> Told(env, call, None, s.content))
            && (forall c, cctx :: Ran(call, None, c, cctx) && c.spanOpens ==>
                  exists s :: s in r.value.builder.log && Tells(env, c, cctx, s.content))
  {
    hide Replay, Events, Forest, LogOfForest, AllIds, Tells, Final, Ran, InForest;
    var nodes := Forest(call, None);
    var log := LogOfForest(env, nodes, true);
    LogIsForest(env, call);
    LogHoldsForest(env, nodes, true);
    ForestTells(env, call, None);
    forall c, cctx | Ran(call, None, c, cctx) && c.spanOpens
      ensures exists s :: s in log && Tells(env, c, cctx, s.content)
    {
      var v :| InForest(nodes, v) && Tells(env, c, cctx, Final(env, v).content);
      assert Holds(env, log, v);
    }
  }
}
