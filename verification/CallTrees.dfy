/** What one traced call tree exports, in whatever order it arrives, is a trajectory the reporter accepts. */
module CallTrees {
  import opened Wrappers
  import opened Spans
  import opened SpanBuilder
  import opened BuilderRuns
  import opened BuilderPlacement
  import opened Traced
  import Trajectory

  /** Every node names its parent node, and all share one trajectory. */
  ghost predicate Linked(nodes: seq<Node>, parent: Option<string>, trajectoryId: string) {
    forall v :: v in nodes ==>
      && v.view.parent == parent && v.view.trajectoryId == trajectoryId
      && Linked(v.children, Some(v.id), trajectoryId)
  }

  lemma {:induction false} ForestIsLinked(call: Call, ctx: Context)
    requires WellFormed(call)
    ensures Linked(Forest(call, Some(ctx)), Some(ctx.spanId), ctx.trajectoryId)
    decreases call
  {
    if !call.spanOpens {
      BodyIsLinked(call.body, ctx);
    } else if !call.blocked {
      BodyIsLinked(call.body, Inner(call, Some(ctx)));
    }
  }

  lemma {:induction false} BodyIsLinked(calls: seq<Call>, ctx: Context)
    requires forall c :: c in calls ==> WellFormed(c)
    ensures Linked(BodyForest(calls, Some(ctx)), Some(ctx.spanId), ctx.trajectoryId)
    decreases calls
  {
    if calls != [] {
      ForestIsLinked(calls[0], ctx);
      BodyIsLinked(calls[1..], ctx);
    }
  }

  lemma {:induction false} RootIsLinked(call: Call)
    requires WellFormed(call) && call.spanOpens
    ensures Linked(Forest(call, None), None, call.trace) && |Forest(call, None)| == 1
  {
    if !call.blocked {
      BodyIsLinked(call.body, Inner(call, None));
    }
  }

  /** The trajectory and root-ness of every exported span. */
  lemma {:induction false} LogIsLinked(env: Env, nodes: seq<Node>, parent: Option<string>, trajectoryId: string, asRoots: bool)
    requires Linked(nodes, parent, trajectoryId)
    ensures forall s :: s in LogOfForest(env, nodes, asRoots) ==>
              && s.content.trajectoryId == trajectoryId
              && (s.content.parentId.None? ==> asRoots && parent.None? && exists v :: v in nodes && s == Final(env, v))
  {
    if nodes != [] {
      var v := nodes[0];
      assert v in nodes && (forall w :: w in nodes[1..] ==> w in nodes);
      LogIsLinked(env, v.children, Some(v.id), trajectoryId, false);
      LogIsLinked(env, nodes[1..], parent, trajectoryId, asRoots);
      var stamped := StampAll(Finals(env, v.children), Final(env, v).provenance.contentHash);
      forall s | s in stamped ensures s.content.trajectoryId == trajectoryId && s.content.parentId == Some(v.id) {
        var i :| 0 <= i < |stamped| && stamped[i] == s;
        assert v.children[i] in v.children;
      }
    }
  }

  function RootIds(nodes: seq<Node>): (ids: seq<string>)
    ensures |ids| == |nodes|
  {
    seq(|nodes|, i requires 0 <= i < |nodes| => nodes[i].id)
  }

  /** The exported ids are those of all nodes; without the roots, those of all nodes below. */
  lemma {:induction false} LogCoversForest(env: Env, nodes: seq<Node>, asRoots: bool, id: string)
    ensures id in AllIds(nodes) <==> id in Ids(LogOfForest(env, nodes, asRoots)) || id in RootIds(nodes)
    ensures asRoots && id in RootIds(nodes) ==> id in Ids(LogOfForest(env, nodes, asRoots))
  {
    if nodes != [] {
      var v, rest := nodes[0], nodes[1..];
      LogCoversForest(env, v.children, false, id);
      LogCoversForest(env, rest, asRoots, id);
      LogIds(env, v, rest, asRoots);
      assert nodes == [v] + rest && RootIds(nodes) == [v.id] + RootIds(rest);
      assert AllIds(nodes) == AllIds(v.children) + [v.id] + AllIds(rest);
    }
  }

  lemma {:induction false} LogIds(env: Env, v: Node, rest: seq<Node>, asRoots: bool)
    ensures Ids(LogOfForest(env, [v] + rest, asRoots)) ==
            (Ids(LogOfForest(env, v.children, false)) + RootIds(v.children))
            + ((if asRoots then [v.id] else []) + Ids(LogOfForest(env, rest, asRoots)))
  {
    var below := LogOfForest(env, v.children, false);
    var stamped := StampAll(Finals(env, v.children), Final(env, v).provenance.contentHash);
    var own := if asRoots then [Final(env, v)] else [];
    var after := LogOfForest(env, rest, asRoots);
    LogSplits(env, v, rest, asRoots);
    StampedIds(env, v.children, Final(env, v).provenance.contentHash);
    assert Ids(own) == (if asRoots then [v.id] else []);
    hide LogOfForest, Finals, Final, StampAll, Ids, RootIds;
    IdsAppend(below, stamped);
    IdsAppend(below + stamped, own);
    IdsAppend(below + stamped + own, after);
    RegroupFour(Ids(below), Ids(stamped), Ids(own), Ids(after));
  }

  lemma {:induction false} RegroupFour<T>(a: seq<T>, b: seq<T>, c: seq<T>, d: seq<T>)
    ensures ((a + b) + c) + d == (a + b) + (c + d)
  {
  }

  lemma {:induction false} LogSplits(env: Env, v: Node, rest: seq<Node>, asRoots: bool)
    ensures LogOfForest(env, [v] + rest, asRoots) ==
            LogOfForest(env, v.children, false) + StampAll(Finals(env, v.children), Final(env, v).provenance.contentHash)
            + (if asRoots then [Final(env, v)] else []) + LogOfForest(env, rest, asRoots)
  {
    assert ([v] + rest)[1..] == rest;
  }

  lemma {:induction false} StampedIds(env: Env, nodes: seq<Node>, h: Digest)
    ensures Ids(StampAll(Finals(env, nodes), h)) == RootIds(nodes)
  {
  }

  lemma {:induction false} LogCountsForest(env: Env, nodes: seq<Node>, asRoots: bool)
    ensures |LogOfForest(env, nodes, asRoots)| + (if asRoots then 0 else |nodes|) == |AllIds(nodes)|
  {
    if nodes != [] {
      LogCountsForest(env, nodes[0].children, false);
      LogCountsForest(env, nodes[1..], asRoots);
    }
  }

  lemma {:induction false} TracedCallReplays(env: Env, call: Call)
    requires WellFormed(call) && Distinct(AllIds(Forest(call, None)))
    ensures var r := Replay(env, Events(call, None));
            r.Some? && Effect(env, EMPTY_RUN, r.value, None, Forest(call, None))
  {
    CallEffect(env, EMPTY_RUN, call, None);
    ReplayAppend(env, [], Events(call, None));
    assert [] + Events(call, None) == Events(call, None);
  }

  /** A whole traced call that opened a root span: nothing stays pending, the root is exported last,
      and any permutation of the log loads with hash checks on. */
  lemma {:induction false} TracedTreeLoads(env: Env, call: Call, arrived: seq<Span>)
    requires WellFormed(call) && call.spanOpens && Distinct(AllIds(Forest(call, None)))
    requires var r := Replay(env, Events(call, None)); r.Some? ==> multiset(arrived) == multiset(r.value.builder.log)
    ensures var r := Replay(env, Events(call, None));
            && r.Some?
            && r.value.builder.log == LogOfForest(env, Forest(call, None), true)
            && r.value.builder.log[|r.value.builder.log| - 1] == Final(env, Forest(call, None)[0])
            && (forall id :: id in r.value.builder.opens ==> id in Ids(r.value.builder.log))
            && Trajectory.Loadable(env.hash, r.value.builder.log)
            && Trajectory.Loadable(env.hash, arrived)
  {
    var nodes := Forest(call, None);
    TracedCallReplays(env, call);
    EveryRunKeepsInv(env, Events(call, None));
    var r := Replay(env, Events(call, None)).value;
    assert [] + LogOfForest(env, nodes, true) == LogOfForest(env, nodes, true);
    RootIsLinked(call);
    SingleNode(env, nodes[0], true);
    assert nodes == [nodes[0]];
    forall id | id in r.builder.opens ensures id in Ids(r.builder.log) {
      LogCoversForest(env, nodes, true, id);
    }
    LogLoads(env, r, nodes, call.trace);
    Trajectory.LoadableIgnoresOrder(env.hash, r.builder.log, arrived);
  }

  lemma {:induction false} LogHasOneRoot(env: Env, v: Node, trajectoryId: string)
    requires Linked([v], None, trajectoryId) && Distinct(Ids(LogOfForest(env, [v], true)))
    ensures Trajectory.OneRoot(LogOfForest(env, [v], true)) && Trajectory.OneTrajectory(LogOfForest(env, [v], true))
  {
    hide LogOfForest, Linked, Trajectory.OneRoot, AllIds, Finals, Ids;
    SingleNode(env, v, true);
    LogIsLinked(env, [v], None, trajectoryId, true);
    var log, root := LogOfForest(env, [v], true), Final(env, v);
    LinkedHead(v, trajectoryId);
    assert root in log by {
      RootIsExported(env, v);
    }
    forall t | t in log && Trajectory.IsRoot(t) ensures t == root {
      var w :| w in [v] && t == Final(env, w);
    }
    Trajectory.OneRootByCount(log);
  }

  lemma {:induction false} RootIsExported(env: Env, v: Node)
    ensures var log := LogOfForest(env, [v], true); log != [] && log[|log| - 1] == Final(env, v)
  {
    SingleNode(env, v, true);
  }

  lemma {:induction false} LinkedHead(v: Node, trajectoryId: string)
    requires Linked([v], None, trajectoryId)
    ensures v.view.parent == None
  {
    assert v in [v];
  }

  lemma {:induction false} LogLoads(env: Env, r: Run, nodes: seq<Node>, trajectoryId: string)
    requires Inv(env, r) && |nodes| == 1 && Linked(nodes, None, trajectoryId)
    requires r.builder.log == LogOfForest(env, nodes, true)
    requires forall id :: id in r.builder.opens ==> id in Ids(r.builder.log)
    ensures Trajectory.Loadable(env.hash, r.builder.log)
  {
    hide LogOfForest, AllIds, Inv, Linked, Trajectory.OneRoot, Trajectory.OneTrajectory, Ids, Exported, Finalize;
    OnceOnly(env, r);
    assert nodes == [nodes[0]];
    LogHasOneRoot(env, nodes[0], trajectoryId);
    LogHashesHold(env, r);
    assert r.builder.log != [] by {
      SingleNode(env, nodes[0], true);
    }
  }

  /** In a run that exported everything it opened, parents are there and all hashes hold. */
  lemma {:induction false} LogHashesHold(env: Env, r: Run)
    requires Inv(env, r) && forall id :: id in r.builder.opens ==> id in Ids(r.builder.log)
    ensures Trajectory.ParentsPresent(r.builder.log)
    ensures forall s :: s in r.builder.log ==> Trajectory.HashesHold(env.hash, r.builder.log, s)
  {
    hide LogOf, SinceClose, ClosedChildren, ChildrenIn, Ids;
    var log := r.builder.log;
    EveryExportIsStamped(env, r);
    forall s | s in log && !Trajectory.IsRoot(s) ensures Trajectory.HasSpan(log, s.content.parentId.value) {
      assert Exported(env, r, s);
      IdsMembers(log, s.content.parentId.value);
    }
    forall s | s in log ensures Trajectory.HashesHold(env.hash, log, s) {
      assert Exported(env, r, s);
      forall p | p in log && s.content.parentId == Some(SpanId(p))
        ensures s.provenance.parentHash == Some(p.provenance.contentHash)
      {
        assert Exported(env, r, p);
      }
    }
  }
}
