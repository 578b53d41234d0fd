/** Recorder, ledger and reporter together: what a builder exports, the ledger stores and the loader accepts. */
module Pipeline {
  import opened Wrappers
  import opened Spans
  import opened SpanBuilder
  import opened BuilderRuns
  import opened BuilderPlacement
  import Traced
  import CallTrees
  import Trajectory
  import Ingest
  import opened IngestRuns
  import Sorting
  import Attestation
  import AnchorRuns

  function LogSet(log: seq<Span>): set<Span> {
    set s | s in log
  }

  /** The ledger checks with the recorder's own hash and supports the recorder's schema version. */
  ghost predicate SameSchema(env: Env, settings: Ingest.Settings) {
    settings.hash == env.hash && settings.supportedMajor == Ingest.Major(SCHEMA_VERSION)
  }

  /** Every log of every builder run passes all the ledger's checks, in any order. */
  lemma {:induction false} RunLogIsCoherent(env: Env, settings: Ingest.Settings, r: Run)
    requires Inv(env, r) && SameSchema(env, settings)
    ensures Coherent(settings, LogSet(r.builder.log))
  {
    hide LogOf, SinceClose, ClosedChildren, Ingest.Major;
    var log := r.builder.log;
    EveryExportIsStamped(env, r);
    OnceOnly(env, r);
    forall s | s in log
      ensures env.hash(s.content) == s.provenance.contentHash && s.provenance.schemaVersion == SCHEMA_VERSION
    {
      assert Exported(env, r, s);
    }
    forall s, t | s in log && t in log && SameSpan(s, t) ensures s == t {
      var i :| 0 <= i < |log| && log[i] == s;
      var j :| 0 <= j < |log| && log[j] == t;
      assert Ids(log)[i] == Ids(log)[j];
    }
    forall s, t | s in log && t in log && s.content.parentId == Some(t.content.spanId)
      ensures s.provenance.parentHash == Some(t.provenance.contentHash)
    {
      assert Exported(env, r, s) && Exported(env, r, t);
    }
  }

  /** Whatever drivers did to the builder, at-least-once delivery of its log stores exactly that log. */
  lemma {:induction false} RunLogIsStored(env: Env, settings: Ingest.Settings, trace: seq<Event>, ds: seq<Delivery>)
    requires SameSchema(env, settings) && Replay(env, trace).Some?
    requires var all := LogSet(Replay(env, trace).value.builder.log); AllBring(ds, all) && CarriedByAll(ds) == all
    ensures var log := Replay(env, trace).value.builder.log;
            var l := RunAll(settings, Ingest.Ledger([], [], []), ds);
            && SpanSet(l.rows) == LogSet(log) && |l.rows| == |log| && l.quarantine == []
  {
    hide Replay;
    var r := Replay(env, trace).value;
    BuilderRuns.EveryRunKeepsInv(env, trace);
    RunLogIsCoherent(env, settings, r);
    IngestConverges(settings, ds, LogSet(r.builder.log));
    OnceOnly(env, r);
    DistinctIdsCount(r.builder.log);
  }

  lemma {:induction false} DistinctIdsCount(log: seq<Span>)
    requires Distinct(Ids(log))
    ensures |log| == |LogSet(log)| && Distinct(log)
  {
    forall i, j | 0 <= i < j < |log| ensures log[i] != log[j] {
      assert Ids(log)[i] != Ids(log)[j];
    }
    DistinctCount(log);
  }

  lemma {:induction false} DistinctCount(log: seq<Span>)
    requires Distinct(log)
    ensures |log| == |LogSet(log)|
  {
    if log != [] {
      var init, last := log[..|log| - 1], log[|log| - 1];
      assert log == init + [last];
      DistinctAppend(init, [last]);
      DistinctCount(init);
      assert LogSet(log) == LogSet(init) + {last};
    }
  }

  lemma {:induction false} SameSetSameMultiset(a: seq<Span>, b: seq<Span>)
    requires Distinct(a) && Distinct(b) && LogSet(a) == LogSet(b)
    ensures multiset(a) == multiset(b)
  {
    Trajectory.DistinctByMultiplicity(a);
    Trajectory.DistinctByMultiplicity(b);
    forall x ensures multiset(a)[x] == multiset(b)[x] {
      assert x in a <==> x in LogSet(a);
      assert x in b <==> x in LogSet(b);
      assert x in a <==> x in multiset(a);
      assert x in b <==> x in multiset(b);
    }
  }

  /** One traced call tree, delivered at least once in any batches: the ledger keeps exactly its spans, and
      reading them back in any order gives a trajectory that loads with hash checks and classifies as verified. */
  lemma {:induction false} RecordStoreLoad(env: Env, settings: Ingest.Settings, call: Traced.Call, ds: seq<Delivery>, fetched: seq<Span>)
    requires SameSchema(env, settings)
    requires Traced.WellFormed(call) && call.spanOpens && Distinct(Traced.AllIds(Traced.Forest(call, None)))
    requires var r := Replay(env, Traced.Events(call, None));
             r.Some? ==>
               && AllBring(ds, LogSet(r.value.builder.log)) && CarriedByAll(ds) == LogSet(r.value.builder.log)
               && Distinct(fetched)
               && LogSet(fetched) == SpanSet(RunAll(settings, Ingest.Ledger([], [], []), ds).rows)
    ensures Replay(env, Traced.Events(call, None)).Some?
    ensures |RunAll(settings, Ingest.Ledger([], [], []), ds).rows| == |Traced.AllIds(Traced.Forest(call, None))|
    ensures Trajectory.Loadable(env.hash, fetched)
    ensures forall s :: s in fetched ==> !Trajectory.LinkBroken(fetched, s) && !Trajectory.LinkPending(fetched, s)
  {
    hide Replay, Traced.Events, Traced.Forest, Traced.LogOfForest, Traced.AllIds, RunAll, AllBring, Trajectory.Loadable, Inv;
    var nodes := Traced.Forest(call, None);
    CallTrees.TracedCallReplays(env, call);
    var r := Replay(env, Traced.Events(call, None)).value;
    RunLogIsStored(env, settings, Traced.Events(call, None), ds);
    BuilderRuns.EveryRunKeepsInv(env, Traced.Events(call, None));
    OnceOnly(env, r);
    DistinctIdsCount(r.builder.log);
    SameSetSameMultiset(fetched, r.builder.log);
    CallTrees.TracedTreeLoads(env, call, fetched);
    Trajectory.LoadableIsVerified(env.hash, fetched);
    CallTrees.LogCountsForest(env, nodes, true);
  }

  // ---- attestation of what was recorded ----

  /** The span closed last: the root of a traced call. */
  function RootOf(log: seq<Span>): Span
    requires log != []
  {
    log[|log| - 1]
  }

  /** The store's rows of the trajectory, at the end of the steps, all come from the log. */
  ghost predicate OnlyFrom(log: seq<Span>, spans: seq<Span>)
    requires log != []
  {
    var c, t := RootOf(log).content.customer, RootOf(log).content.trajectoryId;
    forall s :: s in spans && s.content.customer == c && s.content.trajectoryId == t ==> s in log
  }

  function OwnRows(log: seq<Span>, spans: seq<Span>): seq<Span>
    requires log != []
  {
    AnchorRuns.OwnRows(spans, RootOf(log).content.customer, RootOf(log).content.trajectoryId)
  }

  /** In a log that loads and ends in its root, every root span is that one. */
  lemma {:induction false} LastIsOnlyRoot(hash: ContentHash, log: seq<Span>, s: Span)
    requires Trajectory.Loadable(hash, log) && log != [] && Trajectory.IsRoot(RootOf(log)) && s in log && Trajectory.IsRoot(s)
    ensures s == RootOf(log)
  {
    var i :| 0 <= i < |log| && log[i] == s;
    assert log[|log| - 1] == RootOf(log);
  }

  lemma {:induction false} LoadableIsDistinct(hash: ContentHash, log: seq<Span>)
    requires Trajectory.Loadable(hash, log)
    ensures Distinct(Ids(log))
  {
  }

  lemma {:induction false} DistinctKeys(log: seq<Span>)
    requires Distinct(Ids(log))
    ensures forall x, y :: x in log && y in log ==> Attestation.TiesAgree(x, y)
  {
    forall x, y | x in log && y in log && SpanId(x) == SpanId(y) ensures x == y {
      var i :| 0 <= i < |log| && log[i] == x;
      var j :| 0 <= j < |log| && log[j] == y;
      assert Ids(log)[i] == Ids(log)[j];
    }
  }

  /** A recorded trajectory is attested at most once; and when the window covering its root's end was built from all its
      rows, exactly once, with the Merkle root of its own log in start order, however the store ordered the rows. */
  lemma {:induction false} LogIsAttestedOnce(env: Env, anchor: Attestation.Env, log: seq<Span>, steps: seq<AnchorRuns.Step>, id: nat)
    requires Trajectory.Loadable(env.hash, log) && log != [] && Trajectory.IsRoot(RootOf(log))
    requires OnlyFrom(log, AnchorRuns.Run(anchor, steps).spans)
    requires id < |AnchorRuns.Run(anchor, steps).windows|
    requires AnchorRuns.Run(anchor, steps).windows[id].customer == RootOf(log).content.customer
    requires AnchorRuns.Covers(AnchorRuns.Run(anchor, steps).windows[id], RootOf(log).content.endTime)
    requires multiset(OwnRows(log, AnchorRuns.SpansAt(anchor, steps, id))) == multiset(OwnRows(log, log))
    ensures var db, c, t := AnchorRuns.Run(anchor, steps), RootOf(log).content.customer, RootOf(log).content.trajectoryId;
            && (exists l :: AnchorRuns.IsLeafOf(db, l, c, t))
            && (forall l, m :: AnchorRuns.IsLeafOf(db, l, c, t) && AnchorRuns.IsLeafOf(db, m, c, t) ==> l == m)
            && (forall l :: AnchorRuns.IsLeafOf(db, l, c, t) ==>
                  && l.windowId == id && l.rootHash == Attestation.TrajectoryRoot(anchor.sha, log, c, t)
                  && Attestation.RootOfRows(anchor.sha, log, c, t, l.rootHash))
  {
    hide AnchorRuns.Run, AnchorRuns.SpansAt, Attestation.TrajectoryRoot, Attestation.RootOfRows, Trajectory.Loadable;
    var db, c, t := AnchorRuns.Run(anchor, steps), RootOf(log).content.customer, RootOf(log).content.trajectoryId;
    var end, rows := RootOf(log).content.endTime, AnchorRuns.SpansAt(anchor, steps, id);
    forall s | s in db.spans && Attestation.IsRootOf(s, c, t) ensures s.content.endTime == end {
      LastIsOnlyRoot(env.hash, log, s);
    }
    RootIsStored(log, rows);
    assert AnchorRuns.StoredInTime(anchor, steps, id, c, t, end);
    AnchorRuns.AttestedAtMostOnce(anchor, steps, c, t, end);
    AnchorRuns.LeafExactlyWhen(anchor, steps, id, t);
    assert AnchorRuns.RootStoredBy(rows, c, t, db.windows[id]);
    assert Distinct(Ids(log)) by { LoadableIsDistinct(env.hash, log); }
    DistinctKeys(log);
    Attestation.RootOfSameRows(anchor.sha, log, rows, c, t);
    assert RootOf(log) in log;
    Attestation.TrajectoryRootIsOfRows(anchor.sha, log, c, t);
    var here :| AnchorRuns.IsLeafIn(db, id, here, t);
    assert AnchorRuns.IsLeafOf(db, here, c, t);
  }

  lemma {:induction false} RootIsStored(log: seq<Span>, rows: seq<Span>)
    requires log != [] && Trajectory.IsRoot(RootOf(log)) && multiset(OwnRows(log, rows)) == multiset(OwnRows(log, log))
    ensures RootOf(log) in rows
    ensures Attestation.IsRootOf(RootOf(log), RootOf(log).content.customer, RootOf(log).content.trajectoryId)
  {
    var own := Attestation.InTrajectories(RootOf(log).content.customer, {RootOf(log).content.trajectoryId});
    Sorting.WhereMembers(own, log, RootOf(log));
    assert RootOf(log) in multiset(OwnRows(log, rows));
    Sorting.WhereMembers(own, rows, RootOf(log));
  }

  /** The same for the log of one traced call tree. */
  lemma {:induction false} TracedTreeIsAttestedOnce(env: Env, anchor: Attestation.Env, call: Traced.Call,
                                                    steps: seq<AnchorRuns.Step>, id: nat)
    requires Traced.WellFormed(call) && call.spanOpens && Distinct(Traced.AllIds(Traced.Forest(call, None)))
    requires id < |AnchorRuns.Run(anchor, steps).windows|
    requires var log := Traced.LogOfForest(env, Traced.Forest(call, None), true);
             && log != [] && OnlyFrom(log, AnchorRuns.Run(anchor, steps).spans)
             && AnchorRuns.Run(anchor, steps).windows[id].customer == RootOf(log).content.customer
             && AnchorRuns.Covers(AnchorRuns.Run(anchor, steps).windows[id], RootOf(log).content.endTime)
             && multiset(OwnRows(log, AnchorRuns.SpansAt(anchor, steps, id))) == multiset(OwnRows(log, log))
    ensures var r := Replay(env, Traced.Events(call, None));
            r.Some? && r.value.builder.log == Traced.LogOfForest(env, Traced.Forest(call, None), true)
    ensures var db, log := AnchorRuns.Run(anchor, steps), Traced.LogOfForest(env, Traced.Forest(call, None), true);
            var c, t := RootOf(log).content.customer, RootOf(log).content.trajectoryId;
            exists l :: AnchorRuns.IsLeafOf(db, l, c, t) && Attestation.RootOfRows(anchor.sha, log, c, t, l.rootHash)
                        && forall m :: AnchorRuns.IsLeafOf(db, m, c, t) ==> m == l
  {
    hide AnchorRuns.Run, AnchorRuns.SpansAt, AnchorRuns.Covers, AnchorRuns.IsLeafOf, Attestation.RootOfRows, Attestation.TrajectoryRoot;
    hide Trajectory.Loadable, Traced.LogOfForest, Traced.Forest, Traced.AllIds, Traced.Events, Replay, OnlyFrom, OwnRows, RootOf;
    TracedLogLoads(env, call);
    LogIsAttestedOnce(env, anchor, Traced.LogOfForest(env, Traced.Forest(call, None), true), steps, id);
  }

  lemma {:induction false} TracedLogLoads(env: Env, call: Traced.Call)
    requires Traced.WellFormed(call) && call.spanOpens && Distinct(Traced.AllIds(Traced.Forest(call, None)))
    ensures var log := Traced.LogOfForest(env, Traced.Forest(call, None), true);
            var r := Replay(env, Traced.Events(call, None));
            && r.Some? && r.value.builder.log == log
            && log != [] && Trajectory.Loadable(env.hash, log) && Trajectory.IsRoot(RootOf(log))
  {
    hide Trajectory.Loadable, Traced.LogOfForest, Replay, Traced.Events;
    CallTrees.TracedCallReplays(env, call);
    var log := Replay(env, Traced.Events(call, None)).value.builder.log;
    CallTrees.TracedTreeLoads(env, call, log);
    LoadableHasSpans(env.hash, log);
    assert Trajectory.IsRoot(RootOf(log)) by { RootHasNoParent(env, call); }
  }

  lemma {:induction false} LoadableHasSpans(hash: ContentHash, log: seq<Span>)
    requires Trajectory.Loadable(hash, log)
    ensures log != []
  {
  }

  lemma {:induction false} RootHasNoParent(env: Env, call: Traced.Call)
    requires Traced.WellFormed(call) && call.spanOpens
    ensures Trajectory.IsRoot(Traced.Final(env, Traced.Forest(call, None)[0]))
  {
  }
}
