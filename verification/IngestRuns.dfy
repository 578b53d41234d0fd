/** What every sequence of ingest batches keeps, and when deliveries converge. */
module IngestRuns {
  import opened Wrappers
  import opened Spans
  import opened Ingest

  datatype Delivery = Delivery(token: Token, batch: seq<Raw>)

  function RunAll(env: Settings, l: Ledger, ds: seq<Delivery>): Ledger {
    if ds == [] then l
    else
      var last := ds[|ds| - 1];
      IngestBatch(env, RunAll(env, l, ds[..|ds| - 1]), last.token, last.batch).0
  }

  // ---- arbitrary input ----

  predicate Fits(token: Token, s: Span) {
    token.customer == "" || s.content.customer == token.customer
  }

  /** A stored row was checked: its hash recomputes, its version is supported, its writer's token covers it. */
  predicate Genuine(env: Settings, batches: seq<BatchRecord>, r: Row) {
    && r.batch < |batches|
    && env.hash(r.span.content) == r.span.provenance.contentHash
    && Major(r.span.provenance.schemaVersion) == env.supportedMajor
    && Fits(batches[r.batch].token, r.span)
  }

  function SumAccepted(batches: seq<BatchRecord>): nat {
    if batches == [] then 0 else SumAccepted(batches[..|batches| - 1]) + batches[|batches| - 1].accepted
  }

  function SumRejected(batches: seq<BatchRecord>): nat {
    if batches == [] then 0 else SumRejected(batches[..|batches| - 1]) + batches[|batches| - 1].rejected
  }

  ghost predicate LedgerInv(env: Settings, l: Ledger) {
    && (forall r :: r in l.rows ==> Genuine(env, l.batches, r))
    && |l.rows| == SumAccepted(l.batches)
    && |l.quarantine| == SumRejected(l.batches)
  }

  lemma {:induction false} InsertAddsOnly(rows: seq<Row>, spans: seq<Span>, batch: nat)
    ensures forall r :: r in Insert(rows, spans, batch) ==> r in rows || (r.batch == batch && r.span in spans)
    decreases |spans|
  {
    if spans != [] {
      InsertAddsOnly(rows, spans[..|spans| - 1], batch);
      assert forall s :: s in spans[..|spans| - 1] ==> s in spans;
    }
  }

  lemma {:induction false} InsertCovers(rows: seq<Row>, spans: seq<Span>, batch: nat)
    ensures forall s :: s in spans ==> exists r :: r in Insert(rows, spans, batch) && Conflicts(r, s)
    decreases |spans|
  {
    if spans != [] {
      var init, last := spans[..|spans| - 1], spans[|spans| - 1];
      InsertCovers(rows, init, batch);
      var before, after := Insert(rows, init, batch), Insert(rows, spans, batch);
      assert forall r :: r in before ==> r in after;
      assert exists r :: r in after && Conflicts(r, last) by {
        if !(exists r :: r in before && Conflicts(r, last)) {
          assert Row(last, batch) in after && Conflicts(Row(last, batch), last);
        }
      }
      forall s | s in spans ensures exists r :: r in after && Conflicts(r, s) {
        if s in init {
          var r :| r in before && Conflicts(r, s);
          assert r in after;
        }
      }
    }
  }

  /** One batch: the store only grows, and every raw span is inserted, rejected, known already, or skipped as a repeat. */
  lemma {:induction false} BatchKeepsInv(env: Settings, l: Ledger, token: Token, batch: seq<Raw>)
    requires LedgerInv(env, l)
    ensures var (l', response) := IngestBatch(env, l, token, batch);
            && LedgerInv(env, l')
            && l.rows <= l'.rows && l.quarantine <= l'.quarantine && l.batches <= l'.batches
            && (response.ServerError? ==> l' == l)
            && (response.Stored? ==>
                  && |l'.rows| == |l.rows| + response.accepted
                  && |l'.quarantine| == |l.quarantine| + |response.rejected|
                  && |batch| == response.accepted + |response.rejected|
                                + AcknowledgedCount(env, token, l.rows, batch)
                                + (|Accepted(env, token, l.rows, batch)| - response.accepted)
                  && response.accepted <= |Accepted(env, token, l.rows, batch)|)
  {
    if !Raises(env, token, l.rows, batch) {
      var (l', response) := IngestBatch(env, l, token, batch);
      var accepted := Accepted(env, token, l.rows, batch);
      InsertAddsOnly(l.rows, accepted, |l.batches|);
      OutcomesAddUp(env, token, l.rows, batch);
      assert l'.batches[..|l'.batches| - 1] == l.batches;
      forall r | r in l'.rows ensures Genuine(env, l'.batches, r) {
        if r in l.rows {
          assert Genuine(env, l.batches, r);
        } else {
          assert r.span in accepted;
        }
      }
    }
  }

  lemma {:induction false} OutcomesAddUp(env: Settings, token: Token, rows: seq<Row>, batch: seq<Raw>)
    requires !Raises(env, token, rows, batch)
    ensures |batch| == |Accepted(env, token, rows, batch)| + |Rejections(env, token, rows, batch)|
                       + AcknowledgedCount(env, token, rows, batch)
  {
    if batch != [] {
      var init, last := batch[..|batch| - 1], batch[|batch| - 1];
      assert forall raw :: raw in init ==> raw in batch;
      assert last in batch;
      OutcomesAddUp(env, token, rows, init);
    }
  }

  lemma {:induction false} EveryRunKeepsInv(env: Settings, l: Ledger, ds: seq<Delivery>)
    requires LedgerInv(env, l)
    ensures var l' := RunAll(env, l, ds);
            LedgerInv(env, l') && l.rows <= l'.rows && l.quarantine <= l'.quarantine && l.batches <= l'.batches
  {
    if ds != [] {
      var init, last := ds[..|ds| - 1], ds[|ds| - 1];
      EveryRunKeepsInv(env, l, init);
      BatchKeepsInv(env, RunAll(env, l, init), last.token, last.batch);
    }
  }

  // ---- when (span, trajectory) pairs stay unique ----

  predicate SameSpan(s: Span, t: Span) {
    s.content.spanId == t.content.spanId && s.content.trajectoryId == t.content.trajectoryId
  }

  ghost predicate PairsUnique(rows: seq<Row>) {
    forall i, j :: 0 <= i < j < |rows| ==> !SameSpan(rows[i].span, rows[j].span)
  }

  ghost predicate PairFree(rows: seq<Row>, spanId: string, trajectoryId: string) {
    forall r :: r in rows ==> !SamePair(r.span, spanId, trajectoryId)
  }

  lemma {:induction false} MatchesCount(rows: seq<Row>, spanId: string, trajectoryId: string)
    requires PairsUnique(rows)
    ensures |Matches(rows, spanId, trajectoryId)| <= 1
    ensures |Matches(rows, spanId, trajectoryId)| == 0 <==> PairFree(rows, spanId, trajectoryId)
  {
    if rows != [] {
      var init, last := rows[..|rows| - 1], rows[|rows| - 1];
      MatchesCount(init, spanId, trajectoryId);
      assert rows == init + [last];
      if SamePair(last.span, spanId, trajectoryId) {
        assert PairFree(init, spanId, trajectoryId);
      }
    }
  }

  lemma {:induction false} UniqueNeverRaises(env: Settings, token: Token, rows: seq<Row>, batch: seq<Raw>)
    requires PairsUnique(rows)
    ensures !Raises(env, token, rows, batch)
    ensures forall s :: s in Accepted(env, token, rows, batch) ==> PairFree(rows, s.content.spanId, s.content.trajectoryId)
  {
    forall raw | raw in batch && raw.Good?
      ensures ValidateOne(env, token, rows, raw) != Raise
      ensures ValidateOne(env, token, rows, raw) == Accept ==>
                PairFree(rows, raw.span.content.spanId, raw.span.content.trajectoryId)
    {
      var s := raw.span;
      MatchesCount(rows, s.content.spanId, s.content.trajectoryId);
      if s.content.parentId.Some? {
        MatchesCount(rows, s.content.parentId.value, s.content.trajectoryId);
      }
    }
  }

  ghost predicate OneStartPerPair(spans: seq<Span>) {
    forall s, t :: s in spans && t in spans && SameSpan(s, t) ==> s.content.startTime == t.content.startTime
  }

  lemma {:induction false} InsertKeepsUnique(rows: seq<Row>, spans: seq<Span>, batch: nat)
    requires PairsUnique(rows) && OneStartPerPair(spans)
    requires forall s :: s in spans ==> PairFree(rows, s.content.spanId, s.content.trajectoryId)
    ensures PairsUnique(Insert(rows, spans, batch))
    decreases |spans|
  {
    if spans != [] {
      var init, last := spans[..|spans| - 1], spans[|spans| - 1];
      assert last in spans && forall s :: s in init ==> s in spans;
      InsertKeepsUnique(rows, init, batch);
      InsertAddsOnly(rows, init, batch);
      var before := Insert(rows, init, batch);
      forall r | r in before && !Conflicts(r, last) ensures !SameSpan(r.span, last) {
        if r !in rows {
          assert r.span in spans;
        }
      }
    }
  }

  /** From a store with unique pairs a batch never fails, and pairs stay unique exactly when the spans
      it accepts never give one pair two start times. */
  lemma {:induction false} UniqueExactlyWhen(env: Settings, l: Ledger, token: Token, batch: seq<Raw>)
    requires PairsUnique(l.rows)
    ensures IngestBatch(env, l, token, batch).1.Stored?
    ensures PairsUnique(IngestBatch(env, l, token, batch).0.rows) <==>
            OneStartPerPair(Accepted(env, token, l.rows, batch))
  {
    var accepted := Accepted(env, token, l.rows, batch);
    UniqueNeverRaises(env, token, l.rows, batch);
    if OneStartPerPair(accepted) {
      InsertKeepsUnique(l.rows, accepted, |l.batches|);
    } else {
      TwoStartsBreakUnique(l.rows, accepted, |l.batches|);
    }
  }

  lemma {:induction false} TwoStartsBreakUnique(rows: seq<Row>, spans: seq<Span>, batch: nat)
    requires !OneStartPerPair(spans)
    ensures !PairsUnique(Insert(rows, spans, batch))
  {
    var s, t :| s in spans && t in spans && SameSpan(s, t) && s.content.startTime != t.content.startTime;
    var after := Insert(rows, spans, batch);
    InsertCovers(rows, spans, batch);
    var a :| a in after && Conflicts(a, s);
    var b :| b in after && Conflicts(b, t);
    var i :| 0 <= i < |after| && after[i] == a;
    var j :| 0 <= j < |after| && after[j] == b;
    assert i != j && SameSpan(after[i].span, after[j].span);
  }

  /** Once a pair has two rows, every batch with a sound span of that pair is refused whole. */
  lemma {:induction false} RepeatedPairBlocksBatches(env: Settings, l: Ledger, token: Token, batch: seq<Raw>, s: Span, i: nat, j: nat)
    requires i < j < |l.rows| && SameSpan(l.rows[i].span, s) && SameSpan(l.rows[j].span, s)
    requires Good(s) in batch && Fits(token, s)
    requires Major(s.provenance.schemaVersion) == env.supportedMajor && env.hash(s.content) == s.provenance.contentHash
    ensures IngestBatch(env, l, token, batch) == (l, ServerError)
  {
    TwoMatches(l.rows, s.content.spanId, s.content.trajectoryId, i, j);
    assert ValidateOne(env, token, l.rows, Good(s)) == Raise;
  }

  lemma {:induction false} MatchesGrow(rows: seq<Row>, spanId: string, trajectoryId: string, j: nat)
    requires j < |rows| && SamePair(rows[j].span, spanId, trajectoryId)
    ensures |Matches(rows, spanId, trajectoryId)| >= |Matches(rows[..j], spanId, trajectoryId)| + 1
    decreases |rows|
  {
    var init := rows[..|rows| - 1];
    if j < |rows| - 1 {
      assert init[..j] == rows[..j];
      MatchesGrow(init, spanId, trajectoryId, j);
    }
  }

  lemma {:induction false} TwoMatches(rows: seq<Row>, spanId: string, trajectoryId: string, i: nat, j: nat)
    requires i < j < |rows| && SamePair(rows[i].span, spanId, trajectoryId) && SamePair(rows[j].span, spanId, trajectoryId)
    ensures |Matches(rows, spanId, trajectoryId)| >= 2
  {
    MatchesGrow(rows, spanId, trajectoryId, j);
    MatchesGrow(rows[..j], spanId, trajectoryId, i);
  }

  // ---- convergence ----

  /** Spans that belong together: sound, one per pair, and each child naming its parent's hash. */
  ghost predicate Coherent(env: Settings, all: set<Span>) {
    && (forall s :: s in all ==>
          Major(s.provenance.schemaVersion) == env.supportedMajor && env.hash(s.content) == s.provenance.contentHash)
    && (forall s, t :: s in all && t in all && SameSpan(s, t) ==> s == t)
    && (forall s, t :: s in all && t in all && s.content.trajectoryId == t.content.trajectoryId
                       && s.content.parentId == Some(t.content.spanId) ==>
          s.provenance.parentHash == Some(t.provenance.contentHash))
  }

  function SpanSet(rows: seq<Row>): set<Span> {
    set r | r in rows :: r.span
  }

  function Carried(batch: seq<Raw>): set<Span> {
    set raw | raw in batch && raw.Good? :: raw.span
  }

  /** The batch brings only spans of `all`, under a token that covers them. */
  ghost predicate Brings(token: Token, batch: seq<Raw>, all: set<Span>) {
    forall raw :: raw in batch ==> raw.Good? && raw.span in all && Fits(token, raw.span)
  }

  ghost predicate Holds(l: Ledger, all: set<Span>) {
    PairsUnique(l.rows) && SpanSet(l.rows) <= all
  }

  lemma {:induction false} WelcomeOutcome(env: Settings, token: Token, rows: seq<Row>, all: set<Span>, s: Span)
    requires Coherent(env, all) && s in all && Fits(token, s) && PairsUnique(rows) && SpanSet(rows) <= all
    ensures ValidateOne(env, token, rows, Good(s)) == if s in SpanSet(rows) then Acknowledge else Accept
  {
    MatchesCount(rows, s.content.spanId, s.content.trajectoryId);
    var m := Matches(rows, s.content.spanId, s.content.trajectoryId);
    if |m| == 1 {
      assert m[0] in m && m[0].span in SpanSet(rows) && SameSpan(m[0].span, s);
    } else {
      assert s !in SpanSet(rows);
      if s.content.parentId.Some? {
        MatchesCount(rows, s.content.parentId.value, s.content.trajectoryId);
        var p := Matches(rows, s.content.parentId.value, s.content.trajectoryId);
        if |p| == 1 {
          assert p[0] in p && p[0].span in SpanSet(rows);
        }
      }
    }
  }

  lemma {:induction false} NothingRejected(env: Settings, token: Token, rows: seq<Row>, batch: seq<Raw>)
    requires forall raw :: raw in batch ==> !ValidateOne(env, token, rows, raw).Reject?
    ensures Rejections(env, token, rows, batch) == []
  {
    if batch != [] {
      assert forall raw :: raw in batch[..|batch| - 1] ==> raw in batch;
      NothingRejected(env, token, rows, batch[..|batch| - 1]);
      assert batch[|batch| - 1] in batch;
    }
  }

  /** A welcome batch adds exactly its missing spans and rejects nothing. */
  lemma {:induction false} WelcomeBatch(env: Settings, l: Ledger, token: Token, batch: seq<Raw>, all: set<Span>)
    requires Coherent(env, all) && Holds(l, all) && Brings(token, batch, all)
    ensures var (l', response) := IngestBatch(env, l, token, batch);
            && Holds(l', all) && SpanSet(l'.rows) == SpanSet(l.rows) + Carried(batch)
            && l'.quarantine == l.quarantine
            && response == Stored(|l'.rows| - |l.rows|, [])
            && l'.batches == l.batches + [BatchRecord(token, |batch|, |l'.rows| - |l.rows|, 0)]
  {
    hide ValidateOne, Insert, Accepted, Rejections, Coherent;
    var accepted := Accepted(env, token, l.rows, batch);
    WelcomeOutcomes(env, token, l.rows, batch, all);
    NothingRejected(env, token, l.rows, batch);
    UniqueNeverRaises(env, token, l.rows, batch);
    InsertKeepsUnique(l.rows, accepted, |l.batches|);
    WelcomeInsert(env, l.rows, accepted, |l.batches|, all);
  }

  lemma {:induction false} WelcomeOutcomes(env: Settings, token: Token, rows: seq<Row>, batch: seq<Raw>, all: set<Span>)
    requires Coherent(env, all) && PairsUnique(rows) && SpanSet(rows) <= all && Brings(token, batch, all)
    ensures forall raw :: raw in batch ==> !ValidateOne(env, token, rows, raw).Reject?
    ensures var accepted := Accepted(env, token, rows, batch);
            && (forall s :: s in accepted ==> s in all) && OneStartPerPair(accepted)
            && SpanSet(rows) + Carried(batch) == SpanSet(rows) + (set s | s in accepted)
  {
    forall raw | raw in batch
      ensures ValidateOne(env, token, rows, raw) == if raw.span in SpanSet(rows) then Acknowledge else Accept
    {
      WelcomeOutcome(env, token, rows, all, raw.span);
    }
    assert forall s :: s in Accepted(env, token, rows, batch) <==> Good(s) in batch && s !in SpanSet(rows);
  }

  lemma {:induction false} WelcomeInsert(env: Settings, rows: seq<Row>, accepted: seq<Span>, batch: nat, all: set<Span>)
    requires Coherent(env, all) && SpanSet(rows) <= all && forall s :: s in accepted ==> s in all
    ensures SpanSet(Insert(rows, accepted, batch)) == SpanSet(rows) + (set s | s in accepted)
  {
    var after := Insert(rows, accepted, batch);
    InsertAddsOnly(rows, accepted, batch);
    InsertCovers(rows, accepted, batch);
    forall s | s in SpanSet(rows) ensures s in SpanSet(after) {
      var r :| r in rows && r.span == s;
      assert r in after;
    }
    forall s | s in accepted ensures s in SpanSet(after) {
      var r :| r in after && Conflicts(r, s);
      assert r.span in all && SameSpan(r.span, s);
    }
  }

  function CarriedByAll(ds: seq<Delivery>): set<Span> {
    if ds == [] then {} else CarriedByAll(ds[..|ds| - 1]) + Carried(ds[|ds| - 1].batch)
  }

  ghost predicate AllBring(ds: seq<Delivery>, all: set<Span>) {
    forall d :: d in ds ==> Brings(d.token, d.batch, all)
  }

  /** However deliveries are batched, ordered and repeated, the store ends with what it held and what they
      carried, and the batch records add up to its growth. */
  lemma {:induction false} DeliveriesConverge(env: Settings, l: Ledger, ds: seq<Delivery>, all: set<Span>)
    requires Coherent(env, all) && Holds(l, all) && AllBring(ds, all)
    ensures var l' := RunAll(env, l, ds);
            && Holds(l', all) && SpanSet(l'.rows) == SpanSet(l.rows) + CarriedByAll(ds)
            && l'.quarantine == l.quarantine && |l'.batches| == |l.batches| + |ds|
            && SumRejected(l'.batches) == SumRejected(l.batches)
            && SumAccepted(l'.batches) + |l.rows| == SumAccepted(l.batches) + |l'.rows|
  {
    if ds != [] {
      var init, last := ds[..|ds| - 1], ds[|ds| - 1];
      assert last in ds && forall d :: d in init ==> d in ds;
      DeliveriesConverge(env, l, init, all);
      var m := RunAll(env, l, init);
      WelcomeBatch(env, m, last.token, last.batch, all);
      var l' := RunAll(env, l, ds);
      assert l'.batches[..|l'.batches| - 1] == m.batches;
    }
  }

  lemma {:induction false} LastRowIsNew(rows: seq<Row>)
    requires PairsUnique(rows) && rows != []
    ensures var init := rows[..|rows| - 1]; PairsUnique(init) && rows[|rows| - 1].span !in SpanSet(init)
  {
    var init, last := rows[..|rows| - 1], rows[|rows| - 1];
    forall r | r in init ensures r.span != last.span {
      var i :| 0 <= i < |init| && init[i] == r;
      assert rows[i] == r;
    }
  }

  lemma {:induction false} UniqueRowsCount(rows: seq<Row>)
    requires PairsUnique(rows)
    ensures |rows| == |SpanSet(rows)|
  {
    if rows != [] {
      var init, last := rows[..|rows| - 1], rows[|rows| - 1];
      hide PairsUnique;
      LastRowIsNew(rows);
      UniqueRowsCount(init);
      assert rows == init + [last];
      assert SpanSet(rows) == SpanSet(init) + {last.span};
    }
  }

  /** At-least-once delivery of a coherent set into an empty ledger stores exactly that set, once. */
  lemma {:induction false} IngestConverges(env: Settings, ds: seq<Delivery>, all: set<Span>)
    requires Coherent(env, all) && AllBring(ds, all) && CarriedByAll(ds) == all
    ensures var l := RunAll(env, Ledger([], [], []), ds);
            && SpanSet(l.rows) == all && |l.rows| == |all|
            && l.quarantine == [] && SumRejected(l.batches) == 0
            && SumAccepted(l.batches) == |all| && |l.batches| == |ds|
  {
    var empty := Ledger([], [], []);
    DeliveriesConverge(env, empty, ds, all);
    UniqueRowsCount(RunAll(env, empty, ds).rows);
  }
}
