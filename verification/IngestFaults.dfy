/** What ingest does not catch: pairs repeated inside one batch, and children stored before their parents. */
module IngestFaults {
  import opened Wrappers
  import opened Spans
  import opened Ingest
  import opened IngestRuns

  const EMPTY := Ledger([], [], [])

  /** The span passes the checks that look at nothing but itself and the token. */
  predicate Sound(env: Settings, token: Token, s: Span) {
    Fits(token, s) && Major(s.provenance.schemaVersion) == env.supportedMajor && env.hash(s.content) == s.provenance.contentHash
  }

  // ---- which batches are refused whole ----

  /** Two rows are stored for the pair. */
  ghost predicate Repeated(rows: seq<Row>, spanId: string, trajectoryId: string) {
    exists i, j :: 0 <= i < j < |rows| && SamePair(rows[i].span, spanId, trajectoryId) && SamePair(rows[j].span, spanId, trajectoryId)
  }

  lemma {:induction false} MatchesTell(rows: seq<Row>, spanId: string, trajectoryId: string)
    ensures |Matches(rows, spanId, trajectoryId)| >= 2 <==> Repeated(rows, spanId, trajectoryId)
    ensures |Matches(rows, spanId, trajectoryId)| == 0 <==> PairFree(rows, spanId, trajectoryId)
  {
    if i, j :| 0 <= i < j < |rows| && SamePair(rows[i].span, spanId, trajectoryId) && SamePair(rows[j].span, spanId, trajectoryId) {
      TwoMatches(rows, spanId, trajectoryId, i, j);
    } else {
      AtMostOneMatch(rows, spanId, trajectoryId);
    }
    var m := Matches(rows, spanId, trajectoryId);
    if m == [] {
      forall r | r in rows ensures !SamePair(r.span, spanId, trajectoryId) {
        assert r in rows && SamePair(r.span, spanId, trajectoryId) ==> r in m;
      }
    } else {
      assert m[0] in m;
    }
  }

  lemma {:induction false} FreeHasNone(rows: seq<Row>, spanId: string, trajectoryId: string)
    requires PairFree(rows, spanId, trajectoryId)
    ensures Matches(rows, spanId, trajectoryId) == []
  {
    if rows != [] {
      FreeHasNone(rows[..|rows| - 1], spanId, trajectoryId);
      assert rows[|rows| - 1] in rows;
    }
  }

  lemma {:induction false} AtMostOneMatch(rows: seq<Row>, spanId: string, trajectoryId: string)
    requires !Repeated(rows, spanId, trajectoryId)
    ensures |Matches(rows, spanId, trajectoryId)| <= 1
  {
    if rows != [] {
      var init, last := rows[..|rows| - 1], rows[|rows| - 1];
      AtMostOneMatch(init, spanId, trajectoryId);
      if SamePair(last.span, spanId, trajectoryId) {
        forall r | r in init ensures !SamePair(r.span, spanId, trajectoryId) {
          var i :| 0 <= i < |init| && init[i] == r;
          assert rows[i] == r && rows[|rows| - 1] == last;
        }
        FreeHasNone(init, spanId, trajectoryId);
      }
    }
  }

  /** A lookup the checks of this span make finds two rows: its own pair's, or, if that is new, its parent's. */
  ghost predicate Trips(rows: seq<Row>, s: Span) {
    || Repeated(rows, s.content.spanId, s.content.trajectoryId)
    || (PairFree(rows, s.content.spanId, s.content.trajectoryId) && s.content.parentId.Some?
        && Repeated(rows, s.content.parentId.value, s.content.trajectoryId))
  }

  /** A batch is refused whole exactly if it carries a sound span whose own pair, or else whose parent's pair, is repeated. */
  lemma {:induction false} RefusedExactlyWhen(env: Settings, l: Ledger, token: Token, batch: seq<Raw>)
    ensures IngestBatch(env, l, token, batch).1.ServerError? <==>
              exists s :: Good(s) in batch && Sound(env, token, s) && Trips(l.rows, s)
    ensures IngestBatch(env, l, token, batch).1.ServerError? ==> IngestBatch(env, l, token, batch).0 == l
  {
    forall s ensures ValidateOne(env, token, l.rows, Good(s)) == Raise <==> Sound(env, token, s) && Trips(l.rows, s) {
      RaisesExactlyWhen(env, token, l.rows, s);
    }
    if Raises(env, token, l.rows, batch) {
      var raw :| raw in batch && ValidateOne(env, token, l.rows, raw) == Raise;
      assert raw == Good(raw.span);
    }
  }

  lemma {:induction false} RaisesExactlyWhen(env: Settings, token: Token, rows: seq<Row>, s: Span)
    ensures ValidateOne(env, token, rows, Good(s)) == Raise <==> Sound(env, token, s) && Trips(rows, s)
  {
    hide Repeated, PairFree;
    MatchesTell(rows, s.content.spanId, s.content.trajectoryId);
    if s.content.parentId.Some? {
      MatchesTell(rows, s.content.parentId.value, s.content.trajectoryId);
    }
  }

  /** One batch from the empty ledger is enough: two sound spans of one pair with two start times are both stored, and
      from then on, whatever else arrives, every batch with a sound span of the pair is refused, the redelivery too. */
  lemma {:induction false} OneBatchRepeatsPair(env: Settings, token: Token, s: Span, t: Span, ds: seq<Delivery>,
                                               later: Token, batch: seq<Raw>, u: Span)
    requires Sound(env, token, s) && Sound(env, token, t) && SameSpan(s, t) && s.content.startTime != t.content.startTime
    requires Good(u) in batch && Sound(env, later, u) && SameSpan(u, s)
    ensures var (l, response) := IngestBatch(env, EMPTY, token, [Good(s), Good(t)]);
            && response == Stored(2, []) && l.rows == [Row(s, 0), Row(t, 0)]
            && var l' := RunAll(env, l, ds);
            && IngestBatch(env, l', later, batch) == (l', ServerError)
  {
    var l := IngestBatch(env, EMPTY, token, [Good(s), Good(t)]).0;
    BothStored(env, EMPTY, token, s, t);
    RowsOnlyGrow(env, l, ds);
    var l' := RunAll(env, l, ds);
    assert l'.rows[0] == Row(s, 0) && l'.rows[1] == Row(t, 0);
    RepeatedPairBlocksBatches(env, l', later, batch, u, 0, 1);
  }

  lemma {:induction false} RowsOnlyGrow(env: Settings, l: Ledger, ds: seq<Delivery>)
    ensures l.rows <= RunAll(env, l, ds).rows
  {
    if ds != [] {
      RowsOnlyGrow(env, l, ds[..|ds| - 1]);
    }
  }

  lemma {:induction false} AcceptedByEmpty(env: Settings, token: Token, s: Span)
    requires Sound(env, token, s)
    ensures ValidateOne(env, token, [], Good(s)) == Accept
  {
  }

  lemma {:induction false} PairOfBatch(env: Settings, token: Token, rows: seq<Row>, a: Raw, b: Raw)
    requires ValidateOne(env, token, rows, a) == Accept && ValidateOne(env, token, rows, b) == Accept
    ensures a.Good? && b.Good? && Accepted(env, token, rows, [a, b]) == [a.span, b.span]
    ensures Rejections(env, token, rows, [a, b]) == [] && !Raises(env, token, rows, [a, b])
  {
    NothingYet(env, token, rows);
    BatchGrows(env, token, rows, [], a);
    BatchGrows(env, token, rows, [a], b);
    assert [] + [a] == [a] && [a] + [b] == [a, b];
  }

  lemma {:induction false} InsertTwo(s: Span, t: Span, batch: nat)
    requires !(SameSpan(s, t) && s.content.startTime == t.content.startTime)
    ensures Insert([], [s, t], batch) == [Row(s, batch), Row(t, batch)]
  {
    assert [s, t][..1] == [s] && [s][..0] == [];
    assert Insert([], [s], batch) == [Row(s, batch)];
  }

  lemma {:induction false} BothStored(env: Settings, l: Ledger, token: Token, s: Span, t: Span)
    requires l.rows == [] && Sound(env, token, s) && Sound(env, token, t)
    requires !(SameSpan(s, t) && s.content.startTime == t.content.startTime)
    ensures var (l', response) := IngestBatch(env, l, token, [Good(s), Good(t)]);
            response == Stored(2, []) && l'.rows == [Row(s, |l.batches|), Row(t, |l.batches|)]
  {
    hide ValidateOne, Accepted, Rejections, Raises, Insert;
    AcceptedByEmpty(env, token, s);
    AcceptedByEmpty(env, token, t);
    PairOfBatch(env, token, [], Good(s), Good(t));
    InsertTwo(s, t, |l.batches|);
  }

  // ---- children stored before their parents ----

  /** Row p is stored under the pair that row c names as its parent. */
  predicate Linked(c: Row, p: Row) {
    c.span.content.parentId == Some(p.span.content.spanId) && c.span.content.trajectoryId == p.span.content.trajectoryId
  }

  predicate Contradicts(c: Row, p: Row) {
    Linked(c, p) && c.span.provenance.parentHash != Some(p.span.provenance.contentHash)
  }

  /** A row's parent was checked if it was stored by an earlier batch. */
  ghost predicate LinksChecked(l: Ledger) {
    && (forall r :: r in l.rows ==> r.batch < |l.batches|)
    && (forall c, p :: c in l.rows && p in l.rows && Linked(c, p) && p.batch < c.batch ==> !Contradicts(c, p))
  }

  lemma {:induction false} AcceptedFitsParent(env: Settings, token: Token, rows: seq<Row>, c: Row, p: Row)
    requires ValidateOne(env, token, rows, Good(c.span)) == Accept && p in rows && Linked(c, p)
    ensures !Contradicts(c, p)
  {
    var m := Matches(rows, p.span.content.spanId, p.span.content.trajectoryId);
    assert p in m;
    assert |m| == 1 ==> m[0] == p;
  }

  lemma {:induction false} BatchChecksLinks(env: Settings, l: Ledger, token: Token, batch: seq<Raw>)
    requires LinksChecked(l)
    ensures LinksChecked(IngestBatch(env, l, token, batch).0)
  {
    hide ValidateOne, Matches, Insert;
    if !Raises(env, token, l.rows, batch) {
      var accepted := Accepted(env, token, l.rows, batch);
      var l' := IngestBatch(env, l, token, batch).0;
      InsertAddsOnly(l.rows, accepted, |l.batches|);
      forall c, p | c in l'.rows && p in l'.rows && Linked(c, p) && p.batch < c.batch ensures !Contradicts(c, p) {
        if c !in l.rows {
          assert c.span in accepted && p in l.rows;
          AcceptedFitsParent(env, token, l.rows, c, p);
        } else {
          assert p in l.rows;
        }
      }
    }
  }

  /** Over runs of arbitrary batches a stored child never contradicts a parent that an earlier batch stored. */
  lemma {:induction false} EarlierParentIsChecked(env: Settings, ds: seq<Delivery>)
    ensures LinksChecked(RunAll(env, EMPTY, ds))
  {
    if ds != [] {
      var init, last := ds[..|ds| - 1], ds[|ds| - 1];
      EarlierParentIsChecked(env, init);
      BatchChecksLinks(env, RunAll(env, EMPTY, init), last.token, last.batch);
    }
  }

  /** Some run ends with a child stored by batch i that contradicts a parent stored by batch j. */
  ghost predicate MayContradict(env: Settings, i: nat, j: nat) {
    exists ds, c, p :: c in RunAll(env, EMPTY, ds).rows && p in RunAll(env, EMPTY, ds).rows
                       && Contradicts(c, p) && c.batch == i && p.batch == j
  }

  /** A root and a child of it that names another hash, both sound by themselves. */
  predicate Mismatched(env: Settings, token: Token, child: Span, parent: Span) {
    && Sound(env, token, child) && Sound(env, token, parent) && parent.content.parentId.None?
    && child.content.parentId == Some(parent.content.spanId) && child.content.spanId != parent.content.spanId
    && child.content.trajectoryId == parent.content.trajectoryId
    && child.provenance.parentHash != Some(parent.provenance.contentHash)
  }

  /** If spans can mismatch at all, a run can store a contradicting pair exactly if the child's batch comes no later
      than the parent's: what is stored first is never looked at again. */
  lemma {:induction false} ContradictsExactlyWhen(env: Settings, token: Token, child: Span, parent: Span, i: nat, j: nat)
    requires Mismatched(env, token, child, parent)
    ensures MayContradict(env, i, j) <==> i <= j
  {
    hide RunAll, Contradicts, Mismatched;
    if MayContradict(env, i, j) {
      var ds, c, p :| c in RunAll(env, EMPTY, ds).rows && p in RunAll(env, EMPTY, ds).rows
                      && Contradicts(c, p) && c.batch == i && p.batch == j;
      EarlierParentIsChecked(env, ds);
      assert Linked(c, p) by { ContradictionIsLink(c, p); }
    }
    if i <= j {
      var ds := if i == j then Pads(token, i) + [Delivery(token, [Good(parent), Good(child)])]
                else Pads(token, i) + [Delivery(token, [Good(child)])] + Pads(token, j - i - 1) + [Delivery(token, [Good(parent)])];
      if i == j {
        TogetherStored(env, token, child, parent, i);
      } else {
        ChildFirstStored(env, token, child, parent, i, j);
      }
      LinkContradicts(env, token, child, parent, i, j);
      assert Row(child, i) in RunAll(env, EMPTY, ds).rows && Row(parent, j) in RunAll(env, EMPTY, ds).rows;
    }
  }

  lemma {:induction false} ContradictionIsLink(c: Row, p: Row)
    requires Contradicts(c, p)
    ensures Linked(c, p)
  {
  }

  lemma {:induction false} LinkContradicts(env: Settings, token: Token, child: Span, parent: Span, i: nat, j: nat)
    requires Mismatched(env, token, child, parent)
    ensures Contradicts(Row(child, i), Row(parent, j))
  {
  }

  /** Empty batches: nothing stored, only numbers used up. */
  function Pads(token: Token, k: nat): seq<Delivery> {
    if k == 0 then [] else Pads(token, k - 1) + [Delivery(token, [])]
  }

  lemma {:induction false} RunAppend(env: Settings, ds: seq<Delivery>, d: Delivery)
    ensures RunAll(env, EMPTY, ds + [d]) == IngestBatch(env, RunAll(env, EMPTY, ds), d.token, d.batch).0
  {
    assert (ds + [d])[..|ds|] == ds;
  }

  lemma {:induction false} PadsChangeNothing(env: Settings, ds: seq<Delivery>, token: Token, k: nat)
    ensures var l, l' := RunAll(env, EMPTY, ds), RunAll(env, EMPTY, ds + Pads(token, k));
            l'.rows == l.rows && |l'.batches| == |l.batches| + k
  {
    hide RunAll;
    if k == 0 {
      assert ds + [] == ds;
    } else {
      var before := ds + Pads(token, k - 1);
      PadsChangeNothing(env, ds, token, k - 1);
      OnePad(env, before, token, ds + Pads(token, k));
    }
  }

  lemma {:induction false} OnePad(env: Settings, before: seq<Delivery>, token: Token, after: seq<Delivery>)
    requires after == before + [Delivery(token, [])]
    ensures var l, l' := RunAll(env, EMPTY, before), RunAll(env, EMPTY, after);
            l'.rows == l.rows && |l'.batches| == |l.batches| + 1
  {
    RunAppend(env, before, Delivery(token, []));
    EmptyBatch(env, RunAll(env, EMPTY, before), token);
  }

  lemma {:induction false} EmptyBatch(env: Settings, l: Ledger, token: Token)
    ensures var l' := IngestBatch(env, l, token, []).0; l'.rows == l.rows && |l'.batches| == |l.batches| + 1
  {
    NothingYet(env, token, l.rows);
  }

  lemma {:induction false} TogetherStored(env: Settings, token: Token, child: Span, parent: Span, i: nat)
    requires Mismatched(env, token, child, parent)
    ensures RunAll(env, EMPTY, Pads(token, i) + [Delivery(token, [Good(parent), Good(child)])]).rows == [Row(parent, i), Row(child, i)]
  {
    hide RunAll;
    NothingRun(env);
    PadsChangeNothing(env, [], token, i);
    assert [] + Pads(token, i) == Pads(token, i);
    RunAppend(env, Pads(token, i), Delivery(token, [Good(parent), Good(child)]));
    BothStored(env, RunAll(env, EMPTY, Pads(token, i)), token, parent, child);
  }

  lemma {:induction false} NothingRun(env: Settings)
    ensures RunAll(env, EMPTY, []) == EMPTY
  {
  }

  lemma {:induction false} ChildFirstStored(env: Settings, token: Token, child: Span, parent: Span, i: nat, j: nat)
    requires Mismatched(env, token, child, parent) && i < j
    ensures RunAll(env, EMPTY, Pads(token, i) + [Delivery(token, [Good(child)])] + Pads(token, j - i - 1)
                               + [Delivery(token, [Good(parent)])]).rows == [Row(child, i), Row(parent, j)]
  {
    hide RunAll, ValidateOne, IngestBatch;
    NothingRun(env);
    PadsChangeNothing(env, [], token, i);
    assert [] + Pads(token, i) == Pads(token, i);
    var first := Pads(token, i) + [Delivery(token, [Good(child)])];
    RunAppend(env, Pads(token, i), Delivery(token, [Good(child)]));
    AcceptedByEmpty(env, token, child);
    OneOfBatch(env, RunAll(env, EMPTY, Pads(token, i)), token, child);
    PadsChangeNothing(env, first, token, j - i - 1);
    var l := RunAll(env, EMPTY, first + Pads(token, j - i - 1));
    assert l.rows == [Row(child, i)];
    ParentAfterChild(env, token, child, parent, i);
    OneOfBatch(env, l, token, parent);
    RunAppend(env, first + Pads(token, j - i - 1), Delivery(token, [Good(parent)]));
  }

  lemma {:induction false} OneOfBatch(env: Settings, l: Ledger, token: Token, s: Span)
    requires ValidateOne(env, token, l.rows, Good(s)) == Accept && !(exists r :: r in l.rows && Conflicts(r, s))
    ensures var (l', response) := IngestBatch(env, l, token, [Good(s)]);
            response == Stored(1, []) && l'.rows == l.rows + [Row(s, |l.batches|)] && |l'.batches| == |l.batches| + 1
  {
    hide ValidateOne, Accepted, Rejections, Raises;
    NothingYet(env, token, l.rows);
    BatchGrows(env, token, l.rows, [], Good(s));
    assert [] + [Good(s)] == [Good(s)] && [s][..0] == [];
  }

  /** Sent the other way round, in a later batch than its parent, the same child is rejected. */
  lemma {:induction false} LateChildIsRejected(env: Settings, l: Ledger, token: Token, child: Span, parent: Span, j: nat)
    requires Mismatched(env, token, child, parent) && l.rows == [Row(parent, j)]
    ensures IngestBatch(env, l, token, [Good(child)]).0.rows == l.rows
    ensures IngestBatch(env, l, token, [Good(child)]).1 == Stored(0, [RejectionOf(Good(child), LE005)])
  {
    assert [Row(parent, j)][..0] == [];
    assert Matches(l.rows, parent.content.spanId, parent.content.trajectoryId) == [Row(parent, j)];
    MatchesTell(l.rows, child.content.spanId, child.content.trajectoryId);
    assert ValidateOne(env, token, l.rows, Good(child)) == Reject(LE005);
    OneRejected(env, l, token, child, LE005);
  }

  lemma {:induction false} ParentAfterChild(env: Settings, token: Token, child: Span, parent: Span, i: nat)
    requires Sound(env, token, parent) && parent.content.parentId.None? && child.content.spanId != parent.content.spanId
    ensures ValidateOne(env, token, [Row(child, i)], Good(parent)) == Accept
    ensures !(exists r :: r in [Row(child, i)] && Conflicts(r, parent))
  {
    MatchesTell([Row(child, i)], parent.content.spanId, parent.content.trajectoryId);
  }

  lemma {:induction false} OneRejected(env: Settings, l: Ledger, token: Token, s: Span, code: Code)
    requires ValidateOne(env, token, l.rows, Good(s)) == Reject(code)
    ensures IngestBatch(env, l, token, [Good(s)]).0.rows == l.rows
    ensures IngestBatch(env, l, token, [Good(s)]).1 == Stored(0, [RejectionOf(Good(s), code)])
  {
    hide ValidateOne, Accepted, Rejections, Raises;
    NothingYet(env, token, l.rows);
    BatchGrows(env, token, l.rows, [], Good(s));
    assert [] + [Good(s)] == [Good(s)];
  }
}
