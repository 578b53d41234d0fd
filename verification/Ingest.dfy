/**
 Ledger ingest: six checks per span, then one conflict-ignoring insert per batch.
 A batch is one transaction: if a lookup raises, nothing of it is stored.
 */
module Ingest {
  import opened Wrappers
  import opened Spans

  /** What arrives on the wire: something that is not a span, or a span. */
  datatype Raw = BadShape(spanId: Option<string>, body: string) | Good(span: Span)

  /** An ingest token; an empty customer means it is not scoped to one. */
  datatype Token = Token(tokenId: string, customer: string)

  datatype Code = LE001 | LE002 | LE003 | LE004 | LE005 | LE006

  datatype Row = Row(span: Span, batch: nat)

  datatype Quarantined = Quarantined(raw: Raw, code: Code, customer: string, tokenId: string)

  datatype BatchRecord = BatchRecord(token: Token, spanCount: nat, accepted: nat, rejected: nat)

  datatype Ledger = Ledger(rows: seq<Row>, quarantine: seq<Quarantined>, batches: seq<BatchRecord>)

  datatype Rejection = Rejection(spanId: Option<string>, code: Code)

  datatype Response = Stored(accepted: nat, rejected: seq<Rejection>) | ServerError

  datatype Settings = Settings(hash: ContentHash, supportedMajor: string)

  // ---- lookups and single-span validation ----

  predicate SamePair(s: Span, spanId: string, trajectoryId: string) {
    s.content.spanId == spanId && s.content.trajectoryId == trajectoryId
  }

  function Matches(rows: seq<Row>, spanId: string, trajectoryId: string): (r: seq<Row>)
    ensures forall x :: x in r <==> x in rows && SamePair(x.span, spanId, trajectoryId)
  {
    if rows == [] then []
    else Matches(rows[..|rows| - 1], spanId, trajectoryId)
         + (if SamePair(rows[|rows| - 1].span, spanId, trajectoryId) then [rows[|rows| - 1]] else [])
  }

  datatype Lookup = Missing | Found(row: Row) | Ambiguous

  /** `scalar_one_or_none`: more than one row makes the lookup raise. */
  function Fetch(rows: seq<Row>, spanId: string, trajectoryId: string): Lookup {
    var m := Matches(rows, spanId, trajectoryId);
    if |m| == 0 then Missing else if |m| == 1 then Found(m[0]) else Ambiguous
  }

  /** The text before the first dot. */
  function Major(version: string): string {
    if version == "" || version[0] == '.' then "" else [version[0]] + Major(version[1..])
  }

  datatype Outcome = Accept | Acknowledge | Reject(code: Code) | Raise

  function ParentCheck(rows: seq<Row>, s: Span): Outcome {
    if s.content.parentId.None? then Accept
    else
      match Fetch(rows, s.content.parentId.value, s.content.trajectoryId)
      case Ambiguous => Raise
      case Missing => Accept
      case Found(p) =>
        if s.provenance.parentHash == Some(p.span.provenance.contentHash) then Accept else Reject(LE005)
  }

  function ValidateOne(env: Settings, token: Token, rows: seq<Row>, raw: Raw): Outcome {
    match raw
    case BadShape(_, _) => Reject(LE001)
    case Good(s) =>
      if token.customer != "" && s.content.customer != token.customer then Reject(LE002)
      else if Major(s.provenance.schemaVersion) != env.supportedMajor then Reject(LE006)
      else if env.hash(s.content) != s.provenance.contentHash then Reject(LE003)
      else
        match Fetch(rows, s.content.spanId, s.content.trajectoryId)
        case Ambiguous => Raise
        case Found(r) =>
          if r.span.provenance.contentHash == env.hash(s.content) then Acknowledge else Reject(LE004)
        case Missing => ParentCheck(rows, s)
  }

  function RawSpanId(raw: Raw): Option<string> {
    match raw case BadShape(id, _) => id case Good(s) => Some(s.content.spanId)
  }

  function RejectionOf(raw: Raw, code: Code): Rejection {
    Rejection(RawSpanId(raw), code)
  }

  function QuarantineOf(token: Token, raw: Raw, code: Code): Quarantined {
    Quarantined(raw, code, if raw.BadShape? then token.customer else raw.span.content.customer, token.tokenId)
  }

  // ---- a whole batch, as a function ----

  /** The batch sorted by outcome: the checks look only at rows stored before it. */
  function Accepted(env: Settings, token: Token, rows: seq<Row>, batch: seq<Raw>): (r: seq<Span>)
    ensures forall s :: s in r <==> exists raw :: raw in batch && raw == Good(s) && ValidateOne(env, token, rows, raw) == Accept
  {
    if batch == [] then []
    else
      var init, last := batch[..|batch| - 1], batch[|batch| - 1];
      Accepted(env, token, rows, init)
      + (if ValidateOne(env, token, rows, last) == Accept then [last.span] else [])
  }

  function Rejections(env: Settings, token: Token, rows: seq<Row>, batch: seq<Raw>): seq<(Raw, Code)> {
    if batch == [] then []
    else
      var init, last := batch[..|batch| - 1], batch[|batch| - 1];
      var o := ValidateOne(env, token, rows, last);
      Rejections(env, token, rows, init) + (if o.Reject? then [(last, o.code)] else [])
  }

  function AcknowledgedCount(env: Settings, token: Token, rows: seq<Row>, batch: seq<Raw>): nat {
    if batch == [] then 0
    else
      AcknowledgedCount(env, token, rows, batch[..|batch| - 1])
      + (if ValidateOne(env, token, rows, batch[|batch| - 1]) == Acknowledge then 1 else 0)
  }

  predicate Raises(env: Settings, token: Token, rows: seq<Row>, batch: seq<Raw>) {
    exists raw :: raw in batch && ValidateOne(env, token, rows, raw) == Raise
  }

  /** The primary key. */
  predicate Conflicts(r: Row, s: Span) {
    SamePair(r.span, s.content.spanId, s.content.trajectoryId) && r.span.content.startTime == s.content.startTime
  }

  /** INSERT ... ON CONFLICT DO NOTHING, row by row. */
  function Insert(rows: seq<Row>, spans: seq<Span>, batch: nat): (r: seq<Row>)
    ensures rows <= r && |r| <= |rows| + |spans|
    decreases |spans|
  {
    if spans == [] then rows
    else
      var before := Insert(rows, spans[..|spans| - 1], batch);
      var s := spans[|spans| - 1];
      if exists r :: r in before && Conflicts(r, s) then before else before + [Row(s, batch)]
  }

  function QuarantineAll(token: Token, rejections: seq<(Raw, Code)>): (r: seq<Quarantined>)
    ensures |r| == |rejections|
  {
    seq(|rejections|, i requires 0 <= i < |rejections| => QuarantineOf(token, rejections[i].0, rejections[i].1))
  }

  function RejectAll(rejections: seq<(Raw, Code)>): (r: seq<Rejection>)
    ensures |r| == |rejections|
  {
    seq(|rejections|, i requires 0 <= i < |rejections| => RejectionOf(rejections[i].0, rejections[i].1))
  }

  function IngestBatch(env: Settings, l: Ledger, token: Token, batch: seq<Raw>): (Ledger, Response) {
    if Raises(env, token, l.rows, batch) then (l, ServerError)
    else
      var rejections := Rejections(env, token, l.rows, batch);
      var rows := Insert(l.rows, Accepted(env, token, l.rows, batch), |l.batches|);
      var inserted := |rows| - |l.rows|;
      (Ledger(rows, l.quarantine + QuarantineAll(token, rejections),
              l.batches + [BatchRecord(token, |batch|, inserted, |rejections|)]),
       Stored(inserted, RejectAll(rejections)))
  }

  // ---- the endpoint ----

  lemma {:induction false} BatchGrows(env: Settings, token: Token, rows: seq<Row>, batch: seq<Raw>, raw: Raw)
    ensures var o := ValidateOne(env, token, rows, raw);
            && (o.Accept? ==> raw.Good?)
            && Accepted(env, token, rows, batch + [raw])
               == Accepted(env, token, rows, batch) + (if o.Accept? then [raw.span] else [])
            && Rejections(env, token, rows, batch + [raw])
               == Rejections(env, token, rows, batch) + (if o.Reject? then [(raw, o.code)] else [])
            && (Raises(env, token, rows, batch + [raw]) <==> Raises(env, token, rows, batch) || o.Raise?)
  {
    hide Fetch, ParentCheck;
    assert (batch + [raw])[..|batch|] == batch;
    assert raw in batch + [raw];
    assert forall x :: x in batch + [raw] <==> x in batch || x == raw;
  }

  lemma {:induction false} NothingYet(env: Settings, token: Token, rows: seq<Row>)
    ensures Accepted(env, token, rows, []) == [] && Rejections(env, token, rows, []) == [] && !Raises(env, token, rows, [])
    ensures RejectAll([]) == [] && QuarantineAll(token, []) == []
  {
  }

  lemma {:induction false} RejectionsGrow(token: Token, rejections: seq<(Raw, Code)>, raw: Raw, code: Code)
    ensures RejectAll(rejections + [(raw, code)]) == RejectAll(rejections) + [RejectionOf(raw, code)]
    ensures QuarantineAll(token, rejections + [(raw, code)]) == QuarantineAll(token, rejections) + [QuarantineOf(token, raw, code)]
  {
  }

  lemma {:induction false} SomeRaise(env: Settings, token: Token, rows: seq<Row>, batch: seq<Raw>, i: nat)
    requires i < |batch| && ValidateOne(env, token, rows, batch[i]) == Raise
    ensures Raises(env, token, rows, batch)
  {
    assert batch[i] in batch;
  }

  class LedgerStore {
    const env: Settings
    var rows: seq<Row>
    var quarantine: seq<Quarantined>
    var batches: seq<BatchRecord>

    constructor (env: Settings)
      ensures this.env == env && View() == Ledger([], [], [])
    {
      this.env := env;
      rows, quarantine, batches := [], [], [];
    }

    function View(): Ledger
      reads this
    {
      Ledger(rows, quarantine, batches)
    }

    method BulkInsert(spans: seq<Span>, batch: nat) returns (inserted: nat)
      modifies this`rows
      ensures rows == Insert(old(rows), spans, batch) && inserted == |rows| - |old(rows)|
    {
      inserted := 0;
      for i := 0 to |spans|
        invariant rows == Insert(old(rows), spans[..i], batch) && inserted == |rows| - |old(rows)|
      {
        assert spans[..i + 1][..i] == spans[..i];
        if !(exists r :: r in rows && Conflicts(r, spans[i])) {
          rows := rows + [Row(spans[i], batch)];
          inserted := inserted + 1;
        }
      }
      assert spans[..|spans|] == spans;
    }

    method IngestSpans(token: Token, batch: seq<Raw>) returns (response: Response)
      modifies this
      ensures (View(), response) == IngestBatch(env, old(View()), token, batch)
    {
      hide Accepted, Rejections, Raises, ValidateOne, RejectAll, QuarantineAll, Insert;
      NothingYet(env, token, rows);
      var accepted: seq<Span> := [];
      ghost var rejections: seq<(Raw, Code)> := [];
      var rejected: seq<Rejection> := [];
      var writes: seq<Quarantined> := [];
      for i := 0 to |batch|
        invariant accepted == Accepted(env, token, rows, batch[..i])
        invariant rejections == Rejections(env, token, rows, batch[..i])
        invariant rejected == RejectAll(rejections) && writes == QuarantineAll(token, rejections)
        invariant !Raises(env, token, rows, batch[..i])
        invariant View() == old(View())
      {
        var raw := batch[i];
        assert batch[..i + 1] == batch[..i] + [raw];
        BatchGrows(env, token, rows, batch[..i], raw);
        match ValidateOne(env, token, rows, raw) {
          case Accept =>
            accepted := accepted + [raw.span];
          case Acknowledge =>
          case Reject(code) =>
            RejectionsGrow(token, rejections, raw, code);
            rejections := rejections + [(raw, code)];
            rejected := rejected + [RejectionOf(raw, code)];
            writes := writes + [QuarantineOf(token, raw, code)];
          case Raise =>
            SomeRaise(env, token, rows, batch, i);
            return ServerError;
        }
      }
      assert batch[..|batch|] == batch;
      var inserted := BulkInsert(accepted, |batches|);
      quarantine := quarantine + writes;
      batches := batches + [BatchRecord(token, |batch|, inserted, |rejected|)];
      response := Stored(inserted, rejected);
    }
  }
}
