/** What becomes of each entry of a batch, in terms of the entry, the token and the stored rows alone. */
module IngestOutcomes {
  import opened Wrappers
  import opened Spans
  import opened Ingest
  import opened IngestRuns
  import opened IngestFaults

  // ---- the lookups ----

  predicate At(rows: seq<Row>, i: int, spanId: string, trajectoryId: string) {
    0 <= i < |rows| && rows[i].span.content.spanId == spanId && rows[i].span.content.trajectoryId == trajectoryId
  }

  ghost predicate NoRow(rows: seq<Row>, spanId: string, trajectoryId: string) {
    forall i :: !At(rows, i, spanId, trajectoryId)
  }

  ghost predicate OneRow(rows: seq<Row>, spanId: string, trajectoryId: string, r: Row) {
    exists i :: At(rows, i, spanId, trajectoryId) && rows[i] == r && forall j :: At(rows, j, spanId, trajectoryId) ==> j == i
  }

  ghost predicate ManyRows(rows: seq<Row>, spanId: string, trajectoryId: string) {
    exists i, j :: i != j && At(rows, i, spanId, trajectoryId) && At(rows, j, spanId, trajectoryId)
  }

  lemma {:induction false} FetchTells(rows: seq<Row>, spanId: string, trajectoryId: string)
    ensures Fetch(rows, spanId, trajectoryId) == Missing <==> NoRow(rows, spanId, trajectoryId)
    ensures forall r :: Fetch(rows, spanId, trajectoryId) == Found(r) <==> OneRow(rows, spanId, trajectoryId, r)
    ensures Fetch(rows, spanId, trajectoryId) == Ambiguous <==> ManyRows(rows, spanId, trajectoryId)
  {
    hide Matches;
    MatchesTell(rows, spanId, trajectoryId);
    forall i ensures At(rows, i, spanId, trajectoryId) <==> 0 <= i < |rows| && SamePair(rows[i].span, spanId, trajectoryId) {
    }
    NoRowIsFree(rows, spanId, trajectoryId);
    var m := Matches(rows, spanId, trajectoryId);
    if |m| == 1 {
      assert m[0] in m;
      var i :| 0 <= i < |rows| && rows[i] == m[0];
      assert At(rows, i, spanId, trajectoryId);
      assert OneRow(rows, spanId, trajectoryId, m[0]);
    }
    forall r | OneRow(rows, spanId, trajectoryId, r) ensures |m| == 1 && m[0] == r {
      var i :| At(rows, i, spanId, trajectoryId) && rows[i] == r && forall j :: At(rows, j, spanId, trajectoryId) ==> j == i;
      assert r in rows && r in m;
    }
  }

  lemma {:induction false} NoRowIsFree(rows: seq<Row>, spanId: string, trajectoryId: string)
    ensures NoRow(rows, spanId, trajectoryId) <==> PairFree(rows, spanId, trajectoryId)
    ensures ManyRows(rows, spanId, trajectoryId) <==> Repeated(rows, spanId, trajectoryId)
  {
    if NoRow(rows, spanId, trajectoryId) {
      forall r | r in rows ensures !SamePair(r.span, spanId, trajectoryId) {
        var i :| 0 <= i < |rows| && rows[i] == r;
        assert !At(rows, i, spanId, trajectoryId);
      }
    }
    if Repeated(rows, spanId, trajectoryId) {
      var i, j :| 0 <= i < j < |rows| && SamePair(rows[i].span, spanId, trajectoryId) && SamePair(rows[j].span, spanId, trajectoryId);
      assert At(rows, i, spanId, trajectoryId) && At(rows, j, spanId, trajectoryId);
    }
    if i, j :| i != j && At(rows, i, spanId, trajectoryId) && At(rows, j, spanId, trajectoryId) {
      var a, b := if i < j then i else j, if i < j then j else i;
      assert SamePair(rows[a].span, spanId, trajectoryId) && SamePair(rows[b].span, spanId, trajectoryId);
    }
  }

  // ---- the checks of one entry, in their order ----

  /** The token is scoped to another customer. */
  predicate Foreign(token: Token, s: Span) {
    token.customer != "" && s.content.customer != token.customer
  }

  /** The version is `major` alone or goes on with a dot. */
  predicate HasMajor(version: string, major: string) {
    '.' !in major && (version == major || (|major| < |version| && version[..|major|] == major && version[|major|] == '.'))
  }

  lemma {:induction false} MajorExactlyWhen(version: string, major: string)
    ensures Major(version) == major <==> HasMajor(version, major)
  {
    if HasMajor(version, major) && major != "" {
      MajorStarts(version, major);
    }
    if version != "" && version[0] != '.' {
      MajorExactlyWhen(version[1..], Major(version[1..]));
      if major != "" && major[0] == version[0] {
        MajorExactlyWhen(version[1..], major[1..]);
        assert major == [major[0]] + major[1..] && version == [version[0]] + version[1..];
        if |major| < |version| {
          assert version[..|major|] == [version[0]] + version[1..][..|major| - 1];
        }
      }
    }
  }

  lemma {:induction false} MajorStarts(version: string, major: string)
    requires HasMajor(version, major) && major != ""
    ensures version != "" && version[0] == major[0] && major[0] != '.'
  {
    assert major[0] in major;
    assert |major| < |version| ==> version[..|major|][0] == version[0];
  }

  /** The entry passes the checks of customer, version and hash. */
  predicate Checked(env: Settings, token: Token, s: Span) {
    && !Foreign(token, s) && HasMajor(s.provenance.schemaVersion, env.supportedMajor)
    && env.hash(s.content) == s.provenance.contentHash
  }

  /** The single stored row of the span's own pair carries its hash, or does not. */
  ghost predicate StoredAlike(rows: seq<Row>, s: Span, alike: bool) {
    exists r :: OneRow(rows, s.content.spanId, s.content.trajectoryId, r)
                && (r.span.provenance.contentHash == s.provenance.contentHash <==> alike)
  }

  /** The single stored row of the named parent's pair carries the hash the span names, or does not. */
  ghost predicate ParentAlike(rows: seq<Row>, s: Span, alike: bool)
    requires s.content.parentId.Some?
  {
    exists r :: OneRow(rows, s.content.parentId.value, s.content.trajectoryId, r)
                && (Some(r.span.provenance.contentHash) == s.provenance.parentHash <==> alike)
  }

  ghost predicate NewPair(rows: seq<Row>, s: Span) {
    NoRow(rows, s.content.spanId, s.content.trajectoryId)
  }

  /** Which entries come to which outcome. */
  ghost predicate Meets(env: Settings, token: Token, rows: seq<Row>, raw: Raw, o: Outcome) {
    match raw
    case BadShape(_, _) => o == Reject(LE001)
    case Good(s) =>
      match o
      case Reject(code) => RejectedFor(env, token, rows, s, code)
      case Acknowledge => Checked(env, token, s) && StoredAlike(rows, s, true)
      case Accept =>
        Checked(env, token, s) && NewPair(rows, s)
        && (s.content.parentId.Some? ==>
              NoRow(rows, s.content.parentId.value, s.content.trajectoryId) || ParentAlike(rows, s, true))
      case Raise =>
        Checked(env, token, s)
        && (ManyRows(rows, s.content.spanId, s.content.trajectoryId)
            || (NewPair(rows, s) && s.content.parentId.Some?
                && ManyRows(rows, s.content.parentId.value, s.content.trajectoryId)))
  }

  ghost predicate RejectedFor(env: Settings, token: Token, rows: seq<Row>, s: Span, code: Code) {
    match code
    case LE001 => false
    case LE002 => Foreign(token, s)
    case LE006 => !Foreign(token, s) && !HasMajor(s.provenance.schemaVersion, env.supportedMajor)
    case LE003 =>
      && !Foreign(token, s) && HasMajor(s.provenance.schemaVersion, env.supportedMajor)
      && env.hash(s.content) != s.provenance.contentHash
    case LE004 => Checked(env, token, s) && StoredAlike(rows, s, false)
    case LE005 => Checked(env, token, s) && NewPair(rows, s) && s.content.parentId.Some? && ParentAlike(rows, s, false)
  }

  lemma {:induction false} ParentOutcome(rows: seq<Row>, s: Span, o: Outcome)
    requires s.content.parentId.Some?
    ensures ParentCheck(rows, s) == o <==>
              match o
              case Accept => NoRow(rows, s.content.parentId.value, s.content.trajectoryId) || ParentAlike(rows, s, true)
              case Raise => ManyRows(rows, s.content.parentId.value, s.content.trajectoryId)
              case Reject(code) => code == LE005 && ParentAlike(rows, s, false)
              case Acknowledge => false
  {
    hide Fetch, NoRow, OneRow, ManyRows;
    FetchTells(rows, s.content.parentId.value, s.content.trajectoryId);
  }

  lemma {:induction false} OutcomeExactlyWhen(env: Settings, token: Token, rows: seq<Row>, raw: Raw, o: Outcome)
    ensures ValidateOne(env, token, rows, raw) == o <==> Meets(env, token, rows, raw, o)
  {
    if raw.Good? {
      hide Fetch, Major, HasMajor, NoRow, OneRow, ManyRows, ParentAlike;
      var s := raw.span;
      MajorExactlyWhen(s.provenance.schemaVersion, env.supportedMajor);
      FetchTells(rows, s.content.spanId, s.content.trajectoryId);
      if s.content.parentId.Some? {
        ParentOutcome(rows, s, o);
        hide ParentCheck;
      }
    }
  }

  // ---- what the caller and the quarantine are told ----

  predicate Answers(raw: Raw, code: Code, rejection: Rejection) {
    match raw
    case BadShape(id, _) => rejection == Rejection(id, code)
    case Good(s) => rejection == Rejection(Some(s.content.spanId), code)
  }

  /** The quarantine keeps the raw entry, under the span's customer, or the token's if there is no span. */
  predicate Keeps(token: Token, raw: Raw, code: Code, q: Quarantined) {
    match raw
    case BadShape(_, _) => q == Quarantined(raw, code, token.customer, token.tokenId)
    case Good(s) => q == Quarantined(raw, code, s.content.customer, token.tokenId)
  }

  /** Everything that follows from the outcome of a batch of one. */
  predicate Follows(l: Ledger, token: Token, raw: Raw, o: Outcome, l': Ledger, response: Response) {
    match o
    case Raise => response == ServerError && l' == l
    case Acknowledge =>
      response == Stored(0, []) && l' == l.(batches := l.batches + [BatchRecord(token, 1, 0, 0)])
    case Accept =>
      && raw.Good? && response == Stored(1, [])
      && l' == Ledger(l.rows + [Row(raw.span, |l.batches|)], l.quarantine, l.batches + [BatchRecord(token, 1, 1, 0)])
    case Reject(code) =>
      && response.Stored? && response.accepted == 0 && |response.rejected| == 1 && Answers(raw, code, response.rejected[0])
      && l'.rows == l.rows && l'.batches == l.batches + [BatchRecord(token, 1, 0, 1)]
      && |l'.quarantine| == |l.quarantine| + 1 && l.quarantine <= l'.quarantine
      && Keeps(token, raw, code, l'.quarantine[|l.quarantine|])
  }

  lemma {:induction false} NewPairDoesNotConflict(rows: seq<Row>, s: Span)
    requires NewPair(rows, s)
    ensures !exists r :: r in rows && Conflicts(r, s)
  {
    forall r | r in rows ensures !Conflicts(r, s) {
      var i :| 0 <= i < |rows| && rows[i] == r;
      assert !At(rows, i, s.content.spanId, s.content.trajectoryId);
    }
  }

  lemma {:induction false} BatchOfOne(env: Settings, l: Ledger, token: Token, raw: Raw)
    ensures var o := ValidateOne(env, token, l.rows, raw);
            && (o.Accept? ==> raw.Good?)
            && Accepted(env, token, l.rows, [raw]) == (if o.Accept? then [raw.span] else [])
            && Rejections(env, token, l.rows, [raw]) == (if o.Reject? then [(raw, o.code)] else [])
            && (Raises(env, token, l.rows, [raw]) <==> o.Raise?)
  {
    hide ValidateOne, Accepted, Rejections, Raises;
    NothingYet(env, token, l.rows);
    BatchGrows(env, token, l.rows, [], raw);
    assert [] + [raw] == [raw];
  }

  lemma {:induction false} OutcomeFollows(env: Settings, l: Ledger, token: Token, raw: Raw)
    ensures var (l', response) := IngestBatch(env, l, token, [raw]);
            Follows(l, token, raw, ValidateOne(env, token, l.rows, raw), l', response)
  {
    hide ValidateOne, Accepted, Rejections, Raises, Meets;
    BatchOfOne(env, l, token, raw);
    var o := ValidateOne(env, token, l.rows, raw);
    if o.Accept? {
      assert NewPair(l.rows, raw.span) by { AcceptedIsNew(env, token, l.rows, raw); }
      NewPairDoesNotConflict(l.rows, raw.span);
      assert [raw.span][..0] == [];
    }
  }

  lemma {:induction false} AcceptedIsNew(env: Settings, token: Token, rows: seq<Row>, raw: Raw)
    requires ValidateOne(env, token, rows, raw) == Accept
    ensures raw.Good? && NewPair(rows, raw.span)
  {
    hide ValidateOne;
    OutcomeExactlyWhen(env, token, rows, raw, Accept);
  }

  lemma {:induction false} FollowsOnce(l: Ledger, token: Token, raw: Raw, o: Outcome, p: Outcome, l': Ledger, response: Response)
    requires Follows(l, token, raw, o, l', response) && Follows(l, token, raw, p, l', response)
    ensures o == p
  {
  }

  /** A batch of one entry: each outcome, with its answer, its quarantine record and its row, exactly under its condition on
      the entry, the token and the stored rows. */
  lemma {:induction false} OneEntryExactlyWhen(env: Settings, l: Ledger, token: Token, raw: Raw, o: Outcome)
    ensures var (l', response) := IngestBatch(env, l, token, [raw]);
            Meets(env, token, l.rows, raw, o) <==> Follows(l, token, raw, o, l', response)
  {
    hide Meets, Follows, ValidateOne, IngestBatch;
    var (l', response) := IngestBatch(env, l, token, [raw]);
    OutcomeExactlyWhen(env, token, l.rows, raw, o);
    OutcomeFollows(env, l, token, raw);
    if Follows(l, token, raw, o, l', response) {
      FollowsOnce(l, token, raw, o, ValidateOne(env, token, l.rows, raw), l', response);
    }
  }

  // ---- arbitrary batches ----

  predicate Ascending(at: seq<nat>, n: nat) {
    && (forall k :: 0 <= k < |at| ==> at[k] < n)
    && (forall j, k :: 0 <= j < k < |at| ==> at[j] < at[k])
  }

  lemma {:induction false} NextPlace(at: seq<nat>, n: nat)
    requires Ascending(at, n)
    ensures Ascending(at, n + 1) && Ascending(at + [n], n + 1)
    ensures n !in at && forall i: nat :: i in at + [n] <==> i in at || i == n
  {
  }

  ghost predicate MeetsReject(env: Settings, token: Token, rows: seq<Row>, raw: Raw) {
    exists code :: Meets(env, token, rows, raw, Reject(code))
  }

  ghost predicate AnsweredAndKept(env: Settings, token: Token, rows: seq<Row>, raw: Raw, rejection: Rejection, q: Quarantined) {
    exists code :: Meets(env, token, rows, raw, Reject(code)) && Answers(raw, code, rejection) && Keeps(token, raw, code, q)
  }

  /** The rejected entries are those at the places `at`, which are answered and kept in their order. */
  ghost predicate RejectedAt(env: Settings, token: Token, rows: seq<Row>, batch: seq<Raw>, at: seq<nat>,
                             rejected: seq<Rejection>, quarantined: seq<Quarantined>) {
    && |at| == |rejected| == |quarantined| && Ascending(at, |batch|)
    && (forall i: nat :: i < |batch| ==> (i in at <==> MeetsReject(env, token, rows, batch[i])))
    && (forall k :: 0 <= k < |at| ==> AnsweredAndKept(env, token, rows, batch[at[k]], rejected[k], quarantined[k]))
  }

  lemma {:induction false} RejectionsAreAt(env: Settings, token: Token, rows: seq<Row>, batch: seq<Raw>) returns (at: seq<nat>)
    ensures var rejections := Rejections(env, token, rows, batch);
            RejectedAt(env, token, rows, batch, at, RejectAll(rejections), QuarantineAll(token, rejections))
  {
    hide Meets, ValidateOne, Rejections, RejectAll, QuarantineAll, MeetsReject, AnsweredAndKept;
    if batch == [] {
      at := [];
      NothingYet(env, token, rows);
    } else {
      var init, raw := batch[..|batch| - 1], batch[|batch| - 1];
      assert batch == init + [raw];
      var before := RejectionsAreAt(env, token, rows, init);
      var rejections := Rejections(env, token, rows, init);
      BatchGrows(env, token, rows, init, raw);
      OutcomeIsReject(env, token, rows, raw);
      NextPlace(before, |init|);
      var o := ValidateOne(env, token, rows, raw);
      at := before + if o.Reject? then [|init|] else [];
      if o.Reject? {
        RejectionsGrow(token, rejections, raw, o.code);
        RejectionIsKept(env, token, rows, raw, o.code);
      }
      assert Rejections(env, token, rows, batch) == rejections + (if o.Reject? then [(raw, o.code)] else []);
      assert rejections + [] == rejections;
      ghost var rs, qs := RejectAll(Rejections(env, token, rows, batch)), QuarantineAll(token, Rejections(env, token, rows, batch));
      forall k | 0 <= k < |at| ensures k < |rs| && k < |qs| && AnsweredAndKept(env, token, rows, batch[at[k]], rs[k], qs[k]) {
        if k < |before| {
          assert batch[at[k]] == init[before[k]];
        }
      }
      assert forall i: nat :: i < |init| ==> batch[i] == init[i];
    }
  }

  lemma {:induction false} OutcomeIsReject(env: Settings, token: Token, rows: seq<Row>, raw: Raw)
    ensures MeetsReject(env, token, rows, raw) <==> ValidateOne(env, token, rows, raw).Reject?
  {
    hide Meets, ValidateOne;
    forall code ensures Meets(env, token, rows, raw, Reject(code)) <==> ValidateOne(env, token, rows, raw) == Reject(code) {
      OutcomeExactlyWhen(env, token, rows, raw, Reject(code));
    }
    var o := ValidateOne(env, token, rows, raw);
    assert o.Reject? ==> Meets(env, token, rows, raw, Reject(o.code));
  }

  lemma {:induction false} RejectionIsKept(env: Settings, token: Token, rows: seq<Row>, raw: Raw, code: Code)
    requires ValidateOne(env, token, rows, raw) == Reject(code)
    ensures AnsweredAndKept(env, token, rows, raw, RejectionOf(raw, code), QuarantineOf(token, raw, code))
  {
    hide Meets, ValidateOne;
    OutcomeExactlyWhen(env, token, rows, raw, Reject(code));
  }

  predicate SameKey(s: Span, t: Span) {
    && s.content.spanId == t.content.spanId && s.content.trajectoryId == t.content.trajectoryId
    && s.content.startTime == t.content.startTime
  }

  /** Entry i is stored: it is accepted, and no accepted entry before it has its key. */
  ghost predicate Stores(env: Settings, token: Token, rows: seq<Row>, batch: seq<Raw>, i: nat) {
    && i < |batch| && batch[i].Good? && Meets(env, token, rows, batch[i], Accept)
    && forall j :: 0 <= j < i && batch[j].Good? && Meets(env, token, rows, batch[j], Accept) ==>
         !SameKey(batch[j].span, batch[i].span)
  }

  /** The rows added are the entries at the places `at`, in order. */
  ghost predicate StoredAt(env: Settings, token: Token, rows: seq<Row>, batch: seq<Raw>, at: seq<nat>, n: nat, added: seq<Row>) {
    && |at| == |added| && Ascending(at, |batch|)
    && (forall i: nat :: i < |batch| ==> (i in at <==> Stores(env, token, rows, batch, i)))
    && (forall k :: 0 <= k < |at| ==> batch[at[k]].Good? && added[k] == Row(batch[at[k]].span, n))
  }

  /** A batch is refused whole, or its rejected entries are answered and kept in order, and its first accepted entry of each
      new key is stored in order. */
  lemma {:induction false} EveryEntryExactlyWhen(env: Settings, l: Ledger, token: Token, batch: seq<Raw>)
      returns (rejects: seq<nat>, stores: seq<nat>)
    ensures var (l', response) := IngestBatch(env, l, token, batch);
            && (response.ServerError? <==> exists raw :: raw in batch && Meets(env, token, l.rows, raw, Raise))
            && (response.ServerError? ==> l' == l)
            && (response.Stored? ==>
                  && l.rows <= l'.rows && l.quarantine <= l'.quarantine
                  && RejectedAt(env, token, l.rows, batch, rejects, response.rejected, l'.quarantine[|l.quarantine|..])
                  && StoredAt(env, token, l.rows, batch, stores, |l.batches|, l'.rows[|l.rows|..])
                  && response.accepted == |stores|
                  && l'.batches == l.batches + [BatchRecord(token, |batch|, |stores|, |rejects|)])
  {
    hide Meets, ValidateOne, Rejections, Accepted, RejectAll, QuarantineAll, RejectedAt, StoredAt, Insert;
    rejects := RejectionsAreAt(env, token, l.rows, batch);
    stores := RowsAreAt(env, token, l.rows, batch, |l.batches|);
    forall raw ensures ValidateOne(env, token, l.rows, raw) == Raise <==> Meets(env, token, l.rows, raw, Raise) {
      OutcomeExactlyWhen(env, token, l.rows, raw, Raise);
    }
    var (l', response) := IngestBatch(env, l, token, batch);
    if response.Stored? {
      var rejections := Rejections(env, token, l.rows, batch);
      assert l'.quarantine[|l.quarantine|..] == QuarantineAll(token, rejections);
      assert |rejects| == |rejections| by { CountRejected(env, token, l.rows, batch, rejects, rejections); }
      assert |stores| == |l'.rows| - |l.rows| by { CountStored(env, token, l.rows, batch, stores, |l.batches|, l'.rows[|l.rows|..]); }
    }
  }

  lemma {:induction false} CountRejected(env: Settings, token: Token, rows: seq<Row>, batch: seq<Raw>, at: seq<nat>,
                                         rejections: seq<(Raw, Code)>)
    requires RejectedAt(env, token, rows, batch, at, RejectAll(rejections), QuarantineAll(token, rejections))
    ensures |at| == |rejections|
  {
  }

  lemma {:induction false} CountStored(env: Settings, token: Token, rows: seq<Row>, batch: seq<Raw>, at: seq<nat>, n: nat, added: seq<Row>)
    requires StoredAt(env, token, rows, batch, at, n, added)
    ensures |at| == |added|
  {
  }

  lemma {:induction false} StoredGrows(env: Settings, token: Token, rows: seq<Row>, init: seq<Raw>, raw: Raw,
                                       at: seq<nat>, n: nat, added: seq<Row>)
    requires StoredAt(env, token, rows, init, at, n, added)
    ensures Stores(env, token, rows, init + [raw], |init|) ==>
              raw.Good? && StoredAt(env, token, rows, init + [raw], at + [|init|], n, added + [Row(raw.span, n)])
    ensures !Stores(env, token, rows, init + [raw], |init|) ==> StoredAt(env, token, rows, init + [raw], at, n, added)
  {
    hide Meets, Stores;
    var batch := init + [raw];
    StoresGood(env, token, rows, batch, |init|);
    NextPlace(at, |init|);
    EarlierStores(env, token, rows, init, raw);
    forall k | 0 <= k < |at| ensures batch[at[k]] == init[at[k]] {
    }
  }

  lemma {:induction false} StoresGood(env: Settings, token: Token, rows: seq<Row>, batch: seq<Raw>, i: nat)
    ensures Stores(env, token, rows, batch, i) ==> i < |batch| && batch[i].Good?
  {
  }

  lemma {:induction false} RowsAreAt(env: Settings, token: Token, rows: seq<Row>, batch: seq<Raw>, n: nat) returns (at: seq<nat>)
    ensures StoredAt(env, token, rows, batch, at, n, Insert(rows, Accepted(env, token, rows, batch), n)[|rows|..])
  {
    hide Meets, ValidateOne, Accepted, Insert, Stores, Conflicts;
    if batch == [] {
      at := [];
      NothingYet(env, token, rows);
      InsertNothing(rows, n);
    } else {
      hide StoredAt;
      var init, raw := batch[..|batch| - 1], batch[|batch| - 1];
      assert batch == init + [raw];
      var before := RowsAreAt(env, token, rows, init, n);
      var spans := Accepted(env, token, rows, init);
      var taken := Insert(rows, spans, n);
      BatchGrows(env, token, rows, init, raw);
      StoredGrows(env, token, rows, init, raw, before, n, taken[|rows|..]);
      at := before;
      if ValidateOne(env, token, rows, raw) == Accept {
        InsertOneMore(rows, spans, raw.span, n);
        StoresUnlessConflict(env, token, rows, init, raw, n);
        if !exists r :: r in taken && Conflicts(r, raw.span) {
          at := before + [|init|];
          assert (taken + [Row(raw.span, n)])[|rows|..] == taken[|rows|..] + [Row(raw.span, n)];
        }
      } else {
        assert spans + [] == spans;
        OutcomeExactlyWhen(env, token, rows, raw, Accept);
        NotAcceptedNotStored(env, token, rows, batch, |init|);
      }
    }
  }

  lemma {:induction false} InsertNothing(rows: seq<Row>, n: nat)
    ensures Insert(rows, [], n) == rows
  {
  }

  lemma {:induction false} InsertOneMore(rows: seq<Row>, spans: seq<Span>, s: Span, n: nat)
    ensures Insert(rows, spans + [s], n)
         == Insert(rows, spans, n) + if exists r :: r in Insert(rows, spans, n) && Conflicts(r, s) then [] else [Row(s, n)]
  {
    hide Conflicts;
    assert (spans + [s])[..|spans|] == spans;
  }

  lemma {:induction false} NotAcceptedNotStored(env: Settings, token: Token, rows: seq<Row>, batch: seq<Raw>, i: nat)
    requires i < |batch| && !Meets(env, token, rows, batch[i], Accept)
    ensures !Stores(env, token, rows, batch, i)
  {
  }

  lemma {:induction false} EarlierStores(env: Settings, token: Token, rows: seq<Row>, init: seq<Raw>, raw: Raw)
    ensures forall i: nat :: i < |init| ==>
              (Stores(env, token, rows, init + [raw], i) <==> Stores(env, token, rows, init, i))
  {
    hide Meets;
    assert forall j :: 0 <= j < |init| ==> (init + [raw])[j] == init[j];
  }

  /** The key of every accepted span is taken afterwards, and only theirs and the old ones are. */
  lemma {:induction false} TakenKeys(rows: seq<Row>, spans: seq<Span>, n: nat, s: Span)
    ensures (exists r :: r in Insert(rows, spans, n) && Conflicts(r, s)) <==>
              (exists r :: r in rows && Conflicts(r, s)) || (exists t :: t in spans && SameKey(t, s))
  {
    if spans != [] {
      var init, last := spans[..|spans| - 1], spans[|spans| - 1];
      assert spans == init + [last];
      TakenKeys(rows, init, n, s);
      InsertOneMore(rows, init, last, n);
      var before := Insert(rows, init, n);
      assert Conflicts(Row(last, n), s) <==> SameKey(last, s);
      forall r | r in before && Conflicts(r, last) && SameKey(last, s) ensures Conflicts(r, s) {
      }
      assert forall r :: r in before + [Row(last, n)] <==> r in before || r == Row(last, n);
      assert forall t :: t in spans <==> t in init || t == last;
    }
  }

  lemma {:induction false} StoresUnlessConflict(env: Settings, token: Token, rows: seq<Row>, init: seq<Raw>, raw: Raw, n: nat)
    requires ValidateOne(env, token, rows, raw) == Accept
    ensures raw.Good?
    ensures Stores(env, token, rows, init + [raw], |init|) <==>
            !exists r :: r in Insert(rows, Accepted(env, token, rows, init), n) && Conflicts(r, raw.span)
  {
    hide ValidateOne, Accepted, Insert, Meets, Conflicts;
    AcceptedIsNew(env, token, rows, raw);
    NewPairDoesNotConflict(rows, raw.span);
    var spans := Accepted(env, token, rows, init);
    TakenKeys(rows, spans, n, raw.span);
    forall r ensures ValidateOne(env, token, rows, r) == Accept <==> Meets(env, token, rows, r, Accept) {
      OutcomeExactlyWhen(env, token, rows, r, Accept);
    }
    forall j | 0 <= j < |init| && init[j].Good? && Meets(env, token, rows, init[j], Accept) ensures init[j].span in spans {
      assert init[j] in init && init[j] == Good(init[j].span);
    }
    forall t | t in spans ensures exists j :: 0 <= j < |init| && init[j] == Good(t) && Meets(env, token, rows, init[j], Accept) {
      var r :| r in init && r == Good(t) && ValidateOne(env, token, rows, r) == Accept;
    }
    assert forall j :: 0 <= j < |init| ==> (init + [raw])[j] == init[j];
  }
}
