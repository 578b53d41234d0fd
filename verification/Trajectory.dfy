/** The reporter's loader, its hash checks, and the ledger's quick chain classification. */
module Trajectory {
  import opened Wrappers
  import opened Spans

  datatype LoadError =
    | EmptyTrajectory
    | MixedTrajectories
    | DuplicateSpanId
    | RootCount
    | DanglingParent
    | ContentHashMismatch
    | RootHasParentHash
    | ParentHashMismatch

  datatype Trajectory = Trajectory(trajectoryId: string, spans: seq<Span>, root: Span)

  datatype ChainStatus = Verified | PendingParents | Broken

  // ---- what the checks mean ----

  ghost predicate OneTrajectory(spans: seq<Span>) {
    forall s, t :: s in spans && t in spans ==> s.content.trajectoryId == t.content.trajectoryId
  }

  predicate IsRoot(s: Span) {
    s.content.parentId.None?
  }

  ghost predicate OneRoot(spans: seq<Span>) {
    exists i :: 0 <= i < |spans| && IsRoot(spans[i]) && (forall j :: 0 <= j < |spans| && IsRoot(spans[j]) ==> j == i)
  }

  ghost predicate HasSpan(spans: seq<Span>, id: string) {
    exists s :: s in spans && SpanId(s) == id
  }

  ghost predicate ParentsPresent(spans: seq<Span>) {
    forall s :: s in spans && !IsRoot(s) ==> HasSpan(spans, s.content.parentId.value)
  }

  /** A span's hashes hold: its own recomputes, a root names no parent hash, a child names its parent's. */
  ghost predicate HashesHold(hash: ContentHash, spans: seq<Span>, s: Span) {
    && hash(s.content) == s.provenance.contentHash
    && (IsRoot(s) ==> s.provenance.parentHash == None)
    && (!IsRoot(s) ==> forall p :: p in spans && SpanId(p) == s.content.parentId.value ==>
                         s.provenance.parentHash == Some(p.provenance.contentHash))
  }

  ghost predicate WellFormed(spans: seq<Span>) {
    spans != [] && OneTrajectory(spans) && Distinct(Ids(spans)) && OneRoot(spans) && ParentsPresent(spans)
  }

  ghost predicate Loadable(hash: ContentHash, spans: seq<Span>) {
    WellFormed(spans) && forall s :: s in spans ==> HashesHold(hash, spans, s)
  }

  // ---- the loader ----

  ghost predicate IndexOf(spans: seq<Span>, byId: map<string, Span>) {
    && (forall s :: s in spans ==> SpanId(s) in byId && byId[SpanId(s)] == s)
    && (forall id :: id in byId ==> byId[id] in spans && SpanId(byId[id]) == id)
  }

  function HashError(hash: ContentHash, s: Span): LoadError {
    if hash(s.content) != s.provenance.contentHash then ContentHashMismatch
    else if IsRoot(s) then RootHasParentHash
    else ParentHashMismatch
  }

  /** Span i is the first whose hashes do not hold. */
  ghost predicate FirstFailure(hash: ContentHash, spans: seq<Span>, i: nat) {
    && i < |spans| && !HashesHold(hash, spans, spans[i])
    && forall j :: 0 <= j < i ==> HashesHold(hash, spans, spans[j])
  }

  method VerifyHashes(hash: ContentHash, spans: seq<Span>, byId: map<string, Span>) returns (error: Option<LoadError>)
    requires IndexOf(spans, byId) && ParentsPresent(spans)
    ensures error.None? <==> forall s :: s in spans ==> HashesHold(hash, spans, s)
    ensures error.Some? ==> exists i: nat :: FirstFailure(hash, spans, i) && error.value == HashError(hash, spans[i])
  {
    for i := 0 to |spans|
      invariant forall j :: 0 <= j < i ==> HashesHold(hash, spans, spans[j])
    {
      var s := spans[i];
      assert s in spans;
      if hash(s.content) != s.provenance.contentHash {
        assert FirstFailure(hash, spans, i);
        return Some(ContentHashMismatch);
      }
      if IsRoot(s) {
        if s.provenance.parentHash.Some? {
          assert FirstFailure(hash, spans, i);
          return Some(RootHasParentHash);
        }
      } else {
        var parent := byId[s.content.parentId.value];
        if s.provenance.parentHash != Some(parent.provenance.contentHash) {
          assert parent in spans;
          assert FirstFailure(hash, spans, i);
          return Some(ParentHashMismatch);
        }
      }
    }
    error := None;
  }

  /** Every error names the first check that fails, in the loader's order. */
  ghost predicate StructureError(spans: seq<Span>, e: LoadError) {
    if spans == [] then e == EmptyTrajectory
    else if !OneTrajectory(spans) then e == MixedTrajectories
    else if !Distinct(Ids(spans)) then e == DuplicateSpanId
    else if !OneRoot(spans) then e == RootCount
    else !ParentsPresent(spans) && e == DanglingParent
  }

  method SameTrajectory(spans: seq<Span>) returns (same: bool)
    requires spans != []
    ensures same <==> OneTrajectory(spans)
  {
    var trajectoryId := spans[0].content.trajectoryId;
    for i := 0 to |spans|
      invariant forall j :: 0 <= j < i ==> spans[j].content.trajectoryId == trajectoryId
    {
      if spans[i].content.trajectoryId != trajectoryId {
        assert spans[i] in spans && spans[0] in spans;
        return false;
      }
    }
    same := true;
  }

  method IndexUnique(spans: seq<Span>) returns (r: Option<map<string, Span>>)
    ensures r.Some? <==> Distinct(Ids(spans))
    ensures r.Some? ==> IndexOf(spans, r.value)
  {
    var byId: map<string, Span> := map[];
    for i := 0 to |spans|
      invariant IndexOf(spans[..i], byId) && Distinct(Ids(spans[..i]))
    {
      var s := spans[i];
      ghost var ids := Ids(spans[..i]);
      assert spans[..i + 1] == spans[..i] + [s];
      IdsAppend(spans[..i], [s]);
      IdsMembers(spans[..i], SpanId(s));
      DistinctAppend(ids, [SpanId(s)]);
      assert Ids([s]) == [SpanId(s)];
      if SpanId(s) in byId {
        assert spans == spans[..i + 1] + spans[i + 1..];
        IdsAppend(spans[..i + 1], spans[i + 1..]);
        DistinctAppend(Ids(spans[..i + 1]), Ids(spans[i + 1..]));
        return None;
      }
      byId := byId[SpanId(s) := s];
    }
    assert spans[..|spans|] == spans;
    r := Some(byId);
  }

  method SoleRoot(spans: seq<Span>) returns (root: Option<Span>)
    ensures root.Some? <==> OneRoot(spans)
    ensures root.Some? ==> root.value in spans && IsRoot(root.value)
  {
    var roots: seq<Span> := [];
    ghost var first, second := 0, 0;
    for i := 0 to |spans|
      invariant forall j :: 0 <= j < i && IsRoot(spans[j]) ==> |roots| > 0 && (|roots| == 1 ==> j == first)
      invariant |roots| > 0 ==> 0 <= first < i && IsRoot(spans[first]) && roots[0] == spans[first]
      invariant |roots| > 1 ==> first < second < i && IsRoot(spans[second])
    {
      if IsRoot(spans[i]) {
        if roots == [] {
          first := i;
        } else {
          second := i;
        }
        roots := roots + [spans[i]];
      }
    }
    if |roots| != 1 {
      return None;
    }
    root := Some(roots[0]);
  }

  method AllParentsPresent(spans: seq<Span>, byId: map<string, Span>) returns (present: bool)
    requires IndexOf(spans, byId)
    ensures present <==> ParentsPresent(spans)
  {
    for i := 0 to |spans|
      invariant forall j :: 0 <= j < i && !IsRoot(spans[j]) ==> HasSpan(spans, spans[j].content.parentId.value)
    {
      var s := spans[i];
      assert s in spans;
      if !IsRoot(s) {
        if s.content.parentId.value !in byId {
          return false;
        }
        assert byId[s.content.parentId.value] in spans;
      }
    }
    present := true;
  }

  method FromSpans(hash: ContentHash, spans: seq<Span>, verifyHashes: bool) returns (r: Result<Trajectory, LoadError>)
    ensures r.Ok? <==> WellFormed(spans) && (verifyHashes ==> Loadable(hash, spans))
    ensures r.Ok? ==>
              && r.value.spans == spans && r.value.root in spans && IsRoot(r.value.root)
              && r.value.trajectoryId == r.value.root.content.trajectoryId
    ensures r.Err? && !WellFormed(spans) ==> StructureError(spans, r.error)
    ensures r.Err? && WellFormed(spans) ==> exists i: nat :: FirstFailure(hash, spans, i) && r.error == HashError(hash, spans[i])
  {
    if spans == [] {
      return Err(EmptyTrajectory);
    }
    var same := SameTrajectory(spans);
    if !same {
      return Err(MixedTrajectories);
    }
    var byId := IndexUnique(spans);
    if byId.None? {
      return Err(DuplicateSpanId);
    }
    var root := SoleRoot(spans);
    if root.None? {
      return Err(RootCount);
    }
    var present := AllParentsPresent(spans, byId.value);
    if !present {
      return Err(DanglingParent);
    }
    if verifyHashes {
      var error := VerifyHashes(hash, spans, byId.value);
      if error.Some? {
        return Err(error.value);
      }
    }
    assert spans[0] in spans;
    r := Ok(Trajectory(spans[0].content.trajectoryId, spans, root.value));
  }

  /** The bool-returning check: `by_id` keeps the last span of a repeated id. */
  ghost predicate LastWithId(spans: seq<Span>, p: Span) {
    exists i :: 0 <= i < |spans| && spans[i] == p && forall j :: i < j < |spans| ==> SpanId(spans[j]) != SpanId(p)
  }

  method IndexById(spans: seq<Span>) returns (byId: map<string, Span>)
    ensures forall id :: id in byId <==> HasSpan(spans, id)
    ensures forall id :: id in byId ==> SpanId(byId[id]) == id && LastWithId(spans, byId[id])
    ensures Distinct(Ids(spans)) ==> IndexOf(spans, byId)
  {
    byId := map[];
    for i := 0 to |spans|
      invariant forall id :: id in byId <==> HasSpan(spans[..i], id)
      invariant forall id :: id in byId ==> SpanId(byId[id]) == id && LastWithId(spans[..i], byId[id])
    {
      ghost var was := byId;
      assert spans[..i + 1] == spans[..i] + [spans[i]];
      byId := byId[SpanId(spans[i]) := spans[i]];
      forall id | id in byId ensures LastWithId(spans[..i + 1], byId[id]) && HasSpan(spans[..i + 1], id) {
        if id == SpanId(spans[i]) {
          assert spans[..i + 1][i] == spans[i] && spans[i] in spans[..i + 1];
        } else {
          var k :| 0 <= k < i && spans[..i][k] == was[id]
                   && forall j :: k < j < i ==> SpanId(spans[..i][j]) != SpanId(was[id]);
          assert spans[..i + 1][k] == was[id] && was[id] in spans[..i + 1];
        }
      }
    }
    assert spans[..|spans|] == spans;
    if Distinct(Ids(spans)) {
      forall s | s in spans ensures SpanId(s) in byId && byId[SpanId(s)] == s {
        var i :| 0 <= i < |spans| && spans[i] == s;
        assert HasSpan(spans, SpanId(s));
        var k :| 0 <= k < |spans| && spans[k] == byId[SpanId(s)];
        assert Ids(spans)[i] == Ids(spans)[k];
      }
    }
  }

  /** The stored parent a lookup by id finds for s carries another hash than s names. */
  ghost predicate ParentDiffers(spans: seq<Span>, s: Span) {
    !IsRoot(s) && exists p :: LastWithId(spans, p) && SpanId(p) == s.content.parentId.value
                              && s.provenance.parentHash != Some(p.provenance.contentHash)
  }

  /** The parent s names is not in the list. */
  ghost predicate LinkPending(spans: seq<Span>, s: Span) {
    !IsRoot(s) && !HasSpan(spans, s.content.parentId.value)
  }

  /** What the chain check asks of one span; of a root it asks nothing about a parent hash. */
  ghost predicate ChainHoldsFor(hash: ContentHash, spans: seq<Span>, s: Span) {
    hash(s.content) == s.provenance.contentHash && !LinkPending(spans, s) && !ParentDiffers(spans, s)
  }

  ghost predicate ChainHolds(hash: ContentHash, spans: seq<Span>) {
    forall s :: s in spans ==> ChainHoldsFor(hash, spans, s)
  }

  lemma {:induction false} LastIsUnique(spans: seq<Span>, p: Span, q: Span)
    requires LastWithId(spans, p) && LastWithId(spans, q) && SpanId(p) == SpanId(q)
    ensures p == q
  {
  }

  /** The lookup decides whether the parent differs. */
  lemma {:induction false} LookupDecides(spans: seq<Span>, s: Span, p: Span)
    requires !IsRoot(s) && LastWithId(spans, p) && SpanId(p) == s.content.parentId.value
    ensures HasSpan(spans, SpanId(p))
    ensures ParentDiffers(spans, s) <==> s.provenance.parentHash != Some(p.provenance.contentHash)
  {
    if ParentDiffers(spans, s) {
      var q :| LastWithId(spans, q) && SpanId(q) == s.content.parentId.value
               && s.provenance.parentHash != Some(q.provenance.contentHash);
      LastIsUnique(spans, p, q);
    }
    assert p in spans;
  }

  method VerifyHashChain(hash: ContentHash, spans: seq<Span>) returns (ok: bool)
    ensures ok <==> ChainHolds(hash, spans)
  {
    hide LastWithId, ParentDiffers;
    var byId := IndexById(spans);
    for i := 0 to |spans|
      invariant forall j :: 0 <= j < i ==> ChainHoldsFor(hash, spans, spans[j])
    {
      var s := spans[i];
      assert s in spans;
      if hash(s.content) != s.provenance.contentHash {
        return false;
      }
      if !IsRoot(s) {
        if s.content.parentId.value !in byId {
          assert LinkPending(spans, s);
          return false;
        }
        var parent := byId[s.content.parentId.value];
        LookupDecides(spans, s, parent);
        if s.provenance.parentHash != Some(parent.provenance.contentHash) {
          return false;
        }
      } else {
        RootsDiffNever(spans, s);
      }
    }
    ok := true;
  }

  lemma {:induction false} RootsDiffNever(spans: seq<Span>, s: Span)
    requires IsRoot(s)
    ensures !ParentDiffers(spans, s)
  {
  }

  /** What breaks the classification: a root that names a parent hash, or a child that contradicts its parent. */
  ghost predicate LinkBroken(spans: seq<Span>, s: Span) {
    if IsRoot(s) then s.provenance.parentHash.Some? else ParentDiffers(spans, s)
  }

  method ClassifyChain(spans: seq<Span>) returns (status: ChainStatus)
    ensures status == Broken <==> exists s :: s in spans && LinkBroken(spans, s)
    ensures status == Verified <==> forall s :: s in spans ==> !LinkBroken(spans, s) && !LinkPending(spans, s)
  {
    hide LastWithId, ParentDiffers;
    var byId := IndexById(spans);
    var pending := false;
    for i := 0 to |spans|
      invariant forall j :: 0 <= j < i ==> !LinkBroken(spans, spans[j])
      invariant pending <==> exists j :: 0 <= j < i && LinkPending(spans, spans[j])
    {
      var s := spans[i];
      assert s in spans;
      if IsRoot(s) {
        if s.provenance.parentHash.Some? {
          assert LinkBroken(spans, s);
          return Broken;
        }
      } else if s.content.parentId.value !in byId {
        pending := true;
        assert LinkPending(spans, s);
        AbsentNeverDiffers(spans, s);
      } else {
        var parent := byId[s.content.parentId.value];
        LookupDecides(spans, s, parent);
        if s.provenance.parentHash != Some(parent.provenance.contentHash) {
          assert LinkBroken(spans, s);
          return Broken;
        }
      }
    }
    status := if pending then PendingParents else Verified;
  }

  lemma {:induction false} AbsentNeverDiffers(spans: seq<Span>, s: Span)
    requires LinkPending(spans, s)
    ensures !ParentDiffers(spans, s)
  {
  }

  // ---- order does not matter ----

  lemma {:induction false} PermutationKeepsMembers<T>(a: seq<T>, b: seq<T>)
    requires multiset(a) == multiset(b)
    ensures |a| == |b| && forall x :: x in a <==> x in b
  {
    assert |multiset(a)| == |a| && |multiset(b)| == |b|;
    forall x ensures x in a <==> x in b {
      assert x in a <==> x in multiset(a);
      assert x in b <==> x in multiset(b);
    }
  }

  lemma {:induction false} DistinctByMultiplicity<T>(a: seq<T>)
    ensures Distinct(a) <==> forall x :: multiset(a)[x] <= 1
    decreases |a|
  {
    if a != [] {
      var init, last := a[..|a| - 1], a[|a| - 1];
      assert a == init + [last];
      DistinctByMultiplicity(init);
      DistinctAppend(init, [last]);
      assert multiset(a) == multiset(init) + multiset{last};
      assert last in init <==> last in multiset(init);
      assert forall x :: multiset(init)[x] <= multiset(a)[x];
      if Distinct(init) && last !in init {
        assert multiset(init)[last] == 0;
      }
    }
  }

  lemma {:induction false} DistinctIdsOfPermutation(a: seq<Span>, b: seq<Span>)
    requires multiset(a) == multiset(b) && Distinct(Ids(a))
    ensures Distinct(Ids(b))
  {
    PermutationKeepsMembers(a, b);
    assert Distinct(a) by {
      forall i, j | 0 <= i < j < |a| ensures a[i] != a[j] {
        assert Ids(a)[i] != Ids(a)[j];
      }
    }
    DistinctByMultiplicity(a);
    DistinctByMultiplicity(b);
    forall i, j | 0 <= i < j < |b| ensures Ids(b)[i] != Ids(b)[j] {
      assert b[i] in b && b[j] in b;
      var k :| 0 <= k < |a| && a[k] == b[i];
      var l :| 0 <= l < |a| && a[l] == b[j];
      assert k != l ==> Ids(a)[k] != Ids(a)[l];
    }
  }

  lemma {:induction false} OneRootByCount(spans: seq<Span>)
    requires Distinct(Ids(spans))
    ensures OneRoot(spans) <==>
            (exists s :: s in spans && IsRoot(s) && (forall t :: t in spans && IsRoot(t) ==> t == s))
  {
    if OneRoot(spans) {
      var i :| 0 <= i < |spans| && IsRoot(spans[i]) && (forall j :: 0 <= j < |spans| && IsRoot(spans[j]) ==> j == i);
      assert spans[i] in spans;
    }
    if s :| s in spans && IsRoot(s) && (forall t :: t in spans && IsRoot(t) ==> t == s) {
      OnlyRootOnce(spans, s);
    }
  }

  lemma {:induction false} OnlyRootOnce(spans: seq<Span>, s: Span)
    requires Distinct(Ids(spans)) && s in spans && IsRoot(s) && (forall t :: t in spans && IsRoot(t) ==> t == s)
    ensures OneRoot(spans)
  {
    var i :| 0 <= i < |spans| && spans[i] == s;
    forall j | 0 <= j < |spans| && IsRoot(spans[j]) ensures j == i {
      assert spans[j] in spans;
      assert Ids(spans)[i] == Ids(spans)[j];
    }
  }

  /** Whether a list loads does not depend on the order of its spans. */
  lemma {:induction false} LoadableIgnoresOrder(hash: ContentHash, a: seq<Span>, b: seq<Span>)
    requires multiset(a) == multiset(b) && Loadable(hash, a)
    ensures Loadable(hash, b)
  {
    PermutationKeepsMembers(a, b);
    DistinctIdsOfPermutation(a, b);
    OneRootByCount(a);
    OneRootByCount(b);
    forall s | s in b && !IsRoot(s) ensures HasSpan(b, s.content.parentId.value) {
      assert HasSpan(a, s.content.parentId.value);
    }
    forall s | s in b ensures HashesHold(hash, b, s) {
      assert HashesHold(hash, a, s);
    }
  }

  /** What loads with hash checks is classified as verified. */
  lemma {:induction false} LoadableIsVerified(hash: ContentHash, spans: seq<Span>)
    requires Loadable(hash, spans)
    ensures forall s :: s in spans ==> !LinkBroken(spans, s) && !LinkPending(spans, s)
  {
    forall s | s in spans ensures !LinkBroken(spans, s) && !LinkPending(spans, s) {
      assert HashesHold(hash, spans, s);
    }
  }

  /** On what the loader takes for a trajectory, it and the chain check agree except on a root that names a parent hash. */
  lemma {:induction false} LoaderVersusChainCheck(hash: ContentHash, spans: seq<Span>)
    requires WellFormed(spans)
    ensures Loadable(hash, spans) <==>
              ChainHolds(hash, spans) && forall s :: s in spans && IsRoot(s) ==> s.provenance.parentHash == None
  {
    forall s | s in spans
      ensures HashesHold(hash, spans, s) <==> ChainHoldsFor(hash, spans, s) && (IsRoot(s) ==> s.provenance.parentHash == None)
    {
      DistinctIsLast(spans);
      assert !LinkPending(spans, s);
    }
  }

  /** Without repeated ids every span is the last one with its id. */
  lemma {:induction false} DistinctIsLast(spans: seq<Span>)
    requires Distinct(Ids(spans))
    ensures forall p :: LastWithId(spans, p) <==> p in spans
  {
    forall p | p in spans ensures LastWithId(spans, p) {
      var i :| 0 <= i < |spans| && spans[i] == p;
      forall j | i < j < |spans| ensures SpanId(spans[j]) != SpanId(p) {
        assert Ids(spans)[i] != Ids(spans)[j];
      }
    }
  }
}
