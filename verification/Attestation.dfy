/** Attestation windows: one leaf per trajectory closed in the window, one signed Merkle root per window. */
module Attestation {
  import opened Wrappers
  import opened Spans
  import opened Sorting
  import Merkle

  /** Hashing and signing, as arbitrary functions; `payload` renders root, window end and customer. */
  datatype Env = Env(sha: Merkle.Hash, payload: (Digest, int, string) -> string, sign: string -> string, interval: nat)

  datatype Window = Window(id: nat, customer: string, start: int, end: int, count: nat, root: Digest, signature: string)

  datatype LeafRow = LeafRow(windowId: nat, trajectoryId: string, rootHash: Digest, index: nat)

  datatype Leaf = Leaf(trajectoryId: string, rootHash: Digest)

  datatype Database = Database(spans: seq<Span>, windows: seq<Window>, leaves: seq<LeafRow>)

  // ---- which trajectories a window covers ----

  predicate IsRootOf(s: Span, customer: string, trajectoryId: string) {
    s.content.customer == customer && s.content.trajectoryId == trajectoryId && s.content.parentId.None?
  }

  predicate ClosedRoot(s: Span, customer: string, start: int, end: int) {
    s.content.customer == customer && s.content.parentId.None? && start <= s.content.endTime < end
  }

  /** Trajectories of the customer with a root span that ended in [start, end). */
  function ClosedIn(spans: seq<Span>, customer: string, start: int, end: int): set<string> {
    set s | s in spans && ClosedRoot(s, customer, start, end) :: s.content.trajectoryId
  }

  // ---- the window query ----

  function InTrajectories(customer: string, ids: set<string>): Span -> bool {
    (s: Span) => s.content.customer == customer && s.content.trajectoryId in ids
  }

  function OfTrajectory(trajectoryId: string): Span -> bool {
    (s: Span) => s.content.trajectoryId == trajectoryId
  }

  function OfWindow(id: nat): LeafRow -> bool {
    (x: LeafRow) => x.windowId == id
  }

  /** ORDER BY trajectory_id, start_time, span_id. */
  predicate RowLess(a: Span, b: Span) {
    || StringLess(a.content.trajectoryId, b.content.trajectoryId)
    || (&& a.content.trajectoryId == b.content.trajectoryId
        && (|| a.content.startTime < b.content.startTime
            || (a.content.startTime == b.content.startTime && StringLess(a.content.spanId, b.content.spanId))))
  }

  function WindowRows(spans: seq<Span>, customer: string, start: int, end: int): seq<Span> {
    var closed := ClosedIn(spans, customer, start, end);
    SortBy(RowLess, Where(InTrajectories(customer, closed), spans))
  }

  function HashesOf(rows: seq<Span>): (r: seq<Digest>)
    ensures |r| == |rows|
  {
    seq(|rows|, i requires 0 <= i < |rows| => rows[i].provenance.contentHash)
  }

  /** The hashes of one trajectory's rows, in the order of the rows. */
  function Group(rows: seq<Span>, trajectoryId: string): seq<Digest> {
    HashesOf(Where(OfTrajectory(trajectoryId), rows))
  }

  function TrajectoryOf(s: Span): string {
    s.content.trajectoryId
  }

  /** Trajectory ids in order of first appearance. */
  function FirstSeen(rows: seq<Span>): (ids: seq<string>)
    ensures forall t :: t in ids <==> exists s :: s in rows && s.content.trajectoryId == t
    ensures Distinct(ids)
  {
    assert forall t :: t in KeysOf(TrajectoryOf, rows) <==> exists s :: s in rows && s.content.trajectoryId == t by {
      forall t ensures t in KeysOf(TrajectoryOf, rows) <==> exists s :: s in rows && s.content.trajectoryId == t {
        KeysMembers(TrajectoryOf, rows, t);
        if s :| s in rows && s.content.trajectoryId == t {
          assert TrajectoryOf(s) == t;
        }
      }
    }
    KeysOf(TrajectoryOf, rows)
  }

  /** The customer's rows of one trajectory in start order, whatever window they are read for. */
  function TrajectoryRows(spans: seq<Span>, customer: string, trajectoryId: string): seq<Span> {
    SortBy(RowLess, Where(InTrajectories(customer, {trajectoryId}), spans))
  }

  function TrajectoryRoot(sha: Merkle.Hash, spans: seq<Span>, customer: string, trajectoryId: string): Digest {
    var hashes := HashesOf(TrajectoryRows(spans, customer, trajectoryId));
    if hashes == [] then sha("") else Merkle.Root(sha, hashes)
  }

  // ---- what a leaf is, whatever computes it ----

  /** The customer's rows of the trajectory, each as often as it is stored. */
  ghost predicate Lists(spans: seq<Span>, customer: string, trajectoryId: string, rows: seq<Span>) {
    forall s: Span :: multiset(rows)[s] ==
      if s.content.customer == customer && s.content.trajectoryId == trajectoryId then multiset(spans)[s] else 0
  }

  ghost predicate Ascend(a: Span, b: Span) {
    || a.content.startTime < b.content.startTime
    || (a.content.startTime == b.content.startTime
        && (a.content.spanId == b.content.spanId || Precedes(a.content.spanId, b.content.spanId)))
  }

  /** Ascending by start time, and by span id among equal starts. */
  ghost predicate InStartOrder(rows: seq<Span>) {
    forall i, j :: 0 <= i < j < |rows| ==> Ascend(rows[i], rows[j])
  }

  ghost predicate HashRows(rows: seq<Span>, hashes: seq<Digest>) {
    |hashes| == |rows| && forall i :: 0 <= i < |rows| ==> hashes[i] == rows[i].provenance.contentHash
  }

  /** The digest is the Merkle root of the content hashes of the trajectory's rows in start order. */
  ghost predicate RootOfRows(sha: Merkle.Hash, spans: seq<Span>, customer: string, trajectoryId: string, root: Digest) {
    exists rows, hashes ::
      && rows != [] && Lists(spans, customer, trajectoryId, rows) && InStartOrder(rows)
      && HashRows(rows, hashes) && root == Merkle.Root(sha, hashes)
  }

  /** The leaves of a window: one per covered trajectory, by ascending id. */
  ghost predicate AreLeaves(sha: Merkle.Hash, spans: seq<Span>, customer: string, start: int, end: int, leaves: seq<Leaf>) {
    && (forall i, j :: 0 <= i < j < |leaves| ==> StringLess(leaves[i].trajectoryId, leaves[j].trajectoryId))
    && (forall t :: t in ClosedIn(spans, customer, start, end) <==> exists i :: 0 <= i < |leaves| && leaves[i].trajectoryId == t)
    && (forall i :: 0 <= i < |leaves| ==>
          && leaves[i].rootHash == TrajectoryRoot(sha, spans, customer, leaves[i].trajectoryId)
          && RootOfRows(sha, spans, customer, leaves[i].trajectoryId, leaves[i].rootHash))
  }

  function SortedIds(spans: seq<Span>, customer: string, start: int, end: int): seq<string> {
    SortBy(StringLess, FirstSeen(WindowRows(spans, customer, start, end)))
  }

  function Leaves(sha: Merkle.Hash, spans: seq<Span>, customer: string, start: int, end: int): (leaves: seq<Leaf>)
    ensures |leaves| == |SortedIds(spans, customer, start, end)|
  {
    var ids := SortedIds(spans, customer, start, end);
    seq(|ids|, i requires 0 <= i < |ids| => Leaf(ids[i], TrajectoryRoot(sha, spans, customer, ids[i])))
  }

  lemma {:induction false} RowLessIsOrder()
    ensures StrictWeakOrder(RowLess)
  {
    StringLessIsOrder();
    forall x: Span ensures !RowLess(x, x) {
      StringLessIsTotal(x.content.trajectoryId, x.content.trajectoryId);
      StringLessIsTotal(x.content.spanId, x.content.spanId);
    }
    forall x: Span, y: Span, z: Span | RowLess(x, y) && RowLess(y, z) ensures RowLess(x, z) {
    }
    forall x: Span, y: Span, z: Span | RowLess(x, z) ensures RowLess(x, y) || RowLess(y, z) {
    }
  }

  lemma {:induction false} WindowRowsMembers(spans: seq<Span>, customer: string, start: int, end: int)
    ensures forall s :: s in WindowRows(spans, customer, start, end) <==>
              s in spans && s.content.customer == customer && s.content.trajectoryId in ClosedIn(spans, customer, start, end)
  {
    hide ClosedIn;
    var wanted := InTrajectories(customer, ClosedIn(spans, customer, start, end));
    SortIsPermutation(RowLess, Where(wanted, spans));
    forall s ensures s in Where(wanted, spans) <==> s in spans && wanted(s) {
      WhereMembers(wanted, spans, s);
    }
  }

  lemma {:induction false} SortedIdsMembers(spans: seq<Span>, customer: string, start: int, end: int)
    ensures forall t :: t in SortedIds(spans, customer, start, end) <==> t in ClosedIn(spans, customer, start, end)
    ensures SortedIds(spans, customer, start, end) == [] <==> ClosedIn(spans, customer, start, end) == {}
  {
    hide SortBy;
    var rows, ids := WindowRows(spans, customer, start, end), SortedIds(spans, customer, start, end);
    WindowRowsMembers(spans, customer, start, end);
    SortIsPermutation(StringLess, FirstSeen(rows));
    forall t ensures t in ids <==> t in ClosedIn(spans, customer, start, end) {
      assert t in ids <==> exists s :: s in rows && s.content.trajectoryId == t;
    }
    assert ids != [] ==> ids[0] in ids;
  }

  lemma {:induction false} RowsAreListed(spans: seq<Span>, customer: string, t: string)
    ensures Lists(spans, customer, t, TrajectoryRows(spans, customer, t))
  {
    var own, rows := InTrajectories(customer, {t}), TrajectoryRows(spans, customer, t);
    SortIsPermutation(RowLess, Where(own, spans));
    forall s: Span ensures multiset(rows)[s] ==
                     if s.content.customer == customer && s.content.trajectoryId == t then multiset(spans)[s] else 0
    {
      WhereCounts(own, spans, s);
    }
  }

  lemma {:induction false} RowsAreInStartOrder(spans: seq<Span>, customer: string, t: string)
    ensures InStartOrder(TrajectoryRows(spans, customer, t))
  {
    hide SortBy, Where;
    var own, rows := InTrajectories(customer, {t}), TrajectoryRows(spans, customer, t);
    RowLessIsOrder();
    SortIsSorted(RowLess, Where(own, spans));
    SortIsPermutation(RowLess, Where(own, spans));
    forall i, j | 0 <= i < j < |rows| ensures Ascend(rows[i], rows[j]) {
      assert !RowLess(rows[j], rows[i]);
      assert rows[i] in Where(own, spans) && rows[j] in Where(own, spans);
      WhereMembers(own, spans, rows[i]);
      WhereMembers(own, spans, rows[j]);
      StringLessIsTotal(rows[i].content.spanId, rows[j].content.spanId);
      StringLessExactlyWhen(rows[i].content.spanId, rows[j].content.spanId);
    }
  }

  /** The leaf of a trajectory with rows is the root of those rows in start order. */
  lemma {:induction false} TrajectoryRootIsOfRows(sha: Merkle.Hash, spans: seq<Span>, customer: string, t: string)
    requires exists s :: s in spans && s.content.customer == customer && s.content.trajectoryId == t
    ensures RootOfRows(sha, spans, customer, t, TrajectoryRoot(sha, spans, customer, t))
  {
    hide TrajectoryRows, Merkle.Root, InStartOrder;
    var rows := TrajectoryRows(spans, customer, t);
    RowsAreListed(spans, customer, t);
    RowsAreInStartOrder(spans, customer, t);
    var s :| s in spans && s.content.customer == customer && s.content.trajectoryId == t;
    assert s in multiset(spans) && s in multiset(rows);
    assert HashRows(rows, HashesOf(rows));
  }

  /** A window's leaf list is the one and only list of leaves for it. */
  lemma {:induction false} LeavesAreLeaves(sha: Merkle.Hash, spans: seq<Span>, customer: string, start: int, end: int)
    ensures AreLeaves(sha, spans, customer, start, end, Leaves(sha, spans, customer, start, end))
  {
    hide ClosedIn, TrajectoryRoot, WindowRows, RootOfRows;
    var ids := SortedIds(spans, customer, start, end);
    var leaves := Leaves(sha, spans, customer, start, end);
    SortedIdsMembers(spans, customer, start, end);
    SortedDistinct(FirstSeen(WindowRows(spans, customer, start, end)), ids);
    forall t ensures t in ids <==> exists i :: 0 <= i < |leaves| && leaves[i].trajectoryId == t {
      if t in ids {
        var i :| 0 <= i < |ids| && ids[i] == t;
        assert leaves[i].trajectoryId == t;
      }
    }
    forall i | 0 <= i < |leaves| ensures RootOfRows(sha, spans, customer, ids[i], leaves[i].rootHash) {
      ClosedIsListed(spans, customer, start, end, ids[i]);
      TrajectoryRootIsOfRows(sha, spans, customer, ids[i]);
    }
  }

  lemma {:induction false} ClosedExactlyWhen(spans: seq<Span>, customer: string, start: int, end: int)
    ensures ClosedIn(spans, customer, start, end) != {} <==>
              exists s :: s in spans && s.content.customer == customer && s.content.parentId.None?
                          && start <= s.content.endTime < end
  {
    if ClosedIn(spans, customer, start, end) != {} {
      var t :| t in ClosedIn(spans, customer, start, end);
    }
    if s :| s in spans && s.content.customer == customer && s.content.parentId.None? && start <= s.content.endTime < end {
      assert ClosedRoot(s, customer, start, end);
      assert s.content.trajectoryId in ClosedIn(spans, customer, start, end);
    }
  }

  lemma {:induction false} ClosedIsListed(spans: seq<Span>, customer: string, start: int, end: int, t: string)
    requires t in ClosedIn(spans, customer, start, end)
    ensures exists s :: s in spans && s.content.customer == customer && s.content.trajectoryId == t
  {
  }

  lemma {:induction false} SortedDistinct(ids: seq<string>, s: seq<string>)
    requires Distinct(ids) && s == SortBy(StringLess, ids)
    ensures forall i, j :: 0 <= i < j < |s| ==> StringLess(s[i], s[j])
  {
    StringLessIsOrder();
    SortIsSorted(StringLess, ids);
    SortIsPermutation(StringLess, ids);
    forall i, j | 0 <= i < j < |s| ensures StringLess(s[i], s[j]) {
      PermutedDistinct(ids, s, i, j);
      assert !StringLess(s[j], s[i]);
    }
  }

  // ---- grouping the sorted rows gives each trajectory's own sorted rows ----

  lemma {:induction false} GroupIsTrajectory(spans: seq<Span>, customer: string, start: int, end: int, t: string)
    requires t in ClosedIn(spans, customer, start, end)
    ensures Group(WindowRows(spans, customer, start, end), t) == HashesOf(TrajectoryRows(spans, customer, t))
    ensures HashesOf(TrajectoryRows(spans, customer, t)) != []
  {
    hide ClosedIn, SortBy;
    var wanted := InTrajectories(customer, ClosedIn(spans, customer, start, end));
    var both := InTrajectories(customer, {t});
    RowLessIsOrder();
    WhereOfSort(RowLess, OfTrajectory(t), Where(wanted, spans));
    WhereTwice(wanted, OfTrajectory(t), both, spans);
    ClosedHasRow(spans, customer, start, end, t);
  }

  lemma {:induction false} ClosedHasRow(spans: seq<Span>, customer: string, start: int, end: int, t: string)
    requires t in ClosedIn(spans, customer, start, end)
    ensures TrajectoryRows(spans, customer, t) != []
  {
    hide SortBy;
    var both := InTrajectories(customer, {t});
    var s :| s in spans && ClosedRoot(s, customer, start, end) && s.content.trajectoryId == t;
    WhereMembers(both, spans, s);
    SortIsPermutation(RowLess, Where(both, spans));
    assert s in TrajectoryRows(spans, customer, t);
  }

  /** What the order and the hashes of one trajectory's rows depend on. */
  datatype Place = Place(start: int, spanId: string, hash: Digest)

  function PlaceOf(s: Span): Place {
    Place(s.content.startTime, s.content.spanId, s.provenance.contentHash)
  }

  predicate PlaceLess(a: Place, b: Place) {
    a.start < b.start || (a.start == b.start && StringLess(a.spanId, b.spanId))
  }

  function HashAt(p: Place): Digest {
    p.hash
  }

  /** Rows that tie in start and span id carry one hash. */
  predicate TiesAgree(x: Span, y: Span) {
    x.content.startTime == y.content.startTime && x.content.spanId == y.content.spanId ==>
      x.provenance.contentHash == y.provenance.contentHash
  }

  lemma {:induction false} PlaceLessIsOrder()
    ensures StrictWeakOrder(PlaceLess)
  {
    StringLessIsOrder();
    forall x: Place ensures !PlaceLess(x, x) {
      StringLessIsTotal(x.spanId, x.spanId);
    }
    forall x: Place, y: Place, z: Place | PlaceLess(x, y) && PlaceLess(y, z) ensures PlaceLess(x, z) {
    }
    forall x: Place, y: Place, z: Place | PlaceLess(x, z) ensures PlaceLess(x, y) || PlaceLess(y, z) {
    }
  }

  lemma {:induction false} HashesArePlaces(rows: seq<Span>)
    ensures HashesOf(rows) == Mapped(HashAt, Mapped(PlaceOf, rows))
  {
    var places := Mapped(PlaceOf, rows);
    assert forall i :: 0 <= i < |rows| ==> places[i] == PlaceOf(rows[i]) && HashAt(places[i]) == HashesOf(rows)[i];
    assert |HashesOf(rows)| == |Mapped(HashAt, places)|;
  }

  /** Anyone holding the same rows recomputes the same leaf, in whatever order they are stored, if tied rows carry one hash. */
  lemma {:induction false} TrajectoryRootIgnoresOrder(sha: Merkle.Hash, a: seq<Span>, b: seq<Span>, customer: string, t: string)
    requires multiset(a) == multiset(b)
    requires forall x, y :: x in a && y in a && x.content.trajectoryId == t == y.content.trajectoryId ==> TiesAgree(x, y)
    ensures TrajectoryRoot(sha, a, customer, t) == TrajectoryRoot(sha, b, customer, t)
  {
    WherePermuted(InTrajectories(customer, {t}), a, b);
    RootOfSameRows(sha, a, b, customer, t);
  }

  /** Only the trajectory's own rows matter. */
  lemma {:induction false} RootOfSameRows(sha: Merkle.Hash, a: seq<Span>, b: seq<Span>, customer: string, t: string)
    requires var own := InTrajectories(customer, {t}); multiset(Where(own, a)) == multiset(Where(own, b))
    requires forall x, y :: x in a && y in a && x.content.trajectoryId == t == y.content.trajectoryId ==> TiesAgree(x, y)
    ensures TrajectoryRoot(sha, a, customer, t) == TrajectoryRoot(sha, b, customer, t)
  {
    var own := InTrajectories(customer, {t});
    var x, y := Where(own, a), Where(own, b);
    forall s | s in x ensures s in a && s.content.trajectoryId == t {
      WhereMembers(own, a, s);
    }
    assert forall s :: s in y ==> s in multiset(x);
    SameHashes(x, y, t);
  }

  lemma {:induction false} SameHashes(x: seq<Span>, y: seq<Span>, t: string)
    requires multiset(x) == multiset(y) && (forall s :: s in x ==> s.content.trajectoryId == t)
    requires forall r, s :: r in x && s in x ==> TiesAgree(r, s)
    ensures HashesOf(SortBy(RowLess, x)) == HashesOf(SortBy(RowLess, y))
  {
    hide StrictWeakOrder;
    forall r, s | r in x && s in x ensures RowLess(r, s) == PlaceLess(PlaceOf(r), PlaceOf(s)) {
      StringLessIsTotal(t, t);
    }
    forall s | s in y ensures s in x {
      assert s in multiset(x);
    }
    SortMapped(RowLess, PlaceLess, PlaceOf, x);
    SortMapped(RowLess, PlaceLess, PlaceOf, y);
    PermutedMapped(PlaceOf, x, y);
    PlaceLessIsOrder();
    PlacesDiffer(x);
    SortIgnoresOrder(PlaceLess, Mapped(PlaceOf, x), Mapped(PlaceOf, y));
    HashesArePlaces(SortBy(RowLess, x));
    HashesArePlaces(SortBy(RowLess, y));
  }

  lemma {:induction false} PlacesDiffer(x: seq<Span>)
    requires forall r, s :: r in x && s in x ==> TiesAgree(r, s)
    ensures forall p, q :: p in Mapped(PlaceOf, x) && q in Mapped(PlaceOf, x) ==> p == q || PlaceLess(p, q) || PlaceLess(q, p)
  {
    forall p, q | p in Mapped(PlaceOf, x) && q in Mapped(PlaceOf, x) ensures p == q || PlaceLess(p, q) || PlaceLess(q, p) {
      var i :| 0 <= i < |x| && Mapped(PlaceOf, x)[i] == p;
      var j :| 0 <= j < |x| && Mapped(PlaceOf, x)[j] == q;
      assert p == PlaceOf(x[i]) && q == PlaceOf(x[j]);
      assert x[i] in x && x[j] in x && TiesAgree(x[i], x[j]);
      StringLessIsTotal(p.spanId, q.spanId);
    }
  }

  // ---- building one window ----

  function LeafHashes(leaves: seq<Leaf>): (r: seq<Digest>)
    ensures |r| == |leaves|
  {
    seq(|leaves|, i requires 0 <= i < |leaves| => leaves[i].rootHash)
  }

  function WindowOf(env: Env, db: Database, customer: string, start: int, end: int): (w: Window)
    requires ClosedIn(db.spans, customer, start, end) != {}
    ensures w.id == |db.windows| && w.customer == customer && w.start == start && w.end == end
  {
    var leaves := Leaves(env.sha, db.spans, customer, start, end);
    SortedIdsMembers(db.spans, customer, start, end);
    var root := Merkle.Root(env.sha, LeafHashes(leaves));
    Window(|db.windows|, customer, start, end, |leaves|, root, env.sign(env.payload(root, end, customer)))
  }

  function Enumerated(windowId: nat, leaves: seq<Leaf>): (rows: seq<LeafRow>)
    ensures |rows| == |leaves|
  {
    seq(|leaves|, i requires 0 <= i < |leaves| => LeafRow(windowId, leaves[i].trajectoryId, leaves[i].rootHash, i))
  }

  /** The store after one window build: an empty window leaves it alone. */
  function BuildStep(env: Env, db: Database, customer: string, start: int, end: int): Database {
    if ClosedIn(db.spans, customer, start, end) == {} then db
    else
      db.(windows := db.windows + [WindowOf(env, db, customer, start, end)],
          leaves := db.leaves + Enumerated(|db.windows|, Leaves(env.sha, db.spans, customer, start, end)))
  }

  /** One window is added that signs the root of its leaves, and a numbered row for each leaf. */
  ghost predicate AddsWindow(env: Env, db: Database, customer: string, start: int, end: int, db': Database, pairs: seq<Leaf>) {
    && pairs != [] && AreLeaves(env.sha, db.spans, customer, start, end, pairs)
    && db'.spans == db.spans
    && db.leaves <= db'.leaves && |db'.leaves| == |db.leaves| + |pairs|
    && (forall i :: 0 <= i < |pairs| ==>
          db'.leaves[|db.leaves| + i] == LeafRow(|db.windows|, pairs[i].trajectoryId, pairs[i].rootHash, i))
    && (exists root, hashes ::
          && |hashes| == |pairs| && (forall i :: 0 <= i < |pairs| ==> hashes[i] == pairs[i].rootHash)
          && root == Merkle.Root(env.sha, hashes)
          && db'.windows == db.windows
             + [Window(|db.windows|, customer, start, end, |pairs|, root, env.sign(env.payload(root, end, customer)))])
  }

  lemma {:induction false} BuildAddsWindow(env: Env, db: Database, customer: string, start: int, end: int)
    requires ClosedIn(db.spans, customer, start, end) != {}
    ensures exists pairs :: AddsWindow(env, db, customer, start, end, BuildStep(env, db, customer, start, end), pairs)
  {
    hide ClosedIn, Leaves, AreLeaves, SortedIds, Merkle.Root;
    var pairs := Leaves(env.sha, db.spans, customer, start, end);
    SortedIdsMembers(db.spans, customer, start, end);
    LeavesAreLeaves(env.sha, db.spans, customer, start, end);
    var hashes := LeafHashes(pairs);
    assert Merkle.Root(env.sha, hashes) == WindowOf(env, db, customer, start, end).root;
    assert AddsWindow(env, db, customer, start, end, BuildStep(env, db, customer, start, end), pairs);
  }

  /** The latest window end of the customer. */
  function LastWindowEnd(windows: seq<Window>, customer: string): (r: Option<int>)
    ensures r.None? <==> forall w :: w in windows ==> w.customer != customer
    ensures r.Some? ==> (exists w :: w in windows && w.customer == customer && w.end == r.value)
                        && (forall w :: w in windows && w.customer == customer ==> w.end <= r.value)
  {
    if windows == [] then None
    else
      var before, last := LastWindowEnd(windows[..|windows| - 1], customer), windows[|windows| - 1];
      assert windows == windows[..|windows| - 1] + [last];
      if last.customer != customer || (before.Some? && before.value >= last.end) then before else Some(last.end)
  }

  function WindowStart(env: Env, db: Database, customer: string, now: int): int {
    var last := LastWindowEnd(db.windows, customer);
    if last.Some? then last.value else now - env.interval
  }

  function VisitStep(env: Env, db: Database, customer: string, now: int): Database {
    BuildStep(env, db, customer, WindowStart(env, db, customer, now), now)
  }

  function VisitAll(env: Env, db: Database, customers: seq<string>, now: int): Database {
    if customers == [] then db
    else VisitStep(env, VisitAll(env, db, customers[..|customers| - 1], now), customers[|customers| - 1], now)
  }

  /** Customers with a root closed in [since, until). */
  function Customers(spans: seq<Span>, since: int, until: int): set<string> {
    set s | s in spans && ClosedRoot(s, s.content.customer, since, until) :: s.content.customer
  }

  /** The dictionary of hashes per trajectory, with its keys in insertion order. */
  method GroupByTrajectory(rows: seq<Span>) returns (order: seq<string>, byTrajectory: map<string, seq<Digest>>)
    ensures order == FirstSeen(rows)
    ensures forall t :: t in order ==> t in byTrajectory && byTrajectory[t] == Group(rows, t)
  {
    hide Group;
    order, byTrajectory := [], map[];
    for i := 0 to |rows|
      invariant order == FirstSeen(rows[..i])
      invariant forall t :: t in byTrajectory <==> t in order
      invariant forall t :: t in byTrajectory ==> byTrajectory[t] == Group(rows[..i], t)
    {
      var r := rows[i];
      var t := r.content.trajectoryId;
      assert rows[..i + 1][..i] == rows[..i];
      assert rows[..i + 1] == rows[..i] + [r];
      GroupGrows(rows[..i], r);
      if t !in byTrajectory {
        order := order + [t];
        byTrajectory := byTrajectory[t := []];
      }
      byTrajectory := byTrajectory[t := byTrajectory[t] + [r.provenance.contentHash]];
    }
    assert rows[..|rows|] == rows;
  }

  lemma {:induction false} LeafAt(sha: Merkle.Hash, spans: seq<Span>, customer: string, start: int, end: int, i: nat)
    requires i < |SortedIds(spans, customer, start, end)|
    ensures var id := SortedIds(spans, customer, start, end)[i];
            var group := Group(WindowRows(spans, customer, start, end), id);
            group != [] && Leaves(sha, spans, customer, start, end)[i] == Leaf(id, Merkle.Root(sha, group))
  {
    hide ClosedIn, WindowRows, TrajectoryRows, Group, Merkle.Root;
    var id := SortedIds(spans, customer, start, end)[i];
    SortedIdsMembers(spans, customer, start, end);
    GroupIsTrajectory(spans, customer, start, end, id);
  }

  method SortKeys(spans: seq<Span>, customer: string, start: int, end: int, order: seq<string>) returns (ids: seq<string>)
    requires order == FirstSeen(WindowRows(spans, customer, start, end))
    ensures ids == SortedIds(spans, customer, start, end)
    ensures forall i :: 0 <= i < |ids| ==> ids[i] in order
  {
    ids := SortBy(StringLess, order);
    SortIsPermutation(StringLess, order);
  }

  /** The window's leaves from its sorted rows. */
  method LeafPairs(env: Env, spans: seq<Span>, customer: string, start: int, end: int, rows: seq<Span>)
      returns (pairs: seq<Leaf>)
    requires rows == WindowRows(spans, customer, start, end)
    ensures pairs == Leaves(env.sha, spans, customer, start, end)
  {
    hide ClosedIn, WindowRows, Leaves, Group, FirstSeen, Merkle.Root, SortedIds, SortBy;
    var order, byTrajectory := GroupByTrajectory(rows);
    var ids := SortKeys(spans, customer, start, end, order);
    ghost var all := Leaves(env.sha, spans, customer, start, end);
    pairs := [];
    for i := 0 to |ids|
      invariant |pairs| == i && forall k :: 0 <= k < i ==> pairs[k] == all[k]
    {
      LeafAt(env.sha, spans, customer, start, end, i);
      var root := Merkle.BuildRoot(env.sha, byTrajectory[ids[i]]);
      pairs := pairs + [Leaf(ids[i], root)];
    }
    assert pairs == all;
  }

  class Store {
    var spans: seq<Span>
    var windows: seq<Window>
    var leaves: seq<LeafRow>

    constructor ()
      ensures View() == Database([], [], [])
    {
      spans, windows, leaves := [], [], [];
    }

    function View(): Database
      reads this
    {
      Database(spans, windows, leaves)
    }

    method BuildWindow(env: Env, customer: string, start: int, end: int) returns (built: bool)
      modifies this
      ensures View() == BuildStep(env, old(View()), customer, start, end)
      ensures |windows| == |old(windows)| + if built then 1 else 0
      ensures built <==> exists s :: s in spans && s.content.customer == customer && s.content.parentId.None?
                                      && start <= s.content.endTime < end
      ensures built ==> exists pairs :: AddsWindow(env, old(View()), customer, start, end, View(), pairs)
      ensures !built ==> View() == old(View())
    {
      ClosedExactlyWhen(spans, customer, start, end);
      hide AddsWindow;
      hide ClosedIn, WindowRows, Leaves, SortedIds, Merkle.Root;
      ghost var db := View();
      var rows := WindowRows(spans, customer, start, end);
      RowsEmpty(spans, customer, start, end);
      if rows == [] {
        return false;
      }
      SortedIdsMembers(spans, customer, start, end);
      var pairs := LeafPairs(env, spans, customer, start, end, rows);
      var root := Merkle.BuildRoot(env.sha, LeafHashes(pairs));
      var id := |windows|;
      var signature := env.sign(env.payload(root, end, customer));
      var w := Window(id, customer, start, end, |pairs|, root, signature);
      windows := windows + [w];
      ghost var added := Enumerated(id, pairs);
      for i := 0 to |pairs|
        invariant spans == db.spans && windows == db.windows + [w]
        invariant leaves == db.leaves + added[..i]
      {
        assert added[..i + 1] == added[..i] + [added[i]];
        leaves := leaves + [LeafRow(id, pairs[i].trajectoryId, pairs[i].rootHash, i)];
      }
      assert added[..|pairs|] == added;
      BuildAddsWindow(env, db, customer, start, end);
      built := true;
    }

    /** One pass over the customers that closed something in the last ten intervals, in any order. */
    method RunOnce(env: Env, now: int, customers: seq<string>) returns (created: nat)
      requires Distinct(customers) && (forall c :: c in customers <==> c in Customers(spans, now - 10 * env.interval, now))
      modifies this
      ensures View() == VisitAll(env, old(View()), customers, now)
      ensures created == |windows| - |old(windows)|
    {
      hide BuildStep, ClosedIn, Leaves, SortedIds, AddsWindow;
      created := 0;
      ghost var db := View();
      for i := 0 to |customers|
        invariant View() == VisitAll(env, db, customers[..i], now)
        invariant created == |windows| - |db.windows|
      {
        assert customers[..i + 1][..i] == customers[..i];
        var last := LastWindowEnd(windows, customers[i]);
        var start := if last.Some? then last.value else now - env.interval;
        var built := BuildWindow(env, customers[i], start, now);
        if built {
          created := created + 1;
        }
      }
      assert customers[..|customers|] == customers;
    }

    /** The inclusion proof for one of the trajectory's leaves; which one is left to the id order. */
    method ProofFor(env: Env, trajectoryId: string) returns (r: Option<(LeafRow, Merkle.MerkleProof)>)
      requires WellStored(env, View())
      ensures r.None? <==> forall l :: l in leaves ==> l.trajectoryId != trajectoryId
      ensures r.Some? ==>
                var (row, proof) := r.value;
                && row in leaves && row.trajectoryId == trajectoryId && row.windowId < |windows|
                && proof.leaf == row.rootHash && proof.leafIndex == row.index
                && proof.leafCount == windows[row.windowId].count
                && proof.root == windows[row.windowId].root
                && Merkle.Fold(env.sha, proof.leaf, proof.path) == windows[row.windowId].root
    {
      hide WellStored, Merkle.Fold;
      if l :| l in leaves && l.trajectoryId == trajectoryId {
        var proof := StoredProof(env, View(), l);
        r := Some((l, proof));
      } else {
        r := None;
      }
    }
  }

  method StoredProof(env: Env, db: Database, l: LeafRow) returns (proof: Merkle.MerkleProof)
    requires WellStored(env, db) && l in db.leaves
    ensures l.windowId < |db.windows|
    ensures proof.leaf == l.rootHash && proof.leafIndex == l.index && proof.leafCount == db.windows[l.windowId].count
    ensures proof.root == db.windows[l.windowId].root
    ensures Merkle.Fold(env.sha, proof.leaf, proof.path) == db.windows[l.windowId].root
  {
    hide Merkle.Root, Merkle.AuditPath, Merkle.Fold, Where, SortBy;
    var id := l.windowId;
    ghost var own := LeafRowsOf(db, id);
    assert multiset(own) == multiset(LeafRowsOf(db, id));
    var scanned :| multiset(scanned) == multiset(LeafRowsOf(db, id));
    var all := SortBy(IndexLess, scanned);
    StoredLeavesSorted(env, db, id, scanned);
    WhereMembers(OfWindow(id), db.leaves, l);
    var hashes := RowHashes(all);
    var built := Merkle.BuildProof(env.sha, hashes, l.index);
    Merkle.AuditPathFolds(env.sha, hashes, l.index);
    proof := built.value;
  }

  lemma {:induction false} RowsEmpty(spans: seq<Span>, customer: string, start: int, end: int)
    ensures WindowRows(spans, customer, start, end) == [] <==> ClosedIn(spans, customer, start, end) == {}
  {
    hide WindowRows;
    var rows := WindowRows(spans, customer, start, end);
    WindowRowsMembers(spans, customer, start, end);
    assert rows != [] ==> rows[0] in rows;
    assert forall t :: t in ClosedIn(spans, customer, start, end) ==> exists s :: s in rows && s.content.trajectoryId == t;
  }

  lemma {:induction false} GroupGrows(rows: seq<Span>, r: Span)
    ensures forall t :: Group(rows + [r], t)
                        == Group(rows, t) + if r.content.trajectoryId == t then [r.provenance.contentHash] else []
    ensures r.content.trajectoryId !in FirstSeen(rows) ==> Group(rows, r.content.trajectoryId) == []
  {
    forall t
      ensures Group(rows + [r], t) == Group(rows, t) + (if r.content.trajectoryId == t then [r.provenance.contentHash] else [])
    {
      WhereAppend(OfTrajectory(t), rows, r);
    }
    var t := r.content.trajectoryId;
    if t !in FirstSeen(rows) {
      WhereNone(OfTrajectory(t), rows);
    }
  }

  // ---- stored leaves and their proofs ----

  predicate IndexLess(a: LeafRow, b: LeafRow) {
    a.index < b.index
  }

  function RowHashes(rows: seq<LeafRow>): (r: seq<Digest>)
    ensures |r| == |rows|
  {
    seq(|rows|, i requires 0 <= i < |rows| => rows[i].rootHash)
  }

  function LeafRowsOf(db: Database, id: nat): seq<LeafRow> {
    Where(OfWindow(id), db.leaves)
  }

  /** Row k of a window carries index k. */
  predicate Indexed(rows: seq<LeafRow>) {
    forall k :: 0 <= k < |rows| ==> rows[k].index == k
  }

  predicate WellSigned(env: Env, w: Window, rows: seq<LeafRow>) {
    && w.count == |rows| > 0
    && w.root == Merkle.Root(env.sha, RowHashes(rows))
    && w.signature == env.sign(env.payload(w.root, w.end, w.customer))
  }

  /** Every window signs the root of its own stored leaves. */
  ghost predicate WellStored(env: Env, db: Database) {
    && (forall l :: l in db.leaves ==> l.windowId < |db.windows|)
    && (forall id :: 0 <= id < |db.windows| ==>
          db.windows[id].id == id && Indexed(LeafRowsOf(db, id)) && WellSigned(env, db.windows[id], LeafRowsOf(db, id)))
  }

  /** In whatever order a scan returns a window's leaves, sorting by index restores the signed order. */
  lemma {:induction false} StoredLeavesSorted(env: Env, db: Database, id: nat, scanned: seq<LeafRow>)
    requires WellStored(env, db) && id < |db.windows| && multiset(scanned) == multiset(LeafRowsOf(db, id))
    ensures SortBy(IndexLess, scanned) == LeafRowsOf(db, id)
    ensures forall l :: l in LeafRowsOf(db, id) ==> l.index < |LeafRowsOf(db, id)| && LeafRowsOf(db, id)[l.index] == l
  {
    var rows := LeafRowsOf(db, id);
    assert Indexed(rows);
    assert StrictWeakOrder(IndexLess);
    SortIgnoresOrder(IndexLess, rows, scanned);
    SortOfSorted(IndexLess, rows);
  }

  lemma {:induction false} EnumeratedElsewhere(leaves: seq<LeafRow>, id: nat, added: seq<Leaf>, k: nat)
    requires k != id
    ensures Where(OfWindow(k), leaves + Enumerated(id, added)) == Where(OfWindow(k), leaves)
  {
    var keep := OfWindow(k);
    if added == [] {
      assert leaves + Enumerated(id, added) == leaves;
    } else {
      var init, last := added[..|added| - 1], Enumerated(id, added)[|added| - 1];
      EnumeratedElsewhere(leaves, id, init, k);
      assert leaves + Enumerated(id, added) == leaves + Enumerated(id, init) + [last];
      WhereAppend(keep, leaves + Enumerated(id, init), last);
    }
  }

  lemma {:induction false} EnumeratedHere(leaves: seq<LeafRow>, id: nat, added: seq<Leaf>)
    requires forall l :: l in leaves ==> l.windowId < id
    ensures Where(OfWindow(id), leaves + Enumerated(id, added)) == Enumerated(id, added)
  {
    var keep := OfWindow(id);
    if added == [] {
      assert leaves + Enumerated(id, added) == leaves;
      WhereNone(keep, leaves);
    } else {
      var init, last := added[..|added| - 1], Enumerated(id, added)[|added| - 1];
      EnumeratedHere(leaves, id, init);
      assert leaves + Enumerated(id, added) == leaves + Enumerated(id, init) + [last];
      WhereAppend(keep, leaves + Enumerated(id, init), last);
      assert Enumerated(id, added) == Enumerated(id, init) + [last];
    }
  }

  /** Every window build keeps all stored windows well signed. */
  lemma {:induction false} BuildKeepsWellStored(env: Env, db: Database, customer: string, start: int, end: int)
    requires WellStored(env, db)
    ensures WellStored(env, BuildStep(env, db, customer, start, end))
  {
    hide Leaves, ClosedIn, SortedIds, Where, Merkle.Root;
    if ClosedIn(db.spans, customer, start, end) != {} {
      var id := |db.windows|;
      var leaves := Leaves(env.sha, db.spans, customer, start, end);
      var db' := BuildStep(env, db, customer, start, end);
      assert db'.windows == db.windows + [WindowOf(env, db, customer, start, end)];
      EnumeratedHere(db.leaves, id, leaves);
      assert LeafRowsOf(db', id) == Enumerated(id, leaves);
      assert RowHashes(Enumerated(id, leaves)) == LeafHashes(leaves);
      SortedIdsMembers(db.spans, customer, start, end);
      forall k: nat | k < id
        ensures db'.windows[k].id == k && Indexed(LeafRowsOf(db', k)) && WellSigned(env, db'.windows[k], LeafRowsOf(db', k))
      {
        EnumeratedElsewhere(db.leaves, id, leaves, k);
        assert LeafRowsOf(db', k) == LeafRowsOf(db, k);
      }
    }
  }
}
