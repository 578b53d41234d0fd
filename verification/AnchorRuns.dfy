/** Whole runs of the anchor job beside a growing span store: how the windows tile time. */
module AnchorRuns {
  import opened Wrappers
  import opened Spans
  import opened Sorting
  import opened Attestation
  import Merkle

  /** Rows committed by ingest, or one customer's turn in an anchor pass, in any interleaving. */
  datatype Step = Ingested(rows: seq<Span>) | Visited(customer: string, now: int)

  function ApplyStep(env: Env, db: Database, step: Step): Database {
    match step
    case Ingested(rows) => db.(spans := db.spans + rows)
    case Visited(customer, now) => VisitStep(env, db, customer, now)
  }

  function Run(env: Env, steps: seq<Step>): Database {
    if steps == [] then Database([], [], [])
    else ApplyStep(env, Run(env, steps[..|steps| - 1]), steps[|steps| - 1])
  }

  function OfCustomer(customer: string): Window -> bool {
    (w: Window) => w.customer == customer
  }

  /** One customer's windows, oldest first. */
  function WindowsOf(db: Database, customer: string): seq<Window> {
    Where(OfCustomer(customer), db.windows)
  }

  /** Each window is non-empty and starts where the one before it ended. */
  ghost predicate Tiled(ws: seq<Window>) {
    && (forall k :: 0 <= k < |ws| ==> ws[k].start < ws[k].end)
    && (forall k :: 1 <= k < |ws| ==> ws[k].start == ws[k - 1].end)
  }

  function Turns(customers: seq<string>, now: int): seq<Step> {
    if customers == [] then []
    else Turns(customers[..|customers| - 1], now) + [Visited(customers[|customers| - 1], now)]
  }

  /** A pass is its customers' turns, one after the other. */
  lemma {:induction false} PassIsVisits(env: Env, steps: seq<Step>, customers: seq<string>, now: int)
    ensures Run(env, steps + Turns(customers, now)) == VisitAll(env, Run(env, steps), customers, now)
  {
    hide VisitStep;
    if customers == [] {
      assert steps + [] == steps;
    } else {
      var init, last := customers[..|customers| - 1], Visited(customers[|customers| - 1], now);
      PassIsVisits(env, steps, init, now);
      RunAppend(env, steps + Turns(init, now), last);
      assert steps + Turns(customers, now) == (steps + Turns(init, now)) + [last];
    }
  }

  /** The worker's pass, in whatever order its query lists the customers, is their turns in the run. */
  method Pass(store: Store, env: Env, ghost steps: seq<Step>, now: int, customers: seq<string>) returns (created: nat)
    requires store.View() == Run(env, steps)
    requires Distinct(customers)
    requires forall c :: c in customers <==> c in Customers(store.spans, now - 10 * env.interval, now)
    modifies store
    ensures store.View() == Run(env, steps + Turns(customers, now))
    ensures Selected(env, steps, Turns(customers, now))
    ensures created == |store.windows| - |old(store.windows)|
  {
    hide Run, VisitAll, Customers;
    created := store.RunOnce(env, now, customers);
    PassIsVisits(env, steps, customers, now);
    PassIsSelected(env, steps, customers, now);
  }

  /** Every visit is to a customer with a root closed in the last ten intervals. */
  ghost predicate Selected(env: Env, steps: seq<Step>, more: seq<Step>) {
    forall i :: 0 <= i < |more| && more[i].Visited? ==>
      more[i].customer in Customers(Run(env, steps + more[..i]).spans, more[i].now - 10 * env.interval, more[i].now)
  }

  lemma {:induction false} TurnsAre(customers: seq<string>, now: int)
    ensures |Turns(customers, now)| == |customers|
    ensures forall i :: 0 <= i < |customers| ==> Turns(customers, now)[i] == Visited(customers[i], now)
  {
    if customers != [] {
      TurnsAre(customers[..|customers| - 1], now);
    }
  }

  predicate NoIngest(steps: seq<Step>) {
    forall step :: step in steps ==> step.Visited?
  }

  lemma {:induction false} VisitsKeepSpans(env: Env, steps: seq<Step>, more: seq<Step>)
    requires NoIngest(more)
    ensures Run(env, steps + more).spans == Run(env, steps).spans
  {
    if more == [] {
      assert steps + more == steps;
    } else {
      var init, last := more[..|more| - 1], more[|more| - 1];
      assert last in more && forall step :: step in init ==> step in more;
      VisitsKeepSpans(env, steps, init);
      assert steps + more == (steps + init) + [last];
      RunAppend(env, steps + init, last);
    }
  }

  lemma {:induction false} PassIsSelected(env: Env, steps: seq<Step>, customers: seq<string>, now: int)
    requires forall c :: c in customers ==> c in Customers(Run(env, steps).spans, now - 10 * env.interval, now)
    ensures Selected(env, steps, Turns(customers, now))
  {
    hide Run, Customers;
    var more := Turns(customers, now);
    TurnsAre(customers, now);
    forall i | 0 <= i < |more| && more[i].Visited?
      ensures more[i].customer in Customers(Run(env, steps + more[..i]).spans, more[i].now - 10 * env.interval, more[i].now)
    {
      forall step | step in more[..i] ensures step.Visited? {
        var j :| 0 <= j < i && more[j] == step;
      }
      VisitsKeepSpans(env, steps, more[..i]);
      assert customers[i] in customers;
    }
  }

  lemma {:induction false} RunAppend(env: Env, steps: seq<Step>, step: Step)
    ensures Run(env, steps + [step]) == ApplyStep(env, Run(env, steps), step)
  {
    assert (steps + [step])[..|steps|] == steps;
  }

  // ---- tiling ----

  lemma {:induction false} TiledEnds(ws: seq<Window>, i: nat, j: nat)
    requires Tiled(ws) && i < j < |ws|
    ensures ws[i].end <= ws[j].start
    decreases j
  {
    if i < j - 1 {
      TiledEnds(ws, i, j - 1);
    }
  }

  lemma {:induction false} LastOfTiled(db: Database, customer: string)
    requires Tiled(WindowsOf(db, customer))
    ensures var ws := WindowsOf(db, customer);
            LastWindowEnd(db.windows, customer) == if ws == [] then None else Some(ws[|ws| - 1].end)
  {
    var ws := WindowsOf(db, customer);
    var last := LastWindowEnd(db.windows, customer);
    if ws == [] {
      forall w | w in db.windows ensures w.customer != customer {
        WhereMembers(OfCustomer(customer), db.windows, w);
      }
    } else {
      var top := ws[|ws| - 1];
      WhereMembers(OfCustomer(customer), db.windows, top);
      assert top in ws;
      var w :| w in db.windows && w.customer == customer && w.end == last.value;
      WhereMembers(OfCustomer(customer), db.windows, w);
      var k :| 0 <= k < |ws| && ws[k] == w;
      if k < |ws| - 1 {
        TiledEnds(ws, k, |ws| - 1);
      }
    }
  }

  /** What one visit does to a customer's windows: nothing, or one window that continues them. */
  lemma {:induction false} VisitExtends(env: Env, db: Database, visited: string, now: int, customer: string)
    requires Tiled(WindowsOf(db, customer))
    ensures var db' := VisitStep(env, db, visited, now);
            var ws, ws' := WindowsOf(db, customer), WindowsOf(db', customer);
            Tiled(ws') && (ws' == ws || (visited == customer && ws' == ws + [db'.windows[|db'.windows| - 1]]))
  {
    hide Where, WindowStart, ClosedIn, WindowOf;
    var start := WindowStart(env, db, visited, now);
    if ClosedIn(db.spans, visited, start, now) != {} {
      var w := WindowOf(env, db, visited, start, now);
      WhereAppend(OfCustomer(customer), db.windows, w);
      if visited == customer {
        NextWindowFits(env, db, customer, now);
      }
    }
  }

  lemma {:induction false} NextWindowFits(env: Env, db: Database, customer: string, now: int)
    requires Tiled(WindowsOf(db, customer))
    requires ClosedIn(db.spans, customer, WindowStart(env, db, customer, now), now) != {}
    ensures var ws, start := WindowsOf(db, customer), WindowStart(env, db, customer, now);
            start < now && (ws != [] ==> start == ws[|ws| - 1].end)
  {
    LastOfTiled(db, customer);
    var t :| t in ClosedIn(db.spans, customer, WindowStart(env, db, customer, now), now);
  }

  /** Over every interleaving of ingest and visits, whatever the clock does, each customer's windows tile. */
  lemma {:induction false} WindowsTile(env: Env, steps: seq<Step>, customer: string)
    ensures Tiled(WindowsOf(Run(env, steps), customer))
  {
    if steps != [] {
      var init, last := steps[..|steps| - 1], steps[|steps| - 1];
      WindowsTile(env, init, customer);
      if last.Visited? {
        VisitExtends(env, Run(env, init), last.customer, last.now, customer);
      }
    }
  }

  predicate Covers(w: Window, end: int) {
    w.start <= end < w.end
  }

  /** Every moment from the first window's start to the last one's end lies in exactly one window. */
  lemma {:induction false} ExactlyOneWindow(ws: seq<Window>, end: int)
    requires Tiled(ws)
    ensures (exists k :: 0 <= k < |ws| && Covers(ws[k], end)) <==> ws != [] && ws[0].start <= end < ws[|ws| - 1].end
    ensures forall i, j :: 0 <= i < |ws| && 0 <= j < |ws| && Covers(ws[i], end) && Covers(ws[j], end) ==> i == j
  {
    forall i, j | 0 <= i < j < |ws| ensures !(Covers(ws[i], end) && Covers(ws[j], end)) {
      TiledEnds(ws, i, j);
    }
    forall k | 0 <= k < |ws| && Covers(ws[k], end) ensures ws[0].start <= end < ws[|ws| - 1].end {
      if k > 0 {
        TiledEnds(ws, 0, k);
      }
      if k < |ws| - 1 {
        TiledEnds(ws, k, |ws| - 1);
      }
    }
    if ws != [] && ws[0].start <= end < ws[|ws| - 1].end {
      FindWindow(ws, end, |ws| - 1);
    }
  }

  lemma {:induction false} FindWindow(ws: seq<Window>, end: int, k: nat)
    requires Tiled(ws) && k < |ws| && ws[0].start <= end < ws[k].end
    ensures exists i :: 0 <= i < |ws| && Covers(ws[i], end)
  {
    if end < ws[k].start {
      FindWindow(ws, end, k - 1);
    } else {
      assert Covers(ws[k], end);
    }
  }

  // ---- leaves of whole runs ----

  lemma {:induction false} RunIsWellStored(env: Env, steps: seq<Step>)
    ensures WellStored(env, Run(env, steps))
  {
    hide WellStored;
    if steps == [] {
      EmptyIsWellStored(env);
    } else {
      var init, last := steps[..|steps| - 1], steps[|steps| - 1];
      var db := Run(env, init);
      RunIsWellStored(env, init);
      match last
      case Ingested(rows) => SpansDoNotMatter(env, db, db.spans + rows);
      case Visited(customer, now) =>
        BuildKeepsWellStored(env, db, customer, WindowStart(env, db, customer, now), now);
    }
  }

  lemma {:induction false} EmptyIsWellStored(env: Env)
    ensures WellStored(env, Database([], [], []))
  {
  }

  lemma {:induction false} SpansDoNotMatter(env: Env, db: Database, spans: seq<Span>)
    requires WellStored(env, db)
    ensures WellStored(env, db.(spans := spans))
  {
    var db' := db.(spans := spans);
    assert forall id :: LeafRowsOf(db', id) == LeafRowsOf(db, id);
  }

  /** The step that built window id. */
  function VisitOf(env: Env, steps: seq<Step>, id: nat): (p: nat)
    requires id < |Run(env, steps).windows|
    ensures p < |steps|
  {
    var init := steps[..|steps| - 1];
    if id < |Run(env, init).windows| then VisitOf(env, init, id) else |steps| - 1
  }

  /** The spans stored when window id was built. */
  function SpansAt(env: Env, steps: seq<Step>, id: nat): seq<Span>
    requires id < |Run(env, steps).windows|
  {
    Run(env, steps[..VisitOf(env, steps, id)]).spans
  }

  /** Every window of every run: built by its customer's visit at its end, from the rows stored by then. */
  lemma {:induction false} WindowsHistory(env: Env, steps: seq<Step>, id: nat)
    requires id < |Run(env, steps).windows|
    ensures var db, p := Run(env, steps), VisitOf(env, steps, id);
            var w := db.windows[id];
            && w.id == id && steps[p] == Visited(w.customer, w.end)
            && LeafRowsOf(db, id) == Enumerated(id, Leaves(env.sha, SpansAt(env, steps, id), w.customer, w.start, w.end))
  {
    hide Leaves, ClosedIn, SortedIds, Where, WindowStart;
    var init, last := steps[..|steps| - 1], steps[|steps| - 1];
    var db, db' := Run(env, init), Run(env, steps);
    RunIsWellStored(env, init);
    if id < |db.windows| {
      WindowsHistory(env, init, id);
      var p := VisitOf(env, init, id);
      assert steps[..p] == init[..p] && steps[p] == init[p];
      if last.Visited? && |db'.windows| > |db.windows| {
        var leaves := Leaves(env.sha, db.spans, last.customer, WindowStart(env, db, last.customer, last.now), last.now);
        EnumeratedElsewhere(db.leaves, |db.windows|, leaves, id);
      }
    } else {
      var leaves := Leaves(env.sha, db.spans, last.customer, WindowStart(env, db, last.customer, last.now), last.now);
      EnumeratedHere(db.leaves, |db.windows|, leaves);
    }
  }

  predicate IsLeafIn(db: Database, id: nat, l: LeafRow, t: string) {
    l in db.leaves && l.windowId == id && l.trajectoryId == t
  }

  predicate IsLeafOf(db: Database, l: LeafRow, customer: string, t: string) {
    l in db.leaves && l.trajectoryId == t && l.windowId < |db.windows| && db.windows[l.windowId].customer == customer
  }

  ghost predicate RootStoredBy(spans: seq<Span>, customer: string, t: string, w: Window) {
    exists s :: s in spans && IsRootOf(s, customer, t) && Covers(w, s.content.endTime)
  }

  /** A window has a leaf for a trajectory exactly when one of its roots fell in the window and was stored in time;
      the leaf is the trajectory's root hash over the rows stored by then, and there is only one. */
  lemma {:induction false} LeafExactlyWhen(env: Env, steps: seq<Step>, id: nat, t: string)
    requires id < |Run(env, steps).windows|
    ensures var db := Run(env, steps);
            var w, spans := db.windows[id], SpansAt(env, steps, id);
            && ((exists l :: IsLeafIn(db, id, l, t)) <==> RootStoredBy(spans, w.customer, t, w))
            && (forall l :: IsLeafIn(db, id, l, t) ==>
                  && l.rootHash == TrajectoryRoot(env.sha, spans, w.customer, t)
                  && RootOfRows(env.sha, spans, w.customer, t, l.rootHash))
            && (forall l, m :: IsLeafIn(db, id, l, t) && IsLeafIn(db, id, m, t) ==> l == m)
  {
    hide Leaves, TrajectoryRoot, RootOfRows, Run, SpansAt, VisitOf, Where;
    var db := Run(env, steps);
    var w, spans := db.windows[id], SpansAt(env, steps, id);
    WindowsHistory(env, steps, id);
    var leaves := Leaves(env.sha, spans, w.customer, w.start, w.end);
    LeavesAreLeaves(env.sha, spans, w.customer, w.start, w.end);
    forall l: LeafRow | l.windowId == id && l in db.leaves ensures l.index < |leaves| && l == Enumerated(id, leaves)[l.index] {
      WhereMembers(OfWindow(id), db.leaves, l);
    }
    if RootStoredBy(spans, w.customer, t, w) {
      var s :| s in spans && IsRootOf(s, w.customer, t) && Covers(w, s.content.endTime);
      assert ClosedRoot(s, w.customer, w.start, w.end);
      assert t in ClosedIn(spans, w.customer, w.start, w.end);
      var i :| 0 <= i < |leaves| && leaves[i].trajectoryId == t;
      var l := Enumerated(id, leaves)[i];
      WhereMembers(OfWindow(id), db.leaves, l);
      assert IsLeafIn(db, id, l, t);
    }
    if l :| IsLeafIn(db, id, l, t) {
      assert leaves[l.index].trajectoryId == t;
      assert t in ClosedIn(spans, w.customer, w.start, w.end);
      var s :| s in spans && ClosedRoot(s, w.customer, w.start, w.end) && s.content.trajectoryId == t;
      assert IsRootOf(s, w.customer, t) && Covers(w, s.content.endTime);
    }
    forall l, m | IsLeafIn(db, id, l, t) && IsLeafIn(db, id, m, t)
      ensures l == m
    {
      assert leaves[l.index].trajectoryId == leaves[m.index].trajectoryId;
      StringLessIsTotal(t, t);
    }
  }

  lemma {:induction false} SpansGrow(env: Env, steps: seq<Step>, p: nat, s: Span)
    requires p <= |steps| && s in Run(env, steps[..p]).spans
    ensures s in Run(env, steps).spans
  {
    if p < |steps| {
      assert steps[..|steps| - 1][..p] == steps[..p];
      SpansGrow(env, steps[..|steps| - 1], p, s);
    } else {
      assert steps[..p] == steps;
    }
  }

  lemma {:induction false} WindowPosition(db: Database, id: nat, customer: string)
    requires id < |db.windows| && db.windows[id].customer == customer
    ensures db.windows[id] in WindowsOf(db, customer)
  {
    WhereMembers(OfCustomer(customer), db.windows, db.windows[id]);
  }

  /** Two windows of one customer that cover the same moment are the same window. */
  lemma {:induction false} OneCoveringWindow(env: Env, steps: seq<Step>, customer: string, end: int, a: nat, b: nat)
    requires var ws := Run(env, steps).windows; a < |ws| && b < |ws| && Covers(ws[a], end) && Covers(ws[b], end)
                                                && ws[a].customer == customer == ws[b].customer
    ensures a == b
  {
    var db := Run(env, steps);
    WindowsTile(env, steps, customer);
    WindowPosition(db, a, customer);
    WindowPosition(db, b, customer);
    var own := WindowsOf(db, customer);
    var i :| 0 <= i < |own| && own[i] == db.windows[a];
    var j :| 0 <= j < |own| && own[j] == db.windows[b];
    ExactlyOneWindow(own, end);
    RunIsWellStored(env, steps);
  }

  /** A trajectory whose roots all end at one moment has at most one leaf in the customer's windows, and has one
      exactly if its root was already stored when the window covering that moment was built. */
  lemma {:induction false} AttestedAtMostOnce(env: Env, steps: seq<Step>, customer: string, t: string, end: int)
    requires forall s :: s in Run(env, steps).spans && IsRootOf(s, customer, t) ==> s.content.endTime == end
    ensures var db := Run(env, steps);
            && (forall l, m :: IsLeafOf(db, l, customer, t) && IsLeafOf(db, m, customer, t) ==> l == m)
            && ((exists l :: IsLeafOf(db, l, customer, t)) <==>
                (exists id :: 0 <= id < |db.windows| && StoredInTime(env, steps, id, customer, t, end)))
  {
    hide Run, SpansAt;
    var db := Run(env, steps);
    forall l | IsLeafOf(db, l, customer, t) ensures StoredInTime(env, steps, l.windowId, customer, t, end) {
      LeafExactlyWhen(env, steps, l.windowId, t);
      assert IsLeafIn(db, l.windowId, l, t);
      var w, spans := db.windows[l.windowId], SpansAt(env, steps, l.windowId);
      var s :| s in spans && IsRootOf(s, customer, t) && Covers(w, s.content.endTime);
      SpansAtGrow(env, steps, l.windowId, s);
    }
    forall l, m | IsLeafOf(db, l, customer, t) && IsLeafOf(db, m, customer, t) ensures l == m {
      OneCoveringWindow(env, steps, customer, end, l.windowId, m.windowId);
      LeafExactlyWhen(env, steps, l.windowId, t);
      assert IsLeafIn(db, l.windowId, l, t) && IsLeafIn(db, l.windowId, m, t);
    }
    forall id | 0 <= id < |db.windows| && StoredInTime(env, steps, id, customer, t, end)
      ensures exists l :: IsLeafOf(db, l, customer, t)
    {
      LeafExactlyWhen(env, steps, id, t);
      var s :| s in SpansAt(env, steps, id) && IsRootOf(s, customer, t);
      SpansAtGrow(env, steps, id, s);
      assert RootStoredBy(SpansAt(env, steps, id), customer, t, db.windows[id]);
      var l :| IsLeafIn(db, id, l, t);
      assert IsLeafOf(db, l, customer, t);
    }
  }

  lemma {:induction false} SpansAtGrow(env: Env, steps: seq<Step>, id: nat, s: Span)
    requires id < |Run(env, steps).windows| && s in SpansAt(env, steps, id)
    ensures s in Run(env, steps).spans
  {
    SpansGrow(env, steps, VisitOf(env, steps, id), s);
  }

  /** The window id covers the moment, and the trajectory's root was stored before the visit that built it. */
  ghost predicate StoredInTime(env: Env, steps: seq<Step>, id: nat, customer: string, t: string, end: int)
    requires id < |Run(env, steps).windows|
  {
    var w := Run(env, steps).windows[id];
    w.customer == customer && Covers(w, end) && exists s :: s in SpansAt(env, steps, id) && IsRootOf(s, customer, t)
  }

  /** A visit the pass spares itself, to a customer that closed nothing in the last ten intervals, would have changed
      nothing exactly if no older root is waiting for a window. */
  lemma {:induction false} SkippedVisitIsNoOp(env: Env, db: Database, customer: string, now: int)
    requires customer !in Customers(db.spans, now - 10 * env.interval, now)
    ensures VisitStep(env, db, customer, now) == db <==>
              forall s :: s in db.spans ==> !ClosedRoot(s, customer, WindowStart(env, db, customer, now), now - 10 * env.interval)
  {
    var start, since := WindowStart(env, db, customer, now), now - 10 * env.interval;
    var closed := ClosedIn(db.spans, customer, start, now);
    forall s | s in db.spans && ClosedRoot(s, customer, start, now) ensures ClosedRoot(s, customer, start, since) {
      assert !ClosedRoot(s, s.content.customer, since, now);
    }
    if s :| s in db.spans && ClosedRoot(s, customer, start, since) {
      assert ClosedRoot(s, customer, start, now);
      assert s.content.trajectoryId in closed;
    }
  }

  // ---- which roots are never attested ----

  predicate IsRootSpan(s: Span) {
    s.content.parentId.None?
  }

  /** The root's end lies in a window of its customer that was built when the root was already stored. */
  ghost predicate Attested(env: Env, steps: seq<Step>, s: Span) {
    var ws := Run(env, steps).windows;
    exists id :: 0 <= id < |ws| && ws[id].customer == s.content.customer && Covers(ws[id], s.content.endTime)
                 && s in SpansAt(env, steps, id)
  }

  /** Visits from here on happen at `from` or later. */
  predicate NotBefore(from: int, steps: seq<Step>) {
    forall step :: step in steps && step.Visited? ==> step.now >= from
  }

  /** Whatever is ingested and whatever passes run from now on, the root is never attested. */
  ghost predicate Lost(env: Env, steps: seq<Step>, from: int, s: Span) {
    forall more :: NotBefore(from, more) && Selected(env, steps, more) ==> !Attested(env, steps + more, s)
  }

  /** The same if nothing more is ingested. */
  ghost predicate LostAsStored(env: Env, steps: seq<Step>, from: int, s: Span) {
    forall more :: NotBefore(from, more) && Selected(env, steps, more) && NoIngest(more) ==>
      !Attested(env, steps + more, s)
  }

  lemma {:induction false} WindowsOnlyGrow(env: Env, steps: seq<Step>, more: seq<Step>)
    ensures Run(env, steps).windows <= Run(env, steps + more).windows
    ensures forall id :: 0 <= id < |Run(env, steps).windows| ==> SpansAt(env, steps + more, id) == SpansAt(env, steps, id)
  {
    if more == [] {
      assert steps + more == steps;
    } else {
      hide Run, ApplyStep, SpansAt;
      var init, last := more[..|more| - 1], more[|more| - 1];
      WindowsOnlyGrow(env, steps, init);
      assert steps + more == (steps + init) + [last];
      RunAppend(env, steps + init, last);
      GrowsByStep(env, Run(env, steps + init), last);
      forall id | 0 <= id < |Run(env, steps).windows| ensures SpansAt(env, steps + more, id) == SpansAt(env, steps, id) {
        SameSpansAt(env, steps + init, last, id);
      }
    }
  }

  lemma {:induction false} SameSpansAt(env: Env, steps: seq<Step>, last: Step, id: nat)
    requires id < |Run(env, steps).windows| && id < |Run(env, steps + [last]).windows|
    ensures SpansAt(env, steps + [last], id) == SpansAt(env, steps, id)
  {
    hide Run;
    var all := steps + [last];
    assert all[..|all| - 1] == steps;
    var p := VisitOf(env, steps, id);
    assert all[..p] == steps[..p];
  }

  lemma {:induction false} GrowsByStep(env: Env, db: Database, step: Step)
    ensures db.windows <= ApplyStep(env, db, step).windows
  {
  }

  /** The customer's later windows all start at or after the end of its last one so far. */
  lemma {:induction false} LaterWindowsStartLater(env: Env, steps: seq<Step>, more: seq<Step>, customer: string, id: nat)
    requires WindowsOf(Run(env, steps), customer) != []
    requires |Run(env, steps).windows| <= id < |Run(env, steps + more).windows|
    requires Run(env, steps + more).windows[id].customer == customer
    ensures var ws := WindowsOf(Run(env, steps), customer); ws[|ws| - 1].end <= Run(env, steps + more).windows[id].start
  {
    hide Run;
    var before, after := Run(env, steps).windows, Run(env, steps + more).windows;
    WindowsOnlyGrow(env, steps, more);
    WindowsTile(env, steps + more, customer);
    var added := after[|before|..];
    assert after == before + added && added[id - |before|] == after[id];
    WhereConcat(OfCustomer(customer), before, added);
    WhereMembers(OfCustomer(customer), added, after[id]);
    var own, later := Where(OfCustomer(customer), before), Where(OfCustomer(customer), added);
    var k :| 0 <= k < |later| && later[k] == after[id];
    assert (own + later)[|own| + k] == after[id] && (own + later)[|own| - 1] == own[|own| - 1];
    TiledEnds(own + later, |own| - 1, |own| + k);
  }

  /** A customer's windows start no earlier than one interval before the clock, and without an interval there are none. */
  ghost predicate StartsFrom(db: Database, customer: string, bound: int, some: bool) {
    forall w :: w in WindowsOf(db, customer) ==> bound <= w.start && some
  }

  lemma {:induction false} StepStartsFrom(env: Env, db: Database, step: Step, customer: string, from: int)
    requires Tiled(WindowsOf(db, customer)) && StartsFrom(db, customer, from - env.interval, env.interval > 0)
    requires step.Visited? ==> step.now >= from
    ensures StartsFrom(ApplyStep(env, db, step), customer, from - env.interval, env.interval > 0)
  {
    hide Where, ClosedIn, WindowOf;
    if step.Visited? {
      var start := WindowStart(env, db, step.customer, step.now);
      if ClosedIn(db.spans, step.customer, start, step.now) != {} {
        var w := WindowOf(env, db, step.customer, start, step.now);
        WhereAppend(OfCustomer(customer), db.windows, w);
        if step.customer == customer {
          NextWindowFits(env, db, customer, step.now);
          LastOfTiled(db, customer);
        }
      }
    }
  }

  lemma {:induction false} RunStartsFrom(env: Env, steps: seq<Step>, more: seq<Step>, customer: string, from: int)
    requires WindowsOf(Run(env, steps), customer) == [] && NotBefore(from, more)
    ensures StartsFrom(Run(env, steps + more), customer, from - env.interval, env.interval > 0)
  {
    hide StartsFrom;
    if more == [] {
      assert steps + more == steps;
      NoneStarts(Run(env, steps), customer, from - env.interval, env.interval > 0);
    } else {
      var init, last := more[..|more| - 1], more[|more| - 1];
      assert last in more && forall x :: x in init ==> x in more;
      RunStartsFrom(env, steps, init, customer, from);
      WindowsTile(env, steps + init, customer);
      assert steps + more == (steps + init) + [last];
      RunAppend(env, steps + init, last);
      StepStartsFrom(env, Run(env, steps + init), last, customer, from);
    }
  }

  lemma {:induction false} NoneStarts(db: Database, customer: string, bound: int, some: bool)
    requires WindowsOf(db, customer) == []
    ensures StartsFrom(db, customer, bound, some)
  {
  }

  /** One visit covers a waiting root exactly if its end is reached: from the last window's end, or, for a customer
      without windows, from one interval before the visit. */
  lemma {:induction false} VisitCoversExactlyWhen(env: Env, db: Database, s: Span, now: int)
    requires s in db.spans && IsRootSpan(s) && Tiled(WindowsOf(db, s.content.customer))
    ensures var c, ws := s.content.customer, WindowsOf(db, s.content.customer);
            var start := if ws == [] then now - env.interval else ws[|ws| - 1].end;
            var db' := VisitStep(env, db, c, now);
            start <= s.content.endTime < now <==>
              && |db'.windows| == |db.windows| + 1
              && db'.windows[|db.windows|].customer == c && Covers(db'.windows[|db.windows|], s.content.endTime)
  {
    hide Where, Leaves, SortedIds;
    var c := s.content.customer;
    LastOfTiled(db, c);
    var start := WindowStart(env, db, c, now);
    if start <= s.content.endTime < now {
      assert ClosedRoot(s, c, start, now);
      assert s.content.trajectoryId in ClosedIn(db.spans, c, start, now);
    }
  }

  lemma {:induction false} VisitAttests(env: Env, steps: seq<Step>, s: Span, now: int)
    requires s in Run(env, steps).spans && IsRootSpan(s)
    requires var ws := WindowsOf(Run(env, steps), s.content.customer);
             (if ws == [] then now - env.interval else ws[|ws| - 1].end) <= s.content.endTime < now
    ensures Attested(env, steps + [Visited(s.content.customer, now)], s)
  {
    hide Run, SpansAt, Where, Covers, VisitStep;
    var id := |Run(env, steps).windows|;
    WindowsTile(env, steps, s.content.customer);
    VisitCoversExactlyWhen(env, Run(env, steps), s, now);
    RunAppend(env, steps, Visited(s.content.customer, now));
    BuiltLast(env, steps, Visited(s.content.customer, now), id);
  }

  lemma {:induction false} BuiltLast(env: Env, steps: seq<Step>, last: Step, id: nat)
    requires |Run(env, steps).windows| <= id < |Run(env, steps + [last]).windows|
    ensures SpansAt(env, steps + [last], id) == Run(env, steps).spans
  {
    hide Run;
    var all := steps + [last];
    assert all[..|all| - 1] == steps && all[..|steps|] == steps;
  }

  /** A root of the customer that ended at `end`, to be ingested. */
  function FreshRoot(like: Span, end: int): Span {
    like.(content := like.content.(endTime := end))
  }

  lemma {:induction false} FreshRootSelects(env: Env, steps: seq<Step>, s: Span, now: int)
    requires IsRootSpan(s) && env.interval > 0
    ensures Selected(env, steps, [Ingested([FreshRoot(s, now - 1)]), Visited(s.content.customer, now)])
  {
    hide Run;
    var ingest, added := Ingested([FreshRoot(s, now - 1)]), FreshRoot(s, now - 1);
    var more := [ingest, Visited(s.content.customer, now)];
    assert more[..1] == [ingest];
    RunAppend(env, steps, ingest);
    var spans := Run(env, steps + [ingest]).spans;
    assert added in [added] && added in spans;
    assert ClosedRoot(added, s.content.customer, now - 10 * env.interval, now);
    assert s.content.customer in Customers(spans, now - 10 * env.interval, now);
  }

  lemma {:induction false} AttestedAfterIngest(env: Env, steps: seq<Step>, s: Span, now: int)
    requires s in Run(env, steps).spans && IsRootSpan(s)
    requires var ws := WindowsOf(Run(env, steps), s.content.customer);
             (if ws == [] then now - env.interval else ws[|ws| - 1].end) <= s.content.endTime < now
    ensures Attested(env, steps + [Ingested([FreshRoot(s, now - 1)]), Visited(s.content.customer, now)], s)
  {
    hide Run, Where, Attested;
    var ingest := Ingested([FreshRoot(s, now - 1)]);
    RunAppend(env, steps, ingest);
    VisitAttests(env, steps + [ingest], s, now);
    assert steps + [ingest, Visited(s.content.customer, now)] == (steps + [ingest]) + [Visited(s.content.customer, now)];
  }

  /** A stored root not attested so far never is, whatever follows, exactly if its customer's windows have already
      passed its end, or, before the first window, if a first window opened from now on can no longer reach back to it,
      or if there is no interval, so that no pass selects anyone. */
  lemma {:induction false} LostExactlyWhen(env: Env, steps: seq<Step>, from: int, s: Span)
    requires s in Run(env, steps).spans && IsRootSpan(s) && !Attested(env, steps, s)
    ensures Lost(env, steps, from, s) <==>
              var ws := WindowsOf(Run(env, steps), s.content.customer);
              || env.interval == 0
              || s.content.endTime < if ws != [] then ws[|ws| - 1].end else from - env.interval
  {
    hide Run, Where, Attested, Selected;
    var c, end := s.content.customer, s.content.endTime;
    var ws := WindowsOf(Run(env, steps), c);
    if env.interval == 0 || end < (if ws != [] then ws[|ws| - 1].end else from - env.interval) {
      forall more | NotBefore(from, more) && Selected(env, steps, more) ensures !Attested(env, steps + more, s) {
        if env.interval == 0 {
          NobodySelected(env, steps, more, s, from);
        } else if ws != [] {
          PassedStaysLost(env, steps, more, s);
        } else {
          OutOfReachStaysLost(env, steps, more, from, s);
        }
      }
    } else {
      var now := if from > end then from else end + 1;
      FreshRootSelects(env, steps, s, now);
      AttestedAfterIngest(env, steps, s, now);
      assert NotBefore(from, [Ingested([FreshRoot(s, now - 1)]), Visited(c, now)]);
    }
  }

  /** The customer has a stored root that a pass at `from` or later can still see. */
  ghost predicate Active(env: Env, spans: seq<Span>, customer: string, from: int) {
    exists r :: r in spans && IsRootSpan(r) && r.content.customer == customer && from - 10 * env.interval <= r.content.endTime
  }

  /** Without further ingest it is also lost if a window exists but its customer has fallen out of the passes' sight. */
  lemma {:induction false} LostAsStoredExactlyWhen(env: Env, steps: seq<Step>, from: int, s: Span)
    requires s in Run(env, steps).spans && IsRootSpan(s) && !Attested(env, steps, s)
    ensures LostAsStored(env, steps, from, s) <==>
              var db := Run(env, steps);
              var ws := WindowsOf(db, s.content.customer);
              || env.interval == 0
              || s.content.endTime < (if ws != [] then ws[|ws| - 1].end else from - env.interval)
              || !Active(env, db.spans, s.content.customer, from)
  {
    hide Run, Where, Attested, Selected, Active;
    var c, end := s.content.customer, s.content.endTime;
    var ws := WindowsOf(Run(env, steps), c);
    if env.interval == 0 || end < (if ws != [] then ws[|ws| - 1].end else from - env.interval) {
      LostExactlyWhen(env, steps, from, s);
    } else if !Active(env, Run(env, steps).spans, c, from) {
      forall more | NotBefore(from, more) && Selected(env, steps, more) && NoIngest(more)
        ensures !Attested(env, steps + more, s)
      {
        OutOfSightStaysLost(env, steps, more, from, s);
      }
    } else {
      var now := AttestingVisit(env, steps, from, s);
      assert NotBefore(from, [Visited(c, now)]);
    }
  }

  lemma {:induction false} AttestingVisit(env: Env, steps: seq<Step>, from: int, s: Span) returns (now: int)
    requires s in Run(env, steps).spans && IsRootSpan(s) && env.interval > 0
    requires var ws := WindowsOf(Run(env, steps), s.content.customer);
             s.content.endTime >= if ws != [] then ws[|ws| - 1].end else from - env.interval
    requires Active(env, Run(env, steps).spans, s.content.customer, from)
    ensures now >= from && Selected(env, steps, [Visited(s.content.customer, now)])
    ensures Attested(env, steps + [Visited(s.content.customer, now)], s)
  {
    hide Run, Where, Attested;
    var c, end := s.content.customer, s.content.endTime;
    if end >= from {
      now := end + 1;
      OneSelected(env, steps, s, now);
    } else {
      var r :| r in Run(env, steps).spans && IsRootSpan(r) && r.content.customer == c && from - 10 * env.interval <= r.content.endTime;
      // With windows any later visit reaches back to s; without, s itself is recent enough to be seen now.
      if WindowsOf(Run(env, steps), c) == [] {
        now := from;
        OneSelected(env, steps, s, now);
      } else {
        now := if r.content.endTime >= from then r.content.endTime + 1 else from;
        OneSelected(env, steps, r, now);
      }
    }
    VisitAttests(env, steps, s, now);
  }

  lemma {:induction false} OneSelected(env: Env, steps: seq<Step>, r: Span, now: int)
    requires r in Run(env, steps).spans && IsRootSpan(r) && now - 10 * env.interval <= r.content.endTime < now
    ensures Selected(env, steps, [Visited(r.content.customer, now)])
  {
    hide Run;
    assert [Visited(r.content.customer, now)][..0] == [] && steps + [] == steps;
    assert ClosedRoot(r, r.content.customer, now - 10 * env.interval, now);
  }

  /** No pass visits a customer whose roots are all out of sight. */
  lemma {:induction false} OutOfSightStaysLost(env: Env, steps: seq<Step>, more: seq<Step>, from: int, s: Span)
    requires !Attested(env, steps, s) && !Active(env, Run(env, steps).spans, s.content.customer, from)
    requires NotBefore(from, more) && Selected(env, steps, more) && NoIngest(more)
    ensures !Attested(env, steps + more, s)
  {
    hide Run, Attested;
    forall i | 0 <= i < |more| ensures more[i].Visited? && more[i].customer != s.content.customer {
      assert more[i] in more;
      forall step | step in more[..i] ensures step.Visited? {
        assert step in more;
      }
      VisitsKeepSpans(env, steps, more[..i]);
      Unseen(env, Run(env, steps).spans, s.content.customer, from, more[i].now);
    }
    NotVisitedStaysLost(env, steps, more, s);
  }

  lemma {:induction false} Unseen(env: Env, spans: seq<Span>, customer: string, from: int, now: int)
    requires !Active(env, spans, customer, from) && from <= now
    ensures customer !in Customers(spans, now - 10 * env.interval, now)
  {
  }

  lemma {:induction false} NobodySelected(env: Env, steps: seq<Step>, more: seq<Step>, s: Span, from: int)
    requires env.interval == 0 && Selected(env, steps, more) && !Attested(env, steps, s)
    ensures !Attested(env, steps + more, s)
  {
    hide Run, Attested;
    forall i | 0 <= i < |more| ensures !more[i].Visited? {
      if more[i].Visited? {
        NoneInNothing(Run(env, steps + more[..i]).spans, more[i].customer, more[i].now);
        assert false;
      }
    }
    NotVisitedStaysLost(env, steps, more, s);
  }

  lemma {:induction false} NoneInNothing(spans: seq<Span>, customer: string, now: int)
    ensures customer !in Customers(spans, now, now)
  {
  }

  /** Windows of a customer come only from its own visits. */
  lemma {:induction false} NotVisitedStaysLost(env: Env, steps: seq<Step>, more: seq<Step>, s: Span)
    requires !Attested(env, steps, s)
    requires forall i :: 0 <= i < |more| && more[i].Visited? ==> more[i].customer != s.content.customer
    ensures !Attested(env, steps + more, s)
  {
    hide Run, SpansAt, VisitOf, Where;
    WindowsOnlyGrow(env, steps, more);
    var before, after := Run(env, steps).windows, Run(env, steps + more).windows;
    forall id | 0 <= id < |after| && after[id].customer == s.content.customer && s in SpansAt(env, steps + more, id)
      ensures !Covers(after[id], s.content.endTime)
    {
      if id < |before| {
        assert after[id] == before[id] && s in SpansAt(env, steps, id);
      } else {
        NewWindowsVisited(env, steps, more, id);
      }
    }
  }

  lemma {:induction false} NewWindowsVisited(env: Env, steps: seq<Step>, more: seq<Step>, id: nat)
    requires |Run(env, steps).windows| <= id < |Run(env, steps + more).windows|
    ensures exists i :: 0 <= i < |more| && more[i].Visited? && more[i].customer == Run(env, steps + more).windows[id].customer
  {
    hide Run;
    WindowsHistory(env, steps + more, id);
    var p := VisitOf(env, steps + more, id);
    NewVisitIsLater(env, steps, more, id);
    assert (steps + more)[p] == more[p - |steps|];
  }

  lemma {:induction false} NewVisitIsLater(env: Env, steps: seq<Step>, more: seq<Step>, id: nat)
    requires |Run(env, steps).windows| <= id < |Run(env, steps + more).windows|
    ensures VisitOf(env, steps + more, id) >= |steps|
  {
    assert more == [] ==> steps + more == steps;
    if more != [] {
      var init := more[..|more| - 1];
      assert (steps + more)[..|steps + more| - 1] == steps + init;
      if id < |Run(env, steps + init).windows| {
        NewVisitIsLater(env, steps, init, id);
      }
    }
  }

  lemma {:induction false} PassedStaysLost(env: Env, steps: seq<Step>, more: seq<Step>, s: Span)
    requires !Attested(env, steps, s)
    requires var ws := WindowsOf(Run(env, steps), s.content.customer); ws != [] && s.content.endTime < ws[|ws| - 1].end
    ensures !Attested(env, steps + more, s)
  {
    hide Run, SpansAt, Where;
    WindowsOnlyGrow(env, steps, more);
    var after := Run(env, steps + more).windows;
    forall id | 0 <= id < |after| && after[id].customer == s.content.customer && s in SpansAt(env, steps + more, id)
      ensures !Covers(after[id], s.content.endTime)
    {
      if id >= |Run(env, steps).windows| {
        LaterWindowsStartLater(env, steps, more, s.content.customer, id);
      } else {
        assert after[id] == Run(env, steps).windows[id] && s in SpansAt(env, steps, id);
      }
    }
  }

  lemma {:induction false} OutOfReachStaysLost(env: Env, steps: seq<Step>, more: seq<Step>, from: int, s: Span)
    requires WindowsOf(Run(env, steps), s.content.customer) == [] && NotBefore(from, more)
    requires env.interval == 0 || s.content.endTime < from - env.interval
    ensures !Attested(env, steps + more, s)
  {
    hide Run, SpansAt, Where;
    RunStartsFrom(env, steps, more, s.content.customer, from);
    var db := Run(env, steps + more);
    forall id | 0 <= id < |db.windows| && db.windows[id].customer == s.content.customer
      ensures !Covers(db.windows[id], s.content.endTime)
    {
      WindowPosition(db, id, s.content.customer);
    }
  }

  // ---- whether a leaf still recomputes ----

  /** Rows of the trajectory in the order of storage. */
  function OwnRows(spans: seq<Span>, customer: string, t: string): seq<Span> {
    Where(InTrajectories(customer, {t}), spans)
  }

  function Digests(spans: seq<Span>, customer: string, t: string): seq<Digest> {
    HashesOf(TrajectoryRows(spans, customer, t))
  }

  lemma {:induction false} SpansExtend(env: Env, steps: seq<Step>, p: nat)
    requires p <= |steps|
    ensures Run(env, steps[..p]).spans <= Run(env, steps).spans
  {
    if p < |steps| {
      assert steps[..|steps| - 1][..p] == steps[..p];
      SpansExtend(env, steps[..|steps| - 1], p);
    } else {
      assert steps[..p] == steps;
    }
  }

  lemma {:induction false} OwnRowsExtend(before: seq<Span>, after: seq<Span>, customer: string, t: string)
    requires before <= after
    ensures OwnRows(before, customer, t) <= OwnRows(after, customer, t)
    ensures |Digests(before, customer, t)| == |OwnRows(before, customer, t)|
  {
    assert after == before + after[|before|..];
    WhereConcat(InTrajectories(customer, {t}), before, after[|before|..]);
  }

  /** The trajectory's hashes are hashes of texts that are not two digests long, and nothing hashed collides. */
  ghost predicate Collisionless(sha: Merkle.Hash, text: Digest -> string, xs: seq<Digest>, ys: seq<Digest>) {
    && xs != [] && ys != [] && Merkle.FixedWidth(sha)
    && Merkle.HashesOfTexts(sha, text, xs) && Merkle.HashesOfTexts(sha, text, ys)
    && Merkle.CollisionFree(sha, Merkle.AllPreimages(sha, text, xs) + Merkle.AllPreimages(sha, text, ys))
  }

  /** At the end of a run a leaf is still the trajectory's root exactly if no row of the trajectory arrived after the
      leaf's window was built. */
  lemma {:induction false} LeafRecomputesExactlyWhen(env: Env, steps: seq<Step>, id: nat, l: LeafRow, t: string, text: Digest -> string)
    requires id < |Run(env, steps).windows| && IsLeafIn(Run(env, steps), id, l, t)
    requires var db := Run(env, steps);
             Collisionless(env.sha, text, Digests(SpansAt(env, steps, id), db.windows[id].customer, t),
                           Digests(db.spans, db.windows[id].customer, t))
    ensures var db := Run(env, steps);
            var c := db.windows[id].customer;
            TrajectoryRoot(env.sha, db.spans, c, t) == l.rootHash <==>
              OwnRows(db.spans, c, t) == OwnRows(SpansAt(env, steps, id), c, t)
  {
    hide Run, TrajectoryRows;
    var db := Run(env, steps);
    var c, at := db.windows[id].customer, SpansAt(env, steps, id);
    LeafExactlyWhen(env, steps, id, t);
    assert l.rootHash == TrajectoryRoot(env.sha, at, c, t);
    SpansExtend(env, steps, VisitOf(env, steps, id));
    OwnRowsExtend(at, db.spans, c, t);
    OwnRowsExtend(db.spans, db.spans, c, t);
    if OwnRows(db.spans, c, t) == OwnRows(at, c, t) {
      SameOwnSameRoot(env.sha, db.spans, at, c, t);
    }
    if TrajectoryRoot(env.sha, db.spans, c, t) == l.rootHash {
      Merkle.RootBindsTexts(env.sha, text, Digests(at, c, t), Digests(db.spans, c, t));
    }
  }

  lemma {:induction false} SameOwnSameRoot(sha: Merkle.Hash, a: seq<Span>, b: seq<Span>, customer: string, t: string)
    requires OwnRows(a, customer, t) == OwnRows(b, customer, t)
    ensures TrajectoryRoot(sha, a, customer, t) == TrajectoryRoot(sha, b, customer, t)
  {
  }
}
