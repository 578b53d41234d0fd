/**
 Every interleaving of opens, attribute updates and closes on one builder, over any number of
 trajectories, where ids are fresh and no span is closed twice.
 */
module BuilderRuns {
  import opened Wrappers
  import opened Spans
  import opened SpanBuilder

  datatype Event =
    | Opened(id: string, view: OpenView)
    | Updated(id: string, attributes: string)
    | Closed(id: string, args: CloseArgs)

  /** The builder with its history: when each span was opened, the closing order, the parents,
      and the span each close returned. */
  datatype Run = Run(builder: Builder, clock: nat, openedAt: map<string, nat>, closeOrder: seq<string>,
                     parents: map<string, Option<string>>, finals: map<string, Span>)

  const EMPTY_RUN := Run(Builder(map[], []), 0, map[], [], map[], map[])

  predicate Legal(r: Run, e: Event) {
    match e
    case Opened(id, v) =>
      id !in r.builder.opens && v.pending == [] && (v.parent.Some? ==> v.parent.value in r.builder.opens)
    case Updated(id, _) => id in r.builder.opens
    case Closed(id, _) => Closable(r.builder, id) && id !in r.closeOrder
  }

  function Apply(env: Env, r: Run, e: Event): Run
    requires Legal(r, e)
  {
    var opens := r.builder.opens;
    match e
    case Opened(id, v) =>
      r.(builder := OpenStep(r.builder, id, v), clock := r.clock + 1,
         openedAt := r.openedAt[id := r.clock], parents := r.parents[id := v.parent])
    case Updated(id, a) =>
      r.(builder := SetAttributesStep(r.builder, id, a))
    case Closed(id, args) =>
      r.(builder := CloseStep(env, r.builder, id, args), closeOrder := r.closeOrder + [id],
         finals := r.finals[id := Finalize(env, id, opens[id], args)])
  }

  /** The run of a trace; None if some event is not legal where it stands. */
  function Replay(env: Env, trace: seq<Event>): Option<Run> {
    if trace == [] then Some(EMPTY_RUN)
    else
      var before := Replay(env, trace[..|trace| - 1]);
      var e := trace[|trace| - 1];
      if before.Some? && Legal(before.value, e) then Some(Apply(env, before.value, e)) else None
  }

  // ---- replaying several events ----

  /** Apply events one after another, first to last. */
  function Extend(env: Env, r: Option<Run>, events: seq<Event>): Option<Run>
    decreases |events|
  {
    if events == [] || r.None? then r
    else Extend(env, if Legal(r.value, events[0]) then Some(Apply(env, r.value, events[0])) else None, events[1..])
  }

  lemma {:induction false} ExtendAppend(env: Env, r: Option<Run>, a: seq<Event>, b: seq<Event>)
    ensures Extend(env, r, a + b) == Extend(env, Extend(env, r, a), b)
    decreases |a|
  {
    if a == [] || r.None? {
      assert a == [] ==> a + b == b;
    } else {
      assert (a + b)[1..] == a[1..] + b;
      ExtendAppend(env, if Legal(r.value, a[0]) then Some(Apply(env, r.value, a[0])) else None, a[1..], b);
    }
  }

  lemma {:induction false} ReplayAppend(env: Env, a: seq<Event>, b: seq<Event>)
    ensures Replay(env, a + b) == Extend(env, Replay(env, a), b)
    decreases |b|
  {
    if b == [] {
      assert a + b == a;
    } else {
      hide Legal, Apply, Replay, Extend;
      var init, last := b[..|b| - 1], b[|b| - 1];
      assert a + b == (a + init) + [last] && b == init + [last];
      ReplayAppend(env, a, init);
      ExtendAppend(env, Replay(env, a), init, [last]);
      ReplayOne(env, a + init, last);
    }
  }

  lemma {:induction false} ReplayOne(env: Env, a: seq<Event>, e: Event)
    ensures Replay(env, a + [e]) == Extend(env, Replay(env, a), [e])
  {
    assert (a + [e])[..|a|] == a && [e][1..] == [];
  }

  lemma {:induction false} ExtendOne(env: Env, r: Run, e: Event)
    requires Legal(r, e)
    ensures Extend(env, Some(r), [e]) == Some(Apply(env, r, e))
  {
    assert [e][1..] == [];
  }

  // ---- closed forms ----

  function ChildrenIn(parents: map<string, Option<string>>, ids: seq<string>, x: string): seq<string>
    requires forall i :: i in ids ==> i in parents
  {
    if ids == [] then []
    else
      var init, last := ids[..|ids| - 1], ids[|ids| - 1];
      ChildrenIn(parents, init, x) + (if parents[last] == Some(x) then [last] else [])
  }

  /** The ids closed after x was, or all of them while x is open. */
  function SinceClose(closed: seq<string>, x: string): (ids: seq<string>)
    ensures forall i :: i in ids ==> i in closed
  {
    if closed == [] then []
    else
      var init, last := closed[..|closed| - 1], closed[|closed| - 1];
      if last == x then [] else SinceClose(init, x) + [last]
  }

  function FinalsOf(finals: map<string, Span>, ids: seq<string>): (spans: seq<Span>)
    requires forall i :: i in ids ==> i in finals
    ensures |spans| == |ids|
  {
    seq(|ids|, j requires 0 <= j < |ids| => finals[ids[j]])
  }

  lemma {:induction ids} ChildrenAreMembers(parents: map<string, Option<string>>, ids: seq<string>, x: string)
    requires forall i :: i in ids ==> i in parents
    ensures forall c :: c in ChildrenIn(parents, ids, x) <==> c in ids && parents[c] == Some(x)
  {
  }

  predicate Known(r: Run, ids: seq<string>) {
    forall i :: i in ids ==> i in r.parents && i in r.finals
  }

  function ClosedChildren(r: Run, ids: seq<string>, x: string): (spans: seq<Span>)
    requires Known(r, ids)
  {
    ChildrenAreMembers(r.parents, ids, x);
    FinalsOf(r.finals, ChildrenIn(r.parents, ids, x))
  }

  /** What closing x exports when `before` lists the ids closed earlier. */
  function Block(r: Run, before: seq<string>, x: string): seq<Span>
    requires Known(r, before) && x in r.finals && x in r.parents
  {
    StampAll(ClosedChildren(r, before, x), r.finals[x].provenance.contentHash)
    + (if r.parents[x].None? then [r.finals[x]] else [])
  }

  /** The whole export log, read off the closing order alone. */
  function LogOf(r: Run, closed: seq<string>): seq<Span>
    requires Known(r, closed)
  {
    if closed == [] then []
    else LogOf(r, closed[..|closed| - 1]) + Block(r, closed[..|closed| - 1], closed[|closed| - 1])
  }

  // ---- the invariant ----

  ghost predicate Histories(env: Env, r: Run) {
    && Distinct(r.closeOrder)
    && r.openedAt.Keys == r.parents.Keys == r.builder.opens.Keys
    && (forall k :: k in r.closeOrder <==> k in r.finals)
    && (forall k :: k in r.finals ==> k in r.parents)
    && (forall k :: k in r.parents ==> r.builder.opens[k].parent == r.parents[k])
    && (forall k :: k in r.finals ==> IsFinal(env, r, k, r.finals[k]))
  }

  predicate IsFinal(env: Env, r: Run, k: string, s: Span) {
    && s.content.spanId == k && k in r.parents && s.content.parentId == r.parents[k]
    && s.provenance.contentHash == env.hash(s.content)
    && s.provenance.parentHash == None && s.provenance.schemaVersion == SCHEMA_VERSION
  }

  /** Parents are opened before their children. */
  ghost predicate ParentsFirst(r: Run) {
    && (forall k :: k in r.openedAt ==> r.openedAt[k] < r.clock)
    && (forall k :: k in r.parents && k in r.openedAt && r.parents[k].Some? ==>
          r.parents[k].value in r.openedAt && r.openedAt[r.parents[k].value] < r.openedAt[k])
  }

  ghost predicate Inv(env: Env, r: Run) {
    && Histories(env, r)
    && ParentsFirst(r)
    && (forall x :: x in r.builder.opens ==>
          r.builder.opens[x].pending == ClosedChildren(r, SinceClose(r.closeOrder, x), x))
    && r.builder.log == LogOf(r, r.closeOrder)
  }

  /** Two runs that agree on the parents and finals of some ids. */
  ghost predicate Agree(r: Run, r': Run, ids: seq<string>) {
    && Known(r, ids) && Known(r', ids)
    && forall i :: i in ids ==> r.parents[i] == r'.parents[i] && r.finals[i] == r'.finals[i]
  }

  lemma {:induction false} ChildrenFrame(r: Run, r': Run, ids: seq<string>, x: string)
    requires Agree(r, r', ids)
    ensures ClosedChildren(r, ids, x) == ClosedChildren(r', ids, x)
  {
    ChildIdsFrame(r.parents, r'.parents, ids, x);
    ChildrenAreMembers(r.parents, ids, x);
  }

  lemma {:induction ids} ChildIdsFrame(parents: map<string, Option<string>>, parents': map<string, Option<string>>,
                                       ids: seq<string>, x: string)
    requires forall i :: i in ids ==> i in parents && i in parents' && parents[i] == parents'[i]
    ensures ChildrenIn(parents, ids, x) == ChildrenIn(parents', ids, x)
  {
  }

  lemma {:induction false} LogFrame(r: Run, r': Run, closed: seq<string>)
    requires Agree(r, r', closed)
    ensures LogOf(r, closed) == LogOf(r', closed)
  {
    if closed != [] {
      var init, last := closed[..|closed| - 1], closed[|closed| - 1];
      assert last in closed;
      LogFrame(r, r', init);
      ChildrenFrame(r, r', init, last);
    }
  }

  lemma {:induction false} PendingGrows(r: Run, closed: seq<string>, id: string, x: string)
    requires Known(r, closed + [id]) && id != x
    ensures ClosedChildren(r, SinceClose(closed + [id], x), x)
         == ClosedChildren(r, SinceClose(closed, x), x)
            + (if r.parents[id] == Some(x) then [r.finals[id]] else [])
  {
    var all, before := closed + [id], SinceClose(closed, x);
    assert all[..|all| - 1] == closed && all[|all| - 1] == id;
    assert SinceClose(all, x) == before + [id];
    var now := before + [id];
    assert now[..|now| - 1] == before && now[|now| - 1] == id;
  }

  lemma {:induction false} OpenKeepsHistories(env: Env, r: Run, id: string, v: OpenView)
    requires Histories(env, r) && ParentsFirst(r) && Legal(r, Opened(id, v))
    ensures var r' := Apply(env, r, Opened(id, v));
            Histories(env, r') && ParentsFirst(r') && Agree(r, r', r.closeOrder)
  {
    hide IsFinal, Distinct, ParentsFirst, Agree;
    OpenKeepsParentsFirst(env, r, id, v);
    FinalsStayFinal(env, r, Apply(env, r, Opened(id, v)));
    OpenAgrees(env, r, id, v);
  }

  lemma {:induction false} OpenKeepsParentsFirst(env: Env, r: Run, id: string, v: OpenView)
    requires Histories(env, r) && ParentsFirst(r) && Legal(r, Opened(id, v))
    ensures ParentsFirst(Apply(env, r, Opened(id, v)))
  {
    hide IsFinal, Distinct;
  }

  lemma {:induction false} OpenAgrees(env: Env, r: Run, id: string, v: OpenView)
    requires Histories(env, r) && Legal(r, Opened(id, v))
    ensures Agree(r, Apply(env, r, Opened(id, v)), r.closeOrder)
  {
    hide IsFinal, Distinct;
  }

  lemma {:induction false} FinalsStayFinal(env: Env, r: Run, r': Run)
    requires Histories(env, r) && r'.finals == r.finals
    requires forall k :: k in r.parents ==> k in r'.parents && r'.parents[k] == r.parents[k]
    ensures forall k :: k in r'.finals ==> IsFinal(env, r', k, r'.finals[k])
  {
    hide IsFinal, Distinct;
    forall k | k in r'.finals ensures IsFinal(env, r', k, r'.finals[k]) {
      assert IsFinal(env, r, k, r.finals[k]);
      MoreParentsSameFinal(env, r, r', k, r.finals[k]);
    }
  }

  lemma {:induction false} MoreParentsSameFinal(env: Env, r: Run, r': Run, k: string, s: Span)
    requires IsFinal(env, r, k, s) && k in r'.parents && (k in r.parents ==> r'.parents[k] == r.parents[k])
    ensures IsFinal(env, r', k, s)
  {
  }

  lemma {:induction false} OpenKeepsInv(env: Env, r: Run, id: string, v: OpenView)
    requires Inv(env, r) && Legal(r, Opened(id, v))
    ensures Inv(env, Apply(env, r, Opened(id, v)))
  {
    hide ChildrenIn, SinceClose, LogOf, Block, ClosedChildren;
    var r' := Apply(env, r, Opened(id, v));
    OpenKeepsHistories(env, r, id, v);
    LogFrame(r, r', r.closeOrder);
    NobodyNamesIt(env, r, id);
    forall x | x in r'.builder.opens
      ensures r'.builder.opens[x].pending == ClosedChildren(r', SinceClose(r'.closeOrder, x), x)
    {
      if x == id {
        NoChildren(r', r.closeOrder, id);
      } else {
        ChildrenFrame(r, r', SinceClose(r.closeOrder, x), x);
      }
    }
  }

  lemma {:induction false} NobodyNamesIt(env: Env, r: Run, id: string)
    requires Histories(env, r) && ParentsFirst(r) && id !in r.builder.opens
    ensures forall i :: i in r.closeOrder ==> r.parents[i] != Some(id)
  {
  }

  /** Nobody names a span that is only now being opened. */
  lemma {:induction false} NoChildren(r: Run, ids: seq<string>, x: string)
    requires Known(r, ids) && forall i :: i in ids ==> r.parents[i] != Some(x)
    ensures ClosedChildren(r, SinceClose(ids, x), x) == []
  {
    NoChildIds(r.parents, SinceClose(ids, x), x);
  }

  lemma {:induction ids} NoChildIds(parents: map<string, Option<string>>, ids: seq<string>, x: string)
    requires forall i :: i in ids ==> i in parents && parents[i] != Some(x)
    ensures ChildrenIn(parents, ids, x) == []
  {
  }

  lemma {:induction false} CloseKeepsHistories(env: Env, r: Run, id: string, args: CloseArgs)
    requires Histories(env, r) && ParentsFirst(r) && Legal(r, Closed(id, args))
    ensures var r' := Apply(env, r, Closed(id, args));
            && Histories(env, r') && ParentsFirst(r') && Agree(r, r', r.closeOrder)
            && r'.closeOrder == r.closeOrder + [id] && r'.parents == r.parents && Known(r', r'.closeOrder)
            && r'.finals[id] == Finalize(env, id, r.builder.opens[id], args)
  {
    hide CloseStep, Distinct, Finalize, IsFinal, ParentsFirst, Agree;
    CloseAgrees(env, r, id, args);
    var r', final := Apply(env, r, Closed(id, args)), Finalize(env, id, r.builder.opens[id], args);
    assert id !in r.finals && r'.closeOrder == r.closeOrder + [id] && r'.finals == r.finals[id := final];
    CloseKeepsOpens(env, r.builder, id, args);
    SingletonDistinct(id);
    DistinctAppend(r.closeOrder, [id]);
    FinalIsFinal(env, r, id, args);
    forall k | k in r'.finals ensures IsFinal(env, r', k, r'.finals[k]) {
      SameParentsSameFinal(env, r, r', k, r'.finals[k]);
    }
  }

  lemma {:induction false} CloseAgrees(env: Env, r: Run, id: string, args: CloseArgs)
    requires Histories(env, r) && ParentsFirst(r) && Legal(r, Closed(id, args))
    ensures var r' := Apply(env, r, Closed(id, args));
            Agree(r, r', r.closeOrder) && ParentsFirst(r') && Known(r', r.closeOrder + [id])
  {
    hide CloseStep, Distinct, Finalize, IsFinal;
    CloseKeepsOpens(env, r.builder, id, args);
  }

  lemma {:induction false} FinalIsFinal(env: Env, r: Run, id: string, args: CloseArgs)
    requires id in r.builder.opens && id in r.parents && r.builder.opens[id].parent == r.parents[id]
    ensures IsFinal(env, r, id, Finalize(env, id, r.builder.opens[id], args))
  {
  }

  lemma {:induction false} SingletonDistinct<T>(x: T)
    ensures Distinct([x])
  {
  }

  lemma {:induction false} CloseKeepsOpens(env: Env, b: Builder, id: string, args: CloseArgs)
    requires Closable(b, id)
    ensures var b' := CloseStep(env, b, id, args);
            && b'.opens.Keys == b.opens.Keys
            && forall k :: k in b.opens ==> b'.opens[k].parent == b.opens[k].parent
  {
  }

  /** What a close does to the pending list of span x. */
  lemma {:induction false} CloseMovesPending(env: Env, r: Run, id: string, args: CloseArgs, x: string)
    requires Histories(env, r) && Legal(r, Closed(id, args)) && x in r.builder.opens
    ensures x in Apply(env, r, Closed(id, args)).builder.opens
    ensures Apply(env, r, Closed(id, args)).builder.opens[x].pending ==
            if x == id then []
            else r.builder.opens[x].pending
                 + (if r.parents[id] == Some(x) then [Finalize(env, id, r.builder.opens[id], args)] else [])
  {
    hide ChildrenIn, SinceClose, LogOf, Block, ClosedChildren, Finalize;
  }

  lemma {:induction false} ClosePending(env: Env, r: Run, id: string, args: CloseArgs, x: string)
    requires Inv(env, r) && Legal(r, Closed(id, args)) && x in r.builder.opens
    ensures var r' := Apply(env, r, Closed(id, args));
            && x in r'.builder.opens && Known(r', r'.closeOrder)
            && r'.builder.opens[x].pending == ClosedChildren(r', SinceClose(r'.closeOrder, x), x)
  {
    hide ChildrenIn, LogOf, Block, ClosedChildren, Finalize, Apply, SinceClose, Histories, Legal;
    var r' := Apply(env, r, Closed(id, args));
    CloseKeepsHistories(env, r, id, args);
    CloseMovesPending(env, r, id, args, x);
    if x == id {
      JustClosed(r.closeOrder, id);
      NoChildren(r', [], x);
    } else {
      ChildrenFrame(r, r', SinceClose(r.closeOrder, x), x);
      PendingGrows(r', r.closeOrder, id, x);
    }
  }

  lemma {:induction false} JustClosed(closed: seq<string>, id: string)
    ensures SinceClose(closed + [id], id) == [] && SinceClose([], id) == []
  {
    var all := closed + [id];
    assert all[..|all| - 1] == closed && all[|all| - 1] == id;
  }

  lemma {:induction false} CloseMovesLog(env: Env, r: Run, id: string, args: CloseArgs)
    requires Histories(env, r) && Legal(r, Closed(id, args))
    ensures var final := Finalize(env, id, r.builder.opens[id], args);
            Apply(env, r, Closed(id, args)).builder.log ==
            r.builder.log + (StampAll(r.builder.opens[id].pending, final.provenance.contentHash)
                             + (if r.parents[id].None? then [final] else []))
  {
    hide ChildrenIn, SinceClose, LogOf, Block, ClosedChildren, Finalize;
  }

  lemma {:induction false} LogGrows(r: Run, closed: seq<string>, id: string)
    requires Known(r, closed + [id]) && Known(r, closed)
    ensures id in r.finals && id in r.parents
    ensures LogOf(r, closed + [id]) == LogOf(r, closed)
            + (StampAll(ClosedChildren(r, closed, id), r.finals[id].provenance.contentHash)
               + (if r.parents[id].None? then [r.finals[id]] else []))
  {
    hide ClosedChildren, StampAll;
    var all := closed + [id];
    assert all[..|all| - 1] == closed && all[|all| - 1] == id && id in all;
  }

  lemma {:induction false} CloseLog(env: Env, r: Run, id: string, args: CloseArgs)
    requires Inv(env, r) && Legal(r, Closed(id, args))
    ensures var r' := Apply(env, r, Closed(id, args));
            Known(r', r'.closeOrder) && r'.builder.log == LogOf(r', r'.closeOrder)
  {
    hide ChildrenIn, SinceClose, ClosedChildren, Finalize, Apply, Block, LogOf;
    var r' := Apply(env, r, Closed(id, args));
    CloseKeepsHistories(env, r, id, args);
    CloseMovesLog(env, r, id, args);
    LogFrame(r, r', r.closeOrder);
    NotYetClosed(r.closeOrder, id);
    ChildrenFrame(r, r', r.closeOrder, id);
    LogGrows(r', r.closeOrder, id);
  }

  lemma {:induction false} CloseKeepsInv(env: Env, r: Run, id: string, args: CloseArgs)
    requires Inv(env, r) && Legal(r, Closed(id, args))
    ensures Inv(env, Apply(env, r, Closed(id, args)))
  {
    hide ChildrenIn, SinceClose, LogOf, Block, ClosedChildren, Finalize;
    CloseKeepsHistories(env, r, id, args);
    CloseLog(env, r, id, args);
    var r' := Apply(env, r, Closed(id, args));
    forall x | x in r'.builder.opens
      ensures r'.builder.opens[x].pending == ClosedChildren(r', SinceClose(r'.closeOrder, x), x)
    {
      ClosePending(env, r, id, args, x);
    }
  }

  lemma {:induction false} NotYetClosed(closed: seq<string>, x: string)
    requires x !in closed
    ensures SinceClose(closed, x) == closed
  {
    if closed != [] {
      var init, last := closed[..|closed| - 1], closed[|closed| - 1];
      assert closed == init + [last] && last in closed;
      NotYetClosed(init, x);
    }
  }

  lemma {:induction false} SameParentsSameFinal(env: Env, r: Run, r': Run, k: string, s: Span)
    requires r'.parents == r.parents
    ensures IsFinal(env, r', k, s) <==> IsFinal(env, r, k, s)
  {
  }

  lemma {:induction false} UpdateKeepsHistories(env: Env, r: Run, id: string, attributes: string)
    requires Histories(env, r) && ParentsFirst(r) && id in r.builder.opens
    ensures var r' := Apply(env, r, Updated(id, attributes));
            Histories(env, r') && ParentsFirst(r') && Agree(r, r', r.closeOrder)
  {
    hide Distinct, IsFinal, ParentsFirst, Agree;
    FinalsStayFinal(env, r, Apply(env, r, Updated(id, attributes)));
    UpdateAgrees(env, r, id, attributes);
  }

  lemma {:induction false} UpdateAgrees(env: Env, r: Run, id: string, attributes: string)
    requires Histories(env, r) && ParentsFirst(r) && id in r.builder.opens
    ensures var r' := Apply(env, r, Updated(id, attributes)); ParentsFirst(r') && Agree(r, r', r.closeOrder)
  {
    hide Distinct, IsFinal;
  }

  lemma {:induction false} UpdateKeepsInv(env: Env, r: Run, id: string, attributes: string)
    requires Inv(env, r) && Legal(r, Updated(id, attributes))
    ensures Inv(env, Apply(env, r, Updated(id, attributes)))
  {
    hide ChildrenIn, SinceClose, LogOf, Block, ClosedChildren, Distinct, Histories, ParentsFirst;
    var r' := Apply(env, r, Updated(id, attributes));
    UpdateKeepsHistories(env, r, id, attributes);
    LogFrame(r, r', r.closeOrder);
    forall x | x in r'.builder.opens
      ensures r'.builder.opens[x].pending == ClosedChildren(r', SinceClose(r'.closeOrder, x), x)
    {
      ChildrenFrame(r, r', SinceClose(r.closeOrder, x), x);
    }
  }

  lemma {:induction false} StepKeepsInv(env: Env, r: Run, e: Event)
    requires Inv(env, r) && Legal(r, e)
    ensures Inv(env, Apply(env, r, e))
  {
    match e
    case Opened(id, v) => OpenKeepsInv(env, r, id, v);
    case Updated(id, a) => UpdateKeepsInv(env, r, id, a);
    case Closed(id, args) => CloseKeepsInv(env, r, id, args);
  }

  lemma {:induction false} EveryRunKeepsInv(env: Env, trace: seq<Event>)
    requires Replay(env, trace).Some?
    ensures Inv(env, Replay(env, trace).value)
  {
    if trace != [] {
      EveryRunKeepsInv(env, trace[..|trace| - 1]);
      StepKeepsInv(env, Replay(env, trace[..|trace| - 1]).value, trace[|trace| - 1]);
    }
  }
}
