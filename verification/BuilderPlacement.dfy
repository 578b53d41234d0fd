/** Where each closed span ends up, and what the exported spans say, in every run of the builder. */
module BuilderPlacement {
  import opened Wrappers
  import opened Spans
  import opened SpanBuilder
  import opened BuilderRuns

  ghost predicate Before(order: seq<string>, a: string, b: string) {
    exists i, j :: 0 <= i < j < |order| && order[i] == a && order[j] == b
  }

  lemma {:induction false} BeforeUnfolds(order: seq<string>, a: string, b: string)
    requires Distinct(order) && order != []
    ensures var init, last := order[..|order| - 1], order[|order| - 1];
            Distinct(init) && (Before(order, a, b) <==> if last == b then a in init else Before(init, a, b))
  {
    var init, last := order[..|order| - 1], order[|order| - 1];
    if last == b {
      if a in init {
        var i :| 0 <= i < |init| && init[i] == a;
        assert order[i] == a && order[|order| - 1] == b;
      }
      if i, j :| 0 <= i < j < |order| && order[i] == a && order[j] == b {
        assert init[i] == a;
      }
    } else {
      if i, j :| 0 <= i < j < |init| && init[i] == a && init[j] == b {
        assert order[i] == a && order[j] == b;
      }
      if i, j :| 0 <= i < j < |order| && order[i] == a && order[j] == b {
        assert init[i] == a && init[j] == b;
      }
    }
  }

  lemma {:induction false} SinceCloseMembers(order: seq<string>, x: string, c: string)
    requires Distinct(order)
    ensures c in SinceClose(order, x) <==> c in order && c != x && !Before(order, c, x)
  {
    if order != [] {
      var init, last := order[..|order| - 1], order[|order| - 1];
      assert order == init + [last];
      BeforeUnfolds(order, c, x);
      SinceCloseMembers(init, x, c);
      DistinctAppend(init, [last]);
      assert Before(init, c, x) ==> c in init;
    }
  }

  lemma {:induction false} SinceCloseDistinct(order: seq<string>, x: string)
    requires Distinct(order)
    ensures Distinct(SinceClose(order, x))
  {
    if order != [] {
      var init, last := order[..|order| - 1], order[|order| - 1];
      assert order == init + [last];
      DistinctAppend(init, [last]);
      SinceCloseDistinct(init, x);
      DistinctAppend(SinceClose(init, x), [last]);
    }
  }

  lemma {:induction false} ChildrenDistinct(parents: map<string, Option<string>>, ids: seq<string>, x: string)
    requires Distinct(ids) && forall i :: i in ids ==> i in parents
    ensures Distinct(ChildrenIn(parents, ids, x))
  {
    if ids != [] {
      var init, last := ids[..|ids| - 1], ids[|ids| - 1];
      assert ids == init + [last];
      DistinctAppend(init, [last]);
      ChildrenDistinct(parents, init, x);
      ChildrenAreMembers(parents, init, x);
      DistinctAppend(ChildrenIn(parents, init, x), [last]);
      assert ChildrenIn(parents, init, x) + [] == ChildrenIn(parents, init, x);
    }
  }

  // ---- the ids on the log ----

  ghost predicate Named(r: Run) {
    forall k :: k in r.finals ==> SpanId(r.finals[k]) == k
  }

  lemma {:induction false} ClosedChildrenIds(r: Run, ids: seq<string>, x: string)
    requires Known(r, ids) && Named(r)
    ensures Ids(ClosedChildren(r, ids, x)) == ChildrenIn(r.parents, ids, x)
  {
    ChildrenAreMembers(r.parents, ids, x);
    var c := ChildrenIn(r.parents, ids, x);
    assert forall j :: 0 <= j < |c| ==> c[j] in c;
  }

  function OwnId(r: Run, x: string): seq<string>
    requires x in r.parents
  {
    if r.parents[x].None? then [x] else []
  }

  lemma {:induction false} BlockIds(r: Run, before: seq<string>, x: string)
    requires Known(r, before) && x in r.finals && x in r.parents && Named(r)
    ensures Ids(Block(r, before, x)) == ChildrenIn(r.parents, before, x) + OwnId(r, x)
  {
    var children := ClosedChildren(r, before, x);
    ClosedChildrenIds(r, before, x);
    assert Ids(StampAll(children, r.finals[x].provenance.contentHash)) == Ids(children);
  }

  lemma {:induction false} LogMembers(r: Run, order: seq<string>, c: string)
    requires Known(r, order) && Named(r) && Distinct(order)
    ensures c in Ids(LogOf(r, order)) <==>
            c in order && (r.parents[c].None? || Before(order, c, r.parents[c].value))
  {
    if order != [] {
      var init, last := order[..|order| - 1], order[|order| - 1];
      assert order == init + [last];
      LogMembers(r, init, c);
      BlockIds(r, init, last);
      IdsAppend(LogOf(r, init), Block(r, init, last));
      ChildrenAreMembers(r.parents, init, last);
      if c in order && r.parents[c].Some? {
        BeforeUnfolds(order, c, r.parents[c].value);
        assert Before(init, c, r.parents[c].value) ==> c in init;
      }
    }
  }

  lemma {:induction false} LogDistinct(r: Run, order: seq<string>)
    requires Known(r, order) && Named(r) && Distinct(order)
    ensures Distinct(Ids(LogOf(r, order)))
  {
    if order != [] {
      var init, last := order[..|order| - 1], order[|order| - 1];
      assert order == init + [last];
      DistinctAppend(init, [last]);
      LogDistinct(r, init);
      BlockIds(r, init, last);
      IdsAppend(LogOf(r, init), Block(r, init, last));
      ChildrenDistinct(r.parents, init, last);
      ChildrenAreMembers(r.parents, init, last);
      var children := ChildrenIn(r.parents, init, last);
      DistinctAppend(children, OwnId(r, last));
      forall c | c in Ids(LogOf(r, init)) ensures c !in children + OwnId(r, last) {
        LogMembers(r, init, c);
        assert Before(init, c, last) ==> last in init;
      }
      DistinctAppend(Ids(LogOf(r, init)), children + OwnId(r, last));
    }
  }

  // ---- main results ----

  /** A closed span is exported exactly when it is a root or closed before its parent did;
      otherwise it sits in its parent's pending list, and in no other. */
  lemma {:induction false} Placement(env: Env, r: Run, c: string)
    requires Inv(env, r) && c in r.closeOrder
    ensures c in Ids(r.builder.log) <==> r.parents[c].None? || Before(r.closeOrder, c, r.parents[c].value)
    ensures forall x :: x in r.builder.opens ==>
              (c in Ids(r.builder.opens[x].pending) <==>
               r.parents[c] == Some(x) && !Before(r.closeOrder, c, x))
  {
    hide LogOf, SinceClose, ChildrenIn;
    LogMembers(r, r.closeOrder, c);
    forall x | x in r.builder.opens
      ensures c in Ids(r.builder.opens[x].pending) <==> r.parents[c] == Some(x) && !Before(r.closeOrder, c, x)
    {
      var since := SinceClose(r.closeOrder, x);
      ClosedChildrenIds(r, since, x);
      ChildrenAreMembers(r.parents, since, x);
      SinceCloseMembers(r.closeOrder, x, c);
      NotItsOwnParent(env, r, c);
    }
  }

  lemma {:induction false} NotItsOwnParent(env: Env, r: Run, c: string)
    requires Inv(env, r) && c in r.parents
    ensures r.parents[c] != Some(c)
  {
    hide LogOf, SinceClose, ChildrenIn, ClosedChildren;
  }

  /** Nothing is exported or parked twice, and only closed spans are. */
  lemma {:induction false} OnceOnly(env: Env, r: Run)
    requires Inv(env, r)
    ensures Distinct(Ids(r.builder.log)) && (forall c :: c in Ids(r.builder.log) ==> c in r.closeOrder)
    ensures forall x :: x in r.builder.opens ==>
              && Distinct(Ids(r.builder.opens[x].pending))
              && (forall c :: c in Ids(r.builder.opens[x].pending) ==> c in r.closeOrder)
  {
    hide LogOf, SinceClose, ChildrenIn;
    LogDistinct(r, r.closeOrder);
    forall c | c in Ids(r.builder.log) ensures c in r.closeOrder {
      LogMembers(r, r.closeOrder, c);
    }
    forall x | x in r.builder.opens
      ensures && Distinct(Ids(r.builder.opens[x].pending))
              && (forall c :: c in Ids(r.builder.opens[x].pending) ==> c in r.closeOrder)
    {
      var since := SinceClose(r.closeOrder, x);
      ClosedChildrenIds(r, since, x);
      SinceCloseDistinct(r.closeOrder, x);
      ChildrenDistinct(r.parents, since, x);
      ChildrenAreMembers(r.parents, since, x);
    }
  }

  /** Once every open span is closed, the spans never exported are those that closed after their parent. */
  lemma {:induction false} Unexported(env: Env, r: Run, c: string)
    requires Inv(env, r) && (forall k :: k in r.builder.opens ==> k in r.closeOrder) && c in r.builder.opens
    ensures c !in Ids(r.builder.log) <==> r.parents[c].Some? && Before(r.closeOrder, r.parents[c].value, c)
  {
    hide LogOf, SinceClose, ChildrenIn, ClosedChildren;
    Placement(env, r, c);
    NotItsOwnParent(env, r, c);
    if r.parents[c].Some? {
      var p := r.parents[c].value;
      var i :| 0 <= i < |r.closeOrder| && r.closeOrder[i] == c;
      var j :| 0 <= j < |r.closeOrder| && r.closeOrder[j] == p;
    }
  }

  ghost predicate Exported(env: Env, r: Run, s: Span)
  {
    var id := SpanId(s);
    && id in r.finals && id in r.parents
    && s.content == r.finals[id].content
    && s.content.parentId == r.parents[id]
    && (r.parents[id].Some? ==> r.parents[id].value in r.finals)
    && s.provenance == Provenance(
         env.hash(s.content),
         if r.parents[id].None? then None else Some(r.finals[r.parents[id].value].provenance.contentHash),
         SCHEMA_VERSION)
  }

  /** Every exported span carries its own recomputable hash and its parent's final hash. */
  lemma {:induction false} LogIsStamped(env: Env, r: Run, order: seq<string>)
    requires Histories(env, r) && Known(r, order)
    ensures forall s :: s in LogOf(r, order) ==> Exported(env, r, s)
  {
    if order != [] {
      var init, last := order[..|order| - 1], order[|order| - 1];
      assert last in order;
      LogIsStamped(env, r, init);
      ChildrenAreMembers(r.parents, init, last);
      forall s | s in Block(r, init, last) ensures Exported(env, r, s) {
        var children := ChildrenIn(r.parents, init, last);
        var spans := ClosedChildren(r, init, last);
        var i :| 0 <= i < |Block(r, init, last)| && Block(r, init, last)[i] == s;
        if i < |spans| {
          assert children[i] in children && spans[i] == r.finals[children[i]];
        }
      }
    }
  }

  lemma {:induction false} EveryExportIsStamped(env: Env, r: Run)
    requires Inv(env, r)
    ensures forall s :: s in r.builder.log ==> Exported(env, r, s)
  {
    LogIsStamped(env, r, r.closeOrder);
  }

  /** Each id on the path is the parent of the one before it. */
  predicate ParentPath(parents: map<string, Option<string>>, path: seq<string>) {
    |path| >= 2 ==>
      && path[0] in parents && parents[path[0]] == Some(path[1])
      && ParentPath(parents, path[1..])
  }

  /** Following parent links never leads back: ancestors were opened strictly earlier. */
  lemma {:induction false} ParentLinksAcyclic(env: Env, r: Run, path: seq<string>)
    requires Inv(env, r) && |path| >= 2 && ParentPath(r.parents, path)
    ensures var ancestor := path[|path| - 1];
            ancestor != path[0] && ancestor in r.openedAt && r.openedAt[ancestor] < r.openedAt[path[0]]
    decreases |path|
  {
    hide LogOf, SinceClose, ChildrenIn, ClosedChildren;
    if |path| > 2 {
      ParentLinksAcyclic(env, r, path[1..]);
    }
  }

  /** In every log, a span comes before its parent. */
  lemma {:induction false} ChildrenFirst(env: Env, r: Run, i: nat, j: nat)
    requires Inv(env, r) && i < |r.builder.log| && j < |r.builder.log|
    requires r.builder.log[i].content.parentId == Some(SpanId(r.builder.log[j]))
    ensures i < j
  {
    LogIsStamped(env, r, r.closeOrder);
    LogOrder(env, r, r.closeOrder, i, j);
  }

  lemma {:induction false} LogOrder(env: Env, r: Run, order: seq<string>, i: nat, j: nat)
    requires Histories(env, r) && Known(r, order) && Distinct(order)
    requires i < |LogOf(r, order)| && j < |LogOf(r, order)|
    requires LogOf(r, order)[i].content.parentId == Some(SpanId(LogOf(r, order)[j]))
    ensures i < j
  {
    hide Block, ChildrenIn;
    var init, last := order[..|order| - 1], order[|order| - 1];
    assert order == init + [last];
    DistinctAppend(init, [last]);
    var older, block := LogOf(r, init), Block(r, init, last);
    if i >= |older| {
      OwnSpanIsLast(env, r, init, last, i - |older|);
      LogMembers(r, init, last);
      AbsentId(older, last);
    } else if j < |older| {
      LogOrder(env, r, init, i, j);
    }
  }

  lemma {:induction false} AbsentId(spans: seq<Span>, id: string)
    requires id !in Ids(spans)
    ensures forall j :: 0 <= j < |spans| ==> SpanId(spans[j]) != id
  {
    assert forall j :: 0 <= j < |spans| ==> Ids(spans)[j] == SpanId(spans[j]);
  }

  /** In the block that a close exports, only its last span can be the parent of another. */
  lemma {:induction false} OwnSpanIsLast(env: Env, r: Run, before: seq<string>, x: string, i: nat)
    requires Histories(env, r) && Known(r, before) && x in r.finals && x !in before
    requires i < |Block(r, before, x)| && Block(r, before, x)[i].content.parentId.Some?
    ensures Block(r, before, x)[i].content.parentId == Some(x)
    ensures forall j :: 0 <= j < |Block(r, before, x)| && SpanId(Block(r, before, x)[j]) == x ==> i < j
  {
    hide LogOf, SinceClose, Block, ChildrenIn;
    BlockAt(r, before, x, i);
    forall j | 0 <= j < |Block(r, before, x)| && SpanId(Block(r, before, x)[j]) == x ensures i < j {
      OnlyChildrenBefore(env, r, before, x, j);
    }
  }

  lemma {:induction false} OnlyChildrenBefore(env: Env, r: Run, before: seq<string>, x: string, j: nat)
    requires Histories(env, r) && Known(r, before) && x in r.finals && x !in before
    requires j < |Block(r, before, x)|
    ensures j < |ChildrenIn(r.parents, before, x)| ==> SpanId(Block(r, before, x)[j]) != x
  {
    hide LogOf, SinceClose;
    var children := ChildrenIn(r.parents, before, x);
    ChildrenAreMembers(r.parents, before, x);
    BlockIds(r, before, x);
    assert j < |children| ==> Ids(Block(r, before, x))[j] == children[j] && children[j] in children;
  }

  lemma {:induction false} BlockAt(r: Run, before: seq<string>, x: string, i: nat)
    requires Known(r, before) && x in r.finals && x in r.parents && i < |Block(r, before, x)|
    requires forall k :: k in r.finals ==> k in r.parents && r.finals[k].content.parentId == r.parents[k]
    ensures i < |ChildrenIn(r.parents, before, x)| ==> Block(r, before, x)[i].content.parentId == Some(x)
    ensures i >= |ChildrenIn(r.parents, before, x)| ==>
              i == |ChildrenIn(r.parents, before, x)| && Block(r, before, x)[i] == r.finals[x] && r.parents[x].None?
  {
    var children := ChildrenIn(r.parents, before, x);
    ChildrenAreMembers(r.parents, before, x);
    if i < |children| {
      assert children[i] in children;
    }
  }
}
