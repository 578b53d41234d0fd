/** What the finished spans say: in every run, each field of a span comes from the span's own open or its own close. */
module BuilderRecords {
  import opened Wrappers
  import opened Spans
  import opened SpanBuilder
  import opened BuilderRuns
  import opened BuilderPlacement

  predicate Opens(e: Event, id: string) {
    e.Opened? && e.id == id
  }

  predicate Updates(e: Event, id: string) {
    e.Updated? && e.id == id
  }

  predicate Closes(e: Event, id: string) {
    e.Closed? && e.id == id
  }

  /** The attributes span `id`, opened by event i, has after the trace: those of its last update, or those it was opened with. */
  ghost predicate LastAttributes(trace: seq<Event>, i: nat, id: string, attributes: string)
    requires i < |trace| && trace[i].Opened?
  {
    || (attributes == trace[i].view.attributes && forall k :: i < k < |trace| ==> !Updates(trace[k], id))
    || exists j :: i < j < |trace| && trace[j] == Updated(id, attributes)
                   && forall k :: j < k < |trace| ==> !Updates(trace[k], id)
  }

  /** Span `id` was opened by event i of the trace and by no other, and o holds what it was opened with and its attributes now. */
  ghost predicate OpenedBy(trace: seq<Event>, i: nat, id: string, o: OpenView) {
    && i < |trace| && Opens(trace[i], id)
    && (forall k :: 0 <= k < |trace| && k != i ==> !Opens(trace[k], id))
    && (var v := trace[i].view;
        && o.parent == v.parent && o.trajectoryId == v.trajectoryId && o.customer == v.customer
        && o.startTime == v.startTime && o.inputs == v.inputs)
    && LastAttributes(trace, i, id, o.attributes)
  }

  /** The content is that of span `c.spanId` as it stood, in `o`, when event k closed it: the hash covers what the redaction
      filter made of the attributes of that moment, the inputs of the open and the outputs of the close. */
  ghost predicate ClosedBy(env: Env, trace: seq<Event>, k: nat, o: OpenView, c: Content) {
    && k < |trace| && Closes(trace[k], c.spanId)
    && (forall j :: 0 <= j < |trace| && j != k ==> !Closes(trace[j], c.spanId))
    && (exists i :: OpenedBy(trace[..k], i, c.spanId, o))
    && c.parentId == o.parent && c.trajectoryId == o.trajectoryId && c.customer == o.customer && c.startTime == o.startTime
    && c.endTime == trace[k].args.endTime && c.status == trace[k].args.status
    && c.payload == env.redact(Payload(o.attributes, o.inputs, trace[k].args.outputs))
  }

  ghost predicate Recorded(env: Env, trace: seq<Event>, c: Content) {
    exists k, o :: ClosedBy(env, trace, k, o, c)
  }

  // ---- the trace behind a run ----

  /** The run's maps tell what the trace did. */
  ghost predicate Told(env: Env, trace: seq<Event>, r: Run) {
    && (forall id :: id !in r.builder.opens ==> forall k :: 0 <= k < |trace| ==> !Opens(trace[k], id))
    && (forall id :: id in r.builder.opens ==> exists i :: OpenedBy(trace, i, id, r.builder.opens[id]))
    && (forall id :: id !in r.closeOrder ==> forall k :: 0 <= k < |trace| ==> !Closes(trace[k], id))
    && (forall id :: id in r.finals ==> Recorded(env, trace, r.finals[id].content))
  }

  lemma {:induction false} StillOpenedBy(trace: seq<Event>, e: Event, i: nat, id: string, o: OpenView, o': OpenView)
    requires OpenedBy(trace, i, id, o) && !Opens(e, id)
    requires o' == o.(pending := o'.pending, attributes := if Updates(e, id) then e.attributes else o.attributes)
    ensures OpenedBy(trace + [e], i, id, o')
  {
    var longer := trace + [e];
    assert longer[|trace|] == e && forall k :: 0 <= k < |trace| ==> longer[k] == trace[k];
    if !Updates(e, id) && o.attributes != trace[i].view.attributes {
      var j :| i < j < |trace| && trace[j] == Updated(id, o.attributes) && forall k :: j < k < |trace| ==> !Updates(trace[k], id);
      assert longer[j] == Updated(id, o.attributes);
    }
  }

  lemma {:induction false} OpenIsRecorded(trace: seq<Event>, id: string, v: OpenView)
    requires forall k :: 0 <= k < |trace| ==> !Opens(trace[k], id)
    ensures OpenedBy(trace + [Opened(id, v)], |trace|, id, v)
  {
  }

  lemma {:induction false} StillRecorded(env: Env, trace: seq<Event>, e: Event, c: Content)
    requires Recorded(env, trace, c) && !Closes(e, c.spanId)
    ensures Recorded(env, trace + [e], c)
  {
    hide OpenedBy;
    var k: nat, o :| ClosedBy(env, trace, k, o, c);
    assert (trace + [e])[..k] == trace[..k];
    assert ClosedBy(env, trace + [e], k, o, c);
  }

  lemma {:induction false} CloseIsRecorded(env: Env, trace: seq<Event>, id: string, o: OpenView, args: CloseArgs, i: nat)
    requires OpenedBy(trace, i, id, o) && forall k :: 0 <= k < |trace| ==> !Closes(trace[k], id)
    ensures Recorded(env, trace + [Closed(id, args)], Finalize(env, id, o, args).content)
  {
    hide OpenedBy;
    var longer := trace + [Closed(id, args)];
    assert longer[..|trace|] == trace;
    assert ClosedBy(env, longer, |trace|, o, Finalize(env, id, o, args).content);
  }

  lemma {:induction false} OpenKeepsTold(env: Env, trace: seq<Event>, r: Run, id: string, v: OpenView)
    requires Told(env, trace, r) && Inv(env, r) && Legal(r, Opened(id, v))
    ensures Told(env, trace + [Opened(id, v)], Apply(env, r, Opened(id, v)))
  {
    hide OpenedBy, Recorded, Inv;
    var e, r' := Opened(id, v), Apply(env, r, Opened(id, v));
    forall k | k in r'.builder.opens ensures exists i :: OpenedBy(trace + [e], i, k, r'.builder.opens[k]) {
      if k == id {
        OpenIsRecorded(trace, id, v);
      } else {
        var i: nat :| OpenedBy(trace, i, k, r.builder.opens[k]);
        StillOpenedBy(trace, e, i, k, r.builder.opens[k], r'.builder.opens[k]);
      }
    }
    forall k | k in r'.finals ensures Recorded(env, trace + [e], r'.finals[k].content) {
      StillRecorded(env, trace, e, r.finals[k].content);
    }
  }

  lemma {:induction false} UpdateKeepsTold(env: Env, trace: seq<Event>, r: Run, id: string, attributes: string)
    requires Told(env, trace, r) && Inv(env, r) && Legal(r, Updated(id, attributes))
    ensures Told(env, trace + [Updated(id, attributes)], Apply(env, r, Updated(id, attributes)))
  {
    hide OpenedBy, Recorded, Inv;
    var e, r' := Updated(id, attributes), Apply(env, r, Updated(id, attributes));
    forall k | k in r'.builder.opens ensures exists i :: OpenedBy(trace + [e], i, k, r'.builder.opens[k]) {
      var i: nat :| OpenedBy(trace, i, k, r.builder.opens[k]);
      StillOpenedBy(trace, e, i, k, r.builder.opens[k], r'.builder.opens[k]);
    }
    forall k | k in r'.finals ensures Recorded(env, trace + [e], r'.finals[k].content) {
      StillRecorded(env, trace, e, r.finals[k].content);
    }
  }

  /** A close changes no open span but for pending lists. */
  lemma {:induction false} CloseKeepsViews(env: Env, r: Run, id: string, args: CloseArgs, k: string)
    requires Legal(r, Closed(id, args)) && k in r.builder.opens
    ensures var opens := Apply(env, r, Closed(id, args)).builder.opens;
            && opens.Keys == r.builder.opens.Keys
            && opens[k] == r.builder.opens[k].(pending := opens[k].pending)
  {
    hide Finalize, StampAll;
  }

  lemma {:induction false} CloseKeepsTold(env: Env, trace: seq<Event>, r: Run, id: string, args: CloseArgs)
    requires Told(env, trace, r) && Inv(env, r) && Legal(r, Closed(id, args))
    ensures Told(env, trace + [Closed(id, args)], Apply(env, r, Closed(id, args)))
  {
    hide OpenedBy, Recorded, CloseStep, Finalize, LogOf, ClosedChildren, SinceClose;
    var e, r' := Closed(id, args), Apply(env, r, Closed(id, args));
    CloseKeepsViews(env, r, id, args, id);
    forall k | k in r'.builder.opens ensures exists i :: OpenedBy(trace + [e], i, k, r'.builder.opens[k]) {
      CloseKeepsViews(env, r, id, args, k);
      var i: nat :| OpenedBy(trace, i, k, r.builder.opens[k]);
      StillOpenedBy(trace, e, i, k, r.builder.opens[k], r'.builder.opens[k]);
    }
    forall k | k in r'.finals ensures Recorded(env, trace + [e], r'.finals[k].content) {
      if k == id {
        var i: nat :| OpenedBy(trace, i, id, r.builder.opens[id]);
        CloseIsRecorded(env, trace, id, r.builder.opens[id], args, i);
      } else {
        StillRecorded(env, trace, e, r.finals[k].content);
      }
    }
  }

  lemma {:induction false} EveryRunIsTold(env: Env, trace: seq<Event>)
    requires Replay(env, trace).Some?
    ensures Told(env, trace, Replay(env, trace).value)
  {
    hide Told, Inv, Legal, Apply;
    if trace == [] {
      assert Told(env, [], EMPTY_RUN) by { NothingTold(env); }
    } else {
      var init, e := trace[..|trace| - 1], trace[|trace| - 1];
      var r := Replay(env, init).value;
      assert trace == init + [e];
      EveryRunIsTold(env, init);
      EveryRunKeepsInv(env, init);
      match e
      case Opened(id, v) => OpenKeepsTold(env, init, r, id, v);
      case Updated(id, a) => UpdateKeepsTold(env, init, r, id, a);
      case Closed(id, args) => CloseKeepsTold(env, init, r, id, args);
    }
  }

  lemma {:induction false} NothingTold(env: Env)
    ensures Told(env, [], EMPTY_RUN)
  {
  }

  // ---- main result ----

  /** In every run, every exported and every parked span says what its own open, last update and close said, redacted, and
      carries the hash of exactly that. */
  lemma {:induction false} EverySpanIsRecorded(env: Env, trace: seq<Event>)
    requires Replay(env, trace).Some?
    ensures var b := Replay(env, trace).value.builder;
            && (forall s :: s in b.log ==>
                  && Recorded(env, trace, s.content)
                  && s.provenance.contentHash == env.hash(s.content) && s.provenance.schemaVersion == "1.0.0")
            && (forall x, s :: x in b.opens && s in b.opens[x].pending ==>
                  && Recorded(env, trace, s.content) && s.content.parentId == Some(x)
                  && s.provenance == Provenance(env.hash(s.content), None, "1.0.0"))
  {
    hide Replay, Recorded, Told, Inv;
    EveryRunIsTold(env, trace);
    EveryRunKeepsInv(env, trace);
    ExportedAreRecorded(env, trace, Replay(env, trace).value);
    ParkedAreRecorded(env, trace, Replay(env, trace).value);
  }

  lemma {:induction false} ExportedAreRecorded(env: Env, trace: seq<Event>, r: Run)
    requires Told(env, trace, r) && Inv(env, r)
    ensures forall s :: s in r.builder.log ==>
              && Recorded(env, trace, s.content)
              && s.provenance.contentHash == env.hash(s.content) && s.provenance.schemaVersion == "1.0.0"
  {
    hide Recorded, Inv;
    EveryExportIsStamped(env, r);
    forall s | s in r.builder.log
      ensures Recorded(env, trace, s.content)
      ensures s.provenance.contentHash == env.hash(s.content) && s.provenance.schemaVersion == "1.0.0"
    {
      assert Exported(env, r, s);
    }
  }

  lemma {:induction false} ParkedAreRecorded(env: Env, trace: seq<Event>, r: Run)
    requires Told(env, trace, r) && Inv(env, r)
    ensures forall x, s :: x in r.builder.opens && s in r.builder.opens[x].pending ==>
              && Recorded(env, trace, s.content) && s.content.parentId == Some(x)
              && s.provenance == Provenance(env.hash(s.content), None, "1.0.0")
  {
    hide Recorded, LogOf, SinceClose, ChildrenIn, OpenedBy;
    forall x, s | x in r.builder.opens && s in r.builder.opens[x].pending
      ensures Recorded(env, trace, s.content) && s.content.parentId == Some(x)
      ensures s.provenance == Provenance(env.hash(s.content), None, "1.0.0")
    {
      var ids := ChildrenIn(r.parents, SinceClose(r.closeOrder, x), x);
      ChildrenAreMembers(r.parents, SinceClose(r.closeOrder, x), x);
      var j :| 0 <= j < |ids| && r.builder.opens[x].pending[j] == s;
      assert ids[j] in ids && s == r.finals[ids[j]];
      assert IsFinal(env, r, ids[j], s);
    }
  }
}
