/**
 The CrewAI emitter: a map from event ids to open spans drives interleaved opens and closes,
 possibly of many crews at once. An empty string stands for a missing event id.
 */
module Emitter {
  import opened Wrappers
  import opened SpanBuilder
  import opened BuilderRuns

  /** One handler call. `context` is the span the context pointer names, used when no parent event is known;
      `opens` says whether the builder lets the span open. */
  datatype Handler =
    | Start(eventId: string, parentEventId: string, context: Option<string>, opens: bool, newId: string, view: OpenView)
    | End(startedEventId: string, attributes: Option<string>, args: CloseArgs)
    | Feedback(parentEventId: string, context: Option<string>, opens: bool, newId: string, view: OpenView, args: CloseArgs)

  /** The emitter's `_open` map, event id to span id. */
  type OpenMap = map<string, string>

  function ParentFor(open: OpenMap, parentEventId: string, context: Option<string>): Option<string> {
    if parentEventId != "" && parentEventId in open then Some(open[parentEventId]) else context
  }

  function WithParent(v: OpenView, parent: Option<string>): OpenView {
    v.(parent := parent, pending := [])
  }

  /** What a handler asks of the builder. */
  function Emitted(open: OpenMap, h: Handler): seq<Event> {
    match h
    case Start(e, p, context, opens, id, v) =>
      if e == "" || !opens then [] else [Opened(id, WithParent(v, ParentFor(open, p, context)))]
    case End(e, attributes, args) =>
      if e == "" || e !in open then []
      else (if attributes.Some? then [Updated(open[e], attributes.value)] else []) + [Closed(open[e], args)]
    case Feedback(p, context, opens, id, v, args) =>
      if !opens then [] else [Opened(id, WithParent(v, ParentFor(open, p, context))), Closed(id, args)]
  }

  function NextMap(open: OpenMap, h: Handler): OpenMap {
    match h
    case Start(e, _, _, opens, id, _) => if e == "" || !opens then open else open[e := id]
    case End(e, _, _) => if e == "" then open else open - {e}
    case Feedback(_, _, _, _, _, _) => open
  }

  /** Generated ids are new and the context names a span of this process. */
  predicate Supplied(r: Run, h: Handler) {
    match h
    case Start(_, _, context, _, id, _) => id !in r.builder.opens && (context.Some? ==> context.value in r.builder.opens)
    case End(_, _, _) => true
    case Feedback(_, context, _, id, _, _) => id !in r.builder.opens && (context.Some? ==> context.value in r.builder.opens)
  }

  /** Mapped spans are open, and no two event ids map to the same one. */
  ghost predicate MapInv(r: Run, open: OpenMap) {
    && (forall e :: e in open ==> open[e] in r.builder.opens && open[e] !in r.closeOrder)
    && (forall e, f :: e in open && f in open && open[e] == open[f] ==> e == f)
  }

  /** The run after a sequence of handler calls; None if the builder was ever misused. */
  function Handle(env: Env, r: Option<Run>, open: OpenMap, handlers: seq<Handler>): Option<Run>
    decreases |handlers|
  {
    if handlers == [] then r
    else Handle(env, Extend(env, r, Emitted(open, handlers[0])), NextMap(open, handlers[0]), handlers[1..])
  }

  predicate AllSupplied(env: Env, r: Option<Run>, open: OpenMap, handlers: seq<Handler>)
    decreases |handlers|
  {
    handlers == [] || r.None? ||
    (Supplied(r.value, handlers[0])
     && AllSupplied(env, Extend(env, r, Emitted(open, handlers[0])), NextMap(open, handlers[0]), handlers[1..]))
  }

  lemma {:induction false} CloseIsLegal(env: Env, r: Run, id: string, args: CloseArgs)
    requires Inv(env, r) && id in r.builder.opens && id !in r.closeOrder
    ensures Legal(r, Closed(id, args))
  {
    hide LogOf, SinceClose, ClosedChildren;
  }

  lemma {:induction false} ExtendTwo(env: Env, r: Run, e: Event, f: Event)
    requires Legal(r, e) && Legal(Apply(env, r, e), f)
    ensures Extend(env, Some(r), [e, f]) == Some(Apply(env, Apply(env, r, e), f))
  {
    assert [e, f][1..] == [f];
    ExtendOne(env, Apply(env, r, e), f);
  }

  /** One handler call never misuses the builder and keeps the map invariant. */
  lemma {:induction false} HandlerKeepsInv(env: Env, r: Run, open: OpenMap, h: Handler)
    requires Inv(env, r) && MapInv(r, open) && Supplied(r, h)
    ensures var r' := Extend(env, Some(r), Emitted(open, h));
            r'.Some? && Inv(env, r'.value) && MapInv(r'.value, NextMap(open, h))
  {
    hide Inv;
    match h
    case Start(e, p, context, opens, id, v) =>
      if e != "" && opens {
        var opening := Opened(id, WithParent(v, ParentFor(open, p, context)));
        ExtendOne(env, r, opening);
        StepKeepsInv(env, r, opening);
        OpenOnly(env, r, id, opening.view);
      }
    case End(e, attributes, args) =>
      if e != "" && e in open {
        EndKeepsInv(env, r, open, e, attributes, args);
      }
    case Feedback(p, context, opens, id, v, args) =>
      if opens {
        FeedbackKeepsInv(env, r, open, h);
      }
  }

  lemma {:induction false} FeedbackKeepsInv(env: Env, r: Run, open: OpenMap, h: Handler)
    requires Inv(env, r) && MapInv(r, open) && Supplied(r, h) && h.Feedback? && h.opens
    ensures var r' := Extend(env, Some(r), Emitted(open, h));
            r'.Some? && Inv(env, r'.value) && MapInv(r'.value, open)
  {
    hide Inv;
    var opening, closing := Opened(h.newId, WithParent(h.view, ParentFor(open, h.parentEventId, h.context))), Closed(h.newId, h.args);
    StepKeepsInv(env, r, opening);
    OpenOnly(env, r, h.newId, opening.view);
    var m := Apply(env, r, opening);
    CloseIsLegal(env, m, h.newId, h.args);
    StepKeepsInv(env, m, closing);
    ExtendTwo(env, r, opening, closing);
  }

  lemma {:induction false} OpenOnly(env: Env, r: Run, id: string, v: OpenView)
    requires Inv(env, r) && Legal(r, Opened(id, v))
    ensures var m := Apply(env, r, Opened(id, v));
            m.closeOrder == r.closeOrder && id !in r.closeOrder && m.builder.opens.Keys == r.builder.opens.Keys + {id}
  {
  }

  lemma {:induction false} EndKeepsInv(env: Env, r: Run, open: OpenMap, e: string, attributes: Option<string>, args: CloseArgs)
    requires Inv(env, r) && MapInv(r, open) && e != "" && e in open
    ensures var r' := Extend(env, Some(r), Emitted(open, End(e, attributes, args)));
            r'.Some? && Inv(env, r'.value) && MapInv(r'.value, open - {e})
  {
    hide Inv;
    var id := open[e];
    if attributes.Some? {
      var update := Updated(id, attributes.value);
      StepKeepsInv(env, r, update);
      var m := Apply(env, r, update);
      CloseIsLegal(env, m, id, args);
      StepKeepsInv(env, m, Closed(id, args));
      assert [update] + [Closed(id, args)] == [update, Closed(id, args)];
      ExtendTwo(env, r, update, Closed(id, args));
    } else {
      CloseIsLegal(env, r, id, args);
      StepKeepsInv(env, r, Closed(id, args));
      assert [] + [Closed(id, args)] == [Closed(id, args)];
      ExtendOne(env, r, Closed(id, args));
    }
  }

  /** Everything the handler calls ask of the builder, in order. */
  function AllEmitted(open: OpenMap, handlers: seq<Handler>): seq<Event>
    decreases |handlers|
  {
    if handlers == [] then [] else Emitted(open, handlers[0]) + AllEmitted(NextMap(open, handlers[0]), handlers[1..])
  }

  /** However events interleave, repeat or name unknown ids, the builder's run invariant holds,
      so no span is closed twice and every result about runs applies. */
  lemma {:induction false} EmitterNeverMisusesBuilder(env: Env, r: Run, open: OpenMap, handlers: seq<Handler>)
    requires Inv(env, r) && MapInv(r, open) && AllSupplied(env, Some(r), open, handlers)
    ensures var r' := Handle(env, Some(r), open, handlers);
            r'.Some? && Inv(env, r'.value) && r' == Extend(env, Some(r), AllEmitted(open, handlers))
    decreases |handlers|
  {
    hide Inv, Emitted, NextMap;
    if handlers != [] {
      ExtendAppend(env, Some(r), Emitted(open, handlers[0]), AllEmitted(NextMap(open, handlers[0]), handlers[1..]));
      HandlerKeepsInv(env, r, open, handlers[0]);
      var m := Extend(env, Some(r), Emitted(open, handlers[0])).value;
      EmitterNeverMisusesBuilder(env, m, NextMap(open, handlers[0]), handlers[1..]);
    }
  }

  lemma {:induction false} StartEmits(ids: OpenMap, eventId: string, parentEventId: string, context: Option<string>, id: string, v: OpenView)
    requires eventId != "" && v.pending == [] && v.parent == ParentFor(ids, parentEventId, context)
    ensures var h := Start(eventId, parentEventId, context, true, id, v);
            Emitted(ids, h) == [Opened(id, v)] && NextMap(ids, h) == ids[eventId := id]
  {
  }

  lemma {:induction false} EndEmits(ids: OpenMap, e: string, attributes: Option<string>, args: CloseArgs)
    ensures e == "" || e !in ids ==> Emitted(ids, End(e, attributes, args)) == []
    ensures e != "" && e in ids ==>
              Emitted(ids, End(e, attributes, args))
              == (if attributes.Some? then [Updated(ids[e], attributes.value)] else []) + [Closed(ids[e], args)]
  {
  }

  lemma {:induction false} FeedbackEmits(ids: OpenMap, parentEventId: string, context: Option<string>, id: string, v: OpenView, args: CloseArgs)
    requires v.pending == [] && v.parent == ParentFor(ids, parentEventId, context)
    ensures var h := Feedback(parentEventId, context, true, id, v, args);
            Emitted(ids, h) == [Opened(id, v), Closed(id, args)] && NextMap(ids, h) == ids
  {
  }

  class SpanEmitter {
    const builder: SpanBuilder
    var open: map<string, OpenSpan>

    constructor (builder: SpanBuilder)
      ensures this.builder == builder && open == map[]
    {
      this.builder := builder;
      open := map[];
    }

    ghost predicate Valid()
      reads this, builder, builder.registry.Values
    {
      builder.Valid() && forall e :: e in open ==> builder.Registered(open[e])
    }

    /** The span id each event id maps to. */
    ghost predicate Maps(ids: OpenMap)
      reads this
    {
      open.Keys == ids.Keys && forall e :: e in open ==> open[e].spanId == ids[e]
    }

    method HandleStart(eventId: string, parentEventId: string, attributes: string, customer: Option<string>, inputs: string,
                       current: OpenSpan?, freshTrace: string, freshSpan: string, now: int, ghost ids: OpenMap)
      returns (ghost started: OpenSpan?)
      requires Valid() && Maps(ids) && (current != null ==> builder.Registered(current))
      requires |freshTrace| == 32 && freshTrace[..16] !in builder.registry && freshSpan !in builder.registry
      modifies this, builder
      ensures Valid()
      ensures started == null <==> eventId == "" || (customer.None? && builder.defaultCustomer.None?)
      ensures started == null ==> open == old(open) && builder.View() == old(builder.View())
      ensures started != null ==>
                && open == old(open)[eventId := started]
                && started.parent == (if parentEventId != "" && parentEventId in old(open) then old(open)[parentEventId]
                                      else current)
                && builder.View() == OpenStep(old(builder.View()), started.spanId, started.View())
      ensures var context := if current == null then None else Some(current.spanId);
              if started == null then Maps(ids)
              else
                var h := Start(eventId, parentEventId, context, true, started.spanId, started.View());
                Emitted(ids, h) == [Opened(started.spanId, started.View())] && Maps(NextMap(ids, h))
    {
      started := null;
      if eventId == "" {
        return;
      }
      var parent: OpenSpan? := if parentEventId != "" && parentEventId in open then open[parentEventId] else null;
      hide OpenStep, Emitted, NextMap, Maps;
      ghost var was := builder.View();
      var r := builder.Open(attributes, customer, inputs, parent, current, freshTrace, freshSpan, now);
      ghost var after := builder.View();
      if r.Ok? {
        started := r.value;
        StartEmits(ids, eventId, parentEventId, if current == null then None else Some(current.spanId),
                   started.spanId, started.View());
        Record(eventId, r.value, ids);
        assert builder.View() == after == OpenStep(was, started.spanId, started.View());
      } else {
        assert builder.View() == was;
      }
    }

    /** Human feedback is a span of its own, opened and closed at once. */
    method HandleFeedback(parentEventId: string, attributes: string, customer: Option<string>, current: OpenSpan?,
                          freshTrace: string, freshSpan: string, now: int, args: CloseArgs, ghost ids: OpenMap)
      returns (ghost marked: OpenSpan?)
      requires Valid() && Maps(ids) && (current != null ==> builder.Registered(current))
      requires |freshTrace| == 32 && freshTrace[..16] !in builder.registry && freshSpan !in builder.registry
      modifies builder, open.Values, if current == null then {} else {current}
      ensures Valid() && Maps(ids)
      ensures marked == null <==> customer.None? && builder.defaultCustomer.None?
      ensures marked == null ==> builder.View() == old(builder.View())
      ensures marked != null ==>
                var context := if current == null then None else Some(current.spanId);
                var v := old(builder.View());
                exists view ::
                  && Emitted(ids, Feedback(parentEventId, context, true, marked.spanId, view, args))
                     == [Opened(marked.spanId, view), Closed(marked.spanId, args)]
                  && Closable(OpenStep(v, marked.spanId, view), marked.spanId)
                  && builder.View() == CloseStep(builder.env, OpenStep(v, marked.spanId, view), marked.spanId, args)
    {
      var parent: OpenSpan? := if parentEventId != "" && parentEventId in open then open[parentEventId] else null;
      ghost var context := if current == null then None else Some(current.spanId);
      assert ParentFor(ids, parentEventId, context) == if parent != null then Some(parent.spanId) else context;
      hide OpenStep, CloseStep, Closable, Emitted, NextMap, Maps, ParentFor;
      ghost var view: OpenView;
      marked, view := Point(parent, current, attributes, customer, freshTrace, freshSpan, now, args);
      if marked != null {
        FeedbackEmits(ids, parentEventId, context, marked.spanId, view, args);
      }
    }

    /** A span opened and closed at once; view is what it was opened with. */
    method Point(parent: OpenSpan?, current: OpenSpan?, attributes: string, customer: Option<string>,
                 freshTrace: string, freshSpan: string, now: int, args: CloseArgs)
      returns (ghost marked: OpenSpan?, ghost view: OpenView)
      requires builder.Valid()
      requires (parent != null ==> builder.Registered(parent)) && (current != null ==> builder.Registered(current))
      requires |freshTrace| == 32 && freshTrace[..16] !in builder.registry && freshSpan !in builder.registry
      modifies builder, if parent == null then {} else {parent}, if current == null then {} else {current}
      ensures builder.Valid()
      ensures forall k :: k in old(builder.registry) ==> k in builder.registry && builder.registry[k] == old(builder.registry)[k]
      ensures marked == null <==> customer.None? && builder.defaultCustomer.None?
      ensures marked == null ==> builder.View() == old(builder.View())
      ensures marked != null ==>
                && view.pending == []
                && view.parent == (if parent != null then Some(parent.spanId) else if current != null then Some(current.spanId) else None)
                && Closable(OpenStep(old(builder.View()), marked.spanId, view), marked.spanId)
                && builder.View() == CloseStep(builder.env, OpenStep(old(builder.View()), marked.spanId, view), marked.spanId, args)
    {
      hide OpenStep, CloseStep, Closable;
      marked, view := null, *;
      var r := builder.Open(attributes, customer, "", parent, current, freshTrace, freshSpan, now);
      if r.Ok? {
        marked, view := r.value, r.value.View();
        var _ := builder.Close(r.value, args);
      }
    }

    method Record(eventId: string, o: OpenSpan, ghost ids: OpenMap)
      requires Valid() && Maps(ids) && builder.Registered(o)
      modifies this`open
      ensures Valid() && Maps(ids[eventId := o.spanId]) && open == old(open)[eventId := o]
      ensures builder.View() == old(builder.View())
    {
      open := open[eventId := o];
    }

    function Before(was: Builder, id: string, attributes: Option<string>): Builder
      requires id in was.opens
    {
      if attributes.Some? then SetAttributesStep(was, id, attributes.value) else was
    }

    method Finish(o: OpenSpan, attributes: Option<string>, args: CloseArgs)
      requires builder.Valid() && builder.Registered(o)
      modifies builder`exported, o, if o.parent != null then {o.parent} else {}
      ensures builder.Valid() && builder.registry == old(builder.registry)
      ensures Closable(Before(old(builder.View()), o.spanId, attributes), o.spanId)
      ensures builder.View() == CloseStep(builder.env, Before(old(builder.View()), o.spanId, attributes), o.spanId, args)
    {
      if attributes.Some? {
        builder.SetAttributes(o, attributes.value);
      }
      var _ := builder.Close(o, args);
    }

    method HandleEnd(startedEventId: string, attributes: Option<string>, args: CloseArgs, ghost ids: OpenMap)
      requires Valid() && Maps(ids)
      modifies this, builder`exported, open.Values, set o | o in open.Values && o.parent != null :: o.parent
      ensures Valid() && Maps(NextMap(ids, End(startedEventId, attributes, args)))
      ensures startedEventId == "" || startedEventId !in ids ==>
                builder.View() == old(builder.View()) && Emitted(ids, End(startedEventId, attributes, args)) == []
      ensures startedEventId != "" && startedEventId in ids ==>
                var id, was := ids[startedEventId], old(builder.View());
                && id in was.opens && Closable(Before(was, id, attributes), id)
                && builder.View() == CloseStep(builder.env, Before(was, id, attributes), id, args)
                && Emitted(ids, End(startedEventId, attributes, args))
                   == (if attributes.Some? then [Updated(id, attributes.value)] else []) + [Closed(id, args)]
    {
      EndEmits(ids, startedEventId, attributes, args);
      hide Emitted;
      if startedEventId == "" || startedEventId !in open {
        assert startedEventId !in ids ==> ids - {startedEventId} == ids;
        return;
      }
      hide CloseStep, Closable, SetAttributesStep;
      var o := open[startedEventId];
      ghost var was, id := builder.View(), ids[startedEventId];
      open := open - {startedEventId};
      assert open.Keys == (ids - {startedEventId}).Keys;
      assert builder.View() == was && o.spanId == id;
      Finish(o, attributes, args);
      assert builder.View() == CloseStep(builder.env, Before(was, id, attributes), id, args);
    }
  }
}
