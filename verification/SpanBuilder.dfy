/**
 The span builder. Closed children wait in their parent's pending list; a closing parent
 stamps them with its own hash and exports them; a root exports itself last.
 */
module SpanBuilder {
  import opened Wrappers
  import opened Spans

  /** What the builder is configured with: the content hash and the redaction filter. */
  datatype Env = Env(hash: ContentHash, redact: Payload -> Payload)

  /** The state of one open span, read as a value. */
  datatype OpenView = OpenView(parent: Option<string>, trajectoryId: string, customer: string,
                               startTime: int, attributes: string, inputs: string, pending: seq<Span>)

  /** The open spans by id, and everything handed to the exporter. */
  datatype Builder = Builder(opens: map<string, OpenView>, log: seq<Span>)

  datatype CloseArgs = CloseArgs(outputs: string, status: Status, endTime: int)

  function Finalize(env: Env, id: string, o: OpenView, args: CloseArgs): Span {
    var content := Content(id, o.parent, o.trajectoryId, o.customer, o.startTime, args.endTime, args.status,
                           env.redact(Payload(o.attributes, o.inputs, args.outputs)));
    Span(content, Provenance(env.hash(content), None, SCHEMA_VERSION))
  }

  function Stamp(child: Span, parentHash: Digest): Span {
    Span(child.content, Provenance(child.provenance.contentHash, Some(parentHash), SCHEMA_VERSION))
  }

  function StampAll(children: seq<Span>, parentHash: Digest): (stamped: seq<Span>)
    ensures |stamped| == |children|
  {
    seq(|children|, i requires 0 <= i < |children| => Stamp(children[i], parentHash))
  }

  function OpenStep(b: Builder, id: string, o: OpenView): Builder {
    b.(opens := b.opens[id := o])
  }

  function SetAttributesStep(b: Builder, id: string, attributes: string): Builder
    requires id in b.opens
  {
    b.(opens := b.opens[id := b.opens[id].(attributes := attributes)])
  }

  predicate Closable(b: Builder, id: string) {
    && id in b.opens
    && (b.opens[id].parent.Some? ==> b.opens[id].parent.value in b.opens && b.opens[id].parent.value != id)
  }

  function CloseStep(env: Env, b: Builder, id: string, args: CloseArgs): Builder
    requires Closable(b, id)
  {
    var o := b.opens[id];
    var final := Finalize(env, id, o, args);
    var stamped := StampAll(o.pending, final.provenance.contentHash);
    var opens := b.opens[id := o.(pending := [])];
    match o.parent
    case None => Builder(opens, b.log + stamped + [final])
    case Some(p) => Builder(opens[p := opens[p].(pending := opens[p].pending + [final])], b.log + stamped)
  }

  class OpenSpan {
    const spanId: string
    const parentSpanId: Option<string>
    const trajectoryId: string
    const customer: string
    const startTime: int
    const inputs: string
    const parent: OpenSpan?
    var attributes: string
    var pending: seq<Span>

    constructor (spanId: string, parentSpanId: Option<string>, trajectoryId: string, customer: string,
                 startTime: int, attributes: string, inputs: string, parent: OpenSpan?)
      ensures this.spanId == spanId && this.parent == parent
      ensures View() == OpenView(parentSpanId, trajectoryId, customer, startTime, attributes, inputs, [])
    {
      this.spanId, this.parentSpanId, this.trajectoryId, this.customer := spanId, parentSpanId, trajectoryId, customer;
      this.startTime, this.attributes, this.inputs, this.parent := startTime, attributes, inputs, parent;
      pending := [];
    }

    function View(): OpenView
      reads this
    {
      OpenView(parentSpanId, trajectoryId, customer, startTime, attributes, inputs, pending)
    }
  }

  datatype SchemaViolation = NoCompliance

  class SpanBuilder {
    const env: Env
    const defaultCustomer: Option<string>
    var exported: seq<Span>
    ghost var registry: map<string, OpenSpan>

    constructor (env: Env, defaultCustomer: Option<string>)
      ensures Valid() && View() == Builder(map[], []) && fresh(registry.Values)
      ensures this.env == env && this.defaultCustomer == defaultCustomer
    {
      this.env, this.defaultCustomer := env, defaultCustomer;
      exported, registry := [], map[];
    }

    ghost predicate Registered(o: OpenSpan)
      reads this
    {
      o.spanId in registry && registry[o.spanId] == o
    }

    /** Every open span is registered under its id, and a child names a registered parent. */
    ghost predicate Valid()
      reads this, registry.Values
    {
      forall k :: k in registry ==>
        var o := registry[k];
        && o.spanId == k
        && (o.parent == null <==> o.parentSpanId == None)
        && (o.parent != null ==>
              && o.parentSpanId == Some(o.parent.spanId)
              && Registered(o.parent)
              && o.parent != o
              && o.trajectoryId == o.parent.trajectoryId)
    }

    ghost function View(): Builder
      requires Valid()
      reads this, registry.Values
    {
      Builder(map k | k in registry :: registry[k].View(), exported)
    }

    /** `freshTrace` and `freshSpan` are the generated ids; `current` is the context's parent pointer. */
    method Open(attributes: string, customer: Option<string>, inputs: string, parent: OpenSpan?, current: OpenSpan?,
                freshTrace: string, freshSpan: string, now: int)
      returns (r: Result<OpenSpan, SchemaViolation>)
      requires Valid()
      requires parent != null ==> Registered(parent)
      requires current != null ==> Registered(current)
      requires |freshTrace| == 32 && freshTrace[..16] !in registry && freshSpan !in registry
      modifies this
      ensures Valid() && exported == old(exported)
      ensures r.Err? <==> customer.None? && defaultCustomer.None?
      ensures r.Err? ==> registry == old(registry)
      ensures r.Ok? ==>
                var o := r.value;
                var p := if parent != null then parent else current;
                && fresh(o)
                && registry == old(registry)[o.spanId := o]
                && o.spanId == (if p == null then freshTrace[..16] else freshSpan)
                && o.parent == p
                && o.View() == OpenView(if p == null then None else Some(p.spanId),
                                        if p == null then freshTrace else p.trajectoryId,
                                        if customer.Some? then customer.value else defaultCustomer.value,
                                        now, attributes, inputs, [])
                && View() == OpenStep(old(View()), o.spanId, o.View())
    {
      if customer.None? && defaultCustomer.None? {
        return Err(NoCompliance);
      }
      var effective := if customer.Some? then customer.value else defaultCustomer.value;
      var p := if parent != null then parent else current;
      var o: OpenSpan;
      if p == null {
        o := new OpenSpan(freshTrace[..16], None, freshTrace, effective, now, attributes, inputs, null);
      } else {
        o := new OpenSpan(freshSpan, Some(p.spanId), p.trajectoryId, effective, now, attributes, inputs, p);
      }
      Register(o);
      r := Ok(o);
    }

    /** The ghost record of a newly opened span. */
    ghost method Register(o: OpenSpan)
      requires Valid() && o.spanId !in registry && o !in registry.Values
      requires o.parent == null <==> o.parentSpanId == None
      requires o.parent != null ==>
                 Registered(o.parent) && o.parentSpanId == Some(o.parent.spanId) && o.trajectoryId == o.parent.trajectoryId
      modifies this`registry
      ensures Valid() && registry == old(registry)[o.spanId := o]
      ensures View() == OpenStep(old(View()), o.spanId, o.View())
    {
      ghost var before := View();
      registry := registry[o.spanId := o];
      ghost var after := View();
      assert after.opens.Keys == before.opens.Keys + {o.spanId};
      assert forall k :: k in before.opens ==> after.opens[k] == before.opens[k];
      assert after.opens == before.opens[o.spanId := o.View()];
    }

    /** A driver replacing the attributes of a span it still holds open. */
    method SetAttributes(o: OpenSpan, attributes: string)
      requires Valid() && Registered(o)
      modifies o`attributes
      ensures Valid() && o.attributes == attributes
      ensures View() == SetAttributesStep(old(View()), o.spanId, attributes)
    {
      o.attributes := attributes;
    }

    method Export(span: Span)
      requires Valid()
      modifies this`exported
      ensures Valid() && View() == old(View()).(log := old(View()).log + [span])
    {
      exported := exported + [span];
    }

    method ExportStamped(children: seq<Span>, parentHash: Digest)
      requires Valid()
      modifies this`exported
      ensures Valid() && View() == old(View()).(log := old(View()).log + StampAll(children, parentHash))
    {
      ghost var before := View();
      for i := 0 to |children|
        invariant Valid() && View() == before.(log := before.log + StampAll(children[..i], parentHash))
      {
        Export(Stamp(children[i], parentHash));
        assert StampAll(children[..i + 1], parentHash)
            == StampAll(children[..i], parentHash) + [Stamp(children[i], parentHash)];
      }
      assert children[..|children|] == children;
    }

    method Close(o: OpenSpan, args: CloseArgs) returns (final: Span)
      requires Valid() && Registered(o)
      modifies this`exported, o`pending, if o.parent != null then {o.parent} else {}
      ensures Valid() && registry == old(registry)
      ensures final == old(Finalize(env, o.spanId, o.View(), args))
      ensures final.content.spanId == o.spanId && final.content.parentId == o.parentSpanId
      ensures final.content.trajectoryId == o.trajectoryId && final.content.customer == o.customer
      ensures final.content.startTime == o.startTime && final.content.endTime == args.endTime
      ensures final.content.status == args.status
      ensures final.content.payload == env.redact(Payload(old(o.attributes), o.inputs, args.outputs))
      ensures final.provenance == Provenance(env.hash(final.content), None, SCHEMA_VERSION)
      ensures old(Closable(View(), o.spanId))
      ensures View() == old(CloseStep(env, View(), o.spanId, args))
    {
      hide StampAll;
      final := Finalize(env, o.spanId, o.View(), args);
      ExportStamped(o.pending, final.provenance.contentHash);
      SetPending(o, []);
      if o.parent == null {
        Export(final);
      } else {
        SetPending(o.parent, o.parent.pending + [final]);
      }
    }

    method SetPending(o: OpenSpan, spans: seq<Span>)
      requires Valid() && Registered(o)
      modifies o`pending
      ensures Valid() && o.pending == spans
      ensures View() == old(View()).(opens := old(View()).opens[o.spanId := old(o.View()).(pending := spans)])
    {
      ghost var before := View();
      o.pending := spans;
      ghost var after := View();
      assert forall k :: k in before.opens && k != o.spanId ==> after.opens[k] == before.opens[k];
      assert after.opens == before.opens[o.spanId := before.opens[o.spanId].(pending := spans)];
    }
  }
}
