/** The TypeScript exporter's bounded buffer: synchronous exports, drained on the next microtask. */
module TsQueue {
  datatype Span = Span(id: string, critical: bool)

  /** One step's view: what is buffered, what the inner exporter got, and how many were counted as dropped. */
  datatype Queue = Queue(buffer: seq<Span>, handed: seq<Span>, dropped: nat, isShutdown: bool, draining: bool)

  /** What export does, by case. */
  function ExportStep(capacity: nat, q: Queue, s: Span): Queue {
    if q.isShutdown then q.(dropped := q.dropped + 1)
    else if |q.buffer| < capacity then q.(buffer := q.buffer + [s], draining := true)
    else if !s.critical then
      q.(buffer := (if q.buffer == [] then [] else q.buffer[1..]) + [s], dropped := q.dropped + 1, draining := true)
    else if capacity > 0 then q.(buffer := [s], handed := q.handed + q.buffer, draining := true)
    else q.(buffer := [], handed := q.handed + q.buffer, dropped := q.dropped + 1, draining := true)
  }

  function DrainStep(q: Queue): Queue {
    if q.draining then q.(buffer := [], handed := q.handed + q.buffer, draining := false) else q
  }

  // ---- which submitted spans are still accounted for ----

  ghost predicate Increasing(s: seq<nat>, bound: nat) {
    && (forall i, j :: 0 <= i < j < |s| ==> s[i] < s[j])
    && (forall i :: 0 <= i < |s| ==> s[i] < bound)
  }

  /** The spans handed over and then those buffered are the submitted ones at these places, in submission order. */
  ghost predicate KeptAt(submitted: seq<Span>, q: Queue, kept: seq<nat>) {
    && Increasing(kept, |submitted|)
    && |kept| == |q.handed| + |q.buffer|
    && (forall i :: 0 <= i < |kept| ==> submitted[kept[i]] == (q.handed + q.buffer)[i])
  }

  /** Every submitted span was handed over, is buffered, or was counted as dropped; the buffer is within bounds;
      and a buffer that holds anything has a drain coming. */
  ghost predicate Inv(capacity: nat, submitted: seq<Span>, q: Queue, kept: seq<nat>) {
    && KeptAt(submitted, q, kept)
    && |submitted| == |q.handed| + q.dropped + |q.buffer|
    && |q.buffer| <= capacity
    && (q.buffer != [] ==> q.draining)
  }

  function DropAt(kept: seq<nat>, i: nat): seq<nat>
    requires i < |kept|
  {
    kept[..i] + kept[i + 1..]
  }

  /** The places kept after an export: the oldest buffered one goes if a plain span meets a full buffer. */
  function KeptAfter(capacity: nat, q: Queue, n: nat, kept: seq<nat>, s: Span): seq<nat>
    requires |kept| == |q.handed| + |q.buffer|
  {
    if q.isShutdown then kept
    else if |q.buffer| < capacity || s.critical || q.buffer == [] then kept + [n]
    else DropAt(kept, |q.handed|) + [n]
  }

  lemma {:induction false} ExportKeepsInv(capacity: nat, submitted: seq<Span>, q: Queue, kept: seq<nat>, s: Span)
    requires capacity >= 1 && Inv(capacity, submitted, q, kept)
    ensures Inv(capacity, submitted + [s], ExportStep(capacity, q, s), KeptAfter(capacity, q, |submitted|, kept, s))
  {
    var q', kept' := ExportStep(capacity, q, s), KeptAfter(capacity, q, |submitted|, kept, s);
    if !q.isShutdown && (|q.buffer| < capacity || s.critical) {
      assert q'.handed + q'.buffer == (q.handed + q.buffer) + [s];
    } else if !q.isShutdown {
      EvictOldest(submitted, q, kept, s);
    }
  }

  lemma {:induction false} EvictOldest(submitted: seq<Span>, q: Queue, kept: seq<nat>, s: Span)
    requires KeptAt(submitted, q, kept) && q.buffer != []
    ensures KeptAt(submitted + [s], q.(buffer := q.buffer[1..] + [s]), DropAt(kept, |q.handed|) + [|submitted|])
  {
    var h, rest, all := |q.handed|, DropAt(kept, |q.handed|), q.handed + q.buffer;
    var all' := q.handed + q.buffer[1..];
    assert |rest| == |all'|;
    forall i | 0 <= i < |rest| ensures submitted[rest[i]] == all'[i] {
      var j := if i < h then i else i + 1;
      assert rest[i] == kept[j] && all'[i] == all[j];
    }
    assert q.handed + (q.buffer[1..] + [s]) == all' + [s];
    assert forall i, j :: 0 <= i < j < |rest| ==> rest[i] < rest[j];
  }

  lemma {:induction false} DrainKeepsInv(capacity: nat, submitted: seq<Span>, q: Queue, kept: seq<nat>)
    requires Inv(capacity, submitted, q, kept)
    ensures Inv(capacity, submitted, DrainStep(q), kept)
    ensures DrainStep(q).buffer == [] && |submitted| == |DrainStep(q).handed| + DrainStep(q).dropped
  {
    assert DrainStep(q).handed + DrainStep(q).buffer == q.handed + q.buffer;
  }

  /** What became of the spans taken in so far. */
  function Accounted(q: Queue): nat {
    |q.handed| + q.dropped + |q.buffer|
  }

  /** One export, whatever the state, counts its span once exactly unless a plain span meets an empty buffer that can
      hold nothing: then it is buffered and counted as dropped. */
  lemma {:induction false} ExportCountsExactlyWhen(capacity: nat, q: Queue, s: Span)
    ensures Accounted(ExportStep(capacity, q, s)) == Accounted(q) + 1 <==>
              capacity >= 1 || s.critical || q.isShutdown || q.buffer != []
  {
  }

  /** Before shutdown a critical span is always enqueued and never counted as dropped. */
  lemma {:induction false} CriticalIsEnqueued(capacity: nat, q: Queue, s: Span)
    requires capacity >= 1 && s.critical && !q.isShutdown
    ensures var q' := ExportStep(capacity, q, s);
            q'.buffer != [] && q'.buffer[|q'.buffer| - 1] == s && q'.dropped == q.dropped
  {
  }

  // ---- runs ----

  datatype Event = Exported(span: Span) | Ticked | Stopped

  function Apply(capacity: nat, q: Queue, e: Event): Queue {
    match e
    case Exported(s) => ExportStep(capacity, q, s)
    case Ticked => DrainStep(q)
    case Stopped => q.(isShutdown := true)
  }

  function Run(capacity: nat, events: seq<Event>): Queue {
    if events == [] then Queue([], [], 0, false, false)
    else Apply(capacity, Run(capacity, events[..|events| - 1]), events[|events| - 1])
  }

  function Submitted(events: seq<Event>): seq<Span> {
    if events == [] then []
    else
      var before, e := Submitted(events[..|events| - 1]), events[|events| - 1];
      if e.Exported? then before + [e.span] else before
  }

  /** In every state of every run, with any capacity of at least one, nothing is lost without being counted. */
  lemma {:induction false} EveryRunConserves(capacity: nat, events: seq<Event>) returns (kept: seq<nat>)
    requires capacity >= 1
    ensures Inv(capacity, Submitted(events), Run(capacity, events), kept)
  {
    kept := [];
    if events != [] {
      var init, e := events[..|events| - 1], events[|events| - 1];
      kept := EveryRunConserves(capacity, init);
      var q := Run(capacity, init);
      match e
      case Exported(s) =>
        ExportKeepsInv(capacity, Submitted(init), q, kept, s);
        kept := KeptAfter(capacity, q, |Submitted(init)|, kept, s);
      case Ticked => DrainKeepsInv(capacity, Submitted(init), q, kept);
      case Stopped =>
    }
  }

  /** Every state of every run accounts for each submitted span exactly once, exactly with a capacity of at least one. */
  lemma {:induction false} RunsConserveExactlyWhen(capacity: nat)
    ensures (forall events :: Accounted(Run(capacity, events)) == |Submitted(events)|) <==> capacity >= 1
  {
    if capacity >= 1 {
      forall events ensures Accounted(Run(capacity, events)) == |Submitted(events)| {
        var kept := EveryRunConserves(capacity, events);
      }
    } else {
      var plain := Span("", false);
      var events := [Exported(plain)];
      assert events[..0] == [];
      assert Run(0, events) == Queue([plain], [], 1, false, true);
      assert Submitted(events) == [plain];
    }
  }

  // ---- what eviction does to a buffered critical span ----

  function Burst(capacity: nat, q: Queue, spans: seq<Span>): Queue {
    if spans == [] then q else ExportStep(capacity, Burst(capacity, q, spans[..|spans| - 1]), spans[|spans| - 1])
  }

  /** How many buffered spans a burst of n plain exports pushes out. */
  function Evictions(capacity: nat, buffered: nat, n: nat): nat {
    if buffered + n > capacity then buffered + n - capacity else 0
  }

  /** A burst of plain spans between two ticks evicts the oldest buffered spans, critical or not: the buffer is the
      last `capacity` of what was buffered and submitted. So a buffered critical span at place i survives exactly if at
      most i spans are pushed out. */
  lemma {:induction false} BurstEvictsOldest(capacity: nat, q: Queue, spans: seq<Span>)
    requires capacity >= 1 && |q.buffer| <= capacity && !q.isShutdown && (forall s :: s in spans ==> !s.critical)
    ensures var n := Evictions(capacity, |q.buffer|, |spans|); var q' := Burst(capacity, q, spans);
            q'.buffer == (q.buffer + spans)[n..] && q'.dropped == q.dropped + n && q'.handed == q.handed && !q'.isShutdown
  {
    if spans == [] {
      assert q.buffer + spans == q.buffer;
    } else {
      var init, s := spans[..|spans| - 1], spans[|spans| - 1];
      BurstEvictsOldest(capacity, q, init);
      assert spans == init + [s] && s in spans;
      assert q.buffer + spans == (q.buffer + init) + [s];
    }
  }

  class BoundedQueueExporter {
    const maxSize: nat
    var buffer: seq<Span>
    var droppedCount: nat
    var isShutdown: bool
    var draining: bool
    var drainRequested: bool
    /** What the inner exporter was given; an export of its own that fails still counts as given. */
    var handed: seq<Span>

    constructor (capacity: nat)
      ensures maxSize == capacity && View() == Queue([], [], 0, false, false) && Valid()
    {
      maxSize := capacity;
      buffer, droppedCount, isShutdown, draining, drainRequested, handed := [], 0, false, false, false, [];
    }

    function View(): Queue
      reads this
    {
      Queue(buffer, handed, droppedCount, isShutdown, draining)
    }

    predicate Valid()
      reads this
    {
      |buffer| <= (if maxSize == 0 then 1 else maxSize) && drainRequested == draining && (buffer != [] ==> draining)
    }

    method Export(s: Span)
      requires Valid()
      modifies this
      ensures View() == Apply(maxSize, old(View()), Exported(s))
      ensures Valid()
    {
      if isShutdown {
        droppedCount := droppedCount + 1;
        return;
      }
      if |buffer| >= maxSize {
        HandleFull(s);
      } else {
        buffer := buffer + [s];
      }
      ScheduleDrain();
    }

    method HandleFull(s: Span)
      requires |buffer| >= maxSize
      modifies this`buffer, this`droppedCount, this`handed
      ensures View() == ExportStep(maxSize, old(View()).(isShutdown := false), s).(draining := draining, isShutdown := isShutdown)
    {
      if s.critical {
        FlushSync();
        if |buffer| >= maxSize {
          droppedCount := droppedCount + 1;
          return;
        }
        buffer := buffer + [s];
        return;
      }
      if buffer != [] {
        buffer := buffer[1..];
      }
      droppedCount := droppedCount + 1;
      buffer := buffer + [s];
    }

    method FlushSync()
      modifies this`buffer, this`handed
      ensures buffer == [] && handed == old(handed + buffer)
    {
      var batch := buffer;
      buffer := [];
      for i := 0 to |batch|
        invariant buffer == [] && handed == old(handed) + batch[..i]
      {
        assert batch[..i + 1] == batch[..i] + [batch[i]];
        handed := handed + [batch[i]];
      }
    }

    method ScheduleDrain()
      requires drainRequested == draining
      modifies this`draining, this`drainRequested
      ensures draining && drainRequested
    {
      if draining {
        return;
      }
      drainRequested := true;
      draining := true;
    }

    /** The scheduled microtask. */
    method Tick()
      requires Valid()
      modifies this`buffer, this`handed, this`draining, this`drainRequested
      ensures View() == Apply(maxSize, old(View()), Ticked) && Valid() && buffer == []
      ensures old(draining) || old(buffer) != [] ==> handed == old(handed + buffer)
    {
      if !draining {
        return;
      }
      while drainRequested
        invariant draining && droppedCount == old(droppedCount) && isShutdown == old(isShutdown)
        invariant drainRequested ==> buffer == old(buffer) && handed == old(handed)
        invariant !drainRequested ==> buffer == [] && handed == old(handed + buffer)
        decreases drainRequested
      {
        drainRequested := false;
        FlushSync();
      }
      draining := false;
    }

    /** Whatever the time limit, shutting down hands over everything buffered; later exports are counted as dropped. */
    method Shutdown(expired: bool)
      requires Valid()
      modifies this
      ensures isShutdown && droppedCount == old(droppedCount)
      ensures !old(isShutdown) ==> buffer == [] && handed == old(handed + buffer) && !draining
      ensures old(isShutdown) ==> View() == old(View())
      ensures !old(isShutdown) ==> View() == Apply(maxSize, Apply(maxSize, old(View()), Stopped), Ticked)
      ensures Valid()
    {
      if isShutdown {
        return;
      }
      isShutdown := true;
      while draining || |buffer| > 0
        invariant Valid() && isShutdown && droppedCount == old(droppedCount)
        invariant handed + buffer == old(handed + buffer)
        decreases draining
      {
        // The awaited drain leaves nothing for the second flush.
        Tick();
        assert buffer == [];
        if expired {
          break;
        }
      }
    }
  }
}
