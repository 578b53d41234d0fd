/** Retention under litigation holds: whole partitions dropped, or expired rows deleted class by class. */
module Retention {
  import opened Wrappers
  import opened Spans
  import opened Sorting

  datatype Class = Transient | Standard | Extended | LitigationHold

  datatype Row = Row(spanId: string, trajectoryId: string, endTime: int, klass: Class)

  datatype Hold = Hold(placedBy: string, reason: Option<string>, placedAt: int, releasedAt: Option<int>, releasedBy: Option<string>)

  type Holds = map<string, Hold>

  /** Retention windows; the fourth class has none and is never deleted. */
  datatype Settings = Settings(transient: nat, standard: nat, extended: nat)

  datatype Op = DropPartition(target: string, klass: Class) | DeleteRows(target: string, spans: nat, klass: Class)

  datatype Database = Database(partitions: map<string, seq<Row>>, holds: Holds, operations: seq<Op>)

  datatype Report = Report(dropped: seq<string>, rowsDeleted: map<Class, nat>)

  /** The classes of the row-delete loop, in its order. */
  const DELETABLE := [Transient, Standard, Extended]

  function TtlFor(settings: Settings, klass: Class): Option<nat> {
    match klass
    case Transient => Some(settings.transient)
    case Standard => Some(settings.standard)
    case Extended => Some(settings.extended)
    case LitigationHold => None
  }

  predicate Active(holds: Holds, trajectoryId: string) {
    trajectoryId in holds && holds[trajectoryId].releasedAt.None?
  }

  // ---- what a pass is for ----

  /** Past the retention window of its class. */
  predicate Expired(settings: Settings, now: int, r: Row) {
    var ttl := TtlFor(settings, r.klass);
    ttl.Some? && r.endTime + ttl.value < now
  }

  /** Its end is further back than its class keeps; the fourth class keeps for ever. */
  predicate Past(settings: Settings, now: int, r: Row) {
    || (r.klass == Transient && now - r.endTime > settings.transient)
    || (r.klass == Standard && now - r.endTime > settings.standard)
    || (r.klass == Extended && now - r.endTime > settings.extended)
  }

  /** A hold was placed on the trajectory and not released. */
  predicate UnderHold(holds: Holds, trajectoryId: string) {
    exists h :: trajectoryId in holds && holds[trajectoryId] == h && h.releasedAt == None
  }

  ghost predicate SomeUnderHold(holds: Holds, rows: seq<Row>) {
    exists i :: 0 <= i < |rows| && UnderHold(holds, rows[i].trajectoryId)
  }

  lemma {:induction false} RetentionTerms(settings: Settings, holds: Holds, now: int, rows: seq<Row>)
    ensures forall r :: Expired(settings, now, r) <==> Past(settings, now, r)
    ensures forall t :: Active(holds, t) <==> UnderHold(holds, t)
    ensures AnyHeld(holds, rows) <==> SomeUnderHold(holds, rows)
  {
    forall t ensures Active(holds, t) <==> UnderHold(holds, t) {
    }
    if AnyHeld(holds, rows) {
      var r :| r in rows && Active(holds, r.trajectoryId);
      var i :| 0 <= i < |rows| && rows[i] == r;
    }
    if SomeUnderHold(holds, rows) {
      var i :| 0 <= i < |rows| && UnderHold(holds, rows[i].trajectoryId);
      assert rows[i] in rows;
    }
  }

  predicate AnyHeld(holds: Holds, rows: seq<Row>) {
    exists r :: r in rows && Active(holds, r.trajectoryId)
  }

  function Unexpired(settings: Settings, now: int): Row -> bool {
    (r: Row) => !Expired(settings, now, r)
  }

  /** The rows a partition should keep: all of them while any of its trajectories is held, else the unexpired ones. */
  function Survivors(settings: Settings, holds: Holds, now: int, rows: seq<Row>): seq<Row> {
    if AnyHeld(holds, rows) then rows else Where(Unexpired(settings, now), rows)
  }

  /** When the partition itself goes: it has rows, none held, all of one class and all expired. */
  ghost predicate Drops(settings: Settings, holds: Holds, now: int, rows: seq<Row>) {
    rows != [] && !AnyHeld(holds, rows) && forall r :: r in rows ==> Expired(settings, now, r) && r.klass == rows[0].klass
  }

  // ---- the queries of one partition ----

  function MaxEnd(rows: seq<Row>): (m: int)
    requires rows != []
    ensures exists r :: r in rows && r.endTime == m
    ensures forall r :: r in rows ==> r.endTime <= m
  {
    var init, last := rows[..|rows| - 1], rows[|rows| - 1];
    assert rows == init + [last];
    if init == [] then last.endTime
    else
      var m := MaxEnd(init);
      if m < last.endTime then last.endTime else m
  }

  function Classes(rows: seq<Row>): set<Class> {
    set r | r in rows :: r.klass
  }

  lemma {:induction false} OneClass(rows: seq<Row>)
    requires rows != []
    ensures |Classes(rows)| == 1 <==> forall r :: r in rows ==> r.klass == rows[0].klass
  {
    assert rows[0].klass in Classes(rows);
    if |Classes(rows)| == 1 {
      var k := rows[0].klass;
      assert |Classes(rows) - {k}| == 0;
      forall r | r in rows ensures r.klass == k {
        assert r.klass in Classes(rows);
      }
    }
    if forall r :: r in rows ==> r.klass == rows[0].klass {
      assert Classes(rows) == {rows[0].klass};
    }
  }

  /** The rows one DELETE statement removes. */
  function Deleted(settings: Settings, holds: Holds, now: int, klass: Class): Row -> bool {
    (r: Row) => r.klass == klass && TtlFor(settings, klass).Some? && r.endTime < now - TtlFor(settings, klass).value
                && !Active(holds, r.trajectoryId)
  }

  function Remaining(settings: Settings, holds: Holds, now: int, klass: Class): Row -> bool {
    (r: Row) => !Deleted(settings, holds, now, klass)(r)
  }

  /** The row-delete loop on one partition. */
  function RowDelete(settings: Settings, holds: Holds, now: int, classes: seq<Class>, rows: seq<Row>): seq<Row> {
    if classes == [] then rows
    else
      Where(Remaining(settings, holds, now, classes[|classes| - 1]),
            RowDelete(settings, holds, now, classes[..|classes| - 1], rows))
  }

  function DeleteOps(settings: Settings, holds: Holds, now: int, name: string, classes: seq<Class>, rows: seq<Row>): seq<Op> {
    if classes == [] then []
    else
      var k, init := classes[|classes| - 1], classes[..|classes| - 1];
      var n := |Where(Deleted(settings, holds, now, k), RowDelete(settings, holds, now, init, rows))|;
      DeleteOps(settings, holds, now, name, init, rows) + if n > 0 then [DeleteRows(name, n, k)] else []
  }

  lemma {:induction false} WhereSplit<T>(keep: T -> bool, drop: T -> bool, s: seq<T>)
    requires forall x :: x in s ==> keep(x) == !drop(x)
    ensures |s| == |Where(keep, s)| + |Where(drop, s)|
  {
    if s != [] {
      var init, last := s[..|s| - 1], s[|s| - 1];
      assert s == init + [last];
      WhereSplit(keep, drop, init);
    }
  }

  function LaterClasses(settings: Settings, holds: Holds, now: int, classes: seq<Class>): Row -> bool {
    (r: Row) => !(r.klass in classes && Expired(settings, now, r) && !Active(holds, r.trajectoryId))
  }

  lemma {:induction false} RowDeleteMeans(settings: Settings, holds: Holds, now: int, classes: seq<Class>, rows: seq<Row>)
    ensures RowDelete(settings, holds, now, classes, rows) == Where(LaterClasses(settings, holds, now, classes), rows)
  {
    if classes == [] {
      WhereAll(LaterClasses(settings, holds, now, classes), rows);
    } else {
      var k, init := classes[|classes| - 1], classes[..|classes| - 1];
      assert classes == init + [k];
      RowDeleteMeans(settings, holds, now, init, rows);
      forall r
        ensures LaterClasses(settings, holds, now, classes)(r) <==>
                  LaterClasses(settings, holds, now, init)(r) && Remaining(settings, holds, now, k)(r)
      {
        assert Deleted(settings, holds, now, k)(r) <==> r.klass == k && Expired(settings, now, r) && !Active(holds, r.trajectoryId);
        assert r.klass in init + [k] <==> r.klass in init || r.klass == k;
      }
      WhereTwice(LaterClasses(settings, holds, now, init), Remaining(settings, holds, now, k),
                 LaterClasses(settings, holds, now, classes), rows);
    }
  }

  /** The slow path keeps, of any partition, the unexpired rows and the held ones. */
  lemma {:induction false} SlowPathKeeps(settings: Settings, holds: Holds, now: int, rows: seq<Row>)
    ensures forall r :: r in RowDelete(settings, holds, now, DELETABLE, rows) <==>
              r in rows && (!Past(settings, now, r) || UnderHold(holds, r.trajectoryId))
    ensures !AnyHeld(holds, rows) ==>
              RowDelete(settings, holds, now, DELETABLE, rows) == Survivors(settings, holds, now, rows)
  {
    var keep := LaterClasses(settings, holds, now, DELETABLE);
    RowDeleteMeans(settings, holds, now, DELETABLE, rows);
    RetentionTerms(settings, holds, now, rows);
    forall r ensures keep(r) <==> !Expired(settings, now, r) || Active(holds, r.trajectoryId) {
    }
    forall r ensures r in Where(keep, rows) <==> r in rows && keep(r) {
      WhereMembers(keep, rows, r);
    }
    if !AnyHeld(holds, rows) {
      SameSelection(keep, Unexpired(settings, now), rows);
    }
  }

  lemma {:induction false} SameSelection<T>(p: T -> bool, q: T -> bool, s: seq<T>)
    requires forall x :: x in s ==> p(x) == q(x)
    ensures Where(p, s) == Where(q, s)
  {
    if s != [] {
      SameSelection(p, q, s[..|s| - 1]);
      assert s[|s| - 1] in s;
    }
  }

  /** Dropping a partition removes exactly what deleting its rows would have removed: everything. */
  lemma {:induction false} DropEqualsDelete(settings: Settings, holds: Holds, now: int, rows: seq<Row>)
    requires Drops(settings, holds, now, rows)
    ensures RowDelete(settings, holds, now, DELETABLE, rows) == []
    ensures Survivors(settings, holds, now, rows) == []
  {
    SlowPathKeeps(settings, holds, now, rows);
    WhereNone(Unexpired(settings, now), rows);
  }

  // ---- one pass ----

  function SweepOps(settings: Settings, holds: Holds, now: int, name: string, rows: seq<Row>): seq<Op> {
    if rows == [] || AnyHeld(holds, rows) then []
    else if Droppable(settings, now, rows) then [DropPartition(name, rows[0].klass)]
    else DeleteOps(settings, holds, now, name, DELETABLE, rows)
  }

  /** The fast path's own test: one class, with a window, and the latest row past it. */
  predicate Droppable(settings: Settings, now: int, rows: seq<Row>)
    requires rows != []
  {
    |Classes(rows)| == 1 && TtlFor(settings, rows[0].klass).Some?
    && MaxEnd(rows) + TtlFor(settings, rows[0].klass).value < now
  }

  lemma {:induction false} DropTest(settings: Settings, holds: Holds, now: int, rows: seq<Row>)
    requires rows != [] && !AnyHeld(holds, rows)
    ensures Droppable(settings, now, rows) <==> Drops(settings, holds, now, rows)
  {
    OneClass(rows);
    var top :| top in rows && top.endTime == MaxEnd(rows);
    assert rows[0] in rows;
  }

  function AllOps(settings: Settings, db: Database, now: int, names: seq<string>): seq<Op>
    requires forall n :: n in names ==> n in db.partitions
  {
    if names == [] then []
    else
      var n := names[|names| - 1];
      AllOps(settings, db, now, names[..|names| - 1]) + SweepOps(settings, db.holds, now, n, db.partitions[n])
  }

  /** The partitions after a pass over some names: each keeps its survivors, and the dropped ones are gone. */
  ghost predicate Swept(settings: Settings, db: Database, now: int, names: seq<string>, after: map<string, seq<Row>>) {
    && (forall n :: n in after <==>
          n in db.partitions && !(n in names && Drops(settings, db.holds, now, db.partitions[n])))
    && (forall n :: n in after ==>
          after[n] == if n in names then Survivors(settings, db.holds, now, db.partitions[n]) else db.partitions[n])
  }

  lemma {:induction false} SweptNone(settings: Settings, db: Database, now: int)
    ensures Swept(settings, db, now, [], db.partitions)
    ensures AllOps(settings, db, now, []) == [] && Reports(Report([], map[]), [])
  {
  }

  lemma {:induction false} SweptOne(settings: Settings, db: Database, now: int, names: seq<string>, name: string, p: map<string, seq<Row>>)
    requires Swept(settings, db, now, names, p) && name in db.partitions && name !in names
    ensures name in p && p[name] == db.partitions[name]
    ensures var rows := db.partitions[name];
            Swept(settings, db, now, names + [name],
                  if Drops(settings, db.holds, now, rows) then p - {name}
                  else p[name := Survivors(settings, db.holds, now, rows)])
  {
    hide Drops, Survivors;
    forall n ensures n in names + [name] <==> n in names || n == name {
    }
  }

  lemma {:induction false} AllOpsAppend(settings: Settings, db: Database, now: int, names: seq<string>, name: string)
    requires forall n :: n in names + [name] ==> n in db.partitions
    requires forall n :: n in names ==> n in db.partitions
    ensures name in db.partitions
    ensures AllOps(settings, db, now, names + [name])
            == AllOps(settings, db, now, names) + SweepOps(settings, db.holds, now, name, db.partitions[name])
  {
    hide SweepOps;
    assert name in names + [name];
    assert (names + [name])[..|names|] == names;
  }

  function Tally(ops: seq<Op>, klass: Class): nat {
    if ops == [] then 0
    else
      var last := ops[|ops| - 1];
      Tally(ops[..|ops| - 1], klass) + if last.DeleteRows? && last.klass == klass then last.spans else 0
  }

  function Targets(ops: seq<Op>): seq<string> {
    if ops == [] then []
    else
      var last := ops[|ops| - 1];
      Targets(ops[..|ops| - 1]) + if last.DropPartition? then [last.target] else []
  }

  /** The report repeats the operations log: what was dropped, and rows deleted per class, where positive. */
  predicate Reports(report: Report, ops: seq<Op>) {
    && report.dropped == Targets(ops)
    && (forall k :: k in report.rowsDeleted <==> Tally(ops, k) > 0)
    && (forall k :: k in report.rowsDeleted ==> report.rowsDeleted[k] == Tally(ops, k))
  }

  lemma {:induction false} ReportsOne(report: Report, ops: seq<Op>, op: Op)
    requires Reports(report, ops)
    ensures op.DropPartition? ==> Reports(report.(dropped := report.dropped + [op.target]), ops + [op])
    ensures op.DeleteRows? && op.spans > 0 ==>
              var n := if op.klass in report.rowsDeleted then report.rowsDeleted[op.klass] else 0;
              Reports(report.(rowsDeleted := report.rowsDeleted[op.klass := n + op.spans]), ops + [op])
  {
    assert (ops + [op])[..|ops|] == ops;
  }

  datatype PlaceOutcome = AlreadyHeld | Held
  datatype ReleaseOutcome = NotFound | Released

  class Store {
    var partitions: map<string, seq<Row>>
    var holds: Holds
    var operations: seq<Op>

    constructor ()
      ensures View() == Database(map[], map[], [])
    {
      partitions, holds, operations := map[], map[], [];
    }

    function View(): Database
      reads this
    {
      Database(partitions, holds, operations)
    }

    /** A hold in force is left alone; a released one is placed anew. */
    method PlaceHold(trajectoryId: string, actor: string, reason: Option<string>, now: int) returns (outcome: PlaceOutcome)
      modifies this`holds
      ensures holds == PlaceStep(old(holds), trajectoryId, actor, reason, now)
      ensures outcome == AlreadyHeld <==> UnderHold(old(holds), trajectoryId)
      ensures UnderHold(holds, trajectoryId) && (outcome == AlreadyHeld ==> holds == old(holds))
      ensures outcome == Held ==> holds[trajectoryId] == Hold(actor, reason, now, None, None)
      ensures forall t :: t in old(holds) && t != trajectoryId ==> t in holds && holds[t] == old(holds)[t]
    {
      if trajectoryId in holds && holds[trajectoryId].releasedAt.None? {
        return AlreadyHeld;
      }
      if trajectoryId in holds {
        var existing := holds[trajectoryId];
        holds := holds[trajectoryId := existing.(releasedAt := None, releasedBy := None, placedBy := actor, reason := reason, placedAt := now)];
      } else {
        holds := holds[trajectoryId := Hold(actor, reason, now, None, None)];
      }
      outcome := Held;
    }

    method ReleaseHold(trajectoryId: string, actor: string, now: int) returns (outcome: ReleaseOutcome)
      modifies this`holds
      ensures holds == ReleaseStep(old(holds), trajectoryId, actor, now)
      ensures outcome == NotFound <==> !UnderHold(old(holds), trajectoryId)
      ensures !UnderHold(holds, trajectoryId) && (outcome == NotFound ==> holds == old(holds))
      ensures outcome == Released ==> trajectoryId in old(holds) && trajectoryId in holds
      ensures outcome == Released ==>
                holds[trajectoryId] == old(holds)[trajectoryId].(releasedAt := Some(now), releasedBy := Some(actor))
      ensures forall t :: t in old(holds) && t != trajectoryId ==> t in holds && holds[t] == old(holds)[t]
    {
      if trajectoryId !in holds || holds[trajectoryId].releasedAt.Some? {
        return NotFound;
      }
      holds := holds[trajectoryId := holds[trajectoryId].(releasedAt := Some(now), releasedBy := Some(actor))];
      outcome := Released;
    }

    method RunRetention(settings: Settings, now: int, names: seq<string>) returns (report: Report)
      requires Distinct(names) && (forall n :: n in names <==> n in partitions)
      modifies this`partitions, this`operations
      ensures Swept(settings, old(View()), now, names, partitions)
      ensures operations == old(operations) + AllOps(settings, old(View()), now, names)
      ensures Reports(report, AllOps(settings, old(View()), now, names))
    {
      hide Survivors, SweepOps, Swept, Drops, Reports, AllOps;
      ghost var db := View();
      SweptNone(settings, db, now);
      report := Report([], map[]);
      ghost var ops: seq<Op> := [];
      for i := 0 to |names|
        invariant holds == db.holds && operations == db.operations + ops
        invariant ops == AllOps(settings, db, now, names[..i])
        invariant Swept(settings, db, now, names[..i], partitions)
        invariant Reports(report, ops)
      {
        var name := names[i];
        assert names[..i + 1] == names[..i] + [name];
        SweptOne(settings, db, now, names[..i], name, partitions);
        AllOpsAppend(settings, db, now, names[..i], name);
        report := SweepPartition(settings, now, name, report, ops);
        ops := ops + SweepOps(settings, holds, now, name, db.partitions[name]);
      }
      assert names[..|names|] == names;
    }

    method SweepPartition(settings: Settings, now: int, name: string, before: Report, ghost ops: seq<Op>) returns (report: Report)
      requires name in partitions && Reports(before, ops)
      modifies this`partitions, this`operations
      ensures var rows := old(partitions[name]);
              && partitions == (if Drops(settings, holds, now, rows) then old(partitions) - {name}
                                else old(partitions)[name := Survivors(settings, holds, now, rows)])
              && operations == old(operations) + SweepOps(settings, holds, now, name, rows)
              && Reports(report, ops + SweepOps(settings, holds, now, name, rows))
    {
      var rows := partitions[name];
      report := before;
      if rows == [] || AnyHeld(holds, rows) {
        assert ops + [] == ops && operations + [] == operations;
        return;
      }
      DropTest(settings, holds, now, rows);
      if |Classes(rows)| == 1 {
        var ttl := TtlFor(settings, rows[0].klass);
        if ttl.Some? && MaxEnd(rows) + ttl.value < now {
          partitions := partitions - {name};
          operations := operations + [DropPartition(name, rows[0].klass)];
          report := report.(dropped := report.dropped + [name]);
          ReportsOne(before, ops, DropPartition(name, rows[0].klass));
          return;
        }
      }
      report := DeleteExpired(settings, now, name, before, ops);
      SlowPathKeeps(settings, holds, now, rows);
    }

    method DeleteExpired(settings: Settings, now: int, name: string, before: Report, ghost ops: seq<Op>) returns (report: Report)
      requires name in partitions && Reports(before, ops)
      modifies this`partitions, this`operations
      ensures var rows := old(partitions[name]);
              var added := DeleteOps(settings, holds, now, name, DELETABLE, rows);
              && partitions == old(partitions)[name := RowDelete(settings, holds, now, DELETABLE, rows)]
              && operations == old(operations) + added
              && Reports(report, ops + added)
    {
      hide Reports, Deleted, Remaining, TtlFor;
      ghost var was, log, rows := partitions, operations, partitions[name];
      report := before;
      ghost var added: seq<Op> := [];
      assert ops + added == ops && log + added == log;
      assert was == was[name := rows];
      for j := 0 to |DELETABLE|
        invariant partitions == was[name := RowDelete(settings, holds, now, DELETABLE[..j], rows)]
        invariant added == DeleteOps(settings, holds, now, name, DELETABLE[..j], rows)
        invariant operations == log + added && Reports(report, ops + added)
      {
        var klass := DELETABLE[j];
        assert DELETABLE[..j + 1][..j] == DELETABLE[..j];
        HasTtl(settings, klass);
        var ttl := TtlFor(settings, klass);
        if ttl.Some? {
          var n := |Where(Deleted(settings, holds, now, klass), partitions[name])|;
          partitions := partitions[name := Where(Remaining(settings, holds, now, klass), partitions[name])];
          if n > 0 {
            var op := DeleteRows(name, n, klass);
            ReportsOne(report, ops + added, op);
            var sum := if klass in report.rowsDeleted then report.rowsDeleted[klass] else 0;
            report := report.(rowsDeleted := report.rowsDeleted[klass := sum + n]);
            operations := operations + [op];
            SameAppend(ops, added, op);
            SameAppend(log, added, op);
            added := added + [op];
          }
        }
      }
      assert DELETABLE[..|DELETABLE|] == DELETABLE;
    }
  }

  lemma {:induction false} HasTtl(settings: Settings, klass: Class)
    ensures TtlFor(settings, klass).Some? <==> klass in DELETABLE
  {
  }

  lemma {:induction false} SameAppend<T>(a: seq<T>, b: seq<T>, x: T)
    ensures a + (b + [x]) == (a + b) + [x]
  {
  }

  function PlaceStep(holds: Holds, trajectoryId: string, actor: string, reason: Option<string>, now: int): Holds {
    if Active(holds, trajectoryId) then holds else holds[trajectoryId := Hold(actor, reason, now, None, None)]
  }

  function ReleaseStep(holds: Holds, trajectoryId: string, actor: string, now: int): Holds {
    if Active(holds, trajectoryId)
    then holds[trajectoryId := holds[trajectoryId].(releasedAt := Some(now), releasedBy := Some(actor))]
    else holds
  }
}
