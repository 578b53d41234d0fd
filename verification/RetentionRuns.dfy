/** Retention passes among hold changes and ingest: what is removed, what is counted, and what a hold guarantees. */
module RetentionRuns {
  import opened Wrappers
  import opened Sorting
  import opened Retention

  datatype Step =
    | Placed(trajectoryId: string, actor: string, reason: Option<string>, now: int)
    | Released(trajectoryId: string, actor: string, now: int)
    | PartitionAdded(name: string)
    | Ingested(name: string, row: Row)
    | Retained(now: int)

  /** A whole pass, as a function. */
  ghost function RetainStep(settings: Settings, db: Database, now: int): map<string, seq<Row>> {
    map n | n in db.partitions && !Drops(settings, db.holds, now, db.partitions[n])
      :: Survivors(settings, db.holds, now, db.partitions[n])
  }

  ghost function Apply(settings: Settings, db: Database, step: Step): Database {
    match step
    case Placed(t, actor, reason, now) => db.(holds := PlaceStep(db.holds, t, actor, reason, now))
    case Released(t, actor, now) => db.(holds := ReleaseStep(db.holds, t, actor, now))
    case PartitionAdded(name) => if name in db.partitions then db else db.(partitions := db.partitions[name := []])
    case Ingested(name, row) =>
      if name in db.partitions then db.(partitions := db.partitions[name := db.partitions[name] + [row]]) else db
    case Retained(now) => db.(partitions := RetainStep(settings, db, now))
  }

  ghost function Run(settings: Settings, db: Database, steps: seq<Step>): Database {
    if steps == [] then db else Apply(settings, Run(settings, db, steps[..|steps| - 1]), steps[|steps| - 1])
  }

  function RowsAt(partitions: map<string, seq<Row>>, name: string): seq<Row> {
    if name in partitions then partitions[name] else []
  }

  /** Whatever order the partitions are listed in, a pass ends in the same rows. */
  lemma {:induction false} SweptIsRetain(settings: Settings, db: Database, now: int, names: seq<string>, after: map<string, seq<Row>>)
    requires Swept(settings, db, now, names, after) && (forall n :: n in names <==> n in db.partitions)
    ensures after == RetainStep(settings, db, now)
  {
    hide Drops, Survivors;
  }

  /** The worker's pass, in whatever order the partitions are listed, is the run's step. */
  method Pass(store: Store, settings: Settings, now: int, names: seq<string>) returns (report: Report)
    requires forall i, j :: 0 <= i < j < |names| ==> names[i] != names[j]
    requires forall n :: n in names <==> n in store.partitions
    modifies store`partitions, store`operations
    ensures store.partitions == Apply(settings, old(store.View()), Retained(now)).partitions
    ensures store.holds == old(store.holds)
    ensures Reports(report, AllOps(settings, old(store.View()), now, names))
  {
    hide Swept, Reports, AllOps;
    report := store.RunRetention(settings, now, names);
    SweptIsRetain(settings, old(store.View()), now, names, store.partitions);
  }

  lemma {:induction false} RowsAfterPass(settings: Settings, db: Database, now: int, name: string)
    ensures RowsAt(RetainStep(settings, db, now), name) == Survivors(settings, db.holds, now, RowsAt(db.partitions, name))
  {
    if name in db.partitions && Drops(settings, db.holds, now, db.partitions[name]) {
      DropEqualsDelete(settings, db.holds, now, db.partitions[name]);
    }
  }

  /** Exactly which rows a pass removes: those past their window in partitions without a trajectory under hold.
      So a removed row is not under hold and not of the class that is never deleted. */
  lemma {:induction false} PassRemovesExactly(settings: Settings, db: Database, now: int, name: string, r: Row)
    requires r in RowsAt(db.partitions, name)
    ensures var gone := r !in RowsAt(RetainStep(settings, db, now), name);
            && (gone <==> Past(settings, now, r) && !SomeUnderHold(db.holds, RowsAt(db.partitions, name)))
            && (gone ==> !UnderHold(db.holds, r.trajectoryId) && r.klass != LitigationHold)
  {
    var rows := RowsAt(db.partitions, name);
    RetentionTerms(settings, db.holds, now, rows);
    RowsAfterPass(settings, db, now, name);
    WhereMembers(Unexpired(settings, now), rows, r);
    assert !AnyHeld(db.holds, rows) ==> !Active(db.holds, r.trajectoryId);
  }

  /** Exactly which partitions a pass drops: those with rows, none under hold, all past their window and of one class. */
  lemma {:induction false} PassDropsExactly(settings: Settings, db: Database, now: int, name: string)
    requires name in db.partitions
    ensures var rows := db.partitions[name];
            name !in RetainStep(settings, db, now) <==>
              && |rows| > 0 && !SomeUnderHold(db.holds, rows)
              && forall i, j :: 0 <= i < |rows| && 0 <= j < |rows| ==> Past(settings, now, rows[i]) && rows[i].klass == rows[j].klass
  {
    var rows := db.partitions[name];
    RetentionTerms(settings, db.holds, now, rows);
    if Drops(settings, db.holds, now, rows) {
      forall i | 0 <= i < |rows| ensures Past(settings, now, rows[i]) && rows[i].klass == rows[0].klass {
        assert rows[i] in rows;
      }
    }
  }

  // ---- hold safety ----

  function OfTrajectory(t: string): Row -> bool {
    (r: Row) => r.trajectoryId == t
  }

  predicate IsPrefix<T(==)>(a: seq<T>, b: seq<T>) {
    |a| <= |b| && b[..|a|] == a
  }

  /** The hold on t is in force before every step. */
  ghost predicate HeldThroughout(settings: Settings, db: Database, steps: seq<Step>, t: string) {
    forall i :: 0 <= i < |steps| ==> Active(Run(settings, db, steps[..i]).holds, t)
  }

  lemma {:induction false} StepKeepsHeldRows(settings: Settings, db: Database, step: Step, t: string, name: string)
    requires Active(db.holds, t)
    ensures IsPrefix(Where(OfTrajectory(t), RowsAt(db.partitions, name)),
                     Where(OfTrajectory(t), RowsAt(Apply(settings, db, step).partitions, name)))
  {
    var rows := RowsAt(db.partitions, name);
    match step
    case Retained(now) =>
      RowsAfterPass(settings, db, now, name);
      if !AnyHeld(db.holds, rows) {
        WhereNone(OfTrajectory(t), rows);
      }
    case Ingested(at, row) => WhereAppend(OfTrajectory(t), rows, row);
    case _ =>
  }

  /** Over any run of hold changes, ingest and passes, a trajectory under an active hold never loses a row:
      in every partition its rows at the end begin with its rows at the start. */
  lemma {:induction false} HeldTrajectoryLosesNothing(settings: Settings, db: Database, steps: seq<Step>, t: string, name: string)
    requires HeldThroughout(settings, db, steps, t)
    ensures IsPrefix(Where(OfTrajectory(t), RowsAt(db.partitions, name)),
                     Where(OfTrajectory(t), RowsAt(Run(settings, db, steps).partitions, name)))
  {
    if steps != [] {
      var init, last := steps[..|steps| - 1], steps[|steps| - 1];
      forall i | 0 <= i < |init| ensures Active(Run(settings, db, init[..i]).holds, t) {
        assert init[..i] == steps[..i];
      }
      HeldTrajectoryLosesNothing(settings, db, init, t, name);
      StepKeepsHeldRows(settings, Run(settings, db, init), last, t, name);
    }
  }

  /** A placed hold stays in force until its own release. */
  lemma {:induction false} HoldStaysUntilReleased(settings: Settings, db: Database, steps: seq<Step>, t: string)
    requires Active(db.holds, t) && (forall s :: s in steps && s.Released? ==> s.trajectoryId != t)
    ensures HeldThroughout(settings, db, steps, t) && Active(Run(settings, db, steps).holds, t)
  {
    if steps != [] {
      var init, last := steps[..|steps| - 1], steps[|steps| - 1];
      assert last in steps;
      HoldStaysUntilReleased(settings, db, init, t);
      forall i | 0 <= i < |steps| ensures Active(Run(settings, db, steps[..i]).holds, t) {
        if i < |init| {
          assert init[..i] == steps[..i];
        }
      }
    }
  }

  // ---- late passes ----

  lemma {:induction false} HeldAfterPass(settings: Settings, holds: Holds, now: int, rows: seq<Row>)
    ensures AnyHeld(holds, Survivors(settings, holds, now, rows)) <==> AnyHeld(holds, rows)
  {
    if !AnyHeld(holds, rows) {
      forall r | r in Where(Unexpired(settings, now), rows) ensures !Active(holds, r.trajectoryId) {
        WhereMembers(Unexpired(settings, now), rows, r);
      }
    }
  }

  /** Missing a pass costs nothing: a later one alone leaves the same rows as an earlier one and then the later. */
  lemma {:induction false} LatePassCatchesUp(settings: Settings, db: Database, earlier: int, later: int, name: string)
    requires earlier <= later
    ensures var between := db.(partitions := RetainStep(settings, db, earlier));
            RowsAt(RetainStep(settings, between, later), name) == RowsAt(RetainStep(settings, db, later), name)
  {
    var rows := RowsAt(db.partitions, name);
    var between := db.(partitions := RetainStep(settings, db, earlier));
    RowsAfterPass(settings, db, earlier, name);
    RowsAfterPass(settings, db, later, name);
    RowsAfterPass(settings, between, later, name);
    HeldAfterPass(settings, db.holds, earlier, rows);
    if !AnyHeld(db.holds, rows) {
      WhereTwice(Unexpired(settings, earlier), Unexpired(settings, later), Unexpired(settings, later), rows);
    }
  }

  // ---- the books ----

  function Deletions(ops: seq<Op>): nat {
    Tally(ops, Transient) + Tally(ops, Standard) + Tally(ops, Extended)
  }

  lemma {:induction false} TallyAppend(a: seq<Op>, b: seq<Op>, k: Class)
    ensures Tally(a + b, k) == Tally(a, k) + Tally(b, k)
  {
    if b == [] {
      assert a + b == a;
    } else {
      assert (a + b)[..|a + b| - 1] == a + b[..|b| - 1];
      TallyAppend(a, b[..|b| - 1], k);
    }
  }

  lemma {:induction false} DeleteOpsTally(settings: Settings, holds: Holds, now: int, name: string, classes: seq<Class>, rows: seq<Row>)
    requires LitigationHold !in classes
    ensures var left := RowDelete(settings, holds, now, classes, rows);
            |rows| == |left| + Deletions(DeleteOps(settings, holds, now, name, classes, rows))
  {
    if classes != [] {
      var k, init := classes[|classes| - 1], classes[..|classes| - 1];
      DeleteOpsTally(settings, holds, now, name, init, rows);
      var before := RowDelete(settings, holds, now, init, rows);
      WhereSplit(Remaining(settings, holds, now, k), Deleted(settings, holds, now, k), before);
      var n := |Where(Deleted(settings, holds, now, k), before)|;
      var ops := DeleteOps(settings, holds, now, name, init, rows);
      TallyOne(ops, DeleteRows(name, n, k));
      assert k in classes && ops + [] == ops;
    }
  }

  lemma {:induction false} TallyOne(ops: seq<Op>, op: Op)
    requires op.DeleteRows? && op.klass != LitigationHold
    ensures Deletions(ops + [op]) == Deletions(ops) + op.spans
  {
    assert (ops + [op])[..|ops|] == ops;
  }

  ghost function RowsIn(partitions: map<string, seq<Row>>, names: seq<string>): nat {
    if names == [] then 0 else RowsIn(partitions, names[..|names| - 1]) + |RowsAt(partitions, names[|names| - 1])|
  }

  /** Rows that went with a dropped partition; the operations log counts none of them. */
  ghost function DroppedRows(settings: Settings, db: Database, now: int, names: seq<string>): nat {
    if names == [] then 0
    else
      var rows := RowsAt(db.partitions, names[|names| - 1]);
      DroppedRows(settings, db, now, names[..|names| - 1]) + if Drops(settings, db.holds, now, rows) then |rows| else 0
  }

  lemma {:induction false} DropCountsNothing(op: Op)
    requires op.DropPartition?
    ensures Deletions([op]) == 0
  {
    assert forall k :: Tally([op], k) == Tally([op][..|[op]| - 1], k);
    assert [op][..|[op]| - 1] == [];
  }

  lemma {:induction false} SweepConserves(settings: Settings, holds: Holds, now: int, name: string, rows: seq<Row>)
    ensures |rows| == |Survivors(settings, holds, now, rows)| + Deletions(SweepOps(settings, holds, now, name, rows))
                      + if Drops(settings, holds, now, rows) then |rows| else 0
  {
    if rows != [] && !AnyHeld(holds, rows) {
      DropTest(settings, holds, now, rows);
      SlowPathKeeps(settings, holds, now, rows);
      if Droppable(settings, now, rows) {
        DropEqualsDelete(settings, holds, now, rows);
        DropCountsNothing(DropPartition(name, rows[0].klass));
      } else {
        DeleteOpsTally(settings, holds, now, name, DELETABLE, rows);
      }
    }
  }

  /** Every row is accounted for: it survives, is in the logged row deletions, or left with a dropped partition. */
  lemma {:induction false} PassConserves(settings: Settings, db: Database, now: int, names: seq<string>)
    requires forall n :: n in names ==> n in db.partitions
    ensures RowsIn(db.partitions, names)
            == RowsIn(RetainStep(settings, db, now), names) + Deletions(AllOps(settings, db, now, names))
               + DroppedRows(settings, db, now, names)
  {
    if names != [] {
      var init, name := names[..|names| - 1], names[|names| - 1];
      PassConserves(settings, db, now, init);
      RowsAfterPass(settings, db, now, name);
      SweepConserves(settings, db.holds, now, name, db.partitions[name]);
      var ops, more := AllOps(settings, db, now, init), SweepOps(settings, db.holds, now, name, db.partitions[name]);
      TallyAppend(ops, more, Transient);
      TallyAppend(ops, more, Standard);
      TallyAppend(ops, more, Extended);
    }
  }
}
