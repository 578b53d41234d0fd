/** Keyset paging over the trajectory list, and the client's loop that reads every page. */
module Paging {
  import opened Wrappers
  import opened Spans
  import opened Sorting
  import opened Cursors
  import Attestation

  datatype Summary = Summary(id: string, firstStart: int, lastEnd: int, count: nat)

  // ---- the list without pages ----

  function FirstStart(rows: seq<Span>): (m: int)
    requires rows != []
    ensures (forall s :: s in rows ==> m <= s.content.startTime) && exists s :: s in rows && s.content.startTime == m
  {
    var init, last := rows[..|rows| - 1], rows[|rows| - 1];
    assert rows == init + [last];
    if init == [] then last.content.startTime
    else if last.content.startTime < FirstStart(init) then last.content.startTime else FirstStart(init)
  }

  function LastEnd(rows: seq<Span>): (m: int)
    requires rows != []
    ensures (forall s :: s in rows ==> s.content.endTime <= m) && exists s :: s in rows && s.content.endTime == m
  {
    var init, last := rows[..|rows| - 1], rows[|rows| - 1];
    assert rows == init + [last];
    if init == [] then last.content.endTime
    else if last.content.endTime > LastEnd(init) then last.content.endTime else LastEnd(init)
  }

  function Summarize(rows: seq<Span>, id: string): (s: Summary)
    ensures s.id == id
  {
    var own := Where(Attestation.OfTrajectory(id), rows);
    if own == [] then Summary(id, 0, 0, 0) else Summary(id, FirstStart(own), LastEnd(own), |own|)
  }

  /** The summary of a trajectory: when its first row starts, when its last one ends, and how many there are. */
  ghost predicate Summarizes(rows: seq<Span>, keep: Span -> bool, g: Summary) {
    && g.count == |set i | 0 <= i < |rows| && keep(rows[i]) && rows[i].content.trajectoryId == g.id|
    && (exists s :: s in rows && keep(s) && s.content.trajectoryId == g.id && s.content.startTime == g.firstStart)
    && (exists s :: s in rows && keep(s) && s.content.trajectoryId == g.id && s.content.endTime == g.lastEnd)
    && (forall s :: s in rows && keep(s) && s.content.trajectoryId == g.id ==>
          g.firstStart <= s.content.startTime && s.content.endTime <= g.lastEnd)
  }

  lemma {:induction false} SummaryExactly(rows: seq<Span>, keep: Span -> bool, id: string)
    requires Matches(rows, keep, id)
    ensures Summarizes(rows, keep, Summarize(Where(keep, rows), id))
  {
    var both := (s: Span) => keep(s) && s.content.trajectoryId == id;
    var kept := Where(keep, rows);
    WhereTwice(keep, Attestation.OfTrajectory(id), both, rows);
    var own := Where(Attestation.OfTrajectory(id), kept);
    assert own == Where(both, rows);
    forall s ensures s in own <==> s in rows && both(s) {
      WhereMembers(both, rows, s);
    }
    WhereSize(both, rows);
    assert Places(both, rows) == set i | 0 <= i < |rows| && keep(rows[i]) && rows[i].content.trajectoryId == id;
  }

  /** GROUP BY trajectory_id over the rows that pass the filters. */
  function Groups(rows: seq<Span>, keep: Span -> bool): (g: seq<Summary>)
    ensures |g| == |Attestation.FirstSeen(Where(keep, rows))|
  {
    var kept := Where(keep, rows);
    var ids := Attestation.FirstSeen(kept);
    seq(|ids|, i requires 0 <= i < |ids| => Summarize(kept, ids[i]))
  }

  /** ORDER BY first_start DESC, trajectory_id DESC. */
  predicate Newer(a: Summary, b: Summary) {
    a.firstStart > b.firstStart || (a.firstStart == b.firstStart && StringLess(b.id, a.id))
  }

  function SummaryIds(s: seq<Summary>): (ids: seq<string>)
    ensures |ids| == |s|
  {
    seq(|s|, i requires 0 <= i < |s| => s[i].id)
  }

  predicate Matches(rows: seq<Span>, keep: Span -> bool, id: string) {
    exists s :: s in rows && keep(s) && s.content.trajectoryId == id
  }

  function FullList(rows: seq<Span>, keep: Span -> bool): seq<Summary> {
    SortBy(Newer, Groups(rows, keep))
  }

  // ---- one page ----

  /** HAVING (first_start, trajectory_id) < cursor; no cursor lets everything through. */
  function Behind(c: Option<Cursor>): Summary -> bool {
    (s: Summary) => c.None? || s.firstStart < c.value.afterTime
                    || (s.firstStart == c.value.afterTime && StringLess(s.id, c.value.afterId))
  }

  function Take<T>(s: seq<T>, n: nat): seq<T> {
    if |s| <= n then s else s[..n]
  }

  /** The page's rows, and the cursor behind the last of them if the page is full. */
  method ListTrajectories(clock: Clock, rows: seq<Span>, keep: Span -> bool, raw: Option<string>, limit: nat)
      returns (items: seq<Summary>, next: Option<string>)
    requires forall s: Span :: s in rows ==> Ascii(s.content.trajectoryId)
    requires Faithful(clock)
    ensures items == Take(SortBy(Newer, Where(Behind(Decode(clock, raw)), Groups(rows, keep))), limit)
    ensures |items| == limit && items != [] ==>
              var last := items[|items| - 1];
              next.Some? && next.value != "" && Decode(clock, next) == Some(Cursor(last.firstStart, last.id))
    ensures !(|items| == limit && items != []) ==> next.None?
  {
    hide Decode, Encode, Groups, Cursors.Payload;
    var cursor := Decode(clock, raw);
    var matching := SortBy(Newer, Where(Behind(cursor), Groups(rows, keep)));
    items := Take(matching, limit);
    next := None;
    if |items| == limit && items != [] {
      var last := items[|items| - 1];
      assert last in matching;
      SortIsPermutation(Newer, Where(Behind(cursor), Groups(rows, keep)));
      WhereMembers(Behind(cursor), Groups(rows, keep), last);
      GroupIds(rows, keep, last);
      CursorRoundTrip(clock, Cursor(last.firstStart, last.id));
      next := Some(Encode(clock, Cursor(last.firstStart, last.id)));
    }
  }

  lemma {:induction false} GroupIds(rows: seq<Span>, keep: Span -> bool, g: Summary)
    requires g in Groups(rows, keep)
    ensures Matches(rows, keep, g.id) && g == Summarize(Where(keep, rows), g.id)
  {
    var kept := Where(keep, rows);
    var ids := Attestation.FirstSeen(kept);
    var i :| 0 <= i < |ids| && Groups(rows, keep)[i] == g;
    assert ids[i] in ids;
    var s :| s in kept && s.content.trajectoryId == g.id;
    WhereMembers(keep, rows, s);
  }

  // ---- the list in full ----

  lemma {:induction false} NewerIsOrder()
    ensures StrictWeakOrder(Newer)
  {
    StringLessIsOrder();
    forall x: Summary ensures !Newer(x, x) {
      StringLessIsTotal(x.id, x.id);
    }
  }

  /** The full list strictly descends in (first start, id) and has exactly one entry per matching trajectory. */
  lemma {:induction false} FullListIsComplete(rows: seq<Span>, keep: Span -> bool)
    ensures var full := FullList(rows, keep);
            && (forall i, j :: 0 <= i < j < |full| ==> Newer(full[i], full[j]) && full[i].id != full[j].id)
            && (forall i, j :: 0 <= i < j < |full| ==> Descends(full[i], full[j]))
            && (forall id :: id in SummaryIds(full) <==> Matches(rows, keep, id))
            && (forall g :: g in full ==> Summarizes(rows, keep, g))
  {
    hide StrictWeakOrder, SortBy, Where, Newer;
    var groups, full := Groups(rows, keep), FullList(rows, keep);
    NewerIsOrder();
    SortIsSorted(Newer, groups);
    SortIsPermutation(Newer, groups);
    GroupsDistinct(rows, keep);
    forall i, j | 0 <= i < j < |full| ensures Newer(full[i], full[j]) && full[i].id != full[j].id {
      DistinctPlaces(groups, full, i, j);
      assert !Newer(full[j], full[i]);
      NewerIsTotal(full[i], full[j]);
    }
    forall i, j | 0 <= i < j < |full| ensures Descends(full[i], full[j]) {
      NewerDescends(full[i], full[j]);
    }
    forall g | g in full ensures Summarizes(rows, keep, g) {
      GroupIds(rows, keep, g);
      SummaryExactly(rows, keep, g.id);
    }
    forall id ensures id in SummaryIds(full) <==> Matches(rows, keep, id) {
      if id in SummaryIds(full) {
        var i :| 0 <= i < |full| && SummaryIds(full)[i] == id;
        assert full[i] in groups;
        GroupIds(rows, keep, full[i]);
      }
      if s :| s in rows && keep(s) && s.content.trajectoryId == id {
        var g := GroupOf(rows, keep, s);
        var i :| 0 <= i < |full| && full[i] == g;
        assert SummaryIds(full)[i] == id;
      }
    }
  }

  /** Later first starts come first, and among equal ones the larger id. */
  ghost predicate Descends(a: Summary, b: Summary) {
    b.firstStart < a.firstStart || (a.firstStart == b.firstStart && Precedes(b.id, a.id))
  }

  lemma {:induction false} NewerDescends(a: Summary, b: Summary)
    requires Newer(a, b)
    ensures Descends(a, b)
  {
    StringLessExactlyWhen(b.id, a.id);
  }

  lemma {:induction false} NewerIsTotal(a: Summary, b: Summary)
    requires a.id != b.id
    ensures Newer(a, b) || Newer(b, a)
  {
    StringLessIsTotal(a.id, b.id);
  }

  lemma {:induction false} GroupOf(rows: seq<Span>, keep: Span -> bool, s: Span) returns (g: Summary)
    requires s in rows && keep(s)
    ensures g in Groups(rows, keep) && g.id == s.content.trajectoryId
  {
    var kept := Where(keep, rows);
    WhereMembers(keep, rows, s);
    var ids := Attestation.FirstSeen(kept);
    assert s.content.trajectoryId in ids;
    var i :| 0 <= i < |ids| && ids[i] == s.content.trajectoryId;
    g := Groups(rows, keep)[i];
  }

  lemma {:induction false} GroupsDistinct(rows: seq<Span>, keep: Span -> bool)
    ensures var g := Groups(rows, keep); forall i, j :: 0 <= i < j < |g| ==> g[i].id != g[j].id
  {
  }

  lemma {:induction false} DistinctPlaces(a: seq<Summary>, b: seq<Summary>, i: nat, j: nat)
    requires multiset(a) == multiset(b) && i < j < |b|
    requires forall i, j :: 0 <= i < j < |a| ==> a[i].id != a[j].id
    ensures b[i].id != b[j].id
  {
    PermutedDistinct(a, b, i, j);
    assert b[i] in multiset(a) && b[j] in multiset(a);
    var k :| 0 <= k < |a| && a[k] == b[i];
    var l :| 0 <= l < |a| && a[l] == b[j];
  }

  // ---- reading all pages ----

  /** What lies behind the k-th entry is the rest of the list. */
  lemma {:induction false} RestBehind(full: seq<Summary>, k: nat)
    requires k <= |full| && forall i, j :: 0 <= i < j < |full| ==> Newer(full[i], full[j])
    ensures var c := if k == 0 then None else Some(Cursor(full[k - 1].firstStart, full[k - 1].id));
            Where(Behind(c), full) == full[k..]
  {
    var c := if k == 0 then None else Some(Cursor(full[k - 1].firstStart, full[k - 1].id));
    assert full == full[..k] + full[k..];
    WhereConcat(Behind(c), full[..k], full[k..]);
    WhereAll(Behind(c), full[k..]);
    forall s | s in full[..k] ensures !Behind(c)(s) {
      var i :| 0 <= i < k && full[i] == s;
      StringLessIsTotal(full[i].id, full[k - 1].id);
    }
    WhereNone(Behind(c), full[..k]);
  }

  lemma {:induction false} PageOfRest(rows: seq<Span>, keep: Span -> bool, k: nat)
    requires k <= |FullList(rows, keep)|
    ensures var full := FullList(rows, keep);
            var c := if k == 0 then None else Some(Cursor(full[k - 1].firstStart, full[k - 1].id));
            SortBy(Newer, Where(Behind(c), Groups(rows, keep))) == full[k..]
  {
    var full := FullList(rows, keep);
    var c := if k == 0 then None else Some(Cursor(full[k - 1].firstStart, full[k - 1].id));
    NewerIsOrder();
    FullListIsComplete(rows, keep);
    RestBehind(full, k);
    WhereOfSort(Newer, Behind(c), Groups(rows, keep));
  }

  /** The paging loop ends and has read the full list, whatever the page size. */
  method ListTrajectoryIds(clock: Clock, rows: seq<Span>, keep: Span -> bool, limit: nat) returns (ids: seq<string>)
    requires limit >= 1 && Faithful(clock)
    requires forall s: Span :: s in rows ==> Ascii(s.content.trajectoryId)
    ensures ids == SummaryIds(FullList(rows, keep))
  {
    hide Decode, Groups, FullList, SortBy, SummaryIds, Take;
    NoIds();
    ghost var full := FullList(rows, keep);
    ids := [];
    var cursor: Option<string> := None;
    assert Decode(clock, None) == None by { NoCursor(clock); }
    while true
      invariant |ids| <= |full| && ids == SummaryIds(full[..|ids|])
      invariant |ids| == 0 ==> Decode(clock, cursor) == None
      invariant |ids| > 0 ==> Decode(clock, cursor) == Some(Cursor(full[|ids| - 1].firstStart, full[|ids| - 1].id))
      decreases |full| - |ids|
    {
      PageOfRest(rows, keep, |ids|);
      ghost var k := |ids|;
      var items, next := ListTrajectories(clock, rows, keep, cursor, limit);
      PageExtends(full, k, ids, items, limit);
      ids := ids + SummaryIds(items);
      cursor := next;
      if cursor.None? || cursor.value == "" {
        return;
      }
    }
  }

  lemma {:induction false} PageExtends(full: seq<Summary>, k: nat, ids: seq<string>, items: seq<Summary>, limit: nat)
    requires k <= |full| && ids == SummaryIds(full[..k]) && items == Take(full[k..], limit) && limit >= 1
    ensures var m := k + |items|;
            && |items| <= limit && m <= |full| && ids + SummaryIds(items) == SummaryIds(full[..m])
            && (|items| < limit || items == [] ==> m == |full| && full[..m] == full)
            && (items != [] ==> full[m - 1] == items[|items| - 1])
  {
    assert items == full[k..][..|items|];
    assert full[..k + |items|] == full[..k] + items;
  }

  lemma NoIds()
    ensures SummaryIds([]) == []
  {
  }

  lemma NoCursor(clock: Clock)
    ensures Decode(clock, None) == None
  {
  }
}
