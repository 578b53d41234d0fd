/** Free-text redaction: longest matches win, and the winners are spliced out from right to left. */
module PatternRedactor {
  import opened Wrappers
  import opened Sorting
  import opened Redaction

  datatype Match = Match(recognizer: string, start: nat, end: nat, value: string)

  datatype Recognizer = Recognizer(name: string, fieldType: string, findAll: string -> seq<Match>)

  predicate InRange(text: string, m: Match) {
    m.start < m.end <= |text| && m.value == text[m.start..m.end]
  }

  /** Recognizers report non-empty ranges of the text under their own name. */
  ghost predicate WellBehaved(recognizers: seq<Recognizer>, text: string) {
    forall r, m :: r in recognizers && m in r.findAll(text) ==> InRange(text, m) && m.recognizer == r.name
  }

  function AllMatches(recognizers: seq<Recognizer>, text: string): seq<Match> {
    if recognizers == [] then []
    else AllMatches(recognizers[..|recognizers| - 1], text) + recognizers[|recognizers| - 1].findAll(text)
  }

  // ---- overlap resolution ----

  predicate Overlap(a: Match, b: Match) {
    !(a.end <= b.start || a.start >= b.end)
  }

  predicate Longer(a: Match, b: Match) {
    a.end - a.start > b.end - b.start || (a.end - a.start == b.end - b.start && a.start < b.start)
  }

  function Greedy(sorted: seq<Match>): seq<Match> {
    if sorted == [] then []
    else
      var keepers, m := Greedy(sorted[..|sorted| - 1]), sorted[|sorted| - 1];
      if exists k :: k in keepers && Overlap(m, k) then keepers else keepers + [m]
  }

  function ResolveOverlaps(matches: seq<Match>): seq<Match> {
    Greedy(SortBy(Longer, matches))
  }

  /** Each begins before the other ends. */
  predicate Meet(a: Match, b: Match) {
    a.start < b.end && b.start < a.end
  }

  /** k is longer, or as long and begins no later. */
  predicate Beats(k: Match, m: Match) {
    k.end - k.start > m.end - m.start || (k.end - k.start == m.end - m.start && k.start <= m.start)
  }

  ghost predicate Disjoint(ms: seq<Match>) {
    forall i, j :: 0 <= i < j < |ms| ==> !Meet(ms[i], ms[j])
  }

  /** A pairwise disjoint selection in which whatever was left out meets something kept that is longer, or as long and
      begins no later. */
  ghost predicate IsResolution(matches: seq<Match>, kept: seq<Match>) {
    && Disjoint(kept)
    && (forall m :: m in kept ==> m in matches)
    && (forall m :: m in matches && m !in kept ==> exists k :: k in kept && Meet(m, k) && Beats(k, m))
  }

  lemma {:induction false} LongerIsOrder()
    ensures StrictWeakOrder(Longer)
  {
  }

  lemma {:induction false} GreedyKeeps(sorted: seq<Match>)
    requires SortedBy(Longer, sorted)
    ensures IsResolution(sorted, Greedy(sorted))
  {
    hide IsResolution;
    if sorted == [] {
      NothingToResolve();
    } else {
      var init, m := sorted[..|sorted| - 1], sorted[|sorted| - 1];
      GreedyKeeps(init);
      assert sorted == init + [m];
      forall k | k in init ensures Beats(k, m) {
        var i :| 0 <= i < |init| && init[i] == k;
        assert !Longer(m, sorted[i]);
      }
      ResolveOneMore(init, Greedy(init), m);
    }
  }

  lemma {:induction false} NothingToResolve()
    ensures IsResolution([], [])
  {
  }

  lemma {:induction false} ResolveOneMore(before: seq<Match>, keepers: seq<Match>, m: Match)
    requires IsResolution(before, keepers)
    requires forall k :: k in before ==> Beats(k, m)
    ensures IsResolution(before + [m], if exists k :: k in keepers && Overlap(m, k) then keepers else keepers + [m])
  {
    if k :| k in keepers && Overlap(m, k) {
    } else {
      var kept := keepers + [m];
      forall i | 0 <= i < |keepers| ensures !Meet(kept[i], m) {
        assert keepers[i] in keepers && !Overlap(m, keepers[i]);
      }
      forall x | x in before && x !in kept ensures exists k :: k in kept && Meet(x, k) && Beats(k, x) {
        var k :| k in keepers && Meet(x, k) && Beats(k, x);
        assert k in kept;
      }
    }
  }

  lemma {:induction false} ResolutionOf(matches: seq<Match>)
    ensures IsResolution(matches, ResolveOverlaps(matches))
  {
    LongerIsOrder();
    SortIsSorted(Longer, matches);
    SortIsPermutation(Longer, matches);
    GreedyKeeps(SortBy(Longer, matches));
  }

  // ---- splicing ----

  predicate Later(a: Match, b: Match) {
    a.start > b.start
  }

  function FieldTypeOf(recognizers: seq<Recognizer>, name: string): string {
    if recognizers == [] then ""
    else if recognizers[0].name == name then recognizers[0].fieldType
    else FieldTypeOf(recognizers[1..], name)
  }

  function Replacement(recognizers: seq<Recognizer>, p: Policy, m: Match): Option<string> {
    var fieldType := FieldTypeOf(recognizers, m.recognizer);
    var s := StrategyFor(p, fieldType);
    if s.None? then None else Replace(s.value, m.value, fieldType)
  }

  /** The matches, listed right to left, do not touch each other and lie in the text. */
  ghost predicate RightToLeft(text: string, ms: seq<Match>) {
    && (forall i :: 0 <= i < |ms| ==> InRange(text, ms[i]))
    && (forall i, j :: 0 <= i < j < |ms| ==> ms[j].end <= ms[i].start)
  }

  /** The text from pos on, read left to right: untouched gaps and replacements in turn. */
  function LeftToRight(text: string, ms: seq<Match>, replace: Match -> string, pos: nat): string
    requires RightToLeft(text, ms) && pos <= |text| && (forall m :: m in ms ==> pos <= m.start)
  {
    if ms == [] then text[pos..]
    else
      var m := ms[|ms| - 1];
      text[pos..m.start] + replace(m) + LeftToRight(text, ms[..|ms| - 1], replace, m.end)
  }

  lemma {:induction false} LeadingGap(text: string, ms: seq<Match>, replace: Match -> string, pos: nat, to: nat)
    requires RightToLeft(text, ms) && pos <= to <= |text| && (forall m :: m in ms ==> to <= m.start)
    ensures LeftToRight(text, ms, replace, pos) == text[pos..to] + LeftToRight(text, ms, replace, to)
  {
    if ms == [] {
      assert text[pos..] == text[pos..to] + text[to..];
    } else {
      var m := ms[|ms| - 1];
      assert m in ms;
      var tail := LeftToRight(text, ms[..|ms| - 1], replace, m.end);
      assert text[pos..m.start] == text[pos..to] + text[to..m.start];
      Regroup(text[pos..to], text[to..m.start], replace(m), tail);
    }
  }

  lemma {:induction false} Regroup(a: string, b: string, c: string, d: string)
    ensures (a + b) + c + d == a + (b + c + d)
  {
  }

  /** One splice: the text is already rewritten right of m, and m's own range is still in place. */
  lemma {:induction false} SpliceOne(text: string, ms: seq<Match>, m: Match, replace: Match -> string, out: string)
    requires RightToLeft(text, ms + [m]) && RightToLeft(text, ms) && InRange(text, m) && out == LeftToRight(text, ms, replace, 0)
    ensures m.end <= |out|
    ensures out[..m.start] + replace(m) + out[m.end..] == LeftToRight(text, ms + [m], replace, 0)
  {
    var all := ms + [m];
    assert all[|ms|] == m;
    forall k | k in ms ensures m.end <= k.start {
      var i :| 0 <= i < |ms| && ms[i] == k;
      assert all[i] == k;
    }
    LeadingGap(text, ms, replace, 0, m.end);
    assert out == text[..m.end] + LeftToRight(text, ms, replace, m.end);
    assert out[m.end..] == LeftToRight(text, ms, replace, m.end);
    assert out[..m.start] == text[..m.start];
    assert all[..|all| - 1] == ms;
  }

  lemma {:induction false} SortedWinners(text: string, kept: seq<Match>)
    requires Disjoint(kept) && (forall m :: m in kept ==> InRange(text, m))
    ensures RightToLeft(text, SortBy(Later, kept))
    ensures multiset(SortBy(Later, kept)) == multiset(kept)
    ensures forall m :: m in SortBy(Later, kept) <==> m in kept
  {
    var ms := SortBy(Later, kept);
    assert StrictWeakOrder(Later);
    SortIsSorted(Later, kept);
    SortIsPermutation(Later, kept);
    forall i, j | 0 <= i < j < |ms| ensures ms[j].end <= ms[i].start {
      assert ms[i] in ms && ms[j] in ms;
      TwoOf(kept, ms, i, j);
      assert !Later(ms[j], ms[i]);
    }
    forall i | 0 <= i < |ms| ensures InRange(text, ms[i]) {
      assert ms[i] in ms;
    }
  }

  /** Two places of a permutation hold two different places of the original. */
  lemma {:induction false} TwoOf(kept: seq<Match>, ms: seq<Match>, i: nat, j: nat)
    requires Disjoint(kept) && (forall m :: m in kept ==> m.start < m.end)
    requires multiset(ms) == multiset(kept) && i < j < |ms|
    ensures !Overlap(ms[i], ms[j])
  {
    assert ms[i] in multiset(kept) && ms[j] in multiset(kept);
    var a :| 0 <= a < |kept| && kept[a] == ms[i];
    var b :| 0 <= b < |kept| && kept[b] == ms[j];
    if a == b {
      assert ms == ms[..i] + [ms[i]] + ms[i + 1..j] + [ms[j]] + ms[j + 1..];
      assert multiset(ms)[ms[i]] >= 2;
      OnceInDisjoint(kept, ms[i]);
    }
  }

  lemma {:induction false} OnceInDisjoint(kept: seq<Match>, m: Match)
    requires Disjoint(kept) && m.start < m.end
    ensures multiset(kept)[m] <= 1
  {
    if kept != [] {
      var init, last := kept[..|kept| - 1], kept[|kept| - 1];
      assert kept == init + [last];
      OnceInDisjoint(init, m);
      forall k | k in init ensures !Overlap(k, last) {
        var i :| 0 <= i < |init| && init[i] == k;
        assert !Overlap(kept[i], kept[|kept| - 1]);
      }
    }
  }

  function ReplacementOf(recognizers: seq<Recognizer>, p: Policy): Match -> string {
    (m: Match) => var r := Replacement(recognizers, p, m); if r.Some? then r.value else ""
  }

  method CollectMatches(recognizers: seq<Recognizer>, text: string) returns (matches: seq<Match>)
    ensures matches == AllMatches(recognizers, text)
  {
    matches := [];
    for i := 0 to |recognizers|
      invariant matches == AllMatches(recognizers[..i], text)
    {
      assert recognizers[..i + 1][..i] == recognizers[..i];
      matches := matches + recognizers[i].findAll(text);
    }
    assert recognizers[..|recognizers|] == recognizers;
  }

  method KeepLongest(matches: seq<Match>) returns (keepers: seq<Match>)
    ensures keepers == ResolveOverlaps(matches)
    ensures IsResolution(matches, keepers)
  {
    var sorted := SortBy(Longer, matches);
    keepers := [];
    for i := 0 to |sorted|
      invariant keepers == Greedy(sorted[..i])
    {
      assert sorted[..i + 1][..i] == sorted[..i];
      if !exists k :: k in keepers && Overlap(sorted[i], k) {
        keepers := keepers + [sorted[i]];
      }
    }
    assert sorted[..|sorted|] == sorted;
    ResolutionOf(matches);
  }

  lemma {:induction false} MatchesInRange(recognizers: seq<Recognizer>, text: string)
    requires WellBehaved(recognizers, text)
    ensures forall m :: m in AllMatches(recognizers, text) ==> InRange(text, m)
  {
    if recognizers != [] {
      var init, last := recognizers[..|recognizers| - 1], recognizers[|recognizers| - 1];
      assert last in recognizers;
      MatchesInRange(init, text);
    }
  }

  /** The winning ranges of the text, right to left. */
  function Winners(recognizers: seq<Recognizer>, text: string): seq<Match> {
    SortBy(Later, ResolveOverlaps(AllMatches(recognizers, text)))
  }

  lemma {:induction false} WinnersFit(recognizers: seq<Recognizer>, text: string)
    requires WellBehaved(recognizers, text)
    ensures RightToLeft(text, Winners(recognizers, text))
    ensures forall m :: m in Winners(recognizers, text) ==> m in AllMatches(recognizers, text)
    ensures forall m :: m in AllMatches(recognizers, text) ==>
              exists k :: k in Winners(recognizers, text) && Overlap(m, k) && k.end - k.start >= m.end - m.start
  {
    var matches := AllMatches(recognizers, text);
    MatchesInRange(recognizers, text);
    ResolutionOf(matches);
    SortedWinners(text, ResolveOverlaps(matches));
    forall m | m in matches
      ensures exists k :: k in Winners(recognizers, text) && Overlap(m, k) && k.end - k.start >= m.end - m.start
    {
      assert m in ResolveOverlaps(matches) ==> Overlap(m, m) && m in Winners(recognizers, text);
    }
  }

  /** Replaces every winning range and nothing else; raises exactly if some winner has no replacement. */
  method Redact(recognizers: seq<Recognizer>, p: Policy, text: string) returns (r: Result<string, Match>)
    requires WellBehaved(recognizers, text)
    ensures RightToLeft(text, Winners(recognizers, text))
    ensures text != "" ==> (r.Err? <==> exists m :: m in Winners(recognizers, text) && Replacement(recognizers, p, m).None?)
    ensures r.Ok? && text != "" ==> r.value == LeftToRight(text, Winners(recognizers, text), ReplacementOf(recognizers, p), 0)
    ensures text == "" ==> r == Ok("")
  {
    hide Replacement, Winners, IsResolution;
    WinnersFit(recognizers, text);
    if text == "" {
      return Ok(text);
    }
    var matches := CollectMatches(recognizers, text);
    if matches == [] {
      NoWinners(recognizers, p, text);
      return Ok(text);
    }
    var kept := KeepLongest(matches);
    var order := SortBy(Later, kept);
    WinnersAre(recognizers, text, order);
    r := Splice(recognizers, p, text, order);
  }

  lemma {:induction false} WinnersAre(recognizers: seq<Recognizer>, text: string, order: seq<Match>)
    requires order == SortBy(Later, ResolveOverlaps(AllMatches(recognizers, text)))
    ensures order == Winners(recognizers, text)
  {
  }

  lemma {:induction false} NoWinners(recognizers: seq<Recognizer>, p: Policy, text: string)
    requires AllMatches(recognizers, text) == []
    ensures Winners(recognizers, text) == [] && text[0..] == text
  {
  }

  method Splice(recognizers: seq<Recognizer>, p: Policy, text: string, order: seq<Match>) returns (r: Result<string, Match>)
    requires RightToLeft(text, order)
    ensures r.Err? <==> exists m :: m in order && Replacement(recognizers, p, m).None?
    ensures r.Ok? ==> r.value == LeftToRight(text, order, ReplacementOf(recognizers, p), 0)
  {
    hide Replacement;
    ghost var replace := ReplacementOf(recognizers, p);
    var out := text;
    assert text[0..] == text;
    for i := 0 to |order|
      invariant RightToLeft(text, order[..i]) && out == LeftToRight(text, order[..i], replace, 0)
      invariant forall m :: m in order[..i] ==> Replacement(recognizers, p, m).Some?
    {
      var m := order[i];
      assert order[..i + 1] == order[..i] + [m];
      var replacement := Replacement(recognizers, p, m);
      if replacement.None? {
        assert m in order;
        return Err(m);
      }
      SpliceOne(text, order[..i], m, replace, out);
      out := out[..m.start] + replacement.value + out[m.end..];
    }
    assert order[..|order|] == order;
    r := Ok(out);
  }

  /** A winner of a floor type is never replaced by itself through pass-through. */
  lemma {:induction false} FloorWinnersAreRewritten(recognizers: seq<Recognizer>, p: Policy, m: Match)
    requires FieldTypeOf(recognizers, m.recognizer) in FLOOR && Replacement(recognizers, p, m).Some?
    ensures var ft := FieldTypeOf(recognizers, m.recognizer);
            var out := Replacement(recognizers, p, m).value;
            out == "[REDACTED:" + ft + "]" || exists f :: out == "[FP:" + f + ":" + ft + "]"
  {
    var ft := FieldTypeOf(recognizers, m.recognizer);
    var s := StrategyFor(p, ft).value;
    if s.Hmac? {
      assert Replacement(recognizers, p, m).value == "[FP:" + s.fingerprint(m.value).value + ":" + ft + "]";
    }
  }

  predicate PassedThrough(recognizers: seq<Recognizer>, p: Policy, name: string) {
    StrategyFor(p, FieldTypeOf(recognizers, name)) == Some(PassThrough)
  }

  predicate OnFloor(recognizers: seq<Recognizer>, name: string) {
    FieldTypeOf(recognizers, name) in FLOOR
  }

  /** Every recognized value of a floor type loses at least one character: it overlaps a winner that is rewritten. */
  ghost predicate FloorTouched(recognizers: seq<Recognizer>, p: Policy, matches: seq<Match>) {
    forall m :: m in matches && OnFloor(recognizers, m.recognizer) ==>
      exists k :: k in ResolveOverlaps(matches) && Overlap(m, k) && !PassedThrough(recognizers, p, k.recognizer)
  }

  ghost predicate Reported(recognizers: seq<Recognizer>, text: string, matches: seq<Match>) {
    forall m :: m in matches ==> InRange(text, m) && exists r :: r in recognizers && r.name == m.recognizer
  }

  ghost predicate MixesFloorAndPassThrough(recognizers: seq<Recognizer>, p: Policy) {
    exists a, b :: a in recognizers && b in recognizers && OnFloor(recognizers, a.name) && PassedThrough(recognizers, p, b.name)
  }

  /** No report of a recognizer set leaves a floor value whole exactly if the set does not mix floor types with types
      the policy passes through: a floor value can lose to a longer match that is passed through. */
  lemma {:induction false} FloorTouchedExactlyWhen(recognizers: seq<Recognizer>, p: Policy)
    ensures (forall text, matches :: Reported(recognizers, text, matches) ==> FloorTouched(recognizers, p, matches))
            <==> !MixesFloorAndPassThrough(recognizers, p)
  {
    hide StrategyFor, ResolveOverlaps, OnFloor, PassedThrough;
    if a, b :| a in recognizers && b in recognizers && OnFloor(recognizers, a.name) && PassedThrough(recognizers, p, b.name) {
      var short, long := Match(a.name, 0, 1, "a"), Match(b.name, 0, 2, "ab");
      LongerWins(short, long);
      var matches := [short, long];
      assert Reported(recognizers, "ab", matches);
      assert short in matches && !FloorTouched(recognizers, p, matches);
    } else {
      forall text, matches | Reported(recognizers, text, matches) ensures FloorTouched(recognizers, p, matches) {
        NoPassThroughNoLoss(recognizers, p, text, matches);
      }
    }
  }

  lemma {:induction false} NoPassThroughNoLoss(recognizers: seq<Recognizer>, p: Policy, text: string, matches: seq<Match>)
    requires Reported(recognizers, text, matches) && !MixesFloorAndPassThrough(recognizers, p)
    ensures FloorTouched(recognizers, p, matches)
  {
    hide StrategyFor, ResolveOverlaps, OnFloor, PassedThrough;
    ResolutionOf(matches);
    forall m | m in matches && OnFloor(recognizers, m.recognizer)
      ensures exists k :: k in ResolveOverlaps(matches) && Overlap(m, k) && !PassedThrough(recognizers, p, k.recognizer)
    {
      assert InRange(text, m);
      assert Overlap(m, m);
      var k :| k in ResolveOverlaps(matches) && Overlap(m, k);
      assert k in matches;
    }
  }

  lemma {:induction false} LongerWins(short: Match, long: Match)
    requires Overlap(short, long) && long.end - long.start > short.end - short.start && short.start < short.end
    ensures ResolveOverlaps([short, long]) == [long]
  {
    var found, sorted := [short, long], [long, short];
    assert found[..1] == [short] && [short][..0] == [];
    assert SortBy(Longer, [short]) == [short];
    assert InsertBy(Longer, long, [short]) == InsertBy(Longer, long, []) + [short];
    assert SortBy(Longer, found) == sorted;
    assert sorted[..1] == [long] && [long][..0] == [];
    assert Greedy([long]) == [long];
    assert long in [long] && Overlap(short, long);
    assert Greedy(sorted) == [long];
  }

  // ---- what of a recognized value ships in the clear ----

  /** The character at i lies in one of the matches, and that match is not passed through. */
  predicate RewrittenAt(recognizers: seq<Recognizer>, p: Policy, ms: seq<Match>, i: nat) {
    exists k :: k in ms && k.start <= i < k.end && !PassedThrough(recognizers, p, k.recognizer)
  }

  /** The characters from `from` on that are not rewritten. */
  function ClearText(recognizers: seq<Recognizer>, p: Policy, text: string, ms: seq<Match>, from: nat): string
    requires from <= |text|
    decreases |text| - from
  {
    if from == |text| then ""
    else (if RewrittenAt(recognizers, p, ms, from) then "" else [text[from]]) + ClearText(recognizers, p, text, ms, from + 1)
  }

  /** Replacement by nothing, for what is not passed through. */
  function Blank(recognizers: seq<Recognizer>, p: Policy): Match -> string {
    (m: Match) => if PassedThrough(recognizers, p, m.recognizer) then m.value else ""
  }

  lemma {:induction false} HiddenRange(recognizers: seq<Recognizer>, p: Policy, text: string, ms: seq<Match>, from: nat, to: nat)
    requires from <= to <= |text| && (forall i :: from <= i < to ==> RewrittenAt(recognizers, p, ms, i))
    ensures ClearText(recognizers, p, text, ms, from) == ClearText(recognizers, p, text, ms, to)
    decreases |text| - from
  {
    hide RewrittenAt;
    if from < to {
      HiddenRange(recognizers, p, text, ms, from + 1, to);
    }
  }

  lemma {:induction false} ShownRange(recognizers: seq<Recognizer>, p: Policy, text: string, ms: seq<Match>, from: nat, to: nat)
    requires from <= to <= |text| && (forall i :: from <= i < to ==> !RewrittenAt(recognizers, p, ms, i))
    ensures ClearText(recognizers, p, text, ms, from) == text[from..to] + ClearText(recognizers, p, text, ms, to)
    decreases |text| - from
  {
    hide RewrittenAt;
    if from < to {
      ShownRange(recognizers, p, text, ms, from + 1, to);
      assert text[from..to] == [text[from]] + text[from + 1..to];
    } else {
      assert text[from..to] == "";
    }
  }

  lemma {:induction false} ClearWithout(recognizers: seq<Recognizer>, p: Policy, text: string, ms: seq<Match>, m: Match, from: nat)
    requires from <= |text| && m.end <= from
    ensures ClearText(recognizers, p, text, ms + [m], from) == ClearText(recognizers, p, text, ms, from)
    decreases |text| - from
  {
    if from < |text| {
      assert forall k :: k in ms + [m] <==> k in ms || k == m;
      ClearWithout(recognizers, p, text, ms, m, from + 1);
    }
  }

  /** What the leftmost match and the gap before it contribute. */
  lemma {:induction false} LeftmostClear(recognizers: seq<Recognizer>, p: Policy, text: string, init: seq<Match>, m: Match, pos: nat)
    requires InRange(text, m) && pos <= m.start && (forall k :: k in init ==> m.end <= k.start)
    ensures ClearText(recognizers, p, text, init + [m], pos)
            == text[pos..m.start] + (Blank(recognizers, p)(m) + ClearText(recognizers, p, text, init, m.end))
  {
    hide PassedThrough, ClearText;
    var ms := init + [m];
    assert forall k :: k in ms <==> k in init || k == m;
    ShownRange(recognizers, p, text, ms, pos, m.start);
    ClearWithout(recognizers, p, text, init, m, m.end);
    if PassedThrough(recognizers, p, m.recognizer) {
      ShownRange(recognizers, p, text, ms, m.start, m.end);
    } else {
      HiddenRange(recognizers, p, text, ms, m.start, m.end);
    }
  }

  /** With the replacements blanked out, the redacted text is exactly the characters that are not rewritten, in order. */
  lemma {:induction false} WhatShipsIsClear(recognizers: seq<Recognizer>, p: Policy, text: string, ms: seq<Match>, pos: nat)
    requires RightToLeft(text, ms) && pos <= |text| && (forall m :: m in ms ==> pos <= m.start)
    ensures LeftToRight(text, ms, Blank(recognizers, p), pos) == ClearText(recognizers, p, text, ms, pos)
  {
    hide PassedThrough, Blank, ClearText, LeftToRight, RightToLeft, InRange;
    if ms == [] {
      NothingRewritten(recognizers, p, text, pos);
    } else {
      var init, m := ms[..|ms| - 1], ms[|ms| - 1];
      assert ms == init + [m] && m in ms;
      LeftmostApart(text, init, m);
      WhatShipsIsClear(recognizers, p, text, init, m.end);
      LeftmostClear(recognizers, p, text, init, m, pos);
      LeftmostSplice(text, init, m, Blank(recognizers, p), pos);
    }
  }

  lemma {:induction false} LeftmostApart(text: string, init: seq<Match>, m: Match)
    requires RightToLeft(text, init + [m])
    ensures RightToLeft(text, init) && InRange(text, m) && m.end <= |text| && forall k :: k in init ==> m.end <= k.start
  {
    var ms := init + [m];
    assert ms[|init|] == m;
    forall i | 0 <= i < |init| ensures InRange(text, init[i]) && m.end <= init[i].start {
      assert ms[i] == init[i];
    }
    forall i, j | 0 <= i < j < |init| ensures init[j].end <= init[i].start {
      assert ms[i] == init[i] && ms[j] == init[j];
    }
  }

  lemma {:induction false} NothingRewritten(recognizers: seq<Recognizer>, p: Policy, text: string, pos: nat)
    requires pos <= |text|
    ensures LeftToRight(text, [], Blank(recognizers, p), pos) == ClearText(recognizers, p, text, [], pos)
  {
    ShownRange(recognizers, p, text, [], pos, |text|);
  }

  lemma {:induction false} LeftmostSplice(text: string, init: seq<Match>, m: Match, replace: Match -> string, pos: nat)
    requires RightToLeft(text, init + [m]) && RightToLeft(text, init) && InRange(text, m) && pos <= m.start
    requires forall k :: k in init ==> m.end <= k.start
    ensures LeftToRight(text, init + [m], replace, pos)
            == text[pos..m.start] + (replace(m) + LeftToRight(text, init, replace, m.end))
  {
    var ms := init + [m];
    assert ms[..|ms| - 1] == init && ms[|ms| - 1] == m;
    Regroup("", text[pos..m.start], replace(m), LeftToRight(text, init, replace, m.end));
  }

  /** No character of the match ships. */
  ghost predicate Covered(recognizers: seq<Recognizer>, p: Policy, ms: seq<Match>, m: Match) {
    forall i :: m.start <= i < m.end ==> RewrittenAt(recognizers, p, ms, i)
  }

  /** The floor as it is promised: no character of a recognized floor value ships. */
  ghost predicate FloorCovered(recognizers: seq<Recognizer>, p: Policy, matches: seq<Match>) {
    forall m :: m in matches && OnFloor(recognizers, m.recognizer) ==>
      Covered(recognizers, p, ResolveOverlaps(matches), m)
  }

  lemma {:induction false} WinnerIsCovered(recognizers: seq<Recognizer>, p: Policy, ms: seq<Match>, m: Match)
    requires m in ms && OnFloor(recognizers, m.recognizer)
    ensures Covered(recognizers, p, ms, m)
  {
    assert !PassedThrough(recognizers, p, m.recognizer);
  }

  /** For a given report it is kept exactly if every floor match that lost lies, character by character, inside
      winners that are not passed through. */
  lemma {:induction false} FloorCoveredExactlyWhen(recognizers: seq<Recognizer>, p: Policy, matches: seq<Match>)
    ensures FloorCovered(recognizers, p, matches) <==>
              forall m :: m in matches && m !in ResolveOverlaps(matches) && OnFloor(recognizers, m.recognizer) ==>
                Covered(recognizers, p, ResolveOverlaps(matches), m)
  {
    hide Covered, ResolveOverlaps, OnFloor;
    forall m | m in matches && m in ResolveOverlaps(matches) && OnFloor(recognizers, m.recognizer)
      ensures Covered(recognizers, p, ResolveOverlaps(matches), m)
    {
      WinnerIsCovered(recognizers, p, ResolveOverlaps(matches), m);
    }
  }

  /** Of two overlapping matches one contains the other. */
  ghost predicate Nested(matches: seq<Match>) {
    forall a, b :: a in matches && b in matches && Overlap(a, b) && b.end - b.start >= a.end - a.start ==>
      b.start <= a.start && a.end <= b.end
  }

  /** Enough for a given report, before any overlap is resolved: matches nest, and none is of a type passed through. */
  lemma {:induction false} NestedIsCovered(recognizers: seq<Recognizer>, p: Policy, matches: seq<Match>)
    requires Nested(matches) && (forall m :: m in matches ==> m.start < m.end && !PassedThrough(recognizers, p, m.recognizer))
    ensures forall m :: m in matches ==> Covered(recognizers, p, ResolveOverlaps(matches), m)
    ensures FloorCovered(recognizers, p, matches)
  {
    hide ResolveOverlaps, OnFloor, PassedThrough;
    ResolutionOf(matches);
    forall m | m in matches ensures Covered(recognizers, p, ResolveOverlaps(matches), m) {
      assert m in ResolveOverlaps(matches) ==> Overlap(m, m);
      var k :| k in ResolveOverlaps(matches) && Overlap(m, k) && k.end - k.start >= m.end - m.start;
      assert k in matches && k.start <= m.start && m.end <= k.end;
    }
  }

  /** What recognizers report: in range, under a known name, and one recognizer's matches never overlap each other. */
  ghost predicate Scanned(recognizers: seq<Recognizer>, text: string, matches: seq<Match>) {
    && Reported(recognizers, text, matches)
    && forall i, j :: 0 <= i < j < |matches| && matches[i].recognizer == matches[j].recognizer ==> !Overlap(matches[i], matches[j])
  }

  ghost predicate FloorHasCompany(recognizers: seq<Recognizer>) {
    exists a, b :: a in recognizers && b in recognizers && a.name != b.name && OnFloor(recognizers, a.name)
  }

  /** The promise is kept for every text and report exactly if a recognizer of a floor type is the only one: with a
      second recognizer of any type, a longer match can win over a part of a floor value and leave the rest. */
  lemma {:induction false} FloorAlwaysCoveredExactlyWhen(recognizers: seq<Recognizer>, p: Policy)
    ensures (forall text, matches :: Scanned(recognizers, text, matches) ==> FloorCovered(recognizers, p, matches))
            <==> !FloorHasCompany(recognizers)
  {
    hide ResolveOverlaps, OnFloor, Covered, PassedThrough;
    if a, b :| a in recognizers && b in recognizers && a.name != b.name && OnFloor(recognizers, a.name) {
      var short, long := Match(a.name, 3, 6, "123"), Match(b.name, 0, 4, "xxx1");
      var matches := [short, long];
      assert "xxx123"[3..6] == "123" && "xxx123"[0..4] == "xxx1";
      LongerWins(short, long);
      assert Scanned(recognizers, "xxx123", matches);
      TailIsBare(recognizers, p, short, long);
      assert short in matches && !FloorCovered(recognizers, p, matches);
    } else {
      forall text, matches | Scanned(recognizers, text, matches) ensures FloorCovered(recognizers, p, matches) {
        AloneIsCovered(recognizers, p, text, matches);
      }
    }
  }

  lemma {:induction false} TailIsBare(recognizers: seq<Recognizer>, p: Policy, short: Match, long: Match)
    requires long.end < short.end
    ensures !Covered(recognizers, p, [long], short) || short.start >= short.end
  {
    if short.start < short.end {
      var i := if long.end < short.start then short.start else long.end;
      assert !RewrittenAt(recognizers, p, [long], i) && short.start <= i < short.end;
    }
  }

  lemma {:induction false} AloneIsCovered(recognizers: seq<Recognizer>, p: Policy, text: string, matches: seq<Match>)
    requires Scanned(recognizers, text, matches) && !FloorHasCompany(recognizers)
    ensures FloorCovered(recognizers, p, matches)
  {
    hide ResolveOverlaps, OnFloor, Covered;
    ResolutionOf(matches);
    forall m | m in matches && OnFloor(recognizers, m.recognizer)
      ensures Covered(recognizers, p, ResolveOverlaps(matches), m)
    {
      forall k | k in matches && Overlap(m, k) ensures k == m {
        var i :| 0 <= i < |matches| && matches[i] == m;
        var j :| 0 <= j < |matches| && matches[j] == k;
        assert m.recognizer == k.recognizer;
      }
      WinnerIsCovered(recognizers, p, ResolveOverlaps(matches), m);
    }
  }

  // ---- one such input ----

  const SSN_MATCH := Match("us_ssn", 3, 6, "123")
  const ACCOUNT_MATCH := Match("us_bank_account", 0, 4, "xxx1")

  function Only(text: string, m: Match): string -> seq<Match> {
    (t: string) => if t == text then [m] else []
  }

  /** Two recognizers of floor types and a policy that redacts everything in full: the tail of the shorter value ships. */
  lemma {:induction false} TailOfFloorValueShips(recognizers: seq<Recognizer>, p: Policy)
    requires recognizers == [Recognizer("us_ssn", "ssn", Only("xxx123", SSN_MATCH)),
                             Recognizer("us_bank_account", "account_number", Only("xxx123", ACCOUNT_MATCH))]
    requires p == Policy("full", map["full" := Full], [], [])
    ensures WellBehaved(recognizers, "xxx123") && Winners(recognizers, "xxx123") == [ACCOUNT_MATCH]
    ensures RightToLeft("xxx123", [ACCOUNT_MATCH])
    ensures LeftToRight("xxx123", [ACCOUNT_MATCH], ReplacementOf(recognizers, p), 0) == "[REDACTED:account_number]23"
  {
    hide Winners, LeftToRight, WellBehaved, Only, ReplacementOf;
    TheyBehave(recognizers);
    TheirWinner(recognizers);
    TheirReplacement(recognizers, p);
    TheirText(ReplacementOf(recognizers, p));
  }

  lemma {:induction false} TheyBehave(recognizers: seq<Recognizer>)
    requires recognizers == [Recognizer("us_ssn", "ssn", Only("xxx123", SSN_MATCH)),
                             Recognizer("us_bank_account", "account_number", Only("xxx123", ACCOUNT_MATCH))]
    ensures WellBehaved(recognizers, "xxx123")
    ensures recognizers[0].findAll("xxx123") == [SSN_MATCH] && recognizers[1].findAll("xxx123") == [ACCOUNT_MATCH]
  {
    assert "xxx123"[0..4] == "xxx1" && "xxx123"[3..6] == "123";
  }

  lemma {:induction false} TheirWinner(recognizers: seq<Recognizer>)
    requires |recognizers| == 2
    requires recognizers[0].findAll("xxx123") == [SSN_MATCH] && recognizers[1].findAll("xxx123") == [ACCOUNT_MATCH]
    ensures Winners(recognizers, "xxx123") == [ACCOUNT_MATCH]
  {
    TheirMatches(recognizers, "xxx123");
    LongerWins(SSN_MATCH, ACCOUNT_MATCH);
    assert [ACCOUNT_MATCH][..0] == [];
    assert SortBy(Later, [ACCOUNT_MATCH]) == [ACCOUNT_MATCH];
  }

  lemma {:induction false} TheirText(replace: Match -> string)
    requires replace(ACCOUNT_MATCH) == "[REDACTED:account_number]"
    ensures RightToLeft("xxx123", [ACCOUNT_MATCH])
    ensures LeftToRight("xxx123", [ACCOUNT_MATCH], replace, 0) == "[REDACTED:account_number]23"
  {
    assert "xxx123"[0..4] == "xxx1" && "xxx123"[4..] == "23" && [ACCOUNT_MATCH][..0] == [];
  }

  lemma {:induction false} TheirMatches(recognizers: seq<Recognizer>, text: string)
    requires |recognizers| == 2 && recognizers[0].findAll(text) == [SSN_MATCH] && recognizers[1].findAll(text) == [ACCOUNT_MATCH]
    ensures AllMatches(recognizers, text) == [SSN_MATCH, ACCOUNT_MATCH]
  {
    assert recognizers[..1][..0] == [] && recognizers[..1][0] == recognizers[0];
    assert AllMatches(recognizers[..1], text) == AllMatches([], text) + [SSN_MATCH];
  }

  lemma {:induction false} TheirReplacement(recognizers: seq<Recognizer>, p: Policy)
    requires |recognizers| == 2 && recognizers[0].name == "us_ssn"
    requires recognizers[1].name == "us_bank_account" && recognizers[1].fieldType == "account_number"
    requires p == Policy("full", map["full" := Full], [], [])
    ensures ReplacementOf(recognizers, p)(ACCOUNT_MATCH) == "[REDACTED:account_number]"
  {
    assert recognizers[1..][0] == recognizers[1];
    assert FieldTypeOf(recognizers, "us_bank_account") == "account_number";
  }
}
