/** The model inventory of a reporting period: grouping, governance join, completeness and evidence sampling. */
module Inventory {
  import opened Wrappers
  import opened Sorting
  import Spans

  /** One span of the corpus, with the parts the inventory reads. */
  datatype Call = Call(isModelCall: bool, trajectoryId: string, spanId: string, start: int, customer: string,
                       provider: string, modelName: string, modelVersion: Option<string>,
                       card: Option<string>, tokens: Option<nat>)

  datatype Key = Key(provider: string, modelName: string, modelVersion: Option<string>)

  /** One entry of the customer's registry; an entry without a version matches any version. */
  datatype Entry = Entry(card: Option<string>, provider: Option<string>, modelName: Option<string>, modelVersion: Option<string>,
                         intendedUse: string, riskTier: string, validationStatus: string, limitations: string, monitoring: string)

  datatype Source = MissingCard | NoRegistryEntry | FromRegistry(entry: Entry)

  datatype Usage = Usage(decisions: nat, trajectories: nat, totalTokens: Option<nat>, tokensPartial: bool, cards: seq<string>)

  datatype Row = Row(key: Key, usage: Usage, source: Source, governed: bool, resolved: nat, sample: seq<Call>)

  datatype Failure = NoModelUsage | TenantNotPresent | AmbiguousTenant

  datatype Report = Report(rows: seq<Row>, governedModels: nat, missingCard: seq<Key>, missingRegistry: seq<Key>, completeness: real)

  // ---- which calls count ----

  function InPeriod(from: int, to: int): Call -> bool {
    (c: Call) => c.isModelCall && from <= c.start <= to
  }

  function OfTenant(tenant: string): Call -> bool {
    (c: Call) => c.customer == tenant
  }

  /** The in-period model calls of the tenant; without a tenant they must all belong to one customer. */
  function Scope(corpus: seq<Call>, from: int, to: int, tenant: Option<string>): Result<seq<Call>, Failure> {
    var calls := Where(InPeriod(from, to), corpus);
    if calls == [] then Err(NoModelUsage)
    else if tenant.Some? then
      var own := Where(OfTenant(tenant.value), calls);
      if own == [] then Err(TenantNotPresent) else Ok(own)
    else if |set c | c in calls :: c.customer| > 1 then Err(AmbiguousTenant)
    else Ok(calls)
  }

  /** A model call of the period, both ends included. */
  predicate Counts(from: int, to: int, c: Call) {
    c.isModelCall && from <= c.start && c.start <= to
  }

  ghost predicate SomeCount(corpus: seq<Call>, from: int, to: int, tenant: Option<string>) {
    exists c :: c in corpus && Counts(from, to, c) && (tenant.Some? ==> c.customer == tenant.value)
  }

  ghost predicate TwoCustomers(corpus: seq<Call>, from: int, to: int) {
    exists c, d :: c in corpus && d in corpus && Counts(from, to, c) && Counts(from, to, d) && c.customer != d.customer
  }

  lemma {:induction false} ScopeExactly(corpus: seq<Call>, from: int, to: int, tenant: Option<string>)
    ensures var r := Scope(corpus, from, to, tenant);
            && (r == Err(NoModelUsage) <==> !SomeCount(corpus, from, to, None))
            && (r == Err(TenantNotPresent) <==> SomeCount(corpus, from, to, None) && !SomeCount(corpus, from, to, tenant))
            && (r == Err(AmbiguousTenant) <==> tenant.None? && TwoCustomers(corpus, from, to))
            && (r.Ok? ==> forall c :: multiset(r.value)[c] ==
                            if Counts(from, to, c) && (tenant.Some? ==> c.customer == tenant.value) then multiset(corpus)[c] else 0)
            && (r.Ok? ==> r.value != [] && forall c, d :: c in r.value && d in r.value ==> c.customer == d.customer)
  {
    var calls := Where(InPeriod(from, to), corpus);
    InPeriodCounts(corpus, from, to);
    assert calls != [] ==> calls[0] in calls;
    if tenant.Some? {
      var own := Where(OfTenant(tenant.value), calls);
      forall c ensures c in own <==> c in calls && c.customer == tenant.value {
        WhereMembers(OfTenant(tenant.value), calls, c);
      }
      forall c ensures multiset(own)[c] == if c.customer == tenant.value then multiset(calls)[c] else 0 {
        WhereCounts(OfTenant(tenant.value), calls, c);
      }
      assert own != [] ==> own[0] in own;
    } else if calls != [] {
      OneCustomer(calls);
    }
  }

  lemma {:induction false} ScopeIsNotEmpty(corpus: seq<Call>, from: int, to: int, tenant: Option<string>)
    ensures Scope(corpus, from, to, tenant).Ok? ==> Scope(corpus, from, to, tenant).value != []
  {
  }

  lemma {:induction false} InPeriodCounts(corpus: seq<Call>, from: int, to: int)
    ensures forall c :: c in Where(InPeriod(from, to), corpus) <==> c in corpus && Counts(from, to, c)
    ensures forall c :: multiset(Where(InPeriod(from, to), corpus))[c] == if Counts(from, to, c) then multiset(corpus)[c] else 0
  {
    forall c ensures c in Where(InPeriod(from, to), corpus) <==> c in corpus && Counts(from, to, c) {
      WhereMembers(InPeriod(from, to), corpus, c);
    }
    forall c ensures multiset(Where(InPeriod(from, to), corpus))[c] == if Counts(from, to, c) then multiset(corpus)[c] else 0 {
      WhereCounts(InPeriod(from, to), corpus, c);
    }
  }

  lemma {:induction false} OneCustomer(calls: seq<Call>)
    requires calls != []
    ensures var tenants := set c | c in calls :: c.customer;
            |tenants| > 1 <==> exists c, d :: c in calls && d in calls && c.customer != d.customer
  {
    var tenants := set c | c in calls :: c.customer;
    var one := {calls[0].customer};
    assert calls[0].customer in tenants;
    if |tenants| > 1 {
      assert |tenants - one| > 0;
      var other :| other in tenants - one;
      var d :| d in calls && d.customer == other;
      assert calls[0] in calls && calls[0].customer != d.customer;
    } else {
      assert |tenants - one| == 0;
      assert tenants == one;
      forall c | c in calls ensures c.customer == calls[0].customer {
        assert c.customer in tenants;
      }
    }
  }

  // ---- grouping ----

  /** A call without a model name falls into its provider's unidentified group. */
  function KeyOf(c: Call): Key {
    if c.modelName == "" then Key(if c.provider == "" then "unknown" else c.provider, "unidentified", None)
    else Key(c.provider, c.modelName, c.modelVersion)
  }

  function OfKey(k: Key): Call -> bool {
    (c: Call) => KeyOf(c) == k
  }

  function VersionText(k: Key): string {
    if k.modelVersion.Some? then k.modelVersion.value else ""
  }

  predicate KeyLess(a: Key, b: Key) {
    || StringLess(a.provider, b.provider)
    || (a.provider == b.provider
        && (|| StringLess(a.modelName, b.modelName)
            || (a.modelName == b.modelName && StringLess(VersionText(a), VersionText(b)))))
  }

  // ---- usage ----

  function Earlier(a: Call, b: Call): bool {
    a.start < b.start
  }

  /** Cards in order of first use. */
  function CardsOf(calls: seq<Call>): (cards: seq<string>)
    ensures forall c :: c in cards <==> c != "" && exists x :: x in calls && x.card == Some(c)
    ensures forall i, j :: 0 <= i < j < |cards| ==> cards[i] != cards[j]
  {
    if calls == [] then []
    else
      var init, last := calls[..|calls| - 1], calls[|calls| - 1];
      assert calls == init + [last];
      var before := CardsOf(init);
      if last.card.Some? && last.card.value != "" && last.card.value !in before then before + [last.card.value] else before
  }

  function Tokens(calls: seq<Call>): nat {
    if calls == [] then 0
    else
      var t := calls[|calls| - 1].tokens;
      Tokens(calls[..|calls| - 1]) + if t.Some? then t.value else 0
  }

  ghost predicate SomeMissing(calls: seq<Call>) {
    exists c :: c in calls && c.tokens.None?
  }

  ghost predicate SomeCounted(calls: seq<Call>) {
    exists c :: c in calls && c.tokens.Some?
  }

  lemma {:induction false} UsageGrows(calls: seq<Call>, s: Call)
    ensures SomeMissing(calls + [s]) <==> SomeMissing(calls) || s.tokens.None?
    ensures SomeCounted(calls + [s]) <==> SomeCounted(calls) || s.tokens.Some?
    ensures Tokens(calls + [s]) == Tokens(calls) + if s.tokens.Some? then s.tokens.value else 0
    ensures CardsOf(calls + [s]) == if s.card.Some? && s.card.value != "" && s.card.value !in CardsOf(calls)
                                    then CardsOf(calls) + [s.card.value] else CardsOf(calls)
  {
    assert (calls + [s])[..|calls|] == calls;
    forall c ensures c in calls + [s] <==> c in calls || c == s {
    }
    assert s in calls + [s];
  }

  /** Counts are of the whole group; token totals are those recorded, absent if none was, flagged if some were not. */
  ghost predicate IsUsage(calls: seq<Call>, u: Usage) {
    && u.decisions == |calls|
    && u.trajectories == |set c | c in calls :: c.trajectoryId|
    && u.cards == CardsOf(SortBy(Earlier, calls))
    && (u.tokensPartial <==> SomeMissing(calls))
    && (u.totalTokens.Some? <==> SomeCounted(calls))
    && (u.totalTokens.Some? ==> u.totalTokens.value == Tokens(calls))
  }

  lemma {:induction false} TokensAppend(a: seq<Call>, x: Call)
    ensures Tokens(a + [x]) == Tokens(a) + if x.tokens.Some? then x.tokens.value else 0
  {
    assert (a + [x])[..|a|] == a;
  }

  lemma {:induction false} TokensOfInsert(x: Call, s: seq<Call>)
    ensures Tokens(InsertBy(Earlier, x, s)) == Tokens(s) + if x.tokens.Some? then x.tokens.value else 0
  {
    if s != [] && Earlier(x, s[|s| - 1]) {
      TokensOfInsert(x, s[..|s| - 1]);
      TokensAppend(InsertBy(Earlier, x, s[..|s| - 1]), s[|s| - 1]);
    } else {
      TokensAppend(s, x);
    }
  }

  lemma {:induction false} TokensOfSort(s: seq<Call>)
    ensures Tokens(SortBy(Earlier, s)) == Tokens(s)
  {
    if s != [] {
      TokensOfSort(s[..|s| - 1]);
      TokensOfInsert(s[|s| - 1], SortBy(Earlier, s[..|s| - 1]));
    }
  }

  // ---- the card list, read off the calls ----

  /** The card occurs in a call that starts no later than any call with the other card. */
  ghost predicate UsedNoLater(calls: seq<Call>, card: string, other: string) {
    exists x :: x in calls && x.card == Some(card) && forall y :: y in calls && y.card == Some(other) ==> x.start <= y.start
  }

  ghost predicate SeenBefore(spans: seq<Call>, card: string, other: string) {
    exists p :: 0 <= p < |spans| && spans[p].card == Some(card) && forall q :: 0 <= q < p ==> spans[q].card != Some(other)
  }

  lemma {:induction false} SeenBeforeGrows(spans: seq<Call>, s: Call, card: string, other: string)
    requires SeenBefore(spans, card, other)
    ensures SeenBefore(spans + [s], card, other)
  {
    var p :| 0 <= p < |spans| && spans[p].card == Some(card) && forall q :: 0 <= q < p ==> spans[q].card != Some(other);
    assert (spans + [s])[p] == spans[p] && forall q :: 0 <= q < p ==> (spans + [s])[q] == spans[q];
  }

  /** Cards are listed in the order in which they are first seen. */
  lemma {:induction false} CardsInOrder(spans: seq<Call>)
    ensures var c := CardsOf(spans); forall i, j :: 0 <= i < j < |c| ==> SeenBefore(spans, c[i], c[j])
  {
    hide SeenBefore;
    if spans != [] {
      var init, last := spans[..|spans| - 1], spans[|spans| - 1];
      assert spans == init + [last];
      var before, cards := CardsOf(init), CardsOf(spans);
      CardsInOrder(init);
      UsageGrows(init, last);
      forall i, j | 0 <= i < j < |cards| ensures SeenBefore(spans, cards[i], cards[j]) {
        assert cards[i] == before[i] && before[i] in before;
        if j == |before| {
          NewCardUnseen(init, cards[i], cards[j]);
        }
        SeenBeforeGrows(init, last, cards[i], cards[j]);
      }
    }
  }

  lemma {:induction false} NewCardUnseen(init: seq<Call>, card: string, other: string)
    requires card in CardsOf(init) && other !in CardsOf(init) && other != ""
    ensures SeenBefore(init, card, other)
  {
    var x :| x in init && x.card == Some(card);
    var p :| 0 <= p < |init| && init[p] == x;
    forall q | 0 <= q < p ensures init[q].card != Some(other) {
      assert init[q] in init;
    }
  }

  lemma {:induction false} SeenInStartOrder(calls: seq<Call>, card: string, other: string)
    requires SeenBefore(SortBy(Earlier, calls), card, other)
    ensures UsedNoLater(calls, card, other)
  {
    hide SortBy;
    var spans := SortBy(Earlier, calls);
    SortIsPermutation(Earlier, calls);
    StartsAscend(calls);
    var p :| 0 <= p < |spans| && spans[p].card == Some(card) && forall q :: 0 <= q < p ==> spans[q].card != Some(other);
    assert spans[p] in spans;
    forall y | y in calls && y.card == Some(other) ensures spans[p].start <= y.start {
      var q :| 0 <= q < |spans| && spans[q] == y;
    }
  }

  lemma {:induction false} StartsAscend(calls: seq<Call>)
    ensures var spans := SortBy(Earlier, calls); forall i, j :: 0 <= i <= j < |spans| ==> spans[i].start <= spans[j].start
  {
    assert StrictWeakOrder(Earlier);
    SortIsSorted(Earlier, calls);
    var spans := SortBy(Earlier, calls);
    forall i, j | 0 <= i < j < |spans| ensures spans[i].start <= spans[j].start {
      assert !Earlier(spans[j], spans[i]);
    }
  }

  /** The cards are those of the group, once each, a card listed earlier being used no later. */
  ghost predicate IsCardList(calls: seq<Call>, cards: seq<string>) {
    && (forall c :: c in cards <==> |c| > 0 && exists x :: x in calls && x.card == Some(c))
    && (forall i, j :: 0 <= i < j < |cards| ==> cards[i] != cards[j] && UsedNoLater(calls, cards[i], cards[j]))
  }

  lemma {:induction false} CardListExactly(calls: seq<Call>)
    ensures IsCardList(calls, CardsOf(SortBy(Earlier, calls)))
  {
    hide SeenBefore, UsedNoLater;
    var spans := SortBy(Earlier, calls);
    var cards := CardsOf(spans);
    SortIsPermutation(Earlier, calls);
    CardsInOrder(spans);
    forall i, j | 0 <= i < j < |cards| ensures UsedNoLater(calls, cards[i], cards[j]) {
      SeenInStartOrder(calls, cards[i], cards[j]);
    }
  }

  method BuildUsage(calls: seq<Call>) returns (u: Usage)
    ensures IsUsage(calls, u) && IsCardList(calls, u.cards)
  {
    hide IsCardList;
    CardListExactly(calls);
    hide CardsOf, Tokens, SomeMissing, SomeCounted;
    var spans := SortBy(Earlier, calls);
    SortKeepsUsage(calls);
    var cards: seq<string> := [];
    var total: nat := 0;
    var partial, any := false, false;
    NoUsage();
    for i := 0 to |spans|
      invariant cards == CardsOf(spans[..i]) && total == Tokens(spans[..i])
      invariant partial <==> SomeMissing(spans[..i])
      invariant any <==> SomeCounted(spans[..i])
    {
      var s := spans[i];
      assert spans[..i + 1] == spans[..i] + [s];
      UsageGrows(spans[..i], s);
      if s.card.Some? && s.card.value != "" && s.card.value !in cards {
        cards := cards + [s.card.value];
      }
      if s.tokens.None? {
        partial := true;
      } else {
        any := true;
        total := total + s.tokens.value;
      }
    }
    assert spans[..|spans|] == spans;
    u := Usage(|spans|, |set c | c in calls :: c.trajectoryId|, if any then Some(total) else None, partial, cards);
  }

  lemma {:induction false} NoUsage()
    ensures CardsOf([]) == [] && Tokens([]) == 0 && !SomeMissing([]) && !SomeCounted([])
  {
  }

  lemma {:induction false} SortKeepsUsage(calls: seq<Call>)
    ensures var s := SortBy(Earlier, calls);
            Tokens(s) == Tokens(calls) && (SomeMissing(s) <==> SomeMissing(calls)) && (SomeCounted(s) <==> SomeCounted(calls))
  {
    SortIsPermutation(Earlier, calls);
    TokensOfSort(calls);
  }

  /** Counts, totals and the partial flag do not depend on the order of the group; the card list does not either
      if no two calls start together, and otherwise tied calls decide it by their order. */
  lemma {:induction false} UsageIgnoresOrder(a: seq<Call>, b: seq<Call>, u: Usage, w: Usage)
    requires multiset(a) == multiset(b) && IsUsage(a, u) && IsUsage(b, w)
    ensures u.decisions == w.decisions && u.trajectories == w.trajectories
    ensures u.totalTokens == w.totalTokens && u.tokensPartial == w.tokensPartial
    ensures (forall x, y :: x in a && y in a && x.start == y.start ==> x == y) ==> u.cards == w.cards
  {
    hide CardsOf, Tokens;
    SameMembers(a, b);
    assert (set c | c in a :: c.trajectoryId) == (set c | c in b :: c.trajectoryId);
    TokensIgnoreOrder(a, b);
    if forall x, y :: x in a && y in a && x.start == y.start ==> x == y {
      assert StrictWeakOrder(Earlier);
      SortIgnoresOrder(Earlier, a, b);
    }
  }

  lemma {:induction false} SameMembers(a: seq<Call>, b: seq<Call>)
    requires multiset(a) == multiset(b)
    ensures |a| == |b| && forall x :: x in a <==> x in b
  {
    assert |multiset(a)| == |a| && |multiset(b)| == |b|;
    forall x ensures x in a <==> x in b {
      assert x in a <==> x in multiset(a);
      assert x in b <==> x in multiset(b);
    }
  }

  lemma {:induction false} TokensWithout(a: seq<Call>, i: nat)
    requires i < |a|
    ensures Tokens(a) == Tokens(a[..i] + a[i + 1..]) + if a[i].tokens.Some? then a[i].tokens.value else 0
  {
    var init, last := a[..|a| - 1], a[|a| - 1];
    if i < |init| {
      TokensWithout(init, i);
      assert a[..i] + a[i + 1..] == (init[..i] + init[i + 1..]) + [last];
      TokensAppend(init[..i] + init[i + 1..], last);
    } else {
      assert a[..i] + a[i + 1..] == init;
    }
  }

  lemma {:induction false} TokensIgnoreOrder(a: seq<Call>, b: seq<Call>)
    requires multiset(a) == multiset(b)
    ensures Tokens(a) == Tokens(b)
    decreases |b|
  {
    SameMembers(a, b);
    if b != [] {
      hide Tokens;
      var last := |b| - 1;
      assert b[last] in a;
      var i :| 0 <= i < |a| && a[i] == b[last];
      Without(a, i);
      Without(b, last);
      TokensWithout(a, i);
      TokensWithout(b, last);
      TokensIgnoreOrder(a[..i] + a[i + 1..], b[..last] + b[last + 1..]);
    }
  }

  lemma {:induction false} Without<T>(a: seq<T>, i: nat)
    requires i < |a|
    ensures multiset(a[..i] + a[i + 1..]) == multiset(a) - multiset{a[i]}
  {
    assert a == a[..i] + [a[i]] + a[i + 1..];
  }

  // ---- governance ----

  predicate HasCard(e: Entry, card: string) {
    e.card.Some? && e.card.value != "" && e.card.value == card
  }

  predicate HasIdentity(e: Entry, k: Key) {
    e.provider == Some(k.provider) && e.modelName == Some(k.modelName) && (e.modelVersion.None? || e.modelVersion == k.modelVersion)
  }

  function FirstEntry(entries: seq<Entry>, test: Entry -> bool): (r: Option<Entry>)
    ensures r.None? <==> forall e :: e in entries ==> !test(e)
    ensures r.Some? ==> r.value in entries && test(r.value)
  {
    if entries == [] then None
    else if test(entries[0]) then Some(entries[0])
    else
      assert entries == [entries[0]] + entries[1..];
      FirstEntry(entries[1..], test)
  }

  lemma {:induction false} FirstEntryIsFirst(entries: seq<Entry>, test: Entry -> bool)
    ensures var r := FirstEntry(entries, test);
            r.Some? ==> exists i :: 0 <= i < |entries| && entries[i] == r.value && forall j :: 0 <= j < i ==> !test(entries[j])
  {
    if entries != [] && !test(entries[0]) {
      var rest := entries[1..];
      FirstEntryIsFirst(rest, test);
      var r := FirstEntry(rest, test);
      if r.Some? {
        var i :| 0 <= i < |rest| && rest[i] == r.value && forall j :: 0 <= j < i ==> !test(rest[j]);
        assert entries[i + 1] == rest[i] && forall j :: 1 <= j < i + 1 ==> entries[j] == rest[j - 1];
      }
    }
  }

  function ByCard(entries: seq<Entry>, card: string): Option<Entry> {
    FirstEntry(entries, (e: Entry) => HasCard(e, card))
  }

  function ByIdentity(entries: seq<Entry>, k: Key): Option<Entry> {
    FirstEntry(entries, (e: Entry) => HasIdentity(e, k))
  }

  /** One lookup: the card if it is given and known, else the identity. */
  function Match(entries: seq<Entry>, k: Key, card: string): Option<Entry> {
    if card != "" && ByCard(entries, card).Some? then ByCard(entries, card) else ByIdentity(entries, k)
  }

  /** The first card that a registry entry carries. */
  function FirstKnownCard(entries: seq<Entry>, cards: seq<string>): Option<Entry> {
    if cards == [] then None
    else if cards[0] != "" && ByCard(entries, cards[0]).Some? then ByCard(entries, cards[0])
    else FirstKnownCard(entries, cards[1..])
  }

  /** What the card loop comes to. Cards take precedence only while no identity entry exists: with one, every card
      but the first is never looked at. */
  function Governance(entries: seq<Entry>, k: Key, cards: seq<string>): Source {
    if cards == [] then MissingCard
    else
      var id := ByIdentity(entries, k);
      var found := if id.Some? && !(cards[0] != "" && ByCard(entries, cards[0]).Some?) then id else FirstKnownCard(entries, cards);
      if found.None? then NoRegistryEntry else FromRegistry(found.value)
  }

  method ResolveGovernance(entries: seq<Entry>, k: Key, cards: seq<string>) returns (s: Source)
    ensures s == Governance(entries, k, cards) && IsGovernance(entries, k, cards, s)
  {
    hide IsGovernance;
    GovernanceExactly(entries, k, cards);
    if cards == [] {
      return MissingCard;
    }
    var matched: Option<Entry> := None;
    var i := 0;
    while i < |cards| && matched.None?
      invariant 0 <= i <= |cards|
      invariant matched.Some? ==> Governance(entries, k, cards) == FromRegistry(matched.value)
      invariant matched.None? && i > 0 ==> ByIdentity(entries, k).None? && !(cards[0] != "" && ByCard(entries, cards[0]).Some?)
      invariant matched.None? ==> FirstKnownCard(entries, cards) == FirstKnownCard(entries, cards[i..])
      decreases |cards| - i
    {
      assert cards[i..][0] == cards[i] && cards[i..][1..] == cards[i + 1..];
      matched := Match(entries, k, cards[i]);
      i := i + 1;
    }
    if matched.None? {
      matched := ByIdentity(entries, k);
    }
    s := if matched.None? then NoRegistryEntry else FromRegistry(matched.value);
  }

  // ---- the join, read off the registry ----

  /** The entry is the customer's for this card; an empty card is nobody's. */
  predicate CarriesCard(e: Entry, card: string) {
    |card| > 0 && e.card == Some(card)
  }

  /** The entry names the provider, the model, and no version or the same one. */
  predicate NamesModel(e: Entry, k: Key) {
    e.provider == Some(k.provider) && e.modelName == Some(k.modelName) && e.modelVersion in {None, k.modelVersion}
  }

  /** e is the first entry of the registry that carries the card. */
  ghost predicate CardEntry(entries: seq<Entry>, card: string, e: Entry) {
    exists i :: 0 <= i < |entries| && entries[i] == e && CarriesCard(e, card)
                && forall j :: 0 <= j < i ==> !CarriesCard(entries[j], card)
  }

  ghost predicate ModelEntry(entries: seq<Entry>, k: Key, e: Entry) {
    exists i :: 0 <= i < |entries| && entries[i] == e && NamesModel(e, k)
                && forall j :: 0 <= j < i ==> !NamesModel(entries[j], k)
  }

  ghost predicate UnknownCard(entries: seq<Entry>, card: string) {
    forall e :: e in entries ==> !CarriesCard(e, card)
  }

  ghost predicate UnknownModel(entries: seq<Entry>, k: Key) {
    forall e :: e in entries ==> !NamesModel(e, k)
  }

  /** Card i is the first of the cards that the registry knows, and e is its entry. */
  ghost predicate FirstKnown(entries: seq<Entry>, cards: seq<string>, i: nat, e: Entry) {
    i < |cards| && CardEntry(entries, cards[i], e) && forall j :: 0 <= j < i ==> UnknownCard(entries, cards[j])
  }

  lemma {:induction false} LookupsTell(entries: seq<Entry>, card: string, k: Key)
    ensures (card != "" && ByCard(entries, card).Some?) <==> !UnknownCard(entries, card)
    ensures card != "" && ByCard(entries, card).Some? ==> CardEntry(entries, card, ByCard(entries, card).value)
    ensures ByIdentity(entries, k).None? <==> UnknownModel(entries, k)
    ensures ByIdentity(entries, k).Some? ==> ModelEntry(entries, k, ByIdentity(entries, k).value)
  {
    var byCard, byModel := (e: Entry) => HasCard(e, card), (e: Entry) => HasIdentity(e, k);
    FirstEntryIsFirst(entries, byCard);
    FirstEntryIsFirst(entries, byModel);
    assert forall e :: card != "" ==> (HasCard(e, card) <==> CarriesCard(e, card));
    assert forall e :: HasIdentity(e, k) <==> NamesModel(e, k);
  }

  lemma {:induction false} FirstKnownTells(entries: seq<Entry>, cards: seq<string>)
    ensures var r := FirstKnownCard(entries, cards);
            && (r.None? <==> forall i :: 0 <= i < |cards| ==> UnknownCard(entries, cards[i]))
            && (r.Some? ==> exists i :: FirstKnown(entries, cards, i, r.value))
  {
    hide ByCard, CardEntry, UnknownCard;
    if cards != [] {
      LookupsTell(entries, cards[0], Key("", "", None));
      var r, rest := FirstKnownCard(entries, cards), cards[1..];
      FirstKnownTells(entries, rest);
      assert forall i :: 0 <= i < |rest| ==> rest[i] == cards[i + 1];
      assert forall i :: 1 <= i < |cards| ==> cards[i] == rest[i - 1];
      if !UnknownCard(entries, cards[0]) {
        assert FirstKnown(entries, cards, 0, r.value);
      } else if r.Some? {
        var i: nat :| FirstKnown(entries, rest, i, r.value);
        assert FirstKnown(entries, cards, i + 1, r.value);
      }
    }
  }

  /** A model is governed by the entry of its first card, else by the entry of its identity, else by that of the first later
      card the registry knows; without cards, or without any of these entries, it is a finding. */
  ghost predicate IsGovernance(entries: seq<Entry>, k: Key, cards: seq<string>, s: Source) {
    match s
    case MissingCard => |cards| == 0
    case NoRegistryEntry =>
      |cards| > 0 && UnknownModel(entries, k) && forall i :: 0 <= i < |cards| ==> UnknownCard(entries, cards[i])
    case FromRegistry(e) =>
      && |cards| > 0
      && (!UnknownCard(entries, cards[0]) ==> CardEntry(entries, cards[0], e))
      && (UnknownCard(entries, cards[0]) && !UnknownModel(entries, k) ==> ModelEntry(entries, k, e))
      && (UnknownCard(entries, cards[0]) && UnknownModel(entries, k) ==> exists i :: FirstKnown(entries, cards, i, e))
  }

  lemma {:induction false} GovernanceExactly(entries: seq<Entry>, k: Key, cards: seq<string>)
    ensures IsGovernance(entries, k, cards, Governance(entries, k, cards))
  {
    hide ByCard, ByIdentity, CardEntry, ModelEntry, UnknownCard, UnknownModel;
    if cards != [] {
      LookupsTell(entries, cards[0], k);
      FirstKnownTells(entries, cards);
    }
  }

  /** Trying every card before the identity, as the join's own comment has it, gives the same answer exactly if no
      identity entry exists, or the first card is known, or no card is, or the two entries are the same. */
  lemma {:induction false} CardPrecedenceExactlyWhen(entries: seq<Entry>, k: Key, cards: seq<string>)
    requires cards != []
    ensures var known, id := FirstKnownCard(entries, cards), ByIdentity(entries, k);
            var preferred := if known.Some? then FromRegistry(known.value) else if id.Some? then FromRegistry(id.value) else NoRegistryEntry;
            Governance(entries, k, cards) == preferred <==>
              id.None? || known.None? || known == id || (cards[0] != "" && ByCard(entries, cards[0]).Some?)
  {
  }

  // ---- columns ----

  /** Identity and usage are always there; a card if one was seen; the five registry columns if the entry fills them. */
  function Columns(cards: seq<string>, s: Source): seq<bool> {
    var e := if s.FromRegistry? then s.entry else Entry(None, None, None, None, "", "", "", "", "");
    [true, cards != [], e.intendedUse != "", e.riskTier != "", e.validationStatus != "", e.limitations != "", e.monitoring != "", true]
  }

  function Trues(s: seq<bool>): nat {
    if s == [] then 0 else Trues(s[..|s| - 1]) + if s[|s| - 1] then 1 else 0
  }

  lemma {:induction false} TruesBounds(s: seq<bool>)
    ensures Trues(s) <= |s|
    ensures |s| >= 2 && s[0] && s[|s| - 1] ==> Trues(s) >= 2
  {
    if s != [] {
      var init := s[..|s| - 1];
      TruesBounds(init);
      if init != [] && s[0] {
        FirstCounts(init);
      }
    }
  }

  lemma {:induction false} FirstCounts(s: seq<bool>)
    requires s != [] && s[0]
    ensures Trues(s) >= 1
  {
    if |s| > 1 {
      FirstCounts(s[..|s| - 1]);
    }
  }

  method BuildColumns(cards: seq<string>, s: Source) returns (resolved: nat)
    ensures resolved == Trues(Columns(cards, s)) && 2 <= resolved <= 8
    ensures resolved == 2 + One(|cards| > 0)
                        + match s
                          case FromRegistry(e) => One(|e.intendedUse| > 0) + One(|e.riskTier| > 0) + One(|e.validationStatus| > 0)
                                                  + One(|e.limitations| > 0) + One(|e.monitoring| > 0)
                          case _ => 0
  {
    var cols := Columns(cards, s);
    resolved := 0;
    for i := 0 to |cols|
      invariant resolved == Trues(cols[..i])
    {
      assert cols[..i + 1][..i] == cols[..i];
      if cols[i] {
        resolved := resolved + 1;
      }
    }
    assert cols[..|cols|] == cols;
    TruesBounds(cols);
    TruesOfEight(cols);
  }

  function One(b: bool): nat {
    if b then 1 else 0
  }

  lemma {:induction false} TruesOfEight(s: seq<bool>)
    requires |s| == 8
    ensures Trues(s) == One(s[0]) + One(s[1]) + One(s[2]) + One(s[3]) + One(s[4]) + One(s[5]) + One(s[6]) + One(s[7])
  {
    assert Trues(s[..0]) == 0;
    for i := 0 to 8
      invariant Trues(s[..i]) == (if i > 0 then One(s[0]) else 0) + (if i > 1 then One(s[1]) else 0)
                                 + (if i > 2 then One(s[2]) else 0) + (if i > 3 then One(s[3]) else 0)
                                 + (if i > 4 then One(s[4]) else 0) + (if i > 5 then One(s[5]) else 0)
                                 + (if i > 6 then One(s[6]) else 0) + (if i > 7 then One(s[7]) else 0)
    {
      assert s[..i + 1][..i] == s[..i];
    }
    assert s[..8] == s;
  }

  // ---- sampling ----

  /** num / den rounded to the nearest integer, halves to the even one. */
  function RoundHalfEven(num: nat, den: nat): nat
    requires den > 0
  {
    var q, r := num / den, num % den;
    if 2 * r < den then q else if 2 * r > den then q + 1 else if q % 2 == 0 then q else q + 1
  }

  function Same(i: nat): nat {
    i
  }

  predicate Below(a: nat, b: nat) {
    a < b
  }

  function Marks(count: nat, size: nat): (m: seq<nat>)
    requires size >= 2 && count >= 1
    ensures |m| == size
  {
    seq(size, i requires 0 <= i < size => RoundHalfEven(i * (count - 1), size - 1))
  }

  /** The sorted set of the rounded marks. */
  function SampleIndices(count: nat, size: nat): seq<nat>
    requires size >= 2 && count >= 1
  {
    SortBy(Below, KeysOf(Same, Marks(count, size)))
  }

  lemma {:induction false} RoundBounds(num: nat, den: nat)
    requires den > 0
    ensures 2 * num - den <= 2 * den * RoundHalfEven(num, den) <= 2 * num + den
    ensures 2 * den * RoundHalfEven(num, den) == 2 * num + den || 2 * den * RoundHalfEven(num, den) == 2 * num - den ==>
              RoundHalfEven(num, den) % 2 == 0
    ensures num % den == 0 ==> RoundHalfEven(num, den) == num / den
  {
    var q, r := num / den, num % den;
    assert num == q * den + r;
    assert 2 * den * q == 2 * num - 2 * r;
    assert 2 * den * (q + 1) == 2 * num - 2 * r + 2 * den;
  }

  /** Marks more than one apart round to different integers, in order. */
  lemma {:induction false} RoundIsStrict(a: nat, b: nat, den: nat)
    requires den > 0 && b > a + den
    ensures RoundHalfEven(a, den) < RoundHalfEven(b, den)
  {
    var x, y := RoundHalfEven(a, den), RoundHalfEven(b, den);
    RoundBounds(a, den);
    RoundBounds(b, den);
    assert 2 * den * x <= 2 * a + den < 2 * b - den <= 2 * den * y;
    if x >= y {
      Scale(2 * den, y, x);
    }
  }

  lemma {:induction false} Scale(k: nat, x: nat, y: nat)
    requires x <= y
    ensures k * x <= k * y
  {
  }

  lemma {:induction false} NextMark(a: nat, b: nat, step: nat, den: nat)
    requires step > den > 0 && b == a + 1
    ensures RoundHalfEven(a * step, den) < RoundHalfEven(b * step, den)
  {
    assert b * step == a * step + step;
    RoundIsStrict(a * step, b * step, den);
  }

  lemma {:induction false} MarksIncrease(count: nat, size: nat, i: nat, j: nat)
    requires size >= 2 && count > size && i < j < size
    ensures Marks(count, size)[i] < Marks(count, size)[j]
    decreases j
  {
    hide RoundHalfEven;
    NextMark(j - 1, j, count - 1, size - 1);
    if i < j - 1 {
      MarksIncrease(count, size, i, j - 1);
    }
  }

  lemma {:induction false} KeysOfDistinct(m: seq<nat>)
    requires forall i, j :: 0 <= i < j < |m| ==> m[i] < m[j]
    ensures KeysOf(Same, m) == m
  {
    if m != [] {
      var init, last := m[..|m| - 1], m[|m| - 1];
      KeysOfDistinct(init);
      forall k | k in init ensures k != last {
        var i :| 0 <= i < |init| && init[i] == k;
        assert m[i] < m[|m| - 1];
      }
      assert m == init + [last] && Same(last) == last;
    }
  }

  /** n is a nearest integer to num / den, and the even one if two are. */
  predicate Nearest(num: int, den: int, n: int) {
    && 2 * num - den <= 2 * den * n <= 2 * num + den
    && (2 * den * n in {2 * num - den, 2 * num + den} ==> n % 2 == 0)
  }

  /** With room to choose, the sample has exactly the asked size: strictly increasing places, the first and last
      among them, each the nearest to its share of the way, halves to the even one. */
  lemma {:induction false} SampleExactly(count: nat, size: nat)
    requires size >= 2 && count > size
    ensures var s := SampleIndices(count, size);
            && |s| == size && s[0] == 0 && s[size - 1] == count - 1
            && (forall i, j :: 0 <= i < j < size ==> s[i] < s[j])
            && (forall i :: 0 <= i < size ==> s[i] < count && Nearest(i * (count - 1), size - 1, s[i]))
  {
    var m := Marks(count, size);
    forall i | 0 <= i < size ensures Nearest(i * (count - 1), size - 1, m[i]) {
      RoundBounds(i * (count - 1), size - 1);
    }
    forall i, j | 0 <= i < j < size ensures m[i] < m[j] {
      MarksIncrease(count, size, i, j);
    }
    KeysOfDistinct(m);
    SortOfSorted(Below, m);
    EndMarks(count, size);
  }

  lemma {:induction false} EndMarks(count: nat, size: nat)
    requires size >= 2 && count >= 1
    ensures Marks(count, size)[0] == 0 && Marks(count, size)[size - 1] == count - 1
  {
    var den := size - 1;
    RoundBounds(0, den);
    WholeMultiple(den, count - 1);
    RoundBounds(den * (count - 1), den);
  }

  lemma {:induction false} WholeMultiple(den: nat, n: nat)
    requires den > 0
    ensures (den * n) % den == 0 && (den * n) / den == n
  {
    var q, r := (den * n) / den, (den * n) % den;
    assert den * n == den * q + r;
    if q < n {
      Scale(den, q + 1, n);
      assert false;
    }
    if n < q {
      Scale(den, n + 1, q);
      assert false;
    }
  }

  /** The sample is the spans at the given places. */
  ghost predicate Picks(spans: seq<Call>, places: seq<nat>, sample: seq<Call>) {
    |sample| == |places| && forall i :: 0 <= i < |places| ==> places[i] < |spans| && sample[i] == spans[places[i]]
  }

  /** All spans if they fit; the first alone if no more than one is asked for; else exactly as many as asked for,
      spread over the period with the earliest and the latest among them. */
  ghost predicate IsSample(spans: seq<Call>, size: int, sample: seq<Call>) {
    && (|spans| <= size ==> sample == spans)
    && (spans != [] && size < |spans| && size <= 1 ==> sample == [spans[0]])
    && (2 <= size < |spans| ==>
          && |sample| == size && sample[0] == spans[0] && sample[size - 1] == spans[|spans| - 1]
          && Picks(spans, SampleIndices(|spans|, size), sample))
  }

  method SampleSpans(spans: seq<Call>, size: int) returns (sample: seq<Call>)
    requires spans != []
    ensures IsSample(spans, size, sample)
  {
    var count := |spans|;
    if count <= size || size <= 1 {
      return if count <= size then spans else [spans[0]];
    }
    SampleExactly(count, size);
    var indices := SampleIndices(count, size);
    sample := seq(|indices|, i requires 0 <= i < |indices| => spans[indices[i]]);
  }

  // ---- the report ----

  /** One row per group, by ascending key; each carries its own group's usage, governance, columns and sample. */
  ghost predicate IsRow(entries: seq<Entry>, calls: seq<Call>, size: int, r: Row) {
    var own := Where(OfKey(r.key), calls);
    && own != []
    && IsUsage(own, r.usage)
    && r.source == Governance(entries, r.key, r.usage.cards)
    && (r.governed <==> r.source.FromRegistry?)
    && r.resolved == Trues(Columns(r.usage.cards, r.source)) && 2 <= r.resolved <= 8
    && IsSample(SortBy(Earlier, own), size, r.sample)
  }

  function RowKeys(rows: seq<Row>): (keys: seq<Key>)
    ensures |keys| == |rows|
  {
    seq(|rows|, i requires 0 <= i < |rows| => rows[i].key)
  }

  function SortedKeys(calls: seq<Call>): seq<Key> {
    SortBy(KeyLess, KeysOf(KeyOf, calls))
  }

  function Decisions(rows: seq<Row>): nat {
    if rows == [] then 0 else Decisions(rows[..|rows| - 1]) + rows[|rows| - 1].usage.decisions
  }

  function Resolved(rows: seq<Row>): nat {
    if rows == [] then 0 else Resolved(rows[..|rows| - 1]) + rows[|rows| - 1].resolved
  }

  function GovernedIn(rows: seq<Row>): nat {
    if rows == [] then 0 else GovernedIn(rows[..|rows| - 1]) + if rows[|rows| - 1].governed then 1 else 0
  }

  /** The keys of the rows with a given finding, in row order. */
  function Listed(rows: seq<Row>, finding: Source): seq<Key> {
    if rows == [] then []
    else
      var before, last := Listed(rows[..|rows| - 1], finding), rows[|rows| - 1];
      if last.source == finding then before + [last.key] else before
  }

  method BuildRow(entries: seq<Entry>, calls: seq<Call>, own: seq<Call>, k: Key, size: int) returns (r: Row)
    requires own == Where(OfKey(k), calls) && own != []
    ensures r.key == k && IsRow(entries, calls, size, r)
  {
    hide CardsOf, Tokens, SomeMissing, SomeCounted, Where, Trues, Governance, IsSample;
    var usage := BuildUsage(own);
    var source := ResolveGovernance(entries, k, usage.cards);
    var resolved := BuildColumns(usage.cards, source);
    var sample := SampleSpans(SortBy(Earlier, own), size);
    var governed := source.FromRegistry? && usage.cards != [];
    GovernedHasCards(entries, k, usage.cards);
    r := Row(k, usage, source, governed, resolved, sample);
  }

  lemma {:induction false} GovernedHasCards(entries: seq<Entry>, k: Key, cards: seq<string>)
    ensures Governance(entries, k, cards).FromRegistry? ==> cards != []
    ensures Governance(entries, k, cards).MissingCard? <==> cards == []
  {
  }

  /** The groups as a dictionary, with its keys in insertion order. */
  method GroupCalls(calls: seq<Call>) returns (order: seq<Key>, groups: map<Key, seq<Call>>)
    ensures order == KeysOf(KeyOf, calls)
    ensures forall k :: k in order ==> k in groups && groups[k] == Where(OfKey(k), calls) && groups[k] != []
  {
    hide Where, KeyOf;
    order, groups := [], map[];
    for i := 0 to |calls|
      invariant order == KeysOf(KeyOf, calls[..i])
      invariant forall k :: k in groups <==> k in order
      invariant forall k :: k in groups ==> groups[k] == Where(OfKey(k), calls[..i]) && groups[k] != []
    {
      var k := KeyOf(calls[i]);
      assert calls[..i + 1][..i] == calls[..i];
      assert calls[..i + 1] == calls[..i] + [calls[i]];
      GroupGrows(calls[..i], calls[i]);
      if k !in groups {
        order := order + [k];
        groups := groups[k := []];
      }
      groups := groups[k := groups[k] + [calls[i]]];
    }
    assert calls[..|calls|] == calls;
  }

  lemma {:induction false} GroupGrows(calls: seq<Call>, c: Call)
    ensures forall k :: Where(OfKey(k), calls + [c]) == if KeyOf(c) == k then Where(OfKey(k), calls) + [c] else Where(OfKey(k), calls)
    ensures KeyOf(c) !in KeysOf(KeyOf, calls) ==> Where(OfKey(KeyOf(c)), calls) == []
  {
    forall k ensures Where(OfKey(k), calls + [c]) == if KeyOf(c) == k then Where(OfKey(k), calls) + [c] else Where(OfKey(k), calls) {
      WhereAppend(OfKey(k), calls, c);
    }
    if KeyOf(c) !in KeysOf(KeyOf, calls) {
      KeysMembers(KeyOf, calls, KeyOf(c));
      WhereNone(OfKey(KeyOf(c)), calls);
    }
  }

  /** What the report says about its calls. */
  ghost predicate IsReport(entries: seq<Entry>, calls: seq<Call>, size: int, r: Report) {
    && RowKeys(r.rows) == SortedKeys(calls)
    && (forall row :: row in r.rows ==> IsRow(entries, calls, size, row))
    && r.governedModels == GovernedIn(r.rows)
    && r.missingCard == Listed(r.rows, MissingCard)
    && r.missingRegistry == Listed(r.rows, NoRegistryEntry)
    && r.rows != []
    && r.completeness == Resolved(r.rows) as real / (|r.rows| * 8) as real
  }

  method ExtractInventory(corpus: seq<Call>, entries: seq<Entry>, from: int, to: int, tenant: Option<string>, size: int)
      returns (r: Result<Report, Failure>)
    ensures r.Err? <==> Scope(corpus, from, to, tenant).Err?
    ensures r.Err? ==> r.error == Scope(corpus, from, to, tenant).error
    ensures r.Ok? ==> IsReport(entries, Scope(corpus, from, to, tenant).value, size, r.value)
  {
    hide IsRow, KeyLess, Where, SortBy;
    hide Scope;
    var scope := Scope(corpus, from, to, tenant);
    ScopeIsNotEmpty(corpus, from, to, tenant);
    if scope.Err? {
      return Err(scope.error);
    }
    var calls := scope.value;
    var order, groups := GroupCalls(calls);
    var keys := SortKeys(calls, order);
    var rows: seq<Row> := [];
    var resolved, governed := 0, 0;
    var missingCard, missingRegistry: seq<Key> := [], [];
    for i := 0 to |keys|
      invariant RowKeys(rows) == keys[..i]
      invariant forall row :: row in rows ==> IsRow(entries, calls, size, row)
      invariant resolved == Resolved(rows) && governed == GovernedIn(rows)
      invariant missingCard == Listed(rows, MissingCard) && missingRegistry == Listed(rows, NoRegistryEntry)
    {
      var row := BuildRow(entries, calls, groups[keys[i]], keys[i], size);
      if row.source.MissingCard? {
        missingCard := missingCard + [row.key];
      } else if row.source.NoRegistryEntry? {
        missingRegistry := missingRegistry + [row.key];
      }
      if row.governed {
        governed := governed + 1;
      }
      resolved := resolved + row.resolved;
      assert (rows + [row])[..|rows|] == rows;
      rows := rows + [row];
    }
    r := Ok(Report(rows, governed, missingCard, missingRegistry, resolved as real / (|rows| * 8) as real));
  }

  method SortKeys(calls: seq<Call>, order: seq<Key>) returns (keys: seq<Key>)
    requires order == KeysOf(KeyOf, calls) && calls != []
    ensures keys == SortedKeys(calls) && keys != []
    ensures forall i :: 0 <= i < |keys| ==> keys[i] in order
  {
    hide KeysOf, KeyLess, KeyOf;
    keys := SortBy(KeyLess, order);
    SortIsPermutation(KeyLess, order);
    KeysMembers(KeyOf, calls, KeyOf(calls[0]));
    assert calls[0] in calls;
    assert KeyOf(calls[0]) in keys;
  }

  // ---- what every report satisfies ----

  lemma {:induction false} SortedKeysExactly(calls: seq<Call>)
    ensures forall k :: k in SortedKeys(calls) <==> exists c :: c in calls && KeyOf(c) == k
    ensures forall i, j :: 0 <= i < j < |SortedKeys(calls)| ==> SortedKeys(calls)[i] != SortedKeys(calls)[j]
  {
    var ids := KeysOf(KeyOf, calls);
    SortIsPermutation(KeyLess, ids);
    forall k ensures k in ids <==> exists c :: c in calls && KeyOf(c) == k {
      KeysMembers(KeyOf, calls, k);
    }
    forall i, j | 0 <= i < j < |SortedKeys(calls)| ensures SortedKeys(calls)[i] != SortedKeys(calls)[j] {
      Spans.PermutedDistinct(ids, SortedKeys(calls), i, j);
    }
  }

  function GroupTotal(keys: seq<Key>, calls: seq<Call>): nat {
    if keys == [] then 0
    else GroupTotal(keys[..|keys| - 1], calls) + |Where(OfKey(keys[|keys| - 1]), calls)|
  }

  lemma {:induction false} GroupTotalGrows(keys: seq<Key>, calls: seq<Call>, c: Call)
    ensures GroupTotal(keys, calls + [c]) == GroupTotal(keys, calls) + multiset(keys)[KeyOf(c)]
  {
    if keys != [] {
      var init, k := keys[..|keys| - 1], keys[|keys| - 1];
      assert keys == init + [k];
      GroupTotalGrows(init, calls, c);
      WhereAppend(OfKey(k), calls, c);
    }
  }

  lemma {:induction false} NoCallsNoTotal(keys: seq<Key>)
    ensures GroupTotal(keys, []) == 0
  {
    if keys != [] {
      NoCallsNoTotal(keys[..|keys| - 1]);
    }
  }

  /** Groups under distinct keys that cover all calls add up to the calls. */
  lemma {:induction false} GroupsAddUp(keys: seq<Key>, calls: seq<Call>)
    requires Spans.Distinct(keys) && (forall c :: c in calls ==> KeyOf(c) in keys)
    ensures GroupTotal(keys, calls) == |calls|
  {
    if calls == [] {
      NoCallsNoTotal(keys);
    } else {
      var init, c := calls[..|calls| - 1], calls[|calls| - 1];
      assert calls == init + [c];
      GroupsAddUp(keys, init);
      GroupTotalGrows(keys, init, c);
      Spans.AtMostOnce(keys, KeyOf(c));
      assert KeyOf(c) in multiset(keys);
    }
  }

  lemma {:induction false} RowsAreGroups(entries: seq<Entry>, calls: seq<Call>, size: int, rows: seq<Row>)
    requires forall row :: row in rows ==> IsRow(entries, calls, size, row)
    ensures Decisions(rows) == GroupTotal(RowKeys(rows), calls)
    ensures 2 * |rows| <= Resolved(rows) <= 8 * |rows|
    ensures GovernedIn(rows) + |Listed(rows, MissingCard)| + |Listed(rows, NoRegistryEntry)| == |rows|
  {
    hide SomeMissing, SomeCounted, Trues, Governance, Tokens, CardsOf, IsSample;
    if rows != [] {
      var init, last := rows[..|rows| - 1], rows[|rows| - 1];
      assert rows == init + [last];
      RowsAreGroups(entries, calls, size, init);
      assert RowKeys(rows)[..|init|] == RowKeys(init);
      assert IsRow(entries, calls, size, last);
    }
  }

  /** Every report: the rows partition the calls, each row is governed or one of the two findings, never more than
      one, and completeness lies between a quarter and one. */
  lemma {:induction false} ReportAddsUp(entries: seq<Entry>, calls: seq<Call>, size: int, r: Report)
    requires IsReport(entries, calls, size, r)
    ensures Decisions(r.rows) == |calls|
    ensures forall i, j :: 0 <= i < j < |r.rows| ==> r.rows[i].key != r.rows[j].key
    ensures r.governedModels + |r.missingCard| + |r.missingRegistry| == |r.rows|
    ensures 0.25 <= r.completeness <= 1.0
  {
    hide IsRow, KeyLess;
    SortedKeysExactly(calls);
    RowsAreGroups(entries, calls, size, r.rows);
    forall c | c in calls ensures KeyOf(c) in SortedKeys(calls) {
    }
    GroupsAddUp(RowKeys(r.rows), calls);
    forall i, j | 0 <= i < j < |r.rows| ensures r.rows[i].key != r.rows[j].key {
      assert RowKeys(r.rows)[i] != RowKeys(r.rows)[j];
    }
    RatioBounds(Resolved(r.rows), |r.rows|);
  }

  // ---- the rows, read off the calls ----

  /** Calls without a model name share one row per provider. */
  predicate BelongsTo(c: Call, k: Key) {
    if |c.modelName| > 0 then k == Key(c.provider, c.modelName, c.modelVersion)
    else k == Key(if |c.provider| > 0 then c.provider else "unknown", "unidentified", None)
  }

  /** By provider, then model, then version, where a missing version is an empty one. */
  ghost predicate Ascend(a: Key, b: Key) {
    || Precedes(a.provider, b.provider)
    || (a.provider == b.provider
        && (|| Precedes(a.modelName, b.modelName)
            || (a.modelName == b.modelName && AscendVersion(a.modelVersion, b.modelVersion))))
  }

  ghost predicate AscendVersion(a: Option<string>, b: Option<string>) {
    a in {None, Some("")} || a == b || (a.Some? && b.Some? && Precedes(a.value, b.value))
  }

  lemma {:induction false} KeyLessIsOrder()
    ensures StrictWeakOrder(KeyLess)
  {
    StringLessIsOrder();
    forall x: Key ensures !KeyLess(x, x) {
      StringLessIsTotal(x.provider, x.provider);
      StringLessIsTotal(x.modelName, x.modelName);
      StringLessIsTotal(VersionText(x), VersionText(x));
    }
    forall x: Key, y: Key, z: Key | KeyLess(x, y) && KeyLess(y, z) ensures KeyLess(x, z) {
    }
    forall x: Key, y: Key, z: Key | KeyLess(x, z) ensures KeyLess(x, y) || KeyLess(y, z) {
    }
  }

  lemma {:induction false} NotGreaterAscends(a: Key, b: Key)
    requires !KeyLess(b, a)
    ensures Ascend(a, b)
  {
    StringLessIsTotal(a.provider, b.provider);
    StringLessExactlyWhen(a.provider, b.provider);
    StringLessIsTotal(a.modelName, b.modelName);
    StringLessExactlyWhen(a.modelName, b.modelName);
    StringLessIsTotal(VersionText(a), VersionText(b));
    StringLessExactlyWhen(VersionText(a), VersionText(b));
  }

  ghost predicate Used(calls: seq<Call>, k: Key) {
    exists c :: c in calls && BelongsTo(c, k)
  }

  /** The row's figures are those of the calls that belong to its key. */
  ghost predicate Tells(calls: seq<Call>, row: Row) {
    && row.usage.decisions == |set j | 0 <= j < |calls| && BelongsTo(calls[j], row.key)|
    && row.usage.trajectories == |set c | c in calls && BelongsTo(c, row.key) :: c.trajectoryId|
    && (row.usage.tokensPartial <==> exists c :: c in calls && BelongsTo(c, row.key) && c.tokens.None?)
    && (row.usage.totalTokens.None? <==> forall c :: c in calls && BelongsTo(c, row.key) ==> c.tokens.None?)
    && (forall x :: x in row.sample ==> x in calls && BelongsTo(x, row.key))
    && (forall i, j :: 0 <= i < j < |row.sample| ==> row.sample[i].start <= row.sample[j].start)
  }

  lemma {:induction false} OwnCalls(calls: seq<Call>, k: Key)
    ensures forall c :: c in Where(OfKey(k), calls) <==> c in calls && BelongsTo(c, k)
    ensures |Where(OfKey(k), calls)| == |set j | 0 <= j < |calls| && BelongsTo(calls[j], k)|
  {
    forall c ensures c in Where(OfKey(k), calls) <==> c in calls && BelongsTo(c, k) {
      WhereMembers(OfKey(k), calls, c);
    }
    WhereSize(OfKey(k), calls);
    assert Places(OfKey(k), calls) == set j | 0 <= j < |calls| && BelongsTo(calls[j], k);
  }

  lemma {:induction false} UsageTells(calls: seq<Call>, own: seq<Call>, row: Row)
    requires IsUsage(own, row.usage) && |own| == |set j | 0 <= j < |calls| && BelongsTo(calls[j], row.key)|
    requires forall c :: c in own <==> c in calls && BelongsTo(c, row.key)
    requires forall x :: x in row.sample ==> x in own
    requires forall i, j :: 0 <= i < j < |row.sample| ==> row.sample[i].start <= row.sample[j].start
    ensures Tells(calls, row)
  {
    hide Tokens, CardsOf, BelongsTo;
    assert (set c | c in own :: c.trajectoryId) == set c | c in calls && BelongsTo(c, row.key) :: c.trajectoryId;
  }

  lemma {:induction false} RowTells(entries: seq<Entry>, calls: seq<Call>, size: int, row: Row)
    requires IsRow(entries, calls, size, row)
    ensures Tells(calls, row) && Used(calls, row.key)
  {
    hide IsUsage, Trues, Governance, IsSample, Tells, BelongsTo;
    var own := Where(OfKey(row.key), calls);
    OwnCalls(calls, row.key);
    SampleOrder(own, size, row.sample);
    UsageTells(calls, own, row);
    assert own[0] in own;
  }

  lemma {:induction false} SampleOrder(own: seq<Call>, size: int, sample: seq<Call>)
    requires own != [] && IsSample(SortBy(Earlier, own), size, sample)
    ensures forall x :: x in sample ==> x in own
    ensures forall i, j :: 0 <= i < j < |sample| ==> sample[i].start <= sample[j].start
  {
    hide SortBy, SampleIndices;
    var spans := SortBy(Earlier, own);
    SortIsPermutation(Earlier, own);
    StartsAscend(own);
    if 2 <= size < |spans| {
      SampleExactly(|spans|, size);
      forall x | x in sample ensures x in own {
        var i :| 0 <= i < |sample| && sample[i] == x;
        assert x in spans;
      }
    }
  }

  /** The keys of a report ascend and are those that calls belong to. */
  lemma {:induction false} KeysExactly(calls: seq<Call>)
    ensures var keys := SortedKeys(calls);
            && (forall k :: k in keys <==> Used(calls, k))
            && (forall i, j :: 0 <= i < j < |keys| ==> keys[i] != keys[j] && Ascend(keys[i], keys[j]))
  {
    hide KeyLess, Ascend, SortBy, KeysOf;
    var keys := SortedKeys(calls);
    SortedKeysExactly(calls);
    KeyLessIsOrder();
    SortIsSorted(KeyLess, KeysOf(KeyOf, calls));
    forall i, j | 0 <= i < j < |keys| ensures Ascend(keys[i], keys[j]) {
      NotGreaterAscends(keys[i], keys[j]);
    }
    assert forall c, k :: KeyOf(c) == k <==> BelongsTo(c, k);
  }

  /** Every report has, in ascending order, one row for each key that calls belong to, with the figures of those calls. */
  lemma {:induction false} RowsExactly(entries: seq<Entry>, calls: seq<Call>, size: int, r: Report)
    requires IsReport(entries, calls, size, r)
    ensures forall row :: row in r.rows ==> Tells(calls, row)
    ensures forall k :: k in RowKeys(r.rows) <==> Used(calls, k)
    ensures forall i, j :: 0 <= i < j < |r.rows| ==> r.rows[i].key != r.rows[j].key && Ascend(r.rows[i].key, r.rows[j].key)
  {
    hide IsRow, KeyLess, Tells, Ascend, Used, SortedKeys;
    forall row | row in r.rows ensures Tells(calls, row) {
      RowTells(entries, calls, size, row);
    }
    KeysExactly(calls);
    assert forall i :: 0 <= i < |r.rows| ==> RowKeys(r.rows)[i] == r.rows[i].key;
  }

  lemma {:induction false} RatioBounds(x: nat, n: nat)
    requires n > 0 && 2 * n <= x <= 8 * n
    ensures 0.25 <= x as real / (n * 8) as real <= 1.0
  {
    hide *;
    Ratio(x as real, (n * 8) as real);
  }

  lemma {:induction false} Ratio(x: real, d: real)
    requires d > 0.0 && 0.25 * d <= x <= d
    ensures 0.25 <= x / d <= 1.0
  {
    hide *;
    var q := x / d;
    assert q * d == x;
    if q > 1.0 {
      Times(1.0, q, d);
      assert false;
    }
    if q < 0.25 {
      Times(q, 0.25, d);
      assert false;
    }
  }

  lemma {:induction false} Times(a: real, b: real, d: real)
    requires a < b && d > 0.0
    ensures a * d < b * d
  {
    assert (b - a) * d > 0.0;
  }
}
