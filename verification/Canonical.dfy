/**
 The canonical serialization under every content hash: normalize sorts keys, a second sort and
 print yield the text, and the top-level provenance field is left out.
 */
module Canonical {
  import opened Wrappers
  import opened Json
  import opened Sorting

  // ---- the meaning of a value: objects are maps ----

  datatype Value =
    | VNull
    | VBool(b: bool)
    | VNum(n: int)
    | VStr(s: string)
    | VArr(items: seq<Value>)
    | VObj(fields: map<string, Value>)

  function Meaning(v: Json): Value
    decreases v
  {
    match v
    case Null => VNull
    case Bool(b) => VBool(b)
    case Num(n) => VNum(n)
    case Str(s) => VStr(s)
    case Arr(items) => VArr(ItemMeanings(items))
    case Obj(fields) => VObj(FieldMeanings(fields))
  }

  function ItemMeanings(items: seq<Json>): (r: seq<Value>)
    ensures |r| == |items|
    decreases items
  {
    if items == [] then [] else [Meaning(items[0])] + ItemMeanings(items[1..])
  }

  function FieldMeaning(f: Field): Value
    decreases f
  {
    Meaning(f.value)
  }

  function FieldMeanings(fields: seq<Field>): map<string, Value>
    decreases fields
  {
    if fields == [] then map[] else FieldMeanings(fields[1..])[fields[0].key := FieldMeaning(fields[0])]
  }

  predicate DistinctKeys(fields: seq<Field>) {
    forall i, j :: 0 <= i < j < |fields| ==> fields[i].key != fields[j].key
  }

  /** Keys are distinct in every object. */
  predicate WellFormed(v: Json)
    decreases v
  {
    match v
    case Arr(items) => forall x :: x in items ==> WellFormed(x)
    case Obj(fields) => DistinctKeys(fields) && forall f :: f in fields ==> WellFormedField(f)
    case _ => true
  }

  predicate WellFormedField(f: Field)
    decreases f
  {
    WellFormed(f.value)
  }

  // ---- the serializer ----

  predicate KeyLess(f: Field, g: Field) {
    StringLess(f.key, g.key)
  }

  function SortFields(fields: seq<Field>): (r: seq<Field>)
    ensures forall f :: f in r <==> f in fields
  {
    SortIsPermutation(KeyLess, fields);
    SortBy(KeyLess, fields)
  }

  function Normalize(v: Json): Json
    decreases v, 0
  {
    match v
    case Arr(items) => Arr(NormalizeItems(items))
    case Obj(fields) => Obj(NormalizeEntries(v, SortFields(fields)))
    case _ => v
  }

  function NormalizeItems(items: seq<Json>): (r: seq<Json>)
    ensures |r| == |items|
    decreases items
  {
    if items == [] then [] else [Normalize(items[0])] + NormalizeItems(items[1..])
  }

  /** The entries are some fields of the object v. */
  function NormalizeEntries(v: Json, entries: seq<Field>): (r: seq<Field>)
    requires v.Obj? && forall e :: e in entries ==> e in v.fields
    ensures |r| == |entries|
    decreases v, 0, |entries|
  {
    if entries == [] then []
    else
      assert entries[0] in v.fields;
      [NormalizeField(entries[0])] + NormalizeEntries(v, entries[1..])
  }

  function NormalizeField(f: Field): Field
    decreases f, 0
  {
    Field(f.key, Normalize(f.value))
  }

  function StableStringify(v: Json): string
    decreases v, 0
  {
    match v
    case Arr(items) => "[" + StringifyItems(items) + "]"
    case Obj(fields) => "{" + StringifyEntries(v, SortFields(fields)) + "}"
    case _ => Print(v)
  }

  function StringifyItems(items: seq<Json>): string
    decreases items
  {
    if items == [] then ""
    else StableStringify(items[0]) + (if |items| == 1 then "" else "," + StringifyItems(items[1..]))
  }

  function StringifyEntries(v: Json, entries: seq<Field>): string
    requires v.Obj? && forall e :: e in entries ==> e in v.fields
    decreases v, 0, |entries|
  {
    if entries == [] then ""
    else
      assert entries[0] in v.fields;
      StringifyField(entries[0]) + (if |entries| == 1 then "" else "," + StringifyEntries(v, entries[1..]))
  }

  function StringifyField(f: Field): string
    decreases f, 0
  {
    Quote(f.key) + ":" + StableStringify(f.value)
  }

  lemma {:induction false} NextItem(items: seq<Json>, i: nat, out: seq<Json>)
    requires i < |items|
    ensures out + NormalizeItems(items[i..]) == (out + [Normalize(items[i])]) + NormalizeItems(items[i + 1..])
  {
    assert items[i..][1..] == items[i + 1..];
  }

  lemma {:induction false} NextEntry(v: Json, entries: seq<Field>, i: nat, out: seq<Field>)
    requires v.Obj? && (forall e :: e in entries ==> e in v.fields) && i < |entries|
    ensures out + NormalizeEntries(v, entries[i..])
            == (out + [Field(entries[i].key, Normalize(entries[i].value))]) + NormalizeEntries(v, entries[i + 1..])
  {
    assert entries[i..][1..] == entries[i + 1..];
  }

  method NormalizeValue(v: Json) returns (r: Json)
    ensures r == Normalize(v)
    decreases v
  {
    match v {
      case Arr(items) =>
        var out: seq<Json> := [];
        for i := 0 to |items|
          invariant out + NormalizeItems(items[i..]) == NormalizeItems(items)
        {
          hide NormalizeItems;
          NextItem(items, i, out);
          var x := NormalizeValue(items[i]);
          out := out + [x];
        }
        r := Arr(out);
      case Obj(fields) =>
        var sorted := SortFields(fields);
        var out: seq<Field> := [];
        for i := 0 to |sorted|
          invariant out + NormalizeEntries(v, sorted[i..]) == NormalizeEntries(v, sorted)
        {
          hide NormalizeEntries;
          assert sorted[i] in fields;
          NextEntry(v, sorted, i, out);
          var x := NormalizeValue(sorted[i].value);
          out := out + [Field(sorted[i].key, x)];
        }
        r := Obj(out);
      case _ =>
        r := v;
    }
  }

  // ---- date-time shapes ----

  const PROVENANCE := "provenance"

  predicate DigitsAt(s: string, from: nat, to: nat) {
    to <= |s| && forall p :: from <= p < to ==> IsDigit(s[p])
  }

  /** Matches `^\d{4}-\d{2}-\d{2}T`. */
  predicate LooksLikeDatetime(s: string) {
    |s| >= 11 && DigitsAt(s, 0, 4) && s[4] == '-' && DigitsAt(s, 5, 7) && s[7] == '-' && DigitsAt(s, 8, 10) && s[10] == 'T'
  }

  /** Matches `^\d{4}-\d{2}-\d{2}T\d{2}:\d{2}:\d{2}\.\d{6}Z$`. */
  predicate CanonicalDatetime(s: string) {
    && |s| == 27 && LooksLikeDatetime(s)
    && DigitsAt(s, 11, 13) && s[13] == ':' && DigitsAt(s, 14, 16) && s[16] == ':' && DigitsAt(s, 17, 19) && s[19] == '.'
    && DigitsAt(s, 20, 26) && s[26] == 'Z'
  }

  predicate DatetimesOk(v: Json)
    decreases v
  {
    match v
    case Str(s) => LooksLikeDatetime(s) ==> CanonicalDatetime(s)
    case Arr(items) => forall x :: x in items ==> DatetimesOk(x)
    case Obj(fields) => forall f :: f in fields ==> FieldDatetimesOk(f)
    case _ => true
  }

  predicate FieldDatetimesOk(f: Field)
    decreases f
  {
    DatetimesOk(f.value)
  }

  function WithoutProvenance(v: Json): Json {
    if v.Obj? then Obj(DropKey(v.fields, PROVENANCE)) else v
  }

  function DropKey(fields: seq<Field>, key: string): (r: seq<Field>)
    ensures forall f :: f in r <==> f in fields && f.key != key
  {
    if fields == [] then []
    else (if fields[0].key == key then [] else [fields[0]]) + DropKey(fields[1..], key)
  }

  datatype CanonicalError = NonCanonicalDatetime

  function CanonicalJson(v: Json): Result<string, CanonicalError> {
    var working := WithoutProvenance(v);
    if DatetimesOk(working) then Ok(StableStringify(Normalize(working))) else Err(NonCanonicalDatetime)
  }

  // ---- stringify prints the normal form ----

  lemma {:induction false} NormalizeEntriesAt(v: Json, entries: seq<Field>, i: nat)
    requires v.Obj? && (forall e :: e in entries ==> e in v.fields) && i < |entries|
    ensures NormalizeEntries(v, entries)[i] == NormalizeField(entries[i])
    decreases |entries|
  {
    if i > 0 {
      NormalizeEntriesAt(v, entries[1..], i - 1);
    }
  }

  lemma {:induction false} StringifyIsPrint(v: Json)
    ensures StableStringify(v) == Print(Normalize(v))
    decreases v, 0
  {
    match v
    case Arr(items) => StringifyItemsIsPrint(items);
    case Obj(fields) => StringifyEntriesIsPrint(v, SortFields(fields));
    case _ =>
  }

  lemma {:induction false} StringifyItemsIsPrint(items: seq<Json>)
    ensures StringifyItems(items) == PrintItems(NormalizeItems(items))
    decreases items
  {
    if items != [] {
      StringifyIsPrint(items[0]);
      StringifyItemsIsPrint(items[1..]);
      assert NormalizeItems(items)[1..] == NormalizeItems(items[1..]);
    }
  }

  lemma {:induction false} StringifyEntriesIsPrint(v: Json, entries: seq<Field>)
    requires v.Obj? && forall e :: e in entries ==> e in v.fields
    ensures StringifyEntries(v, entries) == PrintFields(NormalizeEntries(v, entries))
    decreases v, 0, |entries|
  {
    if entries != [] {
      assert entries[0] in v.fields;
      StringifyIsPrint(entries[0].value);
      StringifyEntriesIsPrint(v, entries[1..]);
      assert NormalizeEntries(v, entries)[1..] == NormalizeEntries(v, entries[1..]);
    }
  }

  /** Normalizing twice changes nothing. */
  lemma {:induction false} NormalizeIsIdempotent(v: Json)
    ensures Normalize(Normalize(v)) == Normalize(v)
    decreases v, 0
  {
    match v
    case Arr(items) => NormalizeItemsIsIdempotent(items);
    case Obj(fields) =>
      var entries := SortFields(fields);
      var once := Normalize(v);
      NormalFieldsSorted(v);
      SortOfSorted(KeyLess, once.fields);
      assert SortFields(once.fields) == once.fields;
      forall i | 0 <= i < |entries|
        ensures NormalizeEntries(once, once.fields)[i] == once.fields[i]
      {
        NormalizeEntriesAt(v, entries, i);
        NormalizeEntriesAt(once, once.fields, i);
        assert entries[i] in fields;
        NormalizeIsIdempotent(entries[i].value);
      }
      assert NormalizeEntries(once, once.fields) == once.fields;
    case _ =>
  }

  lemma {:induction false} NormalizeItemsIsIdempotent(items: seq<Json>)
    ensures NormalizeItems(NormalizeItems(items)) == NormalizeItems(items)
    decreases items
  {
    if items != [] {
      NormalizeIsIdempotent(items[0]);
      NormalizeItemsIsIdempotent(items[1..]);
      assert NormalizeItems(items)[1..] == NormalizeItems(items[1..]);
    }
  }

  lemma {:induction false} KeyLessIsOrder()
    ensures StrictWeakOrder(KeyLess)
  {
    StringLessIsOrder();
  }

  lemma {:induction false} NormalFieldsSorted(v: Json)
    requires v.Obj?
    ensures SortedBy(KeyLess, Normalize(v).fields)
  {
    var entries, normal := SortFields(v.fields), Normalize(v).fields;
    KeyLessIsOrder();
    SortIsSorted(KeyLess, v.fields);
    forall i, j | 0 <= i < j < |normal| ensures !KeyLess(normal[j], normal[i]) {
      NormalizeEntriesAt(v, entries, i);
      NormalizeEntriesAt(v, entries, j);
      assert !KeyLess(entries[j], entries[i]);
    }
  }

  // ---- equal texts mean equal values ----

  lemma {:induction false} ItemMeaningAt(items: seq<Json>, i: nat)
    requires i < |items|
    ensures ItemMeanings(items)[i] == Meaning(items[i])
  {
    if i > 0 {
      ItemMeaningAt(items[1..], i - 1);
    }
  }

  lemma {:induction false} DistinctTail(fields: seq<Field>)
    requires fields != [] && DistinctKeys(fields)
    ensures DistinctKeys(fields[1..])
  {
    var rest := fields[1..];
    forall i, j | 0 <= i < j < |rest| ensures rest[i].key != rest[j].key {
      assert rest[i] == fields[i + 1] && rest[j] == fields[j + 1];
    }
  }

  predicate HasKey(fields: seq<Field>, key: string) {
    exists f :: f in fields && f.key == key
  }

  /** With distinct keys, the map of an object holds exactly its fields. */
  lemma {:induction false} FieldMeaningsHold(fields: seq<Field>)
    requires DistinctKeys(fields)
    ensures forall k :: k in FieldMeanings(fields) <==> HasKey(fields, k)
    ensures forall f :: f in fields ==> f.key in FieldMeanings(fields) && FieldMeanings(fields)[f.key] == FieldMeaning(f)
  {
    if fields != [] {
      var f0, rest := fields[0], fields[1..];
      DistinctTail(fields);
      FieldMeaningsHold(rest);
      assert fields == [f0] + rest;
      forall f | f in rest ensures f.key != f0.key {
        var i :| 0 <= i < |rest| && rest[i] == f;
        assert fields[i + 1] == f;
      }
      forall k ensures k in FieldMeanings(fields) <==> HasKey(fields, k) {
        assert HasKey(rest, k) ==> HasKey(fields, k);
        if k == f0.key {
          assert f0 in fields;
        }
      }
    }
  }

  lemma {:induction false} SortKeepsDistinct(fields: seq<Field>)
    requires DistinctKeys(fields)
    ensures DistinctKeys(SortFields(fields)) && |SortFields(fields)| == |fields|
    ensures forall i, j :: 0 <= i < j < |fields| ==> StringLess(SortFields(fields)[i].key, SortFields(fields)[j].key)
  {
    var sorted := SortFields(fields);
    KeyLessIsOrder();
    StringLessIsOrder();
    SortIsSorted(KeyLess, fields);
    SortIsPermutation(KeyLess, fields);
    forall i, j | 0 <= i < j < |sorted|
      ensures sorted[i].key != sorted[j].key && StringLess(sorted[i].key, sorted[j].key)
    {
      SameKeySameField(fields, sorted, i, j);
      assert !KeyLess(sorted[j], sorted[i]);
    }
  }

  lemma {:induction false} SameKeySameField(fields: seq<Field>, sorted: seq<Field>, i: nat, j: nat)
    requires DistinctKeys(fields) && multiset(sorted) == multiset(fields) && i < j < |sorted|
    ensures sorted[i].key != sorted[j].key
  {
    assert sorted[i] in multiset(fields) && sorted[j] in multiset(fields);
    var a :| 0 <= a < |fields| && fields[a] == sorted[i];
    var b :| 0 <= b < |fields| && fields[b] == sorted[j];
    if a == b {
      TwiceInSequence(sorted, i, j);
      OnceInSequence(fields, a);
    }
  }

  lemma {:induction false} TwiceInSequence<T>(s: seq<T>, i: nat, j: nat)
    requires i < j < |s| && s[i] == s[j]
    ensures multiset(s)[s[i]] >= 2
  {
    assert s == s[..i] + [s[i]] + s[i + 1..j] + [s[j]] + s[j + 1..];
  }

  lemma {:induction false} OnceInSequence(fields: seq<Field>, a: nat)
    requires DistinctKeys(fields) && a < |fields|
    ensures multiset(fields)[fields[a]] == 1
  {
    var f := fields[a];
    assert fields == fields[..a] + [f] + fields[a + 1..];
    assert f !in fields[..a] && f !in fields[a + 1..];
    assert f !in multiset(fields[..a]) && f !in multiset(fields[a + 1..]);
  }

  lemma {:induction false} NormalizeKeepsMeaning(v: Json)
    requires WellFormed(v)
    ensures Meaning(Normalize(v)) == Meaning(v)
    decreases v, 0
  {
    match v
    case Arr(items) => NormalizeItemsKeepsMeaning(items);
    case Obj(fields) =>
      var entries, normal := SortFields(fields), Normalize(v).fields;
      SortKeepsDistinct(fields);
      forall i | 0 <= i < |entries|
        ensures normal[i].key == entries[i].key && FieldMeaning(normal[i]) == FieldMeaning(entries[i])
      {
        NormalizeEntriesAt(v, entries, i);
        assert entries[i] in fields && WellFormedField(entries[i]);
        NormalizeKeepsMeaning(entries[i].value);
      }
      assert DistinctKeys(normal);
      SameFieldsSameMap(entries, normal);
      SortKeepsFieldMeanings(fields);
    case _ =>
  }

  lemma {:induction false} SortKeepsFieldMeanings(fields: seq<Field>)
    requires DistinctKeys(fields)
    ensures FieldMeanings(SortFields(fields)) == FieldMeanings(fields)
  {
    var entries := SortFields(fields);
    SortKeepsDistinct(fields);
    FieldMeaningsHold(fields);
    FieldMeaningsHold(entries);
    forall k ensures k in FieldMeanings(entries) <==> k in FieldMeanings(fields) {
      assert HasKey(entries, k) <==> HasKey(fields, k);
    }
    forall k | k in FieldMeanings(fields) ensures FieldMeanings(entries)[k] == FieldMeanings(fields)[k] {
      var f :| f in fields && f.key == k;
      assert f in entries;
    }
  }

  lemma {:induction false} NormalizeItemsKeepsMeaning(items: seq<Json>)
    requires forall x :: x in items ==> WellFormed(x)
    ensures ItemMeanings(NormalizeItems(items)) == ItemMeanings(items)
    decreases items
  {
    if items != [] {
      NormalizeKeepsMeaning(items[0]);
      NormalizeItemsKeepsMeaning(items[1..]);
      assert NormalizeItems(items)[1..] == NormalizeItems(items[1..]);
    }
  }

  lemma {:induction false} SameFieldsSameMap(a: seq<Field>, b: seq<Field>)
    requires |a| == |b|
    requires forall i :: 0 <= i < |a| ==> a[i].key == b[i].key && FieldMeaning(a[i]) == FieldMeaning(b[i])
    ensures FieldMeanings(a) == FieldMeanings(b)
  {
    if a != [] {
      assert forall i :: 0 <= i < |a[1..]| ==> a[1..][i] == a[i + 1] && b[1..][i] == b[i + 1];
      SameFieldsSameMap(a[1..], b[1..]);
    }
  }

  /** Values with the same meaning have the same normal form. */
  lemma {:induction false} NormalFormIsUnique(a: Json, b: Json)
    requires WellFormed(a) && WellFormed(b) && Meaning(a) == Meaning(b)
    ensures Normalize(a) == Normalize(b)
    decreases a, 0
  {
    match a
    case Arr(items) =>
      assert b.Arr?;
      forall i | 0 <= i < |items| ensures NormalizeItems(items)[i] == NormalizeItems(b.items)[i] {
        ItemMeaningAt(items, i);
        ItemMeaningAt(b.items, i);
        NormalFormIsUnique(items[i], b.items[i]);
        NormalizeItemsAt(items, i);
        NormalizeItemsAt(b.items, i);
      }
      assert NormalizeItems(items) == NormalizeItems(b.items);
    case Obj(fields) =>
      assert b.Obj?;
      var ea, eb := SortFields(fields), SortFields(b.fields);
      SameKeyOrder(fields, b.fields);
      FieldMeaningsHold(fields);
      FieldMeaningsHold(b.fields);
      forall i | 0 <= i < |ea| ensures Normalize(a).fields[i] == Normalize(b).fields[i] {
        NormalizeEntriesAt(a, ea, i);
        NormalizeEntriesAt(b, eb, i);
        assert ea[i] in fields && eb[i] in b.fields;
        assert WellFormedField(ea[i]) && WellFormedField(eb[i]);
        assert FieldMeaning(ea[i]) == FieldMeaning(eb[i]);
        NormalFormIsUnique(ea[i].value, eb[i].value);
      }
      assert Normalize(a).fields == Normalize(b).fields;
    case _ =>
  }

  lemma {:induction false} NormalizeItemsAt(items: seq<Json>, i: nat)
    requires i < |items|
    ensures NormalizeItems(items)[i] == Normalize(items[i])
  {
    if i > 0 {
      NormalizeItemsAt(items[1..], i - 1);
    }
  }

  lemma {:induction false} SameKeyOrder(a: seq<Field>, b: seq<Field>)
    requires DistinctKeys(a) && DistinctKeys(b) && FieldMeanings(a) == FieldMeanings(b)
    ensures var ea, eb := SortFields(a), SortFields(b);
            |ea| == |eb| && forall i :: 0 <= i < |ea| ==> ea[i].key == eb[i].key
  {
    FieldMeaningsHold(a);
    FieldMeaningsHold(b);
    SortKeepsDistinct(a);
    SortKeepsDistinct(b);
    forall k ensures HasKey(SortFields(a), k) <==> HasKey(SortFields(b), k) {
      assert HasKey(a, k) <==> HasKey(b, k);
      assert HasKey(SortFields(a), k) <==> HasKey(a, k);
      assert HasKey(SortFields(b), k) <==> HasKey(b, k);
    }
    IncreasingKeysEqual(SortFields(a), SortFields(b));
  }

  ghost predicate Increasing(s: seq<Field>) {
    forall i, j :: 0 <= i < j < |s| ==> StringLess(s[i].key, s[j].key)
  }

  lemma {:induction false} IncreasingTail(s: seq<Field>)
    requires s != [] && Increasing(s)
    ensures Increasing(s[1..]) && forall f :: f in s[1..] ==> StringLess(s[0].key, f.key)
  {
    var rest := s[1..];
    forall i, j | 0 <= i < j < |rest| ensures StringLess(rest[i].key, rest[j].key) {
      assert rest[i] == s[i + 1] && rest[j] == s[j + 1];
    }
    forall f | f in rest ensures StringLess(s[0].key, f.key) {
      var i :| 0 <= i < |rest| && rest[i] == f;
      assert s[i + 1] == f;
    }
  }

  lemma {:induction false} TailKeys(s: seq<Field>)
    requires s != [] && Increasing(s)
    ensures forall k :: HasKey(s[1..], k) <==> HasKey(s, k) && k != s[0].key
  {
    IncreasingTail(s);
    StringLessIsOrder();
    assert s == [s[0]] + s[1..];
    forall k ensures HasKey(s[1..], k) <==> HasKey(s, k) && k != s[0].key {
      if HasKey(s, k) && k != s[0].key {
        var f :| f in s && f.key == k;
        assert f in s[1..];
      }
    }
  }

  lemma {:induction false} FirstIsKey(s: seq<Field>)
    ensures s != [] ==> HasKey(s, s[0].key)
    ensures s == [] ==> forall k :: !HasKey(s, k)
  {
  }

  lemma {:induction false} FirstKeysEqual(a: seq<Field>, b: seq<Field>)
    requires a != [] && Increasing(a) && Increasing(b) && forall k :: HasKey(a, k) <==> HasKey(b, k)
    ensures b != [] && a[0].key == b[0].key
  {
    FirstIsKey(a);
    FirstIsKey(b);
    assert HasKey(b, a[0].key);
    assert HasKey(a, b[0].key);
    var i :| 0 <= i < |a| && a[i].key == b[0].key;
    var j :| 0 <= j < |b| && b[j].key == a[0].key;
    StringLessIsTotal(a[0].key, b[0].key);
  }

  lemma {:induction false} IncreasingKeysEqual(a: seq<Field>, b: seq<Field>)
    requires Increasing(a) && Increasing(b) && forall k :: HasKey(a, k) <==> HasKey(b, k)
    ensures |a| == |b| && forall i :: 0 <= i < |a| ==> a[i].key == b[i].key
  {
    hide HasKey;
    if a == [] {
      assert b != [] ==> HasKey(b, b[0].key) by { FirstIsKey(b); }
      FirstIsKey(a);
    } else {
      FirstKeysEqual(a, b);
      var ra, rb := a[1..], b[1..];
      IncreasingTail(a);
      IncreasingTail(b);
      TailKeys(a);
      TailKeys(b);
      IncreasingKeysEqual(ra, rb);
      forall i | 0 <= i < |a| ensures a[i].key == b[i].key {
        assert i > 0 ==> a[i] == ra[i - 1] && b[i] == rb[i - 1];
      }
    }
  }

  // ---- main results ----

  /** Two values print alike exactly when they mean the same: key order, at any depth, is all that is lost. */
  lemma {:induction false} TextFixesMeaning(a: Json, b: Json)
    requires WellFormed(a) && WellFormed(b)
    ensures StableStringify(Normalize(a)) == StableStringify(Normalize(b)) <==> Meaning(a) == Meaning(b)
  {
    var na, nb := Normalize(a), Normalize(b);
    StringifyIsPrint(na);
    StringifyIsPrint(nb);
    NormalizeIsIdempotent(a);
    NormalizeIsIdempotent(b);
    ParseUndoesPrint(na);
    ParseUndoesPrint(nb);
    NormalizeKeepsMeaning(a);
    NormalizeKeepsMeaning(b);
    if Meaning(a) == Meaning(b) {
      NormalFormIsUnique(a, b);
    }
  }

  /** The printer's own sort decides: in whatever order an object lists the normalized entries, at any depth (the
      language lists integer-like keys by number), the text is the same. */
  lemma {:induction false} SecondSortDecides(v: Json, listed: Json)
    requires WellFormed(v) && WellFormed(listed) && Meaning(listed) == Meaning(Normalize(v))
    ensures StableStringify(listed) == StableStringify(Normalize(v))
  {
    NormalizeKeepsMeaning(v);
    NormalFormIsUnique(listed, v);
    NormalizeIsIdempotent(v);
    StringifyIsPrint(listed);
    StringifyIsPrint(Normalize(v));
  }

  lemma {:induction false} DropKeepsWellFormed(v: Json)
    requires WellFormed(v)
    ensures WellFormed(WithoutProvenance(v))
  {
    if v.Obj? {
      DropKeepsDistinct(v.fields, PROVENANCE);
    }
  }

  lemma {:induction false} DropKeepsDistinct(fields: seq<Field>, key: string)
    requires DistinctKeys(fields)
    ensures DistinctKeys(DropKey(fields, key))
  {
    if fields != [] {
      var f0, rest := fields[0], fields[1..];
      DistinctTail(fields);
      DropKeepsDistinct(rest, key);
      var dropped := DropKey(rest, key);
      forall j | 0 <= j < |dropped| ensures dropped[j].key != f0.key {
        assert dropped[j] in dropped;
        var i :| 0 <= i < |rest| && rest[i] == dropped[j];
        assert fields[i + 1] == rest[i];
      }
    }
  }

  /** What the hash covers: everything but the top-level provenance field. */
  function Visible(v: Json): Value {
    match Meaning(v)
    case VObj(m) => VObj(m - {"provenance"})
    case other => other
  }

  lemma {:induction false} VisibleIsMeaning(v: Json)
    requires WellFormed(v)
    ensures Meaning(WithoutProvenance(v)) == Visible(v)
  {
    if v.Obj? {
      var kept := DropKey(v.fields, PROVENANCE);
      DropKeepsDistinct(v.fields, PROVENANCE);
      FieldMeaningsHold(v.fields);
      FieldMeaningsHold(kept);
      var m := FieldMeanings(v.fields) - {PROVENANCE};
      forall k ensures k in FieldMeanings(kept) <==> k in m {
        assert HasKey(kept, k) <==> HasKey(v.fields, k) && k != PROVENANCE;
      }
      forall k | k in m ensures FieldMeanings(kept)[k] == m[k] {
        var f :| f in v.fields && f.key == k;
        assert f in kept;
      }
      assert FieldMeanings(kept) == m;
    }
  }

  // ---- the date-time guard ----

  /** n ASCII digits. */
  predicate Number(s: string, n: nat) {
    |s| == n && forall i :: 0 <= i < n ==> '0' <= s[i] <= '9'
  }

  function Date(year: string, month: string, day: string): string {
    year + "-" + month + "-" + day + "T"
  }

  /** The string begins with a date and the letter T. */
  ghost predicate DateShaped(s: string) {
    exists year, month, day, rest ::
      Number(year, 4) && Number(month, 2) && Number(day, 2) && s == Date(year, month, day) + rest
  }

  function Time(hour: string, minute: string, second: string, micros: string): string {
    hour + ":" + minute + ":" + second + "." + micros + "Z"
  }

  /** The string is such a date followed by a time of day with six decimals and the letter Z, and nothing else. */
  ghost predicate CanonicalForm(s: string) {
    exists year, month, day, hour, minute, second, micros ::
      && Number(year, 4) && Number(month, 2) && Number(day, 2)
      && Number(hour, 2) && Number(minute, 2) && Number(second, 2) && Number(micros, 6)
      && s == Date(year, month, day) + Time(hour, minute, second, micros)
  }

  lemma {:induction false} DateShapedExactlyWhen(s: string)
    ensures LooksLikeDatetime(s) <==> DateShaped(s)
  {
    if LooksLikeDatetime(s) {
      DateIsRead(s);
      assert s == s[..11] + s[11..];
    }
    if year, month, day, rest :|
      Number(year, 4) && Number(month, 2) && Number(day, 2) && s == Date(year, month, day) + rest {
      DateIsWritten(year, month, day, rest);
    }
  }

  /** A slice followed by a field of digits and a separator. */
  lemma {:induction false} NextPart(s: string, i: nat, j: nat, k: nat, separator: string)
    requires i <= j <= k < |s| && separator == [s[k]]
    requires forall p :: j <= p < k ==> IsDigit(s[p])
    ensures Number(s[j..k], k - j) && s[i..k + 1] == s[i..j] + s[j..k] + separator
  {
  }

  lemma {:induction false} DateIsRead(s: string)
    requires LooksLikeDatetime(s)
    ensures Number(s[..4], 4) && Number(s[5..7], 2) && Number(s[8..10], 2)
    ensures s[..11] == Date(s[..4], s[5..7], s[8..10])
  {
    hide Number;
    NextPart(s, 0, 0, 4, "-");
    NextPart(s, 0, 5, 7, "-");
    NextPart(s, 0, 8, 10, "T");
    assert s[0..4] == s[..4] && s[0..0] + s[0..4] == s[0..4] && s[0..11] == s[..11];
  }

  lemma {:induction false} DateIsWritten(year: string, month: string, day: string, rest: string)
    requires Number(year, 4) && Number(month, 2) && Number(day, 2)
    ensures var s := Date(year, month, day) + rest; LooksLikeDatetime(s) && s[11..] == rest
  {
  }

  lemma {:induction false} TimeIsRead(s: string)
    requires CanonicalDatetime(s)
    ensures Number(s[11..13], 2) && Number(s[14..16], 2) && Number(s[17..19], 2) && Number(s[20..26], 6)
    ensures s[11..27] == Time(s[11..13], s[14..16], s[17..19], s[20..26])
  {
    hide Number, LooksLikeDatetime, IsDigit;
    NextPart(s, 11, 11, 13, ":");
    NextPart(s, 11, 14, 16, ":");
    NextPart(s, 11, 17, 19, ".");
    NextPart(s, 11, 20, 26, "Z");
    assert s[11..11] + s[11..13] == s[11..13];
  }

  lemma {:induction false} TimeIsWritten(date: string, hour: string, minute: string, second: string, micros: string)
    requires |date| == 11 && LooksLikeDatetime(date)
    requires Number(hour, 2) && Number(minute, 2) && Number(second, 2) && Number(micros, 6)
    ensures CanonicalDatetime(date + Time(hour, minute, second, micros))
  {
    var t := Time(hour, minute, second, micros);
    assert forall p :: 0 <= p < 16 && p !in {2, 5, 8, 15} ==> IsDigit(t[p]) by {
      TimeAt(hour, minute, second, micros);
    }
    var s := date + t;
    assert forall p :: 0 <= p < 11 ==> s[p] == date[p];
    assert forall p :: 0 <= p < 16 ==> s[p + 11] == t[p];
    assert s[13] == t[2] && s[16] == t[5] && s[19] == t[8] && s[26] == t[15];
  }

  lemma {:induction false} TimeAt(hour: string, minute: string, second: string, micros: string)
    requires Number(hour, 2) && Number(minute, 2) && Number(second, 2) && Number(micros, 6)
    ensures var t := Time(hour, minute, second, micros);
            && |t| == 16 && t[2] == ':' && t[5] == ':' && t[8] == '.' && t[15] == 'Z'
            && forall p :: 0 <= p < 16 && p !in {2, 5, 8, 15} ==> IsDigit(t[p])
  {
    var t := Time(hour, minute, second, micros);
    assert t[0..2] == hour && t[3..5] == minute && t[6..8] == second && t[9..15] == micros;
    forall p | 0 <= p < 16 && p !in {2, 5, 8, 15} ensures IsDigit(t[p]) {
      assert p < 2 ==> t[p] == hour[p];
      assert 2 < p < 5 ==> t[p] == minute[p - 3];
      assert 5 < p < 8 ==> t[p] == second[p - 6];
      assert 8 < p ==> t[p] == micros[p - 9];
    }
  }

  lemma {:induction false} CanonicalExactlyWhen(s: string)
    ensures CanonicalDatetime(s) <==> CanonicalForm(s)
  {
    if CanonicalDatetime(s) {
      DateIsRead(s);
      TimeIsRead(s);
      assert s == s[..11] + s[11..27];
    }
    if year, month, day, hour, minute, second, micros :|
      && Number(year, 4) && Number(month, 2) && Number(day, 2)
      && Number(hour, 2) && Number(minute, 2) && Number(second, 2) && Number(micros, 6)
      && s == Date(year, month, day) + Time(hour, minute, second, micros) {
      DateIsWritten(year, month, day, "");
      assert Date(year, month, day) + "" == Date(year, month, day);
      TimeIsWritten(Date(year, month, day), hour, minute, second, micros);
    }
  }

  /** A string has a canonical text exactly if it does not begin like a date-time or is one in full; the text is the quoted string. */
  lemma {:induction false} StringSerializesExactlyWhen(s: string)
    ensures CanonicalJson(Str(s)).Ok? <==> (DateShaped(s) ==> CanonicalForm(s))
    ensures CanonicalJson(Str(s)).Ok? ==> CanonicalJson(Str(s)).value == Quote(s)
  {
    DateShapedExactlyWhen(s);
    CanonicalExactlyWhen(s);
  }

  /** The guard, read off the meaning: each string at any depth passes it. */
  ghost predicate ValueDatetimesOk(v: Value) {
    match v
    case VStr(s) => DateShaped(s) ==> CanonicalForm(s)
    case VArr(items) => forall i :: 0 <= i < |items| ==> ValueDatetimesOk(items[i])
    case VObj(m) => forall k :: k in m ==> ValueDatetimesOk(m[k])
    case _ => true
  }

  lemma {:induction false} DatetimesByMeaning(v: Json)
    requires WellFormed(v)
    ensures DatetimesOk(v) <==> ValueDatetimesOk(Meaning(v))
    decreases v
  {
    match v
    case Arr(items) =>
      forall i | 0 <= i < |items| ensures DatetimesOk(items[i]) <==> ValueDatetimesOk(ItemMeanings(items)[i]) {
        ItemMeaningAt(items, i);
        DatetimesByMeaning(items[i]);
      }
      assert forall i :: 0 <= i < |items| ==> items[i] in items;
    case Obj(fields) =>
      FieldMeaningsHold(fields);
      forall f | f in fields ensures FieldDatetimesOk(f) <==> ValueDatetimesOk(FieldMeanings(fields)[f.key]) {
        assert WellFormedField(f);
        DatetimesByMeaning(f.value);
      }
      forall k | k in FieldMeanings(fields) ensures exists f :: f in fields && f.key == k {
        assert HasKey(fields, k);
      }
    case Str(s) =>
      DateShapedExactlyWhen(s);
      CanonicalExactlyWhen(s);
    case _ =>
  }

  /** The canonical text, and whether there is one, depend on nothing but what is visible, and reveal all of it. */
  lemma {:induction false} CanonicalFixesVisible(a: Json, b: Json)
    requires WellFormed(a) && WellFormed(b)
    ensures CanonicalJson(a).Ok? <==> ValueDatetimesOk(Visible(a))
    ensures Visible(a) == Visible(b) ==> CanonicalJson(a) == CanonicalJson(b)
    ensures CanonicalJson(a).Ok? && CanonicalJson(a) == CanonicalJson(b) ==> Visible(a) == Visible(b)
  {
    var wa, wb := WithoutProvenance(a), WithoutProvenance(b);
    DropKeepsWellFormed(a);
    DropKeepsWellFormed(b);
    VisibleIsMeaning(a);
    VisibleIsMeaning(b);
    DatetimesByMeaning(wa);
    DatetimesByMeaning(wb);
    TextFixesMeaning(wa, wb);
  }

  /** In every object the keys ascend: at the first difference the earlier key has ended or has the smaller character. */
  ghost predicate KeysAscend(v: Json)
    decreases v
  {
    match v
    case Arr(items) => forall x :: x in items ==> KeysAscend(x)
    case Obj(fields) =>
      && (forall i, j :: 0 <= i < j < |fields| ==> Precedes(fields[i].key, fields[j].key))
      && (forall f :: f in fields ==> FieldKeysAscend(f))
    case _ => true
  }

  ghost predicate FieldKeysAscend(f: Field)
    decreases f
  {
    KeysAscend(f.value)
  }

  lemma {:induction false} NormalKeysAscend(v: Json)
    requires WellFormed(v)
    ensures KeysAscend(Normalize(v))
    decreases v
  {
    match v
    case Arr(items) =>
      forall x | x in NormalizeItems(items) ensures KeysAscend(x) {
        var i :| 0 <= i < |items| && NormalizeItems(items)[i] == x;
        NormalizeItemsAt(items, i);
        NormalKeysAscend(items[i]);
      }
    case Obj(fields) =>
      var entries, normal := SortFields(fields), Normalize(v).fields;
      SortKeepsDistinct(fields);
      forall i | 0 <= i < |normal| ensures normal[i].key == entries[i].key && FieldKeysAscend(normal[i]) {
        NormalizeEntriesAt(v, entries, i);
        assert entries[i] in fields && WellFormedField(entries[i]);
        NormalKeysAscend(entries[i].value);
      }
      forall i, j | 0 <= i < j < |normal| ensures Precedes(normal[i].key, normal[j].key) {
        StringLessExactlyWhen(normal[i].key, normal[j].key);
        assert StringLess(entries[i].key, entries[j].key);
      }
      forall f | f in normal ensures FieldKeysAscend(f) {
        var i :| 0 <= i < |normal| && normal[i] == f;
      }
    case _ =>
  }

  /** The canonical text is the print of a value with the visible meaning whose keys ascend at every depth. */
  lemma {:induction false} CanonicalTextIsSorted(v: Json) returns (n: Json)
    requires WellFormed(v) && CanonicalJson(v).Ok?
    ensures CanonicalJson(v).value == Print(n) && Meaning(n) == Visible(v) && KeysAscend(n)
  {
    n := Normalize(WithoutProvenance(v));
    DropKeepsWellFormed(v);
    VisibleIsMeaning(v);
    NormalizeKeepsMeaning(WithoutProvenance(v));
    NormalKeysAscend(WithoutProvenance(v));
    StringifyIsPrint(n);
    NormalizeIsIdempotent(WithoutProvenance(v));
  }

  /** The Python writer keeps the field order until `json.dumps` sorts the keys, and has no date-time guard. */
  function PythonCanonicalJson(v: Json): string {
    StableStringify(WithoutProvenance(v))
  }

  /** Whatever the TypeScript writer accepts, both writers serialize to the same text. */
  lemma {:induction false} WritersAgree(v: Json)
    ensures CanonicalJson(v).Ok? ==> CanonicalJson(v).value == PythonCanonicalJson(v)
  {
    var w := WithoutProvenance(v);
    StringifyIsPrint(w);
    StringifyIsPrint(Normalize(w));
    NormalizeIsIdempotent(w);
  }
}
