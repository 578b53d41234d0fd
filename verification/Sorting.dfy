/** Orders, and the stable sort that library `sort` calls perform. */
module Sorting {

  /** A strict order in which elements that are not ordered either way tie transitively. */
  ghost predicate StrictWeakOrder<T(!new)>(less: (T, T) -> bool) {
    && (forall x :: !less(x, x))
    && (forall x, y, z :: less(x, y) && less(y, z) ==> less(x, z))
    && (forall x, y, z :: less(x, z) ==> less(x, y) || less(y, z))
  }

  ghost predicate SortedBy<T>(less: (T, T) -> bool, s: seq<T>) {
    forall i, j :: 0 <= i < j < |s| ==> !less(s[j], s[i])
  }

  /** Insert x behind everything it is not less than. */
  function InsertBy<T>(less: (T, T) -> bool, x: T, s: seq<T>): (r: seq<T>)
    ensures |r| == |s| + 1
  {
    if s == [] then [x]
    else if less(x, s[|s| - 1]) then InsertBy(less, x, s[..|s| - 1]) + [s[|s| - 1]]
    else s + [x]
  }

  function SortBy<T>(less: (T, T) -> bool, s: seq<T>): (r: seq<T>)
    ensures |r| == |s|
  {
    if s == [] then [] else InsertBy(less, s[|s| - 1], SortBy(less, s[..|s| - 1]))
  }

  lemma {:induction false} InsertIsPermutation<T>(less: (T, T) -> bool, x: T, s: seq<T>)
    ensures multiset(InsertBy(less, x, s)) == multiset(s) + multiset{x}
  {
    if s != [] && less(x, s[|s| - 1]) {
      InsertIsPermutation(less, x, s[..|s| - 1]);
      assert s == s[..|s| - 1] + [s[|s| - 1]];
    }
  }

  lemma {:induction false} SortIsPermutation<T>(less: (T, T) -> bool, s: seq<T>)
    ensures multiset(SortBy(less, s)) == multiset(s)
    ensures forall x :: x in SortBy(less, s) <==> x in s
  {
    if s != [] {
      SortIsPermutation(less, s[..|s| - 1]);
      InsertIsPermutation(less, s[|s| - 1], SortBy(less, s[..|s| - 1]));
      assert s == s[..|s| - 1] + [s[|s| - 1]];
    }
    forall x ensures x in SortBy(less, s) <==> x in s {
      assert x in s <==> x in multiset(s);
      assert x in SortBy(less, s) <==> x in multiset(SortBy(less, s));
    }
  }

  lemma {:induction false} InsertIsSorted<T(!new)>(less: (T, T) -> bool, x: T, s: seq<T>)
    requires StrictWeakOrder(less) && SortedBy(less, s)
    ensures SortedBy(less, InsertBy(less, x, s))
  {
    if s == [] {
    } else if less(x, s[|s| - 1]) {
      var init, last := s[..|s| - 1], s[|s| - 1];
      InsertIsSorted(less, x, init);
      InsertIsPermutation(less, x, init);
      var r := InsertBy(less, x, init);
      assert !less(last, x);
      forall y | y in r ensures !less(last, y) {
        assert y in multiset(r);
        assert y == x || y in init;
      }
    } else {
      forall i | 0 <= i < |s| ensures !less(x, s[i]) {
      }
    }
  }

  lemma {:induction false} SortIsSorted<T(!new)>(less: (T, T) -> bool, s: seq<T>)
    requires StrictWeakOrder(less)
    ensures SortedBy(less, SortBy(less, s))
  {
    if s != [] {
      SortIsSorted(less, s[..|s| - 1]);
      InsertIsSorted(less, s[|s| - 1], SortBy(less, s[..|s| - 1]));
    }
  }

  lemma {:induction false} SortOfSorted<T>(less: (T, T) -> bool, s: seq<T>)
    requires SortedBy(less, s)
    ensures SortBy(less, s) == s
  {
    if s != [] {
      SortOfSorted(less, s[..|s| - 1]);
      assert s == s[..|s| - 1] + [s[|s| - 1]];
    }
  }

  /** Of distinct elements under a total order there is one sorted arrangement. */
  lemma {:induction false} SortedArrangementIsUnique<T>(less: (T, T) -> bool, a: seq<T>, b: seq<T>)
    requires multiset(a) == multiset(b) && SortedBy(less, a) && SortedBy(less, b)
    requires forall x, y :: x in a && y in a ==> x == y || less(x, y) || less(y, x)
    ensures a == b
  {
    assert |a| == |multiset(a)| && |b| == |multiset(b)|;
    if a != [] {
      SameLast(less, a, b);
      DropLast(a, b);
      SortedArrangementIsUnique(less, a[..|a| - 1], b[..|b| - 1]);
    }
  }

  lemma {:induction false} DropLast<T>(a: seq<T>, b: seq<T>)
    requires multiset(a) == multiset(b) && |a| == |b| > 0 && a[|a| - 1] == b[|b| - 1]
    ensures multiset(a[..|a| - 1]) == multiset(b[..|b| - 1])
  {
    var x := a[|a| - 1];
    assert a == a[..|a| - 1] + [x] && b == b[..|b| - 1] + [x];
    assert multiset(a[..|a| - 1]) == multiset(a) - multiset{x};
  }

  lemma {:induction false} SameLast<T>(less: (T, T) -> bool, a: seq<T>, b: seq<T>)
    requires multiset(a) == multiset(b) && |a| == |b| > 0 && SortedBy(less, a) && SortedBy(less, b)
    requires forall x, y :: x in a && y in a ==> x == y || less(x, y) || less(y, x)
    ensures a[|a| - 1] == b[|b| - 1]
  {
    var x, y := a[|a| - 1], b[|b| - 1];
    assert x in multiset(b) && y in multiset(a);
    var i :| 0 <= i < |a| && a[i] == y;
    var j :| 0 <= j < |b| && b[j] == x;
    assert i < |a| - 1 ==> !less(x, y);
    assert j < |b| - 1 ==> !less(y, x);
  }

  lemma {:induction false} SortIgnoresOrder<T(!new)>(less: (T, T) -> bool, a: seq<T>, b: seq<T>)
    requires StrictWeakOrder(less) && multiset(a) == multiset(b)
    requires forall x, y :: x in a && y in a ==> x == y || less(x, y) || less(y, x)
    ensures SortBy(less, a) == SortBy(less, b)
  {
    SortIsPermutation(less, a);
    SortIsPermutation(less, b);
    SortIsSorted(less, a);
    SortIsSorted(less, b);
    SortedArrangementIsUnique(less, SortBy(less, a), SortBy(less, b));
  }

  // ---- sorting by a key ----

  function Mapped<T, U>(f: T -> U, s: seq<T>): (r: seq<U>)
    ensures |r| == |s|
  {
    seq(|s|, i requires 0 <= i < |s| => f(s[i]))
  }

  lemma {:induction false} MappedAppend<T, U>(f: T -> U, s: seq<T>, x: T)
    ensures Mapped(f, s + [x]) == Mapped(f, s) + [f(x)]
  {
  }

  lemma {:induction false} InsertMapped<T, U>(less: (T, T) -> bool, below: (U, U) -> bool, f: T -> U, x: T, s: seq<T>)
    requires forall y :: y in s ==> less(x, y) == below(f(x), f(y))
    ensures Mapped(f, InsertBy(less, x, s)) == InsertBy(below, f(x), Mapped(f, s))
  {
    if s != [] {
      var init, last := s[..|s| - 1], s[|s| - 1];
      assert s == init + [last];
      InsertMapped(less, below, f, x, init);
      MappedAppend(f, init, last);
      assert Mapped(f, s)[..|s| - 1] == Mapped(f, init);
      if less(x, last) {
        MappedAppend(f, InsertBy(less, x, init), last);
      } else {
        MappedAppend(f, s, x);
      }
    }
  }

  /** On these elements the order looks at keys only. */
  ghost predicate ByKey<T, U>(less: (T, T) -> bool, below: (U, U) -> bool, f: T -> U, s: seq<T>) {
    forall i, j :: 0 <= i < |s| && 0 <= j < |s| ==> less(s[i], s[j]) == below(f(s[i]), f(s[j]))
  }

  lemma {:induction false} ByKeyLast<T, U>(less: (T, T) -> bool, below: (U, U) -> bool, f: T -> U, init: seq<T>, last: T, y: T)
    requires ByKey(less, below, f, init + [last]) && y in init
    ensures less(last, y) == below(f(last), f(y))
  {
    var i :| 0 <= i < |init| && init[i] == y;
    assert (init + [last])[i] == y && (init + [last])[|init|] == last;
  }

  /** Sorting rows and sorting their keys is the same if the order looks at keys only. */
  lemma {:induction false} SortMapped<T, U>(less: (T, T) -> bool, below: (U, U) -> bool, f: T -> U, s: seq<T>)
    requires ByKey(less, below, f, s)
    ensures Mapped(f, SortBy(less, s)) == SortBy(below, Mapped(f, s))
  {
    if s != [] {
      var init, last := s[..|s| - 1], s[|s| - 1];
      assert s == init + [last];
      assert ByKey(less, below, f, init);
      SortMapped(less, below, f, init);
      MappedAppend(f, init, last);
      SortOfAppend(less, below, f, init, last);
    }
  }

  lemma {:induction false} SortMember<T>(less: (T, T) -> bool, s: seq<T>, sorted: seq<T>, y: T)
    requires sorted == SortBy(less, s) && y in sorted
    ensures y in s
  {
    SortIsPermutation(less, s);
    assert y in multiset(sorted);
    assert multiset(sorted) == multiset(s);
  }

  lemma {:induction false} SortOfAppend<T, U>(less: (T, T) -> bool, below: (U, U) -> bool, f: T -> U, init: seq<T>, last: T)
    requires ByKey(less, below, f, init + [last]) && Mapped(f, SortBy(less, init)) == SortBy(below, Mapped(f, init))
    ensures Mapped(f, SortBy(less, init + [last])) == SortBy(below, Mapped(f, init) + [f(last)])
  {
    var sorted := SortBy(less, init);
    forall y | y in sorted ensures less(last, y) == below(f(last), f(y)) {
      SortMember(less, init, sorted, y);
      ByKeyLast(less, below, f, init, last, y);
    }
    InsertMapped(less, below, f, last, sorted);
    SortAppend(less, init, last);
    SortAppend(below, Mapped(f, init), f(last));
  }

  lemma {:induction false} WithoutOne<T, U>(f: T -> U, s: seq<T>, i: nat)
    requires i < |s|
    ensures multiset(s[..i] + s[i + 1..]) == multiset(s) - multiset{s[i]}
    ensures multiset(Mapped(f, s)) == multiset(Mapped(f, s[..i] + s[i + 1..])) + multiset{f(s[i])}
  {
    assert s == s[..i] + [s[i]] + s[i + 1..];
    var m := Mapped(f, s);
    assert m == m[..i] + [m[i]] + m[i + 1..];
    assert Mapped(f, s[..i] + s[i + 1..]) == m[..i] + m[i + 1..];
  }

  lemma {:induction false} PermutedMapped<T, U>(f: T -> U, a: seq<T>, b: seq<T>)
    requires multiset(a) == multiset(b)
    ensures multiset(Mapped(f, a)) == multiset(Mapped(f, b))
    decreases |b|
  {
    assert |a| == |multiset(a)| && |b| == |multiset(b)|;
    if b != [] {
      var last := |b| - 1;
      assert b[last] in multiset(a);
      var i :| 0 <= i < |a| && a[i] == b[last];
      WithoutOne(f, a, i);
      WithoutOne(f, b, last);
      PermutedMapped(f, a[..i] + a[i + 1..], b[..last] + b[last + 1..]);
    }
  }

  // ---- selecting rows: WHERE, and how it commutes with ORDER BY ----

  function Where<T>(keep: T -> bool, rows: seq<T>): seq<T> {
    if rows == [] then []
    else
      var before := Where(keep, rows[..|rows| - 1]);
      if keep(rows[|rows| - 1]) then before + [rows[|rows| - 1]] else before
  }

  lemma {:induction false} WhereMembers<T>(keep: T -> bool, rows: seq<T>, x: T)
    ensures x in Where(keep, rows) <==> x in rows && keep(x)
  {
    if rows != [] {
      var init, last := rows[..|rows| - 1], rows[|rows| - 1];
      WhereMembers(keep, init, x);
      assert rows == init + [last];
    }
  }

  lemma {:induction false} WhereAppend<T>(keep: T -> bool, s: seq<T>, x: T)
    ensures Where(keep, s + [x]) == if keep(x) then Where(keep, s) + [x] else Where(keep, s)
  {
    assert (s + [x])[..|s|] == s;
  }

  lemma {:induction false} WhereCounts<T>(keep: T -> bool, s: seq<T>, x: T)
    ensures multiset(Where(keep, s))[x] == if keep(x) then multiset(s)[x] else 0
  {
    if s != [] {
      WhereCounts(keep, s[..|s| - 1], x);
      assert s == s[..|s| - 1] + [s[|s| - 1]];
    }
  }

  ghost function Places<T>(keep: T -> bool, rows: seq<T>): (r: set<int>)
    ensures forall i :: i in r <==> 0 <= i < |rows| && keep(rows[i])
  {
    set i | 0 <= i < |rows| && keep(rows[i])
  }

  lemma {:induction false} WhereSize<T>(keep: T -> bool, rows: seq<T>)
    ensures |Where(keep, rows)| == |Places(keep, rows)|
  {
    if rows != [] {
      var n, init := |rows| - 1, rows[..|rows| - 1];
      WhereSize(keep, init);
      ghost var before, after := Places(keep, init), Places(keep, rows);
      forall i ensures i in after <==> i in before || (i == n && keep(rows[n])) {
        assert 0 <= i < n ==> rows[i] == init[i];
      }
      assert after == before + if keep(rows[n]) then {n} else {};
    }
  }

  lemma {:induction false} WherePermuted<T(!new)>(keep: T -> bool, a: seq<T>, b: seq<T>)
    requires multiset(a) == multiset(b)
    ensures multiset(Where(keep, a)) == multiset(Where(keep, b))
  {
    forall x ensures multiset(Where(keep, a))[x] == multiset(Where(keep, b))[x] {
      WhereCounts(keep, a, x);
      WhereCounts(keep, b, x);
    }
  }

  lemma {:induction false} WhereConcat<T>(keep: T -> bool, a: seq<T>, b: seq<T>)
    ensures Where(keep, a + b) == Where(keep, a) + Where(keep, b)
  {
    if b == [] {
      assert a + b == a;
    } else {
      var init, last := b[..|b| - 1], b[|b| - 1];
      WhereConcat(keep, a, init);
      assert a + b == (a + init) + [last];
      WhereAppend(keep, a + init, last);
    }
  }

  lemma {:induction false} WhereAll<T>(keep: T -> bool, s: seq<T>)
    requires forall x :: x in s ==> keep(x)
    ensures Where(keep, s) == s
  {
    if s != [] {
      var init, last := s[..|s| - 1], s[|s| - 1];
      assert s == init + [last];
      WhereAll(keep, init);
    }
  }

  lemma {:induction false} WhereNone<T>(keep: T -> bool, s: seq<T>)
    requires forall x :: x in s ==> !keep(x)
    ensures Where(keep, s) == []
  {
    if s != [] {
      WhereNone(keep, s[..|s| - 1]);
      assert s[|s| - 1] in s;
    }
  }

  lemma {:induction false} WhereTwice<T>(keep: T -> bool, also: T -> bool, both: T -> bool, s: seq<T>)
    requires forall x :: x in s ==> (both(x) <==> keep(x) && also(x))
    ensures Where(also, Where(keep, s)) == Where(both, s)
  {
    if s != [] {
      var init, last := s[..|s| - 1], s[|s| - 1];
      WhereTwice(keep, also, both, init);
      assert last in s;
      WhereAppend(also, Where(keep, init), last);
    }
  }

  lemma {:induction false} InsertBehind<T>(less: (T, T) -> bool, x: T, s: seq<T>)
    requires forall y :: y in s ==> !less(x, y)
    ensures InsertBy(less, x, s) == s + [x]
  {
    assert s != [] ==> s[|s| - 1] in s;
  }

  lemma {:induction false} InsertAppend<T>(less: (T, T) -> bool, x: T, s: seq<T>, y: T)
    requires less(x, y)
    ensures InsertBy(less, x, s + [y]) == InsertBy(less, x, s) + [y]
  {
    assert (s + [y])[..|s|] == s;
  }

  lemma {:induction false} WhereOfInsert<T(!new)>(less: (T, T) -> bool, keep: T -> bool, x: T, s: seq<T>)
    requires StrictWeakOrder(less) && SortedBy(less, s)
    ensures Where(keep, InsertBy(less, x, s)) == if keep(x) then InsertBy(less, x, Where(keep, s)) else Where(keep, s)
  {
    if s != [] && less(x, s[|s| - 1]) {
      var init, last := s[..|s| - 1], s[|s| - 1];
      WhereOfInsert(less, keep, x, init);
      WhereAppend(keep, InsertBy(less, x, init), last);
      InsertAppend(less, x, Where(keep, init), last);
    } else {
      WhereAppend(keep, s, x);
      forall y | y in Where(keep, s) ensures !less(x, y) {
        WhereMembers(keep, s, y);
        var i :| 0 <= i < |s| && s[i] == y;
        assert i < |s| - 1 ==> !less(s[|s| - 1], s[i]);
      }
      InsertBehind(less, x, Where(keep, s));
    }
  }

  /** Selecting from a stably sorted list is sorting the selection. */
  lemma {:induction false} WhereOfSort<T(!new)>(less: (T, T) -> bool, keep: T -> bool, s: seq<T>)
    requires StrictWeakOrder(less)
    ensures Where(keep, SortBy(less, s)) == SortBy(less, Where(keep, s))
  {
    hide StrictWeakOrder, InsertBy, SortedBy;
    if s != [] {
      var init, last := s[..|s| - 1], s[|s| - 1];
      WhereOfSort(less, keep, init);
      SortIsSorted(less, init);
      WhereOfInsert(less, keep, last, SortBy(less, init));
      SortAppend(less, Where(keep, init), last);
    }
  }

  lemma {:induction false} SortAppend<T>(less: (T, T) -> bool, s: seq<T>, x: T)
    ensures SortBy(less, s + [x]) == InsertBy(less, x, SortBy(less, s))
  {
    assert (s + [x])[..|s|] == s;
  }

  // ---- grouping: the keys of a list of rows, in order of first appearance ----

  function KeysOf<T, K(==)>(key: T -> K, rows: seq<T>): (ids: seq<K>)
    ensures forall i, j :: 0 <= i < j < |ids| ==> ids[i] != ids[j]
  {
    if rows == [] then []
    else
      var before, k := KeysOf(key, rows[..|rows| - 1]), key(rows[|rows| - 1]);
      if k in before then before else before + [k]
  }

  lemma {:induction false} KeysMembers<T, K>(key: T -> K, rows: seq<T>, k: K)
    ensures k in KeysOf(key, rows) <==> exists x :: x in rows && key(x) == k
  {
    if rows != [] {
      var init, last := rows[..|rows| - 1], rows[|rows| - 1];
      assert rows == init + [last];
      KeysMembers(key, init, k);
      if x :| x in rows && key(x) == k {
        assert x in init || x == last;
      }
      if k in KeysOf(key, init) {
        var x :| x in init && key(x) == k;
        assert x in rows;
      }
      assert last in rows;
    }
  }

  // ---- strings, code point by code point ----

  predicate StringLess(a: string, b: string) {
    b != "" && (a == "" || a[0] < b[0] || (a[0] == b[0] && StringLess(a[1..], b[1..])))
  }

  lemma {:induction false} StringLessIsTotal(a: string, b: string)
    ensures a == b || StringLess(a, b) || StringLess(b, a)
    ensures !(StringLess(a, b) && StringLess(b, a)) && !StringLess(a, a)
  {
    if a != "" {
      StringLessIsTotal(a[1..], a[1..]);
      if b != "" && a[0] == b[0] {
        StringLessIsTotal(a[1..], b[1..]);
        assert a == [a[0]] + a[1..] && b == [b[0]] + b[1..];
      }
    }
  }

  lemma {:induction a, b, c} StringLessIsTransitive(a: string, b: string, c: string)
    requires StringLess(a, b) && StringLess(b, c)
    ensures StringLess(a, c)
  {
  }

  lemma {:induction false} StringLessIsOrder()
    ensures StrictWeakOrder(StringLess)
    ensures forall a, b :: a == b || StringLess(a, b) || StringLess(b, a)
  {
    forall a, b ensures a == b || StringLess(a, b) || StringLess(b, a) {
      StringLessIsTotal(a, b);
    }
    forall x ensures !StringLess(x, x) {
      StringLessIsTotal(x, x);
    }
    forall x, y, z | StringLess(x, y) && StringLess(y, z) ensures StringLess(x, z) {
      StringLessIsTransitive(x, y, z);
    }
    forall x, y, z | StringLess(x, z) ensures StringLess(x, y) || StringLess(y, z) {
      StringLessIsTotal(x, y);
      if StringLess(y, x) {
        StringLessIsTransitive(y, x, z);
      }
    }
  }

  /** Alike up to place k, where a ends first or has the smaller character. */
  predicate DiffersAt(a: string, b: string, k: nat) {
    k <= |a| && k < |b| && a[..k] == b[..k] && (k == |a| || a[k] < b[k])
  }

  ghost predicate Precedes(a: string, b: string) {
    exists k: nat :: DiffersAt(a, b, k)
  }

  /** Strings compare by their first difference. */
  lemma {:induction false} StringLessExactlyWhen(a: string, b: string)
    ensures StringLess(a, b) <==> Precedes(a, b)
  {
    if a != "" && b != "" && a[0] == b[0] {
      StringLessExactlyWhen(a[1..], b[1..]);
      if k: nat :| DiffersAt(a, b, k) {
        assert k > 0 && a[1..k] == a[..k][1..] && b[1..k] == b[..k][1..];
        assert a[1..][..k - 1] == a[1..k] && b[1..][..k - 1] == b[1..k];
        assert DiffersAt(a[1..], b[1..], k - 1);
      }
      if j: nat :| DiffersAt(a[1..], b[1..], j) {
        assert a[..j + 1] == [a[0]] + a[1..][..j] && b[..j + 1] == [b[0]] + b[1..][..j];
        assert DiffersAt(a, b, j + 1);
      }
    } else {
      assert StringLess(a, b) ==> DiffersAt(a, b, 0);
      forall k: nat ensures DiffersAt(a, b, k) ==> k == 0 {
        assert 0 < k <= |a| && k < |b| ==> a[..k][0] == a[0] && b[..k][0] == b[0];
      }
    }
  }
}
