/** Spans as they are hashed, exported, ingested and loaded. */
module Spans {
  import opened Wrappers

  type Digest = string

  const SCHEMA_VERSION := "1.0.0"

  datatype Status = StatusOk | StatusError(message: string) | StatusCancelled

  /** The parts of a span that a redaction filter may rewrite. */
  datatype Payload = Payload(attributes: string, inputs: string, outputs: string)

  /** Everything the canonical serialization covers: a span without its provenance. */
  datatype Content = Content(
    spanId: string, parentId: Option<string>, trajectoryId: string, customer: string,
    startTime: int, endTime: int, status: Status, payload: Payload)

  datatype Provenance = Provenance(contentHash: Digest, parentHash: Option<Digest>, schemaVersion: string)

  datatype Span = Span(content: Content, provenance: Provenance)

  /** SHA-256 over canonical bytes, as an arbitrary function. */
  type ContentHash = Content -> Digest

  function SpanId(s: Span): string {
    s.content.spanId
  }

  function Ids(spans: seq<Span>): (ids: seq<string>)
    ensures |ids| == |spans|
  {
    seq(|spans|, i requires 0 <= i < |spans| => SpanId(spans[i]))
  }

  ghost predicate Distinct<T>(s: seq<T>) {
    forall i, j :: 0 <= i < j < |s| ==> s[i] != s[j]
  }

  lemma {:induction false} IdsAppend(a: seq<Span>, b: seq<Span>)
    ensures Ids(a + b) == Ids(a) + Ids(b)
  {
  }

  lemma {:induction false} DistinctAppend<T>(a: seq<T>, b: seq<T>)
    ensures Distinct(a + b) <==> Distinct(a) && Distinct(b) && (forall x :: x in a ==> x !in b)
  {
    var c := a + b;
    if Distinct(c) {
      forall i, j | 0 <= i < j < |a| ensures a[i] != a[j] {
        assert c[i] == a[i] && c[j] == a[j];
      }
      forall i, j | 0 <= i < j < |b| ensures b[i] != b[j] {
        assert c[|a| + i] == b[i] && c[|a| + j] == b[j];
      }
      forall i, j | 0 <= i < |a| && 0 <= j < |b| ensures a[i] != b[j] {
        assert c[i] == a[i] && c[|a| + j] == b[j];
      }
    }
    if Distinct(a) && Distinct(b) && (forall x :: x in a ==> x !in b) {
      forall i, j | 0 <= i < j < |c| ensures c[i] != c[j] {
        assert i < |a| ==> c[i] in a;
        assert j >= |a| ==> c[j] == b[j - |a|] && c[j] in b;
        assert i >= |a| ==> c[i] == b[i - |a|];
      }
    }
  }

  lemma {:induction false} IdsMembers(spans: seq<Span>, id: string)
    ensures id in Ids(spans) <==> exists s :: s in spans && SpanId(s) == id
  {
    if id in Ids(spans) {
      var i :| 0 <= i < |spans| && Ids(spans)[i] == id;
      assert spans[i] in spans;
    }
    if s :| s in spans && SpanId(s) == id {
      var i :| 0 <= i < |spans| && spans[i] == s;
      assert Ids(spans)[i] == id;
    }
  }

  /** Two places of a permutation of distinct elements hold different elements. */
  lemma {:induction false} PermutedDistinct<T>(a: seq<T>, b: seq<T>, i: nat, j: nat)
    requires Distinct(a) && multiset(a) == multiset(b) && i < j < |b|
    ensures b[i] != b[j]
  {
    if b[i] == b[j] {
      var x := b[i];
      assert b == b[..i] + [x] + b[i + 1..j] + [x] + b[j + 1..];
      assert multiset(b)[x] >= 2;
      AtMostOnce(a, x);
    }
  }

  lemma {:induction false} AtMostOnce<T>(a: seq<T>, x: T)
    requires Distinct(a)
    ensures multiset(a)[x] <= 1
  {
    if a != [] {
      var init, last := a[..|a| - 1], a[|a| - 1];
      assert a == init + [last];
      DistinctAppend(init, [last]);
      AtMostOnce(init, x);
      assert last !in init;
    }
  }
}
