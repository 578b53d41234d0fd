/**
 The ledger's Merkle tree. The hash is an arbitrary function `sha`; where a lemma needs
 collision resistance it asks for it only on the strings the computation really hashes.
 */
module Merkle {
  import opened Wrappers

  type Digest = string
  type Hash = string -> Digest

  const DIGEST_WIDTH := 64

  datatype Side = Left | Right

  datatype ProofStep = ProofStep(sibling: Digest, side: Side)

  datatype MerkleProof = MerkleProof(leaf: Digest, leafIndex: nat, leafCount: nat, root: Digest, path: seq<ProofStep>)

  datatype ProofError = EmptyLeaves | IndexOutOfRange

  function H2(sha: Hash, a: Digest, b: Digest): Digest {
    sha(a + b)
  }

  // ---- the recursive tree: shape of section 2.1 of RFC 6962, without its prefixes ----

  predicate IsPowerOfTwo(k: nat) {
    k == 1 || (k > 1 && k % 2 == 0 && IsPowerOfTwo(k / 2))
  }

  /** The largest power of two below n. */
  function SplitPoint(n: nat): (k: nat)
    requires n >= 2
    ensures 1 <= k < n <= 2 * k
  {
    if n == 2 then 1 else 2 * SplitPoint((n + 1) / 2)
  }

  /** Powers of two are at least a factor two apart. */
  lemma {:induction false} PowersApart(a: nat, b: nat)
    requires IsPowerOfTwo(a) && IsPowerOfTwo(b) && a < b
    ensures 2 * a <= b
  {
    if a > 1 {
      PowersApart(a / 2, b / 2);
    }
  }

  /** The split point is a power of two, and no larger one lies below n. */
  lemma {:induction false} SplitPointIsLargestPower(n: nat)
    requires n >= 2
    ensures IsPowerOfTwo(SplitPoint(n))
    ensures forall p: nat :: IsPowerOfTwo(p) && p < n ==> p <= SplitPoint(n)
  {
    if n > 2 {
      SplitPointIsLargestPower((n + 1) / 2);
    }
    forall p: nat | IsPowerOfTwo(p) && p < n ensures p <= SplitPoint(n) {
      if SplitPoint(n) < p {
        PowersApart(SplitPoint(n), p);
      }
    }
  }

  function Root(sha: Hash, leaves: seq<Digest>): Digest
    requires |leaves| > 0
  {
    if |leaves| == 1 then leaves[0]
    else
      var k := SplitPoint(|leaves|);
      H2(sha, Root(sha, leaves[..k]), Root(sha, leaves[k..]))
  }

  /** The audit path of leaf i in that tree, lowest sibling first (section 2.1.1 of RFC 6962). */
  function AuditPath(sha: Hash, leaves: seq<Digest>, i: nat): seq<ProofStep>
    requires i < |leaves|
  {
    if |leaves| == 1 then []
    else
      var k := SplitPoint(|leaves|);
      if i < k then AuditPath(sha, leaves[..k], i) + [ProofStep(Root(sha, leaves[k..]), Right)]
      else AuditPath(sha, leaves[k..], i - k) + [ProofStep(Root(sha, leaves[..k]), Left)]
  }

  // ---- the level-by-level computation ----

  /** One pass of the pairing loop: neighbours are hashed, an odd last node is promoted. */
  function NextLevel(sha: Hash, level: seq<Digest>): (next: seq<Digest>)
    ensures |next| == (|level| + 1) / 2
  {
    if |level| <= 1 then level
    else [H2(sha, level[0], level[1])] + NextLevel(sha, level[2..])
  }

  method PairLevel(sha: Hash, level: seq<Digest>) returns (next: seq<Digest>)
    ensures next == NextLevel(sha, level)
  {
    next := [];
    var i := 0;
    while i < |level|
      invariant 0 <= i <= |level| + 1
      invariant i <= |level| ==> next + NextLevel(sha, level[i..]) == NextLevel(sha, level)
      invariant i > |level| ==> next == NextLevel(sha, level)
      decreases |level| - i
    {
      var rest := level[i..];
      if i + 1 < |level| {
        assert rest[2..] == level[i + 2..];
        assert next + NextLevel(sha, rest) == (next + [H2(sha, level[i], level[i + 1])]) + NextLevel(sha, rest[2..]);
        next := next + [H2(sha, level[i], level[i + 1])];
      } else {
        assert rest == [level[i]];
        next := next + [level[i]];
      }
      i := i + 2;
    }
  }

  method BuildRoot(sha: Hash, leaves: seq<Digest>) returns (root: Digest)
    ensures leaves == [] ==> root == sha("")
    ensures leaves != [] ==> root == Root(sha, leaves)
  {
    if leaves == [] {
      return sha("");
    }
    var level := leaves;
    while |level| > 1
      invariant |level| >= 1 && Root(sha, level) == Root(sha, leaves)
      decreases |level|
    {
      RootOfNextLevel(sha, level);
      level := PairLevel(sha, level);
    }
    root := level[0];
  }

  lemma {:induction false} NextLevelSplit(sha: Hash, level: seq<Digest>, k: nat)
    requires k <= |level| && k % 2 == 0
    ensures NextLevel(sha, level) == NextLevel(sha, level[..k]) + NextLevel(sha, level[k..])
  {
    if k == 0 {
      assert level[..k] == [] && level[k..] == level;
    } else {
      hide NextLevel, H2;
      NextLevelSplit(sha, level[2..], k - 2);
      NextLevelFirst(sha, level);
      NextLevelFirst(sha, level[..k]);
      assert level[2..][..k - 2] == level[..k][2..];
      assert level[2..][k - 2..] == level[k..];
      AppendAssociates([H2(sha, level[0], level[1])], NextLevel(sha, level[..k][2..]), NextLevel(sha, level[k..]));
    }
  }

  lemma {:induction false} NextLevelFirst(sha: Hash, level: seq<Digest>)
    requires |level| >= 2
    ensures NextLevel(sha, level) == [H2(sha, level[0], level[1])] + NextLevel(sha, level[2..])
  {
    hide H2;
  }

  /** The halves of the next level are the next levels of the halves. */
  lemma {:induction false} NextLevelHalves(sha: Hash, level: seq<Digest>)
    requires |level| >= 3
    ensures var k := SplitPoint(|level|);
            var next := NextLevel(sha, level);
            && k % 2 == 0
            && SplitPoint(|next|) == k / 2
            && next[..k / 2] == NextLevel(sha, level[..k])
            && next[k / 2..] == NextLevel(sha, level[k..])
  {
    var k := SplitPoint(|level|);
    NextLevelSplit(sha, level, k);
    assert |NextLevel(sha, level[..k])| == k / 2;
  }

  /** Pairing one level never changes the root of the recursive tree. */
  lemma {:induction false} RootOfNextLevel(sha: Hash, level: seq<Digest>)
    requires |level| > 0
    ensures Root(sha, NextLevel(sha, level)) == Root(sha, level)
    decreases |level|
  {
    if |level| == 2 {
      assert NextLevel(sha, level) == [H2(sha, level[0], level[1])];
      assert level[..1] == [level[0]] && level[1..] == [level[1]];
    } else if |level| >= 3 {
      var k := SplitPoint(|level|);
      NextLevelHalves(sha, level);
      RootOfNextLevel(sha, level[..k]);
      RootOfNextLevel(sha, level[k..]);
    }
  }

  // ---- proofs ----

  /** The step recorded for node i of one level; none when i is the promoted odd node. */
  function SiblingStep(level: seq<Digest>, i: nat): seq<ProofStep>
    requires i < |level|
  {
    if i % 2 == 1 then [ProofStep(level[i - 1], Left)]
    else if i + 1 < |level| then [ProofStep(level[i + 1], Right)]
    else []
  }

  lemma {:induction false} SiblingStepInHalf(level: seq<Digest>, k: nat, i: nat)
    requires k % 2 == 0 && k <= |level| && i < |level|
    ensures SiblingStep(level, i) == if i < k then SiblingStep(level[..k], i) else SiblingStep(level[k..], i - k)
  {
    if i < k {
      assert i % 2 == 0 ==> i + 1 < k;
    } else {
      assert (i - k) % 2 == i % 2;
    }
  }

  lemma {:induction false} AuditPathOnLeft(sha: Hash, leaves: seq<Digest>, k: nat, i: nat)
    requires |leaves| >= 2 && k == SplitPoint(|leaves|) && i < k
    ensures AuditPath(sha, leaves, i) == AuditPath(sha, leaves[..k], i) + [ProofStep(Root(sha, leaves[k..]), Right)]
  {
  }

  lemma {:induction false} AuditPathOnRight(sha: Hash, leaves: seq<Digest>, k: nat, i: nat, j: nat)
    requires |leaves| >= 2 && k == SplitPoint(|leaves|) && i < |leaves| && i == k + j
    ensures AuditPath(sha, leaves, i) == AuditPath(sha, leaves[k..], j) + [ProofStep(Root(sha, leaves[..k]), Left)]
  {
  }

  /** Recording one sibling and moving up to node `up` follows the recursive audit path. */
  ghost predicate PathFollowsLevel(sha: Hash, level: seq<Digest>, i: nat, up: nat)
    requires i < |level| && 2 * up <= i <= 2 * up + 1
  {
    AuditPath(sha, level, i) == SiblingStep(level, i) + AuditPath(sha, NextLevel(sha, level), up)
  }

  lemma {:induction false} PathFollowsLevelOnLeft(sha: Hash, level: seq<Digest>, m: nat, i: nat, up: nat)
    requires |level| >= 3 && 2 * m == SplitPoint(|level|) && i < 2 * m && 2 * up <= i <= 2 * up + 1
    requires PathFollowsLevel(sha, level[..2 * m], i, up)
    ensures PathFollowsLevel(sha, level, i, up)
  {
    hide AuditPath, SplitPoint, Root, NextLevel;
    var next := NextLevel(sha, level);
    NextLevelHalves(sha, level);
    RootOfNextLevel(sha, level[2 * m..]);
    AuditPathOnLeft(sha, level, 2 * m, i);
    AuditPathOnLeft(sha, next, m, up);
    SiblingStepInHalf(level, 2 * m, i);
  }

  lemma {:induction false} PathFollowsLevelOnRight(sha: Hash, level: seq<Digest>, m: nat, i: nat, up: nat)
    requires |level| >= 3 && 2 * m == SplitPoint(|level|) && 2 * m + i < |level| && 2 * up <= i <= 2 * up + 1
    requires PathFollowsLevel(sha, level[2 * m..], i, up)
    ensures PathFollowsLevel(sha, level, 2 * m + i, m + up)
  {
    hide AuditPath, SplitPoint, Root, NextLevel;
    var next := NextLevel(sha, level);
    NextLevelHalves(sha, level);
    RootOfNextLevel(sha, level[..2 * m]);
    AuditPathOnRight(sha, level, 2 * m, 2 * m + i, i);
    AuditPathOnRight(sha, next, m, m + up, up);
    SiblingStepInHalf(level, 2 * m, 2 * m + i);
  }

  lemma {:induction false} PathFollowsLevelOfPair(sha: Hash, level: seq<Digest>, i: nat, up: nat)
    requires i < |level| <= 2 && 2 * up <= i <= 2 * up + 1
    ensures PathFollowsLevel(sha, level, i, up)
  {
    if |level| == 2 {
      assert level[..1] == [level[0]] && level[1..] == [level[1]];
    }
  }

  lemma {:induction false} AuditPathOfNextLevel(sha: Hash, level: seq<Digest>, i: nat, up: nat)
    requires i < |level| && 2 * up <= i <= 2 * up + 1
    ensures PathFollowsLevel(sha, level, i, up)
    decreases |level|
  {
    hide *;
    if |level| <= 2 {
      PathFollowsLevelOfPair(sha, level, i, up);
    } else {
      NextLevelHalves(sha, level);
      var m := SplitPoint(|level|) / 2;
      if i < 2 * m {
        AuditPathOfNextLevel(sha, level[..2 * m], i, up);
        PathFollowsLevelOnLeft(sha, level, m, i, up);
      } else {
        var j, v := i - 2 * m, up - m;
        AuditPathOfNextLevel(sha, level[2 * m..], j, v);
        PathFollowsLevelOnRight(sha, level, m, j, v);
      }
    }
  }

  lemma {:induction false} AppendAssociates<T>(a: seq<T>, b: seq<T>, c: seq<T>)
    ensures a + (b + c) == (a + b) + c
    ensures a + [] == a
  {
  }

  function FlipLowBit(i: nat): nat {
    if i % 2 == 0 then i + 1 else i - 1
  }

  method BuildProof(sha: Hash, leaves: seq<Digest>, idx: int) returns (r: Result<MerkleProof, ProofError>)
    ensures leaves == [] ==> r == Err(EmptyLeaves)
    ensures leaves != [] && !(0 <= idx < |leaves|) ==> r == Err(IndexOutOfRange)
    ensures 0 <= idx < |leaves| ==>
              r == Ok(MerkleProof(leaves[idx], idx, |leaves|, Root(sha, leaves), AuditPath(sha, leaves, idx)))
  {
    if leaves == [] {
      return Err(EmptyLeaves);
    }
    if !(0 <= idx < |leaves|) {
      return Err(IndexOutOfRange);
    }
    var path: seq<ProofStep> := [];
    var level := leaves;
    var cur: nat := idx;
    assert path + AuditPath(sha, level, cur) == AuditPath(sha, leaves, idx);
    while |level| > 1
      invariant cur < |level|
      invariant Root(sha, level) == Root(sha, leaves)
      invariant path + AuditPath(sha, level, cur) == AuditPath(sha, leaves, idx)
      decreases |level|
    {
      RootOfNextLevel(sha, level);
      AuditPathOfNextLevel(sha, level, cur, cur / 2);
      AppendAssociates(path, SiblingStep(level, cur), AuditPath(sha, NextLevel(sha, level), cur / 2));
      var siblingIdx := FlipLowBit(cur);
      if siblingIdx < |level| {
        path := path + [ProofStep(level[siblingIdx], if siblingIdx < cur then Left else Right)];
      }
      level := PairLevel(sha, level);
      cur := cur / 2;
    }
    assert path + [] == path;
    r := Ok(MerkleProof(leaves[idx], idx, |leaves|, level[0], path));
  }

  function Fold(sha: Hash, h: Digest, path: seq<ProofStep>): Digest
    decreases |path|
  {
    if path == [] then h
    else
      var below := Fold(sha, h, path[..|path| - 1]);
      var step := path[|path| - 1];
      if step.side == Left then H2(sha, step.sibling, below) else H2(sha, below, step.sibling)
  }

  method VerifyProof(sha: Hash, proof: MerkleProof) returns (ok: bool)
    ensures ok <==> Fold(sha, proof.leaf, proof.path) == proof.root
  {
    var h := proof.leaf;
    for i := 0 to |proof.path|
      invariant h == Fold(sha, proof.leaf, proof.path[..i])
    {
      var step := proof.path[i];
      assert proof.path[..i + 1][..i] == proof.path[..i];
      h := if step.side == Left then H2(sha, step.sibling, h) else H2(sha, h, step.sibling);
    }
    assert proof.path[..|proof.path|] == proof.path;
    ok := h == proof.root;
  }

  /** Completeness: the audit path of every leaf folds to the root. */
  lemma {:induction false} AuditPathFolds(sha: Hash, leaves: seq<Digest>, i: nat)
    requires i < |leaves|
    ensures Fold(sha, leaves[i], AuditPath(sha, leaves, i)) == Root(sha, leaves)
    decreases |leaves|
  {
    if |leaves| > 1 {
      var k := SplitPoint(|leaves|);
      hide Root, AuditPath, Fold, SplitPoint, H2;
      RootSplits(sha, leaves);
      if i < k {
        AuditPathFolds(sha, leaves[..k], i);
        AuditPathOnLeft(sha, leaves, k, i);
        FoldStep(sha, leaves[i], AuditPath(sha, leaves[..k], i), ProofStep(Root(sha, leaves[k..]), Right));
      } else {
        AuditPathFolds(sha, leaves[k..], i - k);
        AuditPathOnRight(sha, leaves, k, i, i - k);
        FoldStep(sha, leaves[i], AuditPath(sha, leaves[k..], i - k), ProofStep(Root(sha, leaves[..k]), Left));
      }
    } else {
      assert AuditPath(sha, leaves, i) == [] && Root(sha, leaves) == leaves[0];
    }
  }

  lemma {:induction false} FoldStep(sha: Hash, h: Digest, path: seq<ProofStep>, step: ProofStep)
    ensures var below := Fold(sha, h, path);
            Fold(sha, h, path + [step]) == if step.side == Left then sha(step.sibling + below) else sha(below + step.sibling)
  {
    assert (path + [step])[..|path|] == path;
  }

  // ---- path shape: sides and skips depend on (index, count) alone ----

  function ShapeOf(i: nat, n: nat): seq<Side>
    requires i < n
    decreases n
  {
    if n == 1 then []
    else (if i % 2 == 1 then [Left] else if i + 1 < n then [Right] else []) + ShapeOf(i / 2, (n + 1) / 2)
  }

  function Sides(path: seq<ProofStep>): (s: seq<Side>)
    ensures |s| == |path|
  {
    seq(|path|, j requires 0 <= j < |path| => path[j].side)
  }

  lemma {:induction false} SidesAppend(a: seq<ProofStep>, b: seq<ProofStep>)
    ensures Sides(a + b) == Sides(a) + Sides(b)
  {
  }

  lemma {:induction false} AuditPathShape(sha: Hash, leaves: seq<Digest>, i: nat)
    requires i < |leaves|
    ensures Sides(AuditPath(sha, leaves, i)) == ShapeOf(i, |leaves|)
    decreases |leaves|
  {
    if |leaves| > 1 {
      var next := NextLevel(sha, leaves);
      AuditPathOfNextLevel(sha, leaves, i, i / 2);
      AuditPathShape(sha, next, i / 2);
      SidesAppend(SiblingStep(leaves, i), AuditPath(sha, next, i / 2));
    }
  }

  function Pow2(e: nat): nat {
    if e == 0 then 1 else 2 * Pow2(e - 1)
  }

  /** The ceiling of log2 of n. */
  function Depth(n: nat): (d: nat)
    requires n >= 1
    ensures n <= Pow2(d) && (n >= 2 ==> d >= 1 && Pow2(d - 1) < n)
  {
    if n == 1 then 0 else 1 + Depth((n + 1) / 2)
  }

  /** The number of levels at which node i of n is the promoted odd node. */
  function Promotions(i: nat, n: nat): nat
    requires i < n
    decreases n
  {
    if n == 1 then 0
    else (if i % 2 == 0 && i + 1 == n then 1 else 0) + Promotions(i / 2, (n + 1) / 2)
  }

  lemma {:induction false} ShapeLength(i: nat, n: nat)
    requires i < n
    ensures |ShapeOf(i, n)| + Promotions(i, n) == Depth(n)
    decreases n
  {
    if n > 1 {
      ShapeLength(i / 2, (n + 1) / 2);
    }
  }

  /** A proof is as long as the tree is deep, less one step for each level that promoted its node. */
  lemma {:induction false} AuditPathLength(sha: Hash, leaves: seq<Digest>, i: nat)
    requires i < |leaves|
    ensures |AuditPath(sha, leaves, i)| == Depth(|leaves|) - Promotions(i, |leaves|)
  {
    AuditPathShape(sha, leaves, i);
    ShapeLength(i, |leaves|);
  }

  // ---- binding ----

  /** The strings hashed while the root of `leaves` is computed. */
  ghost function RootPreimages(sha: Hash, leaves: seq<Digest>): set<string>
    requires |leaves| > 0
  {
    if |leaves| == 1 then {}
    else
      var k := SplitPoint(|leaves|);
      {Root(sha, leaves[..k]) + Root(sha, leaves[k..])}
      + RootPreimages(sha, leaves[..k]) + RootPreimages(sha, leaves[k..])
  }

  /** The strings hashed while a proof is checked. */
  ghost function FoldPreimages(sha: Hash, h: Digest, path: seq<ProofStep>): set<string>
    decreases |path|
  {
    if path == [] then {}
    else
      var init := path[..|path| - 1];
      var below := Fold(sha, h, init);
      var step := path[|path| - 1];
      {if step.side == Left then step.sibling + below else below + step.sibling} + FoldPreimages(sha, h, init)
  }

  ghost predicate CollisionFree(sha: Hash, inputs: set<string>) {
    forall x, y :: x in inputs && y in inputs && sha(x) == sha(y) ==> x == y
  }

  predicate Wide(d: Digest) {
    |d| == DIGEST_WIDTH
  }

  ghost predicate FixedWidth(sha: Hash) {
    forall s :: Wide(sha(s))
  }

  predicate AllWide(leaves: seq<Digest>) {
    forall d :: d in leaves ==> Wide(d)
  }

  lemma RootIsWide(sha: Hash, leaves: seq<Digest>)
    requires |leaves| > 0 && AllWide(leaves) && FixedWidth(sha)
    ensures Wide(Root(sha, leaves))
  {
    if |leaves| == 1 {
      assert leaves[0] in leaves;
    }
  }

  lemma FoldIsWide(sha: Hash, h: Digest, path: seq<ProofStep>)
    requires Wide(h) && FixedWidth(sha)
    ensures Wide(Fold(sha, h, path))
  {
  }

  lemma {:induction false} ConcatOfWide(a: Digest, b: Digest, c: Digest, d: Digest)
    requires Wide(a) && Wide(c) && a + b == c + d
    ensures a == c && b == d
  {
    assert a == (a + b)[..DIGEST_WIDTH] && b == (a + b)[DIGEST_WIDTH..];
    assert c == (c + d)[..DIGEST_WIDTH] && d == (c + d)[DIGEST_WIDTH..];
  }

  /** Equal roots over equally many leaves mean equal leaves. */
  lemma {:induction false} RootBinds(sha: Hash, xs: seq<Digest>, ys: seq<Digest>)
    requires |xs| == |ys| > 0 && AllWide(xs) && AllWide(ys) && FixedWidth(sha)
    requires CollisionFree(sha, RootPreimages(sha, xs) + RootPreimages(sha, ys))
    requires Root(sha, xs) == Root(sha, ys)
    ensures xs == ys
    decreases |xs|
  {
    if |xs| > 1 {
      var k := SplitPoint(|xs|);
      hide Root, RootPreimages, SplitPoint, H2;
      RootSplits(sha, xs);
      RootSplits(sha, ys);
      RootIsWide(sha, xs[..k]);
      RootIsWide(sha, ys[..k]);
      ConcatOfWide(Root(sha, xs[..k]), Root(sha, xs[k..]), Root(sha, ys[..k]), Root(sha, ys[k..]));
      RootBinds(sha, xs[..k], ys[..k]);
      RootBinds(sha, xs[k..], ys[k..]);
      assert xs == xs[..k] + xs[k..] && ys == ys[..k] + ys[k..];
    } else {
      assert xs == [Root(sha, xs)] && ys == [Root(sha, ys)];
    }
  }

  lemma {:induction false} RootSplits(sha: Hash, xs: seq<Digest>)
    requires |xs| > 1
    ensures var k := SplitPoint(|xs|);
            var top := Root(sha, xs[..k]) + Root(sha, xs[k..]);
            && Root(sha, xs) == sha(top)
            && RootPreimages(sha, xs) == {top} + RootPreimages(sha, xs[..k]) + RootPreimages(sha, xs[k..])
  {
  }

  // ---- leaf counts are part of the commitment ----

  const ZEROS: Digest := seq(DIGEST_WIDTH, _ => '0')

  /** Leaf lists of any two lengths with one root: where one tree runs out, its leaf is a node of the other. */
  function Twins(sha: Hash, m: nat, n: nat): (t: (seq<Digest>, seq<Digest>))
    requires m >= 1 && n >= 1
    ensures |t.0| == m && |t.1| == n
    decreases m + n
  {
    if m == 1 then
      var ys := seq(n, _ => ZEROS);
      ([Root(sha, ys)], ys)
    else if n == 1 then
      var xs := seq(m, _ => ZEROS);
      (xs, [Root(sha, xs)])
    else
      var k, l := SplitPoint(m), SplitPoint(n);
      var left, right := Twins(sha, k, l), Twins(sha, m - k, n - l);
      (left.0 + right.0, left.1 + right.1)
  }

  lemma {:induction false} RootOfHalves(sha: Hash, a: seq<Digest>, b: seq<Digest>, n: nat)
    requires |a| >= 1 && |b| >= 1 && n == |a| + |b| && |a| == SplitPoint(n)
    ensures Root(sha, a + b) == H2(sha, Root(sha, a), Root(sha, b))
  {
    hide H2;
    var c := a + b;
    assert c[..|a|] == a && c[|a|..] == b;
  }

  ghost predicate Agree(sha: Hash, t: (seq<Digest>, seq<Digest>)) {
    |t.0| >= 1 && |t.1| >= 1 && AllWide(t.0) && AllWide(t.1) && Root(sha, t.0) == Root(sha, t.1)
  }

  lemma {:induction false} OneAgreesWithAll(sha: Hash, n: nat)
    requires n >= 1 && FixedWidth(sha)
    ensures var ys := seq(n, _ => ZEROS); Agree(sha, ([Root(sha, ys)], ys)) && Agree(sha, (ys, [Root(sha, ys)]))
  {
    RootIsWide(sha, seq(n, _ => ZEROS));
  }

  lemma {:induction false} HalvesAgree(sha: Hash, a: (seq<Digest>, seq<Digest>), b: (seq<Digest>, seq<Digest>), m: nat, n: nat)
    requires Agree(sha, a) && Agree(sha, b)
    requires m == |a.0| + |b.0| && n == |a.1| + |b.1| && |a.0| == SplitPoint(m) && |a.1| == SplitPoint(n)
    ensures Agree(sha, (a.0 + b.0, a.1 + b.1))
  {
    hide Root, H2;
    RootOfHalves(sha, a.0, b.0, m);
    RootOfHalves(sha, a.1, b.1, n);
  }

  lemma {:induction false} TwinsAgree(sha: Hash, m: nat, n: nat)
    requires m >= 1 && n >= 1 && FixedWidth(sha)
    ensures Agree(sha, Twins(sha, m, n))
    decreases m + n
  {
    hide SplitPoint, Root, Agree, FixedWidth, H2;
    if m == 1 {
      OneAgreesWithAll(sha, n);
    } else if n == 1 {
      OneAgreesWithAll(sha, m);
    } else {
      var k, l := SplitPoint(m), SplitPoint(n);
      TwinsAgree(sha, k, l);
      TwinsAgree(sha, m - k, n - l);
      HalvesAgree(sha, Twins(sha, k, l), Twins(sha, m - k, n - l), m, n);
      TwinsSplit(sha, m, n, k, l);
    }
  }

  lemma {:induction false} TwinsSplit(sha: Hash, m: nat, n: nat, k: nat, l: nat)
    requires m >= 2 && n >= 2 && k == SplitPoint(m) && l == SplitPoint(n)
    ensures var left, right := Twins(sha, k, l), Twins(sha, m - k, n - l);
            Twins(sha, m, n) == (left.0 + right.0, left.1 + right.1)
  {
    hide Root, SplitPoint, H2;
  }

  /** Two wide lists of these lengths with one root, and no collision to blame for it. */
  ghost predicate SameRoot(sha: Hash, m: nat, n: nat, xs: seq<Digest>, ys: seq<Digest>)
    requires m >= 1 && n >= 1
  {
    && |xs| == m && |ys| == n && AllWide(xs) && AllWide(ys) && Root(sha, xs) == Root(sha, ys)
    && CollisionFree(sha, RootPreimages(sha, xs) + RootPreimages(sha, ys))
  }

  /** Equal roots force equal leaves for two leaf counts exactly if the counts are the same. */
  lemma {:induction false} RootBindsExactlyWhen(sha: Hash, m: nat, n: nat)
    requires m >= 1 && n >= 1 && FixedWidth(sha)
    requires var (xs, ys) := Twins(sha, m, n); CollisionFree(sha, RootPreimages(sha, xs) + RootPreimages(sha, ys))
    ensures (forall xs, ys :: SameRoot(sha, m, n, xs, ys) ==> xs == ys) <==> m == n
  {
    if m == n {
      forall xs, ys | SameRoot(sha, m, n, xs, ys) ensures xs == ys {
        RootBinds(sha, xs, ys);
      }
    } else {
      var (xs, ys) := Twins(sha, m, n);
      TwinsAgree(sha, m, n);
      assert SameRoot(sha, m, n, xs, ys) && |xs| != |ys|;
    }
  }

  // ---- leaves that are hashes of texts ----

  /** Every leaf is the hash of a text that cannot be mistaken for two digests side by side. */
  predicate HashesOfTexts(sha: Hash, text: Digest -> string, leaves: seq<Digest>) {
    forall d :: d in leaves ==> d == sha(text(d)) && |text(d)| != 2 * DIGEST_WIDTH
  }

  ghost function TextsOf(text: Digest -> string, leaves: seq<Digest>): set<string> {
    set d | d in leaves :: text(d)
  }

  /** Everything hashed below and in a tree over texts. */
  ghost function AllPreimages(sha: Hash, text: Digest -> string, leaves: seq<Digest>): set<string>
    requires |leaves| > 0
  {
    RootPreimages(sha, leaves) + TextsOf(text, leaves)
  }

  lemma {:induction false} TextsAreWide(sha: Hash, text: Digest -> string, leaves: seq<Digest>)
    requires HashesOfTexts(sha, text, leaves) && FixedWidth(sha)
    ensures AllWide(leaves)
  {
  }

  lemma {:induction false} HalfOfTexts(sha: Hash, text: Digest -> string, xs: seq<Digest>, k: nat)
    requires |xs| > 1 && k == SplitPoint(|xs|) && HashesOfTexts(sha, text, xs)
    ensures HashesOfTexts(sha, text, xs[..k]) && HashesOfTexts(sha, text, xs[k..])
    ensures AllPreimages(sha, text, xs[..k]) <= AllPreimages(sha, text, xs)
    ensures AllPreimages(sha, text, xs[k..]) <= AllPreimages(sha, text, xs)
  {
    hide Root, RootPreimages, SplitPoint, H2;
    RootSplits(sha, xs);
    assert forall d :: d in xs[..k] || d in xs[k..] ==> d in xs;
  }

  lemma {:induction false} LeafIsNoNode(sha: Hash, text: Digest -> string, d: Digest, ys: seq<Digest>)
    requires |ys| > 1 && FixedWidth(sha) && HashesOfTexts(sha, text, [d]) && AllWide(ys)
    requires CollisionFree(sha, {text(d)} + RootPreimages(sha, ys))
    ensures d != Root(sha, ys)
  {
    hide Root, RootPreimages, SplitPoint, H2;
    var k := SplitPoint(|ys|);
    RootSplits(sha, ys);
    RootIsWide(sha, ys[..k]);
    RootIsWide(sha, ys[k..]);
    assert d in [d];
    assert |Root(sha, ys[..k]) + Root(sha, ys[k..])| == 2 * DIGEST_WIDTH;
  }

  /** Over hashes of texts that are not two digests long, equal roots force equal leaves, whatever the counts. */
  lemma {:induction false} RootBindsTexts(sha: Hash, text: Digest -> string, xs: seq<Digest>, ys: seq<Digest>)
    requires |xs| > 0 && |ys| > 0 && FixedWidth(sha) && HashesOfTexts(sha, text, xs) && HashesOfTexts(sha, text, ys)
    requires CollisionFree(sha, AllPreimages(sha, text, xs) + AllPreimages(sha, text, ys))
    requires Root(sha, xs) == Root(sha, ys)
    ensures xs == ys
    decreases |xs| + |ys|
  {
    TextsAreWide(sha, text, xs);
    TextsAreWide(sha, text, ys);
    if |xs| == 1 {
      assert xs == [Root(sha, xs)] && Root(sha, xs) in xs;
      if |ys| > 1 {
        LeafIsNoNode(sha, text, xs[0], ys);
      } else {
        assert ys == [Root(sha, ys)];
      }
    } else if |ys| == 1 {
      assert ys == [Root(sha, ys)] && Root(sha, ys) in ys;
      LeafIsNoNode(sha, text, ys[0], xs);
    } else {
      TreesOfTexts(sha, text, xs, ys);
    }
  }

  lemma {:induction false} TreesOfTexts(sha: Hash, text: Digest -> string, xs: seq<Digest>, ys: seq<Digest>)
    requires |xs| > 1 && |ys| > 1 && FixedWidth(sha) && HashesOfTexts(sha, text, xs) && HashesOfTexts(sha, text, ys)
    requires AllWide(xs) && AllWide(ys)
    requires CollisionFree(sha, AllPreimages(sha, text, xs) + AllPreimages(sha, text, ys))
    requires Root(sha, xs) == Root(sha, ys)
    ensures xs == ys
    decreases |xs| + |ys|, 0
  {
    hide Root, RootPreimages, SplitPoint, H2, HashesOfTexts, TextsOf;
    var k, l := SplitPoint(|xs|), SplitPoint(|ys|);
    RootSplits(sha, xs);
    RootSplits(sha, ys);
    RootIsWide(sha, xs[..k]);
    RootIsWide(sha, ys[..l]);
    ConcatOfWide(Root(sha, xs[..k]), Root(sha, xs[k..]), Root(sha, ys[..l]), Root(sha, ys[l..]));
    HalfOfTexts(sha, text, xs, k);
    HalfOfTexts(sha, text, ys, l);
    hide AllPreimages;
    RootBindsTexts(sha, text, xs[..k], ys[..l]);
    RootBindsTexts(sha, text, xs[k..], ys[l..]);
    assert xs == xs[..k] + xs[k..] && ys == ys[..l] + ys[l..];
  }

  /** ShapeOf, read from the top of the tree. */
  function TopDownShape(i: nat, n: nat): seq<Side>
    requires i < n
    decreases n
  {
    if n == 1 then []
    else
      var k := SplitPoint(n);
      if i < k then TopDownShape(i, k) + [Right] else TopDownShape(i - k, n - k) + [Left]
  }

  lemma {:induction false} TopDownShapeOnRight(i: nat, j: nat, k: nat, m: nat, n: nat)
    requires n >= 2 && k == SplitPoint(n) && i < n && i == k + j && n == k + m
    ensures TopDownShape(i, n) == TopDownShape(j, m) + [Left]
  {
  }

  lemma {:induction false} AppendIsInjective<T>(a: seq<T>, x: T, b: seq<T>, y: T)
    requires a + [x] == b + [y]
    ensures a == b && x == y
  {
    assert |a + [x]| == |b + [y]|;
    assert a == (a + [x])[..|a|] && b == (b + [y])[..|b|];
    assert x == (a + [x])[|a|] && y == (b + [y])[|b|];
  }

  lemma {:induction false} AuditPathTopDownShape(sha: Hash, leaves: seq<Digest>, i: nat)
    requires i < |leaves|
    ensures Sides(AuditPath(sha, leaves, i)) == TopDownShape(i, |leaves|)
    decreases |leaves|
  {
    if |leaves| > 1 {
      var k := SplitPoint(|leaves|);
      if i < k {
        AuditPathTopDownShape(sha, leaves[..k], i);
        SidesAppend(AuditPath(sha, leaves[..k], i), [ProofStep(Root(sha, leaves[k..]), Right)]);
      } else {
        var j := i - k;
        AuditPathTopDownShape(sha, leaves[k..], j);
        AuditPathOnRight(sha, leaves, k, i, j);
        TopDownShapeOnRight(i, j, k, |leaves[k..]|, |leaves|);
        SidesAppend(AuditPath(sha, leaves[k..], j), [ProofStep(Root(sha, leaves[..k]), Left)]);
      }
    }
  }

  /** A path of the shape that (index, count) dictates folds to the root only from the leaf at that
      index, and only if it is that leaf's audit path. */
  lemma {:induction false} PathBinds(sha: Hash, leaves: seq<Digest>, i: nat, leaf: Digest, path: seq<ProofStep>)
    requires i < |leaves| && AllWide(leaves) && FixedWidth(sha)
    requires Wide(leaf) && (forall s :: s in path ==> Wide(s.sibling))
    requires Sides(path) == ShapeOf(i, |leaves|)
    requires CollisionFree(sha, RootPreimages(sha, leaves) + FoldPreimages(sha, leaf, path))
    requires Fold(sha, leaf, path) == Root(sha, leaves)
    ensures leaf == leaves[i] && path == AuditPath(sha, leaves, i)
  {
    AuditPathShape(sha, leaves, i);
    AuditPathTopDownShape(sha, leaves, i);
    TopDownPathBinds(sha, leaves, i, leaf, path);
  }

  /** The last fold step of a path with the right shape hashes the same pair as the root does. */
  lemma {:induction false} LastStepBinds(sha: Hash, leaves: seq<Digest>, i: nat, leaf: Digest, init: seq<ProofStep>, last: ProofStep)
    requires |leaves| > 1 && i < |leaves| && AllWide(leaves) && FixedWidth(sha) && Wide(leaf) && Wide(last.sibling)
    requires last.side == if i < SplitPoint(|leaves|) then Right else Left
    requires CollisionFree(sha, RootPreimages(sha, leaves) + FoldPreimages(sha, leaf, init + [last]))
    requires Fold(sha, leaf, init + [last]) == Root(sha, leaves)
    ensures var k := SplitPoint(|leaves|);
            var l, r := Root(sha, leaves[..k]), Root(sha, leaves[k..]);
            && Fold(sha, leaf, init) == (if i < k then l else r)
            && last.sibling == (if i < k then r else l)
            && FoldPreimages(sha, leaf, init) <= FoldPreimages(sha, leaf, init + [last])
  {
    var k := SplitPoint(|leaves|);
    var below := Fold(sha, leaf, init);
    var l, r := Root(sha, leaves[..k]), Root(sha, leaves[k..]);
    assert (init + [last])[..|init|] == init;
    RootIsWide(sha, leaves[..k]);
    FoldIsWide(sha, leaf, init);
    var x := if i < k then below + last.sibling else last.sibling + below;
    assert x in FoldPreimages(sha, leaf, init + [last]) && l + r in RootPreimages(sha, leaves);
    assert sha(x) == sha(l + r);
    if i < k {
      ConcatOfWide(below, last.sibling, l, r);
    } else {
      ConcatOfWide(last.sibling, below, l, r);
    }
  }

  ghost predicate GoodPath(sha: Hash, leaves: seq<Digest>, i: nat, leaf: Digest, path: seq<ProofStep>)
    requires i < |leaves|
  {
    && AllWide(leaves) && Wide(leaf) && (forall s :: s in path ==> Wide(s.sibling))
    && Sides(path) == TopDownShape(i, |leaves|)
    && CollisionFree(sha, RootPreimages(sha, leaves) + FoldPreimages(sha, leaf, path))
    && Fold(sha, leaf, path) == Root(sha, leaves)
  }

  /** A good path loses its last step when the tree loses its top node. */
  lemma {:induction false} GoodPathOnLeft(sha: Hash, leaves: seq<Digest>, i: nat, leaf: Digest,
                                          init: seq<ProofStep>, last: ProofStep)
    requires |leaves| > 1 && i < SplitPoint(|leaves|) && FixedWidth(sha)
    requires GoodPath(sha, leaves, i, leaf, init + [last])
    ensures var k := SplitPoint(|leaves|);
            GoodPath(sha, leaves[..k], i, leaf, init) && last == ProofStep(Root(sha, leaves[k..]), Right)
  {
    var k := SplitPoint(|leaves|);
    assert last in init + [last] && (forall s :: s in init ==> s in init + [last]);
    SidesAppend(init, [last]);
    assert TopDownShape(i, |leaves|) == TopDownShape(i, k) + [Right];
    AppendIsInjective(Sides(init), last.side, TopDownShape(i, k), Right);
    LastStepBinds(sha, leaves, i, leaf, init, last);
    assert RootPreimages(sha, leaves[..k]) <= RootPreimages(sha, leaves);
  }

  lemma {:induction false} GoodPathOnRight(sha: Hash, leaves: seq<Digest>, i: nat, j: nat, leaf: Digest,
                                           init: seq<ProofStep>, last: ProofStep)
    requires |leaves| > 1 && i < |leaves| && i == SplitPoint(|leaves|) + j && FixedWidth(sha)
    requires GoodPath(sha, leaves, i, leaf, init + [last])
    ensures var k := SplitPoint(|leaves|);
            GoodPath(sha, leaves[k..], j, leaf, init) && last == ProofStep(Root(sha, leaves[..k]), Left)
  {
    var k := SplitPoint(|leaves|);
    var m := |leaves[k..]|;
    assert last in init + [last] && (forall s :: s in init ==> s in init + [last]);
    SidesAppend(init, [last]);
    TopDownShapeOnRight(i, j, k, m, |leaves|);
    AppendIsInjective(Sides(init), last.side, TopDownShape(j, m), Left);
    LastStepBinds(sha, leaves, i, leaf, init, last);
    assert RootPreimages(sha, leaves[k..]) <= RootPreimages(sha, leaves);
  }

  lemma {:induction false} PathIsLongEnough(sha: Hash, leaves: seq<Digest>, i: nat, leaf: Digest, path: seq<ProofStep>)
    requires i < |leaves| && GoodPath(sha, leaves, i, leaf, path)
    ensures |leaves| > 1 ==> path != []
    ensures |leaves| == 1 ==> leaf == leaves[i] && path == AuditPath(sha, leaves, i)
  {
    assert |path| == |TopDownShape(i, |leaves|)|;
  }

  lemma {:induction false} TopDownPathBinds(sha: Hash, leaves: seq<Digest>, i: nat, leaf: Digest, path: seq<ProofStep>)
    requires i < |leaves| && FixedWidth(sha) && GoodPath(sha, leaves, i, leaf, path)
    ensures leaf == leaves[i] && path == AuditPath(sha, leaves, i)
    decreases |leaves|
  {
    hide AuditPath, Root, GoodPath;
    PathIsLongEnough(sha, leaves, i, leaf, path);
    if |leaves| > 1 {
      var k := SplitPoint(|leaves|);
      var init, last := path[..|path| - 1], path[|path| - 1];
      assert path == init + [last];
      if i < k {
        GoodPathOnLeft(sha, leaves, i, leaf, init, last);
        TopDownPathBinds(sha, leaves[..k], i, leaf, init);
        AuditPathOnLeft(sha, leaves, k, i);
      } else {
        var j := i - k;
        GoodPathOnRight(sha, leaves, i, j, leaf, init, last);
        TopDownPathBinds(sha, leaves[k..], j, leaf, init);
        AuditPathOnRight(sha, leaves, k, i, j);
      }
    }
  }
}
