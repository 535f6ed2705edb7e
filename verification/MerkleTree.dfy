/**
 * packages/schemas/src/ids.ts, the Merkle part: a sorted-pair tree in which an odd node is promoted.
 *
 * Digests are the 256-bit numbers `compareHex` compares. The hash of a sorted pair is a parameter
 * `h`, about which the theorems assume only what a commitment needs: no two sorted pairs collide,
 * and no leaf is itself the hash of a pair.
 */
module MerkleTree {

  type Digest = nat
  type PairHash = (Digest, Digest) -> Digest

  ghost predicate CollisionFree(h: PairHash) {
    forall a: Digest, b: Digest, c: Digest, d: Digest ::
      a <= b && c <= d && h(a, b) == h(c, d) ==> a == c && b == d
  }

  /** `x` is not the hash of any sorted pair. */
  ghost predicate NotAHash(h: PairHash, x: Digest) {
    forall a: Digest, b: Digest :: a <= b ==> h(a, b) != x
  }

  ghost predicate AllLeaves(h: PairHash, leaves: seq<Digest>) {
    forall i :: 0 <= i < |leaves| ==> NotAHash(h, leaves[i])
  }

  function HashPair(h: PairHash, a: Digest, b: Digest): Digest {
    if a <= b then h(a, b) else h(b, a)
  }

  // ---------------------------------------------------------------------------------- sorting

  predicate Ordered(xs: seq<Digest>) {
    forall i, j :: 0 <= i <= j < |xs| ==> xs[i] <= xs[j]
  }

  function Insert(x: Digest, xs: seq<Digest>): seq<Digest> {
    if xs == [] || x <= xs[0] then [x] + xs else [xs[0]] + Insert(x, xs[1..])
  }

  /** The ascending arrangement of a list, which is what the runtime's sort returns. */
  function Sort(xs: seq<Digest>): seq<Digest> {
    if xs == [] then [] else Insert(xs[0], Sort(xs[1..]))
  }

  lemma {:induction false} InsertKeeps(x: Digest, xs: seq<Digest>)
    requires Ordered(xs)
    ensures Ordered(Insert(x, xs)) && multiset(Insert(x, xs)) == multiset{x} + multiset(xs)
  {
    if !(xs == [] || x <= xs[0]) {
      InsertKeeps(x, xs[1..]);
      HeadAndTail(xs);
      var rest := Insert(x, xs[1..]);
      forall i | 0 <= i < |rest|
        ensures xs[0] <= rest[i]
      {
        AfterHead(x, xs, rest, i);
      }
    }
  }

  lemma AfterHead(x: Digest, xs: seq<Digest>, rest: seq<Digest>, i: nat)
    requires Ordered(xs) && xs != [] && xs[0] <= x
    requires multiset(rest) == multiset{x} + multiset(xs[1..]) && i < |rest|
    ensures xs[0] <= rest[i]
  {
    assert rest[i] in multiset(rest);
    if rest[i] != x {
      assert rest[i] in multiset(xs[1..]);
      var j :| 0 <= j < |xs[1..]| && xs[1..][j] == rest[i];
      assert xs[1 + j] == rest[i];
    }
  }

  lemma {:induction false} SortSorts(xs: seq<Digest>)
    ensures Ordered(Sort(xs)) && multiset(Sort(xs)) == multiset(xs)
  {
    if xs != [] {
      SortSorts(xs[1..]);
      InsertKeeps(xs[0], Sort(xs[1..]));
      assert xs == [xs[0]] + xs[1..];
    }
  }

  lemma HeadAndTail(xs: seq<Digest>)
    requires xs != []
    ensures multiset(xs) == multiset{xs[0]} + multiset(xs[1..])
  {
    assert xs == [xs[0]] + xs[1..];
  }

  lemma SameLeast(xs: seq<Digest>, ys: seq<Digest>)
    requires Ordered(xs) && Ordered(ys) && multiset(xs) == multiset(ys) && xs != []
    ensures ys != [] && xs[0] == ys[0]
  {
    assert xs[0] in multiset(ys);
    assert ys[0] in multiset(xs);
  }

  lemma SameTails(xs: seq<Digest>, ys: seq<Digest>)
    requires xs != [] && ys != [] && xs[0] == ys[0] && multiset(xs) == multiset(ys)
    ensures multiset(xs[1..]) == multiset(ys[1..])
  {
    HeadAndTail(xs);
    HeadAndTail(ys);
    assert multiset(xs[1..]) == multiset(xs) - multiset{xs[0]};
  }

  /** Two ordered lists with the same elements are the same list. */
  lemma {:induction false} OrderedIsUnique(xs: seq<Digest>, ys: seq<Digest>)
    requires Ordered(xs) && Ordered(ys) && multiset(xs) == multiset(ys)
    ensures xs == ys
  {
    if xs == [] {
      assert |multiset(ys)| == 0;
    } else {
      SameLeast(xs, ys);
      SameTails(xs, ys);
      OrderedIsUnique(xs[1..], ys[1..]);
      assert xs == [xs[0]] + xs[1..] && ys == [ys[0]] + ys[1..];
    }
  }

  // ---------------------------------------------------------------------------------- the root

  /** One level up: pairs are hashed, an odd last node is promoted unchanged. */
  function NextLevel(h: PairHash, level: seq<Digest>): (next: seq<Digest>)
    ensures |next| == (|level| + 1) / 2
  {
    if |level| < 2 then level
    else [HashPair(h, level[0], level[1])] + NextLevel(h, level[2..])
  }

  function RootOf(h: PairHash, level: seq<Digest>): Digest
    requires level != []
    decreases |level|
  {
    if |level| == 1 then level[0] else RootOf(h, NextLevel(h, level))
  }

  /** A pair is hashed in ascending order, whichever way round it stands. */
  lemma PairsAreSorted(h: PairHash, a: Digest, b: Digest)
    ensures HashPair(h, a, b) == HashPair(h, b, a)
    ensures a <= b ==> HashPair(h, a, b) == h(a, b)
  {
  }

  /** The i-th node of the next level is the hash of nodes 2i and 2i + 1, or node 2i when that is the last. */
  lemma {:induction false} NextLevelAt(h: PairHash, level: seq<Digest>, i: nat)
    requires 2 * i < |level|
    ensures NextLevel(h, level)[i]
            == if 2 * i + 1 < |level| then HashPair(h, level[2 * i], level[2 * i + 1]) else level[2 * i]
    decreases i
  {
    if 0 < i {
      NextLevelAt(h, level[2..], i - 1);
    }
  }

  /** The root of a list of leaves; zero for the empty list. */
  function Root(h: PairHash, leaves: seq<Digest>): Digest {
    if leaves == [] then 0
    else
      SortSorts(leaves);
      assert |multiset(Sort(leaves))| == |leaves|;
      RootOf(h, Sort(leaves))
  }

  /**
   * No leaves have the root zero and one leaf is its own root; any others have, once sorted, the root of
   * their next level, which is half as long.
   */
  lemma RootUnfolds(h: PairHash, leaves: seq<Digest>)
    ensures |leaves| == 0 ==> Root(h, leaves) == 0
    ensures |leaves| == 1 ==> Root(h, leaves) == leaves[0]
    ensures 2 <= |leaves| ==> |Sort(leaves)| == |leaves| && Root(h, leaves) == RootOf(h, NextLevel(h, Sort(leaves)))
  {
    SortSorts(leaves);
    assert |multiset(Sort(leaves))| == |multiset(leaves)|;
    if |leaves| == 1 {
      OrderedIsUnique(Sort(leaves), leaves);
    }
  }

  /** A level of one is the root; two are hashed; of three the first two are, and the result with the third. */
  lemma SmallRoots(h: PairHash, a: Digest, b: Digest, c: Digest)
    ensures RootOf(h, [a]) == a && RootOf(h, [a, b]) == HashPair(h, a, b)
    ensures RootOf(h, [a, b, c]) == HashPair(h, HashPair(h, a, b), c)
  {
    RootOfTwo(h, a, b);
    NextLevelAt(h, [a, b, c], 0);
    NextLevelAt(h, [a, b, c], 1);
    assert NextLevel(h, [a, b, c]) == [HashPair(h, a, b), c];
    RootOfTwo(h, HashPair(h, a, b), c);
  }

  lemma RootOfTwo(h: PairHash, a: Digest, b: Digest)
    ensures RootOf(h, [a, b]) == HashPair(h, a, b)
  {
    NextLevelAt(h, [a, b], 0);
    assert NextLevel(h, [a, b]) == [HashPair(h, a, b)];
  }

  method BuildNextLevel(h: PairHash, level: seq<Digest>) returns (next: seq<Digest>)
    ensures next == NextLevel(h, level)
  {
    next := [];
    var i := 0;
    assert level[0..] == level;
    while i < |level|
      invariant 0 <= i
      invariant next + NextLevel(h, From(level, i)) == NextLevel(h, level)
    {
      NextNode(h, level, i);
      var node := if i + 1 < |level| then HashPair(h, level[i], level[i + 1]) else level[i];
      Appended(next, node, NextLevel(h, From(level, i + 2)));
      next := next + [node];
      i := i + 2;
    }
  }

  lemma Appended(next: seq<Digest>, node: Digest, rest: seq<Digest>)
    ensures next + ([node] + rest) == (next + [node]) + rest
  {
  }

  /** What is left of the level from position `i` on. */
  function From(level: seq<Digest>, i: nat): seq<Digest> {
    if i < |level| then level[i..] else []
  }

  lemma NextNode(h: PairHash, level: seq<Digest>, i: nat)
    requires i < |level|
    ensures NextLevel(h, From(level, i))
            == [if i + 1 < |level| then HashPair(h, level[i], level[i + 1]) else level[i]]
               + NextLevel(h, From(level, i + 2))
  {
    if i + 1 < |level| {
      assert level[i..][2..] == From(level, i + 2);
    } else {
      assert level[i..] == [level[i]];
    }
  }

  method MerkleRoot(h: PairHash, leaves: seq<Digest>) returns (root: Digest)
    ensures root == Root(h, leaves)
  {
    if |leaves| == 0 {
      return 0;
    }
    var level := Sort(leaves);
    SortSorts(leaves);
    assert |multiset(Sort(leaves))| == |leaves|;
    while |level| > 1
      invariant level != [] && RootOf(h, level) == Root(h, leaves)
      decreases |level|
    {
      level := BuildNextLevel(h, level);
    }
    return level[0];
  }

  // ------------------------------------------------------------------------- trees behind roots

  datatype Tree = Leaf(digest: Digest) | Node(left: Tree, right: Tree)

  function Digested(h: PairHash, t: Tree): Digest {
    match t
    case Leaf(x) => x
    case Node(l, r) => HashPair(h, Digested(h, l), Digested(h, r))
  }

  function Leaves(t: Tree): multiset<Digest> {
    match t
    case Leaf(x) => multiset{x}
    case Node(l, r) => Leaves(l) + Leaves(r)
  }

  function DigestedAll(h: PairHash, ts: seq<Tree>): (ds: seq<Digest>)
    ensures |ds| == |ts|
  {
    if ts == [] then [] else [Digested(h, ts[0])] + DigestedAll(h, ts[1..])
  }

  function LeavesOfAll(ts: seq<Tree>): multiset<Digest> {
    if ts == [] then multiset{} else Leaves(ts[0]) + LeavesOfAll(ts[1..])
  }

  function LeafTrees(xs: seq<Digest>): (ts: seq<Tree>)
    ensures |ts| == |xs|
  {
    if xs == [] then [] else [Leaf(xs[0])] + LeafTrees(xs[1..])
  }

  lemma {:induction false} LeafTreesHold(h: PairHash, xs: seq<Digest>)
    ensures DigestedAll(h, LeafTrees(xs)) == xs && LeavesOfAll(LeafTrees(xs)) == multiset(xs)
  {
    if xs != [] {
      LeafTreesHold(h, xs[1..]);
      assert LeafTrees(xs)[1..] == LeafTrees(xs[1..]);
      HeadAndTail(xs);
    }
  }

  function PairTrees(ts: seq<Tree>): (next: seq<Tree>)
    ensures |next| == (|ts| + 1) / 2
  {
    if |ts| < 2 then ts else [Node(ts[0], ts[1])] + PairTrees(ts[2..])
  }

  lemma {:induction false} PairTreesHold(h: PairHash, ts: seq<Tree>)
    ensures DigestedAll(h, PairTrees(ts)) == NextLevel(h, DigestedAll(h, ts))
  {
    if |ts| >= 2 {
      PairTreesHold(h, ts[2..]);
      assert PairTrees(ts)[1..] == PairTrees(ts[2..]);
      assert ts[1..][1..] == ts[2..];
      assert DigestedAll(h, ts)[2..] == DigestedAll(h, ts[2..]);
    }
  }

  lemma {:induction false} PairTreesKeepLeaves(ts: seq<Tree>)
    ensures LeavesOfAll(PairTrees(ts)) == LeavesOfAll(ts)
  {
    if |ts| >= 2 {
      PairTreesKeepLeaves(ts[2..]);
      assert PairTrees(ts)[1..] == PairTrees(ts[2..]);
      assert ts[1..][1..] == ts[2..];
    }
  }

  function RootTree(ts: seq<Tree>): Tree
    requires ts != []
    decreases |ts|
  {
    if |ts| == 1 then ts[0] else RootTree(PairTrees(ts))
  }

  lemma {:induction false} RootTreeHolds(h: PairHash, ts: seq<Tree>)
    requires ts != []
    ensures Digested(h, RootTree(ts)) == RootOf(h, DigestedAll(h, ts))
    ensures Leaves(RootTree(ts)) == LeavesOfAll(ts)
    decreases |ts|
  {
    if |ts| == 1 {
      assert ts == [ts[0]] + ts[1..] && ts[1..] == [];
    } else {
      PairTreesHold(h, ts);
      PairTreesKeepLeaves(ts);
      RootTreeHolds(h, PairTrees(ts));
    }
  }

  /** The tree the algorithm builds over a list of leaves. */
  function TreeOf(leaves: seq<Digest>): Tree
    requires leaves != []
  {
    SortSorts(leaves);
    assert |multiset(Sort(leaves))| == |leaves|;
    RootTree(LeafTrees(Sort(leaves)))
  }

  lemma TreeOfHolds(h: PairHash, leaves: seq<Digest>)
    requires leaves != []
    ensures Digested(h, TreeOf(leaves)) == Root(h, leaves)
    ensures Leaves(TreeOf(leaves)) == multiset(leaves)
  {
    SortSorts(leaves);
    assert |multiset(Sort(leaves))| == |leaves|;
    LeafTreesHold(h, Sort(leaves));
    RootTreeHolds(h, LeafTrees(Sort(leaves)));
  }

  ghost predicate LeavesAreNotHashes(h: PairHash, t: Tree) {
    forall x :: x in Leaves(t) ==> NotAHash(h, x)
  }

  /** Whatever their shapes, two trees with one digest hold the same leaves. */
  lemma {:induction false} DigestDeterminesLeaves(h: PairHash, s: Tree, t: Tree)
    requires CollisionFree(h) && LeavesAreNotHashes(h, s) && LeavesAreNotHashes(h, t)
    requires Digested(h, s) == Digested(h, t)
    ensures Leaves(s) == Leaves(t)
    decreases s, t, 1
  {
    assert s.Leaf? ==> s.digest in Leaves(s);
    assert t.Leaf? ==> t.digest in Leaves(t);
    if s.Leaf? || t.Leaf? {
      assert s.Leaf? && t.Leaf?;
    } else {
      PairsAlike(h, Digested(h, s.left), Digested(h, s.right), Digested(h, t.left), Digested(h, t.right));
      SubtreesAlike(h, s, t);
    }
  }

  lemma SubtreesAlike(h: PairHash, s: Tree, t: Tree)
    requires s.Node? && t.Node?
    requires CollisionFree(h) && LeavesAreNotHashes(h, s) && LeavesAreNotHashes(h, t)
    requires (Digested(h, s.left) == Digested(h, t.left) && Digested(h, s.right) == Digested(h, t.right))
             || (Digested(h, s.left) == Digested(h, t.right) && Digested(h, s.right) == Digested(h, t.left))
    ensures Leaves(s) == Leaves(t)
    decreases s, t, 0
  {
    if Digested(h, s.left) == Digested(h, t.left) && Digested(h, s.right) == Digested(h, t.right) {
      DigestDeterminesLeaves(h, s.left, t.left);
      DigestDeterminesLeaves(h, s.right, t.right);
    } else {
      DigestDeterminesLeaves(h, s.left, t.right);
      DigestDeterminesLeaves(h, s.right, t.left);
    }
  }

  lemma PairsAlike(h: PairHash, a: Digest, b: Digest, c: Digest, d: Digest)
    requires CollisionFree(h) && HashPair(h, a, b) == HashPair(h, c, d)
    ensures (a == c && b == d) || (a == d && b == c)
  {
  }

  /** Two non-empty leaf lists have one root exactly when they are rearrangements of each other. */
  lemma RootDeterminesLeaves(h: PairHash, xs: seq<Digest>, ys: seq<Digest>)
    requires CollisionFree(h) && xs != [] && ys != [] && AllLeaves(h, xs) && AllLeaves(h, ys)
    ensures Root(h, xs) == Root(h, ys) <==> multiset(xs) == multiset(ys)
  {
    TreeOfHolds(h, xs);
    TreeOfHolds(h, ys);
    if multiset(xs) == multiset(ys) {
      SortSorts(xs);
      SortSorts(ys);
      OrderedIsUnique(Sort(xs), Sort(ys));
    }
    if Root(h, xs) == Root(h, ys) {
      assert forall x :: x in multiset(xs) ==> x in xs;
      assert forall y :: y in multiset(ys) ==> y in ys;
      DigestDeterminesLeaves(h, TreeOf(xs), TreeOf(ys));
    }
  }

  /** The root is not one of the set of leaves: committing a leaf once more changes it. */
  lemma RepeatedLeafChangesRoot(h: PairHash, xs: seq<Digest>, x: Digest)
    requires CollisionFree(h) && AllLeaves(h, xs) && x in xs
    ensures Root(h, xs + [x]) != Root(h, xs)
  {
    assert AllLeaves(h, xs + [x]);
    RootDeterminesLeaves(h, xs + [x], xs);
    assert multiset(xs + [x])[x] == multiset(xs)[x] + 1;
  }

  // ---------------------------------------------------------------------------- sibling paths

  /** Folding a leaf with the siblings on its way up. */
  function Fold(h: PairHash, x: Digest, path: seq<Digest>): Digest {
    if path == [] then x
    else HashPair(h, Fold(h, x, path[..|path| - 1]), path[|path| - 1])
  }

  lemma FoldOnce(h: PairHash, x: Digest, path: seq<Digest>, sibling: Digest)
    ensures Fold(h, x, path + [sibling]) == HashPair(h, Fold(h, x, path), sibling)
  {
    assert (path + [sibling])[..|path|] == path;
  }

  lemma {:induction false} PathTo(h: PairHash, t: Tree, x: Digest) returns (path: seq<Digest>)
    requires x in Leaves(t)
    ensures Fold(h, x, path) == Digested(h, t)
  {
    match t {
      case Leaf(y) =>
        path := [];
      case Node(l, r) =>
        var (taken, other) := if x in Leaves(l) then (l, r) else (r, l);
        var p := PathTo(h, taken, x);
        path := p + [Digested(h, other)];
        FoldOnce(h, x, p, Digested(h, other));
    }
  }

  lemma {:induction false} PathsStartAtLeaves(h: PairHash, t: Tree, x: Digest, path: seq<Digest>)
    requires CollisionFree(h) && LeavesAreNotHashes(h, t) && NotAHash(h, x)
    requires Fold(h, x, path) == Digested(h, t)
    ensures x in Leaves(t)
  {
    match t {
      case Leaf(y) =>
        assert y in Leaves(t);
        assert path == [];
      case Node(l, r) =>
        assert path != [];
        var n := |path| - 1;
        if Fold(h, x, path[..n]) == Digested(h, l) {
          PathsStartAtLeaves(h, l, x, path[..n]);
        } else {
          PathsStartAtLeaves(h, r, x, path[..n]);
        }
    }
  }

  /** A value that is not a pair hash has a path to the root exactly when it is one of the leaves. */
  lemma PathsProveMembership(h: PairHash, leaves: seq<Digest>, x: Digest)
    requires CollisionFree(h) && leaves != [] && AllLeaves(h, leaves) && NotAHash(h, x)
    ensures x in leaves <==> exists path :: Fold(h, x, path) == Root(h, leaves)
  {
    TreeOfHolds(h, leaves);
    assert x in leaves <==> x in multiset(leaves);
    assert forall y :: y in multiset(leaves) ==> y in leaves;
    if x in leaves {
      var path := PathTo(h, TreeOf(leaves), x);
    }
    if exists path :: Fold(h, x, path) == Root(h, leaves) {
      var path :| Fold(h, x, path) == Root(h, leaves);
      PathsStartAtLeaves(h, TreeOf(leaves), x, path);
    }
  }
}
