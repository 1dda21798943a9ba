/** `merkle.rs`: the Merkle root of a batch, built level by level with the odd
    element promoted. */
module Merkle {
  import opened Bytes
  import opened Canonical
  import opened Hashing

  function LeafInput(h: Hash): Input {
    Input(MERKLE_LEAF, h)
  }

  function NodeInput(l: Hash, r: Hash): Input {
    Input(MERKLE_NODE, l + r)
  }

  function LeafHash(digest: Digest, h: Hash): Hash {
    Apply(digest, LeafInput(h))
  }

  function NodeHash(digest: Digest, l: Hash, r: Hash): Hash {
    Apply(digest, NodeInput(l, r))
  }

  // ------------------------------------------------- the reference tree

  /** The largest power of two below n. */
  function Split(n: nat): (k: nat)
    requires n >= 2
    ensures 0 < k < n
  {
    if n == 2 then 1 else 2 * Split((n + 1) / 2)
  }

  ghost predicate IsPowerOfTwo(k: nat) {
    k == 1 || (k > 0 && k % 2 == 0 && IsPowerOfTwo(k / 2))
  }

  /** Split really is the largest power of two strictly below n. */
  lemma {:induction false} SplitIsLargestPower(n: nat)
    requires n >= 2
    ensures IsPowerOfTwo(Split(n)) && Split(n) < n <= 2 * Split(n)
  {
    if n > 2 {
      SplitIsLargestPower((n + 1) / 2);
      assert Split(n) / 2 == Split((n + 1) / 2);
    }
  }

  /** The tree of section 2.1 of RFC 6962 over already hashed leaves: split at the largest power of two. */
  function Tree(digest: Digest, hs: seq<Hash>): Hash
    requires |hs| > 0
    decreases |hs|
  {
    if |hs| == 1 then hs[0]
    else
      var k := Split(|hs|);
      NodeHash(digest, Tree(digest, hs[..k]), Tree(digest, hs[k..]))
  }

  function Leaves(digest: Digest, hs: seq<Hash>): (ls: seq<Hash>)
    ensures |ls| == |hs|
    ensures forall i :: 0 <= i < |hs| ==> ls[i] == LeafHash(digest, hs[i])
  {
    seq(|hs|, i requires 0 <= i < |hs| => LeafHash(digest, hs[i]))
  }

  /** The root of a batch of record hashes. */
  function Root(digest: Digest, hs: seq<Hash>): Option<Hash> {
    if hs == [] then None else Some(Tree(digest, Leaves(digest, hs)))
  }

  // ------------------------------------------------- the level loop

  /** One pass of the loop: pairs are hashed, a last odd element is promoted. */
  function Level(digest: Digest, hs: seq<Hash>): (next: seq<Hash>)
    ensures |next| == (|hs| + 1) / 2
  {
    if |hs| <= 1 then hs
    else [NodeHash(digest, hs[0], hs[1])] + Level(digest, hs[2..])
  }

  lemma {:induction false} LevelSplits(digest: Digest, a: seq<Hash>, b: seq<Hash>)
    requires |a| % 2 == 0
    ensures Level(digest, a + b) == Level(digest, a) + Level(digest, b)
  {
    if a == [] {
      assert a + b == b;
    } else {
      LevelSplits(digest, a[2..], b);
      assert (a + b)[2..] == a[2..] + b;
    }
  }

  /** One pass leaves the tree's root unchanged. */
  lemma {:induction false} LevelKeepsTree(digest: Digest, hs: seq<Hash>)
    requires |hs| > 0
    ensures Tree(digest, Level(digest, hs)) == Tree(digest, hs)
    decreases |hs|
  {
    if |hs| == 2 {
      PairKeepsTree(digest, hs);
    } else if |hs| > 2 {
      var k := Split(|hs|);
      HalfSplit(|hs|, k, |Level(digest, hs[..k])|, |Level(digest, hs[k..])|);
      LevelKeepsTree(digest, hs[..k]);
      LevelKeepsTree(digest, hs[k..]);
      CutJoins(hs, k);
      LevelOfHalves(digest, hs, hs[..k], hs[k..]);
      HalvesKeepTree(digest, hs, k, Level(digest, hs[..k]), Level(digest, hs[k..]));
    }
  }

  lemma PairKeepsTree(digest: Digest, hs: seq<Hash>)
    requires |hs| == 2
    ensures Tree(digest, Level(digest, hs)) == Tree(digest, hs)
  {
    assert hs[2..] == [] && hs[..1] == [hs[0]] && hs[1..] == [hs[1]];
  }

  /** Halves that keep the trees of a batch's two halves keep the tree of the whole. */
  lemma HalvesKeepTree(digest: Digest, hs: seq<Hash>, k: nat, l: seq<Hash>, r: seq<Hash>)
    requires |hs| > 2 && k == Split(|hs|) && |l| > 0 && |r| > 0 && Split(|l| + |r|) == |l|
    requires Tree(digest, l) == Tree(digest, hs[..k]) && Tree(digest, r) == Tree(digest, hs[k..])
    ensures Tree(digest, l + r) == Tree(digest, hs)
  {
    TreeOfHalves(digest, l, r);
    TreeUnfolds(digest, hs, k);
  }

  lemma CutJoins<T>(s: seq<T>, k: nat)
    requires k <= |s|
    ensures s == s[..k] + s[k..]
  {
  }

  lemma LevelOfHalves(digest: Digest, hs: seq<Hash>, l: seq<Hash>, r: seq<Hash>)
    requires hs == l + r && |l| % 2 == 0
    ensures Level(digest, hs) == Level(digest, l) + Level(digest, r)
  {
    LevelSplits(digest, l, r);
  }

  /** The split point of a level is half that of the level below. */
  lemma HalfSplit(n: nat, k: nat, a: nat, b: nat)
    requires n > 2 && k == Split(n) && a == (k + 1) / 2 && b == (n - k + 1) / 2
    ensures k % 2 == 0 && a > 0 && b > 0 && Split(a + b) == a
  {
    var half := Split((n + 1) / 2);
    assert k == 2 * half;
    assert a == half && a + b == (n + 1) / 2;
  }

  lemma TreeUnfolds(digest: Digest, hs: seq<Hash>, k: nat)
    requires |hs| > 1 && k == Split(|hs|)
    ensures Tree(digest, hs) == NodeHash(digest, Tree(digest, hs[..k]), Tree(digest, hs[k..]))
  {
  }

  /** Two halves split where the tree splits are its two subtrees. */
  lemma TreeOfHalves(digest: Digest, l: seq<Hash>, r: seq<Hash>)
    requires |l| > 0 && |r| > 0 && Split(|l| + |r|) == |l|
    ensures Tree(digest, l + r) == NodeHash(digest, Tree(digest, l), Tree(digest, r))
  {
    var hs := l + r;
    assert |hs| == |l| + |r|;
    assert hs[..|l|] == l && hs[|l|..] == r;
    TreeUnfolds(digest, hs, |l|);
  }

  method HashNode(digest: Digest, l: Hash, r: Hash) returns (h: Hash)
    ensures h == NodeHash(digest, l, r)
  {
    var e := new Encoder();
    e.Digest(l);
    e.Digest(r);
    assert [] + l + r == l + r;
    h := digest(MERKLE_NODE, e.buf);
  }

  method HashLeaf(digest: Digest, recordHash: Hash) returns (h: Hash)
    ensures h == LeafHash(digest, recordHash)
  {
    var e := new Encoder();
    e.Digest(recordHash);
    assert [] + recordHash == recordHash;
    h := digest(MERKLE_LEAF, e.buf);
  }

  /** The inner loop: one level from the one below. */
  method NextLevel(digest: Digest, level: seq<Hash>) returns (next: seq<Hash>)
    ensures next == Level(digest, level)
  {
    next := [];
    var i := 0;
    while i + 1 < |level|
      invariant 0 <= i <= |level|
      invariant next + Level(digest, level[i..]) == Level(digest, level)
      decreases |level| - i
    {
      assert level[i..][2..] == level[i + 2..];
      var h := HashNode(digest, level[i], level[i + 1]);
      Assoc(next, [h], Level(digest, level[i + 2..]));
      next := next + [h];
      i := i + 2;
    }
    if i < |level| {
      // Odd count: promotion, not duplication.
      next := next + [level[i]];
      assert level[i..] == [level[i]];
    } else {
      assert next + [] == next;
    }
  }

  /** `merkle_root`. */
  method MerkleRoot(digest: Digest, leaves: seq<Hash>) returns (root: Option<Hash>)
    ensures root == Root(digest, leaves)
  {
    if leaves == [] {
      return None;
    }
    var level: seq<Hash> := [];
    for i := 0 to |leaves|
      invariant level == Leaves(digest, leaves)[..i]
    {
      var h := HashLeaf(digest, leaves[i]);
      level := level + [h];
    }
    assert level == Leaves(digest, leaves);
    while |level| > 1
      invariant |level| > 0
      invariant Tree(digest, level) == Tree(digest, Leaves(digest, leaves))
      decreases |level|
    {
      LevelKeepsTree(digest, level);
      level := NextLevel(digest, level);
    }
    return Some(level[0]);
  }

  // ------------------------------------------------- different batches, different roots

  /** Everything hashed to build the tree over already hashed leaves. */
  function TreeInputs(digest: Digest, hs: seq<Hash>): set<Input>
    requires |hs| > 0
    decreases |hs|
  {
    if |hs| == 1 then {}
    else
      var k := Split(|hs|);
      {NodeInput(Tree(digest, hs[..k]), Tree(digest, hs[k..]))}
      + TreeInputs(digest, hs[..k]) + TreeInputs(digest, hs[k..])
  }

  /** Everything hashed to compute the root of a batch. */
  function RootInputs(digest: Digest, hs: seq<Hash>): set<Input> {
    if hs == [] then {}
    else LeafInputs(hs) + TreeInputs(digest, Leaves(digest, hs))
  }

  function LeafInputs(hs: seq<Hash>): set<Input> {
    set h | h in hs :: LeafInput(h)
  }

  /** A batch's subtrees hash part of what the batch hashes. */
  lemma LeavesSlice(digest: Digest, hs: seq<Hash>, k: nat)
    requires k <= |hs|
    ensures Leaves(digest, hs)[..k] == Leaves(digest, hs[..k])
    ensures Leaves(digest, hs)[k..] == Leaves(digest, hs[k..])
    ensures LeafInputs(hs[..k]) <= LeafInputs(hs) && LeafInputs(hs[k..]) <= LeafInputs(hs)
  {
    assert forall h :: h in hs[..k] ==> h in hs;
    assert forall h :: h in hs[k..] ==> h in hs;
  }

  /** The input of the topmost node. */
  function TopNode(digest: Digest, hs: seq<Hash>): (i: Input)
    requires |hs| > 1
    ensures i in RootInputs(digest, hs)
    ensures Tree(digest, Leaves(digest, hs)) == Apply(digest, i)
    ensures i.domain == MERKLE_NODE
  {
    var ls := Leaves(digest, hs);
    var k := Split(|hs|);
    NodeInput(Tree(digest, ls[..k]), Tree(digest, ls[k..]))
  }

  lemma TopNodeBody(digest: Digest, hs: seq<Hash>)
    requires |hs| > 1
    ensures var k := Split(|hs|);
      TopNode(digest, hs).body == Tree(digest, Leaves(digest, hs[..k])) + Tree(digest, Leaves(digest, hs[k..]))
  {
    LeavesSlice(digest, hs, Split(|hs|));
  }

  lemma SplitInputs(digest: Digest, hs: seq<Hash>)
    requires |hs| > 1
    ensures RootInputs(digest, hs[..Split(|hs|)]) <= RootInputs(digest, hs)
    ensures RootInputs(digest, hs[Split(|hs|)..]) <= RootInputs(digest, hs)
  {
    LeavesSlice(digest, hs, Split(|hs|));
  }

  /** A leaf is never an internal node: the domain bytes differ. */
  lemma NodeNotLeaf(digest: Digest, hs: seq<Hash>, h: Hash, inputs: set<Input>)
    requires |hs| > 1 && RootInputs(digest, hs) <= inputs && LeafInput(h) in inputs && CollisionFree(digest, inputs)
    ensures Tree(digest, Leaves(digest, hs)) != LeafHash(digest, h)
  {
    assert TopNode(digest, hs) != LeafInput(h);
  }

  /** Equal top nodes have equal subtrees on both sides. */
  lemma TopNodesEqual(digest: Digest, a: seq<Hash>, b: seq<Hash>)
    requires |a| > 1 && |b| > 1 && TopNode(digest, a) == TopNode(digest, b)
    ensures Tree(digest, Leaves(digest, a[..Split(|a|)])) == Tree(digest, Leaves(digest, b[..Split(|b|)]))
    ensures Tree(digest, Leaves(digest, a[Split(|a|)..])) == Tree(digest, Leaves(digest, b[Split(|b|)..]))
  {
    TopNodeBody(digest, a);
    TopNodeBody(digest, b);
    SplitEqual(Tree(digest, Leaves(digest, a[..Split(|a|)])), Tree(digest, Leaves(digest, b[..Split(|b|)])),
               Tree(digest, Leaves(digest, a[Split(|a|)..])), Tree(digest, Leaves(digest, b[Split(|b|)..])));
  }

  lemma HalvesEqual(digest: Digest, a: seq<Hash>, b: seq<Hash>, inputs: set<Input>)
    requires |a| > 1 && |b| > 1
    requires RootInputs(digest, a) <= inputs && RootInputs(digest, b) <= inputs && CollisionFree(digest, inputs)
    requires Tree(digest, Leaves(digest, a)) == Tree(digest, Leaves(digest, b))
    ensures Tree(digest, Leaves(digest, a[..Split(|a|)])) == Tree(digest, Leaves(digest, b[..Split(|b|)]))
    ensures Tree(digest, Leaves(digest, a[Split(|a|)..])) == Tree(digest, Leaves(digest, b[Split(|b|)..]))
  {
    assert TopNode(digest, a) == TopNode(digest, b);
    TopNodesEqual(digest, a, b);
  }

  lemma HalvesHashed(digest: Digest, hs: seq<Hash>, inputs: set<Input>)
    requires |hs| > 1 && RootInputs(digest, hs) <= inputs
    ensures RootInputs(digest, hs[..Split(|hs|)]) <= inputs && RootInputs(digest, hs[Split(|hs|)..]) <= inputs
  {
    SplitInputs(digest, hs);
  }

  /** Equal roots over hashed leaves come from equal batches, whatever their lengths. */
  lemma {:induction false} TreeInjective(digest: Digest, a: seq<Hash>, b: seq<Hash>, inputs: set<Input>)
    requires |a| > 0 && |b| > 0
    requires RootInputs(digest, a) <= inputs && RootInputs(digest, b) <= inputs && CollisionFree(digest, inputs)
    requires Tree(digest, Leaves(digest, a)) == Tree(digest, Leaves(digest, b))
    ensures a == b
    decreases |a|, 1
  {
    assert a[0] in a && b[0] in b;
    assert LeafInput(a[0]) in RootInputs(digest, a) && LeafInput(b[0]) in RootInputs(digest, b);
    if |a| == 1 && |b| == 1 {
      assert LeafInput(a[0]) == LeafInput(b[0]);
    } else if |a| == 1 {
      NodeNotLeaf(digest, b, a[0], inputs);
    } else if |b| == 1 {
      NodeNotLeaf(digest, a, b[0], inputs);
    } else {
      SplitsInjective(digest, a, b, inputs);
    }
  }

  lemma {:induction false} SplitsInjective(digest: Digest, a: seq<Hash>, b: seq<Hash>, inputs: set<Input>)
    requires |a| > 1 && |b| > 1
    requires RootInputs(digest, a) <= inputs && RootInputs(digest, b) <= inputs && CollisionFree(digest, inputs)
    requires Tree(digest, Leaves(digest, a)) == Tree(digest, Leaves(digest, b))
    ensures a == b
    decreases |a|, 0
  {
    var j, k := Split(|a|), Split(|b|);
    HalvesEqual(digest, a, b, inputs);
    HalvesHashed(digest, a, inputs);
    HalvesHashed(digest, b, inputs);
    TreeInjective(digest, a[..j], b[..k], inputs);
    TreeInjective(digest, a[j..], b[k..], inputs);
    SameHalves(a, b, j, k);
  }

  lemma SameHalves<T>(a: seq<T>, b: seq<T>, j: nat, k: nat)
    requires j <= |a| && k <= |b| && a[..j] == b[..k] && a[j..] == b[k..]
    ensures a == b
  {
    assert a == a[..j] + a[j..] && b == b[..k] + b[k..];
  }

  /** Two batches with the same root are the same batch, unless two of the inputs hashed for them collide. */
  lemma RootInjective(digest: Digest, a: seq<Hash>, b: seq<Hash>)
    requires CollisionFree(digest, RootInputs(digest, a) + RootInputs(digest, b))
    requires Root(digest, a) == Root(digest, b)
    ensures a == b
  {
    if a != [] {
      TreeInjective(digest, a, b, RootInputs(digest, a) + RootInputs(digest, b));
    }
  }
}
