/**
 The domain-separated chunk tree of tunnel/pubcache/merkle.go, over an arbitrary hash
 function, and its construction with a stack of perfect subtrees.
 */
module ChunkTree {
  import opened Basics
  import opened TreeHash

  /** "DMTAP-PUB-v0/manifest", then a zero byte. */
  const DS_MANIFEST: Bytes := [
    0x44, 0x4d, 0x54, 0x41, 0x50, 0x2d, 0x50, 0x55, 0x42, 0x2d, 0x76, 0x30,
    0x2f, 0x6d, 0x61, 0x6e, 0x69, 0x66, 0x65, 0x73, 0x74, 0x00]

  // ------------------------------------------------------------------- hashing

  function LeafPreimage(a: Address): Bytes {
    DS_MANIFEST + [0x00] + a
  }

  function NodePreimage(l: Digest, r: Digest): Bytes {
    DS_MANIFEST + [0x01] + l + r
  }

  function MerkleLeaf(h: Hash, a: Address): Digest {
    h(LeafPreimage(a))
  }

  /** The node function as a value, for the generic tree. */
  function NodeOf(h: Hash): (Digest, Digest) -> Digest {
    (l: Digest, r: Digest) => h(NodePreimage(l, r))
  }

  function Leaves(h: Hash, chunks: seq<Address>): (s: seq<Digest>)
    ensures |s| == |chunks|
    ensures forall i :: 0 <= i < |s| ==> s[i] == MerkleLeaf(h, chunks[i])
  {
    seq(|chunks|, i requires 0 <= i < |chunks| => MerkleLeaf(h, chunks[i]))
  }

  function AddressOf(d: Digest): Address {
    [HASH_PREFIX] + d
  }

  function HashBytes(h: Hash, b: Bytes): Address {
    AddressOf(h(b))
  }

  /** The tree hash of a chunk list by the split rule of RFC 6962. */
  function TreeRoot(h: Hash, chunks: seq<Address>): Digest
    requires |chunks| > 0
  {
    Mth(NodeOf(h), Leaves(h, chunks))
  }

  lemma LeavesSlice(h: Hash, chunks: seq<Address>, k: nat)
    requires k <= |chunks|
    ensures Leaves(h, chunks[..k]) == Leaves(h, chunks)[..k]
    ensures Leaves(h, chunks[k..]) == Leaves(h, chunks)[k..]
  {
  }

  lemma TreeRootSplit(h: Hash, chunks: seq<Address>, k: nat)
    requires |chunks| >= 2 && k == SplitPoint(|chunks|)
    ensures TreeRoot(h, chunks) == NodeOf(h)(TreeRoot(h, chunks[..k]), TreeRoot(h, chunks[k..]))
  {
    LeavesSlice(h, chunks, k);
  }

  // ------------------------------------------------ merkle.go: the stack method

  datatype Frame = Frame(root: Digest, count: nat)

  /** Frames cover s left to right in strictly shrinking perfect subtrees. */
  ghost predicate Covers(node: (Digest, Digest) -> Digest, stack: seq<Frame>, s: seq<Digest>)
    decreases |stack|, 0
  {
    if |stack| == 0 then s == []
    else
      var n, top := |stack| - 1, stack[|stack| - 1];
      && (n > 0 ==> stack[n - 1].count > top.count)
      && IsPow2(top.count)
      && Ends(node, stack[..n], top, s)
  }

  /** f is the tree hash of the end of s, and the stack covers what comes before. */
  ghost predicate Ends(node: (Digest, Digest) -> Digest, stack: seq<Frame>, f: Frame, s: seq<Digest>)
    decreases |stack|, 1
  {
    && 0 < f.count <= |s|
    && f.root == Mth(node, s[|s| - f.count..])
    && (|stack| > 0 ==> f.count <= stack[|stack| - 1].count)
    && Covers(node, stack, s[..|s| - f.count])
  }

  lemma PushLeaf(node: (Digest, Digest) -> Digest, stack: seq<Frame>, s: seq<Digest>, i: nat)
    requires i < |s| && Covers(node, stack, s[..i])
    ensures Ends(node, stack, Frame(s[i], 1), s[..i + 1]) && IsPow2(1)
  {
    assert 1 == Pow2(0);
    assert s[..i + 1][i..] == [s[i]];
    assert s[..i + 1][..i] == s[..i];
  }

  /** Combining the last two frames keeps the cover. */
  lemma CombineTop(node: (Digest, Digest) -> Digest, stack: seq<Frame>, f: Frame, s: seq<Digest>)
    requires |stack| > 0 && Ends(node, stack, f, s)
    ensures var n, top := |stack| - 1, stack[|stack| - 1];
            Ends(node, stack[..n], Frame(node(top.root, f.root), top.count + f.count), s)
  {
    hide Mth, IsPow2;
    var n, top := |stack| - 1, stack[|stack| - 1];
    var rest := |s| - f.count;
    assert Ends(node, stack[..n], top, s[..rest]);
    var left, right := s[..rest][rest - top.count..], s[rest..];
    assert s[rest - top.count..] == left + right;
    assert s[..rest][..rest - top.count] == s[..rest - top.count];
    MthMerge(node, left, right);
    if n > 0 {
      assert stack[..n][n - 1] == stack[n - 1];
      DistinctPowers(top.count, stack[n - 1].count);
    }
  }

  lemma DoubleIsPow2(c: nat)
    requires IsPow2(c)
    ensures IsPow2(c + c)
  {
    var e: nat :| c == Pow2(e);
    assert c + c == Pow2(e + 1);
  }

  lemma Settle(node: (Digest, Digest) -> Digest, stack: seq<Frame>, f: Frame, s: seq<Digest>)
    requires Ends(node, stack, f, s) && IsPow2(f.count)
    requires |stack| > 0 ==> stack[|stack| - 1].count != f.count
    ensures Covers(node, stack + [f], s)
  {
    assert (stack + [f])[..|stack|] == stack;
  }

  lemma EndsAll(node: (Digest, Digest) -> Digest, f: Frame, s: seq<Digest>)
    requires Ends(node, [], f, s)
    ensures f.root == Mth(node, s)
  {
    assert s[0..] == s;
  }

  method MerkleRoot(h: Hash, hashes: seq<Address>) returns (root: Digest)
    requires |hashes| > 0
    ensures root == TreeRoot(h, hashes)
  {
    hide Mth, IsPow2, Covers, Ends;
    var n := |hashes|;
    ghost var node, leaves := NodeOf(h), Leaves(h, hashes);
    if n == 1 {
      MthSingle(node, leaves);
      return MerkleLeaf(h, hashes[0]);
    }
    var stack: seq<Frame> := [];
    CoversNothing(node);
    var i := 0;
    while i < n
      invariant 0 <= i <= n
      invariant i > 0 ==> |stack| > 0
      invariant Covers(node, stack, leaves[..i])
    {
      var f := Frame(MerkleLeaf(h, hashes[i]), 1);
      PushLeaf(node, stack, leaves, i);
      while |stack| > 0 && stack[|stack| - 1].count == f.count
        invariant Ends(node, stack, f, leaves[..i + 1]) && IsPow2(f.count)
        decreases |stack|
      {
        var top := stack[|stack| - 1];
        CombineTop(node, stack, f, leaves[..i + 1]);
        DoubleIsPow2(f.count);
        stack := stack[..|stack| - 1];
        f := Frame(NodeOf(h)(top.root, f.root), top.count + f.count);
      }
      Settle(node, stack, f, leaves[..i + 1]);
      stack := stack + [f];
      i := i + 1;
    }
    assert leaves[..n] == leaves;
    var acc := stack[|stack| - 1];
    CoversTop(node, stack, leaves);
    i := |stack| - 2;
    while i >= 0
      invariant -1 <= i <= |stack| - 2
      invariant Ends(node, stack[..i + 1], acc, leaves)
    {
      CombineTop(node, stack[..i + 1], acc, leaves);
      assert stack[..i + 1][..i] == stack[..i];
      acc := Frame(NodeOf(h)(stack[i].root, acc.root), stack[i].count + acc.count);
      i := i - 1;
    }
    EndsAll(node, acc, leaves);
    return acc.root;
  }

  lemma MthSingle(node: (Digest, Digest) -> Digest, s: seq<Digest>)
    requires |s| == 1
    ensures Mth(node, s) == s[0]
  {
  }

  lemma CoversNothing(node: (Digest, Digest) -> Digest)
    ensures Covers(node, [], [])
  {
  }

  lemma CoversTop(node: (Digest, Digest) -> Digest, stack: seq<Frame>, s: seq<Digest>)
    requires |stack| > 0 && Covers(node, stack, s)
    ensures Ends(node, stack[..|stack| - 1], stack[|stack| - 1], s)
  {
  }

  /** The addresses of one, two and three chunks, byte for byte. */
  lemma SmallRoots(h: Hash, chunks: seq<Address>)
    requires |chunks| > 0
    ensures var tag: Bytes := [0x44, 0x4d, 0x54, 0x41, 0x50, 0x2d, 0x50, 0x55, 0x42, 0x2d, 0x76,
                               0x30, 0x2f, 0x6d, 0x61, 0x6e, 0x69, 0x66, 0x65, 0x73, 0x74, 0x00];
            && (|chunks| == 1 ==> AddressOf(TreeRoot(h, chunks)) == [0x1e] + h(tag + [0x00] + chunks[0]))
            && (|chunks| == 2 ==>
                  AddressOf(TreeRoot(h, chunks))
                  == [0x1e] + h(tag + [0x01] + h(tag + [0x00] + chunks[0]) + h(tag + [0x00] + chunks[1])))
            && (|chunks| == 3 ==>
                  AddressOf(TreeRoot(h, chunks))
                  == [0x1e] + h(tag + [0x01]
                                + h(tag + [0x01] + h(tag + [0x00] + chunks[0]) + h(tag + [0x00] + chunks[1]))
                                + h(tag + [0x00] + chunks[2])))
  {
    var leaves := Leaves(h, chunks);
    var tag: Bytes := [0x44, 0x4d, 0x54, 0x41, 0x50, 0x2d, 0x50, 0x55, 0x42, 0x2d, 0x76,
                       0x30, 0x2f, 0x6d, 0x61, 0x6e, 0x69, 0x66, 0x65, 0x73, 0x74, 0x00];
    assert DS_MANIFEST == tag;
    assert forall a: Address :: LeafPreimage(a) == tag + [0x00] + a;
    assert forall l: Digest, r: Digest :: NodePreimage(l, r) == tag + [0x01] + l + r;
    hide LeafPreimage, NodePreimage;
    assert 1 == Pow2(0) && 2 == Pow2(1);
    SplitPointUnique(2, 1);
    SplitPointUnique(3, 2);
    if |chunks| == 2 {
      PairRoot(NodeOf(h), leaves);
    } else if |chunks| == 3 {
      PairRoot(NodeOf(h), leaves[..2]);
      assert leaves[2..] == [leaves[2]];
      assert Mth(NodeOf(h), leaves) == NodeOf(h)(Mth(NodeOf(h), leaves[..2]), Mth(NodeOf(h), leaves[2..]));
    }
  }

  lemma PairRoot(node: (Digest, Digest) -> Digest, s: seq<Digest>)
    requires |s| == 2
    ensures Mth(node, s) == node(s[0], s[1])
  {
    assert 1 == Pow2(0);
    SplitPointUnique(2, 1);
    assert s[..1] == [s[0]] && s[1..] == [s[1]];
  }

  /** The address of a blob's chunks; of two, it hashes the first leaf's digest and then the second's. */
  method ManifestRoot(h: Hash, chunks: seq<Address>) returns (a: Address)
    requires |chunks| > 0
    ensures a == AddressOf(TreeRoot(h, chunks))
    ensures |chunks| == 2 ==>
              var tag: Bytes := [0x44, 0x4d, 0x54, 0x41, 0x50, 0x2d, 0x50, 0x55, 0x42, 0x2d, 0x76,
                                 0x30, 0x2f, 0x6d, 0x61, 0x6e, 0x69, 0x66, 0x65, 0x73, 0x74, 0x00];
              a == [0x1e] + h(tag + [0x01] + h(tag + [0x00] + chunks[0]) + h(tag + [0x00] + chunks[1]))
  {
    SmallRoots(h, chunks);
    hide TreeRoot;
    var root := MerkleRoot(h, chunks);
    a := AddressOf(root);
  }
}
