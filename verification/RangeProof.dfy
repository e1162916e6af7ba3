/** Range proofs: building, verifying, and what acceptance means (tunnel/pubcache/proof.go). */
module RangeProof {
  import opened Basics
  import opened TreeHash
  import opened ChunkTree

  // --------------------------------------------------------------- the operations

  method ReduceLevel(h: Hash, level: seq<Digest>) returns (next: seq<Digest>)
    ensures next == Reduce(NodeOf(h), level)
  {
    hide Reduce, NodeOf;
    next := [];
    var i := 0;
    while i + 1 < |level|
      invariant 0 <= i <= |level|
      invariant Reduce(NodeOf(h), level) == next + Reduce(NodeOf(h), level[i..])
    {
      ReduceTwo(NodeOf(h), level, i, next);
      next := next + [NodeOf(h)(level[i], level[i + 1])];
      i := i + 2;
    }
    ReduceEnd(NodeOf(h), level, i);
    if i < |level| {
      next := next + [level[i]];
    }
  }

  lemma ReduceTwo(node: (Digest, Digest) -> Digest, level: seq<Digest>, i: nat, done: seq<Digest>)
    requires i + 1 < |level|
    ensures done + Reduce(node, level[i..]) == done + [node(level[i], level[i + 1])] + Reduce(node, level[i + 2..])
  {
    assert level[i..][2..] == level[i + 2..];
    assert Reduce(node, level[i..]) == [node(level[i], level[i + 1])] + Reduce(node, level[i + 2..]);
  }

  lemma ReduceEnd(node: (Digest, Digest) -> Digest, level: seq<Digest>, i: nat)
    requires i <= |level| <= i + 1
    ensures Reduce(node, level[i..]) == if i < |level| then [level[i]] else []
  {
  }

  /** A proof list as the verifier sees it: the audit path of RFC 6962. */
  function HonestPath(h: Hash, chunks: seq<Address>, index: nat): seq<Digest>
    requires index < |chunks|
  {
    RfcPath(NodeOf(h), Leaves(h, chunks), index)
  }

  method ChunkProof(h: Hash, chunks: seq<Address>, index: int) returns (r: Result<seq<Digest>>)
    ensures r.Ok? <==> 0 <= index < |chunks|
    ensures r.Ok? ==> r.value == HonestPath(h, chunks, index)
    ensures r.Err? ==> r.error == ProofRange
  {
    var n := |chunks|;
    if n == 0 {
      return Err(ProofRange);
    }
    if index < 0 || index >= n {
      return Err(ProofRange);
    }
    hide LevelPath, Reduce, RfcPath, NodeOf;
    var level := Leaves(h, chunks);
    ghost var node := NodeOf(h);
    var path: seq<Digest> := [];
    var cur := index;
    while |level| > 1
      invariant 0 <= cur < |level|
      invariant LevelPath(node, Leaves(h, chunks), index) == path + LevelPath(node, level, cur)
      decreases |level|
    {
      LevelPathUnfold(node, level, cur);
      ghost var rest := LevelPath(node, Reduce(node, level), cur / 2);
      assert Sibling(cur) < |level| ==> path + ([level[Sibling(cur)]] + rest) == path + [level[Sibling(cur)]] + rest;
      var sib := Sibling(cur);
      if sib < |level| {
        path := path + [level[sib]];
      }
      cur := cur / 2;
      level := ReduceLevel(h, level);
    }
    LevelPathUnfold(node, level, cur);
    LevelPathIsRfcPath(node, Leaves(h, chunks), index);
    return Ok(path);
  }

  lemma LevelPathUnfold(node: (Digest, Digest) -> Digest, level: seq<Digest>, cur: nat)
    requires cur < |level|
    ensures LevelPath(node, level, cur) ==
            if |level| == 1 then []
            else if Sibling(cur) < |level| then
              [level[Sibling(cur)]] + LevelPath(node, Reduce(node, level), cur / 2)
            else LevelPath(node, Reduce(node, level), cur / 2)
  {
  }

  lemma LevelSidesUnfold(width: nat, cur: nat)
    requires cur < width
    ensures LevelSides(width, cur) ==
            if width == 1 then []
            else if Sibling(cur) < width then
              [if cur % 2 == 0 then Left else Right] + LevelSides((width + 1) / 2, cur / 2)
            else LevelSides((width + 1) / 2, cur / 2)
  {
  }

  lemma FoldUpUnfold(node: (Digest, Digest) -> Digest, x: Digest, side: Side, rest: seq<Side>, path: seq<Digest>)
    requires |path| == |rest| + 1
    ensures FoldUp(node, x, [side] + rest, path) == FoldUp(node, Combine(node, x, side, path[0]), rest, path[1..])
  {
    assert ([side] + rest)[1..] == rest;
  }

  /** The next level's width, (width + 1) / 2 in signed 64 bits, truncated toward zero. */
  function NextWidth(width: int): int {
    if width + 1 >= INT64_HALF then (width + 1 - 2 * INT64_HALF) / 2 else (width + 1) / 2
  }

  /** The sides the verifier's loop takes, until the width is at most one. */
  function VerifierSides(width: int, cur: nat): seq<Side>
    requires width < INT64_HALF
  {
    if width <= 1 then [] else SideOf(width, cur) + VerifierSides(NextWidth(width), cur / 2)
  }

  lemma {:induction false} SmallWidthsExact(width: nat, cur: nat)
    requires cur < width && width + 1 < INT64_HALF
    ensures VerifierSides(width, cur) == LevelSides(width, cur)
    decreases width
  {
    hide SideOf;
    if width > 1 {
      SmallWidthsExact((width + 1) / 2, cur / 2);
    }
  }

  lemma EvenWidthPairs(width: nat, cur: nat)
    requires cur < width && width % 2 == 0
    ensures |LevelSides(width, cur)| >= 1
    ensures width > 2 && width % 4 == 0 ==> |LevelSides(width, cur)| >= 2
  {
    hide LevelSides;
    LevelSidesUnfold(width, cur);
    LevelSidesUnfold((width + 1) / 2, cur / 2);
  }

  /** The sides are those of a tree of that many leaves exactly below the largest 64-bit count. */
  lemma WidthsExact(width: nat, cur: nat)
    requires cur < width < INT64_HALF
    ensures VerifierSides(width, cur) == LevelSides(width, cur) <==> width < INT64_HALF - 1
    ensures width == INT64_HALF - 1 ==> |VerifierSides(width, cur)| <= 1 && |LevelSides(width, cur)| >= 2
  {
    if width < INT64_HALF - 1 {
      SmallWidthsExact(width, cur);
    } else {
      hide LevelSides;
      LevelSidesUnfold(width, cur);
      EvenWidthPairs((width + 1) / 2, cur / 2);
      assert NextWidth(width) <= 1;
      assert VerifierSides(NextWidth(width), cur / 2) == [];
    }
  }

  /** When a proof is accepted, in terms of the fold it claims. */
  predicate Accepts(h: Hash, root: Address, nChunks: int, index: int, chunk: Bytes, path: seq<Digest>) {
    && 0 <= index < nChunks < INT64_HALF
    && |path| <= MAX_PROOF_PATH
    && |path| == |VerifierSides(nChunks, index)|
    && AddressOf(FoldUp(NodeOf(h), MerkleLeaf(h, HashBytes(h, chunk)), VerifierSides(nChunks, index), path)) == root
  }

  method VerifyChunkProof(h: Hash, root: Address, nChunks: int, index: int, chunk: Bytes, path: seq<Digest>)
    returns (r: Result<()>)
    requires nChunks < INT64_HALF
    ensures r.Ok? <==> Accepts(h, root, nChunks, index, chunk, path)
    ensures |path| > 40 ==> r.Err?
    ensures r.Err? ==> r.error == if 0 <= index < nChunks then ProofInvalid else ProofRange
  {
    if nChunks <= 0 {
      return Err(ProofRange);
    }
    if index < 0 || index >= nChunks {
      return Err(ProofRange);
    }
    if |path| > MAX_PROOF_PATH {
      return Err(ProofInvalid);
    }
    hide VerifierSides, FoldUp, NodeOf;
    var node := MerkleLeaf(h, HashBytes(h, chunk));
    ghost var leaf, sides := node, VerifierSides(nChunks, index);
    var cur, levelLen, used := index, nChunks, 0;
    while levelLen > 1
      invariant 0 <= cur && levelLen < INT64_HALF && 0 <= used <= |path|
      invariant |VerifierSides(levelLen, cur)| == |sides| - used
      invariant |path| == |sides| ==>
                  FoldUp(NodeOf(h), leaf, sides, path) == FoldUp(NodeOf(h), node, VerifierSides(levelLen, cur), path[used..])
      decreases levelLen
    {
      VerifierSidesUnfold(levelLen, cur);
      ghost var next := VerifierSides(NextWidth(levelLen), cur / 2);
      var sib := Sibling(cur);
      if sib < levelLen {
        if used >= |path| {
          return Err(ProofInvalid);
        }
        var s := path[used];
        if |path| == |sides| {
          FoldUpUnfold(NodeOf(h), node, if cur % 2 == 0 then Left else Right, next, path[used..]);
          assert path[used..][1..] == path[used + 1..];
        }
        used := used + 1;
        if cur % 2 == 0 {
          node := NodeOf(h)(node, s);
        } else {
          node := NodeOf(h)(s, node);
        }
      }
      cur := cur / 2;
      levelLen := NextWidth(levelLen);
    }
    VerifierSidesUnfold(levelLen, cur);
    FoldUpNothing(NodeOf(h), node);
    if used != |path| {
      return Err(ProofInvalid);
    }
    var got := AddressOf(node);
    if got != root {
      return Err(ProofInvalid);
    }
    return Ok(());
  }

  lemma VerifierSidesUnfold(width: int, cur: nat)
    requires width < INT64_HALF
    ensures VerifierSides(width, cur) ==
            if width <= 1 then []
            else if Sibling(cur) < width then
              [if cur % 2 == 0 then Left else Right] + VerifierSides(NextWidth(width), cur / 2)
            else VerifierSides(NextWidth(width), cur / 2)
  {
  }

  lemma FoldUpNothing(node: (Digest, Digest) -> Digest, x: Digest)
    ensures FoldUp(node, x, [], []) == x
  {
  }

  // ----------------------------------------------------------- collision extraction

  predicate Collides(h: Hash, p: Bytes, q: Bytes) {
    p != q && h(p) == h(q)
  }

  /** Every byte string hashed to build the tree over chunks. */
  ghost function TreePreimages(h: Hash, chunks: seq<Address>): set<Bytes>
    requires |chunks| > 0
    decreases |chunks|
  {
    if |chunks| == 1 then {LeafPreimage(chunks[0])}
    else
      var k := SplitPoint(|chunks|);
      {NodePreimage(TreeRoot(h, chunks[..k]), TreeRoot(h, chunks[k..]))}
      + TreePreimages(h, chunks[..k]) + TreePreimages(h, chunks[k..])
  }

  /** The string hashed by one combination. */
  function StepPreimage(x: Digest, side: Side, sibling: Digest): Bytes {
    if side == Left then NodePreimage(x, sibling) else NodePreimage(sibling, x)
  }

  /** Every byte string hashed while folding a path from a leaf. */
  ghost function FoldPreimages(h: Hash, leaf: Address, sides: seq<Side>, path: seq<Digest>): set<Bytes>
    requires |sides| == |path|
    decreases |sides|
  {
    if |sides| == 0 then {LeafPreimage(leaf)}
    else
      var n := |sides| - 1;
      FoldPreimages(h, leaf, sides[..n], path[..n])
      + {StepPreimage(FoldUp(NodeOf(h), MerkleLeaf(h, leaf), sides[..n], path[..n]), sides[n], path[n])}
  }

  lemma PreimagesApart(a: Address, b: Address, l: Digest, r: Digest, l': Digest, r': Digest)
    ensures LeafPreimage(a) == LeafPreimage(b) ==> a == b
    ensures NodePreimage(l, r) == NodePreimage(l', r') ==> l == l' && r == r'
    ensures LeafPreimage(a) != NodePreimage(l, r)
  {
    var n := |DS_MANIFEST|;
    var p, q := NodePreimage(l, r), NodePreimage(l', r');
    assert LeafPreimage(a)[n] == 0 && p[n] == 1;
    assert LeafPreimage(a)[n + 1..] == a && LeafPreimage(b)[n + 1..] == b;
    assert p[n + 1..n + 33] == l && p[n + 33..] == r;
    assert q[n + 1..n + 33] == l' && q[n + 33..] == r';
  }

  /** Where a fold that reaches the committed root comes from. */
  datatype Origin = Member(position: nat) | Collision(p: Bytes, q: Bytes)

  /** What an origin witnesses about a fold from leaf. */
  ghost predicate Explains(h: Hash, chunks: seq<Address>, leaf: Address, sides: seq<Side>, path: seq<Digest>, o: Origin)
    requires |chunks| > 0 && |sides| == |path|
  {
    match o
    case Member(j) =>
      j < |chunks| && chunks[j] == leaf && sides == RfcSides(|chunks|, j) && path == HonestPath(h, chunks, j)
    case Collision(p, q) =>
      Collides(h, p, q) && p in TreePreimages(h, chunks) && q in FoldPreimages(h, leaf, sides, path)
  }

  /**
   Walks the committed tree and the claimed fold down from their common root.
   Either they coincide to a leaf, or the first difference is a collision.
   */
  function Trace(h: Hash, chunks: seq<Address>, leaf: Address, sides: seq<Side>, path: seq<Digest>): (o: Origin)
    requires |chunks| > 0 && |sides| == |path|
    decreases |chunks|
  {
    if |chunks| == 1 then
      var p := LeafPreimage(chunks[0]);
      if |sides| == 0 then
        if leaf == chunks[0] then Member(0) else Collision(p, LeafPreimage(leaf))
      else Collision(p, LastStep(h, leaf, sides, path))
    else
      var k := SplitPoint(|chunks|);
      var p := NodePreimage(TreeRoot(h, chunks[..k]), TreeRoot(h, chunks[k..]));
      if |sides| == 0 then Collision(p, LeafPreimage(leaf))
      else if p != LastStep(h, leaf, sides, path) then Collision(p, LastStep(h, leaf, sides, path))
      else
        var n := |sides| - 1;
        if sides[n] == Left then Trace(h, chunks[..k], leaf, sides[..n], path[..n])
        else
          var o := Trace(h, chunks[k..], leaf, sides[..n], path[..n]);
          if o.Member? then Member(k + o.position) else o
  }

  /** The string hashed by the last combination of a fold. */
  function LastStep(h: Hash, leaf: Address, sides: seq<Side>, path: seq<Digest>): Bytes
    requires |sides| == |path| > 0
  {
    var n := |sides| - 1;
    StepPreimage(FoldUp(NodeOf(h), MerkleLeaf(h, leaf), sides[..n], path[..n]), sides[n], path[n])
  }

  lemma {:induction false} TraceExplains(h: Hash, chunks: seq<Address>, leaf: Address, sides: seq<Side>, path: seq<Digest>)
    requires |chunks| > 0 && |sides| == |path|
    requires FoldUp(NodeOf(h), MerkleLeaf(h, leaf), sides, path) == TreeRoot(h, chunks)
    ensures Explains(h, chunks, leaf, sides, path, Trace(h, chunks, leaf, sides, path))
    decreases |chunks|
  {
    if |sides| > 0 {
      FoldUpLast(NodeOf(h), MerkleLeaf(h, leaf), sides, path);
    }
    if |chunks| == 1 {
      TraceLeaf(h, chunks, leaf, sides, path);
    } else {
      TraceNode(h, chunks, leaf, sides, path);
      var k, n := SplitPoint(|chunks|), |sides| - 1;
      var p := NodePreimage(TreeRoot(h, chunks[..k]), TreeRoot(h, chunks[k..]));
      if |sides| > 0 && p == LastStep(h, leaf, sides, path) {
        if sides[n] == Left {
          TraceExplains(h, chunks[..k], leaf, sides[..n], path[..n]);
        } else {
          TraceExplains(h, chunks[k..], leaf, sides[..n], path[..n]);
        }
        TraceDescend(h, chunks, leaf, sides, path, k);
      }
    }
  }

  lemma TraceLeaf(h: Hash, chunks: seq<Address>, leaf: Address, sides: seq<Side>, path: seq<Digest>)
    requires |chunks| == 1 && |sides| == |path|
    requires FoldUp(NodeOf(h), MerkleLeaf(h, leaf), sides, path) == TreeRoot(h, chunks)
    requires |sides| > 0 ==> h(LastStep(h, leaf, sides, path)) == FoldUp(NodeOf(h), MerkleLeaf(h, leaf), sides, path)
    ensures Explains(h, chunks, leaf, sides, path, Trace(h, chunks, leaf, sides, path))
  {
    if |sides| == 0 {
      PreimagesApart(leaf, chunks[0], seq(32, _ => 0), seq(32, _ => 0), seq(32, _ => 0), seq(32, _ => 0));
    } else {
      var n := |sides| - 1;
      var x := FoldUp(NodeOf(h), MerkleLeaf(h, leaf), sides[..n], path[..n]);
      PreimagesApart(chunks[0], leaf, x, path[n], x, path[n]);
      PreimagesApart(chunks[0], leaf, path[n], x, x, x);
    }
  }

  /** The cases of Trace at an inner node that do not descend, and what descending needs. */
  lemma TraceNode(h: Hash, chunks: seq<Address>, leaf: Address, sides: seq<Side>, path: seq<Digest>)
    requires |chunks| > 1 && |sides| == |path|
    requires FoldUp(NodeOf(h), MerkleLeaf(h, leaf), sides, path) == TreeRoot(h, chunks)
    requires |sides| > 0 ==> h(LastStep(h, leaf, sides, path)) == FoldUp(NodeOf(h), MerkleLeaf(h, leaf), sides, path)
    ensures var k, n := SplitPoint(|chunks|), |sides| - 1;
            var l, r := TreeRoot(h, chunks[..k]), TreeRoot(h, chunks[k..]);
            if |sides| == 0 || NodePreimage(l, r) != LastStep(h, leaf, sides, path)
            then Explains(h, chunks, leaf, sides, path, Trace(h, chunks, leaf, sides, path))
            else
              && FoldUp(NodeOf(h), MerkleLeaf(h, leaf), sides[..n], path[..n]) == (if sides[n] == Left then l else r)
              && path[n] == (if sides[n] == Left then r else l)
  {
    var k, n := SplitPoint(|chunks|), |sides| - 1;
    TreeRootSplit(h, chunks, k);
    var l, r := TreeRoot(h, chunks[..k]), TreeRoot(h, chunks[k..]);
    if |sides| == 0 {
      PreimagesApart(leaf, leaf, l, r, l, r);
    } else {
      var x := FoldUp(NodeOf(h), MerkleLeaf(h, leaf), sides[..n], path[..n]);
      PreimagesApart(leaf, leaf, l, r, x, path[n]);
      PreimagesApart(leaf, leaf, l, r, path[n], x);
    }
  }

  /** An explanation of the descended fold is one of the whole fold. */
  lemma TraceDescend(h: Hash, chunks: seq<Address>, leaf: Address, sides: seq<Side>, path: seq<Digest>, k: nat)
    requires |chunks| > 1 && |sides| == |path| > 0 && k == SplitPoint(|chunks|)
    requires var n := |sides| - 1; path[n] == TreeRoot(h, if sides[n] == Left then chunks[k..] else chunks[..k])
    requires NodePreimage(TreeRoot(h, chunks[..k]), TreeRoot(h, chunks[k..])) == LastStep(h, leaf, sides, path)
    requires var n := |sides| - 1; var part := if sides[n] == Left then chunks[..k] else chunks[k..];
             Explains(h, part, leaf, sides[..n], path[..n], Trace(h, part, leaf, sides[..n], path[..n]))
    ensures Explains(h, chunks, leaf, sides, path, Trace(h, chunks, leaf, sides, path))
  {
    hide TreeRoot, RfcPath, RfcSides, FoldUp, LeafPreimage, NodePreimage;
    var n := |sides| - 1;
    var part := if sides[n] == Left then chunks[..k] else chunks[k..];
    var o := Trace(h, part, leaf, sides[..n], path[..n]);
    assert sides == sides[..n] + [sides[n]] && path == path[..n] + [path[n]];
    if o.Member? {
      var j := if sides[n] == Left then o.position else k + o.position;
      assert Trace(h, chunks, leaf, sides, path) == Member(j);
      MemberAbove(h, chunks, j, k);
    } else {
      assert Trace(h, chunks, leaf, sides, path) == o;
    }
  }

  /** The honest path and sides of a position extend those of its half. */
  lemma MemberAbove(h: Hash, chunks: seq<Address>, j: nat, k: nat)
    requires |chunks| > 1 && k == SplitPoint(|chunks|) && j < |chunks|
    ensures j < k ==>
              && RfcSides(|chunks|, j) == RfcSides(k, j) + [Left]
              && HonestPath(h, chunks, j) == HonestPath(h, chunks[..k], j) + [TreeRoot(h, chunks[k..])]
    ensures j >= k ==>
              && RfcSides(|chunks|, j) == RfcSides(|chunks| - k, j - k) + [Right]
              && HonestPath(h, chunks, j) == HonestPath(h, chunks[k..], j - k) + [TreeRoot(h, chunks[..k])]
  {
    hide RfcPath, RfcSides, Mth;
    RfcSidesUnfold(|chunks|, j, k);
    RfcPathUnfold(NodeOf(h), Leaves(h, chunks), j, k);
    LeavesSlice(h, chunks, k);
  }

  // ------------------------------------------------------------------ main results

  /**
   Soundness for any claimed count, right or wrong. An accepted chunk is a member
   of the committed list, reached by exactly the honest path of its position, or a
   collision is exhibited between a string hashed for the committed tree and one
   hashed by this verification. The claimed index is that position precisely when
   the claimed count gives the index the sides it has in the committed tree.
   */
  lemma AcceptedIsCommitted(h: Hash, chunks: seq<Address>, nChunks: int, index: int, chunk: Bytes, path: seq<Digest>)
    returns (o: Origin)
    requires |chunks| > 0
    requires Accepts(h, AddressOf(TreeRoot(h, chunks)), nChunks, index, chunk, path)
    ensures Explains(h, chunks, HashBytes(h, chunk), VerifierSides(nChunks, index), path, o)
    ensures o.Member? ==>
              (o.position == index <==> index < |chunks| && VerifierSides(nChunks, index) == LevelSides(|chunks|, index))
  {
    hide Mth, LevelSides, VerifierSides, RfcSides, RfcPath, FoldUp;
    var sides := VerifierSides(nChunks, index);
    var leaf := HashBytes(h, chunk);
    var fold := FoldUp(NodeOf(h), MerkleLeaf(h, leaf), sides, path);
    assert AddressOf(fold)[1..] == fold && AddressOf(TreeRoot(h, chunks))[1..] == TreeRoot(h, chunks);
    TraceExplains(h, chunks, leaf, sides, path);
    o := Trace(h, chunks, leaf, sides, path);
    if o.Member? && index < |chunks| {
      LevelSidesIsRfcSides(|chunks|, index);
      if RfcSides(|chunks|, index) == RfcSides(|chunks|, o.position) {
        RfcSidesInjective(|chunks|, index, o.position);
      }
    }
  }

  /** Soundness with the true count: index, chunk and path are all pinned down. */
  lemma AcceptedAtIndex(h: Hash, chunks: seq<Address>, index: int, chunk: Bytes, path: seq<Digest>)
    returns (o: Origin)
    requires |chunks| > 0
    requires Accepts(h, AddressOf(TreeRoot(h, chunks)), |chunks|, index, chunk, path)
    ensures o.Member? ==>
              o.position == index && HashBytes(h, chunk) == chunks[index] && path == HonestPath(h, chunks, index)
    ensures o.Collision? ==>
              && Collides(h, o.p, o.q) && o.p in TreePreimages(h, chunks)
              && o.q in FoldPreimages(h, HashBytes(h, chunk), VerifierSides(|chunks|, index), path)
  {
    hide LevelSides, VerifierSides, RfcSides, RfcPath, FoldUp, TreeRoot, HonestPath, TreePreimages, FoldPreimages;
    o := AcceptedIsCommitted(h, chunks, |chunks|, index, chunk, path);
    WidthsExact(|chunks|, index);
    if o.Member? {
      LevelSidesIsRfcSides(|chunks|, o.position);
      WidthsExact(|chunks|, o.position);
    }
  }

  /** The same for the published bytes: the accepted chunk is the blob's chunk, byte for byte. */
  lemma AcceptedBytes(h: Hash, blob: seq<Bytes>, chunks: seq<Address>, index: int, chunk: Bytes, path: seq<Digest>)
    returns (o: Origin)
    requires |blob| == |chunks| > 0
    requires forall i :: 0 <= i < |blob| ==> chunks[i] == HashBytes(h, blob[i])
    requires Accepts(h, AddressOf(TreeRoot(h, chunks)), |chunks|, index, chunk, path)
    ensures o.Member? ==> chunk == blob[index]
    ensures o.Collision? ==>
              && Collides(h, o.p, o.q)
              && (o.p in TreePreimages(h, chunks) || o.p == blob[index])
              && (o.q in FoldPreimages(h, HashBytes(h, chunk), VerifierSides(|chunks|, index), path) || o.q == chunk)
  {
    o := AcceptedAtIndex(h, chunks, index, chunk, path);
    if o.Member? && chunk != blob[index] {
      assert HashBytes(h, chunk)[1..] == h(chunk) && HashBytes(h, blob[index])[1..] == h(blob[index]);
      o := Collision(blob[index], chunk);
    }
  }

  /** Completeness, and with AcceptedIsCommitted an exact account of what is accepted. */
  lemma AcceptedWhenSidesAgree(h: Hash, chunks: seq<Address>, j: nat, nChunks: int, index: int, chunk: Bytes)
    requires j < |chunks| && chunks[j] == HashBytes(h, chunk) && 0 <= index < nChunks < INT64_HALF
    requires VerifierSides(nChunks, index) == RfcSides(|chunks|, j) && |RfcSides(|chunks|, j)| <= MAX_PROOF_PATH
    ensures Accepts(h, AddressOf(TreeRoot(h, chunks)), nChunks, index, chunk, HonestPath(h, chunks, j))
  {
    RfcPathFolds(NodeOf(h), Leaves(h, chunks), j);
  }

  /** An honest proof is accepted for every tree within the depth bound. */
  lemma HonestAccepted(h: Hash, chunks: seq<Address>, index: nat, chunk: Bytes)
    requires index < |chunks| <= Pow2(MAX_PROOF_PATH) && chunks[index] == HashBytes(h, chunk)
    ensures Accepts(h, AddressOf(TreeRoot(h, chunks)), |chunks|, index, chunk, HonestPath(h, chunks, index))
  {
    hide Pow2, Mth, LevelSides, VerifierSides, RfcSides, RfcPath, FoldUp;
    FortyLevels();
    LevelSidesBound(|chunks|, index, MAX_PROOF_PATH);
    LevelSidesIsRfcSides(|chunks|, index);
    SmallWidthsExact(|chunks|, index);
    AcceptedWhenSidesAgree(h, chunks, index, |chunks|, index, chunk);
  }

  /** A path has at most as many siblings as the count has halvings. */
  lemma HonestPathBound(h: Hash, chunks: seq<Address>, index: nat, e: nat)
    requires index < |chunks| <= Pow2(e)
    ensures |HonestPath(h, chunks, index)| <= e
  {
    hide Pow2, LevelSides, RfcSides, RfcPath;
    LevelSidesBound(|chunks|, index, e);
    LevelSidesIsRfcSides(|chunks|, index);
    RfcPathLength(NodeOf(h), Leaves(h, chunks), index);
  }

  /** The item bound of a decoded chunk list, as a power of two. */
  lemma TwentyLevels()
    ensures Pow2(20) == 0x10_0000
  {
    assert Pow2(5) == 32;
    assert Pow2(10) == 1024;
    assert Pow2(15) == 0x8000;
  }

  lemma FortyLevels()
    ensures Pow2(40) == 0x100_0000_0000
  {
    TwentyLevels();
    assert Pow2(25) == 0x200_0000;
    assert Pow2(30) == 0x4000_0000;
    assert Pow2(35) == 0x8_0000_0000;
  }

  /**
   The index claim does depend on the count: the third chunk of three is accepted
   as the second of two, whatever the hash function.
   */
  lemma WrongCountMisplaces(h: Hash, a: Address, b: Address, chunk: Bytes)
    ensures var chunks := [a, b, HashBytes(h, chunk)];
            && Accepts(h, AddressOf(TreeRoot(h, chunks)), 2, 1, chunk, HonestPath(h, chunks, 2))
            && LevelSides(2, 1) != LevelSides(3, 1)
  {
    var chunks := [a, b, HashBytes(h, chunk)];
    assert SplitPoint(3) == 2 && SplitPoint(2) == 1;
    assert LevelSides(1, 0) == [] && LevelSides(2, 1) == [Right] && LevelSides(2, 0) == [Left];
    assert RfcSides(1, 0) == [] && RfcSides(3, 2) == [Right];
    assert LevelSides(3, 1) == [Right, Left];
    SmallWidthsExact(2, 1);
    AcceptedWhenSidesAgree(h, chunks, 2, 2, 1, chunk);
  }

  /**
   At the largest count the width wraps after one level, and the second chunk of two is
   accepted as the second of 2^63 - 1 with a path of one sibling.
   */
  lemma WrappedCountAccepts(h: Hash, a: Address, chunk: Bytes)
    ensures var chunks := [a, HashBytes(h, chunk)];
            && Accepts(h, AddressOf(TreeRoot(h, chunks)), 0x7fff_ffff_ffff_ffff, 1, chunk, HonestPath(h, chunks, 1))
            && |LevelSides(INT64_HALF - 1, 1)| != |HonestPath(h, chunks, 1)|
  {
    var chunks := [a, HashBytes(h, chunk)];
    assert SplitPoint(2) == 1;
    assert RfcSides(1, 0) == [] && RfcSides(2, 1) == [Right];
    WidthsExact(INT64_HALF - 1, 1);
    assert VerifierSides(INT64_HALF - 1, 1) == [Right] by {
      assert VerifierSides(NextWidth(INT64_HALF - 1), 0) == [];
    }
    AcceptedWhenSidesAgree(h, chunks, 1, INT64_HALF - 1, 1, chunk);
    RfcPathLength(NodeOf(h), Leaves(h, chunks), 1);
  }
}
