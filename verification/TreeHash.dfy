/**
 The tree of section 2.1 of RFC 6962 over an arbitrary node function, its audit
 paths (section 2.1.1), and the level-by-level form that pairs nodes left to
 right and promotes an unpaired last node.
 */
module TreeHash {

  // ---------------------------------------------------------------- split rule

  /** 2 to the power e. */
  function Pow2(e: nat): (p: nat)
    ensures p >= 1
  {
    if e == 0 then 1 else 2 * Pow2(e - 1)
  }

  ghost predicate IsPow2(k: nat) {
    exists e: nat :: k == Pow2(e)
  }

  /** The largest power of two strictly below n. */
  function SplitPoint(n: nat): (k: nat)
    requires n >= 2
    ensures 1 <= k < n <= 2 * k
  {
    DoubleUpTo(1, n)
  }

  /** k doubled until one more doubling would reach n. */
  function DoubleUpTo(k: nat, n: nat): (r: nat)
    requires 1 <= k < n
    ensures k <= r < n <= 2 * r
    decreases n - k
  {
    if n <= 2 * k then k else DoubleUpTo(2 * k, n)
  }

  lemma {:induction false} DoubleUpToPow2(k: nat, n: nat, e: nat)
    requires 1 <= k < n && k == Pow2(e)
    ensures IsPow2(DoubleUpTo(k, n))
    decreases n - k
  {
    if n > 2 * k {
      assert 2 * k == Pow2(e + 1);
      DoubleUpToPow2(2 * k, n, e + 1);
    }
  }

  lemma {:induction false} PowersApart(d: nat, e: nat)
    ensures d < e ==> 2 * Pow2(d) <= Pow2(e)
    decreases e
  {
    if d + 1 < e {
      PowersApart(d, e - 1);
    }
  }

  lemma DistinctPowers(a: nat, b: nat)
    requires IsPow2(a) && IsPow2(b) && a < b
    ensures 2 * a <= b
  {
    var d, e :| a == Pow2(d) && b == Pow2(e);
    PowersApart(d, e);
    PowersApart(e, d);
  }

  /** The split rule pins the split point down. */
  lemma SplitPointUnique(n: nat, k: nat)
    requires n >= 2 && k < n <= 2 * k
    ensures IsPow2(SplitPoint(n))
    ensures IsPow2(k) ==> k == SplitPoint(n)
  {
    assert 1 == Pow2(0);
    DoubleUpToPow2(1, n, 0);
    if IsPow2(k) && k < SplitPoint(n) {
      DistinctPowers(k, SplitPoint(n));
    } else if IsPow2(k) && k > SplitPoint(n) {
      DistinctPowers(SplitPoint(n), k);
    }
  }

  // ------------------------------------------------------------- the two trees

  /** MTH of section 2.1 of RFC 6962, over leaves that are already hashed. */
  function Mth<T>(node: (T, T) -> T, s: seq<T>): T
    requires |s| > 0
    decreases |s|
  {
    if |s| == 1 then s[0]
    else
      var k := SplitPoint(|s|);
      node(Mth(node, s[..k]), Mth(node, s[k..]))
  }

  /** One level combined into the next; an unpaired last node is promoted. */
  function Reduce<T>(node: (T, T) -> T, s: seq<T>): (r: seq<T>)
    ensures Halves(|s|, |r|)
  {
    if |s| == 0 then []
    else if |s| == 1 then s
    else [node(s[0], s[1])] + Reduce(node, s[2..])
  }

  /** Repeated reduction down to a single node. */
  function LevelRoot<T>(node: (T, T) -> T, s: seq<T>): T
    requires |s| > 0
    decreases |s|
  {
    if |s| == 1 then s[0] else LevelRoot(node, Reduce(node, s))
  }

  lemma {:induction false} ReduceAt<T>(node: (T, T) -> T, s: seq<T>, i: nat)
    requires 2 * i < |s|
    ensures Reduce(node, s)[i] == if 2 * i + 1 < |s| then node(s[2 * i], s[2 * i + 1]) else s[2 * i]
  {
    if i > 0 {
      ReduceAt(node, s[2..], i - 1);
    }
  }

  lemma {:induction false} ReduceAppend<T>(node: (T, T) -> T, a: seq<T>, b: seq<T>)
    requires |a| % 2 == 0
    ensures Reduce(node, a + b) == Reduce(node, a) + Reduce(node, b)
  {
    if |a| == 0 {
      assert a + b == b;
    } else {
      assert (a + b)[2..] == a[2..] + b;
      ReduceAppend(node, a[2..], b);
    }
  }

  /** m is n halved, rounding up. */
  predicate Halves(n: nat, m: nat) {
    n == 2 * m || n == 2 * m - 1
  }

  lemma {:induction false} DoubleUpToHalves(k: nat, n: nat, m: nat)
    requires 1 <= k < m && Halves(n, m)
    ensures DoubleUpTo(2 * k, n) == 2 * DoubleUpTo(k, m)
    decreases m - k
  {
    if m > 2 * k {
      DoubleUpToHalves(2 * k, n, m);
    }
  }

  /** Halving a width halves its split point. */
  lemma SplitHalves(n: nat, m: nat) returns (half: nat)
    requires n > 2 && Halves(n, m)
    ensures 0 < half && 2 * half < n && half < m
    ensures SplitPoint(n) == 2 * half && SplitPoint(m) == half
  {
    half := SplitPoint(m);
    DoubleUpToHalves(1, n, m);
  }

  /** Both halves of the split survive a reduction as the halves of the next split. */
  lemma {:induction false} SplitReduced<T>(node: (T, T) -> T, s: seq<T>, half: nat)
    requires |s| > 2 && SplitPoint(|s|) == 2 * half
    ensures Reduce(node, s)[..half] == Reduce(node, s[..2 * half])
    ensures Reduce(node, s)[half..] == Reduce(node, s[2 * half..])
  {
    var a, b := s[..2 * half], s[2 * half..];
    assert s == a + b;
    ReduceAppend(node, a, b);
  }

  lemma {:induction false} MthReduce<T>(node: (T, T) -> T, s: seq<T>)
    requires |s| > 0
    ensures Mth(node, Reduce(node, s)) == Mth(node, s)
    decreases |s|
  {
    if |s| == 2 {
      assert Reduce(node, s[2..]) == [];
      assert Reduce(node, s) == [node(s[0], s[1])];
    } else if |s| > 2 {
      var half := SplitHalves(|s|, |Reduce(node, s)|);
      SplitReduced(node, s, half);
      MthReduce(node, s[..2 * half]);
      MthReduce(node, s[2 * half..]);
    }
  }

  /** Level-by-level reduction with promotion builds the RFC 6962 tree. */
  lemma {:induction false} LevelRootIsMth<T>(node: (T, T) -> T, s: seq<T>)
    requires |s| > 0
    ensures LevelRoot(node, s) == Mth(node, s)
    decreases |s|
  {
    if |s| > 1 {
      LevelRootIsMth(node, Reduce(node, s));
      MthReduce(node, s);
    }
  }

  /** Two neighbouring perfect subtrees of equal size are one perfect subtree. */
  lemma MthMerge<T>(node: (T, T) -> T, a: seq<T>, b: seq<T>)
    requires |a| > 0 && IsPow2(|a|) && 0 < |b| <= |a|
    ensures Mth(node, a + b) == node(Mth(node, a), Mth(node, b))
  {
    SplitPointUnique(|a + b|, |a|);
    assert (a + b)[..|a|] == a && (a + b)[|a|..] == b;
  }

  // --------------------------------------------------------------- audit paths

  /** The side a node takes when it is combined with its sibling. */
  datatype Side = Left | Right

  /** The sibling index: the low bit flipped. */
  function Sibling(i: nat): nat {
    if i % 2 == 0 then i + 1 else i - 1
  }

  /** PATH of section 2.1.1 of RFC 6962, bottom-up. */
  function RfcPath<T>(node: (T, T) -> T, s: seq<T>, i: nat): seq<T>
    requires i < |s|
    decreases |s|
  {
    if |s| == 1 then []
    else
      var k := SplitPoint(|s|);
      if i < k then RfcPath(node, s[..k], i) + [Mth(node, s[k..])]
      else RfcPath(node, s[k..], i - k) + [Mth(node, s[..k])]
  }

  /** On which side leaf i of n enters each combination, bottom-up. */
  function RfcSides(n: nat, i: nat): seq<Side>
    requires i < n
    decreases n
  {
    if n == 1 then []
    else
      var k := SplitPoint(n);
      if i < k then RfcSides(k, i) + [Left] else RfcSides(n - k, i - k) + [Right]
  }

  /** The siblings met while reducing level by level. */
  function LevelPath<T>(node: (T, T) -> T, level: seq<T>, cur: nat): seq<T>
    requires cur < |level|
    decreases |level|
  {
    if |level| == 1 then []
    else
      SiblingOf(level, cur) + LevelPath(node, Reduce(node, level), cur / 2)
  }

  /** The sides derived from index parity and level width alone. */
  function LevelSides(width: nat, cur: nat): seq<Side>
    requires cur < width
    decreases width
  {
    if width == 1 then []
    else
      SideOf(width, cur) + LevelSides((width + 1) / 2, cur / 2)
  }

  /** The first element a level contributes: the sibling, if there is one. */
  function SiblingOf<T>(level: seq<T>, cur: nat): seq<T>
    requires cur < |level|
  {
    if Sibling(cur) < |level| then [level[Sibling(cur)]] else []
  }

  function SideOf(width: nat, cur: nat): seq<Side> {
    if Sibling(cur) < width then [if cur % 2 == 0 then Left else Right] else []
  }

  /** Index i sits under index up of the next level. */
  predicate Under(i: nat, up: nat) {
    i == 2 * up || i == 2 * up + 1
  }

  /** Cutting a level at an even position keeps every sibling relation. */
  lemma SiblingShift<T>(s: seq<T>, i: nat, half: nat)
    requires i < |s| && 2 * half < |s|
    ensures i < 2 * half ==> SiblingOf(s, i) == SiblingOf(s[..2 * half], i)
    ensures i >= 2 * half ==> SiblingOf(s, i) == SiblingOf(s[2 * half..], i - 2 * half)
  {
  }

  lemma {:induction false} RfcPathUnfold<T>(node: (T, T) -> T, s: seq<T>, i: nat, k: nat)
    requires i < |s| && |s| >= 2 && SplitPoint(|s|) == k
    ensures i < k ==> RfcPath(node, s, i) == RfcPath(node, s[..k], i) + [Mth(node, s[k..])]
    ensures i >= k ==> RfcPath(node, s, i) == RfcPath(node, s[k..], i - k) + [Mth(node, s[..k])]
  {
  }

  /** Peeling the lowest combination off the RFC path. */
  lemma {:induction false} RfcPathReduce<T>(node: (T, T) -> T, s: seq<T>, i: nat, up: nat)
    requires i < |s| && Under(i, up)
    ensures RfcPath(node, s, i) == SiblingOf(s, i) + RfcPath(node, Reduce(node, s), up)
    decreases |s|
  {
    hide RfcPath, Mth, Reduce, SiblingOf;
    if |s| <= 2 {
      RfcPathSmall(node, s, i);
    } else {
      var r := Reduce(node, s);
      var half := SplitHalves(|s|, |r|);
      SplitReduced(node, s, half);
      SiblingShift(s, i, half);
      RfcPathUnfold(node, s, i, 2 * half);
      RfcPathUnfold(node, r, up, half);
      if i < 2 * half {
        RfcPathReduce(node, s[..2 * half], i, up);
        MthReduce(node, s[2 * half..]);
      } else {
        RfcPathReduce(node, s[2 * half..], i - 2 * half, up - half);
        MthReduce(node, s[..2 * half]);
      }
    }
  }

  lemma RfcPathSmall<T>(node: (T, T) -> T, s: seq<T>, i: nat)
    requires i < |s| <= 2
    ensures RfcPath(node, s, i) == SiblingOf(s, i) == SiblingOf(s, i) + RfcPath(node, Reduce(node, s), 0)
  {
    if |s| == 2 {
      assert s[1..][0] == s[1];
    }
  }

  /** The level walk collects exactly the RFC 6962 audit path. */
  lemma {:induction false} LevelPathIsRfcPath<T>(node: (T, T) -> T, s: seq<T>, i: nat)
    requires i < |s|
    ensures LevelPath(node, s, i) == RfcPath(node, s, i)
    decreases |s|
  {
    if |s| > 1 {
      LevelPathIsRfcPath(node, Reduce(node, s), i / 2);
      RfcPathReduce(node, s, i, i / 2);
    }
  }

  lemma RfcSidesSmall(n: nat, i: nat)
    requires i < n <= 2
    ensures RfcSides(n, i) == SideOf(n, i) == SideOf(n, i) + RfcSides(1, 0)
  {
  }

  lemma {:induction false} RfcSidesUnfold(n: nat, i: nat, k: nat)
    requires i < n && n >= 2 && SplitPoint(n) == k
    ensures i < k ==> RfcSides(n, i) == RfcSides(k, i) + [Left]
    ensures i >= k ==> RfcSides(n, i) == RfcSides(n - k, i - k) + [Right]
  {
  }

  lemma {:induction false} RfcSidesReduce(n: nat, i: nat, m: nat, up: nat)
    requires i < n && Halves(n, m) && Under(i, up)
    ensures RfcSides(n, i) == SideOf(n, i) + RfcSides(m, up)
    decreases n
  {
    hide RfcSides;
    if n <= 2 {
      RfcSidesSmall(n, i);
    } else {
      var half := SplitHalves(n, m);
      RfcSidesUnfold(n, i, 2 * half);
      RfcSidesUnfold(m, up, half);
      if i < 2 * half {
        RfcSidesReduce(2 * half, i, half, up);
      } else {
        RfcSidesReduce(n - 2 * half, i - 2 * half, m - half, up - half);
      }
    }
  }

  lemma {:induction false} LevelSidesIsRfcSides(n: nat, i: nat)
    requires i < n
    ensures LevelSides(n, i) == RfcSides(n, i)
    decreases n
  {
    if n > 1 {
      LevelSidesIsRfcSides((n + 1) / 2, i / 2);
      RfcSidesReduce(n, i, (n + 1) / 2, i / 2);
    }
  }

  /** For a known width the sides determine the index. */
  lemma {:induction false} RfcSidesInjective(n: nat, i: nat, j: nat)
    requires i < n && j < n && RfcSides(n, i) == RfcSides(n, j)
    ensures i == j
    decreases n
  {
    if n > 1 {
      var k := SplitPoint(n);
      var a, b := RfcSides(n, i), RfcSides(n, j);
      assert a[|a| - 1] == b[|b| - 1];
      assert a[..|a| - 1] == b[..|b| - 1];
      if i < k {
        assert a[..|a| - 1] == RfcSides(k, i) && b[..|b| - 1] == RfcSides(k, j);
        RfcSidesInjective(k, i, j);
      } else {
        assert a[..|a| - 1] == RfcSides(n - k, i - k) && b[..|b| - 1] == RfcSides(n - k, j - k);
        RfcSidesInjective(n - k, i - k, j - k);
      }
    }
  }

  lemma {:induction false} RfcPathLength<T>(node: (T, T) -> T, s: seq<T>, i: nat)
    requires i < |s|
    ensures |RfcPath(node, s, i)| == |RfcSides(|s|, i)|
    decreases |s|
  {
    if |s| > 1 {
      var k := SplitPoint(|s|);
      if i < k {
        RfcPathLength(node, s[..k], i);
      } else {
        RfcPathLength(node, s[k..], i - k);
      }
    }
  }

  /** A tree of at most 2^e leaves has audit paths of at most e siblings. */
  lemma {:induction false} LevelSidesBound(n: nat, i: nat, e: nat)
    requires i < n <= Pow2(e)
    ensures |LevelSides(n, i)| <= e
    decreases e
  {
    if n > 1 {
      LevelSidesBound((n + 1) / 2, i / 2, e - 1);
    }
  }

  // -------------------------------------------------------------------- folding

  /** A node combined with its sibling on the given side. */
  function Combine<T>(node: (T, T) -> T, x: T, side: Side, sibling: T): T {
    if side == Left then node(x, sibling) else node(sibling, x)
  }

  /** Folding a path, bottom-up. */
  function FoldUp<T>(node: (T, T) -> T, x: T, sides: seq<Side>, path: seq<T>): T
    requires |sides| == |path|
    decreases |sides|
  {
    if |sides| == 0 then x
    else FoldUp(node, Combine(node, x, sides[0], path[0]), sides[1..], path[1..])
  }

  /** The same fold, seen from the root. */
  lemma {:induction false} FoldUpLast<T>(node: (T, T) -> T, x: T, sides: seq<Side>, path: seq<T>)
    requires |sides| == |path| > 0
    ensures var n := |sides| - 1;
            FoldUp(node, x, sides, path) ==
            Combine(node, FoldUp(node, x, sides[..n], path[..n]), sides[n], path[n])
    decreases |sides|
  {
    var n := |sides| - 1;
    if n > 0 {
      FoldUpLast(node, Combine(node, x, sides[0], path[0]), sides[1..], path[1..]);
      assert sides[1..][..n - 1] == sides[..n][1..];
      assert path[1..][..n - 1] == path[..n][1..];
    }
  }

  /** The audit path of a leaf folds to the tree hash. */
  lemma {:induction false} RfcPathFolds<T>(node: (T, T) -> T, s: seq<T>, i: nat)
    requires i < |s|
    ensures |RfcPath(node, s, i)| == |RfcSides(|s|, i)|
    ensures FoldUp(node, s[i], RfcSides(|s|, i), RfcPath(node, s, i)) == Mth(node, s)
    decreases |s|
  {
    RfcPathLength(node, s, i);
    if |s| > 1 {
      hide RfcPath, RfcSides, FoldUp;
      var k := SplitPoint(|s|);
      RfcSidesUnfold(|s|, i, k);
      RfcPathUnfold(node, s, i, k);
      if i < k {
        RfcPathFolds(node, s[..k], i);
        FoldUpSnoc(node, s[i], RfcSides(k, i), RfcPath(node, s[..k], i), Left, Mth(node, s[k..]));
      } else {
        RfcPathFolds(node, s[k..], i - k);
        FoldUpSnoc(node, s[i], RfcSides(|s| - k, i - k), RfcPath(node, s[k..], i - k), Right, Mth(node, s[..k]));
      }
    }
  }

  lemma {:induction false} FoldUpSnoc<T>(node: (T, T) -> T, x: T, sides: seq<Side>, path: seq<T>, side: Side, sib: T)
    requires |sides| == |path|
    ensures FoldUp(node, x, sides + [side], path + [sib]) ==
            Combine(node, FoldUp(node, x, sides, path), side, sib)
  {
    FoldUpLast(node, x, sides + [side], path + [sib]);
    assert (sides + [side])[..|sides|] == sides && (path + [sib])[..|path|] == path;
  }
}
