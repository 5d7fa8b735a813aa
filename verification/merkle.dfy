/** The transaction Merkle root (consensus/bft/src/block.rs): a level-by-level loop that
    duplicates an odd last node, against a recursive tree. The hashes are parameters. */
module Merkle {

  function Pow2(d: nat): (p: nat)
    ensures p >= 1
  {
    if d == 0 then 1 else 2 * Pow2(d - 1)
  }

  // ---------- the reference: a perfect binary tree, filled from the left ----------

  /** The hash of the depth-`d` tree over `hs`; a missing right half repeats the left one. */
  function TreeHash<H>(hs: seq<H>, d: nat, node: (H, H) -> H): H
    requires 1 <= |hs| <= Pow2(d)
  {
    if d == 0 then hs[0]
    else
      var half := Pow2(d - 1);
      if |hs| <= half then
        var left := TreeHash(hs, d - 1, node);
        node(left, left)
      else
        node(TreeHash(hs[..half], d - 1, node), TreeHash(hs[half..], d - 1, node))
  }

  /** The least depth whose tree holds `n` leaves. */
  function Depth(n: nat): (d: nat)
    requires n >= 1
    ensures n <= Pow2(d)
    ensures d > 0 ==> Pow2(d - 1) < n
  {
    if n == 1 then 0 else Depth((n + 1) / 2) + 1
  }

  function TreeRoot<H>(hs: seq<H>, node: (H, H) -> H): H
    requires hs != []
  {
    TreeHash(hs, Depth(|hs|), node)
  }

  function Leaves<T, H>(txs: seq<T>, leaf: T -> H): seq<H> { seq(|txs|, i requires 0 <= i < |txs| => leaf(txs[i])) }

  /** The root the chain commits to; an empty list has the all-zero root. */
  function Root<T, H>(txs: seq<T>, leaf: T -> H, node: (H, H) -> H, zero: H): H {
    if txs == [] then zero else TreeRoot(Leaves(txs, leaf), node)
  }

  // ---------- the loop ----------

  /** One pass over `chunks(2)`. */
  function NextLevel<H>(hs: seq<H>, node: (H, H) -> H): (next: seq<H>)
    ensures |next| == (|hs| + 1) / 2
  {
    if |hs| == 0 then []
    else if |hs| == 1 then [node(hs[0], hs[0])]
    else [node(hs[0], hs[1])] + NextLevel(hs[2..], node)
  }

  lemma {:induction false} NextLevelSplit<H>(a: seq<H>, b: seq<H>, node: (H, H) -> H)
    requires |a| % 2 == 0
    ensures NextLevel(a + b, node) == NextLevel(a, node) + NextLevel(b, node)
  {
    if a == [] {
      assert a + b == b;
    } else {
      var first := [node(a[0], a[1])];
      assert (a + b)[2..] == a[2..] + b && (a + b)[0] == a[0] && (a + b)[1] == a[1];
      assert NextLevel(a + b, node) == first + NextLevel(a[2..] + b, node);
      NextLevelSplit(a[2..], b, node);
    }
  }

  /** Hashing one level up leaves the tree's hash as it was, one level shallower. */
  ghost predicate LevelKept<H>(hs: seq<H>, d: nat, node: (H, H) -> H)
    requires 1 <= |hs| <= Pow2(d + 1)
  {
    TreeHash(NextLevel(hs, node), d, node) == TreeHash(hs, d + 1, node)
  }

  lemma {:induction false} LevelJoin<H>(a: seq<H>, b: seq<H>, d: nat, node: (H, H) -> H)
    requires |a| == Pow2(d + 1) && 1 <= |b| <= Pow2(d + 1) && LevelKept(a, d, node) && LevelKept(b, d, node)
    ensures LevelKept(a + b, d + 1, node)
  {
    SplitTree(a, b, d + 2, node);
    TreeSplit(a, b, d + 1, node);
  }

  lemma {:induction false} LevelRepeat<H>(hs: seq<H>, d: nat, node: (H, H) -> H)
    requires 1 <= |hs| <= Pow2(d + 1) && LevelKept(hs, d, node)
    ensures LevelKept(hs, d + 1, node)
  {
  }

  lemma {:induction false} LevelKeepsTree<H>(hs: seq<H>, d: nat, node: (H, H) -> H)
    requires 1 <= |hs| <= Pow2(d + 1)
    ensures LevelKept(hs, d, node)
    decreases d
  {
    if d == 0 {
      PairTree(hs, node);
    } else if |hs| <= Pow2(d) {
      LevelKeepsTree(hs, d - 1, node);
      LevelRepeat(hs, d - 1, node);
    } else {
      var a, b := hs[..Pow2(d)], hs[Pow2(d)..];
      LevelKeepsTree(a, d - 1, node);
      LevelKeepsTree(b, d - 1, node);
      LevelJoin(a, b, d - 1, node);
      assert hs == a + b;
    }
  }

  lemma {:induction false} LevelKeepsRoot<H>(hs: seq<H>, node: (H, H) -> H)
    requires |hs| >= 2
    ensures TreeRoot(NextLevel(hs, node), node) == TreeRoot(hs, node)
  {
    LevelKeepsTree(hs, Depth(|hs|) - 1, node);
  }

  /** A full left half and a non-empty right half hash to one node. */
  lemma {:induction false} TreeSplit<H>(a: seq<H>, b: seq<H>, d: nat, node: (H, H) -> H)
    requires |a| == Pow2(d) && 1 <= |b| <= Pow2(d)
    ensures TreeHash(a + b, d + 1, node) == node(TreeHash(a, d, node), TreeHash(b, d, node))
  {
    assert (a + b)[..|a|] == a && (a + b)[|a|..] == b;
  }

  lemma {:induction false} PairTree<H>(hs: seq<H>, node: (H, H) -> H)
    requires 1 <= |hs| <= 2
    ensures Pow2(0) == 1 && Pow2(1) == 2
    ensures TreeHash(NextLevel(hs, node), 0, node) == TreeHash(hs, 1, node)
  {
    if |hs| == 2 {
      assert hs[2..] == [] && hs[..1] == [hs[0]] && hs[1..] == [hs[1]];
    }
  }

  lemma {:induction false} SplitTree<H>(a: seq<H>, b: seq<H>, d: nat, node: (H, H) -> H)
    requires d >= 2 && |a| == Pow2(d - 1) && 1 <= |b| <= Pow2(d - 1)
    ensures TreeHash(NextLevel(a + b, node), d - 1, node)
            == node(TreeHash(NextLevel(a, node), d - 2, node), TreeHash(NextLevel(b, node), d - 2, node))
  {
    assert Pow2(d - 1) == 2 * Pow2(d - 2);
    NextLevelSplit(a, b, node);
    TreeSplit(NextLevel(a, node), NextLevel(b, node), d - 2, node);
  }

  ghost function From<H>(hs: seq<H>, i: nat): seq<H> { if i <= |hs| then hs[i..] else [] }

  lemma {:induction false} PairStep<H>(hs: seq<H>, i: nat, node: (H, H) -> H)
    requires i < |hs|
    ensures NextLevel(From(hs, i), node)
            == [node(hs[i], if i + 1 < |hs| then hs[i + 1] else hs[i])] + NextLevel(From(hs, i + 2), node)
  {
    if i + 1 < |hs| {
      assert hs[i..][2..] == hs[i + 2..];
    } else {
      assert hs[i..] == [hs[i]];
    }
  }

  /** The inner loop of `compute_tx_merkle_root`. */
  method HashPairs<H>(hs: seq<H>, node: (H, H) -> H) returns (next: seq<H>)
    ensures next == NextLevel(hs, node)
  {
    next := [];
    var i := 0;
    while i < |hs|
      invariant next + NextLevel(From(hs, i), node) == NextLevel(hs, node)
    {
      PairStep(hs, i, node);
      if i + 1 < |hs| {
        next := next + [node(hs[i], hs[i + 1])];
      } else {
        next := next + [node(hs[i], hs[i])];
      }
      i := i + 2;
    }
  }

  /** `compute_tx_merkle_root` ends, and computes the recursive tree's root. */
  method ComputeTxMerkleRoot<T, H>(txs: seq<T>, leaf: T -> H, node: (H, H) -> H, zero: H) returns (root: H)
    ensures root == Root(txs, leaf, node, zero)
  {
    if |txs| == 0 {
      return zero;
    }
    var leaves := Leaves(txs, leaf);
    while |leaves| > 1
      invariant |leaves| >= 1 && TreeRoot(leaves, node) == Root(txs, leaf, node, zero)
      decreases |leaves|
    {
      LevelKeepsRoot(leaves, node);
      leaves := HashPairs(leaves, node);
    }
    return leaves[0];
  }

  // ---------- binding ----------

  ghost predicate InjectiveLeaf<T(!new), H>(leaf: T -> H) { forall x, y :: leaf(x) == leaf(y) ==> x == y }

  ghost predicate InjectiveNode<H(!new)>(node: (H, H) -> H) {
    forall a, b, c, d :: node(a, b) == node(c, d) ==> a == c && b == d
  }

  lemma {:induction false} TreeBinds<H(!new)>(hs: seq<H>, ks: seq<H>, d: nat, node: (H, H) -> H)
    requires InjectiveNode(node)
    requires 1 <= |hs| <= Pow2(d) && |ks| == |hs|
    requires TreeHash(hs, d, node) == TreeHash(ks, d, node)
    ensures hs == ks
    decreases d
  {
    if d > 0 {
      var half := Pow2(d - 1);
      if |hs| <= half {
        TreeBinds(hs, ks, d - 1, node);
      } else {
        TreeBinds(hs[..half], ks[..half], d - 1, node);
        TreeBinds(hs[half..], ks[half..], d - 1, node);
        assert hs == hs[..half] + hs[half..] && ks == ks[..half] + ks[half..];
      }
    }
  }

  /** Two transaction lists of equal length with the same root are the same list. */
  lemma {:induction false} RootBinds<T(!new), H(!new)>(xs: seq<T>, ys: seq<T>, leaf: T -> H, node: (H, H) -> H, zero: H)
    requires InjectiveLeaf(leaf) && InjectiveNode(node)
    requires |xs| == |ys| && Root(xs, leaf, node, zero) == Root(ys, leaf, node, zero)
    ensures xs == ys
  {
    if xs != [] {
      TreeBinds(Leaves(xs, leaf), Leaves(ys, leaf), Depth(|xs|), node);
      forall i | 0 <= i < |xs|
        ensures xs[i] == ys[i]
      {
        assert Leaves(xs, leaf)[i] == Leaves(ys, leaf)[i];
      }
    }
  }

  // ---------- lists of different lengths ----------

  /** The leaves the tree really has: every missing right half filled with a copy of the left. */
  function Padded<T>(xs: seq<T>, d: nat): (p: seq<T>)
    requires 1 <= |xs| <= Pow2(d)
    ensures |p| == Pow2(d)
  {
    if d == 0 then xs
    else
      var half := Pow2(d - 1);
      if |xs| <= half then Padded(xs, d - 1) + Padded(xs, d - 1)
      else Padded(xs[..half], d - 1) + Padded(xs[half..], d - 1)
  }

  function PaddedList<T>(xs: seq<T>): seq<T> { if xs == [] then [] else Padded(xs, Depth(|xs|)) }

  lemma PaddedHalves<T>(a: seq<T>, b: seq<T>, d: nat)
    requires |a| == Pow2(d) && 1 <= |b| <= Pow2(d)
    ensures Padded(a + b, d + 1) == Padded(a, d) + Padded(b, d)
  {
    assert (a + b)[..|a|] == a && (a + b)[|a|..] == b;
  }

  lemma LeavesConcat<T, H>(a: seq<T>, b: seq<T>, leaf: T -> H)
    ensures Leaves(a + b, leaf) == Leaves(a, leaf) + Leaves(b, leaf)
  {
  }

  /** Padding leaves the tree's hash as it was. */
  ghost predicate PaddingKept<T, H>(xs: seq<T>, d: nat, leaf: T -> H, node: (H, H) -> H)
    requires 1 <= |xs| <= Pow2(d)
  {
    TreeHash(Leaves(Padded(xs, d), leaf), d, node) == TreeHash(Leaves(xs, leaf), d, node)
  }

  lemma PaddedJoin<T, H>(a: seq<T>, b: seq<T>, d: nat, leaf: T -> H, node: (H, H) -> H)
    requires |a| == Pow2(d) && 1 <= |b| <= Pow2(d)
    requires PaddingKept(a, d, leaf, node) && PaddingKept(b, d, leaf, node)
    ensures PaddingKept(a + b, d + 1, leaf, node)
  {
    PaddedHalves(a, b, d);
    LeavesConcat(a, b, leaf);
    LeavesConcat(Padded(a, d), Padded(b, d), leaf);
    TreeSplit(Leaves(a, leaf), Leaves(b, leaf), d, node);
    TreeSplit(Leaves(Padded(a, d), leaf), Leaves(Padded(b, d), leaf), d, node);
  }

  lemma PaddedRepeat<T, H>(xs: seq<T>, d: nat, leaf: T -> H, node: (H, H) -> H)
    requires 1 <= |xs| <= Pow2(d)
    requires PaddingKept(xs, d, leaf, node)
    ensures PaddingKept(xs, d + 1, leaf, node)
  {
    LeavesConcat(Padded(xs, d), Padded(xs, d), leaf);
    TreeSplit(Leaves(Padded(xs, d), leaf), Leaves(Padded(xs, d), leaf), d, node);
  }

  lemma {:induction false} PaddingKeepsTree<T, H>(xs: seq<T>, d: nat, leaf: T -> H, node: (H, H) -> H)
    requires 1 <= |xs| <= Pow2(d)
    ensures PaddingKept(xs, d, leaf, node)
    decreases d
  {
    if d > 0 {
      var half := Pow2(d - 1);
      if |xs| <= half {
        PaddingKeepsTree(xs, d - 1, leaf, node);
        PaddedRepeat(xs, d - 1, leaf, node);
      } else {
        var a, b := xs[..half], xs[half..];
        PaddingKeepsTree(a, d - 1, leaf, node);
        PaddingKeepsTree(b, d - 1, leaf, node);
        PaddedJoin(a, b, d - 1, leaf, node);
        assert xs == a + b;
      }
    }
  }

  /** Leaf hashes, node hashes and the zero root are told apart. */
  ghost predicate Separated<T(!new), H(!new)>(leaf: T -> H, node: (H, H) -> H, zero: H) {
    && (forall x, a, b :: leaf(x) != node(a, b))
    && (forall x :: leaf(x) != zero)
    && (forall a, b :: node(a, b) != zero)
  }

  lemma {:induction false} DepthFromRoot<T(!new), H(!new)>(
    xs: seq<T>, d: nat, ys: seq<T>, e: nat, leaf: T -> H, node: (H, H) -> H, zero: H)
    requires InjectiveNode(node) && Separated(leaf, node, zero)
    requires 1 <= |xs| <= Pow2(d) && 1 <= |ys| <= Pow2(e)
    requires TreeHash(Leaves(xs, leaf), d, node) == TreeHash(Leaves(ys, leaf), e, node)
    ensures d == e
    decreases d
  {
    if d > 0 && e > 0 {
      var x := if |xs| <= Pow2(d - 1) then xs else xs[..Pow2(d - 1)];
      var y := if |ys| <= Pow2(e - 1) then ys else ys[..Pow2(e - 1)];
      assert Leaves(x, leaf) == Leaves(xs, leaf)[..|x|] && Leaves(y, leaf) == Leaves(ys, leaf)[..|y|];
      assert |x| == |xs| ==> x == xs;
      assert |y| == |ys| ==> y == ys;
      DepthFromRoot(x, d - 1, y, e - 1, leaf, node, zero);
    }
  }

  /** Exactly which lists share a root: those that pad to the same leaves. */
  lemma {:induction false} RootsEqualIff<T(!new), H(!new)>(xs: seq<T>, ys: seq<T>, leaf: T -> H, node: (H, H) -> H, zero: H)
    requires InjectiveLeaf(leaf) && InjectiveNode(node) && Separated(leaf, node, zero)
    ensures Root(xs, leaf, node, zero) == Root(ys, leaf, node, zero) <==> PaddedList(xs) == PaddedList(ys)
  {
    if xs != [] && ys != [] {
      var d, e := Depth(|xs|), Depth(|ys|);
      var p, q := Padded(xs, d), Padded(ys, e);
      PaddingKeepsTree(xs, d, leaf, node);
      PaddingKeepsTree(ys, e, leaf, node);
      if Root(xs, leaf, node, zero) == Root(ys, leaf, node, zero) {
        DepthFromRoot(xs, d, ys, e, leaf, node, zero);
        TreeBinds(Leaves(p, leaf), Leaves(q, leaf), d, node);
        assert forall i :: 0 <= i < |p| ==> leaf(p[i]) == Leaves(p, leaf)[i] == Leaves(q, leaf)[i] == leaf(q[i]);
      }
      if p == q {
        SamePow2(d, e);
      }
    } else if xs != [] {
      RootIsNotZero(xs, Depth(|xs|), leaf, node, zero);
    } else if ys != [] {
      RootIsNotZero(ys, Depth(|ys|), leaf, node, zero);
    }
  }

  lemma SamePow2(d: nat, e: nat)
    requires Pow2(d) == Pow2(e)
    ensures d == e
  {
  }

  lemma {:induction false} RootIsNotZero<T(!new), H(!new)>(xs: seq<T>, d: nat, leaf: T -> H, node: (H, H) -> H, zero: H)
    requires Separated(leaf, node, zero) && 1 <= |xs| <= Pow2(d)
    ensures TreeHash(Leaves(xs, leaf), d, node) != zero
  {
  }

  lemma {:induction false} SameLevelSameTree<H>(hs: seq<H>, ks: seq<H>, d: nat, node: (H, H) -> H)
    requires 1 <= |hs| <= Pow2(d + 1) && 1 <= |ks| <= Pow2(d + 1) && NextLevel(hs, node) == NextLevel(ks, node)
    ensures TreeHash(hs, d + 1, node) == TreeHash(ks, d + 1, node)
  {
    LevelKeepsTree(hs, d, node);
    LevelKeepsTree(ks, d, node);
  }

  lemma {:induction false} RepeatedLastLevel<H>(hs: seq<H>, last: H, node: (H, H) -> H)
    requires |hs| % 2 == 0
    ensures NextLevel(hs + [last], node) == NextLevel(hs + [last, last], node)
  {
    NextLevelSplit(hs, [last], node);
    NextLevelSplit(hs, [last, last], node);
    assert NextLevel([last, last], node) == [node(last, last)] == NextLevel([last], node);
  }

  lemma {:induction false} DepthOfOdd(n: nat)
    requires n >= 3 && n % 2 == 1
    ensures Depth(n) == Depth(n + 1) >= 1 && n + 1 <= Pow2(Depth(n))
  {
    assert Depth(n) == Depth((n + 1) / 2) + 1 == Depth(n + 1);
  }

  lemma {:induction false} RepeatedLastRoot<H>(hs: seq<H>, last: H, node: (H, H) -> H)
    requires |hs| >= 2 && |hs| % 2 == 0
    ensures TreeRoot(hs + [last], node) == TreeRoot(hs + [last, last], node)
  {
    DepthOfOdd(|hs| + 1);
    RepeatedLastLevel(hs, last, node);
    SameLevelSameTree(hs + [last], hs + [last, last], Depth(|hs| + 1) - 1, node);
  }

  /** The root does not bind the length: repeating the last of an odd number of transactions
      changes nothing. */
  lemma {:induction false} RepeatedLastCollides<T, H>(xs: seq<T>, leaf: T -> H, node: (H, H) -> H, zero: H)
    requires |xs| >= 3 && |xs| % 2 == 1
    ensures Root(xs + [xs[|xs| - 1]], leaf, node, zero) == Root(xs, leaf, node, zero)
  {
    var ys := xs + [xs[|xs| - 1]];
    var hs, last := Leaves(xs[..|xs| - 1], leaf), leaf(xs[|xs| - 1]);
    RepeatedLastRoot(hs, last, node);
    assert Leaves(xs, leaf) == hs + [last] && Leaves(ys, leaf) == hs + [last, last];
  }

  /** Left before right, and an odd one out beside itself. */
  lemma SmallRoots<T, H>(x: T, y: T, z: T, leaf: T -> H, node: (H, H) -> H, zero: H)
    ensures Root([], leaf, node, zero) == zero
    ensures Root([x], leaf, node, zero) == leaf(x)
    ensures Root([x, y], leaf, node, zero) == node(leaf(x), leaf(y))
    ensures Root([x, y, z], leaf, node, zero) == node(node(leaf(x), leaf(y)), node(leaf(z), leaf(z)))
  {
    var a, b, c := leaf(x), leaf(y), leaf(z);
    assert Leaves([x], leaf) == [a] && Leaves([x, y], leaf) == [a, b] && Leaves([x, y, z], leaf) == [a, b, c];
    SmallTrees(a, b, c, node);
  }

  lemma SmallTrees<H>(a: H, b: H, c: H, node: (H, H) -> H)
    ensures TreeRoot([a], node) == a && TreeRoot([a, b], node) == node(a, b)
    ensures TreeRoot([a, b, c], node) == node(node(a, b), node(c, c))
  {
    assert Pow2(0) == 1 && Pow2(1) == 2 && Pow2(2) == 4;
    assert Depth(1) == 0 && Depth(2) == 1 && Depth(3) == 2;
    assert [a, b][..1] == [a] && [a, b][1..] == [b];
    assert [a, b, c][..2] == [a, b] && [a, b, c][2..] == [c];
    assert TreeHash([a, b], 1, node) == node(a, b);
    assert TreeHash([c], 1, node) == node(c, c);
  }
}
