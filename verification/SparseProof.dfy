/** The sparse prover: proofs through trees of 2^depth slots without building
    them, measured against the complete zero-padded tree. */
module SparseProof {
  import opened Bits
  import opened Merkle
  import opened Results

  const MAX_DEPTH := 64

  /** A digest together with the number of hash_pair calls spent on it. */
  datatype Counted<+D> = Counted(value: D, hashes: nat)

  function HashPair<D>(H: (D, D) -> D, left: D, right: D): Counted<D>
  {
    Counted(H(left, right), 1)
  }

  /** The root of the tree of the given depth with no data. */
  function ZeroRoot<D>(H: (D, D) -> D, zero: D, depth: nat): D
  {
    Root(H, Complete(zero, [], 0, depth))
  }

  ghost predicate IsZeroTable<D>(H: (D, D) -> D, zero: D, zh: seq<D>)
  {
    |zh| == MAX_DEPTH + 1 && forall i :: 0 <= i <= MAX_DEPTH ==> zh[i] == ZeroRoot(H, zero, i)
  }

  lemma ZeroRootStep<D>(H: (D, D) -> D, zero: D, depth: nat)
    ensures ZeroRoot(H, zero, 0) == zero
    ensures ZeroRoot(H, zero, depth + 1) == H(ZeroRoot(H, zero, depth), ZeroRoot(H, zero, depth))
  {
    PastTheEnd(zero, [], Pow2(depth), depth);
  }

  method ZeroHashes<D>(H: (D, D) -> D, zero: D) returns (hashes: seq<D>)
    ensures IsZeroTable(H, zero, hashes)
  {
    hashes := seq(MAX_DEPTH + 1, _ => zero);
    ZeroRootStep(H, zero, 0);
    for i := 1 to MAX_DEPTH + 1
      invariant |hashes| == MAX_DEPTH + 1
      invariant forall j :: 0 <= j < i ==> hashes[j] == ZeroRoot(H, zero, j)
    {
      ZeroRootStep(H, zero, i - 1);
      hashes := hashes[i := H(hashes[i - 1], hashes[i - 1])];
    }
  }

  function GetLeaf<D>(leafChunks: seq<D>, index: nat, zero: D): D
  {
    if index < |leafChunks| then leafChunks[index] else zero
  }

  /** How many of the `size` slots from `start` hold data. */
  function Present(count: nat, start: nat, size: nat): (n: nat)
    ensures n <= size
  {
    if start >= count then 0 else if start + size <= count then size else count - start
  }

  function SumBelow(n: nat): nat
  {
    if n == 0 then 0 else SumBelow(n - 1) + (n - 1)
  }

  lemma {:induction false} SumBelowClosed(n: nat)
    ensures 2 * SumBelow(n + 1) == n * (n + 1)
  {
    if n > 0 {
      SumBelowClosed(n - 1);
    }
  }

  /** The root of the subtree covering 2^depth slots from `start`; zh supplies
      the roots of the empty subtrees, so a subtree with data costs at most its
      data plus its depth, and one without costs nothing. */
  function ComputeSubtreeRoot<D>(H: (D, D) -> D, leafChunks: seq<D>, start: nat, depth: nat,
                                 zero: D, zh: seq<D>): (r: Counted<D>)
    requires IsZeroTable(H, zero, zh) && depth <= MAX_DEPTH
    ensures r.value == Root(H, Complete(zero, Chunks(leafChunks), start, depth))
    ensures start >= |leafChunks| ==> r.hashes == 0
    ensures start < |leafChunks| ==>
      r.hashes + 1 <= Present(|leafChunks|, start, Pow2(depth)) + depth
    ensures start + Pow2(depth) <= |leafChunks| ==> r.hashes + 1 == Pow2(depth)
    decreases depth
  {
    if depth == 0 then Counted(GetLeaf(leafChunks, start, zero), 0)
    else if start >= |leafChunks| then
      PastTheEnd(zero, Chunks(leafChunks), start, depth);
      Counted(zh[depth], 0)
    else
      var half := Pow2(depth) / 2;
      var left := ComputeSubtreeRoot(H, leafChunks, start, depth - 1, zero, zh);
      var right := ComputeSubtreeRoot(H, leafChunks, start + half, depth - 1, zero, zh);
      var node := HashPair(H, left.value, right.value);
      Counted(node.value, left.hashes + right.hashes + node.hashes)
  }

  /** The zero-padded tree the prover works in. */
  function PaddedTree<D>(zero: D, leafChunks: seq<D>, depth: nat): Tree<D>
  {
    Complete(zero, Chunks(leafChunks), 0, depth)
  }

  lemma LeafOfPaddedTree<D>(zero: D, leafChunks: seq<D>, depth: nat, index: nat)
    requires index < Pow2(depth)
    ensures NodeAt(PaddedTree(zero, leafChunks, depth), Pow2(depth) + index)
         == Some(Chunk(GetLeaf(leafChunks, index, zero)))
  {
    LeafAt(zero, Chunks(leafChunks), depth, index);
  }

  /** Folding looks only at the low bits of the position. */
  lemma {:induction false} FoldIgnoresTopBit<D>(H: (D, D) -> D, leaf: D, proof: seq<D>, index: nat)
    ensures Fold(H, leaf, proof, index) == Fold(H, leaf, proof, Pow2(|proof|) + index)
    decreases |proof|
  {
    if proof != [] {
      assert (Pow2(|proof|) + index) / 2 == Pow2(|proof| - 1) + index / 2;
      FoldIgnoresTopBit(H, Combine(H, index, leaf, proof[0]), proof[1..], index / 2);
    }
  }

  /** A fold over all but the last node, then the last node. */
  lemma {:induction false} FoldLast<D>(H: (D, D) -> D, leaf: D, proof: seq<D>, n: nat, index: nat)
    requires n < |proof|
    ensures Fold(H, leaf, proof[..n + 1], index)
         == Combine(H, Shr(index, n), Fold(H, leaf, proof[..n], index), proof[n])
    decreases |proof|
  {
    var next := Combine(H, index, leaf, proof[0]);
    assert proof[..n + 1][1..] == proof[1..][..n];
    if n > 0 {
      assert proof[..n][1..] == proof[1..][..n - 1];
      FoldLast(H, next, proof[1..], n - 1, index / 2);
    }
  }

  /** Present slots of a range are those of its two halves. */
  lemma PresentSplits(count: nat, start: nat, size: nat)
    ensures Present(count, start, size) + Present(count, start + size, size)
         == Present(count, start, size + size)
  {
  }

  /** The proof, the root and their price. The proof is the complete tree's own
      branch, the root is the complete tree's root whatever the index, and the
      hash count excludes only the zero table. */
  method ProveAgainstLeafChunks<D>(H: (D, D) -> D, zero: D, leafChunks: seq<D>, index: nat, depth: nat)
    returns (proof: seq<D>, root: D, ghost hashes: nat)
    requires depth < 64 && index < Pow2(depth)
    ensures NodeAt(PaddedTree(zero, leafChunks, depth), Pow2(depth) + index).Some?
    ensures proof == Branch(H, PaddedTree(zero, leafChunks, depth), Pow2(depth) + index)
    ensures root == Root(H, PaddedTree(zero, leafChunks, depth))
    ensures |proof| == depth
    ensures 2 * hashes <= 2 * |leafChunks| + depth * (depth + 1)
  {
    hide Branch, NodeAt, Complete, Fold, Root, Shr, Shl, ComputeSubtreeRoot, ZeroRoot, GetLeaf, BitXor, IsZeroTable;
    var zh := ZeroHashes(H, zero);
    ghost var tree := PaddedTree(zero, leafChunks, depth);
    WholeBranch(H, zero, leafChunks, depth, index);
    proof := [];
    hashes := 0;
    var pos := index;
    for level := 0 to depth
      invariant |proof| == level
      invariant pos == Shr(index, level) && pos < Pow2(depth - level)
      invariant NodeAt(tree, Pow2(depth - level) + pos).Some?
      invariant Branch(H, tree, Pow2(depth) + index)
             == proof + Branch(H, tree, Pow2(depth - level) + pos)
      invariant hashes <= Present(|leafChunks|, Shl(pos, level), Pow2(level)) + SumBelow(level)
    {
      var siblingPos := BitXor(pos, 1);
      var subtreeSize := Pow2(level);
      var start := siblingPos * subtreeSize;
      var sibling := ComputeSubtreeRoot(H, leafChunks, start, level, zero, zh);
      BranchStep(H, zero, leafChunks, depth, level, pos);
      CostStep(|leafChunks|, level, pos, hashes, sibling.hashes);
      proof := proof + [sibling.value];
      hashes := hashes + sibling.hashes;
      ShrStep(index, level);
      pos := pos / 2;
    }

    ghost var foldHashes;
    root, foldHashes := FoldFromLeaf(H, GetLeaf(leafChunks, index, zero), proof, index);
    hashes := hashes + foldHashes;
    assert hashes <= |leafChunks| + SumBelow(depth + 1);
    SumBelowClosed(depth);
  }

  /** Where the climb starts and ends. */
  lemma WholeBranch<D>(H: (D, D) -> D, zero: D, leafChunks: seq<D>, depth: nat, index: nat)
    requires index < Pow2(depth)
    ensures var tree, g := PaddedTree(zero, leafChunks, depth), Pow2(depth) + index;
            && NodeAt(tree, g).Some?
            && Fold(H, GetLeaf(leafChunks, index, zero), Branch(H, tree, g), index) == Root(H, tree)
            && Branch(H, tree, 1) == []
    ensures Shr(index, 0) == index && Shl(index, 0) == index
  {
    var tree, g := PaddedTree(zero, leafChunks, depth), Pow2(depth) + index;
    hide Complete, Pow2, Fold;
    assert NodeAt(tree, 1) == Some(tree);
    assert Shr(index, 0) == index && Shl(index, 0) == index;
    hide Shr, Shl, NodeAt;
    LeafOfPaddedTree(zero, leafChunks, depth, index);
    BranchAccepted(H, tree, g);
    LogOfSlot(depth, index);
    BranchUnfold(H, tree, 1);
    hide Branch;
    FoldIgnoresTopBit(H, GetLeaf(leafChunks, index, zero), Branch(H, tree, g), index);
  }

  /** The prover's own root computation: hash upwards, choosing the side by the
      bit of the index at each level. */
  method FoldFromLeaf<D>(H: (D, D) -> D, leaf: D, proof: seq<D>, index: nat)
    returns (current: D, ghost hashes: nat)
    ensures current == Fold(H, leaf, proof, index)
    ensures hashes == |proof|
  {
    current := leaf;
    hashes := 0;
    for level := 0 to |proof|
      invariant current == Fold(H, leaf, proof[..level], index)
      invariant hashes == level
    {
      FoldLast(H, leaf, proof, level, index);
      var bit := Shr(index, level) % 2;
      var parent := if bit == 0 then HashPair(H, current, proof[level])
                    else HashPair(H, proof[level], current);
      current := parent.value;
      hashes := hashes + parent.hashes;
    }
    assert proof[..|proof|] == proof;
  }

  /** The node beside position pos at a level is the subtree the prover computes. */
  lemma SiblingSubtree<D>(zero: D, leafChunks: seq<D>, depth: nat, level: nat, pos: nat)
    requires level < depth && pos < Pow2(depth - level)
    ensures NodeAt(PaddedTree(zero, leafChunks, depth), Sibling(Pow2(depth - level) + pos))
         == Some(Complete(zero, Chunks(leafChunks), BitXor(pos, 1) * Pow2(level), level))
  {
    XorOne(pos);
    SiblingOfSlot(depth - level, pos);
    hide Pow2, BitXor, Complete, NodeAt, Shl;
    var s := BitXor(pos, 1);
    NodeAtComplete(zero, Chunks(leafChunks), 0, depth, depth - level, s);
    ShlIsTimes(s, level);
  }

  lemma BranchStep<D>(H: (D, D) -> D, zero: D, leafChunks: seq<D>, depth: nat, level: nat, pos: nat)
    requires level < depth && pos < Pow2(depth - level)
    ensures var tree, up := PaddedTree(zero, leafChunks, depth), Pow2(depth - level - 1) + pos / 2;
            && NodeAt(tree, Pow2(depth - level) + pos).Some?
            && NodeAt(tree, up).Some?
            && Branch(H, tree, Pow2(depth - level) + pos)
            == [Root(H, Complete(zero, Chunks(leafChunks), BitXor(pos, 1) * Pow2(level), level))]
               + Branch(H, tree, up)
  {
    var g := Pow2(depth - level) + pos;
    NodeAtComplete(zero, Chunks(leafChunks), 0, depth, depth - level, pos);
    SiblingSubtree(zero, leafChunks, depth, level, pos);
    assert g / 2 == Pow2(depth - level - 1) + pos / 2;
  }

  /** Moving up one level: the data under the parent is the data under the node
      and under its sibling, and the sibling costs at most its data plus level. */
  lemma CostStep(count: nat, level: nat, pos: nat, hashes: nat, siblingHashes: nat)
    requires hashes <= Present(count, Shl(pos, level), Pow2(level)) + SumBelow(level)
    requires var start := BitXor(pos, 1) * Pow2(level);
             if start >= count then siblingHashes == 0
             else siblingHashes + 1 <= Present(count, start, Pow2(level)) + level
    ensures hashes + siblingHashes
         <= Present(count, Shl(pos / 2, level + 1), Pow2(level + 1)) + SumBelow(level + 1)
  {
    XorOne(pos);
    ShlIsTimes(BitXor(pos, 1), level);
    ShlByParity(pos, level);
    ShlByParity(BitXor(pos, 1), level);
    PresentSplits(count, Shl(pos / 2, level + 1), Pow2(level));
  }
}
