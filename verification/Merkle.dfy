/** Binary Merkle trees addressed by generalized indices, over any digest type
    and any pair hash: the reference every prover and verifier is measured
    against. */
module Merkle {
  import opened Bits
  import opened Results

  /** A chunk is raw leaf data; a sealed node is a digest whose preimage the
      model does not look into; everything else is a pair of subtrees. */
  datatype Tree<+D> =
    | Chunk(value: D)
    | Sealed(digest: D)
    | Node(left: Tree<D>, right: Tree<D>)

  function Root<D>(H: (D, D) -> D, t: Tree<D>): D
  {
    match t
    case Chunk(value) => value
    case Sealed(digest) => digest
    case Node(left, right) => H(Root(H, left), Root(H, right))
  }

  function Child<D>(t: Tree<D>, g: nat): Option<Tree<D>>
  {
    match t
    case Node(left, right) => Some(if g % 2 == 0 then left else right)
    case _ => None
  }

  /** The subtree at generalized index g: 1 is the root, 2g and 2g + 1 are the
      children of g. */
  function NodeAt<D>(t: Tree<D>, g: nat): Option<Tree<D>>
    requires g >= 1
  {
    if g == 1 then Some(t)
    else match NodeAt(t, g / 2)
      case None => None
      case Some(parent) => Child(parent, g)
  }

  function Sibling(g: nat): nat
    requires g >= 2
  {
    if g % 2 == 0 then g + 1 else g - 1
  }

  /** The deepest subtree that exists on the way from the root to g. */
  function Reached<D>(t: Tree<D>, g: nat): Tree<D>
    requires g >= 1
  {
    match NodeAt(t, g)
    case Some(node) => node
    case None => if g == 1 then t else Reached(t, g / 2)
  }

  /** The roots of the siblings of g and of its ancestors, deepest first. */
  function Branch<D>(H: (D, D) -> D, t: Tree<D>, g: nat): seq<D>
    requires g >= 1 && NodeAt(t, g).Some?
  {
    if g == 1 then []
    else [Root(H, NodeAt(t, Sibling(g)).value)] + Branch(H, t, g / 2)
  }

  /** The parent's value, from a node at g and its sibling. */
  function Combine<D>(H: (D, D) -> D, g: nat, node: D, sibling: D): D
  {
    if g % 2 == 0 then H(node, sibling) else H(sibling, node)
  }

  function Fold<D>(H: (D, D) -> D, leaf: D, proof: seq<D>, g: nat): D
    decreases |proof|
  {
    if proof == [] then leaf
    else Fold(H, Combine(H, g, leaf, proof[0]), proof[1..], g / 2)
  }

  /** What it means for a proof to be accepted: no loop, no shifts, only the
      length and the folded value. */
  predicate Accepted<D(==)>(H: (D, D) -> D, root: D, leaf: D, proof: seq<D>, g: nat)
  {
    g >= 1 && |proof| == FloorLog2(g) && Fold(H, leaf, proof, g) == root
  }

  // ----- every node has an accepted proof

  lemma {:induction false} BranchLength<D>(H: (D, D) -> D, t: Tree<D>, g: nat)
    requires g >= 1 && NodeAt(t, g).Some?
    ensures |Branch(H, t, g)| == FloorLog2(g)
  {
    if g > 1 {
      BranchLength(H, t, g / 2);
    }
  }

  lemma {:induction false} BranchFolds<D>(H: (D, D) -> D, t: Tree<D>, g: nat)
    requires g >= 1 && NodeAt(t, g).Some?
    ensures Fold(H, Root(H, NodeAt(t, g).value), Branch(H, t, g), g) == Root(H, t)
  {
    if g > 1 {
      var branch := Branch(H, t, g);
      assert Sibling(g) / 2 == g / 2;
      assert branch[1..] == Branch(H, t, g / 2);
      BranchFolds(H, t, g / 2);
    }
  }

  /** Completeness, for every tree, position and hash. */
  lemma {:induction false} BranchAccepted<D>(H: (D, D) -> D, t: Tree<D>, g: nat)
    requires g >= 1 && NodeAt(t, g).Some?
    ensures Accepted(H, Root(H, t), Root(H, NodeAt(t, g).value), Branch(H, t, g), g)
  {
    BranchLength(H, t, g);
    BranchFolds(H, t, g);
  }

  // ----- composition of positions

  /** Position g2 inside the subtree at g1. */
  function Concat(g1: nat, g2: nat): (g: nat)
    requires g1 >= 1 && g2 >= 1
    ensures g >= g1 && g >= g2
    decreases g2
  {
    if g2 == 1 then g1 else 2 * Concat(g1, g2 / 2) + g2 % 2
  }

  lemma {:induction false} ConcatIsShiftPlusRest(g1: nat, g2: nat, d: nat)
    requires g1 >= 1 && g2 >= 1 && FloorLog2(g2) == d
    ensures Concat(g1, g2) == Shl(g1, d) + (g2 - Pow2(d))
  {
    if g2 > 1 {
      ConcatIsShiftPlusRest(g1, g2 / 2, d - 1);
    }
  }

  /** A slot of a depth-d tree, from outside the tree. */
  lemma ConcatSlot(g: nat, d: nat, low: nat)
    requires g >= 1 && low < Pow2(d)
    ensures Concat(g, Pow2(d) + low) == Shl(g, d) + low
  {
    LogOfSlot(d, low);
    ConcatIsShiftPlusRest(g, Pow2(d) + low, d);
  }

  lemma {:induction false} ConcatDepth(g1: nat, g2: nat)
    requires g1 >= 1 && g2 >= 1
    ensures FloorLog2(Concat(g1, g2)) == FloorLog2(g1) + FloorLog2(g2)
    decreases g2
  {
    if g2 > 1 {
      ConcatDepth(g1, g2 / 2);
      assert Concat(g1, g2) > 1 && Concat(g1, g2) / 2 == Concat(g1, g2 / 2);
      hide Concat;
    }
  }

  lemma {:induction false} ConcatAssociates(g1: nat, g2: nat, g3: nat)
    requires g1 >= 1 && g2 >= 1 && g3 >= 1
    ensures Concat(Concat(g1, g2), g3) == Concat(g1, Concat(g2, g3))
    decreases g3
  {
    if g3 > 1 {
      ConcatAssociates(g1, g2, g3 / 2);
      assert Concat(g2, g3) / 2 == Concat(g2, g3 / 2);
    }
  }

  /** Composition: folding p1 ++ p2 at the concatenated position is folding p1
      at g1 and then p2 at g2. */
  lemma {:induction false} FoldComposes<D>(H: (D, D) -> D, leaf: D,
                                           inner: seq<D>, gInner: nat,
                                           outer: seq<D>, gOuter: nat)
    requires gInner >= 1 && gOuter >= 1 && |inner| == FloorLog2(gInner)
    ensures Fold(H, leaf, inner + outer, Concat(gOuter, gInner))
         == Fold(H, Fold(H, leaf, inner, gInner), outer, gOuter)
    decreases gInner
  {
    if gInner == 1 {
      assert inner + outer == outer;
    } else {
      var g := Concat(gOuter, gInner);
      assert g / 2 == Concat(gOuter, gInner / 2) && g % 2 == gInner % 2;
      assert (inner + outer)[1..] == inner[1..] + outer;
      FoldComposes(H, Combine(H, gInner, leaf, inner[0]), inner[1..], gInner / 2, outer, gOuter);
    }
  }

  lemma {:induction false} NodeAtConcat<D>(t: Tree<D>, g1: nat, g2: nat)
    requires g1 >= 1 && g2 >= 1 && NodeAt(t, g1).Some?
    ensures NodeAt(t, Concat(g1, g2)) == NodeAt(NodeAt(t, g1).value, g2)
    decreases g2
  {
    if g2 > 1 {
      NodeAtConcat(t, g1, g2 / 2);
    }
  }

  lemma {:induction false} BranchConcat<D>(H: (D, D) -> D, t: Tree<D>, g1: nat, g2: nat)
    requires g1 >= 1 && g2 >= 1
    requires NodeAt(t, g1).Some? && NodeAt(NodeAt(t, g1).value, g2).Some?
    ensures NodeAt(t, Concat(g1, g2)) == NodeAt(NodeAt(t, g1).value, g2)
    ensures Branch(H, t, Concat(g1, g2)) == Branch(H, NodeAt(t, g1).value, g2) + Branch(H, t, g1)
    decreases g2
  {
    NodeAtConcat(t, g1, g2);
    var inner := NodeAt(t, g1).value;
    if g2 > 1 {
      BranchConcat(H, t, g1, g2 / 2);
      var g, s := Concat(g1, g2), Sibling(g2);
      assert g / 2 == Concat(g1, g2 / 2);
      assert s / 2 == g2 / 2 && Sibling(g) == Concat(g1, s);
      NodeAtConcat(t, g1, s);
      assert NodeAt(t, Sibling(g)) == NodeAt(inner, s);
    }
  }

  // ----- nothing lies below a leaf

  lemma {:induction false} NothingBelowLeaf<D>(t: Tree<D>, g1: nat, g2: nat)
    requires g1 >= 1 && g2 >= 2 && NodeAt(t, g1).Some? && !NodeAt(t, g1).value.Node?
    ensures NodeAt(t, Concat(g1, g2)).None?
    ensures Reached(t, Concat(g1, g2)) == NodeAt(t, g1).value
    decreases g2
  {
    if g2 / 2 > 1 {
      NothingBelowLeaf(t, g1, g2 / 2);
    } else {
      assert Concat(g1, 1) == g1;
    }
  }

  lemma NothingBelowLeafAbove<D>(t: Tree<D>, g: nat, m: nat)
    requires m >= 1 && Shr(g, m) >= 1
    requires NodeAt(t, Shr(g, m)).Some? && !NodeAt(t, Shr(g, m)).value.Node?
    ensures g >= 1 && NodeAt(t, g).None? && Reached(t, g) == NodeAt(t, Shr(g, m)).value
  {
    hide NodeAt, Reached, Concat, Shl, LowBits;
    SplitAt(g, m);
    ConcatSlot(Shr(g, m), m, LowBits(g, m));
    Pow2Monotone(1, m);
    NothingBelowLeaf(t, Shr(g, m), Pow2(m) + LowBits(g, m));
  }

  // ----- complete trees

  /** The subtree of 2^depth leaf slots whose first slot is `start`; slots past
      the end of `leaves` hold the zero chunk. */
  function Complete<D>(zero: D, leaves: seq<Tree<D>>, start: nat, depth: nat): Tree<D>
    decreases depth, leaves
  {
    if depth == 0 then (if start < |leaves| then leaves[start] else Chunk(zero))
    else Node(Complete(zero, leaves, start, depth - 1),
              Complete(zero, leaves, start + Pow2(depth - 1), depth - 1))
  }

  function Chunks<D>(values: seq<D>): (r: seq<Tree<D>>)
    ensures |r| == |values| && forall i :: 0 <= i < |values| ==> r[i] == Chunk(values[i])
  {
    seq(|values|, i requires 0 <= i < |values| => Chunk(values[i]))
  }

  /** The subtree at level `level` and position p of a complete tree. */
  lemma {:induction false} NodeAtComplete<D>(zero: D, leaves: seq<Tree<D>>, start: nat,
                                             depth: nat, level: nat, p: nat)
    requires level <= depth && p < Pow2(level)
    ensures NodeAt(Complete(zero, leaves, start, depth), Pow2(level) + p)
         == Some(Complete(zero, leaves, start + Shl(p, depth - level), depth - level))
    decreases level
  {
    if level > 0 {
      NodeAtComplete(zero, leaves, start, depth, level - 1, p / 2);
      assert (Pow2(level) + p) / 2 == Pow2(level - 1) + p / 2;
      ShlByParity(p, depth - level);
    } else {
      ShlIsTimes(0, depth);
    }
  }

  lemma {:induction false} LeafAt<D>(zero: D, leaves: seq<Tree<D>>, depth: nat, index: nat)
    requires index < Pow2(depth)
    ensures NodeAt(Complete(zero, leaves, 0, depth), Pow2(depth) + index)
         == Some(if index < |leaves| then leaves[index] else Chunk(zero))
  {
    NodeAtComplete(zero, leaves, 0, depth, depth, index);
  }

  /** Past the data, a subtree is the all-zero tree. */
  lemma {:induction false} PastTheEnd<D>(zero: D, leaves: seq<Tree<D>>, start: nat, depth: nat)
    requires |leaves| <= start
    ensures Complete(zero, leaves, start, depth) == Complete(zero, [], 0, depth)
    decreases depth
  {
    if depth > 0 {
      PastTheEnd(zero, leaves, start, depth - 1);
      PastTheEnd(zero, leaves, start + Pow2(depth - 1), depth - 1);
      PastTheEnd(zero, [], Pow2(depth - 1), depth - 1);
    }
  }

  function Roots<D>(H: (D, D) -> D, trees: seq<Tree<D>>): (r: seq<D>)
    ensures |r| == |trees| && forall i :: 0 <= i < |trees| ==> r[i] == Root(H, trees[i])
  {
    seq(|trees|, i requires 0 <= i < |trees| => Root(H, trees[i]))
  }

  /** Replacing the subtrees by their roots changes no root above them. */
  lemma {:induction false} RootOfRoots<D>(H: (D, D) -> D, zero: D, trees: seq<Tree<D>>,
                                          start: nat, depth: nat)
    ensures Root(H, Complete(zero, trees, start, depth))
         == Root(H, Complete(zero, Chunks(Roots(H, trees)), start, depth))
    decreases depth
  {
    if depth > 0 {
      RootOfRoots(H, zero, trees, start, depth - 1);
      RootOfRoots(H, zero, trees, start + Pow2(depth - 1), depth - 1);
    }
  }

  lemma BranchUnfold<D>(H: (D, D) -> D, t: Tree<D>, g: nat)
    requires g >= 1 && NodeAt(t, g).Some?
    ensures g == 1 ==> Branch(H, t, g) == []
    ensures g > 1 ==>
      && NodeAt(t, g / 2).Some? && NodeAt(t, Sibling(g)).Some?
      && Branch(H, t, g) == [Root(H, NodeAt(t, Sibling(g)).value)] + Branch(H, t, g / 2)
  {
    hide Root;
    if g > 1 {
      assert Sibling(g) / 2 == g / 2;
      assert NodeAt(t, g) == Child(NodeAt(t, g / 2).value, g);
      assert NodeAt(t, Sibling(g)) == Child(NodeAt(t, g / 2).value, Sibling(g));
    }
  }

  lemma SiblingOfSlot(level: nat, p: nat)
    requires level > 0 && p < Pow2(level)
    ensures var s := if p % 2 == 0 then p + 1 else p - 1;
            s < Pow2(level) && Sibling(Pow2(level) + p) == Pow2(level) + s
    ensures p / 2 < Pow2(level - 1) && (Pow2(level) + p) / 2 == Pow2(level - 1) + p / 2
  {
    Pow2Double(level - 1);
    hide Pow2;
  }

  /** ... and no branch down to them. */
  lemma {:induction false} BranchOfRoots<D>(H: (D, D) -> D, zero: D, trees: seq<Tree<D>>,
                                            depth: nat, level: nat, p: nat)
    requires level <= depth && p < Pow2(level)
    ensures NodeAt(Complete(zero, trees, 0, depth), Pow2(level) + p).Some?
    ensures NodeAt(Complete(zero, Chunks(Roots(H, trees)), 0, depth), Pow2(level) + p).Some?
    ensures Branch(H, Complete(zero, trees, 0, depth), Pow2(level) + p)
         == Branch(H, Complete(zero, Chunks(Roots(H, trees)), 0, depth), Pow2(level) + p)
    decreases level
  {
    hide Complete, Root, Branch, NodeAt;
    var sealed := Chunks(Roots(H, trees));
    NodeAtComplete(zero, trees, 0, depth, level, p);
    NodeAtComplete(zero, sealed, 0, depth, level, p);
    BranchUnfold(H, Complete(zero, trees, 0, depth), Pow2(level) + p);
    BranchUnfold(H, Complete(zero, sealed, 0, depth), Pow2(level) + p);
    if level > 0 {
      hide Shl, Pow2;
      SiblingOfSlot(level, p);
      var s := if p % 2 == 0 then p + 1 else p - 1;
      NodeAtComplete(zero, trees, 0, depth, level, s);
      NodeAtComplete(zero, sealed, 0, depth, level, s);
      RootOfRoots(H, zero, trees, Shl(s, depth - level), depth - level);
      BranchOfRoots(H, zero, trees, depth, level - 1, p / 2);
    }
  }
}
