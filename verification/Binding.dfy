/** What an accepted proof binds. Both extractors are terminating functions that
    return the two hash inputs themselves: that some collision exists is true of
    every compressing hash and says nothing. */
module Binding {
  import opened Merkle

  datatype Finding<+D> =
    | Clean
      /** Two different pairs with the same hash. */
    | Collision(a: D, b: D, c: D, d: D)
      /** A pair that hashes to a raw leaf chunk. */
    | Preimage(a: D, b: D, chunk: D)
      /** A pair that hashes to a digest the tree does not look into. */
    | Opened(a: D, b: D, digest: D)

  predicate Genuine<D(==)>(H: (D, D) -> D, f: Finding<D>)
  {
    match f
    case Clean => false
    case Collision(a, b, c, d) => (a, b) != (c, d) && H(a, b) == H(c, d)
    case Preimage(a, b, chunk) => H(a, b) == chunk
    case Opened(a, b, digest) => H(a, b) == digest
  }

  function Pair<D>(g: nat, node: D, sibling: D): (D, D)
  {
    if g % 2 == 0 then (node, sibling) else (sibling, node)
  }

  // ----- two proofs for one position

  function FindCollision<D(==)>(H: (D, D) -> D, leaf1: D, proof1: seq<D>,
                                leaf2: D, proof2: seq<D>, g: nat): Finding<D>
    requires |proof1| == |proof2|
    decreases |proof1|
  {
    if proof1 == [] then Clean
    else
      var (a, b) := Pair(g, leaf1, proof1[0]);
      var (c, d) := Pair(g, leaf2, proof2[0]);
      if (a, b) != (c, d) && H(a, b) == H(c, d) then Collision(a, b, c, d)
      else FindCollision(H, H(a, b), proof1[1..], H(c, d), proof2[1..], g / 2)
  }

  lemma {:induction false} FoldsMeet<D>(H: (D, D) -> D, leaf1: D, proof1: seq<D>,
                                        leaf2: D, proof2: seq<D>, g: nat)
    requires |proof1| == |proof2|
    requires Fold(H, leaf1, proof1, g) == Fold(H, leaf2, proof2, g)
    requires leaf1 != leaf2 || proof1 != proof2
    ensures FindCollision(H, leaf1, proof1, leaf2, proof2, g).Collision?
    ensures Genuine(H, FindCollision(H, leaf1, proof1, leaf2, proof2, g))
    decreases |proof1|
  {
    if proof1 != [] {
      var p1, p2 := Pair(g, leaf1, proof1[0]), Pair(g, leaf2, proof2[0]);
      if p1 == p2 {
        assert proof1 == [proof1[0]] + proof1[1..] && proof2 == [proof2[0]] + proof2[1..];
        FoldsMeet(H, H(p1.0, p1.1), proof1[1..], H(p2.0, p2.1), proof2[1..], g / 2);
      } else if H(p1.0, p1.1) != H(p2.0, p2.1) {
        FoldsMeet(H, H(p1.0, p1.1), proof1[1..], H(p2.0, p2.1), proof2[1..], g / 2);
      }
    }
  }

  /** One root and one position bind the leaf and the whole proof. */
  lemma AcceptedProofsBind<D>(H: (D, D) -> D, root: D, g: nat, leaf1: D, proof1: seq<D>,
                              leaf2: D, proof2: seq<D>)
    requires Accepted(H, root, leaf1, proof1, g) && Accepted(H, root, leaf2, proof2, g)
    ensures (leaf1, proof1) == (leaf2, proof2)
         || (FindCollision(H, leaf1, proof1, leaf2, proof2, g).Collision?
             && Genuine(H, FindCollision(H, leaf1, proof1, leaf2, proof2, g)))
  {
    if leaf1 != leaf2 || proof1 != proof2 {
      FoldsMeet(H, leaf1, proof1, leaf2, proof2, g);
    }
  }

  // ----- a proof against a known tree

  function Extract<D(==)>(H: (D, D) -> D, t: Tree<D>, leaf: D, proof: seq<D>, g: nat): Finding<D>
    requires g >= 1
    decreases |proof|
  {
    if g == 1 || proof == [] then Clean
    else
      var (a, b) := Pair(g, leaf, proof[0]);
      var above := Extract(H, t, H(a, b), proof[1..], g / 2);
      if !above.Clean? then above
      else match NodeAt(t, g / 2)
        case None => Clean
        case Some(Chunk(value)) => Preimage(a, b, value)
        case Some(Sealed(digest)) => Opened(a, b, digest)
        case Some(Node(left, right)) =>
          if (a, b) == (Root(H, left), Root(H, right)) then Clean
          else Collision(a, b, Root(H, left), Root(H, right))
  }

  /** Soundness, for every tree, position and hash: the leaf is the tree's own
      node at g, or the extractor holds a genuine finding. A pair hashing to a
      raw chunk can only be reported when g lies below that very chunk. */
  lemma {:induction false} ExtractSound<D>(H: (D, D) -> D, t: Tree<D>, leaf: D, proof: seq<D>, g: nat)
    requires Accepted(H, Root(H, t), leaf, proof, g)
    ensures var f := Extract(H, t, leaf, proof, g);
            if f.Clean? then NodeAt(t, g).Some? && leaf == Root(H, NodeAt(t, g).value)
            else Genuine(H, f)
    ensures var f := Extract(H, t, leaf, proof, g);
            && (f.Preimage? ==> NodeAt(t, g).None? && Reached(t, g) == Chunk(f.chunk))
            && (f.Opened? ==> NodeAt(t, g).None? && Reached(t, g) == Sealed(f.digest))
    decreases |proof|
  {
    if g > 1 {
      var (a, b) := Pair(g, leaf, proof[0]);
      ExtractSound(H, t, H(a, b), proof[1..], g / 2);
    }
  }

  /** The converse: the tree's own branch never yields a finding. */
  lemma {:induction false} OwnBranchIsClean<D>(H: (D, D) -> D, t: Tree<D>, g: nat)
    requires g >= 1 && NodeAt(t, g).Some?
    ensures Extract(H, t, Root(H, NodeAt(t, g).value), Branch(H, t, g), g).Clean?
  {
    if g > 1 {
      var branch := Branch(H, t, g);
      assert Sibling(g) / 2 == g / 2;
      assert branch[1..] == Branch(H, t, g / 2);
      OwnBranchIsClean(H, t, g / 2);
    }
  }
}
