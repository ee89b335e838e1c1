/** The stand-alone list and container provers, and the roots of empty lists. */
module ListProofs {
  import opened Bits
  import opened Bytes
  import opened Merkle
  import opened Results
  import opened BeaconState
  import opened SparseProof
  import opened StateProver
  import DenseTree

  /** A list as the prover sees it: element hashes, and a length of its own. */
  function HashedList(elementHashes: seq<Bytes32>, depth: nat, length: nat): Tree<Bytes32>
  {
    Node(PaddedTree(ZERO, elementHashes, depth), Chunk(U64Chunk(length)))
  }

  /** The proof reaches the list root at gindex (2 << depth) + index, through
      the data tree and past the length chunk. */
  method ProveListElement(H: PairHash, elementHashes: seq<Bytes32>, elementIndex: nat,
                          listLimitDepth: nat, listLength: nat)
    returns (proof: seq<Bytes32>, listRoot: Bytes32)
    requires listLimitDepth < 64 && elementIndex < Pow2(listLimitDepth)
    ensures |proof| == listLimitDepth + 1
    ensures listRoot == Root(H, HashedList(elementHashes, listLimitDepth, listLength))
    ensures Accepted(H, listRoot, GetLeaf(elementHashes, elementIndex, ZERO), proof,
                     Shl(2, listLimitDepth) + elementIndex)
  {
    hide Complete, Branch, NodeAt, Pow2, U64Chunk;
    var dataRoot;
    ghost var hashes;
    proof, dataRoot, hashes := ProveAgainstLeafChunks(H, ZERO, elementHashes, elementIndex, listLimitDepth);
    var lengthBytes := LengthBytes(listLength);
    proof := proof + [lengthBytes];
    listRoot := H(dataRoot, lengthBytes);
    ElementBranch(H, elementHashes, elementIndex, listLimitDepth, listLength);
  }

  lemma ElementBranch(H: PairHash, elementHashes: seq<Bytes32>, index: nat, depth: nat, length: nat)
    requires index < Pow2(depth)
    ensures var data, list := PaddedTree(ZERO, elementHashes, depth), HashedList(elementHashes, depth, length);
            && NodeAt(data, Pow2(depth) + index).Some?
            && Accepted(H, Root(H, list), GetLeaf(elementHashes, index, ZERO),
                        Branch(H, data, Pow2(depth) + index) + [U64Chunk(length)], Shl(2, depth) + index)
  {
    hide Complete, Pow2, U64Chunk, Concat, Shl, Accepted;
    var data, list := PaddedTree(ZERO, elementHashes, depth), HashedList(elementHashes, depth, length);
    LeafOfPaddedTree(ZERO, elementHashes, depth, index);
    assert NodeAt(list, 1) == Some(list) && NodeAt(list, 2) == Some(data);
    assert Branch(H, list, 2) == [U64Chunk(length)] by {
      assert Branch(H, list, 1) == [] && NodeAt(list, 3) == Some(Chunk(U64Chunk(length)));
    }
    BranchConcat(H, list, 2, Pow2(depth) + index);
    ConcatSlot(2, depth, index);
    BranchAccepted(H, list, Concat(2, Pow2(depth) + index));
  }

  /** trailing_zeros(next_power_of_two(n)): the least depth with room for n. */
  function DepthFor(numFields: nat): (d: nat)
    ensures numFields <= Pow2(d)
    ensures forall e: nat {:trigger Pow2(e)} :: numFields <= Pow2(e) ==> d <= e
  {
    if numFields <= 1 then 0
    else
      LeastDepth(numFields);
      FloorLog2(numFields - 1) + 1
  }

  lemma LeastDepth(n: nat)
    requires n >= 2
    ensures n <= Pow2(FloorLog2(n - 1) + 1)
    ensures forall e: nat {:trigger Pow2(e)} :: n <= Pow2(e) ==> FloorLog2(n - 1) + 1 <= e
  {
    forall e: nat | n <= Pow2(e)
      ensures FloorLog2(n - 1) + 1 <= e
    {
      if e <= FloorLog2(n - 1) {
        Pow2Monotone(e, FloorLog2(n - 1));
      }
    }
  }

  /** A container field is proven at 2^d + index, d the least depth that fits. */
  method ProveContainerField(H: PairHash, fieldHashes: seq<Bytes32>, fieldIndex: nat, numFields: nat)
    returns (proof: seq<Bytes32>, root: Bytes32)
    requires fieldIndex < Pow2(DepthFor(numFields)) && DepthFor(numFields) < 64
    ensures root == Root(H, PaddedTree(ZERO, fieldHashes, DepthFor(numFields)))
    ensures Accepted(H, root, GetLeaf(fieldHashes, fieldIndex, ZERO), proof, Pow2(DepthFor(numFields)) + fieldIndex)
  {
    hide Complete, Branch, NodeAt, Pow2;
    var depth := DepthFor(numFields);
    ghost var hashes;
    proof, root, hashes := ProveAgainstLeafChunks(H, ZERO, fieldHashes, fieldIndex, depth);
    LeafOfPaddedTree(ZERO, fieldHashes, depth, fieldIndex);
    BranchAccepted(H, PaddedTree(ZERO, fieldHashes, depth), Pow2(depth) + fieldIndex);
  }

  /** The generator's shortcut for an empty list is the list root of no elements. */
  method EmptyListRoot(H: PairHash, depth: nat) returns (root: Bytes32)
    requires depth < 64
    ensures root == Root(H, HashedList([], depth, 0)) == Root(H, ListTree([], depth))
  {
    hide Complete;
    NoChunks();
    var zeroRoot := DenseTree.ZeroHash(H, ZERO, depth);
    root := MixInLength(H, zeroRoot, 0);
  }

  lemma NoChunks()
    ensures Chunks<Bytes32>([]) == []
  {
  }
}
