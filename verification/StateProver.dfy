/** Proofs through five layers: element field, list data, list length, state
    field and header field, each appended to the last. */
module StateProver {
  import opened Bits
  import opened Bytes
  import opened Merkle
  import opened Results
  import opened Gindex
  import opened SparseProof
  import opened BeaconState

  datatype ProofError =
    | WrongFieldCount(expected: nat, got: nat)
    | ConsolidationIndexOutOfBounds(index: nat, count: nat)
    | ValidatorIndexOutOfBounds(index: nat, count: nat)
      /** The sparse prover's own assertion: the tree has no such slot. */
    | NoSuchSlot(index: nat, depth: nat)

  datatype Bundle = Bundle(
    beaconTimestamp: uint64,
    consolidationIndex: uint64,
    sourceIndex: uint64,
    activationEpoch: uint64,
    sourceCredentials: Bytes32,
    proofConsolidation: seq<Bytes32>,
    proofCredentials: seq<Bytes32>,
    proofActivationEpoch: seq<Bytes32>)
  {
    /** The 20-byte address in 0x01 and 0x02 credentials. */
    function RecipientAddress(): Option<seq<byte>>
    {
      var prefix := sourceCredentials[0];
      if prefix == 1 || prefix == 2 then Some(sourceCredentials[12..32]) else None
    }
  }

  // ----- what an assembled proof is

  /** The four state-level layers, each the branch of its own tree. */
  function LayeredBranch(H: PairHash, elements: seq<Tree<Bytes32>>, depth: nat, index: nat, inner: nat,
                         fieldRoots: seq<Bytes32>, field: nat): seq<Bytes32>
    requires index < |elements| && index < Pow2(depth) && field < 64
    requires inner >= 1 && NodeAt(elements[index], inner).Some?
  {
    LeafAt(ZERO, elements, depth, index);
    LeafOfPaddedTree(ZERO, fieldRoots, STATE_DEPTH, field);
    assert Pow2(STATE_DEPTH) == STATE_BASE;
    Branch(H, elements[index], inner)
    + Branch(H, Complete(ZERO, elements, 0, depth), Pow2(depth) + index)
    + [U64Chunk(|elements|)]
    + Branch(H, PaddedTree(ZERO, fieldRoots, STATE_DEPTH), STATE_BASE + field)
  }

  /** When the field root is the list's own root, the layers are one branch of
      one state tree, at the concatenated position. */
  lemma LayersAreOneBranch(H: PairHash, fields: seq<Tree<Bytes32>>, field: nat,
                           elements: seq<Tree<Bytes32>>, depth: nat, index: nat, inner: nat)
    requires field < |fields| <= 64 && fields[field] == ListTree(elements, depth)
    requires index < |elements| && index < Pow2(depth)
    requires inner >= 1 && NodeAt(elements[index], inner).Some?
    ensures var t := Complete(ZERO, fields, 0, STATE_DEPTH);
            var g := Concat(Concat(Concat(STATE_BASE + field, 2), Pow2(depth) + index), inner);
            && NodeAt(t, g) == NodeAt(elements[index], inner)
            && Branch(H, t, g) == LayeredBranch(H, elements, depth, index, inner, Roots(H, fields), field)
  {
    hide Complete, Branch, NodeAt, Concat, Root, Pow2, U64Chunk;
    SmallPowers();
    var t := Complete(ZERO, fields, 0, STATE_DEPTH);
    var list := ListTree(elements, depth);
    LeafAt(ZERO, fields, STATE_DEPTH, field);
    BranchOfRoots(H, ZERO, fields, STATE_DEPTH, STATE_DEPTH, field);
    LeafAt(ZERO, elements, depth, index);
    ListBranch(H, elements, depth);
    BranchConcat(H, t, STATE_BASE + field, 2);
    BranchConcat(H, t, Concat(STATE_BASE + field, 2), Pow2(depth) + index);
    BranchConcat(H, t, Concat(Concat(STATE_BASE + field, 2), Pow2(depth) + index), inner);
  }

  lemma ListBranch(H: PairHash, elements: seq<Tree<Bytes32>>, depth: nat)
    ensures NodeAt(ListTree(elements, depth), 2) == Some(Complete(ZERO, elements, 0, depth))
    ensures Branch(H, ListTree(elements, depth), 2) == [U64Chunk(|elements|)]
  {
    hide Complete;
    var t := ListTree(elements, depth);
    assert NodeAt(t, 1) == Some(t) && Branch(H, t, 1) == [];
    assert Root(H, NodeAt(t, 3).value) == U64Chunk(|elements|);
  }

  lemma SlotFits(index: nat, depth: nat)
    requires depth < 64 && index < Pow2(depth)
    ensures index < 0x1_0000_0000_0000_0000
  {
    Pow2Monotone(depth, 64);
    Pow2Values();
  }

  // ----- the prover

  /** What ssz_rs returns for a small container: the branch and the leaf. */
  function ProveSmallContainerField(H: PairHash, container: Tree<Bytes32>, g: nat): (seq<Bytes32>, Bytes32)
    requires g >= 1 && NodeAt(container, g).Some?
  {
    (Branch(H, container, g), Root(H, NodeAt(container, g).value))
  }

  function LengthBytes(length: nat): Bytes32
  {
    U64Chunk(length)
  }

  method MixInLength(H: PairHash, dataRoot: Bytes32, length: nat) returns (root: Bytes32)
    ensures root == H(dataRoot, U64Chunk(length))
  {
    root := H(dataRoot, LengthBytes(length));
  }

  /** compute_list_root: the root of the list's tree, from element hashes. */
  method ComputeListRoot(H: PairHash, elementHashes: seq<Bytes32>, treeDepth: nat, length: nat)
    returns (root: Bytes32)
    requires treeDepth < 64
    ensures root == H(Root(H, PaddedTree(ZERO, elementHashes, treeDepth)), U64Chunk(length))
    ensures forall elements: seq<Tree<Bytes32>> {:trigger Roots(H, elements)} ::
      Roots(H, elements) == elementHashes && |elements| == length
      ==> root == Root(H, ListTree(elements, treeDepth))
  {
    hide Complete;
    var proof, dataRoot;
    ghost var hashes;
    proof, dataRoot, hashes := ProveAgainstLeafChunks(H, ZERO, elementHashes, 0, treeDepth);
    root := MixInLength(H, dataRoot, length);
    forall elements: seq<Tree<Bytes32>> {:trigger Roots(H, elements)}
      | Roots(H, elements) == elementHashes && |elements| == length
      ensures root == Root(H, ListTree(elements, treeDepth))
    {
      RootOfRoots(H, ZERO, elements, 0, treeDepth);
    }
  }

  /** The branch from the state root up to the block root. */
  function HeaderBranch(H: PairHash, header: BeaconBlockHeader): seq<Bytes32>
  {
    OpeningTheState(H, header, Sealed(header.stateRoot));
    Branch(H, HeaderTree(header), 11)
  }

  datatype StateProver = StateProver(
    fieldRoots: seq<Bytes32>,
    validatorHashes: seq<Bytes32>,
    consolidationHashes: seq<Bytes32>,
    validatorsTreeDepth: nat,
    consolidationsTreeDepth: nat,
    validators: seq<Validator>,
    consolidations: seq<PendingConsolidation>)
  {
    predicate Valid(H: PairHash)
    {
      && |fieldRoots| == FIELD_COUNT
      && validatorHashes == Roots(H, ValidatorTrees(validators))
      && consolidationHashes == Roots(H, ConsolidationTrees(consolidations))
    }

    static function New(H: PairHash, fieldRoots: seq<Bytes32>, validators: seq<Validator>,
                        consolidations: seq<PendingConsolidation>, validatorsTreeDepth: nat,
                        consolidationsTreeDepth: nat): (r: Result<StateProver, ProofError>)
      ensures if |fieldRoots| == 37 then r.Ok? else r == Err(WrongFieldCount(37, |fieldRoots|))
      ensures r.Ok? ==> r.value.Valid(H)
      ensures r.Ok? ==>
        && r.value.fieldRoots == fieldRoots
        && r.value.validators == validators && r.value.consolidations == consolidations
        && r.value.validatorsTreeDepth == validatorsTreeDepth
        && r.value.consolidationsTreeDepth == consolidationsTreeDepth
    {
      if |fieldRoots| != FIELD_COUNT then Err(WrongFieldCount(FIELD_COUNT, |fieldRoots|))
      else Ok(StateProver(fieldRoots, Roots(H, ValidatorTrees(validators)),
                          Roots(H, ConsolidationTrees(consolidations)),
                          validatorsTreeDepth, consolidationsTreeDepth, validators, consolidations))
    }

    method ComputeStateRoot(H: PairHash) returns (root: Bytes32)
      ensures root == Root(H, PaddedTree(ZERO, fieldRoots, STATE_DEPTH))
    {
      ghost var hashes;
      var proof;
      proof, root, hashes := ProveAgainstLeafChunks(H, ZERO, fieldRoots, 0, STATE_DEPTH);
    }

    /** The entry, its validator and a slot for each exist. */
    predicate Provable(index: nat)
    {
      && index < |consolidations| && HasSlot(index, consolidationsTreeDepth)
      && consolidations[index].sourceIndex < |validators|
      && HasSlot(consolidations[index].sourceIndex, validatorsTreeDepth)
    }

    predicate HasSlot(index: nat, depth: nat)
    {
      depth < 64 && index < Pow2(depth)
    }

    /** The three layers every state proof adds above its element. */
    method ExtendThroughList(H: PairHash, inner: seq<Bytes32>, elementHashes: seq<Bytes32>, depth: nat,
                             index: nat, field: nat, ghost elements: seq<Tree<Bytes32>>, ghost position: nat)
      returns (fullProof: seq<Bytes32>)
      requires depth < 64 && index < Pow2(depth) && index < |elements| && field < 64
      requires elementHashes == Roots(H, elements)
      requires position >= 1 && NodeAt(elements[index], position).Some?
      requires inner == Branch(H, elements[index], position)
      ensures fullProof == LayeredBranch(H, elements, depth, index, position, fieldRoots, field)
    {
      hide Branch, NodeAt, Complete, Pow2, U64Chunk;
      SmallPowers();
      BranchOfRoots(H, ZERO, elements, depth, depth, index);
      ghost var hashes;
      var listDataProof, stateProof, root;
      listDataProof, root, hashes := ProveAgainstLeafChunks(H, ZERO, elementHashes, index, depth);
      stateProof, root, hashes := ProveAgainstLeafChunks(H, ZERO, fieldRoots, field, STATE_DEPTH);
      fullProof := inner;
      fullProof := fullProof + listDataProof;
      fullProof := fullProof + [LengthBytes(|elementHashes|)];
      fullProof := fullProof + stateProof;
    }

    /** The branch from consolidation `index`'s source up to the state root. */
    function ConsolidationBranch(H: PairHash, index: nat): seq<Bytes32>
      requires index < |consolidations| && HasSlot(index, consolidationsTreeDepth)
    {
      SourceIndexField(consolidations[index]);
      LayeredBranch(H, ConsolidationTrees(consolidations), consolidationsTreeDepth, index,
                    CONSOLIDATION_BASE + SOURCE_FIELD, fieldRoots, CONSOLIDATIONS_FIELD)
    }

    /** The branch from field i of validator `index` up to the state root. */
    function ValidatorBranch(H: PairHash, index: nat, i: nat): seq<Bytes32>
      requires index < |validators| && i < 8 && HasSlot(index, validatorsTreeDepth)
    {
      ValidatorField(validators[index], i);
      LayeredBranch(H, ValidatorTrees(validators), validatorsTreeDepth, index,
                    VALIDATOR_BASE + i, fieldRoots, VALIDATORS_FIELD)
    }

    method ProveConsolidationSourceIndex(H: PairHash, index: nat)
      returns (r: Result<(seq<Bytes32>, Bytes32), ProofError>)
      requires Valid(H)
      ensures index >= |consolidations| ==> r == Err(ConsolidationIndexOutOfBounds(index, |consolidations|))
      ensures index < |consolidations| ==>
        if consolidationsTreeDepth >= 64 || index >= Pow2(consolidationsTreeDepth) then
          r == Err(NoSuchSlot(index, consolidationsTreeDepth))
        else
          r == Ok((ConsolidationBranch(H, index), U64Chunk(consolidations[index].sourceIndex)))
    {
      hide LayeredBranch, Branch, NodeAt, ConsolidationTree, U64Chunk;
      if index >= |consolidations| {
        return Err(ConsolidationIndexOutOfBounds(index, |consolidations|));
      }
      SourceIndexField(consolidations[index]);
      if !HasSlot(index, consolidationsTreeDepth) {
        return Err(NoSuchSlot(index, consolidationsTreeDepth));
      }
      var (innerProof, innerLeaf) := ProveSmallContainerField(H, ConsolidationTree(consolidations[index]), 2);
      var fullProof := ExtendThroughList(H, innerProof, consolidationHashes, consolidationsTreeDepth, index,
                                         CONSOLIDATIONS_FIELD, ConsolidationTrees(consolidations), 2);
      return Ok((fullProof, innerLeaf));
    }

    /** prove_validator_credentials (field 1) and prove_validator_activation_epoch (field 5). */
    method ProveValidatorField(H: PairHash, index: nat, i: nat)
      returns (r: Result<(seq<Bytes32>, Bytes32), ProofError>)
      requires Valid(H) && 1 <= i < 8
      ensures index >= |validators| ==> r == Err(ValidatorIndexOutOfBounds(index, |validators|))
      ensures index < |validators| ==>
        if validatorsTreeDepth >= 64 || index >= Pow2(validatorsTreeDepth) then
          r == Err(NoSuchSlot(index, validatorsTreeDepth))
        else
          r == Ok((ValidatorBranch(H, index, i), ValidatorFields(validators[index])[i].value))
      ensures r.Ok? && i == 1 ==> r.value.1 == validators[index].withdrawalCredentials
      ensures r.Ok? && i == 5 ==> r.value.1 == U64Chunk(validators[index].activationEpoch)
    {
      hide LayeredBranch, Branch, NodeAt, ValidatorTree, U64Chunk;
      if index >= |validators| {
        return Err(ValidatorIndexOutOfBounds(index, |validators|));
      }
      ValidatorField(validators[index], i);
      if !HasSlot(index, validatorsTreeDepth) {
        return Err(NoSuchSlot(index, validatorsTreeDepth));
      }
      var (innerProof, innerLeaf) :=
        ProveSmallContainerField(H, ValidatorTree(validators[index]), VALIDATOR_BASE + i);
      var fullProof := ExtendThroughList(H, innerProof, validatorHashes, validatorsTreeDepth, index,
                                         VALIDATORS_FIELD, ValidatorTrees(validators), VALIDATOR_BASE + i);
      return Ok((fullProof, innerLeaf));
    }

    method GenerateFullProofBundle(H: PairHash, header: BeaconBlockHeader, index: nat, beaconTimestamp: uint64)
      returns (r: Result<Bundle, ProofError>)
      requires Valid(H)
      ensures
        if index >= |consolidations| then r == Err(ConsolidationIndexOutOfBounds(index, |consolidations|))
        else
          var source := consolidations[index].sourceIndex;
          if source >= |validators| then r == Err(ValidatorIndexOutOfBounds(source, |validators|))
          else if consolidationsTreeDepth >= 64 || index >= Pow2(consolidationsTreeDepth) then
            r == Err(NoSuchSlot(index, consolidationsTreeDepth))
          else if validatorsTreeDepth >= 64 || source >= Pow2(validatorsTreeDepth) then
            r == Err(NoSuchSlot(source, validatorsTreeDepth))
          else r.Ok? && IsBundleFor(H, header, index, beaconTimestamp, r.value)
    {
      hide ConsolidationBranch, ValidatorBranch, LayeredBranch, Branch, NodeAt, HeaderTree, U64Chunk, Pow2;
      if index >= |consolidations| {
        return Err(ConsolidationIndexOutOfBounds(index, |consolidations|));
      }
      var source := consolidations[index].sourceIndex;
      if source >= |validators| {
        return Err(ValidatorIndexOutOfBounds(source, |validators|));
      }
      var validator := validators[source];
      OpeningTheState(H, header, Sealed(header.stateRoot));
      var (headerProof, stateRoot) := ProveSmallContainerField(H, HeaderTree(header), 11);

      var consolidationProof := ProveConsolidationSourceIndex(H, index);
      if consolidationProof.Err? {
        return Err(consolidationProof.error);
      }
      var credentialsProof := ProveValidatorField(H, source, CREDENTIALS_FIELD);
      if credentialsProof.Err? {
        return Err(credentialsProof.error);
      }
      var activationProof := ProveValidatorField(H, source, ACTIVATION_FIELD);
      // The same slot as the credentials, so this proof cannot fail either.
      SlotFits(index, consolidationsTreeDepth);
      r := Ok(Bundle(beaconTimestamp, index, source, validator.activationEpoch, validator.withdrawalCredentials,
                     consolidationProof.value.0 + headerProof,
                     credentialsProof.value.0 + headerProof,
                     activationProof.value.0 + headerProof));
    }

    ghost predicate IsBundleFor(H: PairHash, header: BeaconBlockHeader, index: nat, beaconTimestamp: uint64, b: Bundle)
    {
      && |fieldRoots| == FIELD_COUNT && Provable(index)
      && var source := consolidations[index].sourceIndex;
      var validator := validators[source];
      && (b.beaconTimestamp, b.consolidationIndex, b.sourceIndex) == (beaconTimestamp, index, source)
      && (b.activationEpoch, b.sourceCredentials) == (validator.activationEpoch, validator.withdrawalCredentials)
      && b.proofConsolidation == ConsolidationBranch(H, index) + HeaderBranch(H, header)
      && b.proofCredentials == ValidatorBranch(H, source, CREDENTIALS_FIELD) + HeaderBranch(H, header)
      && b.proofActivationEpoch == ValidatorBranch(H, source, ACTIVATION_FIELD) + HeaderBranch(H, header)
    }
  }
}
