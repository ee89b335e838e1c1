/** The SSZ objects on the proof path, as Merkle trees from the block root down.
    Roots whose preimage no proof opens (public keys, parent and body roots, the
    35 other state fields) are sealed. */
module BeaconState {
  import opened Bits
  import opened Bytes
  import opened Merkle
  import opened Results
  import opened Gindex

  type PairHash = (Bytes32, Bytes32) -> Bytes32

  const FIELD_COUNT := 37

  datatype Validator = Validator(
    pubkeyRoot: Bytes32,
    withdrawalCredentials: Bytes32,
    effectiveBalance: uint64,
    slashed: bool,
    activationEligibilityEpoch: uint64,
    activationEpoch: uint64,
    exitEpoch: uint64,
    withdrawableEpoch: uint64)

  datatype PendingConsolidation = PendingConsolidation(sourceIndex: uint64, targetIndex: uint64)

  datatype BeaconBlockHeader = BeaconBlockHeader(
    slot: uint64,
    proposerIndex: uint64,
    parentRoot: Bytes32,
    stateRoot: Bytes32,
    bodyRoot: Bytes32)

  /** The two lists in the clear and the 37 field roots; the entries of
      `otherRoots` at the lists' own fields are not used. */
  datatype State = State(
    otherRoots: seq<Bytes32>,
    validators: seq<Validator>,
    consolidations: seq<PendingConsolidation>)

  function ValidatorFields(v: Validator): seq<Tree<Bytes32>>
  {
    [Sealed(v.pubkeyRoot),
     Chunk(v.withdrawalCredentials),
     Chunk(U64Chunk(v.effectiveBalance)),
     Chunk(U64Chunk(if v.slashed then 1 else 0)),
     Chunk(U64Chunk(v.activationEligibilityEpoch)),
     Chunk(U64Chunk(v.activationEpoch)),
     Chunk(U64Chunk(v.exitEpoch)),
     Chunk(U64Chunk(v.withdrawableEpoch))]
  }

  function ValidatorTree(v: Validator): Tree<Bytes32>
  {
    Complete(ZERO, ValidatorFields(v), 0, VALIDATOR_DEPTH)
  }

  function ConsolidationFields(c: PendingConsolidation): seq<Tree<Bytes32>>
  {
    [Chunk(U64Chunk(c.sourceIndex)), Chunk(U64Chunk(c.targetIndex))]
  }

  function ConsolidationTree(c: PendingConsolidation): Tree<Bytes32>
  {
    Complete(ZERO, ConsolidationFields(c), 0, CONSOLIDATION_DEPTH)
  }

  function ValidatorTrees(vs: seq<Validator>): (r: seq<Tree<Bytes32>>)
    ensures |r| == |vs| && forall i :: 0 <= i < |vs| ==> r[i] == ValidatorTree(vs[i])
  {
    seq(|vs|, i requires 0 <= i < |vs| => ValidatorTree(vs[i]))
  }

  function ConsolidationTrees(cs: seq<PendingConsolidation>): (r: seq<Tree<Bytes32>>)
    ensures |r| == |cs| && forall i :: 0 <= i < |cs| ==> r[i] == ConsolidationTree(cs[i])
  {
    seq(|cs|, i requires 0 <= i < |cs| => ConsolidationTree(cs[i]))
  }

  /** An SSZ list: the data tree beside the length chunk. */
  function ListTree(elements: seq<Tree<Bytes32>>, depth: nat): Tree<Bytes32>
  {
    Node(Complete(ZERO, elements, 0, depth), Chunk(U64Chunk(|elements|)))
  }

  function FieldTree(s: State, validatorsDepth: nat, consolidationsDepth: nat, i: nat): Tree<Bytes32>
    requires i < |s.otherRoots|
  {
    if i == VALIDATORS_FIELD then ListTree(ValidatorTrees(s.validators), validatorsDepth)
    else if i == CONSOLIDATIONS_FIELD then ListTree(ConsolidationTrees(s.consolidations), consolidationsDepth)
    else Sealed(s.otherRoots[i])
  }

  function FieldTrees(s: State, validatorsDepth: nat, consolidationsDepth: nat): (r: seq<Tree<Bytes32>>)
    requires |s.otherRoots| == FIELD_COUNT
    ensures |r| == FIELD_COUNT
    ensures forall i :: 0 <= i < FIELD_COUNT ==> r[i] == FieldTree(s, validatorsDepth, consolidationsDepth, i)
  {
    seq(FIELD_COUNT, i requires 0 <= i < FIELD_COUNT => FieldTree(s, validatorsDepth, consolidationsDepth, i))
  }

  function StateTree(s: State, validatorsDepth: nat, consolidationsDepth: nat): Tree<Bytes32>
    requires |s.otherRoots| == FIELD_COUNT
  {
    Complete(ZERO, FieldTrees(s, validatorsDepth, consolidationsDepth), 0, STATE_DEPTH)
  }

  function HeaderFields(h: BeaconBlockHeader, state: Tree<Bytes32>): seq<Tree<Bytes32>>
  {
    [Chunk(U64Chunk(h.slot)), Chunk(U64Chunk(h.proposerIndex)), Sealed(h.parentRoot), state, Sealed(h.bodyRoot)]
  }

  /** The header alone, its state root unopened. */
  function HeaderTree(h: BeaconBlockHeader): Tree<Bytes32>
  {
    Complete(ZERO, HeaderFields(h, Sealed(h.stateRoot)), 0, HEADER_DEPTH)
  }

  /** The header with the state opened in place of its root. */
  function BlockTree(h: BeaconBlockHeader, state: Tree<Bytes32>): Tree<Bytes32>
  {
    Complete(ZERO, HeaderFields(h, state), 0, HEADER_DEPTH)
  }

  function BlockRoot(H: PairHash, h: BeaconBlockHeader): Bytes32
  {
    Root(H, HeaderTree(h))
  }

  /** Opening the state root changes neither the block root nor the branch to it. */
  lemma OpeningTheState(H: PairHash, h: BeaconBlockHeader, state: Tree<Bytes32>)
    requires h.stateRoot == Root(H, state)
    ensures Root(H, BlockTree(h, state)) == BlockRoot(H, h)
    ensures NodeAt(BlockTree(h, state), 11) == Some(state)
    ensures NodeAt(HeaderTree(h), 11) == Some(Sealed(h.stateRoot))
    ensures Branch(H, BlockTree(h, state), 11) == Branch(H, HeaderTree(h), 11)
  {
    hide Complete, Branch, NodeAt, Root, HeaderFields;
    var inside, outside := HeaderFields(h, state), HeaderFields(h, Sealed(h.stateRoot));
    SameHeaderRoots(H, h, state);
    RootOfRoots(H, ZERO, inside, 0, HEADER_DEPTH);
    RootOfRoots(H, ZERO, outside, 0, HEADER_DEPTH);
    StateInHeader(H, h, state);
    StateInHeader(H, h, Sealed(h.stateRoot));
  }

  lemma SameHeaderRoots(H: PairHash, h: BeaconBlockHeader, state: Tree<Bytes32>)
    requires h.stateRoot == Root(H, state)
    ensures Roots(H, HeaderFields(h, state)) == Roots(H, HeaderFields(h, Sealed(h.stateRoot)))
  {
  }

  lemma StateInHeader(H: PairHash, h: BeaconBlockHeader, state: Tree<Bytes32>)
    ensures NodeAt(BlockTree(h, state), 11) == Some(state)
    ensures var hashed := Chunks(Roots(H, HeaderFields(h, state)));
            && NodeAt(Complete(ZERO, hashed, 0, HEADER_DEPTH), 11).Some?
            && Branch(H, BlockTree(h, state), 11) == Branch(H, Complete(ZERO, hashed, 0, HEADER_DEPTH), 11)
  {
    hide Complete, Branch, NodeAt;
    assert Pow2(3) == 8;
    LeafAt(ZERO, HeaderFields(h, state), HEADER_DEPTH, STATE_ROOT_FIELD);
    BranchOfRoots(H, ZERO, HeaderFields(h, state), HEADER_DEPTH, HEADER_DEPTH, STATE_ROOT_FIELD);
  }

  /** A slot of the state container. */
  lemma StateField(s: State, vd: nat, cd: nat, i: nat)
    requires |s.otherRoots| == FIELD_COUNT && i < 64
    ensures NodeAt(StateTree(s, vd, cd), 64 + i)
         == Some(if i < FIELD_COUNT then FieldTrees(s, vd, cd)[i] else Chunk(ZERO))
  {
    hide Complete, NodeAt;
    assert Pow2(6) == 64;
    LeafAt(ZERO, FieldTrees(s, vd, cd), STATE_DEPTH, i);
  }

  /** Element `index` of a list, below the list's own root. */
  lemma ListElement(elements: seq<Tree<Bytes32>>, depth: nat, index: nat)
    requires index < Pow2(depth)
    ensures NodeAt(ListTree(elements, depth), 2) == Some(Complete(ZERO, elements, 0, depth))
    ensures NodeAt(ListTree(elements, depth), 3) == Some(Chunk(U64Chunk(|elements|)))
    ensures NodeAt(ListTree(elements, depth), Concat(2, Pow2(depth) + index))
         == Some(if index < |elements| then elements[index] else Chunk(ZERO))
  {
    hide Complete;
    var t := ListTree(elements, depth);
    assert NodeAt(t, 1) == Some(t);
    NodeAtConcat(t, 2, Pow2(depth) + index);
    LeafAt(ZERO, elements, depth, index);
  }

  /** Where every field of the four objects sits, below the object's own root. */
  lemma ValidatorLayout(v: Validator)
    ensures var t := ValidatorTree(v);
            && NodeAt(t, 8) == Some(Sealed(v.pubkeyRoot))
            && NodeAt(t, 9) == Some(Chunk(v.withdrawalCredentials))
            && NodeAt(t, 10) == Some(Chunk(U64Chunk(v.effectiveBalance)))
            && NodeAt(t, 11) == Some(Chunk(U64Chunk(if v.slashed then 1 else 0)))
            && NodeAt(t, 12) == Some(Chunk(U64Chunk(v.activationEligibilityEpoch)))
            && NodeAt(t, 13) == Some(Chunk(U64Chunk(v.activationEpoch)))
            && NodeAt(t, 14) == Some(Chunk(U64Chunk(v.exitEpoch)))
            && NodeAt(t, 15) == Some(Chunk(U64Chunk(v.withdrawableEpoch)))
  {
    hide ValidatorTree, NodeAt, U64Chunk;
    ValidatorField(v, 0);
    ValidatorField(v, 1);
    ValidatorField(v, 2);
    ValidatorField(v, 3);
    ValidatorField(v, 4);
    ValidatorField(v, 5);
    ValidatorField(v, 6);
    ValidatorField(v, 7);
  }

  lemma ConsolidationLayout(c: PendingConsolidation)
    ensures NodeAt(ConsolidationTree(c), 2) == Some(Chunk(U64Chunk(c.sourceIndex)))
    ensures NodeAt(ConsolidationTree(c), 3) == Some(Chunk(U64Chunk(c.targetIndex)))
  {
    hide Complete, NodeAt, U64Chunk;
    assert Pow2(1) == 2;
    LeafAt(ZERO, ConsolidationFields(c), 1, 0);
    LeafAt(ZERO, ConsolidationFields(c), 1, 1);
  }

  lemma HeaderLayout(h: BeaconBlockHeader, i: nat)
    requires i < 8
    ensures NodeAt(HeaderTree(h), 8 + i) == Some(match i
      case 0 => Chunk(U64Chunk(h.slot))
      case 1 => Chunk(U64Chunk(h.proposerIndex))
      case 2 => Sealed(h.parentRoot)
      case 3 => Sealed(h.stateRoot)
      case 4 => Sealed(h.bodyRoot)
      case _ => Chunk(ZERO))
  {
    hide Complete, NodeAt, U64Chunk;
    assert Pow2(3) == 8;
    LeafAt(ZERO, HeaderFields(h, Sealed(h.stateRoot)), HEADER_DEPTH, i);
  }

  lemma StateLayout(s: State, i: nat)
    requires |s.otherRoots| == 37 && i < 64
    ensures NodeAt(StateTree(s, 40, 18), 64 + i) == Some(
      if i == 11 then ListTree(ValidatorTrees(s.validators), 40)
      else if i == 36 then ListTree(ConsolidationTrees(s.consolidations), 18)
      else if i < 37 then Sealed(s.otherRoots[i])
      else Chunk(ZERO))
  {
    hide NodeAt, ListTree;
    StateField(s, 40, 18, i);
  }

  /** The proven fields of the two element types. */
  lemma SourceIndexField(c: PendingConsolidation)
    ensures NodeAt(ConsolidationTree(c), 2) == Some(Chunk(U64Chunk(c.sourceIndex)))
  {
    hide Complete, NodeAt, U64Chunk;
    assert Pow2(1) == 2;
    LeafAt(ZERO, ConsolidationFields(c), 1, 0);
  }

  lemma ValidatorField(v: Validator, i: nat)
    requires i < 8
    ensures NodeAt(ValidatorTree(v), 8 + i) == Some(ValidatorFields(v)[i])
  {
    hide Complete, NodeAt, U64Chunk;
    assert Pow2(3) == 8;
    LeafAt(ZERO, ValidatorFields(v), 3, i);
  }
}
