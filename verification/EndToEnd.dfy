/** Prover, verifier and contract together: everything honestly built is paid,
    and everything paid was earned or exhibits a broken hash. */
module EndToEnd {
  import opened Bits
  import opened Bytes
  import opened Merkle
  import opened Results
  import opened Binding
  import opened Gindex
  import opened BeaconState
  import opened StateProver
  import opened ConsolidationIncentives
  import SszMerkleVerifier

  datatype Block = Block(header: BeaconBlockHeader, state: State)

  function BlockStateTree(b: Block): Tree<Bytes32>
    requires |b.state.otherRoots| == FIELD_COUNT
  {
    StateTree(b.state, VALIDATORS_TREE_DEPTH, CONSOLIDATIONS_TREE_DEPTH)
  }

  function OpenBlock(b: Block): Tree<Bytes32>
    requires |b.state.otherRoots| == FIELD_COUNT
  {
    BlockTree(b.header, BlockStateTree(b))
  }

  /** A block whose header commits to its state, the lists within their limits
      and every pending source an existing validator. */
  ghost predicate WellFormed(H: PairHash, b: Block)
  {
    && |b.state.otherRoots| == FIELD_COUNT
    && b.header.stateRoot == Root(H, BlockStateTree(b))
    && |b.state.validators| <= VALIDATOR_REGISTRY_LIMIT
    && |b.state.consolidations| <= PENDING_CONSOLIDATIONS_LIMIT
    && forall c :: c in b.state.consolidations ==> c.sourceIndex < |b.state.validators|
  }

  // ----- positions in the opened block

  lemma PathThroughBlock(field: nat, depth: nat, index: nat, inner: nat)
    requires inner >= 1
    ensures var below := Concat(Concat(Concat(STATE_BASE + field, 2), Pow2(depth) + index), inner);
            InList(field, depth, index, inner) == Concat(11, below)
  {
    hide Concat, Pow2;
    ConcatAssociates(11, STATE_BASE + field, 2);
    ConcatAssociates(11, Concat(STATE_BASE + field, 2), Pow2(depth) + index);
    ConcatAssociates(11, Concat(Concat(STATE_BASE + field, 2), Pow2(depth) + index), inner);
  }

  /** The branch from an element's field to the block root is the assembled
      state layers followed by the header's. */
  lemma BlockBranch(H: PairHash, b: Block, field: nat, elements: seq<Tree<Bytes32>>, depth: nat,
                    index: nat, inner: nat)
    requires |b.state.otherRoots| == FIELD_COUNT && b.header.stateRoot == Root(H, BlockStateTree(b))
    requires var fields := FieldTrees(b.state, VALIDATORS_TREE_DEPTH, CONSOLIDATIONS_TREE_DEPTH);
             field < FIELD_COUNT && fields[field] == ListTree(elements, depth)
    requires index < |elements| && index < Pow2(depth)
    requires inner >= 1 && NodeAt(elements[index], inner).Some?
    ensures var t, g := OpenBlock(b), InList(field, depth, index, inner);
            var fields := FieldTrees(b.state, VALIDATORS_TREE_DEPTH, CONSOLIDATIONS_TREE_DEPTH);
            && Root(H, t) == BlockRoot(H, b.header)
            && NodeAt(t, g) == NodeAt(elements[index], inner)
            && Branch(H, t, g) == LayeredBranch(H, elements, depth, index, inner, Roots(H, fields), field)
                                + HeaderBranch(H, b.header)
  {
    hide Complete, Branch, NodeAt, Concat, Root, Pow2, InList, LayeredBranch, ListTree;
    var state := BlockStateTree(b);
    var fields := FieldTrees(b.state, VALIDATORS_TREE_DEPTH, CONSOLIDATIONS_TREE_DEPTH);
    OpeningTheState(H, b.header, state);
    LayersAreOneBranch(H, fields, field, elements, depth, index, inner);
    PathThroughBlock(field, depth, index, inner);
    BranchConcat(H, OpenBlock(b), 11, Concat(Concat(Concat(STATE_BASE + field, 2), Pow2(depth) + index), inner));
  }

  lemma ListFields(b: Block)
    requires |b.state.otherRoots| == FIELD_COUNT
    ensures var fields := FieldTrees(b.state, VALIDATORS_TREE_DEPTH, CONSOLIDATIONS_TREE_DEPTH);
            && fields[VALIDATORS_FIELD] == ListTree(ValidatorTrees(b.state.validators), VALIDATORS_TREE_DEPTH)
            && fields[CONSOLIDATIONS_FIELD]
            == ListTree(ConsolidationTrees(b.state.consolidations), CONSOLIDATIONS_TREE_DEPTH)
  {
    hide Complete;
  }

  lemma ConsolidationInBlock(H: PairHash, b: Block, i: nat)
    requires |b.state.otherRoots| == FIELD_COUNT && b.header.stateRoot == Root(H, BlockStateTree(b))
    requires i < |b.state.consolidations| && i < PENDING_CONSOLIDATIONS_LIMIT
    ensures NodeAt(OpenBlock(b), PositionOf(ConsolidationSource(i)))
         == Some(Chunk(U64Chunk(b.state.consolidations[i].sourceIndex)))
  {
    hide Complete, NodeAt, Root, Pow2, InList, U64Chunk, ListTree, OpenBlock, BlockStateTree;
    Pow2Values();
    ListFields(b);
    SourceIndexField(b.state.consolidations[i]);
    BlockBranch(H, b, CONSOLIDATIONS_FIELD, ConsolidationTrees(b.state.consolidations),
                CONSOLIDATIONS_TREE_DEPTH, i, 2);
  }

  lemma ValidatorInBlock(H: PairHash, b: Block, i: nat)
    requires |b.state.otherRoots| == FIELD_COUNT && b.header.stateRoot == Root(H, BlockStateTree(b))
    requires i < |b.state.validators| && i < VALIDATOR_REGISTRY_LIMIT
    ensures var v := b.state.validators[i];
            && NodeAt(OpenBlock(b), PositionOf(ValidatorCredentials(i))) == Some(Chunk(v.withdrawalCredentials))
            && NodeAt(OpenBlock(b), PositionOf(ValidatorActivation(i))) == Some(Chunk(U64Chunk(v.activationEpoch)))
  {
    hide Complete, NodeAt, Root, Pow2, InList, U64Chunk, ListTree, OpenBlock, BlockStateTree;
    Pow2Values();
    ListFields(b);
    ValidatorField(b.state.validators[i], CREDENTIALS_FIELD);
    ValidatorField(b.state.validators[i], ACTIVATION_FIELD);
    BlockBranch(H, b, VALIDATORS_FIELD, ValidatorTrees(b.state.validators), VALIDATORS_TREE_DEPTH, i, 9);
    BlockBranch(H, b, VALIDATORS_FIELD, ValidatorTrees(b.state.validators), VALIDATORS_TREE_DEPTH, i, 13);
  }

  // ----- completeness

  /** A prover at production depths whose list field roots are the lists' own
      and whose state root is the header's. The other field roots are free. */
  ghost predicate Consistent(H: PairHash, p: StateProver, header: BeaconBlockHeader)
  {
    && p.Valid(H)
    && p.validatorsTreeDepth == VALIDATORS_TREE_DEPTH
    && p.consolidationsTreeDepth == CONSOLIDATIONS_TREE_DEPTH
    && p.fieldRoots[VALIDATORS_FIELD] == Root(H, ListTree(ValidatorTrees(p.validators), p.validatorsTreeDepth))
    && p.fieldRoots[CONSOLIDATIONS_FIELD]
       == Root(H, ListTree(ConsolidationTrees(p.consolidations), p.consolidationsTreeDepth))
    && header.stateRoot == Root(H, SparseProof.PaddedTree(ZERO, p.fieldRoots, STATE_DEPTH))
  }

  function ProvenBlock(p: StateProver, header: BeaconBlockHeader): Block
  {
    Block(header, State(p.fieldRoots, p.validators, p.consolidations))
  }

  lemma ProvenBlockCommits(H: PairHash, p: StateProver, header: BeaconBlockHeader)
    requires Consistent(H, p, header)
    ensures var b := ProvenBlock(p, header);
            && |b.state.otherRoots| == FIELD_COUNT
            && Roots(H, FieldTrees(b.state, VALIDATORS_TREE_DEPTH, CONSOLIDATIONS_TREE_DEPTH)) == p.fieldRoots
            && header.stateRoot == Root(H, BlockStateTree(b))
  {
    hide Complete, ListTree;
    var b := ProvenBlock(p, header);
    var fields := FieldTrees(b.state, VALIDATORS_TREE_DEPTH, CONSOLIDATIONS_TREE_DEPTH);
    ListFields(b);
    assert Roots(H, fields) == p.fieldRoots;
    RootOfRoots(H, ZERO, fields, 0, STATE_DEPTH);
  }

  /** Every state has such a prover and such a header, whatever its lists, its
      other field roots and the rest of the header: the one `new` builds from
      the state's own field roots, and the header holding the computed root. */
  lemma EveryStateIsProvable(H: PairHash, s: State, header: BeaconBlockHeader)
    requires |s.otherRoots| == FIELD_COUNT
    ensures var trees := FieldTrees(s, VALIDATORS_TREE_DEPTH, CONSOLIDATIONS_TREE_DEPTH);
            var made := StateProver.New(H, Roots(H, trees), s.validators, s.consolidations,
                                        VALIDATORS_TREE_DEPTH, CONSOLIDATIONS_TREE_DEPTH);
            && made.Ok?
            && made.value.validators == s.validators && made.value.consolidations == s.consolidations
            && Consistent(H, made.value, header.(stateRoot :=
                 Root(H, SparseProof.PaddedTree(ZERO, Roots(H, trees), STATE_DEPTH))))
  {
    hide Complete, ListTree, SparseProof.PaddedTree;
    ListFields(Block(header, s));
  }

  function ArgsOf(b: Bundle): ClaimArgs
  {
    ClaimArgs(b.beaconTimestamp, b.consolidationIndex, b.sourceIndex, b.activationEpoch, b.sourceCredentials,
              b.proofConsolidation, b.proofCredentials, b.proofActivationEpoch)
  }

  /** The three proofs of a claim, as the contract checks them. */
  predicate ProofsOk(H: PairHash, root: Bytes32, a: ClaimArgs)
  {
    && |a.proofConsolidation| == CONSOLIDATION_PROOF_LENGTH
    && |a.proofCredentials| == |a.proofActivationEpoch| == VALIDATOR_PROOF_LENGTH
    && ProofOk(H, root, U64Chunk(a.sourceIndex), a.proofConsolidation, ConsolidationSource(a.consolidationIndex))
    && ProofOk(H, root, a.sourceCredentials, a.proofCredentials, ValidatorCredentials(a.sourceIndex))
    && ProofOk(H, root, U64Chunk(a.activationEpoch), a.proofActivationEpoch, ValidatorActivation(a.sourceIndex))
  }

  lemma TreeBranchIsOk(H: PairHash, b: Block, t: Target, leaf: Bytes32, proof: seq<Bytes32>)
    requires |b.state.otherRoots| == FIELD_COUNT && b.header.stateRoot == Root(H, BlockStateTree(b)) && InRange(t)
    requires NodeAt(OpenBlock(b), PositionOf(t)) == Some(Chunk(leaf))
    requires proof == Branch(H, OpenBlock(b), PositionOf(t))
    ensures ProofOk(H, BlockRoot(H, b.header), leaf, proof, t) && |proof| == ProofLength(t)
  {
    hide Complete, NodeAt, Branch, BlockTree, BlockStateTree, PositionOf, ShiftedPosition, FloorLog2;
    OpeningTheState(H, b.header, BlockStateTree(b));
    PositionsAgree(t);
    BranchAccepted(H, OpenBlock(b), PositionOf(t));
    RootOfChunk(H, leaf);
  }

  lemma RootOfChunk(H: PairHash, leaf: Bytes32)
    ensures Root(H, Chunk(leaf)) == leaf
  {
  }

  /** The three assembled proofs are the opened block's own branches. */
  lemma BundleBranches(H: PairHash, p: StateProver, header: BeaconBlockHeader, index: nat,
                       timestamp: uint64, bundle: Bundle)
    requires Consistent(H, p, header) && p.IsBundleFor(H, header, index, timestamp, bundle)
    ensures var t := OpenBlock(ProvenBlock(p, header));
            var source := p.consolidations[index].sourceIndex;
            var (i, c, e) := (ConsolidationSource(index), ValidatorCredentials(source), ValidatorActivation(source));
            && InRange(i) && InRange(c) && InRange(e)
            && NodeAt(t, PositionOf(i)) == Some(Chunk(U64Chunk(source)))
            && NodeAt(t, PositionOf(c)) == Some(Chunk(bundle.sourceCredentials))
            && NodeAt(t, PositionOf(e)) == Some(Chunk(U64Chunk(bundle.activationEpoch)))
            && bundle.proofConsolidation == Branch(H, t, PositionOf(i))
            && bundle.proofCredentials == Branch(H, t, PositionOf(c))
            && bundle.proofActivationEpoch == Branch(H, t, PositionOf(e))
  {
    hide Complete, NodeAt, Branch, Root, ListTree, BlockStateTree, OpenBlock, Pow2, InList, LayeredBranch,
         HeaderBranch, U64Chunk;
    Pow2Values();
    var b := ProvenBlock(p, header);
    var source := p.consolidations[index].sourceIndex;
    ProvenBlockCommits(H, p, header);
    ListFields(b);
    SourceIndexField(p.consolidations[index]);
    ValidatorField(p.validators[source], CREDENTIALS_FIELD);
    ValidatorField(p.validators[source], ACTIVATION_FIELD);
    ConsolidationInBlock(H, b, index);
    ValidatorInBlock(H, b, source);
    BlockBranch(H, b, CONSOLIDATIONS_FIELD, ConsolidationTrees(p.consolidations), CONSOLIDATIONS_TREE_DEPTH, index, 2);
    BlockBranch(H, b, VALIDATORS_FIELD, ValidatorTrees(p.validators), VALIDATORS_TREE_DEPTH, source, 9);
    BlockBranch(H, b, VALIDATORS_FIELD, ValidatorTrees(p.validators), VALIDATORS_TREE_DEPTH, source, 13);
  }

  /** Every bundle the prover builds passes the contract's three checks, with
      exactly the lengths it demands. */
  lemma BundleVerifies(H: PairHash, p: StateProver, header: BeaconBlockHeader, index: nat,
                       timestamp: uint64, bundle: Bundle)
    requires Consistent(H, p, header) && p.IsBundleFor(H, header, index, timestamp, bundle)
    ensures ProofsOk(H, BlockRoot(H, header), ArgsOf(bundle))
  {
    hide Complete, NodeAt, Branch, Root, ListTree, BlockStateTree, OpenBlock, Pow2, PositionOf, ProofOk, U64Chunk;
    var b := ProvenBlock(p, header);
    var source := p.consolidations[index].sourceIndex;
    ProvenBlockCommits(H, p, header);
    BundleBranches(H, p, header, index, timestamp, bundle);
    TreeBranchIsOk(H, b, ConsolidationSource(index), U64Chunk(source), bundle.proofConsolidation);
    TreeBranchIsOk(H, b, ValidatorCredentials(source), bundle.sourceCredentials, bundle.proofCredentials);
    TreeBranchIsOk(H, b, ValidatorActivation(source), U64Chunk(bundle.activationEpoch), bundle.proofActivationEpoch);
  }

  /** The address 20 big-endian bytes spell. */
  function AddressSpelled(bytes: seq<byte>): (r: Address)
    requires |bytes| == 20
    ensures r == FromBe(bytes)
  {
    AddressWidth();
    BeSplit([], bytes);
    FromBe(bytes)
  }

  /** The address the contract pays is the last 20 bytes of the credentials. */
  lemma AddressIsLastBytes(credentials: Bytes32)
    ensures AddressOf(credentials) == AddressSpelled(credentials[12..32])
  {
    hide FromBe, Pow2;
    var c := credentials;
    assert c == c[..12] + c[12..32];
    BeSplit(c[..12], c[12..32]);
    AddressWidth();
    ModUnique(Pow2(160), FromBe(c[..12]), FromBe(c[12..32]));
  }

  /** The prover's 20 address bytes spell the address the contract pays. */
  lemma RecipientsAgree(bundle: Bundle)
    ensures bundle.RecipientAddress().Some? <==>
      Prefix(bundle.sourceCredentials) == 1 || Prefix(bundle.sourceCredentials) == 2
    ensures bundle.RecipientAddress().Some? ==>
      AddressSpelled(bundle.RecipientAddress().value) == AddressOf(bundle.sourceCredentials)
  {
    hide AddressOf, AddressSpelled;
    AddressIsLastBytes(bundle.sourceCredentials);
  }

  lemma AddressWidth()
    ensures Pow2(160) == 0x1_0000_0000_0000_0000_0000_0000_0000_0000_0000_0000
  {
    hide Pow2;
    Pow2Values();
    Pow2Add(64, 64);
    Pow2Add(128, 32);
  }

  /** The address whose 20 bytes the prover announces with the bundle. */
  function AnnouncedAddress(bundle: Bundle): Address
    requires bundle.RecipientAddress().Some?
  {
    AddressSpelled(bundle.RecipientAddress().value)
  }

  /** The entry is in its list, its source is a validator, and both lie below
      the limits of 2^18 entries and 2^40 validators. */
  predicate Listed(p: StateProver, index: nat)
  {
    && index < |p.consolidations| && index < 0x4_0000
    && p.consolidations[index].sourceIndex < |p.validators|
    && p.consolidations[index].sourceIndex < 0x100_0000_0000
  }

  /** A consistent prover has a bundle for exactly the listed entries. */
  lemma EveryListedEntryIsProvable(H: PairHash, p: StateProver, header: BeaconBlockHeader, index: nat)
    requires Consistent(H, p, header)
    ensures Listed(p, index) <==> p.Provable(index)
    ensures forall timestamp, bundle :: p.IsBundleFor(H, header, index, timestamp, bundle) ==> Listed(p, index)
  {
    hide Pow2;
    Pow2Values();
  }

  lemma ListedEntryHasBundle(H: PairHash, p: StateProver, header: BeaconBlockHeader, index: nat, timestamp: uint64)
    returns (bundle: Bundle)
    requires Consistent(H, p, header) && Listed(p, index)
    ensures p.IsBundleFor(H, header, index, timestamp, bundle)
  {
    hide StateProver.ConsolidationBranch, StateProver.ValidatorBranch, HeaderBranch;
    EveryListedEntryIsProvable(H, p, header, index);
    var source := p.consolidations[index].sourceIndex;
    var v, up := p.validators[source], HeaderBranch(H, header);
    bundle := Bundle(timestamp, index, source, v.activationEpoch, v.withdrawalCredentials,
                     p.ConsolidationBranch(H, index) + up,
                     p.ValidatorBranch(H, source, CREDENTIALS_FIELD) + up,
                     p.ValidatorBranch(H, source, ACTIVATION_FIELD) + up);
  }

  /** The source is unclaimed, the claim late enough, the reward covered, the
      validator eligible with an address to pay, and the receiver accepts. */
  predicate Payable(root: Bytes32, timestamp: uint64, bundle: Bundle, cfg: Config, env: Env, s: Ledger,
                    reaction: Reaction)
  {
    && root != ZERO
    && bundle.sourceIndex !in s.rewarded && cfg.rewardAmount <= s.balance
    && timestamp + cfg.minClaimDelay <= env.timestamp
    && bundle.activationEpoch < cfg.maxEpoch && bundle.RecipientAddress().Some?
    && (AnnouncedAddress(bundle) == cfg.self || reaction.accepts)
  }

  lemma BundleChecks(H: PairHash, p: StateProver, header: BeaconBlockHeader, index: nat,
                     timestamp: uint64, bundle: Bundle, cfg: Config, env: Env, s: Ledger)
    requires Consistent(H, p, header) && p.IsBundleFor(H, header, index, timestamp, bundle)
    requires timestamp in env.oracle && env.oracle[timestamp] == BlockRoot(H, header)
    requires env.timestamp < SszMerkleVerifier.UINT256_LIMIT
    ensures CheckClaim(H, cfg, env, s.balance, s.rewarded, ArgsOf(bundle)).None? <==>
      && BlockRoot(H, header) != ZERO
      && bundle.sourceIndex !in s.rewarded && cfg.rewardAmount <= s.balance
      && timestamp + cfg.minClaimDelay <= env.timestamp
      && bundle.activationEpoch < cfg.maxEpoch && bundle.RecipientAddress().Some?
  {
    hide CheckClaim, ProofOk, BlockRoot, U64Chunk, AddressOf, FromBe, Prefix, Pow2, Consistent;
    BundleVerifies(H, p, header, index, timestamp, bundle);
    RecipientsAgree(bundle);
    CheckedIsVerified(H, cfg, env, s, ArgsOf(bundle));
  }

  /** End to end: once the oracle reports the block for the bundle's timestamp, a
      bundle is paid to the address the prover announced exactly when its source
      is unclaimed and eligible, the claim late enough, the credentials 0x01 or
      0x02, the reward covered and the recipient, whatever else it does, accepts.
      Otherwise the claim changes nothing. */
  lemma BundleIsPaid(H: PairHash, p: StateProver, header: BeaconBlockHeader, index: nat,
                     timestamp: uint64, bundle: Bundle, cfg: Config, env: Env, s: Ledger, reaction: Reaction)
    requires Consistent(H, p, header) && p.IsBundleFor(H, header, index, timestamp, bundle)
    requires timestamp in env.oracle && env.oracle[timestamp] == BlockRoot(H, header)
    requires env.timestamp < SszMerkleVerifier.UINT256_LIMIT
    ensures if Payable(BlockRoot(H, header), timestamp, bundle, cfg, env, s, reaction) then
              PaidTo(H, cfg, env, s, ArgsOf(bundle), reaction, AnnouncedAddress(bundle))
            else
              var (after, outcome) := Step(H, cfg, env, s, Claim(ArgsOf(bundle), reaction));
              outcome.Reverted? && after == s
  {
    hide PaidTo, CheckClaim, Step, BlockRoot, AddressOf, AddressSpelled, Prefix, Consistent, StateProver.IsBundleFor;
    RecipientsAgree(bundle);
    BundleChecks(H, p, header, index, timestamp, bundle, cfg, env, s);
    ClaimPaysCredentials(H, cfg, env, s, ArgsOf(bundle), reaction);
  }

  // ----- soundness

  /** The bits of K = 740 * 2 OR-ed with out-of-range index bits: either the
      list's data or length node is reached, or a slot past the 37 state fields,
      or slot 7 of the five-field header. */
  lemma OrPatterns(high: nat)
    requires BitOr(1480, high) < 2048
    ensures var k := BitOr(1480, high);
            || k == 1480
            || k == 1481
            || (k / 128 == 11 && 704 + FIELD_COUNT <= k / 2 < 768)
            || k / 128 == 15
  {
    hide BitOr;
    var k := BitOr(1480, high);
    OrBit(1480, high, 7, 11);
    OrBit(1480, high, 8, 5);
    BitPattern(k);
  }

  /** A bit set on the left is set in the OR. */
  lemma {:induction false} OrBit(a: nat, b: nat, i: nat, rest: nat)
    requires Shr(a, i) == rest && rest % 2 == 1
    ensures Shr(BitOr(a, b), i) % 2 == 1
    decreases i
  {
    hide BitOr;
    OrHalves(a, b);
    assert BitOr(a, b) / 2 == BitOr(a / 2, b / 2);
    if i > 0 {
      OrBit(a / 2, b / 2, i - 1, rest);
    }
  }

  lemma BitPattern(k: nat)
    requires 1480 <= k < 2048 && Shr(k, 7) % 2 == Shr(k, 8) % 2 == 1
    ensures || k == 1480
            || k == 1481
            || (k / 128 == 11 && 704 + FIELD_COUNT <= k / 2 < 768)
            || k / 128 == 15
  {
    hide Shr;
    ShrValues(k);
    var top := k / 128;
    assert 11 <= top <= 15 && (k / 256) == top / 2;
    assert top == 11 || top == 15;
  }

  lemma ShrValues(k: nat)
    ensures Shr(k, 7) == k / 128 && Shr(k, 8) == k / 256
  {
    hide Shr;
    ShrSmall(k);
    ShrShr(k, 3, 3);
    ShrSmall(k / 8);
    ShrStep(k, 6);
    ShrStep(k, 7);
  }

  lemma ShiftsOfPosition(k: nat, low: nat, g: nat)
    requires k >= 1 && low < Pow2(CONSOLIDATIONS_TREE_DEPTH)
    requires g == 2 * Concat(k, Pow2(CONSOLIDATIONS_TREE_DEPTH) + low)
    requires g == Concat(Concat(k, Pow2(CONSOLIDATIONS_TREE_DEPTH) + low), 2)
    ensures Shr(g, 1) == Concat(k, Pow2(CONSOLIDATIONS_TREE_DEPTH) + low)
    ensures Shr(g, 19) == k && Shr(g, 20) == k / 2 && Shr(g, 26) == k / 128
    ensures FloorLog2(g) == 19 + FloorLog2(k)
  {
    ShrValues(k);
    hide Shl, Shr, LowBits, FloorLog2, Concat;
    SmallPowers();
    hide Pow2;
    ConcatSlot(k, CONSOLIDATIONS_TREE_DEPTH, low);
    var element := Concat(k, Pow2(CONSOLIDATIONS_TREE_DEPTH) + low);
    ShlIsTimes(element, 1);
    SplitUnique(element, 1, 0);
    SplitUnique(k, CONSOLIDATIONS_TREE_DEPTH, low);
    ShrShr(g, 1, CONSOLIDATIONS_TREE_DEPTH);
    ShrStep(g, 19);
    ShrShr(g, 19, 7);
    LogOfSlot(CONSOLIDATIONS_TREE_DEPTH, low);
    ConcatDepth(k, Pow2(CONSOLIDATIONS_TREE_DEPTH) + low);
    ConcatDepth(element, 2);
    BaseDepths(0);
  }

  // What lies at the positions an out-of-range index can name.

  lemma StateSlot(b: Block, i: nat)
    requires |b.state.otherRoots| == FIELD_COUNT && i < 64
    ensures Concat(11, 64 + i) == 704 + i
    ensures NodeAt(OpenBlock(b), 704 + i) == NodeAt(BlockStateTree(b), 64 + i)
    ensures i >= FIELD_COUNT ==> NodeAt(OpenBlock(b), 704 + i) == Some(Chunk(ZERO))
  {
    ListDataGindex(i);
    SmallPowers();
    hide Complete, NodeAt, Concat, Pow2;
    LeafAt(ZERO, HeaderFields(b.header, BlockStateTree(b)), HEADER_DEPTH, STATE_ROOT_FIELD);
    NodeAtConcat(OpenBlock(b), 11, 64 + i);
    StateField(b.state, VALIDATORS_TREE_DEPTH, CONSOLIDATIONS_TREE_DEPTH, i);
  }

  lemma HeaderSlotSeven(b: Block)
    requires |b.state.otherRoots| == FIELD_COUNT
    ensures NodeAt(OpenBlock(b), 15) == Some(Chunk(ZERO))
  {
    SmallPowers();
    hide Complete, NodeAt, Concat, Pow2;
    LeafAt(ZERO, HeaderFields(b.header, BlockStateTree(b)), HEADER_DEPTH, 7);
  }

  /** The pending list, its data and its length, from the block root. */
  lemma ConsolidationListNodes(b: Block)
    requires |b.state.otherRoots| == FIELD_COUNT
    ensures var t, trees := OpenBlock(b), ConsolidationTrees(b.state.consolidations);
            && NodeAt(t, 1480) == Some(Complete(ZERO, trees, 0, CONSOLIDATIONS_TREE_DEPTH))
            && NodeAt(t, 1481) == Some(Chunk(U64Chunk(|trees|)))
  {
    StateSlot(b, CONSOLIDATIONS_FIELD);
    StateField(b.state, VALIDATORS_TREE_DEPTH, CONSOLIDATIONS_TREE_DEPTH, CONSOLIDATIONS_FIELD);
    ListFields(b);
    ConcatTwoThree(740);
    ListElement(ConsolidationTrees(b.state.consolidations), CONSOLIDATIONS_TREE_DEPTH, 0);
    hide Complete, NodeAt, Concat, Pow2, OpenBlock, BlockStateTree, ListTree, U64Chunk;
    NodeAtConcat(OpenBlock(b), 740, 2);
    NodeAtConcat(OpenBlock(b), 740, 3);
  }

  lemma EmptyConsolidationSlot(b: Block, low: nat)
    requires |b.state.otherRoots| == FIELD_COUNT && low < Pow2(CONSOLIDATIONS_TREE_DEPTH)
    requires low >= |b.state.consolidations|
    ensures NodeAt(OpenBlock(b), Concat(1480, Pow2(CONSOLIDATIONS_TREE_DEPTH) + low)) == Some(Chunk(ZERO))
  {
    hide Complete, NodeAt, Concat, Pow2, OpenBlock, BlockStateTree, ListTree, U64Chunk;
    ConsolidationListNodes(b);
    NodeAtConcat(OpenBlock(b), 1480, Pow2(CONSOLIDATIONS_TREE_DEPTH) + low);
    LeafAt(ZERO, ConsolidationTrees(b.state.consolidations), CONSOLIDATIONS_TREE_DEPTH, low);
  }

  lemma ConcatTwoThree(g: nat)
    requires g >= 1
    ensures Concat(g, 2) == 2 * g && Concat(g, 3) == 2 * g + 1
  {
    assert Concat(g, 1) == g;
  }

  function SourceNode(b: Block, i: nat): Tree<Bytes32>
    requires i < |b.state.consolidations|
  {
    Chunk(U64Chunk(b.state.consolidations[i].sourceIndex))
  }

  lemma ContractNodeInRange(H: PairHash, b: Block, k: nat, low: nat, g: nat)
    requires WellFormed(H, b) && k == 1480 && low < |b.state.consolidations|
    requires g == Concat(Concat(k, Pow2(CONSOLIDATIONS_TREE_DEPTH) + low), 2)
    ensures NodeAt(OpenBlock(b), g) == Some(SourceNode(b, low))
  {
    hide Complete, NodeAt, Concat, Pow2, OpenBlock, BlockStateTree, ListTree, U64Chunk, Root, PositionOf;
    SourcePosition(low);
    ConsolidationInBlock(H, b, low);
  }

  lemma SourcePosition(low: nat)
    ensures PositionOf(ConsolidationSource(low)) == Concat(Concat(1480, Pow2(CONSOLIDATIONS_TREE_DEPTH) + low), 2)
  {
    hide Concat, Pow2, ListAt;
    ListDataGindex(CONSOLIDATIONS_FIELD);
  }

  /** Whatever index the contract is given, at the demanded depth its position
      is a pending entry's source or lies below a raw zero or length chunk. */
  lemma ContractNode(H: PairHash, b: Block, index: nat)
    requires WellFormed(H, b)
    requires FloorLog2(ShiftedPosition(ConsolidationSource(index))) == CONSOLIDATION_PROOF_LENGTH
    ensures var t, g := OpenBlock(b), ShiftedPosition(ConsolidationSource(index));
            var low := index % PENDING_CONSOLIDATIONS_LIMIT;
            if NodeAt(t, g).None? then StopsAtRawChunk(b, g)
            else low < |b.state.consolidations| && NodeAt(t, g) == Some(SourceNode(b, low))
  {
    hide Complete, NodeAt, Concat, Pow2, OpenBlock, BlockStateTree, ListTree, U64Chunk, Root, FloorLog2,
         BitOr, Shr, LowBits, ShiftedPosition, StopsAtRawChunk;
    var g := ShiftedPosition(ConsolidationSource(index));
    var k, low := BitOr(1480, Shr(index, CONSOLIDATIONS_TREE_DEPTH)), LowBits(index, CONSOLIDATIONS_TREE_DEPTH);
    Pow2Values();
    LowBitsIsMod(index, CONSOLIDATIONS_TREE_DEPTH);
    ContractPositionSplits(index);
    ShiftsOfPosition(k, low, g);
    OrPatterns(Shr(index, CONSOLIDATIONS_TREE_DEPTH));
    if k == 1480 && low < |b.state.consolidations| {
      ContractNodeInRange(H, b, k, low, g);
    } else {
      OutsideTheList(b, k, low, g);
    }
  }

  ghost predicate StopsAtRawChunk(b: Block, g: nat)
    requires g >= 1 && |b.state.otherRoots| == FIELD_COUNT
  {
    var stop := Reached(OpenBlock(b), g);
    stop == Chunk(ZERO) || stop == Chunk(U64Chunk(|b.state.consolidations|))
  }

  lemma OutsideTheList(b: Block, k: nat, low: nat, g: nat)
    requires |b.state.otherRoots| == FIELD_COUNT && g >= 1 && low < Pow2(CONSOLIDATIONS_TREE_DEPTH)
    requires || (k == 1480 && low >= |b.state.consolidations|)
             || k == 1481
             || (k / 128 == 11 && 704 + FIELD_COUNT <= k / 2 < 768)
             || k / 128 == 15
    requires Shr(g, 1) == Concat(k, Pow2(CONSOLIDATIONS_TREE_DEPTH) + low)
    requires Shr(g, 19) == k && Shr(g, 20) == k / 2 && Shr(g, 26) == k / 128
    ensures NodeAt(OpenBlock(b), g).None? && StopsAtRawChunk(b, g)
  {
    hide Complete, NodeAt, Reached, Concat, Pow2, OpenBlock, BlockStateTree, ListTree, U64Chunk, Shr;
    if k == 1480 {
      EmptyConsolidationSlot(b, low);
      NothingBelowLeafAbove(OpenBlock(b), g, 1);
    } else if k == 1481 {
      ConsolidationListNodes(b);
      NothingBelowLeafAbove(OpenBlock(b), g, 19);
    } else if k / 128 == 11 {
      StateSlot(b, k / 2 - 704);
      NothingBelowLeafAbove(OpenBlock(b), g, 20);
    } else {
      HeaderSlotSeven(b);
      NothingBelowLeafAbove(OpenBlock(b), g, 26);
    }
  }

  // ----- what an accepted claim proves

  /** The first finding among the claim's three proofs. */
  function ClaimFinding(H: PairHash, b: Block, a: ClaimArgs): Finding<Bytes32>
    requires |b.state.otherRoots| == FIELD_COUNT && ProofsOk(H, BlockRoot(H, b.header), a)
  {
    var t := OpenBlock(b);
    var source := Extract(H, t, U64Chunk(a.sourceIndex), a.proofConsolidation,
                          ShiftedPosition(ConsolidationSource(a.consolidationIndex)));
    if !source.Clean? then source
    else
      var credentials := Extract(H, t, a.sourceCredentials, a.proofCredentials,
                                 ShiftedPosition(ValidatorCredentials(a.sourceIndex)));
      if !credentials.Clean? then credentials
      else Extract(H, t, U64Chunk(a.activationEpoch), a.proofActivationEpoch,
                   ShiftedPosition(ValidatorActivation(a.sourceIndex)))
  }

  /** The claim is true of the state: a pending entry has the source, and the
      credentials and the epoch are that validator's. The entry is the one the
      index names modulo the list limit; the contract does not bound the index. */
  predicate Earned(s: State, a: ClaimArgs)
  {
    var i := a.consolidationIndex % PENDING_CONSOLIDATIONS_LIMIT;
    && i < |s.consolidations|
    && s.consolidations[i].sourceIndex == a.sourceIndex < |s.validators|
    && s.validators[a.sourceIndex].withdrawalCredentials == a.sourceCredentials
    && s.validators[a.sourceIndex].activationEpoch == a.activationEpoch
  }

  /** A broken hash: two different pairs with one hash, or a pair hashing to the
      zero chunk or to the list's length chunk. No chunk a validator can choose
      and no sealed root counts. */
  ghost predicate Broken(H: PairHash, s: State, f: Finding<Bytes32>)
  {
    && Genuine(H, f)
    && !f.Opened?
    && (f.Preimage? ==> f.chunk == ZERO || f.chunk == U64Chunk(|s.consolidations|))
  }

  lemma ConsolidationProofSound(H: PairHash, b: Block, a: ClaimArgs)
    requires WellFormed(H, b) && ProofsOk(H, BlockRoot(H, b.header), a)
    ensures var f := Extract(H, OpenBlock(b), U64Chunk(a.sourceIndex), a.proofConsolidation,
                             ShiftedPosition(ConsolidationSource(a.consolidationIndex)));
            var i := a.consolidationIndex % PENDING_CONSOLIDATIONS_LIMIT;
            if f.Clean? then i < |b.state.consolidations| && b.state.consolidations[i].sourceIndex == a.sourceIndex
            else Broken(H, b.state, f)
  {
    hide Complete, NodeAt, Reached, BlockTree, BlockStateTree, U64Chunk, FloorLog2, LowBits, ShiftedPosition, Fold,
         Extract;
    var t, g := OpenBlock(b), ShiftedPosition(ConsolidationSource(a.consolidationIndex));
    var i := a.consolidationIndex % PENDING_CONSOLIDATIONS_LIMIT;
    OpeningTheState(H, b.header, BlockStateTree(b));
    ContractNode(H, b, a.consolidationIndex);
    ExtractSound(H, t, U64Chunk(a.sourceIndex), a.proofConsolidation, g);
    if Extract(H, t, U64Chunk(a.sourceIndex), a.proofConsolidation, g).Clean? {
      RootOfChunk(H, U64Chunk(b.state.consolidations[i].sourceIndex));
      U64ChunkInjective(a.sourceIndex, b.state.consolidations[i].sourceIndex);
    }
  }

  /** A proof for a node the tree has: the leaf is the node's, or a collision. */
  lemma ProofOfExistingNode(H: PairHash, b: Block, t: Target, leaf: Bytes32, proof: seq<Bytes32>, actual: Bytes32)
    requires WellFormed(H, b) && InRange(t) && ProofOk(H, BlockRoot(H, b.header), leaf, proof, t)
    requires NodeAt(OpenBlock(b), PositionOf(t)) == Some(Chunk(actual))
    ensures ShiftedPosition(t) >= 1
    ensures var f := Extract(H, OpenBlock(b), leaf, proof, ShiftedPosition(t));
            if f.Clean? then leaf == actual else f.Collision? && Genuine(H, f)
  {
    hide Complete, NodeAt, Reached, BlockTree, BlockStateTree, FloorLog2, ShiftedPosition, PositionOf, Fold, Extract;
    OpeningTheState(H, b.header, BlockStateTree(b));
    PositionsAgree(t);
    ExtractSound(H, OpenBlock(b), leaf, proof, ShiftedPosition(t));
    RootOfChunk(H, actual);
  }

  /** End-to-end soundness: a claim accepted against a well-formed block is
      true of its state, or its finding is a broken hash. */
  lemma AcceptedClaimIsEarned(H: PairHash, b: Block, a: ClaimArgs)
    requires WellFormed(H, b) && ProofsOk(H, BlockRoot(H, b.header), a)
    ensures var f := ClaimFinding(H, b, a);
            if f.Clean? then Earned(b.state, a) else Broken(H, b.state, f)
  {
    hide Complete, NodeAt, OpenBlock, BlockStateTree, U64Chunk, LowBits, ShiftedPosition, PositionOf, Pow2, Root,
         Extract, ProofOk;
    ConsolidationProofSound(H, b, a);
    var i := a.consolidationIndex % PENDING_CONSOLIDATIONS_LIMIT;
    var source := Extract(H, OpenBlock(b), U64Chunk(a.sourceIndex), a.proofConsolidation,
                          ShiftedPosition(ConsolidationSource(a.consolidationIndex)));
    if source.Clean? {
      assert b.state.consolidations[i] in b.state.consolidations;
      var v := b.state.validators[a.sourceIndex];
      ValidatorInBlock(H, b, a.sourceIndex);
      ProofOfExistingNode(H, b, ValidatorCredentials(a.sourceIndex), a.sourceCredentials, a.proofCredentials,
                          v.withdrawalCredentials);
      ProofOfExistingNode(H, b, ValidatorActivation(a.sourceIndex), U64Chunk(a.activationEpoch),
                          a.proofActivationEpoch, U64Chunk(v.activationEpoch));
      if ClaimFinding(H, b, a).Clean? {
        U64ChunkInjective(a.activationEpoch, v.activationEpoch);
      }
    }
  }

  /** The two directions meet: the extractor finds nothing in a bundle the
      prover built for a well-formed block. */
  lemma BundleHasNoFinding(H: PairHash, p: StateProver, header: BeaconBlockHeader, index: nat,
                           timestamp: uint64, bundle: Bundle)
    requires Consistent(H, p, header) && p.IsBundleFor(H, header, index, timestamp, bundle)
    ensures ProofsOk(H, BlockRoot(H, header), ArgsOf(bundle))
    ensures ClaimFinding(H, ProvenBlock(p, header), ArgsOf(bundle)).Clean?
  {
    hide Complete, NodeAt, Roots, FieldTrees, Branch, Root, ListTree, BlockStateTree, OpenBlock, BlockRoot, ProofOk,
         U64Chunk, PositionOf, ShiftedPosition, Extract, Consistent;
    var b := ProvenBlock(p, header);
    var source := p.consolidations[index].sourceIndex;
    ProvenBlockCommits(H, p, header);
    BundleVerifies(H, p, header, index, timestamp, bundle);
    BundleBranches(H, p, header, index, timestamp, bundle);
    OwnProofIsClean(H, b, ConsolidationSource(index), U64Chunk(source), bundle.proofConsolidation);
    OwnProofIsClean(H, b, ValidatorCredentials(source), bundle.sourceCredentials, bundle.proofCredentials);
    OwnProofIsClean(H, b, ValidatorActivation(source), U64Chunk(bundle.activationEpoch), bundle.proofActivationEpoch);
  }

  lemma OwnProofIsClean(H: PairHash, b: Block, t: Target, leaf: Bytes32, proof: seq<Bytes32>)
    requires |b.state.otherRoots| == FIELD_COUNT && InRange(t)
    requires NodeAt(OpenBlock(b), PositionOf(t)) == Some(Chunk(leaf))
    requires proof == Branch(H, OpenBlock(b), PositionOf(t))
    ensures Extract(H, OpenBlock(b), leaf, proof, ShiftedPosition(t)).Clean?
  {
    hide Complete, NodeAt, Branch, OpenBlock, PositionOf, ShiftedPosition, Extract;
    PositionsAgree(t);
    RootOfChunk(H, leaf);
    OwnBranchIsClean(H, OpenBlock(b), PositionOf(t));
  }

  // ----- over whole runs

  /** Every state within the limits whose sources are validators is that of a
      well-formed block, whatever the rest of the header. */
  lemma EveryStateHasABlock(H: PairHash, s: State, header: BeaconBlockHeader)
    requires |s.otherRoots| == 37 && |s.validators| <= 0x100_0000_0000 && |s.consolidations| <= 0x4_0000
    requires forall c :: c in s.consolidations ==> c.sourceIndex < |s.validators|
    ensures WellFormed(H, Block(header.(stateRoot := Root(H, StateTree(s, 40, 18))), s))
  {
    hide StateTree;
  }

  /** An oracle that reports such a block's root is honest. */
  lemma ReportedBlockIsHonest(H: PairHash, b: Block, time: uint64, now: nat)
    requires WellFormed(H, b)
    ensures var root := BlockRoot(H, b.header);
            Honest(H, Env(now, map[time := root]), map[root := b])
  {
    hide WellFormed, BlockRoot;
  }

  /** Every root the oracle reports is the root of a known well-formed block. */
  ghost predicate Honest(H: PairHash, env: Env, chain: map<Bytes32, Block>)
  {
    forall time :: time in env.oracle && env.oracle[time] != ZERO ==>
      && env.oracle[time] in chain
      && BlockRoot(H, chain[env.oracle[time]].header) == env.oracle[time]
      && WellFormed(H, chain[env.oracle[time]])
  }

  /** The claim is true of an eligible validator whose own credentials spell
      the address. */
  predicate EarnedAt(cfg: Config, s: State, a: ClaimArgs, to: Address)
  {
    && Earned(s, a)
    && var v := s.validators[a.sourceIndex];
    && v.activationEpoch < cfg.maxEpoch
    && (Prefix(v.withdrawalCredentials) == 1 || Prefix(v.withdrawalCredentials) == 2)
    && to == AddressSpelled(v.withdrawalCredentials[12..32])
  }

  /** The reward went to a pending, eligible validator of an old enough block,
      at the address in its own withdrawal credentials, in the fixed amount; or
      its proofs exhibit a broken hash. */
  ghost predicate PaymentEarned(H: PairHash, cfg: Config, chain: map<Bytes32, Block>, p: Payment)
    requires p.purpose.Reward?
  {
    var env, a := p.purpose.env, p.purpose.args;
    && p.amount == cfg.rewardAmount
    && a.beaconTimestamp + cfg.minClaimDelay <= env.timestamp
    && a.beaconTimestamp in env.oracle && env.oracle[a.beaconTimestamp] in chain
    && var b := chain[env.oracle[a.beaconTimestamp]];
    && |b.state.otherRoots| == FIELD_COUNT
    && ProofsOk(H, BlockRoot(H, b.header), a)
    && var f := ClaimFinding(H, b, a);
    if f.Clean? then EarnedAt(cfg, b.state, a, p.to)
    else Broken(H, b.state, f)
  }

  lemma OwedIsEarned(H: PairHash, cfg: Config, chain: map<Bytes32, Block>, p: Payment)
    requires p.purpose.Reward? && Owed(H, cfg, p) && Honest(H, p.purpose.env, chain)
    ensures PaymentEarned(H, cfg, chain, p)
  {
    hide ProofOk, ClaimFinding, BlockRoot, U64Chunk, Broken, AddressOf, AddressSpelled;
    var a := p.purpose.args;
    var b := chain[p.purpose.env.oracle[a.beaconTimestamp]];
    AcceptedClaimIsEarned(H, b, a);
    AddressIsLastBytes(a.sourceCredentials);
  }

  /** From deployment, over any run of transactions with any reentrant
      recipients, against an honest oracle: the balance is accounted for by the
      value sent in, every rewarded source has exactly one reward on record,
      every address got one reward per source paid there, and every reward was
      earned and went to the validator's own withdrawal address. */
  lemma EveryPaymentIsEarned(H: PairHash, cfg: Config, chain: map<Bytes32, Block>, txs: seq<Transaction>)
    requires forall k :: 0 <= k < |txs| ==> Honest(H, txs[k].env, chain)
    ensures var s := Run(H, cfg, EMPTY, txs);
            && Conserved(cfg, s)
            && s.received == FundedInRun(H, cfg, EMPTY, txs) + SelfPaid(cfg, s.payments)
            && PaidOnce(s.rewarded, s.payments)
            && (forall to :: RewardTotal(s.payments, to) == cfg.rewardAmount * |SourcesPaid(s.payments, to)|)
            && forall i :: 0 <= i < |s.payments| && s.payments[i].purpose.Reward? ==>
                 PaymentEarned(H, cfg, chain, s.payments[i])
  {
    hide PaymentEarned, Verified, RewardFor, Run, Honest;
    EmptyIsGood(H, cfg);
    RunKeepsInv(H, cfg, EMPTY, txs);
    RunReceives(H, cfg, EMPTY, txs);
    var s := Run(H, cfg, EMPTY, txs);
    forall to
      ensures RewardTotal(s.payments, to) == cfg.rewardAmount * |SourcesPaid(s.payments, to)|
    {
      RewardsPerAddress(H, cfg, s, to);
    }
    forall i | 0 <= i < |s.payments| && s.payments[i].purpose.Reward?
      ensures PaymentEarned(H, cfg, chain, s.payments[i])
    {
      assert Owed(H, cfg, s.payments[i]);
      var k :| 0 <= k < |txs| && txs[k].env == s.payments[i].purpose.env;
      OwedIsEarned(H, cfg, chain, s.payments[i]);
    }
  }
}
