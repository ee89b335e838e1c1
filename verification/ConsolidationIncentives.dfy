/** The incentive contract: what one call does to the ledger, with recipients
    that may call back in, and the object that carries the state. */
module ConsolidationIncentives {
  import opened Bits
  import opened Bytes
  import opened Merkle
  import opened Results
  import opened Gindex
  import opened BeaconState
  import SszMerkleVerifier

  type Address = x: int | 0 <= x < 0x1_0000_0000_0000_0000_0000_0000_0000_0000_0000_0000

  const CONSOLIDATION_PROOF_LENGTH := 29
  const VALIDATOR_PROOF_LENGTH := 53

  /** Fixed by `initialize`, with the deployed contract's own address. */
  datatype Config = Config(self: Address, owner: Address, maxEpoch: uint64, rewardAmount: nat, minClaimDelay: nat)

  /** What a transaction sees of the chain: its time and the beacon root oracle. */
  datatype Env = Env(timestamp: nat, oracle: map<uint64, Bytes32>)

  datatype ClaimArgs = ClaimArgs(
    beaconTimestamp: uint64,
    consolidationIndex: uint64,
    sourceIndex: uint64,
    activationEpoch: uint64,
    sourceCredentials: Bytes32,
    proofConsolidation: seq<Bytes32>,
    proofCredentials: seq<Bytes32>,
    proofActivationEpoch: seq<Bytes32>)

  /** A call to the contract, with what the receiver of any value it sends does
      in turn. `Fund` is any incoming value, forced transfers included. `Frame` is
      another contract's own frame: it makes its calls and then accepts or
      reverts, and only its own calls are undone. */
  datatype Call =
    | Claim(args: ClaimArgs, reaction: Reaction)
    | Withdraw(caller: Address, to: Address, amount: nat, reaction: Reaction)
    | Fund(amount: nat)
    | Frame(reaction: Reaction)

  datatype Reaction = Reaction(calls: seq<Call>, accepts: bool)

  datatype Error =
    | AlreadyClaimed(sourceIndex: uint64)
    | ArithmeticPanic
    | TimestampTooRecent(beaconTimestamp: uint64, now: nat, delay: nat)
    | BeaconRootNotFound(beaconTimestamp: uint64)
    | InvalidProofLength(provided: nat, expected: nat)
    | InvalidProof(target: Target)
    | NotEligible(activationEpoch: uint64, maxEpoch: uint64)
    | InvalidCredentialsPrefix(prefix: byte)
    | InsufficientBalance(required: nat, available: nat)
    | TransferFailed(to: Address, amount: nat)
    | NotOwner(caller: Address)
    | FrameReverted

  datatype Outcome = Done | Reverted(error: Error)

  /** Why value left: a claim in its transaction's environment, or the owner. */
  datatype Purpose = Reward(env: Env, args: ClaimArgs) | Withdrawal

  /** Value that left the contract, recorded where it moves. */
  datatype Payment = Payment(to: Address, amount: nat, purpose: Purpose)

  datatype Ledger = Ledger(balance: nat, rewarded: set<uint64>, received: nat, payments: seq<Payment>)

  const EMPTY := Ledger(0, {}, 0, [])

  // ----- the checks of claimReward

  function OracleRoot(env: Env, timestamp: uint64): Bytes32
  {
    if timestamp in env.oracle then env.oracle[timestamp] else ZERO
  }

  function Prefix(credentials: Bytes32): byte
  {
    credentials[0]
  }

  /** address(uint160(uint256(credentials))) */
  function AddressOf(credentials: Bytes32): Address
  {
    FromBe(credentials) % 0x1_0000_0000_0000_0000_0000_0000_0000_0000_0000_0000
  }

  predicate ProofOk(H: PairHash, root: Bytes32, leaf: Bytes32, proof: seq<Bytes32>, t: Target)
  {
    Accepted(H, root, leaf, proof, ShiftedPosition(t))
  }

  /** The first check that fails, in the contract's order. */
  function CheckClaim(H: PairHash, cfg: Config, env: Env, balance: nat, rewarded: set<uint64>, a: ClaimArgs)
    : (failure: Option<Error>)
    ensures failure.None? ==> a.sourceIndex !in rewarded && cfg.rewardAmount <= balance
  {
    if a.sourceIndex in rewarded then Some(AlreadyClaimed(a.sourceIndex))
    else if !SszMerkleVerifier.IsUint256(a.beaconTimestamp + cfg.minClaimDelay) then Some(ArithmeticPanic)
    else if env.timestamp < a.beaconTimestamp + cfg.minClaimDelay then
      Some(TimestampTooRecent(a.beaconTimestamp, env.timestamp, cfg.minClaimDelay))
    else
      var root := OracleRoot(env, a.beaconTimestamp);
      if root == ZERO then Some(BeaconRootNotFound(a.beaconTimestamp))
      else if |a.proofConsolidation| != CONSOLIDATION_PROOF_LENGTH then
        Some(InvalidProofLength(|a.proofConsolidation|, CONSOLIDATION_PROOF_LENGTH))
      else if |a.proofCredentials| != VALIDATOR_PROOF_LENGTH then
        Some(InvalidProofLength(|a.proofCredentials|, VALIDATOR_PROOF_LENGTH))
      else if |a.proofActivationEpoch| != VALIDATOR_PROOF_LENGTH then
        Some(InvalidProofLength(|a.proofActivationEpoch|, VALIDATOR_PROOF_LENGTH))
      else if !ProofOk(H, root, U64Chunk(a.sourceIndex), a.proofConsolidation,
                       ConsolidationSource(a.consolidationIndex)) then
        Some(InvalidProof(ConsolidationSource(a.consolidationIndex)))
      else if !ProofOk(H, root, a.sourceCredentials, a.proofCredentials, ValidatorCredentials(a.sourceIndex)) then
        Some(InvalidProof(ValidatorCredentials(a.sourceIndex)))
      else if !ProofOk(H, root, U64Chunk(a.activationEpoch), a.proofActivationEpoch,
                       ValidatorActivation(a.sourceIndex)) then
        Some(InvalidProof(ValidatorActivation(a.sourceIndex)))
      else if a.activationEpoch >= cfg.maxEpoch then Some(NotEligible(a.activationEpoch, cfg.maxEpoch))
      else if Prefix(a.sourceCredentials) != 1 && Prefix(a.sourceCredentials) != 2 then
        Some(InvalidCredentialsPrefix(Prefix(a.sourceCredentials)))
      else if balance < cfg.rewardAmount then Some(InsufficientBalance(cfg.rewardAmount, balance))
      else None
  }

  // ----- one call, nested calls included

  /** The value leaves and is on record before the receiver acts. */
  function HandedOver(s: Ledger, p: Payment): Ledger
    requires p.amount <= s.balance
  {
    s.(balance := s.balance - p.amount, payments := s.payments + [p])
  }

  function Credited(s: Ledger, amount: nat): Ledger
  {
    s.(balance := s.balance + amount, received := s.received + amount)
  }

  /** A payment to the contract itself reaches `receive`, so the value comes
      straight back; elsewhere the receiver acts and then accepts or rejects. */
  function Send(H: PairHash, cfg: Config, env: Env, s: Ledger, p: Payment, reaction: Reaction): Option<Ledger>
    requires p.amount <= s.balance
    decreases reaction, 1
  {
    if p.to == cfg.self then Some(Credited(HandedOver(s, p), p.amount))
    else if !reaction.accepts then None
    else Some(RunCalls(H, cfg, env, HandedOver(s, p), reaction.calls))
  }

  function RunCalls(H: PairHash, cfg: Config, env: Env, s: Ledger, calls: seq<Call>): Ledger
    decreases calls, 0
  {
    if calls == [] then s
    else
      var last := |calls| - 1;
      Step(H, cfg, env, RunCalls(H, cfg, env, s, calls[..last]), calls[last]).0
  }

  function Marked(s: Ledger, a: ClaimArgs): Ledger
  {
    s.(rewarded := s.rewarded + {a.sourceIndex})
  }

  function RewardFor(cfg: Config, env: Env, a: ClaimArgs): Payment
  {
    Payment(AddressOf(a.sourceCredentials), cfg.rewardAmount, Reward(env, a))
  }

  /** A reverted call leaves the ledger as it was, whatever happened inside it. */
  function Step(H: PairHash, cfg: Config, env: Env, s: Ledger, call: Call): (r: (Ledger, Outcome))
    ensures r.1.Reverted? ==> r.0 == s
    decreases call, 0
  {
    match call
    case Claim(a, reaction) =>
      var failure := CheckClaim(H, cfg, env, s.balance, s.rewarded, a);
      if failure.Some? then (s, Reverted(failure.value))
      else
        var sent := Send(H, cfg, env, Marked(s, a), RewardFor(cfg, env, a), reaction);
        if sent.Some? then (sent.value, Done)
        else (s, Reverted(TransferFailed(AddressOf(a.sourceCredentials), cfg.rewardAmount)))
    case Withdraw(caller, to, amount, reaction) =>
      if caller != cfg.owner then (s, Reverted(NotOwner(caller)))
      else if amount > s.balance then (s, Reverted(InsufficientBalance(amount, s.balance)))
      else
        var sent := Send(H, cfg, env, s, Payment(to, amount, Withdrawal), reaction);
        if sent.Some? then (sent.value, Done)
        else (s, Reverted(TransferFailed(to, amount)))
    case Fund(amount) => (Credited(s, amount), Done)
    case Frame(reaction) =>
      if reaction.accepts then (RunCalls(H, cfg, env, s, reaction.calls), Done)
      else (s, Reverted(FrameReverted))
  }

  datatype Transaction = Transaction(env: Env, call: Call)

  function Run(H: PairHash, cfg: Config, s: Ledger, txs: seq<Transaction>): Ledger
  {
    if txs == [] then s
    else
      var last := |txs| - 1;
      Step(H, cfg, txs[last].env, Run(H, cfg, s, txs[..last]), txs[last].call).0
  }

  // ----- what every call keeps

  /** Everything a reward was checked against. */
  predicate Verified(H: PairHash, cfg: Config, env: Env, a: ClaimArgs)
  {
    && a.beaconTimestamp + cfg.minClaimDelay <= env.timestamp
    && a.beaconTimestamp in env.oracle
    && var root := env.oracle[a.beaconTimestamp];
    && root != ZERO
    && ProofOk(H, root, U64Chunk(a.sourceIndex), a.proofConsolidation, ConsolidationSource(a.consolidationIndex))
    && ProofOk(H, root, a.sourceCredentials, a.proofCredentials, ValidatorCredentials(a.sourceIndex))
    && ProofOk(H, root, U64Chunk(a.activationEpoch), a.proofActivationEpoch, ValidatorActivation(a.sourceIndex))
    && a.activationEpoch < cfg.maxEpoch
    && (Prefix(a.sourceCredentials) == 1 || Prefix(a.sourceCredentials) == 2)
    && |a.proofConsolidation| == CONSOLIDATION_PROOF_LENGTH
    && |a.proofCredentials| == |a.proofActivationEpoch| == VALIDATOR_PROOF_LENGTH
  }

  function Withdrawn(payments: seq<Payment>): nat
  {
    if payments == [] then 0
    else
      var last := payments[|payments| - 1];
      Withdrawn(payments[..|payments| - 1]) + if last.purpose.Withdrawal? then last.amount else 0
  }

  /** The balance is what came in, less withdrawals and one reward per source. */
  ghost predicate Conserved(cfg: Config, s: Ledger)
  {
    s.balance + Withdrawn(s.payments) + cfg.rewardAmount * |s.rewarded| == s.received
  }

  predicate Rewards(p: Payment, source: uint64)
  {
    p.purpose.Reward? && p.purpose.args.sourceIndex == source
  }

  /** Exactly the rewarded sources have a reward on record, each one. */
  ghost predicate PaidOnce(rewarded: set<uint64>, payments: seq<Payment>)
  {
    && (forall x :: x in rewarded <==> exists i :: 0 <= i < |payments| && Rewards(payments[i], x))
    && RewardsDiffer(payments)
  }

  ghost predicate RewardsDiffer(payments: seq<Payment>)
  {
    forall i, j, x :: 0 <= i < j < |payments| && Rewards(payments[i], x) ==> !Rewards(payments[j], x)
  }

  /** A reward is verified, of the fixed amount, and went to the address in the
      credentials that were verified. */
  ghost predicate Owed(H: PairHash, cfg: Config, p: Payment)
  {
    p.purpose.Reward? ==>
      Verified(H, cfg, p.purpose.env, p.purpose.args) && p == RewardFor(cfg, p.purpose.env, p.purpose.args)
  }

  ghost predicate AllOwed(H: PairHash, cfg: Config, payments: seq<Payment>)
  {
    forall i {:trigger Owed(H, cfg, payments[i])} :: 0 <= i < |payments| ==> Owed(H, cfg, payments[i])
  }

  ghost predicate Inv(H: PairHash, cfg: Config, s: Ledger)
  {
    Conserved(cfg, s) && PaidOnce(s.rewarded, s.payments) && AllOwed(H, cfg, s.payments)
  }

  lemma EmptyIsGood(H: PairHash, cfg: Config)
    ensures Inv(H, cfg, EMPTY)
  {
  }

  /** A claim passes the contract's checks exactly when it is verified, its
      source unrewarded and the reward covered. */
  lemma CheckedIsVerified(H: PairHash, cfg: Config, env: Env, s: Ledger, a: ClaimArgs)
    ensures CheckClaim(H, cfg, env, s.balance, s.rewarded, a).None? <==>
      && Verified(H, cfg, env, a)
      && SszMerkleVerifier.IsUint256(a.beaconTimestamp + cfg.minClaimDelay)
      && a.sourceIndex !in s.rewarded
      && cfg.rewardAmount <= s.balance
  {
    hide ProofOk, Pow2;
  }

  /** The contract's conditions in its order, against the oracle's own entry for
      the claimed timestamp. */
  ghost predicate Condition(H: PairHash, cfg: Config, env: Env, balance: nat, rewarded: set<uint64>, a: ClaimArgs,
                            k: nat)
  {
    var entry := if a.beaconTimestamp in env.oracle then env.oracle[a.beaconTimestamp] else ZERO;
    match k
    case 0 => a.sourceIndex !in rewarded
    case 1 => a.beaconTimestamp + cfg.minClaimDelay < SszMerkleVerifier.UINT256_LIMIT
    case 2 => a.beaconTimestamp + cfg.minClaimDelay <= env.timestamp
    case 3 => a.beaconTimestamp in env.oracle && env.oracle[a.beaconTimestamp] != ZERO
    case 4 => |a.proofConsolidation| == 29
    case 5 => |a.proofCredentials| == 53
    case 6 => |a.proofActivationEpoch| == 53
    case 7 =>
      ProofOk(H, entry, U64Chunk(a.sourceIndex), a.proofConsolidation, ConsolidationSource(a.consolidationIndex))
    case 8 => ProofOk(H, entry, a.sourceCredentials, a.proofCredentials, ValidatorCredentials(a.sourceIndex))
    case 9 => ProofOk(H, entry, U64Chunk(a.activationEpoch), a.proofActivationEpoch, ValidatorActivation(a.sourceIndex))
    case 10 => a.activationEpoch < cfg.maxEpoch
    case 11 => a.sourceCredentials[0] == 1 || a.sourceCredentials[0] == 2
    case 12 => cfg.rewardAmount <= balance
    case _ => true
  }

  /** The error that names condition k. */
  ghost function Named(cfg: Config, env: Env, balance: nat, a: ClaimArgs, k: nat): Error
  {
    match k
    case 0 => AlreadyClaimed(a.sourceIndex)
    case 1 => ArithmeticPanic
    case 2 => TimestampTooRecent(a.beaconTimestamp, env.timestamp, cfg.minClaimDelay)
    case 3 => BeaconRootNotFound(a.beaconTimestamp)
    case 4 => InvalidProofLength(|a.proofConsolidation|, 29)
    case 5 => InvalidProofLength(|a.proofCredentials|, 53)
    case 6 => InvalidProofLength(|a.proofActivationEpoch|, 53)
    case 7 => InvalidProof(ConsolidationSource(a.consolidationIndex))
    case 8 => InvalidProof(ValidatorCredentials(a.sourceIndex))
    case 9 => InvalidProof(ValidatorActivation(a.sourceIndex))
    case 10 => NotEligible(a.activationEpoch, cfg.maxEpoch)
    case 11 => InvalidCredentialsPrefix(a.sourceCredentials[0])
    case _ => InsufficientBalance(cfg.rewardAmount, balance)
  }

  /** A claim fails exactly when a condition does, and the error names the first
      one that does. */
  lemma FirstFailureNamed(H: PairHash, cfg: Config, env: Env, balance: nat, rewarded: set<uint64>, a: ClaimArgs,
                          k: nat)
    requires k < 13 && forall i: nat :: i < k ==> Condition(H, cfg, env, balance, rewarded, a, i)
    ensures var failure := CheckClaim(H, cfg, env, balance, rewarded, a);
            if !Condition(H, cfg, env, balance, rewarded, a, k) then failure == Some(Named(cfg, env, balance, a, k))
            else k == 12 ==> failure.None?
  {
    hide ProofOk, U64Chunk;
    var holds := (i: nat) => Condition(H, cfg, env, balance, rewarded, a, i);
    assert forall i: nat :: i < k ==> holds(i);
    assert k > 0 ==> holds(0);
    assert k > 1 ==> holds(1);
    assert k > 2 ==> holds(2);
    assert k > 3 ==> holds(3);
    assert k > 4 ==> holds(4);
    assert k > 5 ==> holds(5);
    assert k > 6 ==> holds(6);
    assert k > 7 ==> holds(7);
    assert k > 8 ==> holds(8);
    assert k > 9 ==> holds(9);
    assert k > 10 ==> holds(10);
    assert k > 11 ==> holds(11);
  }

  lemma RewardKeepsInv(H: PairHash, cfg: Config, env: Env, s: Ledger, a: ClaimArgs)
    requires Inv(H, cfg, s) && CheckClaim(H, cfg, env, s.balance, s.rewarded, a).None?
    ensures Inv(H, cfg, HandedOver(Marked(s, a), RewardFor(cfg, env, a)))
  {
    hide CheckClaim, Verified, PaidOnce, Conserved;
    CheckedIsVerified(H, cfg, env, s, a);
    RewardConserves(cfg, s, a.sourceIndex, RewardFor(cfg, env, a));
    RewardPaysOnce(s.rewarded, s.payments, a.sourceIndex, RewardFor(cfg, env, a));
  }

  lemma RewardConserves(cfg: Config, s: Ledger, source: uint64, p: Payment)
    requires Conserved(cfg, s) && source !in s.rewarded
    requires p.amount == cfg.rewardAmount <= s.balance && p.purpose.Reward?
    ensures Conserved(cfg, HandedOver(s.(rewarded := s.rewarded + {source}), p))
  {
    var n := |s.rewarded|;
    assert |s.rewarded + {source}| == n + 1;
    assert cfg.rewardAmount * (n + 1) == cfg.rewardAmount * n + cfg.rewardAmount;
    assert (s.payments + [p])[..|s.payments|] == s.payments;
  }

  lemma RewardPaysOnce(rewarded: set<uint64>, payments: seq<Payment>, source: uint64, p: Payment)
    requires PaidOnce(rewarded, payments) && source !in rewarded && Rewards(p, source)
    ensures PaidOnce(rewarded + {source}, payments + [p])
  {
    var rewarded', payments' := rewarded + {source}, payments + [p];
    forall x
      ensures x in rewarded' <==> exists i :: 0 <= i < |payments'| && Rewards(payments'[i], x)
    {
      if x == source {
        assert Rewards(payments'[|payments|], x);
      } else if x in rewarded {
        var i :| 0 <= i < |payments| && Rewards(payments[i], x);
        assert Rewards(payments'[i], x);
      }
    }
  }

  lemma WithdrawalKeepsInv(H: PairHash, cfg: Config, s: Ledger, p: Payment)
    requires Inv(H, cfg, s) && p.amount <= s.balance && p.purpose.Withdrawal?
    ensures Inv(H, cfg, HandedOver(s, p))
  {
    hide Verified, RewardFor;
    var payments' := s.payments + [p];
    assert payments'[..|s.payments|] == s.payments;
    forall x
      ensures x in s.rewarded <==> exists i :: 0 <= i < |payments'| && Rewards(payments'[i], x)
    {
      if x in s.rewarded {
        var i :| 0 <= i < |s.payments| && Rewards(s.payments[i], x);
        assert Rewards(payments'[i], x);
      }
    }
  }

  lemma CreditKeepsInv(H: PairHash, cfg: Config, s: Ledger, amount: nat)
    requires Inv(H, cfg, s)
    ensures Inv(H, cfg, Credited(s, amount))
  {
  }

  lemma {:induction false} StepKeepsInv(H: PairHash, cfg: Config, env: Env, s: Ledger, call: Call)
    requires Inv(H, cfg, s)
    ensures Inv(H, cfg, Step(H, cfg, env, s, call).0)
    decreases call, 0
  {
    hide Inv, CheckClaim;
    match call
    case Claim(a, reaction) =>
      if CheckClaim(H, cfg, env, s.balance, s.rewarded, a).None? {
        RewardKeepsInv(H, cfg, env, s, a);
        SendKeepsInv(H, cfg, env, Marked(s, a), RewardFor(cfg, env, a), reaction);
      }
    case Withdraw(caller, to, amount, reaction) =>
      if caller == cfg.owner && amount <= s.balance {
        WithdrawalKeepsInv(H, cfg, s, Payment(to, amount, Withdrawal));
        SendKeepsInv(H, cfg, env, s, Payment(to, amount, Withdrawal), reaction);
      }
    case Fund(amount) =>
      CreditKeepsInv(H, cfg, s, amount);
    case Frame(reaction) =>
      CallsKeepInv(H, cfg, env, s, reaction.calls);
  }

  lemma {:induction false} SendKeepsInv(H: PairHash, cfg: Config, env: Env, s: Ledger, p: Payment, reaction: Reaction)
    requires p.amount <= s.balance && Inv(H, cfg, HandedOver(s, p))
    ensures var sent := Send(H, cfg, env, s, p, reaction);
            sent.Some? ==> Inv(H, cfg, sent.value)
    decreases reaction, 1
  {
    hide Inv;
    if p.to == cfg.self {
      CreditKeepsInv(H, cfg, HandedOver(s, p), p.amount);
    } else if reaction.accepts {
      CallsKeepInv(H, cfg, env, HandedOver(s, p), reaction.calls);
    }
  }

  lemma {:induction false} CallsKeepInv(H: PairHash, cfg: Config, env: Env, s: Ledger, calls: seq<Call>)
    requires Inv(H, cfg, s)
    ensures Inv(H, cfg, RunCalls(H, cfg, env, s, calls))
    decreases calls, 0
  {
    hide Inv;
    if calls != [] {
      var last := |calls| - 1;
      CallsKeepInv(H, cfg, env, s, calls[..last]);
      StepKeepsInv(H, cfg, env, RunCalls(H, cfg, env, s, calls[..last]), calls[last]);
    }
  }

  // ----- nothing recorded is taken back

  /** s' keeps all that s records; rewards recorded since are of this environment. */
  ghost predicate Extends(env: Env, s: Ledger, s': Ledger)
  {
    && s.rewarded <= s'.rewarded && s.payments <= s'.payments && s.received <= s'.received
    && forall i :: |s.payments| <= i < |s'.payments| && s'.payments[i].purpose.Reward? ==>
         s'.payments[i].purpose.env == env
  }

  lemma {:induction false} StepExtends(H: PairHash, cfg: Config, env: Env, s: Ledger, call: Call)
    ensures Extends(env, s, Step(H, cfg, env, s, call).0)
    decreases call, 0
  {
    hide CheckClaim;
    match call
    case Claim(a, reaction) =>
      if CheckClaim(H, cfg, env, s.balance, s.rewarded, a).None? {
        SendExtends(H, cfg, env, Marked(s, a), RewardFor(cfg, env, a), reaction);
      }
    case Withdraw(caller, to, amount, reaction) =>
      if caller == cfg.owner && amount <= s.balance {
        SendExtends(H, cfg, env, s, Payment(to, amount, Withdrawal), reaction);
      }
    case Fund(_) =>
    case Frame(reaction) =>
      CallsExtend(H, cfg, env, s, reaction.calls);
  }

  lemma {:induction false} SendExtends(H: PairHash, cfg: Config, env: Env, s: Ledger, p: Payment, reaction: Reaction)
    requires p.amount <= s.balance && (p.purpose.Reward? ==> p.purpose.env == env)
    ensures var sent := Send(H, cfg, env, s, p, reaction);
            sent.Some? ==> Extends(env, s, sent.value) && Extends(env, HandedOver(s, p), sent.value)
    decreases reaction, 1
  {
    if p.to != cfg.self && reaction.accepts {
      CallsExtend(H, cfg, env, HandedOver(s, p), reaction.calls);
    }
  }

  lemma {:induction false} CallsExtend(H: PairHash, cfg: Config, env: Env, s: Ledger, calls: seq<Call>)
    ensures Extends(env, s, RunCalls(H, cfg, env, s, calls))
    decreases calls, 0
  {
    if calls != [] {
      var last := |calls| - 1;
      CallsExtend(H, cfg, env, s, calls[..last]);
      StepExtends(H, cfg, env, RunCalls(H, cfg, env, s, calls[..last]), calls[last]);
    }
  }

  /** The claim is done, its reward for this address is the next payment on
      record, and the ledger is what the receiver's calls make of it. */
  ghost predicate PaidTo(H: PairHash, cfg: Config, env: Env, s: Ledger, a: ClaimArgs, reaction: Reaction, to: Address)
  {
    && cfg.rewardAmount <= s.balance
    && var payment := Payment(to, cfg.rewardAmount, Reward(env, a));
    var handed := HandedOver(Marked(s, a), payment);
    var (paid, outcome) := Step(H, cfg, env, s, Claim(a, reaction));
    && outcome == Done
    && paid == (if to == cfg.self then Credited(handed, cfg.rewardAmount)
                else RunCalls(H, cfg, env, handed, reaction.calls))
    && s.payments + [payment] <= paid.payments
    && a.sourceIndex in paid.rewarded
  }

  /** A claim is done exactly when it passes the checks and the address in its
      credentials accepts; then that address is paid, otherwise nothing changed
      and the error is the failing check's or the transfer's. */
  lemma ClaimPaysCredentials(H: PairHash, cfg: Config, env: Env, s: Ledger, a: ClaimArgs, reaction: Reaction)
    ensures var to := AddressOf(a.sourceCredentials);
            var failure := CheckClaim(H, cfg, env, s.balance, s.rewarded, a);
            if failure.None? && (to == cfg.self || reaction.accepts) then PaidTo(H, cfg, env, s, a, reaction, to)
            else
              Step(H, cfg, env, s, Claim(a, reaction))
              == (s, Reverted(if failure.Some? then failure.value else TransferFailed(to, cfg.rewardAmount)))
  {
    hide CheckClaim, AddressOf, RunCalls;
    if CheckClaim(H, cfg, env, s.balance, s.rewarded, a).None? {
      SendExtends(H, cfg, env, Marked(s, a), RewardFor(cfg, env, a), reaction);
    }
  }

  /** A withdrawal is done exactly for the owner, within the balance and when
      the receiver accepts; then the next payment on record is the amount to the
      named address, and the ledger is what the receiver's calls make of it.
      Otherwise nothing changed, and the error says why. */
  lemma WithdrawalGoesToNamed(H: PairHash, cfg: Config, env: Env, s: Ledger, caller: Address, to: Address,
                              amount: nat, reaction: Reaction)
    ensures var r := Step(H, cfg, env, s, Withdraw(caller, to, amount, reaction));
            if caller != cfg.owner then r == (s, Reverted(NotOwner(caller)))
            else if amount > s.balance then r == (s, Reverted(InsufficientBalance(amount, s.balance)))
            else if to != cfg.self && !reaction.accepts then r == (s, Reverted(TransferFailed(to, amount)))
            else
              var handed := HandedOver(s, Payment(to, amount, Withdrawal));
              && r == (if to == cfg.self then Credited(handed, amount)
                       else RunCalls(H, cfg, env, handed, reaction.calls), Done)
              && s.payments + [Payment(to, amount, Withdrawal)] <= r.0.payments
              && s.rewarded <= r.0.rewarded
  {
    if caller == cfg.owner && amount <= s.balance {
      hide RunCalls;
      SendExtends(H, cfg, env, s, Payment(to, amount, Withdrawal), reaction);
    }
  }

  /** Incoming value is always taken, exactly once, and does nothing else. */
  lemma FundAddsItsAmount(H: PairHash, cfg: Config, env: Env, s: Ledger, amount: nat)
    ensures Step(H, cfg, env, s, Fund(amount))
         == (Ledger(s.balance + amount, s.rewarded, s.received + amount, s.payments), Done)
  {
  }

  /** Another contract's frame does its calls one after the other, or nothing. */
  lemma {:induction false} FrameIsAllOrNothing(H: PairHash, cfg: Config, env: Env, s: Ledger, first: seq<Call>,
                                               last: Call)
    ensures Step(H, cfg, env, s, Frame(Reaction([], true))) == (s, Done)
    ensures var before := Step(H, cfg, env, s, Frame(Reaction(first, true))).0;
            Step(H, cfg, env, s, Frame(Reaction(first + [last], true))) == (Step(H, cfg, env, before, last).0, Done)
    ensures Step(H, cfg, env, s, Frame(Reaction(first + [last], false))) == (s, Reverted(FrameReverted))
  {
    assert (first + [last])[..|first|] == first;
  }

  // ----- where received value comes from

  /** The incoming value of a call and of the calls nested in it that were not
      undone. */
  function Funded(H: PairHash, cfg: Config, env: Env, s: Ledger, call: Call): nat
    decreases call, 0
  {
    if Step(H, cfg, env, s, call).1.Reverted? then 0
    else
      match call
      case Claim(a, reaction) => FundedInSend(H, cfg, env, Marked(s, a), RewardFor(cfg, env, a), reaction)
      case Withdraw(_, to, amount, reaction) =>
        FundedInSend(H, cfg, env, s, Payment(to, amount, Withdrawal), reaction)
      case Fund(amount) => amount
      case Frame(reaction) => FundedInCalls(H, cfg, env, s, reaction.calls)
  }

  function FundedInSend(H: PairHash, cfg: Config, env: Env, s: Ledger, p: Payment, reaction: Reaction): nat
    requires p.amount <= s.balance
    decreases reaction, 1
  {
    if p.to == cfg.self then 0 else FundedInCalls(H, cfg, env, HandedOver(s, p), reaction.calls)
  }

  function FundedInCalls(H: PairHash, cfg: Config, env: Env, s: Ledger, calls: seq<Call>): nat
    decreases calls, 0
  {
    if calls == [] then 0
    else
      var last := |calls| - 1;
      FundedInCalls(H, cfg, env, s, calls[..last])
      + Funded(H, cfg, env, RunCalls(H, cfg, env, s, calls[..last]), calls[last])
  }

  /** What the contract paid to itself. */
  function SelfPaid(cfg: Config, payments: seq<Payment>): nat
  {
    if payments == [] then 0
    else
      var last := payments[|payments| - 1];
      SelfPaid(cfg, payments[..|payments| - 1]) + if last.to == cfg.self then last.amount else 0
  }

  lemma OneMoreSelfPaid(cfg: Config, s: Ledger, p: Payment)
    requires p.amount <= s.balance
    ensures SelfPaid(cfg, HandedOver(s, p).payments)
         == SelfPaid(cfg, s.payments) + if p.to == cfg.self then p.amount else 0
  {
    assert (s.payments + [p])[..|s.payments|] == s.payments;
  }

  /** Received grew from s to s' by the incoming value and what was paid to itself. */
  ghost predicate Receives(cfg: Config, s: Ledger, s': Ledger, incoming: nat)
  {
    s'.received + SelfPaid(cfg, s.payments) == s.received + incoming + SelfPaid(cfg, s'.payments)
  }

  lemma {:induction false} StepReceives(H: PairHash, cfg: Config, env: Env, s: Ledger, call: Call)
    ensures Receives(cfg, s, Step(H, cfg, env, s, call).0, Funded(H, cfg, env, s, call))
    decreases call, 0
  {
    hide CheckClaim, SelfPaid;
    match call
    case Claim(a, reaction) =>
      if CheckClaim(H, cfg, env, s.balance, s.rewarded, a).None? {
        SendReceives(H, cfg, env, Marked(s, a), RewardFor(cfg, env, a), reaction);
      }
    case Withdraw(caller, to, amount, reaction) =>
      if caller == cfg.owner && amount <= s.balance {
        SendReceives(H, cfg, env, s, Payment(to, amount, Withdrawal), reaction);
      }
    case Fund(_) =>
    case Frame(reaction) =>
      CallsReceive(H, cfg, env, s, reaction.calls);
  }

  lemma {:induction false} SendReceives(H: PairHash, cfg: Config, env: Env, s: Ledger, p: Payment, reaction: Reaction)
    requires p.amount <= s.balance
    ensures var sent := Send(H, cfg, env, s, p, reaction);
            sent.Some? ==> Receives(cfg, s, sent.value, FundedInSend(H, cfg, env, s, p, reaction))
    decreases reaction, 1
  {
    hide SelfPaid;
    OneMoreSelfPaid(cfg, s, p);
    if p.to != cfg.self {
      CallsReceive(H, cfg, env, HandedOver(s, p), reaction.calls);
    }
  }

  lemma {:induction false} CallsReceive(H: PairHash, cfg: Config, env: Env, s: Ledger, calls: seq<Call>)
    ensures Receives(cfg, s, RunCalls(H, cfg, env, s, calls), FundedInCalls(H, cfg, env, s, calls))
    decreases calls, 0
  {
    hide SelfPaid, Step;
    if calls != [] {
      var last := |calls| - 1;
      CallsReceive(H, cfg, env, s, calls[..last]);
      StepReceives(H, cfg, env, RunCalls(H, cfg, env, s, calls[..last]), calls[last]);
    }
  }

  function FundedInRun(H: PairHash, cfg: Config, s: Ledger, txs: seq<Transaction>): nat
  {
    if txs == [] then 0
    else
      var last := |txs| - 1;
      FundedInRun(H, cfg, s, txs[..last])
      + Funded(H, cfg, txs[last].env, Run(H, cfg, s, txs[..last]), txs[last].call)
  }

  /** Over every run, what was received is the value sent in by calls that were
      not undone, and what the contract paid to itself. */
  lemma {:induction false} RunReceives(H: PairHash, cfg: Config, s: Ledger, txs: seq<Transaction>)
    ensures Receives(cfg, s, Run(H, cfg, s, txs), FundedInRun(H, cfg, s, txs))
  {
    hide SelfPaid, Step, Funded;
    if txs != [] {
      var last := |txs| - 1;
      RunReceives(H, cfg, s, txs[..last]);
      StepReceives(H, cfg, txs[last].env, Run(H, cfg, s, txs[..last]), txs[last].call);
    }
  }

  // ----- every moment somebody else is in control

  /** The ledgers at the entry and exit of a call and of every call nested in it,
      at any depth, those inside transfers that end up rejected included. */
  function Boundaries(H: PairHash, cfg: Config, env: Env, s: Ledger, call: Call): seq<Ledger>
    decreases call, 1
  {
    [s] + Within(H, cfg, env, s, call) + [Step(H, cfg, env, s, call).0]
  }

  function Within(H: PairHash, cfg: Config, env: Env, s: Ledger, call: Call): seq<Ledger>
    decreases call, 0
  {
    match call
    case Claim(a, reaction) =>
      if CheckClaim(H, cfg, env, s.balance, s.rewarded, a).Some? then []
      else SendBoundaries(H, cfg, env, Marked(s, a), RewardFor(cfg, env, a), reaction)
    case Withdraw(caller, to, amount, reaction) =>
      if caller != cfg.owner || amount > s.balance then []
      else SendBoundaries(H, cfg, env, s, Payment(to, amount, Withdrawal), reaction)
    case Fund(_) => []
    case Frame(reaction) => CallBoundaries(H, cfg, env, s, reaction.calls)
  }

  function SendBoundaries(H: PairHash, cfg: Config, env: Env, s: Ledger, p: Payment, reaction: Reaction)
    : seq<Ledger>
    requires p.amount <= s.balance
    decreases reaction, 1
  {
    var handed := HandedOver(s, p);
    if p.to == cfg.self then [handed, Credited(handed, p.amount)]
    else CallBoundaries(H, cfg, env, handed, reaction.calls)
  }

  function CallBoundaries(H: PairHash, cfg: Config, env: Env, s: Ledger, calls: seq<Call>): seq<Ledger>
    decreases calls, 0
  {
    if calls == [] then [s]
    else
      var last := |calls| - 1;
      CallBoundaries(H, cfg, env, s, calls[..last])
      + Boundaries(H, cfg, env, RunCalls(H, cfg, env, s, calls[..last]), calls[last])
  }

  /** Whom a call hands control to: the ledger then, and the calls made with it. */
  function HandsOver(H: PairHash, cfg: Config, env: Env, s: Ledger, call: Call): Option<(Ledger, seq<Call>)>
  {
    match call
    case Claim(a, reaction) =>
      if CheckClaim(H, cfg, env, s.balance, s.rewarded, a).Some? || AddressOf(a.sourceCredentials) == cfg.self then None
      else Some((HandedOver(Marked(s, a), RewardFor(cfg, env, a)), reaction.calls))
    case Withdraw(caller, to, amount, reaction) =>
      if caller != cfg.owner || amount > s.balance || to == cfg.self then None
      else Some((HandedOver(s, Payment(to, amount, Withdrawal)), reaction.calls))
    case Fund(_) => None
    case Frame(reaction) => Some((s, reaction.calls))
  }

  /** A call's boundaries include its own ends, the moment it hands over control,
      and all boundaries of each call made there, at the ledger it is made on. */
  lemma BoundariesReachNested(H: PairHash, cfg: Config, env: Env, s: Ledger, call: Call, k: nat)
    ensures var all := Boundaries(H, cfg, env, s, call);
            && s in all && Step(H, cfg, env, s, call).0 in all
            && var handed := HandsOver(H, cfg, env, s, call);
            handed.Some? ==>
              && handed.value.0 in all
              && (k < |handed.value.1| ==>
                  var now := RunCalls(H, cfg, env, handed.value.0, handed.value.1[..k]);
                  forall b :: b in Boundaries(H, cfg, env, now, handed.value.1[k]) ==> b in all)
  {
    hide CheckClaim, AddressOf, Step, CallBoundaries;
    var handed := HandsOver(H, cfg, env, s, call);
    if handed.Some? {
      assert Within(H, cfg, env, s, call) == CallBoundaries(H, cfg, env, handed.value.0, handed.value.1);
      CallBoundariesReach(H, cfg, env, handed.value.0, handed.value.1, k);
    }
  }

  lemma {:induction false} CallBoundariesReach(H: PairHash, cfg: Config, env: Env, s: Ledger, calls: seq<Call>, k: nat)
    ensures var all := CallBoundaries(H, cfg, env, s, calls);
            && s in all
            && (k < |calls| ==>
                forall b :: b in Boundaries(H, cfg, env, RunCalls(H, cfg, env, s, calls[..k]), calls[k]) ==> b in all)
    decreases |calls|
  {
    hide Boundaries, RunCalls;
    if calls != [] {
      var last := |calls| - 1;
      CallBoundariesReach(H, cfg, env, s, calls[..last], k);
      if k < last {
        assert calls[..last][..k] == calls[..k] && calls[..last][k] == calls[k];
      }
    }
  }

  ghost predicate AllInv(H: PairHash, cfg: Config, ledgers: seq<Ledger>)
  {
    forall s :: s in ledgers ==> Inv(H, cfg, s)
  }

  lemma AllInvEach(H: PairHash, cfg: Config, ledgers: seq<Ledger>)
    requires AllInv(H, cfg, ledgers)
    ensures forall i :: 0 <= i < |ledgers| ==> Inv(H, cfg, ledgers[i])
  {
  }

  /** The invariant holds at every call boundary, claims and withdrawals alike. */
  lemma {:induction false} BoundariesKeepInv(H: PairHash, cfg: Config, env: Env, s: Ledger, call: Call)
    requires Inv(H, cfg, s)
    ensures AllInv(H, cfg, Boundaries(H, cfg, env, s, call))
    decreases call, 0
  {
    hide Inv, CheckClaim, Step;
    StepKeepsInv(H, cfg, env, s, call);
    match call
    case Claim(a, reaction) =>
      if CheckClaim(H, cfg, env, s.balance, s.rewarded, a).None? {
        RewardKeepsInv(H, cfg, env, s, a);
        SendBoundariesKeepInv(H, cfg, env, Marked(s, a), RewardFor(cfg, env, a), reaction);
      }
    case Withdraw(caller, to, amount, reaction) =>
      if caller == cfg.owner && amount <= s.balance {
        WithdrawalKeepsInv(H, cfg, s, Payment(to, amount, Withdrawal));
        SendBoundariesKeepInv(H, cfg, env, s, Payment(to, amount, Withdrawal), reaction);
      }
    case Fund(_) =>
    case Frame(reaction) =>
      CallBoundariesKeepInv(H, cfg, env, s, reaction.calls);
  }

  lemma {:induction false} SendBoundariesKeepInv(H: PairHash, cfg: Config, env: Env, s: Ledger, p: Payment,
                                                 reaction: Reaction)
    requires p.amount <= s.balance && Inv(H, cfg, HandedOver(s, p))
    ensures AllInv(H, cfg, SendBoundaries(H, cfg, env, s, p, reaction))
    decreases reaction, 1
  {
    hide Inv;
    if p.to == cfg.self {
      CreditKeepsInv(H, cfg, HandedOver(s, p), p.amount);
    } else {
      CallBoundariesKeepInv(H, cfg, env, HandedOver(s, p), reaction.calls);
    }
  }

  lemma {:induction false} CallBoundariesKeepInv(H: PairHash, cfg: Config, env: Env, s: Ledger, calls: seq<Call>)
    requires Inv(H, cfg, s)
    ensures AllInv(H, cfg, CallBoundaries(H, cfg, env, s, calls))
    decreases calls, 0
  {
    hide Inv, Boundaries, RunCalls;
    if calls != [] {
      var last := |calls| - 1;
      CallsKeepInv(H, cfg, env, s, calls[..last]);
      CallBoundariesKeepInv(H, cfg, env, s, calls[..last]);
      BoundariesKeepInv(H, cfg, env, RunCalls(H, cfg, env, s, calls[..last]), calls[last]);
    }
  }

  ghost predicate AllExtend(env: Env, s: Ledger, ledgers: seq<Ledger>)
  {
    forall s' :: s' in ledgers ==> Extends(env, s, s')
  }

  /** Whenever a payment's receiver or anyone it calls is in control, the payment
      is on record and whatever was marked before it still is. */
  lemma {:induction false} SendBoundariesExtend(H: PairHash, cfg: Config, env: Env, s: Ledger, p: Payment,
                                                reaction: Reaction)
    requires p.amount <= s.balance && (p.purpose.Reward? ==> p.purpose.env == env)
    ensures AllExtend(env, HandedOver(s, p), SendBoundaries(H, cfg, env, s, p, reaction))
    decreases reaction, 1
  {
    if p.to != cfg.self {
      CallBoundariesExtend(H, cfg, env, HandedOver(s, p), reaction.calls);
    }
  }

  lemma {:induction false} CallBoundariesExtend(H: PairHash, cfg: Config, env: Env, s: Ledger, calls: seq<Call>)
    ensures AllExtend(env, s, CallBoundaries(H, cfg, env, s, calls))
    decreases calls, 0
  {
    hide Boundaries, RunCalls;
    if calls != [] {
      var last := |calls| - 1;
      CallsExtend(H, cfg, env, s, calls[..last]);
      CallBoundariesExtend(H, cfg, env, s, calls[..last]);
      BoundariesExtend(H, cfg, env, RunCalls(H, cfg, env, s, calls[..last]), calls[last]);
    }
  }

  lemma {:induction false} BoundariesExtend(H: PairHash, cfg: Config, env: Env, s: Ledger, call: Call)
    ensures AllExtend(env, s, Boundaries(H, cfg, env, s, call))
    decreases call, 0
  {
    hide CheckClaim, Step;
    StepExtends(H, cfg, env, s, call);
    match call
    case Claim(a, reaction) =>
      if CheckClaim(H, cfg, env, s.balance, s.rewarded, a).None? {
        SendBoundariesExtend(H, cfg, env, Marked(s, a), RewardFor(cfg, env, a), reaction);
      }
    case Withdraw(caller, to, amount, reaction) =>
      if caller == cfg.owner && amount <= s.balance {
        SendBoundariesExtend(H, cfg, env, s, Payment(to, amount, Withdrawal), reaction);
      }
    case Fund(_) =>
    case Frame(reaction) =>
      CallBoundariesExtend(H, cfg, env, s, reaction.calls);
  }

  // ----- whole runs

  /** Over every run: the invariant holds at the end, nothing recorded is taken
      back, and each new reward belongs to one of the run's transactions. */
  lemma {:induction false} RunKeepsInv(H: PairHash, cfg: Config, s: Ledger, txs: seq<Transaction>)
    requires Inv(H, cfg, s)
    ensures var s' := Run(H, cfg, s, txs);
            && Inv(H, cfg, s')
            && s.rewarded <= s'.rewarded && s.payments <= s'.payments && s.received <= s'.received
            && forall i :: |s.payments| <= i < |s'.payments| && s'.payments[i].purpose.Reward? ==>
                 exists k :: 0 <= k < |txs| && txs[k].env == s'.payments[i].purpose.env
  {
    hide Inv, Step;
    if txs != [] {
      var last := |txs| - 1;
      var before, after := Run(H, cfg, s, txs[..last]), Run(H, cfg, s, txs);
      RunKeepsInv(H, cfg, s, txs[..last]);
      StepKeepsInv(H, cfg, txs[last].env, before, txs[last].call);
      StepExtends(H, cfg, txs[last].env, before, txs[last].call);
      forall i | |s.payments| <= i < |after.payments| && after.payments[i].purpose.Reward?
        ensures exists k :: 0 <= k < |txs| && txs[k].env == after.payments[i].purpose.env
      {
        if i < |before.payments| {
          var k :| 0 <= k < last && txs[..last][k].env == before.payments[i].purpose.env;
          assert txs[k].env == after.payments[i].purpose.env;
        } else {
          assert txs[last].env == after.payments[i].purpose.env;
        }
      }
    }
  }

  /** A run is its transactions one after the other, each in its own environment. */
  lemma RunInOrder(H: PairHash, cfg: Config, s: Ledger, txs: seq<Transaction>, tx: Transaction)
    ensures Run(H, cfg, s, []) == s
    ensures Run(H, cfg, s, txs + [tx]) == Step(H, cfg, tx.env, Run(H, cfg, s, txs), tx.call).0
  {
    hide Step;
    assert (txs + [tx])[..|txs|] == txs;
  }

  /** The ledgers at every call boundary of a whole run. */
  function RunBoundaries(H: PairHash, cfg: Config, s: Ledger, txs: seq<Transaction>): seq<Ledger>
  {
    if txs == [] then []
    else
      var last := |txs| - 1;
      RunBoundaries(H, cfg, s, txs[..last])
      + Boundaries(H, cfg, txs[last].env, Run(H, cfg, s, txs[..last]), txs[last].call)
  }

  lemma {:induction false} RunBoundariesKeepInv(H: PairHash, cfg: Config, s: Ledger, txs: seq<Transaction>)
    requires Inv(H, cfg, s)
    ensures AllInv(H, cfg, RunBoundaries(H, cfg, s, txs))
  {
    hide Inv, Run, Boundaries;
    if txs != [] {
      var last := |txs| - 1;
      RunKeepsInv(H, cfg, s, txs[..last]);
      RunBoundariesKeepInv(H, cfg, s, txs[..last]);
      BoundariesKeepInv(H, cfg, txs[last].env, Run(H, cfg, s, txs[..last]), txs[last].call);
    }
  }

  // ----- what each address got

  function RewardTotal(payments: seq<Payment>, to: Address): nat
  {
    if payments == [] then 0
    else
      var last := payments[|payments| - 1];
      RewardTotal(payments[..|payments| - 1], to) + if last.purpose.Reward? && last.to == to then last.amount else 0
  }

  function SourcesPaid(payments: seq<Payment>, to: Address): set<uint64>
  {
    set p | p in payments && p.purpose.Reward? && p.to == to :: p.purpose.args.sourceIndex
  }

  /** Each address got one reward for each rewarded source that was paid there. */
  lemma {:induction false} RewardsPerAddress(H: PairHash, cfg: Config, s: Ledger, to: Address)
    requires Inv(H, cfg, s)
    ensures RewardTotal(s.payments, to) == cfg.rewardAmount * |SourcesPaid(s.payments, to)|
    ensures SourcesPaid(s.payments, to) <= s.rewarded
  {
    hide Verified;
    forall i | 0 <= i < |s.payments| && s.payments[i].purpose.Reward?
      ensures s.payments[i].amount == cfg.rewardAmount
    {
      assert Owed(H, cfg, s.payments[i]);
    }
    RewardsOfDistinct(cfg.rewardAmount, s.payments, to);
    forall x | x in SourcesPaid(s.payments, to)
      ensures x in s.rewarded
    {
      var i :| 0 <= i < |s.payments| && Rewards(s.payments[i], x);
    }
  }

  lemma {:induction false} RewardsOfDistinct(amount: nat, payments: seq<Payment>, to: Address)
    requires RewardsDiffer(payments)
    requires forall i :: 0 <= i < |payments| && payments[i].purpose.Reward? ==> payments[i].amount == amount
    ensures RewardTotal(payments, to) == amount * |SourcesPaid(payments, to)|
  {
    if payments == [] {
      assert SourcesPaid(payments, to) == {};
    } else {
      var init, last := payments[..|payments| - 1], payments[|payments| - 1];
      assert payments == init + [last];
      OneMorePaid(init, last, to);
      hide SourcesPaid;
      RewardsOfDistinct(amount, init, to);
      if last.purpose.Reward? && last.to == to {
        LastSourceIsNew(init, last, last.purpose.args.sourceIndex);
        hide RewardsDiffer, Rewards;
        OneMoreReward(amount, SourcesPaid(init, to), last.purpose.args.sourceIndex);
      }
    }
  }

  lemma OneMoreReward(amount: nat, sources: set<uint64>, source: uint64)
    requires source !in sources
    ensures amount * |sources + {source}| == amount * |sources| + amount
  {
    assert |sources + {source}| == |sources| + 1;
  }

  lemma LastSourceIsNew(payments: seq<Payment>, last: Payment, source: uint64)
    requires RewardsDiffer(payments + [last]) && Rewards(last, source)
    ensures forall i :: 0 <= i < |payments| ==> !Rewards(payments[i], source)
  {
    forall i | 0 <= i < |payments|
      ensures !Rewards(payments[i], source)
    {
      assert (payments + [last])[i] == payments[i] && (payments + [last])[|payments|] == last;
    }
  }

  lemma OneMorePaid(payments: seq<Payment>, last: Payment, to: Address)
    ensures SourcesPaid(payments + [last], to) == SourcesPaid(payments, to)
      + if last.purpose.Reward? && last.to == to then {last.purpose.args.sourceIndex} else {}
    ensures forall x :: x in SourcesPaid(payments, to) ==> exists i :: 0 <= i < |payments| && Rewards(payments[i], x)
  {
    forall x
      ensures x in SourcesPaid(payments + [last], to) <==>
        x in SourcesPaid(payments, to)
        || (last.purpose.Reward? && last.to == to && x == last.purpose.args.sourceIndex)
    {
    }
    forall x | x in SourcesPaid(payments, to)
      ensures exists i :: 0 <= i < |payments| && Rewards(payments[i], x)
    {
      var p :| p in payments && p.purpose.Reward? && p.to == to && p.purpose.args.sourceIndex == x;
      assert Rewards(p, x);
    }
  }

  /** Once rewarded, a source is refused for good: after any further run, at any
      time, with any proofs, the claim reverts and changes nothing. */
  lemma RewardedIsRefusedForGood(H: PairHash, cfg: Config, s: Ledger, txs: seq<Transaction>,
                                 env: Env, a: ClaimArgs, reaction: Reaction)
    requires Inv(H, cfg, s) && a.sourceIndex in s.rewarded
    ensures var s' := Run(H, cfg, s, txs);
            Step(H, cfg, env, s', Claim(a, reaction)) == (s', Reverted(AlreadyClaimed(a.sourceIndex)))
  {
    hide Inv;
    RunKeepsInv(H, cfg, s, txs);
  }

  /** No call in the tree is a withdrawal asked for by the owner. */
  ghost predicate NoOwnerWithdrawal(cfg: Config, call: Call)
    decreases call
  {
    match call
    case Claim(_, reaction) => forall c :: c in reaction.calls ==> NoOwnerWithdrawal(cfg, c)
    case Withdraw(caller, _, _, reaction) =>
      caller != cfg.owner && forall c :: c in reaction.calls ==> NoOwnerWithdrawal(cfg, c)
    case Fund(_) => true
    case Frame(reaction) => forall c :: c in reaction.calls ==> NoOwnerWithdrawal(cfg, c)
  }

  /** Only the owner moves funds without a claim: whoever else calls, and
      however recipients call back in, every payment added is a reward. */
  lemma {:induction false} OnlyOwnerWithdraws(H: PairHash, cfg: Config, env: Env, s: Ledger, call: Call)
    requires NoOwnerWithdrawal(cfg, call)
    ensures OnlyRewardsAdded(s, Step(H, cfg, env, s, call).0)
    decreases call, 0
  {
    hide CheckClaim, Withdrawn, AddressOf;
    match call
    case Claim(a, reaction) =>
      if CheckClaim(H, cfg, env, s.balance, s.rewarded, a).None? {
        var handed := HandedOver(Marked(s, a), RewardFor(cfg, env, a));
        RewardAdded(s, handed, RewardFor(cfg, env, a));
        NoWithdrawalInCalls(H, cfg, env, handed, reaction.calls);
        AddedInTurn(s, handed, RunCalls(H, cfg, env, handed, reaction.calls));
        hide OnlyRewardsAdded, RunCalls;
      }
    case Frame(reaction) =>
      NoWithdrawalInCalls(H, cfg, env, s, reaction.calls);
    case _ =>
  }

  ghost predicate OnlyRewardsAdded(s: Ledger, s': Ledger)
  {
    && s.payments <= s'.payments
    && Withdrawn(s'.payments) == Withdrawn(s.payments)
    && forall i :: |s.payments| <= i < |s'.payments| ==> s'.payments[i].purpose.Reward?
  }

  lemma RewardAdded(s: Ledger, s': Ledger, p: Payment)
    requires p.purpose.Reward? && s'.payments == s.payments + [p]
    ensures OnlyRewardsAdded(s, s')
  {
    assert s'.payments[..|s.payments|] == s.payments;
  }

  lemma AddedInTurn(s: Ledger, s': Ledger, s'': Ledger)
    requires OnlyRewardsAdded(s, s') && OnlyRewardsAdded(s', s'')
    ensures OnlyRewardsAdded(s, s'')
  {
  }

  lemma {:induction false} NoWithdrawalInCalls(H: PairHash, cfg: Config, env: Env, s: Ledger, calls: seq<Call>)
    requires forall c :: c in calls ==> NoOwnerWithdrawal(cfg, c)
    ensures OnlyRewardsAdded(s, RunCalls(H, cfg, env, s, calls))
    decreases calls, 0
  {
    if calls != [] {
      var last := |calls| - 1;
      NoWithdrawalInCalls(H, cfg, env, s, calls[..last]);
      OnlyOwnerWithdraws(H, cfg, env, RunCalls(H, cfg, env, s, calls[..last]), calls[last]);
    }
  }

  // ----- the contract object

  class Incentives {
    const cfg: Config
    var balance: nat
    var rewarded: set<uint64>
    ghost var received: nat
    ghost var payments: seq<Payment>
    /** The books at every call boundary so far; no rollback touches it. */
    ghost var trace: seq<Ledger>

    ghost function Books(): Ledger
      reads this
    {
      Ledger(balance, rewarded, received, payments)
    }

    constructor (cfg: Config)
      ensures this.cfg == cfg && Books() == EMPTY && trace == []
    {
      this.cfg := cfg;
      balance, rewarded := 0, {};
      received, payments, trace := 0, [], [];
    }

    method Check(H: PairHash, env: Env, a: ClaimArgs) returns (failure: Option<Error>)
      ensures failure == CheckClaim(H, cfg, env, balance, rewarded, a)
    {
      hide ShiftedPosition, U64Chunk, Accepted, ToLittleEndian64, Pow2;
      if a.sourceIndex in rewarded {
        return Some(AlreadyClaimed(a.sourceIndex));
      }
      if !SszMerkleVerifier.IsUint256(a.beaconTimestamp + cfg.minClaimDelay) {
        return Some(ArithmeticPanic);
      }
      if env.timestamp < a.beaconTimestamp + cfg.minClaimDelay {
        return Some(TimestampTooRecent(a.beaconTimestamp, env.timestamp, cfg.minClaimDelay));
      }
      var blockRoot := OracleRoot(env, a.beaconTimestamp);
      if blockRoot == ZERO {
        return Some(BeaconRootNotFound(a.beaconTimestamp));
      }
      if |a.proofConsolidation| != CONSOLIDATION_PROOF_LENGTH {
        return Some(InvalidProofLength(|a.proofConsolidation|, CONSOLIDATION_PROOF_LENGTH));
      }
      if |a.proofCredentials| != VALIDATOR_PROOF_LENGTH {
        return Some(InvalidProofLength(|a.proofCredentials|, VALIDATOR_PROOF_LENGTH));
      }
      if |a.proofActivationEpoch| != VALIDATOR_PROOF_LENGTH {
        return Some(InvalidProofLength(|a.proofActivationEpoch|, VALIDATOR_PROOF_LENGTH));
      }
      EncodingsAgree(a.sourceIndex);
      var sourceIndexLeaf := ToLittleEndian64(a.sourceIndex);
      var gindex := SszMerkleVerifier.ConsolidationSourceGindex(a.consolidationIndex);
      var ok := SszMerkleVerifier.VerifyProof(H, blockRoot, sourceIndexLeaf, a.proofConsolidation, gindex);
      if !ok {
        return Some(InvalidProof(ConsolidationSource(a.consolidationIndex)));
      }
      gindex := SszMerkleVerifier.ValidatorCredentialsGindex(a.sourceIndex);
      ok := SszMerkleVerifier.VerifyProof(H, blockRoot, a.sourceCredentials, a.proofCredentials, gindex);
      if !ok {
        return Some(InvalidProof(ValidatorCredentials(a.sourceIndex)));
      }
      EncodingsAgree(a.activationEpoch);
      var activationEpochLeaf := ToLittleEndian64(a.activationEpoch);
      gindex := SszMerkleVerifier.ValidatorActivationEpochGindex(a.sourceIndex);
      ok := SszMerkleVerifier.VerifyProof(H, blockRoot, activationEpochLeaf, a.proofActivationEpoch, gindex);
      if !ok {
        return Some(InvalidProof(ValidatorActivation(a.sourceIndex)));
      }
      if a.activationEpoch >= cfg.maxEpoch {
        return Some(NotEligible(a.activationEpoch, cfg.maxEpoch));
      }
      var prefix := Prefix(a.sourceCredentials);
      if prefix != 1 && prefix != 2 {
        return Some(InvalidCredentialsPrefix(prefix));
      }
      if balance < cfg.rewardAmount {
        return Some(InsufficientBalance(cfg.rewardAmount, balance));
      }
      return None;
    }

    method ClaimReward(H: PairHash, env: Env, a: ClaimArgs, reaction: Reaction) returns (outcome: Outcome)
      modifies this
      ensures (Books(), outcome) == Step(H, cfg, env, old(Books()), Claim(a, reaction))
      ensures trace == old(trace) + Within(H, cfg, env, old(Books()), Claim(a, reaction))
      decreases reaction, 2
    {
      hide CheckClaim;
      var failure := Check(H, env, a);
      if failure.Some? {
        return Reverted(failure.value);
      }
      var rewardedBefore := rewarded;
      var recipient := AddressOf(a.sourceCredentials);
      // Marked before the transfer, so a recipient calling back in finds it so.
      rewarded := rewarded + {a.sourceIndex};
      var success := Transfer(H, env, recipient, cfg.rewardAmount, Reward(env, a), reaction);
      if !success {
        rewarded := rewardedBefore;
        return Reverted(TransferFailed(recipient, cfg.rewardAmount));
      }
      return Done;
    }

    method Withdraw(H: PairHash, env: Env, caller: Address, to: Address, amount: nat, reaction: Reaction)
      returns (outcome: Outcome)
      modifies this
      ensures (Books(), outcome) == Step(H, cfg, env, old(Books()), Call.Withdraw(caller, to, amount, reaction))
      ensures trace == old(trace) + Within(H, cfg, env, old(Books()), Call.Withdraw(caller, to, amount, reaction))
      decreases reaction, 2
    {
      if caller != cfg.owner {
        return Reverted(NotOwner(caller));
      }
      if amount > balance {
        return Reverted(InsufficientBalance(amount, balance));
      }
      var success := Transfer(H, env, to, amount, Withdrawal, reaction);
      if !success {
        return Reverted(TransferFailed(to, amount));
      }
      return Done;
    }

    method Receive(amount: nat)
      modifies this
      ensures Books() == old(Books()).(balance := old(balance) + amount, received := old(received) + amount)
      ensures trace == old(trace)
    {
      balance := balance + amount;
      received := received + amount;
    }

    /** `to.call{value: value}("")`: the value moves, the receiver runs, and if it
        rejects, the machine undoes everything since the call began. */
    method Transfer(H: PairHash, env: Env, to: Address, value: nat, ghost purpose: Purpose, reaction: Reaction)
      returns (success: bool)
      requires value <= balance
      modifies this
      ensures var sent := Send(H, cfg, env, old(Books()), Payment(to, value, purpose), reaction);
              success == sent.Some? && Books() == if sent.Some? then sent.value else old(Books())
      ensures trace == old(trace) + SendBoundaries(H, cfg, env, old(Books()), Payment(to, value, purpose), reaction)
      decreases reaction, 1
    {
      var balanceBefore, rewardedBefore := balance, rewarded;
      ghost var before := Books();
      balance, payments := balance - value, payments + [Payment(to, value, purpose)];
      if to == cfg.self {
        trace := trace + [Books()];
        Receive(value);
        trace := trace + [Books()];
        return true;
      }
      RunReaction(H, env, reaction.calls);
      if !reaction.accepts {
        balance, rewarded := balanceBefore, rewardedBefore;
        received, payments := before.received, before.payments;
      }
      return reaction.accepts;
    }

    /** The calls another contract makes while it is in control, in order. */
    method RunReaction(H: PairHash, env: Env, calls: seq<Call>)
      modifies this
      ensures Books() == RunCalls(H, cfg, env, old(Books()), calls)
      ensures trace == old(trace) + CallBoundaries(H, cfg, env, old(Books()), calls)
      decreases calls, 1
    {
      ghost var start, traceBefore := Books(), trace;
      trace := trace + [start];
      for k := 0 to |calls|
        invariant Books() == RunCalls(H, cfg, env, start, calls[..k])
        invariant trace == traceBefore + CallBoundaries(H, cfg, env, start, calls[..k])
      {
        hide Step, Boundaries;
        assert calls[..k + 1][..k] == calls[..k];
        var outcome := Execute(H, env, calls[k]);
      }
      assert calls[..|calls|] == calls;
    }

    /** A frame of another contract: if it reverts, its own calls are undone. */
    method RunFrame(H: PairHash, env: Env, reaction: Reaction) returns (outcome: Outcome)
      modifies this
      ensures (Books(), outcome) == Step(H, cfg, env, old(Books()), Frame(reaction))
      ensures trace == old(trace) + Within(H, cfg, env, old(Books()), Frame(reaction))
      decreases reaction, 2
    {
      var balanceBefore, rewardedBefore := balance, rewarded;
      ghost var before := Books();
      RunReaction(H, env, reaction.calls);
      if reaction.accepts {
        return Done;
      }
      balance, rewarded := balanceBefore, rewardedBefore;
      received, payments := before.received, before.payments;
      return Reverted(FrameReverted);
    }

    method Execute(H: PairHash, env: Env, call: Call) returns (outcome: Outcome)
      modifies this
      ensures (Books(), outcome) == Step(H, cfg, env, old(Books()), call)
      ensures trace == old(trace) + Boundaries(H, cfg, env, old(Books()), call)
      decreases call, 0
    {
      hide CheckClaim, Send, SendBoundaries;
      ghost var before, traceBefore := Books(), trace;
      trace := trace + [before];
      match call {
        case Claim(a, reaction) =>
          outcome := ClaimReward(H, env, a, reaction);
        case Withdraw(caller, to, amount, reaction) =>
          outcome := Withdraw(H, env, caller, to, amount, reaction);
        case Fund(amount) =>
          Receive(amount);
          outcome := Done;
        case Frame(reaction) =>
          outcome := RunFrame(H, env, reaction);
      }
      assert trace == traceBefore + [before] + Within(H, cfg, env, before, call);
      hide Step, Within;
      trace := trace + [Books()];
    }

    /** A whole run of transactions, each in its own environment. The invariant
        holds at every call boundary met on the way. */
    method RunAll(H: PairHash, txs: seq<Transaction>)
      requires Inv(H, cfg, Books())
      modifies this
      ensures Books() == Run(H, cfg, old(Books()), txs)
      ensures Inv(H, cfg, Books())
      ensures trace == old(trace) + RunBoundaries(H, cfg, old(Books()), txs)
      ensures forall i :: |old(trace)| <= i < |trace| ==> Inv(H, cfg, trace[i])
    {
      hide Inv, AllInv, Step, Boundaries;
      ghost var start, traceBefore := Books(), trace;
      for k := 0 to |txs|
        invariant Books() == Run(H, cfg, start, txs[..k])
        invariant trace == traceBefore + RunBoundaries(H, cfg, start, txs[..k])
      {
        assert txs[..k + 1][..k] == txs[..k];
        var outcome := Execute(H, txs[k].env, txs[k].call);
      }
      assert txs[..|txs|] == txs;
      hide Run, RunBoundaries;
      RunKeepsInv(H, cfg, start, txs);
      RunBoundariesKeepInv(H, cfg, start, txs);
      AllInvEach(H, cfg, RunBoundaries(H, cfg, start, txs));
    }
  }
}
