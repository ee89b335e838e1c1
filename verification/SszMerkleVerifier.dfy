/** The contract's proof verifier and its gindex builders. */
module SszMerkleVerifier {
  import opened Bits
  import opened Bytes
  import opened Merkle
  import opened Gindex
  import opened BeaconState

  const UINT256_LIMIT :=
    0x1_0000_0000_0000_0000_0000_0000_0000_0000_0000_0000_0000_0000_0000_0000_0000_0000

  predicate IsUint256(x: int)
  {
    0 <= x < UINT256_LIMIT
  }

  lemma Uint256Limit()
    ensures Pow2(256) == UINT256_LIMIT
  {
    hide Pow2;
    Pow2Values();
    Pow2Add(64, 64);
    Pow2Add(128, 128);
  }

  lemma {:induction false} LogOfShifted(x: nat, k: nat)
    requires x >= Pow2(k)
    ensures Shr(x, k) >= 1
    ensures FloorLog2(x) == k + FloorLog2(Shr(x, k))
  {
    if k > 0 {
      LogOfShifted(x / 2, k - 1);
    }
  }

  lemma LogBelow(x: nat, k: nat)
    requires x >= 1
    ensures FloorLog2(x) < k <==> x < Pow2(k)
  {
    if FloorLog2(x) < k {
      Pow2Monotone(FloorLog2(x) + 1, k);
    } else {
      Pow2Monotone(k, FloorLog2(x));
    }
  }

  /** One round of the binary search: shift away k bits if anything lies above them. */
  method Log2Round(x: nat, k: nat, result: nat) returns (x': nat, result': nat)
    requires x >= 1 && FloorLog2(x) < 2 * k
    ensures x' >= 1 && FloorLog2(x') < k
    ensures result + FloorLog2(x) == result' + FloorLog2(x')
  {
    LogBelow(x, k);
    x', result' := x, result;
    if x >= Pow2(k) {
      LogOfShifted(x, k);
      x' := Shr(x, k);
      result' := result + k;
    }
  }

  /** _log2: binary search for the highest set bit; the contract reverts on zero. */
  method Log2(x0: nat) returns (result: nat)
    requires x0 >= 1 && IsUint256(x0)
    ensures Pow2(result) <= x0 < Pow2(result + 1)
    ensures result == FloorLog2(x0)
  {
    hide Pow2, FloorLog2;
    Uint256Limit();
    LogBelow(x0, 256);
    var x := x0;
    result := 0;
    x, result := Log2Round(x, 128, result);
    x, result := Log2Round(x, 64, result);
    x, result := Log2Round(x, 32, result);
    x, result := Log2Round(x, 16, result);
    x, result := Log2Round(x, 8, result);
    x, result := Log2Round(x, 4, result);
    x, result := Log2Round(x, 2, result);
    LogBelow(x, 1);
    if x >= Pow2(1) {
      result := result + 1;
    }
  }

  lemma LowBit(index: nat)
    ensures BitAnd(index, 1) == index % 2
    ensures Shr(index, 1) == index / 2
  {
    AndOnes(index, 1);
    assert Pow2(1) == 2;
    assert LowBits(index, 1) == index % 2;
    assert Shr(index, 1) == Shr(index / 2, 0);
  }

  /** Accepts exactly the proofs that fold to the root at the gindex's depth. */
  method VerifyProof(H: PairHash, root: Bytes32, leaf: Bytes32, proof: seq<Bytes32>, gindex: nat)
    returns (ok: bool)
    requires IsUint256(gindex)
    ensures ok <==> Accepted(H, root, leaf, proof, gindex)
  {
    hide FloorLog2, Shr, BitAnd;
    if gindex == 0 {
      return false;
    }
    LogOfOne();
    if gindex == 1 {
      return |proof| == 0 && leaf == root;
    }
    var depth := Log2(gindex);
    if |proof| != depth {
      return false;
    }
    var computed := leaf;
    var index := gindex;
    for i := 0 to |proof|
      invariant Fold(H, leaf, proof, gindex) == Fold(H, computed, proof[i..], index)
    {
      LowBit(index);
      assert proof[i..][1..] == proof[i + 1..];
      if BitAnd(index, 1) == 0 {
        computed := H(computed, proof[i]);
      } else {
        computed := H(proof[i], computed);
      }
      index := Shr(index, 1);
    }
    return computed == root;
  }

  lemma LogOfOne()
    ensures FloorLog2(1) == 0
  {
  }

  // ----- gindex builders

  /** Every intermediate value of the builders fits the 256-bit word. */
  lemma BuilderFits(field: nat, listDepth: nat, index: uint64, innerDepth: nat, innerField: nat)
    requires field < 64 && listDepth <= 40 && innerDepth <= 3 && innerField < Pow2(innerDepth)
    ensures IsUint256(ShiftedGindex(field, listDepth, index, innerDepth, innerField))
  {
    ListDataGindex(field);
    assert Pow2(11) == 2048;
    hide Shl, Pow2, BitOr;
    Pow2Values();
    var data := 1408 + 2 * field;
    ShlBelow(data, 11, listDepth, 0);
    Pow2Monotone(11 + listDepth, 64);
    var element := BitOr(Shl(data, listDepth), index);
    OrBelow(Shl(data, listDepth), index, 64);
    OrOfDisjointIsSum(element, innerDepth, innerField);
    ShlBelow(element, 64, innerDepth, innerField);
    Pow2Monotone(64 + innerDepth, 256);
    Uint256Limit();
  }

  method ConsolidationSourceGindex(consolidationIndex: uint64) returns (gindex: nat)
    ensures gindex == ShiftedPosition(ConsolidationSource(consolidationIndex)) && IsUint256(gindex)
  {
    hide Shl, BitOr;
    SmallPowers();
    BuilderFits(CONSOLIDATIONS_FIELD, CONSOLIDATIONS_TREE_DEPTH, consolidationIndex, CONSOLIDATION_DEPTH, SOURCE_FIELD);
    gindex := HEADER_BASE + STATE_ROOT_FIELD;
    gindex := BitOr(Shl(gindex, STATE_DEPTH), CONSOLIDATIONS_FIELD);
    gindex := Shl(gindex, 1);
    gindex := BitOr(Shl(gindex, CONSOLIDATIONS_TREE_DEPTH), consolidationIndex);
    gindex := BitOr(Shl(gindex, CONSOLIDATION_DEPTH), SOURCE_FIELD);
  }

  method ValidatorCredentialsGindex(validatorIndex: uint64) returns (gindex: nat)
    ensures gindex == ShiftedPosition(ValidatorCredentials(validatorIndex)) && IsUint256(gindex)
  {
    hide Shl, BitOr;
    SmallPowers();
    BuilderFits(VALIDATORS_FIELD, VALIDATORS_TREE_DEPTH, validatorIndex, VALIDATOR_DEPTH, CREDENTIALS_FIELD);
    gindex := HEADER_BASE + STATE_ROOT_FIELD;
    gindex := BitOr(Shl(gindex, STATE_DEPTH), VALIDATORS_FIELD);
    gindex := Shl(gindex, 1);
    gindex := BitOr(Shl(gindex, VALIDATORS_TREE_DEPTH), validatorIndex);
    gindex := BitOr(Shl(gindex, VALIDATOR_DEPTH), CREDENTIALS_FIELD);
  }

  method ValidatorActivationEpochGindex(validatorIndex: uint64) returns (gindex: nat)
    ensures gindex == ShiftedPosition(ValidatorActivation(validatorIndex)) && IsUint256(gindex)
  {
    hide Shl, BitOr;
    SmallPowers();
    BuilderFits(VALIDATORS_FIELD, VALIDATORS_TREE_DEPTH, validatorIndex, VALIDATOR_DEPTH, ACTIVATION_FIELD);
    gindex := HEADER_BASE + STATE_ROOT_FIELD;
    gindex := BitOr(Shl(gindex, STATE_DEPTH), VALIDATORS_FIELD);
    gindex := Shl(gindex, 1);
    gindex := BitOr(Shl(gindex, VALIDATORS_TREE_DEPTH), validatorIndex);
    gindex := BitOr(Shl(gindex, VALIDATOR_DEPTH), ACTIVATION_FIELD);
  }
}
