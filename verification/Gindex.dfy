/** Generalized indices: the prover concatenates them, the contract shifts and
    ORs. Positions from the block root run through the header, the state, a list
    and one element of it. */
module Gindex {
  import opened Bits
  import opened Merkle
  import opened Results

  const HEADER_BASE := 8
  const HEADER_DEPTH := 3
  const STATE_ROOT_FIELD := 3
  const STATE_BASE := 64
  const STATE_DEPTH := 6
  const VALIDATORS_FIELD := 11
  const CONSOLIDATIONS_FIELD := 36
  const VALIDATOR_BASE := 8
  const VALIDATOR_DEPTH := 3
  const CREDENTIALS_FIELD := 1
  const ACTIVATION_FIELD := 5
  const CONSOLIDATION_BASE := 2
  const CONSOLIDATION_DEPTH := 1
  const SOURCE_FIELD := 0
  const VALIDATORS_TREE_DEPTH := 40
  const CONSOLIDATIONS_TREE_DEPTH := 18
  const VALIDATOR_REGISTRY_LIMIT := 1_099_511_627_776
  const PENDING_CONSOLIDATIONS_LIMIT := 262_144

  // ----- the prover's concatenation

  /** Zero bits above the highest set bit of a word of the given width. */
  function LeadingZeros(g: nat, width: nat): nat
    decreases width
  {
    if width == 0 || g >= Pow2(width - 1) then 0 else 1 + LeadingZeros(g, width - 1)
  }

  lemma {:induction false} LeadingZerosOf(g: nat, width: nat)
    requires 1 <= g < Pow2(width)
    ensures LeadingZeros(g, width) + FloorLog2(g) + 1 == width
    decreases width
  {
    if g >= Pow2(width - 1) {
      FloorLog2Unique(g, width - 1);
    } else {
      LeadingZerosOf(g, width - 1);
    }
  }

  /** gindex_depth; zero underflows in the prover, so callers pass at least one. */
  function GindexDepth(g: uint64): (d: nat)
    requires g >= 1
    ensures d == FloorLog2(g) < 64
  {
    Pow2Values();
    LeadingZerosOf(g, 64);
    63 - LeadingZeros(g, 64)
  }

  /** The position reached by walking the given relative positions in turn. */
  function ConcatAll(gs: seq<nat>): (g: nat)
    requires forall i :: 0 <= i < |gs| ==> gs[i] >= 1
    ensures g >= 1
  {
    if gs == [] then 1 else Concat(ConcatAll(gs[..|gs| - 1]), gs[|gs| - 1])
  }

  function TotalDepth(gs: seq<nat>): nat
    requires forall i :: 0 <= i < |gs| ==> gs[i] >= 1
  {
    if gs == [] then 0 else TotalDepth(gs[..|gs| - 1]) + FloorLog2(gs[|gs| - 1])
  }

  lemma {:induction false} ConcatAllDepth(gs: seq<nat>)
    requires forall i :: 0 <= i < |gs| ==> gs[i] >= 1
    ensures FloorLog2(ConcatAll(gs)) == TotalDepth(gs)
  {
    if gs != [] {
      ConcatAllDepth(gs[..|gs| - 1]);
      ConcatDepth(ConcatAll(gs[..|gs| - 1]), gs[|gs| - 1]);
    }
  }

  lemma ShlOne(d: nat)
    requires d < 64
    ensures Shl64(1, d) == Pow2(d)
  {
    hide Shl, Pow2, LowBits;
    ShlIsTimes(1, d);
    Pow2Double(d);
    Pow2Monotone(d + 1, 64);
    LowBitsOfSmall(Pow2(d), 64);
  }

  /** One round of the prover's loop computes the concatenation modulo 2^64. */
  lemma ConcatRound(position: nat, g: uint64, d: nat)
    requires position >= 1 && g >= 1 && d == FloorLog2(g) < 64
    ensures Shl64(1, d) == Pow2(d)
    ensures BitOr(Shl64(LowBits(position, 64), d), BitXor(g, Pow2(d)))
         == LowBits(Concat(position, g), 64)
  {
    hide Concat, Shl, Pow2, FloorLog2, BitOr, LowBits, BitXor;
    ShlOne(d);
    Pow2Double(d);
    XorLeadingOne(g, d);
    var low, rest := LowBits(position, 64), g - Pow2(d);
    LowBitsOfShift(low, d, 0, 64 - d);
    LowBitsOfLowBits(position, 64 - d, d);
    OrOfDisjointIsSum(LowBits(position, 64 - d), d, rest);
    ConcatIsShiftPlusRest(position, g, d);
    LowBitsOfShift(position, d, rest, 64 - d);
  }

  method ConcatGindices(gindices: seq<uint64>) returns (result: uint64)
    requires forall i :: 0 <= i < |gindices| ==> gindices[i] >= 1
    ensures result == LowBits(ConcatAll(gindices), 64)
    ensures TotalDepth(gindices) < 64 <==> result == ConcatAll(gindices)
  {
    hide Concat, FloorLog2, LowBits, BitOr, BitXor, Shl64, Pow2;
    Pow2Values();
    result := 1;
    LowBitsOfSmall(1, 64);
    for i := 0 to |gindices|
      invariant result == LowBits(ConcatAll(gindices[..i]), 64)
    {
      var g := gindices[i];
      var depth := GindexDepth(g);
      ConcatRound(ConcatAll(gindices[..i]), g, depth);
      assert gindices[..i + 1][..i] == gindices[..i];
      result := BitOr(Shl64(result, depth), BitXor(g, Shl64(1, depth)));
    }
    assert gindices[..|gindices|] == gindices;
    ConcatAllDepth(gindices);
    var all := ConcatAll(gindices);
    if TotalDepth(gindices) < 64 {
      Pow2Monotone(TotalDepth(gindices) + 1, 64);
      LowBitsOfSmall(all, 64);
    } else {
      Pow2Monotone(64, TotalDepth(gindices));
    }
  }

  // ----- positions of the proven fields

  /** From the block root: state root, state field, list data, element, and a
      position inside the element. */
  function InList(field: nat, listDepth: nat, index: nat, inner: nat): (g: nat)
    requires inner >= 1
    ensures g >= 1
  {
    Concat(ElementOf(field, listDepth, index), inner)
  }

  function ListAt(field: nat): (g: nat)
    ensures g >= 1
  {
    Concat(HEADER_BASE + STATE_ROOT_FIELD, STATE_BASE + field)
  }

  function ElementOf(field: nat, listDepth: nat, index: nat): (g: nat)
    ensures g >= 1
  {
    Concat(Concat(ListAt(field), 2), Pow2(listDepth) + index)
  }

  lemma {:induction false} ConcatOne(g: nat)
    requires g >= 1
    ensures Concat(1, g) == g
  {
    if g > 1 {
      ConcatOne(g / 2);
    }
  }

  lemma ConcatOfPath(a: nat, b: nat, c: nat, d: nat, e: nat)
    requires a >= 1 && b >= 1 && c >= 1 && d >= 1 && e >= 1
    ensures ConcatAll([a, b, c, d, e]) == Concat(Concat(Concat(Concat(a, b), c), d), e)
    ensures TotalDepth([a, b, c, d, e])
         == FloorLog2(a) + FloorLog2(b) + FloorLog2(c) + FloorLog2(d) + FloorLog2(e)
  {
    hide Concat, FloorLog2;
    var all := [a, b, c, d, e];
    assert all[..4] == [a, b, c, d] && [a, b, c, d][..3] == [a, b, c];
    assert [a, b, c][..2] == [a, b] && [a, b][..1] == [a] && [a][..0] == [];
    ConcatOne(a);
    assert ConcatAll([]) == 1 && TotalDepth([]) == 0;
    var abcd, abc, ab, a1 := [a, b, c, d], [a, b, c], [a, b], [a];
    assert ConcatAll(a1) == Concat(ConcatAll([]), a);
    assert ConcatAll(ab) == Concat(ConcatAll(a1), b);
    assert ConcatAll(abc) == Concat(ConcatAll(ab), c);
    assert ConcatAll(abcd) == Concat(ConcatAll(abc), d);
    assert TotalDepth(a1) == FloorLog2(a);
    assert TotalDepth(ab) == TotalDepth(a1) + FloorLog2(b);
    assert TotalDepth(abc) == TotalDepth(ab) + FloorLog2(c);
    assert TotalDepth(abcd) == TotalDepth(abc) + FloorLog2(d);
  }

  lemma SmallPowers()
    ensures Pow2(1) == 2 && Pow2(3) == 8 && Pow2(6) == 64
  {
  }

  lemma BaseDepths(field: nat)
    requires field < 64
    ensures FloorLog2(11) == 3 && FloorLog2(64 + field) == 6 && FloorLog2(2) == 1
    ensures FloorLog2(8 + 1) == 3 && FloorLog2(8 + 5) == 3
  {
    assert Pow2(3) == 8 && Pow2(4) == 16 && Pow2(6) == 64 && Pow2(7) == 128;
    FloorLog2Unique(11, 3);
    FloorLog2Unique(64 + field, 6);
    FloorLog2Unique(9, 3);
    FloorLog2Unique(13, 3);
    assert Pow2(1) == 2 && Pow2(2) == 4;
    FloorLog2Unique(2, 1);
  }

  /** The proof length of every proven field, for any list depth. */
  lemma DepthOfInList(field: nat, listDepth: nat, index: nat, inner: nat)
    requires field < 64 && index < Pow2(listDepth) && inner >= 1
    ensures FloorLog2(InList(field, listDepth, index, inner))
         == HEADER_DEPTH + STATE_DEPTH + 1 + listDepth + FloorLog2(inner)
  {
    hide Concat, Shl, Pow2, FloorLog2, BitOr;
    BaseDepths(field);
    LogOfSlot(listDepth, index);
    ConcatDepth(11, 64 + field);
    ConcatDepth(ListAt(field), 2);
    ConcatDepth(Concat(ListAt(field), 2), Pow2(listDepth) + index);
    ConcatDepth(ElementOf(field, listDepth, index), inner);
  }

  /** None where adding the index to the tree's base overflows the word, which
      panics when overflow is checked. */
  method PathGindex(field: uint64, dataDepth: nat, index: uint64, inner: uint64) returns (g: Option<uint64>)
    requires field < 64 && dataDepth <= 48 && 1 <= inner < 16
    ensures g.None? <==> Pow2(dataDepth) + index >= 0x1_0000_0000_0000_0000
    ensures g.Some? ==> g.value == LowBits(InList(field, dataDepth, index, inner), 64)
    ensures index < Pow2(dataDepth) ==> g == Some(InList(field, dataDepth, index, inner))
  {
    hide Concat, Shl, Pow2, FloorLog2, BitOr, LowBits, ConcatAll, TotalDepth;
    var stateRootInHeader := HEADER_BASE + STATE_ROOT_FIELD;
    var fieldInState := STATE_BASE + field;
    if Pow2(dataDepth) + index >= 0x1_0000_0000_0000_0000 {
      BaseBelowWord(dataDepth, index);
      return None;
    }
    var elementInData := Pow2(dataDepth) + index;
    ConcatOfPath(stateRootInHeader, fieldInState, 2, elementInData, inner);
    BaseDepths(field);
    if index < Pow2(dataDepth) {
      LogOfSlot(dataDepth, index);
      InnerDepth(inner);
    }
    var position := ConcatGindices([stateRootInHeader, fieldInState, 2, elementInData, inner]);
    return Some(position);
  }

  lemma BaseBelowWord(depth: nat, index: nat)
    requires depth <= 48 && Pow2(depth) + index >= 0x1_0000_0000_0000_0000
    ensures index >= Pow2(depth)
  {
    hide Pow2;
    Pow2Values();
    Pow2Double(depth);
    Pow2Monotone(depth + 1, 64);
  }

  lemma InnerDepth(inner: nat)
    requires 1 <= inner < 16
    ensures FloorLog2(inner) <= 3
  {
    assert Pow2(4) == 16;
    if FloorLog2(inner) >= 4 {
      Pow2Monotone(4, FloorLog2(inner));
    }
  }

  /** consolidation_source_gindex and its test form: the presets differ only in
      the list depth. */
  method ConsolidationSourceGindex(dataDepth: nat, index: uint64) returns (g: Option<uint64>)
    requires dataDepth <= 48
    ensures g.None? <==> Pow2(dataDepth) + index >= 0x1_0000_0000_0000_0000
    ensures g.Some? ==>
      g.value == LowBits(InList(CONSOLIDATIONS_FIELD, dataDepth, index, CONSOLIDATION_BASE + SOURCE_FIELD), 64)
    ensures index < Pow2(dataDepth) ==>
      g == Some(InList(CONSOLIDATIONS_FIELD, dataDepth, index, CONSOLIDATION_BASE + SOURCE_FIELD))
  {
    g := PathGindex(CONSOLIDATIONS_FIELD, dataDepth, index, CONSOLIDATION_BASE + SOURCE_FIELD);
  }

  method ValidatorCredentialsGindex(dataDepth: nat, index: uint64) returns (g: Option<uint64>)
    requires dataDepth <= 48
    ensures g.None? <==> Pow2(dataDepth) + index >= 0x1_0000_0000_0000_0000
    ensures g.Some? ==>
      g.value == LowBits(InList(VALIDATORS_FIELD, dataDepth, index, VALIDATOR_BASE + CREDENTIALS_FIELD), 64)
    ensures index < Pow2(dataDepth) ==>
      g == Some(InList(VALIDATORS_FIELD, dataDepth, index, VALIDATOR_BASE + CREDENTIALS_FIELD))
  {
    g := PathGindex(VALIDATORS_FIELD, dataDepth, index, VALIDATOR_BASE + CREDENTIALS_FIELD);
  }

  method ValidatorActivationEpochGindex(dataDepth: nat, index: uint64) returns (g: Option<uint64>)
    requires dataDepth <= 48
    ensures g.None? <==> Pow2(dataDepth) + index >= 0x1_0000_0000_0000_0000
    ensures g.Some? ==>
      g.value == LowBits(InList(VALIDATORS_FIELD, dataDepth, index, VALIDATOR_BASE + ACTIVATION_FIELD), 64)
    ensures index < Pow2(dataDepth) ==>
      g == Some(InList(VALIDATORS_FIELD, dataDepth, index, VALIDATOR_BASE + ACTIVATION_FIELD))
  {
    g := PathGindex(VALIDATORS_FIELD, dataDepth, index, VALIDATOR_BASE + ACTIVATION_FIELD);
  }

  // ----- the contract's shift and OR

  /** The contract's position before the element's own field is appended. */
  function ShiftedElement(field: nat, listDepth: nat, index: nat): (g: nat)
    ensures g >= 1
  {
    BitOr(Shl(Shl(BitOr(Shl(HEADER_BASE + STATE_ROOT_FIELD, STATE_DEPTH), field), 1), listDepth), index)
  }

  function ShiftedGindex(field: nat, listDepth: nat, index: nat, innerDepth: nat, innerField: nat): (g: nat)
    ensures g >= 1
  {
    BitOr(Shl(ShiftedElement(field, listDepth, index), innerDepth), innerField)
  }

  /** The list's data root, from the block root: 2 * (64 * 11 + field). */
  lemma ListDataGindex(field: nat)
    requires field < 64
    ensures ListAt(field) == 704 + field
    ensures Concat(ListAt(field), 2) == Shl(BitOr(Shl(11, STATE_DEPTH), field), 1) == 1408 + 2 * field
  {
    BaseDepths(field);
    assert Pow2(6) == 64 && Pow2(1) == 2;
    ConcatIsShiftPlusRest(11, 64 + field, 6);
    ShlIsTimes(11, 6);
    OrOfDisjointIsSum(11, 6, field);
    ConcatIsShiftPlusRest(ListAt(field), 2, 1);
  }

  /** In range, the two programs compute the same number. */
  lemma FormsAgree(field: nat, listDepth: nat, index: nat, innerDepth: nat, innerField: nat)
    requires field < 64 && index < Pow2(listDepth) && innerField < Pow2(innerDepth)
    ensures ShiftedElement(field, listDepth, index) == ElementOf(field, listDepth, index)
    ensures ShiftedGindex(field, listDepth, index, innerDepth, innerField)
         == InList(field, listDepth, index, Pow2(innerDepth) + innerField)
  {
    hide Concat, Shl, Pow2, FloorLog2, BitOr;
    ListDataGindex(field);
    var data := Concat(ListAt(field), 2);
    ConcatSlot(data, listDepth, index);
    OrOfDisjointIsSum(data, listDepth, index);
    ConcatSlot(ElementOf(field, listDepth, index), innerDepth, innerField);
    OrOfDisjointIsSum(ElementOf(field, listDepth, index), innerDepth, innerField);
  }

  // ----- the three proven values at production depths

  datatype Target =
    | ConsolidationSource(index: nat)
    | ValidatorCredentials(index: nat)
    | ValidatorActivation(index: nat)

  predicate InRange(t: Target)
  {
    t.index < if t.ConsolidationSource? then PENDING_CONSOLIDATIONS_LIMIT else VALIDATOR_REGISTRY_LIMIT
  }

  function PositionOf(t: Target): (g: nat)
    ensures g >= 1
  {
    match t
    case ConsolidationSource(i) =>
      InList(CONSOLIDATIONS_FIELD, CONSOLIDATIONS_TREE_DEPTH, i, CONSOLIDATION_BASE + SOURCE_FIELD)
    case ValidatorCredentials(i) =>
      InList(VALIDATORS_FIELD, VALIDATORS_TREE_DEPTH, i, VALIDATOR_BASE + CREDENTIALS_FIELD)
    case ValidatorActivation(i) =>
      InList(VALIDATORS_FIELD, VALIDATORS_TREE_DEPTH, i, VALIDATOR_BASE + ACTIVATION_FIELD)
  }

  /** What the contract computes for a target. */
  function ShiftedPosition(t: Target): (g: nat)
    ensures g >= 1
  {
    match t
    case ConsolidationSource(i) =>
      ShiftedGindex(CONSOLIDATIONS_FIELD, CONSOLIDATIONS_TREE_DEPTH, i, CONSOLIDATION_DEPTH, SOURCE_FIELD)
    case ValidatorCredentials(i) =>
      ShiftedGindex(VALIDATORS_FIELD, VALIDATORS_TREE_DEPTH, i, VALIDATOR_DEPTH, CREDENTIALS_FIELD)
    case ValidatorActivation(i) =>
      ShiftedGindex(VALIDATORS_FIELD, VALIDATORS_TREE_DEPTH, i, VALIDATOR_DEPTH, ACTIVATION_FIELD)
  }

  function ProofLength(t: Target): nat
  {
    if t.ConsolidationSource? then 29 else 53
  }

  /** Prover and contract name the same node, in 64 bits and at the fixed depth. */
  lemma PositionsAgree(t: Target)
    requires InRange(t)
    ensures ShiftedPosition(t) == PositionOf(t) < 0x1_0000_0000_0000_0000
    ensures FloorLog2(PositionOf(t)) == ProofLength(t)
  {
    hide InList, ShiftedGindex, Pow2;
    PositionsAgreeSteps(t);
    Pow2Values();
    Pow2Monotone(ProofLength(t) + 1, 64);
  }

  lemma PositionsAgreeSteps(t: Target)
    requires InRange(t)
    ensures ShiftedPosition(t) == PositionOf(t)
    ensures FloorLog2(PositionOf(t)) == ProofLength(t)
  {
    hide InList, ShiftedGindex, Pow2, FloorLog2, Concat, ElementOf, ShiftedElement, BitOr, Shl;
    SmallPowers();
    Pow2Values();
    BaseDepths(0);
    match t
    case ConsolidationSource(i) =>
      FormsAgree(CONSOLIDATIONS_FIELD, CONSOLIDATIONS_TREE_DEPTH, i, CONSOLIDATION_DEPTH, SOURCE_FIELD);
      DepthOfInList(CONSOLIDATIONS_FIELD, CONSOLIDATIONS_TREE_DEPTH, i, 2);
    case ValidatorCredentials(i) =>
      FormsAgree(VALIDATORS_FIELD, VALIDATORS_TREE_DEPTH, i, VALIDATOR_DEPTH, CREDENTIALS_FIELD);
      DepthOfInList(VALIDATORS_FIELD, VALIDATORS_TREE_DEPTH, i, 9);
    case ValidatorActivation(i) =>
      FormsAgree(VALIDATORS_FIELD, VALIDATORS_TREE_DEPTH, i, VALIDATOR_DEPTH, ACTIVATION_FIELD);
      DepthOfInList(VALIDATORS_FIELD, VALIDATORS_TREE_DEPTH, i, 13);
  }

  /** The positions themselves: below the block root's node 11, state field 36
      starts its entries at 1480 * 2^18 and field 11 its validators at
      1430 * 2^40. */
  lemma PositionsAre(t: Target)
    requires t.index < if t.ConsolidationSource? then 0x4_0000 else 0x100_0000_0000
    ensures PositionOf(t) == ShiftedPosition(t)
    ensures PositionOf(t) == match t
      case ConsolidationSource(i) => (1480 * 0x4_0000 + i) * 2
      case ValidatorCredentials(i) => (1430 * 0x100_0000_0000 + i) * 8 + 1
      case ValidatorActivation(i) => (1430 * 0x100_0000_0000 + i) * 8 + 5
  {
    hide Concat, Shl, Pow2, FloorLog2, BitOr, ElementOf, ListAt, ShiftedPosition;
    SmallPowers();
    Pow2Values();
    PositionsAgree(t);
    match t
    case ConsolidationSource(i) =>
      PathSum(CONSOLIDATIONS_FIELD, CONSOLIDATIONS_TREE_DEPTH, i, 1, 0);
    case ValidatorCredentials(i) =>
      PathSum(VALIDATORS_FIELD, VALIDATORS_TREE_DEPTH, i, 3, 1);
    case ValidatorActivation(i) =>
      PathSum(VALIDATORS_FIELD, VALIDATORS_TREE_DEPTH, i, 3, 5);
  }

  lemma PathSum(field: nat, listDepth: nat, index: nat, innerDepth: nat, innerField: nat)
    requires field < 64 && index < Pow2(listDepth) && innerField < Pow2(innerDepth)
    ensures InList(field, listDepth, index, Pow2(innerDepth) + innerField)
         == ((1408 + 2 * field) * Pow2(listDepth) + index) * Pow2(innerDepth) + innerField
  {
    hide Concat, Shl, Pow2, ListAt;
    ListDataGindex(field);
    ConcatSlot(1408 + 2 * field, listDepth, index);
    ShlIsTimes(1408 + 2 * field, listDepth);
    ConcatSlot(ElementOf(field, listDepth, index), innerDepth, innerField);
    ShlIsTimes(ElementOf(field, listDepth, index), innerDepth);
  }

  /** Within one list and field, positions determine the element. */
  lemma SameListInjective(field: nat, listDepth: nat, innerDepth: nat, i: nat, j: nat, i': nat, j': nat)
    requires i < Pow2(listDepth) && j < Pow2(innerDepth)
    requires i' < Pow2(listDepth) && j' < Pow2(innerDepth)
    requires InList(field, listDepth, i, Pow2(innerDepth) + j)
          == InList(field, listDepth, i', Pow2(innerDepth) + j')
    ensures (i, j) == (i', j')
  {
    hide Concat, Shl, Pow2, FloorLog2, BitOr, Shr, LowBits, ListAt;
    var e, e' := ElementOf(field, listDepth, i), ElementOf(field, listDepth, i');
    ConcatSlot(e, innerDepth, j);
    ConcatSlot(e', innerDepth, j');
    SplitUnique(e, innerDepth, j);
    SplitUnique(e', innerDepth, j');
    var data := Concat(ListAt(field), 2);
    ConcatSlot(data, listDepth, i);
    ConcatSlot(data, listDepth, i');
    SplitUnique(data, listDepth, i);
    SplitUnique(data, listDepth, i');
  }

  /** In range, different targets have different positions. */
  lemma PositionsInjective(t: Target, t': Target)
    requires InRange(t) && InRange(t') && PositionOf(t) == PositionOf(t')
    ensures t == t'
  {
    hide InList, Pow2, FloorLog2, ShiftedPosition;
    Pow2Values();
    PositionsAgree(t);
    PositionsAgree(t');
    SmallPowers();
    match t
    case ConsolidationSource(i) =>
      SameListInjective(CONSOLIDATIONS_FIELD, CONSOLIDATIONS_TREE_DEPTH, 1, i, 0, t'.index, 0);
    case _ =>
      var j, j' := if t.ValidatorCredentials? then 1 else 5, if t'.ValidatorCredentials? then 1 else 5;
      SameListInjective(VALIDATORS_FIELD, VALIDATORS_TREE_DEPTH, 3, t.index, j, t'.index, j');
  }

  // ----- beyond the limits

  /** Past the limit the concatenation moves the element deeper; the OR does not. */
  lemma ElementBeyondLimit(field: nat, listDepth: nat, index: nat)
    requires field < 64 && index >= Pow2(listDepth)
    ensures ShiftedElement(field, listDepth, index) < ElementOf(field, listDepth, index)
  {
    hide Shl, BitOr, Pow2, Concat, FloorLog2, ListAt;
    ListDataGindex(field);
    Pow2Values();
    Pow2Double(10);
    var data, slot := 1408 + 2 * field, Pow2(listDepth) + index;
    var depth := FloorLog2(slot);
    Pow2Double(listDepth);
    if depth <= listDepth {
      Pow2Monotone(depth + 1, listDepth + 1);
    }
    FloorLog2Unique(data, 10);
    ConcatDepth(data, slot);
    ShlBelow(data, 11, listDepth, 0);
    Pow2Monotone(11 + listDepth, 10 + depth);
    Pow2Monotone(depth + 1, 10 + depth);
    OrBelow(Shl(data, listDepth), index, 10 + depth);
  }

  lemma FormsDifferBeyondLimit(field: nat, listDepth: nat, index: nat, innerDepth: nat, innerField: nat)
    requires field < 64 && index >= Pow2(listDepth) && innerField < Pow2(innerDepth)
    ensures ShiftedGindex(field, listDepth, index, innerDepth, innerField)
          < InList(field, listDepth, index, Pow2(innerDepth) + innerField)
  {
    hide Shl, BitOr, Pow2, Concat, ShiftedElement, ElementOf;
    ElementBeyondLimit(field, listDepth, index);
    var e, e' := ShiftedElement(field, listDepth, index), ElementOf(field, listDepth, index);
    OrOfDisjointIsSum(e, innerDepth, innerField);
    ConcatSlot(e', innerDepth, innerField);
    ShlLess(e, e', innerDepth, innerField);
  }

  /** OR-ing the index in adds at most what was there. */
  lemma ShiftedElementBounds(field: nat, listDepth: nat, index: nat)
    requires field < 64
    ensures index <= ShiftedElement(field, listDepth, index) <= (1408 + 2 * field) * Pow2(listDepth) + index
  {
    hide Shl, BitOr, Pow2, Concat;
    ListDataGindex(field);
    ShlIsTimes(1408 + 2 * field, listDepth);
    OrCommutes(Shl(1408 + 2 * field, listDepth), index);
    OrAtMostSum(Shl(1408 + 2 * field, listDepth), index);
  }

  /** A word keeps the element's own bits and, above them, what room is left for
      the list's position. */
  lemma TruncatedElement(field: nat, listDepth: nat, index: nat, width: nat)
    requires field < 64
    ensures var slot := Pow2(listDepth) + index;
            var depth := FloorLog2(slot);
            depth <= width ==>
              LowBits(ElementOf(field, listDepth, index), width)
              == LowBits(1408 + 2 * field, width - depth) * Pow2(depth) + slot - Pow2(depth)
  {
    hide Shl, Pow2, Concat, FloorLog2, LowBits, ListAt;
    var slot := Pow2(listDepth) + index;
    var depth := FloorLog2(slot);
    ListDataGindex(field);
    ConcatIsShiftPlusRest(1408 + 2 * field, slot, depth);
    Pow2Double(depth);
    if depth <= width {
      LowBitsOfShift(1408 + 2 * field, depth, slot - Pow2(depth), width - depth);
      ShlIsTimes(LowBits(1408 + 2 * field, width - depth), depth);
    }
  }

  /** Past the limit the prover's word and the contract's OR differ in the
      element already, wherever the word cuts the concatenation off. */
  lemma TruncatedElementDiffers(field: nat, listDepth: nat, index: nat, width: nat)
    requires field < 64 && index >= Pow2(listDepth) && width >= listDepth + 21
    ensures LowBits(ElementOf(field, listDepth, index), width) != ShiftedElement(field, listDepth, index)
  {
    hide Shl, BitOr, Pow2, Concat, FloorLog2, LowBits, ListAt, ElementOf, ShiftedElement;
    var data, slot := 1408 + 2 * field, Pow2(listDepth) + index;
    var depth := FloorLog2(slot);
    ShiftedElementBounds(field, listDepth, index);
    TruncatedElement(field, listDepth, index, width);
    SlotIsDeeper(listDepth, index);
    Pow2Double(width);
    if depth > width {
      Pow2Monotone(width + 1, depth);
      Pow2Monotone(listDepth, width);
    } else {
      var d := LowBits(data, width - depth);
      if width - depth >= 11 {
        WholePositionIsDeeper(listDepth, depth, width, data);
      } else {
        CutPositionIsElsewhere(listDepth, depth, width, data);
      }
    }
  }

  /** With room for the whole list position, the word is too large. */
  lemma WholePositionIsDeeper(listDepth: nat, depth: nat, width: nat, data: nat)
    requires 2 <= data < 0x800 && width - depth >= 11 && Pow2(depth) >= 2 * Pow2(listDepth)
    ensures LowBits(data, width - depth) * Pow2(depth) >= data * Pow2(listDepth) + Pow2(depth)
  {
    hide Pow2, LowBits;
    Pow2Values();
    Pow2Monotone(11, width - depth);
    LowBitsOfSmall(data, width - depth);
    MoreThanDoubled(data, Pow2(listDepth), Pow2(depth));
    DropOne(data, Pow2(depth));
  }

  lemma DropOne(a: nat, q: nat)
    requires a >= 1
    ensures a * q == (a - 1) * q + q
  {
  }

  /** Cut short, it keeps nothing, or still too much. */
  lemma CutPositionIsElsewhere(listDepth: nat, depth: nat, width: nat, data: nat)
    requires data < 0x800 && data % 2 == 0 && depth <= width && depth >= listDepth + 11
    ensures var kept := LowBits(data, width - depth) * Pow2(depth);
            kept == 0 || kept > data * Pow2(listDepth) + Pow2(depth)
  {
    hide Pow2, LowBits;
    var d := LowBits(data, width - depth);
    RoomBeyond(listDepth, depth, data);
    EvenLowBits(data, width - depth);
    if d > 0 {
      MoreThanOnce(d, Pow2(depth));
    }
  }

  lemma SlotIsDeeper(listDepth: nat, index: nat)
    requires index >= Pow2(listDepth)
    ensures FloorLog2(Pow2(listDepth) + index) > listDepth
    ensures Pow2(FloorLog2(Pow2(listDepth) + index)) >= 2 * Pow2(listDepth)
  {
    hide Pow2, FloorLog2;
    var depth := FloorLog2(Pow2(listDepth) + index);
    Pow2Double(listDepth);
    if depth <= listDepth {
      Pow2Monotone(depth + 1, listDepth + 1);
    } else {
      Pow2Monotone(listDepth + 1, depth);
    }
  }

  lemma MoreThanDoubled(a: nat, p: nat, q: nat)
    requires a >= 2 && q >= 2 * p
    ensures (a - 1) * q >= a * p
  {
    assert (a - 1) * q >= (a - 1) * (2 * p);
    assert (a - 1) * (2 * p) == (2 * a - 2) * p;
    assert (2 * a - 2) * p >= a * p;
  }

  lemma MoreThanOnce(d: nat, q: nat)
    requires d >= 2
    ensures d * q >= 2 * q
  {
  }

  lemma TimesLess(a: nat, b: nat, p: nat)
    requires a < b && p >= 1
    ensures a * p < b * p
  {
    MultipleAtLeast(b - a, p);
  }

  lemma RoomBeyond(listDepth: nat, depth: nat, data: nat)
    requires depth >= listDepth + 11 && data < 0x800
    ensures data * Pow2(listDepth) < Pow2(depth)
  {
    hide Pow2;
    Pow2Values();
    Pow2Add(11, listDepth);
    Pow2Monotone(listDepth + 11, depth);
    TimesLess(data, 0x800, Pow2(listDepth));
  }

  lemma EvenLowBits(x: nat, k: nat)
    requires x % 2 == 0
    ensures LowBits(x, k) % 2 == 0
  {
    hide LowBits;
    if k > 0 {
      LowBitsStep(x, k);
    } else {
      assert Pow2(0) == 1;
    }
  }

  lemma WordsDifferBeyondLimit(field: nat, listDepth: nat, index: nat, innerDepth: nat, innerField: nat)
    requires field < 64 && index >= Pow2(listDepth) && innerField < Pow2(innerDepth)
    requires listDepth + innerDepth + 21 <= 64
    ensures ShiftedGindex(field, listDepth, index, innerDepth, innerField)
         != LowBits(InList(field, listDepth, index, Pow2(innerDepth) + innerField), 64)
  {
    hide Shl, BitOr, Pow2, Concat, LowBits, Shr, ShiftedElement, ElementOf;
    TruncatedElementDiffers(field, listDepth, index, 64 - innerDepth);
    var e, e' := ShiftedElement(field, listDepth, index), ElementOf(field, listDepth, index);
    var word := LowBits(e', 64 - innerDepth);
    OrOfDisjointIsSum(e, innerDepth, innerField);
    ConcatSlot(e', innerDepth, innerField);
    LowBitsOfShift(e', innerDepth, innerField, 64 - innerDepth);
    SplitUnique(e, innerDepth, innerField);
    SplitUnique(word, innerDepth, innerField);
  }

  /** Prover and contract name the same node exactly when the index is in range,
      whether the prover's position is cut to its 64-bit word or not. */
  lemma AgreeExactlyInRange(t: Target)
    ensures ShiftedPosition(t) == LowBits(PositionOf(t), 64) <==> InRange(t)
    ensures ShiftedPosition(t) == PositionOf(t) <==> InRange(t)
  {
    hide InList, ShiftedGindex, Pow2, LowBits;
    SmallPowers();
    Pow2Values();
    if InRange(t) {
      PositionsAgree(t);
      LowBitsOfSmall(PositionOf(t), 64);
    } else {
      match t
      case ConsolidationSource(i) =>
        FormsDifferBeyondLimit(CONSOLIDATIONS_FIELD, CONSOLIDATIONS_TREE_DEPTH, i, CONSOLIDATION_DEPTH, SOURCE_FIELD);
        WordsDifferBeyondLimit(CONSOLIDATIONS_FIELD, CONSOLIDATIONS_TREE_DEPTH, i, CONSOLIDATION_DEPTH, SOURCE_FIELD);
      case ValidatorCredentials(i) =>
        FormsDifferBeyondLimit(VALIDATORS_FIELD, VALIDATORS_TREE_DEPTH, i, VALIDATOR_DEPTH, CREDENTIALS_FIELD);
        WordsDifferBeyondLimit(VALIDATORS_FIELD, VALIDATORS_TREE_DEPTH, i, VALIDATOR_DEPTH, CREDENTIALS_FIELD);
      case ValidatorActivation(i) =>
        FormsDifferBeyondLimit(VALIDATORS_FIELD, VALIDATORS_TREE_DEPTH, i, VALIDATOR_DEPTH, ACTIVATION_FIELD);
        WordsDifferBeyondLimit(VALIDATORS_FIELD, VALIDATORS_TREE_DEPTH, i, VALIDATOR_DEPTH, ACTIVATION_FIELD);
    }
  }

  /** The contract's element position for any index at all. */
  lemma ShiftedElementSplits(index: nat)
    ensures ShiftedElement(CONSOLIDATIONS_FIELD, CONSOLIDATIONS_TREE_DEPTH, index)
         == Shl(BitOr(1480, Shr(index, CONSOLIDATIONS_TREE_DEPTH)), CONSOLIDATIONS_TREE_DEPTH)
            + LowBits(index, CONSOLIDATIONS_TREE_DEPTH)
  {
    hide Shl, Shr, BitOr, LowBits, Pow2, Concat;
    ListDataGindex(CONSOLIDATIONS_FIELD);
    SplitAt(index, CONSOLIDATIONS_TREE_DEPTH);
    OrSplits(1480, CONSOLIDATIONS_TREE_DEPTH, Shr(index, CONSOLIDATIONS_TREE_DEPTH),
             LowBits(index, CONSOLIDATIONS_TREE_DEPTH));
  }

  lemma ContractPositionSplits(index: nat)
    ensures var g, low := ShiftedPosition(ConsolidationSource(index)), LowBits(index, CONSOLIDATIONS_TREE_DEPTH);
            var k := BitOr(1480, Shr(index, CONSOLIDATIONS_TREE_DEPTH));
            g == Concat(Concat(k, Pow2(CONSOLIDATIONS_TREE_DEPTH) + low), 2)
            == 2 * Concat(k, Pow2(CONSOLIDATIONS_TREE_DEPTH) + low)
  {
    hide Shl, Shr, BitOr, LowBits, FloorLog2, Pow2, Concat, ShiftedElement;
    SmallPowers();
    ShiftedElementSplits(index);
    var low, k := LowBits(index, CONSOLIDATIONS_TREE_DEPTH), BitOr(1480, Shr(index, CONSOLIDATIONS_TREE_DEPTH));
    ConcatSlot(k, CONSOLIDATIONS_TREE_DEPTH, low);
    var element := Shl(k, CONSOLIDATIONS_TREE_DEPTH) + low;
    OrOfDisjointIsSum(element, 1, 0);
    ConcatSlot(element, 1, 0);
    ShlIsTimes(element, 1);
  }

  /** The bits the list's position already has set above the index's own 18. */
  predicate Swallowed(b: nat)
  {
    b == 21 || b == 24 || b == 25 || b == 26 || b == 28
  }

  /** Two consolidation indices, of any size, name the same node exactly when
      they differ in bits 21, 24, 25, 26 and 28 at most. */
  lemma AliasExactly(i: nat, j: nat)
    ensures ShiftedPosition(ConsolidationSource(i)) == ShiftedPosition(ConsolidationSource(j)) <==>
      forall b: nat :: Swallowed(b) || Bit(i, b) == Bit(j, b)
  {
    hide Shl, BitOr, Bit, ShiftedPosition, ShiftedElement;
    var e := ElementOfPosition(i);
    var e' := ElementOfPosition(j);
    if forall b: nat :: Swallowed(b) || Bit(i, b) == Bit(j, b) {
      forall b: nat
        ensures Bit(e, b) == Bit(e', b)
      {
        BitOfElement(i, b);
        BitOfElement(j, b);
      }
      SameBits(e, e');
    }
    if e == e' {
      forall b: nat
        ensures Swallowed(b) || Bit(i, b) == Bit(j, b)
      {
        BitOfElement(i, b);
        BitOfElement(j, b);
      }
    }
  }

  lemma ElementOfPosition(i: nat) returns (e: nat)
    ensures e == ShiftedElement(CONSOLIDATIONS_FIELD, CONSOLIDATIONS_TREE_DEPTH, i)
    ensures ShiftedPosition(ConsolidationSource(i)) == 2 * e
  {
    hide Shl, BitOr, Pow2, ShiftedElement;
    e := ShiftedElement(CONSOLIDATIONS_FIELD, CONSOLIDATIONS_TREE_DEPTH, i);
    SmallPowers();
    OrOfDisjointIsSum(e, 1, 0);
    ShlIsTimes(e, 1);
  }

  /** An element's bit is the index's, or set already. */
  lemma BitOfElement(index: nat, b: nat)
    ensures Bit(ShiftedElement(CONSOLIDATIONS_FIELD, CONSOLIDATIONS_TREE_DEPTH, index), b)
         == if Swallowed(b) then 1 else Bit(index, b)
  {
    hide Shl, BitOr, Shr, Pow2, Concat;
    ListDataGindex(CONSOLIDATIONS_FIELD);
    BitOfOr(Shl(1480, CONSOLIDATIONS_TREE_DEPTH), index, b);
    BitOfShl(1480, CONSOLIDATIONS_TREE_DEPTH, b);
    if b >= 29 {
      Pow2Values();
      BitBeyond(1480, 11, b - 18);
    } else if b >= 18 {
      BitsOfListPosition(b - 18);
    }
  }

  lemma BitsOfListPosition(b: nat)
    requires b < 11
    ensures Bit(1480, b) == if Swallowed(b + 18) then 1 else 0
  {
    hide Shr;
    ShrZero(1480);
    ShrStep(1480, 0);
    ShrStep(1480, 1);
    ShrStep(1480, 2);
    ShrStep(1480, 3);
    ShrStep(1480, 4);
    ShrStep(1480, 5);
    ShrStep(1480, 6);
    ShrStep(1480, 7);
    ShrStep(1480, 8);
    ShrStep(1480, 9);
  }

  /** Out of range the contract's OR is not injective: bit 2 of field 36 is set
      already, so an index with bit 21 set names the node of the index without. */
  lemma OutOfRangeAliases(i: nat)
    requires i < PENDING_CONSOLIDATIONS_LIMIT
    ensures ShiftedPosition(ConsolidationSource(0x20_0000 + i)) == ShiftedPosition(ConsolidationSource(i))
  {
    hide Shl;
    Pow2Values();
    ListDataGindex(CONSOLIDATIONS_FIELD);
    OrSplits(1480, 18, 8, i);
    ShlIsTimes(8, 18);
    assert BitOr(1480, 8) == 1480;
    OrOfDisjointIsSum(1480, 18, i);
  }
}
