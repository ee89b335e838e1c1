/** The historical scan's window and the slots it samples. */
module ScanSlots {
  import opened Bits
  import opened Results

  const SLOTS_PER_EPOCH := 16
  const U64_LIMIT := 0x1_0000_0000_0000_0000

  datatype Direction = Forward | Reverse

  // ----- the window

  datatype WindowArgs = WindowArgs(
    startSlot: Option<uint64>,
    endSlot: Option<uint64>,
    startEpoch: Option<uint64>,
    endEpoch: Option<uint64>,
    lastEpochs: Option<uint64>)

  datatype WindowError =
    | ExclusiveFlags
    | MissingStart
    | MissingEnd
    | EpochsReversed
    | StartOverflow
    | EndOverflow
    | ZeroEpochs
    | LookbackOverflow

  function CheckedMul(a: uint64, b: uint64): Option<uint64>
  {
    if a * b < U64_LIMIT then Some(a * b) else None
  }

  function SaturatingSub(a: uint64, b: uint64): uint64
  {
    if a >= b then a - b else 0
  }

  function Enabled(flag: bool): nat
  {
    if flag then 1 else 0
  }

  function ResolveScanWindow(args: WindowArgs, finalizedSlot: uint64): Result<Option<(uint64, uint64)>, WindowError>
  {
    var usingSlots := args.startSlot.Some? || args.endSlot.Some?;
    var usingEpochs := args.startEpoch.Some? || args.endEpoch.Some?;
    var usingRecent := args.lastEpochs.Some?;
    if Enabled(usingSlots) + Enabled(usingEpochs) + Enabled(usingRecent) > 1 then Err(ExclusiveFlags)
    else if usingSlots then
      if args.startSlot.None? then Err(MissingStart)
      else if args.endSlot.None? then Err(MissingEnd)
      else Ok(Some((args.startSlot.value, args.endSlot.value)))
    else if usingEpochs then
      if args.startEpoch.None? then Err(MissingStart)
      else if args.endEpoch.None? then Err(MissingEnd)
      else EpochWindow(args.startEpoch.value, args.endEpoch.value)
    else if usingRecent then RecentWindow(args.lastEpochs.value, finalizedSlot)
    else Ok(None)
  }

  function EpochWindow(startEpoch: uint64, endEpoch: uint64): Result<Option<(uint64, uint64)>, WindowError>
  {
    if startEpoch > endEpoch then Err(EpochsReversed)
    else
      var start := CheckedMul(startEpoch, SLOTS_PER_EPOCH);
      if start.None? then Err(StartOverflow)
      else if endEpoch + 1 >= U64_LIMIT then Err(EndOverflow)
      else
        var next := CheckedMul(endEpoch + 1, SLOTS_PER_EPOCH);
        if next.None? || next.value == 0 then Err(EndOverflow)
        else Ok(Some((start.value, next.value - 1)))
  }

  function RecentWindow(lastEpochs: uint64, finalizedSlot: uint64): Result<Option<(uint64, uint64)>, WindowError>
  {
    if lastEpochs == 0 then Err(ZeroEpochs)
    else
      var lookback := CheckedMul(lastEpochs - 1, SLOTS_PER_EPOCH);
      if lookback.None? then Err(LookbackOverflow)
      else Ok(Some((SaturatingSub(finalizedSlot, lookback.value), finalizedSlot)))
  }

  predicate OnlyEpochFlags(args: WindowArgs)
  {
    && (args.startEpoch.Some? || args.endEpoch.Some?)
    && args.startSlot.None? && args.endSlot.None? && args.lastEpochs.None?
  }

  predicate OnlySlotFlags(args: WindowArgs)
  {
    && (args.startSlot.Some? || args.endSlot.Some?)
    && args.startEpoch.None? && args.endEpoch.None? && args.lastEpochs.None?
  }

  /** Slot flags resolve exactly when both are given, to those very slots. */
  lemma SlotFlagsExact(args: WindowArgs, finalizedSlot: uint64)
    requires OnlySlotFlags(args)
    ensures ResolveScanWindow(args, finalizedSlot)
         == if args.startSlot.None? then Err(MissingStart)
            else if args.endSlot.None? then Err(MissingEnd)
            else Ok(Some((args.startSlot.value, args.endSlot.value)))
  {
  }

  /** Epoch flags resolve exactly when both are given, ordered, and the range
      fits a u64; the window then holds exactly the slots of those epochs.
      Otherwise the error names the first reason they do not. */
  lemma EpochFlagsExact(args: WindowArgs, finalizedSlot: uint64, slot: uint64)
    requires OnlyEpochFlags(args)
    ensures var r := ResolveScanWindow(args, finalizedSlot);
            if args.startEpoch.None? then r == Err(MissingStart)
            else if args.endEpoch.None? then r == Err(MissingEnd)
            else if args.startEpoch.value > args.endEpoch.value then r == Err(EpochsReversed)
            else if 16 * args.startEpoch.value >= 0x1_0000_0000_0000_0000 then r == Err(StartOverflow)
            else if 16 * (args.endEpoch.value + 1) >= 0x1_0000_0000_0000_0000 then r == Err(EndOverflow)
            else
              && r.Ok? && r.value.Some?
              && var (start, end) := r.value.value;
                 start <= slot <= end <==> args.startEpoch.value <= slot / 16 <= args.endEpoch.value
  {
  }

  /** The recent-epochs flag resolves exactly when it is positive and its look-back
      fits a u64, and then ends at the finalized slot. */
  lemma RecentFlagExact(lastEpochs: uint64, finalizedSlot: uint64)
    ensures var r, lookback := ResolveScanWindow(RecentFlag(lastEpochs), finalizedSlot), 16 * (lastEpochs - 1);
            if lastEpochs == 0 then r == Err(ZeroEpochs)
            else if lookback >= 0x1_0000_0000_0000_0000 then r == Err(LookbackOverflow)
            else r == Ok(Some((if finalizedSlot < lookback then 0 else finalizedSlot - lookback, finalizedSlot)))
  {
  }

  /** No flag means no window; flags of two families never resolve. */
  lemma FlagFamiliesExclude(args: WindowArgs, finalizedSlot: uint64)
    ensures ResolveScanWindow(args, finalizedSlot) == Ok(None) <==>
      && args.startSlot.None? && args.endSlot.None?
      && args.startEpoch.None? && args.endEpoch.None? && args.lastEpochs.None?
    ensures ResolveScanWindow(args, finalizedSlot) == Err(ExclusiveFlags) <==>
      || ((args.startSlot.Some? || args.endSlot.Some?) && (args.startEpoch.Some? || args.endEpoch.Some?))
      || ((args.startSlot.Some? || args.endSlot.Some?) && args.lastEpochs.Some?)
      || ((args.startEpoch.Some? || args.endEpoch.Some?) && args.lastEpochs.Some?)
  {
  }

  // ----- the sampled slots

  /** start, start + step, start + 2 * step, ... */
  function Stride(start: nat, step: nat, k: nat): nat
  {
    if k == 0 then start else Stride(start, step, k - 1) + step
  }

  predicate Ascending(s: seq<uint64>)
  {
    forall i, j :: 0 <= i < j < |s| ==> s[i] < s[j]
  }

  predicate Descending(s: seq<uint64>)
  {
    forall i, j :: 0 <= i < j < |s| ==> s[i] > s[j]
  }

  function Insert(x: uint64, s: seq<uint64>): seq<uint64>
  {
    if s == [] || x <= s[0] then [x] + s else [s[0]] + Insert(x, s[1..])
  }

  function Sort(s: seq<uint64>): seq<uint64>
  {
    if s == [] then [] else Insert(s[0], Sort(s[1..]))
  }

  /** Drops an element equal to its predecessor. */
  function Dedup(s: seq<uint64>): seq<uint64>
  {
    if |s| <= 1 then s
    else if s[0] == s[1] then Dedup(s[1..])
    else [s[0]] + Dedup(s[1..])
  }

  function Reversed(s: seq<uint64>): (r: seq<uint64>)
    ensures |r| == |s| && forall i :: 0 <= i < |s| ==> r[i] == s[|s| - 1 - i]
  {
    if s == [] then [] else Reversed(s[1..]) + [s[0]]
  }

  predicate Sorted(s: seq<uint64>)
  {
    forall i, j :: 0 <= i < j < |s| ==> s[i] <= s[j]
  }

  lemma {:induction false} InsertSorts(x: uint64, s: seq<uint64>)
    requires Sorted(s)
    ensures Sorted(Insert(x, s))
    ensures forall y :: y in Insert(x, s) <==> y == x || y in s
  {
    if s != [] && x > s[0] {
      InsertSorts(x, s[1..]);
      var rest := Insert(x, s[1..]);
      forall i | 0 <= i < |rest|
        ensures s[0] <= rest[i]
      {
        assert rest[i] in rest;
      }
    } else {
      assert forall y :: y in Insert(x, s) <==> y == x || y in s;
    }
  }

  lemma {:induction false} SortSorts(s: seq<uint64>)
    ensures Sorted(Sort(s)) && forall y :: y in Sort(s) <==> y in s
  {
    if s != [] {
      SortSorts(s[1..]);
      InsertSorts(s[0], Sort(s[1..]));
    }
  }

  lemma {:induction false} DedupAscends(s: seq<uint64>)
    requires Sorted(s)
    ensures Ascending(Dedup(s)) && forall y :: y in Dedup(s) <==> y in s
    ensures s != [] ==> Dedup(s) != [] && Dedup(s)[0] == s[0]
  {
    if |s| > 1 {
      DedupAscends(s[1..]);
    }
  }

  ghost predicate HasNext(s: seq<uint64>, x: nat, step: nat)
  {
    exists y :: y in s && x < y <= x + step
  }

  /** From every slot of the window but the last, a sample lies within a step. */
  ghost predicate Dense(s: seq<uint64>, start: nat, end: nat, step: nat)
  {
    forall x :: start <= x < end ==> HasNext(s, x, step)
  }

  lemma {:induction false} StrideGrows(start: nat, step: nat, j: nat, k: nat)
    requires j <= k
    ensures Stride(start, step, j) <= Stride(start, step, k)
  {
    if j < k {
      StrideGrows(start, step, j, k - 1);
    }
  }

  /** The samples: the strides, the window's end and the requested slot. */
  ghost predicate SamplesOf(s: seq<uint64>, start: nat, end: nat, step: nat, requested: nat)
  {
    && start in s && end in s && requested in s
    && (forall y :: y in s ==> start <= y <= end)
    && Dense(s, start, end, step)
    && (forall k: nat {:trigger Stride(start, step, k)} ::
          Stride(start, step, k) <= end ==> Stride(start, step, k) in s)
    && (forall y :: y in s ==> y == end || y == requested || IsStride(start, step, y))
  }

  ghost predicate IsStride(start: nat, step: nat, y: nat)
  {
    exists k: nat :: y == Stride(start, step, k)
  }

  /** Which slots are sampled, exactly. */
  lemma SampledExactly(s: seq<uint64>, start: nat, end: nat, step: nat, requested: nat, y: uint64)
    requires SamplesOf(s, start, end, step, requested)
    ensures y in s <==>
      || y == end || y == requested
      || (y <= end && exists k: nat :: y == start + k * step)
  {
    if y in s && y != end && y != requested {
      var k: nat :| y == Stride(start, step, k);
      StrideIsMultiple(start, step, k);
    }
    if y <= end && exists k: nat :: y == start + k * step {
      var k: nat :| y == start + k * step;
      StrideIsMultiple(start, step, k);
      assert Stride(start, step, k) <= end;
    }
  }

  lemma StrideStep(start: nat, step: nat, k: nat)
    ensures Stride(start, step, 0) == start
    ensures Stride(start, step, k + 1) == Stride(start, step, k) + step
  {
  }

  method StridedSlots(start: uint64, end: uint64, step: uint64) returns (slots: seq<uint64>)
    requires start <= end
    ensures slots != [] && slots[0] == start
    ensures forall k :: 0 <= k < |slots| ==> slots[k] == Stride(start, step, k) <= end
    ensures step > 0 ==> Stride(start, step, |slots|) > end
  {
    hide Stride;
    StrideStep(start, step, 0);
    slots := [];
    var slot := start;
    while slot <= end
      invariant slot == Stride(start, step, |slots|)
      invariant forall k :: 0 <= k < |slots| ==> slots[k] == Stride(start, step, k) <= end
      invariant slots == [] ==> slot == start
      decreases end - slot
    {
      StrideStep(start, step, |slots|);
      slots := slots + [slot];
      if slot + step < U64_LIMIT && slot + step > slot {
        slot := slot + step;
      } else {
        break;
      }
    }
  }

  /** The sampled slots: strictly ordered in the scan direction, inside the
      window, with the three named slots, every stride and no gap above a step. */
  method BuildScanSlots(start: uint64, end: uint64, step: uint64, direction: Direction, requested: uint64)
    returns (slots: seq<uint64>)
    requires start <= requested <= end && step > 0
    ensures if direction.Forward? then Ascending(slots) else Descending(slots)
    ensures SamplesOf(slots, start, end, step, requested)
    ensures forall i :: 0 <= i < |slots| - 1 ==>
      (if direction.Forward? then slots[i + 1] - slots[i] else slots[i] - slots[i + 1]) <= step
  {
    hide Stride, Sort, Dedup, Reversed, SamplesOf;
    slots := StridedSlots(start, end, step);
    ghost var strided := slots;
    if slots[|slots| - 1] != end {
      slots := slots + [end];
    }
    if requested !in slots {
      slots := slots + [requested];
    }
    ghost var raw := slots;
    AddedSample(strided, raw, start, end, step, requested);
    slots := Sort(slots);
    slots := Dedup(slots);
    OrderedSamples(raw, start, end, step, requested);
    if direction.Reverse? {
      ReversedSamples(slots, start, end, step, requested);
      slots := Reversed(slots);
    }
  }

  lemma OrderedSamples(raw: seq<uint64>, start: nat, end: nat, step: nat, requested: nat)
    requires SamplesOf(raw, start, end, step, requested)
    ensures var slots := Dedup(Sort(raw));
            && Ascending(slots)
            && SamplesOf(slots, start, end, step, requested)
            && forall i :: 0 <= i < |slots| - 1 ==> slots[i + 1] - slots[i] <= step
  {
    hide Sort, Dedup, Stride;
    SortSorts(raw);
    DedupAscends(Sort(raw));
    SameSamples(raw, Dedup(Sort(raw)), start, end, step, requested);
    AscendingGaps(Dedup(Sort(raw)), start, end, step);
  }

  lemma ReversedSamples(slots: seq<uint64>, start: nat, end: nat, step: nat, requested: nat)
    requires Ascending(slots) && SamplesOf(slots, start, end, step, requested)
    requires forall i :: 0 <= i < |slots| - 1 ==> slots[i + 1] - slots[i] <= step
    ensures Descending(Reversed(slots)) && SamplesOf(Reversed(slots), start, end, step, requested)
    ensures forall i :: 0 <= i < |slots| - 1 ==> Reversed(slots)[i] - Reversed(slots)[i + 1] <= step
  {
    hide Reversed, Stride, SamplesOf;
    var backward := Reversed(slots);
    forall y
      ensures y in backward <==> y in slots
    {
      if y in slots {
        var i :| 0 <= i < |slots| && slots[i] == y;
        assert backward[|slots| - 1 - i] == y;
      }
    }
    SameSamples(slots, backward, start, end, step, requested);
    forall i | 0 <= i < |slots| - 1
      ensures backward[i] - backward[i + 1] <= step
    {
      var j := |slots| - 2 - i;
      assert slots[j + 1] - slots[j] <= step;
    }
  }

  lemma AddedSample(strided: seq<uint64>, slots: seq<uint64>, start: nat, end: nat, step: nat, requested: nat)
    requires step > 0 && start <= requested <= end && strided != [] && strided <= slots
    requires end in slots && requested in slots
    requires forall k :: 0 <= k < |strided| ==> strided[k] == Stride(start, step, k) <= end
    requires Stride(start, step, |strided|) > end
    requires forall y :: y in slots ==> y in strided || y == end || y == requested
    ensures SamplesOf(slots, start, end, step, requested)
  {
    hide Stride;
    StridesAreDense(strided, slots, start, end, step);
    StridesInside(strided, start, end, step);
    assert slots[0] == strided[0];
  }

  lemma StridesInside(strided: seq<uint64>, start: nat, end: nat, step: nat)
    requires forall k :: 0 <= k < |strided| ==> strided[k] == Stride(start, step, k) <= end
    ensures forall y :: y in strided ==> start <= y <= end && IsStride(start, step, y)
    ensures strided != [] ==> strided[0] == start
  {
    forall y | y in strided
      ensures start <= y <= end && IsStride(start, step, y)
    {
      var k: nat :| 0 <= k < |strided| && strided[k] == y;
      StrideGrows(start, step, 0, k);
    }
  }

  lemma StridesAreDense(strided: seq<uint64>, slots: seq<uint64>, start: nat, end: nat, step: nat)
    requires step > 0 && start <= end && strided != [] && strided <= slots && end in slots
    requires forall k :: 0 <= k < |strided| ==> strided[k] == Stride(start, step, k) <= end
    requires Stride(start, step, |strided|) > end
    ensures Dense(slots, start, end, step)
    ensures forall k: nat {:trigger Stride(start, step, k)} ::
      Stride(start, step, k) <= end ==> Stride(start, step, k) in slots
  {
    forall k: nat | Stride(start, step, k) <= end
      ensures Stride(start, step, k) in slots
    {
      if k >= |strided| {
        StrideGrows(start, step, |strided|, k);
      }
      assert slots[k] == Stride(start, step, k);
    }
    forall x | start <= x < end
      ensures HasNext(slots, x, step)
    {
      var k := LastStrideUpTo(start, step, x, |strided|);
      if k + 1 < |strided| {
        assert slots[k + 1] == Stride(start, step, k + 1);
      } else {
        assert x < end <= x + step;
      }
    }
  }

  lemma {:induction false} LastStrideUpTo(start: nat, step: nat, x: nat, n: nat) returns (k: nat)
    requires start <= x && n >= 1 && x < Stride(start, step, n)
    ensures k < n && Stride(start, step, k) <= x < Stride(start, step, k + 1)
  {
    if Stride(start, step, n - 1) <= x {
      k := n - 1;
    } else {
      k := LastStrideUpTo(start, step, x, n - 1);
    }
  }

  lemma SameSamples(s: seq<uint64>, s': seq<uint64>, start: nat, end: nat, step: nat, requested: nat)
    requires SamplesOf(s, start, end, step, requested) && forall y :: y in s' <==> y in s
    ensures SamplesOf(s', start, end, step, requested)
  {
    forall x | start <= x < end
      ensures HasNext(s', x, step)
    {
      assert HasNext(s, x, step);
      var y :| y in s && x < y <= x + step;
      assert y in s';
    }
  }

  lemma AscendingGaps(s: seq<uint64>, start: nat, end: nat, step: nat)
    requires Ascending(s) && Dense(s, start, end, step)
    requires forall y :: y in s ==> start <= y <= end
    ensures forall i :: 0 <= i < |s| - 1 ==> s[i + 1] - s[i] <= step
  {
    forall i | 0 <= i < |s| - 1
      ensures s[i + 1] - s[i] <= step
    {
      assert s[i] < s[i + 1] && s[i] in s && s[i + 1] in s;
      assert HasNext(s, s[i], step);
      var y :| y in s && s[i] < y <= s[i] + step;
      var j :| 0 <= j < |s| && s[j] == y;
      assert j > i;
    }
  }

  function RecentFlag(lastEpochs: uint64): WindowArgs
  {
    WindowArgs(None, None, None, None, Some(lastEpochs))
  }

  /** From an epoch-aligned finalized slot, the default-step scan of the last n
      epochs samples every epoch start in them: min(n, epoch + 1) of them. */
  lemma RecentWindowVisitsEveryEpoch(lastEpochs: uint64, finalizedEpoch: uint64, requested: nat, slots: seq<uint64>,
                                     epoch: nat)
    requires finalizedEpoch * SLOTS_PER_EPOCH < U64_LIMIT
    requires ResolveScanWindow(RecentFlag(lastEpochs), finalizedEpoch * SLOTS_PER_EPOCH).Ok?
    requires var (start, end) :=
               ResolveScanWindow(RecentFlag(lastEpochs), finalizedEpoch * SLOTS_PER_EPOCH).value.value;
             SamplesOf(slots, start, end, SLOTS_PER_EPOCH, requested)
    requires finalizedEpoch - lastEpochs < epoch <= finalizedEpoch
    ensures epoch * SLOTS_PER_EPOCH in slots
  {
    var (start, end) := ResolveScanWindow(RecentFlag(lastEpochs), finalizedEpoch * SLOTS_PER_EPOCH).value.value;
    var first := start / SLOTS_PER_EPOCH;
    assert start == first * SLOTS_PER_EPOCH && first <= epoch;
    StrideBySixteen(start, epoch - first);
  }

  /** The window of the last n epochs holds all their slots exactly when it ends
      with an epoch and is cut off at slot 0. */
  lemma RecentWindowHoldsWholeEpochs(lastEpochs: uint64, finalizedSlot: uint64)
    requires ResolveScanWindow(RecentFlag(lastEpochs), finalizedSlot).Ok?
    ensures var (start, end) := ResolveScanWindow(RecentFlag(lastEpochs), finalizedSlot).value.value;
            var newest := finalizedSlot / SLOTS_PER_EPOCH;
            (forall slot: nat :: newest - lastEpochs < slot / SLOTS_PER_EPOCH <= newest ==> start <= slot <= end)
            <==> finalizedSlot % SLOTS_PER_EPOCH == SLOTS_PER_EPOCH - 1 && newest < lastEpochs - 1
  {
    var (start, end) := ResolveScanWindow(RecentFlag(lastEpochs), finalizedSlot).value.value;
    var newest := finalizedSlot / SLOTS_PER_EPOCH;
    var oldest := if newest < lastEpochs then 0 else newest - lastEpochs + 1;
    var (first, last) := (oldest * SLOTS_PER_EPOCH, newest * SLOTS_PER_EPOCH + SLOTS_PER_EPOCH - 1);
    assert first / SLOTS_PER_EPOCH == oldest && last / SLOTS_PER_EPOCH == newest;
    if first >= start && last <= end {
      forall slot: nat | newest - lastEpochs < slot / SLOTS_PER_EPOCH <= newest
        ensures start <= slot <= end
      {
      }
    }
  }

  lemma StrideBySixteen(start: nat, k: nat)
    ensures Stride(start, SLOTS_PER_EPOCH, k) == start + 16 * k
  {
    StrideIsMultiple(start, SLOTS_PER_EPOCH, k);
  }

  lemma {:induction false} StrideIsMultiple(start: nat, step: nat, k: nat)
    ensures Stride(start, step, k) == start + k * step
  {
    if k > 0 {
      StrideIsMultiple(start, step, k - 1);
    }
  }
}
