/** The historical scan over a fixed chain: walking back over empty slots, and
    sampling a window with an early stop. */
module Scan {
  import opened Bits
  import opened Results
  import opened ScanSlots

  datatype Consolidation = Consolidation(sourceIndex: uint64, targetIndex: uint64)

  /** What the node answers for one slot: the state if it has one, otherwise
      whether a header exists, or a failure of either request. */
  datatype SlotView =
    | HasState(pending: seq<Consolidation>)
    | HeaderOnly
    | Missing
    | Failing

  type Chain = uint64 -> SlotView

  datatype FetchError =
    | PrunedState(slot: uint64)
    | NothingAtOrBefore(requested: uint64, minimum: uint64)
    | NodeFailure(slot: uint64)

  type Fetched = Result<(uint64, seq<Consolidation>), FetchError>

  // ----- walking back

  function FetchAt(chain: Chain, slot: uint64): Fetched
    requires !chain(slot).Missing?
  {
    match chain(slot)
    case HasState(pending) => Ok((slot, pending))
    case HeaderOnly => Err(PrunedState(slot))
    case _ => Err(NodeFailure(slot))
  }

  /** Nothing at all in (slot, requested]. */
  ghost predicate EmptyAbove(chain: Chain, slot: int, requested: uint64)
  {
    forall t: uint64 :: slot < t <= requested ==> chain(t).Missing?
  }

  /** The answer is the highest slot of the range that has anything; if that is
      not a state, or nothing is there, the walk fails with exactly that reason. */
  method FetchAtOrBefore(chain: Chain, requested: uint64, minimum: uint64) returns (r: Fetched)
    ensures r.Ok? ==> var (slot, pending) := r.value;
      && (slot == requested || minimum <= slot < requested)
      && chain(slot) == HasState(pending)
      && EmptyAbove(chain, slot, requested)
    ensures r.Err? && r.error.PrunedState? ==>
      r.error.slot <= requested && chain(r.error.slot).HeaderOnly? && EmptyAbove(chain, r.error.slot, requested)
    ensures r.Err? && r.error.NodeFailure? ==>
      r.error.slot <= requested && chain(r.error.slot).Failing? && EmptyAbove(chain, r.error.slot, requested)
    ensures r.Err? && r.error.NothingAtOrBefore? ==>
      r.error == NothingAtOrBefore(requested, minimum) && chain(requested).Missing?
      && EmptyAbove(chain, minimum - 1, requested)
    ensures r == WalkBack(chain, requested, requested, minimum)
  {
    var slot := requested;
    while true
      invariant slot <= requested && (slot == requested || minimum <= slot)
      invariant EmptyAbove(chain, slot, requested)
      invariant WalkBack(chain, slot, requested, minimum) == WalkBack(chain, requested, requested, minimum)
      decreases slot
    {
      if !chain(slot).Missing? {
        return FetchAt(chain, slot);
      }
      if slot > minimum {
        slot := slot - 1;
      } else {
        return Err(NothingAtOrBefore(requested, minimum));
      }
    }
  }

  function WalkBack(chain: Chain, slot: uint64, requested: uint64, minimum: uint64): Fetched
    decreases slot
  {
    if !chain(slot).Missing? then FetchAt(chain, slot)
    else if slot > minimum then WalkBack(chain, slot - 1, requested, minimum)
    else Err(NothingAtOrBefore(requested, minimum))
  }

  /** The walk stops at the highest slot that has anything. */
  lemma {:induction false} WalkBackStops(chain: Chain, slot: uint64, requested: uint64, minimum: uint64, t: uint64)
    requires minimum <= t <= slot && !chain(t).Missing? && EmptyAbove(chain, t, slot)
    ensures WalkBack(chain, slot, requested, minimum) == FetchAt(chain, t)
    decreases slot
  {
    if t < slot {
      WalkBackStops(chain, slot - 1, requested, minimum, t);
    }
  }

  /** An answer comes from the highest slot that has anything. */
  lemma {:induction false} WalkBackFinds(chain: Chain, slot: uint64, requested: uint64, minimum: uint64)
    requires minimum <= slot && WalkBack(chain, slot, requested, minimum).Ok?
    ensures var found := WalkBack(chain, slot, requested, minimum).value;
            minimum <= found.0 <= slot && chain(found.0) == HasState(found.1) && EmptyAbove(chain, found.0, slot)
    decreases slot
  {
    if chain(slot).Missing? {
      WalkBackFinds(chain, slot - 1, requested, minimum);
    }
  }

  /** A later request never finds an earlier slot, and finds the same one unless
      it lies beyond the earlier request. */
  lemma WalkBackMonotone(chain: Chain, early: uint64, late: uint64, minimum: uint64)
    requires minimum <= early <= late
    requires WalkBack(chain, early, early, minimum).Ok? && WalkBack(chain, late, late, minimum).Ok?
    ensures var a, b := WalkBack(chain, early, early, minimum).value, WalkBack(chain, late, late, minimum).value;
            a.0 <= b.0 && (b.0 <= early ==> a == b)
  {
    WalkBackFinds(chain, early, early, minimum);
    WalkBackFinds(chain, late, late, minimum);
  }

  /** Two requests find one state exactly when nothing lies between them. */
  lemma SameStateFound(chain: Chain, early: uint64, late: uint64, minimum: uint64)
    requires minimum <= early < late
    requires WalkBack(chain, early, early, minimum).Ok? && WalkBack(chain, late, late, minimum).Ok?
    ensures WalkBack(chain, early, early, minimum).value.0 == WalkBack(chain, late, late, minimum).value.0 <==>
      EmptyAbove(chain, early, late)
  {
    WalkBackFinds(chain, early, early, minimum);
    WalkBackFinds(chain, late, late, minimum);
    var a, b := WalkBack(chain, early, early, minimum).value.0, WalkBack(chain, late, late, minimum).value.0;
    if EmptyAbove(chain, early, late) {
      assert b <= early;
    }
  }

  // ----- the scan

  datatype ScanHit = ScanHit(requestedSlot: uint64, slot: uint64, epoch: uint64, pendingConsolidations: nat)

  datatype ScanResult = ScanResult(
    slot: uint64,
    pending: seq<Consolidation>,
    slotsChecked: nat,
    firstNonEmptySlot: Option<uint64>,
    lastNonEmptySlot: Option<uint64>,
    hits: seq<ScanHit>)

  datatype ScanError =
    | WindowReversed
    | BeyondFinality
    | OutsideWindow
    | ZeroStep
    | ZeroHitLimit
    | FetchFailed(error: FetchError)

  function MinSlot(hits: seq<ScanHit>): Option<uint64>
  {
    if hits == [] then None
    else
      var last := hits[|hits| - 1].slot;
      match MinSlot(hits[..|hits| - 1])
      case None => Some(last)
      case Some(m) => Some(if last < m then last else m)
  }

  function MaxSlot(hits: seq<ScanHit>): Option<uint64>
  {
    if hits == [] then None
    else
      var last := hits[|hits| - 1].slot;
      match MaxSlot(hits[..|hits| - 1])
      case None => Some(last)
      case Some(m) => Some(if last > m then last else m)
  }

  function Sample(chain: Chain, requested: uint64, start: uint64): Fetched
  {
    WalkBack(chain, requested, requested, start)
  }

  function HitOf(requested: uint64, found: (uint64, seq<Consolidation>)): ScanHit
  {
    ScanHit(requested, found.0, found.0 / SLOTS_PER_EPOCH, |found.1|)
  }

  /** The hits of a sampled prefix: its non-empty states, in order. */
  function HitsOf(chain: Chain, start: uint64, slots: seq<uint64>): seq<ScanHit>
  {
    if slots == [] then []
    else
      var last := slots[|slots| - 1];
      var earlier := HitsOf(chain, start, slots[..|slots| - 1]);
      match Sample(chain, last, start)
      case Ok((slot, pending)) => if pending == [] then earlier else earlier + [HitOf(last, (slot, pending))]
      case Err(_) => earlier
  }

  /** A hit names its request, the state found, that state's epoch and size. */
  lemma HitReports(chain: Chain, requested: uint64, start: uint64)
    requires start <= requested && Sample(chain, requested, start).Ok?
    ensures var h := HitOf(requested, Sample(chain, requested, start).value);
            && h.requestedSlot == requested
            && chain(h.slot).HasState? && h.pendingConsolidations == |chain(h.slot).pending|
            && start <= h.slot <= requested && EmptyAbove(chain, h.slot, requested)
            && 16 * h.epoch <= h.slot < 16 * (h.epoch + 1)
  {
    hide WalkBack;
    WalkBackFinds(chain, requested, requested, start);
  }

  ghost predicate AllFetched(chain: Chain, start: uint64, slots: seq<uint64>)
  {
    forall i :: 0 <= i < |slots| ==> Sample(chain, slots[i], start).Ok?
  }

  /** The error is that of the first sample that could not be fetched, and fewer
      hits than the limit came before it. */
  ghost predicate FirstFailure(chain: Chain, start: uint64, slots: seq<uint64>, hitLimit: Option<nat>,
                               error: FetchError)
  {
    exists i :: 0 <= i < |slots| && FailsAt(chain, start, slots, hitLimit, error, i)
  }

  ghost predicate FailsAt(chain: Chain, start: uint64, slots: seq<uint64>, hitLimit: Option<nat>, error: FetchError,
                          i: nat)
    requires i < |slots|
  {
    && Sample(chain, slots[i], start) == Err(error)
    && AllFetched(chain, start, slots[..i])
    && BelowLimit(hitLimit, |HitsOf(chain, start, slots[..i])|)
  }

  predicate BelowLimit(hitLimit: Option<nat>, hits: nat)
  {
    hitLimit.Some? ==> hits < hitLimit.value
  }

  /** Checking goes on exactly while a slot is left and the limit of hits is not
      reached: this many samples were due, and no more. */
  ghost predicate StopsAtLimit(chain: Chain, start: uint64, slots: seq<uint64>, hitLimit: Option<nat>, n: nat)
    requires n <= |slots|
  {
    && (n < |slots| ==> !BelowLimit(hitLimit, |HitsOf(chain, start, slots[..n])|))
    && (n > 0 ==> BelowLimit(hitLimit, |HitsOf(chain, start, slots[..n - 1])|))
  }

  /** What the scan found, from the slots it sampled. */
  ghost predicate ScanAnswer(chain: Chain, start: uint64, requested: uint64, checked: seq<uint64>, r: ScanResult)
  {
    && r.slotsChecked == |checked|
    && AllFetched(chain, start, checked)
    && r.hits == HitsOf(chain, start, checked)
    && r.firstNonEmptySlot == MinSlot(r.hits) && r.lastNonEmptySlot == MaxSlot(r.hits)
    && if r.hits == [] then r.slot == requested && r.pending == []
       else r.slot == r.hits[0].slot && chain(r.slot) == HasState(r.pending) && r.pending != []
  }

  method ScanWindow(chain: Chain, start: uint64, end: uint64, step: uint64, direction: Direction,
                    hitLimit: Option<nat>, requested: uint64, finalizedSlot: uint64)
    returns (r: Result<ScanResult, ScanError>, ghost slots: seq<uint64>)
    ensures r.Err? && !r.error.FetchFailed? ==>
      r.error == if start > end then WindowReversed
                 else if end > finalizedSlot then BeyondFinality
                 else if !(start <= requested <= end) then OutsideWindow
                 else if step == 0 then ZeroStep
                 else ZeroHitLimit
    ensures r.Ok? || r.error.FetchFailed? <==>
      start <= requested <= end <= finalizedSlot && step > 0 && hitLimit != Some(0)
    ensures r.Ok? || r.error.FetchFailed? ==>
      && SamplesOf(slots, start, end, step, requested)
      && (if direction.Forward? then Ascending(slots) else Descending(slots))
    ensures r.Ok? ==>
      && r.value.slotsChecked <= |slots|
      && ScanAnswer(chain, start, requested, slots[..r.value.slotsChecked], r.value)
    ensures r.Ok? ==> StopsAtLimit(chain, start, slots, hitLimit, r.value.slotsChecked)
    ensures r.Err? && r.error.FetchFailed? ==>
      FirstFailure(chain, start, slots, hitLimit, r.error.error)
  {
    hide SamplesOf, ScanAnswer, WalkBack;
    slots := [];
    if start > end {
      return Err(WindowReversed), [];
    }
    if end > finalizedSlot {
      return Err(BeyondFinality), [];
    }
    if requested < start || requested > end {
      return Err(OutsideWindow), [];
    }
    if step == 0 {
      return Err(ZeroStep), [];
    }
    var scanSlots := BuildScanSlots(start, end, step, direction, requested);
    slots := scanSlots;
    if hitLimit == Some(0) {
      return Err(ZeroHitLimit), slots;
    }
    var sampled := SampleSlots(chain, start, scanSlots, requested, hitLimit);
    if sampled.Err? {
      return Err(FetchFailed(sampled.error)), slots;
    }
    return Ok(sampled.value), slots;
  }

  /** What is remembered of the first hit while sampling. */
  ghost predicate Remembers(chain: Chain, hits: seq<ScanHit>, firstHit: Option<(uint64, seq<Consolidation>)>)
  {
    if firstHit.None? then hits == []
    else
      && hits != [] && hits[0].slot == firstHit.value.0
      && chain(firstHit.value.0) == HasState(firstHit.value.1) && firstHit.value.1 != []
  }

  method SampleSlots(chain: Chain, start: uint64, scanSlots: seq<uint64>, requested: uint64, hitLimit: Option<nat>)
    returns (r: Result<ScanResult, FetchError>)
    requires hitLimit != Some(0)
    ensures r.Ok? ==>
      && r.value.slotsChecked <= |scanSlots|
      && ScanAnswer(chain, start, requested, scanSlots[..r.value.slotsChecked], r.value)
      && StopsAtLimit(chain, start, scanSlots, hitLimit, r.value.slotsChecked)
    ensures r.Err? ==> FirstFailure(chain, start, scanSlots, hitLimit, r.error)
  {
    hide HitsOf, WalkBack, MinSlot, MaxSlot;
    NoHits(chain, start);
    var slotsChecked := 0;
    var fallback := [];
    var firstHit: Option<(uint64, seq<Consolidation>)> := None;
    var hits := [];
    while slotsChecked < |scanSlots|
      invariant slotsChecked <= |scanSlots|
      invariant AllFetched(chain, start, scanSlots[..slotsChecked])
      invariant hits == HitsOf(chain, start, scanSlots[..slotsChecked])
      invariant Remembers(chain, hits, firstHit)
      invariant hits == [] ==> fallback == []
      invariant BelowLimit(hitLimit, |hits|)
      invariant slotsChecked > 0 ==> BelowLimit(hitLimit, |HitsOf(chain, start, scanSlots[..slotsChecked - 1])|)
    {
      var scanSlot := scanSlots[slotsChecked];
      var found := FetchAtOrBefore(chain, scanSlot, start);
      if found.Err? {
        assert FailsAt(chain, start, scanSlots, hitLimit, found.error, slotsChecked);
        return Err(found.error);
      }
      NextHits(chain, start, scanSlots, slotsChecked);
      var (slot, pending) := found.value;
      slotsChecked := slotsChecked + 1;
      if scanSlot == requested {
        fallback := pending;
      }
      if pending != [] {
        hits := hits + [HitOf(scanSlot, (slot, pending))];
        if firstHit.None? {
          firstHit := Some((slot, pending));
        }
        if hitLimit.Some? && |hits| >= hitLimit.value {
          break;
        }
      }
    }
    if firstHit.Some? {
      var (slot, pending) := firstHit.value;
      return Ok(ScanResult(slot, pending, slotsChecked, MinSlot(hits), MaxSlot(hits), hits));
    }
    return Ok(ScanResult(requested, fallback, slotsChecked, MinSlot(hits), MaxSlot(hits), hits));
  }

  lemma NoHits(chain: Chain, start: uint64)
    ensures HitsOf(chain, start, []) == []
  {
  }

  lemma NextHits(chain: Chain, start: uint64, slots: seq<uint64>, i: nat)
    requires i < |slots|
    ensures var found, before := Sample(chain, slots[i], start), HitsOf(chain, start, slots[..i]);
            HitsOf(chain, start, slots[..i + 1])
            == if found.Ok? && found.value.1 != [] then before + [HitOf(slots[i], found.value)] else before
  {
    assert slots[..i + 1][..i] == slots[..i];
  }

  // ----- the outcome is determined

  lemma {:induction false} HitsGrow(chain: Chain, start: uint64, slots: seq<uint64>, i: nat, j: nat)
    requires i <= j <= |slots|
    ensures |HitsOf(chain, start, slots[..i])| <= |HitsOf(chain, start, slots[..j])|
  {
    if i < j {
      hide HitsOf, WalkBack;
      NextHits(chain, start, slots, j - 1);
      HitsGrow(chain, start, slots, i, j - 1);
    }
  }

  /** Only one number of samples is due, and if one of them cannot be fetched, no
      complete answer is: the samples decide between answer and failure. */
  lemma OutcomeIsDetermined(chain: Chain, start: uint64, slots: seq<uint64>, hitLimit: Option<nat>,
                            error: FetchError, n: nat, n': nat, i: nat)
    requires n <= |slots| && n' <= |slots| && i < |slots| && StopsAtLimit(chain, start, slots, hitLimit, n)
    ensures StopsAtLimit(chain, start, slots, hitLimit, n') ==> n == n'
    ensures FailsAt(chain, start, slots, hitLimit, error, i) ==> !AllFetched(chain, start, slots[..n])
  {
    hide HitsOf, WalkBack;
    if n < n' {
      HitsGrow(chain, start, slots, n, n' - 1);
    } else if n' < n {
      HitsGrow(chain, start, slots, n', n - 1);
    }
    if n <= i {
      HitsGrow(chain, start, slots, n, i);
    } else {
      assert slots[..n][i] == slots[i];
    }
  }

  /** No two samples can both be the failing one. */
  lemma FailureIsDetermined(chain: Chain, start: uint64, slots: seq<uint64>, hitLimit: Option<nat>,
                            error: FetchError, error': FetchError)
    requires FirstFailure(chain, start, slots, hitLimit, error) && FirstFailure(chain, start, slots, hitLimit, error')
    ensures error == error'
  {
    hide HitsOf, WalkBack;
    var i :| 0 <= i < |slots| && FailsAt(chain, start, slots, hitLimit, error, i);
    var j :| 0 <= j < |slots| && FailsAt(chain, start, slots, hitLimit, error', j);
    FetchedBefore(chain, start, slots, hitLimit, error, i);
    FetchedBefore(chain, start, slots, hitLimit, error', j);
  }

  lemma FetchedBefore(chain: Chain, start: uint64, slots: seq<uint64>, hitLimit: Option<nat>, error: FetchError,
                      i: nat)
    requires i < |slots| && FailsAt(chain, start, slots, hitLimit, error, i)
    ensures forall j :: 0 <= j < i ==> Sample(chain, slots[j], start).Ok?
  {
    hide WalkBack;
    forall j | 0 <= j < i
      ensures Sample(chain, slots[j], start).Ok?
    {
      assert slots[..i][j] == slots[j];
    }
  }

  // ----- order of the hits

  ghost predicate InDirection(hits: seq<ScanHit>, direction: Direction)
  {
    forall i, j :: 0 <= i < j < |hits| ==>
      if direction.Forward? then hits[i].slot <= hits[j].slot else hits[i].slot >= hits[j].slot
  }

  /** Every hit is a non-empty sample of the prefix. */
  lemma {:induction false} HitsAreSamples(chain: Chain, start: uint64, slots: seq<uint64>)
    requires AllFetched(chain, start, slots)
    ensures forall h :: h in HitsOf(chain, start, slots) ==>
      && h.requestedSlot in slots
      && Sample(chain, h.requestedSlot, start).Ok?
      && h == HitOf(h.requestedSlot, Sample(chain, h.requestedSlot, start).value)
      && Sample(chain, h.requestedSlot, start).value.1 != []
    ensures forall s :: s in slots && Sample(chain, s, start).value.1 != [] ==>
      HitOf(s, Sample(chain, s, start).value) in HitsOf(chain, start, slots)
  {
    if slots != [] {
      hide WalkBack;
      HitsAreSamples(chain, start, slots[..|slots| - 1]);
    }
  }

  /** Hits come in scan order: later samples never step back against it. */
  lemma {:induction false} HitsInScanOrder(chain: Chain, start: uint64, slots: seq<uint64>, direction: Direction)
    requires if direction.Forward? then Ascending(slots) else Descending(slots)
    requires AllFetched(chain, start, slots) && forall i :: 0 <= i < |slots| ==> start <= slots[i]
    ensures InDirection(HitsOf(chain, start, slots), direction)
  {
    if slots != [] {
      var n := |slots| - 1;
      var earlier := slots[..n];
      HitsInScanOrder(chain, start, earlier, direction);
      HitsAreSamples(chain, start, earlier);
      forall h | h in HitsOf(chain, start, earlier)
        ensures var found := Sample(chain, slots[n], start).value.0;
                if direction.Forward? then h.slot <= found else h.slot >= found
      {
        var i :| 0 <= i < n && slots[i] == h.requestedSlot;
        if direction.Forward? {
          WalkBackMonotone(chain, slots[i], slots[n], start);
        } else {
          WalkBackMonotone(chain, slots[n], slots[i], start);
        }
      }
    }
  }

  ghost predicate StrictlyInDirection(hits: seq<ScanHit>, direction: Direction)
  {
    forall i, j :: 0 <= i < j < |hits| ==>
      if direction.Forward? then hits[i].slot < hits[j].slot else hits[i].slot > hits[j].slot
  }

  /** Above every sample that hit, something lies at or below each higher one. */
  ghost predicate HitsApart(chain: Chain, start: uint64, slots: seq<uint64>)
  {
    forall s, s' :: s in slots && s' in slots && s < s' && Hits(chain, start, s) ==> !EmptyAbove(chain, s, s')
  }

  predicate Hits(chain: Chain, start: uint64, slot: uint64)
  {
    Sample(chain, slot, start).Ok? && Sample(chain, slot, start).value.1 != []
  }

  /** The states hit, by their slots. */
  function StatesOf(hits: seq<ScanHit>): set<uint64>
  {
    set h | h in hits :: h.slot
  }

  /** The hits are strictly ordered, and as many as the states they name, exactly
      when no two samples fall back to one non-empty state. */
  lemma HitsAreDistinctStates(chain: Chain, start: uint64, slots: seq<uint64>, direction: Direction)
    requires if direction.Forward? then Ascending(slots) else Descending(slots)
    requires AllFetched(chain, start, slots) && forall i :: 0 <= i < |slots| ==> start <= slots[i]
    ensures StrictlyInDirection(HitsOf(chain, start, slots), direction) <==> HitsApart(chain, start, slots)
    ensures |StatesOf(HitsOf(chain, start, slots))| == |HitsOf(chain, start, slots)| <==>
      HitsApart(chain, start, slots)
  {
    hide WalkBack, HitsOf, StatesOf, Sample, HitsApart;
    var hits := HitsOf(chain, start, slots);
    HitsInScanOrder(chain, start, slots, direction);
    CountOfStates(hits);
    if HitsApart(chain, start, slots) {
      ApartHitsDiffer(chain, start, slots, direction);
    } else {
      CloseHitsCoincide(chain, start, slots);
    }
  }

  lemma ApartHitsDiffer(chain: Chain, start: uint64, slots: seq<uint64>, direction: Direction)
    requires if direction.Forward? then Ascending(slots) else Descending(slots)
    requires AllFetched(chain, start, slots) && forall i :: 0 <= i < |slots| ==> start <= slots[i]
    requires HitsApart(chain, start, slots)
    ensures AllDiffer(HitsOf(chain, start, slots))
  {
    hide WalkBack, HitsOf, EmptyAbove;
    var hits := HitsOf(chain, start, slots);
    HitsAreSamples(chain, start, slots);
    RequestsInOrder(chain, start, slots, direction);
    forall i, j | 0 <= i < j < |hits|
      ensures hits[i].slot != hits[j].slot
    {
      assert hits[i] in hits && hits[j] in hits;
      var s, s' := hits[i].requestedSlot, hits[j].requestedSlot;
      assert s != s';
      assert s in slots && s' in slots;
      SameStateFound(chain, if s < s' then s else s', if s < s' then s' else s, start);
    }
  }

  lemma CloseHitsCoincide(chain: Chain, start: uint64, slots: seq<uint64>)
    requires AllFetched(chain, start, slots) && forall i :: 0 <= i < |slots| ==> start <= slots[i]
    requires !HitsApart(chain, start, slots)
    ensures !AllDiffer(HitsOf(chain, start, slots))
  {
    hide WalkBack, HitsOf, EmptyAbove;
    var hits := HitsOf(chain, start, slots);
    HitsAreSamples(chain, start, slots);
    var s, s' :| s in slots && s' in slots && s < s' && Hits(chain, start, s) && EmptyAbove(chain, s, s');
    SameStateFound(chain, s, s', start);
    WalkBackFinds(chain, s, s, start);
    WalkBackFinds(chain, s', s', start);
    var i :| 0 <= i < |hits| && hits[i] == HitOf(s, Sample(chain, s, start).value);
    var j :| 0 <= j < |hits| && hits[j] == HitOf(s', Sample(chain, s', start).value);
    assert i != j && hits[i].slot == hits[j].slot;
  }

  /** Requested slots of hits are strictly ordered, as the samples are. */
  lemma {:induction false} RequestsInOrder(chain: Chain, start: uint64, slots: seq<uint64>, direction: Direction)
    requires if direction.Forward? then Ascending(slots) else Descending(slots)
    requires AllFetched(chain, start, slots)
    ensures RequestsDiffer(HitsOf(chain, start, slots))
  {
    if slots != [] {
      hide WalkBack;
      var n := |slots| - 1;
      assert slots[..n + 1] == slots;
      NextHits(chain, start, slots, n);
      RequestsInOrder(chain, start, slots[..n], direction);
      HitsAreSamples(chain, start, slots[..n]);
      var earlier := HitsOf(chain, start, slots[..n]);
      forall k | 0 <= k < |earlier|
        ensures earlier[k].requestedSlot != slots[n]
      {
        assert earlier[k] in earlier;
        var i :| 0 <= i < n && slots[i] == earlier[k].requestedSlot;
      }
    }
  }

  ghost predicate RequestsDiffer(hits: seq<ScanHit>)
  {
    forall i, j :: 0 <= i < j < |hits| ==> hits[i].requestedSlot != hits[j].requestedSlot
  }

  ghost predicate AllDiffer(hits: seq<ScanHit>)
  {
    forall i, j :: 0 <= i < j < |hits| ==> hits[i].slot != hits[j].slot
  }

  lemma {:induction false} CountOfStates(hits: seq<ScanHit>)
    ensures |StatesOf(hits)| <= |hits|
    ensures |StatesOf(hits)| == |hits| <==> AllDiffer(hits)
  {
    if hits != [] {
      var init, last := hits[..|hits| - 1], hits[|hits| - 1];
      CountOfStates(init);
      assert StatesOf(hits) == StatesOf(init) + {last.slot};
      if last.slot in StatesOf(init) {
        var h :| h in init && h.slot == last.slot;
        var i :| 0 <= i < |init| && init[i] == h;
        assert hits[i].slot == hits[|hits| - 1].slot;
      } else {
        forall i | 0 <= i < |init|
          ensures hits[i].slot != last.slot
        {
          assert init[i] in init;
        }
      }
    }
  }

  /** One non-empty state with an empty slot after it reaches a limit of two,
      whatever the next slot holds. */
  lemma OneStateReachesLimitOfTwo(chain: Chain, slot: uint64)
    requires slot + 2 < U64_LIMIT && chain(slot).HasState? && chain(slot).pending != [] && chain(slot + 1).Missing?
    ensures var slots := [slot, slot + 1, slot + 2];
            && StopsAtLimit(chain, slot, slots, Some(2), 2)
            && |HitsOf(chain, slot, slots[..2])| == 2
            && StatesOf(HitsOf(chain, slot, slots[..2])) == {slot}
  {
    var slots := [slot, slot + 1, slot + 2];
    var pending := chain(slot).pending;
    assert Sample(chain, slot, slot) == Ok((slot, pending));
    assert Sample(chain, slot + 1, slot) == WalkBack(chain, slot, slot + 1, slot) == Ok((slot, pending));
    NoHits(chain, slot);
    NextHits(chain, slot, slots, 0);
    NextHits(chain, slot, slots, 1);
    assert slots[..0] == [];
    assert HitsOf(chain, slot, slots[..1]) == [HitOf(slot, (slot, pending))];
    assert HitsOf(chain, slot, slots[..2]) == [HitOf(slot, (slot, pending)), HitOf(slot + 1, (slot, pending))];
  }

  /** In scan order, the first and the last hit are the two extremes. */
  lemma {:induction false} ExtremesOfOrdered(hits: seq<ScanHit>, direction: Direction)
    requires hits != [] && InDirection(hits, direction)
    ensures var first, last := hits[0].slot, hits[|hits| - 1].slot;
            if direction.Forward? then MinSlot(hits) == Some(first) && MaxSlot(hits) == Some(last)
            else MaxSlot(hits) == Some(first) && MinSlot(hits) == Some(last)
  {
    if |hits| > 1 {
      ExtremesOfOrdered(hits[..|hits| - 1], direction);
    } else {
      assert hits[..0] == [];
    }
  }

  /** A scan that hit something resolves to its first hit: the earliest non-empty
      slot it saw going forward, the latest in reverse; every sample before that
      hit was empty. A scan without a hit sampled only empty states. */
  lemma ScanResolvesFirstHit(chain: Chain, start: uint64, requested: uint64, checked: seq<uint64>,
                             direction: Direction, r: ScanResult)
    requires ScanAnswer(chain, start, requested, checked, r)
    requires if direction.Forward? then Ascending(checked) else Descending(checked)
    requires forall i :: 0 <= i < |checked| ==> start <= checked[i]
    ensures r.hits != [] ==>
      Some(r.slot) == if direction.Forward? then r.firstNonEmptySlot else r.lastNonEmptySlot
    ensures r.hits == [] ==>
      && r.slot == requested && r.pending == []
      && forall s :: s in checked ==> Sample(chain, s, start).value.1 == []
    ensures r.hits != [] ==> chain(r.slot) == HasState(r.pending)
    ensures forall s :: s in checked && Sample(chain, s, start).value.1 != [] ==>
      r.hits != [] && if direction.Forward? then r.hits[0].requestedSlot <= s else r.hits[0].requestedSlot >= s
  {
    hide WalkBack;
    HitsInScanOrder(chain, start, checked, direction);
    HitsAreSamples(chain, start, checked);
    if r.hits != [] {
      ExtremesOfOrdered(r.hits, direction);
      FirstHitIsFirstSample(chain, start, checked, direction);
    }
  }

  lemma {:induction false} FirstHitIsFirstSample(chain: Chain, start: uint64, slots: seq<uint64>, direction: Direction)
    requires if direction.Forward? then Ascending(slots) else Descending(slots)
    requires AllFetched(chain, start, slots) && HitsOf(chain, start, slots) != []
    ensures var first := HitsOf(chain, start, slots)[0].requestedSlot;
            forall s :: s in slots && Sample(chain, s, start).value.1 != [] ==>
              if direction.Forward? then first <= s else first >= s
  {
    hide WalkBack;
    var n := |slots| - 1;
    var earlier := slots[..n];
    HitsAreSamples(chain, start, earlier);
    if HitsOf(chain, start, earlier) != [] {
      FirstHitIsFirstSample(chain, start, earlier, direction);
      assert HitsOf(chain, start, earlier)[0] in HitsOf(chain, start, earlier);
    }
  }
}
