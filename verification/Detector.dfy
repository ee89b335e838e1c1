/** The service's detector: polls the chain, processes each finalized epoch at
    most once and records the first sight of every pending source. */
module Detector {
  import opened Bits
  import opened Results
  import opened ScanSlots
  import opened Scan

  datatype ClaimStatus = Detected | ProofBuilt | Submitted | Confirmed | Failed

  datatype Record = Record(
    sourceIndex: uint64,
    targetIndex: uint64,
    epochSeen: uint64,
    status: ClaimStatus,
    txHash: Option<string>,
    error: Option<string>)

  /** The node's answers during one poll; each may fail. */
  datatype Answers = Answers(
    headSlot: Result<uint64, string>,
    finalizedEpoch: Result<uint64, string>,
    consolidations: Result<seq<Consolidation>, string>)

  /** One processed epoch with the list fetched for it. */
  datatype Sighting = Sighting(epoch: uint64, consolidations: seq<Consolidation>)

  // ----- what a history of polls amounts to

  /** The list a poll processes, given the last processed epoch. */
  function Processed(last: uint64, a: Answers): Option<Sighting>
  {
    if a.headSlot.Ok? && a.finalizedEpoch.Ok? && a.finalizedEpoch.value > last && a.consolidations.Ok? then
      Some(Sighting(a.finalizedEpoch.value, a.consolidations.value))
    else None
  }

  /** The error a poll reports. */
  function PollError(last: uint64, a: Answers): Option<string>
  {
    if a.headSlot.Err? then Some(a.headSlot.error)
    else if a.finalizedEpoch.Err? then Some(a.finalizedEpoch.error)
    else if a.finalizedEpoch.value > last && a.consolidations.Err? then Some(a.consolidations.error)
    else None
  }

  /** The lists processed by a run from a fresh start, in order. */
  function Sightings(script: seq<Answers>): seq<Sighting>
  {
    if script == [] then []
    else
      var before := Sightings(script[..|script| - 1]);
      match Processed(LastEpoch(before), script[|script| - 1])
      case Some(sighting) => before + [sighting]
      case None => before
  }

  lemma SightingsStep(script: seq<Answers>, n: nat)
    requires n < |script|
    ensures Sightings(script[..n + 1])
         == match Processed(LastEpoch(Sightings(script[..n])), script[n])
            case Some(sighting) => Sightings(script[..n]) + [sighting]
            case None => Sightings(script[..n])
  {
    assert script[..n + 1][..n] == script[..n];
  }

  function LastEpoch(sightings: seq<Sighting>): uint64
  {
    if sightings == [] then 0 else sightings[|sightings| - 1].epoch
  }

  ghost predicate SeenAt(sightings: seq<Sighting>, i: nat, j: nat, source: uint64)
  {
    i < |sightings| && j < |sightings[i].consolidations| && sightings[i].consolidations[j].sourceIndex == source
  }

  ghost predicate FirstSeenAt(sightings: seq<Sighting>, i: nat, j: nat, source: uint64)
  {
    && SeenAt(sightings, i, j, source)
    && forall i': nat, j': nat :: SeenAt(sightings, i', j', source) ==> i < i' || (i == i' && j <= j')
  }

  function FreshRecord(c: Consolidation, epoch: uint64): Record
  {
    Record(c.sourceIndex, c.targetIndex, epoch, Detected, None, None)
  }

  /** The record is the one made at the source's first sighting. */
  ghost predicate MadeAtFirstSight(r: Record, sightings: seq<Sighting>, source: uint64)
  {
    exists i: nat, j: nat :: FirstSeenAt(sightings, i, j, source) && MadeAt(r, sightings, i, j)
  }

  ghost predicate MadeAt(r: Record, sightings: seq<Sighting>, i: nat, j: nat)
  {
    && i < |sightings| && j < |sightings[i].consolidations|
    && r.sourceIndex == sightings[i].consolidations[j].sourceIndex
    && r.targetIndex == sightings[i].consolidations[j].targetIndex
    && r.epochSeen == sightings[i].epoch
    && r.status == Detected && r.txHash.None? && r.error.None?
  }

  ghost predicate Seen(sightings: seq<Sighting>, source: uint64)
  {
    exists i: nat, j: nat :: SeenAt(sightings, i, j, source)
  }

  /** The records: exactly the sources ever listed, each as first sighted. */
  ghost predicate RecordsOf(records: map<uint64, Record>, sightings: seq<Sighting>)
  {
    && (forall source :: source in records <==> Seen(sightings, source))
    && (forall source :: source in records ==> MadeAtFirstSight(records[source], sightings, source))
  }

  ghost predicate EpochsIncrease(sightings: seq<Sighting>)
  {
    && (forall i :: 0 <= i < |sightings| ==> sightings[i].epoch > 0)
    && forall i, j :: 0 <= i < j < |sightings| ==> sightings[i].epoch < sightings[j].epoch
  }

  lemma LaterEpoch(sightings: seq<Sighting>, a: Answers)
    requires EpochsIncrease(sightings)
    ensures var s := Processed(LastEpoch(sightings), a);
            s.Some? ==> EpochsIncrease(sightings + [s.value]) && LastEpoch(sightings + [s.value]) == s.value.epoch
  {
  }

  lemma {:induction false} SightingsIncrease(script: seq<Answers>)
    ensures EpochsIncrease(Sightings(script))
  {
    if script != [] {
      SightingsIncrease(script[..|script| - 1]);
    }
  }

  predicate Answered(a: Answers)
  {
    a.headSlot.Ok? && a.finalizedEpoch.Ok? && a.consolidations.Ok?
  }

  /** Poll k's epoch is above 0 and above that of every earlier fully answered
      poll. */
  predicate EpochIsNew(script: seq<Answers>, k: nat)
    requires k < |script| && script[k].finalizedEpoch.Ok?
  {
    && script[k].finalizedEpoch.value > 0
    && forall i :: 0 <= i < k && Answered(script[i]) ==> script[i].finalizedEpoch.value < script[k].finalizedEpoch.value
  }

  predicate NewestSoFar(script: seq<Answers>, k: nat)
    requires k < |script|
  {
    Answered(script[k]) && EpochIsNew(script, k)
  }

  lemma {:induction false} LastEpochIsHighest(script: seq<Answers>)
    ensures var last := LastEpoch(Sightings(script));
            && (forall i :: 0 <= i < |script| && Answered(script[i]) ==> script[i].finalizedEpoch.value <= last)
            && (last == 0
                || exists i :: 0 <= i < |script| && Answered(script[i]) && script[i].finalizedEpoch.value == last)
  {
    if script != [] {
      var n := |script| - 1;
      var earlier := script[..n];
      LastEpochIsHighest(earlier);
      var last := LastEpoch(Sightings(script));
      if Processed(LastEpoch(Sightings(earlier)), script[n]).Some? {
        assert script[n].finalizedEpoch.value == last;
      } else if last != 0 {
        var i :| 0 <= i < n && Answered(earlier[i]) && earlier[i].finalizedEpoch.value == last;
        assert script[i].finalizedEpoch.value == last;
      }
      forall i | 0 <= i < |script| && Answered(script[i])
        ensures script[i].finalizedEpoch.value <= last
      {
        if i < n {
          assert earlier[i] == script[i];
        }
      }
    }
  }

  lemma NewerThanLast(script: seq<Answers>, k: nat)
    requires k < |script| && script[k].finalizedEpoch.Ok?
    ensures script[k].finalizedEpoch.value > LastEpoch(Sightings(script[..k])) <==> EpochIsNew(script, k)
  {
    LastEpochIsHighest(script[..k]);
    var last := LastEpoch(Sightings(script[..k]));
    if EpochIsNew(script, k) {
      if last != 0 {
        var i :| 0 <= i < k && Answered(script[..k][i]) && script[..k][i].finalizedEpoch.value == last;
        assert script[..k][i] == script[i];
      }
    } else if script[k].finalizedEpoch.value > 0 {
      var i :| 0 <= i < k && Answered(script[i]) && script[k].finalizedEpoch.value <= script[i].finalizedEpoch.value;
      assert script[..k][i] == script[i];
    }
  }

  /** Over every run, exactly the newest fully answered polls above epoch 0 have
      their list processed. */
  lemma ProcessedExactly(script: seq<Answers>, k: nat)
    requires k < |script|
    ensures Sightings(script[..k + 1]) == Sightings(script[..k])
      + if NewestSoFar(script, k) then [Sighting(script[k].finalizedEpoch.value, script[k].consolidations.value)]
        else []
  {
    assert script[..k + 1][..k] == script[..k];
    if script[k].finalizedEpoch.Ok? {
      NewerThanLast(script, k);
    }
  }

  /** A source listed while epoch 0 is the finalized one is not recorded, though
      every request was answered and no epoch was processed before. */
  lemma EpochZeroIsMissed(headSlot: uint64, c: Consolidation)
    ensures var script := [Answers(Ok(headSlot), Ok(0), Ok([c]))];
            Answered(script[0]) && Sightings(script) == [] && !Seen(Sightings(script), c.sourceIndex)
  {
    var script := [Answers(Ok(headSlot), Ok(0), Ok([c]))];
    ProcessedExactly(script, 0);
    assert script[..1] == script && script[..0] == [];
  }

  /** What a poll reports: the first request that failed, the list's only when it
      was asked for. */
  lemma PollErrorExact(script: seq<Answers>, k: nat)
    requires k < |script|
    ensures var a, e := script[k], PollError(LastEpoch(Sightings(script[..k])), script[k]);
            if a.headSlot.Err? then e == Some(a.headSlot.error)
            else if a.finalizedEpoch.Err? then e == Some(a.finalizedEpoch.error)
            else if a.consolidations.Err? && EpochIsNew(script, k) then e == Some(a.consolidations.error)
            else e == None
  {
    if script[k].finalizedEpoch.Ok? {
      NewerThanLast(script, k);
    }
  }

  // ----- processing one list

  /** The sightings with the first n entries of a new list. */
  function Partly(sightings: seq<Sighting>, s: Sighting, n: nat): seq<Sighting>
    requires n <= |s.consolidations|
  {
    sightings + [Sighting(s.epoch, s.consolidations[..n])]
  }

  lemma StartOfList(records: map<uint64, Record>, sightings: seq<Sighting>, s: Sighting)
    requires RecordsOf(records, sightings)
    ensures RecordsOf(records, Partly(sightings, s, 0))
  {
    var now := Partly(sightings, s, 0);
    NothingMoreSeen(sightings, s);
    forall source | source in records
      ensures MadeAtFirstSight(records[source], now, source)
    {
      var i: nat, j: nat :| FirstSeenAt(sightings, i, j, source) && MadeAt(records[source], sightings, i, j);
      assert FirstSeenAt(now, i, j, source) && MadeAt(records[source], now, i, j);
    }
  }

  lemma NextEntry(records: map<uint64, Record>, sightings: seq<Sighting>, s: Sighting, n: nat)
    requires n < |s.consolidations| && RecordsOf(records, Partly(sightings, s, n))
    ensures RecordsOf(AfterEntry(records, s.consolidations[n], s.epoch), Partly(sightings, s, n + 1))
  {
    var c, at := s.consolidations[n], |sightings|;
    var before, now := Partly(sightings, s, n), Partly(sightings, s, n + 1);
    var records' := AfterEntry(records, c, s.epoch);
    OneMoreSeen(sightings, s, n);
    assert SeenAt(now, at, n, c.sourceIndex);
    forall source | source in records'
      ensures Seen(now, source) && MadeAtFirstSight(records'[source], now, source)
    {
      if source in records {
        var i: nat, j: nat :| FirstSeenAt(before, i, j, source) && MadeAt(records[source], before, i, j);
        forall i': nat, j': nat | SeenAt(now, i', j', source)
          ensures i < i' || (i == i' && j <= j')
        {
          assert SeenAt(before, i', j', source) || (i' == at && j' == n);
        }
        assert FirstSeenAt(now, i, j, source) && MadeAt(records[source], now, i, j);
      } else {
        forall i': nat, j': nat | SeenAt(now, i', j', source)
          ensures i' == at && j' == n
        {
          assert !Seen(before, source);
          assert !SeenAt(before, i', j', source);
        }
        assert FirstSeenAt(now, at, n, source) && MadeAt(records'[source], now, at, n);
      }
    }
    forall source | Seen(now, source)
      ensures source in records'
    {
      var i: nat, j: nat :| SeenAt(now, i, j, source);
      assert source == c.sourceIndex || SeenAt(before, i, j, source);
    }
  }

  function AfterEntry(records: map<uint64, Record>, c: Consolidation, epoch: uint64): map<uint64, Record>
  {
    if c.sourceIndex in records then records else records[c.sourceIndex := FreshRecord(c, epoch)]
  }

  lemma NothingMoreSeen(sightings: seq<Sighting>, s: Sighting)
    ensures forall i: nat, j: nat, source ::
      SeenAt(Partly(sightings, s, 0), i, j, source) <==> SeenAt(sightings, i, j, source)
    ensures forall source :: Seen(Partly(sightings, s, 0), source) <==> Seen(sightings, source)
  {
    var now := Partly(sightings, s, 0);
    forall i: nat, j: nat, source
      ensures SeenAt(now, i, j, source) <==> SeenAt(sightings, i, j, source)
    {
    }
    forall source
      ensures Seen(now, source) <==> Seen(sightings, source)
    {
      if Seen(sightings, source) {
        var i: nat, j: nat :| SeenAt(sightings, i, j, source);
        assert SeenAt(now, i, j, source);
      }
      if Seen(now, source) {
        var i: nat, j: nat :| SeenAt(now, i, j, source);
        assert SeenAt(sightings, i, j, source);
      }
    }
  }

  lemma OneMoreSeen(sightings: seq<Sighting>, s: Sighting, n: nat)
    requires n < |s.consolidations|
    ensures forall i: nat, j: nat, source :: SeenAt(Partly(sightings, s, n + 1), i, j, source) <==>
      SeenAt(Partly(sightings, s, n), i, j, source)
      || (i == |sightings| && j == n && source == s.consolidations[n].sourceIndex)
  {
    var before, now := Partly(sightings, s, n), Partly(sightings, s, n + 1);
    forall i: nat, j: nat, source: uint64
      ensures SeenAt(now, i, j, source) <==>
        SeenAt(before, i, j, source)
        || (i == |sightings| && j == n && source == s.consolidations[n].sourceIndex)
    {
      if i < |sightings| {
        assert now[i] == before[i];
      } else if i == |sightings| {
        assert now[i].consolidations == before[i].consolidations + [s.consolidations[n]];
      }
    }
  }

  lemma EndOfList(sightings: seq<Sighting>, s: Sighting)
    ensures Partly(sightings, s, |s.consolidations|) == sightings + [s]
  {
    assert s.consolidations[..|s.consolidations|] == s.consolidations;
  }

  // ----- the shared state and the scanner

  datatype Counts = Counts(detected: nat, proofBuilt: nat, submitted: nat, confirmed: nat, failed: nat)

  function WithStatus(records: map<uint64, Record>, keys: set<uint64>, status: ClaimStatus): set<uint64>
  {
    set k | k in keys && k in records && records[k].status == status
  }

  class AppState {
    var currentSlot: uint64
    var currentEpoch: uint64
    var headSlot: uint64
    var consolidations: map<uint64, Record>
    var lastError: Option<string>

    constructor ()
      ensures consolidations == map[] && lastError.None?
      ensures currentSlot == currentEpoch == headSlot == 0
    {
      currentSlot, currentEpoch, headSlot := 0, 0, 0;
      consolidations := map[];
      lastError := None;
    }

    method UpsertConsolidation(record: Record)
      modifies this`consolidations
      ensures consolidations == old(consolidations)[record.sourceIndex := record]
    {
      consolidations := consolidations[record.sourceIndex := record];
    }

    function GetConsolidation(source: uint64): (r: Option<Record>)
      reads this
      ensures r.Some? <==> source in consolidations
      ensures r.Some? ==> r.value == consolidations[source]
    {
      if source in consolidations then Some(consolidations[source]) else None
    }

    /** Every record is counted once, under its own status. */
    method StatusCounts() returns (counts: Counts)
      ensures counts.detected == |WithStatus(consolidations, consolidations.Keys, Detected)|
      ensures counts.proofBuilt == |WithStatus(consolidations, consolidations.Keys, ProofBuilt)|
      ensures counts.submitted == |WithStatus(consolidations, consolidations.Keys, Submitted)|
      ensures counts.confirmed == |WithStatus(consolidations, consolidations.Keys, Confirmed)|
      ensures counts.failed == |WithStatus(consolidations, consolidations.Keys, Failed)|
      ensures counts.detected + counts.proofBuilt + counts.submitted + counts.confirmed + counts.failed
           == |consolidations|
    {
      counts := Counts(0, 0, 0, 0, 0);
      var entries := consolidations.Keys;
      ghost var counted: set<uint64> := {};
      while entries != {}
        invariant counted + entries == consolidations.Keys && counted !! entries
        invariant counts.detected == |WithStatus(consolidations, counted, Detected)|
        invariant counts.proofBuilt == |WithStatus(consolidations, counted, ProofBuilt)|
        invariant counts.submitted == |WithStatus(consolidations, counted, Submitted)|
        invariant counts.confirmed == |WithStatus(consolidations, counted, Confirmed)|
        invariant counts.failed == |WithStatus(consolidations, counted, Failed)|
        invariant counts.detected + counts.proofBuilt + counts.submitted + counts.confirmed + counts.failed
               == |counted|
        decreases |entries|
      {
        var key :| key in entries;
        hide WithStatus;
        CountOne(consolidations, counted, key);
        match consolidations[key].status {
          case Detected => counts := counts.(detected := counts.detected + 1);
          case ProofBuilt => counts := counts.(proofBuilt := counts.proofBuilt + 1);
          case Submitted => counts := counts.(submitted := counts.submitted + 1);
          case Confirmed => counts := counts.(confirmed := counts.confirmed + 1);
          case Failed => counts := counts.(failed := counts.failed + 1);
        }
        counted := counted + {key};
        entries := entries - {key};
      }
      assert counted == consolidations.Keys;
    }
  }

  lemma CountOne(records: map<uint64, Record>, counted: set<uint64>, key: uint64)
    requires key in records && key !in counted
    ensures forall status ::
      |WithStatus(records, counted + {key}, status)|
      == |WithStatus(records, counted, status)| + Enabled(records[key].status == status)
  {
    forall status
      ensures |WithStatus(records, counted + {key}, status)|
           == |WithStatus(records, counted, status)| + Enabled(records[key].status == status)
    {
      if records[key].status == status {
        assert WithStatus(records, counted + {key}, status) == WithStatus(records, counted, status) + {key};
      } else {
        assert WithStatus(records, counted + {key}, status) == WithStatus(records, counted, status);
      }
    }
  }

  class Scanner {
    const slotsPerEpoch: uint64
    const state: AppState
    var lastFinalizedEpoch: uint64
    /** Everything processed so far. */
    ghost var sightings: seq<Sighting>

    ghost predicate Valid()
      reads this, state
    {
      && lastFinalizedEpoch == LastEpoch(sightings)
      && EpochsIncrease(sightings)
      && RecordsOf(state.consolidations, sightings)
    }

    constructor (state: AppState, slotsPerEpoch: uint64)
      requires state.consolidations == map[]
      ensures this.state == state && Valid() && sightings == []
    {
      this.state := state;
      this.slotsPerEpoch := slotsPerEpoch;
      lastFinalizedEpoch := 0;
      sightings := [];
    }

    method ProcessConsolidations(s: Sighting)
      requires RecordsOf(state.consolidations, sightings)
      modifies state`consolidations
      ensures RecordsOf(state.consolidations, sightings + [s])
    {
      StartOfList(state.consolidations, sightings, s);
      for n := 0 to |s.consolidations|
        invariant RecordsOf(state.consolidations, Partly(sightings, s, n))
      {
        hide RecordsOf, Partly;
        NextEntry(state.consolidations, sightings, s, n);
        var c := s.consolidations[n];
        if state.GetConsolidation(c.sourceIndex).Some? {
          continue;
        }
        state.UpsertConsolidation(FreshRecord(c, s.epoch));
      }
      EndOfList(sightings, s);
    }

    /** One poll: at most one list is processed, only for a newer epoch, and a
        failed request leaves the processed epoch and the records alone. */
    method PollOnce(a: Answers) returns (error: Option<string>)
      requires Valid()
      modifies this, state
      ensures Valid()
      ensures sightings == match Processed(old(lastFinalizedEpoch), a)
                           case Some(sighting) => old(sightings) + [sighting]
                           case None => old(sightings)
      ensures sightings == old(sightings) ==>
        lastFinalizedEpoch == old(lastFinalizedEpoch) && state.consolidations == old(state.consolidations)
      ensures error == PollError(old(lastFinalizedEpoch), a)
      ensures state.headSlot == if a.headSlot.Ok? then a.headSlot.value else old(state.headSlot)
      ensures if a.headSlot.Ok? && a.finalizedEpoch.Ok? then
                state.currentEpoch == a.finalizedEpoch.value
                && state.currentSlot == a.finalizedEpoch.value * slotsPerEpoch % 0x1_0000_0000_0000_0000
              else
                state.currentEpoch == old(state.currentEpoch) && state.currentSlot == old(state.currentSlot)
      ensures state.lastError == old(state.lastError)
    {
      hide RecordsOf, EpochsIncrease;
      LaterEpoch(sightings, a);
      if a.headSlot.Err? {
        return Some(a.headSlot.error);
      }
      state.headSlot := a.headSlot.value;
      if a.finalizedEpoch.Err? {
        return Some(a.finalizedEpoch.error);
      }
      var finalizedEpoch := a.finalizedEpoch.value;
      var finalizedSlot: uint64 := LowBitsOf64(finalizedEpoch * slotsPerEpoch);
      state.currentSlot := finalizedSlot;
      state.currentEpoch := finalizedEpoch;
      if finalizedEpoch <= lastFinalizedEpoch {
        return None;
      }
      if a.consolidations.Err? {
        return Some(a.consolidations.error);
      }
      var list := a.consolidations.value;
      if list == [] {
        NothingListed(state.consolidations, sightings, Sighting(finalizedEpoch, list));
      } else {
        ProcessConsolidations(Sighting(finalizedEpoch, list));
      }
      sightings := sightings + [Sighting(finalizedEpoch, list)];
      lastFinalizedEpoch := finalizedEpoch;
      return None;
    }

    /** The scanner loop over a run of answers: the records are exactly those of
        the lists the run processed, and the last poll decides the error shown. */
    method Run(script: seq<Answers>)
      requires Valid() && sightings == []
      modifies this, state
      ensures Valid() && sightings == Sightings(script)
      ensures lastFinalizedEpoch == LastEpoch(Sightings(script))
      ensures RecordsOf(state.consolidations, Sightings(script))
      ensures state.lastError == if script == [] then old(state.lastError)
        else PollError(LastEpoch(Sightings(script[..|script| - 1])), script[|script| - 1])
    {
      for n := 0 to |script|
        invariant Valid() && sightings == Sightings(script[..n])
        invariant state.lastError == if n == 0 then old(state.lastError)
          else PollError(LastEpoch(Sightings(script[..n - 1])), script[n - 1])
      {
        hide RecordsOf, EpochsIncrease, Sightings, PollError, Processed;
        SightingsStep(script, n);
        var error := PollOnce(script[n]);
        state.lastError := error;
      }
      assert script[..|script|] == script;
    }
  }

  function LowBitsOf64(x: nat): uint64
  {
    x % 0x1_0000_0000_0000_0000
  }

  lemma NothingListed(records: map<uint64, Record>, sightings: seq<Sighting>, s: Sighting)
    requires RecordsOf(records, sightings) && s.consolidations == []
    ensures RecordsOf(records, sightings + [s])
  {
    StartOfList(records, sightings, s);
    EndOfList(sightings, s);
  }

  /** A record's first-seen epoch is that of a processed list, so it is never
      later than the last processed epoch. */
  lemma EpochSeenIsProcessed(records: map<uint64, Record>, sightings: seq<Sighting>, source: uint64)
    requires RecordsOf(records, sightings) && EpochsIncrease(sightings) && source in records
    ensures records[source].sourceIndex == source && 0 < records[source].epochSeen <= LastEpoch(sightings)
  {
    var i: nat, j: nat :| FirstSeenAt(sightings, i, j, source) && MadeAt(records[source], sightings, i, j);
    assert SeenAt(sightings, i, j, source);
  }

  ghost predicate Keeps(before: map<uint64, Record>, after: map<uint64, Record>)
  {
    forall source :: source in before ==> source in after && after[source] == before[source]
  }

  /** Whatever is polled later, a record keeps its first target and epoch. */
  lemma RecordsNeverChange(before: map<uint64, Record>, after: map<uint64, Record>,
                           sightings: seq<Sighting>, more: seq<Sighting>)
    requires RecordsOf(before, sightings) && RecordsOf(after, sightings + more)
    ensures Keeps(before, after)
  {
    var all := sightings + more;
    forall source | source in before
      ensures source in after && after[source] == before[source]
    {
      var i: nat, j: nat :| FirstSeenAt(sightings, i, j, source) && MadeAt(before[source], sightings, i, j);
      assert SeenAt(all, i, j, source);
      var i': nat, j': nat :| FirstSeenAt(all, i', j', source) && MadeAt(after[source], all, i', j');
      assert SeenAt(sightings, i', j', source);
    }
  }
}
