/** The finalized-state watch: one snapshot per poll, a fetch only when the
    finalized slot moved, and one terminal snapshot at the end. A run is driven
    by the node's answers to its polls, in order. */
module Watch {
  import opened Bits
  import opened Bytes
  import opened Results
  import opened ScanSlots
  import opened Scan

  /** Epochs whose first slot fits a u64. */
  type Epoch = x: int | 0 <= x < 0x1000_0000_0000_0000

  datatype FinalityCheckpoints = FinalityCheckpoints(
    previousJustifiedEpoch: uint64,
    currentJustifiedEpoch: uint64,
    finalizedEpoch: Epoch,
    finalizedRoot: Bytes32)

  datatype WatchArgs = WatchArgs(watchPollSeconds: uint64, watchMaxPolls: Option<nat>)

  /** The node's answers during one poll; the pending list is asked for only if
      the finalized slot moved. The first poll uses the initial checkpoints. */
  datatype Answers = Answers(
    finality: Result<FinalityCheckpoints, string>,
    pending: Result<seq<Consolidation>, string>)

  datatype Status = Polling | FoundNonEmptyState | MaxPollsReached | Error

  datatype WatchSummary = WatchSummary(
    polls: nat,
    stateChecks: nat,
    skipped: nat,
    pollIntervalSeconds: uint64,
    maxPolls: Option<nat>,
    resolvedSlot: nat,
    resolvedEpoch: Epoch,
    finalizedRoot: Bytes32,
    foundNonEmptyState: bool,
    pendingConsolidations: nat,
    status: Status,
    terminal: bool,
    error: Option<WatchError>)

  /** Which request a poll failed on, with the node's own text. */
  datatype WatchError =
    | FinalityRefreshFailed(cause: string)
    | PendingFetchFailed(slot: nat, cause: string)

  datatype ArgsError = ZeroPollSeconds | ZeroMaxPolls

  datatype Outcome =
    | Rejected(reason: ArgsError)
    | Ended(slot: nat, pending: seq<Consolidation>, summary: WatchSummary, finality: FinalityCheckpoints)
    | Failed(error: WatchError)
      /** The answers ran out before the watch ended. */
    | StillWatching

  function BuildWatchSummary(args: WatchArgs, polls: nat, stateChecks: nat, skipped: nat,
                             finality: FinalityCheckpoints, pending: nat, status: Status): WatchSummary
  {
    WatchSummary(polls, stateChecks, skipped, args.watchPollSeconds, args.watchMaxPolls,
                 finality.finalizedEpoch * SLOTS_PER_EPOCH, finality.finalizedEpoch, finality.finalizedRoot,
                 pending > 0, pending, status, status != Polling, None)
  }

  function WithWatchError(s: WatchSummary, error: WatchError): WatchSummary
  {
    s.(status := Error, terminal := true, error := Some(error))
  }

  predicate AtLimit(args: WatchArgs, polls: nat)
  {
    args.watchMaxPolls.Some? && polls >= args.watchMaxPolls.value
  }

  // ----- what a run should look like, poll by poll

  /** The checkpoints known at poll k. */
  function FinalityAt(initial: FinalityCheckpoints, script: seq<Answers>, k: nat): FinalityCheckpoints
    requires k < |script|
  {
    if k == 0 then initial
    else match script[k].finality
      case Ok(finality) => finality
      case Err(_) => FinalityAt(initial, script, k - 1)
  }

  function EpochAt(initial: FinalityCheckpoints, script: seq<Answers>, k: nat): Epoch
    requires k < |script|
  {
    FinalityAt(initial, script, k).finalizedEpoch
  }

  predicate FinalityFails(script: seq<Answers>, k: nat)
    requires k < |script|
  {
    k > 0 && script[k].finality.Err?
  }

  /** Poll k asks for the pending list: the first poll, or the epoch moved. */
  predicate Fetches(initial: FinalityCheckpoints, script: seq<Answers>, k: nat)
    requires k < |script|
  {
    !FinalityFails(script, k) && (k == 0 || EpochAt(initial, script, k) != EpochAt(initial, script, k - 1))
  }

  /** The slots asked for in the first n polls. */
  function FetchedSlots(initial: FinalityCheckpoints, script: seq<Answers>, n: nat): seq<nat>
    requires n <= |script|
  {
    if n == 0 then []
    else if Fetches(initial, script, n - 1) then
      FetchedSlots(initial, script, n - 1) + [EpochAt(initial, script, n - 1) * SLOTS_PER_EPOCH]
    else FetchedSlots(initial, script, n - 1)
  }

  /** Poll k does not end the run. */
  predicate Continues(initial: FinalityCheckpoints, script: seq<Answers>, args: WatchArgs, k: nat)
    requires k < |script|
  {
    && !FinalityFails(script, k)
    && (Fetches(initial, script, k) ==> script[k].pending == Ok([]))
    && !AtLimit(args, k + 1)
  }

  /** The snapshot poll k should leave, from the answers alone. */
  function Expected(initial: FinalityCheckpoints, script: seq<Answers>, args: WatchArgs, k: nat): WatchSummary
    requires k < |script|
  {
    ExpectedFrom(|FetchedSlots(initial, script, k)|, Missed(initial, script, k), FinalityAt(initial, script, k),
                 script[k], args, k, FinalityFails(script, k), Fetches(initial, script, k))
  }

  function ExpectedFrom(checked: nat, missed: nat, finality: FinalityCheckpoints, a: Answers, args: WatchArgs,
                        k: nat, finalityFails: bool, fetches: bool): WatchSummary
    requires finalityFails ==> a.finality.Err?
  {
    var quiet := if AtLimit(args, k + 1) then MaxPollsReached else Polling;
    if finalityFails then
      WithWatchError(BuildWatchSummary(args, k, checked, missed, finality, 0, Polling),
                     FinalityRefreshFailed(a.finality.error))
    else if !fetches then BuildWatchSummary(args, k + 1, checked, missed + 1, finality, 0, quiet)
    else match a.pending
      case Err(cause) =>
        WithWatchError(BuildWatchSummary(args, k + 1, checked, missed, finality, 0, Polling),
                       PendingFetchFailed(finality.finalizedEpoch * SLOTS_PER_EPOCH, cause))
      case Ok(pending) =>
        BuildWatchSummary(args, k + 1, checked + 1, missed, finality, |pending|,
                          if pending != [] then FoundNonEmptyState else quiet)
  }

  /** Polls among the first n that asked for nothing. */
  function Missed(initial: FinalityCheckpoints, script: seq<Answers>, n: nat): nat
    requires n <= |script|
  {
    if n == 0 then 0
    else Missed(initial, script, n - 1) + (if Fetches(initial, script, n - 1) then 0 else 1)
  }

  ghost predicate LogOf(initial: FinalityCheckpoints, script: seq<Answers>, args: WatchArgs, log: seq<WatchSummary>)
  {
    && |log| <= |script|
    && (forall k :: 0 <= k < |log| ==> log[k] == Expected(initial, script, args, k))
    && (forall k :: 0 <= k < |log| - 1 ==> Continues(initial, script, args, k))
  }

  // ----- the watch

  method WatchFinalizedState(initial: FinalityCheckpoints, script: seq<Answers>, args: WatchArgs)
    returns (log: seq<WatchSummary>, fetches: seq<nat>, outcome: Outcome)
    ensures
      if args.watchPollSeconds == 0 then outcome == Rejected(ZeroPollSeconds) && log == []
      else if args.watchMaxPolls == Some(0) then outcome == Rejected(ZeroMaxPolls) && log == []
      else !outcome.Rejected?
    ensures LogOf(initial, script, args, log)
    ensures fetches == FetchedSlots(initial, script, |log|)
    ensures outcome.StillWatching? <==>
      && !outcome.Rejected?
      && |log| == |script| && forall k :: 0 <= k < |script| ==> Continues(initial, script, args, k)
    ensures outcome.Ended? || outcome.Failed? ==> log != [] && !Continues(initial, script, args, |log| - 1)
    ensures outcome.Ended? ==>
      && outcome.summary == log[|log| - 1]
      && outcome.finality == FinalityAt(initial, script, |log| - 1)
      && outcome.slot == outcome.finality.finalizedEpoch * SLOTS_PER_EPOCH
      && (if Fetches(initial, script, |log| - 1) then script[|log| - 1].pending == Ok(outcome.pending)
          else outcome.pending == [])
      && outcome.summary.error.None?
    ensures outcome.Failed? ==> log[|log| - 1].error == Some(outcome.error)
  {
    hide FetchedSlots, Missed, FinalityAt, Fetches, FinalityFails, Expected, Continues;
    NothingPolled(initial, script);
    log, fetches := [], [];
    if args.watchPollSeconds == 0 {
      return log, fetches, Rejected(ZeroPollSeconds);
    }
    if args.watchMaxPolls == Some(0) {
      return log, fetches, Rejected(ZeroMaxPolls);
    }
    var polls, stateChecks, skipped := 0, 0, 0;
    var lastCheckedSlot: Option<nat> := None;
    var lastKnown := initial;
    while polls < |script|
      invariant polls == |log| <= |script|
      invariant stateChecks == |fetches| && skipped == Missed(initial, script, polls)
      invariant fetches == FetchedSlots(initial, script, polls)
      invariant forall k :: 0 <= k < polls ==> Continues(initial, script, args, k)
      invariant forall k :: 0 <= k < polls ==> log[k] == Expected(initial, script, args, k)
      invariant polls == 0 ==> lastCheckedSlot.None? && lastKnown == initial
      invariant polls > 0 ==>
        && lastKnown == FinalityAt(initial, script, polls - 1)
        && lastCheckedSlot == Some(lastKnown.finalizedEpoch * SLOTS_PER_EPOCH)
      decreases |script| - polls
    {
      var k := polls;
      PollFacts(initial, script, args, k);
      var finality := initial;
      if polls > 0 {
        if script[k].finality.Err? {
          var error := FinalityRefreshFailed(script[k].finality.error);
          var summary := WithWatchError(
            BuildWatchSummary(args, polls, stateChecks, skipped, lastKnown, 0, Polling), error);
          log := log + [summary];
          return log, fetches, Failed(error);
        }
        finality := script[k].finality.value;
      }
      lastKnown := finality;
      var finalizedSlot := finality.finalizedEpoch * SLOTS_PER_EPOCH;
      polls := polls + 1;

      if lastCheckedSlot == Some(finalizedSlot) {
        skipped := skipped + 1;
        var summary := BuildWatchSummary(args, polls, stateChecks, skipped, finality, 0,
                                         if AtLimit(args, polls) then MaxPollsReached else Polling);
        log := log + [summary];
        if AtLimit(args, polls) {
          return log, fetches, Ended(finalizedSlot, [], summary, finality);
        }
        continue;
      }

      fetches := fetches + [finalizedSlot];
      if script[k].pending.Err? {
        var error := PendingFetchFailed(finalizedSlot, script[k].pending.error);
        var summary := WithWatchError(
          BuildWatchSummary(args, polls, stateChecks, skipped, finality, 0, Polling), error);
        log := log + [summary];
        return log, fetches, Failed(error);
      }
      var pending := script[k].pending.value;
      lastCheckedSlot := Some(finalizedSlot);
      stateChecks := stateChecks + 1;
      var summary := BuildWatchSummary(args, polls, stateChecks, skipped, finality, |pending|,
                                       if pending != [] then FoundNonEmptyState
                                       else if AtLimit(args, polls) then MaxPollsReached else Polling);
      log := log + [summary];
      if pending != [] {
        return log, fetches, Ended(finalizedSlot, pending, summary, finality);
      }
      if AtLimit(args, polls) {
        return log, fetches, Ended(finalizedSlot, pending, summary, finality);
      }
    }
    outcome := StillWatching;
  }

  lemma NothingPolled(initial: FinalityCheckpoints, script: seq<Answers>)
    ensures FetchedSlots(initial, script, 0) == [] && Missed(initial, script, 0) == 0
  {
  }

  /** The definitions above, for one poll. */
  lemma PollFacts(initial: FinalityCheckpoints, script: seq<Answers>, args: WatchArgs, k: nat)
    requires k < |script|
    ensures FinalityFails(script, k) <==> k > 0 && script[k].finality.Err?
    ensures FinalityFails(script, k) ==>
      && FinalityAt(initial, script, k) == FinalityAt(initial, script, k - 1)
      && !Fetches(initial, script, k)
    ensures !FinalityFails(script, k) ==>
      && FinalityAt(initial, script, k) == (if k == 0 then initial else script[k].finality.value)
      && (Fetches(initial, script, k) <==>
          k == 0 || EpochAt(initial, script, k) != EpochAt(initial, script, k - 1))
    ensures FetchedSlots(initial, script, k + 1)
         == FetchedSlots(initial, script, k)
            + if Fetches(initial, script, k) then [EpochAt(initial, script, k) * SLOTS_PER_EPOCH] else []
    ensures Missed(initial, script, k + 1)
         == Missed(initial, script, k) + if Fetches(initial, script, k) then 0 else 1
    ensures Expected(initial, script, args, k)
         == ExpectedFrom(|FetchedSlots(initial, script, k)|, Missed(initial, script, k),
                         FinalityAt(initial, script, k), script[k], args, k,
                         FinalityFails(script, k), Fetches(initial, script, k))
    ensures Continues(initial, script, args, k) <==>
      && !FinalityFails(script, k)
      && (Fetches(initial, script, k) ==> script[k].pending == Ok([]))
      && !AtLimit(args, k + 1)
  {
    hide FinalityAt;
    FinalityStep(initial, script, k);
  }

  lemma FinalityStep(initial: FinalityCheckpoints, script: seq<Answers>, k: nat)
    requires k < |script|
    ensures FinalityAt(initial, script, k) ==
      if k == 0 then initial
      else if script[k].finality.Ok? then script[k].finality.value
      else FinalityAt(initial, script, k - 1)
  {
  }

  // ----- the protocol

  /** A snapshot is terminal exactly when its poll ends the run, and a
      non-terminal one says Polling. */
  lemma TerminalIffEnds(initial: FinalityCheckpoints, script: seq<Answers>, args: WatchArgs, k: nat)
    requires k < |script|
    ensures var s := Expected(initial, script, args, k);
            && (s.terminal <==> !Continues(initial, script, args, k))
            && (s.terminal <==> s.status != Polling)
            && (s.error.Some? <==> s.status == Error)
  {
    hide FetchedSlots, Missed, FinalityAt, Fetches;
  }

  /** Every snapshot names the newest checkpoints the poll knew, by epoch, first
      slot and root, and reports a state found exactly when its list, fetched in
      that very poll, is not empty; the rest of its status follows the answers
      and the limit. */
  lemma SnapshotReports(initial: FinalityCheckpoints, script: seq<Answers>, args: WatchArgs, k: nat)
    requires k < |script|
    ensures var s, known := Expected(initial, script, args, k), FinalityAt(initial, script, k);
            && s.resolvedEpoch == known.finalizedEpoch && s.resolvedSlot == 16 * known.finalizedEpoch
            && s.finalizedRoot == known.finalizedRoot
            && (s.foundNonEmptyState <==> s.status == FoundNonEmptyState)
            && s.pendingConsolidations == (if s.foundNonEmptyState then |script[k].pending.value| else 0)
            && s.status == (if FinalityFails(script, k) then Error
                            else if Fetches(initial, script, k) && script[k].pending.Err? then Error
                            else if Fetches(initial, script, k) && script[k].pending.value != [] then FoundNonEmptyState
                            else if args.watchMaxPolls.Some? && args.watchMaxPolls.value <= k + 1 then MaxPollsReached
                            else Polling)
            && s.error == (if FinalityFails(script, k) then Some(FinalityRefreshFailed(script[k].finality.error))
                           else if Fetches(initial, script, k) && script[k].pending.Err? then
                             Some(PendingFetchFailed(16 * known.finalizedEpoch, script[k].pending.error))
                           else None)
  {
    hide FetchedSlots, Missed, FinalityAt;
  }

  /** The first n polls whose list was fetched and answered. */
  function CheckedPolls(initial: FinalityCheckpoints, script: seq<Answers>, n: nat): set<nat>
    requires n <= |script|
  {
    set i: nat | i < n && Fetches(initial, script, i) && script[i].pending.Ok?
  }

  /** Those whose checkpoints were answered and whose slot had not moved. */
  function SkippedPolls(initial: FinalityCheckpoints, script: seq<Answers>, n: nat): set<nat>
    requires n <= |script|
  {
    set i: nat | i < n && !FinalityFails(script, i) && !Fetches(initial, script, i)
  }

  /** Those whose checkpoints were answered. */
  function AnsweredPolls(script: seq<Answers>, n: nat): set<nat>
    requires n <= |script|
  {
    set i: nat | i < n && !FinalityFails(script, i)
  }

  lemma OneMorePoll(initial: FinalityCheckpoints, script: seq<Answers>, n: nat)
    requires n < |script|
    ensures |CheckedPolls(initial, script, n + 1)| == |CheckedPolls(initial, script, n)|
      + if Fetches(initial, script, n) && script[n].pending.Ok? then 1 else 0
    ensures |SkippedPolls(initial, script, n + 1)| == |SkippedPolls(initial, script, n)|
      + if !FinalityFails(script, n) && !Fetches(initial, script, n) then 1 else 0
    ensures |AnsweredPolls(script, n + 1)| == |AnsweredPolls(script, n)| + if FinalityFails(script, n) then 0 else 1
  {
    hide Fetches, FinalityFails;
    OneMore(CheckedPolls(initial, script, n), n, Fetches(initial, script, n) && script[n].pending.Ok?,
            CheckedPolls(initial, script, n + 1));
    OneMore(SkippedPolls(initial, script, n), n, !FinalityFails(script, n) && !Fetches(initial, script, n),
            SkippedPolls(initial, script, n + 1));
    OneMore(AnsweredPolls(script, n), n, !FinalityFails(script, n), AnsweredPolls(script, n + 1));
  }

  lemma OneMore(before: set<nat>, n: nat, counts: bool, after: set<nat>)
    requires n !in before && forall i :: i in after <==> i in before || (i == n && counts)
    ensures |after| == |before| + if counts then 1 else 0
  {
    assert after == before + if counts then {n} else {};
  }

  lemma {:induction false} CountsBeforeEnd(initial: FinalityCheckpoints, script: seq<Answers>, args: WatchArgs, n: nat)
    requires n <= |script| && forall k :: 0 <= k < n ==> Continues(initial, script, args, k)
    ensures |CheckedPolls(initial, script, n)| == |FetchedSlots(initial, script, n)|
    ensures |SkippedPolls(initial, script, n)| == Missed(initial, script, n)
    ensures |AnsweredPolls(script, n)| == n
  {
    if n > 0 {
      hide CheckedPolls, SkippedPolls, AnsweredPolls, Fetches, FinalityFails;
      CountsBeforeEnd(initial, script, args, n - 1);
      OneMorePoll(initial, script, n - 1);
      assert Continues(initial, script, args, n - 1);
    } else {
      assert CheckedPolls(initial, script, 0) == {} && SkippedPolls(initial, script, 0) == {};
      assert AnsweredPolls(script, 0) == {};
    }
  }

  /** The counters of every snapshot of a run, counted over the answers. */
  lemma SnapshotCounts(initial: FinalityCheckpoints, script: seq<Answers>, args: WatchArgs, log: seq<WatchSummary>,
                       k: nat)
    requires LogOf(initial, script, args, log) && k < |log|
    ensures log[k].stateChecks == |CheckedPolls(initial, script, k + 1)|
    ensures log[k].skipped == |SkippedPolls(initial, script, k + 1)|
    ensures log[k].polls == |AnsweredPolls(script, k + 1)|
    ensures log[k].pollIntervalSeconds == args.watchPollSeconds && log[k].maxPolls == args.watchMaxPolls
  {
    hide CheckedPolls, SkippedPolls, AnsweredPolls, FetchedSlots, Missed, FinalityAt, Continues;
    CountsBeforeEnd(initial, script, args, k);
    OneMorePoll(initial, script, k);
  }

  /** Every log is zero or more polling snapshots and then, if the run ended,
      one terminal snapshot. */
  lemma LogShape(initial: FinalityCheckpoints, script: seq<Answers>, args: WatchArgs, log: seq<WatchSummary>)
    requires LogOf(initial, script, args, log)
    ensures forall k :: 0 <= k < |log| - 1 ==> !log[k].terminal && log[k].status == Polling
    ensures log != [] ==>
      (log[|log| - 1].terminal <==> !Continues(initial, script, args, |log| - 1))
  {
    hide Expected, Continues;
    forall k | 0 <= k < |log| {
      TerminalIffEnds(initial, script, args, k);
    }
  }

  lemma {:induction false} PollsAreFetchesOrMisses(initial: FinalityCheckpoints, script: seq<Answers>, n: nat)
    requires n <= |script|
    ensures |FetchedSlots(initial, script, n)| + Missed(initial, script, n) == n
  {
    if n > 0 {
      PollsAreFetchesOrMisses(initial, script, n - 1);
    }
  }

  /** Polls are state checks plus skips, plus the poll whose fetch failed. */
  lemma PollsBalance(initial: FinalityCheckpoints, script: seq<Answers>, args: WatchArgs, k: nat)
    requires k < |script|
    ensures var s := Expected(initial, script, args, k);
            s.polls == s.stateChecks + s.skipped
                       + (if Fetches(initial, script, k) && script[k].pending.Err? then 1 else 0)
  {
    PollsAreFetchesOrMisses(initial, script, k);
  }

  /** No two consecutive fetches ask for the same slot, when only the last poll
      can have failed: the last fetch is always the current slot. */
  lemma {:induction false} FetchesMove(initial: FinalityCheckpoints, script: seq<Answers>, n: nat)
    requires n <= |script| && forall k :: 0 <= k < n - 1 ==> !FinalityFails(script, k)
    ensures var f := FetchedSlots(initial, script, n);
            && (forall i :: 0 <= i < |f| - 1 ==> f[i] != f[i + 1])
            && (n > 0 ==> f != [] && f[|f| - 1] == EpochAt(initial, script, n - 1) * SLOTS_PER_EPOCH)
  {
    if n > 0 {
      FetchesMove(initial, script, n - 1);
    }
  }

  lemma ConsecutiveFetchesDiffer(initial: FinalityCheckpoints, script: seq<Answers>, args: WatchArgs,
                                 log: seq<WatchSummary>)
    requires LogOf(initial, script, args, log)
    ensures var f := FetchedSlots(initial, script, |log|);
            forall i :: 0 <= i < |f| - 1 ==> f[i] != f[i + 1]
  {
    hide FetchedSlots, Expected;
    forall k | 0 <= k < |log| - 1
      ensures !FinalityFails(script, k)
    {
      assert Continues(initial, script, args, k);
    }
    FetchesMove(initial, script, |log|);
  }

  /** With a limit the run ends within that many polls. */
  lemma LimitStops(initial: FinalityCheckpoints, script: seq<Answers>, args: WatchArgs, log: seq<WatchSummary>)
    requires args.watchMaxPolls.Some? && args.watchMaxPolls.value > 0 && LogOf(initial, script, args, log)
    ensures var limit := args.watchMaxPolls.value;
            |log| <= limit && (|log| == limit ==> log[limit - 1].terminal)
  {
    hide Expected, Continues;
    var limit := args.watchMaxPolls.value;
    if |log| >= limit {
      NoPollAfterLimit(initial, script, args);
      TerminalIffEnds(initial, script, args, limit - 1);
    }
  }

  lemma NoPollAfterLimit(initial: FinalityCheckpoints, script: seq<Answers>, args: WatchArgs)
    requires args.watchMaxPolls.Some? && 0 < args.watchMaxPolls.value <= |script|
    ensures !Continues(initial, script, args, args.watchMaxPolls.value - 1)
  {
  }
}
