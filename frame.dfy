/** One processed frame of one stream (application/src/main.cpp:615-716): clear the
    per-label counts, count the detections, run the debounce block, advance the frame
    counter. */
module Frame {
  import opened Stream
  import opened Detection
  import opened Debounce

  /** A ledger whose frames lie before `bound` has them before any later bound too. */
  lemma LedgerWidens(total: seq<int>, events: seq<Event>, bound: int, later: int)
    requires Ledger(total, events, bound) && bound <= later
    ensures Ledger(total, events, later)
  {
  }

  /** The stream's state before the labels' steps: `Snapshot` with every label's changed
      flag cleared. */
  ghost function Cleared(cap: VideoCap, log: seq<LogLine>): Tally
    reads cap
  {
    Snapshot(cap, log).(changed := seq(|cap.changedCount|, _ => false))
  }

  /** The counters one frame yields: `Counts` over the first `maxProposalCount` records. */
  ghost function FrameCounts(tensor: seq<real>, maxProposalCount: int, usedLabels: seq<bool>,
                             labelPos: seq<int>, noLabels: nat): seq<int>
    requires Decodable(tensor, if maxProposalCount < 0 then 0 else maxProposalCount, usedLabels)
    requires |labelPos| == |usedLabels|
  {
    Counts(tensor, if maxProposalCount < 0 then 0 else maxProposalCount, usedLabels, labelPos, noLabels)
  }

  /** The between-frames invariant follows from the tally's invariant at the frame just
      counted. */
  lemma ValidFromGood(cap: VideoCap, log: seq<LogLine>, r: Tally, frame: int)
    requires cap.Shaped() && r.Good(cap.noLabels, frame) && Snapshot(cap, log) == r
    requires cap.frameCount == frame + 1
    requires AllNonNegative(cap.currentCount) && cap.loopFrames >= 0
    ensures cap.Valid()
  {
  }

  /** Clearing and counting (main.cpp:617-643): afterwards the counters are the frame's
      counts and the changed flags are clear. */
  method CountFrame(cap: VideoCap, tensor: seq<real>, maxProposalCount: int,
                    usedLabels: seq<bool>, labelPos: seq<int>)
    requires cap.Shaped()
    requires Indexable(tensor, if maxProposalCount < 0 then 0 else maxProposalCount,
                       usedLabels, labelPos, cap.noLabels)
    modifies cap`currentCount, cap`changedCount
    ensures cap.currentCount == FrameCounts(tensor, maxProposalCount, usedLabels, labelPos, cap.noLabels)
    ensures cap.changedCount == seq(cap.noLabels, _ => false)
  {
    ResetCounts(cap);
    ParseDetections(cap, tensor, maxProposalCount, usedLabels, labelPos);
  }

  /** The debounce block keeps the tally's invariant at the current frame. */
  lemma DebounceGood(cap: VideoCap, log: seq<LogLine>, labelNames: seq<string>, clock: seq<WallTime>)
    requires cap.Valid() && cap.noLabels <= |clock| && |log| <= ROLLING_LOG_SIZE
    requires forall i :: 0 <= i < cap.noLabels && ConfirmsGrowth(Snapshot(cap, log), i, cap.currentCount)
               ==> i < |labelNames|
    ensures DebounceUpTo(Snapshot(cap, log), cap.noLabels, cap.currentCount, labelNames, clock,
                         cap.frameCount, cap.camName).Good(cap.noLabels, cap.frameCount)
  {
    LedgerWidens(cap.totalCount, cap.events, cap.frameCount, cap.frameCount + 1);
    DebounceKeepsGood(Snapshot(cap, log), cap.noLabels, cap.currentCount, labelNames, clock,
                      cap.frameCount, cap.camName);
  }

  /** The debounce block and the frame counter (main.cpp:658-715) for counters already
      filled in. */
  method ConfirmFrame(cap: VideoCap, labelNames: seq<string>, clock: seq<WallTime>,
                      log: seq<LogLine>) returns (logList: seq<LogLine>)
    requires cap.Valid() && cap.noLabels <= |clock| && |log| <= ROLLING_LOG_SIZE
    requires forall i :: 0 <= i < cap.noLabels && ConfirmsGrowth(Snapshot(cap, log), i, cap.currentCount)
               ==> i < |labelNames|
    modifies cap`frameCount, cap`lastCorrectCount, cap`totalCount, cap`changedCount
    modifies cap`candidateCount, cap`candidateConfidence, cap`events
    ensures cap.Valid() && |logList| <= ROLLING_LOG_SIZE
    ensures Snapshot(cap, logList)
      == DebounceUpTo(old(Snapshot(cap, log)), cap.noLabels, cap.currentCount, labelNames, clock,
                      old(cap.frameCount), cap.camName)
    ensures cap.frameCount == old(cap.frameCount) + 1
  {
    ghost var r := DebounceUpTo(Snapshot(cap, log), cap.noLabels, cap.currentCount, labelNames, clock,
                                cap.frameCount, cap.camName);
    DebounceGood(cap, log, labelNames, clock);
    logList := DebounceLabels(cap, labelNames, clock, log);
    cap.frameCount := cap.frameCount + 1;
    ValidFromGood(cap, logList, r, cap.frameCount - 1);
  }

  /** A label can only confirm growth when some accepted record counted it, so the label
      table holds its name: `labelNames[i]` is never read out of range. */
  lemma NamedWhenGrowing(cap: VideoCap, tensor: seq<real>, maxProposalCount: int,
                         usedLabels: seq<bool>, labelPos: seq<int>, labelNames: seq<string>,
                         log: seq<LogLine>)
    requires cap.Shaped() && AllNonNegative(cap.lastCorrectCount)
    requires Indexable(tensor, if maxProposalCount < 0 then 0 else maxProposalCount,
                       usedLabels, labelPos, cap.noLabels)
    requires cap.currentCount == FrameCounts(tensor, maxProposalCount, usedLabels, labelPos, cap.noLabels)
    requires forall k :: 0 <= k < |usedLabels| && usedLabels[k] ==> labelPos[k] < |labelNames|
    ensures forall i :: 0 <= i < cap.noLabels && ConfirmsGrowth(Snapshot(cap, log), i, cap.currentCount)
              ==> i < |labelNames|
  {
    var n: nat := if maxProposalCount < 0 then 0 else maxProposalCount;
    forall i | 0 <= i < cap.noLabels && ConfirmsGrowth(Snapshot(cap, log), i, cap.currentCount)
      ensures i < |labelNames|
    {
      assert cap.currentCount[i] == CountFor(tensor, n, usedLabels, labelPos, i);
      assert cap.lastCorrectCount[i] >= 0;
      CountedPositionIsUsed(tensor, n, usedLabels, labelPos, i, |labelNames|);
    }
  }

  /** The post-processing of one inference result for `cap`. `clock[i]` is the wall-clock
      reading taken when label i confirms growth; `log` is the shared rolling log. */
  method ProcessFrame(cap: VideoCap, tensor: seq<real>, maxProposalCount: int,
                      usedLabels: seq<bool>, labelPos: seq<int>, labelNames: seq<string>,
                      clock: seq<WallTime>, log: seq<LogLine>) returns (logList: seq<LogLine>)
    requires cap.Valid() && cap.noLabels <= |clock| && |log| <= ROLLING_LOG_SIZE
    requires Indexable(tensor, if maxProposalCount < 0 then 0 else maxProposalCount,
                       usedLabels, labelPos, cap.noLabels)
    requires forall k :: 0 <= k < |usedLabels| && usedLabels[k] ==> labelPos[k] < |labelNames|
    modifies cap`currentCount, cap`changedCount, cap`frameCount
    modifies cap`lastCorrectCount, cap`totalCount, cap`candidateCount, cap`candidateConfidence, cap`events
    ensures cap.Valid() && |logList| <= ROLLING_LOG_SIZE
    ensures cap.currentCount == FrameCounts(tensor, maxProposalCount, usedLabels, labelPos, cap.noLabels)
    ensures forall i :: 0 <= i < cap.noLabels && ConfirmsGrowth(old(Cleared(cap, log)), i, cap.currentCount)
              ==> i < |labelNames|
    ensures Snapshot(cap, logList)
      == DebounceUpTo(old(Cleared(cap, log)), cap.noLabels, cap.currentCount, labelNames, clock,
                      old(cap.frameCount), cap.camName)
    ensures cap.frameCount == old(cap.frameCount) + 1
    ensures forall i :: 0 <= i < cap.noLabels ==> cap.totalCount[i] >= old(cap.totalCount[i])
    ensures old(cap.events) <= cap.events
  {
    CountFrame(cap, tensor, maxProposalCount, usedLabels, labelPos);
    assert Snapshot(cap, log) == old(Cleared(cap, log));
    NamedWhenGrowing(cap, tensor, maxProposalCount, usedLabels, labelPos, labelNames, log);
    logList := ConfirmFrame(cap, labelNames, clock, log);
  }
}
