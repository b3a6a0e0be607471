/** The per-label debounce and confirmation block of the main loop
    (application/src/main.cpp:658-715) and the shared rolling log it feeds. */
module Debounce {
  import opened Stream

  /** logWinHeight, the height of the log window in pixels. */
  const LOG_WIN_HEIGHT: int := 432
  /** rollingLogSize: how many log lines the log window keeps. */
  const ROLLING_LOG_SIZE: int := (LOG_WIN_HEIGHT - 15) / 20

  /** One line of the on-screen log: "HH:MM:SS - Intruder <label> detected on <camera>". */
  datatype LogLine = LogLine(time: WallTime, intruder: string, camName: string)

  function Repeat<T>(x: T, n: nat): (r: seq<T>)
    ensures |r| == n && forall k :: 0 <= k < n ==> r[k] == x
  {
    seq(n, _ => x)
  }

  /** The last `k` elements of `s`, or all of `s` when it is shorter. */
  function Newest<T>(s: seq<T>, k: nat): seq<T>
  {
    if |s| > k then s[|s| - k..] else s
  }

  /** `emplace_back` then, when the list is too long, `pop_front`. */
  function PushLog(log: seq<LogLine>, line: LogLine): (r: seq<LogLine>)
    ensures |log| <= ROLLING_LOG_SIZE ==> |r| <= ROLLING_LOG_SIZE
    ensures |r| > 0 && r[|r| - 1] == line
  {
    var grown := log + [line];
    if |grown| > ROLLING_LOG_SIZE then grown[1..] else grown
  }

  /** The log after `n` pushes of the same line. */
  function EmitLog(log: seq<LogLine>, line: LogLine, n: nat): seq<LogLine>
  {
    if n == 0 then log else PushLog(EmitLog(log, line, n - 1), line)
  }

  /** Trimming after every push keeps exactly the newest ROLLING_LOG_SIZE lines. */
  lemma {:induction false} EmitLogKeepsNewest(log: seq<LogLine>, line: LogLine, n: nat)
    requires |log| <= ROLLING_LOG_SIZE
    ensures EmitLog(log, line, n) == Newest(log + Repeat(line, n), ROLLING_LOG_SIZE)
    ensures |EmitLog(log, line, n)| <= ROLLING_LOG_SIZE
  {
    if n > 0 {
      EmitLogKeepsNewest(log, line, n - 1);
      var prev := log + Repeat(line, n - 1);
      assert log + Repeat(line, n) == prev + [line];
      PushKeepsNewest(prev, line);
    }
  }

  /** Pushing onto the newest lines of `s` gives the newest lines of `s + [line]`. */
  lemma PushKeepsNewest(s: seq<LogLine>, line: LogLine)
    ensures PushLog(Newest(s, ROLLING_LOG_SIZE), line) == Newest(s + [line], ROLLING_LOG_SIZE)
  {
    var all := s + [line];
    if |s| > ROLLING_LOG_SIZE {
      var kept := s[|s| - ROLLING_LOG_SIZE..];
      assert (kept + [line])[1..] == all[|all| - ROLLING_LOG_SIZE..];
    }
  }

  // ---------------------------------------------------------------------------
  // The streak of one label (main.cpp:660-674)
  // ---------------------------------------------------------------------------

  /** The candidate count, the streak and whether the count was confirmed after
      observing the current frame's count. */
  datatype Observation = Observation(candidate: int, confidence: int, confirmed: bool)

  function Observe(candidate: int, confidence: int, current: int): (r: Observation)
    ensures r.candidate == current
    ensures r.confirmed <==> candidate == current && confidence == CANDIDATE_CONFIDENCE - 1
    ensures r.confirmed ==> r.confidence == 0
    ensures !r.confirmed ==> r.confidence == if candidate == current then confidence + 1 else 0
  {
    var streak := if candidate == current then confidence + 1 else 0;
    if streak == CANDIDATE_CONFIDENCE then Observation(current, 0, true)
    else Observation(current, streak, false)
  }

  /** The (candidate, streak) pair after observing every count of `counts` in turn. */
  function RunStreak(candidate: int, confidence: int, counts: seq<int>): (int, int)
  {
    if counts == [] then (candidate, confidence)
    else
      var (c, s) := RunStreak(candidate, confidence, counts[..|counts| - 1]);
      var o := Observe(c, s, counts[|counts| - 1]);
      (o.candidate, o.confidence)
  }

  /** Whether observing the last count of `counts` confirms it. */
  function ConfirmsLast(candidate: int, confidence: int, counts: seq<int>): bool
    requires |counts| > 0
  {
    var (c, s) := RunStreak(candidate, confidence, counts[..|counts| - 1]);
    Observe(c, s, counts[|counts| - 1]).confirmed
  }

  /** The length of the longest run of equal values that ends `values`. */
  function TrailingRun(values: seq<int>): (r: nat)
    requires |values| > 0
    ensures 1 <= r <= |values|
  {
    var n := |values|;
    if n == 1 || values[n - 1] != values[n - 2] then 1 else TrailingRun(values[..n - 1]) + 1
  }

  /** From a streak of 0, with the candidate counted as the first observation (as `init`
      and every confirmation leave it): the streak is the trailing run's length minus one,
      modulo 4, and a count is confirmed exactly when its run has grown to 5, 9, 13, ... */
  lemma {:induction false} StreakFollowsTrailingRun(candidate: int, counts: seq<int>)
    ensures var values := [candidate] + counts;
      RunStreak(candidate, 0, counts)
        == (values[|values| - 1], (TrailingRun(values) - 1) % CANDIDATE_CONFIDENCE)
    ensures |counts| > 0 ==>
      var run := TrailingRun([candidate] + counts);
      (ConfirmsLast(candidate, 0, counts) <==> run >= 5 && (run - 1) % CANDIDATE_CONFIDENCE == 0)
  {
    var values := [candidate] + counts;
    if counts != [] {
      var n := |counts|;
      var front := counts[..n - 1];
      StreakFollowsTrailingRun(candidate, front);
      assert values[..|values| - 1] == [candidate] + front;
      var previous := TrailingRun([candidate] + front);
      if values[|values| - 1] == values[|values| - 2] {
        assert TrailingRun(values) == previous + 1;
      } else {
        assert TrailingRun(values) == 1;
      }
    }
  }

  lemma {:induction false} TrailingRunOfRepeat(first: int, v: int, n: nat)
    requires first != v
    ensures TrailingRun([first] + Repeat(v, n)) == if n == 0 then 1 else n
  {
    if n > 1 {
      TrailingRunOfRepeat(first, v, n - 1);
      assert ([first] + Repeat(v, n))[..n] == [first] + Repeat(v, n - 1);
    }
  }

  /** A change resets the streak: once the first count differs from the candidate, the
      streak the label started with no longer matters. */
  lemma {:induction false} StreakForgetsStart(candidate: int, confidence: int, counts: seq<int>)
    requires |counts| > 0 && counts[0] != candidate
    ensures RunStreak(candidate, confidence, counts) == RunStreak(candidate, 0, counts)
    ensures ConfirmsLast(candidate, confidence, counts) == ConfirmsLast(candidate, 0, counts)
  {
    var front := counts[..|counts| - 1];
    if |front| > 0 {
      assert front[0] == counts[0];
      StreakForgetsStart(candidate, confidence, front);
    }
  }

  /** A new count is confirmed on its 5th consecutive frame (the change frame plus four
      repeats) and again every 4 frames after that, never earlier, whatever streak the
      previous count had built up. */
  lemma NewCountConfirmedOnFifthFrame(candidate: int, confidence: int, v: int, n: nat)
    requires candidate != v && n > 0
    ensures ConfirmsLast(candidate, confidence, Repeat(v, n)) <==> n >= 5 && (n - 1) % 4 == 0
  {
    StreakForgetsStart(candidate, confidence, Repeat(v, n));
    StreakFollowsTrailingRun(candidate, Repeat(v, n));
    TrailingRunOfRepeat(candidate, v, n);
  }

  /** A count sequence that changes on every frame is never confirmed, whatever streak the
      label started with. */
  lemma FlickerNeverConfirms(candidate: int, confidence: int, counts: seq<int>)
    requires |counts| > 0
    requires forall k :: 0 < k < |counts| ==> counts[k] != counts[k - 1]
    requires counts[0] != candidate
    ensures !ConfirmsLast(candidate, confidence, counts)
  {
    StreakForgetsStart(candidate, confidence, counts);
    StreakFollowsTrailingRun(candidate, counts);
    var values := [candidate] + counts;
    assert values[|values| - 1] != values[|values| - 2];
  }

  /** After a confirmation the streak is 0, so the same count on the next frame does
      not confirm again. */
  lemma NoImmediateReconfirmation(candidate: int, confidence: int, current: int)
    requires Observe(candidate, confidence, current).confirmed
    ensures var o := Observe(candidate, confidence, current);
      !Observe(o.candidate, o.confidence, current).confirmed
  {
  }

  // ---------------------------------------------------------------------------
  // The per-label vectors of one stream during one frame (main.cpp:658-714)
  // ---------------------------------------------------------------------------

  /** The part of a VideoCap the debounce block updates, plus the shared log. */
  datatype Tally = Tally(
    last: seq<int>,
    total: seq<int>,
    changed: seq<bool>,
    candidate: seq<int>,
    confidence: seq<int>,
    events: seq<Event>,
    log: seq<LogLine>)
  {
    ghost predicate Shaped(n: nat)
    {
      && |last| == n && |total| == n && |changed| == n
      && |candidate| == n && |confidence| == n
    }

    /** Label j's entries are the same in both tallies. */
    ghost predicate AgreesAt(other: Tally, j: nat)
      requires j < |last| && j < |total| && j < |changed| && j < |candidate| && j < |confidence|
      requires j < |other.last| && j < |other.total| && j < |other.changed|
      requires j < |other.candidate| && j < |other.confidence|
    {
      && last[j] == other.last[j] && total[j] == other.total[j] && changed[j] == other.changed[j]
      && candidate[j] == other.candidate[j] && confidence[j] == other.confidence[j]
    }

    /** What holds between labels: counts non-negative, streaks below 4, the ledger
        consistent, the log within its window. */
    ghost predicate Good(n: nat, frame: int)
    {
      && Shaped(n)
      && AllNonNegative(last) && AllNonNegative(total)
      && (forall i :: 0 <= i < n ==> 0 <= confidence[i] < CANDIDATE_CONFIDENCE)
      && frame >= 0
      && Ledger(total, events, frame + 1)
      && |log| <= ROLLING_LOG_SIZE
    }
  }

  /** Whether label `i` confirms a count above its last confirmed count this frame,
      that is, whether the source reads `labelNames[i]` for it. */
  predicate ConfirmsGrowth(t: Tally, i: nat, current: seq<int>)
    requires i < |t.candidate| && i < |t.confidence| && i < |t.last| && i < |current|
  {
    Observe(t.candidate[i], t.confidence[i], current[i]).confirmed && current[i] > t.last[i]
  }

  /** The event and the log line label `i` emits at a confirmation. */
  function EventFor(total: seq<int>, name: string, time: WallTime, frame: int): Event
  {
    Event(time, name, Sum(total), frame)
  }

  /** One label's step: update the streak; on confirmation mark it changed, and when the
      confirmed count grew by d, add d to the label's total and emit d events (and d log
      lines), all carrying the stream's total after the increment; finally make the
      confirmed count the last correct count, whichever way it moved. */
  function UpdateLabel(t: Tally, i: nat, current: seq<int>, names: seq<string>,
                       clock: seq<WallTime>, frame: int, cam: string): (r: Tally)
    requires t.Shaped(|current|) && i < |current| && i < |clock|
    requires ConfirmsGrowth(t, i, current) ==> i < |names|
    ensures r.Shaped(|current|)
    ensures forall j :: 0 <= j < |current| && j != i ==> r.AgreesAt(t, j)
    ensures r.last[i] == t.last[i] || r.last[i] == current[i]
    ensures r.confidence[i] == Observe(t.candidate[i], t.confidence[i], current[i]).confidence
    ensures r.total[i] >= t.total[i]
    ensures |r.events| - |t.events| == r.total[i] - t.total[i]
    ensures t.events <= r.events
  {
    var o := Observe(t.candidate[i], t.confidence[i], current[i]);
    var t1 := t.(candidate := t.candidate[i := o.candidate], confidence := t.confidence[i := o.confidence]);
    if !o.confirmed then t1
    else
      var t2 := t1.(changed := t1.changed[i := true], last := t.last[i := current[i]]);
      if current[i] > t.last[i] then
        var d := current[i] - t.last[i];
        var total := t.total[i := t.total[i] + d];
        var ev := EventFor(total, names[i], clock[i], frame);
        var line := LogLine(clock[i], names[i], cam);
        t2.(total := total, events := t.events + Repeat(ev, d), log := EmitLog(t.log, line, d))
      else t2
  }

  /** What one label's step does, case by case: the candidate always becomes the current
      count; a frame that does not confirm changes nothing else; a confirmation marks the
      label changed, resets the streak and makes the current count the last correct one
      (also when that lowers it, which emits nothing); a confirmation with growth d adds d to
      the label's total and appends exactly d events named after the label, stamped with
      the frame, each carrying the stream's total after the increment. */
  lemma UpdateLabelCases(t: Tally, i: nat, current: seq<int>, names: seq<string>,
                         clock: seq<WallTime>, frame: int, cam: string)
    requires t.Shaped(|current|) && i < |current| && i < |clock|
    requires ConfirmsGrowth(t, i, current) ==> i < |names|
    ensures var r := UpdateLabel(t, i, current, names, clock, frame, cam);
      var o := Observe(t.candidate[i], t.confidence[i], current[i]);
      && r.candidate[i] == current[i]
      && (!o.confirmed ==>
            r.last == t.last && r.total == t.total && r.changed == t.changed
            && r.events == t.events && r.log == t.log)
      && (o.confirmed ==> r.last[i] == current[i] && r.changed[i] && r.confidence[i] == 0)
      && (o.confirmed && current[i] <= t.last[i] ==>
            r.total == t.total && r.events == t.events && r.log == t.log)
      && (ConfirmsGrowth(t, i, current) ==>
            var d := current[i] - t.last[i];
            && r.total[i] == t.total[i] + d
            && Sum(r.total) == Sum(t.total) + d
            && |r.events| == |t.events| + d
            && (forall k :: |t.events| <= k < |r.events| ==>
                  r.events[k] == Event(clock[i], names[i], Sum(r.total), frame))
            && (|t.log| <= ROLLING_LOG_SIZE ==>
                  r.log == Newest(t.log + Repeat(LogLine(clock[i], names[i], cam), d), ROLLING_LOG_SIZE)))
  {
    if ConfirmsGrowth(t, i, current) {
      var d := current[i] - t.last[i];
      SumUpdate(t.total, i, t.total[i] + d);
      if |t.log| <= ROLLING_LOG_SIZE {
        EmitLogKeepsNewest(t.log, LogLine(clock[i], names[i], cam), d);
      }
    }
  }

  /** Appending d events that all carry the new running total |events| + d keeps the
      ledger ordered. */
  lemma AppendBatchKeepsLedger(total: seq<int>, i: nat, d: nat, events: seq<Event>, ev: Event, frame: int)
    requires i < |total| && Ledger(total, events, frame + 1) && frame >= 0
    requires ev.count == Sum(total[i := total[i] + d]) && ev.frame == frame
    ensures Ledger(total[i := total[i] + d], events + Repeat(ev, d), frame + 1)
  {
    SumUpdate(total, i, total[i] + d);
    var all := events + Repeat(ev, d);
    assert |all| == ev.count;
    assert forall k :: |events| <= k < |all| ==> all[k] == ev;
  }

  /** One label's step keeps the between-labels invariant. */
  lemma UpdateLabelKeepsGood(t: Tally, i: nat, current: seq<int>, names: seq<string>,
                             clock: seq<WallTime>, frame: int, cam: string)
    requires t.Shaped(|current|) && i < |current| && i < |clock|
    requires ConfirmsGrowth(t, i, current) ==> i < |names|
    requires t.Good(|current|, frame) && AllNonNegative(current)
    ensures UpdateLabel(t, i, current, names, clock, frame, cam).Good(|current|, frame)
  {
    var r := UpdateLabel(t, i, current, names, clock, frame, cam);
    StepKeepsCounters(t, r, i, current);
    if ConfirmsGrowth(t, i, current) {
      var d := current[i] - t.last[i];
      var total := t.total[i := t.total[i] + d];
      var line := LogLine(clock[i], names[i], cam);
      EmitLogKeepsNewest(t.log, line, d);
      AppendBatchKeepsLedger(t.total, i, d, t.events, EventFor(total, names[i], clock[i], frame), frame);
    } else {
      assert r.total == t.total && r.events == t.events && r.log == t.log;
    }
  }

  /** The counters stay non-negative and the streaks below 4 when label i takes its step. */
  lemma StepKeepsCounters(t: Tally, r: Tally, i: nat, current: seq<int>)
    requires t.Shaped(|current|) && r.Shaped(|current|) && i < |current|
    requires AllNonNegative(current) && AllNonNegative(t.last) && AllNonNegative(t.total)
    requires forall j :: 0 <= j < |current| ==> 0 <= t.confidence[j] < CANDIDATE_CONFIDENCE
    requires forall j :: 0 <= j < |current| && j != i ==> r.AgreesAt(t, j)
    requires r.last[i] == t.last[i] || r.last[i] == current[i]
    requires r.total[i] >= t.total[i]
    requires r.confidence[i] == Observe(t.candidate[i], t.confidence[i], current[i]).confidence
    ensures AllNonNegative(r.last) && AllNonNegative(r.total)
    ensures forall j :: 0 <= j < |current| ==> 0 <= r.confidence[j] < CANDIDATE_CONFIDENCE
  {
    forall j | 0 <= j < |current| && j != i
      ensures r.last[j] >= 0 && r.total[j] >= 0 && 0 <= r.confidence[j] < CANDIDATE_CONFIDENCE
    {
      assert r.AgreesAt(t, j);
    }
  }

  /** The tally after labels 0 .. n-1 have taken their step, in index order. */
  function DebounceUpTo(t: Tally, n: nat, current: seq<int>, names: seq<string>,
                        clock: seq<WallTime>, frame: int, cam: string): (r: Tally)
    requires t.Shaped(|current|) && n <= |current| && |current| <= |clock|
    requires forall i :: 0 <= i < |current| && ConfirmsGrowth(t, i, current) ==> i < |names|
    ensures r.Shaped(|current|)
    ensures forall j :: n <= j < |current| ==> r.AgreesAt(t, j)
    ensures forall j :: 0 <= j < |current| ==> r.total[j] >= t.total[j]
    ensures t.events <= r.events
    decreases n
  {
    if n == 0 then t
    else
      var before := DebounceUpTo(t, n - 1, current, names, clock, frame, cam);
      assert before.AgreesAt(t, n - 1);
      assert ConfirmsGrowth(before, n - 1, current) == ConfirmsGrowth(t, n - 1, current);
      var r := UpdateLabel(before, n - 1, current, names, clock, frame, cam);
      AgreementCarries(r, before, t, n);
      r
  }

  lemma AgreementCarries(r: Tally, mid: Tally, t: Tally, n: nat)
    requires n > 0 && r.Shaped(|t.last|) && mid.Shaped(|t.last|) && t.Shaped(|t.last|)
    requires forall j :: 0 <= j < |t.last| && j != n - 1 ==> r.AgreesAt(mid, j)
    requires forall j :: n - 1 <= j < |t.last| ==> mid.AgreesAt(t, j)
    ensures forall j :: n <= j < |t.last| ==> r.AgreesAt(t, j)
  {
    forall j | n <= j < |t.last|
      ensures r.AgreesAt(t, j)
    {
      assert r.AgreesAt(mid, j) && mid.AgreesAt(t, j);
    }
  }

  /** Every prefix of the labels' steps keeps the between-labels invariant. */
  lemma {:induction false} DebounceKeepsGood(t: Tally, n: nat, current: seq<int>, names: seq<string>,
                                             clock: seq<WallTime>, frame: int, cam: string)
    requires t.Shaped(|current|) && n <= |current| && |current| <= |clock|
    requires forall i :: 0 <= i < |current| && ConfirmsGrowth(t, i, current) ==> i < |names|
    requires t.Good(|current|, frame) && AllNonNegative(current)
    ensures DebounceUpTo(t, n, current, names, clock, frame, cam).Good(|current|, frame)
  {
    if n > 0 {
      DebounceKeepsGood(t, n - 1, current, names, clock, frame, cam);
      var before := DebounceUpTo(t, n - 1, current, names, clock, frame, cam);
      assert before.AgreesAt(t, n - 1);
      assert ConfirmsGrowth(before, n - 1, current) == ConfirmsGrowth(t, n - 1, current);
      UpdateLabelKeepsGood(before, n - 1, current, names, clock, frame, cam);
    }
  }

  // ---------------------------------------------------------------------------
  // The imperative block itself
  // ---------------------------------------------------------------------------

  /** The stream's debounce state together with the shared log. */
  ghost function Snapshot(cap: VideoCap, log: seq<LogLine>): Tally
    reads cap`lastCorrectCount, cap`totalCount, cap`changedCount, cap`candidateCount
    reads cap`candidateConfidence, cap`events
  {
    Tally(cap.lastCorrectCount, cap.totalCount, cap.changedCount, cap.candidateCount,
          cap.candidateConfidence, cap.events, log)
  }

  /** The loop that re-adds the stream's per-label totals before each emission. */
  method StreamTotal(totals: seq<int>) returns (total: int)
    ensures total == Sum(totals)
  {
    total := 0;
    var k := 0;
    while k < |totals|
      invariant 0 <= k <= |totals|
      invariant total == Sum(totals[..k])
    {
      assert totals[..k + 1][..k] == totals[..k];
      total := total + totals[k];
      k := k + 1;
    }
    assert totals[..k] == totals;
  }

  /** The emission loop of one confirmation (main.cpp:683-707): `detObj` times, add a log
      line (dropping the oldest beyond ROLLING_LOG_SIZE) and append an event carrying the
      stream's current total. */
  method EmitEvents(cap: VideoCap, detObj: int, name: string, time: WallTime, log: seq<LogLine>)
    returns (logList: seq<LogLine>)
    modifies cap`events
    ensures var d := if detObj < 0 then 0 else detObj;
      && cap.events == old(cap.events) + Repeat(EventFor(cap.totalCount, name, time, cap.frameCount), d)
      && logList == EmitLog(log, LogLine(time, name, cap.camName), d)
  {
    ghost var d: nat := if detObj < 0 then 0 else detObj;
    ghost var ev := EventFor(cap.totalCount, name, time, cap.frameCount);
    logList := log;
    var j := 0;
    while j < detObj
      invariant 0 <= j <= d
      invariant cap.events == old(cap.events) + Repeat(ev, j)
      invariant logList == EmitLog(log, LogLine(time, name, cap.camName), j)
    {
      var totalCount := StreamTotal(cap.totalCount);
      logList := logList + [LogLine(time, name, cap.camName)];
      if |logList| > ROLLING_LOG_SIZE {
        logList := logList[1..];
      }
      cap.events := cap.events + [Event(time, name, totalCount, cap.frameCount)];
      assert Repeat(ev, j + 1) == Repeat(ev, j) + [ev];
      j := j + 1;
    }
  }

  /** The streak update of label i (main.cpp:660-672): afterwards the candidate and the
      streak are what `Observe` gives, and a confirmation marks the label changed. */
  method StepStreak(cap: VideoCap, i: nat) returns (confirmed: bool)
    requires cap.Shaped() && i < cap.noLabels
    modifies cap`candidateCount, cap`candidateConfidence, cap`changedCount
    ensures var o := Observe(old(cap.candidateCount[i]), old(cap.candidateConfidence[i]), cap.currentCount[i]);
      && confirmed == o.confirmed
      && cap.candidateCount == old(cap.candidateCount)[i := o.candidate]
      && cap.candidateConfidence == old(cap.candidateConfidence)[i := o.confidence]
      && cap.changedCount == if confirmed then old(cap.changedCount)[i := true] else old(cap.changedCount)
  {
    if cap.candidateCount[i] == cap.currentCount[i] {
      cap.candidateConfidence := cap.candidateConfidence[i := cap.candidateConfidence[i] + 1];
    } else {
      cap.candidateConfidence := cap.candidateConfidence[i := 0];
      cap.candidateCount := cap.candidateCount[i := cap.currentCount[i]];
    }
    confirmed := cap.candidateConfidence[i] == CANDIDATE_CONFIDENCE;
    if confirmed {
      cap.candidateConfidence := cap.candidateConfidence[i := 0];
      cap.changedCount := cap.changedCount[i := true];
    }
  }

  /** What a confirmation of label i does (main.cpp:676-713): growth d adds d to the
      label's total and emits d events and log lines; the current count becomes the last
      correct one either way. */
  method ConfirmLabel(cap: VideoCap, i: nat, labelNames: seq<string>, clock: seq<WallTime>,
                      log: seq<LogLine>) returns (logList: seq<LogLine>)
    requires cap.Shaped() && i < cap.noLabels && i < |clock|
    requires cap.currentCount[i] > cap.lastCorrectCount[i] ==> i < |labelNames|
    modifies cap`lastCorrectCount, cap`totalCount, cap`events
    ensures cap.lastCorrectCount == old(cap.lastCorrectCount)[i := cap.currentCount[i]]
    ensures old(cap.currentCount[i] > cap.lastCorrectCount[i]) ==>
      var d := cap.currentCount[i] - old(cap.lastCorrectCount[i]);
      && cap.totalCount == old(cap.totalCount)[i := old(cap.totalCount[i]) + d]
      && cap.events == old(cap.events)
           + Repeat(EventFor(cap.totalCount, labelNames[i], clock[i], cap.frameCount), d)
      && logList == EmitLog(log, LogLine(clock[i], labelNames[i], cap.camName), d)
    ensures old(cap.currentCount[i] <= cap.lastCorrectCount[i]) ==>
      cap.totalCount == old(cap.totalCount) && cap.events == old(cap.events) && logList == log
  {
    logList := log;
    if cap.currentCount[i] > cap.lastCorrectCount[i] {
      cap.totalCount := cap.totalCount[i := cap.totalCount[i] + cap.currentCount[i] - cap.lastCorrectCount[i]];
      var time := clock[i];
      var detObj := cap.currentCount[i] - cap.lastCorrectCount[i];
      logList := EmitEvents(cap, detObj, labelNames[i], time, logList);
    }
    cap.lastCorrectCount := cap.lastCorrectCount[i := cap.currentCount[i]];
  }

  /** The block for one label (main.cpp:660-713). */
  method DebounceLabel(cap: VideoCap, i: nat, labelNames: seq<string>, clock: seq<WallTime>,
                       log: seq<LogLine>) returns (logList: seq<LogLine>)
    requires cap.Shaped() && i < cap.noLabels && i < |clock|
    requires ConfirmsGrowth(Snapshot(cap, log), i, cap.currentCount) ==> i < |labelNames|
    modifies cap`lastCorrectCount, cap`totalCount, cap`changedCount
    modifies cap`candidateCount, cap`candidateConfidence, cap`events
    ensures cap.Shaped()
    ensures Snapshot(cap, logList)
      == UpdateLabel(old(Snapshot(cap, log)), i, cap.currentCount, labelNames, clock,
                     cap.frameCount, cap.camName)
  {
    logList := log;
    var confirmed := StepStreak(cap, i);
    if confirmed {
      logList := ConfirmLabel(cap, i, labelNames, clock, log);
    }
  }

  /** The per-label block run once per processed frame, label by label; `clock[i]` is the
      wall-clock reading taken when label i confirms growth. */
  method DebounceLabels(cap: VideoCap, labelNames: seq<string>, clock: seq<WallTime>,
                        log: seq<LogLine>) returns (logList: seq<LogLine>)
    requires cap.Shaped() && cap.noLabels <= |clock|
    requires forall i :: 0 <= i < cap.noLabels && ConfirmsGrowth(Snapshot(cap, log), i, cap.currentCount)
               ==> i < |labelNames|
    modifies cap`lastCorrectCount, cap`totalCount, cap`changedCount
    modifies cap`candidateCount, cap`candidateConfidence, cap`events
    ensures cap.Shaped()
    ensures Snapshot(cap, logList)
      == DebounceUpTo(old(Snapshot(cap, log)), cap.noLabels, cap.currentCount, labelNames, clock,
                      cap.frameCount, cap.camName)
  {
    ghost var t0 := Snapshot(cap, log);
    logList := log;
    var i := 0;
    while i < cap.noLabels
      invariant 0 <= i <= cap.noLabels && cap.Shaped()
      invariant Snapshot(cap, logList)
        == DebounceUpTo(t0, i, cap.currentCount, labelNames, clock, cap.frameCount, cap.camName)
    {
      ghost var before := Snapshot(cap, logList);
      assert before.AgreesAt(t0, i);
      assert ConfirmsGrowth(before, i, cap.currentCount) == ConfirmsGrowth(t0, i, cap.currentCount);
      logList := DebounceLabel(cap, i, labelNames, clock, logList);
      i := i + 1;
    }
  }
}
