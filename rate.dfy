/** Frame-rate normalisation across streams and the end of the main loop
    (application/src/main.cpp:253-263, 519-545, 588-597, 759-767): the slowest stream's
    rounded rate, capped at 240, sets the pace; in every turn each stream reads as many
    frames as its own rate holds that pace; a stream whose frame buffer comes back
    empty is marked ended for good, and the loop stops on Esc or once every stream has
    ended. */
module Rate {
  import opened Stream

  /** The rate `get_minFPS` starts from. */
  const MAX_FPS: int := 240

  /** C's `round`: the nearest integer, halves away from zero. */
  function Round(x: real): (r: int)
    ensures x >= 0.0 ==> x - 0.5 < r as real <= x + 0.5
    ensures x < 0.0 ==> x - 0.5 <= r as real < x + 0.5
  {
    if x >= 0.0 then (x + 0.5).Floor else -((0.5 - x).Floor)
  }

  function Abs(n: int): nat
  {
    if n < 0 then -n else n
  }

  lemma DivNonNegative(a: nat, b: int)
    requires b > 0
    ensures a / b >= 0
  {
    assert a == a / b * b + a % b;
  }

  /** C's `/` on `int`: the quotient truncated toward zero. */
  function CDiv(a: int, b: int): int
    requires b != 0
  {
    var q := Abs(a) / Abs(b);
    if (a < 0) == (b < 0) then q else -q
  }

  /** For non-negative operands C's quotient is the floor: the largest q with q * b <= a. */
  lemma CDivFloor(a: int, b: int)
    requires a >= 0 && b > 0
    ensures CDiv(a, b) * b <= a < CDiv(a, b) * b + b
  {
    assert CDiv(a, b) == a / b;
  }

  /** Unlike Dafny's Euclidean `/`, C's quotient is symmetric under negation. */
  lemma CDivNegation(a: int, b: int)
    requires b != 0
    ensures CDiv(-a, b) == -CDiv(a, b)
  {
    assert Abs(-a) == Abs(a);
    if a == 0 {
      assert -a == a;
    } else {
      assert (-a < 0) != (a < 0);
    }
  }

  /** How many times `for (int i = 0; i < round(vfps / minFPS); ++i)` runs: the C quotient
      of two `int`s, rounding an integer changes nothing, and a quotient below one runs
      the loop not at all. */
  function ReadsPerTurn(vfps: int, minFPS: int): nat
    requires minFPS != 0
  {
    var q := CDiv(vfps, minFPS);
    if q > 0 then q else 0
  }

  /** A stream at least as fast as the pace reads at least one frame per turn, and the
      frames it reads per turn times the pace never exceed its rate and fall short of it
      by less than one pace: each stream moves through its video in step with the
      slowest. */
  lemma ReadsKeepPace(vfps: int, minFPS: int)
    requires 0 < minFPS <= vfps
    ensures ReadsPerTurn(vfps, minFPS) >= 1
    ensures ReadsPerTurn(vfps, minFPS) * minFPS <= vfps < ReadsPerTurn(vfps, minFPS) * minFPS + minFPS
  {
    CDivFloor(vfps, minFPS);
  }

  /** A negative pace, which a capture reporting a negative rate yields, makes every
      stream with a positive rate read nothing. */
  lemma NegativePaceReadsNothing(vfps: int, minFPS: int)
    requires minFPS < 0 && vfps > 0
    ensures ReadsPerTurn(vfps, minFPS) == 0
  {
    DivNonNegative(Abs(vfps), Abs(minFPS));
  }

  /** `get_minFPS`: the smallest rounded rate of all streams, but never above 240. */
  method GetMinFps(fps: seq<real>) returns (minFPS: int)
    ensures minFPS <= MAX_FPS
    ensures forall k :: 0 <= k < |fps| ==> minFPS <= Round(fps[k])
    ensures minFPS == MAX_FPS || exists k :: 0 <= k < |fps| && minFPS == Round(fps[k])
  {
    minFPS := MAX_FPS;
    for k := 0 to |fps|
      invariant minFPS <= MAX_FPS
      invariant forall j :: 0 <= j < k ==> minFPS <= Round(fps[j])
      invariant minFPS == MAX_FPS || exists j :: 0 <= j < k && minFPS == Round(fps[j])
    {
      var rounded := Round(fps[k]);
      if rounded < minFPS {
        minFPS := rounded;
      }
    }
  }

  /** Whether the frame buffer holds data after a turn's reads: the last read decides,
      and with no read at all the buffer keeps what it held. */
  function LastRead(outcomes: seq<bool>, held: bool): bool
  {
    if outcomes == [] then held else outcomes[|outcomes| - 1]
  }

  /** The read loop of one stream in one turn. `delivered[j]` says whether the j-th
      `vc.read` of the turn yields a frame and `held` whether the frame buffer, which all
      streams share, held data before; the result is what `frame[mb].data` then tests. */
  method ReadFrames(cap: VideoCap, fps: real, minFPS: int, delivered: seq<bool>, held: bool)
    returns (hasData: bool)
    requires minFPS != 0
    requires ReadsPerTurn(Round(fps), minFPS) <= |delivered|
    modifies cap`loopFrames
    ensures cap.loopFrames == old(cap.loopFrames) + ReadsPerTurn(Round(fps), minFPS)
    ensures hasData == LastRead(delivered[..ReadsPerTurn(Round(fps), minFPS)], held)
    ensures old(cap.Valid()) ==> cap.Valid()
  {
    var vfps := Round(fps);
    var n := ReadsPerTurn(vfps, minFPS);
    hasData := held;
    var i := 0;
    while i < n
      invariant 0 <= i <= n
      invariant cap.loopFrames == old(cap.loopFrames) + i
      invariant hasData == LastRead(delivered[..i], held)
    {
      hasData := delivered[i];
      cap.loopFrames := cap.loopFrames + 1;
      i := i + 1;
    }
  }

  /** The data flag each stream in turn sees: every stream's reads start from the buffer
      the previous stream left. */
  function DataSeen(held: bool, fps: seq<real>, minFPS: int, delivered: seq<seq<bool>>): (r: seq<bool>)
    requires minFPS != 0 && |delivered| == |fps|
    requires forall k :: 0 <= k < |fps| ==> ReadsPerTurn(Round(fps[k]), minFPS) <= |delivered[k]|
    ensures |r| == |fps|
    decreases |fps|
  {
    if fps == [] then []
    else
      var seen := LastRead(delivered[0][..ReadsPerTurn(Round(fps[0]), minFPS)], held);
      [seen] + DataSeen(seen, fps[1..], minFPS, delivered[1..])
  }

  /** With a positive pace no stream sees another's frame: each one's data flag is the
      outcome of its own last read. */
  lemma {:induction false} OwnReadsDecide(held: bool, fps: seq<real>, minFPS: int,
                                          delivered: seq<seq<bool>>)
    requires 0 < minFPS && |delivered| == |fps|
    requires forall k :: 0 <= k < |fps| ==> minFPS <= Round(fps[k])
    requires forall k :: 0 <= k < |fps| ==> ReadsPerTurn(Round(fps[k]), minFPS) <= |delivered[k]|
    ensures forall k :: 0 <= k < |fps| ==>
      && ReadsPerTurn(Round(fps[k]), minFPS) >= 1
      && DataSeen(held, fps, minFPS, delivered)[k]
         == delivered[k][ReadsPerTurn(Round(fps[k]), minFPS) - 1]
    decreases |fps|
  {
    if fps != [] {
      var n := ReadsPerTurn(Round(fps[0]), minFPS);
      ReadsKeepPace(Round(fps[0]), minFPS);
      var seen := LastRead(delivered[0][..n], held);
      assert seen == delivered[0][n - 1];
      assert forall k :: 1 <= k < |fps| ==> fps[1..][k - 1] == fps[k] && delivered[1..][k - 1] == delivered[k];
      OwnReadsDecide(seen, fps[1..], minFPS, delivered[1..]);
      forall k | 0 <= k < |fps|
        ensures ReadsPerTurn(Round(fps[k]), minFPS) >= 1
      {
        ReadsKeepPace(Round(fps[k]), minFPS);
      }
    }
  }

  /** The ended flags after a turn in which stream k's buffer held data or not. */
  function Ended(flags: seq<bool>, hasData: seq<bool>): (r: seq<bool>)
    requires |hasData| == |flags|
    ensures |r| == |flags|
  {
    seq(|flags|, k requires 0 <= k < |flags| => flags[k] || !hasData[k])
  }

  predicate AllEnded(flags: seq<bool>)
  {
    forall k :: 0 <= k < |flags| ==> flags[k]
  }

  /** Flags only go from running to ended: an ended stream stays ended even when a later
      read delivers a frame, and a stream ends exactly when its buffer comes back empty. */
  lemma EndedIsSticky(flags: seq<bool>, hasData: seq<bool>)
    requires |hasData| == |flags|
    ensures forall k :: 0 <= k < |flags| && flags[k] ==> Ended(flags, hasData)[k]
    ensures forall k :: 0 <= k < |flags| && !flags[k] ==> (Ended(flags, hasData)[k] <==> !hasData[k])
    ensures AllEnded(flags) ==> AllEnded(Ended(flags, hasData))
  {
  }

  /** `if (!frame[mb].data) noMoreData[index] = true;` and then `if (noMoreData[index])`:
      the result says whether the stream skips inference this turn. */
  method MarkStream(noMoreData: array<bool>, index: nat, hasData: bool) returns (skip: bool)
    requires index < noMoreData.Length
    modifies noMoreData
    ensures noMoreData[..] == old(noMoreData[..])[index := old(noMoreData[index]) || !hasData]
    ensures skip == noMoreData[index]
  {
    if !hasData {
      noMoreData[index] := true;
    }
    skip := noMoreData[index];
  }

  /** The flag updates of one turn over all streams, `hasData[k]` being what stream k's
      buffer held after its reads. */
  method MarkTurn(noMoreData: array<bool>, hasData: seq<bool>) returns (skipped: seq<bool>)
    requires |hasData| == noMoreData.Length
    modifies noMoreData
    ensures noMoreData[..] == Ended(old(noMoreData[..]), hasData)
    ensures skipped == noMoreData[..]
  {
    ghost var before := noMoreData[..];
    skipped := [];
    var index := 0;
    while index < noMoreData.Length
      invariant 0 <= index <= noMoreData.Length
      invariant |skipped| == index
      invariant forall k :: 0 <= k < index ==> noMoreData[k] == (before[k] || !hasData[k]) && skipped[k] == noMoreData[k]
      invariant forall k :: index <= k < noMoreData.Length ==> noMoreData[k] == before[k]
    {
      var skip := MarkStream(noMoreData, index, hasData[index]);
      skipped := skipped + [skip];
      index := index + 1;
    }
  }

  /** `find(noMoreData.begin(), noMoreData.end(), false)`: the first stream still
      running, or the number of streams when none is. */
  method FirstRunning(noMoreData: array<bool>) returns (k: nat)
    ensures k <= noMoreData.Length
    ensures forall j :: 0 <= j < k ==> noMoreData[j]
    ensures k < noMoreData.Length ==> !noMoreData[k]
  {
    k := 0;
    while k < noMoreData.Length && noMoreData[k]
      invariant k <= noMoreData.Length
      invariant forall j :: 0 <= j < k ==> noMoreData[j]
    {
      k := k + 1;
    }
  }

  /** The end of a turn: Esc stops the loop, and so does every stream having ended. */
  method TurnEnds(noMoreData: array<bool>, esc: bool) returns (stop: bool)
    ensures stop <==> esc || AllEnded(noMoreData[..])
  {
    if esc {
      return true;
    }
    var k := FirstRunning(noMoreData);
    stop := k == noMoreData.Length;
  }
}
