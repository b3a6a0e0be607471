/** The per-stream state of the intruder detector (application/include/videocap.hpp):
    the detector constants, the event record, and the VideoCap class whose per-label
    vectors the main loop updates in place. */
module Stream {

  /** conf_thresholdValue: a detection counts only when its confidence exceeds this. */
  const THRESHOLD_VALUE: real := 0.55
  /** conf_candidateConfidence: the streak value at which a candidate count is confirmed. */
  const CANDIDATE_CONFIDENCE: int := 4

  /** The wall-clock reading an event carries (the source formats it as HH:MM:SS);
      it is an input of the model. */
  datatype WallTime = WallTime(hour: int, minute: int, second: int)

  /** The `event` record: when, which label, the stream's running total, the frame. */
  datatype Event = Event(time: WallTime, intruder: string, count: int, frame: int)

  datatype Option<T> = None | Some(value: T)

  /** What a capture was opened on: a camera id or a file path. */
  datatype Source = Camera(id: int) | File(path: string)

  /** No element occurs twice. */
  predicate Distinct<T(==)>(s: seq<T>)
  {
    forall j, k :: 0 <= j < k < |s| ==> s[j] != s[k]
  }

  function Sum(s: seq<int>): int
  {
    if s == [] then 0 else Sum(s[..|s| - 1]) + s[|s| - 1]
  }

  predicate AllNonNegative(s: seq<int>)
  {
    forall i :: 0 <= i < |s| ==> s[i] >= 0
  }

  lemma {:induction false} SumNonNegative(s: seq<int>)
    requires AllNonNegative(s)
    ensures Sum(s) >= 0
  {
    if s != [] {
      SumNonNegative(s[..|s| - 1]);
    }
  }

  /** Changing one entry changes the sum by the difference. */
  lemma {:induction false} SumUpdate(s: seq<int>, i: nat, v: int)
    requires i < |s|
    ensures Sum(s[i := v]) == Sum(s) - s[i] + v
  {
    var n := |s| - 1;
    if i < n {
      SumUpdate(s[..n], i, v);
      assert s[i := v][..n] == s[..n][i := v];
    } else {
      assert s[i := v][..n] == s[..n];
    }
  }

  lemma {:induction false} SumZeros(n: nat)
    ensures Sum(seq(n, _ => 0)) == 0
  {
    if n > 0 {
      assert seq(n, _ => 0)[..n - 1] == seq(n - 1, _ => 0);
      SumZeros(n - 1);
    }
  }

  /** The event ledger of one stream agrees with its per-label totals: one event per
      counted intrusion, each event's running total between its own position and the
      ledger's length, totals and frames non-decreasing, frames before `bound`. */
  ghost predicate Ledger(total: seq<int>, events: seq<Event>, bound: int)
  {
    && |events| == Sum(total)
    && (forall k :: 0 <= k < |events| ==> k + 1 <= events[k].count <= |events|)
    && (forall k :: 0 <= k < |events| ==> 0 <= events[k].frame < bound)
    && (forall j, k :: 0 <= j < k < |events| ==>
          events[j].count <= events[k].count && events[j].frame <= events[k].frame)
  }

  /** Decimal rendering of an integer, as `to_string` and `%d` print it. */
  function IntToString(n: int): (s: string)
    ensures |s| > 0
  {
    if n < 0 then "-" + NatToString(-n) else NatToString(n)
  }

  function NatToString(n: nat): (s: string)
    ensures |s| > 0
    ensures forall k :: 0 <= k < |s| ==> '0' <= s[k] <= '9'
    decreases n
  {
    var digit := ['0' + (n % 10) as char];
    if n < 10 then digit else NatToString(n / 10) + digit
  }

  /** Different numbers print differently. */
  lemma {:induction false} NatToStringInjective(a: nat, b: nat)
    requires NatToString(a) == NatToString(b)
    ensures a == b
    decreases a
  {
    var s := NatToString(a);
    assert s[|s| - 1] == '0' + (a % 10) as char;
    assert s[|s| - 1] == '0' + (b % 10) as char;
    if a >= 10 && b >= 10 {
      assert NatToString(a / 10) == s[..|s| - 1] == NatToString(b / 10);
      NatToStringInjective(a / 10, b / 10);
    }
  }

  /** A rendering starts with '-' exactly for a negative number. */
  lemma IntToStringSign(n: int)
    ensures (IntToString(n)[0] == '-') <==> n < 0
  {
    if n >= 0 {
      assert '0' <= NatToString(n)[0] <= '9';
    }
  }

  lemma IntToStringInjective(a: int, b: int)
    requires IntToString(a) == IntToString(b)
    ensures a == b
  {
    var s := IntToString(a);
    IntToStringSign(a);
    IntToStringSign(b);
    if a < 0 && b < 0 {
      assert NatToString(-a) == s[1..] == NatToString(-b);
      NatToStringInjective(-a, -b);
    } else if a >= 0 && b >= 0 {
      NatToStringInjective(a, b);
    }
  }

  /** The file the stream's annotated video is written to. */
  function VideoName(number: int): string
  {
    "../UI/resources/videos/video" + IntToString(number + 1) + ".mp4"
  }

  /** Every stream number gets its own video file, named after the number one higher. */
  lemma VideoNameInjective(a: int, b: int)
    requires VideoName(a) == VideoName(b)
    ensures a == b
  {
    var prefix := "../UI/resources/videos/video";
    var x, y := IntToString(a + 1), IntToString(b + 1);
    assert VideoName(a) == prefix + x + ".mp4" && VideoName(b) == prefix + y + ".mp4";
    assert |x| == |y|;
    assert x == VideoName(a)[|prefix|..|prefix| + |x|];
    assert y == VideoName(b)[|prefix|..|prefix| + |y|];
    IntToStringInjective(a + 1, b + 1);
  }

  class VideoCap {
    const inputVideo: string
    const camName: string
    const videoName: string
    /** What the capture `vc` was opened on. */
    const source: Source
    var isCam: bool

    var noLabels: int
    var lastCorrectCount: seq<int>
    var totalCount: seq<int>
    var currentCount: seq<int>
    var changedCount: seq<bool>
    var candidateCount: seq<int>
    var candidateConfidence: seq<int>
    var labelName: seq<string>
    var events: seq<Event>

    var frameCount: int
    var loopFrames: int

    /** Every per-label vector has one entry per requested label. */
    ghost predicate Shaped()
      reads this
    {
      && noLabels >= 0
      && |lastCorrectCount| == noLabels
      && |totalCount| == noLabels
      && |currentCount| == noLabels
      && |changedCount| == noLabels
      && |candidateCount| == noLabels
      && |candidateConfidence| == noLabels
      && |labelName| == noLabels
    }

    /** The invariant the main loop keeps between frames. */
    ghost predicate Valid()
      reads this
    {
      && Shaped()
      && AllNonNegative(lastCorrectCount)
      && AllNonNegative(totalCount)
      && AllNonNegative(currentCount)
      && (forall i :: 0 <= i < noLabels ==> 0 <= candidateConfidence[i] < CANDIDATE_CONFIDENCE)
      && frameCount >= 0
      && loopFrames >= 0
      && Ledger(totalCount, events, frameCount)
    }

    /** No label vectors yet, no frames, no events. */
    ghost predicate Unconfigured()
      reads this
    {
      && noLabels == 0
      && lastCorrectCount == [] && totalCount == [] && currentCount == []
      && changedCount == [] && candidateCount == [] && candidateConfidence == []
      && labelName == []
      && events == [] && frameCount == 0 && loopFrames == 0
    }

    /** What `init(n)` leaves: n labels, every count zero, no label changed, empty names. */
    ghost predicate Initialized(n: nat)
      reads this
    {
      && noLabels == n
      && lastCorrectCount == seq(n, _ => 0) && totalCount == seq(n, _ => 0)
      && currentCount == seq(n, _ => 0) && candidateCount == seq(n, _ => 0)
      && candidateConfidence == seq(n, _ => 0)
      && changedCount == seq(n, _ => false) && labelName == seq(n, _ => "")
    }

    /** A stream read from a video file. */
    constructor FromPath(inputVideo: string, camName: string, number: int)
      ensures this.inputVideo == inputVideo && this.camName == camName
      ensures source == File(inputVideo) && !isCam
      ensures videoName == VideoName(number)
      ensures Unconfigured() && Valid()
    {
      this.inputVideo := inputVideo;
      this.camName := camName;
      this.videoName := VideoName(number);
      this.source := File(inputVideo);
      isCam := false;
      noLabels := 0;
      lastCorrectCount, totalCount, currentCount := [], [], [];
      changedCount, candidateCount, candidateConfidence := [], [], [];
      labelName, events := [], [];
      frameCount, loopFrames := 0, 0;
    }

    /** A stream read from the camera with the given id. */
    constructor FromCamera(inputVideo: int, camName: string, number: int)
      ensures this.inputVideo == "stream" && this.camName == camName
      ensures source == Camera(inputVideo) && isCam
      ensures videoName == VideoName(number)
      ensures Unconfigured() && Valid()
    {
      this.inputVideo := "stream";
      this.camName := camName;
      this.videoName := VideoName(number);
      this.source := Camera(inputVideo);
      isCam := true;
      noLabels := 0;
      lastCorrectCount, totalCount, currentCount := [], [], [];
      changedCount, candidateCount, candidateConfidence := [], [], [];
      labelName, events := [], [];
      frameCount, loopFrames := 0, 0;
    }

    /** `init(size)`: fresh, zeroed per-label vectors of length `size`; the ledger, the
        frame counters and the stream's identity are left as they are. */
    method Init(size: nat)
      modifies this
      ensures noLabels == size
      ensures lastCorrectCount == seq(size, _ => 0) && totalCount == seq(size, _ => 0)
      ensures currentCount == seq(size, _ => 0) && candidateCount == seq(size, _ => 0)
      ensures candidateConfidence == seq(size, _ => 0)
      ensures changedCount == seq(size, _ => false) && labelName == seq(size, _ => "")
      ensures Initialized(size)
      ensures events == old(events) && frameCount == old(frameCount)
      ensures loopFrames == old(loopFrames) && isCam == old(isCam)
      ensures Valid() <==> events == [] && frameCount >= 0 && loopFrames >= 0
    {
      noLabels := size;
      lastCorrectCount := seq(size, _ => 0);
      totalCount := seq(size, _ => 0);
      currentCount := seq(size, _ => 0);
      changedCount := seq(size, _ => false);
      candidateCount := seq(size, _ => 0);
      candidateConfidence := seq(size, _ => 0);
      labelName := seq(size, _ => "");
      SumZeros(size);
    }
  }
}
