/** The SSD output parser of the main loop (application/src/main.cpp:619-656): it clears
    the per-label counts of a stream and counts the confident detections of used labels. */
module Detection {
  import opened Stream

  /** Values per detection record: image id, class id (1-based), confidence, box. */
  const RECORD_SIZE: int := 7

  /** C's conversion of a floating value to `int`: truncation toward zero. */
  function TruncToInt(x: real): (r: int)
    ensures x >= 0.0 ==> r as real <= x < r as real + 1.0
    ensures x < 0.0 ==> r as real - 1.0 < x <= r as real
  {
    if x >= 0.0 then x.Floor else -((-x).Floor)
  }

  /** The confidence of record c. */
  function Confidence(tensor: seq<real>, c: nat): real
    requires RECORD_SIZE * c + 2 < |tensor|
  {
    tensor[RECORD_SIZE * c + 2]
  }

  /** The 0-based label-file line of record c: `(int)(localbox[1] - 1)`. */
  function LabelNum(tensor: seq<real>, c: nat): int
    requires RECORD_SIZE * c + 2 < |tensor|
  {
    TruncToInt(tensor[RECORD_SIZE * c + 1] - 1.0)
  }

  /** The first n records exist and every confident one names a label-file line, so
      that `usedLabels[labelnum]` is in range. */
  ghost predicate Decodable(tensor: seq<real>, n: nat, usedLabels: seq<bool>)
  {
    && RECORD_SIZE * n <= |tensor|
    && forall c :: 0 <= c < n && Confidence(tensor, c) > THRESHOLD_VALUE ==>
         0 <= LabelNum(tensor, c) < |usedLabels|
  }

  /** Record c counts: it is confident enough and its label is in use. */
  predicate Accepted(tensor: seq<real>, c: nat, usedLabels: seq<bool>)
    requires RECORD_SIZE * c + 2 < |tensor|
    requires Confidence(tensor, c) > THRESHOLD_VALUE ==> 0 <= LabelNum(tensor, c) < |usedLabels|
  {
    Confidence(tensor, c) > THRESHOLD_VALUE && usedLabels[LabelNum(tensor, c)]
  }

  /** Besides being decodable, every accepted record's dense position is a valid index
      into the stream's `noLabels` counters. */
  ghost predicate Indexable(tensor: seq<real>, n: nat, usedLabels: seq<bool>, labelPos: seq<int>,
                            noLabels: int)
  {
    && Decodable(tensor, n, usedLabels)
    && |labelPos| == |usedLabels|
    && forall c :: 0 <= c < n && Accepted(tensor, c, usedLabels) ==>
         0 <= labelPos[LabelNum(tensor, c)] < noLabels
  }

  /** How many of the first n records are accepted and map to dense position p. */
  function CountFor(tensor: seq<real>, n: nat, usedLabels: seq<bool>, labelPos: seq<int>, p: int): nat
    requires Decodable(tensor, n, usedLabels) && |labelPos| == |usedLabels|
  {
    if n == 0 then 0
    else
      CountFor(tensor, n - 1, usedLabels, labelPos, p)
        + if Accepted(tensor, n - 1, usedLabels) && labelPos[LabelNum(tensor, n - 1)] == p then 1 else 0
  }

  /** How many of the first n records are accepted at all. */
  function AcceptedCount(tensor: seq<real>, n: nat, usedLabels: seq<bool>): nat
    requires Decodable(tensor, n, usedLabels)
  {
    if n == 0 then 0
    else AcceptedCount(tensor, n - 1, usedLabels) + if Accepted(tensor, n - 1, usedLabels) then 1 else 0
  }

  /** The per-label counts of a frame with noLabels labels. */
  function Counts(tensor: seq<real>, n: nat, usedLabels: seq<bool>, labelPos: seq<int>, noLabels: nat): (r: seq<int>)
    requires Decodable(tensor, n, usedLabels) && |labelPos| == |usedLabels|
    ensures |r| == noLabels && AllNonNegative(r)
  {
    seq(noLabels, p => CountFor(tensor, n, usedLabels, labelPos, p))
  }

  lemma DecodablePrefix(tensor: seq<real>, n: nat, m: nat, usedLabels: seq<bool>)
    requires Decodable(tensor, n, usedLabels) && m <= n
    ensures Decodable(tensor, m, usedLabels)
  {
  }

  /** The counts add up to the number of accepted records: no accepted record is lost
      and none is counted twice. */
  lemma {:induction false} CountsAddUp(tensor: seq<real>, n: nat, usedLabels: seq<bool>,
                                       labelPos: seq<int>, noLabels: nat)
    requires Indexable(tensor, n, usedLabels, labelPos, noLabels)
    ensures Sum(Counts(tensor, n, usedLabels, labelPos, noLabels)) == AcceptedCount(tensor, n, usedLabels)
  {
    if n == 0 {
      assert Counts(tensor, 0, usedLabels, labelPos, noLabels) == seq(noLabels, _ => 0);
      SumZeros(noLabels);
    } else {
      DecodablePrefix(tensor, n, n - 1, usedLabels);
      assert Indexable(tensor, n - 1, usedLabels, labelPos, noLabels);
      CountsAddUp(tensor, n - 1, usedLabels, labelPos, noLabels);
      var before := Counts(tensor, n - 1, usedLabels, labelPos, noLabels);
      var after := Counts(tensor, n, usedLabels, labelPos, noLabels);
      if Accepted(tensor, n - 1, usedLabels) {
        var p := labelPos[LabelNum(tensor, n - 1)];
        assert after == before[p := before[p] + 1];
        SumUpdate(before, p, before[p] + 1);
      } else {
        assert after == before;
      }
    }
  }

  /** A position that counts any record is the dense position of a used label, so it lies
      below every bound the table puts on the positions of used labels. */
  lemma {:induction false} CountedPositionIsUsed(tensor: seq<real>, n: nat, usedLabels: seq<bool>,
                                                 labelPos: seq<int>, p: int, bound: int)
    requires Decodable(tensor, n, usedLabels) && |labelPos| == |usedLabels|
    requires forall k :: 0 <= k < |usedLabels| && usedLabels[k] ==> labelPos[k] < bound
    requires CountFor(tensor, n, usedLabels, labelPos, p) > 0
    ensures p < bound
  {
    if !(Accepted(tensor, n - 1, usedLabels) && labelPos[LabelNum(tensor, n - 1)] == p) {
      DecodablePrefix(tensor, n, n - 1, usedLabels);
      CountedPositionIsUsed(tensor, n - 1, usedLabels, labelPos, p, bound);
    }
  }

  /** `currentCount[i] = 0; changedCount[i] = false` for every label. */
  method ResetCounts(cap: VideoCap)
    requires cap.Shaped()
    modifies cap`currentCount, cap`changedCount
    ensures cap.currentCount == seq(cap.noLabels, _ => 0)
    ensures cap.changedCount == seq(cap.noLabels, _ => false)
  {
    var i := 0;
    while i < cap.noLabels
      invariant 0 <= i <= cap.noLabels
      invariant |cap.currentCount| == |cap.changedCount| == cap.noLabels
      invariant forall k :: 0 <= k < i ==> cap.currentCount[k] == 0 && !cap.changedCount[k]
    {
      cap.currentCount := cap.currentCount[i := 0];
      cap.changedCount := cap.changedCount[i := false];
      i := i + 1;
    }
  }

  /** The SSD parse loop over the first `maxProposalCount` records: each accepted record
      adds one to the counter of its label's dense position; other records change nothing. */
  method ParseDetections(cap: VideoCap, tensor: seq<real>, maxProposalCount: int,
                         usedLabels: seq<bool>, labelPos: seq<int>)
    requires cap.Shaped()
    requires Indexable(tensor, if maxProposalCount < 0 then 0 else maxProposalCount,
                       usedLabels, labelPos, cap.noLabels)
    modifies cap`currentCount
    ensures |cap.currentCount| == cap.noLabels
    ensures forall p :: 0 <= p < cap.noLabels ==>
      cap.currentCount[p] == old(cap.currentCount[p])
        + CountFor(tensor, if maxProposalCount < 0 then 0 else maxProposalCount, usedLabels, labelPos, p)
  {
    ghost var n: nat := if maxProposalCount < 0 then 0 else maxProposalCount;
    var c := 0;
    while c < maxProposalCount
      invariant 0 <= c <= n
      invariant Decodable(tensor, c, usedLabels)
      invariant |cap.currentCount| == cap.noLabels
      invariant forall p :: 0 <= p < cap.noLabels ==>
        cap.currentCount[p] == old(cap.currentCount[p]) + CountFor(tensor, c, usedLabels, labelPos, p)
    {
      var confidence := Confidence(tensor, c);
      var labelnum := LabelNum(tensor, c);
      if confidence > THRESHOLD_VALUE && usedLabels[labelnum] {
        var pos := labelPos[labelnum];
        cap.currentCount := cap.currentCount[pos := cap.currentCount[pos] + 1];
      }
      c := c + 1;
    }
  }
}
