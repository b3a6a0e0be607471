/** The label filter table built from the model's label file (application/src/main.cpp:172-205):
    which class ids are in use, the dense counter position of each, and the used names. */
module Labels {
  import opened Stream

  /** The label-file lines that were requested, in file order. */
  function Matching(lines: seq<string>, req: seq<string>): (r: seq<string>)
    ensures |r| <= |lines|
    ensures forall k :: 0 <= k < |r| ==> r[k] in req
  {
    if lines == [] then []
    else
      var last := lines[|lines| - 1];
      Matching(lines[..|lines| - 1], req) + (if last in req then [last] else [])
  }

  /** One more line extends the matches by that line when it is requested. */
  lemma MatchingStep(lines: seq<string>, req: seq<string>, k: nat)
    requires k < |lines|
    ensures Matching(lines[..k + 1], req)
      == Matching(lines[..k], req) + (if lines[k] in req then [lines[k]] else [])
  {
    assert lines[..k + 1][..k] == lines[..k];
  }

  /** The matches of a prefix of the file are a prefix of the file's matches. */
  lemma {:induction false} MatchingPrefix(lines: seq<string>, req: seq<string>, k: nat)
    requires k <= |lines|
    ensures Matching(lines[..k], req) <= Matching(lines, req)
    decreases |lines|
  {
    if k < |lines| {
      var front := lines[..|lines| - 1];
      MatchingPrefix(front, req, k);
      assert front[..k] == lines[..k];
    } else {
      assert lines[..k] == lines;
    }
  }

  /** A requested line k gets the dense position "number of requested lines before k",
      and the used names hold line k at that position. */
  lemma DensePosition(lines: seq<string>, req: seq<string>, k: nat)
    requires k < |lines| && lines[k] in req
    ensures var p := |Matching(lines[..k], req)|;
      p < |Matching(lines, req)| && Matching(lines, req)[p] == lines[k]
  {
    MatchingStep(lines, req, k);
    MatchingPrefix(lines, req, k + 1);
  }

  /** Later requested lines get larger positions. */
  lemma PositionsIncrease(lines: seq<string>, req: seq<string>, j: nat, k: nat)
    requires j < k <= |lines| && lines[j] in req
    ensures |Matching(lines[..j], req)| < |Matching(lines[..k], req)|
  {
    var prefix := lines[..k];
    assert prefix[..j] == lines[..j] && prefix[..j + 1] == lines[..j + 1];
    MatchingStep(prefix, req, j);
    MatchingPrefix(prefix, req, j + 1);
  }

  /** getUsedLabels: `labelsFile` is the label file's lines, or None when it cannot be
      opened, in which case all three results are empty. Otherwise one flag and one position
      per line; requested lines get the positions 0, 1, 2, ... in file order and unrequested
      ones position 0; the names are the requested lines in file order, so that
      `labelNames[labelPos[k]]` is line k for every used line k. */
  method GetUsedLabels(reqLabels: seq<string>, labelsFile: Option<seq<string>>)
    returns (usedLabels: seq<bool>, labelPos: seq<int>, labelNames: seq<string>)
    ensures labelsFile == None ==> usedLabels == [] && labelPos == [] && labelNames == []
    ensures labelsFile.Some? ==>
      var lines := labelsFile.value;
      && |usedLabels| == |lines| && |labelPos| == |lines|
      && (forall k :: 0 <= k < |lines| ==> usedLabels[k] == (lines[k] in reqLabels))
      && (forall k :: 0 <= k < |lines| ==>
            labelPos[k] == if usedLabels[k] then |Matching(lines[..k], reqLabels)| else 0)
      && labelNames == Matching(lines, reqLabels)
      && (forall k :: 0 <= k < |lines| && usedLabels[k] ==>
            0 <= labelPos[k] < |labelNames| && labelNames[labelPos[k]] == lines[k])
    ensures usedLabels == [] <==> labelsFile == None || labelsFile.value == []
  {
    usedLabels, labelPos, labelNames := [], [], [];
    if labelsFile == None {
      return;
    }
    var lines := labelsFile.value;
    var i := 0;
    var k := 0;
    while k < |lines|
      invariant 0 <= k <= |lines|
      invariant |usedLabels| == k && |labelPos| == k
      invariant forall j :: 0 <= j < k ==> usedLabels[j] == (lines[j] in reqLabels)
      invariant forall j :: 0 <= j < k ==>
        labelPos[j] == if usedLabels[j] then |Matching(lines[..j], reqLabels)| else 0
      invariant labelNames == Matching(lines[..k], reqLabels) && i == |labelNames|
    {
      var line := lines[k];
      MatchingStep(lines, reqLabels, k);
      if line in reqLabels {
        usedLabels := usedLabels + [true];
        labelPos := labelPos + [i];
        labelNames := labelNames + [line];
        i := i + 1;
      } else {
        usedLabels := usedLabels + [false];
        labelPos := labelPos + [0];
      }
      k := k + 1;
    }
    assert lines[..k] == lines;
    forall j | 0 <= j < |lines| && usedLabels[j]
      ensures 0 <= labelPos[j] < |labelNames| && labelNames[labelPos[j]] == lines[j]
    {
      DensePosition(lines, reqLabels, j);
    }
  }

  lemma {:induction false} DistinctCard<T>(s: seq<T>)
    requires Distinct(s)
    ensures |set x | x in s| == |s|
  {
    if s != [] {
      var front := s[..|s| - 1];
      DistinctCard(front);
      assert (set x | x in s) == (set x | x in front) + {s[|s| - 1]};
      assert s[|s| - 1] !in front;
    }
  }

  lemma {:induction false} CardAtMost<T>(s: seq<T>)
    ensures |set x | x in s| <= |s|
  {
    if s != [] {
      var front := s[..|s| - 1];
      CardAtMost(front);
      assert (set x | x in s) == (set x | x in front) + {s[|s| - 1]};
    }
  }

  /** Distinct lines give distinct matches. */
  lemma {:induction false} MatchingDistinct(lines: seq<string>, req: seq<string>)
    requires Distinct(lines)
    ensures Distinct(Matching(lines, req))
    ensures forall x :: x in Matching(lines, req) ==> x in lines
  {
    if lines != [] {
      var front := lines[..|lines| - 1];
      var last := lines[|lines| - 1];
      assert Distinct(front);
      MatchingDistinct(front, req);
      assert last !in front;
      assert Matching(lines, req) == Matching(front, req) + (if last in req then [last] else []);
    }
  }

  /** With a label file free of duplicate lines, every dense position is below the number
      of requested labels, which is the number of counters `init` gives every stream. */
  lemma PositionsBelowRequested(lines: seq<string>, req: seq<string>, k: nat)
    requires Distinct(lines) && k < |lines| && lines[k] in req
    ensures |Matching(lines[..k], req)| < |req|
  {
    DensePosition(lines, req, k);
    var m := Matching(lines, req);
    MatchingDistinct(lines, req);
    DistinctCard(m);
    CardAtMost(req);
    assert (set x | x in m) <= (set x | x in req);
    SubsetCard(set x | x in m, set x | x in req);
  }

  lemma SubsetCard<T>(a: set<T>, b: set<T>)
    requires a <= b
    ensures |a| <= |b|
  {
    assert b == a + (b - a);
  }

  /** A label file listing a requested label twice gives that label's second line the
      position 1 with only one requested label, past the stream's single counter. */
  lemma DuplicateLineOverflows()
    ensures var lines := ["person", "person"];
      var req := ["person"];
      |Matching(lines[..1], req)| == 1 == |req|
  {
    assert ["person", "person"][..1] == ["person"];
    assert ["person"][..0] == [];
  }

  /** A label file with lines but no requested label passes the "no labels" check, which
      only looks at the flags, yet yields no used names. */
  lemma UnmatchedFilePassesCheck()
    ensures var lines := ["cat"];
      |lines| > 0 && Matching(lines, ["person"]) == []
  {
    assert ["cat"][..0] == [];
  }
}
