/** The preprocessing copy of the main loop (application/src/main.cpp:562-585): the
    resized frame arrives packed, pixel by pixel with its channels side by side, and the
    network's input buffer wants it planar, one whole channel after another. */
module Planar {

  /** k copies of n added up: the product n * k, written so that the copy loops' indices
      stay linear for the verifier; `ScaleIsProduct` ties it to `*`. */
  function Scale(n: int, k: nat): int
  {
    if k == 0 then 0 else Scale(n, k - 1) + n
  }

  lemma {:induction false} ScaleIsProduct(n: int, k: nat)
    ensures Scale(n, k) == n * k
  {
    if k > 0 {
      ScaleIsProduct(n, k - 1);
    }
  }

  /** Where pixel p's channel c lives in the planar buffer: `idx + ch * channel_size`. */
  function PlanarIndex(p: int, c: nat, channelSize: int): int
  {
    p + Scale(channelSize, c)
  }

  /** Where pixel p's channel c lives in the packed frame: the `imgIdx` counter. */
  function PackedIndex(p: nat, c: int, channels: int): int
  {
    Scale(channels, p) + c
  }

  lemma MulMonotone(a: int, b: int, n: int)
    requires a <= b && 0 <= n
    ensures a * n <= b * n
  {
    assert b * n - a * n == (b - a) * n;
  }

  lemma SmallMultiple(k: int, n: int)
    requires 0 < n && -n < k * n < n
    ensures k == 0
  {
    if k >= 1 {
      MulMonotone(1, k, n);
    } else if k <= -1 {
      MulMonotone(k, -1, n);
    }
  }

  /** A position below n plus whole multiples of n splits back into the two. */
  lemma SplitUnique(p: int, c: int, n: int)
    requires 0 <= p < n && 0 <= c
    ensures (p + c * n) % n == p && (p + c * n) / n == c
  {
    var j := p + c * n;
    var q, r := j / n, j % n;
    assert q * n + r == j;
    assert (q - c) * n == p - r;
    SmallMultiple(q - c, n);
  }

  lemma IndexBelow(p: int, c: int, n: int, m: int)
    requires 0 <= p < n && 0 <= c < m
    ensures p + c * n < n * m
  {
    MulMonotone(c + 1, m, n);
    assert (c + 1) * n == c * n + n;
  }

  lemma QuotientBelow(j: int, n: int, m: int)
    requires 0 <= j < n * m && 0 < n
    ensures j / n < m
  {
    var q := j / n;
    assert q * n + j % n == j;
    if q >= m {
      MulMonotone(m, q, n);
    }
  }

  /** Both layouts index every (pixel, channel) pair inside the buffer. */
  lemma IndicesInRange(p: int, c: int, channelSize: int, channels: int)
    requires 0 <= p < channelSize && 0 <= c < channels
    ensures 0 <= PlanarIndex(p, c, channelSize) < channelSize * channels
    ensures 0 <= PackedIndex(p, c, channels) < channelSize * channels
    ensures PlanarIndex(p, c, channelSize) % channelSize == p
    ensures PlanarIndex(p, c, channelSize) / channelSize == c
    ensures PackedIndex(p, c, channels) % channels == c
    ensures PackedIndex(p, c, channels) / channels == p
  {
    ScaleIsProduct(channelSize, c);
    ScaleIsProduct(channels, p);
    SplitUnique(p, c, channelSize);
    SplitUnique(c, p, channels);
    IndexBelow(p, c, channelSize, channels);
    IndexBelow(c, p, channels, channelSize);
    assert 0 <= c * channelSize && 0 <= p * channels;
  }

  /** The packed value that planar position j holds: pixel j % channelSize, channel
      j / channelSize. */
  function PlanarEntry(packed: seq<int>, j: int, channelSize: nat, channels: nat): int
    requires |packed| == channelSize * channels && 0 <= j < channelSize * channels
  {
    assert channelSize > 0;
    QuotientBelow(j, channelSize, channels);
    IndicesInRange(j % channelSize, j / channelSize, channelSize, channels);
    packed[PackedIndex(j % channelSize, j / channelSize, channels)]
  }

  /** The planar image of a packed frame. */
  function PlanarOf(packed: seq<int>, channelSize: nat, channels: nat): (r: seq<int>)
    requires |packed| == channelSize * channels
    ensures |r| == |packed|
  {
    seq(channelSize * channels, j requires 0 <= j < channelSize * channels =>
      PlanarEntry(packed, j, channelSize, channels))
  }

  /** The planar value that packed position j holds: pixel j / channels, channel
      j % channels. */
  function PackedEntry(planar: seq<int>, j: int, channelSize: nat, channels: nat): int
    requires |planar| == channelSize * channels && 0 <= j < channelSize * channels
  {
    assert channels > 0;
    QuotientBelow(j, channels, channelSize);
    IndicesInRange(j / channels, j % channels, channelSize, channels);
    planar[PlanarIndex(j / channels, j % channels, channelSize)]
  }

  /** The packed frame of a planar image. */
  function PackedOf(planar: seq<int>, channelSize: nat, channels: nat): (r: seq<int>)
    requires |planar| == channelSize * channels
    ensures |r| == |planar|
  {
    seq(channelSize * channels, j requires 0 <= j < channelSize * channels =>
      PackedEntry(planar, j, channelSize, channels))
  }

  /** Pixel p's channel c moves from its packed position to its planar position. */
  lemma PlanarOfAt(packed: seq<int>, p: int, c: int, channelSize: nat, channels: nat)
    requires |packed| == channelSize * channels
    requires 0 <= p < channelSize && 0 <= c < channels
    ensures 0 <= PlanarIndex(p, c, channelSize) < channelSize * channels
    ensures 0 <= PackedIndex(p, c, channels) < channelSize * channels
    ensures PlanarOf(packed, channelSize, channels)[PlanarIndex(p, c, channelSize)]
         == packed[PackedIndex(p, c, channels)]
  {
    IndicesInRange(p, c, channelSize, channels);
  }

  lemma PackedOfAt(planar: seq<int>, p: int, c: int, channelSize: nat, channels: nat)
    requires |planar| == channelSize * channels
    requires 0 <= p < channelSize && 0 <= c < channels
    ensures 0 <= PlanarIndex(p, c, channelSize) < channelSize * channels
    ensures 0 <= PackedIndex(p, c, channels) < channelSize * channels
    ensures PackedOf(planar, channelSize, channels)[PackedIndex(p, c, channels)]
         == planar[PlanarIndex(p, c, channelSize)]
  {
    IndicesInRange(p, c, channelSize, channels);
  }

  /** Converting to planar loses nothing: packing the planar image gives the frame back. */
  lemma PackedOfPlanar(packed: seq<int>, channelSize: nat, channels: nat)
    requires |packed| == channelSize * channels
    ensures PackedOf(PlanarOf(packed, channelSize, channels), channelSize, channels) == packed
  {
    var planar := PlanarOf(packed, channelSize, channels);
    var back := PackedOf(planar, channelSize, channels);
    forall j | 0 <= j < |packed|
      ensures back[j] == packed[j]
    {
      var p, c := j / channels, j % channels;
      QuotientBelow(j, channels, channelSize);
      ScaleIsProduct(channels, p);
      assert j == PackedIndex(p, c, channels);
      PackedOfAt(planar, p, c, channelSize, channels);
      PlanarOfAt(packed, p, c, channelSize, channels);
    }
  }

  /** And every planar image is the planar image of some frame: its packed form. */
  lemma PlanarOfPacked(planar: seq<int>, channelSize: nat, channels: nat)
    requires |planar| == channelSize * channels
    ensures PlanarOf(PackedOf(planar, channelSize, channels), channelSize, channels) == planar
  {
    var packed := PackedOf(planar, channelSize, channels);
    var back := PlanarOf(packed, channelSize, channels);
    forall j | 0 <= j < |planar|
      ensures back[j] == planar[j]
    {
      var p, c := j % channelSize, j / channelSize;
      QuotientBelow(j, channelSize, channels);
      ScaleIsProduct(channelSize, c);
      assert j == PlanarIndex(p, c, channelSize);
      PlanarOfAt(packed, p, c, channelSize, channels);
      PackedOfAt(planar, p, c, channelSize, channels);
    }
  }

  /** Distinct (pixel, channel) pairs have distinct planar positions. */
  lemma PlanarIndexInjective(p: int, c: int, channelSize: nat, channels: nat)
    requires 0 <= p < channelSize && 0 <= c < channels
    ensures forall q, d ::
              (0 <= q < channelSize && 0 <= d < channels
               && PlanarIndex(q, d, channelSize) == PlanarIndex(p, c, channelSize)) ==> q == p && d == c
  {
    forall q, d | 0 <= q < channelSize && 0 <= d < channels
      && PlanarIndex(q, d, channelSize) == PlanarIndex(p, c, channelSize)
      ensures q == p && d == c
    {
      IndicesInRange(p, c, channelSize, channels);
      IndicesInRange(q, d, channelSize, channels);
    }
  }

  /** `buffer` holds pixel p's channel c of `packed` at its planar position. */
  ghost predicate CopiedAt(buffer: seq<int>, packed: seq<int>, p: nat, c: nat,
                           channelSize: nat, channels: nat)
  {
    && 0 <= PlanarIndex(p, c, channelSize) < |buffer|
    && 0 <= PackedIndex(p, c, channels) < |packed|
    && buffer[PlanarIndex(p, c, channelSize)] == packed[PackedIndex(p, c, channels)]
  }

  /** A buffer that holds every pixel's every channel at its planar position holds the
      planar image. */
  lemma PlanarFromPairs(buffer: seq<int>, packed: seq<int>, channelSize: nat, channels: nat)
    requires |packed| == channelSize * channels <= |buffer|
    requires forall p, c :: 0 <= p < channelSize && 0 <= c < channels ==>
      CopiedAt(buffer, packed, p, c, channelSize, channels)
    ensures buffer[..channelSize * channels] == PlanarOf(packed, channelSize, channels)
  {
    var planar := PlanarOf(packed, channelSize, channels);
    forall j | 0 <= j < |planar|
      ensures buffer[j] == planar[j]
    {
      var p, c := j % channelSize, j / channelSize;
      QuotientBelow(j, channelSize, channels);
      ScaleIsProduct(channelSize, c);
      assert j == PlanarIndex(p, c, channelSize);
      assert CopiedAt(buffer, packed, p, c, channelSize, channels);
      PlanarOfAt(packed, p, c, channelSize, channels);
    }
  }

  /** The buffer after the inner loop has written channels 0 .. c-1 of pixel p. */
  function WritePixel(buffer: seq<int>, packed: seq<int>, p: nat, c: nat,
                      channelSize: nat, channels: nat): (r: seq<int>)
    requires |packed| == channelSize * channels <= |buffer| && p < channelSize && c <= channels
    ensures |r| == |buffer|
  {
    if c == 0 then buffer
    else
      IndicesInRange(p, c - 1, channelSize, channels);
      WritePixel(buffer, packed, p, c - 1, channelSize, channels)
        [PlanarIndex(p, c - 1, channelSize) := packed[PackedIndex(p, c - 1, channels)]]
  }

  /** The buffer after the outer loop has copied pixels 0 .. i-1. */
  function WritePixels(buffer: seq<int>, packed: seq<int>, i: nat,
                       channelSize: nat, channels: nat): (r: seq<int>)
    requires |packed| == channelSize * channels <= |buffer| && i <= channelSize
    ensures |r| == |buffer|
  {
    if i == 0 then buffer
    else WritePixel(WritePixels(buffer, packed, i - 1, channelSize, channels), packed, i - 1,
                    channels, channelSize, channels)
  }

  /** Position t, where both buffers have it, is the same in both. */
  ghost predicate KeptAt(buffer: seq<int>, before: seq<int>, t: int)
  {
    0 <= t < |buffer| && t < |before| ==> buffer[t] == before[t]
  }

  /** Writing channels 0 .. c-1 of pixel p puts each of them in place. */
  lemma {:induction false} WritePixelCopies(buffer: seq<int>, packed: seq<int>, p: nat, c: nat,
                                            channelSize: nat, channels: nat)
    requires |packed| == channelSize * channels <= |buffer| && p < channelSize && c <= channels
    ensures forall d :: 0 <= d < c ==>
      CopiedAt(WritePixel(buffer, packed, p, c, channelSize, channels), packed, p, d, channelSize, channels)
  {
    if c > 0 {
      WritePixelCopies(buffer, packed, p, c - 1, channelSize, channels);
      PlanarIndexInjective(p, c - 1, channelSize, channels);
      IndicesInRange(p, c - 1, channelSize, channels);
      var before := WritePixel(buffer, packed, p, c - 1, channelSize, channels);
      forall d | 0 <= d < c - 1
        ensures CopiedAt(WritePixel(buffer, packed, p, c, channelSize, channels), packed, p, d,
                         channelSize, channels)
      {
        assert CopiedAt(before, packed, p, d, channelSize, channels);
      }
    }
  }

  /** Writing channels 0 .. c-1 of pixel p leaves every other pair's planar position alone. */
  lemma {:induction false} WritePixelKeeps(buffer: seq<int>, packed: seq<int>, p: nat, c: nat,
                                           channelSize: nat, channels: nat)
    requires |packed| == channelSize * channels <= |buffer| && p < channelSize && c <= channels
    ensures forall q, d :: 0 <= q < channelSize && 0 <= d < channels && (q != p || c <= d) ==>
      KeptAt(WritePixel(buffer, packed, p, c, channelSize, channels), buffer, PlanarIndex(q, d, channelSize))
  {
    if c > 0 {
      WritePixelKeeps(buffer, packed, p, c - 1, channelSize, channels);
      PlanarIndexInjective(p, c - 1, channelSize, channels);
    }
  }

  /** Writing a pixel leaves everything past the planar image alone. */
  lemma {:induction false} WritePixelKeepsTail(buffer: seq<int>, packed: seq<int>, p: nat, c: nat,
                                               channelSize: nat, channels: nat)
    requires |packed| == channelSize * channels <= |buffer| && p < channelSize && c <= channels
    ensures forall t :: channelSize * channels <= t < |buffer| ==>
      WritePixel(buffer, packed, p, c, channelSize, channels)[t] == buffer[t]
  {
    if c > 0 {
      WritePixelKeepsTail(buffer, packed, p, c - 1, channelSize, channels);
      IndicesInRange(p, c - 1, channelSize, channels);
    }
  }

  /** Copying pixels 0 .. i-1 puts all their channels in place and leaves everything past
      the planar image as it was. */
  lemma {:induction false} WritePixelsEffect(buffer: seq<int>, packed: seq<int>, i: nat,
                                             channelSize: nat, channels: nat)
    requires |packed| == channelSize * channels <= |buffer| && i <= channelSize
    ensures forall q, d :: 0 <= q < i && 0 <= d < channels ==>
      CopiedAt(WritePixels(buffer, packed, i, channelSize, channels), packed, q, d, channelSize, channels)
    ensures forall t :: channelSize * channels <= t < |buffer| ==>
      WritePixels(buffer, packed, i, channelSize, channels)[t] == buffer[t]
  {
    if i > 0 {
      var before := WritePixels(buffer, packed, i - 1, channelSize, channels);
      var after := WritePixels(buffer, packed, i, channelSize, channels);
      WritePixelsEffect(buffer, packed, i - 1, channelSize, channels);
      WritePixelCopies(before, packed, i - 1, channels, channelSize, channels);
      WritePixelKeeps(before, packed, i - 1, channels, channelSize, channels);
      WritePixelKeepsTail(before, packed, i - 1, channels, channelSize, channels);
      forall q, d | 0 <= q < i - 1 && 0 <= d < channels
        ensures CopiedAt(after, packed, q, d, channelSize, channels)
      {
        assert CopiedAt(before, packed, q, d, channelSize, channels);
        assert KeptAt(after, before, PlanarIndex(q, d, channelSize));
      }
    }
  }

  /** The inner loop of the copy: pixel i's channels, read from the packed frame at
      `imgIdx` onwards, written to their planar positions. */
  method CopyPixel(data: array<int>, input: array<int>, i: nat, imgIdx: nat,
                   channelSize: nat, channels: nat) returns (imgIdx': nat)
    requires data != input && i < channelSize && imgIdx == PackedIndex(i, 0, channels)
    requires data.Length == channelSize * channels <= input.Length
    modifies input
    ensures imgIdx' == PackedIndex(i + 1, 0, channels)
    ensures input[..] == WritePixel(old(input[..]), data[..], i, channels, channelSize, channels)
  {
    imgIdx' := imgIdx;
    var ch := 0;
    while ch < channels
      invariant 0 <= ch <= channels && imgIdx' == PackedIndex(i, ch, channels)
      invariant input[..] == WritePixel(old(input[..]), data[..], i, ch, channelSize, channels)
    {
      IndicesInRange(i, ch, channelSize, channels);
      ScaleIsProduct(channelSize, ch);
      input[i + ch * channelSize] := data[imgIdx'];
      ch, imgIdx' := ch + 1, imgIdx' + 1;
    }
  }

  /** The preprocessing step for one frame. `data` is the resized frame with
      `data.Length` bytes (`rows * step1()`), `input` the input buffer with room for
      `channelSize * channels` values. A frame of the wrong size aborts before anything
      is copied; otherwise the first `channelSize * channels` values of `input` become the
      frame's planar image and the rest of the buffer is left alone. */
  method PackedToPlanar(data: array<int>, input: array<int>, channelSize: nat, channels: nat)
    returns (ok: bool)
    requires data != input
    requires channelSize * channels <= input.Length
    modifies input
    ensures ok <==> data.Length == channelSize * channels
    ensures !ok ==> input[..] == old(input[..])
    ensures ok ==> input[..channelSize * channels] == PlanarOf(data[..], channelSize, channels)
    ensures input[channelSize * channels..] == old(input[channelSize * channels..])
  {
    var inputSize := channelSize * channels;
    if data.Length != inputSize {
      return false;
    }
    var i, imgIdx, idx := 0, 0, 0;
    while i < channelSize
      invariant 0 <= i <= channelSize && idx == i && imgIdx == PackedIndex(i, 0, channels)
      invariant input[..] == WritePixels(old(input[..]), data[..], i, channelSize, channels)
    {
      imgIdx := CopyPixel(data, input, idx, imgIdx, channelSize, channels);
      i, idx := i + 1, idx + 1;
    }
    WritePixelsEffect(old(input[..]), data[..], channelSize, channelSize, channels);
    PlanarFromPairs(input[..], data[..], channelSize, channels);
    assert input[inputSize..] == old(input[inputSize..]);
    ok := true;
  }
}
