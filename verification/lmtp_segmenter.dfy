/**
 * LmtpSegmenter: the voice transport's byte splitter. A payload is cut
 * into consecutive segments of `segmentSize` bytes, the last one shorter.
 */
module LmtpSegmenter {
  import opened Chunks

  const DEFAULT_SEGMENT_SIZE: int := 255

  function Min(a: int, b: int): int
  {
    if a <= b then a else b
  }

  /**
   * `fragment(payload)`. An empty payload gives no segments whatever the
   * segment size, since the loop body never runs. A non-empty payload needs
   * a positive segment size: with zero, every turn appends an empty segment
   * until memory runs out; with a negative size `index` moves backwards, and
   * the run ends out of memory or, once `index + segmentSize` wraps, with an
   * index error from `sliceArray`.
   */
  method Fragment(segmentSize: int, payload: seq<bv8>) returns (segments: seq<seq<bv8>>)
    requires segmentSize > 0 || payload == []
    ensures Flatten(segments) == payload
    ensures payload == [] ==> segments == []
    ensures segmentSize > 0 ==> Sized(segments, segmentSize)
    ensures segmentSize > 0 ==> |segments| == CeilDiv(|payload|, segmentSize)
  {
    segments := [];
    var index := 0;
    while index < |payload|
      invariant 0 <= index <= |payload|
      invariant Flatten(segments) == payload[..index]
      invariant index == 0 ==> segments == []
      invariant segmentSize > 0 ==> Sized(segments, segmentSize)
      invariant segments != [] ==> |segments[|segments| - 1]| == segmentSize || index == |payload|
      invariant segmentSize > 0 ==>
        |segments| + CeilDiv(|payload| - index, segmentSize) == CeilDiv(|payload|, segmentSize)
    {
      var end := Min(index + segmentSize, |payload|);
      FlattenSnoc(segments, payload[index..end]);
      SizedSnoc(segments, payload[index..end], segmentSize);
      assert payload[..index] + payload[index..end] == payload[..end];
      segments := segments + [payload[index..end]];
      index := end;
    }
    assert payload[..index] == payload;
  }

  /** A full-sized last segment can be followed by any segment of at most `c` bytes. */
  lemma SizedSnoc(segments: seq<seq<bv8>>, s: seq<bv8>, c: int)
    requires Sized(segments, c) && 0 < |s| <= c
    requires segments != [] ==> |segments[|segments| - 1]| == c
    ensures Sized(segments + [s], c)
  {
    var r := segments + [s];
    forall i | 0 <= i < |r|
      ensures 0 < |r[i]| <= c
    {
      if i < |segments| {
        assert r[i] == segments[i];
      }
    }
  }

  /** `reassemble(fragmented)`: the bytes as a single segment. */
  function Reassemble(fragmented: seq<bv8>): (r: seq<seq<bv8>>)
    ensures |r| == 1 && Flatten(r) == fragmented
  {
    FlattenSnoc([], fragmented);
    [fragmented]
  }

  /**
   * A non-empty payload that fits in one segment: any segmentation with
   * the contract of `Fragment` is what `reassemble` returns for it.
   */
  lemma SmallPayloadOneSegment(segments: seq<seq<bv8>>, segmentSize: int, payload: seq<bv8>)
    requires segmentSize > 0 && 0 < |payload| <= segmentSize
    requires Flatten(segments) == payload && |segments| == CeilDiv(|payload|, segmentSize)
    ensures segments == Reassemble(payload)
  {
    assert segments == [] + [segments[0]];
    FlattenSnoc([], segments[0]);
  }
}
