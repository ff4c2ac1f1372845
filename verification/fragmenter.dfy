/**
 * LifenetFragmenter: splits a payload into chunks that fit the radio MTU.
 * Each chunk travels with a 17-byte header
 * [messageId(8) | totalChunks(2) | chunkIndex(2) | isFEC(1) | crc32(4)],
 * big-endian as java.nio.ByteBuffer writes it.
 */
module Fragmenter {
  import opened ByteBuffer
  import opened Wrappers
  import opened Chunks
  import Crc32
  import JvmArith

  const HEADER_SIZE: int := 17
  const DEFAULT_MTU: int := 512
  /** Widths of the header fields. */
  const LONG_BYTES: nat := 8
  const SHORT_BYTES: nat := 2

  datatype Fragment = Fragment(header: seq<bv8>, data: seq<bv8>)

  /** The fields of a decoded header, as the receiving side reads them. */
  datatype FragmentHeader = FragmentHeader(messageId: int, totalChunks: int, chunkIndex: int, isFec: bool, checksum: bv32)

  function Min(a: int, b: int): int { if a <= b then a else b }

  /**
   * `Math.ceil(n.toDouble() / c).toInt()` for a payload of n bytes and a chunk
   * capacity c = mtu - 17. Rounding the quotient of two Ints to a Double never
   * carries it across an integer, so the ceiling is the integer one (for c < 0 it is minus the floor of n / |c|);
   * 0.0 / 0 is NaN, which converts to 0.
   */
  function ChunkCount(n: nat, c: int): (k: int)
    requires c != 0 || n == 0
    ensures n == 0 ==> k == 0
    ensures c > 0 ==> k >= 0
    ensures k > 0 ==> c > 0
  {
    if n == 0 then 0
    else if c > 0 then CeilDiv(n, c)
    else 0 - FloorDiv(n, -c)
  }

  function FloorDiv(n: nat, d: nat): nat
    requires d > 0
    decreases n
  {
    if n < d then 0 else 1 + FloorDiv(n - d, d)
  }

  /** With room in a chunk, the count is the ceiling of n / c. */
  lemma ChunkCountIsCeiling(n: nat, c: int)
    requires c > 0
    ensures var k := ChunkCount(n, c); n <= k * c && (k == 0 || (k - 1) * c < n)
    ensures ChunkCount(n, c) == (n + c - 1) / c
  {
    CeilDivIsCeiling(n, c);
  }

  /** The header bytes: `putLong`, two `putShort`s (which keep the low 16 bits), the FEC flag and `putInt(crc)`. */
  function Header(messageId: int, totalChunks: int, index: int, isFec: bool, crc: bv32): (h: seq<bv8>)
    ensures |h| == HEADER_SIZE
  {
    PutBigEndian(messageId, LONG_BYTES) + PutBigEndian(totalChunks, SHORT_BYTES) + PutBigEndian(index, SHORT_BYTES)
      + [if isFec then 1 else 0] + PutWord(crc)
  }

  /** Fragment `index` of `total` carries a non-FEC header with its own CRC-32. */
  predicate HeaderFor(f: Fragment, messageId: int, total: int, index: int, crc32: seq<bv8> -> bv32)
  {
    f.header == Header(messageId, total, index, false, crc32(f.data))
  }

  /** Every fragment of `fs` carries the header for its own position. */
  predicate HeadersFor(fs: seq<Fragment>, messageId: int, total: int, crc32: seq<bv8> -> bv32)
  {
    fs == [] || (HeadersFor(fs[..|fs| - 1], messageId, total, crc32) && HeaderFor(fs[|fs| - 1], messageId, total, |fs| - 1, crc32))
  }

  lemma HeadersForSnoc(fs: seq<Fragment>, f: Fragment, messageId: int, total: int, crc32: seq<bv8> -> bv32)
    requires HeadersFor(fs, messageId, total, crc32) && HeaderFor(f, messageId, total, |fs|, crc32)
    ensures HeadersFor(fs + [f], messageId, total, crc32)
  {
    assert (fs + [f])[..|fs|] == fs;
  }

  lemma {:induction false} HeaderAt(fs: seq<Fragment>, messageId: int, total: int, crc32: seq<bv8> -> bv32, j: nat)
    requires HeadersFor(fs, messageId, total, crc32) && j < |fs|
    ensures HeaderFor(fs[j], messageId, total, j, crc32)
    decreases |fs|
  {
    if j < |fs| - 1 {
      var init := fs[..|fs| - 1];
      HeaderAt(init, messageId, total, crc32, j);
      assert fs[j] == init[j];
    }
  }

  lemma HeadersForEach(fs: seq<Fragment>, messageId: int, total: int, crc32: seq<bv8> -> bv32)
    requires HeadersFor(fs, messageId, total, crc32)
    ensures forall j :: 0 <= j < |fs| ==> HeaderFor(fs[j], messageId, total, j, crc32)
  {
    forall j | 0 <= j < |fs|
      ensures HeaderFor(fs[j], messageId, total, j, crc32)
    {
      HeaderAt(fs, messageId, total, crc32, j);
    }
  }

  /**
   * The receiving side's reading of a header (getLong, getShort, getShort,
   * get == 1, getInt); frames shorter than 17 bytes are ignored.
   */
  function DecodeHeader(frame: seq<bv8>): (r: Option<FragmentHeader>)
    ensures r.Some? <==> |frame| >= HEADER_SIZE
    ensures r.Some? ==> -0x8000 <= r.value.totalChunks < 0x8000 && -0x8000 <= r.value.chunkIndex < 0x8000
  {
    if |frame| < HEADER_SIZE then None
    else Some(FragmentHeader(GetSigned(frame[0..8]), GetSigned(frame[8..10]), GetSigned(frame[10..12]),
                             frame[12] == 1, GetWord(frame[13..17])))
  }

  /**
   * Decoding a header gives back the fields it was written from, each
   * truncated to its width: the id to a Long, the count and index to a Short.
   */
  lemma DecodeEncodeHeader(messageId: int, totalChunks: int, index: int, isFec: bool, crc: bv32)
    ensures DecodeHeader(Header(messageId, totalChunks, index, isFec, crc))
      == Some(FragmentHeader(WrapSigned(messageId, 8), WrapSigned(totalChunks, 2), WrapSigned(index, 2), isFec, crc))
  {
    HeaderLayout(messageId, totalChunks, index, isFec, crc);
    Pow256Values();
    GetSignedPut(messageId, 8);
    GetSignedPut(totalChunks, 2);
    GetSignedPut(index, 2);
    GetPutWord(crc);
  }

  /** Where each field sits in the 17 header bytes. */
  lemma HeaderLayout(messageId: int, totalChunks: int, index: int, isFec: bool, crc: bv32)
    ensures var h := Header(messageId, totalChunks, index, isFec, crc);
      && h[0..8] == PutBigEndian(messageId, 8)
      && h[8..10] == PutBigEndian(totalChunks, 2)
      && h[10..12] == PutBigEndian(index, 2)
      && h[12] == (if isFec then 1 else 0)
      && h[13..17] == PutWord(crc)
  {
    FieldLayout(PutBigEndian(messageId, 8), PutBigEndian(totalChunks, 2), PutBigEndian(index, 2),
                [if isFec then 1 else 0], PutWord(crc));
  }

  /** Five fields of 8, 2, 2, 1 and 4 bytes, laid end to end. */
  lemma FieldLayout(a: seq<bv8>, b: seq<bv8>, c: seq<bv8>, d: seq<bv8>, e: seq<bv8>)
    requires |a| == 8 && |b| == 2 && |c| == 2 && |d| == 1 && |e| == 4
    ensures var h := a + b + c + d + e;
      && h[0..8] == a && h[8..10] == b && h[10..12] == c && h[12] == d[0] && h[13..17] == e
  {
    var abc := a + b + c;
    assert abc[0..8] == a && abc[8..10] == b && abc[10..12] == c;
  }

  /** Chunk counts below 32768 survive the Short in the header unchanged. */
  lemma ShortFieldsExact(messageId: int, totalChunks: int, index: int, crc: bv32)
    requires -0x8000_0000_0000_0000 <= messageId < 0x8000_0000_0000_0000
    requires 0 <= index < totalChunks < 0x8000
    ensures DecodeHeader(Header(messageId, totalChunks, index, false, crc))
      == Some(FragmentHeader(messageId, totalChunks, index, false, crc))
  {
    DecodeEncodeHeader(messageId, totalChunks, index, false, crc);
    Pow256Values();
  }

  /** The data of the fragments, concatenated in order. */
  function Joined(fs: seq<Fragment>): seq<bv8>
  {
    if fs == [] then [] else Joined(fs[..|fs| - 1]) + fs[|fs| - 1].data
  }

  /** The data of each fragment, in order. */
  function DataOf(fs: seq<Fragment>): (r: seq<seq<bv8>>)
    ensures |r| == |fs| && forall j :: 0 <= j < |fs| ==> r[j] == fs[j].data
  {
    seq(|fs|, j requires 0 <= j < |fs| => fs[j].data)
  }

  /** Joining the fragments is concatenating their data, and the data has the fragments' shape. */
  lemma {:induction false} DataOfJoined(fs: seq<Fragment>, c: int)
    ensures Flatten(DataOf(fs)) == Joined(fs)
    ensures SizedChunks(fs, c) ==> Sized(DataOf(fs), c)
    decreases |fs|
  {
    if fs != [] {
      var init := fs[..|fs| - 1];
      DataOfJoined(init, c);
      assert DataOf(fs)[..|fs| - 1] == DataOf(init);
    }
  }

  /** Every chunk is non-empty and at most c bytes long; all but the last are exactly c. */
  predicate SizedChunks(fs: seq<Fragment>, c: int)
  {
    (forall j :: 0 <= j < |fs| ==> 0 < |fs[j].data| <= c)
    && (forall j :: 0 <= j < |fs| - 1 ==> |fs[j].data| == c)
  }

  /**
   * The same shape stated one chunk at a time, as the loop builds it: each
   * chunk fits, and the one before it was full.
   */
  predicate SizedSoFar(fs: seq<Fragment>, c: int)
  {
    fs == [] ||
    (SizedSoFar(fs[..|fs| - 1], c) && 0 < |fs[|fs| - 1].data| <= c && (|fs| >= 2 ==> |fs[|fs| - 2].data| == c))
  }

  lemma SizedSoFarSnoc(fs: seq<Fragment>, f: Fragment, c: int)
    requires SizedSoFar(fs, c) && (fs != [] ==> |fs[|fs| - 1].data| == c) && 0 < |f.data| <= c
    ensures SizedSoFar(fs + [f], c)
  {
    assert (fs + [f])[..|fs|] == fs;
  }

  lemma {:induction false} SizedSoFarChunks(fs: seq<Fragment>, c: int)
    requires SizedSoFar(fs, c)
    ensures SizedChunks(fs, c)
  {
    if fs != [] {
      var init := fs[..|fs| - 1];
      SizedSoFarChunks(init, c);
      assert forall j :: 0 <= j < |init| ==> fs[j] == init[j];
    }
  }

  /** Appending the chunk payload[start..end] extends the covered prefix to `end`. */
  lemma JoinedStep(payload: seq<bv8>, fs: seq<Fragment>, start: int, end: int, f: Fragment)
    requires 0 <= start <= end <= |payload|
    requires Joined(fs) == payload[..start] && f.data == payload[start..end]
    ensures Joined(fs + [f]) == payload[..end]
  {
    assert (fs + [f])[..|fs|] == fs;
    assert payload[..start] + payload[start..end] == payload[..end];
  }

  /** One loop step: the 17-byte header for chunk `index` followed by the chunk. */
  method MakeFragment(messageId: int, total: int, index: int, chunk: seq<bv8>, crc32: seq<bv8> -> bv32) returns (f: Fragment)
    ensures f.data == chunk && |f.header| == HEADER_SIZE
    ensures HeaderFor(f, messageId, total, index, crc32)
  {
    f := Fragment(Header(messageId, total, index, false, crc32(chunk)), chunk);
  }

  /**
   * `fragmentate(messageId, payload)` on a fragmenter built with `mtuSize`.
   * An MTU of exactly 17 leaves no room for data: for a non-empty payload the
   * count is then ceil(n / 0.0).toInt() = Int.MAX_VALUE, and the loop keeps
   * adding empty fragments until the list exhausts the heap. That case is
   * excluded here.
   */
  method Fragmentate(mtuSize: int, messageId: int, payload: seq<bv8>, crc32: seq<bv8> -> bv32) returns (fragments: seq<Fragment>)
    requires mtuSize != HEADER_SIZE || payload == []
    ensures mtuSize > HEADER_SIZE ==> |fragments| == ChunkCount(|payload|, mtuSize - HEADER_SIZE)
    ensures mtuSize <= HEADER_SIZE || payload == [] ==> fragments == []
    ensures mtuSize > HEADER_SIZE ==> Joined(fragments) == payload
    ensures SizedChunks(fragments, mtuSize - HEADER_SIZE)
    ensures HeadersFor(fragments, messageId, |fragments|, crc32)
  {
    var c := mtuSize - HEADER_SIZE;
    var total := ChunkCount(|payload|, c);
    if total <= 0 {
      return [];
    }
    fragments := CutChunks(payload, c, total, messageId, crc32);
  }

  /** The loop of `fragmentate`: chunk i is payload[i*c .. min((i+1)*c, n)] behind its header. */
  method CutChunks(payload: seq<bv8>, c: int, total: int, messageId: int, crc32: seq<bv8> -> bv32) returns (fragments: seq<Fragment>)
    requires c != 0 || payload == []
    requires total == ChunkCount(|payload|, c) > 0
    ensures |fragments| == total && Joined(fragments) == payload
    ensures SizedChunks(fragments, c) && HeadersFor(fragments, messageId, total, crc32)
  {
    fragments := [];
    var i := 0;
    var start := 0;
    ProgressInit(payload, c, total, messageId, crc32);
    while i < total
      invariant |fragments| == i <= total
      invariant Progress(payload, c, total, messageId, fragments, start, crc32)
    {
      fragments, start := CutNext(payload, c, total, messageId, fragments, start, crc32);
      i := i + 1;
    }
    ProgressDone(payload, c, total, messageId, fragments, start, crc32);
  }

  /** One iteration: the next chunk, behind its header, and the start of the one after it. */
  method CutNext(payload: seq<bv8>, c: int, total: int, messageId: int, fs: seq<Fragment>, start: int, crc32: seq<bv8> -> bv32)
    returns (fs': seq<Fragment>, start': int)
    requires Progress(payload, c, total, messageId, fs, start, crc32) && |fs| < total
    ensures Progress(payload, c, total, messageId, fs', start', crc32) && |fs'| == |fs| + 1
  {
    ProgressInside(payload, c, total, messageId, fs, start, crc32);
    var end := Min(start + c, |payload|);
    var chunk := payload[start..end];
    var f := MakeFragment(messageId, total, |fs|, chunk, crc32);
    ProgressStep(payload, c, total, messageId, fs, start, f, crc32);
    fs' := fs + [f];
    start' := start + c;
  }

  /** Rest of the payload not yet cut into chunks. */
  function Rest(n: nat, start: int): nat
  {
    if start < n then n - start else 0
  }

  /** The loop invariant of `Fragmentate` after |fs| chunks, with the next one starting at `start`. */
  predicate Progress(payload: seq<bv8>, c: int, total: int, messageId: int, fs: seq<Fragment>, start: int, crc32: seq<bv8> -> bv32)
  {
    c > 0 && 0 <= start && |fs| <= total
    && CeilDiv(Rest(|payload|, start), c) == total - |fs|
    && Joined(fs) == payload[..Min(start, |payload|)]
    && SizedSoFar(fs, c)
    && (fs != [] ==> |fs[|fs| - 1].data| == c || start >= |payload|)
    && HeadersFor(fs, messageId, total, crc32)
  }

  lemma ProgressInit(payload: seq<bv8>, c: int, total: int, messageId: int, crc32: seq<bv8> -> bv32)
    requires c != 0 || payload == []
    requires total == ChunkCount(|payload|, c) > 0
    ensures Progress(payload, c, total, messageId, [], 0, crc32)
  {
    assert payload[..0] == [];
  }

  lemma ProgressInside(payload: seq<bv8>, c: int, total: int, messageId: int, fs: seq<Fragment>, start: int, crc32: seq<bv8> -> bv32)
    requires Progress(payload, c, total, messageId, fs, start, crc32) && |fs| < total
    ensures 0 <= start < |payload| && c > 0
  {
  }

  lemma ProgressStep(payload: seq<bv8>, c: int, total: int, messageId: int, fs: seq<Fragment>, start: int, f: Fragment, crc32: seq<bv8> -> bv32)
    requires Progress(payload, c, total, messageId, fs, start, crc32) && |fs| < total && start < |payload|
    requires f.data == payload[start..Min(start + c, |payload|)] && HeaderFor(f, messageId, total, |fs|, crc32)
    ensures Progress(payload, c, total, messageId, fs + [f], start + c, crc32)
  {
    var end := Min(start + c, |payload|);
    JoinedStep(payload, fs, start, end, f);
    SizedSoFarSnoc(fs, f, c);
    HeadersForSnoc(fs, f, messageId, total, crc32);
    RestStep(|payload|, start, c);
  }

  lemma RestStep(n: nat, start: int, c: int)
    requires 0 <= start < n && c > 0
    ensures CeilDiv(Rest(n, start), c) == 1 + CeilDiv(Rest(n, start + c), c)
  {
  }

  lemma ProgressDone(payload: seq<bv8>, c: int, total: int, messageId: int, fs: seq<Fragment>, start: int, crc32: seq<bv8> -> bv32)
    requires Progress(payload, c, total, messageId, fs, start, crc32) && |fs| == total
    ensures Joined(fs) == payload
    ensures SizedChunks(fs, c) && HeadersFor(fs, messageId, |fs|, crc32)
  {
    assert Min(start, |payload|) == |payload|;
    SizedSoFarChunks(fs, c);
  }

  /** A 1000-byte payload at the default MTU of 512 gives chunks of 495, 495 and 10 bytes. */
  method DefaultMtuScenario(messageId: int, payload: seq<bv8>, crc32: seq<bv8> -> bv32) returns (fragments: seq<Fragment>)
    requires |payload| == 1000
    ensures |fragments| == 3
    ensures |fragments[0].data| == 495 && |fragments[1].data| == 495 && |fragments[2].data| == 10
  {
    assert CeilDiv(1000, 495) == 3;
    fragments := Fragmentate(DEFAULT_MTU, messageId, payload, crc32);
    var fs := fragments;
    assert fs[..2][..1] == fs[..1] && fs[..1][..0] == [];
    assert Joined(fs[..1]) == fs[0].data;
    assert Joined(fs[..2]) == Joined(fs[..1]) + fs[1].data;
    assert Joined(fs) == Joined(fs[..2]) + fs[2].data;
  }
}
