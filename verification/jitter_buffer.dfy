/**
 * The voice jitter buffer: packets are held in sequence-number order, late
 * packets (not newer than the last one played) are refused, the buffer is
 * capped at twice its target size by dropping the oldest packet, and playback
 * starts only once the target size has been reached, and starts over when
 * the buffer runs dry.
 *
 * The priority heap is modelled by the sequence of packets it holds; `poll`
 * takes the first packet with the lowest sequence number.
 */
module JitterBuffer {
  import opened MeshTypes
  import opened Wrappers
  import opened JvmArith

  const DEFAULT_CAPACITY_MS: int := 300
  const DEFAULT_FRAME_DURATION_MS: int := 20

  /** `capacityMs / frameDurationMs` on 32-bit Ints. */
  function TargetSize(capacityMs: int, frameDurationMs: int): (t: int)
    requires frameDurationMs != 0
    ensures INT_MIN <= t <= INT_MAX
  {
    Wrap32(TruncDiv(capacityMs, frameDurationMs))
  }

  /** The default buffer holds 15 frames before it plays. */
  lemma DefaultTarget()
    ensures TargetSize(DEFAULT_CAPACITY_MS, DEFAULT_FRAME_DURATION_MS) == 15
  {
  }

  /** The position of the first packet with the lowest sequence number. */
  function Oldest(b: seq<VoicePacket>): (i: nat)
    requires b != []
    ensures i < |b|
    ensures forall j :: 0 <= j < |b| ==> b[i].seqNo <= b[j].seqNo
  {
    if |b| == 1 then 0
    else
      var k := Oldest(b[..|b| - 1]);
      if b[|b| - 1].seqNo < b[k].seqNo then |b| - 1 else k
  }

  function RemoveAt(b: seq<VoicePacket>, i: nat): (r: seq<VoicePacket>)
    requires i < |b|
    ensures |r| == |b| - 1
    ensures multiset(r) == multiset(b) - multiset{b[i]}
    ensures forall p :: p in r ==> p in b
  {
    assert b == b[..i] + [b[i]] + b[i + 1..];
    b[..i] + b[i + 1..]
  }

  /**
   * The heap's comparator `a.seq - b.seq` is a 32-bit subtraction. Every
   * packet admitted has a sequence number in [0, Int.MAX_VALUE], so the
   * difference never wraps and the comparator orders by sequence number.
   */
  lemma ComparatorExact(a: VoicePacket, b: VoicePacket)
    requires 0 <= a.seqNo <= INT_MAX && 0 <= b.seqNo <= INT_MAX
    ensures Wrap32(a.seqNo - b.seqNo) == a.seqNo - b.seqNo
    ensures (Wrap32(a.seqNo - b.seqNo) < 0) <==> a.seqNo < b.seqNo
  {
  }

  function Max(a: int, b: int): int { if a >= b then a else b }

  class JitterBuffer {
    const targetSize: int
    var buffer: seq<VoicePacket>
    var lastSeq: int
    var isBuffering: bool

    /** The overflow bound `targetSize * 2`, a 32-bit product. */
    function Cap(): int
      reads this
    {
      Wrap32(2 * targetSize)
    }

    /**
     * The buffer never exceeds its cap, and every packet held is at least as
     * new as the last one played, with a non-negative Int sequence number.
     */
    ghost predicate Valid()
      reads this
    {
      INT_MIN <= targetSize <= INT_MAX
      && |buffer| <= Max(Cap(), 0)
      && -1 <= lastSeq <= INT_MAX
      && forall p :: p in buffer ==> lastSeq <= p.seqNo && 0 <= p.seqNo <= INT_MAX
    }

    /** A zero frame duration makes the Int division throw. */
    constructor(capacityMs: int, frameDurationMs: int)
      requires frameDurationMs != 0
      ensures Valid() && targetSize == TargetSize(capacityMs, frameDurationMs)
      ensures buffer == [] && lastSeq == -1 && isBuffering
    {
      targetSize := TargetSize(capacityMs, frameDurationMs);
      buffer := [];
      lastSeq := -1;
      isBuffering := true;
    }

    method Push(packet: VoicePacket)
      requires Valid() && INT_MIN <= packet.seqNo <= INT_MAX
      modifies this
      ensures Valid()
      ensures lastSeq == old(lastSeq) && isBuffering == old(isBuffering)
      ensures packet.seqNo <= old(lastSeq) ==> buffer == old(buffer)
      ensures packet.seqNo > old(lastSeq) && |old(buffer)| + 1 <= Cap() ==> buffer == old(buffer) + [packet]
      ensures packet.seqNo > old(lastSeq) && |old(buffer)| + 1 > Cap() ==>
        var grown := old(buffer) + [packet];
        buffer == RemoveAt(grown, Oldest(grown))
    {
      if packet.seqNo > lastSeq {
        buffer := buffer + [packet];
        if |buffer| > Cap() {
          buffer := RemoveAt(buffer, Oldest(buffer));
        }
      }
    }

    /** The next packet to play, or `None` while (re)filling. */
    method Pop() returns (r: Option<VoicePacket>)
      requires Valid()
      modifies this
      ensures Valid()
      ensures old(isBuffering) && |old(buffer)| < targetSize ==> r == None && buffer == old(buffer) && isBuffering
      ensures !old(isBuffering) && old(buffer) == [] ==> r == None && buffer == [] && isBuffering
      ensures r.Some? ==> (old(buffer) != [] && r.value == old(buffer)[Oldest(old(buffer))]
                           && buffer == RemoveAt(old(buffer), Oldest(old(buffer))) && lastSeq == r.value.seqNo)
      ensures r.Some? ==> !isBuffering
      ensures r.Some? ==> r.value.seqNo >= old(lastSeq)
      ensures r.None? ==> lastSeq == old(lastSeq) && buffer == old(buffer)
      ensures old(buffer) != [] && (!old(isBuffering) || |old(buffer)| >= targetSize) ==> r.Some?
      ensures old(isBuffering) && |old(buffer)| >= targetSize ==> !isBuffering
    {
      if isBuffering {
        if |buffer| >= targetSize {
          isBuffering := false;
          r := Poll();
          return;
        }
        return None;
      }
      if buffer == [] {
        isBuffering := true;
        return None;
      }
      r := Poll();
    }

    /** `buffer.poll()?.also { lastSeq = it.seq }`. */
    method Poll() returns (r: Option<VoicePacket>)
      requires Valid()
      modifies this
      ensures Valid() && isBuffering == old(isBuffering)
      ensures old(buffer) == [] ==> r == None && buffer == [] && lastSeq == old(lastSeq)
      ensures old(buffer) != [] ==>
        r == Some(old(buffer)[Oldest(old(buffer))]) && buffer == RemoveAt(old(buffer), Oldest(old(buffer)))
        && lastSeq == r.value.seqNo
    {
      if buffer == [] {
        return None;
      }
      var i := Oldest(buffer);
      var p := buffer[i];
      buffer := RemoveAt(buffer, i);
      lastSeq := p.seqNo;
      return Some(p);
    }
  }

  /** Each packet played is at least as new as the one before it. */
  method PlaysInOrder(jb: JitterBuffer) returns (first: Option<VoicePacket>, second: Option<VoicePacket>)
    requires jb.Valid()
    modifies jb
    ensures first.Some? && second.Some? ==> first.value.seqNo <= second.value.seqNo
  {
    first := jb.Pop();
    second := jb.Pop();
  }

  /** A late packet, one not newer than the last one played, is dropped. */
  method LatePacketDropped(jb: JitterBuffer, played: VoicePacket, late: VoicePacket)
    requires jb.Valid() && jb.lastSeq == played.seqNo && INT_MIN <= late.seqNo <= played.seqNo
    modifies jb
    ensures jb.buffer == old(jb.buffer)
  {
    jb.Push(late);
  }
}
