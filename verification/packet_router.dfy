/**
 * The binary packet router: parses the 74-byte header of a raw packet,
 * drops replays through a bounded set of seen packet ids, enforces the TTL
 * and hop limits, and decides whether the packet is for this node.
 *
 * Header layout: bytes 0..7 the packet id (big-endian Long), byte 8 the TTL
 * and byte 9 the hop count (signed bytes), bytes 10..41 the source id and
 * bytes 42..73 the target id (32 bytes each), then the payload.
 */
module PacketRouter {
  import opened Wrappers
  import opened JvmArith
  import ByteBuffer

  const HEADER_SIZE: nat := 74
  const TTL_OFFSET: nat := 8
  const HOPS_OFFSET: nat := 9
  const TARGET_OFFSET: nat := 42
  const MAX_HOPS: int := 15
  const CACHE_SIZE_LIMIT: nat := 5000

  datatype RoutingDecision = Consume | Forward | DropDuplicate | DropExpired | DropInvalid

  /** `Char.isWhitespace`: the JVM whitespace and space-separator characters. */
  predicate IsWhitespace(c: char)
  {
    var n := c as int;
    (0x09 <= n <= 0x0D) || (0x1C <= n <= 0x20) || n == 0xA0 || n == 0x1680
    || (0x2000 <= n <= 0x200A) || n == 0x2028 || n == 0x2029 || n == 0x202F
    || n == 0x205F || n == 0x3000
  }

  function TrimStart(s: string): (r: string)
    ensures |r| <= |s| && r == s[|s| - |r|..]
    ensures r == [] || !IsWhitespace(r[0])
    ensures forall i :: 0 <= i < |s| - |r| ==> IsWhitespace(s[i])
  {
    if s != [] && IsWhitespace(s[0]) then TrimStart(s[1..]) else s
  }

  function TrimEnd(s: string): (r: string)
    ensures |r| <= |s| && r == s[..|r|]
    ensures r == [] || !IsWhitespace(r[|r| - 1])
    ensures forall i :: |r| <= i < |s| ==> IsWhitespace(s[i])
  {
    if s != [] && IsWhitespace(s[|s| - 1]) then TrimEnd(s[..|s| - 1]) else s
  }

  /** `String.trim()`: whitespace dropped from both ends. */
  function Trim(s: string): (r: string)
    ensures |r| <= |s|
    ensures r == [] || (!IsWhitespace(r[0]) && !IsWhitespace(r[|r| - 1]))
  {
    TrimEnd(TrimStart(s))
  }

  /**
   * The trimmed string is a slice of the original with only whitespace
   * outside it.
   */
  lemma TrimSlice(s: string)
    ensures exists a, b :: 0 <= a <= b <= |s| && Trim(s) == s[a..b] && Margins(s, a, b)
  {
    var t := TrimStart(s);
    var r := TrimEnd(t);
    var a, b := |s| - |t|, |s| - |t| + |r|;
    assert r == s[a..b];
    assert forall i :: b <= i < |s| ==> s[i] == t[i - a];
    assert Margins(s, a, b);
  }

  ghost predicate Margins(s: string, a: nat, b: nat)
    requires a <= b <= |s|
  {
    (forall i :: 0 <= i < a ==> IsWhitespace(s[i])) && (forall i :: b <= i < |s| ==> IsWhitespace(s[i]))
  }

  /** Trimming an already trimmed string changes nothing. */
  lemma TrimIdempotent(s: string)
    ensures Trim(Trim(s)) == Trim(s)
  {
    var r := Trim(s);
    assert TrimStart(r) == r;
    assert TrimEnd(r) == r;
  }

  /** The packet id: `getLong` at offset 0. */
  function PacketId(raw: seq<bv8>): (id: int)
    requires |raw| >= 8
    ensures -0x8000_0000_0000_0000 <= id < 0x8000_0000_0000_0000
  {
    ByteBuffer.Pow256Values();
    ByteBuffer.GetSigned(raw[..8])
  }

  /** The ttl byte, read as a signed Kotlin Byte. */
  function Ttl(raw: seq<bv8>): (t: int)
    requires |raw| > TTL_OFFSET
    ensures -128 <= t < 128
  {
    SignedByte(raw[TTL_OFFSET])
  }

  /** The hop-count byte, read as a signed Kotlin Byte. */
  function Hops(raw: seq<bv8>): (h: int)
    requires |raw| > HOPS_OFFSET
    ensures -128 <= h < 128
  {
    SignedByte(raw[HOPS_OFFSET])
  }

  predicate Expired(raw: seq<bv8>)
    requires |raw| > HOPS_OFFSET
  {
    Ttl(raw) <= 0 || Hops(raw) >= MAX_HOPS
  }

  /**
   * On the raw bytes: a TTL byte of 0 or with its top bit set (a negative
   * Byte) expires the packet, and so does a hop byte from 15 to 127; a hop
   * byte with its top bit set reads as negative and passes.
   */
  lemma ExpiredBytes(raw: seq<bv8>)
    requires |raw| > HOPS_OFFSET
    ensures Expired(raw) <==>
      raw[TTL_OFFSET] == 0 || raw[TTL_OFFSET] >= 0x80 || 15 <= raw[HOPS_OFFSET] < 0x80
  {
  }

  /**
   * The target field decoded with the platform charset `decode` and trimmed.
   */
  function Target(raw: seq<bv8>, decode: seq<bv8> -> string): string
    requires |raw| >= HEADER_SIZE
  {
    Trim(decode(raw[TARGET_OFFSET..HEADER_SIZE]))
  }

  /** The decoded target has no surrounding whitespace left to trim. */
  lemma TargetTrimmed(raw: seq<bv8>, decode: seq<bv8> -> string)
    requires |raw| >= HEADER_SIZE
    ensures Trim(Target(raw, decode)) == Target(raw, decode)
  {
    TrimIdempotent(decode(raw[TARGET_OFFSET..HEADER_SIZE]));
  }

  /** The seen set after recording a fresh id: flushed first once it is over the limit. */
  function Remember(seen: set<int>, id: int): (r: set<int>)
    ensures id in r
    ensures |seen| <= CACHE_SIZE_LIMIT + 1 ==> |r| <= CACHE_SIZE_LIMIT + 1
    ensures |seen| <= CACHE_SIZE_LIMIT ==> r == seen + {id}
    ensures |seen| > CACHE_SIZE_LIMIT ==> r == {id}
  {
    (if |seen| > CACHE_SIZE_LIMIT then {} else seen) + {id}
  }

  /** The seen set and the decision after one raw packet. */
  function Route(seen: set<int>, raw: seq<bv8>, nodeId: string, decode: seq<bv8> -> string): (r: (set<int>, RoutingDecision))
    ensures r.1 == DropInvalid <==> |raw| < HEADER_SIZE
    ensures |raw| < HEADER_SIZE ==> r.0 == seen
    ensures |raw| >= HEADER_SIZE ==> (r.1 == DropDuplicate <==> PacketId(raw) in seen)
    ensures |raw| >= HEADER_SIZE && PacketId(raw) in seen ==> r.0 == seen
    ensures |raw| >= HEADER_SIZE && PacketId(raw) !in seen ==>
      r.0 == Remember(seen, PacketId(raw))
      && (r.1 == DropExpired <==> Expired(raw))
      && (r.1 == Consume <==> !Expired(raw) && Target(raw, decode) == nodeId)
      && (r.1 == Forward <==> !Expired(raw) && Target(raw, decode) != nodeId)
  {
    if |raw| < HEADER_SIZE then (seen, DropInvalid)
    else
      var id := PacketId(raw);
      if id in seen then (seen, DropDuplicate)
      else
        var recorded := Remember(seen, id);
        if Expired(raw) then (recorded, DropExpired)
        else if Target(raw, decode) == nodeId then (recorded, Consume)
        else (recorded, Forward)
  }

  /** The seen set never holds more than 5001 ids. */
  lemma BoundedSeen(seen: set<int>, raw: seq<bv8>, nodeId: string, decode: seq<bv8> -> string)
    requires |seen| <= CACHE_SIZE_LIMIT + 1
    ensures |Route(seen, raw, nodeId, decode).0| <= CACHE_SIZE_LIMIT + 1
  {
  }

  /**
   * Any well-sized packet, expired ones included, is a duplicate when it
   * arrives a second time straight after.
   */
  lemma ReplayDropped(seen: set<int>, raw: seq<bv8>, nodeId: string, decode: seq<bv8> -> string)
    requires |raw| >= HEADER_SIZE
    ensures Route(Route(seen, raw, nodeId, decode).0, raw, nodeId, decode).1 == DropDuplicate
  {
  }

  /** `prepareForForwarding`: TTL one lower and hop count one higher, as bytes. */
  function Bumped(raw: seq<bv8>): (r: seq<bv8>)
    requires |raw| > HOPS_OFFSET
    ensures |r| == |raw|
    ensures forall i :: 0 <= i < |raw| && i != TTL_OFFSET && i != HOPS_OFFSET ==> r[i] == raw[i]
    ensures r[TTL_OFFSET] == raw[TTL_OFFSET] - 1 && r[HOPS_OFFSET] == raw[HOPS_OFFSET] + 1
  {
    raw[TTL_OFFSET := raw[TTL_OFFSET] - 1][HOPS_OFFSET := raw[HOPS_OFFSET] + 1]
  }

  /** `(b - 1).toByte()`: two's-complement wrap from -128 to 127. */
  lemma ByteDecrement(b: bv8, c: bv8)
    requires c == b - 1
    ensures SignedByte(c) == if SignedByte(b) == -128 then 127 else SignedByte(b) - 1
  {
    assert c as int == if b == 0 then 255 else b as int - 1;
  }

  /** `(b + 1).toByte()`: two's-complement wrap from 127 to -128. */
  lemma ByteIncrement(b: bv8, c: bv8)
    requires c == b + 1
    ensures SignedByte(c) == if SignedByte(b) == 127 then -128 else SignedByte(b) + 1
  {
    assert c as int == if b == 255 then 0 else b as int + 1;
  }

  /**
   * A packet this node forwards leaves with TTL exactly one lower and hop
   * count exactly one higher (no wrap-around), and the same id and target.
   */
  lemma ForwardedHeader(seen: set<int>, raw: seq<bv8>, nodeId: string, decode: seq<bv8> -> string)
    requires Route(seen, raw, nodeId, decode).1 == Forward
    ensures Ttl(Bumped(raw)) == Ttl(raw) - 1 >= 0
    ensures Hops(Bumped(raw)) == Hops(raw) + 1 <= MAX_HOPS
    ensures PacketId(Bumped(raw)) == PacketId(raw)
    ensures Target(Bumped(raw), decode) == Target(raw, decode)
  {
    var b := Bumped(raw);
    ByteDecrement(raw[TTL_OFFSET], b[TTL_OFFSET]);
    ByteIncrement(raw[HOPS_OFFSET], b[HOPS_OFFSET]);
    assert b[..8] == raw[..8];
    assert b[TARGET_OFFSET..HEADER_SIZE] == raw[TARGET_OFFSET..HEADER_SIZE];
  }

  class PacketRouter {
    const nodeId: string
    var seenPackets: set<int>

    ghost predicate Valid()
      reads this
    {
      |seenPackets| <= CACHE_SIZE_LIMIT + 1
    }

    constructor(nodeId: string)
      ensures Valid() && this.nodeId == nodeId && seenPackets == {}
    {
      this.nodeId := nodeId;
      seenPackets := {};
    }

    method OnReceivePacket(rawPacket: array<bv8>, decode: seq<bv8> -> string) returns (d: RoutingDecision)
      requires Valid()
      modifies this
      ensures Valid()
      ensures (seenPackets, d) == Route(old(seenPackets), rawPacket[..], nodeId, decode)
    {
      var raw := rawPacket[..];
      if rawPacket.Length < HEADER_SIZE {
        return DropInvalid;
      }
      var packetId := PacketId(raw);
      if packetId in seenPackets {
        return DropDuplicate;
      }
      if |seenPackets| > CACHE_SIZE_LIMIT {
        seenPackets := {};
      }
      seenPackets := seenPackets + {packetId};
      var ttl := Ttl(raw);
      var hopCount := Hops(raw);
      if ttl <= 0 || hopCount >= MAX_HOPS {
        return DropExpired;
      }
      var targetId := Target(raw, decode);
      if targetId == nodeId {
        return Consume;
      }
      return Forward;
    }

    /**
     * Rewrites the TTL and hop bytes in place and returns the same array;
     * `None` when the buffer is too short to hold them (the buffer throws
     * before writing anything).
     */
    method PrepareForForwarding(rawPacket: array<bv8>) returns (r: Option<array<bv8>>)
      modifies rawPacket
      ensures r.None? <==> rawPacket.Length <= HOPS_OFFSET
      ensures r.None? ==> rawPacket[..] == old(rawPacket[..])
      ensures r.Some? ==> r.value == rawPacket && rawPacket[..] == Bumped(old(rawPacket[..]))
    {
      if rawPacket.Length <= HOPS_OFFSET {
        return None;
      }
      var currentTtl := rawPacket[TTL_OFFSET];
      var currentHops := rawPacket[HOPS_OFFSET];
      rawPacket[TTL_OFFSET] := currentTtl - 1;
      rawPacket[HOPS_OFFSET] := currentHops + 1;
      return Some(rawPacket);
    }
  }
}
