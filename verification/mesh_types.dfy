/**
 * The value types the delivery engine passes around: the message envelope,
 * the message classes and their QoS tiers, the operating mode, voice packets
 * and contacts.
 */
module MeshTypes {
  /** QoS tiers with their base priorities. */
  datatype QoSLevel = Critical | Normal | Bulk

  function BasePriority(q: QoSLevel): int
  {
    match q
    case Critical => 100
    case Normal => 50
    case Bulk => 10
  }

  /** Critical outranks normal, which outranks bulk; every tier is positive. */
  lemma TiersOrdered()
    ensures 0 < BasePriority(Bulk) < BasePriority(Normal) < BasePriority(Critical)
  {
  }

  /** Message classes; each has a default QoS tier. */
  datatype MessageType =
    | Ptt | Sos | System | Heartbeat
    | Text | Location | Notification | Image
    | Log | Sync | File | Telemetry

  function DefaultQoS(t: MessageType): (q: QoSLevel)
    ensures q == Critical <==> t in {Ptt, Sos, System, Heartbeat}
    ensures q == Normal <==> t in {Text, Location, Notification, Image}
    ensures q == Bulk <==> t in {Log, Sync, File, Telemetry}
  {
    match t
    case Ptt | Sos | System | Heartbeat => Critical
    case Text | Location | Notification | Image => Normal
    case Log | Sync | File | Telemetry => Bulk
  }

  /** The node's operating mode. */
  datatype Mode = Daily | Disaster

  /** The target id that addresses every node. */
  const BROADCAST: string := "BROADCAST"

  /**
   * A message in flight. `ttl` is the remaining relay budget and `hopCount`
   * the number of relays so far; both are 32-bit Ints in the source.
   */
  datatype MessageEnvelope = MessageEnvelope(
    id: string,
    senderId: string,
    targetId: string,
    payload: seq<bv8>,
    timestamp: int,
    hopCount: int,
    lastHopNodeId: string,
    ttl: int,
    calculatedPriority: int,
    messageType: MessageType)

  /** An envelope with the source's default values for the optional fields. */
  function NewEnvelope(id: string, senderId: string, targetId: string, payload: seq<bv8>, timestamp: int): (e: MessageEnvelope)
    ensures e.id == id && e.senderId == senderId && e.targetId == targetId
    ensures e.payload == payload && e.timestamp == timestamp
    ensures e.hopCount == 0 && e.lastHopNodeId == "" && e.ttl == 10
    ensures e.calculatedPriority == 0 && e.messageType == Text
  {
    MessageEnvelope(id, senderId, targetId, payload, timestamp, 0, "", 10, 0, Text)
  }

  /** A voice frame with its stream sequence number. */
  datatype VoicePacket = VoicePacket(streamId: string, seqNo: int, ttl: int, hop: int, payload: seq<bv8>)

  /** An address-book entry keyed by device id. */
  datatype LifenetContact = LifenetContact(deviceId: string, displayName: string, lastSeen: int)
}
