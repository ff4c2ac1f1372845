/**
 * Gateway election for inter-cluster traffic. Every evaluation recomputes a
 * confidence score from the recent packet count; a node becomes a gateway
 * once it has been evaluated at least ten times and its confidence reaches
 * the threshold (0.6 under heavy congestion, 0.8 otherwise), and it stays a
 * gateway from then on. Only SOS (0x01) and ASTRA heartbeat (0x02) packets
 * may cross between clusters.
 *
 * The Float confidence is an exact real; the call counter is a 32-bit Int.
 */
module GatewayNodeSelector {
  import opened JvmArith

  const CONGESTION_LIMIT: int := 85
  const CONGESTED_THRESHOLD: real := 0.6
  const NORMAL_THRESHOLD: real := 0.8
  const REQUIRED_EVALUATIONS: int := 10
  const SOS_PACKET: bv8 := 0x01
  const ASTRA_HEARTBEAT_PACKET: bv8 := 0x02

  /** The selector's fields. */
  datatype GatewayState = GatewayState(confidenceScore: real, consistentPacketCount: int, isGatewayActive: bool)

  const INITIAL: GatewayState := GatewayState(0.0, 0, false)

  /** The packets per window a node needs for its confidence to reach the threshold. */
  function RequiredPackets(congestionScore: int): int
  {
    if congestionScore > CONGESTION_LIMIT then 60 else 80
  }

  /** `(recentPackets / 100f).coerceIn(0f, 1f)`. */
  function Confidence(recentPackets: int): (c: real)
    ensures 0.0 <= c <= 1.0
    ensures c >= CONGESTED_THRESHOLD <==> recentPackets >= 60
    ensures c >= NORMAL_THRESHOLD <==> recentPackets >= 80
    ensures 0 <= recentPackets <= 100 ==> c * 100.0 == recentPackets as real
  {
    ClampReal(recentPackets as real / 100.0, 0.0, 1.0)
  }

  /** `evaluateGatewayStatus(recentPackets, congestionScore)`: the new fields. */
  function Evaluate(st: GatewayState, recentPackets: int, congestionScore: int): (r: GatewayState)
    ensures r.confidenceScore == Confidence(recentPackets)
    ensures r.isGatewayActive <==>
      st.isGatewayActive || (st.consistentPacketCount >= REQUIRED_EVALUATIONS && recentPackets >= RequiredPackets(congestionScore))
    ensures st.consistentPacketCount >= REQUIRED_EVALUATIONS && recentPackets >= RequiredPackets(congestionScore) ==>
      r.consistentPacketCount == st.consistentPacketCount
    ensures !(st.consistentPacketCount >= REQUIRED_EVALUATIONS && recentPackets >= RequiredPackets(congestionScore)) ==>
      r.consistentPacketCount == Wrap32(st.consistentPacketCount + 1) && r.isGatewayActive == st.isGatewayActive
  {
    var threshold := if congestionScore > CONGESTION_LIMIT then CONGESTED_THRESHOLD else NORMAL_THRESHOLD;
    var confidence := Confidence(recentPackets);
    if st.consistentPacketCount >= REQUIRED_EVALUATIONS && confidence >= threshold then
      GatewayState(confidence, st.consistentPacketCount, true)
    else
      GatewayState(confidence, Wrap32(st.consistentPacketCount + 1), st.isGatewayActive)
  }

  /** One evaluation's inputs: the recent packet count and the congestion score. */
  datatype Reading = Reading(recentPackets: int, congestionScore: int)

  function Run(st: GatewayState, rs: seq<Reading>): GatewayState
    decreases |rs|
  {
    if rs == [] then st else Run(Evaluate(st, rs[0].recentPackets, rs[0].congestionScore), rs[1..])
  }

  /**
   * The first ten evaluations of a fresh node all refuse, whatever the
   * traffic; each of them counts one.
   */
  lemma {:induction false} NoGatewayBeforeTen(st: GatewayState, rs: seq<Reading>)
    requires !st.isGatewayActive && 0 <= st.consistentPacketCount
    requires st.consistentPacketCount + |rs| <= REQUIRED_EVALUATIONS
    ensures !Run(st, rs).isGatewayActive
    ensures Run(st, rs).consistentPacketCount == st.consistentPacketCount + |rs|
    decreases |rs|
  {
    if rs != [] {
      NoGatewayBeforeTen(Evaluate(st, rs[0].recentPackets, rs[0].congestionScore), rs[1..]);
    }
  }

  /** After those ten, one evaluation with enough traffic elects the node. */
  lemma EleventhCallElects(rs: seq<Reading>, recentPackets: int, congestionScore: int)
    requires |rs| == REQUIRED_EVALUATIONS && recentPackets >= RequiredPackets(congestionScore)
    ensures !Run(INITIAL, rs).isGatewayActive
    ensures Evaluate(Run(INITIAL, rs), recentPackets, congestionScore).isGatewayActive
  {
    NoGatewayBeforeTen(INITIAL, rs);
  }

  /** Once a gateway, always a gateway: no evaluation demotes the node. */
  lemma {:induction false} GatewayIsSticky(st: GatewayState, rs: seq<Reading>)
    requires st.isGatewayActive
    ensures Run(st, rs).isGatewayActive
    decreases |rs|
  {
    if rs != [] {
      GatewayIsSticky(Evaluate(st, rs[0].recentPackets, rs[0].congestionScore), rs[1..]);
    }
  }

  /**
   * The counter is an Int: after 2^31 - 1 refusals it wraps to the most
   * negative value, and the node must then be evaluated about 2^31 more
   * times before it can be elected.
   */
  lemma CounterWraps(recentPackets: int, congestionScore: int)
    requires recentPackets < RequiredPackets(congestionScore)
    ensures Evaluate(GatewayState(0.0, INT_MAX, false), recentPackets, congestionScore).consistentPacketCount == INT_MIN
  {
  }

  /** `isAllowedInterCluster(packetType)`. */
  function IsAllowedInterCluster(packetType: bv8): (allowed: bool)
    ensures allowed <==> packetType in {SOS_PACKET, ASTRA_HEARTBEAT_PACKET}
  {
    packetType == SOS_PACKET || packetType == ASTRA_HEARTBEAT_PACKET
  }

  class GatewayNodeSelector {
    var confidenceScore: real
    var consistentPacketCount: int
    var isGatewayActive: bool

    function State(): GatewayState
      reads this
    {
      GatewayState(confidenceScore, consistentPacketCount, isGatewayActive)
    }

    constructor()
      ensures State() == INITIAL
    {
      confidenceScore := 0.0;
      consistentPacketCount := 0;
      isGatewayActive := false;
    }

    method EvaluateGatewayStatus(recentPackets: int, congestionScore: int) returns (active: bool)
      modifies this
      ensures State() == Evaluate(old(State()), recentPackets, congestionScore)
      ensures active == isGatewayActive
    {
      var threshold := if congestionScore > CONGESTION_LIMIT then CONGESTED_THRESHOLD else NORMAL_THRESHOLD;
      confidenceScore := ClampReal(recentPackets as real / 100.0, 0.0, 1.0);
      if consistentPacketCount >= REQUIRED_EVALUATIONS && confidenceScore >= threshold {
        isGatewayActive := true;
      } else {
        consistentPacketCount := Wrap32(consistentPacketCount + 1);
      }
      return isGatewayActive;
    }
  }
}
