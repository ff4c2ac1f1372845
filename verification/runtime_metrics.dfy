/**
 * The runtime metrics the QoS controller decides on: mode, peers, queue
 * depth, battery and network stability, with the ranges the constructor
 * enforces and the three derived conditions.
 */
module RuntimeMetrics {
  import opened MeshTypes
  import opened Wrappers

  const HIGH_PEER_COUNT_THRESHOLD: int := 20
  const HIGH_QUEUE_DEPTH_THRESHOLD: int := 100
  const CRITICAL_BATTERY_THRESHOLD: int := 20
  const UNSTABLE_NETWORK_THRESHOLD: real := 0.5

  /** The stability score is a Float in the source, modelled exactly. */
  datatype RuntimeMetrics = RuntimeMetrics(
    currentMode: Mode,
    peerCount: int,
    queueDepth: int,
    batteryLevel: int,
    networkStabilityScore: real)

  /** The constructor's `require` checks. */
  predicate WellFormed(m: RuntimeMetrics)
  {
    0 <= m.batteryLevel <= 100 && 0.0 <= m.networkStabilityScore <= 1.0
    && m.peerCount >= 0 && m.queueDepth >= 0
  }

  /** Construction: `None` is the IllegalArgumentException of a failed check. */
  function Make(mode: Mode, peerCount: int, queueDepth: int, batteryLevel: int, stability: real): (r: Option<RuntimeMetrics>)
    ensures r.Some? <==> 0 <= batteryLevel <= 100 && 0.0 <= stability <= 1.0 && peerCount >= 0 && queueDepth >= 0
    ensures r.Some? ==> WellFormed(r.value)
    ensures r.Some? ==> r.value == RuntimeMetrics(mode, peerCount, queueDepth, batteryLevel, stability)
  {
    var m := RuntimeMetrics(mode, peerCount, queueDepth, batteryLevel, stability);
    if WellFormed(m) then Some(m) else None
  }

  /** A battery level of 150 is rejected. */
  lemma BatteryOutOfRangeRejected(mode: Mode, peerCount: int, queueDepth: int, stability: real)
    ensures Make(mode, peerCount, queueDepth, 150, stability).None?
  {
  }

  predicate IsHighLoad(m: RuntimeMetrics)
  {
    m.peerCount > HIGH_PEER_COUNT_THRESHOLD || m.queueDepth > HIGH_QUEUE_DEPTH_THRESHOLD
  }

  predicate IsBatteryCritical(m: RuntimeMetrics)
  {
    m.batteryLevel < CRITICAL_BATTERY_THRESHOLD
  }

  predicate IsNetworkUnstable(m: RuntimeMetrics)
  {
    m.networkStabilityScore < UNSTABLE_NETWORK_THRESHOLD
  }

  /**
   * The three conditions compare strictly: 20 peers, 100 queued messages,
   * 20 % battery and a stability of 0.5 are all still fine, one step past
   * any of them is not.
   */
  lemma ThresholdsAreStrict(mode: Mode)
    ensures !IsHighLoad(RuntimeMetrics(mode, 20, 100, 20, 0.5))
    ensures !IsBatteryCritical(RuntimeMetrics(mode, 20, 100, 20, 0.5))
    ensures !IsNetworkUnstable(RuntimeMetrics(mode, 20, 100, 20, 0.5))
    ensures IsHighLoad(RuntimeMetrics(mode, 21, 0, 100, 1.0))
    ensures IsHighLoad(RuntimeMetrics(mode, 0, 101, 100, 1.0))
    ensures IsBatteryCritical(RuntimeMetrics(mode, 0, 0, 19, 1.0))
    ensures IsNetworkUnstable(RuntimeMetrics(mode, 0, 0, 100, 0.49))
  {
  }

  /**
   * More peers or a deeper queue never clears high load, a lower battery
   * never clears a critical battery, a lower stability score never clears
   * an unstable network; the mode plays no part in any of them.
   */
  lemma ConditionsMonotone(m: RuntimeMetrics, worse: RuntimeMetrics)
    requires worse.peerCount >= m.peerCount && worse.queueDepth >= m.queueDepth
    requires worse.batteryLevel <= m.batteryLevel
    requires worse.networkStabilityScore <= m.networkStabilityScore
    ensures IsHighLoad(m) ==> IsHighLoad(worse)
    ensures IsBatteryCritical(m) ==> IsBatteryCritical(worse)
    ensures IsNetworkUnstable(m) ==> IsNetworkUnstable(worse)
    ensures IsHighLoad(m) == IsHighLoad(m.(currentMode := worse.currentMode))
  {
  }
}
