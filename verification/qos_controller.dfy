/**
 * QoS decisions: a priority for each message from its type's QoS tier and
 * the runtime metrics, whether to send it now, and how long to delay it.
 * Daily mode uses static priorities; disaster mode throttles bulk and
 * normal traffic by battery, queue depth and peer count.
 */
module QoSController {
  import opened MeshTypes
  import opened JvmArith
  import opened RuntimeMetrics

  /**
   * `calculateDisasterModePriority`. The normal-tier rules are applied in
   * source order, each overwriting the previous one.
   */
  function DisasterPriority(q: QoSLevel, m: RuntimeMetrics): (p: int)
    ensures 0 <= p <= BasePriority(q)
    ensures q == Critical ==> p == BasePriority(Critical)
  {
    match q
    case Bulk =>
      if IsBatteryCritical(m) then 0
      else if m.queueDepth > HIGH_QUEUE_DEPTH_THRESHOLD then 0
      else if IsHighLoad(m) then 5
      else BasePriority(Bulk)
    case Normal =>
      var p1 := if m.peerCount > HIGH_PEER_COUNT_THRESHOLD then 40 else BasePriority(Normal);
      var p2 := if m.queueDepth > HIGH_QUEUE_DEPTH_THRESHOLD then 30 else p1;
      if IsBatteryCritical(m) then 35 else p2
    case Critical => BasePriority(Critical)
  }

  /** `calculateQoSPriority`. */
  function Priority(t: MessageType, m: RuntimeMetrics): (p: int)
    ensures 0 <= p <= 120
  {
    var q := DefaultQoS(t);
    if q == Critical then (if IsNetworkUnstable(m) then 120 else 100)
    else if m.currentMode == Daily then BasePriority(q)
    else DisasterPriority(q, m)
  }

  /** Critical traffic gets 120 on an unstable network and 100 otherwise, in any mode. */
  lemma CriticalPriority(t: MessageType, m: RuntimeMetrics)
    requires DefaultQoS(t) == Critical
    ensures Priority(t, m) == if m.networkStabilityScore < 0.5 then 120 else 100
  {
  }

  /** Daily mode: non-critical traffic keeps its tier's base priority, 50 or 10. */
  lemma DailyStatic(t: MessageType, m: RuntimeMetrics)
    requires m.currentMode == Daily && DefaultQoS(t) != Critical
    ensures Priority(t, m) == (if DefaultQoS(t) == Normal then 50 else 10)
  {
  }

  /** Disaster-mode bulk traffic: stopped by low battery or a deep queue, then 5 under load, else 10. */
  lemma DisasterBulk(t: MessageType, m: RuntimeMetrics)
    requires m.currentMode == Disaster && DefaultQoS(t) == Bulk
    ensures Priority(t, m) == 0 <==> m.batteryLevel < 20 || m.queueDepth > 100
    ensures Priority(t, m) == 5 <==> m.batteryLevel >= 20 && m.queueDepth <= 100 && m.peerCount > 20
    ensures Priority(t, m) == 10 <==> m.batteryLevel >= 20 && m.queueDepth <= 100 && m.peerCount <= 20
  {
  }

  /**
   * Disaster-mode normal traffic: the later rule wins, so battery beats
   * queue depth, which beats peer count.
   */
  lemma DisasterNormalLaterWins(t: MessageType, m: RuntimeMetrics)
    requires m.currentMode == Disaster && DefaultQoS(t) == Normal
    ensures Priority(t, m) == (if m.batteryLevel < 20 then 35
                               else if m.queueDepth > 100 then 30
                               else if m.peerCount > 20 then 40
                               else 50)
  {
  }

  /** `shouldSendMessage`. */
  function ShouldSend(t: MessageType, m: RuntimeMetrics): (send: bool)
  {
    var priority := Priority(t, m);
    if priority == 0 then false
    else if DefaultQoS(t) == Critical then true
    else if DefaultQoS(t) == Bulk && IsHighLoad(m) then false
    else true
  }

  /** A message is held back exactly when its priority is 0 or it is bulk under high load; critical traffic always goes. */
  lemma ShouldSendIff(t: MessageType, m: RuntimeMetrics)
    ensures !ShouldSend(t, m) <==> Priority(t, m) == 0 || (DefaultQoS(t) == Bulk && IsHighLoad(m))
    ensures DefaultQoS(t) == Critical ==> ShouldSend(t, m)
    ensures DefaultQoS(t) == Normal ==> ShouldSend(t, m)
  {
    if DefaultQoS(t) == Normal {
      assert Priority(t, m) > 0;
    }
  }

  /** `calculateDisasterModeDelay`: 0 / 200 / 500 / 2000 / 5000 ms at priorities 80, 50, 30, 10. */
  function DisasterDelay(priority: int): (d: int)
    ensures d in {0, 200, 500, 2000, 5000}
  {
    if priority >= 80 then 0
    else if priority >= 50 then 200
    else if priority >= 30 then 500
    else if priority >= 10 then 2000
    else 5000
  }

  /** A higher priority never waits longer. */
  lemma DisasterDelayMonotone(p1: int, p2: int)
    requires p1 <= p2
    ensures DisasterDelay(p2) <= DisasterDelay(p1)
  {
  }

  /** `calculateDelay`. */
  function Delay(t: MessageType, m: RuntimeMetrics): (d: int)
    ensures DefaultQoS(t) == Critical ==> d == 0
    ensures DefaultQoS(t) != Critical && Priority(t, m) == 0 ==> d == LONG_MAX
    ensures DefaultQoS(t) != Critical && Priority(t, m) != 0 && m.currentMode == Daily ==>
      d == (if DefaultQoS(t) == Normal then 100 else 1000)
    ensures DefaultQoS(t) != Critical && m.currentMode == Disaster && Priority(t, m) != 0 ==>
      d == DisasterDelay(Priority(t, m))
  {
    var priority := Priority(t, m);
    if DefaultQoS(t) == Critical then 0
    else if priority == 0 then LONG_MAX
    else if m.currentMode == Daily then
      match DefaultQoS(t)
      case Normal => 100
      case Bulk => 1000
      case Critical => 0
    else DisasterDelay(priority)
  }

  /** The unit-test scenarios of the QoS controller. */
  lemma TestScenarios()
    ensures Priority(Sos, RuntimeMetrics(Daily, 5, 10, 80, 0.8)) >= 100
    ensures Priority(Text, RuntimeMetrics(Daily, 50, 200, 10, 0.2)) == 50
    ensures Priority(Text, RuntimeMetrics(Disaster, 25, 50, 80, 0.8)) < 50
    ensures Priority(Log, RuntimeMetrics(Disaster, 5, 10, 15, 0.8)) == 0
    ensures Priority(Sync, RuntimeMetrics(Disaster, 5, 150, 80, 0.8)) == 0
    ensures ShouldSend(Sos, RuntimeMetrics(Disaster, 50, 200, 5, 0.1))
    ensures !ShouldSend(Log, RuntimeMetrics(Disaster, 5, 10, 15, 0.8))
    ensures Delay(Ptt, RuntimeMetrics(Disaster, 5, 10, 80, 0.8)) == 0
    ensures Delay(File, RuntimeMetrics(Disaster, 25, 50, 80, 0.8)) >= 2000
    ensures Priority(Sos, RuntimeMetrics(Disaster, 5, 10, 80, 0.3)) > 100
    ensures Priority(Text, RuntimeMetrics(Disaster, 30, 10, 80, 0.8))
          < Priority(Text, RuntimeMetrics(Disaster, 5, 10, 80, 0.8))
  {
  }
}
