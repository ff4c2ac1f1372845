/**
 * The single-flight dispatch gate: at most one action is waiting on the
 * dispatch handler at a time; a request that arrives while one is in flight
 * is ignored. With QoS enabled, the delay is the larger of the QoS delay and
 * the congestion delay, computed from runtime metrics synthesized from the
 * congestion score; without QoS, a score of 95 or more skips the dispatch.
 *
 * The handler's queue is modelled by `pending`, the delay of the action that
 * has been posted and not yet run; running it (normally or by throwing)
 * releases the gate.
 */
module DispatchScheduler {
  import opened MeshTypes
  import opened Wrappers
  import opened JvmArith
  import opened RuntimeMetrics
  import opened QoSController
  import Analyzer = MeshStateAnalyzer

  const SKIP_SCORE: int := 95
  const SYNTH_BATTERY_LEVEL: int := 80

  /** What one dispatch request did. */
  datatype Outcome =
    | Ignored              // another dispatch is in flight
    | Dropped              // QoS said not to send; the gate is released
    | Skipped              // no QoS and the mesh is saturated; the gate is released
    | Scheduled(delayMs: int)

  /** `collectRuntimeMetrics`: DAILY, peers score/5, queue score, battery 80, stability (100 - score)/100. */
  function SynthMetrics(score: int): (m: RuntimeMetrics)
    ensures m.currentMode == Daily && m.batteryLevel == SYNTH_BATTERY_LEVEL && m.queueDepth == score
    ensures 0 <= score <= 100 ==> WellFormed(m) && !IsHighLoad(m) && !IsBatteryCritical(m)
  {
    RuntimeMetrics(Daily, TruncDiv(score, 5), score, SYNTH_BATTERY_LEVEL, (100 - score) as real / 100.0)
  }

  function Max(a: int, b: int): int { if a >= b then a else b }

  /** The outcome of a request given the gate, the congestion score and whether QoS is wired in. */
  function Decide(busy: bool, score: int, qosEnabled: bool, t: MessageType): (o: Outcome)
    ensures o == Ignored <==> busy
    ensures o == Dropped ==> qosEnabled && !ShouldSend(t, SynthMetrics(score))
    ensures !busy && !qosEnabled ==> (o == Skipped <==> score >= SKIP_SCORE)
    ensures o.Scheduled? ==> o.delayMs >= Analyzer.DelayForScore(score)
    ensures o.Scheduled? && qosEnabled ==> o.delayMs >= Delay(t, SynthMetrics(score))
    ensures !busy && qosEnabled ==> (o == Dropped <==> !ShouldSend(t, SynthMetrics(score)))
    ensures o.Scheduled? && qosEnabled ==>
              o.delayMs == Max(Delay(t, SynthMetrics(score)), Analyzer.DelayForScore(score))
    ensures o.Scheduled? && !qosEnabled ==> o.delayMs == Analyzer.DelayForScore(score)
  {
    if busy then Ignored
    else if qosEnabled then
      var metrics := SynthMetrics(score);
      if !ShouldSend(t, metrics) then Dropped
      else Scheduled(Max(Delay(t, metrics), Analyzer.DelayForScore(score)))
    else if score >= SKIP_SCORE then Skipped
    else Scheduled(Analyzer.DelayForScore(score))
  }

  /**
   * With a congestion score in range, the synthesized metrics never stop a
   * message: the QoS drop branch cannot be taken, and the delay is the
   * congestion delay raised to 100 ms for normal and 1000 ms for bulk traffic.
   */
  lemma QosNeverDrops(score: int, t: MessageType)
    requires 0 <= score <= 100
    ensures ShouldSend(t, SynthMetrics(score))
    ensures Decide(false, score, true, t)
         == Scheduled(match DefaultQoS(t)
                      case Critical => Analyzer.DelayForScore(score)
                      case Normal => Max(100, Analyzer.DelayForScore(score))
                      case Bulk => Max(1000, Analyzer.DelayForScore(score)))
  {
    var m := SynthMetrics(score);
    assert Priority(t, m) > 0;
  }

  /** Without QoS a dispatch is never delayed by more than 6 s, and a saturated mesh is never dispatched to. */
  lemma FallbackBounds(score: int, t: MessageType)
    ensures Decide(false, score, false, t).Scheduled? ==>
      score < SKIP_SCORE && Decide(false, score, false, t).delayMs <= 6000
  {
  }

  class DispatchScheduler {
    const analyzer: Analyzer.MeshStateAnalyzer
    /** Whether a QoS controller was supplied. */
    const qosEnabled: bool
    var isDispatching: bool
    /** The delay of the posted action that has not run yet. */
    var pending: Option<int>

    /** The gate is held exactly while an action is posted. */
    ghost predicate Valid()
      reads this
    {
      isDispatching <==> pending.Some?
    }

    constructor(analyzer: Analyzer.MeshStateAnalyzer, qosEnabled: bool)
      ensures Valid() && this.analyzer == analyzer && this.qosEnabled == qosEnabled
      ensures !isDispatching
    {
      this.analyzer := analyzer;
      this.qosEnabled := qosEnabled;
      isDispatching := false;
      pending := None;
    }

    /** `requestDispatch(message, action)`. */
    method RequestDispatch(message: MessageEnvelope) returns (o: Outcome)
      requires Valid()
      modifies this
      ensures Valid()
      ensures o == Decide(old(isDispatching), Analyzer.Score(analyzer.telemetryWindow), qosEnabled, message.messageType)
      ensures o == Ignored ==> pending == old(pending)
      ensures o != Ignored ==> pending == (if o.Scheduled? then Some(o.delayMs) else None)
    {
      if isDispatching {
        return Ignored;
      }
      isDispatching := true;
      var score := analyzer.CurrentCongestionScore();
      if qosEnabled {
        var metrics := SynthMetrics(score);
        QosNeverDrops(score, message.messageType);
        if !ShouldSend(message.messageType, metrics) {
          // The source's drop branch: the synthesized metrics never reach it.
          assert false;
        }
        var qosDelay := Delay(message.messageType, metrics);
        var congestionDelay := Analyzer.DelayForScore(score);
        var totalDelay := Max(qosDelay, congestionDelay);
        pending := Some(totalDelay);
        return Scheduled(totalDelay);
      } else {
        if score >= SKIP_SCORE {
          isDispatching := false;
          return Skipped;
        }
        var delayMs := Analyzer.DelayForScore(score);
        pending := Some(delayMs);
        return Scheduled(delayMs);
      }
    }

    /** `requestDispatch(action)`: the path without QoS, whatever was supplied. */
    method RequestDispatchLegacy() returns (o: Outcome)
      requires Valid()
      modifies this
      ensures Valid()
      ensures o == Decide(old(isDispatching), Analyzer.Score(analyzer.telemetryWindow), false, Sos)
      ensures o == Ignored ==> pending == old(pending)
      ensures o != Ignored ==> pending == (if o.Scheduled? then Some(o.delayMs) else None)
    {
      if isDispatching {
        return Ignored;
      }
      isDispatching := true;
      var score := analyzer.CurrentCongestionScore();
      if score >= SKIP_SCORE {
        isDispatching := false;
        return Skipped;
      }
      var delayMs := Analyzer.DelayForScore(score);
      pending := Some(delayMs);
      return Scheduled(delayMs);
    }

    /**
     * The handler runs the posted action; `threw` says whether the action
     * threw. Either way the `finally` block releases the gate.
     */
    method RunPosted(threw: bool)
      requires Valid() && pending.Some?
      modifies this
      ensures Valid() && !isDispatching && pending == None
    {
      pending := None;
      isDispatching := false;
    }
  }

  /** While an action is posted, every further request is ignored and nothing changes. */
  method RequestWhileInFlight(s: DispatchScheduler, message: MessageEnvelope) returns (o: Outcome)
    requires s.Valid() && s.pending.Some?
    modifies s
    ensures o == Ignored && s.pending == old(s.pending) && s.isDispatching
  {
    o := s.RequestDispatch(message);
  }

  /** After the posted action runs, even one that throws, the next request is not ignored. */
  method ReleasedAfterAction(s: DispatchScheduler, message: MessageEnvelope) returns (o: Outcome)
    requires s.Valid() && s.pending.Some?
    modifies s
    ensures o != Ignored
  {
    s.RunPosted(true);
    o := s.RequestDispatch(message);
  }
}
