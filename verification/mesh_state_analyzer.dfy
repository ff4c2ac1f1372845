/**
 * Congestion sensing: a window of the last five telemetry samples, averaged
 * into a congestion score in [0, 100], and the step function from score to
 * transmission delay.
 *
 * Float telemetry is modelled with exact reals; the Int fields are averaged
 * with Kotlin's truncating division.
 */
module MeshStateAnalyzer {
  import opened JvmArith

  const WINDOW_SIZE: nat := 5

  datatype MeshTelemetry = MeshTelemetry(
    peerCount: int,
    packetCollisionRate: real,
    noiseFloor: int,
    queuePressure: real)

  /** The window after recording `t`: the eldest sample goes once five are held. */
  function Push(window: seq<MeshTelemetry>, t: MeshTelemetry): (r: seq<MeshTelemetry>)
    ensures |window| <= WINDOW_SIZE ==> |r| <= WINDOW_SIZE
    ensures r != [] && r[|r| - 1] == t
  {
    if |window| == WINDOW_SIZE then window[1..] + [t] else window + [t]
  }

  /** The window after recording `samples` in order into an empty analyzer. */
  function Recorded(samples: seq<MeshTelemetry>): seq<MeshTelemetry>
  {
    if samples == [] then [] else Push(Recorded(samples[..|samples| - 1]), samples[|samples| - 1])
  }

  function Max(a: int, b: int): int { if a >= b then a else b }

  /** The window always holds exactly the last (up to) five samples, oldest first. */
  lemma {:induction false} RecordedIsSuffix(samples: seq<MeshTelemetry>)
    ensures Recorded(samples) == samples[Max(0, |samples| - WINDOW_SIZE)..]
  {
    if samples != [] {
      var init := samples[..|samples| - 1];
      RecordedIsSuffix(init);
      var k := Max(0, |init| - WINDOW_SIZE);
      assert init[k..] + [samples[|samples| - 1]] == samples[k..];
      if |init| >= WINDOW_SIZE {
        assert init[k..][1..] + [samples[|samples| - 1]] == samples[k + 1..];
      }
    }
  }

  function SumPeers(w: seq<MeshTelemetry>): int
  {
    if w == [] then 0 else SumPeers(w[..|w| - 1]) + w[|w| - 1].peerCount
  }

  function SumCollisions(w: seq<MeshTelemetry>): real
  {
    if w == [] then 0.0 else SumCollisions(w[..|w| - 1]) + w[|w| - 1].packetCollisionRate
  }

  function SumNoise(w: seq<MeshTelemetry>): int
  {
    if w == [] then 0 else SumNoise(w[..|w| - 1]) + w[|w| - 1].noiseFloor
  }

  function SumQueue(w: seq<MeshTelemetry>): real
  {
    if w == [] then 0.0 else SumQueue(w[..|w| - 1]) + w[|w| - 1].queuePressure
  }

  /** `movingAverage`: field-wise averages; Int fields round toward zero. */
  function Average(w: seq<MeshTelemetry>): (avg: MeshTelemetry)
    ensures |w| == 1 ==> avg == w[0]
  {
    var count := if |w| < 1 then 1 else |w|;
    assert |w| == 1 ==> (w[..0] == [] && SumPeers(w) == w[0].peerCount && SumNoise(w) == w[0].noiseFloor
                         && SumCollisions(w) == w[0].packetCollisionRate && SumQueue(w) == w[0].queuePressure);
    MeshTelemetry(
      TruncDiv(SumPeers(w), count),
      SumCollisions(w) / count as real,
      TruncDiv(SumNoise(w), count),
      SumQueue(w) / count as real)
  }

  /** Noise from -100 dBm (quiet) to -40 dBm (noisy), scaled to [0, 1]. */
  function SignalBadness(noiseFloor: int): (b: real)
    ensures 0.0 <= b <= 1.0
    ensures -100 <= noiseFloor <= -40 ==> b == (noiseFloor + 100) as real / 60.0
    ensures noiseFloor <= -100 ==> b == 0.0
    ensures noiseFloor >= -40 ==> b == 1.0
  {
    ClampReal((noiseFloor + 100) as real / 60.0, 0.0, 1.0)
  }

  function MinReal(a: real, b: real): real { if a <= b then a else b }

  /** The weighted sum 35 / 20 / 15 / 30 before rounding. */
  function RawScore(avg: MeshTelemetry): real
  {
    avg.packetCollisionRate * 35.0
    + MinReal(avg.peerCount as real / 40.0, 1.0) * 20.0
    + avg.queuePressure * 15.0
    + SignalBadness(avg.noiseFloor) * 30.0
  }

  /** `currentCongestionScore`: 0 for an empty window, otherwise the clamped score. */
  function Score(w: seq<MeshTelemetry>): (score: int)
    ensures 0 <= score <= 100
    ensures w == [] ==> score == 0
  {
    if w == [] then 0 else Clamp(FloatToInt(RawScore(Average(w))), 0, 100)
  }

  /** `delayForScore`: 0 / 500 / 1500 / 3000 / 6000 ms with steps at 20, 40, 60, 80. */
  function DelayForScore(score: int): (d: int)
    ensures d in {0, 500, 1500, 3000, 6000}
    ensures d == 0 <==> score < 20
    ensures d == 6000 <==> score >= 80
  {
    if score < 20 then 0
    else if score < 40 then 500
    else if score < 60 then 1500
    else if score < 80 then 3000
    else 6000
  }

  /** A higher score never gives a shorter delay. */
  lemma DelayMonotone(s1: int, s2: int)
    requires s1 <= s2
    ensures DelayForScore(s1) <= DelayForScore(s2)
  {
  }

  /** One sample {10 peers, 0.5 collisions, -70 dBm, 0.2 queue}: score 40, delay 1500 ms. */
  lemma SingleSampleScenario()
    ensures Score([MeshTelemetry(10, 0.5, -70, 0.2)]) == 40
    ensures DelayForScore(Score([MeshTelemetry(10, 0.5, -70, 0.2)])) == 1500
  {
    var t := MeshTelemetry(10, 0.5, -70, 0.2);
    assert Average([t]) == t;
    assert SignalBadness(-70) == 0.5;
    assert RawScore(t) == 40.5;
    assert FloatToInt(40.5) == 40;
  }

  class MeshStateAnalyzer {
    /** The telemetry window, oldest first. */
    var telemetryWindow: seq<MeshTelemetry>

    ghost predicate Valid()
      reads this
    {
      |telemetryWindow| <= WINDOW_SIZE
    }

    constructor()
      ensures Valid() && telemetryWindow == []
    {
      telemetryWindow := [];
    }

    method RecordTelemetry(telemetry: MeshTelemetry)
      requires Valid()
      modifies this
      ensures Valid()
      ensures telemetryWindow == Push(old(telemetryWindow), telemetry)
    {
      if |telemetryWindow| == WINDOW_SIZE {
        telemetryWindow := telemetryWindow[1..];
      }
      telemetryWindow := telemetryWindow + [telemetry];
    }

    /** One pass over the window summing each field, then the averages. */
    method MovingAverage() returns (avg: MeshTelemetry)
      ensures avg == Average(telemetryWindow)
    {
      var w := telemetryWindow;
      var peerSum, collisionSum, noiseSum, queueSum := 0, 0.0, 0, 0.0;
      var i := 0;
      while i < |w|
        invariant 0 <= i <= |w|
        invariant peerSum == SumPeers(w[..i]) && collisionSum == SumCollisions(w[..i])
        invariant noiseSum == SumNoise(w[..i]) && queueSum == SumQueue(w[..i])
      {
        assert w[..i + 1][..i] == w[..i];
        peerSum := peerSum + w[i].peerCount;
        collisionSum := collisionSum + w[i].packetCollisionRate;
        noiseSum := noiseSum + w[i].noiseFloor;
        queueSum := queueSum + w[i].queuePressure;
        i := i + 1;
      }
      assert w[..i] == w;
      var count := if |w| < 1 then 1 else |w|;
      avg := MeshTelemetry(TruncDiv(peerSum, count), collisionSum / count as real,
                           TruncDiv(noiseSum, count), queueSum / count as real);
    }

    method CurrentCongestionScore() returns (score: int)
      ensures score == Score(telemetryWindow)
      ensures 0 <= score <= 100
    {
      if telemetryWindow == [] {
        return 0;
      }
      var avg := MovingAverage();
      var signalBadness := ClampReal((avg.noiseFloor + 100) as real / 60.0, 0.0, 1.0);
      var raw := avg.packetCollisionRate * 35.0
        + MinReal(avg.peerCount as real / 40.0, 1.0) * 20.0
        + avg.queuePressure * 15.0
        + signalBadness * 30.0;
      score := Clamp(FloatToInt(raw), 0, 100);
    }
  }
}
