/**
 * Predictive routing: each peer's recent heartbeat latencies are kept in a
 * window of at most ten samples; the mean absolute change between
 * consecutive samples (the jitter) marks a peer toxic when it exceeds
 * 150 ms, and a toxic peer recovers only once its jitter falls below 75 ms.
 *
 * The jitter, a Double in the source, is an exact real here.
 */
module PredictiveRouting {
  import opened JvmArith

  const HISTORY_SIZE: nat := 10
  const MIN_SAMPLES: nat := 5
  const JITTER_THRESHOLD_MS: int := 150
  /** `JITTER_THRESHOLD_MS / 2` on Longs. */
  const RECOVERY_THRESHOLD_MS: int := 75

  /** The sum of the absolute differences between consecutive samples. */
  function SumAbsDiffs(h: seq<int>): (r: int)
    ensures r >= 0
    decreases |h|
  {
    if |h| < 2 then 0
    else SumAbsDiffs(h[..|h| - 1]) + Abs(h[|h| - 1] - h[|h| - 2])
  }

  /** `calculateJitter`: the mean absolute change between consecutive samples. */
  function Jitter(h: seq<int>): (j: real)
    requires |h| >= 2
    ensures j >= 0.0
  {
    SumAbsDiffs(h) as real / (|h| - 1) as real
  }

  /** The last `n` samples of `s`, or all of them when there are fewer. */
  function LastN(s: seq<int>, n: nat): (r: seq<int>)
    ensures |r| <= n && |r| <= |s|
    ensures r == s[|s| - |r|..]
    ensures |s| >= n ==> |r| == n
  {
    if |s| <= n then s else s[|s| - n..]
  }

  /** The window after one `recordLatency`: the sample appended, the oldest dropped past ten. */
  function Appended(h: seq<int>, latency: int): (r: seq<int>)
    ensures |h| <= HISTORY_SIZE ==> r == LastN(h + [latency], HISTORY_SIZE)
  {
    var grown := h + [latency];
    if |grown| > HISTORY_SIZE then grown[1..] else grown
  }

  /** `analyzeNodeHealth`: whether the peer is toxic afterwards. */
  function Verdict(wasToxic: bool, h: seq<int>): (toxic: bool)
    ensures |h| < MIN_SAMPLES ==> toxic == wasToxic
    ensures |h| >= MIN_SAMPLES ==>
      (toxic <==> (Jitter(h) > JITTER_THRESHOLD_MS as real || (wasToxic && Jitter(h) >= RECOVERY_THRESHOLD_MS as real)))
  {
    if |h| < MIN_SAMPLES then wasToxic
    else
      var jitter := Jitter(h);
      if jitter > JITTER_THRESHOLD_MS as real then true
      else if wasToxic && jitter < RECOVERY_THRESHOLD_MS as real then false
      else wasToxic
  }

  /**
   * Hysteresis: with a jitter between 75 and 150 ms the verdict stays what it
   * was, in both directions.
   */
  lemma Hysteresis(wasToxic: bool, h: seq<int>)
    requires |h| >= MIN_SAMPLES
    requires RECOVERY_THRESHOLD_MS as real <= Jitter(h) <= JITTER_THRESHOLD_MS as real
    ensures Verdict(wasToxic, h) == wasToxic
  {
  }

  /** Dropping the oldest samples and then more of them is the same as dropping them at once. */
  lemma {:induction false} LastNAppend(a: seq<int>, b: seq<int>, n: nat)
    ensures LastN(LastN(a, n) + b, n) == LastN(a + b, n)
  {
    var la := LastN(a, n);
    assert a == a[..|a| - |la|] + la;
    assert a + b == a[..|a| - |la|] + (la + b);
    var l := LastN(la + b, n);
    var r := LastN(a + b, n);
    if |la + b| >= n {
      assert |l| == n && |r| == n;
      forall i | 0 <= i < n
        ensures l[i] == r[i]
      {
        assert l[i] == (la + b)[|la + b| - n + i];
        assert r[i] == (a + b)[|a + b| - n + i];
      }
    } else {
      assert |la| < n;
      assert la == a;
    }
  }

  lemma SnocThenAppend(h: seq<int>, x: int, t: seq<int>)
    ensures h + [x] + t == h + ([x] + t)
  {
  }

  /** The window after recording one sample after another. */
  function Recorded(h: seq<int>, latencies: seq<int>): seq<int>
    decreases |latencies|
  {
    if latencies == [] then h else Recorded(Appended(h, latencies[0]), latencies[1..])
  }

  /** The window always holds exactly the last ten samples recorded (fewer at the start). */
  lemma {:induction false} WindowIsLastTen(h: seq<int>, latencies: seq<int>)
    requires |h| <= HISTORY_SIZE
    ensures Recorded(h, latencies) == LastN(h + latencies, HISTORY_SIZE)
    decreases |latencies|
  {
    if latencies == [] {
      assert h + latencies == h;
    } else {
      var x, t := latencies[0], latencies[1..];
      WindowIsLastTen(Appended(h, x), t);
      LastNAppend(h + [x], t, HISTORY_SIZE);
      SnocThenAppend(h, x, t);
      assert [x] + t == latencies;
    }
  }

  /** When no change between samples exceeds `d`, the sum of the changes is at most `d` per step. */
  lemma {:induction false} SumBound(h: seq<int>, d: int)
    requires |h| >= 1
    requires forall i :: 1 <= i < |h| ==> Abs(h[i] - h[i - 1]) <= d
    ensures SumAbsDiffs(h) <= d * (|h| - 1)
    decreases |h|
  {
    if |h| >= 2 {
      var p := h[..|h| - 1];
      forall i | 1 <= i < |p|
        ensures Abs(p[i] - p[i - 1]) <= d
      {
        assert p[i] == h[i] && p[i - 1] == h[i - 1];
      }
      SumBound(p, d);
      assert Abs(h[|h| - 1] - h[|h| - 2]) <= d;
      MulStep(d, |p| - 1);
    }
  }

  /** Converting a product of integers to a real is the product of the conversions. */
  lemma {:induction false} ProductAsReal(a: int, b: nat)
    ensures (a * b) as real == a as real * b as real
  {
    if b > 0 {
      ProductAsReal(a, b - 1);
      assert a * b == a * (b - 1) + a;
    }
  }

  /** A mean is at most `d` when the total is at most `d` per item. */
  lemma MeanBound(total: int, n: int, d: int)
    requires n > 0 && total <= d * n
    ensures total as real / n as real <= d as real
  {
    ProductAsReal(d, n);
    var q := total as real / n as real;
    assert q * n as real == total as real;
    if q > d as real {
      assert (q - d as real) * n as real > 0.0;
    }
  }

  lemma MulStep(d: int, m: int)
    ensures d * (m + 1) == d * m + d
  {
  }

  /** The jitter never exceeds the largest change between consecutive samples. */
  lemma JitterBound(h: seq<int>, d: int)
    requires |h| >= 2
    requires forall i :: 1 <= i < |h| ==> Abs(h[i] - h[i - 1]) <= d
    ensures Jitter(h) <= d as real
  {
    SumBound(h, d);
    MeanBound(SumAbsDiffs(h), |h| - 1, d);
  }

  /** A peer whose latency never moves by more than 75 ms at a time is never newly marked toxic. */
  lemma SteadyPeerNotMarked(h: seq<int>)
    requires |h| >= MIN_SAMPLES
    requires forall i :: 1 <= i < |h| ==> Abs(h[i] - h[i - 1]) <= RECOVERY_THRESHOLD_MS
    ensures !Verdict(false, h)
  {
    JitterBound(h, RECOVERY_THRESHOLD_MS);
  }

  class PredictiveRoutingEngine {
    var nodeHeartbeatHistory: map<string, seq<int>>
    var toxicNodes: set<string>

    /** No peer's window holds more than ten samples. */
    ghost predicate Valid()
      reads this
    {
      forall p :: p in nodeHeartbeatHistory ==> |nodeHeartbeatHistory[p]| <= HISTORY_SIZE
    }

    constructor()
      ensures Valid() && nodeHeartbeatHistory == map[] && toxicNodes == {}
    {
      nodeHeartbeatHistory := map[];
      toxicNodes := {};
    }

    function HistoryOf(peerId: string): (h: seq<int>)
      reads this
      ensures peerId !in nodeHeartbeatHistory ==> h == []
    {
      if peerId in nodeHeartbeatHistory then nodeHeartbeatHistory[peerId] else []
    }

    method RecordLatency(peerId: string, latency: int)
      requires Valid()
      modifies this
      ensures Valid()
      ensures nodeHeartbeatHistory == old(nodeHeartbeatHistory)[peerId := Appended(old(HistoryOf(peerId)), latency)]
      ensures Verdict(peerId in old(toxicNodes), nodeHeartbeatHistory[peerId]) ==> toxicNodes == old(toxicNodes) + {peerId}
      ensures !Verdict(peerId in old(toxicNodes), nodeHeartbeatHistory[peerId]) ==> toxicNodes == old(toxicNodes) - {peerId}
    {
      var history := HistoryOf(peerId);
      history := history + [latency];
      if |history| > HISTORY_SIZE {
        history := history[1..];
      }
      nodeHeartbeatHistory := nodeHeartbeatHistory[peerId := history];
      AnalyzeNodeHealth(peerId, history);
    }

    method AnalyzeNodeHealth(peerId: string, history: seq<int>)
      modifies this
      ensures nodeHeartbeatHistory == old(nodeHeartbeatHistory)
      ensures Verdict(peerId in old(toxicNodes), history) ==> toxicNodes == old(toxicNodes) + {peerId}
      ensures !Verdict(peerId in old(toxicNodes), history) ==> toxicNodes == old(toxicNodes) - {peerId}
    {
      if |history| < MIN_SAMPLES {
        return;
      }
      var jitter := CalculateJitter(history);
      if jitter > JITTER_THRESHOLD_MS as real {
        if peerId !in toxicNodes {
          toxicNodes := toxicNodes + {peerId};
        }
      } else if peerId in toxicNodes && jitter < RECOVERY_THRESHOLD_MS as real {
        toxicNodes := toxicNodes - {peerId};
      }
    }

    /** Only called with at least five samples; two are enough for the division. */
    static method CalculateJitter(history: seq<int>) returns (jitter: real)
      requires |history| >= 2
      ensures jitter == Jitter(history)
    {
      var totalDiff := 0;
      for i := 1 to |history|
        invariant totalDiff == SumAbsDiffs(history[..i])
      {
        assert history[..i + 1][..i] == history[..i];
        totalDiff := totalDiff + Abs(history[i] - history[i - 1]);
      }
      assert history[..|history|] == history;
      jitter := totalDiff as real / (|history| - 1) as real;
    }

    function IsNodeReliable(peerId: string): (r: bool)
      reads this
      ensures r <==> peerId !in toxicNodes
    {
      peerId !in toxicNodes
    }

    function GetToxicNodesCount(): (n: nat)
      reads this
      ensures n == |toxicNodes|
      ensures n == 0 ==> forall p :: IsNodeReliable(p)
    {
      |toxicNodes|
    }
  }

  /**
   * A latency swinging by 200 ms at every heartbeat has a jitter of 200 ms:
   * five such samples mark a peer toxic, and one steady sample more does not
   * clear it.
   */
  lemma SwingingLatencyIsToxic()
    ensures Verdict(false, [0, 200, 0, 200, 0])
    ensures Verdict(true, [0, 200, 0, 200, 0, 0])
    ensures !Verdict(false, [0, 200, 0, 200])
  {
    var h := [0, 200, 0, 200, 0];
    assert SumAbsDiffs([0, 200]) == 200 by {
      assert [0, 200][..1] == [0];
    }
    assert SumAbsDiffs([0, 200, 0]) == 400 by {
      assert [0, 200, 0][..2] == [0, 200];
    }
    assert SumAbsDiffs([0, 200, 0, 200]) == 600 by {
      assert [0, 200, 0, 200][..3] == [0, 200, 0];
    }
    assert SumAbsDiffs(h) == 800 by {
      assert h[..4] == [0, 200, 0, 200];
    }
    assert (h + [0])[..5] == h;
    assert SumAbsDiffs(h + [0]) == 800;
    assert h + [0] == [0, 200, 0, 200, 0, 0];
  }
}
