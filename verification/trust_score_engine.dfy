/**
 * Node reputation: a score in [0, 100] per node, 50 for a node never seen,
 * raised by 2 for a valid signature and 1 for a successful relay, and cut by
 * 20 for an invalid signature; a score maps to one of four colour bands.
 */
module TrustScoreEngine {
  import opened JvmArith

  const DEFAULT_SCORE: int := 50
  const MIN_SCORE: int := 0
  const MAX_SCORE: int := 100

  /** The score change for one observation. */
  function Delta(relaySuccess: bool, validSignature: bool): (delta: int)
    ensures validSignature ==> delta == (if relaySuccess then 3 else 2)
    ensures !validSignature ==> delta == (if relaySuccess then -19 else -20)
  {
    (if validSignature then 2 else -20) + (if relaySuccess then 1 else 0)
  }

  /** The score after one observation of a node whose score was `current`. */
  function Updated(current: int, relaySuccess: bool, validSignature: bool): (s: int)
    ensures MIN_SCORE <= s <= MAX_SCORE
    ensures MIN_SCORE <= current + Delta(relaySuccess, validSignature) <= MAX_SCORE ==>
      s == current + Delta(relaySuccess, validSignature)
  {
    Clamp(current + Delta(relaySuccess, validSignature), MIN_SCORE, MAX_SCORE)
  }

  /** An invalid signature never raises a score in range, and lowers any positive one. */
  lemma InvalidNeverRaises(current: int, relaySuccess: bool)
    requires MIN_SCORE <= current <= MAX_SCORE
    ensures Updated(current, relaySuccess, false) <= current
    ensures current > 0 ==> Updated(current, relaySuccess, false) < current
  {
  }

  /** A valid signature never lowers a score in range. */
  lemma ValidNeverLowers(current: int, relaySuccess: bool)
    requires MIN_SCORE <= current <= MAX_SCORE
    ensures Updated(current, relaySuccess, true) >= current
  {
  }

  /** The score after `n` invalid signatures in a row. */
  function AfterInvalid(current: int, n: nat): int
    decreases n
  {
    if n == 0 then current else AfterInvalid(Updated(current, false, false), n - 1)
  }

  /** Five invalid signatures bring any score in range down to zero. */
  lemma {:induction false} FiveStrikes(current: int, n: nat)
    requires MIN_SCORE <= current <= MAX_SCORE && n >= 5
    ensures AfterInvalid(current, n) == 0
  {
    var s1 := Updated(current, false, false);
    var s2 := Updated(s1, false, false);
    var s3 := Updated(s2, false, false);
    var s4 := Updated(s3, false, false);
    var s5 := Updated(s4, false, false);
    assert s5 == 0;
    assert AfterInvalid(s4, 1) == AfterInvalid(s5, 0) == s5;
    assert AfterInvalid(s3, 2) == AfterInvalid(s4, 1);
    assert AfterInvalid(s2, 3) == AfterInvalid(s3, 2);
    assert AfterInvalid(s1, 4) == AfterInvalid(s2, 3);
    assert AfterInvalid(current, 5) == AfterInvalid(s1, 4);
    ZeroStays(n - 5);
    AfterInvalidSplit(current, 5, n - 5);
  }

  lemma {:induction false} ZeroStays(n: nat)
    ensures AfterInvalid(0, n) == 0
  {
    if n > 0 {
      assert Updated(0, false, false) == 0;
      ZeroStays(n - 1);
    }
  }

  lemma {:induction false} AfterInvalidSplit(current: int, a: nat, b: nat)
    ensures AfterInvalid(current, a + b) == AfterInvalid(AfterInvalid(current, a), b)
    decreases a
  {
    if a > 0 {
      AfterInvalidSplit(Updated(current, false, false), a - 1, b);
    }
  }

  /** `getTrustColor`: the hex colour of the band the score falls in. */
  function TrustColor(score: int): (colour: string)
    ensures colour == "#00E676" <==> score >= 80
    ensures colour == "#D4AF37" <==> 60 <= score < 80
    ensures colour == "#FFA500" <==> 40 <= score < 60
    ensures colour == "#FF0000" <==> score < 40
  {
    if score >= 80 then "#00E676"
    else if score >= 60 then "#D4AF37"
    else if score >= 40 then "#FFA500"
    else "#FF0000"
  }

  class TrustScoreEngine {
    var reputationMap: map<string, int>

    /** Every stored score lies in [0, 100]. */
    ghost predicate Valid()
      reads this
    {
      forall n :: n in reputationMap ==> MIN_SCORE <= reputationMap[n] <= MAX_SCORE
    }

    constructor()
      ensures Valid() && reputationMap == map[]
    {
      reputationMap := map[];
    }

    function GetTrustScore(nodeId: string): (score: int)
      reads this
      ensures nodeId !in reputationMap ==> score == DEFAULT_SCORE
      ensures nodeId in reputationMap ==> score == reputationMap[nodeId]
      ensures Valid() ==> MIN_SCORE <= score <= MAX_SCORE
    {
      if nodeId in reputationMap then reputationMap[nodeId] else DEFAULT_SCORE
    }

    method UpdateTrust(nodeId: string, relaySuccess: bool, validSignature: bool)
      requires Valid()
      modifies this
      ensures Valid()
      ensures reputationMap == old(reputationMap)[nodeId := Updated(old(GetTrustScore(nodeId)), relaySuccess, validSignature)]
    {
      var currentScore := GetTrustScore(nodeId);
      var delta := 0;
      if validSignature {
        delta := delta + 2;
      } else {
        delta := delta - 20;
      }
      if relaySuccess {
        delta := delta + 1;
      }
      var newScore := Clamp(currentScore + delta, MIN_SCORE, MAX_SCORE);
      reputationMap := reputationMap[nodeId := newScore];
    }
  }

  /** A node's update leaves every other node's score as it was. */
  method OthersUnchanged(engine: TrustScoreEngine, nodeId: string, other: string, relaySuccess: bool, validSignature: bool)
    requires engine.Valid() && other != nodeId
    modifies engine
    ensures engine.GetTrustScore(other) == old(engine.GetTrustScore(other))
  {
    engine.UpdateTrust(nodeId, relaySuccess, validSignature);
  }

  /** A fresh node with one bad signature drops from 50 to 30, from orange to red. */
  lemma FirstPenalty()
    ensures Updated(DEFAULT_SCORE, false, false) == 30
    ensures TrustColor(DEFAULT_SCORE) == "#FFA500" && TrustColor(30) == "#FF0000"
  {
  }
}
