/**
 * Epoch-based channel hopping: at most one hop per five-minute epoch, and a
 * hop only under heavy congestion, round-robin over channels 1..maxChannels.
 * The congestion score and the clock are parameters.
 */
module FrequencyHopping {
  import opened JvmArith

  const EPOCH_DURATION_MS: int := 300000
  const HOP_SCORE: int := 85

  /** The channel returned, or the arithmetic exception of `% 0`. */
  datatype HopResult = Channel(channel: int) | DivisionByZero

  /** `(current % maxChannels) + 1` with Kotlin's remainder. */
  function NextChannel(current: int, maxChannels: int): (next: int)
    requires maxChannels != 0
    ensures 1 <= current <= Abs(maxChannels) ==> 1 <= next <= Abs(maxChannels)
    ensures 1 <= current < Abs(maxChannels) ==> next == current + 1
    ensures current == Abs(maxChannels) ==> next == 1
  {
    TruncRemFacts(current, maxChannels);
    TruncRem(current, maxChannels) + 1
  }

  /** The channel reached after `n` successive hops from `current`. */
  function Hops(current: int, maxChannels: int, n: nat): int
    requires maxChannels != 0
  {
    if n == 0 then current else NextChannel(Hops(current, maxChannels, n - 1), maxChannels)
  }

  lemma {:induction false} HopsClimb(c: int, m: int, n: nat)
    requires m != 0 && 1 <= c && c + n <= Abs(m)
    ensures Hops(c, m, n) == c + n
  {
    if n > 0 {
      HopsClimb(c, m, n - 1);
    }
  }

  /** Hopping `Abs(max)` times from any channel comes back to it. */
  lemma RoundRobin(c: int, m: int)
    requires m != 0 && 1 <= c <= Abs(m)
    ensures Hops(c, m, Abs(m)) == c
  {
    var k: nat := Abs(m) - c;
    HopsClimb(c, m, k);
    WrapToFirst(c, m, k);
    HopsClimb(1, m, c - 1);
    HopsShift(c, m, k + 1, c - 1);
  }

  /** From the last channel the next hop is channel 1. */
  lemma WrapToFirst(c: int, m: int, k: nat)
    requires m != 0 && Hops(c, m, k) == Abs(m)
    ensures Hops(c, m, k + 1) == 1
  {
  }

  /** Hopping n and then k times is hopping n + k times. */
  lemma {:induction false} HopsShift(c: int, m: int, n: nat, k: nat)
    requires m != 0
    ensures Hops(Hops(c, m, n), m, k) == Hops(c, m, n + k)
  {
    if k > 0 {
      HopsShift(c, m, n, k - 1);
    }
  }

  class FrequencyHoppingController {
    const maxChannels: int
    var currentChannel: int
    var lastSwitchEpoch: int

    ghost predicate Valid()
      reads this
    {
      1 <= currentChannel && (maxChannels != 0 ==> currentChannel <= Abs(maxChannels))
    }

    constructor(maxChannels: int)
      ensures Valid() && this.maxChannels == maxChannels
      ensures currentChannel == 1 && lastSwitchEpoch == 0
    {
      this.maxChannels := maxChannels;
      currentChannel := 1;
      lastSwitchEpoch := 0;
    }

    /** `score` is the analyzer's congestion score and `now` the clock reading. */
    method EvaluateHopping(score: int, now: int) returns (r: HopResult)
      requires Valid()
      modifies this
      ensures Valid()
      ensures now - old(lastSwitchEpoch) < EPOCH_DURATION_MS || score <= HOP_SCORE ==>
        r == Channel(old(currentChannel)) && currentChannel == old(currentChannel)
        && lastSwitchEpoch == old(lastSwitchEpoch)
      ensures now - old(lastSwitchEpoch) >= EPOCH_DURATION_MS && score > HOP_SCORE && maxChannels == 0 ==>
        r == DivisionByZero && currentChannel == old(currentChannel)
        && lastSwitchEpoch == old(lastSwitchEpoch)
      ensures now - old(lastSwitchEpoch) >= EPOCH_DURATION_MS && score > HOP_SCORE && maxChannels != 0 ==>
        currentChannel == NextChannel(old(currentChannel), maxChannels)
        && r == Channel(currentChannel) && lastSwitchEpoch == now
    {
      if now - lastSwitchEpoch < EPOCH_DURATION_MS {
        return Channel(currentChannel);
      }
      if score > HOP_SCORE {
        if maxChannels == 0 {
          return DivisionByZero;
        }
        var nextChannel := TruncRem(currentChannel, maxChannels) + 1;
        currentChannel := nextChannel;
        lastSwitchEpoch := now;
      }
      return Channel(currentChannel);
    }
  }
}
