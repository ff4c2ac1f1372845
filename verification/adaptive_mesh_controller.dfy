/**
 * Self-tuning broadcast interval, epoch length and transmit power, driven by
 * the congestion score and the operating mode.
 */
module AdaptiveMeshController {
  import opened MeshTypes

  const MIN_EPOCH: int := 500
  const MAX_EPOCH: int := 5000
  const CONGESTION_THRESHOLD: int := 70

  /** The broadcast interval: shorter in disaster mode, longer with congestion. */
  function IntervalFor(score: int, mode: Mode): (ms: int)
    ensures mode == Disaster ==> ms in {3000, 7000, 15000, 30000}
    ensures mode == Daily ==> ms in {10000, 20000, 60000}
  {
    if mode == Disaster then
      if score < 15 then 3000
      else if score < 40 then 7000
      else if score < 70 then 15000
      else 30000
    else
      if score < 30 then 10000
      else if score < 60 then 20000
      else 60000
  }

  /**
   * The next epoch length: in disaster mode shorter under congestion (floor
   * 500) and longer when quiet (cap 5000); in daily mode always 500 longer,
   * capped at 5000.
   */
  function NextEpoch(epoch: int, score: int, mode: Mode): (e: int)
    ensures MIN_EPOCH <= epoch <= MAX_EPOCH ==> MIN_EPOCH <= e <= MAX_EPOCH
    ensures mode == Daily && epoch <= MAX_EPOCH ==> epoch <= e
    ensures mode == Disaster && 30 <= score <= CONGESTION_THRESHOLD ==> e == epoch
  {
    if mode == Disaster then
      if score > CONGESTION_THRESHOLD then
        (if epoch - 800 < MIN_EPOCH then MIN_EPOCH else epoch - 800)
      else if score < 30 then
        (if epoch + 1000 > MAX_EPOCH then MAX_EPOCH else epoch + 1000)
      else epoch
    else
      if epoch + 500 > MAX_EPOCH then MAX_EPOCH else epoch + 500
  }

  /** 2 (max) below 10, 1 below 50, else 0 (min). */
  function TxPowerFor(score: int): (p: int)
    ensures p in {0, 1, 2}
  {
    if score < 10 then 2 else if score < 50 then 1 else 0
  }

  /** A busier mesh never gets more transmit power. */
  lemma TxPowerNonIncreasing(s1: int, s2: int)
    requires s1 <= s2
    ensures TxPowerFor(s2) <= TxPowerFor(s1)
  {
  }

  /** A busier mesh never gets a shorter broadcast interval, in either mode. */
  lemma IntervalNonDecreasing(s1: int, s2: int, mode: Mode)
    requires s1 <= s2
    ensures IntervalFor(s1, mode) <= IntervalFor(s2, mode)
  {
  }

  /** The epoch after a sequence of `tune(score, mode)` calls. */
  function EpochAfter(epoch: int, calls: seq<(int, Mode)>): int
  {
    if calls == [] then epoch
    else NextEpoch(EpochAfter(epoch, calls[..|calls| - 1]), calls[|calls| - 1].0, calls[|calls| - 1].1)
  }

  /** The epoch stays within [500, 5000] across any sequence of calls. */
  lemma {:induction false} EpochStaysInRange(epoch: int, calls: seq<(int, Mode)>)
    requires MIN_EPOCH <= epoch <= MAX_EPOCH
    ensures MIN_EPOCH <= EpochAfter(epoch, calls) <= MAX_EPOCH
  {
    if calls != [] {
      EpochStaysInRange(epoch, calls[..|calls| - 1]);
    }
  }

  /** Daily-mode calls only lengthen the epoch, up to the cap. */
  lemma {:induction false} DailyEpochGrows(epoch: int, calls: seq<(int, Mode)>)
    requires MIN_EPOCH <= epoch <= MAX_EPOCH
    requires forall i :: 0 <= i < |calls| ==> calls[i].1 == Daily
    ensures epoch <= EpochAfter(epoch, calls) <= MAX_EPOCH
  {
    if calls != [] {
      DailyEpochGrows(epoch, calls[..|calls| - 1]);
    }
  }

  class AdaptiveMeshController {
    var currentIntervalMs: int
    var txPower: int
    var currentEpochMs: int

    ghost predicate Valid()
      reads this
    {
      MIN_EPOCH <= currentEpochMs <= MAX_EPOCH && txPower in {0, 1, 2}
    }

    constructor()
      ensures Valid()
      ensures currentIntervalMs == 5000 && txPower == 1 && currentEpochMs == 2000
    {
      currentIntervalMs := 5000;
      txPower := 1;
      currentEpochMs := 2000;
    }

    method Tune(score: int, mode: Mode)
      requires Valid()
      modifies this
      ensures Valid()
      ensures currentIntervalMs == IntervalFor(score, mode)
      ensures currentEpochMs == NextEpoch(old(currentEpochMs), score, mode)
      ensures txPower == TxPowerFor(score)
    {
      currentIntervalMs := IntervalFor(score, mode);
      currentEpochMs := NextEpoch(currentEpochMs, score, mode);
      txPower := TxPowerFor(score);
    }

    function GetCurrentEpochMs(): (e: int)
      reads this
      requires Valid()
      ensures MIN_EPOCH <= e <= MAX_EPOCH
    {
      currentEpochMs
    }

    function GetTxPower(): (p: int)
      reads this
      requires Valid()
      ensures p in {0, 1, 2}
    {
      txPower
    }
  }
}
