/**
 * Battery-driven discovery profile: low power below 20 %, normal below 50 %,
 * aggressive otherwise. The profile-change callback is modelled as the
 * profile it is called with, if any.
 */
module AdaptivePowerManager {
  import opened Wrappers

  datatype DiscoveryProfile = Aggressive | Normal | LowPower

  /** The profile for a battery percentage (a Float, modelled exactly). */
  function ProfileFor(pct: real): (p: DiscoveryProfile)
    ensures p == LowPower <==> pct < 20.0
    ensures p == Normal <==> 20.0 <= pct < 50.0
    ensures p == Aggressive <==> pct >= 50.0
  {
    if pct < 20.0 then LowPower
    else if pct < 50.0 then Normal
    else Aggressive
  }

  /** The profiles ordered by how much power they spend, the frugal one lowest. */
  function Rank(p: DiscoveryProfile): nat
  {
    match p
    case LowPower => 0
    case Normal => 1
    case Aggressive => 2
  }

  /** More battery never selects a more frugal profile. */
  lemma ProfileMonotone(a: real, b: real)
    requires a <= b
    ensures Rank(ProfileFor(a)) <= Rank(ProfileFor(b))
  {
  }

  class AdaptivePowerManager {
    var currentProfile: DiscoveryProfile

    constructor()
      ensures currentProfile == Normal
    {
      currentProfile := Normal;
    }

    /** Returns the profile the callback is called with, or `None` when it is not called. */
    method EvaluateProfile(pct: real) returns (notified: Option<DiscoveryProfile>)
      modifies this
      ensures currentProfile == ProfileFor(pct)
      ensures notified.Some? <==> ProfileFor(pct) != old(currentProfile)
      ensures notified.Some? ==> notified.value == ProfileFor(pct)
    {
      var newProfile := if pct < 20.0 then LowPower else if pct < 50.0 then Normal else Aggressive;
      notified := None;
      if newProfile != currentProfile {
        currentProfile := newProfile;
        notified := Some(newProfile);
      }
    }
  }

  /** Evaluating the same reading twice: the second call notifies nobody. */
  method RepeatedReadingIsQuiet(m: AdaptivePowerManager, pct: real) returns (second: Option<DiscoveryProfile>)
    modifies m
    ensures second == None && m.currentProfile == ProfileFor(pct)
  {
    var _ := m.EvaluateProfile(pct);
    second := m.EvaluateProfile(pct);
  }

  /** A fresh manager's first reading in [20, 50) notifies nobody. */
  method FirstNormalReadingIsQuiet(pct: real) returns (first: Option<DiscoveryProfile>)
    requires 20.0 <= pct < 50.0
    ensures first == None
  {
    var m := new AdaptivePowerManager();
    first := m.EvaluateProfile(pct);
  }
}
