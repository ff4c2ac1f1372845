/**
 * The handover between radio layers: strong Wi-Fi (above -70 dBm) moves a
 * node that is not already on Wi-Fi Direct onto it, and weak Wi-Fi (below
 * -85 dBm) moves a node on Wi-Fi Direct back to BLE. Deciding reads the
 * current strategy only; executing a decision is what changes it.
 */
module IdmpHandover {
  import opened Wrappers

  datatype HandoverStrategy = PreferWifi | StableBle | PowerSave

  const WIFI_STRONG_DBM: int := -70
  const WIFI_WEAK_DBM: int := -85

  /**
   * `determineHandover(rssiBle, rssiWifi)` in strategy `current`: the
   * strategy to switch to, or None to stay. The BLE signal is not consulted.
   */
  function Decide(current: HandoverStrategy, rssiBle: int, rssiWifi: int): (r: Option<HandoverStrategy>)
    ensures r == Some(PreferWifi) <==> rssiWifi > WIFI_STRONG_DBM && current != PreferWifi
    ensures r == Some(StableBle) <==> rssiWifi < WIFI_WEAK_DBM && current == PreferWifi
    ensures r != Some(PowerSave)
    ensures r.Some? ==> r.value != current
  {
    if rssiWifi > WIFI_STRONG_DBM && current != PreferWifi then Some(PreferWifi)
    else if rssiWifi < WIFI_WEAK_DBM && current == PreferWifi then Some(StableBle)
    else None
  }

  /** Between -85 and -70 dBm nothing ever changes: the two thresholds leave a dead band. */
  lemma DeadBand(current: HandoverStrategy, rssiBle: int, rssiWifi: int)
    requires WIFI_WEAK_DBM <= rssiWifi <= WIFI_STRONG_DBM
    ensures Decide(current, rssiBle, rssiWifi) == None
  {
  }

  /**
   * Once a decision is executed, deciding again on the same signals asks for
   * nothing more: the handover does not oscillate.
   */
  lemma SettlesAfterOneHandover(current: HandoverStrategy, rssiBle: int, rssiWifi: int)
    requires Decide(current, rssiBle, rssiWifi).Some?
    ensures Decide(Decide(current, rssiBle, rssiWifi).value, rssiBle, rssiWifi) == None
  {
  }

  /** A pair of signal readings. */
  datatype Signals = Signals(rssiBle: int, rssiWifi: int)

  /** A controller that decides on each reading and executes what it decided. */
  function Follow(current: HandoverStrategy, readings: seq<Signals>): HandoverStrategy
    decreases |readings|
  {
    if readings == [] then current
    else
      var next := match Decide(current, readings[0].rssiBle, readings[0].rssiWifi)
                  case Some(s) => s
                  case None => current;
      Follow(next, readings[1..])
  }

  /** A node that follows the decisions never enters POWER_SAVE unless it started there. */
  lemma {:induction false} NeverPowerSave(current: HandoverStrategy, readings: seq<Signals>)
    requires current != PowerSave
    ensures Follow(current, readings) != PowerSave
    decreases |readings|
  {
    if readings != [] {
      var d := Decide(current, readings[0].rssiBle, readings[0].rssiWifi);
      NeverPowerSave(if d.Some? then d.value else current, readings[1..]);
    }
  }

  /** Whatever came before, a strong Wi-Fi reading leaves the node on Wi-Fi Direct. */
  lemma LastStrongReadingWins(current: HandoverStrategy, readings: seq<Signals>, s: Signals)
    requires s.rssiWifi > WIFI_STRONG_DBM
    ensures Follow(current, readings + [s]) == PreferWifi
  {
    FollowSnoc(current, readings, s);
  }

  lemma {:induction false} FollowSnoc(current: HandoverStrategy, readings: seq<Signals>, s: Signals)
    ensures var prev := Follow(current, readings);
      Follow(current, readings + [s]) == match Decide(prev, s.rssiBle, s.rssiWifi) case Some(x) => x case None => prev
    decreases |readings|
  {
    if readings == [] {
      assert [s][1..] == [];
    } else {
      var d := Decide(current, readings[0].rssiBle, readings[0].rssiWifi);
      var next := if d.Some? then d.value else current;
      assert (readings + [s])[1..] == readings[1..] + [s];
      FollowSnoc(next, readings[1..], s);
    }
  }

  class IdmpHandoverManager {
    var currentStrategy: HandoverStrategy

    constructor()
      ensures currentStrategy == StableBle
    {
      currentStrategy := StableBle;
    }

    /** A read of the current strategy; nothing changes. */
    function DetermineHandover(rssiBle: int, rssiWifi: int): (r: Option<HandoverStrategy>)
      reads this
      ensures r == Decide(currentStrategy, rssiBle, rssiWifi)
      ensures r.Some? ==> r.value != currentStrategy
    {
      Decide(currentStrategy, rssiBle, rssiWifi)
    }

    method ExecuteHandover(newStrategy: HandoverStrategy)
      modifies this
      ensures currentStrategy == newStrategy
    {
      currentStrategy := newStrategy;
    }
  }
}
