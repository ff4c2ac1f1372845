/**
 * The ASTRA anonymity switch: a status that passes through ACTIVATING or
 * DEACTIVATING on its way between INACTIVE and ACTIVE, and an auto mode that
 * lets connectivity changes flip it. A manual activation turns auto mode
 * off; a deactivation turns it back on.
 *
 * The status is an observable state flow; each method returns the values it
 * published, in order.
 */
module AstraController {
  datatype AstraStatus = Inactive | Activating | Active | Deactivating

  /** The controller's state: its status and whether auto mode is on. */
  datatype AstraState = AstraState(status: AstraStatus, isAutoMode: bool)

  /** A status a call can leave behind. */
  predicate Settled(s: AstraStatus)
  {
    s == Inactive || s == Active
  }

  /** `activateASTRA(manual)`: the new state and the statuses published. */
  function Activate(st: AstraState, manual: bool): (r: (AstraState, seq<AstraStatus>))
    ensures r.0.status == Active
    ensures st.status == Active ==> r == (st, [])
    ensures st.status != Active ==> r.1 == [Activating, Active] && r.0.isAutoMode == (st.isAutoMode && !manual)
  {
    if st.status == Active then (st, [])
    else (AstraState(Active, if manual then false else st.isAutoMode), [Activating, Active])
  }

  /** `deactivateASTRA()`. */
  function Deactivate(st: AstraState): (r: (AstraState, seq<AstraStatus>))
    ensures r.0.status == Inactive
    ensures st.status == Inactive ==> r == (st, [])
    ensures st.status != Inactive ==> r == (AstraState(Inactive, true), [Deactivating, Inactive])
  {
    if st.status == Inactive then (st, [])
    else (AstraState(Inactive, true), [Deactivating, Inactive])
  }

  /** `checkAndAutoActivate(hasInternet)`. */
  function AutoCheck(st: AstraState, hasInternet: bool): (r: (AstraState, seq<AstraStatus>))
    ensures !st.isAutoMode ==> r == (st, [])
    ensures st.isAutoMode && !hasInternet && st.status == Inactive ==> r.0 == AstraState(Active, true)
    ensures st.isAutoMode && hasInternet && st.status == Active ==> r.0 == AstraState(Inactive, true)
    ensures st.isAutoMode && !(!hasInternet && st.status == Inactive) && !(hasInternet && st.status == Active) ==>
      r == (st, [])
  {
    if !st.isAutoMode then (st, [])
    else if !hasInternet && st.status == Inactive then Activate(st, false)
    else if hasInternet && st.status == Active && st.isAutoMode then Deactivate(st)
    else (st, [])
  }

  /** The calls a user or the connectivity monitor can make. */
  datatype Call = ActivateCall(manual: bool) | DeactivateCall | AutoCheckCall(hasInternet: bool)

  function Step(st: AstraState, c: Call): AstraState
  {
    match c
    case ActivateCall(manual) => Activate(st, manual).0
    case DeactivateCall => Deactivate(st).0
    case AutoCheckCall(hasInternet) => AutoCheck(st, hasInternet).0
  }

  function Run(st: AstraState, calls: seq<Call>): AstraState
    decreases |calls|
  {
    if calls == [] then st else Run(Step(st, calls[0]), calls[1..])
  }

  /** Between calls the status is only ever INACTIVE or ACTIVE. */
  lemma {:induction false} AlwaysSettled(st: AstraState, calls: seq<Call>)
    requires Settled(st.status)
    ensures Settled(Run(st, calls).status)
    decreases |calls|
  {
    if calls != [] {
      AlwaysSettled(Step(st, calls[0]), calls[1..]);
    }
  }

  /**
   * After a manual activation, connectivity changes alone never switch
   * ASTRA off: only an explicit deactivation does.
   */
  lemma {:induction false} ManualStaysOn(st: AstraState, checks: seq<bool>)
    requires st.status == Active && !st.isAutoMode
    ensures Run(st, seq(|checks|, i requires 0 <= i < |checks| => AutoCheckCall(checks[i]))) == st
    decreases |checks|
  {
    var calls := seq(|checks|, i requires 0 <= i < |checks| => AutoCheckCall(checks[i]));
    if checks != [] {
      assert calls[1..] == seq(|checks[1..]|, i requires 0 <= i < |checks[1..]| => AutoCheckCall(checks[1..][i]));
      ManualStaysOn(st, checks[1..]);
    }
  }

  /** In auto mode, losing and then regaining the internet returns to where it started. */
  lemma AutoRoundTrip()
    ensures Run(AstraState(Inactive, true), [AutoCheckCall(false), AutoCheckCall(true)]) == AstraState(Inactive, true)
  {
    var calls := [AutoCheckCall(false), AutoCheckCall(true)];
    assert calls[1..][1..] == [];
  }

  class AstraController {
    var astraStatus: AstraStatus
    var isAutoMode: bool

    ghost predicate Valid()
      reads this
    {
      Settled(astraStatus)
    }

    constructor()
      ensures Valid() && astraStatus == Inactive && isAutoMode
    {
      astraStatus := Inactive;
      isAutoMode := true;
    }

    method ActivateAstra(manual: bool) returns (published: seq<AstraStatus>)
      requires Valid()
      modifies this
      ensures Valid()
      ensures (AstraState(astraStatus, isAutoMode), published) == Activate(old(AstraState(astraStatus, isAutoMode)), manual)
    {
      if astraStatus == Active {
        return [];
      }
      astraStatus := Activating;
      published := [Activating];
      astraStatus := Active;
      published := published + [Active];
      assert published == [Activating, Active];
      if manual {
        isAutoMode := false;
      }
    }

    method DeactivateAstra() returns (published: seq<AstraStatus>)
      requires Valid()
      modifies this
      ensures Valid()
      ensures (AstraState(astraStatus, isAutoMode), published) == Deactivate(old(AstraState(astraStatus, isAutoMode)))
    {
      if astraStatus == Inactive {
        return [];
      }
      astraStatus := Deactivating;
      published := [Deactivating];
      astraStatus := Inactive;
      published := published + [Inactive];
      assert published == [Deactivating, Inactive];
      isAutoMode := true;
    }

    method CheckAndAutoActivate(hasInternet: bool) returns (published: seq<AstraStatus>)
      requires Valid()
      modifies this
      ensures Valid()
      ensures (AstraState(astraStatus, isAutoMode), published) == AutoCheck(old(AstraState(astraStatus, isAutoMode)), hasInternet)
    {
      if !isAutoMode {
        return [];
      }
      if !hasInternet && astraStatus == Inactive {
        published := ActivateAstra(false);
      } else if hasInternet && astraStatus == Active && isAutoMode {
        published := DeactivateAstra();
      } else {
        published := [];
      }
    }
  }
}
