/**
 * The operating-mode switch between DAILY and DISASTER, with change
 * listeners. A switch to the mode already in force does nothing; a real
 * switch calls every registered listener once, in registration order, with
 * the new and the old mode.
 *
 * Listeners are identified by a handle; the calls a switch makes are
 * returned as the list of notices delivered.
 */
module ModeManager {
  import opened MeshTypes

  /** A listener, compared by identity. */
  type ListenerId = int

  /** One `onModeChanged(newMode, oldMode)` call. */
  datatype Notice = Notice(listener: ListenerId, newMode: Mode, oldMode: Mode)

  predicate Distinct(ls: seq<ListenerId>)
  {
    forall i, j :: 0 <= i < j < |ls| ==> ls[i] != ls[j]
  }

  /** The calls `notifyListeners` makes: one per listener, in order. */
  function Notices(ls: seq<ListenerId>, newMode: Mode, oldMode: Mode): (r: seq<Notice>)
    ensures |r| == |ls|
    ensures forall i :: 0 <= i < |ls| ==> r[i] == Notice(ls[i], newMode, oldMode)
  {
    if ls == [] then [] else Notices(ls[..|ls| - 1], newMode, oldMode) + [Notice(ls[|ls| - 1], newMode, oldMode)]
  }

  /** `MutableList.remove`: the first occurrence goes, if there is one. */
  function RemoveFirst(ls: seq<ListenerId>, x: ListenerId): (r: seq<ListenerId>)
    ensures x !in ls ==> r == ls
    ensures x in ls ==> |r| == |ls| - 1
    ensures forall y :: y in r ==> y in ls
    ensures forall y :: y in ls && y != x ==> y in r
  {
    if ls == [] then []
    else if ls[0] == x then ls[1..]
    else
      var rest := RemoveFirst(ls[1..], x);
      assert forall y :: y in ls && y != x && y != ls[0] ==> y in ls[1..];
      [ls[0]] + rest
  }

  /** Removal keeps the listeners distinct and leaves no copy of the removed one. */
  lemma {:induction false} RemoveFirstDistinct(ls: seq<ListenerId>, x: ListenerId)
    requires Distinct(ls)
    ensures Distinct(RemoveFirst(ls, x)) && x !in RemoveFirst(ls, x)
  {
    if ls != [] && ls[0] != x {
      var tail := ls[1..];
      assert Distinct(tail) by {
        forall i, j | 0 <= i < j < |tail|
          ensures tail[i] != tail[j]
        {
          assert tail[i] == ls[i + 1] && tail[j] == ls[j + 1];
        }
      }
      RemoveFirstDistinct(tail, x);
      var rest := RemoveFirst(tail, x);
      assert ls[0] !in tail by {
        forall i | 0 <= i < |tail|
          ensures tail[i] != ls[0]
        {
          assert tail[i] == ls[i + 1];
        }
      }
      var r := [ls[0]] + rest;
      forall i, j | 0 <= i < j < |r|
        ensures r[i] != r[j]
      {
        if i > 0 {
          assert r[i] == rest[i - 1] && r[j] == rest[j - 1];
        } else {
          assert r[j] in rest;
        }
      }
    } else if ls != [] {
      assert ls[1..] == ls[1..];
      forall i | 0 <= i < |ls| - 1
        ensures ls[1..][i] != x
      {
        assert ls[1..][i] == ls[i + 1];
      }
      forall i, j | 0 <= i < j < |ls| - 1
        ensures ls[1..][i] != ls[1..][j]
      {
        assert ls[1..][i] == ls[i + 1] && ls[1..][j] == ls[j + 1];
      }
    }
  }

  /** The mode after a switch request and the notices it sends. */
  function Switch(current: Mode, target: Mode, ls: seq<ListenerId>): (r: (Mode, seq<Notice>))
    ensures r.0 == target
    ensures current == target ==> r.1 == []
    ensures current != target ==> |r.1| == |ls|
    ensures forall i :: 0 <= i < |r.1| ==> r.1[i] == Notice(ls[i], target, current)
  {
    if current == target then (current, []) else (target, Notices(ls, target, current))
  }

  /** A listener hears of a real switch exactly once, with the new and the old mode. */
  lemma NotifiedOnce(current: Mode, target: Mode, ls: seq<ListenerId>, x: ListenerId)
    requires Distinct(ls) && current != target
    ensures x in ls ==>
      exists i :: 0 <= i < |Switch(current, target, ls).1| && Switch(current, target, ls).1[i] == Notice(x, target, current)
    ensures forall i, j :: 0 <= i < j < |Switch(current, target, ls).1| ==>
      Switch(current, target, ls).1[i].listener != Switch(current, target, ls).1[j].listener
  {
    var r := Switch(current, target, ls).1;
    if x in ls {
      var i :| 0 <= i < |ls| && ls[i] == x;
      assert r[i] == Notice(x, target, current);
    }
  }

  /** A listener that was removed hears of no later switch. */
  lemma RemovedHearsNothing(current: Mode, target: Mode, ls: seq<ListenerId>, x: ListenerId)
    requires Distinct(ls)
    ensures forall n :: n in Switch(current, target, RemoveFirst(ls, x)).1 ==> n.listener != x
  {
    var ls' := RemoveFirst(ls, x);
    RemoveFirstDistinct(ls, x);
    var r := Switch(current, target, ls').1;
    forall n | n in r
      ensures n.listener != x
    {
      var i :| 0 <= i < |r| && r[i] == n;
      assert n.listener == ls'[i];
    }
  }

  class ModeManager {
    var currentMode: Mode
    var listeners: seq<ListenerId>

    ghost predicate Valid()
      reads this
    {
      Distinct(listeners)
    }

    constructor()
      ensures Valid() && currentMode == Daily && listeners == []
    {
      currentMode := Daily;
      listeners := [];
    }

    function IsDailyMode(): (b: bool)
      reads this
      ensures b <==> currentMode == Daily
      ensures b != IsDisasterMode()
    {
      currentMode == Daily
    }

    function IsDisasterMode(): (b: bool)
      reads this
      ensures b <==> currentMode == Disaster
    {
      currentMode == Disaster
    }

    /** Calls every listener in order; the list is not changed while it is walked. */
    method NotifyListeners(newMode: Mode, oldMode: Mode) returns (notified: seq<Notice>)
      ensures notified == Notices(listeners, newMode, oldMode)
    {
      var ls := listeners;
      notified := [];
      var i := 0;
      while i < |ls|
        invariant 0 <= i <= |ls|
        invariant notified == Notices(ls[..i], newMode, oldMode)
      {
        assert ls[..i + 1][..i] == ls[..i];
        notified := notified + [Notice(ls[i], newMode, oldMode)];
        i := i + 1;
      }
      assert ls[..i] == ls;
    }

    method SwitchToDailyMode() returns (notified: seq<Notice>)
      modifies this
      ensures (currentMode, notified) == Switch(old(currentMode), Daily, listeners)
      ensures listeners == old(listeners)
    {
      notified := [];
      if currentMode != Daily {
        var oldMode := currentMode;
        currentMode := Daily;
        notified := NotifyListeners(Daily, oldMode);
      }
    }

    method SwitchToDisasterMode() returns (notified: seq<Notice>)
      modifies this
      ensures (currentMode, notified) == Switch(old(currentMode), Disaster, listeners)
      ensures listeners == old(listeners)
    {
      notified := [];
      if currentMode != Disaster {
        var oldMode := currentMode;
        currentMode := Disaster;
        notified := NotifyListeners(Disaster, oldMode);
      }
    }

    method AddModeChangeListener(listener: ListenerId)
      requires Valid()
      modifies this
      ensures Valid() && currentMode == old(currentMode)
      ensures listeners == if listener in old(listeners) then old(listeners) else old(listeners) + [listener]
    {
      if listener !in listeners {
        listeners := listeners + [listener];
      }
    }

    method RemoveModeChangeListener(listener: ListenerId)
      requires Valid()
      modifies this
      ensures Valid() && currentMode == old(currentMode)
      ensures listeners == RemoveFirst(old(listeners), listener) && listener !in listeners
    {
      RemoveFirstDistinct(listeners, listener);
      listeners := RemoveFirst(listeners, listener);
    }

    /** Back to DAILY when the network is available in DISASTER mode; nothing otherwise. */
    method CheckNetworkAndSwitch(isNetworkAvailable: bool) returns (notified: seq<Notice>)
      modifies this
      ensures listeners == old(listeners)
      ensures isNetworkAvailable && old(currentMode) == Disaster ==>
        (currentMode, notified) == Switch(Disaster, Daily, listeners)
      ensures !(isNetworkAvailable && old(currentMode) == Disaster) ==>
        currentMode == old(currentMode) && notified == []
    {
      notified := [];
      if isNetworkAvailable && IsDisasterMode() {
        notified := SwitchToDailyMode();
      }
    }

    method SetMode(mode: Mode) returns (notified: seq<Notice>)
      modifies this
      ensures (currentMode, notified) == Switch(old(currentMode), mode, listeners)
      ensures listeners == old(listeners)
    {
      if mode == Daily {
        notified := SwitchToDailyMode();
      } else {
        notified := SwitchToDisasterMode();
      }
    }
  }

  /**
   * The listener test: one listener hears DAILY to DISASTER once, a repeated
   * switch is silent, and after removal it hears nothing.
   */
  method ListenerScenario(listener: ListenerId)
  {
    var m := new ModeManager();
    m.AddModeChangeListener(listener);
    var n1 := m.SwitchToDisasterMode();
    assert n1 == [Notice(listener, Disaster, Daily)];
    var n2 := m.SwitchToDisasterMode();
    assert n2 == [];
    m.RemoveModeChangeListener(listener);
    var n3 := m.SwitchToDailyMode();
    assert n3 == [] && m.IsDailyMode();
    var n4 := m.CheckNetworkAndSwitch(false);
    assert n4 == [] && m.currentMode == Daily;
  }
}
