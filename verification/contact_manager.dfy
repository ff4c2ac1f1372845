/**
 * The address book: contacts keyed by device id, kept in insertion order
 * with no two sharing an id, and the import of a contact from a QR string of
 * the form `LIFENET:<id>:<name>`.
 *
 * A contact's `lastSeen` defaults to the clock; here it is the parameter
 * `now`.
 */
module ContactManager {
  import opened MeshTypes
  import opened Wrappers

  const QR_PREFIX: string := "LIFENET:"
  const SEPARATOR: char := ':'

  predicate UniqueIds(cs: seq<LifenetContact>)
  {
    forall i, j :: 0 <= i < j < |cs| ==> cs[i].deviceId != cs[j].deviceId
  }

  predicate HasId(cs: seq<LifenetContact>, deviceId: string)
  {
    exists i :: 0 <= i < |cs| && cs[i].deviceId == deviceId
  }

  /** `addContact`: appended unless a contact with the same id is present. */
  function Added(cs: seq<LifenetContact>, c: LifenetContact): (r: seq<LifenetContact>)
    ensures HasId(cs, c.deviceId) ==> r == cs
    ensures !HasId(cs, c.deviceId) ==> r == cs + [c]
    ensures UniqueIds(cs) ==> UniqueIds(r)
  {
    if HasId(cs, c.deviceId) then cs else cs + [c]
  }

  /** `removeContact`: every contact with that id goes; the rest keep their order. */
  function Removed(cs: seq<LifenetContact>, deviceId: string): (r: seq<LifenetContact>)
    ensures |r| <= |cs|
    ensures !HasId(r, deviceId)
    ensures forall c :: c in r <==> c in cs && c.deviceId != deviceId
    ensures UniqueIds(cs) ==> UniqueIds(r)
  {
    if cs == [] then []
    else
      var rest := Removed(cs[..|cs| - 1], deviceId);
      var last := cs[|cs| - 1];
      assert cs == cs[..|cs| - 1] + [last];
      if last.deviceId == deviceId then rest
      else
        assert UniqueIds(cs) ==> forall c :: c in rest ==> c.deviceId != last.deviceId;
        rest + [last]
  }

  /** `findContact`: the first contact with that id. */
  function Find(cs: seq<LifenetContact>, deviceId: string): (r: Option<LifenetContact>)
    ensures r.None? <==> !HasId(cs, deviceId)
    ensures r.Some? ==> r.value in cs && r.value.deviceId == deviceId
  {
    if cs == [] then None
    else if cs[0].deviceId == deviceId then Some(cs[0])
    else
      var r := Find(cs[1..], deviceId);
      assert HasId(cs, deviceId) ==> HasId(cs[1..], deviceId) by {
        if HasId(cs, deviceId) {
          var i :| 0 <= i < |cs| && cs[i].deviceId == deviceId;
          assert cs[1..][i - 1] == cs[i];
        }
      }
      assert HasId(cs[1..], deviceId) ==> HasId(cs, deviceId) by {
        if HasId(cs[1..], deviceId) {
          var i :| 0 <= i < |cs[1..]| && cs[1..][i].deviceId == deviceId;
          assert cs[i + 1] == cs[1..][i];
        }
      }
      r
  }

  /** `split(":")`: the pieces between separators, empty ones included. */
  function Split(s: string): (parts: seq<string>)
    ensures |parts| >= 1
    ensures forall p :: p in parts ==> SEPARATOR !in p
    decreases |s|
  {
    if s == [] then [""]
    else
      var rest := Split(s[1..]);
      if s[0] == SEPARATOR then [""] + rest
      else [[s[0]] + rest[0]] + rest[1..]
  }

  function Join(parts: seq<string>): string
    requires |parts| >= 1
  {
    if |parts| == 1 then parts[0] else parts[0] + [SEPARATOR] + Join(parts[1..])
  }

  /** Joining the pieces with ':' gives back the string. */
  lemma {:induction false} SplitJoin(s: string)
    ensures Join(Split(s)) == s
    decreases |s|
  {
    if s != [] {
      SplitJoin(s[1..]);
      var rest := Split(s[1..]);
      if s[0] == SEPARATOR {
        assert Split(s) == [""] + rest;
        assert Split(s)[1..] == rest;
      } else {
        var parts := Split(s);
        assert parts == [[s[0]] + rest[0]] + rest[1..];
        if |rest| == 1 {
          assert parts[0] == [s[0]] + rest[0];
        } else {
          assert parts[1..] == rest[1..];
          assert Join(rest) == rest[0] + [SEPARATOR] + Join(rest[1..]);
        }
      }
    }
  }

  /** A piece with no ':' followed by ':' is split off whole. */
  lemma {:induction false} SplitPiece(a: string, b: string)
    requires SEPARATOR !in a
    ensures Split(a + [SEPARATOR] + b) == [a] + Split(b)
    decreases |a|
  {
    if a == [] {
      assert a + [SEPARATOR] + b == [SEPARATOR] + b;
      assert ([SEPARATOR] + b)[1..] == b;
    } else {
      var s := a + [SEPARATOR] + b;
      assert s[1..] == a[1..] + [SEPARATOR] + b;
      SplitPiece(a[1..], b);
      assert [a[0]] + a[1..] == a;
    }
  }

  /** A string with no ':' is one piece. */
  lemma {:induction false} SplitWhole(a: string)
    requires SEPARATOR !in a
    ensures Split(a) == [a]
    decreases |a|
  {
    if a != [] {
      SplitWhole(a[1..]);
      assert [a[0]] + a[1..] == a;
    }
  }

  /**
   * `addContactFromQR` before the insertion: the contact a QR string names,
   * or `None` when the string is refused.
   */
  function ParseQr(qrData: string, now: int): (r: Option<LifenetContact>)
    ensures r.Some? ==> |qrData| >= |QR_PREFIX| && qrData[..|QR_PREFIX|] == QR_PREFIX
    ensures r.Some? ==> |r.value.deviceId| in {12, 24} && SEPARATOR !in r.value.deviceId
    ensures r.Some? ==> SEPARATOR !in r.value.displayName && r.value.lastSeen == now
  {
    if |qrData| >= |QR_PREFIX| && qrData[..|QR_PREFIX|] == QR_PREFIX then
      var parts := Split(qrData);
      if |parts| >= 3 && (|parts[1]| == 12 || |parts[1]| == 24) then
        assert parts[1] in parts && parts[2] in parts;
        Some(LifenetContact(parts[1], parts[2], now))
      else None
    else None
  }

  /**
   * A well-formed QR string is accepted and names exactly the id and the name
   * written in it.
   */
  lemma QrRoundTrip(id: string, name: string, now: int)
    requires |id| in {12, 24} && SEPARATOR !in id && SEPARATOR !in name
    ensures ParseQr(QR_PREFIX + id + [SEPARATOR] + name, now) == Some(LifenetContact(id, name, now))
  {
    var qr := QR_PREFIX + id + [SEPARATOR] + name;
    assert qr == "LIFENET" + [SEPARATOR] + (id + [SEPARATOR] + name);
    SplitPiece("LIFENET", id + [SEPARATOR] + name);
    SplitPiece(id, name);
    SplitWhole(name);
    assert qr[..|QR_PREFIX|] == QR_PREFIX;
  }

  /** Text after a third ':' is not part of the name. */
  lemma NameStopsAtSeparator(id: string, name: string, extra: string, now: int)
    requires |id| in {12, 24} && SEPARATOR !in id && SEPARATOR !in name
    ensures ParseQr(QR_PREFIX + id + [SEPARATOR] + name + [SEPARATOR] + extra, now) == Some(LifenetContact(id, name, now))
  {
    var qr := QR_PREFIX + id + [SEPARATOR] + name + [SEPARATOR] + extra;
    assert qr == "LIFENET" + [SEPARATOR] + (id + [SEPARATOR] + (name + [SEPARATOR] + extra));
    SplitPiece("LIFENET", id + [SEPARATOR] + (name + [SEPARATOR] + extra));
    SplitPiece(id, name + [SEPARATOR] + extra);
    SplitPiece(name, extra);
    assert qr[..|QR_PREFIX|] == QR_PREFIX;
  }

  /** An id of any length other than 12 or 24 is refused. */
  lemma BadIdLengthRefused(id: string, name: string, now: int)
    requires |id| !in {12, 24} && SEPARATOR !in id && SEPARATOR !in name
    ensures ParseQr(QR_PREFIX + id + [SEPARATOR] + name, now) == None
  {
    var qr := QR_PREFIX + id + [SEPARATOR] + name;
    assert qr == "LIFENET" + [SEPARATOR] + (id + [SEPARATOR] + name);
    SplitPiece("LIFENET", id + [SEPARATOR] + name);
    SplitPiece(id, name);
    SplitWhole(name);
  }

  class ContactManager {
    var contacts: seq<LifenetContact>

    ghost predicate Valid()
      reads this
    {
      UniqueIds(contacts)
    }

    constructor()
      ensures Valid() && contacts == []
    {
      contacts := [];
    }

    method AddContact(contact: LifenetContact)
      requires Valid()
      modifies this
      ensures Valid() && contacts == Added(old(contacts), contact)
    {
      var i := 0;
      while i < |contacts|
        invariant 0 <= i <= |contacts|
        invariant forall j :: 0 <= j < i ==> contacts[j].deviceId != contact.deviceId
      {
        if contacts[i].deviceId == contact.deviceId {
          return;
        }
        i := i + 1;
      }
      contacts := contacts + [contact];
    }

    method RemoveContact(deviceId: string)
      requires Valid()
      modifies this
      ensures Valid() && contacts == Removed(old(contacts), deviceId)
    {
      contacts := Removed(contacts, deviceId);
    }

    function GetAllContacts(): (r: seq<LifenetContact>)
      reads this
      ensures r == contacts
    {
      contacts
    }

    function FindContact(deviceId: string): (r: Option<LifenetContact>)
      reads this
      ensures r == Find(contacts, deviceId)
    {
      Find(contacts, deviceId)
    }

    /** True for every accepted string, even when its id was already known. */
    method AddContactFromQR(qrData: string, now: int) returns (accepted: bool)
      requires Valid()
      modifies this
      ensures Valid()
      ensures accepted <==> ParseQr(qrData, now).Some?
      ensures accepted ==> contacts == Added(old(contacts), ParseQr(qrData, now).value)
      ensures !accepted ==> contacts == old(contacts)
    {
      var parsed := ParseQr(qrData, now);
      if parsed.Some? {
        AddContact(parsed.value);
        return true;
      }
      return false;
    }
  }
}
