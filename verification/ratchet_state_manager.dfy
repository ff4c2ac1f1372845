/**
 * Per-peer ratchet state kept in one memory page: each peer gets a 192-byte
 * slot at a fixed offset, holding the root key, the sending key and the
 * receiving key (32 bytes each) derived from a root seed. Reading the sending
 * key advances it in place, and a single wipe clears the whole page.
 *
 * The slot table proper is the corrected one (see `Initialize`); the
 * registration order of the code as written is `InitializeAsWritten`.
 */
module RatchetStateManager {
  import opened Wrappers
  import opened JvmArith

  const STATE_SIZE: int := 192
  const KEY_SIZE: int := 32
  const SENDING_KEY: int := 32
  const RECEIVING_KEY: int := 64
  const DEFAULT_MAX_SESSIONS: int := 2000

  /** The 32-byte prefix of the seed reversed: bytes 32..63 of a slot. */
  function ReversedPrefix(seed: seq<bv8>): (r: seq<bv8>)
    requires |seed| >= KEY_SIZE
    ensures |r| == KEY_SIZE
    ensures forall i :: 0 <= i < KEY_SIZE ==> r[i] == seed[|seed| - 1 - i]
  {
    seq(KEY_SIZE, i requires 0 <= i < KEY_SIZE => seed[|seed| - 1 - i])
  }

  function Zeros(n: nat): (r: seq<bv8>)
    ensures |r| == n && forall i :: 0 <= i < n ==> r[i] == 0
  {
    seq(n, i => 0)
  }

  /**
   * A fresh slot: root key = seed prefix, sending key = the first 32 bytes
   * of the reversed seed, receiving key = seed prefix, then zeros.
   */
  function SlotBytes(seed: seq<bv8>): (s: seq<bv8>)
    requires |seed| >= KEY_SIZE
    ensures |s| == STATE_SIZE
    ensures s[..KEY_SIZE] == seed[..KEY_SIZE]
    ensures s[SENDING_KEY..SENDING_KEY + KEY_SIZE] == ReversedPrefix(seed)
    ensures s[RECEIVING_KEY..RECEIVING_KEY + KEY_SIZE] == seed[..KEY_SIZE]
    ensures forall i :: RECEIVING_KEY + KEY_SIZE <= i < STATE_SIZE ==> s[i] == 0
  {
    seed[..KEY_SIZE] + ReversedPrefix(seed) + seed[..KEY_SIZE] + Zeros(STATE_SIZE - 3 * KEY_SIZE)
  }

  /** `deriveNextKey`: every byte plus one; `bv8` addition wraps at 256. */
  function NextKey(key: seq<bv8>): (r: seq<bv8>)
    ensures |r| == |key|
    ensures forall i :: 0 <= i < |key| ==> r[i] == key[i] + 1
  {
    seq(|key|, i requires 0 <= i < |key| => key[i] + 1)
  }

  function PrevKey(key: seq<bv8>): (r: seq<bv8>)
    ensures |r| == |key|
  {
    seq(|key|, i requires 0 <= i < |key| => key[i] - 1)
  }

  /** One ratchet step can be undone byte for byte, so no two keys step to the same key. */
  lemma NextKeyInvertible(key: seq<bv8>)
    ensures PrevKey(NextKey(key)) == key
  {
    var n := NextKey(key);
    forall i | 0 <= i < |key|
      ensures PrevKey(n)[i] == key[i]
    {
      assert n[i] == key[i] + 1;
    }
  }

  /** The slot table's invariant: offsets are distinct multiples of 192 below `next`. */
  predicate SlotsDisjoint(offsets: map<string, int>, next: int)
  {
    (forall p :: p in offsets ==> 0 <= offsets[p] < next && offsets[p] % STATE_SIZE == 0)
    && (forall p, q :: p in offsets && q in offsets && p != q ==> offsets[p] != offsets[q])
  }

  /** Every registered slot ends at or before `next`. */
  predicate SlotsBelow(offsets: map<string, int>, next: int)
  {
    forall p :: p in offsets ==> offsets[p] + STATE_SIZE <= next
  }

  /** Registering a new peer at `next` and moving `next` one slot on keeps the slot table's invariants. */
  lemma SlotAdded(offsets: map<string, int>, next: int, peerId: string)
    requires SlotsDisjoint(offsets, next) && SlotsBelow(offsets, next)
    requires peerId !in offsets && 0 <= next && next % STATE_SIZE == 0
    ensures SlotsDisjoint(offsets[peerId := next], next + STATE_SIZE)
    ensures SlotsBelow(offsets[peerId := next], next + STATE_SIZE)
    ensures (next + STATE_SIZE) % STATE_SIZE == 0
  {
  }

  /** Two distinct slot offsets are at least a slot apart. */
  lemma SlotsApart(a: int, b: int)
    requires a % STATE_SIZE == 0 && b % STATE_SIZE == 0 && a < b
    ensures a + STATE_SIZE <= b
  {
    assert (b - a) % STATE_SIZE == 0;
  }

  /**
   * `initializeSession` as written: the peer is registered at `next` before
   * the seed is copied, and a seed shorter than 32 bytes makes the copy throw
   * afterwards, so the peer stays registered while `next` does not move.
   */
  function InitializeAsWritten(offsets: map<string, int>, next: int, capacity: int, peerId: string, seed: seq<bv8>): (r: (map<string, int>, int))
    ensures peerId in offsets || next >= capacity ==> r == (offsets, next)
  {
    if peerId in offsets || next >= capacity then (offsets, next)
    else if |seed| < KEY_SIZE then (offsets[peerId := next], next)
    else (offsets[peerId := next], next + STATE_SIZE)
  }

  /**
   * As written, a short seed followed by a good one gives two peers the same
   * slot, so the second peer's keys overwrite the first's.
   */
  lemma ShortSeedSharesSlot()
    ensures var (o1, n1) := InitializeAsWritten(map[], 0, 2 * STATE_SIZE, "a", []);
      var (o2, n2) := InitializeAsWritten(o1, n1, 2 * STATE_SIZE, "b", Zeros(KEY_SIZE));
      "a" in o2 && "b" in o2 && o2["a"] == o2["b"] && !SlotsDisjoint(o2, n2)
  {
  }

  /** The corrected registration: a seed too short for a slot is refused before anything changes. */
  function Initialize(offsets: map<string, int>, next: int, capacity: int, peerId: string, seed: seq<bv8>): (r: (map<string, int>, int))
    ensures peerId in offsets || next >= capacity || |seed| < KEY_SIZE ==> r == (offsets, next)
    ensures !(peerId in offsets || next >= capacity || |seed| < KEY_SIZE) ==>
      r == (offsets[peerId := next], next + STATE_SIZE)
  {
    if peerId in offsets || next >= capacity || |seed| < KEY_SIZE then (offsets, next)
    else (offsets[peerId := next], next + STATE_SIZE)
  }

  /** The corrected registration keeps every peer in a slot of its own. */
  lemma InitializeKeepsSlotsDisjoint(offsets: map<string, int>, next: int, capacity: int, peerId: string, seed: seq<bv8>)
    requires SlotsDisjoint(offsets, next) && 0 <= next && next % STATE_SIZE == 0
    ensures SlotsDisjoint(Initialize(offsets, next, capacity, peerId, seed).0, Initialize(offsets, next, capacity, peerId, seed).1)
    ensures Initialize(offsets, next, capacity, peerId, seed).1 % STATE_SIZE == 0
  {
    var (o, n) := Initialize(offsets, next, capacity, peerId, seed);
    if n != next {
      forall p | p in o
        ensures 0 <= o[p] < n && o[p] % STATE_SIZE == 0
      {
        if p != peerId {
          assert o[p] == offsets[p];
        } else {
          assert o[p] == next && n == next + STATE_SIZE;
        }
      }
      forall p, q | p in o && q in o && p != q
        ensures o[p] != o[q]
      {
        if p != peerId && q != peerId {
          assert o[p] == offsets[p] && o[q] == offsets[q];
        } else if p == peerId {
          assert o[q] == offsets[q] < next;
        } else {
          assert o[p] == offsets[p] < next;
        }
      }
    }
  }

  /** What `initializeSession` did. */
  datatype InitOutcome = AlreadyKnown | PageFull | SeedTooShort | Placed(offset: int)

  class RatchetStateManager {
    const maxSessions: int
    const memoryPage: array<bv8>
    var sessionOffsets: map<string, int>
    var nextOffset: int

    ghost predicate Valid()
      reads this
    {
      memoryPage.Length == maxSessions * STATE_SIZE
      && 0 <= nextOffset <= memoryPage.Length && nextOffset % STATE_SIZE == 0
      && SlotsDisjoint(sessionOffsets, nextOffset)
      && SlotsBelow(sessionOffsets, nextOffset)
    }

    /** `allocateDirect` refuses a negative size; the size is a 32-bit product. */
    constructor(maxSessions: int)
      requires 0 <= maxSessions && maxSessions * STATE_SIZE <= INT_MAX
      ensures Valid() && this.maxSessions == maxSessions && fresh(memoryPage)
      ensures sessionOffsets == map[] && nextOffset == 0
      ensures forall i :: 0 <= i < memoryPage.Length ==> memoryPage[i] == 0
    {
      this.maxSessions := maxSessions;
      memoryPage := new bv8[maxSessions * STATE_SIZE](i => 0);
      sessionOffsets := map[];
      nextOffset := 0;
    }

    method InitializeSession(peerId: string, rootSeed: seq<bv8>) returns (o: InitOutcome)
      requires Valid()
      modifies this, memoryPage
      ensures Valid()
      ensures (sessionOffsets, nextOffset)
           == Initialize(old(sessionOffsets), old(nextOffset), memoryPage.Length, peerId, rootSeed)
      ensures o == AlreadyKnown <==> peerId in old(sessionOffsets)
      ensures o.Placed? ==> |rootSeed| >= KEY_SIZE && o.offset + STATE_SIZE <= memoryPage.Length
      ensures o.Placed? ==> o.offset == old(nextOffset) && memoryPage[o.offset..o.offset + STATE_SIZE] == SlotBytes(rootSeed)
      ensures o.Placed? ==> forall i :: 0 <= i < memoryPage.Length && !(o.offset <= i < o.offset + STATE_SIZE) ==>
        memoryPage[i] == old(memoryPage[i])
      ensures !o.Placed? ==> memoryPage[..] == old(memoryPage[..])
    {
      if peerId in sessionOffsets {
        return AlreadyKnown;
      }
      if nextOffset >= maxSessions * STATE_SIZE {
        return PageFull;
      }
      if |rootSeed| < KEY_SIZE {
        return SeedTooShort;
      }
      var off := nextOffset;
      SlotsApart(off, memoryPage.Length);
      SlotAdded(sessionOffsets, off, peerId);
      sessionOffsets := sessionOffsets[peerId := off];
      WriteSlot(memoryPage, off, SlotBytes(rootSeed));
      nextOffset := nextOffset + STATE_SIZE;
      return Placed(off);
    }

    /** Returns the current sending key and advances it in place. */
    method GetSendingKey(peerId: string) returns (r: Option<seq<bv8>>)
      requires Valid()
      modifies memoryPage
      ensures r.None? <==> peerId !in sessionOffsets
      ensures r.None? ==> memoryPage[..] == old(memoryPage[..])
      ensures r.Some? ==>
        var k := sessionOffsets[peerId] + SENDING_KEY;
        r.value == old(memoryPage[k..k + KEY_SIZE]) && memoryPage[k..k + KEY_SIZE] == NextKey(r.value)
        && forall i :: 0 <= i < memoryPage.Length && !(k <= i < k + KEY_SIZE) ==> memoryPage[i] == old(memoryPage[i])
    {
      if peerId !in sessionOffsets {
        return None;
      }
      var offset := sessionOffsets[peerId];
      var key := memoryPage[offset + SENDING_KEY..offset + SENDING_KEY + KEY_SIZE];
      AdvanceKey(memoryPage, offset + SENDING_KEY);
      return Some(key);
    }

    /** Zeroes the whole page and forgets every session. */
    method ConstitutionalWipe()
      requires Valid()
      modifies this, memoryPage
      ensures Valid() && sessionOffsets == map[] && nextOffset == 0
      ensures forall i :: 0 <= i < memoryPage.Length ==> memoryPage[i] == 0
    {
      forall i | 0 <= i < memoryPage.Length {
        memoryPage[i] := 0;
      }
      sessionOffsets := map[];
      nextOffset := 0;
    }
  }

  /** Copies a slot's bytes to `off`, leaving the rest of the page alone. */
  method WriteSlot(page: array<bv8>, off: int, bytes: seq<bv8>)
    requires |bytes| == STATE_SIZE && 0 <= off && off + STATE_SIZE <= page.Length
    modifies page
    ensures page[off..off + STATE_SIZE] == bytes
    ensures forall i :: 0 <= i < page.Length && !(off <= i < off + STATE_SIZE) ==> page[i] == old(page[i])
  {
    forall i | 0 <= i < STATE_SIZE {
      page[off + i] := bytes[i];
    }
    assert page[off..off + STATE_SIZE] == bytes;
  }

  /** Overwrites the key at `k` with its successor, leaving the rest of the page alone. */
  method AdvanceKey(page: array<bv8>, k: int)
    requires 0 <= k && k + KEY_SIZE <= page.Length
    modifies page
    ensures page[k..k + KEY_SIZE] == NextKey(old(page[k..k + KEY_SIZE]))
    ensures forall i :: 0 <= i < page.Length && !(k <= i < k + KEY_SIZE) ==> page[i] == old(page[i])
  {
    var nextKey := NextKey(page[k..k + KEY_SIZE]);
    forall i | 0 <= i < KEY_SIZE {
      page[k + i] := nextKey[i];
    }
    assert page[k..k + KEY_SIZE] == nextKey;
  }

  /**
   * Advancing one peer's sending key leaves every byte of every other
   * peer's slot as it was.
   */
  method OtherSlotsUntouched(m: RatchetStateManager, p: string, q: string) returns (r: Option<seq<bv8>>)
    requires m.Valid() && p in m.sessionOffsets && q in m.sessionOffsets && p != q
    modifies m.memoryPage
    ensures var o := m.sessionOffsets[q];
      m.memoryPage[o..o + STATE_SIZE] == old(m.memoryPage[o..o + STATE_SIZE])
  {
    var op, oq := m.sessionOffsets[p], m.sessionOffsets[q];
    if op < oq { SlotsApart(op, oq); } else { SlotsApart(oq, op); }
    SlotsApart(oq, m.memoryPage.Length);
    r := m.GetSendingKey(p);
  }
}
