/**
 * LifenetAssembler: collects the fragments of a message into a session
 * keyed by message id, rebuilds one lost fragment from the parity chunk,
 * and hands back the reassembled payload. Sessions older than five
 * minutes are swept on every call.
 */
module Assembler {
  import opened Wrappers
  import opened Chunks
  import ForwardErrorCorrection

  const SESSION_TIMEOUT_MS: int := 300000

  /** One entry of a session's fragment map. */
  datatype Entry = Entry(index: int, data: seq<bv8>)

  /**
   * A reassembly session. `fragments` is an insertion-ordered map from
   * chunk index to chunk, kept as its entry sequence.
   */
  datatype AssemblySession = AssemblySession(
    messageId: int,
    totalChunks: int,
    fragments: seq<Entry>,
    parityChunk: Option<seq<bv8>>,
    startTime: int)

  /** The exceptions a call can end in. */
  datatype Failure = NullPointer | IndexOutOfBounds

  /** What `onFragmentReceived` gives back: null, the payload, or an exception. */
  datatype Reply = Null | Bytes(bytes: seq<bv8>) | Throws(failure: Failure)

  // ---------------------------------------------------------------------
  // The fragment map: a lookup, overwrite in place, append for a new key.

  function Lookup(es: seq<Entry>, k: int): Option<seq<bv8>>
  {
    if es == [] then None
    else if es[|es| - 1].index == k then Some(es[|es| - 1].data)
    else Lookup(es[..|es| - 1], k)
  }

  /** No index occurs twice. */
  predicate Distinct(es: seq<Entry>)
  {
    es == [] || (Distinct(es[..|es| - 1]) && Lookup(es[..|es| - 1], es[|es| - 1].index).None?)
  }

  lemma LookupSnoc(es: seq<Entry>, e: Entry)
    ensures forall j :: Lookup(es + [e], j) == if j == e.index then Some(e.data) else Lookup(es, j)
    ensures Distinct(es + [e]) <==> Distinct(es) && Lookup(es, e.index).None?
  {
    assert (es + [e])[..|es|] == es;
  }

  /** Overwrites the value of a present key where it stands. */
  function Replace(es: seq<Entry>, k: int, v: seq<bv8>): (r: seq<Entry>)
    requires Lookup(es, k).Some?
    ensures |r| == |es|
    ensures forall j :: Lookup(r, j) == if j == k then Some(v) else Lookup(es, j)
    ensures Distinct(es) ==> Distinct(r)
  {
    var init := es[..|es| - 1];
    var last := es[|es| - 1];
    if last.index == k then
      LookupSnoc(init, Entry(k, v));
      init + [Entry(k, v)]
    else
      var r := Replace(init, k, v);
      LookupSnoc(r, last);
      r + [last]
  }

  /** `fragments[k] = v`: a present key keeps its place, a new key goes last. */
  function Store(es: seq<Entry>, k: int, v: seq<bv8>): (r: seq<Entry>)
    ensures |r| == if Lookup(es, k).Some? then |es| else |es| + 1
    ensures forall j :: Lookup(r, j) == if j == k then Some(v) else Lookup(es, j)
    ensures Distinct(es) ==> Distinct(r)
  {
    if Lookup(es, k).Some? then Replace(es, k, v)
    else
      LookupSnoc(es, Entry(k, v));
      es + [Entry(k, v)]
  }

  /** `fragments.values.toList()`: the chunks in insertion order. */
  function Values(es: seq<Entry>): (r: seq<seq<bv8>>)
    ensures |r| == |es|
  {
    if es == [] then [] else Values(es[..|es| - 1]) + [es[|es| - 1].data]
  }

  /** `fragments.values.sumOf { it.size }`. */
  function TotalSize(es: seq<Entry>): nat
  {
    if es == [] then 0 else TotalSize(es[..|es| - 1]) + |es[|es| - 1].data|
  }

  /** Every index lies in [0, n). */
  predicate Inside(es: seq<Entry>, n: int)
  {
    es == [] || (Inside(es[..|es| - 1], n) && 0 <= es[|es| - 1].index < n)
  }

  /** How many of the indices 0 .. n-1 are present. */
  function Present(es: seq<Entry>, n: int): nat
  {
    if n <= 0 then 0 else Present(es, n - 1) + (if Lookup(es, n - 1).Some? then 1 else 0)
  }

  /** All of 0 .. n-1 are present. */
  predicate AllPresent(es: seq<Entry>, n: int)
  {
    forall i :: 0 <= i < n ==> Lookup(es, i).Some?
  }

  lemma AllPresentSnoc(es: seq<Entry>, n: int)
    requires n > 0
    ensures AllPresent(es, n) <==> AllPresent(es, n - 1) && Lookup(es, n - 1).Some?
  {
  }

  /** Total length of the chunks at indices 0 .. n-1. */
  function SizeUpTo(es: seq<Entry>, n: int): nat
  {
    if n <= 0 then 0
    else SizeUpTo(es, n - 1) + (match Lookup(es, n - 1) case Some(d) => |d| case None => 0)
  }

  /** The chunks at indices 0 .. n-1 in index order, or None if one is absent. */
  function Concat(es: seq<Entry>, n: int): Option<seq<bv8>>
  {
    if n <= 0 then Some([])
    else
      var prev := Concat(es, n - 1);
      var d := Lookup(es, n - 1);
      if prev.Some? && d.Some? then Some(prev.value + d.value) else None
  }

  /** The first index in i .. n-1 that is absent, or n if there is none. */
  function FirstMissing(es: seq<Entry>, i: int, n: int): (r: int)
    ensures i <= n ==> i <= r <= n
    ensures r < n ==> Lookup(es, r).None?
    ensures forall j :: i <= j < r ==> Lookup(es, j).Some?
    decreases n - i
  {
    if i >= n then i
    else if Lookup(es, i).None? then i
    else FirstMissing(es, i + 1, n)
  }

  // ---------------------------------------------------------------------
  // Counting lemmas.

  lemma {:induction false} NoneEmpty(n: int)
    ensures Present([], n) == 0 && SizeUpTo([], n) == 0
    decreases n
  {
    if n > 0 {
      NoneEmpty(n - 1);
    }
  }

  /** Adding an entry with a new index counts it once, if it lies in [0, n). */
  lemma {:induction false} PresentSnoc(es: seq<Entry>, e: Entry, n: int)
    requires Lookup(es, e.index).None?
    ensures Present(es + [e], n) == Present(es, n) + (if 0 <= e.index < n then 1 else 0)
    ensures SizeUpTo(es + [e], n) == SizeUpTo(es, n) + (if 0 <= e.index < n then |e.data| else 0)
    decreases n
  {
    LookupSnoc(es, e);
    if n > 0 {
      PresentSnoc(es, e, n - 1);
    }
  }

  /**
   * With distinct indices, the chunks counted below n are at most all of
   * them, and exactly all of them when every index lies below n.
   */
  lemma {:induction false} PresentBound(es: seq<Entry>, n: int)
    requires Distinct(es)
    ensures Present(es, n) <= |es| && SizeUpTo(es, n) <= TotalSize(es)
    ensures Inside(es, n) ==> Present(es, n) == |es| && SizeUpTo(es, n) == TotalSize(es)
    decreases |es|
  {
    if es == [] {
      NoneEmpty(n);
    } else {
      var init := es[..|es| - 1];
      assert es == init + [es[|es| - 1]];
      PresentBound(init, n);
      PresentSnoc(init, es[|es| - 1], n);
    }
  }

  /** Present counts n exactly when all of 0 .. n-1 are there. */
  lemma {:induction false} PresentAll(es: seq<Entry>, n: int)
    ensures Present(es, n) <= if n < 0 then 0 else n
    ensures n >= 0 ==> (Present(es, n) == n <==> AllPresent(es, n))
    decreases n
  {
    if n > 0 {
      PresentAll(es, n - 1);
      AllPresentSnoc(es, n);
    }
  }

  /** Concat succeeds exactly when all of 0 .. n-1 are there, and has SizeUpTo bytes. */
  lemma {:induction false} ConcatFacts(es: seq<Entry>, n: int)
    ensures Concat(es, n).Some? <==> AllPresent(es, n)
    ensures Concat(es, n).Some? ==> |Concat(es, n).value| == SizeUpTo(es, n)
    decreases n
  {
    if n > 0 {
      ConcatFacts(es, n - 1);
      AllPresentSnoc(es, n);
    }
  }

  lemma {:induction false} SizeMonotone(es: seq<Entry>, i: int, n: int)
    requires i <= n
    ensures SizeUpTo(es, i) <= SizeUpTo(es, n)
    decreases n - i
  {
    if i < n {
      SizeMonotone(es, i, n - 1);
    }
  }

  /**
   * Pigeonhole: with n - 1 distinct entries, some index in 0 .. n-1 is
   * absent, so the search for the missing index always finds one.
   */
  lemma GapExists(es: seq<Entry>, n: int)
    requires Distinct(es) && |es| == n - 1
    ensures 0 <= FirstMissing(es, 0, n) < n
  {
    PresentBound(es, n);
    PresentAll(es, n);
  }

  /**
   * With n distinct entries, all inside [0, n), every index 0 .. n-1 is
   * present, and their concatenation is all the stored bytes.
   */
  lemma Covered(es: seq<Entry>, n: int)
    requires Distinct(es) && |es| == n && Inside(es, n)
    ensures Concat(es, n).Some?
    ensures |Concat(es, n).value| == TotalSize(es)
  {
    PresentBound(es, n);
    PresentAll(es, n);
    ConcatFacts(es, n);
  }

  // ---------------------------------------------------------------------
  // Sessions.

  predicate Expired(s: AssemblySession, now: int)
  {
    now - s.startTime > SESSION_TIMEOUT_MS
  }

  /** One session per message id, stored under that id, with a well-formed map. */
  predicate WellFormed(m: map<int, AssemblySession>)
  {
    forall k :: k in m ==> m[k].messageId == k && Distinct(m[k].fragments)
  }

  /** `cleanExpiredSessions`: the sessions whose age is at most the timeout. */
  function Sweep(m: map<int, AssemblySession>, now: int): (r: map<int, AssemblySession>)
    ensures forall k :: k in r <==> k in m && !Expired(m[k], now)
    ensures forall k :: k in r ==> r[k] == m[k]
    ensures WellFormed(m) ==> WellFormed(r)
  {
    map k | k in m && !Expired(m[k], now) :: m[k]
  }

  /**
   * The buffer `finalizeSession` builds: sized to all stored chunks, with
   * chunks 0 .. totalChunks-1 written from the start; an absent one is
   * the NullPointerException of `put(null)`.
   */
  function Assemble(es: seq<Entry>, totalChunks: int): (r: Reply)
    requires Distinct(es)
    ensures r != Null
    ensures r.Bytes? <==> Concat(es, totalChunks).Some?
    ensures r.Bytes? ==> |r.bytes| == TotalSize(es)
  {
    match Concat(es, totalChunks)
    case None => Throws(NullPointer)
    case Some(c) =>
      ConcatFacts(es, totalChunks);
      PresentBound(es, totalChunks);
      Bytes(c + Zeros(TotalSize(es) - |c|))
  }

  lemma AssembleCases(es: seq<Entry>, totalChunks: int)
    requires Distinct(es)
    ensures Concat(es, totalChunks).None? ==> Assemble(es, totalChunks) == Throws(NullPointer)
    ensures Concat(es, totalChunks).Some? ==>
              var c := Concat(es, totalChunks).value;
              |c| <= TotalSize(es) && Assemble(es, totalChunks) == Bytes(c + Zeros(TotalSize(es) - |c|))
  {
    ConcatFacts(es, totalChunks);
    PresentBound(es, totalChunks);
  }

  /** `finalizeSession(id)`: remove the session and assemble it, or null if it is gone. */
  function Finalize(m: map<int, AssemblySession>, id: int): (r: (map<int, AssemblySession>, Reply))
    requires WellFormed(m)
    ensures WellFormed(r.0) && r.0 == m - {id}
    ensures r.1 == Null <==> id !in m
  {
    if id in m then (m - {id}, Assemble(m[id].fragments, m[id].totalChunks)) else (m, Null)
  }

  /** `getOrPut`: the existing session, or a fresh one started now. */
  function Opened(m: map<int, AssemblySession>, id: int, totalChunks: int, now: int): AssemblySession
  {
    if id in m then m[id] else AssemblySession(id, totalChunks, [], None, now)
  }

  /** The incoming chunk stored in the session: as parity, or under its index. */
  function Stored(s: AssemblySession, chunkIndex: int, isFec: bool, data: seq<bv8>): AssemblySession
  {
    if isFec then s.(parityChunk := Some(data))
    else s.(fragments := Store(s.fragments, chunkIndex, data))
  }

  /**
   * `onFragmentReceived`, as a function of the session cache: the new
   * cache and the reply.
   */
  function Receive(m: map<int, AssemblySession>, messageId: int, totalChunks: int, chunkIndex: int,
                   isFec: bool, data: seq<bv8>, now: int): (r: (map<int, AssemblySession>, Reply))
    requires WellFormed(m)
    ensures WellFormed(r.0)
  {
    var s := Stored(Opened(m, messageId, totalChunks, now), chunkIndex, isFec, data);
    Decide(Sweep(m[messageId := s], now), s, totalChunks)
  }

  /**
   * The second half of `onFragmentReceived`, after the sweep: finalize at
   * the full count, recover one short of it with parity, else null.
   */
  function Decide(swept: map<int, AssemblySession>, s: AssemblySession, totalChunks: int): (r: (map<int, AssemblySession>, Reply))
    requires WellFormed(swept) && Distinct(s.fragments)
    ensures WellFormed(r.0)
  {
    if |s.fragments| == totalChunks then
      Finalize(swept, s.messageId)
    else if |s.fragments| == totalChunks - 1 && s.parityChunk.Some? then
      GapExists(s.fragments, totalChunks);
      var missing := FirstMissing(s.fragments, 0, totalChunks);
      match ForwardErrorCorrection.Recovered(Values(s.fragments), s.parityChunk.value)
      case None => (swept, Throws(IndexOutOfBounds))
      case Some(rec) =>
        var s' := s.(fragments := Store(s.fragments, missing, rec));
        Finalize(if s.messageId in swept then swept[s.messageId := s'] else swept, s.messageId)
    else
      (swept, Null)
  }

  // ---------------------------------------------------------------------
  // What a call does, stated about Receive.

  /**
   * A call that completes the count removes the session. When the
   * chunks are exactly the indices 0 .. n-1 of a session opened for n
   * chunks, the reply is their concatenation, with nothing appended.
   */
  lemma CompleteAssembles(m: map<int, AssemblySession>, messageId: int, totalChunks: int, chunkIndex: int,
                          data: seq<bv8>, now: int)
    requires WellFormed(m)
    requires var s := Stored(Opened(m, messageId, totalChunks, now), chunkIndex, false, data);
             |s.fragments| == totalChunks
    ensures var s := Stored(Opened(m, messageId, totalChunks, now), chunkIndex, false, data);
            var r := Receive(m, messageId, totalChunks, chunkIndex, false, data, now);
            && messageId !in r.0
            && (Expired(s, now) ==> r.1 == Null)
            && (!Expired(s, now) && s.totalChunks == totalChunks && Inside(s.fragments, totalChunks) ==>
                  r.1.Bytes? && Concat(s.fragments, totalChunks) == Some(r.1.bytes))
  {
    var s := Stored(Opened(m, messageId, totalChunks, now), chunkIndex, false, data);
    var swept := Sweep(m[messageId := s], now);
    var r := Receive(m, messageId, totalChunks, chunkIndex, false, data, now);
    assert r == Finalize(swept, messageId);
    if !Expired(s, now) && s.totalChunks == totalChunks && Inside(s.fragments, totalChunks) {
      assert swept[messageId] == s;
      Covered(s.fragments, totalChunks);
      AssembleCases(s.fragments, totalChunks);
      var c := Concat(s.fragments, totalChunks).value;
      assert c + Zeros(TotalSize(s.fragments) - |c|) == c;
    }
  }

  /**
   * Below the count, and without a parity chunk one short of it, the call
   * returns null; the session, with the chunk stored, is kept unless it
   * has expired, and every other live session is left as it was.
   */
  lemma PendingKeeps(m: map<int, AssemblySession>, messageId: int, totalChunks: int, chunkIndex: int,
                     isFec: bool, data: seq<bv8>, now: int)
    requires WellFormed(m)
    requires var s := Stored(Opened(m, messageId, totalChunks, now), chunkIndex, isFec, data);
             |s.fragments| != totalChunks && !(|s.fragments| == totalChunks - 1 && s.parityChunk.Some?)
    ensures var s := Stored(Opened(m, messageId, totalChunks, now), chunkIndex, isFec, data);
            var r := Receive(m, messageId, totalChunks, chunkIndex, isFec, data, now);
            && r.1 == Null
            && (messageId in r.0 <==> !Expired(s, now))
            && (messageId in r.0 ==> r.0[messageId] == s)
            && (forall k :: k != messageId && k in m && !Expired(m[k], now) ==> k in r.0 && r.0[k] == m[k])
  {
    var s := Stored(Opened(m, messageId, totalChunks, now), chunkIndex, isFec, data);
    var swept := Sweep(m[messageId := s], now);
    ReceiveDecides(m, messageId, totalChunks, chunkIndex, isFec, data, now);
    assert Decide(swept, s, totalChunks) == (swept, Null);
  }

  /**
   * An existing session keeps the message id and chunk count it was
   * opened with; a chunk stored under an index already present does not
   * change the count.
   */
  lemma FirstTotalKept(m: map<int, AssemblySession>, messageId: int, totalChunks: int, chunkIndex: int,
                       isFec: bool, data: seq<bv8>, now: int)
    requires WellFormed(m) && messageId in m
    ensures var s := Stored(Opened(m, messageId, totalChunks, now), chunkIndex, isFec, data);
            && s.messageId == messageId
            && s.totalChunks == m[messageId].totalChunks
            && s.startTime == m[messageId].startTime
            && (isFec ==> s.fragments == m[messageId].fragments && s.parityChunk == Some(data))
            && (!isFec && Lookup(m[messageId].fragments, chunkIndex).Some? ==>
                  |s.fragments| == |m[messageId].fragments|)
  {
  }

  /**
   * One short of the count with parity present: the smallest absent index
   * in 0 .. totalChunks-1 receives the chunks XOR-ed out of the parity,
   * and the message is finalized; a chunk longer than the parity makes
   * `recover` throw, and the session then stays.
   */
  lemma RecoveryFills(m: map<int, AssemblySession>, messageId: int, totalChunks: int, chunkIndex: int,
                      isFec: bool, data: seq<bv8>, now: int)
    requires WellFormed(m)
    requires var s := Stored(Opened(m, messageId, totalChunks, now), chunkIndex, isFec, data);
             |s.fragments| == totalChunks - 1 && s.parityChunk.Some?
    ensures var s := Stored(Opened(m, messageId, totalChunks, now), chunkIndex, isFec, data);
            var r := Receive(m, messageId, totalChunks, chunkIndex, isFec, data, now);
            var missing := FirstMissing(s.fragments, 0, totalChunks);
            var rec := ForwardErrorCorrection.Recovered(Values(s.fragments), s.parityChunk.value);
            && 0 <= missing < totalChunks
            && Lookup(s.fragments, missing).None?
            && (forall j :: 0 <= j < missing ==> Lookup(s.fragments, j).Some?)
            && (rec.None? ==> r.1 == Throws(IndexOutOfBounds) && (messageId in r.0 <==> !Expired(s, now)))
            && (rec.Some? ==> messageId !in r.0)
            && (rec.Some? && Expired(s, now) ==> r.1 == Null)
            && (rec.Some? && !Expired(s, now) ==>
                  r.1 == Assemble(Store(s.fragments, missing, rec.value), s.totalChunks))
  {
    var s := Stored(Opened(m, messageId, totalChunks, now), chunkIndex, isFec, data);
    GapExists(s.fragments, totalChunks);
  }

  // ---------------------------------------------------------------------
  // The FEC round trip: every chunk of a message but one, in any order,
  // and the parity of all of them give the message back.

  /** Byte i of the chunk at index j, 0 if the chunk is absent. */
  function ByteOf(es: seq<Entry>, j: int, i: nat): bv8
  {
    match Lookup(es, j)
    case Some(d) => ForwardErrorCorrection.ByteAt(d, i)
    case None => 0
  }

  /** Column i of the parity over the chunks at indices 0 .. n-1 that are present. */
  function ColumnBelow(es: seq<Entry>, n: int, i: nat): bv8
  {
    if n <= 0 then 0 else ColumnBelow(es, n - 1, i) ^ ByteOf(es, n - 1, i)
  }

  lemma {:induction false} ColumnBelowEmpty(n: int, i: nat)
    ensures ColumnBelow([], n, i) == 0
    decreases n
  {
    if n > 0 {
      ColumnBelowEmpty(n - 1, i);
    }
  }

  /** Adding an entry with a new index XORs its byte in once, if it lies in [0, n). */
  lemma {:induction false} ColumnBelowSnoc(es: seq<Entry>, e: Entry, n: int, i: nat)
    requires Lookup(es, e.index).None?
    ensures ColumnBelow(es + [e], n, i) ==
            ColumnBelow(es, n, i) ^ (if 0 <= e.index < n then ForwardErrorCorrection.ByteAt(e.data, i) else 0)
    decreases n
  {
    if n > 0 {
      ColumnBelowSnoc(es, e, n - 1, i);
      ByteOfSnoc(es, e, n - 1, i);
    }
  }

  lemma ByteOfSnoc(es: seq<Entry>, e: Entry, j: int, i: nat)
    ensures ByteOf(es + [e], j, i) == if j == e.index then ForwardErrorCorrection.ByteAt(e.data, i) else ByteOf(es, j, i)
  {
    LookupSnoc(es, e);
  }

  /**
   * With distinct indices inside [0, n), the parity column over the map's
   * values, in insertion order, is the one over indices 0 .. n-1.
   */
  lemma {:induction false} ValuesColumn(es: seq<Entry>, n: int, i: nat)
    requires Distinct(es) && Inside(es, n)
    ensures ForwardErrorCorrection.Column(Values(es), i) == ColumnBelow(es, n, i)
    decreases |es|
  {
    if es == [] {
      ColumnBelowEmpty(n, i);
    } else {
      var init, last := es[..|es| - 1], es[|es| - 1];
      assert es == init + [last];
      assert Values(es)[..|es| - 1] == Values(init);
      ValuesColumn(init, n, i);
      ColumnBelowSnoc(init, last, n, i);
    }
  }

  /** Every value of a well-formed map is stored under some index. */
  lemma {:induction false} ValuesStored(es: seq<Entry>)
    requires Distinct(es)
    ensures forall v :: v in Values(es) ==> exists j :: Lookup(es, j) == Some(v)
    decreases |es|
  {
    if es != [] {
      var init, last := es[..|es| - 1], es[|es| - 1];
      assert es == init + [last];
      ValuesStored(init);
      LookupSnoc(init, last);
      assert Values(es) == Values(init) + [last.data];
      assert Lookup(init, last.index).None?;
      forall v | v in Values(es)
        ensures exists j :: Lookup(es, j) == Some(v)
      {
        if v == last.data {
          assert Lookup(es, last.index) == Some(v);
        } else {
          assert v in Values(init);
          var j :| Lookup(init, j) == Some(v);
          assert j != last.index;
          assert Lookup(es, j) == Some(v);
        }
      }
      assert forall v :: v in Values(es) ==> exists j :: Lookup(es, j) == Some(v);
    } else {
      assert Values(es) == [];
    }
  }

  /** The session holds chunk j of `fs` under index j for every j but `k`, and nothing else. */
  ghost predicate HoldsAllBut(es: seq<Entry>, fs: seq<seq<bv8>>, k: int)
  {
    forall j :: Lookup(es, j) == if 0 <= j < |fs| && j != k then Some(fs[j]) else None
  }

  /** Holding all chunks of `fs` but `k`, the column over 0 .. m-1 is that of `fs` below m without `k`. */
  lemma {:induction false} ColumnAllBut(es: seq<Entry>, fs: seq<seq<bv8>>, k: int, m: int, i: nat)
    requires HoldsAllBut(es, fs, k) && 0 <= k < |fs| && 0 <= m <= |fs|
    ensures ColumnBelow(es, m, i) ^ (if k < m then ForwardErrorCorrection.ByteAt(fs[k], i) else 0)
            == ForwardErrorCorrection.Column(fs[..m], i)
    decreases m
  {
    if m > 0 {
      ColumnAllBut(es, fs, k, m - 1, i);
      assert Lookup(es, m - 1) == if m - 1 != k then Some(fs[m - 1]) else None;
      ForwardErrorCorrection.ColumnSnoc(fs, m - 1);
    }
  }

  /** Every present index lies in [0, n). */
  lemma {:induction false} InsideFromLookup(es: seq<Entry>, n: int)
    requires forall j :: Lookup(es, j).Some? ==> 0 <= j < n
    ensures Inside(es, n)
    decreases |es|
  {
    if es != [] {
      var init, last := es[..|es| - 1], es[|es| - 1];
      assert es == init + [last];
      LookupSnoc(init, last);
      assert Lookup(es, last.index).Some?;
      forall j | Lookup(init, j).Some?
        ensures 0 <= j < n
      {
        assert j != last.index ==> Lookup(es, j) == Lookup(init, j);
      }
      InsideFromLookup(init, n);
    }
  }

  /** Indices 0 .. m-1 holding `gs` in order concatenate to their flattening. */
  lemma {:induction false} ConcatIs(es: seq<Entry>, gs: seq<seq<bv8>>, m: int)
    requires 0 <= m <= |gs|
    requires forall j :: 0 <= j < m ==> Lookup(es, j) == Some(gs[j])
    ensures Concat(es, m) == Some(Flatten(gs[..m]))
    decreases m
  {
    if m > 0 {
      ConcatIs(es, gs, m - 1);
      assert gs[..m][..m - 1] == gs[..m - 1];
    }
  }

  /** How many chunks a session holding all but one of `fs` has. */
  lemma CountAllBut(es: seq<Entry>, fs: seq<seq<bv8>>, k: int)
    requires Distinct(es) && HoldsAllBut(es, fs, k) && 0 <= k < |fs|
    ensures Inside(es, |fs|) && |es| == |fs| - 1
    ensures FirstMissing(es, 0, |fs|) == k
  {
    InsideFromLookup(es, |fs|);
    PresentBound(es, |fs|);
    PresentAllBut(es, fs, k, |fs|);
    GapExists(es, |fs|);
    var r := FirstMissing(es, 0, |fs|);
    assert Lookup(es, r).None?;
  }

  /** All of 0 .. m-1 but `k` are present. */
  lemma {:induction false} PresentAllBut(es: seq<Entry>, fs: seq<seq<bv8>>, k: int, m: int)
    requires HoldsAllBut(es, fs, k) && 0 <= k < |fs| && 0 <= m <= |fs|
    ensures Present(es, m) == if m <= k then m else m - 1
    decreases m
  {
    if m > 0 {
      PresentAllBut(es, fs, k, m - 1);
    }
  }

  /**
   * The parity of all chunks and every chunk but `k`, in whatever order
   * the session holds them, rebuild chunk `k` padded with zeros to the
   * longest chunk.
   */
  lemma RecoveredAllBut(es: seq<Entry>, fs: seq<seq<bv8>>, k: int)
    requires Distinct(es) && HoldsAllBut(es, fs, k) && 0 <= k < |fs|
    ensures ForwardErrorCorrection.Recovered(Values(es), ForwardErrorCorrection.Parity(fs))
            == Some(ForwardErrorCorrection.Padded(fs[k], ForwardErrorCorrection.MaxLength(fs)))
  {
    var parity := ForwardErrorCorrection.Parity(fs);
    var others := ForwardErrorCorrection.Without(fs, k);
    CountAllBut(es, fs, k);
    ForwardErrorCorrection.SingleErasure(fs, k);
    ValuesStored(es);
    forall v | v in Values(es)
      ensures |v| <= |parity|
    {
      var j :| Lookup(es, j) == Some(v);
      assert fs[j] in fs;
    }
    forall i | 0 <= i < |parity|
      ensures ForwardErrorCorrection.XorOut(parity, Values(es))[i] == ForwardErrorCorrection.XorOut(parity, others)[i]
    {
      ValuesColumn(es, |fs|, i);
      ColumnAllBut(es, fs, k, |fs|, i);
      ForwardErrorCorrection.ColumnWithout(fs, k, i);
      assert fs[..|fs|] == fs;
    }
    assert ForwardErrorCorrection.XorOut(parity, Values(es)) == ForwardErrorCorrection.XorOut(parity, others);
  }

  /** Filling in the missing chunk completes the message in index order. */
  lemma FilledIn(es: seq<Entry>, fs: seq<seq<bv8>>, k: int, v: seq<bv8>)
    requires Distinct(es) && HoldsAllBut(es, fs, k) && 0 <= k < |fs|
    ensures Assemble(Store(es, k, v), |fs|) == Bytes(Flatten(fs[k := v]))
  {
    var n := |fs|;
    CountAllBut(es, fs, k);
    var gs := fs[k := v];
    var es' := Store(es, k, v);
    assert forall j :: Lookup(es', j) == if 0 <= j < n then Some(gs[j]) else None;
    InsideFromLookup(es', n);
    Covered(es', n);
    AssembleCases(es', n);
    ConcatIs(es', gs, n);
    assert gs[..n] == gs;
  }

  /** One short of the count with a recovered chunk: the session is removed and finalized with it. */
  lemma DecideRecovers(swept: map<int, AssemblySession>, s: AssemblySession, n: int, rec: seq<bv8>)
    requires WellFormed(swept) && s.messageId in swept && swept[s.messageId] == s
    requires Distinct(s.fragments) && |s.fragments| == n - 1 && s.parityChunk.Some?
    requires ForwardErrorCorrection.Recovered(Values(s.fragments), s.parityChunk.value) == Some(rec)
    ensures Decide(swept, s, n) ==
            (swept - {s.messageId}, Assemble(Store(s.fragments, FirstMissing(s.fragments, 0, n), rec), s.totalChunks))
  {
    var s' := s.(fragments := Store(s.fragments, FirstMissing(s.fragments, 0, n), rec));
    var m' := swept[s.messageId := s'];
    assert m' - {s.messageId} == swept - {s.messageId};
    assert Decide(swept, s, n) == Finalize(m', s.messageId);
  }

  /**
   * A live session holding every chunk of `fs` but `k`, in any order, and
   * the parity of all of them: the call removes the session and replies
   * with the chunks concatenated, chunk `k` padded with zeros to the
   * longest chunk.
   */
  lemma RecoveredInAnyOrder(swept: map<int, AssemblySession>, s: AssemblySession, fs: seq<seq<bv8>>, k: int)
    requires WellFormed(swept) && s.messageId in swept && swept[s.messageId] == s
    requires Distinct(s.fragments) && HoldsAllBut(s.fragments, fs, k) && 0 <= k < |fs|
    requires s.totalChunks == |fs| && s.parityChunk == Some(ForwardErrorCorrection.Parity(fs))
    ensures Decide(swept, s, |fs|) ==
            (swept - {s.messageId},
             Bytes(Flatten(fs[k := ForwardErrorCorrection.Padded(fs[k], ForwardErrorCorrection.MaxLength(fs))])))
  {
    var pad := ForwardErrorCorrection.Padded(fs[k], ForwardErrorCorrection.MaxLength(fs));
    CountAllBut(s.fragments, fs, k);
    RecoveredAllBut(s.fragments, fs, k);
    DecideRecovers(swept, s, |fs|, pad);
    FilledIn(s.fragments, fs, k, pad);
  }

  /** The call, up to the decision: the stored session is well-formed and, if live, kept for it. */
  lemma ReceiveDecides(m: map<int, AssemblySession>, messageId: int, totalChunks: int, chunkIndex: int,
                       isFec: bool, data: seq<bv8>, now: int)
    requires WellFormed(m)
    ensures var s := Stored(Opened(m, messageId, totalChunks, now), chunkIndex, isFec, data);
            var swept := Sweep(m[messageId := s], now);
            && s.messageId == messageId && Distinct(s.fragments) && WellFormed(swept)
            && (!Expired(s, now) ==> messageId in swept && swept[messageId] == s)
            && Receive(m, messageId, totalChunks, chunkIndex, isFec, data, now) == Decide(swept, s, totalChunks)
  {
  }

  /** In a well-cut message every chunk but the last is as long as the longest. */
  lemma FullChunk(fs: seq<seq<bv8>>, c: int, k: int)
    requires Sized(fs, c) && 0 <= k < |fs| - 1
    ensures |fs[k]| == ForwardErrorCorrection.MaxLength(fs)
  {
    var max := ForwardErrorCorrection.MaxLength(fs);
    assert fs[k] in fs;
    var j :| 0 <= j < |fs| && |fs[j]| == max;
    assert |fs[j]| <= c;
  }

  /** Padding the last chunk appends the zeros to the message. */
  lemma PaddedLast(fs: seq<seq<bv8>>, p: seq<bv8>, z: seq<bv8>)
    requires fs != [] && p == fs[|fs| - 1] + z
    ensures Flatten(fs[|fs| - 1 := p]) == Flatten(fs) + z
  {
    var k := |fs| - 1;
    var init := fs[..k];
    assert fs == init + [fs[k]];
    assert fs[k := p] == init + [p];
    FlattenSnoc(init, p);
    FlattenSnoc(init, fs[k]);
  }

  /** Padding the chunk of a well-cut message appends the padding at the end, if anywhere. */
  lemma PaddedAtEnd(fs: seq<seq<bv8>>, c: int, k: int)
    requires Sized(fs, c) && 0 <= k < |fs|
    ensures var max := ForwardErrorCorrection.MaxLength(fs);
            && |fs[k]| <= max
            && Flatten(fs[k := ForwardErrorCorrection.Padded(fs[k], max)]) == Flatten(fs) + Zeros(max - |fs[k]|)
  {
    if k < |fs| - 1 {
      PaddedFull(fs, c, k);
    } else {
      PaddedLastChunk(fs, k);
    }
  }

  lemma PaddedLastChunk(fs: seq<seq<bv8>>, k: int)
    requires k == |fs| - 1 && 0 <= k
    ensures var max := ForwardErrorCorrection.MaxLength(fs);
            && |fs[k]| <= max
            && Flatten(fs[k := ForwardErrorCorrection.Padded(fs[k], max)]) == Flatten(fs) + Zeros(max - |fs[k]|)
  {
    var max := ForwardErrorCorrection.MaxLength(fs);
    assert fs[k] in fs;
    PaddedLast(fs, ForwardErrorCorrection.Padded(fs[k], max), Zeros(max - |fs[k]|));
  }

  /** Padding a chunk other than the last changes nothing. */
  lemma PaddedFull(fs: seq<seq<bv8>>, c: int, k: int)
    requires Sized(fs, c) && 0 <= k < |fs| - 1
    ensures var max := ForwardErrorCorrection.MaxLength(fs);
            && |fs[k]| == max
            && Flatten(fs[k := ForwardErrorCorrection.Padded(fs[k], max)]) == Flatten(fs) + Zeros(max - |fs[k]|)
  {
    FullChunk(fs, c, k);
    var max := ForwardErrorCorrection.MaxLength(fs);
    assert ForwardErrorCorrection.Padded(fs[k], max) == fs[k];
    assert fs[k := fs[k]] == fs;
    assert Flatten(fs) + Zeros(0) == Flatten(fs);
  }

  /**
   * End to end: a payload cut into chunks the way `fragmentate` cuts it
   * (`Fragmenter.DataOfJoined` turns its contract into the first two
   * requirements), one chunk lost. A live session that holds every other
   * chunk, in whatever order they came, and the parity of all of them is
   * removed and the reply is the payload, followed by zeros up to the
   * longest chunk when the lost chunk is the short last one.
   * `ReceiveDecides` says that the call which stores the last of these is
   * decided this way.
   */
  lemma FecRoundTrip(swept: map<int, AssemblySession>, s: AssemblySession, payload: seq<bv8>,
                     fs: seq<seq<bv8>>, c: int, k: int)
    requires Flatten(fs) == payload && Sized(fs, c) && 0 <= k < |fs|
    requires WellFormed(swept) && s.messageId in swept && swept[s.messageId] == s && Distinct(s.fragments)
    requires s.totalChunks == |fs| && HoldsAllBut(s.fragments, fs, k)
    requires s.parityChunk == Some(ForwardErrorCorrection.Parity(fs))
    ensures var longest := ForwardErrorCorrection.MaxLength(fs);
            && |fs[k]| <= longest
            && Decide(swept, s, |fs|) == (swept - {s.messageId}, Bytes(payload + Zeros(longest - |fs[k]|)))
            && (|fs[k]| == longest ==> Decide(swept, s, |fs|).1 == Bytes(payload))
  {
    RecoveredInAnyOrder(swept, s, fs, k);
    PaddedAtEnd(fs, c, k);
    assert payload + Zeros(0) == payload;
  }

  // ---------------------------------------------------------------------
  // The imperative assembler.

  /** `(0 until n).first { it !in fragments }`, one short of the count. */
  method FindMissing(es: seq<Entry>, n: int) returns (i: int)
    requires Distinct(es) && |es| == n - 1
    ensures i == FirstMissing(es, 0, n)
    ensures 0 <= i < n && Lookup(es, i).None?
  {
    GapExists(es, n);
    i := 0;
    while Lookup(es, i).Some?
      invariant 0 <= i <= FirstMissing(es, 0, n)
      invariant FirstMissing(es, i, n) == FirstMissing(es, 0, n)
      decreases n - i
    {
      i := i + 1;
    }
  }

  /**
   * The buffer of `finalizeSession`: allocated to the total size of the
   * chunks, then chunks 0 .. totalChunks-1 put one after the other.
   */
  method BuildBuffer(es: seq<Entry>, totalChunks: int) returns (r: Reply)
    requires Distinct(es)
    ensures r == Assemble(es, totalChunks)
  {
    var totalSize := TotalSize(es);
    var buf := new bv8[totalSize](_ => 0);
    var pos := 0;
    var i := 0;
    PresentBound(es, totalChunks);
    while i < totalChunks
      invariant 0 <= i && (totalChunks >= 0 ==> i <= totalChunks) && (totalChunks < 0 ==> i == 0)
      invariant buf.Length == totalSize && Filled(es, i, buf[..], pos)
    {
      if Lookup(es, i).None? {
        MissingChunkThrows(es, totalChunks, i);
        return Throws(NullPointer);
      }
      SizeMonotone(es, i + 1, totalChunks);
      pos := PutChunk(buf, es, i, pos);
      i := i + 1;
    }
    FilledBuffer(es, totalChunks, buf[..], pos);
    r := Bytes(buf[..]);
  }

  /** Chunks 0 .. i-1 fill the first pos bytes of `s`, and the rest are still zero. */
  ghost predicate Filled(es: seq<Entry>, i: int, s: seq<bv8>, pos: int)
  {
    0 <= pos == SizeUpTo(es, i) <= |s| && Concat(es, i) == Some(s[..pos])
    && forall j :: pos <= j < |s| ==> s[j] == 0
  }

  /** One turn of the loop: chunk i put at `pos`. */
  method PutChunk(buf: array<bv8>, es: seq<Entry>, i: int, pos: int) returns (next: int)
    requires Filled(es, i, buf[..], pos) && i >= 0 && Lookup(es, i).Some?
    requires SizeUpTo(es, i + 1) <= buf.Length
    modifies buf
    ensures Filled(es, i + 1, buf[..], next)
  {
    var d := Lookup(es, i).value;
    PutBytes(buf, pos, d);
    next := pos + |d|;
    assert buf[..next] == old(buf[..pos]) + d;
  }

  lemma MissingChunkThrows(es: seq<Entry>, totalChunks: int, i: int)
    requires Distinct(es) && 0 <= i < totalChunks && Lookup(es, i).None?
    ensures Assemble(es, totalChunks) == Throws(NullPointer)
  {
    ConcatFacts(es, totalChunks);
    AssembleCases(es, totalChunks);
  }

  /** A buffer of TotalSize bytes holding the chunks in order, then zeros, is the assembled message. */
  lemma FilledBuffer(es: seq<Entry>, totalChunks: int, s: seq<bv8>, pos: int)
    requires Distinct(es) && |s| == TotalSize(es) && Filled(es, totalChunks, s, pos)
    ensures Assemble(es, totalChunks) == Bytes(s)
  {
    assert s == s[..pos] + Zeros(|s| - pos);
    AssembleCases(es, totalChunks);
  }

  /** `ByteBuffer.put(src)` at position `pos`. */
  method PutBytes(buf: array<bv8>, pos: nat, src: seq<bv8>)
    requires pos + |src| <= buf.Length
    modifies buf
    ensures buf[..] == old(buf[..pos]) + src + old(buf[pos + |src|..])
  {
    var j := 0;
    while j < |src|
      invariant 0 <= j <= |src|
      invariant forall k :: 0 <= k < buf.Length && !(pos <= k < pos + j) ==> buf[k] == old(buf[k])
      invariant forall k :: pos <= k < pos + j ==> buf[k] == src[k - pos]
    {
      buf[pos + j] := src[j];
      j := j + 1;
    }
    assert buf[..] == old(buf[..pos]) + src + old(buf[pos + |src|..]);
  }

  class LifenetAssembler {
    var sessionCache: map<int, AssemblySession>

    ghost predicate Valid()
      reads this
    {
      WellFormed(sessionCache)
    }

    constructor ()
      ensures sessionCache == map[] && Valid()
    {
      sessionCache := map[];
    }

    /** `cleanExpiredSessions`: drop every session older than the timeout. */
    method CleanExpiredSessions(now: int)
      requires Valid()
      modifies this
      ensures Valid()
      ensures sessionCache == Sweep(old(sessionCache), now)
    {
      sessionCache := map k | k in sessionCache && !Expired(sessionCache[k], now) :: sessionCache[k];
    }

    /** `finalizeSession(messageId)`. */
    method FinalizeSession(messageId: int) returns (r: Reply)
      requires Valid()
      modifies this
      ensures Valid()
      ensures (sessionCache, r) == Finalize(old(sessionCache), messageId)
    {
      if messageId !in sessionCache {
        return Null;
      }
      var session := sessionCache[messageId];
      sessionCache := sessionCache - {messageId};
      r := BuildBuffer(session.fragments, session.totalChunks);
    }

    /** `onFragmentReceived`: store the chunk, sweep, then finalize or recover if due. */
    method OnFragmentReceived(messageId: int, totalChunks: int, chunkIndex: int, isFec: bool,
                              data: seq<bv8>, now: int) returns (r: Reply)
      requires Valid()
      modifies this
      ensures Valid()
      ensures (sessionCache, r) == Receive(old(sessionCache), messageId, totalChunks, chunkIndex, isFec, data, now)
    {
      var session := Opened(sessionCache, messageId, totalChunks, now);
      if isFec {
        session := session.(parityChunk := Some(data));
      } else {
        session := session.(fragments := Store(session.fragments, chunkIndex, data));
      }
      sessionCache := sessionCache[messageId := session];
      CleanExpiredSessions(now);
      r := Complete(session, totalChunks);
    }

    /** What `onFragmentReceived` does once the chunk is stored and the cache swept. */
    method Complete(session: AssemblySession, totalChunks: int) returns (r: Reply)
      requires Valid() && Distinct(session.fragments)
      modifies this
      ensures Valid()
      ensures (sessionCache, r) == Decide(old(sessionCache), session, totalChunks)
    {
      var messageId := session.messageId;
      if |session.fragments| == totalChunks {
        r := FinalizeSession(messageId);
        return;
      }
      if |session.fragments| == totalChunks - 1 && session.parityChunk.Some? {
        var missingIndex := FindMissing(session.fragments, totalChunks);
        var recovered := ForwardErrorCorrection.Recover(Values(session.fragments), session.parityChunk.value);
        if recovered.None? {
          return Throws(IndexOutOfBounds);
        }
        var updated := session.(fragments := Store(session.fragments, missingIndex, recovered.value));
        if messageId in sessionCache {
          sessionCache := sessionCache[messageId := updated];
        }
        r := FinalizeSession(messageId);
        return;
      }
      r := Null;
    }
  }
}
