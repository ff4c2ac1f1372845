/**
 * Loop-safe store-and-forward: a bounded seen-message cache that drops
 * messages this node already processed, expires messages whose TTL is spent,
 * and never reflects a message to the hop it came from.
 *
 * The cache is a LinkedHashMap in access order whose eldest entry is evicted
 * once the size exceeds the capacity. It is modelled as the sequence of its
 * entries in iteration order, eldest first. The only write is the insertion
 * of an id that is not present, and `containsKey` does not count as an
 * access, so the iteration order is the insertion order.
 */
module Forwarding {
  import opened MeshTypes

  const DEFAULT_MAX_SEEN_MESSAGES: nat := 10000

  datatype ForwardingDecision = AcceptAndForward | DropLoop | DropExpired

  /** One cache entry: a message id and the time it was recorded. */
  datatype SeenEntry = SeenEntry(id: string, lastSeen: int)

  /** An incoming message as far as the engine looks at it. */
  datatype Incoming = Incoming(id: string, ttl: int, now: int)

  predicate Seen(cache: seq<SeenEntry>, id: string)
  {
    exists i :: 0 <= i < |cache| && cache[i].id == id
  }

  /** The keys of a map are distinct. */
  predicate DistinctIds(cache: seq<SeenEntry>)
  {
    forall i, j :: 0 <= i < j < |cache| ==> cache[i].id != cache[j].id
  }

  /**
   * Insertion of a fresh id followed by the eviction check: when the size
   * exceeds `max`, the eldest entry goes.
   */
  function Record(cache: seq<SeenEntry>, id: string, now: int, max: nat): (r: seq<SeenEntry>)
    ensures |cache| <= max ==> |r| <= max
    ensures max > 0 ==> |r| > 0 && r[|r| - 1] == SeenEntry(id, now)
    ensures forall x :: Seen(r, x) ==> Seen(cache, x) || x == id
    ensures DistinctIds(cache) && !Seen(cache, id) ==> DistinctIds(r)
  {
    var grown := cache + [SeenEntry(id, now)];
    assert forall i :: 0 <= i < |cache| ==> grown[i] == cache[i];
    if |grown| > max then grown[1..] else grown
  }

  /** The cache and the decision after one incoming message. */
  function Receive(cache: seq<SeenEntry>, max: nat, id: string, ttl: int, now: int): (r: (seq<SeenEntry>, ForwardingDecision))
    ensures r.1 == DropLoop <==> Seen(cache, id)
    ensures r.1 == DropLoop ==> r.0 == cache
    ensures r.1 == DropExpired <==> !Seen(cache, id) && ttl <= 0
    ensures r.1 == AcceptAndForward <==> !Seen(cache, id) && ttl > 0
    ensures r.1 != DropLoop ==> r.0 == Record(cache, id, now, max)
  {
    if Seen(cache, id) then (cache, DropLoop)
    else (Record(cache, id, now, max), if ttl <= 0 then DropExpired else AcceptAndForward)
  }

  /** The cache after a sequence of incoming messages. */
  function Run(cache: seq<SeenEntry>, max: nat, msgs: seq<Incoming>): seq<SeenEntry>
    decreases |msgs|
  {
    if msgs == [] then cache
    else Run(Receive(cache, max, msgs[0].id, msgs[0].ttl, msgs[0].now).0, max, msgs[1..])
  }

  /** An expired fresh message is still recorded, so a replay of it is a loop. */
  lemma ExpiredStillRecorded(cache: seq<SeenEntry>, max: nat, id: string, ttl: int, now: int)
    requires max > 0 && !Seen(cache, id) && ttl <= 0
    ensures Receive(cache, max, id, ttl, now).1 == DropExpired
    ensures Seen(Receive(cache, max, id, ttl, now).0, id)
  {
    var r := Record(cache, id, now, max);
    assert r[|r| - 1].id == id;
  }

  /** The cache stays within its capacity and keeps its keys distinct. */
  lemma BoundedCache(cache: seq<SeenEntry>, max: nat, id: string, ttl: int, now: int)
    requires |cache| <= max && DistinctIds(cache)
    ensures |Receive(cache, max, id, ttl, now).0| <= max
    ensures DistinctIds(Receive(cache, max, id, ttl, now).0)
  {
  }

  /**
   * A fresh id arriving at a full cache evicts exactly the eldest entry,
   * which is then forgotten.
   */
  lemma LruEviction(cache: seq<SeenEntry>, max: nat, id: string, now: int)
    requires 0 < max == |cache| && DistinctIds(cache) && !Seen(cache, id)
    ensures Record(cache, id, now, max) == cache[1..] + [SeenEntry(id, now)]
    ensures !Seen(Record(cache, id, now, max), cache[0].id)
  {
    var r := Record(cache, id, now, max);
    assert r == cache[1..] + [SeenEntry(id, now)];
  }

  /**
   * An id with fewer than `max - |msgs|` entries recorded after it is still
   * in the cache after `msgs`: fresh arrivals push it towards the eldest end
   * by one place each, and loops do not move it.
   */
  lemma {:induction false} StaysSeen(cache: seq<SeenEntry>, max: nat, p: nat, msgs: seq<Incoming>)
    requires p < |cache| && |cache| - 1 - p + |msgs| < max
    ensures Seen(Run(cache, max, msgs), cache[p].id)
    decreases |msgs|
  {
    if msgs == [] {
      assert cache[p].id == cache[p].id;
    } else {
      var m := msgs[0];
      var next := Receive(cache, max, m.id, m.ttl, m.now).0;
      if Seen(cache, m.id) {
        StaysSeen(next, max, p, msgs[1..]);
      } else {
        var grown := cache + [SeenEntry(m.id, m.now)];
        if |grown| > max {
          assert next == grown[1..] && next[p - 1] == cache[p];
          StaysSeen(next, max, p - 1, msgs[1..]);
        } else {
          assert next == grown && next[p] == cache[p];
          StaysSeen(next, max, p, msgs[1..]);
        }
      }
    }
  }

  /**
   * ACCEPT_AND_FORWARD happens at most once per id while the id stays in the
   * cache: after an acceptance, any `max - 1` further messages leave the id
   * seen, so the next copy of it is a loop.
   */
  lemma AcceptedOnce(cache: seq<SeenEntry>, max: nat, id: string, ttl: int, now: int,
                     later: seq<Incoming>, ttl2: int, now2: int)
    requires Receive(cache, max, id, ttl, now).1 == AcceptAndForward
    requires |later| < max
    ensures Receive(Run(Receive(cache, max, id, ttl, now).0, max, later), max, id, ttl2, now2).1 == DropLoop
  {
    var c1 := Receive(cache, max, id, ttl, now).0;
    assert c1[|c1| - 1].id == id;
    StaysSeen(c1, max, |c1| - 1, later);
  }

  /** The entries recorded at or after `cutoff`, in their original order. */
  function Keep(cache: seq<SeenEntry>, cutoff: int): (r: seq<SeenEntry>)
    ensures |r| <= |cache|
    ensures forall e :: e in r <==> e in cache && e.lastSeen >= cutoff
  {
    if cache == [] then []
    else
      var rest := Keep(cache[..|cache| - 1], cutoff);
      var e := cache[|cache| - 1];
      assert cache == cache[..|cache| - 1] + [e];
      if e.lastSeen >= cutoff then rest + [e] else rest
  }

  lemma KeepStep(cache: seq<SeenEntry>, i: nat, cutoff: int)
    requires i < |cache|
    ensures Keep(cache[..i + 1], cutoff)
         == if cache[i].lastSeen >= cutoff then Keep(cache[..i], cutoff) + [cache[i]] else Keep(cache[..i], cutoff)
  {
    assert cache[..i + 1][..i] == cache[..i];
  }

  /** Pruning keeps the keys distinct. */
  lemma {:induction false} KeepDistinct(cache: seq<SeenEntry>, cutoff: int)
    requires DistinctIds(cache)
    ensures DistinctIds(Keep(cache, cutoff))
  {
    if cache != [] {
      var init := cache[..|cache| - 1];
      var e := cache[|cache| - 1];
      KeepDistinct(init, cutoff);
      var rest := Keep(init, cutoff);
      forall x | x in rest
        ensures x.id != e.id
      {
        var i :| 0 <= i < |init| && init[i] == x;
      }
    }
  }

  /** An id survives pruning exactly when its entry is not older than the cutoff. */
  lemma KeepSeen(cache: seq<SeenEntry>, cutoff: int, id: string)
    requires DistinctIds(cache)
    ensures Seen(Keep(cache, cutoff), id) <==> exists i :: 0 <= i < |cache| && cache[i].id == id && cache[i].lastSeen >= cutoff
  {
    var r := Keep(cache, cutoff);
    if Seen(r, id) {
      var j :| 0 <= j < |r| && r[j].id == id;
      assert r[j] in cache;
    }
    if exists i :: 0 <= i < |cache| && cache[i].id == id && cache[i].lastSeen >= cutoff {
      var i :| 0 <= i < |cache| && cache[i].id == id && cache[i].lastSeen >= cutoff;
      assert cache[i] in r;
    }
  }

  class ForwardingEngine {
    const localNodeId: string
    const maxSeenMessages: nat
    /** The seen-message cache, eldest first. */
    var seen: seq<SeenEntry>

    ghost predicate Valid()
      reads this
    {
      |seen| <= maxSeenMessages && DistinctIds(seen)
    }

    /** A negative capacity is rejected by the map's constructor. */
    constructor(localNodeId: string, maxSeenMessages: int)
      requires maxSeenMessages >= 0
      ensures Valid()
      ensures this.localNodeId == localNodeId && this.maxSeenMessages == maxSeenMessages
      ensures seen == []
    {
      this.localNodeId := localNodeId;
      this.maxSeenMessages := maxSeenMessages;
      seen := [];
    }

    method OnMessageReceived(envelope: MessageEnvelope, now: int) returns (d: ForwardingDecision)
      requires Valid()
      modifies this
      ensures Valid()
      ensures (seen, d) == Receive(old(seen), maxSeenMessages, envelope.id, envelope.ttl, now)
    {
      var msgId := envelope.id;
      if Seen(seen, msgId) {
        return DropLoop;
      }
      seen := Record(seen, msgId, now, maxSeenMessages);
      if envelope.ttl <= 0 {
        return DropExpired;
      }
      return AcceptAndForward;
    }

    /** Never back to the previous hop, never to this node. */
    function ShouldForwardToPeer(envelope: MessageEnvelope, peerNodeId: string): (r: bool)
      ensures !r <==> peerNodeId == envelope.lastHopNodeId || peerNodeId == localNodeId
    {
      if peerNodeId == envelope.lastHopNodeId then false
      else if peerNodeId == localNodeId then false
      else true
    }

    /** Removes every entry recorded before `now - maxAgeMs`. */
    method PruneOlderThan(maxAgeMs: int, now: int)
      requires Valid()
      modifies this
      ensures Valid()
      ensures seen == Keep(old(seen), now - maxAgeMs)
    {
      var cutoff := now - maxAgeMs;
      var entries := seen;
      var kept: seq<SeenEntry> := [];
      var i := 0;
      while i < |entries|
        invariant 0 <= i <= |entries|
        invariant kept == Keep(entries[..i], cutoff)
      {
        KeepStep(entries, i, cutoff);
        if entries[i].lastSeen >= cutoff {
          kept := kept + [entries[i]];
        }
        i := i + 1;
      }
      assert entries[..i] == entries;
      KeepDistinct(entries, cutoff);
      seen := kept;
    }
  }
}
