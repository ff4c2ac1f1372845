/**
 * The envelope router: purges old history, drops envelopes it has already
 * seen, hands envelopes addressed to this node (or broadcast) to the
 * application, and relays the others with one less TTL and one more hop.
 *
 * The two callbacks are modelled as the list of calls the engine makes, in
 * order; the seen-message history is a map from message id to the time it
 * was first seen.
 */
module Routing {
  import opened MeshTypes
  import opened JvmArith
  import Collections

  const HISTORY_EXPIRY_MS: int := 300000

  /** A call of `onMessageToMe` or of `onRelayRequired`, with its argument. */
  datatype Callback = MessageToMe(envelope: MessageEnvelope) | RelayRequired(envelope: MessageEnvelope)

  /** The history after `cleanupHistory`: entries at most five minutes old. */
  function Recent(history: map<string, int>, now: int): (r: map<string, int>)
    ensures forall k :: k in r <==> k in history && now - history[k] <= HISTORY_EXPIRY_MS
    ensures forall k :: k in r ==> r[k] == history[k]
  {
    map k | k in history && now - history[k] <= HISTORY_EXPIRY_MS :: history[k]
  }

  /** The copy handed to `onRelayRequired`; the hop count is a 32-bit Int. */
  function Relayed(e: MessageEnvelope, ownNodeId: string): (r: MessageEnvelope)
    ensures r.lastHopNodeId == ownNodeId && r.ttl == e.ttl - 1
    ensures INT_MIN <= r.hopCount <= INT_MAX
    ensures INT_MIN <= e.hopCount < INT_MAX ==> r.hopCount == e.hopCount + 1
    ensures r.(lastHopNodeId := e.lastHopNodeId, ttl := e.ttl, hopCount := e.hopCount) == e
  {
    e.(lastHopNodeId := ownNodeId, ttl := e.ttl - 1, hopCount := Wrap32(e.hopCount + 1))
  }

  function ForMe(e: MessageEnvelope, ownNodeId: string): bool
  {
    e.targetId == ownNodeId || e.targetId == BROADCAST
  }

  function NeedsRelay(e: MessageEnvelope, ownNodeId: string): bool
  {
    e.targetId != ownNodeId && e.ttl > 0
  }

  /**
   * Only a broadcast is both delivered here and relayed; an envelope for
   * another node whose ttl has run out is neither.
   */
  lemma DeliveryCases(e: MessageEnvelope, ownNodeId: string)
    ensures ForMe(e, ownNodeId) && NeedsRelay(e, ownNodeId) <==>
              e.targetId == BROADCAST && ownNodeId != BROADCAST && e.ttl > 0
    ensures !ForMe(e, ownNodeId) && !NeedsRelay(e, ownNodeId) <==>
              e.targetId != ownNodeId && e.targetId != BROADCAST && e.ttl <= 0
  {
  }

  /** The history and the callbacks made for one incoming envelope. */
  function Process(history: map<string, int>, ownNodeId: string, e: MessageEnvelope, now: int): (r: (map<string, int>, seq<Callback>))
    ensures e.id in Recent(history, now) ==> r == (Recent(history, now), [])
    ensures e.id !in Recent(history, now) ==> r.0 == Recent(history, now)[e.id := now]
  {
    var h := Recent(history, now);
    if e.id in h then (h, [])
    else
      var toMe := if ForMe(e, ownNodeId) then [MessageToMe(e)] else [];
      var relay := if NeedsRelay(e, ownNodeId) then [RelayRequired(Relayed(e, ownNodeId))] else [];
      (h[e.id := now], toMe + relay)
  }

  function CountToMe(cbs: seq<Callback>): nat
  {
    if cbs == [] then 0 else CountToMe(cbs[..|cbs| - 1]) + if cbs[|cbs| - 1].MessageToMe? then 1 else 0
  }

  function CountRelays(cbs: seq<Callback>): nat
  {
    if cbs == [] then 0 else CountRelays(cbs[..|cbs| - 1]) + if cbs[|cbs| - 1].RelayRequired? then 1 else 0
  }

  /** The callbacks for a fresh envelope, counted by kind. */
  lemma FreshCallbacks(history: map<string, int>, ownNodeId: string, e: MessageEnvelope, now: int)
    requires e.id !in Recent(history, now)
    ensures var cbs := Process(history, ownNodeId, e, now).1;
      && CountToMe(cbs) == (if ForMe(e, ownNodeId) then 1 else 0)
      && CountRelays(cbs) == (if NeedsRelay(e, ownNodeId) then 1 else 0)
      && (forall c :: c in cbs && c.MessageToMe? ==> c.envelope == e)
      && (forall c :: c in cbs && c.RelayRequired? ==> c.envelope == Relayed(e, ownNodeId))
  {
    var cbs := Process(history, ownNodeId, e, now).1;
    var m, x := MessageToMe(e), RelayRequired(Relayed(e, ownNodeId));
    if ForMe(e, ownNodeId) && NeedsRelay(e, ownNodeId) {
      assert cbs == [m, x] && cbs[..1] == [m] && [m][..0] == [];
      assert CountToMe(cbs) == CountToMe([m]) == 1;
      assert CountRelays(cbs) == CountRelays([m]) + 1 == 1;
    } else if ForMe(e, ownNodeId) {
      assert cbs == [m] && cbs[..0] == [];
    } else if NeedsRelay(e, ownNodeId) {
      assert cbs == [x] && cbs[..0] == [];
    } else {
      assert cbs == [];
    }
  }

  /** An envelope seen within the last five minutes triggers no callback. */
  lemma SeenIsSilent(history: map<string, int>, ownNodeId: string, e: MessageEnvelope, now: int)
    requires e.id in history && now - history[e.id] <= HISTORY_EXPIRY_MS
    ensures Process(history, ownNodeId, e, now).1 == []
    ensures Process(history, ownNodeId, e, now).0 == Recent(history, now)
  {
  }

  /**
   * The purge runs before the seen check: an entry older than five minutes
   * does not stop its message, which is handled exactly as a new one.
   */
  lemma PurgedBeforeCheck(history: map<string, int>, ownNodeId: string, e: MessageEnvelope, now: int)
    requires e.id in history && now - history[e.id] > HISTORY_EXPIRY_MS
    ensures Process(history, ownNodeId, e, now).1 == Process(map[], ownNodeId, e, now).1
  {
    assert e.id !in Recent(history, now);
    assert e.id !in Recent(map[], now);
  }

  /**
   * The relayed copy: this node as last hop, one less TTL, one more hop,
   * everything else unchanged; a relay needs a positive TTL, so the copy's
   * TTL is never negative.
   */
  lemma RelayedCopy(e: MessageEnvelope, ownNodeId: string)
    ensures var c := Relayed(e, ownNodeId);
      && c.lastHopNodeId == ownNodeId && c.ttl == e.ttl - 1
      && (INT_MIN <= e.hopCount < INT_MAX ==> c.hopCount == e.hopCount + 1)
      && c.id == e.id && c.senderId == e.senderId && c.targetId == e.targetId
      && c.payload == e.payload && c.timestamp == e.timestamp
      && c.calculatedPriority == e.calculatedPriority && c.messageType == e.messageType
    ensures NeedsRelay(e, ownNodeId) ==> Relayed(e, ownNodeId).ttl >= 0
  {
  }

  /** A broadcast with TTL left is both delivered here and relayed. */
  lemma BroadcastDeliveredAndRelayed(history: map<string, int>, ownNodeId: string, e: MessageEnvelope, now: int)
    requires e.id !in Recent(history, now)
    requires e.targetId == BROADCAST && ownNodeId != BROADCAST && e.ttl > 0
    ensures Process(history, ownNodeId, e, now).1 == [MessageToMe(e), RelayRequired(Relayed(e, ownNodeId))]
  {
  }

  /**
   * Each id is relayed at most once in five minutes: once a fresh envelope
   * is processed, a copy with the same id arriving no later than five
   * minutes on triggers nothing.
   */
  lemma RelayedOnce(history: map<string, int>, ownNodeId: string, e: MessageEnvelope, now: int,
                    e2: MessageEnvelope, now2: int)
    requires e.id !in Recent(history, now)
    requires e2.id == e.id && now2 - now <= HISTORY_EXPIRY_MS
    ensures Process(Process(history, ownNodeId, e, now).0, ownNodeId, e2, now2).1 == []
  {
    var h1 := Process(history, ownNodeId, e, now).0;
    assert h1[e.id] == now;
  }

  class RoutingEngine {
    const ownNodeId: string
    /** Message id to arrival time. */
    var seenMessages: map<string, int>

    constructor(ownNodeId: string)
      ensures this.ownNodeId == ownNodeId && seenMessages == map[]
    {
      this.ownNodeId := ownNodeId;
      seenMessages := map[];
    }

    /** The callbacks made, in order; `now` is the clock reading. */
    method ProcessIncomingEnvelope(envelope: MessageEnvelope, now: int) returns (callbacks: seq<Callback>)
      modifies this
      ensures (seenMessages, callbacks) == Process(old(seenMessages), ownNodeId, envelope, now)
    {
      CleanupHistory(now);
      if envelope.id in seenMessages {
        return [];
      }
      seenMessages := seenMessages[envelope.id := now];
      var toMe: seq<Callback> := [];
      if envelope.targetId == ownNodeId || envelope.targetId == BROADCAST {
        toMe := [MessageToMe(envelope)];
      }
      var relay: seq<Callback> := [];
      if envelope.targetId != ownNodeId && envelope.ttl > 0 {
        var updatedEnvelope := envelope.(lastHopNodeId := ownNodeId, ttl := envelope.ttl - 1,
                                         hopCount := Wrap32(envelope.hopCount + 1));
        relay := [RelayRequired(updatedEnvelope)];
      }
      callbacks := toMe + relay;
    }

    /** Walks the history once and removes every entry older than five minutes. */
    method CleanupHistory(now: int)
      modifies this
      ensures seenMessages == Recent(old(seenMessages), now)
    {
      var history := seenMessages;
      var remaining := history.Keys;
      var kept := history;
      while remaining != {}
        invariant remaining <= history.Keys
        invariant kept == map k | k in history && (k in remaining || now - history[k] <= HISTORY_EXPIRY_MS) :: history[k]
        decreases |remaining|
      {
        Collections.HasElement(remaining);
        var k :| k in remaining;
        if now - history[k] > HISTORY_EXPIRY_MS {
          kept := kept - {k};
        }
        remaining := remaining - {k};
      }
      seenMessages := kept;
    }
  }
}
