/**
 * Enterprise private-mesh isolation: only peers on the allow-list may
 * connect, and a message is relayed only when its sender is allowed and its
 * target is allowed or is the broadcast address.
 */
module PrivateMeshIsolation {
  import opened MeshTypes

  /** The relay rule on the allow-list `allowed`. */
  predicate RelayAllowed(allowed: set<string>, message: MessageEnvelope)
  {
    message.senderId in allowed && (message.targetId == BROADCAST || message.targetId in allowed)
  }

  class PrivateMeshIsolation {
    /** The keys of the allow-list map. */
    var allowedPeers: set<string>

    constructor(initialAllowedPeers: set<string>)
      ensures allowedPeers == initialAllowedPeers
    {
      allowedPeers := initialAllowedPeers;
    }

    function CanAcceptPeer(peerId: string): (allowed: bool)
      reads this
      ensures allowed <==> peerId in allowedPeers
    {
      peerId in allowedPeers
    }

    function CanRelayMessage(message: MessageEnvelope): (canRelay: bool)
      reads this
      ensures canRelay <==> CanAcceptPeer(message.senderId)
                            && (message.targetId == BROADCAST || CanAcceptPeer(message.targetId))
      ensures canRelay <==> RelayAllowed(allowedPeers, message)
    {
      RelayAllowed(allowedPeers, message)
    }

    /** Clears the list and inserts `peers` one at a time. */
    method UpdateAllowedPeers(peers: seq<string>)
      modifies this
      ensures allowedPeers == set p | p in peers
    {
      allowedPeers := {};
      var i := 0;
      while i < |peers|
        invariant 0 <= i <= |peers|
        invariant allowedPeers == set p | p in peers[..i]
      {
        assert peers[..i + 1] == peers[..i] + [peers[i]];
        allowedPeers := allowedPeers + {peers[i]};
        i := i + 1;
      }
      assert peers[..i] == peers;
    }

    function GetAllowedPeers(): (r: set<string>)
      reads this
      ensures forall p :: p in r <==> CanAcceptPeer(p)
    {
      allowedPeers
    }

    method AddAllowedPeer(peerId: string)
      modifies this
      ensures allowedPeers == old(allowedPeers) + {peerId}
    {
      allowedPeers := allowedPeers + {peerId};
    }

    method RemoveAllowedPeer(peerId: string)
      modifies this
      ensures allowedPeers == old(allowedPeers) - {peerId}
    {
      allowedPeers := allowedPeers - {peerId};
    }
  }

  /** Messages between allowed peers, and broadcasts from them, are relayed; nothing from an outsider is. */
  lemma RelayRule(allowed: set<string>, message: MessageEnvelope)
    ensures message.senderId !in allowed ==> !RelayAllowed(allowed, message)
    ensures message.senderId in allowed && message.targetId == BROADCAST ==> RelayAllowed(allowed, message)
    ensures message.targetId != BROADCAST && message.targetId !in allowed ==> !RelayAllowed(allowed, message)
  {
  }

  /** The enterprise isolation test: two trusted peers, one unknown. */
  method IsolationScenario(e: MessageEnvelope)
  {
    var strategy := new PrivateMeshIsolation({"trusted-peer-1", "trusted-peer-2"});
    assert strategy.CanAcceptPeer("trusted-peer-1") && strategy.CanAcceptPeer("trusted-peer-2");
    assert !strategy.CanAcceptPeer("unknown-peer");
    assert strategy.CanRelayMessage(e.(senderId := "trusted-peer-1", targetId := "trusted-peer-2"));
    assert !strategy.CanRelayMessage(e.(senderId := "unknown-peer", targetId := "trusted-peer-1"));
    assert !strategy.CanRelayMessage(e.(senderId := "trusted-peer-1", targetId := "unknown-peer"));
    strategy.RemoveAllowedPeer("trusted-peer-2");
    assert !strategy.CanRelayMessage(e.(senderId := "trusted-peer-1", targetId := "trusted-peer-2"));
    strategy.AddAllowedPeer("trusted-peer-2");
    assert strategy.CanAcceptPeer("trusted-peer-2");
  }
}
