/**
 * Cluster assignment: a node's channel (numbered from 1) is derived from
 * the hash of its id, so every node computes the same channel for the same
 * id; two nodes share a cluster when they share a channel.
 *
 * `String.hashCode()` is written out (s[0]*31^(n-1) + ... + s[n-1] on
 * 32-bit Ints) and `abs` is Kotlin's Int `abs`, which leaves Int.MIN_VALUE
 * negative. Each `char` of an id is taken as one UTF-16 code unit.
 */
module ClusterAssignment {
  import opened JvmArith

  /** `String.hashCode()`: h = 31 * h + c over the characters, wrapping at 32 bits. */
  function StringHash(s: string): (h: int)
    ensures INT_MIN <= h <= INT_MAX
    ensures |s| == 1 ==> h == s[0] as int
  {
    if s == [] then 0 else Wrap32(31 * StringHash(s[..|s| - 1]) + s[|s| - 1] as int)
  }

  /** Kotlin's `abs` on an Int: the magnitude, except that Int.MIN_VALUE is its own absolute value. */
  function JvmAbs(x: int): (r: int)
    requires INT_MIN <= x <= INT_MAX
    ensures x != INT_MIN ==> r == Abs(x)
    ensures x == INT_MIN ==> r == INT_MIN
  {
    Wrap32(Abs(x))
  }

  /** `getAssignedChannel` once the hash is known, as written: `abs(hash) % totalChannels + 1`. */
  function ChannelForHashAsWritten(hash: int, totalChannels: int): (c: int)
    requires INT_MIN <= hash <= INT_MAX
    ensures totalChannels <= 1 ==> c == 1
    ensures totalChannels > 1 && hash != INT_MIN ==> 1 <= c <= totalChannels
  {
    if totalChannels <= 1 then 1 else TruncRem(JvmAbs(hash), totalChannels) + 1
  }

  /** The hash Int.MIN_VALUE with three channels is sent to channel -1. */
  lemma MinHashLeavesRange()
    ensures ChannelForHashAsWritten(INT_MIN, 3) == -1
  {
    assert TruncRem(INT_MIN, 3) == -2 by {
      assert Abs(INT_MIN) % Abs(3) == 2;
    }
  }

  /** `getAssignedChannel(nodeId, totalChannels)` as written. */
  function GetAssignedChannelAsWritten(nodeId: string, totalChannels: int): (c: int)
    ensures totalChannels <= 1 ==> c == 1
    ensures totalChannels > 1 && StringHash(nodeId) != INT_MIN ==> 1 <= c <= totalChannels
  {
    ChannelForHashAsWritten(StringHash(nodeId), totalChannels)
  }

  /**
   * A node whose id hashes to Int.MIN_VALUE ("polygenelubricants" is one) is
   * assigned channel -1 in a three-channel mesh, a channel that does not exist.
   */
  lemma AssignedChannelOutOfRange(nodeId: string)
    requires StringHash(nodeId) == INT_MIN
    ensures GetAssignedChannelAsWritten(nodeId, 3) == -1
  {
    MinHashLeavesRange();
  }

  /** The hash of the witness id's first 3 characters, one `31 * h + c` step at a time. */
  lemma HashPrefix3()
    ensures StringHash("pol") == 111181
  {
    assert StringHash("p") == 112;
    assert "po"[..1] == "p";
    assert StringHash("po") == Wrap32(3583) == 3583;
    assert "pol"[..2] == "po";
    assert StringHash("pol") == Wrap32(111181) == 111181;
  }

  /** The hash of the witness id's first 6 characters, one `31 * h + c` step at a time. */
  lemma HashPrefix6()
    ensures StringHash("polyge") == -982654550
  {
    HashPrefix3();
    assert "poly"[..3] == "pol";
    assert StringHash("poly") == Wrap32(3446732) == 3446732;
    assert "polyg"[..4] == "poly";
    assert StringHash("polyg") == Wrap32(106848795) == 106848795;
    assert "polyge"[..5] == "polyg";
    assert StringHash("polyge") == Wrap32(3312312746) == -982654550;
  }

  /** The hash of the witness id's first 9 characters, one `31 * h + c` step at a time. */
  lemma HashPrefix9()
    ensures StringHash("polygenel") == 235499435
  {
    HashPrefix6();
    assert "polygen"[..6] == "polyge";
    assert StringHash("polygen") == Wrap32(-30462290940) == -397519868;
    assert "polygene"[..7] == "polygen";
    assert StringHash("polygene") == Wrap32(-12323115807) == 561786081;
    assert "polygenel"[..8] == "polygene";
    assert StringHash("polygenel") == Wrap32(17415368619) == 235499435;
  }

  /** The hash of the witness id's first 12 characters, one `31 * h + c` step at a time. */
  lemma HashPrefix12()
    ensures StringHash("polygenelubr") == 2082189306
  {
    HashPrefix9();
    assert "polygenelu"[..9] == "polygenel";
    assert StringHash("polygenelu") == Wrap32(7300482602) == -1289451990;
    assert "polygenelub"[..10] == "polygenelu";
    assert StringHash("polygenelub") == Wrap32(-39973011592) == -1318305928;
    assert "polygenelubr"[..11] == "polygenelub";
    assert StringHash("polygenelubr") == Wrap32(-40867483654) == 2082189306;
  }

  /** The hash of the witness id's first 15 characters, one `31 * h + c` step at a time. */
  lemma HashPrefix15()
    ensures StringHash("polygenelubrica") == -1710937011
  {
    HashPrefix12();
    assert "polygenelubri"[..12] == "polygenelubr";
    assert StringHash("polygenelubri") == Wrap32(64547868591) == 123359151;
    assert "polygenelubric"[..13] == "polygenelubri";
    assert StringHash("polygenelubric") == Wrap32(3824133780) == -470833516;
    assert "polygenelubrica"[..14] == "polygenelubric";
    assert StringHash("polygenelubrica") == Wrap32(-14595838899) == -1710937011;
  }

  /** The hash of the witness id's first 18 characters, one `31 * h + c` step at a time. */
  lemma HashPrefix18()
    ensures StringHash("polygenelubricants") == -2147483648
  {
    HashPrefix15();
    assert "polygenelubrican"[..15] == "polygenelubrica";
    assert StringHash("polygenelubrican") == Wrap32(-53039047231) == -1499439679;
    assert "polygenelubricant"[..16] == "polygenelubrican";
    assert StringHash("polygenelubricant") == Wrap32(-46482629933) == 762010323;
    assert "polygenelubricants"[..17] == "polygenelubricant";
    assert StringHash("polygenelubricants") == Wrap32(23622320128) == -2147483648;
  }

  /**
   * A concrete id that hashes to Int.MIN_VALUE, so the as-written channel
   * -1 is reached by a real node id.
   */
  lemma PolygenelubricantsHashesToMin()
    ensures StringHash("polygenelubricants") == INT_MIN
    ensures GetAssignedChannelAsWritten("polygenelubricants", 3) == -1
  {
    HashPrefix18();
    AssignedChannelOutOfRange("polygenelubricants");
  }

  /** The intended channel: the exact magnitude of the hash, reduced modulo the channel count. */
  function ChannelForHash(hash: int, totalChannels: int): (c: int)
    ensures totalChannels <= 1 ==> c == 1
    ensures totalChannels > 1 ==> 1 <= c <= totalChannels
  {
    if totalChannels <= 1 then 1 else Abs(hash) % totalChannels + 1
  }

  /** The correction changes nothing except for the hash Int.MIN_VALUE. */
  lemma {:induction false} CorrectionAgrees(hash: int, totalChannels: int)
    requires INT_MIN <= hash <= INT_MAX
    ensures hash != INT_MIN ==> ChannelForHash(hash, totalChannels) == ChannelForHashAsWritten(hash, totalChannels)
  {
    if hash != INT_MIN && totalChannels > 1 {
      assert JvmAbs(hash) == Abs(hash);
      assert TruncRem(Abs(hash), totalChannels) == Abs(hash) % totalChannels;
    }
  }

  /** Every channel is used: hash k - 1 lands on channel k. */
  lemma EveryChannelReachable(totalChannels: int, k: int)
    requires 1 < totalChannels && 1 <= k <= totalChannels
    ensures ChannelForHash(k - 1, totalChannels) == k
  {
  }

  /** `getAssignedChannel(nodeId, totalChannels)`, with the hash's magnitude taken exactly. */
  function GetAssignedChannel(nodeId: string, totalChannels: int): (c: int)
    ensures totalChannels <= 1 ==> c == 1
    ensures totalChannels > 1 ==> 1 <= c <= totalChannels
    ensures StringHash(nodeId) != INT_MIN ==> c == GetAssignedChannelAsWritten(nodeId, totalChannels)
  {
    var hash := StringHash(nodeId);
    CorrectionAgrees(hash, totalChannels);
    ChannelForHash(hash, totalChannels)
  }

  /** `isPeerInMyCluster`: the two ids are assigned the same channel. */
  function IsPeerInMyCluster(myNodeId: string, peerNodeId: string, totalChannels: int): (same: bool)
    ensures StringHash(myNodeId) == StringHash(peerNodeId) ==> same
    ensures totalChannels <= 1 ==> same
  {
    GetAssignedChannel(myNodeId, totalChannels) == GetAssignedChannel(peerNodeId, totalChannels)
  }

  /** Sharing a cluster is an equivalence: reflexive, symmetric and transitive. */
  lemma ClusterIsEquivalence(a: string, b: string, c: string, totalChannels: int)
    ensures IsPeerInMyCluster(a, a, totalChannels)
    ensures IsPeerInMyCluster(a, b, totalChannels) == IsPeerInMyCluster(b, a, totalChannels)
    ensures IsPeerInMyCluster(a, b, totalChannels) && IsPeerInMyCluster(b, c, totalChannels) ==>
      IsPeerInMyCluster(a, c, totalChannels)
  {
  }
}
