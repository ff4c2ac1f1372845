/**
 * A bounded priority queue of envelopes ordered by `calculatedPriority`,
 * highest first. When full, a new message displaces a lowest-priority one
 * only if its own priority is strictly higher.
 *
 * The heap is modelled as the sequence of its elements; only the multiset of
 * elements is observable, except that `peek` and `dequeue` agree on the
 * element at the head (the first maximum of the sequence).
 */
module PriorityMessageQueue {
  import opened MeshTypes
  import opened Wrappers

  const DEFAULT_MAX_SIZE: int := 1000

  /** The position of the first highest-priority element. */
  function MaxIndex(q: seq<MessageEnvelope>): (i: nat)
    requires q != []
    ensures i < |q|
    ensures forall j :: 0 <= j < |q| ==> q[j].calculatedPriority <= q[i].calculatedPriority
  {
    if |q| == 1 then 0
    else
      var k := MaxIndex(q[..|q| - 1]);
      if q[|q| - 1].calculatedPriority > q[k].calculatedPriority then |q| - 1 else k
  }

  /** The position of the first lowest-priority element (`minByOrNull`). */
  function MinIndex(q: seq<MessageEnvelope>): (i: nat)
    requires q != []
    ensures i < |q|
    ensures forall j :: 0 <= j < |q| ==> q[i].calculatedPriority <= q[j].calculatedPriority
  {
    if |q| == 1 then 0
    else
      var k := MinIndex(q[..|q| - 1]);
      if q[|q| - 1].calculatedPriority < q[k].calculatedPriority then |q| - 1 else k
  }

  /** What `peek` returns and `dequeue` removes. */
  function Head(q: seq<MessageEnvelope>): (r: Option<MessageEnvelope>)
    ensures r.None? <==> q == []
    ensures r.Some? ==> r.value in q
    ensures r.Some? ==> forall j :: 0 <= j < |q| ==> q[j].calculatedPriority <= r.value.calculatedPriority
  {
    if q == [] then None else Some(q[MaxIndex(q)])
  }

  function RemoveAt(q: seq<MessageEnvelope>, i: nat): (r: seq<MessageEnvelope>)
    requires i < |q|
    ensures |r| == |q| - 1
    ensures multiset(r) == multiset(q) - multiset{q[i]}
  {
    assert q == q[..i] + [q[i]] + q[i + 1..];
    q[..i] + q[i + 1..]
  }

  function Max(a: int, b: int): int { if a >= b then a else b }

  function Min(a: int, b: int): int { if a <= b then a else b }

  /**
   * The queue after `enqueue(message)`: appended below capacity; when
   * full, the first lowest-priority element makes way for a strictly
   * higher-priority message; otherwise unchanged.
   */
  function Enqueued(q: seq<MessageEnvelope>, maxSize: int, message: MessageEnvelope): seq<MessageEnvelope>
  {
    if |q| < maxSize then q + [message]
    else if q != [] && message.calculatedPriority > q[MinIndex(q)].calculatedPriority then
      RemoveAt(q, MinIndex(q)) + [message]
    else q
  }

  /** The queue after enqueuing `ms` in order, starting empty. */
  function EnqueueAll(maxSize: int, ms: seq<MessageEnvelope>): seq<MessageEnvelope>
  {
    if ms == [] then [] else Enqueued(EnqueueAll(maxSize, ms[..|ms| - 1]), maxSize, ms[|ms| - 1])
  }

  /** Every message dropped from `ms` ranks no higher than any message kept in `q`. */
  ghost predicate DropsRankLower(ms: seq<MessageEnvelope>, q: seq<MessageEnvelope>)
  {
    forall d, e :: d in multiset(ms) - multiset(q) && e in q ==> d.calculatedPriority <= e.calculatedPriority
  }

  /** The three facts `Survivors` states about the queue `q` after offering `ms`. */
  ghost predicate Survives(maxSize: int, ms: seq<MessageEnvelope>, q: seq<MessageEnvelope>)
  {
    && multiset(q) <= multiset(ms)
    && |q| == Min(|ms|, Max(maxSize, 0))
    && DropsRankLower(ms, q)
  }

  /**
   * After any sequence of enqueues into an empty queue, the queue holds a
   * sub-multiset of the messages offered, as many as fit, and every message
   * turned away or displaced ranks no higher than any message kept.
   */
  lemma {:induction false} Survivors(maxSize: int, ms: seq<MessageEnvelope>)
    ensures var q := EnqueueAll(maxSize, ms);
            && multiset(q) <= multiset(ms)
            && |q| == Min(|ms|, Max(maxSize, 0))
            && DropsRankLower(ms, q)
    decreases |ms|
  {
    if ms != [] {
      var init, m := ms[..|ms| - 1], ms[|ms| - 1];
      assert ms == init + [m];
      Survivors(maxSize, init);
      EnqueueStep(maxSize, init, EnqueueAll(maxSize, init), m);
    }
  }

  /** One enqueue keeps the three facts of `Survivors`. */
  lemma EnqueueStep(maxSize: int, init: seq<MessageEnvelope>, q0: seq<MessageEnvelope>, m: MessageEnvelope)
    requires Survives(maxSize, init, q0)
    ensures Survives(maxSize, init + [m], Enqueued(q0, maxSize, m))
  {
    if |q0| < maxSize {
      assert Enqueued(q0, maxSize, m) == q0 + [m];
      AppendStep(maxSize, init, q0, m);
    } else if q0 != [] && m.calculatedPriority > q0[MinIndex(q0)].calculatedPriority {
      assert Enqueued(q0, maxSize, m) == RemoveAt(q0, MinIndex(q0)) + [m];
      DisplaceStep(maxSize, init, q0, m);
    } else {
      assert Enqueued(q0, maxSize, m) == q0;
      RefuseStep(maxSize, init, q0, m);
    }
  }

  /** A sub-multiset of the same size is the whole multiset. */
  lemma SubsetSameSize<T>(a: multiset<T>, b: multiset<T>)
    requires a <= b && |a| == |b|
    ensures a == b
  {
    assert |b - a| == |b| - |a| == 0;
    assert b == a + (b - a);
  }

  /** Below capacity nothing has been dropped, and the message is appended. */
  lemma AppendStep(maxSize: int, init: seq<MessageEnvelope>, q0: seq<MessageEnvelope>, m: MessageEnvelope)
    requires Survives(maxSize, init, q0) && |q0| < maxSize
    ensures Survives(maxSize, init + [m], q0 + [m])
  {
    assert |multiset(q0)| == |q0| && |multiset(init)| == |init|;
    SubsetSameSize(multiset(q0), multiset(init));
    assert multiset(init + [m]) - multiset(q0 + [m]) == multiset{};
  }

  /** A refused message joins the drops; it ranks no higher than the queue's minimum. */
  lemma RefuseStep(maxSize: int, init: seq<MessageEnvelope>, q0: seq<MessageEnvelope>, m: MessageEnvelope)
    requires Survives(maxSize, init, q0) && |q0| >= maxSize
    requires q0 != [] ==> m.calculatedPriority <= q0[MinIndex(q0)].calculatedPriority
    ensures Survives(maxSize, init + [m], q0)
  {
    assert multiset(init + [m]) == multiset(init) + multiset{m};
    RefuseDrops(init, q0, m);
  }

  /** The drops after a refusal are the old drops and the refused message. */
  lemma RefuseDrops(init: seq<MessageEnvelope>, q0: seq<MessageEnvelope>, m: MessageEnvelope)
    requires DropsRankLower(init, q0)
    requires q0 != [] ==> m.calculatedPriority <= q0[MinIndex(q0)].calculatedPriority
    ensures DropsRankLower(init + [m], q0)
  {
    var ms := init + [m];
    assert multiset(ms) == multiset(init) + multiset{m};
    forall d: MessageEnvelope, e: MessageEnvelope | d in multiset(ms) - multiset(q0) && e in q0
      ensures d.calculatedPriority <= e.calculatedPriority
    {
      if d != m {
        assert d in multiset(init) - multiset(q0);
      } else {
        var j :| 0 <= j < |q0| && q0[j] == e;
      }
    }
  }

  /** A displaced minimum joins the drops; everything kept ranks at least as high. */
  lemma DisplaceStep(maxSize: int, init: seq<MessageEnvelope>, q0: seq<MessageEnvelope>, m: MessageEnvelope)
    requires Survives(maxSize, init, q0) && |q0| >= maxSize
    requires q0 != [] && m.calculatedPriority > q0[MinIndex(q0)].calculatedPriority
    ensures Survives(maxSize, init + [m], RemoveAt(q0, MinIndex(q0)) + [m])
  {
    DisplaceMultiset(init, q0, m);
    DisplaceDrops(init, q0, m);
  }

  /** Displacing the minimum swaps one copy of it for the message. */
  lemma DisplaceMultiset(init: seq<MessageEnvelope>, q0: seq<MessageEnvelope>, m: MessageEnvelope)
    requires multiset(q0) <= multiset(init) && q0 != []
    ensures var q := RemoveAt(q0, MinIndex(q0)) + [m];
            && |q| == |q0|
            && multiset(q) == multiset(q0) - multiset{q0[MinIndex(q0)]} + multiset{m}
            && multiset(q) <= multiset(init + [m])
  {
    assert q0[MinIndex(q0)] in multiset(q0);
  }

  /** Every message dropped after a displacement ranks no higher than any kept. */
  lemma DisplaceDrops(init: seq<MessageEnvelope>, q0: seq<MessageEnvelope>, m: MessageEnvelope)
    requires DropsRankLower(init, q0)
    requires q0 != [] && m.calculatedPriority > q0[MinIndex(q0)].calculatedPriority
    requires var q := RemoveAt(q0, MinIndex(q0)) + [m];
             multiset(q) == multiset(q0) - multiset{q0[MinIndex(q0)]} + multiset{m}
    ensures DropsRankLower(init + [m], RemoveAt(q0, MinIndex(q0)) + [m])
  {
    var ms := init + [m];
    var q := RemoveAt(q0, MinIndex(q0)) + [m];
    forall d: MessageEnvelope, e: MessageEnvelope | d in multiset(ms) - multiset(q) && e in q
      ensures d.calculatedPriority <= e.calculatedPriority
    {
      DisplacedRanksLower(init, q0, m, d, e);
    }
  }

  /** One pair of DisplaceStep: a dropped message against a kept one. */
  lemma DisplacedRanksLower(init: seq<MessageEnvelope>, q0: seq<MessageEnvelope>, m: MessageEnvelope,
                            d: MessageEnvelope, e: MessageEnvelope)
    requires DropsRankLower(init, q0)
    requires q0 != [] && m.calculatedPriority > q0[MinIndex(q0)].calculatedPriority
    requires var q := RemoveAt(q0, MinIndex(q0)) + [m];
             multiset(q) == multiset(q0) - multiset{q0[MinIndex(q0)]} + multiset{m}
    requires d in multiset(init + [m]) - multiset(RemoveAt(q0, MinIndex(q0)) + [m])
    requires e in RemoveAt(q0, MinIndex(q0)) + [m]
    ensures d.calculatedPriority <= e.calculatedPriority
  {
    var lo := q0[MinIndex(q0)];
    var q := RemoveAt(q0, MinIndex(q0)) + [m];
    assert multiset(init + [m])[d] == multiset(init)[d] + (if d == m then 1 else 0);
    assert multiset(q)[d] == multiset(q0)[d] - (if d == lo then 1 else 0) + (if d == m then 1 else 0);
    // d ranks no higher than the minimum lo.
    if d != lo {
      assert d in multiset(init) - multiset(q0);
      assert lo in q0;
    }
    assert d.calculatedPriority <= lo.calculatedPriority;
    if e != m {
      assert e in multiset(q);
      assert e in multiset(q0);
      var j :| 0 <= j < |q0| && q0[j] == e;
      if d != lo {
        assert d in multiset(init) - multiset(q0);
      }
    }
  }

  class PriorityMessageQueue {
    const maxSize: int
    /** The heap's elements. */
    var queue: seq<MessageEnvelope>

    ghost predicate Valid()
      reads this
    {
      |queue| <= Max(maxSize, 0)
    }

    constructor(maxSize: int)
      ensures Valid() && this.maxSize == maxSize && queue == []
    {
      this.maxSize := maxSize;
      queue := [];
    }

    method Enqueue(message: MessageEnvelope) returns (accepted: bool)
      requires Valid()
      modifies this
      ensures Valid()
      ensures |old(queue)| < maxSize ==> accepted && multiset(queue) == multiset(old(queue)) + multiset{message}
      ensures |old(queue)| >= maxSize ==>
        (accepted <==> old(queue) != [] && message.calculatedPriority > old(queue)[MinIndex(old(queue))].calculatedPriority)
      ensures |old(queue)| >= maxSize && accepted ==>
        multiset(queue) == multiset(old(queue)) - multiset{old(queue)[MinIndex(old(queue))]} + multiset{message}
      ensures !accepted ==> queue == old(queue)
      ensures queue == Enqueued(old(queue), maxSize, message)
    {
      if |queue| >= maxSize {
        if queue != [] {
          var lowest := MinIndex(queue);
          if message.calculatedPriority > queue[lowest].calculatedPriority {
            queue := RemoveAt(queue, lowest) + [message];
            return true;
          }
        }
        return false;
      }
      queue := queue + [message];
      return true;
    }

    method Dequeue() returns (r: Option<MessageEnvelope>)
      requires Valid()
      modifies this
      ensures Valid()
      ensures r == Head(old(queue))
      ensures r.None? ==> queue == old(queue)
      ensures r.Some? ==> multiset(queue) == multiset(old(queue)) - multiset{r.value}
    {
      if queue == [] {
        return None;
      }
      var i := MaxIndex(queue);
      r := Some(queue[i]);
      queue := RemoveAt(queue, i);
    }

    /** What `Dequeue` would return, without changing the queue. */
    function Peek(): (r: Option<MessageEnvelope>)
      reads this
      ensures r == Head(queue)
      ensures r.Some? ==> r.value in queue
    {
      if queue == [] then None else Some(queue[MaxIndex(queue)])
    }

    function Size(): (n: int)
      reads this
      requires Valid()
      ensures n == |queue| && n <= Max(maxSize, 0)
    {
      |queue|
    }

    method Clear()
      modifies this
      ensures queue == []
    {
      queue := [];
    }

    function IsFull(): (full: bool)
      reads this
      ensures full <==> |queue| >= maxSize
    {
      |queue| >= maxSize
    }

    function IsEmpty(): (empty: bool)
      reads this
      ensures empty <==> queue == []
    {
      queue == []
    }
  }

  /** A full queue turns away a message that does not beat its minimum, and keeps its size otherwise. */
  method FullQueueScenario(q: PriorityMessageQueue, message: MessageEnvelope) returns (accepted: bool)
    requires q.Valid() && q.maxSize > 0 && |q.queue| == q.maxSize
    modifies q
    ensures q.Valid() && |q.queue| == q.maxSize
    ensures accepted <==> message.calculatedPriority > old(q.queue)[MinIndex(old(q.queue))].calculatedPriority
  {
    accepted := q.Enqueue(message);
    assert |multiset(q.queue)| == |q.queue|;
  }
}
