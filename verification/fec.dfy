/**
 * ForwardErrorCorrection: one XOR parity chunk over the fragments of a
 * message, from which any single lost fragment can be rebuilt.
 */
module ForwardErrorCorrection {
  import opened Wrappers
  import opened Chunks

  /** Byte i of a fragment; a fragment shorter than i + 1 contributes nothing there. */
  function ByteAt(f: seq<bv8>, i: nat): bv8
  {
    if i < |f| then f[i] else 0
  }

  /** The XOR of column i across the fragments. */
  function Column(fs: seq<seq<bv8>>, i: nat): bv8
  {
    if fs == [] then 0 else Column(fs[..|fs| - 1], i) ^ ByteAt(fs[|fs| - 1], i)
  }

  /** `fragments.maxOf { it.size }`, and 0 for no fragments. */
  function MaxLength(fs: seq<seq<bv8>>): (m: nat)
    ensures forall f :: f in fs ==> |f| <= m
    ensures fs != [] ==> exists j :: 0 <= j < |fs| && |fs[j]| == m
  {
    if fs == [] then 0
    else
      var m := MaxLength(fs[..|fs| - 1]);
      assert forall f :: f in fs ==> f in fs[..|fs| - 1] || f == fs[|fs| - 1];
      if |fs[|fs| - 1]| > m then |fs[|fs| - 1]| else m
  }

  /** Every fragment fits in `n` bytes. */
  predicate FitsIn(fs: seq<seq<bv8>>, n: nat)
  {
    forall f :: f in fs ==> |f| <= n
  }

  /** The parity chunk: as long as the longest fragment, column by column the XOR. */
  function Parity(fs: seq<seq<bv8>>): (p: seq<bv8>)
  {
    seq(MaxLength(fs), i requires 0 <= i < MaxLength(fs) => Column(fs, i))
  }

  /** The parity chunk with the fragments XOR-ed back out of it. */
  function XorOut(parity: seq<bv8>, fs: seq<seq<bv8>>): (r: seq<bv8>)
  {
    seq(|parity|, i requires 0 <= i < |parity| => parity[i] ^ Column(fs, i))
  }

  /** What `recover` yields: the parity with the fragments XOR-ed out, unless one is too long. */
  function Recovered(fs: seq<seq<bv8>>, parity: seq<bv8>): Option<seq<bv8>>
  {
    if FitsIn(fs, |parity|) then Some(XorOut(parity, fs)) else None
  }

  /** Appending a fragment XORs its bytes into each column. */
  lemma ColumnSnoc(fs: seq<seq<bv8>>, k: int)
    requires 0 <= k < |fs|
    ensures forall i: nat :: Column(fs[..k + 1], i) == Column(fs[..k], i) ^ ByteAt(fs[k], i)
  {
    assert fs[..k + 1][..k] == fs[..k];
  }

  lemma MaxLengthPrefix(fs: seq<seq<bv8>>, k: int)
    requires 0 <= k < |fs|
    ensures MaxLength(fs[..k + 1]) == if |fs[k]| > MaxLength(fs[..k]) then |fs[k]| else MaxLength(fs[..k])
  {
    assert fs[..k + 1][..k] == fs[..k];
  }

  /** The inner loop of both operations: XOR one fragment into the buffer from index 0. */
  method XorInPlace(buf: array<bv8>, frag: seq<bv8>)
    requires |frag| <= buf.Length
    modifies buf
    ensures forall j :: 0 <= j < buf.Length ==> buf[j] == old(buf[j]) ^ ByteAt(frag, j)
  {
    var i := 0;
    while i < |frag|
      invariant 0 <= i <= |frag|
      invariant forall j :: 0 <= j < i ==> buf[j] == old(buf[j]) ^ frag[j]
      invariant forall j :: i <= j < buf.Length ==> buf[j] == old(buf[j])
    {
      buf[i] := buf[i] ^ frag[i];
      i := i + 1;
    }
  }

  /** `fragments.maxOf { it.size }` for a non-empty list. */
  method Longest(fragments: seq<seq<bv8>>) returns (maxLen: nat)
    requires fragments != []
    ensures maxLen == MaxLength(fragments)
  {
    maxLen := |fragments[0]|;
    var k := 1;
    assert fragments[..1][..0] == [];
    while k < |fragments|
      invariant 1 <= k <= |fragments|
      invariant maxLen == MaxLength(fragments[..k])
    {
      MaxLengthPrefix(fragments, k);
      if |fragments[k]| > maxLen {
        maxLen := |fragments[k]|;
      }
      k := k + 1;
    }
    assert fragments[..k] == fragments;
  }

  /** The outer loop of `generateParity`: XOR every fragment into the buffer. */
  method XorAll(buf: array<bv8>, fragments: seq<seq<bv8>>)
    requires FitsIn(fragments, buf.Length)
    modifies buf
    ensures forall j :: 0 <= j < buf.Length ==> buf[j] == old(buf[j]) ^ Column(fragments, j)
  {
    var k := 0;
    assert fragments[..k] == [];
    while k < |fragments|
      invariant 0 <= k <= |fragments|
      invariant forall j :: 0 <= j < buf.Length ==> buf[j] == old(buf[j]) ^ Column(fragments[..k], j)
    {
      assert fragments[k] in fragments;
      ColumnSnoc(fragments, k);
      XorInPlace(buf, fragments[k]);
      k := k + 1;
    }
    assert fragments[..k] == fragments;
  }

  /** `generateParity(messageId, fragments)`; the message id does not enter the result. */
  method GenerateParity(messageId: int, fragments: seq<seq<bv8>>) returns (parity: seq<bv8>)
    ensures fragments == [] ==> parity == []
    ensures |parity| == MaxLength(fragments) && FitsIn(fragments, |parity|)
    ensures forall i :: 0 <= i < |parity| ==> parity[i] == Column(fragments, i)
    ensures parity == Parity(fragments)
  {
    if |fragments| == 0 {
      return [];
    }
    var maxLen := Longest(fragments);
    var buf := new bv8[maxLen](_ => 0);
    XorAll(buf, fragments);
    parity := buf[..];
    assert parity == Parity(fragments);
  }

  /**
   * `recover(fragments, parity)`: a copy of the parity with every fragment
   * XOR-ed in. A fragment longer than the parity runs past the end of the
   * copy, which the source reports with ArrayIndexOutOfBoundsException: `None` here.
   */
  method Recover(fragments: seq<seq<bv8>>, parity: seq<bv8>) returns (r: Option<seq<bv8>>)
    ensures r.None? <==> exists f :: f in fragments && |f| > |parity|
    ensures r.Some? ==> |r.value| == |parity|
    ensures r.Some? ==> forall i :: 0 <= i < |parity| ==> r.value[i] == parity[i] ^ Column(fragments, i)
    ensures r == Recovered(fragments, parity)
  {
    var buf := new bv8[|parity|](i requires 0 <= i < |parity| => parity[i]);
    var k := 0;
    assert fragments[..0] == [];
    while k < |fragments|
      invariant 0 <= k <= |fragments|
      invariant FitsIn(fragments[..k], |parity|)
      invariant forall j :: 0 <= j < buf.Length ==> buf[j] == parity[j] ^ Column(fragments[..k], j)
    {
      var frag := fragments[k];
      if |frag| > buf.Length {
        assert frag in fragments && !FitsIn(fragments, |parity|);
        return None;
      }
      ColumnSnoc(fragments, k);
      XorInPlace(buf, frag);
      assert forall f :: f in fragments[..k + 1] ==> f in fragments[..k] || f == frag;
      k := k + 1;
    }
    assert fragments[..k] == fragments;
    assert buf[..] == XorOut(parity, fragments);
    r := Some(buf[..]);
  }

  /** The fragments other than the one at `k`. */
  function Without(fs: seq<seq<bv8>>, k: int): (r: seq<seq<bv8>>)
    requires 0 <= k < |fs|
    ensures |r| == |fs| - 1
  {
    fs[..k] + fs[k + 1..]
  }

  /** Leaving fragment k out of a column removes exactly its byte from the XOR. */
  lemma {:induction false} ColumnWithout(fs: seq<seq<bv8>>, k: int, i: nat)
    requires 0 <= k < |fs|
    ensures Column(fs, i) == Column(Without(fs, k), i) ^ ByteAt(fs[k], i)
    decreases |fs|
  {
    var init := fs[..|fs| - 1];
    if k == |fs| - 1 {
      assert Without(fs, k) == init;
    } else {
      ColumnWithout(init, k, i);
      var rest := Without(fs, k);
      assert rest[..|rest| - 1] == Without(init, k);
      assert rest[|rest| - 1] == fs[|fs| - 1];
      assert init[k] == fs[k];
    }
  }

  /** Leaving fragment k out takes one copy of it from the multiset. */
  lemma WithoutMultiset(fs: seq<seq<bv8>>, k: int)
    requires 0 <= k < |fs|
    ensures multiset(Without(fs, k)) == multiset(fs) - multiset{fs[k]}
  {
    assert fs == fs[..k] + [fs[k]] + fs[k + 1..];
  }

  /** A column's XOR does not depend on the order of the fragments. */
  lemma {:induction false} ColumnPermutation(fs: seq<seq<bv8>>, gs: seq<seq<bv8>>, i: nat)
    requires multiset(fs) == multiset(gs)
    ensures Column(fs, i) == Column(gs, i)
    decreases |gs|
  {
    if gs == [] {
      assert |fs| == |multiset(fs)| == 0;
    } else {
      var n := |gs| - 1;
      var last := gs[n];
      assert last in multiset(fs);
      var j :| 0 <= j < |fs| && fs[j] == last;
      WithoutMultiset(fs, j);
      WithoutMultiset(gs, n);
      assert Without(gs, n) == gs[..n];
      ColumnWithout(fs, j, i);
      ColumnPermutation(Without(fs, j), gs[..n], i);
    }
  }

  /** Recovering from the same fragments in another order gives the same result. */
  lemma RecoveredPermutation(fs: seq<seq<bv8>>, gs: seq<seq<bv8>>, parity: seq<bv8>)
    requires multiset(fs) == multiset(gs)
    ensures Recovered(fs, parity) == Recovered(gs, parity)
  {
    assert forall f :: f in fs <==> f in multiset(fs);
    assert forall f :: f in gs <==> f in multiset(gs);
    assert FitsIn(fs, |parity|) == FitsIn(gs, |parity|);
    forall i | 0 <= i < |parity|
      ensures XorOut(parity, fs)[i] == XorOut(parity, gs)[i]
    {
      ColumnPermutation(fs, gs, i);
    }
    assert XorOut(parity, fs) == XorOut(parity, gs);
  }

  /** `f` followed by zeros up to length n. */
  function Padded(f: seq<bv8>, n: nat): (r: seq<bv8>)
    requires |f| <= n
    ensures |r| == n
  {
    f + Zeros(n - |f|)
  }

  /**
   * Single-erasure round trip: with fragment k lost, recovering from the
   * others and the parity of all of them gives fragment k, zero-padded to
   * the parity's length; none of the others is longer than the parity.
   */
  lemma SingleErasure(fs: seq<seq<bv8>>, k: int)
    requires 0 <= k < |fs|
    ensures FitsIn(Without(fs, k), |Parity(fs)|)
    ensures XorOut(Parity(fs), Without(fs, k)) == Padded(fs[k], MaxLength(fs))
  {
    var others := Without(fs, k);
    assert forall f :: f in others ==> f in fs;
    assert fs[k] in fs;
    forall i | 0 <= i < MaxLength(fs)
      ensures XorOut(Parity(fs), others)[i] == Padded(fs[k], MaxLength(fs))[i]
    {
      ColumnWithout(fs, k, i);
    }
  }

  /** With nothing lost, XOR-ing every fragment out of the parity leaves only zeros. */
  lemma NothingLost(fs: seq<seq<bv8>>)
    ensures FitsIn(fs, |Parity(fs)|)
    ensures XorOut(Parity(fs), fs) == Zeros(MaxLength(fs))
  {
  }
}
