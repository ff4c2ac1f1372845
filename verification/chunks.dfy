/** Byte strings split into consecutive pieces, and their concatenation. */
module Chunks {
  import ByteBuffer

  /** The pieces concatenated in order. */
  function Flatten(pieces: seq<seq<bv8>>): (r: seq<bv8>)
  {
    if pieces == [] then [] else Flatten(pieces[..|pieces| - 1]) + pieces[|pieces| - 1]
  }

  function TotalLength(pieces: seq<seq<bv8>>): nat
  {
    if pieces == [] then 0 else TotalLength(pieces[..|pieces| - 1]) + |pieces[|pieces| - 1]|
  }

  lemma {:induction false} FlattenLength(pieces: seq<seq<bv8>>)
    ensures |Flatten(pieces)| == TotalLength(pieces)
  {
    if pieces != [] {
      FlattenLength(pieces[..|pieces| - 1]);
    }
  }

  lemma FlattenSnoc(pieces: seq<seq<bv8>>, p: seq<bv8>)
    ensures Flatten(pieces + [p]) == Flatten(pieces) + p
  {
    assert (pieces + [p])[..|pieces|] == pieces;
  }

  /** Every piece is non-empty and at most c long; all but the last are exactly c long. */
  predicate Sized(pieces: seq<seq<bv8>>, c: int)
  {
    && (forall i :: 0 <= i < |pieces| ==> 0 < |pieces[i]| <= c)
    && (forall i :: 0 <= i < |pieces| - 1 ==> |pieces[i]| == c)
  }

  /** `n` zero bytes. */
  function Zeros(n: nat): (r: seq<bv8>)
    ensures |r| == n && forall i :: 0 <= i < n ==> r[i] == 0
  {
    seq(n, _ => 0)
  }

  /** Chunks of size c needed to hold n bytes, counted one chunk at a time. */
  function CeilDiv(n: nat, c: nat): (k: nat)
    requires c > 0
    ensures k == 0 <==> n == 0
    decreases n
  {
    if n == 0 then 0 else if n <= c then 1 else 1 + CeilDiv(n - c, c)
  }

  /** k chunks of c bytes cover n bytes, and k - 1 chunks do not. */
  lemma {:induction false} CeilDivCovers(n: nat, c: nat)
    requires c > 0
    ensures var k := CeilDiv(n, c); n <= k * c && (k == 0 || (k - 1) * c < n)
    decreases n
  {
    if n > c {
      CeilDivCovers(n - c, c);
      var k := CeilDiv(n - c, c);
      assert (k + 1) * c == k * c + c;
    }
  }

  /** The count is the ceiling of n / c. */
  lemma CeilDivIsCeiling(n: nat, c: nat)
    requires c > 0
    ensures var k := CeilDiv(n, c); n <= k * c && (k == 0 || (k - 1) * c < n)
    ensures CeilDiv(n, c) == (n + c - 1) / c
  {
    var k := CeilDiv(n, c);
    CeilDivCovers(n, c);
    ByteBuffer.ModUnique(n + c - 1, c, k, n + c - 1 - c * k);
  }
}
