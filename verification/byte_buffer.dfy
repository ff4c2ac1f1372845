/**
 * The big-endian layout java.nio.ByteBuffer uses by default: `putLong`,
 * `putShort` and `putInt` write the low bytes of a two's-complement value,
 * most significant first; the `get` methods read them back.
 */
module ByteBuffer {
  function Pow256(n: nat): (r: nat)
    ensures r >= 1
  {
    if n == 0 then 1 else 256 * Pow256(n - 1)
  }

  lemma Pow256Values()
    ensures Pow256(1) == 0x100 && Pow256(2) == 0x1_0000 && Pow256(4) == 0x1_0000_0000
    ensures Pow256(8) == 0x1_0000_0000_0000_0000
  {
    assert Pow256(1) == 0x100;
    assert Pow256(2) == 0x1_0000;
    assert Pow256(3) == 0x100_0000;
    assert Pow256(4) == 0x1_0000_0000;
    assert Pow256(5) == 0x100_0000_0000;
    assert Pow256(6) == 0x1_0000_0000_0000;
    assert Pow256(7) == 0x100_0000_0000_0000;
  }

  /** The low `n` bytes of `x`, most significant first (x is reduced modulo 256^n). */
  function PutBigEndian(x: int, n: nat): (bs: seq<bv8>)
    ensures |bs| == n
    decreases n
  {
    if n == 0 then [] else PutBigEndian(x / 256, n - 1) + [(x % 256) as bv8]
  }

  /** The unsigned value of a big-endian byte string. */
  function GetBigEndian(bs: seq<bv8>): (v: nat)
    ensures v < Pow256(|bs|)
  {
    if bs == [] then 0
    else
      var hi := GetBigEndian(bs[..|bs| - 1]);
      assert (hi + 1) * 256 <= Pow256(|bs| - 1) * 256;
      hi * 256 + bs[|bs| - 1] as int
  }

  /** The two's-complement reading of a big-endian byte string (`getLong` on 8 bytes). */
  function GetSigned(bs: seq<bv8>): (v: int)
    requires |bs| > 0
    ensures -((Pow256(|bs|) as int) / 2) <= v < (Pow256(|bs|) as int) / 2
    ensures v == GetBigEndian(bs) || v == GetBigEndian(bs) - Pow256(|bs|)
  {
    var u := GetBigEndian(bs);
    var p := Pow256(|bs|);
    var v := if u >= p / 2 then u - p else u;
    SignedRange(u, p, |bs|, v);
    v
  }

  lemma SignedRange(u: int, p: int, n: nat, v: int)
    requires n > 0 && p == Pow256(n) && 0 <= u < p
    requires v == if u >= p / 2 then u - p else u
    ensures -(p / 2) <= v < p / 2
  {
    assert p == 256 * Pow256(n - 1);
  }

  lemma ModUnique(x: int, d: int, k: int, r: int)
    requires d > 0 && x == d * k + r && 0 <= r < d
    ensures x % d == r && x / d == k
  {
    var q, m := x / d, x % d;
    var t := q - k;
    assert d * t == d * q - d * k;
    assert d * t == r - m;
  }

  lemma SplitMod(x: int, p: int)
    requires p > 0
    ensures x % (256 * p) == ((x / 256) % p) * 256 + x % 256
  {
    var q, r := x / 256, x % 256;
    var k := q / p;
    assert q == p * k + q % p;
    assert x == 256 * q + r;
    assert 256 * q == 256 * (p * k) + 256 * (q % p);
    assert 256 * (p * k) == (256 * p) * k;
    assert (q % p + 1) * 256 <= p * 256;
    ModUnique(x, 256 * p, k, (q % p) * 256 + r);
  }

  lemma ByteRoundTrip(v: int)
    requires 0 <= v < 256
    ensures (v as bv8) as int == v
  {
    assert v % 256 == v;
  }

  /** Reading back what was written gives the value modulo 256^n. */
  lemma {:induction false} GetPut(x: int, n: nat)
    ensures GetBigEndian(PutBigEndian(x, n)) == x % Pow256(n)
    decreases n
  {
    if n > 0 {
      var bs := PutBigEndian(x, n);
      assert bs[..n - 1] == PutBigEndian(x / 256, n - 1);
      ByteRoundTrip(x % 256);
      GetPut(x / 256, n - 1);
      SplitMod(x, Pow256(n - 1));
    }
  }

  /** `x` truncated to `n` bytes and read back as two's complement (`toShort()` for n = 2). */
  function WrapSigned(x: int, n: nat): (r: int)
    requires n > 0
    ensures -((Pow256(n) as int) / 2) <= r < (Pow256(n) as int) / 2
    ensures (x - r) % Pow256(n) == 0
    ensures -((Pow256(n) as int) / 2) <= x < (Pow256(n) as int) / 2 ==> r == x
  {
    var p := Pow256(n);
    var m := x % p;
    var r := if m >= p / 2 then m - p else m;
    WrapFacts(x, p, n);
    r
  }

  lemma WrapFacts(x: int, p: int, n: nat)
    requires n > 0 && p == Pow256(n)
    ensures var m := x % p; var r := if m >= p / 2 then m - p else m;
      -(p / 2) <= r < p / 2 && (x - r) % p == 0 && (-(p / 2) <= x < p / 2 ==> r == x)
  {
    var m := x % p;
    var r := if m >= p / 2 then m - p else m;
    Pow256Even(n);
    WrapRange(p, m, r);
    WrapCongruent(x, p, x / p, m, r);
    if -(p / 2) <= x < p / 2 {
      WrapIdentity(x, p, m, r);
    }
  }

  lemma Pow256Even(n: nat)
    requires n > 0
    ensures Pow256(n) % 2 == 0
  {
    assert Pow256(n) == 2 * (128 * Pow256(n - 1));
  }

  lemma WrapRange(p: int, m: int, r: int)
    requires p > 0 && p % 2 == 0 && 0 <= m < p
    requires r == if m >= p / 2 then m - p else m
    ensures -(p / 2) <= r < p / 2
  {
  }

  lemma WrapIdentity(x: int, p: int, m: int, r: int)
    requires p > 0 && p % 2 == 0 && -(p / 2) <= x < p / 2 && m == x % p
    requires r == if m >= p / 2 then m - p else m
    ensures r == x
  {
    if x >= 0 {
      ModUnique(x, p, 0, x);
    } else {
      ModUnique(x, p, -1, x + p);
    }
  }

  lemma WrapCongruent(x: int, p: int, q: int, m: int, r: int)
    requires p > 0 && q == x / p && m == x % p
    requires r == if m >= p / 2 then m - p else m
    ensures (x - r) % p == 0
  {
    assert x == p * q + m;
    if m >= p / 2 {
      assert x - r == p * (q + 1);
      ModUnique(x - r, p, q + 1, 0);
    } else {
      assert x - r == p * q;
      ModUnique(x - r, p, q, 0);
    }
  }

  /** What `putShort`/`putLong` write, `getShort`/`getLong` read back as the truncated value. */
  lemma GetSignedPut(x: int, n: nat)
    requires n > 0
    ensures GetSigned(PutBigEndian(x, n)) == WrapSigned(x, n)
  {
    GetPut(x, n);
  }

  /** `putInt` of a 32-bit word: its four bytes, most significant first. */
  function PutWord(w: bv32): (bs: seq<bv8>)
    ensures |bs| == 4
  {
    [(w >> 24) as bv8, ((w >> 16) & 0xFF) as bv8, ((w >> 8) & 0xFF) as bv8, (w & 0xFF) as bv8]
  }

  /** `getInt` as a 32-bit word. */
  function GetWord(bs: seq<bv8>): bv32
    requires |bs| == 4
  {
    (bs[0] as bv32 << 24) | (bs[1] as bv32 << 16) | (bs[2] as bv32 << 8) | bs[3] as bv32
  }

  lemma GetPutWord(w: bv32)
    ensures GetWord(PutWord(w)) == w
  {
  }
}
