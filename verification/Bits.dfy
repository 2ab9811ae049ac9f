/** Bit strings, most significant bit first. */
module Bits {
  import opened Basics

  type bit = x: int | 0 <= x < 2

  /** The low `n` bits of `v`. */
  function ToBits(v: nat, n: nat): (s: seq<bit>)
    ensures |s| == n
  {
    if n == 0 then [] else ToBits(v / 2, n - 1) + [v % 2]
  }

  function FromBits(s: seq<bit>): (v: nat)
  {
    if s == [] then 0 else 2 * FromBits(s[..|s| - 1]) + s[|s| - 1]
  }

  lemma {:induction false} FromToBits(v: nat, n: nat)
    requires v < Pow2(n)
    ensures FromBits(ToBits(v, n)) == v
  {
    if n != 0 {
      FromToBits(v / 2, n - 1);
    }
  }

  lemma {:induction false} FromBitsBound(s: seq<bit>)
    ensures FromBits(s) < Pow2(|s|)
  {
    if s != [] {
      FromBitsBound(s[..|s| - 1]);
    }
  }

  lemma {:induction false} ToFromBits(s: seq<bit>)
    ensures ToBits(FromBits(s), |s|) == s
  {
    if s != [] {
      ToFromBits(s[..|s| - 1]);
      assert s == s[..|s| - 1] + [s[|s| - 1]];
    }
  }

  lemma FromBitsSnoc(s: seq<bit>, b: bit)
    ensures FromBits(s + [b]) == 2 * FromBits(s) + b
  {
    assert (s + [b])[..|s|] == s;
  }

  lemma {:induction false} FromBitsAppend(s: seq<bit>, t: seq<bit>)
    ensures FromBits(s + t) == FromBits(s) * Pow2(|t|) + FromBits(t)
  {
    if t == [] {
      assert s + t == s;
    } else {
      var t' := t[..|t| - 1];
      FromBitsAppend(s, t');
      assert s + t == (s + t') + [t[|t| - 1]];
      FromBitsSnoc(s + t', t[|t| - 1]);
      TwiceProduct(FromBits(s), Pow2(|t'|));
    }
  }

  lemma FromBitsSplit(s: seq<bit>, m: nat)
    requires m <= |s|
    ensures FromBits(s) == FromBits(s[..m]) * Pow2(|s| - m) + FromBits(s[m..])
    ensures FromBits(s[m..]) < Pow2(|s| - m)
  {
    assert s[..m] + s[m..] == s;
    FromBitsAppend(s[..m], s[m..]);
    FromBitsBound(s[m..]);
  }

  lemma TwiceProduct(a: int, p: int)
    ensures a * (2 * p) == 2 * (a * p)
  {
  }

  lemma QuotientUnique(v: int, d: int, q: int, r: int)
    requires d > 0 && v == d * q + r && 0 <= r < d
    ensures v / d == q && v % d == r
  {
    var q', r' := v / d, v % d;
    assert d * (q' - q) == r - r';
    if q' > q {
      ScaleMono(1, q' - q, d);
    } else if q' < q {
      ScaleMono(1, q - q', d);
    }
  }

  /** Two bit fields side by side. */
  lemma BitsOfPair(q: nat, r: nat, n: nat, m: nat)
    requires q < Pow2(n) && r < Pow2(m)
    ensures ToBits(q * Pow2(m) + r, n + m) == ToBits(q, n) + ToBits(r, m)
  {
    var s := ToBits(q, n) + ToBits(r, m);
    FromBitsAppend(ToBits(q, n), ToBits(r, m));
    FromToBits(q, n);
    FromToBits(r, m);
    ToFromBits(s);
  }

  const BYTE_BITS: nat := 8

  function BytesToBits(z: seq<byte>): (s: seq<bit>)
    ensures |s| == 8 * |z|
  {
    if z == [] then [] else BytesToBits(z[..|z| - 1]) + ToBits(z[|z| - 1], BYTE_BITS)
  }

  lemma BytesToBitsSnoc(z: seq<byte>, b: byte)
    ensures BytesToBits(z + [b]) == BytesToBits(z) + ToBits(b, BYTE_BITS)
  {
    assert (z + [b])[..|z|] == z;
  }

  lemma {:induction false} BytesToBitsAppend(y: seq<byte>, z: seq<byte>)
    ensures BytesToBits(y + z) == BytesToBits(y) + BytesToBits(z)
  {
    if z == [] {
      assert y + z == y;
    } else {
      var z' := z[..|z| - 1];
      BytesToBitsAppend(y, z');
      assert y + z == (y + z') + [z[|z| - 1]];
      BytesToBitsSnoc(y + z', z[|z| - 1]);
    }
  }

  lemma OneByte(b: byte)
    ensures BytesToBits([b]) == ToBits(b, BYTE_BITS)
  {
    assert [b][..0] == [];
    assert BytesToBits([]) + ToBits(b, BYTE_BITS) == ToBits(b, BYTE_BITS);
  }
}
