/** The checksums of bzip2 as its headers define them (bzlib_private.h:155-172, compress.c:606-608): the sums that the
    rest of the model takes as parameters. */
module BlockSums {
  import opened Basics
  import opened Iteration
  import opened Crc32
  import opened BlockCrc
  import opened RunBuffer
  import opened StreamFormat

  // ----- The register, most significant bit first -----

  /** One zero bit through the register. */
  function Shift(c: bv32): (r: bv32)
  {
    if c & 0x8000_0000 == 0 then c << 1 else (c << 1) ^ 0x04c1_1db7
  }

  function Eight(c: bv32): (r: bv32)
  {
    Shift(Shift(Shift(Shift(Shift(Shift(Shift(Shift(c))))))))
  }

  /** One byte, then eight zero bits. */
  function Next(c: bv32, b: bv32): (r: bv32)
  {
    Eight(c ^ (b << 24))
  }

  lemma TopBit(a: bv32, b: bv32)
    ensures (a ^ b) & 0x8000_0000 == 0 <==> (a & 0x8000_0000 == 0) == (b & 0x8000_0000 == 0)
    ensures (a ^ b) << 1 == (a << 1) ^ (b << 1)
  {
  }

  lemma XorMixed(p: bv32, x: bv32, y: bv32)
    ensures (x ^ p) ^ (y ^ p) == x ^ y && (x ^ p) ^ y == (x ^ y) ^ p && x ^ (y ^ p) == (x ^ y) ^ p
  {
  }

  lemma ShiftXor(a: bv32, b: bv32)
    ensures Shift(a ^ b) == Shift(a) ^ Shift(b)
  {
    TopBit(a, b);
    XorMixed(0x04c1_1db7, a << 1, b << 1);
  }

  lemma ShiftAdds()
    ensures Additive(Shift, Xor)
  {
    forall a, b
      ensures Shift(Xor(a, b)) == Xor(Shift(a), Shift(b))
    {
      ShiftXor(a, b);
    }
  }

  lemma EightShifts(c: bv32)
    ensures Iterate(Shift, 8, c) == Eight(c)
  {
  }

  lemma Double(c: bv32)
    requires c & 0x8000_0000 == 0
    ensures Shift(c) == c << 1
  {
  }

  /** Eight shifts of a value whose high byte is clear. */
  lemma DoubleByte(c: bv32)
    requires c & 0xff00_0000 == 0
    ensures Eight(c) == c << 8
  {
    Double(c);
    Double(c << 1);
    Double(c << 2);
    Double(c << 3);
    Double(c << 4);
    Double(c << 5);
    Double(c << 6);
    Double(c << 7);
    assert (c << 1) << 1 == c << 2 && (c << 2) << 1 == c << 3 && (c << 3) << 1 == c << 4 && (c << 4) << 1 == c << 5;
    assert (c << 5) << 1 == c << 6 && (c << 6) << 1 == c << 7 && (c << 7) << 1 == c << 8;
  }

  lemma HighAndLow(c: bv32, b: bv32)
    ensures c ^ (b << 24) == (((c >> 24) ^ b) << 24) ^ (c & 0x00ff_ffff)
    ensures (c & 0x00ff_ffff) & 0xff00_0000 == 0 && (c & 0x00ff_ffff) << 8 == c << 8
  {
  }

  /** As the source has it: a byte moved up, and the entry of BZ2_crc32Table for the byte that falls out with the new
      one added; entry `i` is eight shifts of `i` in the high byte. */
  lemma ByTableEntry(c: bv32, b: bv32)
    ensures Next(c, b) == Xor(c << 8, Eight(((c >> 24) ^ b) << 24))
  {
    var hi, lo := ((c >> 24) ^ b) << 24, c & 0x00ff_ffff;
    HighAndLow(c, b);
    DoubleByte(lo);
    ShiftAdds();
    EightShifts(lo);
    EightShifts(hi);
    EightShifts(c ^ (b << 24));
    IterateParts(Shift, Xor, 8, c ^ (b << 24), hi, lo, c << 8);
    Swap(Eight(hi), c << 8);
  }

  lemma Swap(a: bv32, b: bv32)
    ensures Xor(a, b) == Xor(b, a)
  {
  }

  // ----- The sums as numbers -----

  /** BZ_UPDATE_CRC. */
  function Step(crc: word, b: byte): (r: word)
  {
    Next(crc as bv32, b as bv32) as int
  }

  /** How the checksum of a block enters that of the stream. */
  function Combine(total: word, crc: word): (r: word)
  {
    var t := total as bv32;
    (((t << 1) | (t >> 31)) ^ (crc as bv32)) as int
  }

  const BZIP2 := Sums(Step, Combine)

  // ----- Check values -----

  /** The register after a string of bytes. */
  function Register(c: bv32, s: seq<bv32>): (r: bv32)
  {
    if s == [] then c else Next(Register(c, s[..|s| - 1]), s[|s| - 1])
  }

  lemma {:induction false} FoldIsRegister(c: bv32, s: seq<byte>, t: seq<bv32>)
    requires |s| == |t| && forall i :: 0 <= i < |s| ==> t[i] == s[i] as bv32
    ensures Fold(Step, c as int, s) == Register(c, t) as int
  {
    if s != [] {
      FoldIsRegister(c, s[..|s| - 1], t[..|t| - 1]);
    }
  }

  lemma Digit(s: seq<bv32>, c: bv32, b: bv32, r: bv32) returns (t: seq<bv32>)
    requires Register(0xffff_ffff, s) == c && Next(c, b) == r
    ensures t == s + [b] && Register(0xffff_ffff, t) == r
  {
    t := s + [b];
    assert t[..|s|] == s;
  }

  lemma DigitsRegister() returns (s: seq<bv32>)
    ensures s == [0x31, 0x32, 0x33, 0x34, 0x35, 0x36, 0x37, 0x38, 0x39]
    ensures Register(0xffff_ffff, s) == 0x0376e6e7
  {
    s := [];
    s := Digit(s, 0xffffffff, 0x31, 0x9efbcf93);
    s := Digit(s, 0x9efbcf93, 0x32, 0x3fec5e6a);
    s := Digit(s, 0x3fec5e6a, 0x33, 0xd952f164);
    s := Digit(s, 0xd952f164, 0x34, 0xa695c4aa);
    s := Digit(s, 0xa695c4aa, 0x35, 0xbd9ab747);
    s := Digit(s, 0xbd9ab747, 0x36, 0xd8f06c8f);
    s := Digit(s, 0xd8f06c8f, 0x37, 0x0d8a14c4);
    s := Digit(s, 0x0d8a14c4, 0x38, 0x49e3c2fb);
    s := Digit(s, 0x49e3c2fb, 0x39, 0x0376e6e7);
  }

  /** The check value of this CRC: the checksum of the digits one to nine. */
  lemma CheckDigits()
    ensures Finalise(Fold(Step, CRC_INIT, [0x31, 0x32, 0x33, 0x34, 0x35, 0x36, 0x37, 0x38, 0x39])) == 0xfc89_1918
  {
    var t := DigitsRegister();
    FoldIsRegister(0xffff_ffff, [0x31, 0x32, 0x33, 0x34, 0x35, 0x36, 0x37, 0x38, 0x39], t);
  }

  /** The sum of a stream of one block is that of the block. */
  lemma FirstSum(crc: word)
    ensures Combine(0, crc) == crc
  {
    assert (((0 as bv32) << 1) | ((0 as bv32) >> 31)) == 0;
  }

  /** For the next block the sum is turned by one bit. */
  lemma NextSum()
    ensures Combine(0x8000_0001, 0) == 3 && Combine(0x8000_0001, 2) == 1
  {
  }
}
