/** The bytes of a stream: what every file starts with, and the file of no data (compress.c:619-667). */
module StreamBytes {
  import opened Basics
  import opened Bits
  import opened RunLength
  import opened MoveToFront
  import opened BlockCrc
  import opened BlockFormat
  import opened BlockCodec
  import opened StreamFormat
  import opened Packer
  import BlockWriter

  // ----- Bytes in front of bits -----

  /** A number of 32 bits, most significant byte first. */
  function BigEndian(v: word): (z: seq<byte>)
    ensures |z| == 4
    ensures ((z[0] as int * 256 + z[1] as int) * 256 + z[2] as int) * 256 + z[3] as int == v
  {
    var a := v / 256;
    var b := a / 256;
    [b / 256, b % 256, a % 256, v % 256]
  }

  lemma BigEndianBits(v: word)
    ensures BytesToBits(BigEndian(v)) == ToBits(v, CRC_BITS)
  {
    var a := v / 256;
    var b := a / 256;
    ByteFits(b / 256);
    BlockWriter.JoinThree(v, a, b, b / 256, BYTE_BITS, CRC_BITS, b % 256, a % 256, v % 256);
    FourBytes(b / 256, b % 256, a % 256, v % 256);
  }

  lemma FourBytes(b3: byte, b2: byte, b1: byte, b0: byte)
    ensures BytesToBits([b3, b2, b1, b0]) ==
      ((ToBits(b3, BYTE_BITS) + ToBits(b2, BYTE_BITS)) + ToBits(b1, BYTE_BITS)) + ToBits(b0, BYTE_BITS)
  {
    OneByte(b3);
    BytesToBitsSnoc([b3], b2);
    BytesToBitsSnoc([b3, b2], b1);
    BytesToBitsSnoc([b3, b2, b1], b0);
    assert [b3] + [b2] == [b3, b2] && [b3, b2] + [b1] == [b3, b2, b1] && [b3, b2, b1] + [b0] == [b3, b2, b1, b0];
  }

  lemma SameParts<T>(a: seq<T>, b: seq<T>, c: seq<T>, d: seq<T>)
    requires a + b == c + d && |a| == |c|
    ensures a == c && b == d
  {
    assert a == (a + b)[..|a|] && c == (c + d)[..|c|] && b == (a + b)[|a|..] && d == (c + d)[|c|..];
  }

  lemma {:induction false} BytesInjective(y: seq<byte>, z: seq<byte>)
    requires |y| == |z| && BytesToBits(y) == BytesToBits(z)
    ensures y == z
  {
    if y != [] {
      var n := |y| - 1;
      SameParts(BytesToBits(y[..n]), ToBits(y[n], BYTE_BITS), BytesToBits(z[..n]), ToBits(z[n], BYTE_BITS));
      BytesInjective(y[..n], z[..n]);
      ByteOfBits(y[n]);
      ByteOfBits(z[n]);
      assert y == y[..n] + [y[n]] && z == z[..n] + [z[n]];
    }
  }

  lemma ByteOfBits(b: byte)
    ensures FromBits(ToBits(b, BYTE_BITS)) == b
  {
    ByteFits(b);
    FromToBits(b, BYTE_BITS);
  }

  lemma BytesApart(y: seq<byte>, w: seq<byte>, front: seq<byte>, rest: seq<bit>)
    requires BytesToBits(y + w) == BytesToBits(front) + rest && |y| == |front|
    ensures y == front && BytesToBits(w) == rest
  {
    BytesToBitsAppend(y, w);
    SameParts(BytesToBits(y), BytesToBits(w), BytesToBits(front), rest);
    BytesInjective(y, front);
  }

  lemma Halves<T>(z: seq<T>, n: nat)
    requires n <= |z|
    ensures z[..n] + z[n..] == z
  {
  }

  lemma LongEnough(z: seq<byte>, front: seq<byte>, rest: seq<bit>)
    requires |BytesToBits(z)| == |BytesToBits(front) + rest|
    ensures |front| <= |z|
  {
  }

  /** Whole bytes in front of some bits. */
  lemma BytesFirst(z: seq<byte>, front: seq<byte>, rest: seq<bit>)
    requires BytesToBits(z) == BytesToBits(front) + rest
    ensures |front| <= |z| && z[..|front|] == front && BytesToBits(z[|front|..]) == rest
  {
    LongEnough(z, front, rest);
    var y, w := z[..|front|], z[|front|..];
    Halves(z, |front|);
    BytesApart(y, w, front, rest);
  }

  lemma BytesOfThree(h: seq<byte>, m: seq<byte>, n: seq<byte>)
    ensures BytesToBits(h + (m + n)) == BytesToBits(h) + (BytesToBits(m) + BytesToBits(n))
  {
    BytesToBitsAppend(m, n);
    BytesToBitsAppend(h, m + n);
  }

  /** The widths of the fields in front of the values: checksum, randomisation bit, row number, ... */
  lemma FrontLayout(f: Front, size: int)
    requires FrontOk(f, size)
    ensures FrontBits(f, size) == (ToBits(f.head.crc, 32) + (ToBits(f.head.randomised, 1) + ToBits(f.head.origPtr, 24)))
      + (MapBits(f.inUse) + CodingBits(f.coding, AlphaSize(f.inUse)))
  {
  }

  /** ... number of tables, number of selectors, ... */
  lemma CodingLayout(c: Coding, n: int)
    requires CodingOk(c, n)
    ensures Over(c.sels, Iota(|c.tables|))
    ensures CodingBits(c, n) == (ToBits(|c.tables|, 3)
      + (ToBits(|c.sels|, 15) + UnaryBits(SelectorMtf(Iota(|c.tables|), c.sels)))) + TableBits(c.tables)
  {
    SelectorsOver(c, n);
  }

  /** ... and the first length of each table. */
  lemma TableLayout(lens: seq<int>, more: seq<seq<int>>)
    requires (lens != [] && lens[0] >= 0) && forall t :: 0 <= t < |more| ==> |more[t]| > 0 && more[t][0] >= 0
    ensures TableBits([lens] + more)[..5] == ToBits(lens[0], 5)
  {
    assert ([lens] + more)[1..] == more;
  }

  // ----- What every stream starts with -----

  /** The first bytes of a stream of these blocks; with no blocks, all of them. */
  ghost predicate Begins(z: seq<byte>, k: Sums, size: int, blocks: seq<Closed>)
  {
    if blocks == [] then
      z == [0x42, 0x5a, 0x68, 0x30 + size, 0x17, 0x72, 0x45, 0x38, 0x50, 0x90, 0, 0, 0, 0]
    else
      && |z| >= 14 && z[..10] == [0x42, 0x5a, 0x68, 0x30 + size, 0x31, 0x41, 0x59, 0x26, 0x53, 0x59]
      && z[10..14] == BigEndian(0xffff_ffff - Fold(k.step, 0xffff_ffff, blocks[0].data))
  }

  lemma FrontBegins(f: Front, size: int) returns (more: seq<bit>)
    requires FrontOk(f, size)
    ensures FrontBits(f, size) == ToBits(f.head.crc, CRC_BITS) + more
  {
    var x, y := ToBits(f.head.crc, CRC_BITS), ToBits(f.head.randomised, 1) + ToBits(f.head.origPtr, PTR_BITS);
    var u := MapBits(f.inUse) + CodingBits(f.coding, AlphaSize(f.inUse));
    more := y + u;
    ConcatAssoc(x, y, u);
  }

  /** A block starts with its checksum. */
  lemma EncodingBegins(blk: seq<byte>, crc: int, size: int, s: seq<bit>) returns (more: seq<bit>)
    requires EncodesBlock(blk, crc, size, s)
    ensures crc >= 0 && s == ToBits(crc, CRC_BITS) + more
  {
    var ptr, f, vs :| Recipe(blk, crc, size, ptr, f, vs) && s == RecipeBits(f, vs, size);
    var x := FrontBegins(f, size);
    var d := DataBits(f.coding, AlphaSize(f.inUse), vs, 0);
    more := x + d;
    ConcatAssoc(ToBits(crc, CRC_BITS), x, d);
  }

  lemma StreamParts(z: seq<byte>, k: Sums, size: int, blocks: seq<Closed>) returns (pad: nat)
    requires WholeStream(z, k, size, blocks)
    ensures 1 <= size <= 9 && AllOk(k, size, blocks) && pad < 8
    ensures BytesToBits(z) == (BytesToBits(HeaderBytes(size))
                               + (BodyBits(blocks) + TrailerBits(Combined(k, 0, blocks)))) + ToBits(0, pad)
  {
    assert OpenedStream(0);
    var p: nat :| p < 8 && BytesToBits(z) == StreamBits(k, size, blocks) + ToBits(0, p);
    pad := p;
  }

  lemma NothingBegins(z: seq<byte>, k: Sums, size: int)
    requires WholeStream(z, k, size, [])
    ensures Begins(z, k, size, [])
  {
    var pad := StreamParts(z, k, size, []);
    assert BodyBits([]) + TrailerBits(0) == TrailerBits(0);
    BigEndianBits(0);
    NothingFirst(z, HeaderBytes(size), END_MAGIC, BigEndian(0), pad);
    NothingBytes(size);
  }

  lemma NothingBytes(size: int)
    requires 1 <= size <= 9
    ensures HeaderBytes(size) + (END_MAGIC + BigEndian(0)) ==
      [0x42, 0x5a, 0x68, 0x30 + size, 0x17, 0x72, 0x45, 0x38, 0x50, 0x90, 0, 0, 0, 0]
  {
  }

  lemma NothingFirst(z: seq<byte>, h: seq<byte>, e: seq<byte>, n: seq<byte>, pad: nat)
    requires BytesToBits(z) == (BytesToBits(h) + (BytesToBits(e) + BytesToBits(n))) + ToBits(0, pad) && pad < 8
    ensures z == h + (e + n)
  {
    var front := h + (e + n);
    BytesOfThree(h, e, n);
    BytesFirst(z, front, ToBits(0, pad));
    Halves(z, |front|);
    assert z[|front|..] == [];
  }

  lemma SomethingBegins(z: seq<byte>, k: Sums, size: int, blocks: seq<Closed>)
    requires WholeStream(z, k, size, blocks) && blocks != []
    ensures Begins(z, k, size, blocks)
  {
    var crc, more, body, trailer, end := SomethingParts(z, k, size, blocks);
    Signature(size);
    SomethingFirst(z, HeaderBytes(size), BLOCK_MAGIC, BigEndian(crc), more, body, trailer, end);
  }

  lemma SomethingParts(z: seq<byte>, k: Sums, size: int, blocks: seq<Closed>)
    returns (crc: word, more: seq<bit>, body: seq<bit>, trailer: seq<bit>, end: seq<bit>)
    requires WholeStream(z, k, size, blocks) && blocks != []
    ensures 1 <= size <= 9 && crc == 0xffff_ffff - Fold(k.step, 0xffff_ffff, blocks[0].data)
    ensures BytesToBits(z) == (BytesToBits(HeaderBytes(size))
      + (((BytesToBits(BLOCK_MAGIC) + (BytesToBits(BigEndian(crc)) + more)) + body) + trailer)) + end
  {
    var pad := StreamParts(z, k, size, blocks);
    crc, more := ChecksumFirst(k, size, blocks);
    body, trailer, end := BodyBits(blocks[1..]), TrailerBits(Combined(k, 0, blocks)), ToBits(0, pad);
  }

  lemma ChecksumFirst(k: Sums, size: int, blocks: seq<Closed>) returns (crc: word, more: seq<bit>)
    requires 1 <= size <= 9 && AllOk(k, size, blocks) && blocks != []
    ensures crc == 0xffff_ffff - Fold(k.step, 0xffff_ffff, blocks[0].data)
    ensures blocks[0].bits == BytesToBits(BigEndian(crc)) + more
  {
    AllOkTail(k, size, blocks);
    crc := blocks[0].crc;
    BigEndianBits(crc);
    more := EncodingBegins(blocks[0].blk, crc, size, blocks[0].bits);
  }

  lemma Signature(size: int)
    requires 1 <= size <= 9
    ensures HeaderBytes(size) + BLOCK_MAGIC == [0x42, 0x5a, 0x68, 0x30 + size, 0x31, 0x41, 0x59, 0x26, 0x53, 0x59]
  {
  }

  lemma SomethingFirst(z: seq<byte>, h: seq<byte>, m: seq<byte>, n: seq<byte>, more: seq<bit>, body: seq<bit>,
                       trailer: seq<bit>, end: seq<bit>)
    requires |h| == 4 && |m| == 6 && |n| == 4
    requires BytesToBits(z) ==
      (BytesToBits(h) + (((BytesToBits(m) + (BytesToBits(n) + more)) + body) + trailer)) + end
    ensures |z| >= 14 && z[..10] == h + m && z[10..14] == n
  {
    BytesOfThree(h, m, n);
    Regrouped(BytesToBits(h), BytesToBits(m), BytesToBits(n), more, body, trailer, end);
    BytesFirst(z, h + (m + n), ((more + body) + trailer) + end);
    Cut(z, h, m, n);
  }

  lemma Regrouped(h: seq<bit>, m: seq<bit>, n: seq<bit>, more: seq<bit>, body: seq<bit>, trailer: seq<bit>,
                  end: seq<bit>)
    ensures (h + (((m + (n + more)) + body) + trailer)) + end == (h + (m + n)) + (((more + body) + trailer) + end)
  {
    ConcatAssoc(m, n, more);
    ConcatAssoc(m + n, more, body);
    ConcatAssoc(m + n, more + body, trailer);
    ConcatAssoc(h, m + n, (more + body) + trailer);
    ConcatAssoc(h + (m + n), (more + body) + trailer, end);
  }

  lemma Cut(z: seq<byte>, h: seq<byte>, m: seq<byte>, n: seq<byte>)
    requires |h| == 4 && |m| == 6 && |n| == 4 && |z| >= 14 && z[..14] == h + (m + n)
    ensures z[..10] == h + m && z[10..14] == n
  {
    assert z[..10] == z[..14][..10] && z[10..14] == z[..14][10..];
  }

  /** Every stream begins with the signature, the digit of the block size and the mark of a block or of the end; a
      stream of no blocks is fourteen bytes. */
  lemma StreamBegins(z: seq<byte>, k: Sums, size: int, blocks: seq<Closed>)
    requires WholeStream(z, k, size, blocks)
    ensures Begins(z, k, size, blocks)
  {
    if blocks == [] {
      NothingBegins(z, k, size);
    } else {
      SomethingBegins(z, k, size, blocks);
    }
  }

  /** No data, no blocks. */
  lemma NoBlocks(k: Sums, size: int, blocks: seq<Closed>)
    requires AllOk(k, size, blocks) && Data(blocks) == []
    ensures blocks == []
  {
    if blocks != [] {
      AllOkTail(k, size, blocks);
      ExpandSome(blocks[0].blk);
    }
  }

  lemma ExpandSome(blk: seq<byte>)
    requires Complete(blk) && blk != []
    ensures Expand(blk) != []
  {
  }
}
