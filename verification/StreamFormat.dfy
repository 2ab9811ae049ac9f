/** A whole stream: header, blocks, trailer with the combined checksum. */
module StreamFormat {
  import opened Basics
  import opened Bits
  import opened RunLength
  import opened BlockCrc
  import opened RunBuffer
  import opened BlockFormat
  import opened BlockCodec

  const BLOCK_MAGIC: seq<byte> := [0x31, 0x41, 0x59, 0x26, 0x53, 0x59]
  const END_MAGIC: seq<byte> := [0x17, 0x72, 0x45, 0x38, 0x50, 0x90]

  /** The checksum steps: per byte, and from block to stream. */
  datatype Sums = Sums(step: CrcStep, combine: (word, word) -> word)

  /** BZ_FINALISE_CRC. */
  function Finalise(crc: word): (r: word) { 0xffff_ffff - crc }

  /** A block that has been written: its bytes after run-length coding, the input bytes it stands for, their
      checksum, and the bits. */
  datatype Closed = Closed(blk: seq<byte>, data: seq<byte>, crc: word, bits: seq<bit>)

  /** `blk` is the run-length coded form of `data`. */
  ghost predicate Shortens(k: Sums, blk: seq<byte>, data: seq<byte>, crc: word)
  {
    Complete(blk) && Expand(blk) == data && crc == Finalise(Fold(k.step, CRC_INIT, data))
  }

  lemma NothingShort(k: Sums, data: seq<byte>, crc: word)
    requires Shortens(k, [], data, crc)
    ensures data == []
  {
  }

  ghost predicate ClosedOk(k: Sums, size: int, c: Closed)
  {
    && 0 < |c.blk| <= 100000 * size - 10 && Shortens(k, c.blk, c.data, c.crc)
    && EncodesBlock(c.blk, c.crc, size, c.bits)
  }

  function Nth(cs: seq<Closed>, i: int): (c: Closed)
    requires 0 <= i < |cs|
  {
    cs[i]
  }

  /** Every block is a correct encoding. The trigger keeps proofs about whole streams from looking into the blocks. */
  ghost predicate AllOk(k: Sums, size: int, cs: seq<Closed>)
  {
    forall i {:trigger Nth(cs, i)} :: 0 <= i < |cs| ==> ClosedOk(k, size, Nth(cs, i))
  }

  /** Like `Opened`, for how a block was coded. */
  ghost predicate OpenedCoding(i: int) { true }

  /** The block is coded as the encoder codes it. */
  ghost predicate CodedOk(size: int, c: Closed)
  {
    forall i {:trigger OpenedCoding(i)} :: OpenedCoding(i) ==> CodedSome(size, c)
  }

  ghost predicate CodedSome(size: int, c: Closed)
  {
    exists inUse :: InUse(inUse, c.blk) && WellCoded(c.blk, inUse, c.crc, size, c.bits)
  }

  lemma CodedBy(size: int, c: Closed, inUse: seq<bool>)
    requires InUse(inUse, c.blk) && WellCoded(c.blk, inUse, c.crc, size, c.bits)
    ensures CodedOk(size, c)
  {
  }

  /** Every block is. */
  ghost predicate AllCoded(size: int, cs: seq<Closed>)
  {
    forall i {:trigger Nth(cs, i)} :: 0 <= i < |cs| ==> CodedOk(size, Nth(cs, i))
  }

  lemma AllCodedMore(size: int, cs: seq<Closed>, c: Closed)
    requires AllCoded(size, cs) && CodedOk(size, c)
    ensures AllCoded(size, cs + [c])
  {
    forall i | 0 <= i < |cs| + 1
      ensures CodedOk(size, Nth(cs + [c], i))
    {
      if i < |cs| {
        assert Nth(cs + [c], i) == Nth(cs, i);
      } else {
        assert Nth(cs + [c], i) == c;
      }
    }
  }

  lemma AllOkMore(k: Sums, size: int, cs: seq<Closed>, c: Closed)
    requires AllOk(k, size, cs) && AllOk(k, size, [c])
    ensures AllOk(k, size, cs + [c])
  {
    assert Nth([c], 0) == c;
    forall i | 0 <= i < |cs| + 1
      ensures ClosedOk(k, size, Nth(cs + [c], i))
    {
      if i < |cs| {
        assert Nth(cs + [c], i) == Nth(cs, i);
      }
    }
  }

  lemma OneOk(k: Sums, size: int, c: Closed)
    requires ClosedOk(k, size, c)
    ensures AllOk(k, size, [c])
  {
  }

  lemma AllOkTail(k: Sums, size: int, cs: seq<Closed>)
    requires AllOk(k, size, cs) && cs != []
    ensures AllOk(k, size, cs[1..]) && ClosedOk(k, size, cs[0])
  {
    assert Nth(cs, 0) == cs[0];
    forall i | 0 <= i < |cs| - 1
      ensures ClosedOk(k, size, Nth(cs[1..], i))
    {
      assert Nth(cs[1..], i) == Nth(cs, i + 1);
    }
  }

  /** The input bytes behind the blocks. */
  ghost function Data(cs: seq<Closed>): (s: seq<byte>)
  {
    if cs == [] then [] else cs[0].data + Data(cs[1..])
  }

  ghost function BodyBits(cs: seq<Closed>): (s: seq<bit>)
  {
    if cs == [] then [] else (BytesToBits(BLOCK_MAGIC) + cs[0].bits) + BodyBits(cs[1..])
  }

  /** The stream checksum, continued from `crc`. */
  ghost function Combined(k: Sums, crc: word, cs: seq<Closed>): (r: word)
    decreases |cs|
  {
    if cs == [] then crc else Combined(k, k.combine(crc, cs[0].crc), cs[1..])
  }

  function HeaderBytes(size: int): (s: seq<byte>)
    requires 1 <= size <= 9
  {
    [0x42, 0x5a, 0x68, 0x30 + size]
  }

  function TrailerBits(crc: word): (s: seq<bit>)
  {
    BytesToBits(END_MAGIC) + ToBits(crc, CRC_BITS)
  }

  ghost function StreamBits(k: Sums, size: int, cs: seq<Closed>): (s: seq<bit>)
    requires 1 <= size <= 9
  {
    BytesToBits(HeaderBytes(size)) + (BodyBits(cs) + TrailerBits(Combined(k, 0, cs)))
  }

  lemma {:induction false} DataMore(cs: seq<Closed>, c: Closed)
    ensures Data(cs + [c]) == Data(cs) + c.data
  {
    if cs == [] {
      assert cs + [c] == [c] && Data([c][1..]) == [];
    } else {
      DataMore(cs[1..], c);
      assert (cs + [c])[1..] == cs[1..] + [c];
      ConcatAssoc(cs[0].data, Data(cs[1..]), c.data);
    }
  }

  lemma {:induction false} BodyMore(cs: seq<Closed>, c: Closed)
    ensures BodyBits(cs + [c]) == BodyBits(cs) + (BytesToBits(BLOCK_MAGIC) + c.bits)
  {
    if cs == [] {
      assert cs + [c] == [c] && BodyBits([c][1..]) == [];
    } else {
      BodyMore(cs[1..], c);
      assert (cs + [c])[1..] == cs[1..] + [c];
      ConcatAssoc(BytesToBits(BLOCK_MAGIC) + cs[0].bits, BodyBits(cs[1..]), BytesToBits(BLOCK_MAGIC) + c.bits);
    }
  }

  lemma {:induction false} CombinedMore(k: Sums, crc: word, cs: seq<Closed>, c: Closed)
    ensures Combined(k, crc, cs + [c]) == k.combine(Combined(k, crc, cs), c.crc)
    decreases |cs|
  {
    if cs == [] {
      assert cs + [c] == [c] && [c][1..] == [];
    } else {
      CombinedMore(k, k.combine(crc, cs[0].crc), cs[1..], c);
      assert (cs + [c])[1..] == cs[1..] + [c];
    }
  }

  // ----- Blocks whose checksum may be wrong -----

  /** The block can be read: it is an encoding with some checksum, right or wrong. */
  ghost predicate FormOk(size: int, c: Closed)
  {
    && 0 < |c.blk| <= 100000 * size - 10 && Complete(c.blk) && Expand(c.blk) == c.data
    && EncodesBlock(c.blk, c.crc, size, c.bits)
  }

  /** The checksum that comes with the block is that of its bytes. */
  ghost predicate Sound(k: Sums, c: Closed)
  {
    c.crc == Finalise(Fold(k.step, CRC_INIT, c.data))
  }

  lemma ClosedParts(k: Sums, size: int, c: Closed)
    ensures ClosedOk(k, size, c) <==> FormOk(size, c) && Sound(k, c)
  {
  }

  ghost predicate AllForm(size: int, cs: seq<Closed>)
  {
    forall i {:trigger Nth(cs, i)} :: 0 <= i < |cs| ==> FormOk(size, Nth(cs, i))
  }

  lemma AllFormTail(size: int, cs: seq<Closed>)
    requires AllForm(size, cs) && cs != []
    ensures AllForm(size, cs[1..]) && FormOk(size, cs[0])
  {
    assert Nth(cs, 0) == cs[0];
    forall i | 0 <= i < |cs| - 1
      ensures FormOk(size, Nth(cs[1..], i))
    {
      assert Nth(cs[1..], i) == Nth(cs, i + 1);
    }
  }

  /** The bytes up to the end of the first block whose checksum is wrong, or all of them. */
  ghost function Upto(k: Sums, cs: seq<Closed>): (s: seq<byte>)
  {
    if cs == [] then [] else cs[0].data + if Sound(k, cs[0]) then Upto(k, cs[1..]) else []
  }

  /** Every block is sound, and their checksums, continued from `crc`, come to `total`. */
  ghost predicate Good(k: Sums, crc: word, cs: seq<Closed>, total: word)
    decreases |cs|
  {
    if cs == [] then crc == total else Sound(k, cs[0]) && Good(k, k.combine(crc, cs[0].crc), cs[1..], total)
  }

  /** Such blocks are what the compressor makes. */
  lemma {:induction false} GoodMeans(k: Sums, size: int, crc: word, cs: seq<Closed>, total: word)
    requires AllForm(size, cs)
    ensures Good(k, crc, cs, total) <==> AllOk(k, size, cs) && total == Combined(k, crc, cs)
    ensures Good(k, crc, cs, total) ==> Upto(k, cs) == Data(cs)
    decreases |cs|
  {
    if cs != [] {
      AllFormTail(size, cs);
      ClosedParts(k, size, cs[0]);
      GoodMeans(k, size, k.combine(crc, cs[0].crc), cs[1..], total);
      AllOkFirst(k, size, cs);
    }
  }

  lemma AllOkFirst(k: Sums, size: int, cs: seq<Closed>)
    requires cs != []
    ensures AllOk(k, size, cs) <==> ClosedOk(k, size, cs[0]) && AllOk(k, size, cs[1..])
  {
    if AllOk(k, size, cs) {
      AllOkTail(k, size, cs);
    } else if ClosedOk(k, size, cs[0]) && AllOk(k, size, cs[1..]) {
      AllOkJoin(k, size, cs);
    }
  }

  lemma AllOkJoin(k: Sums, size: int, cs: seq<Closed>)
    requires cs != [] && ClosedOk(k, size, cs[0]) && AllOk(k, size, cs[1..])
    ensures AllOk(k, size, cs)
  {
    forall i | 0 <= i < |cs|
      ensures ClosedOk(k, size, Nth(cs, i))
    {
      if i > 0 {
        assert Nth(cs[1..], i - 1) == Nth(cs, i);
      } else {
        assert Nth(cs, i) == cs[0];
      }
    }
  }

  lemma AllOkForm(k: Sums, size: int, cs: seq<Closed>)
    requires AllOk(k, size, cs)
    ensures AllForm(size, cs)
  {
    forall i | 0 <= i < |cs|
      ensures FormOk(size, Nth(cs, i))
    {
      ClosedParts(k, size, Nth(cs, i));
    }
  }
}
