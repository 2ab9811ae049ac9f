/** BZ2_compressBlock: blocks, header and trailer go to the bit stream (compress.c:602-667). */
module Packer {
  import opened Basics
  import opened Bits
  import opened BitStream
  import opened RunLength
  import opened BlockCrc
  import opened RunBuffer
  import opened BlockFormat
  import opened BlockCodec
  import opened StreamFormat
  import BlockWriter
  import opened BlockSize

  /** What has been written is the header and the closed blocks; before the first block, nothing. */
  ghost predicate Written(bits: seq<bit>, started: bool, size: int, blocks: seq<Closed>)
  {
    && 1 <= size <= 9
    && if started then bits == BytesToBits(HeaderBytes(size)) + BodyBits(blocks) else bits == [] && blocks == []
  }

  /** The bytes are a complete stream, padded to a whole byte. */
  ghost predicate WholeStream(z: seq<byte>, k: Sums, size: int, blocks: seq<Closed>)
  {
    forall i {:trigger OpenedStream(i)} :: OpenedStream(i) ==> IsWhole(z, k, size, blocks)
  }

  /** Like `Opened`, for whole streams. */
  ghost predicate OpenedStream(i: int) { true }

  ghost predicate IsWhole(z: seq<byte>, k: Sums, size: int, blocks: seq<Closed>)
  {
    && 1 <= size <= 9 && AllOk(k, size, blocks)
    && exists pad: nat {:trigger ToBits(0, pad)} ::
         pad < 8 && BytesToBits(z) == StreamBits(k, size, blocks) + ToBits(0, pad)
  }

  /** The bytes have the form of a stream with the checksum `total`, padded to a whole byte; the checksums may be
      wrong. */
  ghost predicate Framed(z: seq<byte>, size: int, blocks: seq<Closed>, total: word)
  {
    forall i {:trigger OpenedStream(i)} :: OpenedStream(i) ==> IsFramed(z, size, blocks, total)
  }

  ghost predicate IsFramed(z: seq<byte>, size: int, blocks: seq<Closed>, total: word)
  {
    && 1 <= size <= 9 && AllForm(size, blocks)
    && exists pad: nat {:trigger ToBits(0, pad)} ::
         pad < 8
         && BytesToBits(z) ==
           (BytesToBits(HeaderBytes(size)) + (BodyBits(blocks) + TrailerBits(total))) + ToBits(0, pad)
  }

  /** A stream is whole exactly when it has the form of one and no checksum in it is wrong. */
  lemma WholeExactly(z: seq<byte>, k: Sums, size: int, blocks: seq<Closed>, total: word)
    ensures WholeStream(z, k, size, blocks) && total == Combined(k, 0, blocks)
      <==> Framed(z, size, blocks, total) && Good(k, 0, blocks, total)
    ensures WholeStream(z, k, size, blocks) ==> Upto(k, blocks) == Data(blocks)
  {
    if WholeStream(z, k, size, blocks) {
      assert OpenedStream(0);
      AllOkForm(k, size, blocks);
      GoodMeans(k, size, 0, blocks, Combined(k, 0, blocks));
    }
    if Framed(z, size, blocks, total) && Good(k, 0, blocks, total) {
      assert OpenedStream(0);
      GoodMeans(k, size, 0, blocks, total);
    }
  }

  ghost predicate Summed(k: Sums, size: int, blocks: seq<Closed>, crc: word)
  {
    AllOk(k, size, blocks) && AllCoded(size, blocks) && crc == Combined(k, 0, blocks)
  }

  lemma SummedMore(k: Sums, size: int, blocks: seq<Closed>, crc: word, c: Closed)
    requires Summed(k, size, blocks, crc) && AllOk(k, size, [c]) && CodedOk(size, c)
    ensures Summed(k, size, blocks + [c], k.combine(crc, c.crc))
    ensures Data(blocks + [c]) == Data(blocks) + c.data
  {
    AllOkMore(k, size, blocks, c);
    AllCodedMore(size, blocks, c);
    CombinedMore(k, 0, blocks, c);
    DataMore(blocks, c);
  }

  lemma WrittenMore(bits: seq<bit>, size: int, blocks: seq<Closed>, c: Closed)
    requires Written(bits, true, size, blocks)
    ensures Written((bits + BytesToBits(BLOCK_MAGIC)) + c.bits, true, size, blocks + [c])
  {
    BodyMore(blocks, c);
    ConcatAssoc(bits, BytesToBits(BLOCK_MAGIC), c.bits);
    ConcatAssoc(BytesToBits(HeaderBytes(size)), BodyBits(blocks), BytesToBits(BLOCK_MAGIC) + c.bits);
  }

  lemma WrittenWhole(bits: seq<bit>, k: Sums, size: int, blocks: seq<Closed>, crc: word, z: seq<byte>, pad: nat)
    requires Written(bits, true, size, blocks) && Summed(k, size, blocks, crc) && pad < 8
    requires BytesToBits(z) == ((bits + BytesToBits(END_MAGIC)) + ToBits(crc, CRC_BITS)) + ToBits(0, pad)
    ensures WholeStream(z, k, size, blocks)
  {
    ConcatAssoc(bits, BytesToBits(END_MAGIC), ToBits(crc, CRC_BITS));
    ConcatAssoc(BytesToBits(HeaderBytes(size)), BodyBits(blocks), TrailerBits(crc));
  }

  method WriteBlock(w: BitWriter, ghost k: Sums, ghost size: int, block: seq<byte>, inUse: seq<bool>, crc: word,
                    ghost data: seq<byte>)
    returns (ghost c: Closed)
    requires w.Valid() && 1 <= size <= 9
    requires 0 < |block| <= 100000 * size - 10 && InUse(inUse, block) && Shortens(k, block, data, crc)
    modifies w
    ensures w.Valid() && w.bits == old(w.bits) + c.bits && c.blk == block && c.data == data && c.crc == crc
    ensures AllOk(k, size, [c]) && CodedOk(size, c)
    ensures AROUND + |c.bits| <= RoomBehind(size, |block|)
  {
    ghost var s := EncodeBlock(w, block, inUse, crc, size);
    c := Closed(block, data, crc, s);
    OneOk(k, size, c);
    CodedBy(size, c, inUse);
    EncodedBlockFits(block, crc, size, s);
  }

  /** A block joins the others, unless it is empty. */
  ghost predicate Joined(before: seq<Closed>, after: seq<Closed>, blk: seq<byte>)
  {
    if blk == [] then after == before
    else |after| == |before| + 1 && after[..|before|] == before && after[|before|].blk == blk
  }

  class Output {
    const k: Sums
    const size: int
    var w: BitWriter
    var blockNo: int
    var combinedCRC: word
    ghost var started: bool
    ghost var blocks: seq<Closed>
    ghost var trailers: int

    ghost predicate Valid()
      reads this, w
    {
      forall i {:trigger Opened(i)} :: Opened(i) ==> Inside()
    }

    ghost predicate Inside()
      reads this, w
    {
      && Summed(k, size, blocks, combinedCRC) && blockNo >= 1 && (blockNo > 1 ==> started)
      && (trailers == 0 || trailers == 1)
      && (trailers == 0 ==> w.Valid() && Written(w.bits, started, size, blocks))
      && (trailers == 1 ==> WholeStream(w.sent + w.zbits, k, size, blocks))
    }

    constructor (k: Sums, size: int)
      requires 1 <= size <= 9
      ensures Valid() && fresh(w) && this.k == k && this.size == size
      ensures w.zbits == [] && w.sent == [] && blocks == [] && trailers == 0 && !started && blockNo == 1
    {
      this.k, this.size := k, size;
      w := new BitWriter();
      blockNo, combinedCRC, started, blocks, trailers := 1, 0, false, [], 0;
    }

    /** The part of prepare_new_block that concerns the output. */
    method NextBlock()
      requires Valid() && trailers == 0 && started
      modifies this`w, this`blockNo
      ensures Valid() && fresh(w) && w.zbits == [] && w.sent == old(w.sent + w.zbits)
      ensures blockNo == old(blockNo) + 1 > 1
    {
      assert Opened(0);
      w := new BitWriter.Resume(w);
      blockNo := blockNo + 1;
    }

    method Header()
      requires Inside() && trailers == 0 && (blockNo == 1 ==> !started)
      modifies this`started, w
      ensures Inside() && started && |w.bits| <= |old(w.bits)| + 32
    {
      if blockNo == 1 {
        assert [] + BytesToBits(HeaderBytes(size)) == BytesToBits(HeaderBytes(size));
        BlockWriter.PutBytes(w, HeaderBytes(size));
        assert BodyBits(blocks) == [];
        started := true;
      }
    }

    /** One block: header, checksum, sorted and coded contents. */
    method Block(block: seq<byte>, inUse: seq<bool>, crc: word, ghost data: seq<byte>)
      requires Inside() && trailers == 0 && started
      requires 0 < |block| <= 100000 * size - 10 && InUse(inUse, block) && Shortens(k, block, data, crc)
      modifies this`blocks, this`combinedCRC, w
      ensures Inside() && Data(blocks) == Data(old(blocks)) + data && Joined(old(blocks), blocks, block)
      ensures |w.bits| - |old(w.bits)| - 48 + AROUND <= RoomBehind(size, |block|)
    {
      combinedCRC := k.combine(combinedCRC, crc);
      ghost var b := w.bits;
      BlockWriter.PutBytes(w, BLOCK_MAGIC);
      ghost var c := WriteBlock(w, k, size, block, inUse, crc, data);
      SummedMore(k, size, blocks, old(combinedCRC), c);
      WrittenMore(b, size, blocks, c);
      blocks := blocks + [c];
    }

    /** An empty block leaves no trace. */
    method Contents(block: seq<byte>, inUse: seq<bool>, crc: word, ghost data: seq<byte>)
      requires Inside() && trailers == 0 && started
      requires |block| <= 100000 * size - 10 && InUse(inUse, block) && Shortens(k, block, data, crc)
      modifies this`blocks, this`combinedCRC, w
      ensures Inside() && Data(blocks) == Data(old(blocks)) + data && Joined(old(blocks), blocks, block)
      ensures |w.bits| - |old(w.bits)| - 48 + AROUND <= RoomBehind(size, |block|)
    {
      if |block| > 0 {
        Block(block, inUse, crc, data);
      } else {
        NothingShort(k, data, crc);
      }
    }

    /** The stream trailer. */
    method Trailer()
      requires Inside() && trailers == 0 && started
      modifies this`trailers, w
      ensures Inside() && trailers == 1 && |w.zbits| > 0 && 8 * (|w.sent| + |w.zbits|) <= |old(w.bits)| + 80 + 7
    {
      ghost var b := w.bits;
      w.Measured();
      BlockWriter.PutBytes(w, END_MAGIC);
      BlockWriter.PutUInt32(w, combinedCRC);
      ghost var pad := w.Finish();
      WrittenWhole(b, k, size, blocks, combinedCRC, w.sent + w.zbits, pad);
      assert |BytesToBits(w.sent + w.zbits)| == |b| + 48 + 32 + pad;
      trailers := 1;
    }

    /** The blocks are coded as the encoder codes them. */
    lemma Coded()
      requires Valid()
      ensures AllCoded(size, blocks)
    {
      assert Opened(0);
    }

    /** What has not left the bit buffer. */
    lemma Buffered()
      requires Valid() && trailers == 0
      ensures 8 * (|w.sent| + |w.zbits|) <= |w.bits| <= 8 * (|w.sent| + |w.zbits|) + 32
    {
      assert Opened(0);
      w.Measured();
    }

    /** Once the trailer is written, the bytes are a whole stream. */
    lemma Finished()
      requires Valid() && trailers == 1
      ensures WholeStream(w.sent + w.zbits, k, size, blocks)
    {
      assert Opened(0);
    }

    /** BZ2_compressBlock. */
    method CompressBlock(rl: Buffer, isLast: bool)
      requires Valid() && trailers == 0 && (blockNo == 1 ==> !started)
      requires rl.Valid() && rl.crcStep == k.step && |rl.block| <= 100000 * size - 10 && w.zbits == []
      modifies this`blocks, this`combinedCRC, this`trailers, this`started, w
      ensures Valid() && started && trailers == (if isLast then 1 else 0) && (isLast ==> |w.zbits| > 0)
      ensures Data(blocks) == Data(old(blocks)) + rl.inBlock && Joined(old(blocks), blocks, rl.block)
      ensures FitsBehind(size, |rl.block|, |w.zbits|)
    {
      assert Opened(0);
      w.Measured();
      ghost var b := |w.bits|;
      Header();
      BufferShortens(k, rl);
      ghost var c := |w.bits|;
      Contents(rl.block, rl.inUse, Finalise(rl.blockCRC), rl.inBlock);
      c := |w.bits| - c - 48;
      if isLast {
        Trailer();
      } else {
        w.Measured();
      }
      FitsFrom(size, |rl.block|, |w.zbits|, c, 32 + 32 + 48 + 80 + 7);
    }
  }

  lemma BufferShortens(k: Sums, rl: Buffer)
    requires rl.Valid() && rl.crcStep == k.step
    ensures Shortens(k, rl.block, rl.inBlock, Finalise(rl.blockCRC)) && InUse(rl.inUse, rl.block)
  {
    assert Opened(0) && OpenedRuns(0);
    ExpandInvertsEncode(rl.runs);
  }
}
