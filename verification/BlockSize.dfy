/** How long an encoded block can get, and that it fits behind the block in arr2. */
module BlockSize {
  import opened Basics
  import opened Bits
  import opened MoveToFront
  import opened MtfEncoder
  import opened InverseBwt
  import opened BlockFormat
  import opened BlockCodec

  lemma {:induction false} ValuesLength(yy: seq<int>, zPend: nat, col: seq<int>, eob: int)
    requires yy != [] && Over(col, yy)
    ensures |Encode(yy, zPend, col, eob)| <= zPend + |col| + 1
    decreases |col|
  {
    if col != [] {
      if col[0] == yy[0] {
        assert Over(col[1..], yy);
        ValuesLength(yy, zPend + 1, col[1..], eob);
      } else {
        var j := IndexOf(yy, col[0]);
        OverAfter(col, yy, j);
        ValuesLength(ToFront(yy, j), 0, col[1..], eob);
      }
    }
  }

  lemma {:induction false} RangeLength(inUse: seq<bool>, i: nat)
    requires |inUse| == 256 && i <= 16
    ensures |RangeBits(inUse, i)| <= 16 * (16 - i)
    decreases 16 - i
  {
    if i < 16 {
      RangeLength(inUse, i + 1);
    }
  }

  lemma {:induction false} UnaryLength(ms: seq<int>)
    requires forall i :: 0 <= i < |ms| ==> 0 <= ms[i] < 6
    ensures |UnaryBits(ms)| <= 6 * |ms|
  {
    if ms != [] {
      UnaryLength(ms[1..]);
    }
  }

  lemma {:induction false} StepLength(curr: int, l: int)
    ensures |StepBits(curr, l)| == 2 * if curr < l then l - curr else curr - l
    decreases if curr < l then l - curr else curr - l
  {
    if curr < l {
      StepLength(curr + 1, l);
    } else if curr > l {
      StepLength(curr - 1, l);
    }
  }

  lemma {:induction false} DeltaLength(curr: int, lens: seq<int>)
    requires 1 <= curr <= 20 && forall i :: 0 <= i < |lens| ==> 1 <= lens[i] <= 20
    ensures |DeltaBits(curr, lens)| <= 39 * |lens|
    decreases |lens|
  {
    if lens != [] {
      StepLength(curr, lens[0]);
      DeltaLength(lens[0], lens[1..]);
    }
  }

  lemma {:induction false} TableLength(tables: seq<seq<int>>, n: int)
    requires LensOk(tables, n) && 0 < n <= 258
    ensures |TableBits(tables)| <= 10067 * |tables|
  {
    if tables != [] {
      DeltaLength(tables[0][0], tables[0]);
      TableLength(tables[1..], n);
    }
  }

  lemma {:induction false} DataLength(c: Coding, n: int, vs: seq<int>, k: nat)
    requires DataOk(c, n, vs) && k <= |vs|
    ensures |DataBits(c, n, vs, k)| <= 20 * (|vs| - k)
    decreases |vs| - k
  {
    if k < |vs| {
      DataLength(c, n, vs, k + 1);
    }
  }

  lemma FrontLength(f: Front, size: int)
    requires FrontOk(f, size)
    ensures |FrontBits(f, size)| <= 57 + 272 + 18 + 6 * |f.coding.sels| + 60402
  {
    var c, n := f.coding, AlphaSize(f.inUse);
    RangeLength(f.inUse, 0);
    SelectorsOver(c, n);
    UnaryLength(SelectorMtf(Iota(|c.tables|), c.sels));
    TableLength(c.tables, n);
  }

  const N_OVERSHOOT := 34

  /** Room behind the block in arr2, in bits. */
  function RoomBehind(size: int, nblock: int): (bits: int)
  {
    8 * (4 * (100000 * size + N_OVERSHOOT) - nblock)
  }

  /** Stream header, block magic, trailer, an unfinished word of the bit buffer and the padding of the last byte. */
  const AROUND := 32 + 48 + 80 + 32 + 8

  /** The output of a block of `nblock` bytes, `nz` bytes long, fits behind the block in arr2. */
  predicate FitsBehind(size: int, nblock: int, nz: int)
  {
    nz <= 4 * (100000 * size + N_OVERSHOOT) - nblock
  }

  /** All that a block adds to the bits, `around` of them not its encoding. */
  lemma FitsFrom(size: int, nblock: int, nz: int, bits: int, around: int)
    requires 8 * nz <= bits + around && around <= AROUND && bits + AROUND <= RoomBehind(size, nblock)
    ensures FitsBehind(size, nblock, nz)
  {
  }

  /** Every block the compressor can close leaves enough room for its own encoding. */
  lemma EncodedBlockFits(blk: seq<byte>, crc: int, size: int, s: seq<bit>)
    requires 1 <= size <= 9 && |blk| <= 100000 * size - 10 && EncodesBlock(blk, crc, size, s)
    ensures AROUND + |s| <= RoomBehind(size, |blk|)
  {
    var ptr, f, vs :| Recipe(blk, crc, size, ptr, f, vs) && s == RecipeBits(f, vs, size);
    var l := LastColumn(blk, ptr);
    ValuesLength(Iota(AlphaSize(f.inUse) - 2), 0, Dense(f.inUse, l), AlphaSize(f.inUse) - 1);
    FrontLength(f, size);
    DataLength(f.coding, AlphaSize(f.inUse), vs, 0);
  }
}
