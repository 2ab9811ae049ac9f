/** One block end to end: what the encoder writes for it, and why the decoder gets it back. */
module BlockCodec {
  import opened Basics
  import opened Bits
  import opened BitStream
  import opened InverseBwt
  import opened MoveToFront
  import opened MtfEncoder
  import opened HuffmanCodes
  import opened BlockFormat
  import opened ColumnDecoder
  import opened BlockReader
  import BlockWriter
  import TableChoice
  import FallbackSort

  // ----- The values of a column -----

  /** Values lie between zero and the end mark, which comes last and only there. */
  lemma {:induction false} EncodeShape(yy: seq<int>, zPend: nat, col: seq<int>, eob: int)
    requires yy != [] && Over(col, yy) && eob > |yy|
    ensures EndsWith(Encode(yy, zPend, col, eob), eob)
    ensures forall k :: 0 <= k < |Encode(yy, zPend, col, eob)| ==> 0 <= Encode(yy, zPend, col, eob)[k] <= eob
    decreases |col|
  {
    if col != [] {
      if col[0] == yy[0] {
        assert Over(col[1..], yy);
        EncodeShape(yy, zPend + 1, col[1..], eob);
      } else {
        var j := IndexOf(yy, col[0]);
        OverAfter(col, yy, j);
        EncodeShape(ToFront(yy, j), 0, col[1..], eob);
      }
    }
  }

  // ----- What makes up a block -----

  /** The choices behind an encoded block: a sorted order, the values, and complete enough code tables. */
  ghost predicate Recipe(blk: seq<byte>, crc: int, size: int, ptr: seq<int>, f: Front, vs: seq<int>)
  {
    && 0 < |blk| && IsSortedOrder(blk, ptr) && FrontOk(f, size) && |f.coding.sels| <= MAX_SELECTORS
    && f.head.crc == crc && f.head.randomised == 0 && f.head.origPtr < |blk| && ptr[f.head.origPtr] == 0
    && (forall i :: 0 <= i < |blk| ==> f.inUse[blk[i]])
    && ValuesOf(LastColumn(blk, ptr), f.inUse, vs) && DataOk(f.coding, AlphaSize(f.inUse), vs)
    && forall t :: 0 <= t < |f.coding.tables| ==> KraftOk(f.coding.tables[t])
  }

  ghost predicate ValuesOf(l: seq<byte>, inUse: seq<bool>, vs: seq<int>)
  {
    && |inUse| == 256 && AlphaSize(inUse) > 2
    && Over(Dense(inUse, l), Iota(AlphaSize(inUse) - 2))
    && vs == Encode(Iota(AlphaSize(inUse) - 2), 0, Dense(inUse, l), AlphaSize(inUse) - 1)
  }

  ghost function RecipeBits(f: Front, vs: seq<int>, size: int): (s: seq<bit>)
    requires FrontOk(f, size) && DataOk(f.coding, AlphaSize(f.inUse), vs)
  {
    FrontBits(f, size) + DataBits(f.coding, AlphaSize(f.inUse), vs, 0)
  }

  /** `s` is an encoding of `blk`, after the block's magic number. */
  ghost predicate EncodesBlock(blk: seq<byte>, crc: int, size: int, s: seq<bit>)
  {
    exists ptr, f, vs :: Recipe(blk, crc, size, ptr, f, vs) && s == RecipeBits(f, vs, size)
  }

  /** `s` is the encoding that the encoder makes of `blk`: for the bytes marked in `inUse`, with the tables and
      selectors that it chooses. */
  ghost predicate WellCoded(blk: seq<byte>, inUse: seq<bool>, crc: int, size: int, s: seq<bit>)
  {
    exists ptr, f, vs :: Recipe(blk, crc, size, ptr, f, vs) && s == RecipeBits(f, vs, size)
      && f.inUse == inUse && TableChoice.WellChosen(f.coding, AlphaSize(inUse), vs)
  }

  // ----- Decoding undoes the recipe -----

  lemma ValuesDecode(l: seq<byte>, inUse: seq<bool>, vs: seq<int>)
    requires ValuesOf(l, inUse, vs)
    ensures EndsWith(vs, AlphaSize(inUse) - 1) && forall k :: 0 <= k < |vs| ==> 0 <= vs[k] <= AlphaSize(inUse) - 1
    ensures Decode(Iota(256), vs, AlphaSize(inUse) - 1) == Some(Dense(inUse, l))
  {
    var n := AlphaSize(inUse) - 2;
    var yy, tail := Iota(n), seq(256 - n, i => n + i);
    assert Iota(256) == yy + tail;
    EncodeShape(yy, 0, Dense(inUse, l), n + 1);
    DecodeInvertsEncode(yy, tail, 0, Dense(inUse, l), n + 1);
    assert Rep(yy[0], 0) + Dense(inUse, l) == Dense(inUse, l);
  }

  /** Going through the alphabet and back. */
  lemma DenseBack(inUse: seq<bool>, l: seq<byte>, seqToUnseq: seq<byte>, l': seq<byte>)
    requires Numbered(inUse, seqToUnseq, 256) && (forall i :: 0 <= i < |l| ==> inUse[l[i]])
    requires BytesOf(seqToUnseq, Dense(inUse, l), l')
    ensures l' == l
  {
    forall i | 0 <= i < |l|
      ensures l'[i] == l[i]
    {
      assert NumberAt(inUse, seqToUnseq, l[i]);
    }
  }

  /** The column only has bytes of the block. */
  lemma ColumnInUse(blk: seq<byte>, ptr: seq<int>, inUse: seq<bool>)
    requires 0 < |blk| && IsSortedOrder(blk, ptr) && |inUse| == 256 && forall i :: 0 <= i < |blk| ==> inUse[blk[i]]
    ensures forall i :: 0 <= i < |blk| ==> inUse[LastColumn(blk, ptr)[i]]
  {
    forall i | 0 <= i < |blk|
      ensures inUse[LastColumn(blk, ptr)[i]]
    {
      assert LastColumn(blk, ptr)[i] == blk[Prev(ptr[i], |blk|)];
    }
  }

  /** The parser, given the bits of a recipe and anything after them, gets back exactly its parts. */
  lemma RecipeParses(blk: seq<byte>, crc: int, size: int, ptr: seq<int>, f: Front, vs: seq<int>, rest: seq<bit>)
    requires Recipe(blk, crc, size, ptr, f, vs)
    ensures ParseFront(size, RecipeBits(f, vs, size) + rest)
      == Some((f, DataBits(f.coding, AlphaSize(f.inUse), vs, 0) + rest))
  {
    var data := DataBits(f.coding, AlphaSize(f.inUse), vs, 0);
    ConcatAssoc(FrontBits(f, size), data, rest);
    FrontRoundTrip(f, size, data + rest);
  }

  lemma RecipeData(blk: seq<byte>, crc: int, size: int, ptr: seq<int>, f: Front, vs: seq<int>, ts: seq<Table>,
                   rest: seq<bit>)
    requires Recipe(blk, crc, size, ptr, f, vs) && TablesFor(f.coding.tables, ts)
    ensures ParseData(ts, f.coding.sels, 0, AlphaSize(f.inUse) - 1,
      DataBits(f.coding, AlphaSize(f.inUse), vs, 0) + rest)
      == Some((vs, rest))
  {
    ValuesDecode(LastColumn(blk, ptr), f.inUse, vs);
    DataRoundTrip(f.coding, AlphaSize(f.inUse), vs, ts, 0, AlphaSize(f.inUse) - 1, rest);
    assert vs[0..] == vs;
  }

  lemma TablesDecode(blk: seq<byte>, crc: int, size: int, ptr: seq<int>, f: Front, vs: seq<int>, ts: seq<Table>)
    requires Recipe(blk, crc, size, ptr, f, vs)
    requires |ts| == |f.coding.tables| && forall t :: 0 <= t < |ts| ==> TableShape(ts[t])
    requires forall t :: 0 <= t < |ts| && KraftOk(f.coding.tables[t]) ==> Decodes(f.coding.tables[t], ts[t])
    ensures TablesFor(f.coding.tables, ts)
  {
  }

  // ----- Encoding -----

  /** The row of the sorted order that is the block itself (blocksort.c:1083-1088). */
  method FindOrigin(ptr: seq<int>) returns (origPtr: int)
    requires IsPermutation(ptr) && ptr != []
    ensures 0 <= origPtr < |ptr| && ptr[origPtr] == 0
  {
    origPtr := -1;
    ghost var at := PermutationReaches(ptr, 0);
    for i := 0 to |ptr|
      invariant origPtr == -1 && forall k :: 0 <= k < i ==> ptr[k] != 0
    {
      if ptr[i] == 0 {
        origPtr := i;
        break;
      }
    }
  }

  /** BZ2_blockSort, by the sorter that handles every block. */
  method SortBlock(block: seq<byte>) returns (ptr: seq<int>)
    requires 0 < |block| <= 900000
    ensures IsSortedOrder(block, ptr)
  {
    var n := |block|;
    var fmap, eclass := new int[n], new int[n];
    var eclass8 := new byte[n](i requires 0 <= i < n => block[i]);
    var bh := new bool[32 * (n / 32 + 3)];
    assert eclass8[..n] == block;
    FallbackSort.Sort(fmap, eclass8, eclass, bh, n);
    ptr := fmap[..];
  }

  /** The pointers as they lie in arr1, in 16-bit halves. */
  method LayOut(ptr: seq<int>) returns (arr1: array<int>)
    requires forall i :: 0 <= i < |ptr| ==> 0 <= ptr[i]
    ensures fresh(arr1) && arr1.Length == 2 * |ptr| && Intact(arr1[..], ptr, 0)
  {
    arr1 := new int[2 * |ptr|];
    for i := 0 to |ptr|
      invariant forall k :: 0 <= k < i ==> PtrAt(arr1[..], k) == ptr[k]
    {
      ghost var was := arr1[..];
      arr1[2 * i], arr1[2 * i + 1] := ptr[i] % 65536, ptr[i] / 65536;
      forall k | 0 <= k < i + 1
        ensures PtrAt(arr1[..], k) == ptr[k]
      {
        if k < i {
          assert PtrAt(was, k) == ptr[k];
        }
      }
    }
  }

  /** The values for a block: sort, take the last column, move to front. */
  method BlockValues(block: seq<byte>, inUse: seq<bool>) returns (ptr: seq<int>, origPtr: int, vs: seq<int>)
    requires 0 < |block| <= 900000 && |inUse| == 256 && forall i :: 0 <= i < |block| ==> inUse[block[i]]
    ensures IsSortedOrder(block, ptr) && 0 <= origPtr < |block| && ptr[origPtr] == 0
    ensures ValuesOf(LastColumn(block, ptr), inUse, vs) && 1 <= |vs| <= |block| + 1
  {
    ptr := SortBlock(block);
    origPtr := FindOrigin(ptr);
    var arr1 := LayOut(ptr);
    var nMTF, nInUse := GenerateMTFValues(arr1, block, inUse, ptr);
    vs := arr1[..nMTF];
  }

  lemma GoodTables(tables: seq<seq<int>>, n: int)
    requires forall t :: 0 <= t < |tables| ==> TableChoice.GoodTable(tables[t], n)
    ensures LensOk(tables, n)
    ensures forall t :: 0 <= t < |tables| ==> KraftOk(tables[t])
  {
    forall t | 0 <= t < |tables|
      ensures |tables[t]| == n && Lengths(tables[t], 1, 20) && KraftOk(tables[t])
    {
      assert TableChoice.GoodTable(tables[t], n);
      KraftScale(tables[t], 17, LONGEST);
      Pow2Add(17, 3);
    }
  }

  /** The parts put together are a recipe. */
  lemma MakeRecipe(blk: seq<byte>, crc: int, size: int, ptr: seq<int>, origPtr: int, inUse: seq<bool>, vs: seq<int>,
                   c: Coding)
    requires 0 < |blk| <= 900000 && |blk| <= 100000 * size && IsSortedOrder(blk, ptr) && 0 <= crc < 0x1_0000_0000
    requires |inUse| == 256 && (forall i :: 0 <= i < |blk| ==> inUse[blk[i]])
    requires 0 <= origPtr < |blk| && ptr[origPtr] == 0
    requires ValuesOf(LastColumn(blk, ptr), inUse, vs) && DataOk(c, AlphaSize(inUse), vs)
    requires |c.sels| <= MAX_SELECTORS
    requires forall t :: 0 <= t < |c.tables| ==> TableChoice.GoodTable(c.tables[t], AlphaSize(inUse))
    ensures Recipe(blk, crc, size, ptr, Front(Head(crc, 0, origPtr), inUse, c), vs)
  {
    GoodTables(c.tables, AlphaSize(inUse));
    BlockWriter.PtrFits(origPtr);
    WordFits(crc);
  }

  lemma WordFits(crc: int)
    requires 0 <= crc < 0x1_0000_0000
    ensures crc < Pow2(CRC_BITS)
  {
    Pow2Values();
  }

  method PutFront(w: BitWriter, f: Front, ghost size: int)
    requires w.Valid() && FrontOk(f, size) && f.head.randomised == 0
    requires f.head.crc < 0x1_0000_0000 && f.head.origPtr < 0x100_0000
    modifies w
    ensures w.Valid() && w.bits == old(w.bits) + FrontBits(f, size)
  {
    ghost var n := AlphaSize(f.inUse);
    ghost var b, x, y, z := w.bits, HeadBits(f.head), MapBits(f.inUse), CodingBits(f.coding, n);
    BlockWriter.PutHead(w, f.head);
    BlockWriter.PutMap(w, f.inUse);
    PutCoding(w, f.coding, AlphaSize(f.inUse));
    BlockWriter.ThreeParts(b, x, y, z);
  }

  method PutCoding(w: BitWriter, c: Coding, n: int)
    requires w.Valid() && CodingOk(c, n)
    modifies w
    ensures w.Valid() && w.bits == old(w.bits) + CodingBits(c, n)
  {
    ConcatAssoc(w.bits, SelectorBits(c, n), TableBits(c.tables));
    BlockWriter.PutSelectors(w, c, n, |c.tables|, c.sels);
    BlockWriter.PutTables(w, c.tables, n);
  }

  /** Sorting, coding and writing one block, after its magic number (compress.c:617, 637-652). */
  method EncodeBlock(w: BitWriter, block: seq<byte>, inUse: seq<bool>, crc: int, ghost size: int)
    returns (ghost s: seq<bit>)
    requires w.Valid() && 0 < |block| <= 899990 && |block| <= 100000 * size && 0 <= crc < 0x1_0000_0000
    requires |inUse| == 256 && forall i :: 0 <= i < |block| ==> inUse[block[i]]
    modifies w
    ensures w.Valid() && w.bits == old(w.bits) + s && EncodesBlock(block, crc, size, s)
    ensures WellCoded(block, inUse, crc, size, s)
  {
    var ptr, origPtr, vs := BlockValues(block, inUse);
    ValuesDecode(LastColumn(block, ptr), inUse, vs);
    var c := TableChoice.ChooseCoding(vs, AlphaSize(inUse));
    MakeRecipe(block, crc, size, ptr, origPtr, inUse, vs, c);
    var f := Front(Head(crc, 0, origPtr), inUse, c);
    s := WriteRecipe(w, f, vs, block, crc, size, ptr);
  }

  method WriteRecipe(w: BitWriter, f: Front, vs: seq<int>, ghost blk: seq<byte>, ghost crc: int, ghost size: int,
                     ghost ptr: seq<int>)
    returns (ghost s: seq<bit>)
    requires w.Valid() && Recipe(blk, crc, size, ptr, f, vs) && |blk| <= 900000 && crc < 0x1_0000_0000
    modifies w
    ensures w.Valid() && w.bits == old(w.bits) + s && s == RecipeBits(f, vs, size)
  {
    ghost var n := AlphaSize(f.inUse);
    s := RecipeBits(f, vs, size);
    ConcatAssoc(w.bits, FrontBits(f, size), DataBits(f.coding, n, vs, 0));
    ValuesDecode(LastColumn(blk, ptr), f.inUse, vs);
    var codes := BlockWriter.AssignAll(f.coding.tables, AlphaSize(f.inUse));
    PutFront(w, f, size);
    var selCtr := BlockWriter.PutData(w, f.coding, codes, vs, n);
  }
}
