/** Output of one decoded block, by either expander (bzlib.c:819-826 and the code it calls). */
module Unpacker {
  import opened Basics
  import opened InverseBwt
  import opened RunLength
  import opened BlockCrc
  import opened ColumnDecoder
  import FastDecoder
  import SmallDecoder

  class BlockOutput {
    const small: bool
    const crcStep: CrcStep
    const fastState: FastDecoder.FastState?
    const smallState: SmallDecoder.SmallState?
    ghost const repr: set<object>
    /** What is still to be written of the block. */
    ghost var rest: seq<byte>
    /** The checksum of what has been written. */
    ghost var crc: word

    ghost predicate Valid()
      reads this, repr
    {
      forall i {:trigger Opened(i)} :: Opened(i) ==> Inside()
    }

    ghost predicate Inside()
      reads this, repr
    {
      if small then
        && smallState != null && {smallState, smallState.ll16, smallState.ll4, smallState.cftab} == repr
        && smallState.Valid() && !smallState.Stops() && smallState.crcStep == crcStep
        && rest == smallState.rest && crc == smallState.calculatedBlockCRC
      else
        && fastState != null && {fastState, fastState.tt} == repr
        && fastState.Valid() && !fastState.Stops() && fastState.crcStep == crcStep
        && rest == fastState.rest && crc == fastState.calculatedBlockCRC
    }

    constructor Fast(s: FastDecoder.FastState)
      requires s.Valid() && !s.Stops() && s.calculatedBlockCRC == 0xffff_ffff
      ensures Valid() && repr == {s, s.tt} && rest == s.rest && crc == 0xffff_ffff && crcStep == s.crcStep
      ensures !small
    {
      small, fastState, smallState, repr := false, s, null, {s, s.tt};
      crcStep, rest, crc := s.crcStep, s.rest, s.calculatedBlockCRC;
    }

    constructor Small(s: SmallDecoder.SmallState)
      requires s.Valid() && !s.Stops() && s.calculatedBlockCRC == 0xffff_ffff
      ensures Valid() && repr == {s, s.ll16, s.ll4, s.cftab} && rest == s.rest && crc == 0xffff_ffff
      ensures crcStep == s.crcStep && small
    {
      small, fastState, smallState, repr := true, null, s, {s, s.ll16, s.ll4, s.cftab};
      crcStep, rest, crc := s.crcStep, s.rest, s.calculatedBlockCRC;
    }

    /** One call of the expander: the next bytes of the block, as many as fit, never a report of corruption;
        `done` is the test with which BZ2_bzDecompress recognises the end of the block. */
    method Output(availOut: nat) returns (corrupt: bool, out: seq<byte>, done: bool, sum: word)
      requires Valid()
      modifies this, repr
      ensures Valid() && !corrupt && out + rest == old(rest) && |out| == Min(availOut, |old(rest)|)
      ensures sum == crc == Fold(crcStep, old(crc), out)
      ensures (done ==> rest == []) && (|out| < availOut ==> done)
    {
      assert Opened(0);
      if small {
        corrupt, out, done, sum := OutputSmall(smallState, availOut);
        rest, crc := smallState.rest, sum;
      } else {
        corrupt, out, done, sum := OutputFast(fastState, availOut);
        rest, crc := fastState.rest, sum;
      }
    }
  }

  method OutputSmall(s: SmallDecoder.SmallState, availOut: nat)
    returns (corrupt: bool, out: seq<byte>, done: bool, sum: word)
    requires s.Valid() && !s.Stops()
    modifies s
    ensures s.Valid() && !corrupt && out + s.rest == old(s.rest) && |out| == Min(availOut, |old(s.rest)|)
    ensures sum == s.calculatedBlockCRC == Fold(s.crcStep, old(s.calculatedBlockCRC), out)
    ensures (done ==> s.rest == []) && (|out| < availOut ==> done)
  {
    ghost var was := s.rest;
    corrupt, out := s.Output(availOut);
    assert was == was[..|out|] + was[|out|..];
    done := s.nblockUsed == s.saveNblock + 1 && s.stateOutLen == 0;
    sum := s.calculatedBlockCRC;
  }

  method OutputFast(s: FastDecoder.FastState, availOut: nat)
    returns (corrupt: bool, out: seq<byte>, done: bool, sum: word)
    requires s.Valid() && !s.Stops()
    modifies s
    ensures s.Valid() && !corrupt && out + s.rest == old(s.rest) && |out| == Min(availOut, |old(s.rest)|)
    ensures sum == s.calculatedBlockCRC == Fold(s.crcStep, old(s.calculatedBlockCRC), out)
    ensures (done ==> s.rest == []) && (|out| < availOut ==> done)
  {
    ghost var was := s.rest;
    corrupt, out := s.Output(availOut);
    assert was == was[..|out|] + was[|out|..];
    done := s.nblockUsed == s.saveNblock + 1 && s.stateOutLen == 0;
    sum := s.calculatedBlockCRC;
  }

  /** From a block's last column to its output: both branches will write the expansion of the block. */
  method StartOutput(small: bool, crcStep: CrcStep, l: seq<byte>, unzftab: array<int>, origPtr: int, size: int,
                     ghost blk: seq<byte>, ghost ptr: seq<int>)
    returns (o: BlockOutput)
    requires 0 < |blk| <= size <= 0x100000 && IsSortedOrder(blk, ptr) && l == LastColumn(blk, ptr)
    requires Counted(l, unzftab[..])
    requires 0 <= origPtr < |blk| && ptr[origPtr] == 0 && Complete(blk)
    ensures fresh(o) && fresh(o.repr) && o.Valid() && o.crcStep == crcStep && o.rest == Expand(blk)
    ensures o.crc == 0xffff_ffff && o.small == small
  {
    ghost var inv := FindInverse(blk, ptr, l, origPtr);
    if small {
      o := StartSmallOutput(crcStep, l, unzftab, origPtr, size, inv, blk);
    } else {
      o := StartFastOutput(crcStep, l, unzftab, origPtr, size, inv, blk);
    }
  }

  lemma FindInverse(blk: seq<byte>, ptr: seq<int>, l: seq<byte>, origPtr: int) returns (inv: seq<int>)
    requires 0 < |blk| && IsSortedOrder(blk, ptr) && l == LastColumn(blk, ptr) && 0 <= origPtr < |blk|
    requires ptr[origPtr] == 0
    ensures IsInverse(l, inv) && Walk(l, inv, inv[origPtr], |l|) == blk
  {
    inv := InverseExists(l);
    InverseTransform(blk, ptr, inv, origPtr, |blk|);
  }

  method StartSmallOutput(crcStep: CrcStep, l: seq<byte>, unzftab: array<int>, origPtr: int, size: int,
                          ghost inv: seq<int>, ghost blk: seq<byte>)
    returns (o: BlockOutput)
    requires 0 <= origPtr < |l| <= size <= 0x100000 && Counted(l, unzftab[..]) && Complete(blk)
    requires IsInverse(l, inv) && Walk(l, inv, inv[origPtr], |l|) == blk
    ensures fresh(o) && fresh(o.repr) && o.Valid() && o.crcStep == crcStep && o.rest == Expand(blk)
    ensures o.crc == 0xffff_ffff && o.small
  {
    assert forall c :: 0 <= c < 256 ==> unzftab[c] == unzftab[..][c];
    UnrollComplete(blk, FastDecoder.After(l, inv, origPtr));
    var s := SmallDecoder.StartSmall(crcStep, l, unzftab, origPtr, size, inv);
    o := new BlockOutput.Small(s);
  }

  method StartFastOutput(crcStep: CrcStep, l: seq<byte>, unzftab: array<int>, origPtr: int, size: int,
                         ghost inv: seq<int>, ghost blk: seq<byte>)
    returns (o: BlockOutput)
    requires 0 <= origPtr < |l| <= size && Counted(l, unzftab[..]) && Complete(blk)
    requires IsInverse(l, inv) && Walk(l, inv, inv[origPtr], |l|) == blk
    ensures fresh(o) && fresh(o.repr) && o.Valid() && o.crcStep == crcStep && o.rest == Expand(blk)
    ensures o.crc == 0xffff_ffff && !o.small
  {
    assert forall c :: 0 <= c < 256 ==> unzftab[c] == unzftab[..][c];
    UnrollComplete(blk, FastDecoder.After(l, inv, origPtr));
    var s := FastDecoder.StartFast(crcStep, l, unzftab, origPtr, size, inv);
    o := new BlockOutput.Fast(s);
  }

  // ----- The two expanders on any column -----

  /** What calls with the given rooms write of `all`, and that nothing else is pending. */
  ghost predicate Written(all: seq<byte>, out: seq<byte>, rest: seq<byte>, room: nat)
  {
    out == all[..Min(room, |all|)] && rest == all[|out|..]
  }

  lemma WrittenMore(all: seq<byte>, out: seq<byte>, rest: seq<byte>, room: nat, more: nat)
    requires Written(all, out, rest, room)
    ensures |rest| == |all| - Min(room, |all|)
    ensures var some := rest[..Min(more, |rest|)];
      Written(all, out + some, rest[|some|..], room + more)
  {
  }

  /** Calls of the FAST expander on any block, up to a report of corruption. */
  method DrainFast(s: FastDecoder.FastState, rooms: seq<nat>) returns (corrupt: bool, out: seq<byte>)
    requires s.Valid()
    modifies s
    ensures out == old(s.rest)[..Min(Sum(rooms), |old(s.rest)|)]
    ensures corrupt <==> s.Stops() && rooms != [] && Sum(rooms) >= |old(s.rest)|
  {
    ghost var all := s.rest;
    corrupt, out := false, [];
    for i := 0 to |rooms|
      invariant s.Valid() && Written(all, out, s.rest, Sum(rooms[..i]))
      invariant s.Stops() && i > 0 ==> Sum(rooms[..i]) < |all|
    {
      assert rooms[..i + 1][..i] == rooms[..i];
      WrittenMore(all, out, s.rest, Sum(rooms[..i]), rooms[i]);
      var some;
      corrupt, some := s.Output(rooms[i]);
      out := out + some;
      if corrupt {
        SumPrefix(rooms, i + 1);
        return;
      }
    }
    assert rooms[..|rooms|] == rooms;
  }

  lemma {:induction false} SumPrefix(ns: seq<nat>, i: nat)
    requires i <= |ns|
    ensures Sum(ns[..i]) <= Sum(ns)
    decreases |ns|
  {
    if i == |ns| {
      assert ns[..i] == ns;
    } else {
      SumPrefix(ns[..|ns| - 1], i);
      assert ns[..|ns| - 1][..i] == ns[..i];
    }
  }

  /** Calls of the SMALL expander on any block, up to a report of corruption. */
  method DrainSmall(s: SmallDecoder.SmallState, rooms: seq<nat>) returns (corrupt: bool, out: seq<byte>)
    requires s.Valid()
    modifies s
    ensures out == old(s.rest)[..Min(Sum(rooms), |old(s.rest)|)]
    ensures corrupt <==> s.Stops() && Sum(rooms) > |old(s.rest)|
  {
    ghost var all := s.rest;
    corrupt, out := false, [];
    for i := 0 to |rooms|
      invariant s.Valid() && Written(all, out, s.rest, Sum(rooms[..i]))
      invariant s.Stops() ==> Sum(rooms[..i]) <= |all|
    {
      assert rooms[..i + 1][..i] == rooms[..i];
      WrittenMore(all, out, s.rest, Sum(rooms[..i]), rooms[i]);
      var some;
      corrupt, some := s.Output(rooms[i]);
      out := out + some;
      if corrupt {
        SumPrefix(rooms, i + 1);
        return;
      }
    }
    assert rooms[..|rooms|] == rooms;
  }

  /** Every column, every `origPtr`, every sequence of output buffers: FAST and SMALL write the same bytes. Only for
      a block that stops right after four equal bytes is corruption reported, and the reports differ exactly when
      the buffers end with the last byte: FAST then reports it at once, SMALL waits for more room. */
  method ExpandBoth(crcStep: CrcStep, l: seq<byte>, unzftab: array<int>, origPtr: int, size: int, rooms: seq<nat>)
    returns (fastCorrupt: bool, fast: seq<byte>, smallCorrupt: bool, small: seq<byte>, ghost inv: seq<int>)
    requires 0 <= origPtr < |l| <= size <= 0x100000 && Counted(l, unzftab[..])
    ensures IsInverse(l, inv) && fast == small
    ensures var blk := Walk(l, inv, inv[origPtr], |l|);
      var all := Unroll(blk, FastDecoder.After(l, inv, origPtr));
      && fast == all[..Min(Sum(rooms), |all|)]
      && (fastCorrupt <==> !Complete(blk) && Sum(rooms) >= |all|)
      && (smallCorrupt <==> !Complete(blk) && Sum(rooms) > |all|)
  {
    inv := InverseExists(l);
    assert forall c :: 0 <= c < 256 ==> unzftab[c] == unzftab[..][c];
    var f := FastDecoder.StartFast(crcStep, l, unzftab, origPtr, size, inv);
    var s := SmallDecoder.StartSmall(crcStep, l, unzftab, origPtr, size, inv);
    fastCorrupt, fast := DrainFast(f, rooms);
    smallCorrupt, small := DrainSmall(s, rooms);
  }

  /** The reports can differ: four equal bytes and nothing else, with room for exactly what they unroll to. */
  lemma FourEqualBytes(c: byte, inv: seq<int>, origPtr: int)
    requires IsInverse([c, c, c, c], inv) && 0 <= origPtr < 4
    ensures var l := [c, c, c, c];
      Walk(l, inv, inv[origPtr], 4) == l && !Complete(l)
        && |Unroll(l, FastDecoder.After(l, inv, origPtr))| == c as int + 4
  {
    var l := [c, c, c, c];
    var w := Walk(l, inv, inv[origPtr], 4);
    forall k | 0 <= k < 4
      ensures w[k] == c
    {
      WalkAt(l, inv, inv[origPtr], 4, k);
    }
    assert Lead(l) == 4;
  }
}
