/** The compressor's input side: runs gathered into the block (bzlib.c:117-144, 216-284). */
module RunBuffer {
  import opened Basics
  import opened RunLength
  import opened BlockCrc

  const CRC_INIT: word := 0xffff_ffff

  /** Two hundred and fifty-six stands for no byte. */
  const NO_CH := 256

  /** The block holds exactly the encoding of `runs`, with its checksum, its set of bytes and the input behind it. */
  ghost predicate Holds(step: CrcStep, block: seq<byte>, inUse: seq<bool>, crc: word, runs: seq<Run>, data: seq<byte>)
  {
    |inUse| == 256 && forall i {:trigger OpenedRuns(i)} :: OpenedRuns(i) ==>
      HoldsIn(step, block, inUse, crc, runs, data)
  }

  /** Like `Opened`, for the runs in a block. */
  ghost predicate OpenedRuns(i: int) { true }

  ghost predicate HoldsIn(step: CrcStep, block: seq<byte>, inUse: seq<bool>, crc: word, runs: seq<Run>, data: seq<byte>)
  {
    && ValidRuns(runs) && Separated(runs) && block == EncodeRuns(runs) && InUse(inUse, block)
    && crc == Fold(step, CRC_INIT, data) && data == RunBytes(runs)
  }

  lemma HoldsNothing(step: CrcStep, inUse: seq<bool>)
    requires |inUse| == 256 && forall c: byte :: !inUse[c]
    ensures Holds(step, [], inUse, CRC_INIT, [], [])
  {
  }

  ghost predicate InUse(inUse: seq<bool>, block: seq<byte>)
  {
    |inUse| == 256 && forall c: byte :: inUse[c] <==> c in block
  }

  /** The pending run is absent, or a run that may follow `runs`. */
  ghost predicate MayFollow(runs: seq<Run>, ch: int, len: int)
  {
    || (ch == NO_CH && len == 0)
    || (0 <= ch < 256 && 1 <= len <= 255 && (runs == [] || runs[|runs| - 1].ch != ch || runs[|runs| - 1].len == 255))
  }

  function PendingBytes(ch: int, len: int): (s: seq<byte>)
  {
    if 0 <= ch < 256 && len > 0 then Rep(ch, len) else []
  }

  lemma SeparatedMore(runs: seq<Run>, r: Run)
    requires Separated(runs) && MayFollow(runs, r.ch, r.len)
    ensures Separated(runs + [r])
  {
    var rs := runs + [r];
    forall i | 0 <= i < |rs| - 1
      ensures rs[i].ch == rs[i + 1].ch ==> rs[i].len == 255
    {
      if i < |runs| - 1 {
        assert rs[i] == runs[i] && rs[i + 1] == runs[i + 1];
      }
    }
  }

  function Mark(inUse: seq<bool>, r: Run): (u: seq<bool>)
    requires |inUse| == 256 && ValidRun(r)
  {
    var u := inUse[r.ch := true];
    if r.len < 4 then u else u[r.len - 4 := true]
  }

  lemma MarkedBytes(inUse: seq<bool>, block: seq<byte>, r: Run)
    requires InUse(inUse, block) && ValidRun(r)
    ensures InUse(Mark(inUse, r), block + EncodeRun(r))
  {
    var s := EncodeRun(r);
    assert s[0] == r.ch && (r.len >= 4 ==> s[4] == r.len - 4);
    forall c: byte
      ensures Mark(inUse, r)[c] <==> c in block + s
    {
      assert c in block + s <==> c in block || c in s;
    }
  }

  /** Moving one run into the block. */
  lemma HoldsMore(step: CrcStep, block: seq<byte>, inUse: seq<bool>, crc: word, runs: seq<Run>, data: seq<byte>, r: Run)
    requires Holds(step, block, inUse, crc, runs, data) && ValidRun(r) && MayFollow(runs, r.ch, r.len)
    ensures var bytes := Rep(r.ch, r.len);
      Holds(step, block + EncodeRun(r), Mark(inUse, r), Fold(step, crc, bytes), runs + [r], data + bytes)
  {
    assert OpenedRuns(0);
    SeparatedMore(runs, r);
    EncodeRunsAppend(runs, r);
    MarkedBytes(inUse, block, r);
    FoldAppend(step, CRC_INIT, data, Rep(r.ch, r.len));
  }

  lemma EncodedLength(r: Run)
    requires ValidRun(r)
    ensures 1 <= |EncodeRun(r)| <= 5
  {
  }

  class Buffer {
    const crcStep: CrcStep
    var block: seq<byte>
    var inUse: seq<bool>
    var blockCRC: word
    var stateInCh: int
    var stateInLen: int
    ghost var runs: seq<Run>
    /** The input bytes of the runs already in the block. */
    ghost var inBlock: seq<byte>

    ghost predicate Valid()
      reads this
    {
      forall i {:trigger Opened(i)} :: Opened(i) ==> Inside()
    }

    ghost predicate Inside()
      reads this
    {
      InsideBlock() && MayFollow(runs, stateInCh, stateInLen)
    }

    ghost predicate InsideBlock()
      reads this
    {
      Holds(crcStep, block, inUse, blockCRC, runs, inBlock)
    }

    /** isempty_RL. */
    predicate Empty()
      reads this
    {
      !(stateInCh < NO_CH && stateInLen > 0)
    }

    ghost function Pending(): (s: seq<byte>)
      reads this
    {
      PendingBytes(stateInCh, stateInLen)
    }

    lemma NothingPending()
      requires Valid() && Empty()
      ensures stateInCh == NO_CH && Pending() == []
    {
      assert Opened(0);
    }

    constructor (crcStep: CrcStep)
      ensures Valid() && this.crcStep == crcStep && Empty() && block == [] && inBlock == [] && stateInCh == NO_CH
      ensures stateInLen == 0
    {
      this.crcStep := crcStep;
      block, inUse, blockCRC, runs, inBlock := [], seq(256, _ => false), CRC_INIT, [], [];
      stateInCh, stateInLen := NO_CH, 0;
      new;
      HoldsNothing(crcStep, inUse);
    }

    /** The part of prepare_new_block that concerns the block; the pending run stays. */
    method Clear()
      requires Valid()
      modifies this
      ensures Valid() && block == [] && inBlock == [] && stateInCh == old(stateInCh) && stateInLen == old(stateInLen)
    {
      assert Opened(0);
      block, inUse, blockCRC, runs, inBlock := [], seq(256, _ => false), CRC_INIT, [], [];
      HoldsNothing(crcStep, inUse);
    }

    /** add_pair_to_block: the bytes stored for the pending run. */
    method StorePair(ch: byte)
      requires |inUse| == 256 && ch == stateInCh && 1 <= stateInLen <= 255
      modifies this`block, this`inUse
      ensures block == old(block) + EncodeRun(Run(ch, stateInLen)) && inUse == Mark(old(inUse), Run(ch, stateInLen))
    {
      inUse := inUse[ch := true];
      if stateInLen == 1 {
        block := block + [ch];
      } else if stateInLen == 2 {
        block := block + [ch, ch];
      } else if stateInLen == 3 {
        block := block + [ch, ch, ch];
      } else {
        inUse := inUse[stateInLen - 4 := true];
        block := block + [ch, ch, ch, ch, stateInLen - 4];
      }
      assert block == old(block) + EncodeRun(Run(ch, stateInLen));
    }

    /** add_pair_to_block. */
    method AddPair()
      requires Inside() && !Empty()
      modifies this`block, this`inUse, this`blockCRC, this`runs, this`inBlock
      ensures InsideBlock() && runs == old(runs) + [Run(stateInCh, stateInLen)]
      ensures inBlock == old(inBlock) + Pending()
      ensures 1 <= |block| - |old(block)| <= 5
    {
      ghost var r, b, u, crc, data := Run(stateInCh, stateInLen), block, inUse, blockCRC, inBlock;
      HoldsMore(crcStep, b, u, crc, runs, data, r);
      EncodedLength(r);
      blockCRC := FoldRun(crcStep, blockCRC, stateInCh, stateInLen);
      StorePair(stateInCh);
      runs := runs + [r];
      inBlock := inBlock + Pending();
      assert block == b + EncodeRun(r) && inUse == Mark(u, r);
      assert blockCRC == Fold(crcStep, crc, Rep(r.ch, r.len)) && inBlock == data + Rep(r.ch, r.len);
    }

    /** flush_RL. */
    method Flush()
      requires Valid()
      modifies this
      ensures Valid() && Empty() && inBlock == old(inBlock) + old(Pending()) && stateInCh == NO_CH && stateInLen == 0
      ensures 0 <= |block| - |old(block)| <= 5
    {
      assert Opened(0);
      if stateInCh < NO_CH {
        AddPair();
      }
      stateInCh, stateInLen := NO_CH, 0;
    }

    /** ADD_CHAR_TO_BLOCK: one more input byte; afterwards a run is pending. */
    method Add(c: byte)
      requires Valid() && (stateInCh == NO_CH ==> inBlock == [])
      modifies this
      ensures Valid() && !Empty() && stateInCh != NO_CH && inBlock + Pending() == old(inBlock) + old(Pending()) + [c]
      ensures 0 <= |block| - |old(block)| <= 5
    {
      assert Opened(0);
      if c != stateInCh && stateInLen == 1 {
        AddPair();
        stateInCh := c;
        assert Pending() == [c];
      } else if c != stateInCh || stateInLen == 255 {
        if stateInCh < NO_CH {
          AddPair();
        } else {
          NoRuns(crcStep, block, inUse, blockCRC, runs);
        }
        stateInCh, stateInLen := c, 1;
        assert Pending() == [c];
      } else {
        stateInLen := stateInLen + 1;
        assert Pending() == old(Pending()) + [c];
      }
    }
  }

  lemma NoRuns(step: CrcStep, block: seq<byte>, inUse: seq<bool>, crc: word, runs: seq<Run>)
    requires Holds(step, block, inUse, crc, runs, [])
    ensures runs == []
  {
    assert OpenedRuns(0);
  }

  /** The checksum of `n` equal bytes, one at a time. */
  method FoldRun(step: CrcStep, crc0: word, ch: byte, n: int) returns (crc: word)
    requires n >= 0
    ensures crc == Fold(step, crc0, Rep(ch, n))
  {
    crc := crc0;
    for i := 0 to n
      invariant crc == Fold(step, crc0, Rep(ch, i))
    {
      FoldSnoc(step, crc0, Rep(ch, i), ch);
      assert Rep(ch, i + 1) == Rep(ch, i) + [ch];
      crc := step(crc, ch);
    }
  }
}
