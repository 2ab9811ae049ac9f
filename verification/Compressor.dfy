/** BZ2_bzCompress: modes, states and the caller's buffers (bzlib.c:150-201, 288-464). */
module Compressor {
  import opened Basics
  import opened RunBuffer
  import opened StreamFormat
  import opened Packer
  import opened BlockSize

  datatype Mode = Idle | Running | Flushing | Finishing

  datatype State = Input | Output

  datatype Action = Run | Flush | Finish | Other

  datatype Return = RunOk | FlushOk | FinishOk | StreamEnd | SequenceError | ParamError

  // ----- Copying -----

  /** Why copy_input_until_stop stops. */
  predicate Stopped(room: int, left: int, running: bool, wanted: int)
  {
    room <= 0 || left == 0 || (!running && wanted == 0)
  }

  /** copy_input_until_stop: the bytes taken go into the run buffer, and a block that fills up leaves a run pending. */
  method CopyInput(rl: Buffer, nextIn: seq<byte>, nblockMAX: int, running: bool, wanted0: int)
    returns (used: int, wanted: int)
    requires rl.Valid() && (rl.stateInCh == NO_CH ==> rl.inBlock == []) && |rl.block| < nblockMAX && wanted0 >= 0
    modifies rl
    ensures rl.Valid() && (rl.stateInCh == NO_CH ==> rl.inBlock == []) && |rl.block| <= nblockMAX + 4
    ensures 0 <= used <= |nextIn| && rl.inBlock + rl.Pending() == old(rl.inBlock + rl.Pending()) + nextIn[..used]
    ensures Stopped(nblockMAX - |rl.block|, |nextIn| - used, running, wanted)
    ensures |rl.block| >= nblockMAX ==> !rl.Empty() && used > 0
    ensures wanted == (if running then wanted0 else wanted0 - used) >= 0
  {
    used, wanted := 0, wanted0;
    while !Stopped(nblockMAX - |rl.block|, |nextIn| - used, running, wanted)
      invariant rl.Valid() && (rl.stateInCh == NO_CH ==> rl.inBlock == []) && |rl.block| <= nblockMAX + 4
      invariant 0 <= used <= |nextIn| && rl.inBlock + rl.Pending() == old(rl.inBlock + rl.Pending()) + nextIn[..used]
      invariant |rl.block| >= nblockMAX ==> !rl.Empty() && used > 0
      invariant wanted == (if running then wanted0 else wanted0 - used) >= 0
      decreases |nextIn| - used
    {
      rl.Add(nextIn[used]);
      assert nextIn[..used + 1] == nextIn[..used] + [nextIn[used]];
      used := used + 1;
      if !running { wanted := wanted - 1; }
    }
  }

  /** copy_output_until_stop. */
  method CopyOutput(zbits: seq<byte>, pos0: int, availOut: int, out0: seq<byte>)
    returns (pos: int, avail: int, out: seq<byte>)
    requires 0 <= pos0 <= |zbits| && availOut >= 0
    ensures pos0 <= pos <= |zbits| && out == out0 + zbits[pos0..pos] && avail == availOut - (pos - pos0) >= 0
    ensures avail == 0 || pos == |zbits|
  {
    pos, avail, out := pos0, availOut, out0;
    while avail > 0 && pos < |zbits|
      invariant pos0 <= pos <= |zbits| && out == out0 + zbits[pos0..pos] && avail == availOut - (pos - pos0) >= 0
    {
      out := out + [zbits[pos]];
      pos := pos + 1;
      avail := avail - 1;
    }
  }

  // ----- What holds between calls -----

  /** Where the trailer can be, and what a block in the output buffer implies: one that was closed because it
      was full has left a run pending, so it is never taken for the last one. */
  ghost predicate Phase(mode: Mode, state: State, wanted: int, empty: bool, trailers: int)
  {
    if state == Input then mode != Idle && trailers == 0
    else if trailers == 1 then (mode == Finishing || mode == Idle) && wanted == 0 && empty
    else trailers == 0 && mode != Idle && (!empty || (mode == Flushing && wanted == 0))
  }

  /** Where the input is: in finished blocks, in the current block, in the pending run. */
  ghost function Ledger(done: seq<byte>, inBlock: seq<byte>, pending: seq<byte>): (s: seq<byte>)
  {
    done + (inBlock + pending)
  }

  /** The blocks that no flush has closed early, whose indices are not in `asked`, are full: they have reached `max`
      bytes, by no more than four; the last block of a stream that has ended may be shorter. */
  ghost predicate Sized(blocks: seq<Closed>, asked: set<int>, max: int, ended: bool)
  {
    && (forall i :: i in asked ==> 0 <= i < |blocks|)
    && forall i {:trigger Nth(blocks, i)} ::
         0 <= i < |blocks| && i !in asked && !(ended && i == |blocks| - 1) ==> max <= |Nth(blocks, i).blk| <= max + 4
  }

  /** One block more, whether full, closed by a flush or last. */
  lemma SizedMore(before: seq<Closed>, after: seq<Closed>, blk: seq<byte>, asked: set<int>, asked': set<int>, max: int,
                  ended: bool)
    requires Sized(before, asked, max, false) && Joined(before, after, blk)
    requires asked' == asked || asked' == asked + {|after| - 1}
    requires asked' != asked ==> |after| > |before|
    requires max <= |blk| <= max + 4 || |after| - 1 in asked' || ended || blk == []
    ensures Sized(after, asked', max, ended)
  {
    forall i | 0 <= i < |after| && i !in asked' && !(ended && i == |after| - 1)
      ensures max <= |Nth(after, i).blk| <= max + 4
    {
      if i < |before| {
        assert Nth(after, i) == Nth(before, i);
      }
    }
  }

  /** Like `OpenedState`, for the part of a compressor that a call leaves alone. */
  ghost predicate OpenedStore(i: int) { true }

  /** What one call can add: when all input of a flush is in, the block that it closes. */
  ghost predicate AskedOn(asked: set<int>, asked': set<int>, mode: Mode, wanted: int, n: int)
  {
    asked' == asked || (mode == Flushing && wanted == 0 && asked' == asked + {n - 1})
  }

  /** How far a call has come: input left, stage of the block, size of its output, how much of it is delivered,
      how much this call has delivered, trailers written. */
  datatype Mark = Mark(left: int, rank: int, size: int, pos: int, out: int, trailers: int)

  /** Still the same block in the output buffer, some of it delivered. */
  predicate KeptOn(a: Mark, b: Mark)
  {
    b.left == a.left && b.rank == a.rank && b.size == a.size && b.trailers == a.trailers
      && b.pos - a.pos == b.out - a.out
  }

  /** Some input was taken, or a block was closed that needs no more. */
  predicate Advanced(a: Mark, b: Mark)
  {
    b.left < a.left || (b.left == a.left && 0 <= b.rank < a.rank)
  }

  /** Where a call stands after some rounds. */
  predicate Journey(a: Mark, b: Mark, stop: bool, output: bool)
  {
    b.out >= a.out
    && if stop then output ==> KeptOn(a, b) || (Advanced(a, b) && b.out - a.out >= b.pos)
       else (KeptOn(a, b) && b.out == a.out) || (Advanced(a, b) && output && b.pos == 0)
  }

  /** One more round, which either goes on with the block in the buffer or reaches a new one. */
  lemma JourneyStep(a: Mark, b: Mark, c: Mark, output: bool, stop: bool, output': bool)
    requires Journey(a, b, false, output) && c.out >= b.out
    requires !stop ==> Advanced(b, c) && output' && c.pos == 0
    requires stop && output' ==> KeptOn(b, c)
    ensures Journey(a, c, stop, output')
  {
  }

  /** Nearer to the end of the stream: less input, a last block, or less of it to deliver. */
  predicate Closer(a: Mark, b: Mark)
  {
    Advanced(a, b) || (b.left == a.left && b.rank == a.rank && b.size == a.size && a.pos < b.pos <= b.size)
  }

  /** The same, seen from the caller's side. */
  predicate Nearer(used: int, a: Mark, b: Mark)
  {
    used > 0 || 0 <= b.rank < a.rank || (b.rank == a.rank && b.size == a.size && a.pos < b.pos <= b.size)
  }

  /** A call that is answered with an error at once: `matches` says that avail_in is what was announced. */
  predicate Refuses(mode: Mode, action: Action, matches: bool)
  {
    match mode
    case Idle => true
    case Running => action == Other
    case Flushing => action != Flush || !matches
    case Finishing => action != Finish || !matches
  }

  /** The mode after a call and the code it returns: `moved` says that bytes were taken or delivered, `drained` that
      nothing is left to take, to close or to deliver. */
  predicate Answer(mode0: Mode, action: Action, matches: bool, moved: bool, drained: bool, mode: Mode, ret: Return)
  {
    if Refuses(mode0, action, matches) then
      mode == mode0 && !moved && ret == if mode0 == Running then ParamError else SequenceError
    else if action == Action.Run then mode == Running && ret == if moved then RunOk else ParamError
    else if action == Flush then
      if drained then mode == Running && ret == RunOk else mode == Flushing && ret == FlushOk
    else
      if !moved then mode == Finishing && ret == SequenceError
      else if drained then mode == Idle && ret == StreamEnd
      else mode == Finishing && ret == FinishOk
  }

  /** What the caller has handed over and what it has been given. */
  datatype Books = Books(consumed: seq<byte>, nextIn: seq<byte>, delivered: seq<byte>, out: seq<byte>, availOut: int)

  class EState {
    const rl: Buffer
    const pk: Packer.Output
    const nblockMAX: int
    var mode: Mode
    var state: State
    var availInExpect: int
    var stateOutPos: int
    var nextIn: seq<byte>
    var availOut: int
    var out: seq<byte>
    ghost var consumed: seq<byte>
    ghost var delivered: seq<byte>
    /** The blocks closed because a flush asked for it. */
    ghost var asked: set<int>

    ghost predicate Valid()
      reads this, rl, pk, pk.w
    {
      Counted() && Inside()
    }

    ghost predicate Counted()
      reads this, rl, pk
    {
      availInExpect >= 0 && availOut >= 0 && Phase(mode, state, availInExpect, rl.Empty(), pk.trailers)
    }

    /** The part that the caller's buffers and the mode have no say in. */
    ghost predicate Stored()
      reads this`state, this`stateOutPos, this`consumed, this`delivered, this`asked, rl, pk, pk.w
    {
      forall i {:trigger OpenedStore(i)} :: OpenedStore(i) ==> Inside()
    }

    ghost predicate Inside()
      reads this`state, this`stateOutPos, this`consumed, this`delivered, this`asked, rl, pk, pk.w
    {
      && rl.Valid() && pk.Valid() && pk.k.step == rl.crcStep && nblockMAX == 100000 * pk.size - 19 && 1 <= pk.size <= 9
      && (if state == Input then InputReady() else OutputReady()) && (pk.trailers == 1 ==> |pk.w.zbits| > 0)
      && delivered == pk.w.sent + pk.w.zbits[..stateOutPos]
      && consumed == Ledger(Data(pk.blocks), if state == Input then rl.inBlock else [], rl.Pending())
      && Sized(pk.blocks, asked, nblockMAX, pk.trailers == 1)
    }

    /** The sizes of the blocks, and how they are coded, over all reachable states. */
    lemma Blocks()
      requires Ready()
      ensures Sized(pk.blocks, asked, 100000 * pk.size - 19, pk.trailers == 1) && AllCoded(pk.size, pk.blocks)
    {
      assert OpenedState(0) && OpenedStore(0);
      pk.Coded();
    }

    ghost predicate InputReady()
      reads this`stateOutPos, rl, pk, pk.w
    {
      && stateOutPos == 0 && pk.w.zbits == [] && |rl.block| <= nblockMAX + 4
      && (rl.stateInCh == NO_CH ==> rl.inBlock == []) && (pk.blockNo == 1 ==> !pk.started)
    }

    /** The block is still there, and its output fits behind it. */
    ghost predicate OutputReady()
      reads this`stateOutPos, rl, pk, pk.w
    {
      && pk.started && 0 <= stateOutPos <= |pk.w.zbits|
      && |rl.block| <= nblockMAX + 9 && FitsBehind(pk.size, |rl.block|, |pk.w.zbits|)
    }

    /** Over all reachable states: the block is ten bytes below its nominal size, and what was written for it fits
        behind it in arr2. */
    lemma Bounded()
      requires Ready()
      ensures |rl.block| <= nblockMAX + 9 == 100000 * pk.size - 10
      ensures |rl.block| + |pk.w.zbits| <= 4 * (100000 * pk.size + 34)
    {
      assert OpenedState(0) && OpenedStore(0);
    }

    /** Between two steps the block has room. */
    ghost predicate Ready()
      reads this, rl, pk, pk.w
    {
      forall i {:trigger OpenedState(i)} :: OpenedState(i) ==>
        Counted() && Stored() && (state == Input ==> |rl.block| < nblockMAX)
    }

    /** BZ2_bzCompressInit. */
    constructor (k: Sums, blockSize100k: int)
      requires 1 <= blockSize100k <= 9
      ensures Ready() && Unended() && fresh(rl) && fresh(pk) && fresh(pk.w) && mode == Running && state == Input
      ensures consumed == [] && delivered == [] && pk.k == k && pk.size == blockSize100k && asked == {}
    {
      rl := new Buffer(k.step);
      pk := new Packer.Output(k, blockSize100k);
      nblockMAX := 100000 * blockSize100k - 19;
      mode, state, availInExpect, stateOutPos := Running, Input, 0, 0;
      nextIn, availOut, out := [], 0, [];
      consumed, delivered, asked := [], [], {};
    }

    // ----- One step of handle_compress -----

    /** A full block is handed over; the run still pending belongs to the next one. */
    method CloseFull()
      requires Valid() && state == Input && !rl.Empty() && |rl.block| >= nblockMAX
      modifies this`state, pk, pk.w
      ensures Ready() && state == Output && stateOutPos == 0 && pk.w == old(pk.w)
    {
      Settle(Data(pk.blocks), rl.inBlock, rl.Pending());
      ghost var before := pk.blocks;
      pk.CompressBlock(rl, false);
      SizedMore(before, pk.blocks, rl.block, asked, asked, nblockMAX, false);
      state := Output;
    }

    /** All input asked for is in: the pending run completes the block, and when finishing the trailer follows. */
    method CloseLast()
      requires Valid() && state == Input && mode != Running && availInExpect == 0
      modifies this`state, this`asked, rl, pk, pk.w
      ensures Valid() && state == Output && stateOutPos == 0 && pk.w == old(pk.w) && rl.Empty()
      ensures AskedOn(old(asked), asked, mode, availInExpect, |pk.blocks|)
      ensures |rl.block| <= nblockMAX + 9 && pk.trailers == (if mode == Finishing then 1 else 0)
      ensures FitsBehind(pk.size, |rl.block|, |pk.w.zbits|)
    {
      Settle(Data(pk.blocks), rl.inBlock, rl.Pending());
      assert pk.w.zbits[..stateOutPos] == [];
      rl.Flush();
      assert rl.Pending() == [];
      ghost var before, was := pk.blocks, asked;
      pk.CompressBlock(rl, mode == Finishing);
      assert pk.w.zbits[..stateOutPos] == [];
      if mode == Flushing && |pk.blocks| > |before| { asked := asked + {|pk.blocks| - 1}; }
      SizedMore(before, pk.blocks, rl.block, was, asked, nblockMAX, mode == Finishing);
      state := Output;
    }

    /** prepare_new_block. */
    method PrepareNewBlock()
      requires Ready() && state == Output && stateOutPos == |pk.w.zbits| && pk.trailers == 0
      modifies this`state, this`stateOutPos, rl, pk
      ensures Ready() && state == Input && fresh(pk.w) && rl.Empty() == old(rl.Empty()) && pk.blocks == old(pk.blocks)
      ensures Data(pk.blocks) == old(Data(pk.blocks)) && rl.Pending() == old(rl.Pending())
    {
      assert OpenedState(0) && OpenedStore(0);
      assert pk.w.zbits[..stateOutPos] == pk.w.zbits;
      rl.Clear();
      pk.NextBlock();
      stateOutPos := 0;
      state := Input;
    }

    /** Copy as much of the output as fits. */
    method Deliver() returns (progress: bool)
      requires Valid() && state == Output
      modifies this`stateOutPos, this`availOut, this`out, this`delivered
      ensures Valid() && Moved(old(delivered), old(out), old(availOut), delivered, out, availOut)
      ensures stateOutPos < |pk.w.zbits| ==> availOut == 0
      ensures stateOutPos - old(stateOutPos) == |out| - |old(out)| && progress == (|out| > |old(out)|)
    {
      var pos, avail, o := CopyOutput(pk.w.zbits, stateOutPos, availOut, out);
      progress := pos > stateOutPos;
      Prefixes(pk.w.sent, pk.w.zbits, stateOutPos, pos);
      delivered := delivered + pk.w.zbits[stateOutPos..pos];
      stateOutPos, availOut, out := pos, avail, o;
    }

    /** Deliver what is there; unless that was the end, start the next block. */
    method OutputStep() returns (stop: bool, progress: bool)
      requires Ready() && state == Output && mode != Idle
      modifies this`state, this`stateOutPos, this`availOut, this`out, this`delivered, rl, pk
      ensures Ready() && (pk.w == old(pk.w) || fresh(pk.w))
      ensures Flow(old(Account()), Account())
      ensures !stop ==> state == Input
      ensures (old(rl.Empty()) ==> stop) && pk.blocks == old(pk.blocks)
      ensures stop ==> Halted()
      ensures progress == (|out| > |old(out)|)
      ensures stop && state == Output ==> KeptOn(old(Now()), Now())
    {
      assert OpenedState(0) && OpenedStore(0);
      progress := Deliver();
      OnlyMoved(old(Account()), Account());
      stop := true;
      if stateOutPos < |pk.w.zbits| { return; }
      if mode == Finishing && availInExpect == 0 && rl.Empty() { return; }
      PrepareNewBlock();
      stop := mode == Flushing && availInExpect == 0 && rl.Empty();
    }

    /** Take in as much as there is room for. */
    method TakeInput() returns (progress: bool)
      requires Valid() && state == Input && |rl.block| < nblockMAX
      modifies this`availInExpect, this`nextIn, this`consumed, rl
      ensures Valid() && Taken(old(consumed), old(nextIn), consumed, nextIn)
      ensures Stopped(nblockMAX - |rl.block|, |nextIn|, mode == Running, availInExpect)
      ensures |rl.block| >= nblockMAX ==> !rl.Empty() && |nextIn| < |old(nextIn)|
      ensures mode != Running ==> Owed() == old(Owed())
      ensures progress == (|nextIn| < |old(nextIn)|)
    {
      ghost var a, b := rl.inBlock, rl.Pending();
      var used, wanted := CopyInput(rl, nextIn, nblockMAX, mode == Running, availInExpect);
      progress := used > 0;
      Regroup(Data(pk.blocks), a, b, rl.inBlock, rl.Pending(), nextIn[..used]);
      consumed := consumed + nextIn[..used];
      nextIn, availInExpect := nextIn[used..], wanted;
    }

    /** Take in what the caller offers; the block is closed when the input asked for is in, or when it is full. */
    method InputStep() returns (stop: bool, progress: bool)
      requires Ready() && state == Input
      modifies this`state, this`availInExpect, this`nextIn, this`consumed, this`asked, rl, pk, pk.w
      ensures Ready() && pk.w == old(pk.w) && AskedOn(old(asked), asked, mode, availInExpect, |pk.blocks|)
      ensures asked != old(asked) ==> !stop && rl.Empty()
      ensures Flow(old(Account()), Account())
      ensures stop ==> Halted()
      ensures !stop ==> state == Output && stateOutPos == 0 && (|nextIn| < |old(nextIn)| || rl.Empty())
      ensures progress == (|nextIn| < |old(nextIn)|) && (stop ==> state == Input)
      ensures mode != Running ==> Owed() == old(Owed())
    {
      assert OpenedState(0) && OpenedStore(0);
      progress := TakeInput();
      OnlyTaken(old(Account()), Account());
      stop := false;
      if mode != Running && availInExpect == 0 {
        CloseLast();
      } else if |rl.block| >= nblockMAX {
        CloseFull();
      } else {
        stop := true;
      }
    }

    ghost function Rank(): (r: int)
      reads this, rl
    {
      if state == Input then 1 else if rl.Empty() then 0 else 2
    }

    ghost function Account(): (a: Books)
      reads this
    {
      Books(consumed, nextIn, delivered, out, availOut)
    }

    /** Bytes announced beyond those still offered. */
    ghost function Owed(): (n: int)
      reads this
    {
      availInExpect - |nextIn|
    }

    ghost function Now(): (m: Mark)
      reads this, rl, pk, pk.w
    {
      Mark(|nextIn|, Rank(), |pk.w.zbits|, stateOutPos, |out|, pk.trailers)
    }

    /** One round of the loop in handle_compress. */
    method Step() returns (stop: bool, progress: bool)
      requires Ready() && mode != Idle
      modifies this`state, this`availInExpect, this`nextIn, this`consumed, this`stateOutPos, this`availOut, this`out,
        this`delivered, this`asked
      modifies rl, pk, pk.w
      ensures Ready() && (pk.w == old(pk.w) || fresh(pk.w))
      ensures Flow(old(Account()), Account())
      ensures stop ==> Halted()
      ensures !stop ==> Advanced(old(Now()), Now()) && state == Output && stateOutPos == 0
      ensures stop && state == Output ==> KeptOn(old(Now()), Now())
      ensures AskedOn(old(asked), asked, mode, availInExpect, |pk.blocks|)
      ensures asked != old(asked) ==> !stop && rl.Empty()
      ensures old(state == Output && rl.Empty()) ==>
        stop && asked == old(asked) && pk.blocks == old(pk.blocks) && availInExpect == old(availInExpect)
      ensures progress == (|nextIn| < |old(nextIn)| || |out| > |old(out)|)
      ensures mode != Running ==> Owed() == old(Owed())
    {
      progress := false;
      ghost var b0 := Account();
      NothingMoved(b0);
      if state == Output {
        stop, progress := OutputStep();
        if stop { return; }
      }
      ghost var b1 := Account();
      var p;
      stop, p := InputStep();
      FlowOn(b0, b1, Account());
      progress := progress || p;
    }

    /** Where handle_compress leaves off. */
    ghost predicate Halted()
      reads this, rl, pk, pk.w
    {
      if state == Output then
        (stateOutPos < |pk.w.zbits| && availOut == 0) || (stateOutPos == |pk.w.zbits| && pk.trailers == 1)
      else
        (mode == Running && nextIn == []) || (availInExpect > 0 && nextIn == [])
        || (mode == Flushing && availInExpect == 0 && rl.Empty())
    }

    /** handle_compress. */
    method HandleCompress() returns (progress: bool)
      requires Ready() && mode != Idle
      modifies this`state, this`availInExpect, this`nextIn, this`consumed, this`stateOutPos, this`availOut, this`out,
        this`delivered, this`asked
      modifies rl, pk, pk.w
      ensures Ready() && (pk.w == old(pk.w) || fresh(pk.w))
      ensures Flow(old(Account()), Account())
      ensures Halted() && AskedOn(old(asked), asked, mode, availInExpect, |pk.blocks|)
      ensures mode != Running ==> Owed() == old(Owed())
      ensures progress == (|nextIn| < |old(nextIn)| || |out| > |old(out)|)
      ensures Journey(old(Now()), Now(), true, state == Output)
    {
      ghost var m0, b0, a0 := Now(), Account(), asked;
      var stop := false;
      progress := false;
      NothingMoved(Account());
      while !stop
        invariant Ready() && (pk.w == old(pk.w) || fresh(pk.w))
        invariant Flow(old(Account()), Account())
        invariant mode != Running ==> Owed() == old(Owed())
        invariant progress == (|nextIn| < |old(nextIn)| || |out| > |old(out)|)
        invariant Journey(m0, Now(), stop, state == Output) && (stop ==> Halted())
        invariant AskedOn(a0, asked, mode, availInExpect, |pk.blocks|)
        invariant !stop && asked != a0 ==> state == Output && rl.Empty()
        decreases !stop, |nextIn|, Rank()
      {
        ghost var m, o, b := Now(), state == Output, Account();
        var p;
        stop, p := Step();
        progress := progress || p;
        FlowOn(b0, b, Account());
        JourneyStep(m0, m, Now(), o, stop, state == Output);
      }
    }

    // ----- BZ2_bzCompress -----

    /** The stream is complete: its bytes are all delivered, and they encode all that was consumed. */
    ghost predicate Complete()
      reads this, pk, pk.w
    {
      mode == Idle && pk.trailers == 1 && WholeStream(delivered, pk.k, pk.size, pk.blocks)
        && Data(pk.blocks) == consumed
    }

    /** A flush is complete: everything consumed is in closed blocks, and what has left the bit buffer is delivered. */
    ghost predicate Flushed()
      reads this, pk, pk.w
    {
      mode == Running && Data(pk.blocks) == consumed && delivered == pk.w.sent + pk.w.zbits
    }

    /** All input is in closed blocks, and these are delivered. */
    ghost predicate Drained()
      reads this, rl, pk, pk.w
    {
      availInExpect == 0 && rl.Empty() && stateOutPos >= |pk.w.zbits|
    }

    ghost predicate Moving(was: Books)
      reads this
    {
      |nextIn| < |was.nextIn| || |out| > |was.out|
    }

    /** Not more than one word of the bits is then held back. */
    lemma HeldBack()
      requires Ready() && Flushed()
      ensures 8 * |delivered| <= |pk.w.bits| <= 8 * |delivered| + 32
    {
      assert OpenedState(0) && OpenedStore(0);
      pk.Buffered();
    }

    method EndFlush() returns (ret: Return)
      requires Ready() && Halted() && mode == Flushing && availInExpect == |nextIn|
      modifies this`mode
      ensures Ready() && mode == (if ret == RunOk then Running else Flushing) && (ret == RunOk <==> Drained())
      ensures ret == RunOk || (ret == FlushOk && state == Output && availOut == 0)
      ensures ret == RunOk ==> Flushed() && nextIn == []
    {
      assert OpenedState(0) && OpenedStore(0);
      if availInExpect > 0 || !rl.Empty() || stateOutPos < |pk.w.zbits| { return FlushOk; }
      rl.NothingPending();
      assert pk.w.zbits[..stateOutPos] == pk.w.zbits;
      mode := Running;
      ret := RunOk;
    }

    method EndFinish() returns (ret: Return)
      requires Ready() && Halted() && mode == Finishing && availInExpect == |nextIn|
      modifies this`mode
      ensures Ready() && Unended() && mode == (if ret == StreamEnd then Idle else Finishing)
      ensures (ret == StreamEnd <==> Drained()) && (ret == FinishOk || ret == StreamEnd)
      ensures ret == FinishOk ==> availOut == 0
      ensures ret == StreamEnd ==> Complete() && nextIn == []
    {
      assert OpenedState(0) && OpenedStore(0);
      if availInExpect > 0 || !rl.Empty() || stateOutPos < |pk.w.zbits| { return FinishOk; }
      rl.NothingPending();
      assert pk.w.zbits[..stateOutPos] == pk.w.zbits;
      pk.Finished();
      mode := Idle;
      ret := StreamEnd;
    }

    /** A trailer that is written still has bytes to deliver, until the end is reported. */
    ghost predicate Unended()
      reads this, pk, pk.w
    {
      mode == Finishing && pk.trailers == 1 ==> stateOutPos < |pk.w.zbits|
    }

    method CallFlush(action: Action) returns (ret: Return)
      requires Ready() && mode == Flushing
      modifies this, rl, pk, pk.w
      ensures Ready() && (pk.w == old(pk.w) || fresh(pk.w)) && mode == (if ret == RunOk then Running else Flushing)
      ensures Flow(old(Account()), Account())
      ensures ret == SequenceError || (ret == FlushOk && availOut == 0) || (ret == RunOk && Flushed() && nextIn == [])
      ensures action == Flush && old(Owed()) == 0 ==> Owed() == 0 && ret != SequenceError
      ensures ret == FlushOk && old(availOut) > 0 ==> Closer(old(Now()), Now())
      ensures Answer(Flushing, action, old(Owed() == 0), Moving(old(Account())), Drained(), mode, ret)
      ensures Refuses(Flushing, action, old(Owed() == 0)) ==> Untouched()
      ensures AskedOn(old(asked), asked, Flushing, availInExpect, |pk.blocks|)
    {
      NothingMoved(Account());
      if action != Flush || availInExpect != |nextIn| { return SequenceError; }
      var progress := HandleCompress();
      Progressed();
      ret := EndFlush();
    }

    method CallFinish(action: Action) returns (ret: Return)
      requires Ready() && Unended() && mode == Finishing
      modifies this, rl, pk, pk.w
      ensures Ready() && Unended() && (pk.w == old(pk.w) || fresh(pk.w)) && (mode == Idle <==> ret == StreamEnd)
      ensures action == Finish && old(Owed()) == 0 ==> Owed() == 0 && (old(availOut) > 0 ==> ret != SequenceError)
      ensures ret == FinishOk && old(availOut) > 0 ==> Closer(old(Now()), Now())
      ensures Answer(Finishing, action, old(Owed() == 0), Moving(old(Account())), Drained(), mode, ret)
      ensures (Refuses(Finishing, action, old(Owed() == 0)) ==> Untouched()) && asked == old(asked)
      ensures Flow(old(Account()), Account())
      ensures ret == SequenceError || (ret == FinishOk && availOut == 0)
        || (ret == StreamEnd && Complete() && nextIn == [])
    {
      NothingMoved(Account());
      if action != Finish || availInExpect != |nextIn| { return SequenceError; }
      var progress := HandleCompress();
      if !progress {
        assert OpenedState(0) && OpenedStore(0);
        return SequenceError;
      }
      ret := EndFinish();
    }

    /** The caller may ask to flush or to finish: it has not asked for anything else, and `left` bytes are all that is
        left of the input it announced. */
    ghost predicate MayAsk(m: Mode, left: int)
      reads this
    {
      mode == Running || (mode == m && availInExpect == left)
    }

    /** Nothing but the caller's buffers has changed. */
    twostate predicate Untouched()
      reads this, rl, pk, pk.w
    {
      && unchanged(this`mode, this`state, this`availInExpect, this`stateOutPos, this`consumed, this`delivered,
        this`asked)
      && unchanged(rl, pk) && pk.w.bits == old(pk.w.bits) && pk.w.sent == old(pk.w.sent)
        && pk.w.zbits == old(pk.w.zbits)
    }

    /** The part of BZ2_bzCompress below `preswitch`, on the caller's buffers. */
    method Dispatch(action: Action) returns (ret: Return)
      requires Ready() && Unended()
      modifies this, rl, pk, pk.w
      ensures Ready() && Unended() && (pk.w == old(pk.w) || fresh(pk.w))
      ensures Flow(old(Account()), Account())
      ensures Answer(old(mode), action, old(Owed() == 0), Moving(old(Account())), Drained(), mode, ret)
      ensures Refuses(old(mode), action, old(Owed() == 0)) ==> Untouched()
      ensures if action == Flush then AskedOn(old(asked), asked, Flushing, availInExpect, |pk.blocks|)
        else asked == old(asked)
      ensures ret == StreamEnd ==> Complete() && nextIn == []
      ensures ret == RunOk && action == Flush ==> Flushed() && nextIn == []
      ensures ret == FlushOk || ret == FinishOk ==> availOut == 0
      ensures old(mode) == Running && action == Action.Run ==>
        (nextIn == [] || availOut == 0) && (old(availOut) > 0 ==> nextIn == [] || Closer(old(Now()), Now()))
      ensures action == Finish && old(MayAsk(Finishing, |nextIn|) && availOut > 0) ==>
        ret == StreamEnd || (ret == FinishOk && mode == Finishing && Owed() == 0 && Closer(old(Now()), Now()))
      ensures action == Flush && old(MayAsk(Flushing, |nextIn|) && availOut > 0) ==>
        (ret == RunOk && nextIn == [])
        || (ret == FlushOk && mode == Flushing && Owed() == 0 && Closer(old(Now()), Now()))
    {
      NothingMoved(Account());
      if mode == Idle { return SequenceError; }
      if mode == Running {
        if action == Action.Run {
          ret := CallRun();
          return;
        } else if action == Flush {
          StartMode(Flushing);
        } else if action == Finish {
          StartMode(Finishing);
        } else {
          return ParamError;
        }
      }
      if mode == Flushing {
        ret := CallFlush(action);
      } else {
        ret := CallFinish(action);
      }
    }

    method CallRun() returns (ret: Return)
      requires Ready() && mode == Running
      modifies this, rl, pk, pk.w
      ensures Ready() && (pk.w == old(pk.w) || fresh(pk.w)) && mode == Running && asked == old(asked)
      ensures Flow(old(Account()), Account()) && ret == if Moving(old(Account())) then RunOk else ParamError
      ensures nextIn == [] || availOut == 0
      ensures old(availOut) > 0 ==> nextIn == [] || Closer(old(Now()), Now())
    {
      var progress := HandleCompress();
      Progressed();
      ret := if progress then RunOk else ParamError;
    }

    method StartMode(m: Mode)
      requires Ready() && mode == Running && (m == Flushing || m == Finishing)
      modifies this`mode, this`availInExpect
      ensures Ready() && Unended() && mode == m && Owed() == 0 && Account() == old(Account()) && Now() == old(Now())
    {
      assert OpenedState(0);
      availInExpect := |nextIn|;
      mode := m;
      assert Stored() == old(Stored());
    }

    /** BZ2_bzCompress, for every sequence of calls and every size of the caller's buffers. */
    method Compress(action: Action, input: seq<byte>, room: nat) returns (ret: Return, used: int, output: seq<byte>)
      requires Ready() && Unended()
      modifies this, rl, pk, pk.w
      ensures Ready() && Unended() && (pk.w == old(pk.w) || fresh(pk.w))
      ensures 0 <= used <= |input| && consumed == old(consumed) + input[..used]
      ensures |output| <= room && delivered == old(delivered) + output
      ensures Answer(old(mode), action, old(availInExpect) == |input|, used > 0 || |output| > 0, Drained(), mode, ret)
      ensures Refuses(old(mode), action, old(availInExpect) == |input|) ==> Untouched()
      ensures if action == Flush then AskedOn(old(asked), asked, Flushing, availInExpect, |pk.blocks|)
        else asked == old(asked)
      ensures ret == StreamEnd ==> Complete() && used == |input|
      ensures ret == RunOk && action == Flush ==> Flushed() && used == |input|
      ensures ret == FlushOk || ret == FinishOk ==> |output| == room
      ensures old(mode) == Running && action == Action.Run ==>
        (used == |input| || |output| == room) && (room > 0 ==> used == |input| || Nearer(used, old(Now()), Now()))
      ensures action == Finish && room > 0 && old(MayAsk(Finishing, |input|)) ==>
        ret == StreamEnd
        || (ret == FinishOk && mode == Finishing && availInExpect == |input| - used && Nearer(used, old(Now()), Now()))
      ensures action == Flush && room > 0 && old(MayAsk(Flushing, |input|)) ==>
        (ret == RunOk && used == |input|)
        || (ret == FlushOk && mode == Flushing && availInExpect == |input| - used && Nearer(used, old(Now()), Now()))
    {
      ret := CallOn(action, input, room);
      used, output := |input| - |nextIn|, out;
      TakenParts(old(consumed), input, consumed, nextIn);
      MovedParts(old(delivered), room, delivered, out, availOut);
      Progressed();
    }

    /** The call on its buffers. */
    method CallOn(action: Action, input: seq<byte>, room: nat) returns (ret: Return)
      requires Ready() && Unended()
      modifies this, rl, pk, pk.w
      ensures Ready() && Unended() && (pk.w == old(pk.w) || fresh(pk.w))
      ensures Flow(Books(old(consumed), input, old(delivered), [], room), Account())
      ensures Answer(old(mode), action, old(availInExpect) == |input|,
                     |nextIn| < |input| || |out| > 0, Drained(), mode, ret)
      ensures Refuses(old(mode), action, old(availInExpect) == |input|) ==> Untouched()
      ensures if action == Flush then AskedOn(old(asked), asked, Flushing, availInExpect, |pk.blocks|)
        else asked == old(asked)
      ensures ret == StreamEnd ==> Complete() && nextIn == []
      ensures ret == RunOk && action == Flush ==> Flushed() && nextIn == []
      ensures ret == FlushOk || ret == FinishOk ==> availOut == 0
      ensures old(mode) == Running && action == Action.Run ==>
        (nextIn == [] || availOut == 0)
        && (room > 0 ==> nextIn == [] || Nearer(|input| - |nextIn|, old(Now()), Now()))
      ensures action == Finish && room > 0 && old(MayAsk(Finishing, |input|)) ==>
        ret == StreamEnd
        || (ret == FinishOk && mode == Finishing && Owed() == 0 && Nearer(|input| - |nextIn|, old(Now()), Now()))
      ensures action == Flush && room > 0 && old(MayAsk(Flushing, |input|)) ==>
        (ret == RunOk && nextIn == [])
        || (ret == FlushOk && mode == Flushing && Owed() == 0 && Nearer(|input| - |nextIn|, old(Now()), Now()))
    {
      LoadBuffers(input, room);
      ret := Dispatch(action);
    }

    /** What there is to deliver is counted from the start of the block. */
    lemma Progressed()
      requires Ready()
      ensures availOut >= 0 && (state == Output ==> 0 <= stateOutPos <= |pk.w.zbits|)
      ensures mode == Running ==> pk.trailers == 0
    {
      assert OpenedState(0) && OpenedStore(0);
    }

    method LoadBuffers(input: seq<byte>, room: nat)
      requires Ready()
      modifies this`nextIn, this`availOut, this`out
      ensures Ready() && nextIn == input && availOut == room && out == [] && Untouched()
    {
      assert OpenedState(0);
      nextIn, availOut, out := input, room, [];
      assert Stored() == old(Stored());
    }
  }

  lemma Prefixes(sent: seq<byte>, z: seq<byte>, p: int, q: int)
    requires 0 <= p <= q <= |z|
    ensures sent + z[..q] == (sent + z[..p]) + z[p..q]
  {
  }

  lemma Regroup(d: seq<byte>, a: seq<byte>, b: seq<byte>, a': seq<byte>, b': seq<byte>, t: seq<byte>)
    requires a' + b' == (a + b) + t
    ensures Ledger(d, a, b) + t == Ledger(d, a', b')
  {
    ConcatAssoc(d, a + b, t);
  }

  /** A closed block: its bytes move over to the finished ones, with or without the pending run. */
  lemma Settle(d: seq<byte>, a: seq<byte>, b: seq<byte>)
    ensures Ledger(d + a, [], b) == Ledger(d, a, b)
    ensures Ledger(d + (a + b), [], []) == Ledger(d, a, b)
  {
    ConcatAssoc(d, a, b);
  }

  /** The bytes taken from the front of the input were added to what was consumed. */
  ghost predicate Taken(c0: seq<byte>, in0: seq<byte>, c: seq<byte>, in': seq<byte>)
  {
    |in'| <= |in0|
    && forall i {:trigger OpenedBytes(i)} :: OpenedBytes(i) ==>
      in' == in0[|in0| - |in'|..] && c == c0 + in0[..|in0| - |in'|]
  }

  /** The same bytes were added to what was delivered and to the caller's buffer, within its size. */
  ghost predicate Moved(d0: seq<byte>, out0: seq<byte>, avail0: int, d: seq<byte>, out: seq<byte>, avail: int)
  {
    |out0| <= |out| && avail == avail0 - (|out| - |out0|)
    && forall i {:trigger OpenedBytes(i)} :: OpenedBytes(i) ==> out[..|out0|] == out0 && d == d0 + out[|out0|..]
  }

  /** Like `Opened`, for what a call does to the caller's bytes. */
  ghost predicate OpenedBytes(i: int) { true }

  /** What a call did to both of the caller's buffers. */
  ghost predicate Flow(a: Books, b: Books)
  {
    && Taken(a.consumed, a.nextIn, b.consumed, b.nextIn)
    && Moved(a.delivered, a.out, a.availOut, b.delivered, b.out, b.availOut)
  }

  lemma NothingMoved(a: Books)
    ensures Flow(a, a)
  {
  }

  lemma OnlyMoved(a: Books, b: Books)
    requires Moved(a.delivered, a.out, a.availOut, b.delivered, b.out, b.availOut)
    requires b.consumed == a.consumed && b.nextIn == a.nextIn
    ensures Flow(a, b)
  {
  }

  lemma OnlyTaken(a: Books, b: Books)
    requires Taken(a.consumed, a.nextIn, b.consumed, b.nextIn)
    requires b.delivered == a.delivered && b.out == a.out && b.availOut == a.availOut
    ensures Flow(a, b)
  {
  }

  lemma FlowOn(a: Books, b: Books, c: Books)
    requires Flow(a, b) && Flow(b, c)
    ensures Flow(a, c)
  {
    TakenOn(a.consumed, a.nextIn, b.consumed, b.nextIn, c.consumed, c.nextIn);
    MovedOn(a.delivered, a.out, a.availOut, b.delivered, b.out, b.availOut, c.delivered, c.out, c.availOut);
  }

  lemma TakenParts(c0: seq<byte>, in0: seq<byte>, c: seq<byte>, in': seq<byte>)
    requires Taken(c0, in0, c, in')
    ensures 0 <= |in0| - |in'| <= |in0| && c == c0 + in0[..|in0| - |in'|]
  {
    assert OpenedBytes(0);
  }

  lemma MovedParts(d0: seq<byte>, avail0: int, d: seq<byte>, out: seq<byte>, avail: int)
    requires Moved(d0, [], avail0, d, out, avail)
    ensures d == d0 + out && avail == avail0 - |out|
  {
    assert OpenedBytes(0);
    assert out[0..] == out;
  }

  lemma TakenOn(c0: seq<byte>, in0: seq<byte>, c1: seq<byte>, in1: seq<byte>, c2: seq<byte>, in2: seq<byte>)
    requires Taken(c0, in0, c1, in1) && Taken(c1, in1, c2, in2)
    ensures Taken(c0, in0, c2, in2)
  {
    assert OpenedBytes(0);
    var k, l := |in0| - |in1|, |in0| - |in2|;
    assert in0[..l] == in0[..k] + in1[..l - k];
  }

  lemma MovedOn(d0: seq<byte>, out0: seq<byte>, a0: int, d1: seq<byte>, out1: seq<byte>, a1: int, d2: seq<byte>,
                out2: seq<byte>, a2: int)
    requires Moved(d0, out0, a0, d1, out1, a1) && Moved(d1, out1, a1, d2, out2, a2)
    ensures Moved(d0, out0, a0, d2, out2, a2)
  {
    assert OpenedBytes(0);
    assert out2[|out0|..] == out1[|out0|..] + out2[|out1|..];
  }
}
