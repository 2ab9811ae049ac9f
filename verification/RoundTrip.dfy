/** The library's promise: what was compressed comes back, whatever the calls and buffers on either side. */
module RoundTrip {
  import opened Basics
  import opened Bits
  import opened StreamFormat
  import opened Packer
  import opened BlockCrc
  import opened StreamBytes
  import Compressor
  import Decompressor

  /** One call of BZ2_bzCompress: the action, the input at hand and the room for output. */
  datatype Call = Call(action: Compressor.Action, input: seq<byte>, room: nat)

  /** Every block but the last has reached the nominal size less nineteen bytes, by no more than four. */
  ghost predicate FullBlocks(size: int, blocks: seq<Closed>)
  {
    forall i {:trigger Nth(blocks, i)} ::
      0 <= i < |blocks| - 1 ==> 100000 * size - 19 <= |Nth(blocks, i).blk| <= 100000 * size - 15
  }

  lemma NothingAsked(e: Compressor.EState)
    requires e.Ready() && e.asked == {}
    ensures FullBlocks(e.pk.size, e.pk.blocks) && AllCoded(e.pk.size, e.pk.blocks)
  {
    e.Blocks();
  }

  /** Any sequence of calls; it stops when the end of the stream is reported. Without a flush among them every block
      but the last is full. */
  method CompressAll(k: Sums, size: int, calls: seq<Call>)
    returns (ended: bool, consumed: seq<byte>, stream: seq<byte>, ghost blocks: seq<Closed>)
    requires 1 <= size <= 9
    ensures ended ==> WholeStream(stream, k, size, blocks) && Data(blocks) == consumed && AllCoded(size, blocks)
    ensures ended && (forall i :: 0 <= i < |calls| ==> calls[i].action != Compressor.Flush) ==> FullBlocks(size, blocks)
  {
    var e := new Compressor.EState(k, size);
    consumed, stream, ended := [], [], false;
    blocks := [];
    for i := 0 to |calls|
      invariant e.Ready() && e.Unended() && fresh(e) && fresh(e.rl) && fresh(e.pk) && fresh(e.pk.w)
      invariant e.pk.k == k && e.pk.size == size && e.mode != Compressor.Idle
      invariant e.consumed == consumed && e.delivered == stream
      invariant (forall j :: 0 <= j < i ==> calls[j].action != Compressor.Flush) ==> e.asked == {}
    {
      var ret, used, out := e.Compress(calls[i].action, calls[i].input, calls[i].room);
      consumed := consumed + calls[i].input[..used];
      stream := stream + out;
      if ret == Compressor.StreamEnd {
        e.Blocks();
        return true, consumed, stream, e.pk.blocks;
      }
    }
  }

  /** One call of BZ2_bzDecompress: it is offered the next `give` bytes of the input, or all that are left, and room
      for `room` bytes. */
  datatype Move = Move(give: nat, room: nat)

  /** A call that offers something and has room. */
  type Work = m: Move | m.give > 0 && m.room > 0 witness Move(1, 1)

  /** Some room for output. */
  type Room = n: nat | n > 0 witness 1

  /** Calls that offer something and have room. */
  function Productive(moves: seq<Move>): (n: nat)
  {
    if moves == [] then 0
    else
      var last := moves[|moves| - 1];
      Productive(moves[..|moves| - 1]) + if last.give > 0 && last.room > 0 then 1 else 0
  }

  /** What one call leaves to do, counted in bytes to read and bytes to write. */
  ghost predicate Shrinks(m: Move, ended: bool, toRead0: int, toWrite0: int, toRead: int, toWrite: int)
  {
    && toRead <= toRead0 && toWrite <= toWrite0
    && (m.give > 0 && m.room > 0 && !ended ==> toRead + toWrite < toRead0 + toWrite0)
  }

  /** A decompressor between two calls, with the unread input. */
  ghost predicate Ready(d: Decompressor.DState, input: seq<byte>)
    reads d, d.parts
  {
    d.Valid() && d.r.input == [] && d.later == input
  }

  /** One more call can be made. */
  ghost predicate Open(d: Decompressor.DState, input: seq<byte>)
    reads d, d.parts
  {
    Ready(d, input) && d.at != Decompressor.Idle && !d.failed
  }

  /** What a call comes to, with `rest` of the input unread: the end, the report of a wrong checksum, or neither. */
  ghost predicate Outcome(d: Decompressor.DState, ret: Decompressor.Return, rest: seq<byte>)
    reads d, d.parts
  {
    match ret
    case StreamEnd => d.sane && d.remaining == [] && |rest| == d.behind
    case DataError => !d.sane && d.remaining == []
    case Ok => Open(d, rest)
    case _ => false
  }

  predicate Over(ret: Decompressor.Return) { ret != Decompressor.Ok }

  /** One call. */
  method DecompressOnce(d: Decompressor.DState, input: seq<byte>, m: Move)
    returns (ret: Decompressor.Return, rest: seq<byte>, out: seq<byte>)
    requires Open(d, input)
    modifies d, d.parts
    ensures Outcome(d, ret, rest) && fresh(d.parts - old(d.parts)) && SuffixOf(rest, input)
    ensures out + d.remaining == old(d.remaining)
    ensures Shrinks(m, Over(ret), |input|, |old(d.remaining)|, |rest|, |d.remaining|)
  {
    var part := Part(input, m.give);
    var used;
    ret, used, out := d.Decompress(part, m.room);
    rest := input[used..];
    Remains(input, used);
    SomethingDone(m, Over(ret), |input|, used, |out|, |old(d.remaining)|, |d.remaining|);
  }

  /** A call that did not end has filled its room, or used up its part with more to come. */
  lemma SomethingDone(m: Move, ended: bool, input: nat, used: nat, out: nat, left0: nat, left: nat)
    requires used <= Min(m.give, input) && left0 == out + left
    requires !ended && out < m.room ==> Min(m.give, input) == used < input
    ensures Shrinks(m, ended, input, left0, input - used, left)
  {
  }

  /** The next `n` bytes, or all that are left. */
  function Part(input: seq<byte>, n: nat): (p: seq<byte>)
    ensures p <= input && |p| == Min(n, |input|)
  {
    input[..Min(n, |input|)]
  }

  lemma Remains(input: seq<byte>, used: int)
    requires 0 <= used <= |input|
    ensures SuffixOf(input[used..], input) && |input[used..]| == |input| - used
  {
  }

  /** One more call after others that have written `output0` and left `rest0` of the input. */
  method DecompressOn(d: Decompressor.DState, ghost input: seq<byte>, rest0: seq<byte>, m: Move, output0: seq<byte>)
    returns (ret: Decompressor.Return, rest: seq<byte>, output: seq<byte>)
    requires Open(d, rest0) && SuffixOf(rest0, input)
    modifies d, d.parts
    ensures Outcome(d, ret, rest) && fresh(d.parts - old(d.parts)) && SuffixOf(rest, input)
    ensures output + d.remaining == old(output0 + d.remaining)
    ensures Shrinks(m, Over(ret), |rest0|, |old(d.remaining)|, |rest|, |d.remaining|)
  {
    var out;
    ret, rest, out := DecompressOnce(d, rest0, m);
    SuffixTrans(rest, rest0, input);
    ConcatAssoc(output0, out, d.remaining);
    output := output0 + out;
  }

  /** Call after call, until the end or a wrong checksum is reported or the calls are over. */
  method Drain(d: Decompressor.DState, input: seq<byte>, moves: seq<Move>)
    returns (ret: Decompressor.Return, output: seq<byte>, rest: seq<byte>)
    requires Open(d, input)
    modifies d, d.parts
    ensures output <= old(d.remaining) && SuffixOf(rest, input)
    ensures Over(ret) ==> output == old(d.remaining)
    ensures ret == Decompressor.Ok || (ret == Decompressor.StreamEnd && d.sane && |rest| == d.behind)
      || (ret == Decompressor.DataError && !d.sane)
    ensures Productive(moves) > |input| + |old(d.remaining)| ==> Over(ret)
  {
    output, ret, rest := [], Decompressor.Ok, input;
    ghost var all := d.remaining;
    for i := 0 to |moves|
      invariant ret == Decompressor.Ok && Open(d, rest) && fresh(d.parts - old(d.parts)) && SuffixOf(rest, input)
      invariant output + d.remaining == all && Within(moves[..i], |rest|, |d.remaining|, |input| + |all|)
    {
      ghost var toRead, toWrite := |rest|, |d.remaining|;
      ret, rest, output := DecompressOn(d, input, rest, moves[i], output);
      if ret != Decompressor.Ok {
        NothingMore(output, d.remaining);
        return;
      }
      WithinNext(moves, i, toRead, toWrite, |rest|, |d.remaining|, |input| + |all|);
    }
    assert moves[..|moves|] == moves;
  }

  /** The calls made have paid for what they did. */
  ghost predicate Within(moves: seq<Move>, toRead: int, toWrite: int, total: int)
  {
    Productive(moves) + toRead + toWrite <= total
  }

  lemma WithinNext(moves: seq<Move>, i: int, toRead0: int, toWrite0: int, toRead: int, toWrite: int, total: int)
    requires 0 <= i < |moves| && Within(moves[..i], toRead0, toWrite0, total)
    requires Shrinks(moves[i], false, toRead0, toWrite0, toRead, toWrite)
    ensures Within(moves[..i + 1], toRead, toWrite, total)
  {
    assert moves[..i + 1][..i] == moves[..i];
  }

  lemma NothingMore(output: seq<byte>, rest: seq<byte>)
    requires rest == []
    ensures output + rest == output
  {
  }

  /** The stream and what lies behind it, seen by a decompressor at its start. */
  lemma StreamScene(stream: seq<byte>, k: Sums, size: int, blocks: seq<Closed>, total: word, behind: seq<byte>)
    returns (x: Decompressor.Prospect)
    requires Framed(stream, size, blocks, total)
    ensures x.k == k && x.at == Decompressor.Magic(0) && x.s == BytesToBits(stream + behind) && x.crc == 0
    ensures x.data == Upto(k, blocks) && x.Sane() == Good(k, 0, blocks, total)
    ensures |x.tail| / 8 == |behind|
  {
    var pad := FramedBits(stream, size, blocks, total);
    BytesToBitsAppend(stream, behind);
    var s, tail := BytesToBits(HeaderBytes(size)) + (BodyBits(blocks) + TrailerBits(total)),
      ToBits(0, pad) + BytesToBits(behind);
    ConcatAssoc(s, ToBits(0, pad), BytesToBits(behind));
    x := Decompressor.StreamAhead(k, size, blocks, total, tail, BytesToBits(stream + behind));
  }

  lemma FramedBits(stream: seq<byte>, size: int, blocks: seq<Closed>, total: word) returns (pad: nat)
    requires Framed(stream, size, blocks, total)
    ensures 1 <= size <= 9 && AllForm(size, blocks) && pad < 8
    ensures BytesToBits(stream) ==
      (BytesToBits(HeaderBytes(size)) + (BodyBits(blocks) + TrailerBits(total))) + ToBits(0, pad)
  {
    assert OpenedStream(0);
    var p: nat :| p < 8 && BytesToBits(stream) ==
      (BytesToBits(HeaderBytes(size)) + (BodyBits(blocks) + TrailerBits(total))) + ToBits(0, p);
    pad := p;
  }

  /** A decompressor before a stream with anything behind it. */
  method Start(k: Sums, small: bool, stream: seq<byte>, behind: seq<byte>, ghost size: int, ghost blocks: seq<Closed>,
               ghost total: word)
    returns (d: Decompressor.DState)
    requires Framed(stream, size, blocks, total)
    ensures fresh(d) && fresh(d.parts) && Open(d, stream + behind)
    ensures d.remaining == Upto(k, blocks) && d.behind == |behind| && d.sane == Good(k, 0, blocks, total)
  {
    ghost var x := StreamScene(stream, k, size, blocks, total, behind);
    d := new Decompressor.DState(k, small, stream + behind, x);
  }

  /** Any sequence of calls on a stream whose checksums may be wrong, each with any part of the input and any room. The
      data comes out in order, up to the end of the first block with a wrong checksum. The end is reported only if
      every checksum is right, with all the data out and exactly the stream read; BZ_DATA_ERROR is reported only if one
      is wrong, with all that precedes it out; and one of them is if there are enough calls that offer input and
      room. */
  method Inspect(k: Sums, small: bool, stream: seq<byte>, behind: seq<byte>, moves: seq<Move>, ghost size: int,
                 ghost blocks: seq<Closed>, ghost total: word)
    returns (ret: Decompressor.Return, output: seq<byte>, rest: seq<byte>)
    requires Framed(stream, size, blocks, total)
    ensures output <= Upto(k, blocks) && (Over(ret) ==> output == Upto(k, blocks))
    ensures ret == Decompressor.StreamEnd ==>
      WholeStream(stream, k, size, blocks) && total == Combined(k, 0, blocks) && output == Data(blocks)
        && rest == behind
    ensures ret == Decompressor.DataError ==> !(WholeStream(stream, k, size, blocks) && total == Combined(k, 0, blocks))
    ensures ret == Decompressor.Ok || ret == Decompressor.StreamEnd || ret == Decompressor.DataError
    ensures Productive(moves) > |stream| + |behind| + |Upto(k, blocks)| ==> Over(ret)
  {
    var d := Start(k, small, stream, behind, size, blocks, total);
    ret, output, rest := Drain(d, stream + behind, moves);
    WholeExactly(stream, k, size, blocks, total);
  }

  /** Any sequence of calls, each with any part of the input and any room: the data comes out in order; the end is
      reported with all of it out and exactly the stream read, what lies behind it left alone; and it is reported if
      there are enough calls that offer input and room. */
  method DecompressAll(k: Sums, small: bool, stream: seq<byte>, behind: seq<byte>, moves: seq<Move>, ghost size: int,
                       ghost blocks: seq<Closed>)
    returns (ended: bool, output: seq<byte>, rest: seq<byte>)
    requires WholeStream(stream, k, size, blocks)
    ensures output <= Data(blocks)
    ensures ended ==> output == Data(blocks) && rest == behind
    ensures Productive(moves) > |stream| + |behind| + |Data(blocks)| ==> ended
  {
    ghost var total := Combined(k, 0, blocks);
    WholeExactly(stream, k, size, blocks, total);
    var ret;
    ret, output, rest := Inspect(k, small, stream, behind, moves, size, blocks, total);
    ended := ret == Decompressor.StreamEnd;
  }

  /** Compress by any calls, decompress by any calls, in either mode: the bytes are the same. */
  method RoundTrip(k: Sums, size: int, calls: seq<Call>, small: bool, behind: seq<byte>, moves: seq<Move>)
    returns (ended: bool, consumed: seq<byte>, stream: seq<byte>, done: bool, output: seq<byte>, rest: seq<byte>)
    requires 1 <= size <= 9
    ensures ended ==> output <= consumed && (done ==> output == consumed && rest == behind)
    ensures ended && Productive(moves) > |stream| + |behind| + |consumed| ==> done
  {
    ghost var blocks;
    ended, consumed, stream, blocks := CompressAll(k, size, calls);
    done, output, rest := false, [], [];
    if ended {
      done, output, rest := DecompressAll(k, small, stream, behind, moves, size, blocks);
    }
  }

  /** Ready to be asked to finish, or to flush, with `rest` still to be taken. */
  ghost predicate Going(e: Compressor.EState, finish: bool, rest: seq<byte>)
    reads e, e.rl, e.pk, e.pk.w
  {
    e.Ready() && e.Unended() && e.MayAsk(if finish then Compressor.Finishing else Compressor.Flushing, |rest|)
  }

  /** What was asked for is done. */
  ghost predicate Served(e: Compressor.EState, finish: bool)
    reads e, e.rl, e.pk, e.pk.w
  {
    e.Ready() && e.Unended() && if finish then e.Complete() else e.Flushed()
  }

  /** One call: done, or strictly nearer to it. */
  method AskOnce(e: Compressor.EState, finish: bool, rest0: seq<byte>, room: nat)
    returns (ended: bool, rest: seq<byte>, out: seq<byte>)
    requires Going(e, finish, rest0) && room > 0
    modifies e, e.rl, e.pk, e.pk.w
    ensures e.pk.w == old(e.pk.w) || fresh(e.pk.w)
    ensures e.consumed + rest == old(e.consumed) + rest0 && e.delivered == old(e.delivered) + out
    ensures |rest| <= |rest0| && if ended then Served(e, finish) && rest == [] else Going(e, finish, rest)
    ensures !ended ==> Compressor.Nearer(|rest0| - |rest|, old(e.Now()), e.Now())
    ensures finish ==> e.asked == old(e.asked)
  {
    ghost var was := e.consumed;
    var ret, used;
    ret, used, out := e.Compress(if finish then Compressor.Finish else Compressor.Flush, rest0, room);
    SplitInput(was, rest0, used);
    rest := rest0[used..];
    ended := ret == (if finish then Compressor.StreamEnd else Compressor.RunOk);
  }

  /** Ask until it is reported done: with any room at all for output, it is. */
  method AskAll(e: Compressor.EState, finish: bool, data: seq<byte>, rooms: nat -> Room) returns (stream: seq<byte>)
    requires Going(e, finish, data)
    modifies e, e.rl, e.pk, e.pk.w
    ensures e.pk.w == old(e.pk.w) || fresh(e.pk.w)
    ensures Served(e, finish) && e.consumed == old(e.consumed) + data && e.delivered == old(e.delivered) + stream
    ensures finish ==> e.asked == old(e.asked)
  {
    stream := [];
    var rest, ended, i := data, false, 0;
    while !ended
      invariant e.pk.w == old(e.pk.w) || fresh(e.pk.w)
      invariant e.delivered == old(e.delivered) + stream && e.consumed + rest == old(e.consumed) + data
      invariant if ended then Served(e, finish) && rest == [] else Going(e, finish, rest)
      invariant finish ==> e.asked == old(e.asked)
      decreases !ended, |rest|, e.Rank(), |e.pk.w.zbits| - e.stateOutPos
    {
      var out;
      ended, rest, out := AskOnce(e, finish, rest, rooms(i));
      stream := stream + out;
      i := i + 1;
    }
  }

  /** BZ_FINISH again and again reaches BZ_STREAM_END. */
  method FinishAll(e: Compressor.EState, data: seq<byte>, rooms: nat -> Room) returns (stream: seq<byte>)
    requires Going(e, true, data)
    modifies e, e.rl, e.pk, e.pk.w
    ensures e.Complete() && e.consumed == old(e.consumed) + data && e.delivered == old(e.delivered) + stream
    ensures e.Ready() && e.asked == old(e.asked)
  {
    stream := AskAll(e, true, data, rooms);
  }

  /** BZ_FLUSH again and again reaches BZ_RUN_OK: all input is in closed blocks, all but at most 32 bits of them is out,
      and the compressor is ready for the next call. */
  method FlushAll(e: Compressor.EState, data: seq<byte>, rooms: nat -> Room) returns (stream: seq<byte>)
    requires Going(e, false, data)
    modifies e, e.rl, e.pk, e.pk.w
    ensures e.Ready() && e.Unended() && e.Flushed() && (e.pk.w == old(e.pk.w) || fresh(e.pk.w))
    ensures 8 * |e.delivered| <= |e.pk.w.bits| <= 8 * |e.delivered| + 32
    ensures e.consumed == old(e.consumed) + data && e.delivered == old(e.delivered) + stream
  {
    stream := AskAll(e, false, data, rooms);
    e.HeldBack();
  }

  /** One call of BZ_RUN: all the input is taken, or some of the work is done. */
  method RunOnce(e: Compressor.EState, rest0: seq<byte>, room: nat) returns (rest: seq<byte>, out: seq<byte>)
    requires e.Ready() && e.mode == Compressor.Running && room > 0
    modifies e, e.rl, e.pk, e.pk.w
    ensures e.Ready() && e.mode == Compressor.Running && (e.pk.w == old(e.pk.w) || fresh(e.pk.w))
    ensures e.asked == old(e.asked)
    ensures e.consumed + rest == old(e.consumed) + rest0 && e.delivered == old(e.delivered) + out && |rest| <= |rest0|
    ensures rest != [] ==> Compressor.Nearer(|rest0| - |rest|, old(e.Now()), e.Now())
  {
    ghost var was := e.consumed;
    var ret, used;
    ret, used, out := e.Compress(Compressor.Action.Run, rest0, room);
    SplitInput(was, rest0, used);
    rest := rest0[used..];
  }

  /** BZ_RUN again and again takes all the data. */
  method RunAll(e: Compressor.EState, data: seq<byte>, rooms: nat -> Room) returns (stream: seq<byte>)
    requires e.Ready() && e.mode == Compressor.Running
    modifies e, e.rl, e.pk, e.pk.w
    ensures e.Ready() && e.mode == Compressor.Running && (e.pk.w == old(e.pk.w) || fresh(e.pk.w))
    ensures e.asked == old(e.asked)
    ensures e.consumed == old(e.consumed) + data && e.delivered == old(e.delivered) + stream
  {
    stream := [];
    var rest, i := data, 0;
    while rest != []
      invariant e.Ready() && e.mode == Compressor.Running && (e.pk.w == old(e.pk.w) || fresh(e.pk.w))
      invariant e.asked == old(e.asked)
      invariant e.delivered == old(e.delivered) + stream && e.consumed + rest == old(e.consumed) + data
      decreases |rest|, e.Rank(), |e.pk.w.zbits| - e.stateOutPos
    {
      var out;
      rest, out := RunOnce(e, rest, rooms(i));
      stream := stream + out;
      i := i + 1;
    }
  }

  function Join(parts: seq<seq<byte>>): (s: seq<byte>)
  {
    if parts == [] then [] else Join(parts[..|parts| - 1]) + parts[|parts| - 1]
  }

  /** A file written in parts, as the library's own writer does it: BZ_RUN until a part is taken, then the next, and
      BZ_FINISH at the end. Whatever the parts and the rooms, the stream is a sequence of full blocks and a last one,
      with no block for no data. */
  method CompressParts(k: Sums, size: int, parts: seq<seq<byte>>, rooms: nat -> Room)
    returns (stream: seq<byte>, ghost blocks: seq<Closed>)
    requires 1 <= size <= 9
    ensures WholeStream(stream, k, size, blocks) && Data(blocks) == Join(parts)
    ensures FullBlocks(size, blocks) && AllCoded(size, blocks)
    ensures Begins(stream, k, size, blocks) && (blocks == [] <==> Join(parts) == [])
  {
    var e := new Compressor.EState(k, size);
    stream := [];
    for i := 0 to |parts|
      invariant e.Ready() && fresh(e) && fresh(e.rl) && fresh(e.pk) && fresh(e.pk.w) && e.mode == Compressor.Running
      invariant e.pk.k == k && e.pk.size == size && e.asked == {}
      invariant e.consumed == Join(parts[..i]) && e.delivered == stream
    {
      var out := RunAll(e, parts[i], rooms);
      stream := stream + out;
      assert parts[..i + 1][..i] == parts[..i];
    }
    assert parts[..|parts|] == parts;
    var out := FinishAll(e, [], rooms);
    stream := stream + out;
    NothingAsked(e);
    blocks := e.pk.blocks;
    assert e.consumed == Join(parts) + [];
    StreamBegins(stream, k, size, blocks);
    WholeNoBlocks(stream, k, size, blocks);
  }

  lemma WholeNoBlocks(stream: seq<byte>, k: Sums, size: int, blocks: seq<Closed>)
    requires WholeStream(stream, k, size, blocks)
    ensures blocks == [] <==> Data(blocks) == []
  {
    assert OpenedStream(0);
    if Data(blocks) == [] {
      NoBlocks(k, size, blocks);
    }
  }

  lemma SplitInput(was: seq<byte>, rest: seq<byte>, used: int)
    requires 0 <= used <= |rest|
    ensures was + rest == (was + rest[..used]) + rest[used..]
  {
  }

  /** Calls with some input and some room, until the end or a wrong checksum is reported: one of them is. */
  method DecompressToEnd(d: Decompressor.DState, input: seq<byte>, plan: nat -> Work, i: nat)
    returns (ret: Decompressor.Return, output: seq<byte>, rest: seq<byte>)
    requires Open(d, input)
    modifies d, d.parts
    ensures output == old(d.remaining) && SuffixOf(rest, input)
    ensures ret == if d.sane then Decompressor.StreamEnd else Decompressor.DataError
    ensures d.sane ==> |rest| == d.behind
    decreases |input| + |d.remaining|
  {
    var left, out;
    ret, left, out := DecompressOnce(d, input, plan(i));
    if ret != Decompressor.Ok {
      NothingMore(out, d.remaining);
      return ret, out, left;
    }
    var more;
    ret, more, rest := DecompressToEnd(d, left, plan, i + 1);
    SuffixTrans(rest, left, input);
    output := out + more;
  }

  /** Nothing conditional: any data, compressed into buffers of any sizes, then decompressed by calls that each offer
      some input and some room, comes back, in either mode, and what lies behind the stream is left alone. */
  method Identity(k: Sums, size: int, data: seq<byte>, rooms: nat -> Room, small: bool, behind: seq<byte>,
                  plan: nat -> Work)
    returns (ret: Decompressor.Return, output: seq<byte>, rest: seq<byte>)
    requires 1 <= size <= 9
    ensures ret == Decompressor.StreamEnd && output == data && rest == behind
  {
    var e := new Compressor.EState(k, size);
    var stream := FinishAll(e, data, rooms);
    assert [] + stream == stream && [] + data == data;
    ghost var total := Combined(k, 0, e.pk.blocks);
    WholeExactly(stream, k, size, e.pk.blocks, total);
    var d := Start(k, small, stream, behind, size, e.pk.blocks, total);
    ret, output, rest := DecompressToEnd(d, stream + behind, plan, 0);
  }
}
