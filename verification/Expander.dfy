/** How both run expanders read a decoded block: the positions where runs start and what each run adds. */
module Expander {
  import opened Basics
  import opened RunLength
  import opened BlockCrc

  type Block = seq<byte>

  /** How many bytes, at most four, are equal from byte number `used` (counting from 1) on. */
  function SameAhead(blk: Block, used: int): (n: int)
    requires 1 <= used <= |blk|
  {
    var c := blk[used - 1];
    if used >= |blk| || blk[used] != c then 1
    else if used + 1 >= |blk| || blk[used + 1] != c then 2
    else if used + 2 >= |blk| || blk[used + 2] != c then 3
    else 4
  }

  /** Length of the run that starts at byte number `used`; `after` is the byte fetched after the last. */
  function RunLen(blk: Block, after: byte, used: int): (n: int)
    requires 1 <= used <= |blk|
    ensures n >= 1
  {
    if SameAhead(blk, used) < 4 then SameAhead(blk, used)
    else (if used + 3 < |blk| then blk[used + 3] else after) as int + 4
  }

  /** Number of the first byte after that run. */
  function RunNext(blk: Block, used: int): (used': int)
    requires 1 <= used <= |blk|
    ensures used < used' <= |blk| + 2
  {
    if SameAhead(blk, used) < 4 then used + SameAhead(blk, used) else used + 5
  }

  /** What is left of the block at byte number `used`, which may lie one too far. */
  function Left(blk: Block, used: int): (s: Block)
    requires 1 <= used <= |blk| + 2
  {
    if used <= |blk| then blk[used - 1..] else []
  }

  lemma LeadIsSame(blk: Block, used: int)
    requires 1 <= used <= |blk|
    ensures Left(blk, used) != [] && Lead(Left(blk, used)) == SameAhead(blk, used)
    ensures Left(blk, used)[0] == blk[used - 1]
    ensures |Left(blk, used)| == |blk| - used + 1
    ensures SameAhead(blk, used) == 4 && |blk| > used + 3 ==> Left(blk, used)[4] == blk[used + 3]
  {
  }

  lemma LeftSlice(blk: Block, used: int, n: int)
    requires 1 <= used <= |blk| && 0 < n && used + n <= |blk| + 2
    ensures n <= |Left(blk, used)| ==> Left(blk, used)[n..] == Left(blk, used + n)
  {
  }

  lemma RunStep(blk: Block, after: byte, used: int)
    requires 1 <= used <= |blk|
    ensures Complete(Left(blk, used)) <==> RunNext(blk, used) <= |blk| + 1 && Complete(Left(blk, RunNext(blk, used)))
    ensures Unroll(Left(blk, used), after) ==
      Rep(blk[used - 1], RunLen(blk, after, used)) + Unroll(Left(blk, RunNext(blk, used)), after)
  {
    var s, n := Left(blk, used), SameAhead(blk, used);
    LeadIsSame(blk, used);
    LeftSlice(blk, used, if n < 4 then n else 5);
  }

  /** A block cut into runs: `marks` numbers the byte each run starts at, `tails` is what the
      block expands to from there. */
  ghost predicate IsScript(blk: Block, after: byte, marks: seq<int>, tails: seq<Block>)
  {
    1 <= |marks| == |tails| && forall i {:trigger OpenedScript(i)} :: OpenedScript(i) ==>
      Script(blk, after, marks, tails)
  }

  /** Like `Opened`, for scripts and what is pending of them. */
  ghost predicate OpenedScript(i: int) { true }

  ghost predicate Script(blk: Block, after: byte, marks: seq<int>, tails: seq<Block>)
    requires 1 <= |marks| == |tails|
  {
    && (forall i :: 0 <= i < |marks| ==> 1 <= marks[i] <= |blk| + 2)
    && (forall i :: 0 <= i < |marks| ==> (marks[i] > |blk| <==> i == |marks| - 1))
    && (forall i :: 0 <= i < |marks| - 1 ==> marks[i + 1] == RunNext(blk, marks[i]))
    && (forall i :: 0 <= i < |marks| - 1 ==>
          tails[i] == Rep(blk[marks[i] - 1], RunLen(blk, after, marks[i])) + tails[i + 1])
    && tails[|tails| - 1] == []
  }

  /** The script at one of its runs, or at its end. */
  lemma ScriptAt(blk: Block, after: byte, marks: seq<int>, tails: seq<Block>, at: int)
    requires IsScript(blk, after, marks, tails) && 0 <= at < |marks|
    ensures 1 <= marks[at] <= |blk| + 2 && (at == |marks| - 1 <==> marks[at] > |blk|)
    ensures at == |marks| - 1 ==> tails[at] == []
    ensures at < |marks| - 1 ==>
      marks[at + 1] == RunNext(blk, marks[at])
        && tails[at] == Rep(blk[marks[at] - 1], RunLen(blk, after, marks[at])) + tails[at + 1]
  {
    assert OpenedScript(0);
  }

  /** The last run reaches beyond the block: a block that stops right after four equal bytes. */
  ghost predicate Torn(blk: Block, marks: seq<int>)
  {
    marks != [] && marks[|marks| - 1] == |blk| + 2
  }

  lemma ScriptCons(blk: Block, after: byte, used: int, marks: seq<int>, tails: seq<Block>)
    requires 1 <= used <= |blk| && IsScript(blk, after, marks, tails) && marks[0] == RunNext(blk, used)
    ensures IsScript(blk, after, [used] + marks, [Rep(blk[used - 1], RunLen(blk, after, used)) + tails[0]] + tails)
  {
    assert OpenedScript(0);
    var marks', tails' := [used] + marks, [Rep(blk[used - 1], RunLen(blk, after, used)) + tails[0]] + tails;
    forall i | 0 <= i < |marks'|
      ensures i > 0 ==> marks'[i] == marks[i - 1] && tails'[i] == tails[i - 1]
    {
    }
  }

  lemma ScriptEnd(blk: Block, after: byte, used: int)
    requires |blk| < used <= |blk| + 2
    ensures IsScript(blk, after, [used], [[]]) && Left(blk, used) == []
  {
  }

  /** Every block has a script, which spells what the block unrolls to and tells whether it is complete. */
  lemma {:induction false} ScriptFrom(blk: Block, after: byte, used: int) returns (marks: seq<int>, tails: seq<Block>)
    requires 1 <= used <= |blk| + 2
    ensures IsScript(blk, after, marks, tails) && marks[0] == used && tails[0] == Unroll(Left(blk, used), after)
    ensures Torn(blk, marks) <==> used == |blk| + 2 || !Complete(Left(blk, used))
    decreases |blk| + 2 - used
  {
    if used > |blk| {
      ScriptEnd(blk, after, used);
      marks, tails := [used], [[]];
    } else {
      RunStep(blk, after, used);
      marks, tails := ScriptFrom(blk, after, RunNext(blk, used));
      ScriptCons(blk, after, used, marks, tails);
      marks, tails := [used] + marks, [Rep(blk[used - 1], RunLen(blk, after, used)) + tails[0]] + tails;
    }
  }

  /** `out` is written; the rest of the current run and `tail` are pending. */
  ghost predicate Pending(all: Block, out: Block, ch: byte, len: nat, tail: Block)
  {
    forall i {:trigger OpenedScript(i)} :: OpenedScript(i) ==> out + (Rep(ch, len) + tail) == all
  }

  lemma PendingStart(ch: byte, len: nat, tail: Block)
    ensures Pending(Rep(ch, len) + tail, [], ch, len, tail)
  {
  }

  /** Writing part of the current run. */
  lemma Drained(all: Block, out: Block, tail: Block, ch: byte, len: int, len': int)
    requires 0 <= len' <= len && Pending(all, out, ch, len, tail)
    ensures Pending(all, out + Rep(ch, len - len'), ch, len', tail)
  {
    assert OpenedScript(0);
    assert Rep(ch, len) == Rep(ch, len - len') + Rep(ch, len');
  }

  /** The next run begins. */
  lemma PendingNext(all: Block, out: Block, ch: byte, tail: Block, ch': byte, len': nat, tail': Block)
    requires Pending(all, out, ch, 0, tail) && tail == Rep(ch', len') + tail'
    ensures Pending(all, out, ch', len', tail')
  {
    assert OpenedScript(0);
    assert Rep(ch, 0) + tail == tail;
  }

  lemma PendingParts(all: Block, out: Block, ch: byte, len: nat, tail: Block)
    requires Pending(all, out, ch, len, tail)
    ensures |all| == |out| + len + |tail| && out == all[..|out|] && Rep(ch, len) + tail == all[|out|..]
  {
    assert OpenedScript(0);
  }

  // ----- An expander between two calls -----

  /** What an expander will do with a block: its bytes, the byte after them, the positions the walk visits and the
      script. */
  datatype Plan = Plan(blk: Block, after: byte, path: seq<int>, marks: seq<int>, tails: seq<Block>)

  ghost predicate IsPlan(p: Plan)
  {
    |p.path| == |p.blk| + 3 && IsScript(p.blk, p.after, p.marks, p.tails)
  }

  /** The fields between two runs; `at` numbers the next run. */
  ghost predicate Cursor(p: Plan, at: int, tPos: int, k0: byte, used: int)
  {
    && 0 <= at < |p.marks| && used == p.marks[at]
    && 1 <= used < |p.path| && tPos == p.path[used]
    && (used <= |p.blk| ==> k0 == p.blk[used - 1])
  }

  /** The fields between two calls, with `rest` still to be written. */
  ghost predicate Running(p: Plan, at: int, tPos: int, k0: byte, used: int, ch: byte, len: int, rest: Block)
  {
    forall i {:trigger OpenedScript(i)} :: OpenedScript(i) ==>
      IsPlan(p) && Cursor(p, at, tPos, k0, used) && len >= 0 && rest == Rep(ch, len) + p.tails[at]
  }

  lemma RunningParts(p: Plan, at: int, tPos: int, k0: byte, used: int, ch: byte, len: int, rest: Block)
    requires Running(p, at, tPos, k0, used, ch, len, rest)
    ensures IsPlan(p) && Cursor(p, at, tPos, k0, used) && len >= 0 && rest == Rep(ch, len) + p.tails[at]
  {
    assert OpenedScript(0);
  }

  /** Back to the state between calls. */
  lemma Paused(p: Plan, at: int, tPos: int, k0: byte, used: int, ch: byte, len: int, all: Block, out: Block, room: nat)
    requires IsPlan(p) && Cursor(p, at, tPos, k0, used) && len >= 0
    requires Pending(all, out, ch, len, p.tails[at]) && |out| <= room
    requires |out| < room ==> at == |p.marks| - 1 && len == 0
    ensures out == all[..Min(room, |all|)] && Running(p, at, tPos, k0, used, ch, len, all[|out|..])
    ensures used == |p.blk| + 1 && len == 0 ==> |out| == |all|
    ensures |out| < room && !Torn(p.blk, p.marks) ==> used == |p.blk| + 1 && len == 0
  {
    PendingParts(all, out, ch, len, p.tails[at]);
    ScriptAt(p.blk, p.after, p.marks, p.tails, at);
  }

  /** One step of the walk: corrupt position, or a byte and the next position. */
  datatype Fetch = Corrupt | Got(c: byte, next: int)

  /** Write out all but the last byte of the current run, while there is room. */
  method EmitRun(step: CrcStep, availOut: nat, ghost crcInit: word, out0: Block, crc0: word, ch: byte, len0: int)
    returns (avail: int, crc: word, len: int, out: Block)
    requires len0 >= 1 && crc0 == Fold(step, crcInit, out0)
    ensures avail >= 0 && avail + |out| == availOut + |out0|
    ensures 1 <= len <= len0 && out == out0 + Rep(ch, len0 - len) && (len == 1 || avail == 0)
    ensures crc == Fold(step, crcInit, out)
  {
    avail, crc, len, out := availOut, crc0, len0, out0;
    while true
      invariant avail >= 0 && avail + |out| == availOut + |out0|
      invariant 1 <= len <= len0 && out == out0 + Rep(ch, len0 - len)
      invariant crc == Fold(step, crcInit, out)
      decreases len
    {
      if avail == 0 { break; }
      if len == 1 { break; }
      FoldSnoc(step, crcInit, out, ch);
      out := out + [ch];
      crc := step(crc, ch);
      len := len - 1;
      avail := avail - 1;
    }
  }

  /** Finish the current run: `one` enters at `s_state_out_len_eq_one`. */
  method FinishRun(step: CrcStep, availOut: nat, ghost crcInit: word, out0: Block, crc0: word, ch: byte, len0: int,
                   one: bool)
    returns (full: bool, avail: int, crc: word, len: int, out: Block)
    requires len0 >= 0 && (one ==> len0 == 1) && crc0 == Fold(step, crcInit, out0)
    ensures avail >= 0 && avail + |out| == availOut + |out0|
    ensures 0 <= len <= len0 && out == out0 + Rep(ch, len0 - len)
    ensures if full then avail == 0 && len > 0 else len == 0
    ensures crc == Fold(step, crcInit, out)
  {
    full, avail, crc, len, out := false, availOut, crc0, len0, out0;
    if len > 0 {
      if !one {
        avail, crc, len, out := EmitRun(step, avail, crcInit, out, crc, ch, len);
      }
      if avail == 0 { full := true; return; }
      FoldSnoc(step, crcInit, out, ch);
      out := out + [ch];
      crc := step(crc, ch);
      len := 0;
      avail := avail - 1;
    }
  }
}
