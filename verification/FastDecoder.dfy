/** FAST decompression: T^(-1) packed above the bytes in `tt`, and the resumable run expander over it. */
module FastDecoder {
  import opened Basics
  import opened InverseBwt
  import opened RunLength
  import opened Expander
  import opened BlockCrc

  /** Cumulative byte counts from the plain ones. */
  method BuildCftab(l: Block, unzftab: array<int>) returns (cftab: array<int>)
    requires unzftab.Length == 256
    requires forall c :: 0 <= c < 256 ==> unzftab[c] == Count(l, c)
    ensures fresh(cftab) && cftab.Length == 257
    ensures forall c :: 0 <= c <= 256 ==> cftab[c] == CountLess(l, c) && 0 <= cftab[c] <= |l|
  {
    cftab := new int[257];
    cftab[0] := 0;
    for i := 1 to 257
      invariant cftab[0] == 0
      invariant forall c :: 1 <= c < i ==> cftab[c] == Count(l, c - 1)
    {
      cftab[i] := unzftab[i - 1];
    }
    CountLessNone(l, 0);
    for i := 1 to 257
      invariant forall c :: 0 <= c < i ==> cftab[c] == CountLess(l, c)
      invariant forall c :: i <= c < 257 ==> cftab[c] == Count(l, c - 1)
    {
      CountLessStep(l, i - 1);
      cftab[i] := cftab[i] + cftab[i - 1];
    }
  }

  /** `x | (i << 8)` for a cell whose link bits are still clear. */
  function AddLink(x: int, i: int): (r: int)
    requires 0 <= x < 256 && 0 <= i
    ensures r % 256 == x && r / 256 == i
  {
    x + 256 * i
  }

  /** The running places after `i` bytes of the column. */
  ghost predicate Advanced(l: Block, cf: seq<int>, i: int)
  {
    && 0 <= i <= |l| && |cf| == 257
    && forall c :: 0 <= c < 256 ==> cf[c] == CountLess(l, c) + Count(l[..i], c)
  }

  lemma AdvanceStep(l: Block, cf: seq<int>, i: int)
    requires Advanced(l, cf, i) && i < |l|
    ensures cf[l[i]] == Rank(l, i) && Advanced(l, cf[l[i] := cf[l[i]] + 1], i + 1)
  {
    var cf' := cf[l[i] := cf[l[i]] + 1];
    forall c | 0 <= c < 256
      ensures cf'[c] == CountLess(l, c) + Count(l[..i + 1], c)
    {
      assert l[..i + 1][..i] == l[..i];
    }
  }

  /** The first `i` links are in; the other cells hold only their byte. */
  ghost predicate Linked(l: Block, ranks: seq<int>, tt: seq<int>, i: int)
  {
    && 0 <= i <= |l| == |ranks| <= |tt| && IsPermutation(ranks)
    && (forall p :: 0 <= p < |l| ==> tt[p] % 256 == l[p])
    && (forall k :: 0 <= k < |l| ==> LinkAt(tt[ranks[k]], l[ranks[k]], k, i))
  }

  ghost predicate LinkAt(cell: int, c: int, k: int, i: int)
  {
    if k < i then cell / 256 == k else cell == c
  }

  lemma LinkStep(l: Block, ranks: seq<int>, tt: seq<int>, i: int)
    requires Linked(l, ranks, tt, i) && i < |l|
    ensures 0 <= tt[ranks[i]] < 256
    ensures Linked(l, ranks, tt[ranks[i] := AddLink(tt[ranks[i]], i)], i + 1)
  {
    assert LinkAt(tt[ranks[i]], l[ranks[i]], i, i);
    var tt' := tt[ranks[i] := AddLink(tt[ranks[i]], i)];
    forall k | 0 <= k < |l|
      ensures LinkAt(tt'[ranks[k]], l[ranks[k]], k, i + 1)
    {
      assert LinkAt(tt[ranks[k]], l[ranks[k]], k, i);
      if k != i {
        assert ranks[k] != ranks[i] by {
          if k < i { assert ranks[k] != ranks[i]; } else { assert ranks[i] != ranks[k]; }
        }
      }
    }
  }

  lemma LinkedStart(l: Block, ranks: seq<int>, tt: seq<int>)
    requires |l| == |ranks| <= |tt| && IsPermutation(ranks) && forall p :: 0 <= p < |l| ==> tt[p] == l[p]
    ensures Linked(l, ranks, tt, 0)
  {
  }

  lemma AdvancedStart(l: Block, cf: seq<int>)
    requires |cf| == 257 && forall c :: 0 <= c < 256 ==> cf[c] == CountLess(l, c)
    ensures Advanced(l, cf, 0)
  {
    forall c
      ensures Count(l[..0], c) == 0
    {
    }
  }

  /** Thread T^(-1) through `tt` (decompress.c:539-544). */
  method ComputeLinks(l: Block, tt: array<int>, cftab: array<int>)
    requires |l| <= tt.Length && cftab.Length == 257 && tt != cftab
    requires forall p :: 0 <= p < |l| ==> tt[p] == l[p]
    requires forall c :: 0 <= c < 256 ==> cftab[c] == CountLess(l, c)
    modifies tt, cftab
    ensures Linked(l, Ranks(l), tt[..], |l|)
  {
    ghost var ranks := Ranks(l);
    RanksPermutation(l);
    LinkedStart(l, ranks, tt[..]);
    AdvancedStart(l, cftab[..]);
    for i := 0 to |l|
      invariant Linked(l, ranks, tt[..], i) && Advanced(l, cftab[..], i)
    {
      ghost var was, cf := tt[..], cftab[..];
      LinkStep(l, ranks, was, i);
      AdvanceStep(l, cf, i);
      var uc := tt[i] % 256;
      assert uc == was[i] % 256;
      var r := cftab[uc];
      assert r == cf[uc] == ranks[i];
      tt[r] := AddLink(tt[r], i);
      assert tt[..] == was[r := AddLink(was[r], i)];
      cftab[uc] := r + 1;
      assert cftab[..] == cf[uc := r + 1];
    }
  }

  lemma LinksInvert(l: Block, inv: seq<int>, tt: seq<int>, p: int)
    requires Linked(l, Ranks(l), tt, |l|) && IsInverse(l, inv) && 0 <= p < |l|
    ensures tt[p] == AddLink(l[p], inv[p])
  {
    assert Ranks(l)[inv[p]] == p;
    assert LinkAt(tt[p], l[p], inv[p], |l|);
  }

  /** The FAST tables for a column: byte in the low eight bits, link above (decompress.c:487-544). */
  method PrepareFast(l: Block, unzftab: array<int>, size: int, ghost inv: seq<int>) returns (tt: array<int>)
    requires |l| <= size
    requires unzftab.Length == 256 && forall c :: 0 <= c < 256 ==> unzftab[c] == Count(l, c)
    requires IsInverse(l, inv)
    ensures fresh(tt) && tt.Length == size
    ensures forall p :: 0 <= p < |l| ==> tt[p] == AddLink(l[p], inv[p])
  {
    var cftab := BuildCftab(l, unzftab);
    tt := new int[size];
    for i := 0 to |l|
      invariant forall p :: 0 <= p < i ==> tt[p] == l[p]
      invariant forall c :: 0 <= c <= 256 ==> cftab[c] == CountLess(l, c)
    {
      tt[i] := l[i];
    }
    ComputeLinks(l, tt, cftab);
    forall p | 0 <= p < |l|
      ensures tt[p] == AddLink(l[p], inv[p])
    {
      LinksInvert(l, inv, tt[..], p);
    }
  }

  /** The byte a walk of the whole column would fetch next. */
  function After(l: Block, inv: seq<int>, origPtr: int): (c: byte)
    requires 0 <= origPtr < |l| && IsInverse(l, inv)
  {
    l[Follow(inv, inv[origPtr], |l|)]
  }

  lemma FetchedAt(l: Block, inv: seq<int>, origPtr: int, k: nat)
    requires 0 <= origPtr < |l| && IsInverse(l, inv) && k <= |l|
    ensures l[Follow(inv, inv[origPtr], k)] == if k < |l| then Walk(l, inv, inv[origPtr], |l|)[k]
      else After(l, inv, origPtr)
  {
    if k < |l| {
      WalkAt(l, inv, inv[origPtr], |l|, k);
    }
  }

  /** BZ_GET_FAST_C: one step of the walk. */
  function Get(tt: array<int>, tPos: int): (g: Fetch)
    requires 0 <= tPos
    reads tt
  {
    if tPos >= tt.Length then Corrupt else Got(tt[tPos] % 256, tt[tPos] / 256)
  }

  /** The walk along `path` fetches the bytes of `blk`, then `after`, then one more. */
  ghost predicate Spells(tt: array<int>, path: seq<int>, blk: Block, after: byte)
    reads tt
  {
    && |path| == |blk| + 3
    && (forall k :: 0 <= k < |path| ==> 0 <= path[k] < tt.Length)
    && (forall k :: 0 <= k <= |blk| + 1 ==> StepsTo(tt, path, blk, after, k))
  }

  ghost predicate StepsTo(tt: array<int>, path: seq<int>, blk: Block, after: byte, k: int)
    requires 0 <= k < |path| - 1 && path[k] >= 0
    reads tt
  {
    && Get(tt, path[k]).Got? && Get(tt, path[k]).next == path[k + 1]
    && (k <= |blk| ==> Get(tt, path[k]).c == if k < |blk| then blk[k] else after)
  }

  /** The cell the walk reads in its `k`-th step. */
  lemma FastStep(l: Block, inv: seq<int>, origPtr: int, tt: seq<int>, k: nat)
    requires 0 <= origPtr < |l| <= |tt| && IsInverse(l, inv)
    requires forall p :: 0 <= p < |l| ==> tt[p] == AddLink(l[p], inv[p])
    ensures var x := Follow(inv, inv[origPtr], k);
      tt[x] % 256 == l[x] && tt[x] / 256 == Follow(inv, inv[origPtr], k + 1)
  {
    var x := Follow(inv, inv[origPtr], k);
    assert tt[x] == AddLink(l[x], inv[x]);
  }

  lemma TablesSpell(l: Block, inv: seq<int>, origPtr: int, tt: array<int>)
    requires 0 <= origPtr < |l| <= tt.Length && IsInverse(l, inv)
    requires forall p :: 0 <= p < |l| ==> tt[p] == AddLink(l[p], inv[p])
    ensures Spells(tt, Way(inv, inv[origPtr], |l| + 3), Walk(l, inv, inv[origPtr], |l|), After(l, inv, origPtr))
  {
    var path := Way(inv, inv[origPtr], |l| + 3);
    var blk, after := Walk(l, inv, inv[origPtr], |l|), After(l, inv, origPtr);
    forall k | 0 <= k <= |blk| + 1
      ensures StepsTo(tt, path, blk, after, k)
    {
      FastStep(l, inv, origPtr, tt[..], k);
      assert tt[..][path[k]] == tt[path[k]];
      if k <= |l| {
        FetchedAt(l, inv, origPtr, k);
      }
    }
  }

  datatype RunStart = RunStart(one: bool, len: int, tPos: int, k0: byte, used: int)

  /** Start the next run (bzlib.c, after "can a new run be started?"). `one` is the jump to
      `s_state_out_len_eq_one`, where the run has length one whatever `len` says. */
  method NextRun(tt: array<int>, saveNblock: int, tPos0: int, k0: byte, used0: int,
                 ghost path: seq<int>, ghost blk: Block, ghost after: byte)
    returns (corrupt: bool, r: RunStart)
    requires Spells(tt, path, blk, after) && saveNblock == |blk|
    requires 1 <= used0 <= |blk| && k0 == blk[used0 - 1] && tPos0 == path[used0]
    ensures !corrupt && r.len == RunLen(blk, after, used0) && (r.one ==> r.len == 1)
    ensures r.used == RunNext(blk, used0) && r.tPos == path[r.used]
    ensures r.used <= |blk| ==> r.k0 == blk[r.used - 1]
  {
    var pp, tPos, used := saveNblock + 1, tPos0, used0;
    assert StepsTo(tt, path, blk, after, used0);
    assert used0 + 1 <= |blk| + 1 ==> StepsTo(tt, path, blk, after, used0 + 1);
    assert used0 + 2 <= |blk| + 1 ==> StepsTo(tt, path, blk, after, used0 + 2);
    assert used0 + 3 <= |blk| + 1 ==> StepsTo(tt, path, blk, after, used0 + 3);
    assert used0 + 4 <= |blk| + 1 ==> StepsTo(tt, path, blk, after, used0 + 4);
    r := RunStart(false, 1, tPos, k0, used);
    corrupt := true;

    var g := Get(tt, tPos);
    if g.Corrupt? { return; }
    tPos, used := g.next, used + 1;
    if g.c != k0 { return false, RunStart(true, 1, tPos, g.c, used); }
    if used == pp { return false, RunStart(true, 1, tPos, k0, used); }

    g := Get(tt, tPos);
    if g.Corrupt? { return; }
    tPos, used := g.next, used + 1;
    if used == pp { return false, RunStart(false, 2, tPos, k0, used); }
    if g.c != k0 { return false, RunStart(false, 2, tPos, g.c, used); }

    g := Get(tt, tPos);
    if g.Corrupt? { return; }
    tPos, used := g.next, used + 1;
    if used == pp { return false, RunStart(false, 3, tPos, k0, used); }
    if g.c != k0 { return false, RunStart(false, 3, tPos, g.c, used); }

    g := Get(tt, tPos);
    if g.Corrupt? { return; }
    tPos, used := g.next, used + 1;
    var len := g.c as int + 4;
    g := Get(tt, tPos);
    if g.Corrupt? { return; }
    tPos, used := g.next, used + 1;
    return false, RunStart(false, len, tPos, g.c, used);
  }

  class FastState {
    const crcStep: CrcStep
    const tt: array<int>
    var tPos: int
    var k0: byte
    var nblockUsed: int
    const saveNblock: int
    var stateOutCh: byte
    var stateOutLen: int
    var calculatedBlockCRC: word

    ghost const plan: Plan
    ghost var at: int
    /** Everything still to be written: the rest of the current run, then the rest of the block. */
    ghost var rest: Block

    ghost predicate Valid()
      reads this, tt
    {
      && Spells(tt, plan.path, plan.blk, plan.after) && saveNblock == |plan.blk|
      && Running(plan, at, tPos, k0, nblockUsed, stateOutCh, stateOutLen, rest)
    }

    /** The block stops right after four equal bytes. */
    ghost predicate Stops() { Torn(plan.blk, plan.marks) }

    /** Start output of a block whose links are ready (decompress.c:546-554). */
    constructor (crcStep: CrcStep, tt: array<int>, nblock: int, origPtr: int, ghost p: Plan)
      requires Spells(tt, p.path, p.blk, p.after) && 0 < nblock == |p.blk|
      requires 0 <= origPtr < tt.Length && tt[origPtr] / 256 == p.path[0]
      requires IsPlan(p) && p.marks[0] == 1
      ensures Valid() && this.tt == tt && this.crcStep == crcStep && saveNblock == nblock
      ensures rest == p.tails[0] && plan == p
      ensures nblockUsed == 1 && stateOutLen == 0 && calculatedBlockCRC == 0xffffffff
    {
      this.crcStep := crcStep;
      this.tt := tt;
      plan, at, rest := p, 0, p.tails[0];
      saveNblock := nblock;
      stateOutLen := 0;
      stateOutCh := 0;
      calculatedBlockCRC := 0xffffffff;
      assert StepsTo(tt, p.path, p.blk, p.after, 0);
      var g := Get(tt, tt[origPtr] / 256);
      tPos := g.next;
      k0 := g.c;
      nblockUsed := 1;
      assert Rep(0, 0) + p.tails[0] == p.tails[0];
    }

    /** unRLE_obuf_to_output_FAST, the branch for blocks that are not randomised, on the local copies
        of the state that the source works with. */
    static method Produce(step: CrcStep, tt: array<int>, saveNblock: int, availOut: nat,
                          crc0: word, ch0: byte, len0: int, used0: int, k00: byte, pos0: int,
                          ghost p: Plan, ghost at0: int)
      returns (corrupt: bool, out: Block, crc: word, ch: byte, len: int, used: int, k: byte, pos: int, ghost at: int)
      requires Spells(tt, p.path, p.blk, p.after) && saveNblock == |p.blk| && IsPlan(p)
      requires Cursor(p, at0, pos0, k00, used0) && len0 >= 0
      ensures Cursor(p, at, pos, k, used) && len >= 0
      ensures |out| <= availOut && Pending(Rep(ch0, len0) + p.tails[at0], out, ch, len, p.tails[at])
      ensures corrupt <==> Torn(p.blk, p.marks) && availOut >= len0 + |p.tails[at0]|
      ensures |out| < availOut ==> at == |p.marks| - 1 && len == 0
      ensures crc == Fold(step, crc0, out)
    {
      ghost var all := Rep(ch0, len0) + p.tails[at0];
      at, crc, ch, len, used, k, pos := at0, crc0, ch0, len0, used0, k00, pos0;
      var avail: int := availOut;
      var one := false;
      corrupt, out := false, [];
      PendingStart(ch, len, p.tails[at]);
      while true
        invariant !corrupt && Cursor(p, at, pos, k, used)
        invariant len >= 0 && (one ==> len == 1)
        invariant avail + |out| == availOut && avail >= 0
        invariant Pending(all, out, ch, len, p.tails[at])
        invariant crc == Fold(step, crc0, out)
        decreases |p.marks| - at
      {
        var full;
        ghost var len', out' := len, out;
        full, avail, crc, len, out := FinishRun(step, avail, crc0, out, crc, ch, len, one);
        Drained(all, out', p.tails[at], ch, len', len);
        PendingParts(all, out, ch, len, p.tails[at]);
        ScriptAt(p.blk, p.after, p.marks, p.tails, at);
        if full { return; }
        if used > saveNblock + 1 { corrupt := true; return; }
        if used == saveNblock + 1 { return; }
        var r;
        corrupt, r := NextRun(tt, saveNblock, pos, k, used, p.path, p.blk, p.after);
        PendingNext(all, out, ch, p.tails[at], k, r.len, p.tails[at + 1]);
        ch := k;
        one, len, pos, k, used := r.one, r.len, r.tPos, r.k0, r.used;
        at := at + 1;
      }
    }

    /** One call of the expander: it writes the next bytes of the block, as many as fit, and keeps the rest. A block
        that stops right after four equal bytes is reported by the call that has room for its last byte; that call
        does not save what it did. */
    method Output(availOut: nat) returns (corrupt: bool, out: Block)
      requires Valid()
      modifies this
      ensures Valid() && out == old(rest)[..Min(availOut, |old(rest)|)]
      ensures corrupt <==> Stops() && availOut >= |old(rest)|
      ensures rest == if corrupt then old(rest) else old(rest)[|out|..]
      ensures calculatedBlockCRC == if corrupt then old(calculatedBlockCRC)
        else Fold(crcStep, old(calculatedBlockCRC), out)
      ensures !corrupt && nblockUsed == saveNblock + 1 && stateOutLen == 0 ==> rest == []
      ensures |out| < availOut && !corrupt ==> nblockUsed == saveNblock + 1 && stateOutLen == 0
    {
      RunningParts(plan, at, tPos, k0, nblockUsed, stateOutCh, stateOutLen, rest);
      ghost var at', was := at, rest;
      var crc, ch, len, used, k, pos;
      corrupt, out, crc, ch, len, used, k, pos, at' :=
        Produce(crcStep, tt, saveNblock, availOut, calculatedBlockCRC, stateOutCh, stateOutLen, nblockUsed, k0, tPos,
          plan, at);
      Paused(plan, at', pos, k, used, ch, len, was, out, availOut);
      if corrupt { return; }
      calculatedBlockCRC, stateOutCh, stateOutLen, nblockUsed, k0, tPos := crc, ch, len, used, k, pos;
      at, rest := at', was[|out|..];
    }
  }

  /** From a last column to a running output: the FAST branch of BZ2_decompress after the last symbol. */
  method StartFast(crcStep: CrcStep, l: Block, unzftab: array<int>, origPtr: int, size: int, ghost inv: seq<int>)
    returns (s: FastState)
    requires unzftab.Length == 256 && forall c :: 0 <= c < 256 ==> unzftab[c] == Count(l, c)
    requires 0 <= origPtr < |l| <= size && IsInverse(l, inv)
    ensures fresh(s) && fresh(s.tt) && s.Valid() && s.crcStep == crcStep
    ensures s.rest == Unroll(Walk(l, inv, inv[origPtr], |l|), After(l, inv, origPtr))
    ensures s.Stops() <==> !Complete(Walk(l, inv, inv[origPtr], |l|))
    ensures s.saveNblock == |l| && s.nblockUsed == 1 && s.calculatedBlockCRC == 0xffffffff
  {
    var tt := PrepareFast(l, unzftab, size, inv);
    TablesSpell(l, inv, origPtr, tt);
    s := StartWalk(crcStep, tt, |l|, origPtr, Way(inv, inv[origPtr], |l| + 3), Walk(l, inv, inv[origPtr], |l|),
      After(l, inv, origPtr));
  }

  method StartWalk(crcStep: CrcStep, tt: array<int>, nblock: int, origPtr: int,
                   ghost path: seq<int>, ghost blk: Block, ghost after: byte)
    returns (s: FastState)
    requires Spells(tt, path, blk, after) && 0 < nblock == |blk|
    requires 0 <= origPtr < tt.Length && tt[origPtr] / 256 == path[0]
    ensures fresh(s) && s.tt == tt && s.Valid() && s.crcStep == crcStep
    ensures s.rest == Unroll(blk, after) && (s.Stops() <==> !Complete(blk))
    ensures s.saveNblock == nblock && s.nblockUsed == 1 && s.calculatedBlockCRC == 0xffffffff
  {
    ghost var marks, tails := WholeScript(blk, after);
    s := new FastState(crcStep, tt, nblock, origPtr, Plan(blk, after, path, marks, tails));
  }

  lemma WholeScript(blk: Block, after: byte) returns (marks: seq<int>, tails: seq<Block>)
    requires blk != []
    ensures IsScript(blk, after, marks, tails) && marks[0] == 1 && tails[0] == Unroll(blk, after)
    ensures Torn(blk, marks) <==> !Complete(blk)
  {
    marks, tails := ScriptFrom(blk, after, 1);
    assert Left(blk, 1) == blk;
  }
}
