/** SMALL decompression: T in 20-bit cells, one cycle reversed in place, bytes found by binary search. */
module SmallDecoder {
  import opened Basics
  import opened InverseBwt
  import opened RunLength
  import opened BlockCrc
  import opened Expander
  import FastDecoder

  // ----- 20-bit cells: 16 bits in ll16, 4 bits in half a byte of ll4 -----

  /** GET_LL4. */
  function GetLL4(ll4: array<int>, i: int): (n: int)
    requires 0 <= i / 2 < ll4.Length
    reads ll4
  {
    if i % 2 == 0 then ll4[i / 2] % 16 else ll4[i / 2] / 16 % 16
  }

  /** GET_LL. */
  function GetLL(ll16: array<int>, ll4: array<int>, i: int): (n: int)
    requires 0 <= i < ll16.Length && i / 2 < ll4.Length
    reads ll16, ll4
  {
    ll16[i] + 65536 * GetLL4(ll4, i)
  }

  /** The first `n` cells as values. */
  ghost function Cells(ll16: array<int>, ll4: array<int>, n: int): (s: seq<int>)
    requires 0 <= n <= ll16.Length <= 2 * ll4.Length
    reads ll16, ll4
    ensures |s| == n && forall i :: 0 <= i < n ==> s[i] == GetLL(ll16, ll4, i)
  {
    seq(n, i requires 0 <= i < n reads ll16, ll4 => GetLL(ll16, ll4, i))
  }

  /** SET_LL: the cell reads back as written, and no other cell changes. */
  method SetLL(ll16: array<int>, ll4: array<int>, i: int, n: int)
    requires ll16 != ll4 && 0 <= i < ll16.Length <= 2 * ll4.Length
    requires 0 <= n < 0x100000
    modifies ll16, ll4
    ensures GetLL(ll16, ll4, i) == n
    ensures forall j :: 0 <= j < ll16.Length && j != i ==> ll16[j] == old(ll16[j])
    ensures Cells(ll16, ll4, ll16.Length) == old(Cells(ll16, ll4, ll16.Length))[i := n]
  {
    ll16[i] := n % 65536;
    var h := n / 65536;
    var x := ll4[i / 2];
    if i % 2 == 0 {
      ll4[i / 2] := (x / 16 % 16) * 16 + h;
    } else {
      ll4[i / 2] := x % 16 + h * 16;
    }
    forall j | 0 <= j < ll16.Length && j != i
      ensures GetLL(ll16, ll4, j) == old(GetLL(ll16, ll4, j))
    {
      if j / 2 == i / 2 {
        assert j % 2 != i % 2;
      }
    }
  }

  /** The first `i` cells hold ranks, the others still their bytes. */
  ghost predicate Placing(l: Block, cells: seq<int>, low: seq<int>, i: int)
  {
    && 0 <= i <= |l| <= |cells| == |low|
    && cells[..i] == Ranks(l)[..i] && (forall k :: i <= k < |l| ==> low[k] == l[k])
  }

  lemma PlaceStep(l: Block, cells: seq<int>, low: seq<int>, i: int, cells': seq<int>, low': seq<int>)
    requires Placing(l, cells, low, i) && i < |l| && cells' == cells[i := Rank(l, i)] && |low'| == |low|
    requires forall j :: 0 <= j < |low| && j != i ==> low'[j] == low[j]
    ensures Placing(l, cells', low', i + 1)
  {
    assert Ranks(l)[..i + 1] == Ranks(l)[..i] + [Rank(l, i)];
    assert cells'[..i + 1] == cells[..i] + [Rank(l, i)];
  }

  /** Place every column byte by stable rank (decompress.c:509-514). */
  method ComputeT(l: Block, ll16: array<int>, ll4: array<int>, cftab: array<int>)
    requires ll16 != ll4 && cftab != ll16 && cftab != ll4 && cftab.Length == 257
    requires |l| <= 0x100000 && |l| <= ll16.Length <= 2 * ll4.Length
    requires forall i :: 0 <= i < |l| ==> ll16[i] == l[i]
    requires forall c :: 0 <= c < 256 ==> cftab[c] == CountLess(l, c)
    modifies ll16, ll4, cftab
    ensures Cells(ll16, ll4, |l|) == Ranks(l)
  {
    RanksPermutation(l);
    FastDecoder.AdvancedStart(l, cftab[..]);
    for i := 0 to |l|
      invariant FastDecoder.Advanced(l, cftab[..], i)
      invariant Placing(l, Cells(ll16, ll4, ll16.Length), ll16[..], i)
    {
      PlaceOne(l, ll16, ll4, cftab, i);
    }
    CellsDone(l, ll16, ll4);
  }

  lemma CellsDone(l: Block, ll16: array<int>, ll4: array<int>)
    requires ll16.Length <= 2 * ll4.Length && Placing(l, Cells(ll16, ll4, ll16.Length), ll16[..], |l|)
    ensures Cells(ll16, ll4, |l|) == Ranks(l)
  {
    forall i | 0 <= i < |l|
      ensures Cells(ll16, ll4, |l|)[i] == Ranks(l)[i]
    {
      assert Cells(ll16, ll4, ll16.Length)[..|l|][i] == Ranks(l)[..|l|][i];
    }
  }

  method PlaceOne(l: Block, ll16: array<int>, ll4: array<int>, cftab: array<int>, i: int)
    requires ll16 != ll4 && cftab != ll16 && cftab != ll4 && cftab.Length == 257 && IsPermutation(Ranks(l))
    requires |l| <= 0x100000 && |l| <= ll16.Length <= 2 * ll4.Length && 0 <= i < |l|
    requires FastDecoder.Advanced(l, cftab[..], i) && Placing(l, Cells(ll16, ll4, ll16.Length), ll16[..], i)
    modifies ll16, ll4, cftab
    ensures FastDecoder.Advanced(l, cftab[..], i + 1) && Placing(l, Cells(ll16, ll4, ll16.Length), ll16[..], i + 1)
  {
    ghost var cf, cells, low := cftab[..], Cells(ll16, ll4, ll16.Length), ll16[..];
    FastDecoder.AdvanceStep(l, cf, i);
    var uc := ll16[i] % 256;
    assert uc == low[i] == l[i];
    var r := cftab[uc];
    assert r == cf[uc] == Ranks(l)[i];
    SetLL(ll16, ll4, i, r);
    PlaceStep(l, cells, low, i, Cells(ll16, ll4, ll16.Length), ll16[..]);
    cftab[uc] := r + 1;
    assert cftab[..] == cf[uc := r + 1];
  }

  // ----- Reversing the cycle through origPtr -----

  /** `orbit` runs once around the cycle of `t` through its first element, possibly stopping early. */
  ghost predicate IsChain(t: seq<int>, orbit: seq<int>)
  {
    && orbit != [] && Injective(orbit)
    && (forall k :: 0 <= k < |orbit| ==> 0 <= orbit[k] < |t|)
    && (forall k :: 1 <= k < |orbit| ==> orbit[k] == t[orbit[k - 1]])
  }

  lemma ChainEnd(t: seq<int>, orbit: seq<int>)
    requires IsPermutation(t) && IsChain(t, orbit)
    ensures var j := t[orbit[|orbit| - 1]]; j !in orbit[1..]
    ensures var j := t[orbit[|orbit| - 1]]; j != orbit[0] ==> IsChain(t, orbit + [j])
  {
    var j := t[orbit[|orbit| - 1]];
    forall k | 1 <= k < |orbit|
      ensures orbit[k] != j
    {
      assert orbit[k - 1] != orbit[|orbit| - 1];
      assert t[orbit[k - 1]] != t[orbit[|orbit| - 1]];
    }
  }

  /** Part way: the cells along `orbit` point back, all others still hold `t`. */
  ghost predicate Reversed(t: seq<int>, orbit: seq<int>, cells: seq<int>)
  {
    && |t| <= |cells| && IsChain(t, orbit)
    && (forall k :: 1 <= k < |orbit| ==> cells[orbit[k]] == orbit[k - 1])
    && (forall x :: 0 <= x < |t| && x !in orbit[1..] ==> cells[x] == t[x])
  }

  lemma ReverseStep(t: seq<int>, orbit: seq<int>, cells: seq<int>)
    requires IsPermutation(t) && Reversed(t, orbit, cells)
    ensures var i := orbit[|orbit| - 1]; var j := t[i];
      && cells[j] == t[j]
      && (forall k :: 1 <= k < |orbit| ==> cells[j := i][orbit[k]] == orbit[k - 1])
      && (j != orbit[0] ==> Reversed(t, orbit + [j], cells[j := i]))
  {
    ChainEnd(t, orbit);
    var i := orbit[|orbit| - 1];
    var j := t[i];
    forall k | 1 <= k < |orbit|
      ensures orbit[k] != j
    {
      assert orbit[1..][k - 1] == orbit[k];
    }
    assert (orbit + [j])[1..] == orbit[1..] + [j];
  }

  /** Pointer reversal along the cycle of `t` through `origPtr` (decompress.c:516-525). */
  method ReverseCycle(ll16: array<int>, ll4: array<int>, origPtr: int, ghost t: seq<int>)
    returns (ghost orbit: seq<int>)
    requires ll16 != ll4 && |t| <= 0x100000 && |t| <= ll16.Length <= 2 * ll4.Length
    requires 0 <= origPtr < |t| && IsPermutation(t) && Cells(ll16, ll4, |t|) == t
    modifies ll16, ll4
    ensures IsChain(t, orbit) && orbit[0] == origPtr == t[orbit[|orbit| - 1]]
    ensures forall k :: 1 <= k < |orbit| ==> GetLL(ll16, ll4, orbit[k]) == orbit[k - 1]
    ensures GetLL(ll16, ll4, origPtr) == orbit[|orbit| - 1]
  {
    var i := origPtr;
    ghost var m := ll16.Length;
    forall x | 0 <= x < |t|
      ensures Cells(ll16, ll4, m)[x] == t[x]
    {
      assert Cells(ll16, ll4, |t|)[x] == t[x];
    }
    var j := GetLL(ll16, ll4, i);
    orbit := [origPtr];
    while true
      invariant Reversed(t, orbit, Cells(ll16, ll4, m))
      invariant orbit[0] == origPtr && i == orbit[|orbit| - 1] && j == t[i]
      decreases |t| - |orbit|
    {
      ReverseStep(t, orbit, Cells(ll16, ll4, m));
      var tmp := GetLL(ll16, ll4, j);
      SetLL(ll16, ll4, j, i);
      i := j;
      j := tmp;
      if i == origPtr { break; }
      orbit := orbit + [i];
      Pigeonhole(orbit, |t|);
    }
  }

  // ----- Finding the byte of a sorted position -----

  /** BZ2_indexIntoF: the byte whose stretch of the sorted column contains `indx`. */
  method IndexIntoF(indx: int, cftab: array<int>) returns (nb: byte)
    requires cftab.Length == 257 && cftab[0] <= indx < cftab[256]
    ensures cftab[nb] <= indx < cftab[nb as int + 1]
  {
    var lo, na := 0, 256;
    while na - lo != 1
      invariant 0 <= lo < na <= 256
      invariant cftab[lo] <= indx < cftab[na]
      decreases na - lo
    {
      var mid := (lo + na) / 2;
      if indx >= cftab[mid] { lo := mid; } else { na := mid; }
    }
    nb := lo;
  }

  /** The stretches of the sorted column do not overlap, so the byte found is the column's own. */
  lemma StretchUnique(l: Block, i: int, c: int)
    requires 0 <= i < |l| && 0 <= c < 256
    requires CountLess(l, c) <= Rank(l, i) < CountLess(l, c + 1)
    ensures c == l[i]
  {
    RankBound(l, i);
    if c < l[i] {
      CountLessMono(l, c + 1, l[i]);
    } else if l[i] < c {
      CountLessMono(l, l[i] as int + 1, c);
    }
  }

  // ----- The resumable expander over the reversed cycle -----

  /** Position `path[k]` lies in the stretch of byte `blk[k]`, or of `after` once the block is used up, and links to
      `path[k + 1]`. */
  ghost predicate StepsTo(ll16: array<int>, ll4: array<int>, cftab: array<int>, path: seq<int>, blk: Block, after: byte,
                          k: int)
    requires 0 <= k < |path| - 1 && ll16.Length <= 2 * ll4.Length && cftab.Length == 257
    reads ll16, ll4, cftab
  {
    && 0 <= path[k] < ll16.Length
    && cftab[0] <= path[k] < cftab[256]
    && GetLL(ll16, ll4, path[k]) == path[k + 1]
    && (k <= |blk| ==>
          forall c: byte :: cftab[c] <= path[k] < cftab[c as int + 1] ==> c == if k < |blk| then blk[k] else after)
  }

  /** The walk along `path` fetches the bytes of `blk`, then `after`, then one more. */
  ghost predicate Spells(ll16: array<int>, ll4: array<int>, cftab: array<int>, path: seq<int>, blk: Block, after: byte)
    reads ll16, ll4, cftab
  {
    && ll16.Length <= 2 * ll4.Length && cftab.Length == 257
    && |path| == |blk| + 3
    && forall k :: 0 <= k <= |blk| + 1 ==> StepsTo(ll16, ll4, cftab, path, blk, after, k)
  }

  /** BZ_GET_SMALL: one step of the walk. */
  method Get(ll16: array<int>, ll4: array<int>, cftab: array<int>, tPos: int,
             ghost path: seq<int>, ghost blk: Block, ghost after: byte, ghost k: int)
    returns (g: Fetch)
    requires Spells(ll16, ll4, cftab, path, blk, after) && 0 <= k <= |blk| + 1 && tPos == path[k]
    ensures g.Got? && g.next == path[k + 1] && (k <= |blk| ==> g.c == if k < |blk| then blk[k] else after)
  {
    assert StepsTo(ll16, ll4, cftab, path, blk, after, k);
    g := Corrupt;
    if tPos < ll16.Length {
      var c := IndexIntoF(tPos, cftab);
      g := Got(c, GetLL(ll16, ll4, tPos));
    }
  }

  datatype RunStart = RunStart(len: int, tPos: int, k0: byte, used: int)

  /** Start the next run (bzlib.c:782-800). */
  method NextRun(ll16: array<int>, ll4: array<int>, cftab: array<int>, saveNblock: int,
                 tPos0: int, k0: byte, used0: int, ghost path: seq<int>, ghost blk: Block, ghost after: byte)
    returns (corrupt: bool, r: RunStart)
    requires Spells(ll16, ll4, cftab, path, blk, after) && saveNblock == |blk|
    requires 1 <= used0 <= |blk| && k0 == blk[used0 - 1] && tPos0 == path[used0]
    ensures !corrupt && r.len == RunLen(blk, after, used0)
    ensures r.used == RunNext(blk, used0) && r.tPos == path[r.used]
    ensures r.used <= |blk| ==> r.k0 == blk[r.used - 1]
  {
    var pp, tPos, used := saveNblock + 1, tPos0, used0;
    r := RunStart(1, tPos, k0, used);
    corrupt := true;

    var g := Get(ll16, ll4, cftab, tPos, path, blk, after, used);
    if g.Corrupt? { return; }
    tPos, used := g.next, used + 1;
    if used == pp { return false, RunStart(1, tPos, k0, used); }
    if g.c != k0 { return false, RunStart(1, tPos, g.c, used); }

    g := Get(ll16, ll4, cftab, tPos, path, blk, after, used);
    if g.Corrupt? { return; }
    tPos, used := g.next, used + 1;
    if used == pp { return false, RunStart(2, tPos, k0, used); }
    if g.c != k0 { return false, RunStart(2, tPos, g.c, used); }

    g := Get(ll16, ll4, cftab, tPos, path, blk, after, used);
    if g.Corrupt? { return; }
    tPos, used := g.next, used + 1;
    if used == pp { return false, RunStart(3, tPos, k0, used); }
    if g.c != k0 { return false, RunStart(3, tPos, g.c, used); }

    g := Get(ll16, ll4, cftab, tPos, path, blk, after, used);
    if g.Corrupt? { return; }
    tPos, used := g.next, used + 1;
    var len := g.c as int + 4;
    g := Get(ll16, ll4, cftab, tPos, path, blk, after, used);
    if g.Corrupt? { return; }
    tPos, used := g.next, used + 1;
    return false, RunStart(len, tPos, g.c, used);
  }

  /** Write out the current run, while there is room. */
  method DrainRun(step: CrcStep, availOut: nat, ghost crcInit: word, out0: Block, crc0: word, ch: byte, len0: int)
    returns (full: bool, avail: int, crc: word, len: int, out: Block)
    requires len0 >= 0 && crc0 == Fold(step, crcInit, out0)
    ensures avail >= 0 && avail + |out| == availOut + |out0|
    ensures 0 <= len <= len0 && out == out0 + Rep(ch, len0 - len)
    ensures if full then avail == 0 else len == 0 && avail > 0
    ensures crc == Fold(step, crcInit, out)
  {
    full, avail, crc, len, out := false, availOut, crc0, len0, out0;
    while true
      invariant avail >= 0 && avail + |out| == availOut + |out0|
      invariant 0 <= len <= len0 && out == out0 + Rep(ch, len0 - len)
      invariant crc == Fold(step, crcInit, out)
      decreases len
    {
      if avail == 0 { full := true; break; }
      if len == 0 { full := false; break; }
      FoldSnoc(step, crcInit, out, ch);
      out := out + [ch];
      crc := step(crc, ch);
      len := len - 1;
      avail := avail - 1;
    }
  }

  class SmallState {
    const crcStep: CrcStep
    const ll16: array<int>
    const ll4: array<int>
    const cftab: array<int>
    var tPos: int
    var k0: byte
    var nblockUsed: int
    const saveNblock: int
    var stateOutCh: byte
    var stateOutLen: int
    var calculatedBlockCRC: word

    ghost const plan: Plan
    ghost var at: int
    /** Everything still to be written: the rest of the current run, then the rest of the block. */
    ghost var rest: Block

    ghost predicate Valid()
      reads this, ll16, ll4, cftab
    {
      && Spells(ll16, ll4, cftab, plan.path, plan.blk, plan.after) && saveNblock == |plan.blk|
      && Running(plan, at, tPos, k0, nblockUsed, stateOutCh, stateOutLen, rest)
    }

    /** The block stops right after four equal bytes. */
    ghost predicate Stops() { Torn(plan.blk, plan.marks) }

    /** Start output of a block whose cycle is reversed (decompress.c:527-535). */
    constructor (crcStep: CrcStep, ll16: array<int>, ll4: array<int>, cftab: array<int>, nblock: int, origPtr: int,
                 ghost p: Plan)
      requires Spells(ll16, ll4, cftab, p.path, p.blk, p.after) && 0 < nblock == |p.blk|
      requires p.path[0] == origPtr
      requires IsPlan(p) && p.marks[0] == 1
      ensures Valid() && this.ll16 == ll16 && this.ll4 == ll4 && this.cftab == cftab && this.crcStep == crcStep
      ensures saveNblock == nblock
      ensures rest == p.tails[0] && plan == p
      ensures nblockUsed == 1 && stateOutLen == 0 && calculatedBlockCRC == 0xffffffff
    {
      this.crcStep := crcStep;
      this.ll16, this.ll4, this.cftab := ll16, ll4, cftab;
      plan, at, rest := p, 0, p.tails[0];
      saveNblock := nblock;
      stateOutLen := 0;
      stateOutCh := 0;
      calculatedBlockCRC := 0xffffffff;
      var g := Get(ll16, ll4, cftab, origPtr, p.path, p.blk, p.after, 0);
      tPos := g.next;
      k0 := g.c;
      nblockUsed := 1;
      assert Rep(0, 0) + p.tails[0] == p.tails[0];
    }

    /** unRLE_obuf_to_output_SMALL, the branch for blocks that are not randomised. */
    static method Produce(step: CrcStep, ll16: array<int>, ll4: array<int>, cftab: array<int>, saveNblock: int,
                          availOut: nat, crc0: word, ch0: byte, len0: int, used0: int, k00: byte, pos0: int,
                          ghost p: Plan, ghost at0: int)
      returns (corrupt: bool, out: Block, crc: word, ch: byte, len: int, used: int, k: byte, pos: int, ghost at: int)
      requires Spells(ll16, ll4, cftab, p.path, p.blk, p.after) && saveNblock == |p.blk| && IsPlan(p)
      requires Cursor(p, at0, pos0, k00, used0) && len0 >= 0
      ensures Cursor(p, at, pos, k, used) && len >= 0
      ensures |out| <= availOut && Pending(Rep(ch0, len0) + p.tails[at0], out, ch, len, p.tails[at])
      ensures corrupt <==> Torn(p.blk, p.marks) && availOut > len0 + |p.tails[at0]|
      ensures |out| < availOut ==> at == |p.marks| - 1 && len == 0
      ensures crc == Fold(step, crc0, out)
    {
      ghost var all := Rep(ch0, len0) + p.tails[at0];
      at, crc, ch, len, used, k, pos := at0, crc0, ch0, len0, used0, k00, pos0;
      var avail: int := availOut;
      corrupt, out := false, [];
      PendingStart(ch, len, p.tails[at]);
      while true
        invariant !corrupt && Cursor(p, at, pos, k, used)
        invariant len >= 0
        invariant avail + |out| == availOut && avail >= 0
        invariant Pending(all, out, ch, len, p.tails[at])
        invariant crc == Fold(step, crc0, out)
        decreases |p.marks| - at
      {
        var full;
        ghost var len', out' := len, out;
        full, avail, crc, len, out := DrainRun(step, avail, crc0, out, crc, ch, len);
        Drained(all, out', p.tails[at], ch, len', len);
        PendingParts(all, out, ch, len, p.tails[at]);
        ScriptAt(p.blk, p.after, p.marks, p.tails, at);
        if full { return; }
        if used == saveNblock + 1 { return; }
        if used > saveNblock + 1 { corrupt := true; return; }
        var r;
        corrupt, r := NextRun(ll16, ll4, cftab, saveNblock, pos, k, used, p.path, p.blk, p.after);
        PendingNext(all, out, ch, p.tails[at], k, r.len, p.tails[at + 1]);
        ch := k;
        len, pos, k, used := r.len, r.tPos, r.k0, r.used;
        at := at + 1;
      }
    }

    /** One call of the expander: it writes the next bytes of the block, as many as fit, and keeps the rest. A block
        that stops right after four equal bytes is reported by the first call that has room beyond its last byte. */
    method Output(availOut: nat) returns (corrupt: bool, out: Block)
      requires Valid()
      modifies this
      ensures Valid() && out == old(rest)[..Min(availOut, |old(rest)|)]
      ensures corrupt <==> Stops() && availOut > |old(rest)|
      ensures rest == old(rest)[|out|..]
      ensures calculatedBlockCRC == Fold(crcStep, old(calculatedBlockCRC), out)
      ensures nblockUsed == saveNblock + 1 && stateOutLen == 0 ==> rest == []
      ensures |out| < availOut && !corrupt ==> nblockUsed == saveNblock + 1 && stateOutLen == 0
    {
      RunningParts(plan, at, tPos, k0, nblockUsed, stateOutCh, stateOutLen, rest);
      ghost var at', was := at, rest;
      var crc, ch, len, used, k, pos;
      corrupt, out, crc, ch, len, used, k, pos, at' :=
        Produce(crcStep, ll16, ll4, cftab, saveNblock, availOut, calculatedBlockCRC, stateOutCh, stateOutLen,
          nblockUsed, k0, tPos, plan, at);
      Paused(plan, at', pos, k, used, ch, len, was, out, availOut);
      calculatedBlockCRC, stateOutCh, stateOutLen, nblockUsed, k0, tPos := crc, ch, len, used, k, pos;
      at, rest := at', was[|out|..];
    }
  }

  // ----- SMALL and FAST agree -----

  /** Going round the reversed cycle is following T^(-1). */
  lemma OrbitLinks(l: Block, inv: seq<int>, orbit: seq<int>, cells: seq<int>, x: int)
    requires IsInverse(l, inv) && |l| <= |cells|
    requires IsChain(Ranks(l), orbit) && orbit[0] == Ranks(l)[orbit[|orbit| - 1]]
    requires forall k :: 1 <= k < |orbit| ==> cells[orbit[k]] == orbit[k - 1]
    requires cells[orbit[0]] == orbit[|orbit| - 1]
    requires x in orbit
    ensures 0 <= x < |l| && cells[x] == inv[x] && cells[x] in orbit
  {
    var k :| 0 <= k < |orbit| && orbit[k] == x;
    var y := orbit[if k == 0 then |orbit| - 1 else k - 1];
    assert Ranks(l)[y] == x;
    InverseOfRank(l, inv, y);
  }

  lemma {:induction false} OrbitFollow(l: Block, inv: seq<int>, orbit: seq<int>, cells: seq<int>, k: nat)
    requires IsInverse(l, inv) && |l| <= |cells|
    requires IsChain(Ranks(l), orbit) && orbit[0] == Ranks(l)[orbit[|orbit| - 1]]
    requires forall k :: 1 <= k < |orbit| ==> cells[orbit[k]] == orbit[k - 1]
    requires cells[orbit[0]] == orbit[|orbit| - 1]
    ensures Follow(inv, orbit[0], k) in orbit
    ensures cells[Follow(inv, orbit[0], k)] == Follow(inv, orbit[0], k + 1)
  {
    if k != 0 {
      OrbitFollow(l, inv, orbit, cells, k - 1);
      OrbitLinks(l, inv, orbit, cells, Follow(inv, orbit[0], k - 1));
    }
    OrbitLinks(l, inv, orbit, cells, Follow(inv, orbit[0], k));
  }

  /** The byte stretch of a sorted position holds the byte the FAST walk reads one link later. */
  lemma SortedByte(l: Block, inv: seq<int>, p: int, c: int)
    requires IsInverse(l, inv) && 0 <= p < |l| && 0 <= c < 256
    requires CountLess(l, c) <= p < CountLess(l, c + 1)
    ensures c == l[inv[p]]
  {
    StretchUnique(l, inv[p], c);
  }

  /** Cell `x` is the `k`-th on the way: its link, its stretch and the byte the FAST walk reads there. */
  lemma SmallStep(l: Block, inv: seq<int>, origPtr: int, cells: seq<int>, cf: seq<int>, orbit: seq<int>, k: nat)
    requires |l| <= |cells| && |cf| == 257 && forall c :: 0 <= c <= 256 ==> cf[c] == CountLess(l, c)
    requires IsInverse(l, inv) && IsChain(Ranks(l), orbit) && orbit[0] == Ranks(l)[orbit[|orbit| - 1]] == origPtr
    requires forall k :: 1 <= k < |orbit| ==> cells[orbit[k]] == orbit[k - 1]
    requires cells[orbit[0]] == orbit[|orbit| - 1]
    ensures var x := Follow(inv, origPtr, k);
      && 0 <= x < |l| && cells[x] == Follow(inv, origPtr, k + 1) && cf[0] <= x < cf[256]
      && forall c: byte :: cf[c] <= x < cf[c as int + 1] ==> c == l[Follow(inv, inv[origPtr], k)]
  {
    var x := Follow(inv, origPtr, k);
    OrbitFollow(l, inv, orbit, cells, k);
    CountLessNone(l, 0);
    CountLessAll(l, 256);
    FollowFirst(inv, origPtr, k);
    forall c: byte | cf[c] <= x < cf[c as int + 1]
      ensures c == l[Follow(inv, inv[origPtr], k)]
    {
      SortedByte(l, inv, x, c);
    }
  }

  lemma SmallSpells(l: Block, inv: seq<int>, origPtr: int, ll16: array<int>, ll4: array<int>, cftab: array<int>,
                    orbit: seq<int>)
    requires ll16.Length <= 2 * ll4.Length && |l| <= ll16.Length && cftab.Length == 257
    requires forall c :: 0 <= c <= 256 ==> cftab[c] == CountLess(l, c)
    requires IsInverse(l, inv) && IsChain(Ranks(l), orbit) && orbit[0] == Ranks(l)[orbit[|orbit| - 1]] == origPtr
    requires forall k :: 1 <= k < |orbit| ==> GetLL(ll16, ll4, orbit[k]) == orbit[k - 1]
    requires GetLL(ll16, ll4, orbit[0]) == orbit[|orbit| - 1]
    ensures Spells(ll16, ll4, cftab, Way(inv, origPtr, |l| + 3), Walk(l, inv, inv[origPtr], |l|),
      FastDecoder.After(l, inv, origPtr))
  {
    var path := Way(inv, origPtr, |l| + 3);
    var cells := Cells(ll16, ll4, ll16.Length);
    var blk, after := Walk(l, inv, inv[origPtr], |l|), FastDecoder.After(l, inv, origPtr);
    forall k | 0 <= k <= |blk| + 1
      ensures StepsTo(ll16, ll4, cftab, path, blk, after, k)
    {
      SmallStep(l, inv, origPtr, cells, cftab[..], orbit, k);
      assert GetLL(ll16, ll4, path[k]) == cells[path[k]];
      if k <= |l| {
        FastDecoder.FetchedAt(l, inv, origPtr, k);
      }
    }
  }

  /** The SMALL tables of a column: T computed, then its cycle through `origPtr` reversed. */
  method PrepareSmall(l: Block, ll16: array<int>, ll4: array<int>, cftab: array<int>, origPtr: int)
    returns (ghost orbit: seq<int>)
    requires ll16 != ll4 && cftab != ll16 && cftab != ll4 && cftab.Length == 257
    requires |l| <= 0x100000 && |l| <= ll16.Length <= 2 * ll4.Length && 0 <= origPtr < |l|
    requires forall c :: 0 <= c <= 256 ==> cftab[c] == CountLess(l, c)
    modifies ll16, ll4
    ensures IsChain(Ranks(l), orbit) && orbit[0] == Ranks(l)[orbit[|orbit| - 1]] == origPtr
    ensures forall k :: 1 <= k < |orbit| ==> GetLL(ll16, ll4, orbit[k]) == orbit[k - 1]
    ensures GetLL(ll16, ll4, orbit[0]) == orbit[|orbit| - 1]
  {
    for i := 0 to |l|
      invariant forall p :: 0 <= p < i ==> ll16[p] == l[p]
    {
      ll16[i] := l[i];
    }
    var cftabCopy := new int[257];
    for i := 0 to 257
      invariant forall c :: 0 <= c < i ==> cftabCopy[c] == cftab[c]
      invariant forall p :: 0 <= p < |l| ==> ll16[p] == l[p]
    {
      cftabCopy[i] := cftab[i];
    }
    ComputeT(l, ll16, ll4, cftabCopy);
    RanksPermutation(l);
    orbit := ReverseCycle(ll16, ll4, origPtr, Ranks(l));
  }

  /** From a last column to a running output, the SMALL branch: for every column and every `origPtr`
      what it will write is exactly what the FAST branch writes. */
  method StartSmall(crcStep: CrcStep, l: Block, unzftab: array<int>, origPtr: int, size: int, ghost inv: seq<int>)
    returns (s: SmallState)
    requires unzftab.Length == 256 && forall c :: 0 <= c < 256 ==> unzftab[c] == Count(l, c)
    requires 0 <= origPtr < |l| <= size <= 0x100000 && IsInverse(l, inv)
    ensures fresh(s) && fresh(s.ll16) && fresh(s.ll4) && fresh(s.cftab) && s.Valid() && s.crcStep == crcStep
    ensures s.rest == Unroll(Walk(l, inv, inv[origPtr], |l|), FastDecoder.After(l, inv, origPtr))
    ensures s.Stops() <==> !Complete(Walk(l, inv, inv[origPtr], |l|))
    ensures s.saveNblock == |l| && s.nblockUsed == 1 && s.calculatedBlockCRC == 0xffffffff
  {
    var cftab := FastDecoder.BuildCftab(l, unzftab);
    var ll16 := new int[size];
    var ll4 := new int[(1 + size) / 2];
    ghost var orbit := PrepareSmall(l, ll16, ll4, cftab, origPtr);
    ghost var path, blk, after := Way(inv, origPtr, |l| + 3), Walk(l, inv, inv[origPtr], |l|),
      FastDecoder.After(l, inv, origPtr);
    SmallSpells(l, inv, origPtr, ll16, ll4, cftab, orbit);
    ghost var marks, tails := FastDecoder.WholeScript(blk, after);
    s := new SmallState(crcStep, ll16, ll4, cftab, |l|, origPtr, Plan(blk, after, path, marks, tails));
  }
}
