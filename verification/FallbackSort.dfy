/** fallbackSort: the exponential radix sort of all rotations of a block. */
module FallbackSort {
  import opened Basics
  import opened Rotations
  import opened InverseBwt
  import opened FallbackQSort

  // ----- Initial radix sort on one character -----

  /** Where the initial pass puts position `i`: buckets are filled from the top down. */
  function Slot(b: Block, i: int): (k: int)
    requires 0 <= i < |b|
  {
    CountLess(b, b[i] as int + 1) - 1 - Count(b[..i], b[i])
  }

  function Slots(b: Block): (s: seq<int>)
    ensures |s| == |b| && forall i :: 0 <= i < |b| ==> s[i] == Slot(b, i)
  {
    seq(|b|, i requires 0 <= i < |b| => Slot(b, i))
  }

  lemma SlotBound(b: Block, i: int)
    requires 0 <= i < |b|
    ensures CountLess(b, b[i]) <= Slot(b, i) < CountLess(b, b[i] as int + 1) <= |b|
  {
    var c := b[i];
    RankBound(b, i);
    CountLessStep(b, c);
    SlotOf(b, i, c);
  }

  lemma SlotOf(b: Block, i: int, c: int)
    requires 0 <= i < |b| && b[i] == c
    ensures 0 <= Count(b[..i], c) < Count(b, c)
  {
    CountPrefixMono(b, i + 1, |b|, c);
    assert b[..|b|] == b && b[..i + 1][..i] == b[..i];
  }

  lemma SlotsDistinct(b: Block, i: int, j: int)
    requires 0 <= i < j < |b|
    ensures Slot(b, i) != Slot(b, j)
  {
    SlotBound(b, i);
    SlotBound(b, j);
    if b[i] < b[j] {
      CountLessMono(b, b[i] as int + 1, b[j]);
    } else if b[j] < b[i] {
      CountLessMono(b, b[j] as int + 1, b[i]);
    } else {
      CountPrefixMono(b, i, j, b[i]);
    }
  }

  lemma SlotsPermutation(b: Block)
    ensures IsPermutation(Slots(b))
  {
    forall i | 0 <= i < |b|
      ensures 0 <= Slots(b)[i] < |b|
    {
      SlotBound(b, i);
    }
    forall i, j | 0 <= i < j < |b|
      ensures Slots(b)[i] != Slots(b)[j]
    {
      SlotsDistinct(b, i, j);
    }
  }

  /** Each position lies in the stretch of its first character. */
  ghost predicate Bucketed(b: Block, fmap: seq<int>)
  {
    && |fmap| == |b| && IsPermutation(fmap)
    && forall p :: 0 <= p < |b| ==> CountLess(b, b[fmap[p]]) <= p < CountLess(b, b[fmap[p]] as int + 1)
  }

  lemma BucketedFromSlots(b: Block, fmap: seq<int>)
    requires |fmap| == |b| && forall i :: 0 <= i < |b| ==> 0 <= Slots(b)[i] < |b| && fmap[Slots(b)[i]] == i
    ensures Bucketed(b, fmap)
  {
    SlotsPermutation(b);
    forall p | 0 <= p < |b|
      ensures 0 <= fmap[p] < |b| && Slots(b)[fmap[p]] == p
      ensures CountLess(b, b[fmap[p]]) <= p < CountLess(b, b[fmap[p]] as int + 1)
    {
      var i := PermutationReaches(Slots(b), p);
      assert fmap[Slots(b)[i]] == i;
      SlotBound(b, i);
    }
    forall p, q | 0 <= p < q < |b|
      ensures fmap[p] != fmap[q]
    {
      assert Slots(b)[fmap[p]] == p && Slots(b)[fmap[q]] == q;
    }
  }

  /** Byte counts (blocksort.c:231-233). */
  method CountBytes(eclass8: array<byte>, nblock: int) returns (ftab: array<int>, ftabCopy: array<int>)
    requires 0 <= nblock <= eclass8.Length
    ensures fresh(ftab) && fresh(ftabCopy) && ftab != ftabCopy && ftab.Length == 257 && ftabCopy.Length == 256
    ensures forall c :: 0 <= c < 256 ==> ftab[c] == Count(eclass8[..nblock], c) && ftabCopy[c] == ftab[c]
    ensures ftab[256] == 0
  {
    ftab := new int[257](_ => 0);
    ghost var b := eclass8[..nblock];
    for i := 0 to nblock
      invariant forall c :: 0 <= c < 256 ==> ftab[c] == Count(b[..i], c)
      invariant ftab[256] == 0
    {
      forall c | 0 <= c < 256
        ensures Count(b[..i + 1], c) == Count(b[..i], c) + if b[i] == c then 1 else 0
      {
        assert b[..i + 1][..i] == b[..i];
      }
      ftab[eclass8[i]] := ftab[eclass8[i]] + 1;
    }
    assert b[..nblock] == b;
    ftabCopy := new int[256];
    for i := 0 to 256
      invariant forall c :: 0 <= c < i ==> ftabCopy[c] == ftab[c]
      invariant forall c :: 0 <= c < 256 ==> ftab[c] == Count(b, c)
      invariant ftab[256] == 0
    {
      ftabCopy[i] := ftab[i];
    }
  }

  /** Running totals: `ftab[c]` becomes the end of bucket `c` (blocksort.c:234). */
  method Accumulate(ghost b: Block, ftab: array<int>)
    requires ftab.Length == 257 && ftab[256] == 0
    requires forall c :: 0 <= c < 256 ==> ftab[c] == Count(b, c)
    modifies ftab
    ensures forall c :: 0 <= c < 256 ==> ftab[c] == CountLess(b, c + 1)
  {
    CountLessStep(b, 0);
    CountLessNone(b, 0);
    for i := 1 to 257
      invariant forall c :: 0 <= c < i && c < 256 ==> ftab[c] == CountLess(b, c + 1)
      invariant forall c :: i <= c < 256 ==> ftab[c] == Count(b, c)
    {
      CountLessStep(b, i);
      ftab[i] := ftab[i] + ftab[i - 1];
    }
  }

  /** Distribute the positions (blocksort.c:236-241); `ftab[c]` ends as the start of bucket `c`. */
  method Distribute(eclass8: array<byte>, ghost b: Block, ftab: array<int>, fmap: array<int>)
    requires ftab != fmap && ftab.Length == 257 && |b| == fmap.Length <= eclass8.Length && eclass8[..|b|] == b
    requires forall c :: 0 <= c < 256 ==> ftab[c] == CountLess(b, c + 1)
    modifies ftab, fmap
    ensures Bucketed(b, fmap[..])
    ensures forall c :: 0 <= c < 256 ==> ftab[c] == CountLess(b, c)
  {
    SlotsPermutation(b);
    ghost var slots := Slots(b);
    for i := 0 to fmap.Length
      invariant forall c :: 0 <= c < 256 ==> ftab[c] == CountLess(b, c + 1) - Count(b[..i], c)
      invariant forall k :: 0 <= k < i ==> fmap[slots[k]] == k
    {
      forall c | 0 <= c < 256
        ensures Count(b[..i + 1], c) == Count(b[..i], c) + if b[i] == c then 1 else 0
      {
        assert b[..i + 1][..i] == b[..i];
      }
      assert eclass8[i] == b[i];
      var j := eclass8[i];
      var k := ftab[j] - 1;
      assert k == slots[i];
      ftab[j] := k;
      fmap[k] := i;
    }
    BucketedFromSlots(b, fmap[..]);
    forall c | 0 <= c < 256
      ensures ftab[c] == CountLess(b, c)
    {
      assert b[..|b|] == b;
      CountLessStep(b, c);
    }
  }

  // ----- Bucket header bits -----

  /** Bit `p` of `bh` starts a bucket: the rotation at `p` differs from the one before on `h` characters. */
  ghost predicate Head(b: Block, fmap: seq<int>, p: int, h: nat)
    requires |b| > 0 && 0 <= p < |fmap| && forall i :: 0 <= i < |fmap| ==> 0 <= fmap[i]
  {
    p == 0 || Cmp(b, fmap[p - 1], fmap[p], h) != 0
  }

  lemma FirstCharacter(b: Block, i: int, j: int)
    requires 0 <= i < |b| && 0 <= j < |b|
    ensures Cmp(b, i, j, 1) == b[i] as int - b[j] as int
  {
    assert At(b, i, 0) == b[i] && At(b, j, 0) == b[j];
    assert Cmp(b, i, j, 0) == 0;
  }

  /** Some bucket below `n` starts at `p`. */
  ghost predicate StartsBucket(b: Block, p: int, n: int)
  {
    exists c :: 0 <= c < n && p == CountLess(b, c)
  }

  lemma StartsBucketStep(b: Block, p: int, n: nat)
    ensures StartsBucket(b, p, n + 1) <==> StartsBucket(b, p, n) || p == CountLess(b, n)
  {
  }

  lemma DifferenceStartsBucket(b: Block, fmap: seq<int>, p: int)
    requires |b| > 0 && Bucketed(b, fmap) && 0 < p < |b| && b[fmap[p - 1]] != b[fmap[p]]
    ensures p == CountLess(b, b[fmap[p]])
  {
    var d, e: int := b[fmap[p - 1]], b[fmap[p]];
    if e < d {
      CountLessMono(b, e + 1, d);
    } else {
      CountLessMono(b, d + 1, e);
    }
  }

  lemma BucketStartsDiffer(b: Block, fmap: seq<int>, p: int, c: int)
    requires |b| > 0 && Bucketed(b, fmap) && 0 < p < |b| && p == CountLess(b, c)
    ensures b[fmap[p - 1]] < c <= b[fmap[p]]
  {
    var d, e: int := b[fmap[p - 1]], b[fmap[p]];
    if c <= d {
      CountLessMono(b, c, d);
    }
    if e < c {
      CountLessMono(b, e + 1, c);
    }
  }

  /** The starts of the buckets are exactly the one-character heads. */
  lemma StartsAreHeads(b: Block, fmap: seq<int>, p: int)
    requires |b| > 0 && Bucketed(b, fmap) && 0 <= p < |b|
    ensures Head(b, fmap, p, 1) <==> StartsBucket(b, p, 256)
  {
    if p == 0 {
      CountLessNone(b, 0);
      assert p == CountLess(b, 0);
    } else {
      FirstCharacter(b, fmap[p - 1], fmap[p]);
      if b[fmap[p - 1]] != b[fmap[p]] {
        DifferenceStartsBucket(b, fmap, p);
      }
      if StartsBucket(b, p, 256) {
        var c :| 0 <= c < 256 && p == CountLess(b, c);
        BucketStartsDiffer(b, fmap, p, c);
      }
    }
  }

  lemma BucketedOrdered(b: Block, fmap: seq<int>, p: int, q: int)
    requires |b| > 0 && Bucketed(b, fmap) && 0 <= p < q < |b|
    ensures Cmp(b, fmap[p], fmap[q], 1) <= 0
  {
    var d, e: int := b[fmap[p]], b[fmap[q]];
    FirstCharacter(b, fmap[p], fmap[q]);
    if e < d {
      CountLessMono(b, e + 1, d);
    }
  }

  /** WORD_BH(k) compared with all ones or all zeros. */
  predicate WordIs(bh: array<bool>, k: int, v: bool)
    requires 0 <= k && (k / 32) * 32 + 32 <= bh.Length
    reads bh
  {
    forall t :: (k / 32) * 32 <= t < (k / 32) * 32 + 32 ==> bh[t] == v
  }

  /** Clear the table, mark the bucket starts, and plant the sentinel (blocksort.c:243-257). */
  method InitHeaders(ghost b: Block, ftab: array<int>, bh: array<bool>, nblock: int)
    requires nblock == |b| && ftab.Length == 257 && forall c :: 0 <= c < 256 ==> ftab[c] == CountLess(b, c)
    requires bh.Length >= 32 * (|b| / 32 + 3)
    modifies bh
    ensures forall p :: 0 <= p < |b| ==> (bh[p] <==> StartsBucket(b, p, 256))
    ensures bh[|b|] && !bh[|b| + 1]
  {
    var nBhtab := 2 + nblock / 32;
    for i := 0 to 32 * nBhtab
      invariant forall p :: 0 <= p < i ==> !bh[p]
    {
      bh[i] := false;
    }
    for i := 0 to 256
      invariant forall p :: 0 <= p < nblock ==> (bh[p] <==> StartsBucket(b, p, i))
    {
      bh[ftab[i]] := true;
      forall p | 0 <= p < nblock
        ensures StartsBucket(b, p, i + 1) <==> StartsBucket(b, p, i) || p == CountLess(b, i)
      {
        StartsBucketStep(b, p, i);
      }
    }
    ghost var heads := bh[..nblock];
    for i := 0 to 32
      invariant bh[..nblock] == heads
      invariant i > 0 ==> bh[nblock] && !bh[nblock + 1]
    {
      bh[nblock + 2 * i] := true;
      bh[nblock + 2 * i + 1] := false;
    }
    forall p | 0 <= p < nblock
      ensures bh[p] == heads[p]
    {
      assert bh[..nblock][p] == heads[p];
    }
  }

  /** First position from `k0` on whose bit is not `v`, skipping whole words (blocksort.c:278-283, 286-290).
      The caller knows such a position exists at or before `stop`. */
  method SkipBits(bh: array<bool>, k0: int, v: bool, ghost stop: int) returns (k: int)
    requires 0 <= k0 <= stop && (stop / 32) * 32 + 32 <= bh.Length && bh[stop] != v
    ensures k0 <= k <= stop && bh[k] != v
    ensures forall p :: k0 <= p < k ==> bh[p] == v
  {
    k := k0;
    while bh[k] == v && k % 32 != 0
      invariant k0 <= k <= stop && forall p :: k0 <= p < k ==> bh[p] == v
      decreases stop - k
    {
      k := k + 1;
    }
    if bh[k] == v {
      while WordIs(bh, k, v)
        invariant k0 <= k <= stop && k % 32 == 0 && forall p :: k0 <= p < k ==> bh[p] == v
        decreases stop - k
      {
        assert (stop / 32) * 32 <= stop < (stop / 32) * 32 + 32;
        k := k + 32;
      }
      while bh[k] == v
        invariant k0 <= k <= stop && forall p :: k0 <= p < k ==> bh[p] == v
        decreases stop - k
      {
        k := k + 1;
      }
    }
  }

  // ----- One refinement level -----

  ghost predicate Ordered(b: Block, fm: seq<int>, h: nat)
    requires |b| > 0 && forall i :: 0 <= i < |fm| ==> 0 <= fm[i]
  {
    forall p, q :: 0 <= p < q < |fm| ==> Cmp(b, fm[p], fm[q], h) <= 0
  }

  /** Buckets are exactly the classes of rotations equal on `h` characters, in order. */
  ghost predicate Refined(b: Block, fm: seq<int>, bits: seq<bool>, h: nat)
  {
    && 0 < |b| == |fm| && IsPermutation(fm)
    && |b| + 2 <= |bits| && bits[|b|] && !bits[|b| + 1]
    && Ordered(b, fm, h)
    && forall p :: 0 <= p < |b| ==> (bits[p] <==> Head(b, fm, p, h))
  }

  /** The start of the bucket of position `i`. */
  ghost function HeadOf(bits: seq<bool>, i: int): (p: int)
    requires 0 <= i < |bits| && bits[0]
    ensures 0 <= p <= i && bits[p]
  {
    if bits[i] then i else HeadOf(bits, i - 1)
  }

  lemma {:induction false} CmpSelf(b: Block, i: nat, h: nat)
    requires |b| > 0
    ensures Cmp(b, i, i, h) == 0
  {
    if h != 0 {
      CmpSelf(b, i, h - 1);
    }
  }

  lemma {:induction false} HeadsOrder(b: Block, fm: seq<int>, bits: seq<bool>, h: nat, i: int, j: int)
    requires Refined(b, fm, bits, h) && 0 <= i <= j < |b|
    ensures HeadOf(bits, i) <= HeadOf(bits, j)
    ensures HeadOf(bits, i) == HeadOf(bits, j) <==> Cmp(b, fm[i], fm[j], h) == 0
    ensures HeadOf(bits, i) < HeadOf(bits, j) <==> Cmp(b, fm[i], fm[j], h) < 0
    decreases j
  {
    if i == j {
      CmpSelf(b, fm[i], h);
    } else {
      HeadsOrder(b, fm, bits, h, i, j - 1);
      assert Cmp(b, fm[j - 1], fm[j], h) <= 0;
      assert bits[j] <==> Head(b, fm, j, h);
      CmpTrans(b, fm[i], fm[j - 1], fm[j], h);
    }
  }

  /** `fm[i] - h`, wrapped. */
  function Back(x: int, h: int, n: int): (y: int) { if x - h < 0 then x - h + n else x - h }

  /** Class numbers order positions by the `h` characters after the first `h`. */
  ghost predicate KeyPair(b: Block, ec: seq<int>, h: nat, x: int, y: int)
    requires 0 <= x < |ec| && 0 <= y < |ec| && |b| > 0
  {
    && (ec[x] == ec[y] <==> Cmp(b, x + h, y + h, h) == 0)
    && (ec[x] < ec[y] <==> Cmp(b, x + h, y + h, h) < 0)
  }

  ghost predicate Keys(b: Block, ec: seq<int>, h: nat)
  {
    && 0 < |b| == |ec|
    && (forall x :: 0 <= x < |b| ==> 0 <= ec[x] < |b|)
    && (forall x, y :: 0 <= x < |b| && 0 <= y < |b| ==> KeyPair(b, ec, h, x, y))
  }

  ghost predicate FromHead(fm: seq<int>, bits: seq<bool>, ec: seq<int>, h: int, i: int)
    requires 0 <= i < |fm| <= |bits| && bits[0]
  {
    var k := Back(fm[i], h, |fm|);
    0 <= k < |ec| && ec[k] == HeadOf(bits, i)
  }

  lemma KeyPairFrom(b: Block, fm: seq<int>, bits: seq<bool>, ec: seq<int>, h: nat, x: int, y: int)
    requires Refined(b, fm, bits, h) && h <= |b| == |ec| && bits[0]
    requires forall i :: 0 <= i < |b| ==> FromHead(fm, bits, ec, h, i)
    requires 0 <= x < |b| && 0 <= y < |b|
    ensures KeyPair(b, ec, h, x, y) && 0 <= ec[x] < |b|
  {
    var n := |b|;
    var x', y' := if x + h < n then x + h else x + h - n, if y + h < n then y + h else y + h - n;
    var i := PermutationReaches(fm, x');
    var j := PermutationReaches(fm, y');
    assert FromHead(fm, bits, ec, h, i) && FromHead(fm, bits, ec, h, j);
    assert Cmp(b, x', y', h) == Cmp(b, x + h, y + h, h) by {
      CmpLap(b, x', y', h);
    }
    if i <= j {
      HeadsOrder(b, fm, bits, h, i, j);
    } else {
      HeadsOrder(b, fm, bits, h, j, i);
      CmpFlip(b, x', y', h);
    }
  }

  lemma KeysFrom(b: Block, fm: seq<int>, bits: seq<bool>, ec: seq<int>, h: nat)
    requires Refined(b, fm, bits, h) && h <= |b| == |ec| && bits[0]
    requires forall i :: 0 <= i < |b| ==> FromHead(fm, bits, ec, h, i)
    ensures Keys(b, ec, h)
  {
    forall x, y | 0 <= x < |b| && 0 <= y < |b|
      ensures KeyPair(b, ec, h, x, y) && 0 <= ec[x] < |b|
    {
      KeyPairFrom(b, fm, bits, ec, h, x, y);
    }
    forall x | 0 <= x < |b|
      ensures 0 <= ec[x] < |b|
    {
      KeyPairFrom(b, fm, bits, ec, h, x, x);
    }
  }

  lemma ClassStep(fm: seq<int>, bits: seq<bool>, ec: seq<int>, h: int, i: int)
    requires IsPermutation(fm) && 1 <= h <= |fm| == |ec| && 0 <= i < |fm| <= |bits| && bits[0]
    requires forall t :: 0 <= t < i ==> FromHead(fm, bits, ec, h, t)
    ensures var k := Back(fm[i], h, |fm|);
      0 <= k < |ec| && (var ec' := ec[k := HeadOf(bits, i)]; forall t :: 0 <= t <= i ==> FromHead(fm, bits, ec', h, t))
  {
    var k := Back(fm[i], h, |fm|);
    var ec' := ec[k := HeadOf(bits, i)];
    forall t | 0 <= t <= i
      ensures FromHead(fm, bits, ec', h, t)
    {
      if t < i {
        assert fm[t] != fm[i];
        assert FromHead(fm, bits, ec, h, t);
      }
    }
  }

  /** Number the buckets by their start, for the position `h` characters earlier (blocksort.c:266-271). */
  method ComputeClasses(ghost b: Block, fmap: array<int>, eclass: array<int>, bh: array<bool>, h: int)
    requires fmap != eclass && 1 <= h <= |b| == fmap.Length == eclass.Length
    requires Refined(b, fmap[..], bh[..], h)
    modifies eclass
    ensures Keys(b, eclass[..], h)
  {
    ghost var fm, bits := fmap[..], bh[..];
    assert bits[0] <==> Head(b, fm, 0, h);
    var j := 0;
    for i := 0 to fmap.Length
      invariant i > 0 ==> j == HeadOf(bits, i - 1)
      invariant fmap[..] == fm
      invariant forall t :: 0 <= t < i ==> FromHead(fm, bits, eclass[..], h, t)
    {
      if bh[i] { j := i; }
      var k := fmap[i] - h;
      if k < 0 { k := k + fmap.Length; }
      ghost var was := eclass[..];
      ClassStep(fm, bits, was, h, i);
      eclass[k] := j;
      assert eclass[..] == was[k := HeadOf(bits, i)];
    }
    KeysFrom(b, fm, bits, eclass[..], h);
  }

  // ----- Sorting the buckets one level deeper -----

  /** Part way through a pass: buckets up to position `r` are refined to `2h`, the rest still to `h`. */
  ghost predicate Passing(b: Block, fm: seq<int>, bits: seq<bool>, bits0: seq<bool>, h: nat, r: int)
  {
    && Refined(b, fm, bits0, h)
    && |bits| == |bits0| && -1 <= r < |b| && bits0[r + 1]
    && (forall p :: r < p < |bits| ==> bits[p] == bits0[p])
    && (forall p :: 0 <= p <= r ==> (bits[p] <==> Head(b, fm, p, h + h)))
    && (forall p, q :: 0 <= p < q <= r ==> Cmp(b, fm[p], fm[q], h + h) <= 0)
  }

  lemma {:induction false} CmpCongruent(b: Block, x: nat, x': nat, y: nat, y': nat, h: nat)
    requires |b| > 0 && Cmp(b, x, x', h) == 0 && Cmp(b, y, y', h) == 0
    ensures Cmp(b, x, y, h) == Cmp(b, x', y', h)
  {
    if h != 0 {
      CmpCongruent(b, x, x', y, y', h - 1);
    }
  }

  /** Deciding within `h` characters decides within `2h`. */
  lemma CmpDeeper(b: Block, x: nat, y: nat, h: nat)
    requires |b| > 0 && Cmp(b, x, y, h) != 0
    ensures Cmp(b, x, y, h + h) == Cmp(b, x, y, h)
  {
    CmpSplit(b, x, y, h, h);
  }

  /** A head strictly separates what is before it from what is not. */
  lemma AcrossHead(b: Block, fm: seq<int>, bits: seq<bool>, h: nat, p: int, m: int, q: int)
    requires Refined(b, fm, bits, h) && 0 <= p < m <= q < |b| && bits[m]
    ensures Cmp(b, fm[p], fm[q], h) < 0 && Cmp(b, fm[p], fm[q], h + h) < 0
  {
    assert Head(b, fm, m, h);
    assert Cmp(b, fm[m - 1], fm[m], h) < 0;
    CmpSelf(b, fm[m], h);
    CmpTrans(b, fm[m - 1], fm[m], fm[q], h);
    CmpSelf(b, fm[m - 1], h);
    CmpTrans(b, fm[p], fm[m - 1], fm[q], h);
    CmpDeeper(b, fm[p], fm[q], h);
  }

  /** All rotations of one bucket agree on `h` characters. */
  lemma OneBucket(b: Block, fm: seq<int>, bits: seq<bool>, h: nat, l: int, r: int, p: int, q: int)
    requires Refined(b, fm, bits, h) && 0 <= l <= p <= r < |b| && l <= q <= r
    requires forall k :: l < k <= r ==> !bits[k]
    ensures Cmp(b, fm[p], fm[q], h) == 0
    decreases p + q, p
  {
    if p == q {
      CmpSelf(b, fm[p], h);
    } else if p < q {
      OneBucket(b, fm, bits, h, l, r, p, q - 1);
      assert !Head(b, fm, q, h);
      CmpTrans(b, fm[p], fm[q - 1], fm[q], h);
    } else {
      OneBucket(b, fm, bits, h, l, r, q, p);
      CmpFlip(b, fm[q], fm[p], h);
    }
  }

  /** Rearranging one bucket changes no comparison on `h` characters. */
  lemma ShuffleKeepsLevel(b: Block, fm: seq<int>, fm': seq<int>, bits: seq<bool>, h: nat, l: int, r: int, p: int,
                          q: int)
    requires Refined(b, fm, bits, h) && 0 <= l <= r < |b| && Shuffled(fm, fm', l, r + 1)
    requires forall k :: l < k <= r ==> !bits[k]
    requires 0 <= p < |b| && 0 <= q < |b| && 0 <= fm'[p] && 0 <= fm'[q]
    ensures Cmp(b, fm'[p], fm'[q], h) == Cmp(b, fm[p], fm[q], h)
  {
    SameClass(b, fm, fm', bits, h, l, r, p);
    SameClass(b, fm, fm', bits, h, l, r, q);
    CmpCongruent(b, fm'[p], fm[p], fm'[q], fm[q], h);
  }

  lemma SameClass(b: Block, fm: seq<int>, fm': seq<int>, bits: seq<bool>, h: nat, l: int, r: int, p: int)
    requires Refined(b, fm, bits, h) && 0 <= l <= r < |b| && Shuffled(fm, fm', l, r + 1)
    requires forall k :: l < k <= r ==> !bits[k]
    requires 0 <= p < |b| && 0 <= fm'[p]
    ensures Cmp(b, fm'[p], fm[p], h) == 0
  {
    if l <= p <= r {
      var p' := ShuffledSource(fm, fm', l, r + 1, p);
      OneBucket(b, fm, bits, h, l, r, p', p);
    } else {
      ShuffledOutside(fm, fm', l, r + 1);
      CmpSelf(b, fm[p], h);
    }
  }

  lemma ShuffledPermutation(fm: seq<int>, fm': seq<int>, l: int, r: int)
    requires IsPermutation(fm) && Shuffled(fm, fm', l, r)
    ensures IsPermutation(fm') && |fm'| == |fm|
  {
    assert OpenedShuffle(0);
    PermutationMultiset(fm);
    MultisetPermutation(fm', |fm|);
  }

  lemma ShuffleKeepsRefined(b: Block, fm: seq<int>, fm': seq<int>, bits: seq<bool>, h: nat, l: int, r: int)
    requires Refined(b, fm, bits, h) && 0 <= l <= r < |b| && Shuffled(fm, fm', l, r + 1)
    requires forall k :: l < k <= r ==> !bits[k]
    ensures Refined(b, fm', bits, h)
  {
    ShuffledPermutation(fm, fm', l, r + 1);
    forall p, q | 0 <= p < q < |b|
      ensures Cmp(b, fm'[p], fm'[q], h) <= 0
    {
      ShuffleKeepsLevel(b, fm, fm', bits, h, l, r, p, q);
    }
    forall p | 0 <= p < |b|
      ensures bits[p] <==> Head(b, fm', p, h)
    {
      assert bits[p] <==> Head(b, fm, p, h);
      if p > 0 {
        ShuffleKeepsLevel(b, fm, fm', bits, h, l, r, p - 1, p);
      }
    }
  }

  /** Within a bucket, class numbers decide on `2h` characters. */
  lemma KeyDecides(b: Block, ec: seq<int>, h: nat, x: int, y: int)
    requires Keys(b, ec, h) && 0 <= x < |b| && 0 <= y < |b| && Cmp(b, x, y, h) == 0
    ensures Cmp(b, x, y, h + h) == 0 <==> ec[x] == ec[y]
    ensures Cmp(b, x, y, h + h) < 0 <==> ec[x] < ec[y]
  {
    CmpSplit(b, x, y, h, h);
    assert KeyPair(b, ec, h, x, y);
  }

  /** In a bucket that starts at `l`, a new class starts at `p`. */
  ghost predicate ClassStart(fm: seq<int>, ec: seq<int>, l: int, p: int)
    requires InRange(fm, ec) && 0 <= l <= p < |fm|
  {
    p == l || ec[fm[p - 1]] != ec[fm[p]]
  }

  /** The next bucket `[l, r']` has been sorted by class; `bits'` marks where the class changes. */
  ghost predicate NextBucket(b: Block, fm: seq<int>, fm': seq<int>, bits: seq<bool>, bits': seq<bool>,
                             bits0: seq<bool>, ec: seq<int>, h: nat, r: int, l: int, r': int)
  {
    && Passing(b, fm, bits, bits0, h, r) && Keys(b, ec, h)
    && r < l < r' < |b| && |bits'| == |bits| && bits0[r' + 1]
    && (forall p :: r < p <= l ==> bits0[p]) && (forall p :: l < p <= r' ==> !bits0[p])
    && Shuffled(fm, fm', l, r' + 1) && InRange(fm', ec) && SortedBy(fm', ec, l, r' + 1)
    && (forall p :: l <= p <= r' ==> (bits'[p] <==> ClassStart(fm', ec, l, p)))
    && (forall p :: 0 <= p < |bits| && !(l <= p <= r') ==> bits'[p] == bits[p])
  }

  lemma NextBucketPair(b: Block, fm: seq<int>, fm': seq<int>, bits: seq<bool>, bits': seq<bool>,
                       bits0: seq<bool>, ec: seq<int>, h: nat, r: int, l: int, r': int, p: int, q: int)
    requires NextBucket(b, fm, fm', bits, bits', bits0, ec, h, r, l, r') && Refined(b, fm', bits0, h)
    requires 0 <= p < q <= r'
    ensures Cmp(b, fm'[p], fm'[q], h + h) <= 0
  {
    ShuffledOutside(fm, fm', l, r' + 1);
    if q <= r {
      assert Cmp(b, fm[p], fm[q], h + h) <= 0;
    } else if q < l {
      AcrossHead(b, fm', bits0, h, p, q, q);
    } else if p < l {
      AcrossHead(b, fm', bits0, h, p, l, q);
    } else {
      OneBucket(b, fm', bits0, h, l, r', p, q);
      KeyDecides(b, ec, h, fm'[p], fm'[q]);
    }
  }

  lemma NextBucketHead(b: Block, fm: seq<int>, fm': seq<int>, bits: seq<bool>, bits': seq<bool>,
                       bits0: seq<bool>, ec: seq<int>, h: nat, r: int, l: int, r': int, p: int)
    requires NextBucket(b, fm, fm', bits, bits', bits0, ec, h, r, l, r') && Refined(b, fm', bits0, h)
    requires 0 <= p <= r'
    ensures bits'[p] <==> Head(b, fm', p, h + h)
  {
    ShuffledOutside(fm, fm', l, r' + 1);
    if p <= r {
      assert bits[p] <==> Head(b, fm, p, h + h);
    } else if p <= l {
      assert Head(b, fm', p, h);
      if p > 0 {
        CmpDeeper(b, fm'[p - 1], fm'[p], h);
      }
    } else {
      OneBucket(b, fm', bits0, h, l, r', p - 1, p);
      KeyDecides(b, ec, h, fm'[p - 1], fm'[p]);
    }
  }

  lemma PassingStep(b: Block, fm: seq<int>, fm': seq<int>, bits: seq<bool>, bits': seq<bool>,
                    bits0: seq<bool>, ec: seq<int>, h: nat, r: int, l: int, r': int)
    requires NextBucket(b, fm, fm', bits, bits', bits0, ec, h, r, l, r')
    ensures Passing(b, fm', bits', bits0, h, r')
  {
    ShuffleKeepsRefined(b, fm, fm', bits0, h, l, r');
    forall p, q | 0 <= p < q <= r'
      ensures Cmp(b, fm'[p], fm'[q], h + h) <= 0
    {
      NextBucketPair(b, fm, fm', bits, bits', bits0, ec, h, r, l, r', p, q);
    }
    forall p | 0 <= p <= r'
      ensures bits'[p] <==> Head(b, fm', p, h + h)
    {
      NextBucketHead(b, fm, fm', bits, bits', bits0, ec, h, r, l, r', p);
    }
  }

  /** No bucket is left: only singletons follow, and the whole level is done. */
  lemma PassingDone(b: Block, fm: seq<int>, bits: seq<bool>, bits0: seq<bool>, h: nat, r: int)
    requires Passing(b, fm, bits, bits0, h, r)
    requires forall p :: r < p < |b| ==> bits0[p]
    ensures Refined(b, fm, bits, h + h)
  {
    assert bits[|b|] == bits0[|b|] && bits[|b| + 1] == bits0[|b| + 1];
    forall p, q | 0 <= p < q < |b|
      ensures Cmp(b, fm[p], fm[q], h + h) <= 0
    {
      if q > r {
        AcrossHead(b, fm, bits0, h, p, q, q);
      }
    }
    forall p | 0 <= p < |b|
      ensures bits[p] <==> Head(b, fm, p, h + h)
    {
      if p > r && p > 0 {
        AcrossHead(b, fm, bits0, h, p - 1, p, p);
      }
    }
  }

  /** Mark where the class changes in a sorted bucket (blocksort.c:299-304). */
  method MarkHeaders(fmap: array<int>, eclass: array<int>, bh: array<bool>, l: int, r: int)
    requires fmap != eclass && 0 <= l < r < fmap.Length < bh.Length
    requires InRange(fmap[..], eclass[..]) && forall x :: 0 <= x < eclass.Length ==> eclass[x] >= 0
    requires forall p :: l < p <= r ==> !bh[p]
    modifies bh
    ensures forall p :: l <= p <= r ==> (bh[p] <==> ClassStart(fmap[..], eclass[..], l, p))
    ensures forall p :: 0 <= p < bh.Length && !(l <= p <= r) ==> bh[p] == old(bh[p])
  {
    ghost var fm, ec := fmap[..], eclass[..];
    var cc := -1;
    for i := l to r + 1
      invariant cc == if i > l then ec[fm[i - 1]] else -1
      invariant forall p :: l <= p < i ==> (bh[p] <==> ClassStart(fm, ec, l, p))
      invariant forall p :: i <= p <= r && l < p ==> !bh[p]
      invariant forall p :: 0 <= p < bh.Length && !(l <= p <= r) ==> bh[p] == old(bh[p])
    {
      var cc1 := eclass[fmap[i]];
      if cc != cc1 {
        bh[i] := true;
        cc := cc1;
      }
    }
  }

  /** Sort one bucket and mark its new headers (blocksort.c:294-305). */
  method SortBucket(ghost b: Block, fmap: array<int>, eclass: array<int>, bh: array<bool>,
                    ghost bits0: seq<bool>, ghost h: nat, ghost r: int, l: int, r': int)
    requires fmap != eclass && |b| <= 900000 && |b| == fmap.Length == eclass.Length
    requires Passing(b, fmap[..], bh[..], bits0, h, r) && Keys(b, eclass[..], h)
    requires r < l < r' < |b| && bits0[r' + 1]
    requires (forall p :: r < p <= l ==> bits0[p]) && (forall p :: l < p <= r' ==> !bits0[p])
    modifies fmap, bh
    ensures Passing(b, fmap[..], bh[..], bits0, h, r')
  {
    ghost var fm, bits, ec := fmap[..], bh[..], eclass[..];
    QSort3(fmap, eclass, l, r');
    ghost var fm' := fmap[..];
    forall p | l < p <= r'
      ensures !bh[p]
    {
      assert bits[p] == bits0[p];
    }
    MarkHeaders(fmap, eclass, bh, l, r');
    ghost var bits' := bh[..];
    forall p | 0 <= p < |bits| && !(l <= p <= r')
      ensures bits'[p] == bits[p]
    {
      assert bits'[p] == bh[p];
    }
    assert fmap[..] == fm' && eclass[..] == ec;
    PassingStep(b, fm, fm', bits, bits', bits0, ec, h, r, l, r');
  }

  /** One pass over all buckets (blocksort.c:273-306). */
  method RefinePass(ghost b: Block, fmap: array<int>, eclass: array<int>, bh: array<bool>, ghost h: nat)
    returns (nNotDone: int)
    requires fmap != eclass && |b| <= 900000 && |b| == fmap.Length == eclass.Length
    requires bh.Length >= 32 * (|b| / 32 + 3)
    requires Refined(b, fmap[..], bh[..], h) && Keys(b, eclass[..], h)
    modifies fmap, bh
    ensures Refined(b, fmap[..], bh[..], h + h)
    ensures nNotDone == 0 ==> forall p :: 0 <= p < |b| ==> bh[p]
  {
    var nblock := fmap.Length;
    ghost var bits0, ec := bh[..], eclass[..];
    assert bits0[0] <==> Head(b, fmap[..], 0, h);
    nNotDone := 0;
    var r := -1;
    while true
      invariant Passing(b, fmap[..], bh[..], bits0, h, r) && eclass[..] == ec
      invariant nNotDone >= 0 && (nNotDone == 0 ==> r == -1)
      decreases nblock - r
    {
      var k := FindClear(b, bh, bits0, h, r, fmap[..]);
      var l := k - 1;
      if l >= nblock { break; }
      k := FindSet(b, bh, bits0, h, r, k, fmap[..]);
      var r' := k - 1;
      if r' >= nblock { break; }
      if r' > l {
        nNotDone := nNotDone + (r' - l + 1);
        SortBucket(b, fmap, eclass, bh, bits0, h, r, l, r');
      }
      r := r';
    }
    PassingDone(b, fmap[..], bh[..], bits0, h, r);
    if nNotDone == 0 {
      forall p | 0 <= p < |b|
        ensures bh[p]
      {
        assert bh[..][p] == bits0[p];
      }
    }
  }

  /** The first clear bit after `r`: everything up to it starts a bucket. */
  method FindClear(ghost b: Block, bh: array<bool>, ghost bits0: seq<bool>, ghost h: nat, r: int, ghost fm: seq<int>)
    returns (k: int)
    requires bh.Length >= 32 * (|b| / 32 + 3) && Passing(b, fm, bh[..], bits0, h, r)
    ensures r + 1 < k <= |b| + 1 && !bits0[k]
    ensures forall p :: r < p < k ==> bits0[p]
  {
    ghost var bits := bh[..];
    assert bits[|b| + 1] == bits0[|b| + 1] && bits[r + 1] == bits0[r + 1];
    assert ((|b| + 1) / 32) * 32 + 32 <= bh.Length;
    k := SkipBits(bh, r + 1, true, |b| + 1);
    forall p | r < p <= k
      ensures bits0[p] == bh[p]
    {
      assert bits[p] == bits0[p];
    }
  }

  /** The next set bit: the end of the bucket that starts just before `k0`. */
  method FindSet(ghost b: Block, bh: array<bool>, ghost bits0: seq<bool>, ghost h: nat, ghost r: int, k0: int,
                 ghost fm: seq<int>)
    returns (k: int)
    requires bh.Length >= 32 * (|b| / 32 + 3) && Passing(b, fm, bh[..], bits0, h, r)
    requires r < k0 <= |b| && !bits0[k0]
    ensures k0 < k <= |b| && bits0[k]
    ensures forall p :: k0 <= p < k ==> !bits0[p]
  {
    ghost var bits := bh[..];
    assert bits[|b|] == bits0[|b|] && bits[k0] == bits0[k0];
    assert (|b| / 32) * 32 + 32 <= bh.Length;
    k := SkipBits(bh, k0, false, |b|);
    forall p | k0 <= p <= k
      ensures bits0[p] == bh[p]
    {
      assert bits[p] == bits0[p];
    }
  }

  // ----- The whole sort -----

  lemma StartRefined(b: Block, fm: seq<int>, bits: seq<bool>)
    requires 0 < |b| && Bucketed(b, fm) && |b| + 2 <= |bits| && bits[|b|] && !bits[|b| + 1]
    requires forall p :: 0 <= p < |b| ==> (bits[p] <==> StartsBucket(b, p, 256))
    ensures Refined(b, fm, bits, 1)
  {
    forall p, q | 0 <= p < q < |b|
      ensures Cmp(b, fm[p], fm[q], 1) <= 0
    {
      BucketedOrdered(b, fm, p, q);
    }
    forall p | 0 <= p < |b|
      ensures bits[p] <==> Head(b, fm, p, 1)
    {
      StartsAreHeads(b, fm, p);
    }
  }

  /** Deep enough, or no two rotations left equal: the order is the full rotation order. */
  lemma FinalOrder(b: Block, fm: seq<int>, bits: seq<bool>, h: nat)
    requires Refined(b, fm, bits, h) && (h > |b| || forall p :: 0 <= p < |b| ==> bits[p])
    ensures IsSortedOrder(b, fm)
  {
    var n := |b|;
    forall p, q | 0 <= p < q < n
      ensures NotAfter(b, fm[p], fm[q], n)
    {
      if h > n {
        CmpSplit(b, fm[p], fm[q], n, h - n);
      } else {
        AcrossHead(b, fm, bits, h, p, q, q);
        CmpSplit(b, fm[p], fm[q], h, n - h);
      }
      CmpMeaning(b, fm[p], fm[q], n);
    }
  }

  lemma {:induction false} CountIsMultiplicity(s: Block, c: byte)
    ensures Count(s, c) == multiset(s)[c]
  {
    if s != [] {
      CountIsMultiplicity(s[..|s| - 1], c);
      assert s == s[..|s| - 1] + [s[|s| - 1]];
    }
  }

  lemma CountSelected(b: Block, fm: seq<int>, c: byte)
    requires IsPermutation(fm) && |fm| == |b|
    ensures Count(Select(b, fm), c) == Count(b, c)
  {
    SelectPermutation(b, fm);
    CountIsMultiplicity(Select(b, fm), c);
    CountIsMultiplicity(b, c);
  }

  lemma {:induction false} NoneAfter(s: Block, i: int, j: int, c: int)
    requires 0 <= i <= j <= |s| && forall p :: i <= p < j ==> s[p] != c
    ensures Count(s[..j], c) == Count(s[..i], c)
    decreases j
  {
    if i < j {
      NoneAfter(s, i, j - 1, c);
      assert s[..j][..j - 1] == s[..j - 1];
    }
  }

  /** The smallest byte still counted is the next one in sorted order. */
  lemma NextByte(s: Block, i: int, c: int)
    requires 0 <= i < |s| && forall p, q :: 0 <= p < q < |s| ==> s[p] <= s[q]
    ensures Count(s[..i], s[i]) < Count(s, s[i])
    ensures c < s[i] ==> Count(s[..i], c) == Count(s, c)
  {
    assert s[..|s|] == s;
    CountPrefixMono(s, i, |s|, s[i]);
    if c < s[i] {
      NoneAfter(s, i, |s|, c);
    }
  }

  /** `counts[c]` is how often `c` still occurs from position `i` on. */
  ghost predicate Remaining(s: Block, counts: seq<int>, i: int)
    requires 0 <= i <= |s|
  {
    |counts| == 256 && forall c :: 0 <= c < 256 ==> counts[c] == Count(s, c) - Count(s[..i], c)
  }

  lemma RemainingStep(s: Block, counts: seq<int>, i: int)
    requires 0 <= i < |s| && Remaining(s, counts, i)
    ensures Remaining(s, counts[s[i] := counts[s[i]] - 1], i + 1)
  {
    forall c | 0 <= c < 256
      ensures Count(s[..i + 1], c) == Count(s[..i], c) + if s[i] == c then 1 else 0
    {
      assert s[..i + 1][..i] == s[..i];
    }
  }

  method NextCounted(counts: array<int>, j0: int, ghost s: Block, ghost i: int) returns (j: int)
    requires counts.Length == 256 && 0 <= i < |s| && Remaining(s, counts[..], i) && 0 <= j0 <= s[i]
    requires forall p, q :: 0 <= p < q < |s| ==> s[p] <= s[q]
    ensures j == s[i]
  {
    j := j0;
    while counts[j] == 0
      invariant 0 <= j <= s[i]
      decreases 256 - j
    {
      NextByte(s, i, j);
      assert counts[..][j] == Count(s, j) - Count(s[..i], j);
      j := j + 1;
    }
    NextByte(s, i, j);
    assert counts[..][j] == Count(s, j) - Count(s[..i], j);
  }

  /** Write the block back from the counts and the sorted order (blocksort.c:322-328). */
  method Reconstruct(eclass8: array<byte>, fmap: array<int>, ftabCopy: array<int>, ghost b: Block)
    requires ftabCopy != fmap && |b| == fmap.Length <= eclass8.Length && ftabCopy.Length == 256
    requires IsPermutation(fmap[..]) && forall c :: 0 <= c < 256 ==> ftabCopy[c] == Count(b, c)
    requires forall p, q :: 0 <= p < q < |b| ==> b[fmap[p]] <= b[fmap[q]]
    modifies eclass8, ftabCopy
    ensures eclass8[..fmap.Length] == b
  {
    ghost var fm := fmap[..];
    ghost var s := Select(b, fm);
    forall c | 0 <= c < 256
      ensures ftabCopy[c] == Count(s, c)
    {
      CountSelected(b, fm, c);
    }
    var j := 0;
    for i := 0 to fmap.Length
      invariant 0 <= j < 256 && (i < fmap.Length ==> j <= s[i])
      invariant Remaining(s, ftabCopy[..], i)
      invariant forall k :: 0 <= k < i ==> eclass8[fm[k]] == b[fm[k]]
      invariant fmap[..] == fm
    {
      j := NextCounted(ftabCopy, j, s, i);
      RemainingStep(s, ftabCopy[..], i);
      ftabCopy[j] := ftabCopy[j] - 1;
      eclass8[fmap[i]] := j;
    }
    forall x | 0 <= x < |b|
      ensures eclass8[x] == b[x]
    {
      var k := PermutationReaches(fm, x);
    }
  }

  /** `eclass` shares its memory with the block bytes, so filling it leaves them arbitrary. */
  method Overwrite(eclass8: array<byte>)
    modifies eclass8
  {
  }

  /** The log(N) loop (blocksort.c:259-313). */
  method RefineAll(ghost b: Block, fmap: array<int>, eclass: array<int>, bh: array<bool>)
    requires fmap != eclass && |b| <= 900000 && |b| == fmap.Length == eclass.Length
    requires bh.Length >= 32 * (|b| / 32 + 3)
    requires Refined(b, fmap[..], bh[..], 1)
    modifies fmap, eclass, bh
    ensures IsSortedOrder(b, fmap[..])
  {
    var h := 1;
    while true
      invariant 1 <= h <= |b| && Refined(b, fmap[..], bh[..], h)
      decreases 2 * |b| - h
    {
      ComputeClasses(b, fmap, eclass, bh, h);
      var nNotDone := RefinePass(b, fmap, eclass, bh, h);
      h := h * 2;
      if h > fmap.Length || nNotDone == 0 { break; }
    }
    FinalOrder(b, fmap[..], bh[..], h);
  }

  lemma SortedFirst(b: Block, fm: seq<int>, p: int, q: int)
    requires |b| > 0 && IsSortedOrder(b, fm) && 0 <= p < q < |b|
    ensures b[fm[p]] <= b[fm[q]]
  {
    assert NotAfter(b, fm[p], fm[q], |b|);
    CmpMeaning(b, fm[p], fm[q], |b|);
    CmpSplit(b, fm[p], fm[q], 1, |b| - 1);
    FirstCharacter(b, fm[p], fm[q]);
  }

  /** fallbackSort: `fmap` ends as a sorted order of all rotations, and the block is intact. */
  method Sort(fmap: array<int>, eclass8: array<byte>, eclass: array<int>, bh: array<bool>, nblock: int)
    requires fmap != eclass && 0 < nblock <= 900000 && nblock == fmap.Length == eclass.Length <= eclass8.Length
    requires bh.Length >= 32 * (nblock / 32 + 3)
    modifies fmap, eclass8, eclass, bh
    ensures IsSortedOrder(old(eclass8[..nblock]), fmap[..])
    ensures eclass8[..nblock] == old(eclass8[..nblock])
  {
    ghost var b := eclass8[..nblock];
    var ftab, ftabCopy := CountBytes(eclass8, nblock);
    Accumulate(b, ftab);
    Distribute(eclass8, b, ftab, fmap);
    InitHeaders(b, ftab, bh, nblock);
    StartRefined(b, fmap[..], bh[..]);
    Overwrite(eclass8);
    RefineAll(b, fmap, eclass, bh);
    forall p, q | 0 <= p < q < |b|
      ensures b[fmap[p]] <= b[fmap[q]]
    {
      SortedFirst(b, fmap[..], p, q);
    }
    Reconstruct(eclass8, fmap, ftabCopy, b);
  }
}
