/** fallbackSimpleSort and fallbackQSort3: sorting a stretch of `fmap` by `eclass`. */
module FallbackQSort {
  import opened Basics

  // ----- Rearranging a stretch of a sequence -----

  /** `t` is `s` with the stretch `[lo, hi)` rearranged. */
  ghost predicate Shuffled(s: seq<int>, t: seq<int>, lo: int, hi: int)
  {
    |t| == |s| && forall i {:trigger OpenedShuffle(i)} :: OpenedShuffle(i) ==> Rearranged(s, t, lo, hi)
  }

  /** Like `Opened`, for rearranged stretches. */
  ghost predicate OpenedShuffle(i: int) { true }

  ghost predicate Rearranged(s: seq<int>, t: seq<int>, lo: int, hi: int)
    requires |t| == |s|
  {
    (forall p :: 0 <= p < |s| && !(lo <= p < hi) ==> t[p] == s[p]) && multiset(s) == multiset(t)
  }

  lemma ShuffledTrans(s: seq<int>, t: seq<int>, u: seq<int>, lo: int, hi: int, lo': int, hi': int)
    requires lo <= lo' && hi' <= hi
    requires Shuffled(s, t, lo, hi) && Shuffled(t, u, lo', hi')
    ensures Shuffled(s, u, lo, hi)
  {
    assert OpenedShuffle(0);
  }

  lemma ShuffledOutside(s: seq<int>, t: seq<int>, lo: int, hi: int)
    requires Shuffled(s, t, lo, hi)
    ensures forall p :: 0 <= p < |s| && !(lo <= p < hi) ==> t[p] == s[p]
  {
    assert OpenedShuffle(0);
  }

  lemma SwapShuffled(s: seq<int>, x: int, y: int, lo: int, hi: int)
    requires 0 <= x < |s| && 0 <= y < |s| && lo <= x < hi && lo <= y < hi
    ensures Shuffled(s, Swapped(s, x, y), lo, hi)
  {
    SwappedMultiset(s, x, y);
  }

  lemma ShuffledSwap(s0: seq<int>, s: seq<int>, x: int, y: int, lo: int, hi: int)
    requires Shuffled(s0, s, lo, hi) && 0 <= x < |s| && 0 <= y < |s| && lo <= x < hi && lo <= y < hi
    ensures Shuffled(s0, Swapped(s, x, y), lo, hi)
  {
    SwapShuffled(s, x, y, lo, hi);
    ShuffledTrans(s0, s, Swapped(s, x, y), lo, hi, lo, hi);
  }

  lemma Cancel(a: multiset<int>, x: multiset<int>, y: multiset<int>, b: multiset<int>)
    requires a + x + b == a + y + b
    ensures x == y
  {
    assert x == (a + x + b) - a - b;
  }

  lemma ThreeParts(s: seq<int>, lo: int, hi: int)
    requires 0 <= lo <= hi <= |s|
    ensures multiset(s) == multiset(s[..lo]) + multiset(s[lo..hi]) + multiset(s[hi..])
  {
    assert s == s[..lo] + s[lo..hi] + s[hi..];
  }

  lemma StretchMultiset(s: seq<int>, t: seq<int>, lo: int, hi: int)
    requires 0 <= lo <= hi <= |s| && Shuffled(s, t, lo, hi)
    ensures multiset(s[lo..hi]) == multiset(t[lo..hi])
  {
    assert OpenedShuffle(0);
    ThreeParts(s, lo, hi);
    ThreeParts(t, lo, hi);
    assert s[..lo] == t[..lo] && s[hi..] == t[hi..];
    Cancel(multiset(s[..lo]), multiset(s[lo..hi]), multiset(t[lo..hi]), multiset(s[hi..]));
  }

  /** Each element of the new stretch was in the old stretch. */
  lemma ShuffledSource(s: seq<int>, t: seq<int>, lo: int, hi: int, q: int) returns (q': int)
    requires 0 <= lo <= q < hi <= |s| && Shuffled(s, t, lo, hi)
    ensures lo <= q' < hi && s[q'] == t[q]
  {
    StretchMultiset(s, t, lo, hi);
    var mid, mid' := s[lo..hi], t[lo..hi];
    assert mid'[q - lo] == t[q];
    assert t[q] in multiset(mid');
    var k :| 0 <= k < |mid| && mid[k] == t[q];
    q' := lo + k;
  }

  // ----- fallbackSimpleSort -----

  /** All entries of `fmap` index `eclass`. */
  ghost predicate InRange(s: seq<int>, ec: seq<int>)
  {
    forall i :: 0 <= i < |s| ==> 0 <= s[i] < |ec|
  }

  lemma ShuffledInRange(s: seq<int>, t: seq<int>, lo: int, hi: int, ec: seq<int>)
    requires Shuffled(s, t, lo, hi) && InRange(s, ec)
    ensures InRange(t, ec)
  {
    assert OpenedShuffle(0);
    forall i | 0 <= i < |t|
      ensures 0 <= t[i] < |ec|
    {
      assert t[i] in multiset(s);
      assert t[i] in s;
    }
  }

  ghost predicate SortedBy(s: seq<int>, ec: seq<int>, lo: int, hi: int)
    requires InRange(s, ec) && 0 <= lo && hi <= |s|
  {
    forall p, q :: lo <= p < q < hi ==> ec[s[p]] <= ec[s[q]]
  }

  /** While `tmp` is held out: filling the hole `h` with it rearranges `s0`, and nothing from `h` on has moved. */
  ghost predicate Holding(s0: seq<int>, t: seq<int>, tmp: int, h: int, i: int, hi: int)
  {
    && |t| == |s0| && 0 <= i <= h < hi <= |s0|
    && Shuffled(s0, t[h := tmp], i, hi)
    && (forall k :: h <= k < |s0| ==> t[k] == s0[k])
  }

  lemma HoldingStep(s0: seq<int>, t: seq<int>, tmp: int, h: int, h': int, i: int, hi: int)
    requires Holding(s0, t, tmp, h, i, hi) && h < h' < hi
    ensures Holding(s0, t[h := t[h']], tmp, h', i, hi)
  {
    var f := t[h := tmp];
    var f' := Swapped(f, h, h');
    SwapShuffled(f, h, h', i, hi);
    ShuffledTrans(s0, f, f', i, hi, i, hi);
    assert t[h := t[h']][h' := tmp] == f';
  }

  /** One insertion of the first shell pass: `fmap[i]` moves up in steps of four. */
  method InsertByFour(fmap: array<int>, eclass: array<int>, i: int, hi: int)
    requires fmap != eclass && 0 <= i <= hi < fmap.Length
    requires InRange(fmap[..], eclass[..])
    modifies fmap
    ensures Shuffled(old(fmap[..]), fmap[..], i, hi + 1)
  {
    var tmp := fmap[i];
    var ecTmp := eclass[tmp];
    var j := i + 4;
    ghost var s0 := fmap[..];
    assert s0[i := tmp] == s0;
    while j <= hi && ecTmp > eclass[fmap[j]]
      invariant i + 4 <= j <= hi + 4
      invariant Holding(s0, fmap[..], tmp, j - 4, i, hi + 1)
    {
      HoldingStep(s0, fmap[..], tmp, j - 4, j, i, hi + 1);
      ghost var t := fmap[..];
      fmap[j - 4] := fmap[j];
      assert fmap[..] == t[j - 4 := t[j]];
      j := j + 4;
    }
    ghost var t := fmap[..];
    fmap[j - 4] := tmp;
    assert fmap[..] == t[j - 4 := tmp];
  }

  /** `s` with the element at `i` moved to just before position `j`. */
  ghost function Moved(s: seq<int>, i: int, j: int): (t: seq<int>)
    requires 0 <= i < j <= |s|
    ensures |t| == |s|
  {
    s[..i] + s[i + 1..j] + [s[i]] + s[j..]
  }

  lemma MovedAt(s: seq<int>, i: int, j: int, p: int)
    requires 0 <= i < j <= |s| && 0 <= p < |s|
    ensures Moved(s, i, j)[p] == if p < i || j <= p then s[p] else if p == j - 1 then s[i] else s[p + 1]
  {
  }

  lemma MovedShuffled(s: seq<int>, i: int, j: int, hi: int, ec: seq<int>)
    requires 0 <= i < j <= hi <= |s| && InRange(s, ec)
    ensures Shuffled(s, Moved(s, i, j), i, hi) && InRange(Moved(s, i, j), ec)
  {
    var t := Moved(s, i, j);
    assert s == s[..i] + [s[i]] + s[i + 1..j] + s[j..];
    forall p | 0 <= p < |s| && !(i <= p < hi)
      ensures t[p] == s[p]
    {
      MovedAt(s, i, j, p);
    }
    ShuffledInRange(s, t, i, hi, ec);
  }

  lemma MovedSorted(s: seq<int>, i: int, j: int, hi: int, ec: seq<int>)
    requires 0 <= i < j <= hi <= |s| && InRange(s, ec) && SortedBy(s, ec, i + 1, hi)
    requires forall k :: i < k < j ==> ec[s[k]] < ec[s[i]]
    requires j < hi ==> ec[s[i]] <= ec[s[j]]
    requires InRange(Moved(s, i, j), ec)
    ensures SortedBy(Moved(s, i, j), ec, i, hi)
  {
    var t := Moved(s, i, j);
    forall p, q | i <= p < q < hi
      ensures ec[t[p]] <= ec[t[q]]
    {
      MovedAt(s, i, j, p);
      MovedAt(s, i, j, q);
      if j <= q {
        assert j == q || ec[s[j]] <= ec[s[q]];
      }
    }
  }

  /** Positions `i .. j - 2` have been shifted down over smaller elements. */
  ghost predicate Shifting(s0: seq<int>, t: seq<int>, i: int, j: int, ec: seq<int>)
  {
    && |t| == |s0| && 0 <= i < j <= |s0| && InRange(s0, ec)
    && (forall k :: i < k < j ==> ec[s0[k]] < ec[s0[i]])
    && (forall k :: i <= k < j - 1 ==> t[k] == s0[k + 1])
    && (forall k :: 0 <= k < |s0| && !(i <= k < j - 1) ==> t[k] == s0[k])
  }

  lemma ShiftingStep(s0: seq<int>, t: seq<int>, i: int, j: int, ec: seq<int>)
    requires Shifting(s0, t, i, j, ec) && j < |s0|
    ensures t[j] == s0[j]
    ensures ec[s0[j]] < ec[s0[i]] ==> Shifting(s0, t[j - 1 := t[j]], i, j + 1, ec)
  {
  }

  lemma ShiftingDone(s0: seq<int>, t: seq<int>, i: int, j: int, hi: int, ec: seq<int>)
    requires Shifting(s0, t, i, j, ec) && j <= hi <= |s0|
    requires SortedBy(s0, ec, i + 1, hi) && (j < hi ==> ec[s0[i]] <= ec[s0[j]])
    ensures var u := t[j - 1 := s0[i]];
      Shuffled(s0, u, i, hi) && InRange(u, ec) && SortedBy(u, ec, i, hi)
  {
    MovedShuffled(s0, i, j, hi, ec);
    MovedSorted(s0, i, j, hi, ec);
    forall p | 0 <= p < |s0|
      ensures t[j - 1 := s0[i]][p] == Moved(s0, i, j)[p]
    {
      MovedAt(s0, i, j, p);
    }
    assert t[j - 1 := s0[i]] == Moved(s0, i, j);
  }

  /** One insertion of the second pass, into the sorted stretch above it. */
  method InsertByOne(fmap: array<int>, eclass: array<int>, i: int, hi: int)
    requires fmap != eclass && 0 <= i <= hi < fmap.Length
    requires InRange(fmap[..], eclass[..]) && SortedBy(fmap[..], eclass[..], i + 1, hi + 1)
    modifies fmap
    ensures Shuffled(old(fmap[..]), fmap[..], i, hi + 1)
    ensures InRange(fmap[..], eclass[..]) && SortedBy(fmap[..], eclass[..], i, hi + 1)
  {
    var tmp := fmap[i];
    var ecTmp := eclass[tmp];
    var j := i + 1;
    ghost var s0, ec := fmap[..], eclass[..];
    while j <= hi && ecTmp > eclass[fmap[j]]
      invariant j <= hi + 1 && Shifting(s0, fmap[..], i, j, ec)
    {
      ghost var t := fmap[..];
      ShiftingStep(s0, t, i, j, ec);
      fmap[j - 1] := fmap[j];
      assert fmap[..] == t[j - 1 := t[j]];
      j := j + 1;
    }
    ghost var t := fmap[..];
    if j <= hi {
      ShiftingStep(s0, t, i, j, ec);
    }
    ShiftingDone(s0, t, i, j, hi + 1, ec);
    fmap[j - 1] := tmp;
    assert fmap[..] == t[j - 1 := tmp];
  }

  /** fallbackSimpleSort. */
  method SimpleSort(fmap: array<int>, eclass: array<int>, lo: int, hi: int)
    requires fmap != eclass && 0 <= lo <= hi + 1 <= fmap.Length
    requires InRange(fmap[..], eclass[..])
    modifies fmap
    ensures Shuffled(old(fmap[..]), fmap[..], lo, hi + 1)
    ensures InRange(fmap[..], eclass[..]) && SortedBy(fmap[..], eclass[..], lo, hi + 1)
  {
    if lo == hi { return; }
    ghost var s0 := fmap[..];
    if hi - lo > 3 {
      var i := hi - 4;
      while i >= lo
        invariant lo - 1 <= i <= hi - 4
        invariant InRange(fmap[..], eclass[..]) && Shuffled(s0, fmap[..], lo, hi + 1)
      {
        ghost var s := fmap[..];
        InsertByFour(fmap, eclass, i, hi);
        ShuffledTrans(s0, s, fmap[..], lo, hi + 1, i, hi + 1);
        ShuffledInRange(s0, fmap[..], lo, hi + 1, eclass[..]);
        i := i - 1;
      }
    }
    var i := hi - 1;
    while i >= lo
      invariant i <= hi - 1 && (lo - 1 <= i || hi < lo)
      invariant InRange(fmap[..], eclass[..]) && Shuffled(s0, fmap[..], lo, hi + 1)
      invariant SortedBy(fmap[..], eclass[..], Max(i + 1, lo), hi + 1)
    {
      ghost var s := fmap[..];
      InsertByOne(fmap, eclass, i, hi);
      ShuffledTrans(s0, s, fmap[..], lo, hi + 1, i, hi + 1);
      i := i - 1;
    }
  }

  // ----- Three-way partition, equal elements kept at both ends -----

  /** Part way through: equals, smaller ones, the unexamined stretch `[unLo, unHi]`, larger ones, equals. */
  datatype Cut = Cut(ltLo: int, unLo: int, unHi: int, gtHi: int)

  ghost predicate Parted(s: seq<int>, ec: seq<int>, lo: int, hi: int, med: int, c: Cut)
  {
    && InRange(s, ec) && 0 <= lo <= c.ltLo <= c.unLo <= c.unHi + 1 && c.unHi <= c.gtHi <= hi < |s|
    && forall i {:trigger OpenedParts(i)} :: OpenedParts(i) ==> Parts(s, ec, lo, hi, med, c)
  }

  /** Like `Opened`, for what the partition knows of its parts. */
  ghost predicate OpenedParts(i: int) { true }

  ghost predicate Parts(s: seq<int>, ec: seq<int>, lo: int, hi: int, med: int, c: Cut)
    requires InRange(s, ec) && 0 <= lo <= c.ltLo <= c.unLo <= c.unHi + 1 && c.unHi <= c.gtHi <= hi < |s|
  {
    && (forall p :: lo <= p < c.ltLo ==> ec[s[p]] == med)
    && (forall p :: c.ltLo <= p < c.unLo ==> ec[s[p]] < med)
    && (forall p :: c.unHi < p <= c.gtHi ==> ec[s[p]] > med)
    && (forall p :: c.gtHi < p <= hi ==> ec[s[p]] == med)
  }

  lemma SmallerLow(s: seq<int>, ec: seq<int>, lo: int, hi: int, med: int, c: Cut)
    requires Parted(s, ec, lo, hi, med, c) && c.unLo <= c.unHi && ec[s[c.unLo]] < med
    ensures Parted(s, ec, lo, hi, med, c.(unLo := c.unLo + 1))
  {
    assert OpenedParts(0);
  }

  lemma LargerHigh(s: seq<int>, ec: seq<int>, lo: int, hi: int, med: int, c: Cut)
    requires Parted(s, ec, lo, hi, med, c) && c.unLo <= c.unHi && ec[s[c.unHi]] > med
    ensures Parted(s, ec, lo, hi, med, c.(unHi := c.unHi - 1))
  {
    assert OpenedParts(0);
  }

  lemma EqualLow(s: seq<int>, ec: seq<int>, lo: int, hi: int, med: int, c: Cut)
    requires Parted(s, ec, lo, hi, med, c) && c.unLo <= c.unHi && ec[s[c.unLo]] == med
    ensures Parted(Swapped(s, c.unLo, c.ltLo), ec, lo, hi, med, c.(ltLo := c.ltLo + 1, unLo := c.unLo + 1))
  {
    assert OpenedParts(0);
  }

  lemma EqualHigh(s: seq<int>, ec: seq<int>, lo: int, hi: int, med: int, c: Cut)
    requires Parted(s, ec, lo, hi, med, c) && c.unLo <= c.unHi && ec[s[c.unHi]] == med
    ensures Parted(Swapped(s, c.unHi, c.gtHi), ec, lo, hi, med, c.(gtHi := c.gtHi - 1, unHi := c.unHi - 1))
  {
    assert OpenedParts(0);
  }

  lemma ExchangeEnds(s: seq<int>, ec: seq<int>, lo: int, hi: int, med: int, c: Cut)
    requires Parted(s, ec, lo, hi, med, c) && c.unLo <= c.unHi && ec[s[c.unLo]] > med && ec[s[c.unHi]] < med
    ensures Parted(Swapped(s, c.unLo, c.unHi), ec, lo, hi, med, c.(unLo := c.unLo + 1, unHi := c.unHi - 1))
  {
    assert OpenedParts(0);
  }

  /** fswap. */
  method Swap(fmap: array<int>, x: int, y: int)
    requires 0 <= x < fmap.Length && 0 <= y < fmap.Length
    modifies fmap
    ensures fmap[..] == Swapped(old(fmap[..]), x, y)
    ensures Shuffled(old(fmap[..]), fmap[..], Min(x, y), Max(x, y) + 1)
  {
    SwapShuffled(fmap[..], x, y, Min(x, y), Max(x, y) + 1);
    fmap[x], fmap[y] := fmap[y], fmap[x];
  }

  /** The upward scan (blocksort.c:136-146). */
  method ScanUp(fmap: array<int>, eclass: array<int>, lo: int, hi: int, med: int, c0: Cut) returns (c: Cut)
    requires fmap != eclass && Parted(fmap[..], eclass[..], lo, hi, med, c0)
    modifies fmap
    ensures Parted(fmap[..], eclass[..], lo, hi, med, c) && Shuffled(old(fmap[..]), fmap[..], lo, hi + 1)
    ensures c.unHi == c0.unHi && c.gtHi == c0.gtHi && c.unLo >= c0.unLo
    ensures c.unLo <= c.unHi ==> eclass[fmap[c.unLo]] > med
  {
    c := c0;
    while true
      invariant Parted(fmap[..], eclass[..], lo, hi, med, c) && Shuffled(old(fmap[..]), fmap[..], lo, hi + 1)
      invariant c.unHi == c0.unHi && c.gtHi == c0.gtHi && c.unLo >= c0.unLo
      decreases c.unHi - c.unLo
    {
      if c.unLo > c.unHi { break; }
      var n := eclass[fmap[c.unLo]] - med;
      ghost var s := fmap[..];
      if n == 0 {
        EqualLow(s, eclass[..], lo, hi, med, c);
        Swap(fmap, c.unLo, c.ltLo);
        ShuffledTrans(old(fmap[..]), s, fmap[..], lo, hi + 1, c.ltLo, c.unLo + 1);
        c := c.(ltLo := c.ltLo + 1, unLo := c.unLo + 1);
        continue;
      }
      if n > 0 { break; }
      SmallerLow(s, eclass[..], lo, hi, med, c);
      c := c.(unLo := c.unLo + 1);
    }
  }

  /** The downward scan (blocksort.c:147-157). */
  method ScanDown(fmap: array<int>, eclass: array<int>, lo: int, hi: int, med: int, c0: Cut) returns (c: Cut)
    requires fmap != eclass && Parted(fmap[..], eclass[..], lo, hi, med, c0)
    requires c0.unLo <= c0.unHi ==> eclass[fmap[c0.unLo]] > med
    modifies fmap
    ensures Parted(fmap[..], eclass[..], lo, hi, med, c) && Shuffled(old(fmap[..]), fmap[..], lo, hi + 1)
    ensures c.unLo == c0.unLo && c.ltLo == c0.ltLo && c.unHi <= c0.unHi
    ensures c.unLo <= c.unHi ==> eclass[fmap[c.unLo]] > med && eclass[fmap[c.unHi]] < med
  {
    c := c0;
    while true
      invariant Parted(fmap[..], eclass[..], lo, hi, med, c) && Shuffled(old(fmap[..]), fmap[..], lo, hi + 1)
      invariant c.unLo == c0.unLo && c.ltLo == c0.ltLo && c.unHi <= c0.unHi
      invariant c.unLo <= c.unHi ==> eclass[fmap[c.unLo]] > med
      decreases c.unHi - c.unLo
    {
      if c.unLo > c.unHi { break; }
      var n := eclass[fmap[c.unHi]] - med;
      ghost var s := fmap[..];
      if n == 0 {
        EqualHigh(s, eclass[..], lo, hi, med, c);
        Swap(fmap, c.unHi, c.gtHi);
        assert fmap[..][c.unLo] == s[c.unLo];
        ShuffledTrans(old(fmap[..]), s, fmap[..], lo, hi + 1, c.unHi, c.gtHi + 1);
        c := c.(gtHi := c.gtHi - 1, unHi := c.unHi - 1);
        continue;
      }
      if n < 0 { break; }
      LargerHigh(s, eclass[..], lo, hi, med, c);
      c := c.(unHi := c.unHi - 1);
    }
  }

  /** The partitioning loop (blocksort.c:132-162). */
  method Partition(fmap: array<int>, eclass: array<int>, lo: int, hi: int, med: int) returns (c: Cut)
    requires fmap != eclass && InRange(fmap[..], eclass[..]) && 0 <= lo <= hi < fmap.Length
    modifies fmap
    ensures Parted(fmap[..], eclass[..], lo, hi, med, c) && c.unHi == c.unLo - 1
    ensures Shuffled(old(fmap[..]), fmap[..], lo, hi + 1)
  {
    ghost var s0 := fmap[..];
    c := Cut(lo, lo, hi, hi);
    while true
      invariant Parted(fmap[..], eclass[..], lo, hi, med, c) && Shuffled(s0, fmap[..], lo, hi + 1)
      decreases c.unHi - c.unLo
    {
      ghost var s1 := fmap[..];
      c := ScanUp(fmap, eclass, lo, hi, med, c);
      ghost var s2 := fmap[..];
      ShuffledTrans(s0, s1, s2, lo, hi + 1, lo, hi + 1);
      c := ScanDown(fmap, eclass, lo, hi, med, c);
      ghost var s3 := fmap[..];
      ShuffledTrans(s0, s2, s3, lo, hi + 1, lo, hi + 1);
      if c.unLo > c.unHi { break; }
      ExchangeEnds(s3, eclass[..], lo, hi, med, c);
      Swap(fmap, c.unLo, c.unHi);
      ShuffledTrans(s0, s3, fmap[..], lo, hi + 1, c.unLo, c.unHi + 1);
      c := c.(unLo := c.unLo + 1, unHi := c.unHi - 1);
    }
  }

  // ----- Moving the equal elements to the middle -----

  /** `t` is `s` with the stretches of length `n` at `p1` and `p2` exchanged. */
  ghost predicate Exchanged(s: seq<int>, t: seq<int>, p1: int, p2: int, n: int)
  {
    && |t| == |s| && 0 <= p1 && p1 + n <= p2 && p2 + n <= |s|
    && forall i {:trigger OpenedSwap(i)} :: OpenedSwap(i) ==> ExchangedIn(s, t, p1, p2, n)
  }

  /** Like `Opened`, for exchanged stretches. */
  ghost predicate OpenedSwap(i: int) { true }

  ghost predicate ExchangedIn(s: seq<int>, t: seq<int>, p1: int, p2: int, n: int)
    requires |t| == |s| && 0 <= p1 && p1 + n <= p2 && p2 + n <= |s|
  {
    && (forall p :: p1 <= p < p1 + n ==> t[p] == s[p + (p2 - p1)])
    && (forall p :: p2 <= p < p2 + n ==> t[p] == s[p - (p2 - p1)])
    && (forall p :: 0 <= p < |s| && !(p1 <= p < p1 + n) && !(p2 <= p < p2 + n) ==> t[p] == s[p])
  }

  lemma ExchangedStep(s: seq<int>, t: seq<int>, p1: int, p2: int, k: int)
    requires 0 <= k && Exchanged(s, t, p1, p2, k) && p1 + k < p2 && p2 + k < |s|
    ensures Exchanged(s, Swapped(t, p1 + k, p2 + k), p1, p2, k + 1)
  {
    assert OpenedSwap(0);
    var u := Swapped(t, p1 + k, p2 + k);
    assert u[p1 + k] == s[p2 + k] && u[p2 + k] == s[p1 + k];
  }

  /** fvswap. */
  method VSwap(fmap: array<int>, p1: int, p2: int, n: int)
    requires 0 <= n && 0 <= p1 && p1 + n <= p2 && p2 + n <= fmap.Length
    modifies fmap
    ensures Exchanged(old(fmap[..]), fmap[..], p1, p2, n)
    ensures Shuffled(old(fmap[..]), fmap[..], p1, p2 + n)
  {
    ghost var s0 := fmap[..];
    var y1, y2, yn := p1, p2, n;
    NothingExchanged(s0, p1, p2, n);
    while yn > 0
      invariant 0 <= yn <= n && y1 == p1 + (n - yn) && y2 == p2 + (n - yn)
      invariant Exchanged(s0, fmap[..], p1, p2, n - yn) && Shuffled(s0, fmap[..], p1, p2 + n)
    {
      ghost var s, k := fmap[..], n - yn;
      ExchangedStep(s0, s, p1, p2, k);
      ShuffledSwap(s0, s, p1 + k, p2 + k, p1, p2 + n);
      fmap[y1], fmap[y2] := fmap[y2], fmap[y1];
      assert fmap[..] == Swapped(s, p1 + k, p2 + k);
      y1, y2, yn := y1 + 1, y2 + 1, yn - 1;
    }
  }

  lemma NothingExchanged(s0: seq<int>, p1: int, p2: int, n: int)
    requires 0 <= n && 0 <= p1 && p1 + n <= p2 && p2 + n <= |s0|
    ensures Exchanged(s0, s0, p1, p2, 0) && Shuffled(s0, s0, p1, p2 + n)
  {
  }

  /** The finished partition: smaller up to `n`, equal strictly between, larger from `m`. */
  ghost predicate Split(s: seq<int>, ec: seq<int>, lo: int, hi: int, med: int, n: int, m: int)
  {
    && InRange(s, ec) && 0 <= lo <= n + 1 <= m <= hi + 1 <= |s|
    && (forall p :: lo <= p <= n ==> ec[s[p]] < med)
    && (forall p :: n < p < m ==> ec[s[p]] == med)
    && (forall p :: m <= p <= hi ==> ec[s[p]] > med)
  }

  /** Half done: the equals of the low side are in place. */
  ghost predicate LowGathered(s: seq<int>, ec: seq<int>, lo: int, hi: int, med: int, c: Cut)
  {
    && InRange(s, ec) && 0 <= lo <= c.ltLo <= c.unLo == c.unHi + 1 && c.unHi <= c.gtHi <= hi < |s|
    && (forall p :: lo <= p < lo + c.unLo - c.ltLo ==> ec[s[p]] < med)
    && (forall p :: lo + c.unLo - c.ltLo <= p < c.unLo ==> ec[s[p]] == med)
    && (forall p :: c.unHi < p <= c.gtHi ==> ec[s[p]] > med)
    && (forall p :: c.gtHi < p <= hi ==> ec[s[p]] == med)
  }

  lemma GatherLow(s: seq<int>, t: seq<int>, ec: seq<int>, lo: int, hi: int, med: int, c: Cut)
    requires Parted(s, ec, lo, hi, med, c) && c.unHi == c.unLo - 1 && InRange(t, ec)
    requires var n := Min(c.ltLo - lo, c.unLo - c.ltLo); Exchanged(s, t, lo, c.unLo - n, n)
    ensures LowGathered(t, ec, lo, hi, med, c)
  {
    assert OpenedParts(0) && OpenedSwap(0);
    var n := Min(c.ltLo - lo, c.unLo - c.ltLo);
    var d := c.unLo - n - lo;
    forall p | lo <= p < c.unLo
      ensures t[p] == if p < lo + n then s[p + d] else if c.unLo - n <= p then s[p - d] else s[p]
    {
    }
  }

  /** What cell `p` has to hold when the larger ones are at the end. */
  ghost predicate GatheredAt(t: seq<int>, ec: seq<int>, med: int, c: Cut, lo: int, hi: int, p: int)
    requires InRange(t, ec) && 0 <= p < |t|
  {
    var x := ec[t[p]];
    if p < lo + c.unLo - c.ltLo then x < med else if p <= hi - (c.gtHi - c.unHi) then x == med else x > med
  }

  lemma GatherHighAt(s: seq<int>, t: seq<int>, ec: seq<int>, lo: int, hi: int, med: int, c: Cut, m: int, p: int)
    requires LowGathered(s, ec, lo, hi, med, c) && InRange(t, ec) && lo <= p <= hi
    requires m == Min(hi - c.gtHi, c.gtHi - c.unHi) && Exchanged(s, t, c.unLo, hi - m + 1, m)
    ensures GatheredAt(t, ec, med, c, lo, hi, p)
  {
    assert OpenedSwap(0);
    var d := hi - m + 1 - c.unLo;
    assert t[p] == if c.unLo <= p < c.unLo + m then s[p + d] else if hi - m + 1 <= p then s[p - d] else s[p];
  }

  lemma GatheredSplit(t: seq<int>, ec: seq<int>, lo: int, hi: int, med: int, c: Cut)
    requires InRange(t, ec) && 0 <= lo <= c.ltLo <= c.unLo == c.unHi + 1 && c.unHi <= c.gtHi <= hi < |t|
    requires forall p :: lo <= p <= hi ==> GatheredAt(t, ec, med, c, lo, hi, p)
    ensures Split(t, ec, lo, hi, med, lo + c.unLo - c.ltLo - 1, hi - (c.gtHi - c.unHi) + 1)
  {
    forall p | lo <= p <= hi
      ensures var x := ec[t[p]];
        if p < lo + c.unLo - c.ltLo then x < med else if p <= hi - (c.gtHi - c.unHi) then x == med else x > med
    {
      assert GatheredAt(t, ec, med, c, lo, hi, p);
    }
  }

  lemma GatherHigh(s: seq<int>, t: seq<int>, ec: seq<int>, lo: int, hi: int, med: int, c: Cut)
    requires LowGathered(s, ec, lo, hi, med, c) && InRange(t, ec)
    requires var m := Min(hi - c.gtHi, c.gtHi - c.unHi); Exchanged(s, t, c.unLo, hi - m + 1, m)
    ensures Split(t, ec, lo, hi, med, lo + c.unLo - c.ltLo - 1, hi - (c.gtHi - c.unHi) + 1)
  {
    var m := Min(hi - c.gtHi, c.gtHi - c.unHi);
    forall p | lo <= p <= hi
      ensures GatheredAt(t, ec, med, c, lo, hi, p)
    {
      GatherHighAt(s, t, ec, lo, hi, med, c, m, p);
    }
    GatheredSplit(t, ec, lo, hi, med, c);
  }

  /** The first vector swap (blocksort.c:166). */
  method GatherSmaller(fmap: array<int>, eclass: array<int>, lo: int, hi: int, med: int, c: Cut)
    requires fmap != eclass && Parted(fmap[..], eclass[..], lo, hi, med, c) && c.unHi == c.unLo - 1
    modifies fmap
    ensures LowGathered(fmap[..], eclass[..], lo, hi, med, c)
    ensures Shuffled(old(fmap[..]), fmap[..], lo, hi + 1)
  {
    ghost var s0 := fmap[..];
    var n := Min(c.ltLo - lo, c.unLo - c.ltLo);
    VSwap(fmap, lo, c.unLo - n, n);
    ShuffledInRange(s0, fmap[..], lo, c.unLo, eclass[..]);
    GatherLow(s0, fmap[..], eclass[..], lo, hi, med, c);
  }

  /** The second vector swap (blocksort.c:167). */
  method GatherLarger(fmap: array<int>, eclass: array<int>, lo: int, hi: int, med: int, c: Cut)
    requires fmap != eclass && LowGathered(fmap[..], eclass[..], lo, hi, med, c)
    modifies fmap
    ensures Split(fmap[..], eclass[..], lo, hi, med, lo + c.unLo - c.ltLo - 1, hi - (c.gtHi - c.unHi) + 1)
    ensures Shuffled(old(fmap[..]), fmap[..], lo, hi + 1)
  {
    ghost var s0 := fmap[..];
    var m := Min(hi - c.gtHi, c.gtHi - c.unHi);
    VSwap(fmap, c.unLo, hi - m + 1, m);
    GatheredHigh(s0, fmap[..], eclass[..], lo, hi, med, c, m);
  }

  lemma GatheredHigh(s: seq<int>, t: seq<int>, ec: seq<int>, lo: int, hi: int, med: int, c: Cut, m: int)
    requires LowGathered(s, ec, lo, hi, med, c) && m == Min(hi - c.gtHi, c.gtHi - c.unHi)
    requires Exchanged(s, t, c.unLo, hi - m + 1, m) && Shuffled(s, t, c.unLo, hi + 1)
    ensures Split(t, ec, lo, hi, med, lo + c.unLo - c.ltLo - 1, hi - (c.gtHi - c.unHi) + 1)
    ensures Shuffled(s, t, lo, hi + 1)
  {
    ShuffledInRange(s, t, c.unLo, hi + 1, ec);
    GatherHigh(s, t, ec, lo, hi, med, c);
    ShuffledWider(s, t, c.unLo, hi + 1, lo, hi + 1);
  }

  lemma ShuffledWider(s: seq<int>, t: seq<int>, lo: int, hi: int, lo': int, hi': int)
    requires lo' <= lo && hi <= hi' && Shuffled(s, t, lo, hi)
    ensures Shuffled(s, t, lo', hi')
  {
    assert OpenedShuffle(0);
  }

  lemma AllEqual(s: seq<int>, ec: seq<int>, lo: int, hi: int, med: int, c: Cut)
    requires Parted(s, ec, lo, hi, med, c) && c.unHi == c.unLo - 1 && c.gtHi < c.ltLo
    ensures SortedBy(s, ec, lo, hi + 1)
  {
    assert OpenedParts(0);
  }

  /** The pivot itself is among the equals. */
  lemma PivotKept(s0: seq<int>, s: seq<int>, ec: seq<int>, lo: int, hi: int, med: int, n: int, m: int, at: int)
    requires InRange(s0, ec) && 0 <= lo <= at <= hi < |s0| && med == ec[s0[at]]
    requires Shuffled(s0, s, lo, hi + 1) && Split(s, ec, lo, hi, med, n, m)
    ensures n + 1 < m
  {
    ShuffledBack(s0, s, lo, hi + 1);
    var p := ShuffledSource(s, s0, lo, hi + 1, at);
  }

  lemma ShuffledBack(s: seq<int>, t: seq<int>, lo: int, hi: int)
    requires Shuffled(s, t, lo, hi)
    ensures Shuffled(t, s, lo, hi)
  {
    assert OpenedShuffle(0);
  }

  /** One partitioning round (blocksort.c:126-170): either the stretch turns out constant, or it is split
      around a value that occurs in it. */
  method Divide(fmap: array<int>, eclass: array<int>, lo: int, hi: int, r0: int)
    returns (r: int, constant: bool, n: int, m: int, ghost med: int)
    requires fmap != eclass && InRange(fmap[..], eclass[..]) && 0 <= lo < hi < fmap.Length && 0 <= r0 < 32768
    modifies fmap
    ensures 0 <= r < 32768 && InRange(fmap[..], eclass[..])
    ensures Shuffled(old(fmap[..]), fmap[..], lo, hi + 1)
    ensures constant ==> SortedBy(fmap[..], eclass[..], lo, hi + 1)
    ensures !constant ==> Split(fmap[..], eclass[..], lo, hi, med, n, m) && n + 1 < m
  {
    ghost var s0 := fmap[..];
    r := (r0 * 7621 + 1) % 32768;
    var r3 := r % 3;
    var at := if r3 == 0 then lo else if r3 == 1 then (lo + hi) / 2 else hi;
    var pivot := eclass[fmap[at]];
    med := pivot;
    var c := Partition(fmap, eclass, lo, hi, pivot);
    n, m := lo, hi;
    constant := c.gtHi < c.ltLo;
    if constant {
      AllEqual(fmap[..], eclass[..], lo, hi, pivot, c);
      return;
    }
    ghost var s1 := fmap[..];
    GatherSmaller(fmap, eclass, lo, hi, pivot, c);
    ghost var s2 := fmap[..];
    ShuffledTrans(s0, s1, s2, lo, hi + 1, lo, hi + 1);
    GatherLarger(fmap, eclass, lo, hi, pivot, c);
    ShuffledTrans(s0, s2, fmap[..], lo, hi + 1, lo, hi + 1);
    n := lo + c.unLo - c.ltLo - 1;
    m := hi - (c.gtHi - c.unHi) + 1;
    PivotKept(s0, fmap[..], eclass[..], lo, hi, pivot, n, m, at);
  }

  // ----- The explicit stack -----

  datatype Range = Range(lo: int, hi: int)

  /** Positions `p` and `q` are in one stretch that is still to be sorted. */
  ghost predicate Together(stk: seq<Range>, p: int, q: int)
  {
    exists k :: 0 <= k < |stk| && stk[k].lo <= p && q <= stk[k].hi
  }

  ghost predicate Inside(stk: seq<Range>, lo: int, hi: int)
  {
    forall k :: 0 <= k < |stk| ==> lo <= stk[k].lo <= stk[k].hi + 1 <= hi + 1
  }

  ghost predicate Apart(stk: seq<Range>)
  {
    forall j, k :: 0 <= j < k < |stk| ==> stk[j].hi < stk[k].lo || stk[k].hi < stk[j].lo
  }

  /** In order, but for pairs inside a pending stretch. */
  ghost predicate SortedExcept(s: seq<int>, ec: seq<int>, stk: seq<Range>, lo: int, hi: int)
    requires InRange(s, ec) && 0 <= lo && hi < |s|
  {
    forall p, q :: lo <= p < q <= hi ==> ec[s[p]] <= ec[s[q]] || Together(stk, p, q)
  }

  lemma TogetherElsewhere(stk: seq<Range>, p: int, q: int, lo: int, hi: int)
    requires Inside(stk, lo, hi) && Apart(stk) && stk != [] && Together(stk, p, q) && p < q
    ensures var r := stk[|stk| - 1];
      (r.lo <= p <= r.hi <==> r.lo <= q <= r.hi) && (!(r.lo <= p <= r.hi) ==> Together(stk[..|stk| - 1], p, q))
  {
    var k :| 0 <= k < |stk| && stk[k].lo <= p && q <= stk[k].hi;
    if k < |stk| - 1 {
      assert stk[..|stk| - 1][k] == stk[k];
      assert stk[k].hi < stk[|stk| - 1].lo || stk[|stk| - 1].hi < stk[k].lo;
    }
  }

  lemma TogetherAppend(a: seq<Range>, b: seq<Range>, p: int, q: int)
    requires Together(a, p, q) || Together(b, p, q)
    ensures Together(a + b, p, q)
  {
    if Together(a, p, q) {
      var k :| 0 <= k < |a| && a[k].lo <= p && q <= a[k].hi;
      assert (a + b)[k] == a[k];
    } else {
      var k :| 0 <= k < |b| && b[k].lo <= p && q <= b[k].hi;
      assert (a + b)[|a| + k] == b[k];
    }
  }

  /** Two positions that do not both lie in the top stretch keep their order whatever happens to it. */
  lemma CrossingPair(s: seq<int>, t: seq<int>, ec: seq<int>, stk: seq<Range>, lo: int, hi: int, p: int, q: int)
    requires InRange(s, ec) && InRange(t, ec) && 0 <= lo <= p < q <= hi < |s| && |t| == |s|
    requires stk != [] && Inside(stk, lo, hi) && Apart(stk) && SortedExcept(s, ec, stk, lo, hi)
    requires var r := stk[|stk| - 1];
      Shuffled(s, t, r.lo, r.hi + 1) && !(r.lo <= p && q <= r.hi)
    ensures ec[t[p]] <= ec[t[q]] || Together(stk[..|stk| - 1], p, q)
  {
    var r := stk[|stk| - 1];
    var p', q' := p, q;
    if r.lo <= p <= r.hi {
      p' := ShuffledSource(s, t, r.lo, r.hi + 1, p);
    }
    if r.lo <= q <= r.hi {
      q' := ShuffledSource(s, t, r.lo, r.hi + 1, q);
    }
    ShuffledOutside(s, t, r.lo, r.hi + 1);
    assert p' < q' && s[p'] == t[p] && s[q'] == t[q];
    if Together(stk, p', q') {
      TogetherElsewhere(stk, p', q', lo, hi);
    }
  }

  /** Replace the top stretch by smaller ones that cover all that is still out of order in it. */
  lemma Replace(s: seq<int>, t: seq<int>, ec: seq<int>, stk: seq<Range>, news: seq<Range>, lo: int, hi: int)
    requires InRange(s, ec) && InRange(t, ec) && 0 <= lo <= hi < |s| && |t| == |s|
    requires stk != [] && Inside(stk, lo, hi) && Apart(stk) && SortedExcept(s, ec, stk, lo, hi)
    requires var r := stk[|stk| - 1];
      && Shuffled(s, t, r.lo, r.hi + 1)
      && SortedExcept(t, ec, news, r.lo, r.hi)
    ensures SortedExcept(t, ec, stk[..|stk| - 1] + news, lo, hi)
  {
    var r := stk[|stk| - 1];
    forall p, q | lo <= p < q <= hi
      ensures ec[t[p]] <= ec[t[q]] || Together(stk[..|stk| - 1] + news, p, q)
    {
      if r.lo <= p && q <= r.hi {
        if Together(news, p, q) {
          TogetherAppend(stk[..|stk| - 1], news, p, q);
        }
      } else {
        CrossingPair(s, t, ec, stk, lo, hi, p, q);
        if Together(stk[..|stk| - 1], p, q) {
          TogetherAppend(stk[..|stk| - 1], news, p, q);
        }
      }
    }
  }

  function Size(r: Range): (n: int) { r.hi - r.lo + 1 }

  /** Entry `k` of the stack is at most the `k`-th halving of the whole. */
  ghost predicate Halving(stk: seq<Range>, total: int)
  {
    forall k :: 0 <= k < |stk| ==> Size(stk[k]) * Pow2(k) <= total
  }

  ghost function Work(stk: seq<Range>): (n: nat)
  {
    if stk == [] then 0 else Work(stk[..|stk| - 1]) + Max(0, Size(stk[|stk| - 1]))
  }

  lemma WorkPush(stk: seq<Range>, a: Range, b: Range)
    ensures Work(stk + [a, b]) == Work(stk) + Max(0, Size(a)) + Max(0, Size(b))
  {
    var x := stk + [a];
    assert (stk + [a, b])[..|stk| + 1] == x;
    assert x[..|stk|] == stk;
  }

  lemma Pow2Of17()
    ensures Pow2(17) == 131072
  {
    Pow2Add(8, 9);
    assert Pow2(8) == 256 && Pow2(9) == 512;
  }

  lemma DepthBound(x: int, k: nat, total: int)
    requires x >= 11 && x * Pow2(k) <= total <= 900000
    ensures k < 17
  {
    ScaleMono(11, x, Pow2(k));
    Pow2Of17();
    if k >= 17 {
      Pow2Mono(17, k);
      assert false;
    }
  }

  /** A stretch long enough to be split sits low on the stack. */
  lemma SplitDepth(stk: seq<Range>, total: int)
    requires stk != [] && Halving(stk, total) && total <= 900000 && Size(stk[|stk| - 1]) >= 11
    ensures |stk| <= 17
  {
    DepthBound(Size(stk[|stk| - 1]), |stk| - 1, total);
  }

  lemma HalvingPush(stk: seq<Range>, a: Range, b: Range, total: int)
    requires stk != [] && Halving(stk, total)
    requires var r := stk[|stk| - 1]; Size(a) <= Size(r) && 2 * Size(b) <= Size(r)
    ensures Halving(stk[..|stk| - 1] + [a, b], total)
  {
    var r, k := stk[|stk| - 1], |stk| - 1;
    assert Size(r) * Pow2(k) <= total;
    assert Size(a) * Pow2(k) <= Size(r) * Pow2(k);
    assert Size(b) * Pow2(k + 1) == (2 * Size(b)) * Pow2(k) <= Size(r) * Pow2(k);
    var next := stk[..k] + [a, b];
    forall i | 0 <= i < |next|
      ensures Size(next[i]) * Pow2(i) <= total
    {
      if i < k {
        assert next[i] == stk[i];
      }
    }
  }

  ghost predicate Pending(s: seq<int>, ec: seq<int>, stk: seq<Range>, lo: int, hi: int)
  {
    && InRange(s, ec) && 0 <= lo <= hi < |s| && Inside(stk, lo, hi)
    && forall i {:trigger OpenedParts(i)} :: OpenedParts(i) ==> PendingIn(s, ec, stk, lo, hi)
  }

  ghost predicate PendingIn(s: seq<int>, ec: seq<int>, stk: seq<Range>, lo: int, hi: int)
    requires InRange(s, ec) && 0 <= lo <= hi < |s|
  {
    Apart(stk) && SortedExcept(s, ec, stk, lo, hi) && Halving(stk, hi - lo + 1)
  }

  lemma PendingTop(s: seq<int>, ec: seq<int>, stk: seq<Range>, lo: int, hi: int)
    requires Pending(s, ec, stk, lo, hi) && stk != []
    ensures PendingIn(s, ec, stk, lo, hi) && lo <= stk[|stk| - 1].lo && stk[|stk| - 1].hi <= hi
  {
    assert OpenedParts(0);
  }

  lemma PopDone(s: seq<int>, t: seq<int>, ec: seq<int>, stk: seq<Range>, lo: int, hi: int)
    requires Pending(s, ec, stk, lo, hi) && stk != [] && InRange(t, ec)
    requires var r := stk[|stk| - 1]; Shuffled(s, t, r.lo, r.hi + 1) && SortedBy(t, ec, r.lo, r.hi + 1)
    ensures Pending(t, ec, stk[..|stk| - 1], lo, hi)
    ensures Work(stk[..|stk| - 1]) <= Work(stk)
  {
    PendingTop(s, ec, stk, lo, hi);
    Replace(s, t, ec, stk, [], lo, hi);
    assert stk[..|stk| - 1] + [] == stk[..|stk| - 1];
  }

  lemma SplitLeaves(t: seq<int>, ec: seq<int>, r: Range, med: int, n: int, m: int, news: seq<Range>)
    requires Split(t, ec, r.lo, r.hi, med, n, m)
    requires news == [Range(r.lo, n), Range(m, r.hi)] || news == [Range(m, r.hi), Range(r.lo, n)]
    ensures SortedExcept(t, ec, news, r.lo, r.hi)
  {
    forall p, q | r.lo <= p < q <= r.hi
      ensures ec[t[p]] <= ec[t[q]] || Together(news, p, q)
    {
      if q <= n {
        assert (news[0].lo <= p && q <= news[0].hi) || (news[1].lo <= p && q <= news[1].hi);
      } else if m <= p {
        assert (news[0].lo <= p && q <= news[0].hi) || (news[1].lo <= p && q <= news[1].hi);
      }
    }
  }

  lemma ApartPush(stk: seq<Range>, a: Range, b: Range)
    requires stk != [] && Apart(stk)
    requires var r := stk[|stk| - 1];
      r.lo <= a.lo && a.hi <= r.hi && r.lo <= b.lo && b.hi <= r.hi && (a.hi < b.lo || b.hi < a.lo)
    ensures Apart(stk[..|stk| - 1] + [a, b])
  {
    var next, n := stk[..|stk| - 1] + [a, b], |stk| - 1;
    forall j, k | 0 <= j < k < |next|
      ensures next[j].hi < next[k].lo || next[k].hi < next[j].lo
    {
      if j < n {
        assert stk[j].hi < stk[n].lo || stk[n].hi < stk[j].lo;
      }
    }
  }

  lemma PartsLeft(t: seq<int>, ec: seq<int>, r: Range, med: int, a: Range, b: Range)
    requires (a.lo == r.lo && b.hi == r.hi && a.hi + 1 < b.lo && Split(t, ec, r.lo, r.hi, med, a.hi, b.lo))
             || (b.lo == r.lo && a.hi == r.hi && b.hi + 1 < a.lo && Split(t, ec, r.lo, r.hi, med, b.hi, a.lo))
    ensures SortedExcept(t, ec, [a, b], r.lo, r.hi)
  {
    if a.lo == r.lo && b.hi == r.hi && a.hi + 1 < b.lo && Split(t, ec, r.lo, r.hi, med, a.hi, b.lo) {
      SplitLeaves(t, ec, r, med, a.hi, b.lo, [a, b]);
    } else {
      SplitLeaves(t, ec, r, med, b.hi, a.lo, [a, b]);
    }
  }

  lemma PushParts(s: seq<int>, t: seq<int>, ec: seq<int>, stk: seq<Range>, lo: int, hi: int, med: int, a: Range,
                  b: Range)
    requires Pending(s, ec, stk, lo, hi) && stk != []
    requires var r := stk[|stk| - 1];
      && Shuffled(s, t, r.lo, r.hi + 1) && Size(b) <= Size(a)
      && ((a.lo == r.lo && b.hi == r.hi && a.hi + 1 < b.lo && Split(t, ec, r.lo, r.hi, med, a.hi, b.lo))
          || (b.lo == r.lo && a.hi == r.hi && b.hi + 1 < a.lo && Split(t, ec, r.lo, r.hi, med, b.hi, a.lo)))
    ensures Pending(t, ec, stk[..|stk| - 1] + [a, b], lo, hi)
    ensures Work(stk[..|stk| - 1] + [a, b]) < Work(stk)
  {
    PendingTop(s, ec, stk, lo, hi);
    PushPartsIn(s, t, ec, stk, lo, hi, med, a, b);
    WorkPush(stk[..|stk| - 1], a, b);
  }

  lemma PushPartsIn(s: seq<int>, t: seq<int>, ec: seq<int>, stk: seq<Range>, lo: int, hi: int, med: int, a: Range,
                    b: Range)
    requires InRange(s, ec) && InRange(t, ec) && 0 <= lo <= hi < |s| && Inside(stk, lo, hi) && stk != []
    requires PendingIn(s, ec, stk, lo, hi)
    requires var r := stk[|stk| - 1];
      && Shuffled(s, t, r.lo, r.hi + 1) && Size(b) <= Size(a)
      && ((a.lo == r.lo && b.hi == r.hi && a.hi + 1 < b.lo && Split(t, ec, r.lo, r.hi, med, a.hi, b.lo))
          || (b.lo == r.lo && a.hi == r.hi && b.hi + 1 < a.lo && Split(t, ec, r.lo, r.hi, med, b.hi, a.lo)))
    ensures Inside(stk[..|stk| - 1] + [a, b], lo, hi) && PendingIn(t, ec, stk[..|stk| - 1] + [a, b], lo, hi)
  {
    PartsLeft(t, ec, stk[|stk| - 1], med, a, b);
    Replace(s, t, ec, stk, [a, b], lo, hi);
    HalvingPush(stk, a, b, hi - lo + 1);
    ApartPush(stk, a, b);
  }

  /** stackLo and stackHi with fpush and fpop. */
  class RangeStack {
    const data: array<Range>
    var sp: int
    ghost var contents: seq<Range>

    ghost predicate Valid()
      reads this, data
    {
      sp == |contents| <= 100 && forall i {:trigger Opened(i)} :: Opened(i) ==>
        data.Length == 100 && data[..sp] == contents
    }

    constructor ()
      ensures Valid() && contents == [] && fresh(data)
    {
      data := new Range[100];
      sp := 0;
      contents := [];
    }

    method Push(r: Range)
      requires Valid() && sp < 100
      modifies this, data
      ensures Valid() && contents == old(contents) + [r]
    {
      assert Opened(0);
      data[sp] := r;
      sp := sp + 1;
      contents := contents + [r];
    }

    method PushAll(rs: seq<Range>)
      requires Valid() && sp + |rs| <= 100
      modifies this, data
      ensures Valid() && contents == old(contents) + rs
    {
      for i := 0 to |rs|
        invariant Valid() && contents == old(contents) + rs[..i]
      {
        Push(rs[i]);
      }
    }

    method Pop() returns (r: Range)
      requires Valid() && sp > 0
      modifies this
      ensures Valid() && contents == old(contents)[..|old(contents)| - 1] && r == old(contents)[|old(contents)| - 1]
    {
      assert Opened(0);
      sp := sp - 1;
      r := data[sp];
      contents := contents[..sp];
    }
  }

  /** The body of the main loop: sort the stretch just popped, or split it, smaller half on top. */
  method SortTop(fmap: array<int>, eclass: array<int>, lo: int, hi: int, r0: int,
                 ghost stk: seq<Range>, ghost loSt: int, ghost hiSt: int)
    returns (r: int, pushes: seq<Range>)
    requires fmap != eclass && fmap.Length <= 900000 && 0 <= r0 < 32768
    requires Pending(fmap[..], eclass[..], stk, loSt, hiSt) && stk != [] && stk[|stk| - 1] == Range(lo, hi)
    modifies fmap
    ensures 0 <= r < 32768 && (pushes == [] || (|pushes| == 2 && |stk| <= 17))
    ensures Pending(fmap[..], eclass[..], stk[..|stk| - 1] + pushes, loSt, hiSt)
    ensures Shuffled(old(fmap[..]), fmap[..], lo, hi + 1) && loSt <= lo && hi <= hiSt
    ensures Work(stk[..|stk| - 1] + pushes) < Work(stk)
      || (pushes == [] && Work(stk[..|stk| - 1] + pushes) <= Work(stk))
  {
    ghost var s := fmap[..];
    r, pushes := r0, [];
    PendingTop(s, eclass[..], stk, loSt, hiSt);
    assert stk[..|stk| - 1] + [] == stk[..|stk| - 1];
    if hi - lo < 10 {
      SimpleSort(fmap, eclass, lo, hi);
      PopDone(s, fmap[..], eclass[..], stk, loSt, hiSt);
      return;
    }
    SplitDepth(stk, hiSt - loSt + 1);
    var constant, n, m;
    ghost var med;
    r, constant, n, m, med := Divide(fmap, eclass, lo, hi, r);
    if constant {
      PopDone(s, fmap[..], eclass[..], stk, loSt, hiSt);
      return;
    }
    if n - lo > hi - m {
      pushes := [Range(lo, n), Range(m, hi)];
    } else {
      pushes := [Range(m, hi), Range(lo, n)];
    }
    PushParts(s, fmap[..], eclass[..], stk, loSt, hiSt, med, pushes[0], pushes[1]);
  }

  /** fallbackQSort3: sorts `fmap[loSt .. hiSt]` by `eclass`, touching nothing else, and never comes
      near the end of its stack (assertion 1004). */
  method QSort3(fmap: array<int>, eclass: array<int>, loSt: int, hiSt: int)
    requires fmap != eclass && 0 <= loSt <= hiSt < fmap.Length <= 900000
    requires InRange(fmap[..], eclass[..])
    modifies fmap
    ensures Shuffled(old(fmap[..]), fmap[..], loSt, hiSt + 1)
    ensures InRange(fmap[..], eclass[..]) && SortedBy(fmap[..], eclass[..], loSt, hiSt + 1)
  {
    ghost var s0, ec := fmap[..], eclass[..];
    var r := 0;
    var stack := new RangeStack();
    stack.Push(Range(loSt, hiSt));
    StartPending(s0, ec, loSt, hiSt);
    while stack.sp > 0
      invariant stack.Valid() && fresh(stack) && fresh(stack.data) && |stack.contents| <= 18
      invariant 0 <= r < 32768
      invariant Pending(fmap[..], ec, stack.contents, loSt, hiSt)
      invariant Shuffled(s0, fmap[..], loSt, hiSt + 1)
      decreases Work(stack.contents), |stack.contents|
    {
      assert stack.sp < 99;
      ghost var stk := stack.contents;
      var top := stack.Pop();
      var pushes;
      ghost var cur := fmap[..];
      r, pushes := SortTop(fmap, eclass, top.lo, top.hi, r, stk, loSt, hiSt);
      ShuffledTrans(s0, cur, fmap[..], loSt, hiSt + 1, top.lo, top.hi + 1);
      stack.PushAll(pushes);
    }
    PendingEmpty(fmap[..], ec, loSt, hiSt);
  }

  lemma StartPending(s: seq<int>, ec: seq<int>, lo: int, hi: int)
    requires InRange(s, ec) && 0 <= lo <= hi < |s|
    ensures Pending(s, ec, [Range(lo, hi)], lo, hi)
  {
    var stk := [Range(lo, hi)];
    forall p, q | lo <= p < q <= hi
      ensures Together(stk, p, q)
    {
      assert stk[0].lo <= p && q <= stk[0].hi;
    }
  }

  lemma PendingEmpty(s: seq<int>, ec: seq<int>, lo: int, hi: int)
    requires Pending(s, ec, [], lo, hi)
    ensures SortedBy(s, ec, lo, hi + 1)
  {
    assert OpenedParts(0);
  }
}
