/** The Burrows-Wheeler transform as a sorted rotation order, and the linked walk that undoes it. */
module InverseBwt {
  import opened Basics
  import opened Rotations

  /** `ptr` is what a block sorter must deliver: all rotations, in nondecreasing order. */
  ghost predicate IsSortedOrder(b: Block, ptr: seq<int>)
  {
    && |ptr| == |b|
    && IsPermutation(ptr)
    && forall p, q :: 0 <= p < q < |b| ==> NotAfter(b, ptr[p], ptr[q], |b|)
  }

  /** The cyclic predecessor of a position. */
  function Prev(i: int, n: int): (j: int)
    requires 0 <= i < n
    ensures 0 <= j < n
  {
    if i == 0 then n - 1 else i - 1
  }

  /** The character before each rotation, in sorted order. */
  function LastColumn(b: Block, ptr: seq<int>): (l: Block)
    requires |ptr| == |b| && forall i :: 0 <= i < |ptr| ==> 0 <= ptr[i] < |b|
    ensures |l| == |b| && forall i :: 0 <= i < |b| ==> l[i] == b[Prev(ptr[i], |b|)]
  {
    seq(|b|, i requires 0 <= i < |b| => b[Prev(ptr[i], |b|)])
  }

  // ----- All sorted orders agree on the values of the rows -----

  lemma EarlierByOrder(b: Block, p: seq<int>, j: int, k: int)
    requires |b| > 0 && IsSortedOrder(b, p) && 0 <= j < |b| && 0 <= k < |b|
    requires Before(b, p[j], p[k], |b|)
    ensures j < k
  {
    BeforeAsymmetric(b, p[j], p[k], |b|);
    assert SamePrefix(b, p[k], p[k], |b|);
  }

  lemma SmallerPrefixImpossible(b: Block, p: seq<int>, q: seq<int>, k: int)
    requires |b| > 0 && IsSortedOrder(b, p) && IsSortedOrder(b, q) && 0 <= k < |b|
    ensures !Before(b, q[k], p[k], |b|)
  {
    if Before(b, q[k], p[k], |b|) {
      var low, high := q[..k + 1], p[..k];
      forall x | x in low
        ensures x in high
      {
        var i :| 0 <= i <= k && q[i] == x;
        var j := PermutationReaches(p, x);
        assert NotAfter(b, q[i], q[k], |b|);
        NotAfterTransitive(b, x, q[k], p[k], |b|);
        EarlierByOrder(b, p, j, k);
        assert high[j] == x;
      }
      InjectiveCardinality(low);
      InjectiveCardinality(high);
      SubsetCardinality(set x | x in low, set x | x in high);
      assert false;
    }
  }

  /** Two sorted orders may break ties differently, but row by row the rotations are equal. */
  lemma SortedRowsUnique(b: Block, p: seq<int>, q: seq<int>, k: int)
    requires |b| > 0 && IsSortedOrder(b, p) && IsSortedOrder(b, q) && 0 <= k < |b|
    ensures SamePrefix(b, p[k], q[k], |b|)
  {
    SmallerPrefixImpossible(b, p, q, k);
    SmallerPrefixImpossible(b, q, p, k);
    Trichotomy(b, p[k], q[k], |b|);
  }

  lemma LastIsPrevious(b: Block, i: int)
    requires 0 <= i < |b|
    ensures At(b, i, |b| - 1) == b[Prev(i, |b|)]
  {
    if i > 0 {
      assert Cyc(b, i + |b| - 1) == Cyc(b, i - 1);
    }
  }

  /** Either sorter sends the same last column. */
  lemma LastColumnUnique(b: Block, p: seq<int>, q: seq<int>)
    requires |b| > 0 && IsSortedOrder(b, p) && IsSortedOrder(b, q)
    ensures LastColumn(b, p) == LastColumn(b, q)
  {
    forall k | 0 <= k < |b|
      ensures LastColumn(b, p)[k] == LastColumn(b, q)[k]
    {
      SortedRowsUnique(b, p, q, k);
      LastIsPrevious(b, p[k]);
      LastIsPrevious(b, q[k]);
      assert At(b, p[k], |b| - 1) == At(b, q[k], |b| - 1);
    }
  }

  // ----- Counting and ranks -----

  function CountLess(l: seq<int>, c: int): (n: nat)
    ensures n <= |l|
  {
    if l == [] then 0
    else CountLess(l[..|l| - 1], c) + if l[|l| - 1] < c then 1 else 0
  }

  function Count(l: seq<int>, c: int): (n: nat)
    ensures n <= |l|
  {
    if l == [] then 0
    else Count(l[..|l| - 1], c) + if l[|l| - 1] == c then 1 else 0
  }

  /** Where a stable sort of `l` puts position `i`. */
  function Rank(l: seq<int>, i: int): (r: nat)
    requires 0 <= i < |l|
  {
    CountLess(l, l[i]) + Count(l[..i], l[i])
  }

  lemma {:induction false} CountLessStep(l: seq<int>, c: int)
    ensures CountLess(l, c) + Count(l, c) == CountLess(l, c + 1)
  {
    if l != [] {
      CountLessStep(l[..|l| - 1], c);
    }
  }

  lemma {:induction false} CountLessMono(l: seq<int>, c: int, d: int)
    requires c <= d
    ensures CountLess(l, c) <= CountLess(l, d)
  {
    if l != [] {
      CountLessMono(l[..|l| - 1], c, d);
    }
  }

  lemma {:induction false} CountLessNone(l: seq<int>, c: int)
    requires forall i :: 0 <= i < |l| ==> l[i] >= c
    ensures CountLess(l, c) == 0
  {
    if l != [] {
      CountLessNone(l[..|l| - 1], c);
    }
  }

  lemma {:induction false} CountLessAll(l: seq<int>, c: int)
    requires forall i :: 0 <= i < |l| ==> l[i] < c
    ensures CountLess(l, c) == |l|
  {
    if l != [] {
      CountLessAll(l[..|l| - 1], c);
    }
  }

  lemma {:induction false} CountPrefixMono(l: seq<int>, i: int, j: int, c: int)
    requires 0 <= i <= j <= |l|
    ensures Count(l[..i], c) <= Count(l[..j], c)
    ensures i < j && l[i] == c ==> Count(l[..i], c) < Count(l[..j], c)
    decreases j - i
  {
    if i < j {
      assert l[..j][..j - 1] == l[..j - 1];
      CountPrefixMono(l, i, j - 1, c);
    }
  }

  lemma RankBound(l: seq<int>, i: int)
    requires 0 <= i < |l|
    ensures CountLess(l, l[i]) <= Rank(l, i) < CountLess(l, l[i] + 1) <= |l|
  {
    var c: int := l[i];
    assert Count(l[..i], c) < Count(l, c) by {
      CountPrefixMono(l, i, |l|, c);
      assert l[..|l|] == l;
    }
    CountLessStep(l, c);
  }

  ghost predicate KeyLess(l: seq<int>, i: int, j: int)
    requires 0 <= i < |l| && 0 <= j < |l|
  {
    l[i] < l[j] || (l[i] == l[j] && i < j)
  }

  lemma RankOrder(l: seq<int>, i: int, j: int)
    requires 0 <= i < |l| && 0 <= j < |l|
    ensures KeyLess(l, i, j) <==> Rank(l, i) < Rank(l, j)
  {
    RankMonotone(l, i, j);
    RankMonotone(l, j, i);
  }

  lemma RankMonotone(l: seq<int>, i: int, j: int)
    requires 0 <= i < |l| && 0 <= j < |l|
    ensures KeyLess(l, i, j) ==> Rank(l, i) < Rank(l, j)
  {
    if l[i] < l[j] {
      RankBound(l, i);
      RankBound(l, j);
      CountLessMono(l, l[i] + 1, l[j]);
    } else if l[i] == l[j] && i < j {
      CountPrefixMono(l, i, j, l[i]);
    }
  }

  function Ranks(l: seq<int>): (s: seq<int>)
    ensures |s| == |l| && forall i :: 0 <= i < |l| ==> s[i] == Rank(l, i)
  {
    seq(|l|, i requires 0 <= i < |l| => Rank(l, i))
  }

  lemma RanksPermutation(l: seq<int>)
    ensures IsPermutation(Ranks(l))
  {
    forall i | 0 <= i < |l|
      ensures 0 <= Ranks(l)[i] < |l|
    {
      RankBound(l, i);
    }
    forall i, j | 0 <= i < j < |l|
      ensures Ranks(l)[i] != Ranks(l)[j]
    {
      RankOrder(l, i, j);
      RankOrder(l, j, i);
    }
  }

  // ----- Undoing the transform -----

  /** `inv` is T^(-1): the inverse of the stable-sort placement of `l`. */
  ghost predicate IsInverse(l: Block, inv: seq<int>)
  {
    && |inv| == |l|
    && (forall p :: 0 <= p < |l| ==> 0 <= inv[p] < |l| && Rank(l, inv[p]) == p)
  }

  /** The `k` bytes fetched by following `inv` from `pos`, the byte at `pos` first. */
  function Walk(l: Block, inv: seq<int>, pos: int, k: nat): (out: Block)
    requires |inv| == |l| && forall p :: 0 <= p < |l| ==> 0 <= inv[p] < |l|
    requires 0 <= pos < |l|
    ensures |out| == k
    decreases k
  {
    if k == 0 then [] else [l[pos]] + Walk(l, inv, inv[pos], k - 1)
  }

  /** The position reached from `pos` after `k` links. */
  function Follow(inv: seq<int>, pos: int, k: nat): (p: int)
    requires forall p :: 0 <= p < |inv| ==> 0 <= inv[p] < |inv|
    requires 0 <= pos < |inv|
    ensures 0 <= p < |inv|
    decreases k
  {
    if k == 0 then pos else inv[Follow(inv, pos, k - 1)]
  }

  /** The first `n` positions on the way from `pos`. */
  ghost function Way(inv: seq<int>, pos: int, n: nat): (path: seq<int>)
    requires forall p :: 0 <= p < |inv| ==> 0 <= inv[p] < |inv|
    requires 0 <= pos < |inv|
    ensures |path| == n && forall k :: 0 <= k < n ==> path[k] == Follow(inv, pos, k)
  {
    seq(n, k requires k >= 0 => Follow(inv, pos, k))
  }

  lemma {:induction false} FollowFirst(inv: seq<int>, pos: int, k: nat)
    requires forall p :: 0 <= p < |inv| ==> 0 <= inv[p] < |inv|
    requires 0 <= pos < |inv|
    ensures Follow(inv, pos, k + 1) == Follow(inv, inv[pos], k)
  {
    if k != 0 {
      FollowFirst(inv, pos, k - 1);
    }
  }

  lemma {:induction false} WalkAt(l: Block, inv: seq<int>, pos: int, k: nat, t: nat)
    requires |inv| == |l| && forall p :: 0 <= p < |l| ==> 0 <= inv[p] < |l|
    requires 0 <= pos < |l| && t < k
    ensures Walk(l, inv, pos, k)[t] == l[Follow(inv, pos, t)]
    decreases k
  {
    if t > 0 {
      WalkAt(l, inv, inv[pos], k - 1, t - 1);
      FollowFirst(inv, pos, t - 1);
    }
  }

  /** Every column has its T^(-1), whether or not it came from a block. */
  lemma InverseExists(l: Block) returns (inv: seq<int>)
    ensures IsInverse(l, inv)
  {
    RanksPermutation(l);
    inv := [];
    while |inv| < |l|
      invariant |inv| <= |l|
      invariant forall p :: 0 <= p < |inv| ==> 0 <= inv[p] < |l| && Rank(l, inv[p]) == p
    {
      var i := PermutationReaches(Ranks(l), |inv|);
      inv := inv + [i];
    }
  }

  lemma InverseOfRank(l: Block, inv: seq<int>, i: int)
    requires IsInverse(l, inv) && 0 <= i < |l|
    ensures Rank(l, i) < |l| && inv[Rank(l, i)] == i
  {
    RanksPermutation(l);
    RankBound(l, i);
    var j := inv[Rank(l, i)];
    assert Ranks(l)[i] == Ranks(l)[j];
    assert i < j || j < i || i == j;
  }

  /** Right-rotating every sorted row and placing it by stable rank is again a sorted order. */
  function Rerotated(ptr: seq<int>, inv: seq<int>): (q: seq<int>)
    requires |ptr| == |inv|
    requires forall p :: 0 <= p < |inv| ==> 0 <= inv[p] < |inv| && 0 <= ptr[p] < |ptr|
    ensures |q| == |ptr| && forall p :: 0 <= p < |ptr| ==> q[p] == Prev(ptr[inv[p]], |ptr|)
  {
    seq(|ptr|, p requires 0 <= p < |ptr| => Prev(ptr[inv[p]], |ptr|))
  }

  lemma NextOfPrev(b: Block, x: int, y: int, h: nat)
    requires 0 <= x < |b| && 0 <= y < |b|
    ensures NotAfter(b, Prev(x, |b|) + 1, Prev(y, |b|) + 1, h) <==> NotAfter(b, x, y, h)
  {
    Lap(b, x, y, h);
    Lap(b, y, x, h);
    Lap(b, x, y + |b|, h);
  }

  lemma PrependKeepsOrder(b: Block, x: int, y: int)
    requires 0 <= x < |b| && 0 <= y < |b|
    requires b[Prev(x, |b|)] == b[Prev(y, |b|)]
    requires NotAfter(b, x, y, |b|)
    ensures NotAfter(b, Prev(x, |b|), Prev(y, |b|), |b|)
  {
    var n := |b|;
    var x', y' := Prev(x, n), Prev(y, n);
    assert NotAfter(b, x, y, n - 1) by {
      PrefixSplit(b, x, y, n - 1, 1);
    }
    NextOfPrev(b, x, y, n - 1);
    assert SamePrefix(b, x', y', 1) by {
      assert At(b, x', 0) == At(b, y', 0);
    }
    PrefixSplit(b, x', y', 1, n - 1);
  }

  lemma InverseKeys(l: Block, inv: seq<int>, i: int, j: int)
    requires IsInverse(l, inv) && 0 <= i < j < |l|
    ensures KeyLess(l, inv[i], inv[j]) && inv[i] != inv[j]
  {
    assert Rank(l, inv[i]) == i && Rank(l, inv[j]) == j;
    RankOrder(l, inv[i], inv[j]);
  }

  lemma RerotatedPair(b: Block, ptr: seq<int>, inv: seq<int>, i: int, j: int)
    requires |b| > 0 && IsSortedOrder(b, ptr) && IsInverse(LastColumn(b, ptr), inv)
    requires 0 <= i < j < |b|
    ensures Prev(ptr[inv[i]], |b|) != Prev(ptr[inv[j]], |b|)
    ensures NotAfter(b, Prev(ptr[inv[i]], |b|), Prev(ptr[inv[j]], |b|), |b|)
  {
    var l, n := LastColumn(b, ptr), |b|;
    var x, y := inv[i], inv[j];
    InverseKeys(l, inv, i, j);
    assert ptr[x] != ptr[y] by {
      assert x < y || y < x;
    }
    if l[x] < l[y] {
      assert DiffersAt(b, Prev(ptr[x], n), Prev(ptr[y], n), 0);
    } else {
      PrependKeepsOrder(b, ptr[x], ptr[y]);
    }
  }

  lemma RerotatedSorted(b: Block, ptr: seq<int>, inv: seq<int>)
    requires |b| > 0 && IsSortedOrder(b, ptr) && IsInverse(LastColumn(b, ptr), inv)
    ensures IsSortedOrder(b, Rerotated(ptr, inv))
  {
    var q := Rerotated(ptr, inv);
    assert IsPermutation(q) by {
      forall i, j | 0 <= i < j < |q|
        ensures q[i] != q[j]
      {
        RerotatedPair(b, ptr, inv, i, j);
      }
    }
    forall i, j | 0 <= i < j < |b|
      ensures NotAfter(b, q[i], q[j], |b|)
    {
      RerotatedPair(b, ptr, inv, i, j);
    }
  }

  /** Row `p` is the right rotation of row `inv[p]`, as values. */
  lemma LinkRotates(b: Block, ptr: seq<int>, inv: seq<int>, p: int)
    requires |b| > 0 && IsSortedOrder(b, ptr) && IsInverse(LastColumn(b, ptr), inv)
    requires 0 <= p < |b|
    ensures SamePrefix(b, ptr[p], Prev(ptr[inv[p]], |b|), |b|)
  {
    RerotatedSorted(b, ptr, inv);
    SortedRowsUnique(b, ptr, Rerotated(ptr, inv), p);
  }

  lemma AdvanceBoth(b: Block, x: int, m: nat)
    requires 0 <= x < |b|
    requires SamePrefix(b, Prev(x, |b|), m, |b|)
    ensures SamePrefix(b, x, m + 1, |b|)
  {
    var n, y, m' := |b|, Prev(x, |b|), m + 1;
    forall k | 0 <= k < n
      ensures At(b, x, k) == At(b, m', k)
    {
      assert At(b, x, k) == At(b, y, k + 1);
      if k + 1 < n {
        assert At(b, y, k + 1) == At(b, m, k + 1);
      } else {
        assert At(b, y, 0) == At(b, m, 0);
        assert At(b, y, n) == At(b, y, 0) && At(b, m, n) == At(b, m, 0);
      }
    }
  }

  lemma SamePrefixTrans(b: Block, x: nat, y: nat, z: nat, h: nat)
    requires |b| > 0 && SamePrefix(b, x, y, h) && SamePrefix(b, x, z, h)
    ensures SamePrefix(b, y, z, h)
  {
    forall k | 0 <= k < h
      ensures At(b, y, k) == At(b, z, k)
    {
      assert At(b, x, k) == At(b, y, k) && At(b, x, k) == At(b, z, k);
    }
  }

  /** A rotation comes back to its start. */
  lemma LapAt(b: Block, m: nat)
    requires |b| > 0
    ensures At(b, m + 1, |b| - 1) == At(b, m, 0)
  {
  }

  /** One link: the byte of the row, and the rotation one further on. */
  lemma WalkOne(b: Block, ptr: seq<int>, inv: seq<int>, pos: int, m: nat)
    requires |b| > 0 && IsSortedOrder(b, ptr) && IsInverse(LastColumn(b, ptr), inv)
    requires 0 <= pos < |b| && SamePrefix(b, ptr[pos], m + 1, |b|)
    ensures LastColumn(b, ptr)[pos] == At(b, m, 0) && SamePrefix(b, ptr[inv[pos]], m + 2, |b|)
  {
    var n := |b|;
    LinkRotates(b, ptr, inv, pos);
    SamePrefixTrans(b, ptr[pos], Prev(ptr[inv[pos]], n), m + 1, n);
    AdvanceBoth(b, ptr[inv[pos]], m + 1);
    LastIsPrevious(b, ptr[pos]);
    LapAt(b, m);
  }

  ghost predicate OpenedLinks(i: int) { true }

  /** `l` is the last column of the sorted rotations, and `inv` its T^(-1). */
  ghost predicate Linked(b: Block, ptr: seq<int>, l: Block, inv: seq<int>)
  {
    && |ptr| == |l| == |inv| == |b| && (forall p :: 0 <= p < |inv| ==> 0 <= inv[p] < |inv|)
    && forall i {:trigger OpenedLinks(i)} :: OpenedLinks(i) ==>
         IsSortedOrder(b, ptr) && l == LastColumn(b, ptr) && IsInverse(l, inv)
  }

  ghost predicate OpenedRow(i: int) { true }

  /** Rotation `r` spells the block from `m + 1` on. */
  ghost predicate RotatesTo(b: Block, r: int, m: nat)
  {
    forall i {:trigger OpenedRow(i)} :: OpenedRow(i) ==> |b| > 0 && r >= 0 && SamePrefix(b, r, m + 1, |b|)
  }

  lemma RotatesNext(b: Block, ptr: seq<int>, l: Block, inv: seq<int>, p: int, m: nat)
    requires Linked(b, ptr, l, inv) && 0 <= p < |b| && RotatesTo(b, ptr[p], m)
    ensures l[p] == At(b, m, 0) && RotatesTo(b, ptr[inv[p]], m + 1)
  {
    assert OpenedLinks(0) && OpenedRow(0);
    WalkOne(b, ptr, inv, p, m);
  }

  /** After `t` links the row spells the block from `m + 1 + t` on. */
  lemma {:induction false} FollowRotates(b: Block, ptr: seq<int>, l: Block, inv: seq<int>, p: int, m: nat, t: nat)
    requires Linked(b, ptr, l, inv) && 0 <= p < |b| && RotatesTo(b, ptr[p], m)
    ensures RotatesTo(b, ptr[Follow(inv, p, t)], m + t)
  {
    if t != 0 {
      FollowRotates(b, ptr, l, inv, p, m, t - 1);
      RotatesNext(b, ptr, l, inv, Follow(inv, p, t - 1), m + (t - 1));
    }
  }

  /** The walk reads the block from `m` on, round and round. */
  lemma WalkFrom(b: Block, ptr: seq<int>, l: Block, inv: seq<int>, p: int, m: nat, k: nat, t: nat)
    requires Linked(b, ptr, l, inv) && 0 <= p < |b| && RotatesTo(b, ptr[p], m) && t < k
    ensures Walk(l, inv, p, k)[t] == At(b, m, t)
  {
    WalkAt(l, inv, p, k, t);
    FollowRotates(b, ptr, l, inv, p, m, t);
    RotatesNext(b, ptr, l, inv, Follow(inv, p, t), m + t);
  }

  lemma FirstRow(b: Block, ptr: seq<int>, inv: seq<int>, origPtr: int)
    requires |b| > 0 && IsSortedOrder(b, ptr) && IsInverse(LastColumn(b, ptr), inv)
    requires 0 <= origPtr < |b| && ptr[origPtr] == 0
    ensures Linked(b, ptr, LastColumn(b, ptr), inv) && RotatesTo(b, ptr[inv[origPtr]], 0)
  {
    var n := |b|;
    LinkRotates(b, ptr, inv, origPtr);
    assert SamePrefix(b, ptr[origPtr], 0, n);
    SamePrefixTrans(b, ptr[origPtr], Prev(ptr[inv[origPtr]], n), 0, n);
    AdvanceBoth(b, ptr[inv[origPtr]], 0);
  }

  /** The inverse transform: for every nonempty block and every sorted order of its rotations,
      periodic blocks included, the walk from `inv[origPtr]` reads the block, over and over. */
  lemma InverseTransform(b: Block, ptr: seq<int>, inv: seq<int>, origPtr: int, k: nat)
    requires |b| > 0 && IsSortedOrder(b, ptr) && IsInverse(LastColumn(b, ptr), inv)
    requires 0 <= origPtr < |b| && ptr[origPtr] == 0
    ensures forall t :: 0 <= t < k ==> Walk(LastColumn(b, ptr), inv, inv[origPtr], k)[t] == Cyc(b, t)
    ensures k == |b| ==> Walk(LastColumn(b, ptr), inv, inv[origPtr], k) == b
  {
    FirstRow(b, ptr, inv, origPtr);
    var w := Walk(LastColumn(b, ptr), inv, inv[origPtr], k);
    forall t | 0 <= t < k
      ensures w[t] == Cyc(b, t)
    {
      WalkFrom(b, ptr, LastColumn(b, ptr), inv, inv[origPtr], 0, k, t);
    }
  }
}
