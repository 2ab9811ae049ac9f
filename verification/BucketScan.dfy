/** Step 2 of mainSort (blocksort.c:911-946): one scan over big bucket `ss` puts every small bucket `[t, ss]` in
    order. */
module BucketScan {
  import opened Basics
  import opened Rotations
  import opened InverseBwt

  // ----- The order of rotations -----

  /** Putting the same character in front of two rotations keeps their order. */
  lemma PredOrder(b: Block, q: int, q': int)
    requires 0 <= q < |b| && 0 <= q' < |b| && b[Prev(q, |b|)] == b[Prev(q', |b|)]
    ensures Cmp(b, Prev(q, |b|), Prev(q', |b|), |b|) == Cmp(b, q, q', |b|)
  {
    var n := |b|;
    var r, r' := Prev(q, n), Prev(q', n);
    CmpSplit(b, r, r', 1, n - 1);
    CmpSplit(b, r + 1, r' + 1, n - 1, 1);
    assert Cmp(b, r, r', 1) == 0 by {
      assert Cmp(b, r, r', 0) == 0 && At(b, r, 0) == b[r] && At(b, r', 0) == b[r'];
    }
    assert Cmp(b, r + 1 + (n - 1), r' + 1 + (n - 1), 1) == 0 by {
      assert At(b, r + n, 0) == b[r] && At(b, r' + n, 0) == b[r'];
    }
    CmpLap(b, q, q', n);
    assert (r + 1 == q || r + 1 == q + n) && (r' + 1 == q' || r' + 1 == q' + n);
  }

  /** Rotation `r` is `m` copies of `ss`, then something smaller (`up`) or larger. */
  ghost predicate RunThen(b: Block, ss: byte, up: bool, r: int, m: int)
    requires |b| > 0
  {
    && 0 <= r < |b| && 1 <= m && (forall k :: 0 <= k < m ==> At(b, r, k) == ss)
    && if up then At(b, r, m) < ss else At(b, r, m) > ss
  }

  /** It starts with `ss`, and the run of `ss` ends below (`up`) or above. */
  ghost predicate OnSide(b: Block, ss: byte, up: bool, r: int)
    requires |b| > 0
  {
    exists m :: RunThen(b, ss, up, r, m)
  }

  lemma RunShort(b: Block, ss: byte, up: bool, r: int, m: int)
    requires |b| > 0 && RunThen(b, ss, up, r, m)
    ensures m < |b|
  {
    assert m < |b| || At(b, r, m) == At(b, r, m - |b|);
  }

  lemma LowFirst(b: Block, ss: byte, r: int, s: int)
    requires |b| > 0 && OnSide(b, ss, true, r) && OnSide(b, ss, false, s)
    ensures Cmp(b, r, s, |b|) < 0
  {
    var m :| RunThen(b, ss, true, r, m);
    var m' :| RunThen(b, ss, false, s, m');
    RunShort(b, ss, true, r, m);
    RunShort(b, ss, false, s, m');
    var k := Min(m, m');
    assert SamePrefix(b, r, s, k);
    assert DiffersAt(b, r, s, k);
    CmpMeaning(b, r, s, |b|);
  }

  lemma SidesApart(b: Block, ss: byte, r: int)
    requires |b| > 0 && OnSide(b, ss, true, r)
    ensures !OnSide(b, ss, false, r)
  {
    if OnSide(b, ss, false, r) {
      LowFirst(b, ss, r, r);
      CmpFlip(b, r, r, |b|);
    }
  }

  /** Unless the block is one repeated byte, every rotation of the big bucket is on one side. */
  lemma SomeSide(b: Block, ss: byte, r: int)
    requires 0 <= r < |b| && b[r] == ss && exists i :: 0 <= i < |b| && b[i] != ss
    ensures OnSide(b, ss, true, r) || OnSide(b, ss, false, r)
  {
    var i :| 0 <= i < |b| && b[i] != ss;
    var far := if i >= r then i - r else i + |b| - r;
    assert Cyc(b, i) == b[i] && Cyc(b, i + |b|) == Cyc(b, i);
    assert At(b, r, far) == b[i];
    var m := FirstOther(b, ss, r, far);
    assert RunThen(b, ss, true, r, m) || RunThen(b, ss, false, r, m);
  }

  lemma FirstOther(b: Block, ss: byte, r: int, far: nat) returns (m: nat)
    requires 0 <= r < |b| && At(b, r, far) != ss
    ensures m <= far && At(b, r, m) != ss && forall k :: 0 <= k < m ==> At(b, r, k) == ss
  {
    m := 0;
    while At(b, r, m) == ss
      invariant m <= far && forall k :: 0 <= k < m ==> At(b, r, k) == ss
      decreases far - m
    {
      m := m + 1;
    }
  }

  /** One more `ss` in front. */
  lemma PredSide(b: Block, ss: byte, up: bool, q: int)
    requires 0 <= q < |b| && OnSide(b, ss, up, q) && b[Prev(q, |b|)] == ss
    ensures OnSide(b, ss, up, Prev(q, |b|))
  {
    var m :| RunThen(b, ss, up, q, m);
    var r := Prev(q, |b|);
    assert forall k: nat :: At(b, r, k + 1) == At(b, q, k);
    assert At(b, r, 0) == ss;
    forall k | 0 <= k < m + 1
      ensures At(b, r, k) == ss
    {
      if k > 0 {
        assert At(b, r, k - 1 + 1) == At(b, q, k - 1);
      }
    }
    assert At(b, r, m + 1) == At(b, q, m);
    assert RunThen(b, ss, up, r, m + 1);
  }

  // ----- The predecessors that go to one bucket -----

  /** Rotations, by start position. */
  ghost predicate Starts(b: Block, q: seq<int>)
  {
    forall i :: 0 <= i < |q| ==> 0 <= q[i] < |b|
  }

  /** In order, or in reverse order. */
  ghost predicate Ordered(b: Block, q: seq<int>, up: bool)
    requires Starts(b, q) && |b| > 0
  {
    forall i, j :: 0 <= i < j < |q| ==> if up then Cmp(b, q[i], q[j], |b|) <= 0 else Cmp(b, q[j], q[i], |b|) <= 0
  }

  /** The predecessors of `q` that start with `t`, in the order of `q`. */
  ghost function Preds(b: Block, q: seq<int>, t: int): (s: seq<int>)
    requires Starts(b, q)
    ensures Starts(b, s)
  {
    if q == [] then []
    else
      var r := Prev(q[|q| - 1], |b|);
      Preds(b, q[..|q| - 1], t) + if b[r] == t then [r] else []
  }

  /** The source of a predecessor in the list. */
  lemma {:induction false} PredSource(b: Block, q: seq<int>, t: int, k: int) returns (i: int)
    requires Starts(b, q) && 0 <= k < |Preds(b, q, t)|
    ensures 0 <= i < |q| && Preds(b, q, t)[k] == Prev(q[i], |b|) && b[Prev(q[i], |b|)] == t
  {
    var n := |q| - 1;
    if k < |Preds(b, q[..n], t)| {
      i := PredSource(b, q[..n], t, k);
    } else {
      i := n;
    }
  }

  lemma {:induction false} PredListed(b: Block, q: seq<int>, t: int, i: int)
    requires Starts(b, q) && 0 <= i < |q| && b[Prev(q[i], |b|)] == t
    ensures Prev(q[i], |b|) in Preds(b, q, t)
  {
    var n := |q| - 1;
    if i < n {
      PredListed(b, q[..n], t, i);
    }
  }

  lemma PrevInjective(x: int, y: int, n: int)
    requires 0 <= x < n && 0 <= y < n && Prev(x, n) == Prev(y, n)
    ensures x == y
  {
  }

  lemma {:induction false} PredsOrdered(b: Block, q: seq<int>, t: int, up: bool)
    requires |b| > 0 && Starts(b, q) && Injective(q) && Ordered(b, q, up)
    ensures Injective(Preds(b, q, t)) && Ordered(b, Preds(b, q, t), up)
  {
    if q != [] {
      var n := |q| - 1;
      var q', r := q[..n], Prev(q[n], |b|);
      PredsOrdered(b, q', t, up);
      if b[r] == t {
        forall k | 0 <= k < |Preds(b, q', t)|
          ensures Preds(b, q', t)[k] != r
          ensures var s := Preds(b, q', t)[k]; if up then Cmp(b, s, r, |b|) <= 0 else Cmp(b, r, s, |b|) <= 0
        {
          var i := PredSource(b, q', t, k);
          if Preds(b, q', t)[k] == r {
            PrevInjective(q'[i], q[n], |b|);
          }
          PredOrder(b, q[i], q[n]);
          PredOrder(b, q[n], q[i]);
        }
      }
    }
  }

  // ----- Bucket sizes -----

  /** The first two characters of a rotation. */
  function Pair(b: Block, r: int): (p: int)
    requires 0 <= r < |b|
  {
    256 * b[r] + At(b, r, 1)
  }

  function Pairs(b: Block): (s: seq<int>)
    ensures |s| == |b| && forall r :: 0 <= r < |b| ==> s[r] == Pair(b, r)
  {
    seq(|b|, r requires 0 <= r < |b| => Pair(b, r))
  }

  lemma MemberSplit<T>(q: seq<T>, x: T) returns (j: int)
    requires x in q
    ensures 0 <= j < |q| && q[j] == x
  {
    j :| 0 <= j < |q| && q[j] == x;
  }

  /** Distinct positions that all hold `p` number at most the count of `p`. */
  lemma {:induction false} CountAtLeast(s: seq<int>, p: int, q: seq<int>)
    requires Injective(q) && forall i :: 0 <= i < |q| ==> 0 <= q[i] < |s| && s[q[i]] == p
    ensures |q| <= Count(s, p)
  {
    if s == [] {
      Pigeonhole(q, 0);
    } else {
      var n := |s| - 1;
      if n in q {
        var j := MemberSplit(q, n);
        CountAtLeast(s[..n], p, q[..j] + q[j + 1..]);
      } else {
        CountAtLeast(s[..n], p, q);
      }
    }
  }

  /** If they are all such positions, they number exactly that. */
  lemma {:induction false} CountAll(s: seq<int>, p: int, q: seq<int>)
    requires forall r :: 0 <= r < |s| && s[r] == p ==> r in q
    ensures Count(s, p) <= |q|
  {
    if s != [] {
      var n := |s| - 1;
      if s[n] == p {
        var j := MemberSplit(q, n);
        var q' := q[..j] + q[j + 1..];
        forall r | 0 <= r < n && s[..n][r] == p
          ensures r in q'
        {
          var i := MemberSplit(q, r);
          if i < j { assert q'[i] == r; } else { assert q'[i - 1] == r; }
        }
        CountAll(s[..n], p, q');
      } else {
        forall r | 0 <= r < n && s[..n][r] == p
          ensures r in q
        {
          assert s[r] == p;
        }
        CountAll(s[..n], p, q);
      }
    }
  }

  lemma PredsSnoc(b: Block, q: seq<int>, x: int, t: int)
    requires Starts(b, q) && 0 <= x < |b|
    ensures Starts(b, q + [x])
    ensures var r := Prev(x, |b|); Preds(b, q + [x], t) == Preds(b, q, t) + if b[r] == t then [r] else []
  {
    assert (q + [x])[..|q|] == q;
  }

  lemma PredsAppendStep(b: Block, q: seq<int>, h: seq<int>, x: int, t: int)
    requires Starts(b, q) && Starts(b, h) && Starts(b, q + h) && 0 <= x < |b|
    requires Preds(b, q + h, t) == Preds(b, q, t) + Preds(b, h, t)
    ensures Starts(b, h + [x]) && Starts(b, q + (h + [x]))
    ensures Preds(b, q + (h + [x]), t) == Preds(b, q, t) + Preds(b, h + [x], t)
  {
    PredsSnoc(b, q + h, x, t);
    PredsSnoc(b, h, x, t);
    ConcatAssoc(q, h, [x]);
    var r := Prev(x, |b|);
    ConcatAssoc(Preds(b, q, t), Preds(b, h, t), if b[r] == t then [r] else []);
  }

  lemma {:induction false} PredsAppend(b: Block, q: seq<int>, q': seq<int>, t: int)
    requires Starts(b, q) && Starts(b, q')
    ensures Starts(b, q + q') && Preds(b, q + q', t) == Preds(b, q, t) + Preds(b, q', t)
  {
    if q' == [] {
      assert q + q' == q;
    } else {
      var n := |q'| - 1;
      PredsAppend(b, q, q'[..n], t);
      PredsAppendStep(b, q, q'[..n], q'[n], t);
      assert q'[..n] + [q'[n]] == q';
    }
  }

  lemma {:induction false} PredsInjective(b: Block, q: seq<int>, t: int)
    requires Starts(b, q) && Injective(q)
    ensures Injective(Preds(b, q, t))
  {
    if q != [] {
      var n := |q| - 1;
      PredsInjective(b, q[..n], t);
      forall k | 0 <= k < |Preds(b, q[..n], t)|
        ensures Preds(b, q[..n], t)[k] != Prev(q[n], |b|)
      {
        var i := PredSource(b, q[..n], t, k);
        if Preds(b, q[..n], t)[k] == Prev(q[n], |b|) {
          PrevInjective(q[i], q[n], |b|);
        }
      }
    }
  }

  /** Distinct rotations of the big bucket send no more predecessors to `[t, ss]` than it has cells. */
  lemma PredsFit(b: Block, q: seq<int>, t: int, ss: byte)
    requires Starts(b, q) && Injective(q) && forall i :: 0 <= i < |q| ==> b[q[i]] == ss
    ensures |Preds(b, q, t)| <= Count(Pairs(b), 256 * t + ss)
  {
    var s := Preds(b, q, t);
    PredsInjective(b, q, t);
    forall k | 0 <= k < |s|
      ensures 0 <= s[k] < |b| && Pairs(b)[s[k]] == 256 * t + ss
    {
      var i := PredSource(b, q, t, k);
      PredPair(b, q[i], ss);
    }
    CountAtLeast(Pairs(b), 256 * t + ss, s);
  }

  lemma PredPair(b: Block, q: int, ss: byte)
    requires 0 <= q < |b| && b[q] == ss
    ensures Pair(b, Prev(q, |b|)) == 256 * b[Prev(q, |b|)] + ss
  {
    assert Cyc(b, q) == ss && Cyc(b, q + |b|) == Cyc(b, q);
  }

  // ----- Where things lie -----

  /** First cell of small bucket `[t, ss]`. */
  ghost function BucketLo(b: Block, t: int, ss: int): (p: int) { CountLess(Pairs(b), 256 * t + ss) }

  /** One past its last cell. */
  ghost function BucketHi(b: Block, t: int, ss: int): (p: int) { CountLess(Pairs(b), 256 * t + ss + 1) }

  /** Its `k`-th cell from the left (`up`) or from the right. */
  ghost function CellOf(b: Block, t: int, ss: int, up: bool, k: int): (p: int)
  {
    if up then BucketLo(b, t, ss) + k else BucketHi(b, t, ss) - 1 - k
  }

  lemma BucketSize(b: Block, t: int, ss: int)
    ensures BucketHi(b, t, ss) - BucketLo(b, t, ss) == Count(Pairs(b), 256 * t + ss)
    ensures 0 <= BucketLo(b, t, ss) <= BucketHi(b, t, ss) <= |b|
  {
    CountLessStep(Pairs(b), 256 * t + ss);
  }

  lemma BucketsApart(b: Block, t: int, u: int, ss: int)
    requires t < u
    ensures BucketHi(b, t, ss) <= BucketLo(b, u, ss)
  {
    CountLessMono(Pairs(b), 256 * t + ss + 1, 256 * u + ss);
  }

  /** Cells of different buckets, or different cells of one, are different. */
  lemma CellsDiffer(b: Block, t: int, u: int, ss: int, up: bool, k: int, up': bool, k': int)
    requires 0 <= k < Count(Pairs(b), 256 * t + ss) && 0 <= k' < Count(Pairs(b), 256 * u + ss)
    requires t != u || (up == up' && k != k') || (up != up' && k + k' < Count(Pairs(b), 256 * t + ss) - 1)
    ensures CellOf(b, t, ss, up, k) != CellOf(b, u, ss, up', k')
  {
    BucketSize(b, t, ss);
    BucketSize(b, u, ss);
    if t < u {
      BucketsApart(b, t, u, ss);
    } else if u < t {
      BucketsApart(b, u, t, ss);
    }
  }

  lemma CellInRange(b: Block, t: int, ss: int, up: bool, k: int)
    requires 0 <= k < Count(Pairs(b), 256 * t + ss)
    ensures BucketLo(b, t, ss) <= CellOf(b, t, ss, up, k) < BucketHi(b, t, ss) && 0 <= CellOf(b, t, ss, up, k) < |b|
  {
    BucketSize(b, t, ss);
  }

  /** Cell `k` of the part of the big bucket read first: its smaller second characters from the left,
      or its larger ones from the right. */
  ghost function BaseCell(b: Block, ss: int, up: bool, k: int): (p: int)
  {
    if up then CountLess(Pairs(b), 256 * ss) + k else CountLess(Pairs(b), 256 * ss + 256) - 1 - k
  }

  ghost function BaseSize(b: Block, ss: int, up: bool): (n: int)
  {
    if up then BucketLo(b, ss, ss) - CountLess(Pairs(b), 256 * ss)
    else CountLess(Pairs(b), 256 * ss + 256) - BucketHi(b, ss, ss)
  }

  lemma BaseApart(b: Block, ss: byte, up: bool, k: int, t: int, up': bool, k': int)
    requires 0 <= k < BaseSize(b, ss, up) && 0 <= k' < Count(Pairs(b), 256 * t + ss)
    ensures 0 <= BaseCell(b, ss, up, k) < |b| && BaseCell(b, ss, up, k) != CellOf(b, t, ss, up', k')
  {
    var p := Pairs(b);
    BucketSize(b, ss, ss);
    CellInRange(b, t, ss, up', k');
    if t < ss {
      CountLessMono(p, 256 * t + ss + 1, 256 * ss);
      BucketsApart(b, t, ss, ss);
    } else if t > ss {
      CountLessMono(p, 256 * ss + 256, 256 * t + ss);
      BucketsApart(b, ss, t, ss);
    }
  }

  /** The cells of `[ss, ss]` follow on from those read first. */
  lemma BaseContinues(b: Block, ss: int, up: bool, k: int)
    ensures BaseCell(b, ss, up, BaseSize(b, ss, up) + k) == CellOf(b, ss, ss, up, k)
  {
  }

  // ----- The list of rotations read -----

  /** Its second character is smaller than `ss` (`up`) or larger. */
  predicate SecondOnSide(b: Block, ss: byte, up: bool, r: int)
    requires 0 <= r < |b|
  {
    b[r] == ss && if up then At(b, r, 1) < ss else At(b, r, 1) > ss
  }

  /** The small buckets `[ss, j]` on one side of `[ss, ss]`, sorted and complete. */
  ghost predicate IsBase(b: Block, ss: byte, up: bool, base: seq<int>)
    requires |b| > 0
  {
    && Starts(b, base) && Injective(base) && Ordered(b, base, up) && |base| == BaseSize(b, ss, up)
    && (forall i :: 0 <= i < |base| ==> SecondOnSide(b, ss, up, base[i]))
    && (forall r :: 0 <= r < |b| && SecondOnSide(b, ss, up, r) ==> r in base)
  }

  lemma BaseOnSide(b: Block, ss: byte, up: bool, r: int)
    requires 0 <= r < |b| && SecondOnSide(b, ss, up, r)
    ensures OnSide(b, ss, up, r)
  {
    assert RunThen(b, ss, up, r, 1);
  }

  lemma SideStarts(b: Block, ss: byte, up: bool, r: int)
    requires |b| > 0 && OnSide(b, ss, up, r)
    ensures 0 <= r < |b| && b[r] == ss
  {
    var m :| RunThen(b, ss, up, r, m);
    assert At(b, r, 0) == ss;
  }

  /** A different second character decides. */
  lemma SecondDecides(b: Block, ss: byte, up: bool, x: int, r: int)
    requires 0 <= x < |b| && 0 <= r < |b| && SecondOnSide(b, ss, up, x) && b[r] == ss && At(b, r, 1) == ss
    ensures x != r && if up then Cmp(b, x, r, |b|) <= 0 else Cmp(b, r, x, |b|) <= 0
  {
    assert RunThen(b, ss, up, x, 1);
    RunShort(b, ss, up, x, 1);
    assert At(b, x, 0) == At(b, r, 0) == ss;
    CmpMeaning(b, x, r, |b|);
    CmpMeaning(b, r, x, |b|);
    if up {
      assert DiffersAt(b, x, r, 1);
    } else {
      assert DiffersAt(b, r, x, 1);
    }
  }

  /** Distinct rotations of one side of the big bucket, in order. */
  ghost predicate SideList(b: Block, ss: byte, up: bool, q: seq<int>)
    requires |b| > 0
  {
    Starts(b, q) && Injective(q) && Ordered(b, q, up) && forall i :: 0 <= i < |q| ==> OnSide(b, ss, up, q[i])
  }

  /** What is read next: the base, then the predecessors in `[ss, ss]` of what has been read. */
  lemma NextList(b: Block, ss: byte, up: bool, base: seq<int>, q: seq<int>)
    requires |b| > 0 && IsBase(b, ss, up, base) && SideList(b, ss, up, q)
    ensures SideList(b, ss, up, base + Preds(b, q, ss))
  {
    var out := Preds(b, q, ss);
    var list := base + out;
    PredsOrdered(b, q, ss, up);
    forall k | 0 <= k < |out|
      ensures OnSide(b, ss, up, out[k]) && b[out[k]] == ss && At(b, out[k], 1) == ss
    {
      var i := PredSource(b, q, ss, k);
      PredSide(b, ss, up, q[i]);
      SideStarts(b, ss, up, q[i]);
      PredPair(b, q[i], ss);
    }
    forall i | 0 <= i < |base|
      ensures OnSide(b, ss, up, base[i])
    {
      BaseOnSide(b, ss, up, base[i]);
    }
    forall i, k | 0 <= i < |base| && 0 <= k < |out|
      ensures base[i] != out[k] && if up then Cmp(b, base[i], out[k], |b|) <= 0 else Cmp(b, out[k], base[i], |b|) <= 0
    {
      SecondDecides(b, ss, up, base[i], out[k]);
    }
  }

  ghost predicate Listed(b: Block, ss: byte, up: bool, base: seq<int>, list: seq<int>, i: int)
    requires |b| > 0
  {
    SideList(b, ss, up, list) && 0 <= i <= |list| && list == base + Preds(b, list[..i], ss)
  }

  lemma SidePrefix(b: Block, ss: byte, up: bool, q: seq<int>, i: int)
    requires |b| > 0 && SideList(b, ss, up, q) && 0 <= i <= |q|
    ensures SideList(b, ss, up, q[..i])
  {
  }

  lemma ListedStep(b: Block, ss: byte, up: bool, base: seq<int>, list: seq<int>, i: int)
    requires |b| > 0 && IsBase(b, ss, up, base) && Listed(b, ss, up, base, list, i) && i < |list|
    ensures var r := Prev(list[i], |b|);
      Listed(b, ss, up, base, if b[r] == ss then list + [r] else list, i + 1)
  {
    var r := Prev(list[i], |b|);
    var list' := if b[r] == ss then list + [r] else list;
    assert list[..i + 1][..i] == list[..i] && list'[..i + 1] == list[..i + 1];
    SidePrefix(b, ss, up, list, i + 1);
    NextList(b, ss, up, base, list[..i + 1]);
    assert list' == base + Preds(b, list[..i + 1], ss);
  }

  /** When everything listed has been read, the whole side has. */
  lemma {:induction false} SideCovered(b: Block, ss: byte, up: bool, base: seq<int>, list: seq<int>, r: int, m: int)
    requires |b| > 0 && IsBase(b, ss, up, base) && Listed(b, ss, up, base, list, |list|) && RunThen(b, ss, up, r, m)
    ensures r in list
    decreases m
  {
    assert list[..|list|] == list;
    assert At(b, r, 0) == ss;
    if m == 1 {
      assert SecondOnSide(b, ss, up, r);
    } else {
      var q := if r == |b| - 1 then 0 else r + 1;
      assert forall k: nat :: At(b, q, k) == At(b, r, k + 1);
      assert RunThen(b, ss, up, q, m - 1) by {
        forall k | 0 <= k < m - 1
          ensures At(b, q, k) == ss
        {
          assert At(b, q, k) == At(b, r, k + 1);
        }
        assert At(b, q, m - 1) == At(b, r, m - 1 + 1);
      }
      SideCovered(b, ss, up, base, list, q, m - 1);
      var i := MemberSplit(list, q);
      PredListed(b, list, ss, i);
    }
  }

  // ----- What has been written -----

  /** `out` fills bucket `[t, ss]` from one end. */
  ghost predicate PlacedAt(b: Block, ss: byte, up: bool, ptr: seq<int>, t: int, out: seq<int>)
  {
    && |ptr| == |b| && |out| <= Count(Pairs(b), 256 * t + ss)
    && forall k :: 0 <= k < |out| ==> HoldsAt(ptr, CellOf(b, t, ss, up, k), out[k])
  }

  ghost predicate HoldsAt(ptr: seq<int>, p: int, v: int)
  {
    0 <= p < |ptr| && ptr[p] == v
  }

  ghost predicate Placed(b: Block, ss: byte, done: seq<bool>, up: bool, ptr: seq<int>, q: seq<int>)
    requires Starts(b, q)
  {
    |done| == 256 && forall t :: 0 <= t < 256 && !done[t] ==> PlacedAt(b, ss, up, ptr, t, Preds(b, q, t))
  }

  ghost predicate BaseIn(b: Block, ss: byte, up: bool, ptr: seq<int>, base: seq<int>)
  {
    && |base| == BaseSize(b, ss, up) && |ptr| == |b|
    && forall k :: 0 <= k < |base| ==> HoldsAt(ptr, BaseCell(b, ss, up, k), base[k])
  }

  /** Cells outside the buckets `[t, ss]` being filled are as they were. */
  ghost predicate Untouched(b: Block, ss: byte, done: seq<bool>, ptr0: seq<int>, ptr: seq<int>)
  {
    && |ptr0| == |ptr| == |b| && |done| == 256
    && forall p :: 0 <= p < |ptr| && !InBucket(b, ss, done, p) ==> ptr[p] == ptr0[p]
  }

  ghost predicate InBucket(b: Block, ss: byte, done: seq<bool>, p: int)
    requires |done| == 256
  {
    exists t :: 0 <= t < 256 && !done[t] && BucketLo(b, t, ss) <= p < BucketHi(b, t, ss)
  }

  /** A write to the next free cell of one bucket leaves other contents alone. */
  lemma KeepPlaced(b: Block, ss: byte, ptr: seq<int>, t: int, up: bool, k: int, v: int, u: int, up': bool,
                   out: seq<int>)
    requires PlacedAt(b, ss, up', ptr, u, out) && 0 <= k < Count(Pairs(b), 256 * t + ss)
    requires t != u || (up == up' && k >= |out|) || (up != up' && k + |out| < Count(Pairs(b), 256 * t + ss))
    ensures 0 <= CellOf(b, t, ss, up, k) < |ptr|
    ensures PlacedAt(b, ss, up', ptr[CellOf(b, t, ss, up, k) := v], u, out)
  {
    CellInRange(b, t, ss, up, k);
    forall k' | 0 <= k' < |out|
      ensures HoldsAt(ptr[CellOf(b, t, ss, up, k) := v], CellOf(b, u, ss, up', k'), out[k'])
    {
      assert HoldsAt(ptr, CellOf(b, u, ss, up', k'), out[k']);
      CellsDiffer(b, t, u, ss, up, k, up', k');
    }
  }

  lemma MorePlaced(b: Block, ss: byte, ptr: seq<int>, t: int, up: bool, v: int, out: seq<int>)
    requires PlacedAt(b, ss, up, ptr, t, out) && |out| < Count(Pairs(b), 256 * t + ss)
    ensures 0 <= CellOf(b, t, ss, up, |out|) < |ptr|
    ensures PlacedAt(b, ss, up, ptr[CellOf(b, t, ss, up, |out|) := v], t, out + [v])
  {
    KeepPlaced(b, ss, ptr, t, up, |out|, v, t, up, out);
  }

  lemma KeepBase(b: Block, ss: byte, ptr: seq<int>, t: int, up: bool, k: int, v: int, up': bool, base: seq<int>)
    requires BaseIn(b, ss, up', ptr, base) && 0 <= k < Count(Pairs(b), 256 * t + ss)
    ensures 0 <= CellOf(b, t, ss, up, k) < |ptr|
    ensures BaseIn(b, ss, up', ptr[CellOf(b, t, ss, up, k) := v], base)
  {
    CellInRange(b, t, ss, up, k);
    forall k' | 0 <= k' < |base|
      ensures HoldsAt(ptr[CellOf(b, t, ss, up, k) := v], BaseCell(b, ss, up', k'), base[k'])
    {
      assert HoldsAt(ptr, BaseCell(b, ss, up', k'), base[k']);
      BaseApart(b, ss, up', k', t, up, k);
    }
  }

  /** The two sides together do not overfill a bucket. */
  lemma FitBoth(b: Block, ss: byte, up: bool, other: seq<int>, q: seq<int>, t: int)
    requires |b| > 0 && SideList(b, ss, !up, other) && SideList(b, ss, up, q)
    ensures |Preds(b, other, t)| + |Preds(b, q, t)| <= Count(Pairs(b), 256 * t + ss)
  {
    var all := other + q;
    forall i | 0 <= i < |other|
      ensures b[other[i]] == ss
    {
      SideStarts(b, ss, !up, other[i]);
    }
    forall i | 0 <= i < |q|
      ensures b[q[i]] == ss
    {
      SideStarts(b, ss, up, q[i]);
    }
    forall i, j | 0 <= i < |other| && 0 <= j < |q|
      ensures other[i] != q[j]
    {
      if up { SidesApart(b, ss, q[j]); } else { SidesApart(b, ss, other[i]); }
    }
    assert Injective(all);
    PredsAppend(b, other, q, t);
    PredsFit(b, all, t, ss);
  }

  /** The lists behind the scan; proofs about cells do not look inside. */
  ghost predicate Reading(b: Block, ss: byte, up: bool, base: seq<int>, other: seq<int>, list: seq<int>, i: int)
    requires |b| > 0
  {
    forall x {:trigger Opened(x)} :: Opened(x) ==>
      IsBase(b, ss, up, base) && Listed(b, ss, up, base, list, i) && SideList(b, ss, !up, other)
  }

  ghost predicate Cursors(b: Block, ss: byte, done: seq<bool>, up: bool, cur: seq<int>, q: seq<int>)
    requires Starts(b, q)
  {
    |cur| == |done| == 256 && forall t :: 0 <= t < 256 && !done[t] ==> cur[t] == CellOf(b, t, ss, up, |Preds(b, q, t)|)
  }

  /** Everything the scan keeps track of after reading `i` entries. */
  ghost predicate Scanning(b: Block, ss: byte, done: seq<bool>, up: bool, ptr: seq<int>, cur: seq<int>,
                           base: seq<int>, other: seq<int>, list: seq<int>, i: int)
    requires |b| > 0
  {
    && Starts(b, list) && Starts(b, other) && 0 <= i <= |list| && |done| == 256 && !done[ss]
    && Reading(b, ss, up, base, other, list, i)
    && Placed(b, ss, done, up, ptr, list[..i]) && Placed(b, ss, done, !up, ptr, other) && BaseIn(b, ss, up, ptr, base)
    && Cursors(b, ss, done, up, cur, list[..i])
  }

  lemma ListShape(b: Block, ss: byte, up: bool, base: seq<int>, other: seq<int>, list: seq<int>, i: int)
    requires |b| > 0 && Starts(b, list) && 0 <= i <= |list| && Reading(b, ss, up, base, other, list, i)
    ensures list == base + Preds(b, list[..i], ss) && |list| <= |b|
  {
    assert Opened(0);
    Pigeonhole(list, |b|);
  }

  /** The entry read next. */
  lemma ReadNext(b: Block, ss: byte, done: seq<bool>, up: bool, ptr: seq<int>, cur: seq<int>,
                 base: seq<int>, other: seq<int>, list: seq<int>, i: int)
    requires |b| > 0 && Scanning(b, ss, done, up, ptr, cur, base, other, list, i)
    ensures i < |list| ==> HoldsAt(ptr, BaseCell(b, ss, up, i), list[i])
    ensures cur[ss] == BaseCell(b, ss, up, |list|) && |list| <= |b|
  {
    ListShape(b, ss, up, base, other, list, i);
    var out := Preds(b, list[..i], ss);
    assert PlacedAt(b, ss, up, ptr, ss, out);
    BaseContinues(b, ss, up, |out|);
    if i < |base| {
      assert HoldsAt(ptr, BaseCell(b, ss, up, i), base[i]);
    } else if i < |list| {
      BaseContinues(b, ss, up, i - |base|);
      assert HoldsAt(ptr, CellOf(b, ss, ss, up, i - |base|), out[i - |base|]);
    }
  }

  lemma PredsNext(b: Block, list: seq<int>, i: int, t: int)
    requires Starts(b, list) && 0 <= i < |list|
    ensures Preds(b, list[..i + 1], t)
      == Preds(b, list[..i], t) + if b[Prev(list[i], |b|)] == t then [Prev(list[i], |b|)] else []
  {
    assert list[..i + 1][..i] == list[..i];
  }

  /** The list after reading entry `i`. */
  ghost function Longer(b: Block, ss: byte, list: seq<int>, i: int): (l: seq<int>)
    requires Starts(b, list) && 0 <= i < |list|
    ensures |l| >= |list| && l[..i + 1] == list[..i + 1]
  {
    var r := Prev(list[i], |b|);
    if b[r] == ss then list + [r] else list
  }

  lemma ReadingStep(b: Block, ss: byte, up: bool, base: seq<int>, other: seq<int>, list: seq<int>, i: int)
    requires |b| > 0 && Starts(b, list) && 0 <= i < |list| && Reading(b, ss, up, base, other, list, i)
    ensures Starts(b, Longer(b, ss, list, i)) && Reading(b, ss, up, base, other, Longer(b, ss, list, i), i + 1)
  {
    assert Opened(0);
    ListedStep(b, ss, up, base, list, i);
  }

  /** A predecessor whose own big bucket is done already is not written. */
  lemma SkipStep(b: Block, ss: byte, done: seq<bool>, up: bool, ptr: seq<int>, cur: seq<int>,
                 base: seq<int>, other: seq<int>, list: seq<int>, i: int)
    requires |b| > 0 && Scanning(b, ss, done, up, ptr, cur, base, other, list, i) && i < |list|
    requires done[b[Prev(list[i], |b|)]]
    ensures Scanning(b, ss, done, up, ptr, cur, base, other, Longer(b, ss, list, i), i + 1)
  {
    ReadingStep(b, ss, up, base, other, list, i);
    SkipPlaced(b, ss, done, up, ptr, cur, list, i);
  }

  lemma SkipPlaced(b: Block, ss: byte, done: seq<bool>, up: bool, ptr: seq<int>, cur: seq<int>, list: seq<int>, i: int)
    requires Starts(b, list) && 0 <= i < |list| && |done| == 256 && done[b[Prev(list[i], |b|)]]
    requires Placed(b, ss, done, up, ptr, list[..i]) && Cursors(b, ss, done, up, cur, list[..i])
    ensures Placed(b, ss, done, up, ptr, list[..i + 1]) && Cursors(b, ss, done, up, cur, list[..i + 1])
  {
    forall t | 0 <= t < 256 && !done[t]
      ensures Preds(b, list[..i + 1], t) == Preds(b, list[..i], t)
      ensures PlacedAt(b, ss, up, ptr, t, Preds(b, list[..i], t))
    {
      PredsNext(b, list, i, t);
    }
  }

  /** Room for the new entry. */
  lemma RoomLeft(b: Block, ss: byte, up: bool, base: seq<int>, other: seq<int>, list: seq<int>, i: int, t: int)
    requires |b| > 0 && Starts(b, list) && Starts(b, other) && 0 <= i < |list|
    requires Reading(b, ss, up, base, other, list, i)
    requires t == b[Prev(list[i], |b|)]
    ensures |Preds(b, other, t)| + |Preds(b, list[..i], t)| + 1 <= Count(Pairs(b), 256 * t + ss)
  {
    assert Opened(0);
    SidePrefix(b, ss, up, list, i + 1);
    FitBoth(b, ss, up, other, list[..i + 1], t);
    PredsNext(b, list, i, t);
  }

  lemma WritePlaced(b: Block, ss: byte, done: seq<bool>, up: bool, ptr: seq<int>, list: seq<int>, i: int, t: int,
                    r: int)
    requires Starts(b, list) && 0 <= i < |list| && r == Prev(list[i], |b|) && t == b[r]
    requires Placed(b, ss, done, up, ptr, list[..i]) && !done[t]
    requires |Preds(b, list[..i], t)| < Count(Pairs(b), 256 * t + ss)
    ensures 0 <= CellOf(b, t, ss, up, |Preds(b, list[..i], t)|) < |ptr|
    ensures Placed(b, ss, done, up, ptr[CellOf(b, t, ss, up, |Preds(b, list[..i], t)|) := r], list[..i + 1])
  {
    var k := |Preds(b, list[..i], t)|;
    assert PlacedAt(b, ss, up, ptr, t, Preds(b, list[..i], t));
    CellInRange(b, t, ss, up, k);
    forall u | 0 <= u < 256 && !done[u]
      ensures PlacedAt(b, ss, up, ptr[CellOf(b, t, ss, up, k) := r], u, Preds(b, list[..i + 1], u))
    {
      PredsNext(b, list, i, u);
      assert PlacedAt(b, ss, up, ptr, u, Preds(b, list[..i], u));
      if u == t {
        MorePlaced(b, ss, ptr, t, up, r, Preds(b, list[..i], t));
      } else {
        KeepPlaced(b, ss, ptr, t, up, k, r, u, up, Preds(b, list[..i], u));
      }
    }
  }

  lemma WriteKept(b: Block, ss: byte, done: seq<bool>, up: bool, ptr: seq<int>, other: seq<int>, t: int, k: int, r: int)
    requires Starts(b, other) && 0 <= t < 256 && 0 <= k && Placed(b, ss, done, !up, ptr, other)
    requires k + |Preds(b, other, t)| < Count(Pairs(b), 256 * t + ss) && |ptr| == |b|
    ensures 0 <= CellOf(b, t, ss, up, k) < |ptr|
    ensures Placed(b, ss, done, !up, ptr[CellOf(b, t, ss, up, k) := r], other)
  {
    CellInRange(b, t, ss, up, k);
    forall u | 0 <= u < 256 && !done[u]
      ensures PlacedAt(b, ss, !up, ptr[CellOf(b, t, ss, up, k) := r], u, Preds(b, other, u))
    {
      assert PlacedAt(b, ss, !up, ptr, u, Preds(b, other, u));
      KeepPlaced(b, ss, ptr, t, up, k, r, u, !up, Preds(b, other, u));
    }
  }

  function Next(up: bool, p: int): (q: int) { if up then p + 1 else p - 1 }

  lemma CursorStep(b: Block, ss: byte, done: seq<bool>, up: bool, cur: seq<int>, list: seq<int>, i: int, t: int)
    requires Starts(b, list) && 0 <= i < |list| && t == b[Prev(list[i], |b|)]
    requires Cursors(b, ss, done, up, cur, list[..i]) && !done[t]
    ensures Cursors(b, ss, done, up, cur[t := Next(up, cur[t])], list[..i + 1])
  {
    var cur' := cur[t := Next(up, cur[t])];
    forall u | 0 <= u < 256 && !done[u]
      ensures cur'[u] == CellOf(b, u, ss, up, |Preds(b, list[..i + 1], u)|)
    {
      PredsNext(b, list, i, u);
    }
  }

  /** Writing the predecessor at its bucket's cursor and moving the cursor. */
  lemma WriteStep(b: Block, ss: byte, done: seq<bool>, up: bool, ptr: seq<int>, cur: seq<int>,
                  base: seq<int>, other: seq<int>, list: seq<int>, i: int, r: int, t: int)
    requires |b| > 0 && Scanning(b, ss, done, up, ptr, cur, base, other, list, i) && i < |list|
    requires r == Prev(list[i], |b|) && t == b[r] && !done[t]
    ensures 0 <= cur[t] < |ptr| && BucketLo(b, t, ss) <= cur[t] < BucketHi(b, t, ss)
    ensures Scanning(b, ss, done, up, ptr[cur[t] := r], cur[t := Next(up, cur[t])], base, other,
                     Longer(b, ss, list, i), i + 1)
  {
    var k := |Preds(b, list[..i], t)|;
    assert cur[t] == CellOf(b, t, ss, up, k);
    ReadingStep(b, ss, up, base, other, list, i);
    RoomLeft(b, ss, up, base, other, list, i, t);
    CellInRange(b, t, ss, up, k);
    WritePlaced(b, ss, done, up, ptr, list, i, t, r);
    WriteKept(b, ss, done, up, ptr, other, t, k, r);
    KeepBase(b, ss, ptr, t, up, k, r, up, base);
    CursorStep(b, ss, done, up, cur, list, i, t);
  }

  // ----- The scan -----

  ghost predicate OpenedScan(i: int) { true }

  /** `Scanning` with the cell `j` at hand, and what was left alone since `ptr0`. */
  ghost predicate Underway(b: Block, ss: byte, done: seq<bool>, up: bool, ptr0: seq<int>, ptr: seq<int>, cur: seq<int>,
                           base: seq<int>, other: seq<int>, list: seq<int>, i: int, j: int)
  {
    && |b| > 0 && Starts(b, list) && 0 <= i <= |list| && |done| == 256
    && forall x {:trigger OpenedScan(x)} :: OpenedScan(x) ==>
         && Scanning(b, ss, done, up, ptr, cur, base, other, list, i)
         && Untouched(b, ss, done, ptr0, ptr) && j == BaseCell(b, ss, up, i)
  }

  /** One of the two loops: read the big bucket from one end, write each predecessor to its bucket's cursor. */
  method Scan(b: Block, ptr: array<int>, done: seq<bool>, cur: array<int>, first: int, ss: byte, up: bool,
              ghost base: seq<int>, ghost other: seq<int>) returns (ghost list: seq<int>)
    requires |b| > 0 && ptr != cur && ptr.Length == |b| && cur.Length == 256 && first == BaseCell(b, ss, up, 0)
    requires Scanning(b, ss, done, up, ptr[..], cur[..], base, other, base, 0)
    modifies ptr, cur
    ensures Scanning(b, ss, done, up, ptr[..], cur[..], base, other, list, |list|)
    ensures Untouched(b, ss, done, old(ptr[..]), ptr[..])
  {
    ghost var ptr0 := ptr[..];
    Begin(b, ss, done, up, ptr0, cur[..], base, other, first);
    list := ScanFrom(b, ptr, done, cur, first, ss, up, base, other, ptr0);
    assert OpenedScan(0);
  }

  method ScanFrom(b: Block, ptr: array<int>, done: seq<bool>, cur: array<int>, first: int, ss: byte, up: bool,
                  ghost base: seq<int>, ghost other: seq<int>, ghost ptr0: seq<int>)
    returns (ghost list: seq<int>)
    requires ptr != cur && ptr.Length == |b| && cur.Length == 256
    requires Underway(b, ss, done, up, ptr0, ptr[..], cur[..], base, other, base, 0, first)
    modifies ptr, cur
    ensures exists j :: Underway(b, ss, done, up, ptr0, ptr[..], cur[..], base, other, list, |list|, j)
  {
    list := base;
    ghost var i := 0;
    var j := first;
    while if up then j < cur[ss] else j > cur[ss]
      invariant Underway(b, ss, done, up, ptr0, ptr[..], cur[..], base, other, list, i, j)
      decreases |b| - i
    {
      CursorAt(b, ss, done, up, ptr0, ptr[..], cur[..], base, other, list, i, j, cur[ss]);
      ScanOne(b, ptr, done, cur, j, ss, up, base, other, list, i, ptr0);
      list, j, i := Longer(b, ss, list, i), Next(up, j), i + 1;
    }
    CursorAt(b, ss, done, up, ptr0, ptr[..], cur[..], base, other, list, i, j, cur[ss]);
    assert i == |list|;
  }

  lemma Begin(b: Block, ss: byte, done: seq<bool>, up: bool, ptr: seq<int>, cur: seq<int>,
              base: seq<int>, other: seq<int>, first: int)
    requires |b| > 0 && Scanning(b, ss, done, up, ptr, cur, base, other, base, 0)
    requires |ptr| == |b| && first == BaseCell(b, ss, up, 0)
    ensures Underway(b, ss, done, up, ptr, ptr, cur, base, other, base, 0, first)
  {
  }

  /** The loop test tells whether the list goes on, and if so the cell at hand holds its next entry. */
  lemma CursorAt(b: Block, ss: byte, done: seq<bool>, up: bool, ptr0: seq<int>, ptr: seq<int>, cur: seq<int>,
                 base: seq<int>, other: seq<int>, list: seq<int>, i: int, j: int, at: int)
    requires Underway(b, ss, done, up, ptr0, ptr, cur, base, other, list, i, j) && |cur| == 256 && at == cur[ss]
    ensures (if up then j < at else j > at) <==> i < |list|
    ensures (i < |list| ==> HoldsAt(ptr, j, list[i])) && |list| <= |b|
  {
    assert OpenedScan(0);
    ReadNext(b, ss, done, up, ptr, cur, base, other, list, i);
  }

  lemma WriteUnderway(b: Block, ss: byte, done: seq<bool>, up: bool, ptr0: seq<int>, ptr: seq<int>, cur: seq<int>,
                      base: seq<int>, other: seq<int>, list: seq<int>, i: int, j: int, r: int, t: int)
    requires Underway(b, ss, done, up, ptr0, ptr, cur, base, other, list, i, j) && i < |list| && |cur| == 256
    requires r == Prev(list[i], |b|) && t == b[r] && !done[t]
    ensures 0 <= cur[t] < |ptr|
    ensures Underway(b, ss, done, up, ptr0, ptr[cur[t] := r], cur[t := Next(up, cur[t])], base, other,
                     Longer(b, ss, list, i), i + 1, Next(up, j))
  {
    assert OpenedScan(0);
    WriteStep(b, ss, done, up, ptr, cur, base, other, list, i, r, t);
    UntouchedWrite(b, ss, done, ptr0, ptr, t, cur[t], r);
  }

  lemma SkipUnderway(b: Block, ss: byte, done: seq<bool>, up: bool, ptr0: seq<int>, ptr: seq<int>, cur: seq<int>,
                     base: seq<int>, other: seq<int>, list: seq<int>, i: int, j: int)
    requires Underway(b, ss, done, up, ptr0, ptr, cur, base, other, list, i, j) && i < |list|
    requires done[b[Prev(list[i], |b|)]]
    ensures Underway(b, ss, done, up, ptr0, ptr, cur, base, other, Longer(b, ss, list, i), i + 1, Next(up, j))
  {
    assert OpenedScan(0);
    SkipStep(b, ss, done, up, ptr, cur, base, other, list, i);
  }

  method ScanOne(b: Block, ptr: array<int>, done: seq<bool>, cur: array<int>, j: int, ss: byte, up: bool,
                 ghost base: seq<int>, ghost other: seq<int>, ghost list: seq<int>, ghost i: int, ghost ptr0: seq<int>)
    requires ptr != cur && ptr.Length == |b| && cur.Length == 256
    requires Underway(b, ss, done, up, ptr0, ptr[..], cur[..], base, other, list, i, j)
    requires i < |list| && HoldsAt(ptr[..], j, list[i])
    modifies ptr, cur
    ensures Underway(b, ss, done, up, ptr0, ptr[..], cur[..], base, other, Longer(b, ss, list, i), i + 1, Next(up, j))
  {
    ghost var p, c := ptr[..], cur[..];
    var k := ptr[j] - 1;
    if k < 0 { k := k + |b|; }
    assert k == Prev(list[i], |b|);
    var c1 := b[k];
    if !done[c1] {
      WriteUnderway(b, ss, done, up, ptr0, p, c, base, other, list, i, j, k, c1);
      ptr[cur[c1]] := k;
      cur[c1] := Next(up, cur[c1]);
      assert ptr[..] == p[c[c1] := k];
      assert cur[..] == c[c1 := Next(up, c[c1])];
    } else {
      SkipUnderway(b, ss, done, up, ptr0, p, c, base, other, list, i, j);
    }
  }

  lemma UntouchedWrite(b: Block, ss: byte, done: seq<bool>, ptr0: seq<int>, ptr: seq<int>, t: int, p: int, v: int)
    requires Untouched(b, ss, done, ptr0, ptr) && 0 <= t < 256 && !done[t] && 0 <= p < |ptr|
    requires BucketLo(b, t, ss) <= p < BucketHi(b, t, ss)
    ensures Untouched(b, ss, done, ptr0, ptr[p := v])
  {
    assert InBucket(b, ss, done, p);
  }

  // ----- Both scans together -----

  lemma ScanStart(b: Block, ss: byte, done: seq<bool>, up: bool, ptr: seq<int>, cur: seq<int>, base: seq<int>,
                  other: seq<int>)
    requires |b| > 0 && |ptr| == |b| && |done| == |cur| == 256 && !done[ss]
    requires IsBase(b, ss, up, base) && BaseIn(b, ss, up, ptr, base) && SideList(b, ss, !up, other)
    requires Placed(b, ss, done, !up, ptr, other)
    requires forall t :: 0 <= t < 256 ==> cur[t] == CellOf(b, t, ss, up, 0)
    ensures Scanning(b, ss, done, up, ptr, cur, base, other, base, 0)
  {
    assert base[..0] == [] && base + Preds(b, base[..0], ss) == base;
    assert SideList(b, ss, up, []);
    NextList(b, ss, up, base, []);
    forall t | 0 <= t < 256
      ensures PlacedAt(b, ss, up, ptr, t, Preds(b, base[..0], t))
    {
    }
  }

  lemma NothingPlaced(b: Block, ss: byte, done: seq<bool>, up: bool, ptr: seq<int>)
    requires |b| > 0 && |ptr| == |b| && |done| == 256
    ensures SideList(b, ss, up, []) && Placed(b, ss, done, up, ptr, [])
  {
  }

  /** The first scan leaves what the second reads first. */
  lemma BaseUntouched(b: Block, ss: byte, done: seq<bool>, up: bool, ptr0: seq<int>, ptr: seq<int>, base: seq<int>)
    requires Untouched(b, ss, done, ptr0, ptr) && BaseIn(b, ss, up, ptr0, base)
    ensures BaseIn(b, ss, up, ptr, base)
  {
    forall k | 0 <= k < |base|
      ensures HoldsAt(ptr, BaseCell(b, ss, up, k), base[k])
    {
      var p := BaseCell(b, ss, up, k);
      assert HoldsAt(ptr0, p, base[k]);
      forall t | 0 <= t < 256 && !done[t]
        ensures !(BucketLo(b, t, ss) <= p < BucketHi(b, t, ss))
      {
        BucketSize(b, t, ss);
        if BucketLo(b, t, ss) <= p < BucketHi(b, t, ss) {
          BaseApart(b, ss, up, k, t, true, p - BucketLo(b, t, ss));
        }
      }
    }
  }

  ghost predicate Covers(b: Block, ss: byte, up: bool, list: seq<int>)
    requires |b| > 0
  {
    forall r :: OnSide(b, ss, up, r) ==> r in list
  }

  /** The whole of a side is in its list. */
  lemma ScannedSide(b: Block, ss: byte, up: bool, base: seq<int>, other: seq<int>, list: seq<int>)
    requires |b| > 0 && Starts(b, list) && Reading(b, ss, up, base, other, list, |list|)
    ensures SideList(b, ss, up, list) && Covers(b, ss, up, list)
  {
    assert Opened(0);
    forall r | OnSide(b, ss, up, r)
      ensures r in list
    {
      var m :| RunThen(b, ss, up, r, m);
      SideCovered(b, ss, up, base, list, r, m);
    }
  }

  ghost predicate Mixed(b: Block, ss: byte) { exists i :: 0 <= i < |b| && b[i] != ss }

  lemma PairSplit(b: Block, r: int, t: byte, ss: byte) returns (q: int)
    requires 0 <= r < |b| && Pair(b, r) == 256 * t + ss
    ensures 0 <= q < |b| && b[q] == ss && b[r] == t && Prev(q, |b|) == r
  {
    q := if r == |b| - 1 then 0 else r + 1;
    assert Cyc(b, q) == b[q] && Cyc(b, q + |b|) == Cyc(b, q);
  }

  lemma InSomeList(b: Block, ss: byte, low: seq<int>, high: seq<int>, t: byte, r: int)
    requires |b| > 0 && Mixed(b, ss) && Starts(b, low) && Starts(b, high) && 0 <= r < |b| && Pair(b, r) == 256 * t + ss
    requires Covers(b, ss, true, low) && Covers(b, ss, false, high)
    ensures r in Preds(b, low, t) || r in Preds(b, high, t)
  {
    var q := PairSplit(b, r, t, ss);
    SomeSide(b, ss, q);
    if OnSide(b, ss, true, q) {
      var i := MemberSplit(low, q);
      PredListed(b, low, t, i);
    } else {
      var i := MemberSplit(high, q);
      PredListed(b, high, t, i);
    }
  }

  /** Both sides together fill every bucket. */
  lemma AllFilled(b: Block, ss: byte, low: seq<int>, high: seq<int>, t: byte)
    requires |b| > 0 && Mixed(b, ss) && SideList(b, ss, true, low) && SideList(b, ss, false, high)
    requires Covers(b, ss, true, low) && Covers(b, ss, false, high)
    ensures |Preds(b, low, t)| + |Preds(b, high, t)| == Count(Pairs(b), 256 * t + ss)
  {
    FitSides(b, ss, low, high, t);
    EnoughPreds(b, ss, low, high, t);
  }

  lemma FitSides(b: Block, ss: byte, low: seq<int>, high: seq<int>, t: int)
    requires |b| > 0 && SideList(b, ss, true, low) && SideList(b, ss, false, high)
    ensures |Preds(b, low, t)| + |Preds(b, high, t)| <= Count(Pairs(b), 256 * t + ss)
  {
    FitBoth(b, ss, false, low, high, t);
  }

  lemma EnoughPreds(b: Block, ss: byte, low: seq<int>, high: seq<int>, t: byte)
    requires |b| > 0 && Mixed(b, ss) && Starts(b, low) && Starts(b, high)
    requires Covers(b, ss, true, low) && Covers(b, ss, false, high)
    ensures Count(Pairs(b), 256 * t + ss) <= |Preds(b, low, t)| + |Preds(b, high, t)|
  {
    var all := Preds(b, low, t) + Preds(b, high, t);
    forall r | 0 <= r < |b| && Pairs(b)[r] == 256 * t + ss
      ensures r in all
    {
      InSomeList(b, ss, low, high, t, r);
    }
    CountAll(Pairs(b), 256 * t + ss, all);
  }

  /** A predecessor from the low side comes before one from the high side. */
  lemma LowPredFirst(b: Block, ss: byte, low: seq<int>, high: seq<int>, t: int, k: int, k': int)
    requires |b| > 0 && SideList(b, ss, true, low) && SideList(b, ss, false, high)
    requires 0 <= k < |Preds(b, low, t)| && 0 <= k' < |Preds(b, high, t)|
    ensures Cmp(b, Preds(b, low, t)[k], Preds(b, high, t)[k'], |b|) < 0
  {
    var i := PredSource(b, low, t, k);
    var i' := PredSource(b, high, t, k');
    LowFirst(b, ss, low[i], high[i']);
    PredOrder(b, low[i], high[i']);
  }

  /** Bucket `[t, ss]` holds exactly its rotations, in order. */
  ghost predicate BucketSorted(b: Block, ss: byte, ptr: seq<int>, t: byte)
  {
    && |ptr| == |b| > 0
    && (forall p :: 0 <= p < |b| && BucketLo(b, t, ss) <= p < BucketHi(b, t, ss) ==>
      0 <= ptr[p] < |b| && Pair(b, ptr[p]) == 256 * t + ss)
    && forall p, q :: 0 <= p < q < |b| && BucketLo(b, t, ss) <= p && q < BucketHi(b, t, ss) ==>
      InOrder(b, ptr[p], ptr[q])
  }

  ghost predicate InOrder(b: Block, r: int, s: int)
    requires |b| > 0
  {
    0 <= r && 0 <= s && r != s && NotAfter(b, r, s, |b|)
  }

  /** What is in cell `p` of a filled bucket. */
  lemma BucketCell(b: Block, ss: byte, ptr: seq<int>, t: int, pl: seq<int>, ph: seq<int>, p: int)
    requires PlacedAt(b, ss, true, ptr, t, pl) && PlacedAt(b, ss, false, ptr, t, ph)
    requires |pl| + |ph| == Count(Pairs(b), 256 * t + ss) && BucketLo(b, t, ss) <= p < BucketHi(b, t, ss)
    ensures 0 <= p < |ptr| && BucketHi(b, t, ss) == BucketLo(b, t, ss) + |pl| + |ph|
    ensures ptr[p] == if p - BucketLo(b, t, ss) < |pl| then pl[p - BucketLo(b, t, ss)]
      else ph[BucketHi(b, t, ss) - 1 - p]
  {
    BucketSize(b, t, ss);
    var k := p - BucketLo(b, t, ss);
    if k < |pl| {
      assert HoldsAt(ptr, CellOf(b, t, ss, true, k), pl[k]);
    } else {
      var k' := BucketHi(b, t, ss) - 1 - p;
      assert HoldsAt(ptr, CellOf(b, t, ss, false, k'), ph[k']);
    }
  }

  /** The list of a bucket from left to right. */
  lemma PredsSorted(b: Block, ss: byte, low: seq<int>, high: seq<int>, t: int, x: int, y: int, fx: bool, fy: bool)
    requires |b| > 0 && SideList(b, ss, true, low) && SideList(b, ss, false, high)
    requires if fx then 0 <= x < |Preds(b, low, t)| else 0 <= x < |Preds(b, high, t)|
    requires if fy then 0 <= y < |Preds(b, low, t)| else 0 <= y < |Preds(b, high, t)|
    requires (fx && !fy) || (fx && fy && x < y) || (!fx && !fy && x > y)
    ensures InOrder(b, if fx then Preds(b, low, t)[x] else Preds(b, high, t)[x],
                    if fy then Preds(b, low, t)[y] else Preds(b, high, t)[y])
  {
    var r := if fx then Preds(b, low, t)[x] else Preds(b, high, t)[x];
    var s := if fy then Preds(b, low, t)[y] else Preds(b, high, t)[y];
    PredsOrdered(b, low, t, true);
    PredsOrdered(b, high, t, false);
    CmpMeaning(b, r, s, |b|);
    if fx && !fy {
      LowPredFirst(b, ss, low, high, t, x, y);
      CmpFlip(b, r, r, |b|);
    }
  }

  lemma PredsInBucket(b: Block, ss: byte, up: bool, q: seq<int>, t: int, k: int)
    requires |b| > 0 && SideList(b, ss, up, q) && 0 <= k < |Preds(b, q, t)|
    ensures 0 <= Preds(b, q, t)[k] < |b| && Pair(b, Preds(b, q, t)[k]) == 256 * t + ss
  {
    var i := PredSource(b, q, t, k);
    SideStarts(b, ss, up, q[i]);
    PredPair(b, q[i], ss);
  }

  /** Both halves of a filled bucket. */
  ghost predicate Halves(b: Block, ss: byte, ptr: seq<int>, low: seq<int>, high: seq<int>, t: byte)
    requires |b| > 0 && Starts(b, low) && Starts(b, high)
  {
    && PlacedAt(b, ss, true, ptr, t, Preds(b, low, t)) && PlacedAt(b, ss, false, ptr, t, Preds(b, high, t))
    && |Preds(b, low, t)| + |Preds(b, high, t)| == Count(Pairs(b), 256 * t + ss)
  }

  lemma FilledMember(b: Block, ss: byte, ptr: seq<int>, low: seq<int>, high: seq<int>, t: byte, p: int)
    requires |b| > 0 && SideList(b, ss, true, low) && SideList(b, ss, false, high) && Halves(b, ss, ptr, low, high, t)
    requires BucketLo(b, t, ss) <= p < BucketHi(b, t, ss)
    ensures 0 <= p < |ptr| && 0 <= ptr[p] < |b| && Pair(b, ptr[p]) == 256 * t + ss
  {
    var lo, hi := BucketLo(b, t, ss), BucketHi(b, t, ss);
    var pl, ph := Preds(b, low, t), Preds(b, high, t);
    BucketCell(b, ss, ptr, t, pl, ph, p);
    if p - lo < |pl| {
      PredsInBucket(b, ss, true, low, t, p - lo);
    } else {
      PredsInBucket(b, ss, false, high, t, hi - 1 - p);
    }
  }

  lemma FilledOrder(b: Block, ss: byte, ptr: seq<int>, low: seq<int>, high: seq<int>, t: byte, p: int, q: int)
    requires |b| > 0 && SideList(b, ss, true, low) && SideList(b, ss, false, high) && Halves(b, ss, ptr, low, high, t)
    requires BucketLo(b, t, ss) <= p < q < BucketHi(b, t, ss)
    ensures 0 <= p < q < |ptr| && InOrder(b, ptr[p], ptr[q])
  {
    var lo, hi := BucketLo(b, t, ss), BucketHi(b, t, ss);
    var pl, ph := Preds(b, low, t), Preds(b, high, t);
    BucketCell(b, ss, ptr, t, pl, ph, p);
    BucketCell(b, ss, ptr, t, pl, ph, q);
    var fx, fy := p - lo < |pl|, q - lo < |pl|;
    PredsSorted(b, ss, low, high, t, if fx then p - lo else hi - 1 - p, if fy then q - lo else hi - 1 - q, fx, fy);
  }

  lemma FilledSorted(b: Block, ss: byte, ptr: seq<int>, low: seq<int>, high: seq<int>, t: byte)
    requires |b| > 0 && SideList(b, ss, true, low) && SideList(b, ss, false, high) && Halves(b, ss, ptr, low, high, t)
    ensures BucketSorted(b, ss, ptr, t)
  {
    forall p | 0 <= p < |b| && BucketLo(b, t, ss) <= p < BucketHi(b, t, ss)
      ensures 0 <= ptr[p] < |b| && Pair(b, ptr[p]) == 256 * t + ss
    {
      FilledMember(b, ss, ptr, low, high, t, p);
    }
    forall p, q | 0 <= p < q < |b| && BucketLo(b, t, ss) <= p && q < BucketHi(b, t, ss)
      ensures InOrder(b, ptr[p], ptr[q])
    {
      FilledOrder(b, ss, ptr, low, high, t, p, q);
    }
  }

  lemma BothScanned(b: Block, ss: byte, done: seq<bool>, ptr: seq<int>, copyStart: seq<int>, copyEnd: seq<int>,
                    low: seq<int>, high: seq<int>)
    requires |b| > 0 && Mixed(b, ss) && SideList(b, ss, true, low) && SideList(b, ss, false, high) && |done| == 256
    requires !done[ss]
    requires Covers(b, ss, true, low) && Covers(b, ss, false, high)
    requires Placed(b, ss, done, true, ptr, low) && Placed(b, ss, done, false, ptr, high)
    requires Cursors(b, ss, done, true, copyStart, low) && Cursors(b, ss, done, false, copyEnd, high)
    ensures forall t: byte :: !done[t] ==> BucketSorted(b, ss, ptr, t)
    ensures copyStart[ss] - 1 == copyEnd[ss]
  {
    forall t: byte | !done[t]
      ensures BucketSorted(b, ss, ptr, t)
    {
      AllFilled(b, ss, low, high, t);
      assert PlacedAt(b, ss, true, ptr, t, Preds(b, low, t)) && PlacedAt(b, ss, false, ptr, t, Preds(b, high, t));
      FilledSorted(b, ss, ptr, low, high, t);
    }
    AllFilled(b, ss, low, high, ss);
    BucketSize(b, ss, ss);
  }

  /** In a block of one repeated byte nothing is read, and `[ss, ss]` is the whole block. */
  lemma OneByteBlock(b: Block, ss: byte, base: seq<int>, up: bool)
    requires |b| > 0 && !Mixed(b, ss) && IsBase(b, ss, up, base)
    ensures base == [] && BucketLo(b, ss, ss) == 0 && BucketHi(b, ss, ss) == |b|
  {
    var p := Pairs(b);
    forall r: nat
      ensures Cyc(b, r) == ss
    {
      AllSame(b, ss, r);
    }
    forall r | 0 <= r < |b|
      ensures p[r] == 256 * ss + ss
    {
      assert At(b, r, 1) == ss;
    }
    CountLessNone(p, 256 * ss + ss);
    CountLessAll(p, 256 * ss + ss + 1);
    assert |base| == BaseSize(b, ss, up) <= 0;
  }

  lemma {:induction false} AllSame(b: Block, ss: byte, r: nat)
    requires |b| > 0 && !Mixed(b, ss)
    ensures Cyc(b, r) == ss
  {
    if r >= |b| {
      AllSame(b, ss, r - |b|);
    }
  }

  method InitCursors(b: Block, ftab: seq<int>, ss: byte) returns (start: array<int>, end: array<int>)
    requires |b| > 0 && |ftab| == 65537 && forall p :: 0 <= p <= 65536 ==> ftab[p] == CountLess(Pairs(b), p)
    ensures fresh(start) && fresh(end) && start != end && start.Length == end.Length == 256
    ensures forall t :: 0 <= t < 256 ==> start[t] == CellOf(b, t, ss, true, 0) && end[t] == CellOf(b, t, ss, false, 0)
  {
    start, end := new int[256], new int[256];
    for j := 0 to 256
      invariant forall t :: 0 <= t < j ==> start[t] == CellOf(b, t, ss, true, 0) && end[t] == CellOf(b, t, ss, false, 0)
    {
      start[j], end[j] := ftab[256 * j + ss], ftab[256 * j + ss + 1] - 1;
    }
  }

  /** Step 2 (blocksort.c:911-946). `low` and `high` are the contents of the sorted small buckets `[ss, j]`,
      `j < ss` from the left and `j > ss` from the right. */
  method SynthesiseBuckets(b: Block, ptr: array<int>, ftab: seq<int>, done: seq<bool>, ss: byte,
                           ghost low: seq<int>, ghost high: seq<int>)
    returns (copyStart: seq<int>, copyEnd: seq<int>)
    requires |b| > 0 && ptr.Length == |b| && |done| == 256 && !done[ss]
    requires |ftab| == 65537 && forall p :: 0 <= p <= 65536 ==> ftab[p] == CountLess(Pairs(b), p)
    requires IsBase(b, ss, true, low) && BaseIn(b, ss, true, ptr[..], low)
    requires IsBase(b, ss, false, high) && BaseIn(b, ss, false, ptr[..], high)
    modifies ptr
    ensures |copyStart| == |copyEnd| == 256
    ensures Mixed(b, ss) ==> copyStart[ss] - 1 == copyEnd[ss]
    ensures Mixed(b, ss) ==> forall t: byte :: !done[t] ==> BucketSorted(b, ss, ptr[..], t)
    ensures !Mixed(b, ss) ==> copyStart[ss] == 0 && copyEnd[ss] == |b| - 1
    ensures Untouched(b, ss, done, old(ptr[..]), ptr[..])
  {
    var start, end := InitCursors(b, ftab, ss);
    ghost var ptr0 := ptr[..];
    NothingPlaced(b, ss, done, false, ptr0);
    ScanStart(b, ss, done, true, ptr0, start[..], low, []);
    ghost var l := Scan(b, ptr, done, start, ftab[256 * ss], ss, true, low, []);
    BaseUntouched(b, ss, done, false, ptr0, ptr[..], high);
    ghost var ptr1 := ptr[..];
    assert l[..|l|] == l;
    ScannedSide(b, ss, true, low, [], l);
    ScanStart(b, ss, done, false, ptr1, end[..], high, l);
    ghost var h := Scan(b, ptr, done, end, ftab[256 * ss + 256] - 1, ss, false, high, l);
    copyStart, copyEnd := start[..], end[..];
    BothRead(b, ss, done, ptr1, ptr[..], copyStart, copyEnd, low, high, l, h);
  }

  lemma BothRead(b: Block, ss: byte, done: seq<bool>, ptr1: seq<int>, ptr: seq<int>,
                 copyStart: seq<int>, copyEnd: seq<int>, low: seq<int>, high: seq<int>, l: seq<int>, h: seq<int>)
    requires |b| > 0 && IsBase(b, ss, true, low) && IsBase(b, ss, false, high)
    requires Scanning(b, ss, done, true, ptr1, copyStart, low, [], l, |l|)
    requires Scanning(b, ss, done, false, ptr, copyEnd, high, l, h, |h|)
    ensures |copyStart| == |copyEnd| == 256
    ensures Mixed(b, ss) ==> copyStart[ss] - 1 == copyEnd[ss]
    ensures Mixed(b, ss) ==> forall t: byte :: !done[t] ==> BucketSorted(b, ss, ptr, t)
    ensures !Mixed(b, ss) ==> copyStart[ss] == 0 && copyEnd[ss] == |b| - 1
  {
    assert l[..|l|] == l && h[..|h|] == h;
    if Mixed(b, ss) {
      ScannedSide(b, ss, true, low, [], l);
      ScannedSide(b, ss, false, high, l, h);
      BothScanned(b, ss, done, ptr, copyStart, copyEnd, l, h);
    } else {
      OneByteBlock(b, ss, low, true);
      OneByteBlock(b, ss, high, false);
      NothingRead(b, ss, true, low, [], l);
      NothingRead(b, ss, false, high, l, h);
    }
  }

  lemma NothingRead(b: Block, ss: byte, up: bool, base: seq<int>, other: seq<int>, list: seq<int>)
    requires |b| > 0 && !Mixed(b, ss) && Starts(b, list) && Reading(b, ss, up, base, other, list, |list|)
    ensures list == []
  {
    assert Opened(0);
    if list != [] {
      var m :| RunThen(b, ss, up, list[0], m);
      AllSame(b, ss, list[0] + m);
    }
  }

  // ----- What Step 2 is given -----

  lemma {:induction false} CountLessRemove(s: seq<int>, j: int, c: int)
    requires 0 <= j < |s|
    ensures CountLess(s, c) == CountLess(s[..j] + s[j + 1..], c) + if s[j] < c then 1 else 0
  {
    var n := |s| - 1;
    if j == n {
      assert s[..j] + s[j + 1..] == s[..n];
    } else {
      CountLessRemove(s[..n], j, c);
      var t := s[..j] + s[j + 1..];
      assert t[..|t| - 1] == s[..n][..j] + s[..n][j + 1..];
    }
  }

  /** Counting does not depend on the order. */
  lemma {:induction false} CountLessShuffled(s: seq<int>, t: seq<int>, c: int)
    requires multiset(s) == multiset(t)
    ensures CountLess(s, c) == CountLess(t, c)
    decreases |s|
  {
    assert |multiset(s)| == |s| && |multiset(t)| == |t|;
    if s != [] {
      var n := |s| - 1;
      assert s[n] in multiset(t);
      var j := MemberSplit(t, s[n]);
      MultisetRemove(s, n);
      MultisetRemove(t, j);
      assert s[..n] + s[n + 1..] == s[..n];
      CountLessShuffled(s[..n], t[..j] + t[j + 1..], c);
      CountLessRemove(t, j, c);
    }
  }

  ghost predicate Rising(s: seq<int>)
  {
    forall i, j :: 0 <= i < j < |s| ==> s[i] <= s[j]
  }

  /** In a sorted sequence what is below `c` comes first. */
  lemma {:induction false} CountLessSorted(s: seq<int>, c: int, p: int)
    requires Rising(s) && 0 <= p < |s|
    ensures s[p] < c <==> p < CountLess(s, c)
  {
    var n := |s| - 1;
    if s[n] < c {
      CountLessAll(s, c);
    } else if p < n {
      CountLessSorted(s[..n], c, p);
    }
  }

  /** Rotations in order have their first two characters in order. */
  lemma PairsRise(b: Block, x: int, y: int)
    requires 0 <= x < |b| && 0 <= y < |b| && x != y && NotAfter(b, x, y, |b|)
    ensures Pair(b, x) <= Pair(b, y)
  {
    assert At(b, x, 0) == b[x] && At(b, y, 0) == b[y];
    if Before(b, x, y, |b|) {
      var k :| 0 <= k < |b| && DiffersAt(b, x, y, k);
    }
  }

  /** In a sorted order a cell holds a rotation whose first two characters are below `c` exactly when it lies before
      the cell where `c` starts. */
  lemma SortedCell(b: Block, ptr: seq<int>, c: int, p: int)
    requires |b| > 0 && IsSortedOrder(b, ptr) && 0 <= p < |b|
    ensures Pair(b, ptr[p]) < c <==> p < CountLess(Pairs(b), c)
  {
    var s := Select(Pairs(b), ptr);
    forall i, j | 0 <= i < j < |s|
      ensures s[i] <= s[j]
    {
      PairsRise(b, ptr[i], ptr[j]);
    }
    SelectPermutation(Pairs(b), ptr);
    CountLessShuffled(s, Pairs(b), c);
    CountLessSorted(s, c, p);
  }

  /** The stretch that Step 2 reads first. */
  ghost function BaseOf(b: Block, ss: byte, up: bool, ptr: seq<int>): (base: seq<int>)
    requires |b| > 0 && |ptr| == |b|
  {
    seq(Max(0, BaseSize(b, ss, up)), k requires k >= 0 =>
      var p := BaseCell(b, ss, up, k);
      if 0 <= p < |ptr| then ptr[p] else 0)
  }

  /** Cells of that stretch are those whose second character is on the side asked for. */
  lemma BaseCells(b: Block, ss: byte, up: bool, ptr: seq<int>, p: int)
    requires |b| > 0 && IsSortedOrder(b, ptr) && 0 <= p < |b|
    ensures BaseSize(b, ss, up) >= 0
    ensures SecondOnSide(b, ss, up, ptr[p]) <==> exists k :: 0 <= k < BaseSize(b, ss, up) && BaseCell(b, ss, up, k) == p
  {
    var lo, hi := if up then 256 * ss else 256 * ss + ss + 1, if up then 256 * ss + ss else 256 * ss + 256;
    CountLessMono(Pairs(b), lo, hi);
    SortedCell(b, ptr, lo, p);
    SortedCell(b, ptr, hi, p);
    if lo <= Pair(b, ptr[p]) < hi {
      var k := if up then p - CountLess(Pairs(b), lo) else CountLess(Pairs(b), hi) - 1 - p;
      assert BaseCell(b, ss, up, k) == p;
    }
  }

  lemma BaseCellInRange(b: Block, ss: byte, up: bool, k: int)
    requires 0 <= k < BaseSize(b, ss, up)
    ensures 0 <= BaseCell(b, ss, up, k) < |b|
  {
    BucketSize(b, ss, ss);
    CountLessMono(Pairs(b), 256 * ss, 256 * ss + ss);
  }

  /** What Step 2 asks for is what any sorted order has in those cells: the sorted, complete small buckets on either
      side of `[ss, ss]`. */
  lemma SortedGivesBase(b: Block, ss: byte, up: bool, ptr: seq<int>)
    requires |b| > 0 && IsSortedOrder(b, ptr)
    ensures IsBase(b, ss, up, BaseOf(b, ss, up, ptr)) && BaseIn(b, ss, up, ptr, BaseOf(b, ss, up, ptr))
  {
    var base := BaseOf(b, ss, up, ptr);
    BaseCells(b, ss, up, ptr, 0);
    forall k | 0 <= k < |base|
      ensures 0 <= BaseCell(b, ss, up, k) < |b| && base[k] == ptr[BaseCell(b, ss, up, k)]
      ensures SecondOnSide(b, ss, up, base[k])
    {
      BaseCellInRange(b, ss, up, k);
      BaseCells(b, ss, up, ptr, BaseCell(b, ss, up, k));
    }
    forall i, j | 0 <= i < j < |base|
      ensures base[i] != base[j]
      ensures if up then Cmp(b, base[i], base[j], |b|) <= 0 else Cmp(b, base[j], base[i], |b|) <= 0
    {
      BaseInOrder(b, ss, up, ptr, i, j);
    }
    forall r | 0 <= r < |b| && SecondOnSide(b, ss, up, r)
      ensures r in base
    {
      var p := PermutationReaches(ptr, r);
      BaseCells(b, ss, up, ptr, p);
      var k :| 0 <= k < BaseSize(b, ss, up) && BaseCell(b, ss, up, k) == p;
      assert base[k] == r;
    }
  }

  lemma BaseInOrder(b: Block, ss: byte, up: bool, ptr: seq<int>, i: int, j: int)
    requires |b| > 0 && IsSortedOrder(b, ptr) && 0 <= i < j < BaseSize(b, ss, up)
    ensures var base := BaseOf(b, ss, up, ptr);
      && 0 <= base[i] < |b| && 0 <= base[j] < |b| && base[i] != base[j]
      && if up then Cmp(b, base[i], base[j], |b|) <= 0 else Cmp(b, base[j], base[i], |b|) <= 0
  {
    BaseCellInRange(b, ss, up, i);
    BaseCellInRange(b, ss, up, j);
    var p, q := BaseCell(b, ss, up, i), BaseCell(b, ss, up, j);
    if up {
      CmpMeaning(b, ptr[p], ptr[q], |b|);
    } else {
      CmpMeaning(b, ptr[q], ptr[p], |b|);
    }
  }
}
