/** Merging the two lightest roots is optimal: no prefix code of the same weights is shorter. */
module HuffmanOptimal {
  import opened Basics
  import opened HuffmanTree

  // ----- Sums over some of the entries -----

  function SumOver(v: seq<int>, c: seq<bool>): (s: int)
    requires |v| == |c|
  {
    if v == [] then 0
    else
      var n := |v| - 1;
      SumOver(v[..n], c[..n]) + if c[n] then v[n] else 0
  }

  lemma {:induction false} SumSet(v: seq<int>, c: seq<bool>, i: int, z: int)
    requires |v| == |c| && 0 <= i < |v|
    ensures SumOver(v[i := z], c) == SumOver(v, c) + if c[i] then z - v[i] else 0
  {
    var n := |v| - 1;
    if i == n {
      assert v[i := z][..n] == v[..n];
    } else {
      assert v[i := z][..n] == v[..n][i := z];
      SumSet(v[..n], c[..n], i, z);
    }
  }

  lemma {:induction false} SumWithout(v: seq<int>, c: seq<bool>, i: int)
    requires |v| == |c| && 0 <= i < |v| && c[i]
    ensures SumOver(v, c[i := false]) == SumOver(v, c) - v[i]
  {
    var n := |v| - 1;
    if i == n {
      assert c[i := false][..n] == c[..n];
    } else {
      assert c[i := false][..n] == c[..n][i := false];
      SumWithout(v[..n], c[..n], i);
    }
  }

  lemma {:induction false} SumNonneg(v: seq<int>, c: seq<bool>)
    requires |v| == |c| && forall i :: 0 <= i < |v| && c[i] ==> v[i] >= 0
    ensures SumOver(v, c) >= 0
  {
    if v != [] {
      SumNonneg(v[..|v| - 1], c[..|v| - 1]);
    }
  }

  // ----- Lengths for a set of nodes -----

  function Products(w: seq<int>, f: seq<int>): (v: seq<int>)
    requires |w| == |f|
  {
    seq(|w|, i requires 0 <= i < |w| => w[i] * f[i])
  }

  function Shares(f: seq<int>, d: int): (v: seq<int>)
  {
    seq(|f|, i requires 0 <= i < |f| => if 0 <= f[i] <= d then Pow2(d - f[i]) else 0)
  }

  /** The weighted length of the nodes in `c`. */
  function Cost(w: seq<int>, f: seq<int>, c: seq<bool>): (s: int)
    requires |w| == |f| == |c|
  {
    SumOver(Products(w, f), c)
  }

  /** Their Kraft sum, in units of 2^-d. */
  function Space(f: seq<int>, c: seq<bool>, d: int): (s: int)
    requires |f| == |c|
  {
    SumOver(Shares(f, d), c)
  }

  /** There is a prefix code with these lengths. */
  ghost predicate Fits(f: seq<int>, c: seq<bool>, d: int)
  {
    && 0 <= d && |f| == |c| && (forall i :: 0 <= i < |f| && c[i] ==> 0 <= f[i] <= d)
    && Space(f, c, d) <= Pow2(d)
  }

  lemma SetLength(w: seq<int>, f: seq<int>, c: seq<bool>, d: int, i: int, l: int)
    requires |w| == |f| == |c| && 0 <= i < |f| && c[i] && 0 <= l <= d && 0 <= f[i] <= d
    ensures Cost(w, f[i := l], c) == Cost(w, f, c) + w[i] * l - w[i] * f[i]
    ensures Space(f[i := l], c, d) == Space(f, c, d) + Pow2(d - l) - Pow2(d - f[i])
  {
    assert Products(w, f[i := l]) == Products(w, f)[i := w[i] * l];
    SumSet(Products(w, f), c, i, w[i] * l);
    assert Shares(f[i := l], d) == Shares(f, d)[i := Pow2(d - l)];
    SumSet(Shares(f, d), c, i, Pow2(d - l));
  }

  lemma SwapPays(u: int, v: int, x: int, y: int)
    requires u <= v && x <= y
    ensures u * y + v * x <= u * x + v * y
  {
    assert (v - u) * (y - x) >= 0;
  }

  /** The lighter of two nodes may have the longer code. */
  lemma SwapLengths(w: seq<int>, f: seq<int>, c: seq<bool>, d: int, i: int, j: int)
    requires |w| == |f| && Fits(f, c, d) && 0 <= i < |f| && 0 <= j < |f| && c[i] && c[j] && w[i] <= w[j] && f[i] <= f[j]
    ensures Fits(Swapped(f, i, j), c, d) && Cost(w, Swapped(f, i, j), c) <= Cost(w, f, c)
  {
    if i == j {
      assert Swapped(f, i, j) == f;
    } else {
      SetLength(w, f, c, d, i, f[j]);
      SetLength(w, f[i := f[j]], c, d, j, f[i]);
      assert Swapped(f, i, j) == f[i := f[j]][j := f[i]];
      SwapPays(w[i], w[j], f[i], f[j]);
    }
  }

  lemma {:induction false} Longest(f: seq<int>, c: seq<bool>) returns (i: int)
    requires |f| == |c| && exists x :: 0 <= x < |c| && c[x]
    ensures 0 <= i < |f| && c[i] && forall x :: 0 <= x < |f| && c[x] ==> f[x] <= f[i]
  {
    var n := |f| - 1;
    if exists x :: 0 <= x < n && c[x] {
      i := Longest(f[..n], c[..n]);
      forall x | 0 <= x < n && c[x]
        ensures f[x] <= f[i]
      {
        assert c[..n][x] && f[..n][x] == f[x];
      }
      if c[n] && f[n] > f[i] { i := n; }
    } else {
      i := n;
    }
  }

  /** Codes no longer than `l` take space in units of 2^-l. */
  lemma {:induction false} SpaceMultiple(f: seq<int>, c: seq<bool>, d: int, l: int) returns (q: int)
    requires |f| == |c| && 0 <= l <= d && forall i :: 0 <= i < |f| && c[i] ==> 0 <= f[i] <= l
    ensures Space(f, c, d) == q * Pow2(d - l)
  {
    q := 0;
    if f != [] {
      var n := |f| - 1;
      q := SpaceMultiple(f[..n], c[..n], d, l);
      assert Shares(f, d)[..n] == Shares(f[..n], d);
      if c[n] {
        Pow2Add(l - f[n], d - l);
        TimesOne(q, Pow2(l - f[n]), Pow2(d - l));
        q := q + Pow2(l - f[n]);
      }
    }
  }

  lemma TimesOne(x: int, y: int, p: int)
    ensures (x + y) * p == x * p + y * p
  {
  }

  lemma MultipleBelow(q: int, m: int, p: int)
    requires q * p < m * p && p > 0
    ensures q * p + p <= m * p
  {
    if q >= m {
      ScaleMono(m, q, p);
    }
    ScaleMono(q + 1, m, p);
    TimesOne(q, 1, p);
  }

  /** Two nodes that are the longest of all, `a` no shorter than `b`: `a` may be as short as `b`, which is not the whole
      code space. */
  lemma Level(w: seq<int>, f: seq<int>, c: seq<bool>, d: int, a: int, b: int)
    requires |w| == |f| && Fits(f, c, d) && 0 <= a < |f| && 0 <= b < |f| && a != b && c[a] && c[b] && w[a] >= 0
    requires forall x :: 0 <= x < |f| && c[x] && x != a ==> f[x] <= f[b] <= f[a]
    ensures f[b] >= 1 && Fits(f[a := f[b]], c, d) && Cost(w, f[a := f[b]], c) <= Cost(w, f, c)
  {
    var l, g := f[b], f[a := f[b]];
    var c', sh := c[a := false], Shares(f, d);
    SumWithout(sh, c, a);
    TwoShares(f, c', d, b, sh[a]);
    var q := SpaceMultiple(f, c', d, l);
    Pow2Add(l, d - l);
    MultipleBelow(q, Pow2(l), Pow2(d - l));
    SetLength(w, f, c, d, a, l);
    ScaleMono(l, f[a], w[a]);
  }

  lemma TwoShares(f: seq<int>, c: seq<bool>, d: int, b: int, share: int)
    requires |f| == |c| && 0 <= b < |f| && c[b] && 0 <= f[b] <= d && share >= 1 && Space(f, c, d) + share <= Pow2(d)
    ensures f[b] >= 1
  {
    SumWithout(Shares(f, d), c, b);
    SumNonneg(Shares(f, d), c[b := false]);
  }

  /** The two lightest nodes may be the longest, and of one length. */
  lemma Exchange(w: seq<int>, f: seq<int>, c: seq<bool>, d: int, a: int, b: int) returns (g: seq<int>)
    requires |w| == |f| && Fits(f, c, d) && 0 <= a < |f| && 0 <= b < |f| && a != b && c[a] && c[b] && 0 <= w[a] <= w[b]
    requires forall x :: 0 <= x < |f| && c[x] && x != a ==> w[b] <= w[x]
    ensures Fits(g, c, d) && |g| == |f| && Cost(w, g, c) <= Cost(w, f, c) && g[a] == g[b] >= 1
  {
    var i := Longest(f, c);
    SwapLengths(w, f, c, d, a, i);
    var f1 := Swapped(f, a, i);
    var j := LongestBut(f1, c, a, b);
    SwapLengths(w, f1, c, d, b, j);
    var f2 := Swapped(f1, b, j);
    Level(w, f2, c, d, a, b);
    g := f2[a := f2[b]];
  }

  lemma LongestBut(f: seq<int>, c: seq<bool>, a: int, b: int) returns (j: int)
    requires |f| == |c| && 0 <= a < |f| && 0 <= b < |f| && a != b && c[b]
    ensures 0 <= j < |f| && c[j] && j != a && forall x :: 0 <= x < |f| && c[x] && x != a ==> f[x] <= f[j]
  {
    var c' := c[a := false];
    assert c'[b];
    j := Longest(f, c');
    forall x | 0 <= x < |f| && c[x] && x != a
      ensures f[x] <= f[j]
    {
      assert c'[x];
    }
  }

  // ----- Two nodes joined under a new one -----

  /** `a` and `b` leave, and a new node comes last. */
  function JoinMask(c: seq<bool>, a: int, b: int): (c': seq<bool>)
    requires 0 <= a < |c| && 0 <= b < |c|
    ensures |c'| == |c| + 1
  {
    c[a := false][b := false] + [true]
  }

  lemma JoinSum(v: seq<int>, c: seq<bool>, a: int, b: int, z: int)
    requires |v| == |c| && 0 <= a < |v| && 0 <= b < |v| && a != b && c[a] && c[b]
    ensures SumOver(v + [z], JoinMask(c, a, b)) == SumOver(v, c) - v[a] - v[b] + z
  {
    SumWithout(v, c, a);
    SumWithout(v, c[a := false], b);
    assert (v + [z])[..|v|] == v && JoinMask(c, a, b)[..|c|] == c[a := false][b := false];
  }

  /** The new node is one shorter: the space is the same, and its weight is saved once. */
  lemma JoinLengths(w: seq<int>, f: seq<int>, c: seq<bool>, d: int, a: int, b: int)
    requires |w| == |f| == |c| && 0 <= a < |f| && 0 <= b < |f| && a != b && c[a] && c[b] && f[a] == f[b]
    requires 1 <= f[a] <= d
    ensures Space(f + [f[a] - 1], JoinMask(c, a, b), d) == Space(f, c, d)
    ensures Cost(w + [w[a] + w[b]], f + [f[a] - 1], JoinMask(c, a, b)) == Cost(w, f, c) - (w[a] + w[b])
  {
    JoinSpace(f, c, d, a, b);
    JoinCost(w, f, c, a, b);
  }

  lemma JoinSpace(f: seq<int>, c: seq<bool>, d: int, a: int, b: int)
    requires |f| == |c| && 0 <= a < |f| && 0 <= b < |f| && a != b && c[a] && c[b] && 1 <= f[a] == f[b] <= d
    ensures Space(f + [f[a] - 1], JoinMask(c, a, b), d) == Space(f, c, d)
  {
    var v, p := Shares(f, d), Pow2(d - (f[a] - 1));
    assert p == v[a] + v[b];
    JoinSum(v, c, a, b, p);
    assert Shares(f + [f[a] - 1], d) == v + [p];
  }

  lemma JoinCost(w: seq<int>, f: seq<int>, c: seq<bool>, a: int, b: int)
    requires |w| == |f| == |c| && 0 <= a < |f| && 0 <= b < |f| && a != b && c[a] && c[b] && f[a] == f[b]
    ensures Cost(w + [w[a] + w[b]], f + [f[a] - 1], JoinMask(c, a, b)) == Cost(w, f, c) - (w[a] + w[b])
  {
    var l, z := f[a] - 1, w[a] + w[b];
    var v := z * l;
    assert Products(w + [z], f + [l]) == Products(w, f) + [v];
    JoinSum(Products(w, f), c, a, b, v);
    Saved(w[a], w[b], f[a]);
  }

  lemma Saved(u: int, v: int, l: int)
    ensures (u + v) * (l - 1) == u * l + v * l - (u + v)
  {
  }

  /** Lengths for the nodes at hand give lengths for those after joining the two lightest, cheaper by their weight. */
  lemma ExchangeJoin(w: seq<int>, f: seq<int>, c: seq<bool>, d: int, a: int, b: int, w': seq<int>, c': seq<bool>)
    returns (g: seq<int>)
    requires |w| == |f| && Fits(f, c, d) && 0 <= a < |f| && 0 <= b < |f| && a != b && c[a] && c[b] && 0 <= w[a] <= w[b]
    requires forall x :: 0 <= x < |f| && c[x] && x != a ==> w[b] <= w[x]
    requires w' == w + [w[a] + w[b]] && c' == JoinMask(c, a, b)
    ensures |g| == |f| + 1 && Fits(g, c', d) && Cost(w', g, c') + (w[a] + w[b]) <= Cost(w, f, c)
  {
    var h := Exchange(w, f, c, d, a, b);
    JoinLengths(w, h, c, d, a, b);
    g := h + [h[a] - 1];
  }

  // ----- A finished tree -----

  /** The nodes that had no parent when `1 .. k` were there. */
  ghost function Tops(t: Forest, k: nat): (c: seq<bool>)
    requires k < |t.par|
    ensures |c| == k + 1
  {
    seq(k + 1, x requires 0 <= x <= k => x >= 1 && (t.par[x] == -1 || t.par[x] > k))
  }

  /** The total weight of the nodes made after `k`. */
  function Inner(t: Forest, k: nat): (s: int)
    requires t.n < |t.wt|
    decreases t.n - k
  {
    if k >= t.n then 0 else t.wt[k + 1] + Inner(t, k + 1)
  }

  /** The weighted length of those nodes. */
  ghost function TopsCost(t: Forest, k: nat, f: seq<int>): (s: int)
    requires k < |t.par| && k < |t.wt| && |f| == k + 1
  {
    Cost(t.wt[..k + 1], f, Tops(t, k))
  }

  /** Making node `k + 1`, seen from the nodes at the top. */
  ghost predicate Joins(t: Forest, k: nat, a: int, b: int)
  {
    && k + 1 < |t.par| == |t.wt| && 0 <= a <= k && 0 <= b <= k && a != b && Tops(t, k)[a] && Tops(t, k)[b]
    && Tops(t, k + 1) == JoinMask(Tops(t, k), a, b) && t.wt[k + 1] == t.wt[a] + t.wt[b]
  }

  ghost predicate LightestAt(w: seq<int>, c: seq<bool>, a: int, b: int)
  {
    && |w| == |c| && 0 <= a < |w| && 0 <= b < |w| && 0 <= w[a] <= w[b]
    && forall x :: 0 <= x < |w| && c[x] && x != a ==> w[b] <= w[x]
  }

  lemma NextTops(t: Forest, k: nat)
    requires Shape(t) && |t.par| == |t.wt| && t.alpha <= k < t.n
    ensures Joins(t, k, t.kids[k + 1].0, t.kids[k + 1].1)
    ensures Greedy(t) ==> LightestAt(t.wt[..k + 1], Tops(t, k), t.kids[k + 1].0, t.kids[k + 1].1)
  {
    assert Merged(t, k + 1);
    var a, b := t.kids[k + 1].0, t.kids[k + 1].1;
    assert t.par[a] == k + 1 && t.par[b] == k + 1;
    forall x | 0 <= x <= k + 1
      ensures Tops(t, k + 1)[x] == JoinMask(Tops(t, k), a, b)[x]
    {
      if 1 <= x <= k {
        assert t.par[x] == k + 1 <==> x == a || x == b;
      }
    }
    if Greedy(t) {
      assert GreedyAt(t, k + 1);
    }
  }

  ghost predicate OpenedTree(i: int) { true }

  /** A tree that is complete and was grown by merging the two lightest. */
  ghost predicate FullTree(t: Forest)
  {
    && 2 <= t.alpha <= t.n < |t.wt| == |t.par| && t.n < |t.kids|
    && forall i {:trigger OpenedTree(i)} :: OpenedTree(i) ==> Shape(t) && OneRoot(t) && Greedy(t)
  }

  lemma NextJoins(t: Forest, k: nat)
    requires FullTree(t) && t.alpha <= k < t.n
    ensures Joins(t, k, t.kids[k + 1].0, t.kids[k + 1].1)
    ensures LightestAt(t.wt[..k + 1], Tops(t, k), t.kids[k + 1].0, t.kids[k + 1].1)
  {
    assert OpenedTree(0);
    NextTops(t, k);
  }

  /** No lengths for the nodes at hand do better than the merges still to come. */
  lemma {:induction false} LowerBound(t: Forest, k: nat, f: seq<int>, d: int)
    requires FullTree(t) && t.alpha <= k <= t.n && |f| == k + 1 && Fits(f, Tops(t, k), d)
    ensures TopsCost(t, k, f) >= Inner(t, k)
    decreases t.n - k
  {
    if k == t.n {
      LastTop(t, f, d);
    } else {
      var g := Onward(t, k, f, d);
      LowerBound(t, k + 1, g, d);
    }
  }

  lemma LastTop(t: Forest, f: seq<int>, d: int)
    requires FullTree(t) && |f| == t.n + 1 && Fits(f, Tops(t, t.n), d)
    ensures TopsCost(t, t.n, f) >= 0
  {
    assert OpenedTree(0);
    TopCost(t.wt[..t.n + 1], f, Tops(t, t.n), d);
  }

  /** From one stage of the merging to the next. */
  lemma Onward(t: Forest, k: nat, f: seq<int>, d: int) returns (g: seq<int>)
    requires FullTree(t) && t.alpha <= k < t.n && |f| == k + 1 && Fits(f, Tops(t, k), d)
    ensures |g| == k + 2 && Fits(g, Tops(t, k + 1), d) && TopsCost(t, k + 1, g) + t.wt[k + 1] <= TopsCost(t, k, f)
  {
    NextJoins(t, k);
    g := LowerStep(t, k, t.kids[k + 1].0, t.kids[k + 1].1, f, d);
  }

  lemma TopCost(w: seq<int>, f: seq<int>, c: seq<bool>, d: int)
    requires |w| == |f| && Fits(f, c, d) && forall x :: 0 <= x < |w| && c[x] ==> w[x] >= 0
    ensures Cost(w, f, c) >= 0
  {
    forall x | 0 <= x < |f| && c[x]
      ensures Products(w, f)[x] >= 0
    {
      ScaleMono(0, w[x], f[x]);
    }
    SumNonneg(Products(w, f), c);
  }

  lemma JoinWeights(t: Forest, k: nat, a: int, b: int)
    requires Joins(t, k, a, b)
    ensures var w := t.wt[..k + 1]; t.wt[..(k + 1) + 1] == w + [w[a] + w[b]] && w[a] + w[b] == t.wt[k + 1]
  {
  }

  lemma LowerStep(t: Forest, k: nat, a: int, b: int, f: seq<int>, d: int) returns (g: seq<int>)
    requires Joins(t, k, a, b) && LightestAt(t.wt[..k + 1], Tops(t, k), a, b) && |f| == k + 1 && Fits(f, Tops(t, k), d)
    ensures |g| == k + 2 && Fits(g, Tops(t, k + 1), d)
    ensures TopsCost(t, k + 1, g) + t.wt[k + 1] <= TopsCost(t, k, f)
  {
    JoinWeights(t, k, a, b);
    g := ExchangeJoin(t.wt[..k + 1], f, Tops(t, k), d, a, b, t.wt[..(k + 1) + 1], Tops(t, k + 1));
  }

  ghost function Depths(t: Forest, k: nat): (f: seq<int>)
    requires Shape(t) && k <= t.n
    ensures |f| == k + 1
  {
    seq(k + 1, x requires 0 <= x <= k => if x == 0 then 0 else Depth(t.par, t.n, x))
  }

  /** The depths do exactly as well. */
  lemma {:induction false} DepthsCost(t: Forest, k: nat)
    requires Shape(t) && |t.par| == |t.wt| && OneRoot(t) && t.alpha <= k <= t.n
    ensures TopsCost(t, k, Depths(t, k)) == Inner(t, k)
    decreases t.n - k
  {
    if k == t.n {
      OnlyTop(t, Products(t.wt[..k + 1], Depths(t, k)));
    } else {
      DepthsNext(t, k);
      NextTops(t, k);
      DepthsStep(t, k, t.kids[k + 1].0, t.kids[k + 1].1, Depths(t, k), Depths(t, k + 1));
      DepthsCost(t, k + 1);
    }
  }

  lemma DepthsNext(t: Forest, k: nat)
    requires Shape(t) && t.alpha <= k < t.n
    ensures Merged(t, k + 1)
    ensures var a, b, f := t.kids[k + 1].0, t.kids[k + 1].1, Depths(t, k);
      f[a] == f[b] && Depths(t, k + 1) == f + [f[a] - 1]
  {
    assert Merged(t, k + 1);
    var a, b, f := t.kids[k + 1].0, t.kids[k + 1].1, Depths(t, k);
    assert t.par[a] == k + 1 && t.par[b] == k + 1;
    assert f[a] == f[b] == 1 + Depth(t.par, t.n, k + 1);
    assert Depths(t, k + 1) == f + [f[a] - 1];
  }

  lemma DepthsStep(t: Forest, k: nat, a: int, b: int, f: seq<int>, g: seq<int>)
    requires Joins(t, k, a, b) && |f| == k + 1 && f[a] == f[b] && g == f + [f[a] - 1]
    ensures TopsCost(t, k, f) == TopsCost(t, k + 1, g) + t.wt[k + 1]
  {
    JoinWeights(t, k, a, b);
    JoinCost(t.wt[..k + 1], f, Tops(t, k), a, b);
  }

  lemma OnlyTop(t: Forest, v: seq<int>)
    requires Shape(t) && OneRoot(t) && |v| == t.n + 1
    ensures SumOver(v, Tops(t, t.n)) == v[t.n]
  {
    var c := Tops(t, t.n);
    SumNone(v[..t.n], c[..t.n]);
  }

  lemma {:induction false} SumNone(v: seq<int>, c: seq<bool>)
    requires |v| == |c| && forall i :: 0 <= i < |c| ==> !c[i]
    ensures SumOver(v, c) == 0
  {
    if v != [] {
      SumNone(v[..|v| - 1], c[..|c| - 1]);
    }
  }

  // ----- Optimal codes -----

  /** The length of everything coded: each symbol's weight times its code length. */
  function Weighted(w: seq<int>, lens: seq<int>): (s: int)
    requires |w| == |lens|
  {
    if w == [] then 0
    else
      var n := |w| - 1;
      Weighted(w[..n], lens[..n]) + w[n] * lens[n]
  }

  /** The lengths of some prefix code, by Kraft's inequality. */
  ghost predicate PrefixLengths(lens: seq<int>, d: nat)
  {
    (forall i :: 0 <= i < |lens| ==> 0 <= lens[i] <= d) && Kraft(lens, d) <= Pow2(d)
  }

  /** No prefix code of any greatest length codes the weights in less. */
  ghost predicate Optimal(w: seq<int>, lens: seq<int>)
  {
    |w| == |lens| && forall d: nat, other: seq<int> :: |other| == |w| && PrefixLengths(other, d) ==>
      Weighted(w, lens) <= Weighted(w, other)
  }

  /** Node zero is not in use. */
  lemma {:induction false} LeafSums(w: seq<int>, f: seq<int>, c: seq<bool>, d: nat)
    requires |w| == |f| == |c| >= 1 && !c[0] && forall i :: 1 <= i < |c| ==> c[i]
    ensures Cost(w, f, c) == Weighted(w[1..], f[1..]) && Space(f, c, d) == Kraft(f[1..], d)
  {
    var n := |w| - 1;
    assert Products(w, f)[..n] == Products(w[..n], f[..n]) && Shares(f, d)[..n] == Shares(f[..n], d);
    if n == 0 {
      assert w[1..] == [] && f[1..] == [];
      assert SumOver(Products(w, f), c) == SumOver([], []) && SumOver(Shares(f, d), c) == SumOver([], []);
    } else {
      LeafSums(w[..n], f[..n], c[..n], d);
      assert w[1..][..n - 1] == w[..n][1..] && f[1..][..n - 1] == f[..n][1..];
    }
  }

  lemma LeafTops(t: Forest)
    requires Shape(t)
    ensures !Tops(t, t.alpha)[0] && forall x :: 1 <= x <= t.alpha ==> Tops(t, t.alpha)[x]
  {
  }

  /** The depths of a tree grown by merging the two lightest are an optimal code for its leaves. */
  lemma DepthsOptimal(t: Forest, lens: seq<int>)
    requires Shape(t) && |t.par| == |t.wt| && OneRoot(t) && Greedy(t) && |lens| == t.alpha
    requires forall i :: 0 <= i < |lens| ==> lens[i] == Depth(t.par, t.n, i + 1)
    ensures Optimal(t.wt[1..t.alpha + 1], lens)
  {
    var w, k := t.wt[..t.alpha + 1], t.alpha;
    assert w[1..] == t.wt[1..k + 1];
    LeafTops(t);
    DepthsCost(t, k);
    LeafSums(w, Depths(t, k), Tops(t, k), 0);
    assert Depths(t, k)[1..] == lens;
    forall d: nat, other: seq<int> | |other| == k && PrefixLengths(other, d)
      ensures Weighted(w[1..], lens) <= Weighted(w[1..], other)
    {
      var f := [0] + other;
      assert f[1..] == other;
      LeafSums(w, f, Tops(t, k), d);
      LowerBound(t, k, f, d);
    }
  }
}
