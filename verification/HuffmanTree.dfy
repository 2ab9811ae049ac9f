/** The forest that BZ2_hbMakeCodeLengths builds: weights, heights, parents, and what merging keeps. */
module HuffmanTree {
  import opened Basics

  // ----- Packed weights: weight in the high bits, height in the low byte -----

  /** ADDWEIGHTS; `|` is `+` because the heights never fill the low byte. */
  function AddWeights(z1: int, z2: int): (z: int)
    requires 0 <= z1 && 0 <= z2 && z1 % 256 < 255 && z2 % 256 < 255
  {
    (z1 - z1 % 256) + (z2 - z2 % 256) + 1 + Max(z1 % 256, z2 % 256)
  }

  lemma AddPacked(w1: nat, h1: nat, w2: nat, h2: nat)
    requires h1 < 255 && h2 < 255
    ensures AddWeights(256 * w1 + h1, 256 * w2 + h2) == 256 * (w1 + w2) + 1 + Max(h1, h2)
  {
  }

  // ----- The forest -----

  /** Nodes are `1 .. n`; the first `alpha` are leaves. `kids` records the two children of each merge. */
  datatype Forest = Forest(alpha: int, n: int, wt: seq<int>, ht: seq<int>, par: seq<int>, kids: seq<(int, int)>)

  predicate Roomy(t: Forest, n: int) { n < |t.wt| && n < |t.ht| && n < |t.par| && n < |t.kids| }

  ghost predicate Shape(t: Forest)
  {
    && 2 <= t.alpha <= t.n && Roomy(t, t.n)
    && (forall x :: 1 <= x <= t.n ==> t.par[x] == -1 || (t.alpha < t.par[x] <= t.n && x < t.par[x]))
    && (forall x :: 1 <= x <= t.n ==> t.wt[x] >= 1 && t.ht[x] >= 0)
    && (forall x :: 1 <= x <= t.alpha ==> t.ht[x] == 0)
    && (forall m :: t.alpha < m <= t.n ==> Merged(t, m))
  }

  /** Node `m` was made from its two children, and from nothing else. */
  ghost predicate Merged(t: Forest, m: int)
    requires 0 <= m <= t.n && Roomy(t, t.n)
  {
    var a, b := t.kids[m].0, t.kids[m].1;
    && 1 <= a < m && 1 <= b < m && a != b
    && (forall x :: 1 <= x <= t.n ==> (t.par[x] == m <==> x == a || x == b))
    && t.ht[m] == 1 + Max(t.ht[a], t.ht[b])
    && t.wt[m] == t.wt[a] + t.wt[b]
  }

  /** The nodes without a parent, as a multiset: what the heap holds. */
  ghost predicate Roots(t: Forest, live: multiset<int>)
    requires t.n < |t.par|
  {
    forall x :: live[x] == if 1 <= x <= t.n && t.par[x] == -1 then 1 else 0
  }

  function Merge(t: Forest, n1: int, n2: int): (u: Forest)
    requires 0 <= t.n && Roomy(t, t.n + 1) && 1 <= n1 <= t.n && 1 <= n2 <= t.n
  {
    var m := t.n + 1;
    Forest(t.alpha, m, t.wt[m := t.wt[n1] + t.wt[n2]], t.ht[m := 1 + Max(t.ht[n1], t.ht[n2])],
           t.par[n1 := m][n2 := m][m := -1], t.kids[m := (n1, n2)])
  }

  ghost predicate Mergeable(t: Forest, n1: int, n2: int)
  {
    && Shape(t) && Roomy(t, t.n + 1)
    && 1 <= n1 <= t.n && 1 <= n2 <= t.n && n1 != n2 && t.par[n1] == -1 && t.par[n2] == -1
  }

  lemma MergeShape(t: Forest, n1: int, n2: int)
    requires Mergeable(t, n1, n2)
    ensures Shape(Merge(t, n1, n2))
  {
    var u := Merge(t, n1, n2);
    forall m | t.alpha < m <= u.n
      ensures Merged(u, m)
    {
      if m <= t.n {
        assert Merged(t, m);
      }
    }
  }

  lemma MergeRoots(t: Forest, n1: int, n2: int, live: multiset<int>)
    requires Mergeable(t, n1, n2) && Roots(t, live)
    ensures Roots(Merge(t, n1, n2), live - multiset{n1} - multiset{n2} + multiset{t.n + 1})
  {
    assert live[t.n + 1] == 0 && live[n1] == 1 && live[n2] == 1;
  }

  // ----- Conservation of weight -----

  /** Total weight of the parentless nodes among `1 .. m`. */
  function RootSum(wt: seq<int>, par: seq<int>, m: nat): (s: int)
    requires m < |wt| && m < |par|
  {
    if m == 0 then 0 else RootSum(wt, par, m - 1) + if par[m] == -1 then wt[m] else 0
  }

  lemma {:induction false} RootSumMerge(t: Forest, n1: int, n2: int, m: nat)
    requires Mergeable(t, n1, n2) && m <= t.n
    ensures RootSum(Merge(t, n1, n2).wt, Merge(t, n1, n2).par, m) ==
      RootSum(t.wt, t.par, m) - (if n1 <= m then t.wt[n1] else 0) - (if n2 <= m then t.wt[n2] else 0)
  {
    if m != 0 {
      RootSumMerge(t, n1, n2, m - 1);
    }
  }

  /** Merging conserves the total weight. */
  lemma MergeConserves(t: Forest, n1: int, n2: int)
    requires Mergeable(t, n1, n2)
    ensures var u := Merge(t, n1, n2); RootSum(u.wt, u.par, u.n) == RootSum(t.wt, t.par, t.n)
  {
    RootSumMerge(t, n1, n2, t.n);
  }

  lemma {:induction false} RootBelowSum(wt: seq<int>, par: seq<int>, m: nat, x: int)
    requires m < |wt| && m < |par| && forall i :: 1 <= i <= m ==> wt[i] >= 0
    ensures RootSum(wt, par, m) >= 0
    ensures 1 <= x <= m && par[x] == -1 ==> wt[x] <= RootSum(wt, par, m)
  {
    if m != 0 {
      RootBelowSum(wt, par, m - 1, x);
    }
  }

  // ----- Heights grow only with Fibonacci weight -----

  /** Fibonacci numbers 1, 2, 3, 5, 8, ...; 1 below zero. */
  function Fib(h: int): (f: int)
    ensures f >= 1
    decreases Max(h, 0)
  {
    if h <= 0 then 1 else if h == 1 then 2 else Fib(h - 1) + Fib(h - 2)
  }

  lemma {:induction false} FibMono(a: int, b: int)
    requires 0 <= a <= b
    ensures Fib(a) <= Fib(b)
    decreases b - a
  {
    if a < b {
      FibMono(a, b - 1);
    }
  }

  lemma FibStep(h: int, c: int, o: int)
    requires h >= 0 && c >= Fib(h) && o >= Fib(h - 1)
    ensures c + o >= Fib(h + 1)
  {
  }

  /** Every node is at least as heavy as the Fibonacci number of its height; `last`, the weight taken from
      the heap most recently, is at least that of every child, and no live node is lighter than it. */
  ghost predicate Balanced(t: Forest, last: int)
    requires Roomy(t, t.n)
  {
    forall x :: 1 <= x <= t.n ==> BalancedAt(t.wt[x], t.ht[x], t.par[x], last)
  }

  ghost predicate BalancedAt(wt: int, ht: int, par: int, last: int)
  {
    ht >= 0 && wt >= Fib(ht) && last >= Fib(ht - 1) && (par == -1 ==> wt >= last)
  }

  lemma NewNodeHeavy(w1: int, h1: int, w2: int, h2: int, last: int)
    requires BalancedAt(w1, h1, -1, last) && BalancedAt(w2, h2, -1, last) && w1 <= w2
    ensures BalancedAt(w1 + w2, 1 + Max(h1, h2), -1, w2) && w2 >= last
  {
    if h1 >= h2 {
      FibStep(h1, w1, w2);
    } else {
      FibStep(h2, w2, w1);
    }
  }

  lemma StaysBalanced(wt: int, ht: int, par: int, par': int, last: int, last': int)
    requires BalancedAt(wt, ht, par, last) && last <= last' && (par' == -1 ==> wt >= last')
    ensures BalancedAt(wt, ht, par', last')
  {
  }

  /** Merging the two lightest roots keeps the balance. */
  lemma MergeBalanced(t: Forest, n1: int, n2: int, last: int)
    requires Roomy(t, t.n + 1) && 1 <= n1 <= t.n && 1 <= n2 <= t.n && t.par[n1] == -1 && t.par[n2] == -1
    requires Balanced(t, last) && t.wt[n1] <= t.wt[n2]
    requires forall x :: 1 <= x <= t.n && t.par[x] == -1 && x != n1 ==> t.wt[n2] <= t.wt[x]
    ensures Balanced(Merge(t, n1, n2), t.wt[n2])
  {
    NewNodeHeavy(t.wt[n1], t.ht[n1], t.wt[n2], t.ht[n2], last);
    var u, last' := Merge(t, n1, n2), t.wt[n2];
    forall x | 1 <= x <= u.n
      ensures BalancedAt(u.wt[x], u.ht[x], u.par[x], last')
    {
      if x <= t.n {
        StaysBalanced(t.wt[x], t.ht[x], t.par[x], u.par[x], last, last');
      }
    }
  }

  // ----- What was lightest when -----

  /** When node `m` was made, its children were the two lightest without a parent. */
  ghost predicate GreedyAt(t: Forest, m: int)
    requires 0 <= m <= t.n && Roomy(t, t.n)
  {
    var a, b := t.kids[m].0, t.kids[m].1;
    && 1 <= a < m && 1 <= b < m && t.wt[a] <= t.wt[b]
    && forall x :: 1 <= x < m && (t.par[x] == -1 || t.par[x] >= m) && x != a ==> t.wt[b] <= t.wt[x]
  }

  ghost predicate Greedy(t: Forest)
  {
    0 <= t.alpha && Roomy(t, t.n) && forall m :: t.alpha < m <= t.n ==> GreedyAt(t, m)
  }

  lemma MergeGreedy(t: Forest, n1: int, n2: int)
    requires Mergeable(t, n1, n2) && Greedy(t) && t.wt[n1] <= t.wt[n2]
    requires forall x :: 1 <= x <= t.n && t.par[x] == -1 && x != n1 ==> t.wt[n2] <= t.wt[x]
    ensures Greedy(Merge(t, n1, n2))
  {
    var u := Merge(t, n1, n2);
    forall m | u.alpha < m <= u.n
      ensures GreedyAt(u, m)
    {
      if m <= t.n {
        assert GreedyAt(t, m);
      }
    }
  }

  // ----- Depths and the Kraft sum -----

  ghost predicate Upward(par: seq<int>, n: int)
  {
    n < |par| && forall x :: 1 <= x <= n ==> par[x] == -1 || x < par[x] <= n
  }

  /** Number of parent links from `x` to the top. */
  function Depth(par: seq<int>, n: int, x: int): (d: nat)
    requires Upward(par, n) && 1 <= x <= n
    decreases n - x
  {
    if par[x] == -1 then 0 else 1 + Depth(par, n, par[x])
  }

  ghost predicate OneRoot(t: Forest)
    requires t.n < |t.par|
  {
    forall x :: 1 <= x <= t.n ==> (t.par[x] == -1 <==> x == t.n)
  }

  lemma {:induction false} DepthBelowHeight(t: Forest, x: int)
    requires Shape(t) && OneRoot(t) && 1 <= x <= t.n
    ensures Depth(t.par, t.n, x) + t.ht[x] <= t.ht[t.n]
    decreases t.n - x
  {
    var m := t.par[x];
    if m != -1 {
      DepthBelowHeight(t, m);
      assert Merged(t, m);
    }
  }

  /** The share of code space a node at this depth takes, in units of 2^-d. */
  function Share(par: seq<int>, n: int, d: int, x: int): (s: int)
    requires Upward(par, n) && 1 <= x <= n
  {
    if Depth(par, n, x) <= d then Pow2(d - Depth(par, n, x)) else 0
  }

  /** Shares of the nodes among `1 .. m` that stand just below the cut after node `k`. */
  function Cut(par: seq<int>, n: int, d: int, k: int, m: nat): (s: int)
    requires Upward(par, n) && m <= n
  {
    if m == 0 then 0
    else Cut(par, n, d, k, m - 1) + if par[m] == -1 || par[m] > k then Share(par, n, d, m) else 0
  }

  lemma {:induction false} CutStep(t: Forest, d: int, k: int, m: nat)
    requires Shape(t) && t.alpha < k <= t.n && m < k
    ensures Merged(t, k)
    ensures Cut(t.par, t.n, d, k - 1, m) == Cut(t.par, t.n, d, k, m)
      + (if t.kids[k].0 <= m then Share(t.par, t.n, d, t.kids[k].0) else 0)
      + (if t.kids[k].1 <= m then Share(t.par, t.n, d, t.kids[k].1) else 0)
  {
    assert Merged(t, k);
    if m != 0 {
      CutStep(t, d, k, m - 1);
      assert t.par[m] == k <==> m == t.kids[k].0 || m == t.kids[k].1;
    }
  }

  lemma {:induction false} CutTop(t: Forest, d: int, m: nat)
    requires Shape(t) && OneRoot(t) && m < t.n
    ensures Cut(t.par, t.n, d, t.n, m) == 0
  {
    if m != 0 {
      CutTop(t, d, m - 1);
    }
  }

  lemma ChildShares(t: Forest, d: int, k: int)
    requires Shape(t) && t.alpha < k <= t.n && Depth(t.par, t.n, k) < d
    ensures Merged(t, k)
    ensures Share(t.par, t.n, d, t.kids[k].0) + Share(t.par, t.n, d, t.kids[k].1) == Share(t.par, t.n, d, k)
  {
    assert Merged(t, k);
    var a, b := t.kids[k].0, t.kids[k].1;
    assert t.par[a] == k && t.par[b] == k;
    assert Depth(t.par, t.n, a) == 1 + Depth(t.par, t.n, k) == Depth(t.par, t.n, b);
  }

  ghost predicate LeavesWithin(t: Forest, d: int)
    requires Shape(t)
  {
    forall x :: 1 <= x <= t.alpha ==> Depth(t.par, t.n, x) <= d
  }

  /** Inner nodes are strictly less deep than the deepest leaf. */
  lemma {:induction false} InnerShallow(t: Forest, d: int, k: int)
    requires Shape(t) && LeavesWithin(t, d) && t.alpha < k <= t.n
    ensures Depth(t.par, t.n, k) < d
    decreases k
  {
    assert Merged(t, k);
    var a := t.kids[k].0;
    assert t.par[a] == k;
    assert Depth(t.par, t.n, a) == 1 + Depth(t.par, t.n, k);
    if a > t.alpha {
      InnerShallow(t, d, a);
    }
  }

  /** Any cut through the tree carries the whole code space. */
  lemma {:induction false} CutFull(t: Forest, d: nat, k: int)
    requires Shape(t) && OneRoot(t) && t.alpha <= k <= t.n && LeavesWithin(t, d)
    ensures Cut(t.par, t.n, d, k, k) == Pow2(d)
    decreases t.n - k
  {
    if k == t.n {
      CutTop(t, d, k - 1);
    } else {
      var k' := k + 1;
      CutFull(t, d, k');
      InnerShallow(t, d, k');
      CutStep(t, d, k', k);
      ChildShares(t, d, k');
    }
  }

  /** Kraft sum of a list of code lengths, in units of 2^-d. */
  function Kraft(lens: seq<int>, d: int): (s: int)
  {
    if lens == [] then 0
    else
      var l := lens[|lens| - 1];
      Kraft(lens[..|lens| - 1], d) + if 0 <= l <= d then Pow2(d - l) else 0
  }

  lemma {:induction false} LeavesAreCut(t: Forest, d: int, lens: seq<int>)
    requires Shape(t) && OneRoot(t) && |lens| <= t.alpha
    requires forall i :: 0 <= i < |lens| ==> lens[i] == Depth(t.par, t.n, i + 1)
    ensures Kraft(lens, d) == Cut(t.par, t.n, d, t.alpha, |lens|)
  {
    if lens != [] {
      LeavesAreCut(t, d, lens[..|lens| - 1]);
    }
  }

  /** A complete Huffman tree fills the code space exactly. */
  lemma KraftExact(t: Forest, d: nat, lens: seq<int>)
    requires Shape(t) && OneRoot(t) && LeavesWithin(t, d) && |lens| == t.alpha
    requires forall i :: 0 <= i < |lens| ==> lens[i] == Depth(t.par, t.n, i + 1)
    ensures Kraft(lens, d) == Pow2(d)
  {
    LeavesAreCut(t, d, lens);
    CutFull(t, d, t.alpha);
  }
}
