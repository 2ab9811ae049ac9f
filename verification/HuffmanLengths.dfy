/** BZ2_hbMakeCodeLengths: length-limited Huffman code lengths by repeated tree building and rescaling. */
module HuffmanLengths {
  import opened Basics
  import opened HuffmanHeap
  import opened HuffmanTree
  import opened HuffmanOptimal

  const MAX_ALPHA := 258
  const MAX_TOTAL := 900258

  /** What the heap holds, the sentinel apart. */
  ghost function Live(hs: seq<int>): (m: multiset<int>)
    requires hs != []
  {
    multiset(hs[1..])
  }

  ghost predicate Lightest(live: multiset<int>, w: seq<int>, x: int)
  {
    0 <= x < |w| && forall y :: y in live ==> 0 <= y < |w| && w[x] <= w[y]
  }

  lemma SameLive(hs: seq<int>, hs': seq<int>)
    requires hs != [] && hs' != [] && hs[0] == hs'[0] && multiset(hs) == multiset(hs')
    ensures Live(hs) == Live(hs')
  {
    assert hs == [hs[0]] + hs[1..] && hs' == [hs'[0]] + hs'[1..];
    assert Live(hs) == multiset(hs) - multiset{hs[0]};
    assert Live(hs') == multiset(hs') - multiset{hs'[0]};
  }

  lemma GrowLive(hs: seq<int>, w: seq<int>, x: int)
    requires Nodes(hs, w) && 0 <= x < |w| && w[x] >= 0
    ensures Nodes(hs + [x], w) && Live(hs + [x]) == Live(hs) + multiset{x}
  {
    assert (hs + [x])[1..] == hs[1..] + [x];
  }

  lemma LightestFirst(hs: seq<int>, w: seq<int>)
    requires Nodes(hs, w) && Heap(hs, w) && |hs| >= 2
    ensures hs[1] in Live(hs)
    ensures Lightest(Live(hs), w, hs[1])
  {
    assert hs[1..][0] == hs[1];
    forall y | y in Live(hs)
      ensures 0 <= y < |w| && w[hs[1]] <= w[y]
    {
      assert y in hs[1..];
      var k :| 0 <= k < |hs| - 1 && hs[1..][k] == y;
      assert hs[k + 1] == y;
      RootIsLeast(hs, w, k + 1);
    }
  }

  /** A heap whose top may be too heavy, or an empty one. */
  ghost predicate TopLoose(hs: seq<int>, w: seq<int>)
  {
    forall i {:trigger Opened(i)} :: Opened(i) ==>
      Nodes(hs, w) && if |hs| >= 2 then HeapButDown(hs, w, 1) else Heap(hs, w)
  }

  lemma TopReplaced(hs: seq<int>, w: seq<int>)
    requires Nodes(hs, w) && Heap(hs, w) && |hs| >= 2
    ensures var n := |hs| - 1; var hs' := hs[1 := hs[n]][..n];
      TopLoose(hs', w) && Live(hs') == Live(hs) - multiset{hs[1]}
  {
    var n := |hs| - 1;
    var hs' := hs[1 := hs[n]][..n];
    if n == 1 {
      assert hs'[1..] == [] && hs[1..] == [hs[1]];
    } else {
      forall k | 2 <= k < n && k / 2 != 1
        ensures Above(hs', w, k)
      {
        assert Above(hs, w, k);
      }
      assert hs[1..] == [hs[1]] + hs[2..n] + [hs[n]];
      assert hs'[1..] == [hs[n]] + hs[2..n];
    }
  }

  ghost predicate HeapState(hs: seq<int>, w: seq<int>)
  {
    forall i {:trigger Opened(i)} :: Opened(i) ==> Nodes(hs, w) && Heap(hs, w)
  }

  /** The top is the lightest; the last node goes on top in its place. */
  lemma TakeTop(hs: seq<int>, w: seq<int>)
    requires HeapState(hs, w) && |hs| >= 2
    ensures hs[1] in Live(hs) && Lightest(Live(hs), w, hs[1])
    ensures var n := |hs| - 1; var hs' := hs[1 := hs[n]][..n];
      TopLoose(hs', w) && Live(hs') == Live(hs) - multiset{hs[1]}
  {
    assert Opened(0);
    LightestFirst(hs, w);
    TopReplaced(hs, w);
  }

  /** Take the lightest node out (huffman.c:101-102). */
  method TakeLightest(heap: array<int>, weight: array<int>, nHeap: int) returns (x: int)
    requires heap != weight && 1 <= nHeap < heap.Length && HeapState(heap[..nHeap + 1], weight[..])
    modifies heap
    ensures HeapState(heap[..nHeap], weight[..])
    ensures x in old(Live(heap[..nHeap + 1])) && Lightest(old(Live(heap[..nHeap + 1])), weight[..], x)
    ensures Live(heap[..nHeap]) == old(Live(heap[..nHeap + 1])) - multiset{x}
  {
    ghost var hs, w := heap[..nHeap + 1], weight[..];
    TakeTop(hs, w);
    x := heap[1];
    LastToTop(heap, nHeap);
    SinkTop(heap, weight, nHeap, heap[..nHeap]);
  }

  method LastToTop(heap: array<int>, nHeap: int)
    requires 1 <= nHeap < heap.Length
    modifies heap
    ensures heap[..nHeap] == old(heap[..nHeap + 1])[1 := old(heap[..nHeap + 1])[nHeap]][..nHeap]
  {
    ghost var hs := heap[..nHeap + 1];
    heap[1] := heap[nHeap];
    assert heap[..nHeap + 1] == hs[1 := hs[nHeap]];
    assert heap[..nHeap] == heap[..nHeap + 1][..nHeap];
  }

  /** Let the node that was put on top sink to its place, if any other is left. */
  method SinkTop(heap: array<int>, weight: array<int>, nHeap: int, ghost hs: seq<int>)
    requires heap != weight && 1 <= nHeap < heap.Length && heap[..nHeap] == hs && TopLoose(hs, weight[..])
    modifies heap
    ensures HeapState(heap[..nHeap], weight[..]) && Live(heap[..nHeap]) == Live(hs)
  {
    assert Opened(0);
    if nHeap - 1 > 0 {
      DownHeap(heap, weight, nHeap - 1);
      SameLive(hs, heap[..nHeap]);
    }
  }

  /** Put a node in (huffman.c:93-95, 107-109). */
  method Insert(heap: array<int>, weight: array<int>, nHeap: int, x: int)
    requires heap != weight && 0 <= nHeap && nHeap + 1 < heap.Length && 0 <= x < weight.Length && weight[x] >= 0
    requires HeapState(heap[..nHeap + 1], weight[..])
    modifies heap
    ensures HeapState(heap[..nHeap + 2], weight[..])
    ensures Live(heap[..nHeap + 2]) == old(Live(heap[..nHeap + 1])) + multiset{x}
  {
    ghost var hs := heap[..nHeap + 1];
    assert Opened(0);
    GrowLive(hs, weight[..], x);
    heap[nHeap + 1] := x;
    assert heap[..nHeap + 2] == hs + [x] && (hs + [x])[..nHeap + 1] == hs;
    RiseLast(heap, weight, nHeap + 1, hs + [x]);
  }

  /** Let the node that was put last rise to its place. */
  method RiseLast(heap: array<int>, weight: array<int>, z: int, ghost hs: seq<int>)
    requires heap != weight && 1 <= z < heap.Length && heap[..z + 1] == hs && Nodes(hs, weight[..])
    requires Heap(hs[..z], weight[..])
    modifies heap
    ensures HeapState(heap[..z + 1], weight[..]) && Live(heap[..z + 1]) == Live(hs)
  {
    assert heap[..z] == hs[..z];
    UpHeap(heap, weight, z);
    SameLive(hs, heap[..z + 1]);
  }

  /** The array `heap` with `nHeap` entries in use, entry 0 being the sentinel. */
  class NodeHeap {
    const heap: array<int>
    var nHeap: int
    ghost var hs: seq<int>

    ghost predicate Valid()
      reads this, heap
    {
      heap.Length == MAX_ALPHA + 2 && |hs| == nHeap + 1 <= heap.Length && nHeap >= 0
      && forall i {:trigger Opened(i)} :: Opened(i) ==> hs == heap[..nHeap + 1]
    }

    constructor ()
      ensures Valid() && fresh(heap) && hs == [0] && nHeap == 0
    {
      heap := new int[MAX_ALPHA + 2];
      nHeap := 0;
      hs := [0];
      new;
      heap[0] := 0;
    }

    /** Take the lightest node out (huffman.c:101-102). */
    method Take(weight: array<int>) returns (x: int)
      requires Valid() && heap != weight && nHeap >= 1 && HeapState(hs, weight[..])
      modifies this, heap
      ensures Valid() && nHeap == old(nHeap) - 1 && HeapState(hs, weight[..])
      ensures x in old(Live(hs)) && Live(hs) == old(Live(hs)) - multiset{x}
      ensures Lightest(old(Live(hs)), weight[..], x)
    {
      assert Opened(0);
      x := TakeLightest(heap, weight, nHeap);
      nHeap := nHeap - 1;
      hs := heap[..nHeap + 1];
    }

    /** Put a node in (huffman.c:93-95, 107-109). */
    method Put(weight: array<int>, x: int)
      requires Valid() && heap != weight && nHeap + 1 < heap.Length && HeapState(hs, weight[..])
      requires 0 <= x < weight.Length && weight[x] >= 0
      modifies this, heap
      ensures Valid() && nHeap == old(nHeap) + 1 && HeapState(hs, weight[..])
      ensures Live(hs) == old(Live(hs)) + multiset{x}
    {
      assert Opened(0);
      Insert(heap, weight, nHeap, x);
      nHeap := nHeap + 1;
      hs := heap[..nHeap + 1];
    }
  }

  // ----- One tree -----

  /** The packed weights stand for the weights and heights of the forest. */
  ghost predicate Packed(t: Forest, w: seq<int>)
  {
    |w| == |t.wt| == |t.ht| && t.n < |w|
    && forall x :: 1 <= x <= t.n ==> PackedAt(w[x], t.wt[x], t.ht[x])
  }

  ghost predicate PackedAt(z: int, wt: int, ht: int)
  {
    z == 256 * wt + ht && 0 <= ht < 256 && wt >= 1
  }

  lemma PackedOrder(z1: int, w1: int, h1: int, z2: int, w2: int, h2: int)
    requires PackedAt(z1, w1, h1) && PackedAt(z2, w2, h2) && z1 <= z2
    ensures w1 <= w2
  {
  }

  ghost predicate Growing(t: Forest, w: seq<int>, par: seq<int>, live: multiset<int>, total: int, last: int)
  {
    && 0 <= t.n < 2 * MAX_ALPHA && |w| == |par| == |t.wt| == |t.ht| == |t.par| == |t.kids| == 2 * MAX_ALPHA
    && forall i {:trigger Opened(i)} :: Opened(i) ==> Grown(t, w, par, live, total, last)
  }

  ghost predicate Grown(t: Forest, w: seq<int>, par: seq<int>, live: multiset<int>, total: int, last: int)
  {
    && Shape(t) && |par| == |w| == |t.kids| == 2 * MAX_ALPHA && t.par == par && Packed(t, w)
    && t.alpha <= MAX_ALPHA && par[t.n] == -1
    && Roots(t, live) && Balanced(t, last) && Greedy(t)
    && RootSum(t.wt, t.par, t.n) == total <= MAX_TOTAL
  }

  lemma FibTable()
    ensures Fib(13) == 610 && Fib(29) == 1346269
  {
    assert Fib(2) == 3 && Fib(3) == 5 && Fib(4) == 8 && Fib(5) == 13 && Fib(6) == 21 && Fib(7) == 34;
    assert Fib(8) == 55 && Fib(9) == 89 && Fib(10) == 144 && Fib(11) == 233 && Fib(12) == 377 && Fib(13) == 610;
    assert Fib(14) == 987 && Fib(15) == 1597 && Fib(16) == 2584 && Fib(17) == 4181 && Fib(18) == 6765;
    assert Fib(19) == 10946 && Fib(20) == 17711 && Fib(21) == 28657 && Fib(22) == 46368 && Fib(23) == 75025;
    assert Fib(24) == 121393 && Fib(25) == 196418 && Fib(26) == 317811 && Fib(27) == 514229 && Fib(28) == 832040;
  }

  /** A node lighter than the Fibonacci number of `h` is lower than `h`. */
  lemma HeightBelow(wt: int, ht: int, par: int, last: int, h: int)
    requires BalancedAt(wt, ht, par, last) && wt < Fib(h) && h >= 0
    ensures ht < h
  {
    if ht >= h {
      FibMono(h, ht);
    }
  }

  lemma RootHeight(t: Forest, w: seq<int>, par: seq<int>, live: multiset<int>, total: int, last: int, x: int)
    requires Growing(t, w, par, live, total, last) && x in live
    ensures 1 <= x <= t.n && t.par[x] == -1 && t.wt[x] <= total && t.ht[x] < 29
    ensures total <= 516 ==> t.ht[x] < 13
  {
    assert Opened(0);
    assert live[x] == 1;
    RootBelowSum(t.wt, t.par, t.n, x);
    FibTable();
    HeightBelow(t.wt[x], t.ht[x], t.par[x], last, 29);
    if total <= 516 {
      HeightBelow(t.wt[x], t.ht[x], t.par[x], last, 13);
    }
  }

  lemma TwoLightest(t: Forest, w: seq<int>, par: seq<int>, live: multiset<int>, total: int, last: int, n1: int, n2: int)
    requires Growing(t, w, par, live, total, last)
    requires n1 in live && n2 in live - multiset{n1}
    requires Lightest(live, w, n1) && Lightest(live - multiset{n1}, w, n2)
    ensures 1 <= n1 <= t.n && 1 <= n2 <= t.n && n1 != n2 && t.par[n1] == -1 && t.par[n2] == -1
    ensures t.ht[n1] < 29 && t.ht[n2] < 29 && t.wt[n1] <= t.wt[n2]
    ensures forall x :: 1 <= x <= t.n && t.par[x] == -1 && x != n1 ==> t.wt[n2] <= t.wt[x]
  {
    assert Opened(0);
    RootHeight(t, w, par, live, total, last, n1);
    RootHeight(t, w, par, live, total, last, n2);
    assert live[n1] == 1;
    assert PackedAt(w[n1], t.wt[n1], t.ht[n1]) && PackedAt(w[n2], t.wt[n2], t.ht[n2]);
    PackedOrder(w[n1], t.wt[n1], t.ht[n1], w[n2], t.wt[n2], t.ht[n2]);
    forall x | 1 <= x <= t.n && t.par[x] == -1 && x != n1
      ensures t.wt[n2] <= t.wt[x]
    {
      assert live[x] == 1;
      assert x in live - multiset{n1};
      PackedOrder(w[n2], t.wt[n2], t.ht[n2], w[x], t.wt[x], t.ht[x]);
    }
  }

  lemma MergePacked(t: Forest, w: seq<int>, n1: int, n2: int)
    requires Packed(t, w) && 0 <= t.n && Roomy(t, t.n + 1) && 1 <= n1 <= t.n && 1 <= n2 <= t.n
    requires t.ht[n1] < 29 && t.ht[n2] < 29
    ensures 0 <= w[n1] && 0 <= w[n2] && w[n1] % 256 < 255 && w[n2] % 256 < 255
    ensures Packed(Merge(t, n1, n2), w[t.n + 1 := AddWeights(w[n1], w[n2])])
  {
    assert PackedAt(w[n1], t.wt[n1], t.ht[n1]) && PackedAt(w[n2], t.wt[n2], t.ht[n2]);
    AddPacked(t.wt[n1], t.ht[n1], t.wt[n2], t.ht[n2]);
    var u, w' := Merge(t, n1, n2), w[t.n + 1 := AddWeights(w[n1], w[n2])];
    forall x | 1 <= x <= u.n
      ensures PackedAt(w'[x], u.wt[x], u.ht[x])
    {
      if x <= t.n {
        assert PackedAt(w[x], t.wt[x], t.ht[x]);
      }
    }
  }

  /** Merging two of the lightest roots keeps the forest in shape. */
  lemma GrownStep(t: Forest, w: seq<int>, par: seq<int>, live: multiset<int>, total: int, last: int, n1: int, n2: int)
    requires Grown(t, w, par, live, total, last) && t.n + 1 < 2 * MAX_ALPHA && Roomy(t, t.n + 1)
    requires 1 <= n1 <= t.n && 1 <= n2 <= t.n && n1 != n2 && t.par[n1] == -1 && t.par[n2] == -1
    requires t.ht[n1] < 29 && t.ht[n2] < 29 && t.wt[n1] <= t.wt[n2]
    requires forall x :: 1 <= x <= t.n && t.par[x] == -1 && x != n1 ==> t.wt[n2] <= t.wt[x]
    ensures 0 <= w[n1] && 0 <= w[n2] && w[n1] % 256 < 255 && w[n2] % 256 < 255
    ensures var m := t.n + 1;
      Grown(Merge(t, n1, n2), w[m := AddWeights(w[n1], w[n2])], par[n1 := m][n2 := m][m := -1],
            live - multiset{n1} - multiset{n2} + multiset{m}, total, t.wt[n2])
  {
    MergePacked(t, w, n1, n2);
    MergeShape(t, n1, n2);
    MergeRoots(t, n1, n2, live);
    MergeBalanced(t, n1, n2, last);
    MergeGreedy(t, n1, n2);
    MergeConserves(t, n1, n2);
  }

  /** The arrays after one merge (huffman.c:103-106). */
  lemma GrowStep(t: Forest, w: seq<int>, par: seq<int>, live: multiset<int>, total: int, last: int, n1: int, n2: int)
    requires Growing(t, w, par, live, total, last) && t.n + 1 < 2 * MAX_ALPHA
    requires n1 in live && n2 in live - multiset{n1}
    requires Lightest(live, w, n1) && Lightest(live - multiset{n1}, w, n2)
    ensures 1 <= n1 <= t.n && 1 <= n2 <= t.n && n1 != n2
    ensures 0 <= w[n1] && 0 <= w[n2] && w[n1] % 256 < 255 && w[n2] % 256 < 255
    ensures var m := t.n + 1;
      Growing(Merge(t, n1, n2), w[m := AddWeights(w[n1], w[n2])], par[n1 := m][n2 := m][m := -1],
              live - multiset{n1} - multiset{n2} + multiset{m}, total, t.wt[n2])
  {
    TwoLightest(t, w, par, live, total, last, n1, n2);
    GrownOpen(t, w, par, live, total, last);
    GrownStep(t, w, par, live, total, last, n1, n2);
  }

  lemma GrownOpen(t: Forest, w: seq<int>, par: seq<int>, live: multiset<int>, total: int, last: int)
    requires Growing(t, w, par, live, total, last)
    ensures Grown(t, w, par, live, total, last)
  {
    assert Opened(0);
  }

  /** Writing a weight for a node that is not in the heap does not disturb it. */
  lemma HeapReweigh(hs: seq<int>, w: seq<int>, m: int, z: int)
    requires hs != [] && HeapState(hs, w) && 0 < m < |w| && m !in Live(hs)
    ensures HeapState(hs, w[m := z])
  {
    assert Opened(0);
    forall k | 0 <= k < |hs|
      ensures hs[k] != m
    {
      if k > 0 {
        assert hs[1..][k - 1] == hs[k];
      }
    }
    var w' := w[m := z];
    forall k | 2 <= k < |hs|
      ensures Above(hs, w', k)
    {
      assert Above(hs, w, k);
    }
  }

  /** Make `m` the parent of `n1` and `n2` (huffman.c:104-106). */
  method Join(weight: array<int>, parent: array<int>, n1: int, n2: int, m: int)
    requires weight != parent && weight.Length == parent.Length
    requires 0 <= n1 < weight.Length && 0 <= n2 < weight.Length && 0 <= m < weight.Length && n1 != m && n2 != m
    requires 0 <= weight[n1] && 0 <= weight[n2] && weight[n1] % 256 < 255 && weight[n2] % 256 < 255
    modifies weight, parent
    ensures weight[..] == old(weight[..])[m := AddWeights(old(weight[n1]), old(weight[n2]))]
    ensures parent[..] == old(parent[..])[n1 := m][n2 := m][m := -1]
  {
    parent[n2] := m;
    parent[n1] := m;
    weight[m] := AddWeights(weight[n1], weight[n2]);
    parent[m] := -1;
  }

  /** One round of the merging loop (huffman.c:100-110). */
  method MergeOnce(h: NodeHeap, weight: array<int>, parent: array<int>, nNodes: int,
                   ghost t: Forest, ghost total: int, ghost last: int)
    returns (ghost u: Forest, ghost last': int, ghost z: int)
    requires h.Valid() && h.heap != weight && h.heap != parent && weight != parent && weight.Length == parent.Length
    requires h.nHeap >= 2 && HeapState(h.hs, weight[..])
    requires Growing(t, weight[..], parent[..], Live(h.hs), total, last)
    requires nNodes == t.n && nNodes + 1 < 2 * MAX_ALPHA
    modifies h, h.heap, weight, parent
    ensures h.Valid() && h.nHeap == old(h.nHeap) - 1 && HeapState(h.hs, weight[..])
    ensures Growing(u, weight[..], parent[..], Live(h.hs), total, last')
    ensures u.n == t.n + 1 && u.alpha == t.alpha
    ensures weight[..] == old(weight[..])[nNodes + 1 := z]
  {
    ghost var w, par, live := weight[..], parent[..], Live(h.hs);
    var n1, n2 := TakeTwo(h, weight);
    GrowStep(t, w, par, live, total, last, n1, n2);
    u, last' := Merge(t, n1, n2), t.wt[n2];
    NewNode(t, w, par, live, total, last, n1, n2);
    z := AddWeights(w[n1], w[n2]);
    Graft(h, weight, parent, n1, n2, nNodes + 1);
  }

  /** The number of the new node is not in use. */
  lemma NewNode(t: Forest, w: seq<int>, par: seq<int>, live: multiset<int>, total: int, last: int, n1: int, n2: int)
    requires Growing(t, w, par, live, total, last)
    ensures t.n + 1 !in live - multiset{n1} - multiset{n2}
  {
    assert Opened(0);
    assert live[t.n + 1] == 0;
  }

  /** The two lightest nodes, in order (huffman.c:101-102). */
  method TakeTwo(h: NodeHeap, weight: array<int>) returns (n1: int, n2: int)
    requires h.Valid() && h.heap != weight && h.nHeap >= 2 && HeapState(h.hs, weight[..])
    modifies h, h.heap
    ensures h.Valid() && h.nHeap == old(h.nHeap) - 2 && HeapState(h.hs, weight[..])
    ensures n1 in old(Live(h.hs)) && Lightest(old(Live(h.hs)), weight[..], n1)
    ensures n2 in old(Live(h.hs)) - multiset{n1} && Lightest(old(Live(h.hs)) - multiset{n1}, weight[..], n2)
    ensures Live(h.hs) == old(Live(h.hs)) - multiset{n1} - multiset{n2}
  {
    n1 := h.Take(weight);
    n2 := h.Take(weight);
  }

  /** Join two nodes under `m` and put `m` in the heap (huffman.c:103-109). */
  method Graft(h: NodeHeap, weight: array<int>, parent: array<int>, n1: int, n2: int, m: int)
    requires h.Valid() && h.heap != weight && h.heap != parent && weight != parent && weight.Length == parent.Length
    requires h.nHeap + 1 < h.heap.Length && HeapState(h.hs, weight[..]) && m !in Live(h.hs)
    requires 0 <= n1 < weight.Length && 0 <= n2 < weight.Length && 0 < m < weight.Length && n1 != m && n2 != m
    requires 0 <= weight[n1] && 0 <= weight[n2] && weight[n1] % 256 < 255 && weight[n2] % 256 < 255
    modifies h, h.heap, weight, parent
    ensures h.Valid() && h.nHeap == old(h.nHeap) + 1 && HeapState(h.hs, weight[..])
    ensures Live(h.hs) == old(Live(h.hs)) + multiset{m}
    ensures weight[..] == old(weight[..])[m := AddWeights(old(weight[..])[n1], old(weight[..])[n2])]
    ensures parent[..] == old(parent[..])[n1 := m][n2 := m][m := -1]
  {
    ghost var w := weight[..];
    Join(weight, parent, n1, n2, m);
    HeapReweigh(h.hs, w, m, weight[m]);
    h.Put(weight, m);
  }

  // ----- Building one whole tree -----

  /** Leaf `x` weighs `leaf[x]`, shifted into the high bits. */
  ghost predicate LeafWeights(w: seq<int>, leaf: seq<int>, alpha: int)
  {
    && |w| == |leaf| == 2 * MAX_ALPHA && 2 <= alpha <= MAX_ALPHA
    && forall x :: 1 <= x <= alpha ==> leaf[x] >= 1 && w[x] == 256 * leaf[x]
  }

  function Sum(leaf: seq<int>, m: nat): (s: int)
    requires m < |leaf|
  {
    if m == 0 then 0 else Sum(leaf, m - 1) + leaf[m]
  }

  lemma {:induction false} RootSumOfLeaves(leaf: seq<int>, par: seq<int>, m: nat)
    requires m < |leaf| && m < |par| && forall x :: 1 <= x <= m ==> par[x] == -1
    ensures RootSum(leaf, par, m) == Sum(leaf, m)
  {
    if m != 0 {
      RootSumOfLeaves(leaf, par, m - 1);
    }
  }

  ghost function Seedlings(alpha: int, leaf: seq<int>, par: seq<int>): (t: Forest)
  {
    Forest(alpha, alpha, leaf, seq(2 * MAX_ALPHA, _ => 0), par, seq(2 * MAX_ALPHA, _ => (0, 0)))
  }

  lemma SeedlingsGrow(alpha: int, leaf: seq<int>, w: seq<int>, par: seq<int>, live: multiset<int>)
    requires LeafWeights(w, leaf, alpha) && Sum(leaf, alpha) <= MAX_TOTAL && |par| == 2 * MAX_ALPHA
    requires forall x :: 1 <= x <= alpha ==> par[x] == -1
    requires forall x :: live[x] == if 1 <= x <= alpha then 1 else 0
    ensures Growing(Seedlings(alpha, leaf, par), w, par, live, Sum(leaf, alpha), 1)
  {
    RootSumOfLeaves(leaf, par, alpha);
    var t := Seedlings(alpha, leaf, par);
    forall x | 1 <= x <= alpha
      ensures BalancedAt(t.wt[x], t.ht[x], t.par[x], 1) && PackedAt(w[x], t.wt[x], t.ht[x])
    {
    }
  }

  /** The nodes `1 .. n - 1`, once each. */
  ghost predicate FirstNodes(live: multiset<int>, n: int)
  {
    forall x :: live[x] == if 1 <= x < n then 1 else 0
  }

  lemma OneMoreNode(live: multiset<int>, n: int)
    requires FirstNodes(live, n) && n >= 1
    ensures FirstNodes(live + multiset{n}, n + 1)
  {
  }

  lemma NoNodes(hs: seq<int>)
    requires hs == [0]
    ensures FirstNodes(Live(hs), 1)
  {
  }

  /** Fill the heap with the leaves (huffman.c:84-96). */
  method Plant(h: NodeHeap, weight: array<int>, parent: array<int>, alphaSize: int, ghost leaf: seq<int>)
    requires h.Valid() && h.hs == [0] && h.heap != weight && h.heap != parent && weight != parent
    requires weight.Length == parent.Length == 2 * MAX_ALPHA && LeafWeights(weight[..], leaf, alphaSize)
    modifies h, h.heap, weight, parent
    ensures h.Valid() && h.nHeap == alphaSize && HeapState(h.hs, weight[..])
    ensures LeafWeights(weight[..], leaf, alphaSize)
    ensures forall x :: 1 <= x <= alphaSize ==> parent[x] == -1
    ensures forall x :: Live(h.hs)[x] == if 1 <= x <= alphaSize then 1 else 0
  {
    weight[0] := 0;
    parent[0] := -2;
    ghost var w := weight[..];
    NoNodes(h.hs);
    for i := 1 to alphaSize + 1
      invariant h.Valid() && h.nHeap == i - 1 && weight[..] == w && HeapState(h.hs, w)
      invariant forall x :: 1 <= x < i ==> parent[x] == -1
      invariant FirstNodes(Live(h.hs), i)
    {
      OneMoreNode(Live(h.hs), i);
      parent[i] := -1;
      h.Put(weight, i);
    }
  }

  lemma SoleRoot(t: Forest, w: seq<int>, par: seq<int>, live: multiset<int>, total: int, last: int)
    requires Growing(t, w, par, live, total, last) && |live| == 1
    ensures OneRoot(t) && live == multiset{t.n} && Shape(t) && t.par == par && |t.wt| == |t.par| && Greedy(t)
  {
    assert Opened(0);
    assert live[t.n] == 1;
    var rest := live - multiset{t.n};
    assert |rest| == 0;
    forall x | 1 <= x <= t.n && t.par[x] == -1
      ensures x == t.n
    {
      assert live[x] == 1;
      assert rest[x] == 0;
    }
  }

  /** The leaves of the tree weigh what they were given. */
  lemma LeavesWeigh(t: Forest, w: seq<int>, par: seq<int>, live: multiset<int>, total: int, last: int, leaf: seq<int>)
    requires Growing(t, w, par, live, total, last) && LeafWeights(w, leaf, t.alpha)
    ensures t.alpha <= t.n && t.wt[1..t.alpha + 1] == leaf[1..t.alpha + 1]
  {
    assert Opened(0);
    forall x | 1 <= x <= t.alpha
      ensures t.wt[x] == leaf[x]
    {
      assert PackedAt(w[x], t.wt[x], t.ht[x]);
    }
  }

  /** Build the tree (huffman.c:84-112). */
  method BuildTree(weight: array<int>, parent: array<int>, alphaSize: int, ghost leaf: seq<int>)
    returns (nNodes: int, ghost t: Forest)
    requires weight != parent && weight.Length == parent.Length == 2 * MAX_ALPHA
    requires LeafWeights(weight[..], leaf, alphaSize) && Sum(leaf, alphaSize) <= MAX_TOTAL
    modifies weight, parent
    ensures LeafWeights(weight[..], leaf, alphaSize)
    ensures nNodes == t.n && t.alpha == alphaSize && Shape(t) && OneRoot(t) && t.par == parent[..]
    ensures t.ht[t.n] < 29 && (Sum(leaf, alphaSize) <= 516 ==> t.ht[t.n] < 13)
    ensures |t.wt| == |t.par| && Greedy(t) && t.wt[1..alphaSize + 1] == leaf[1..alphaSize + 1]
  {
    nNodes := alphaSize;
    var h := new NodeHeap();
    Plant(h, weight, parent, alphaSize, leaf);
    ghost var total, last := Sum(leaf, alphaSize), 1;
    t := Seedlings(alphaSize, leaf, parent[..]);
    SeedlingsGrow(alphaSize, leaf, weight[..], parent[..], Live(h.hs));
    while h.nHeap > 1
      invariant h.Valid() && fresh(h) && fresh(h.heap) && 1 <= h.nHeap && HeapState(h.hs, weight[..])
      invariant Growing(t, weight[..], parent[..], Live(h.hs), total, last)
      invariant t.alpha == alphaSize && nNodes == t.n && h.nHeap + nNodes == 2 * alphaSize
      invariant LeafWeights(weight[..], leaf, alphaSize)
      decreases h.nHeap
    {
      ghost var z;
      t, last, z := MergeOnce(h, weight, parent, nNodes, t, total, last);
      nNodes := nNodes + 1;
    }
    assert |Live(h.hs)| == 1;
    SoleRoot(t, weight[..], parent[..], Live(h.hs), total, last);
    RootHeight(t, weight[..], parent[..], Live(h.hs), total, last, t.n);
    LeavesWeigh(t, weight[..], parent[..], Live(h.hs), total, last, leaf);
  }

  // ----- Reading off the lengths, and rescaling -----

  /** Length of one code: parent links to the top (huffman.c:116-118). */
  method CountLinks(parent: array<int>, i: int, ghost n: int) returns (j: int)
    requires Upward(parent[..], n) && 1 <= i <= n
    ensures j == Depth(parent[..], n, i)
  {
    ghost var par := parent[..];
    j := 0;
    var k := i;
    while parent[k] >= 0
      invariant 1 <= k <= n && j >= 0 && j + Depth(par, n, k) == Depth(par, n, i)
      decreases n - k
    {
      assert par[k] == parent[k];
      k := parent[k];
      j := j + 1;
    }
    assert par[k] == -1;
  }

  /** All code lengths (huffman.c:114-121). */
  method MeasureLengths(len: array<int>, parent: array<int>, alphaSize: int, maxLen: int, ghost t: Forest)
    returns (tooLong: bool)
    requires len != parent && len.Length >= alphaSize == t.alpha && Shape(t) && t.par == parent[..]
    modifies len
    ensures forall i :: 0 <= i < alphaSize ==> len[i] == Depth(t.par, t.n, i + 1)
    ensures tooLong <==> exists i :: 0 <= i < alphaSize && len[i] > maxLen
  {
    assert Upward(t.par, t.n);
    tooLong := false;
    for i := 1 to alphaSize + 1
      invariant parent[..] == t.par
      invariant forall k :: 0 <= k < i - 1 ==> len[k] == Depth(t.par, t.n, k + 1)
      invariant tooLong <==> exists k :: 0 <= k < i - 1 && len[k] > maxLen
    {
      var j := CountLinks(parent, i, t.n);
      len[i - 1] := j;
      if j > maxLen { tooLong := true; }
    }
  }

  /** The least number above half of `w`, by the scaling of huffman.c:144. */
  function Halved(w: int): (r: int)
    requires w >= 1
    ensures 2 * (r - 1) <= w < 2 * r
    ensures 1 <= r <= w && (w >= 3 ==> r < w)
  {
    1 + w / 2
  }

  /** Halve the leaf weights (huffman.c:142-146). */
  method Rescale(weight: array<int>, alphaSize: int, ghost leaf: seq<int>) returns (ghost leaf': seq<int>)
    requires LeafWeights(weight[..], leaf, alphaSize) && weight.Length == 2 * MAX_ALPHA
    modifies weight
    ensures LeafWeights(weight[..], leaf', alphaSize)
    ensures forall x :: 1 <= x <= alphaSize ==> leaf[x] >= 1 && leaf'[x] == Halved(leaf[x])
  {
    leaf' := leaf;
    ghost var w := weight[..];
    for i := 1 to alphaSize + 1
      invariant |leaf'| == |leaf|
      invariant forall x :: 1 <= x < i ==> leaf'[x] == Halved(leaf[x]) && weight[x] == 256 * leaf'[x]
      invariant forall x :: i <= x <= alphaSize ==> weight[x] == 256 * leaf[x]
    {
      var j := weight[i] / 256;
      j := 1 + j / 2;
      weight[i] := j * 256;
      leaf' := leaf'[i := Halved(leaf[i])];
    }
  }

  lemma {:induction false} SumHalved(leaf: seq<int>, leaf': seq<int>, m: nat)
    requires m < |leaf| == |leaf'| && forall x :: 1 <= x <= m ==> leaf[x] >= 1 && leaf'[x] == Halved(leaf[x])
    ensures 0 <= Sum(leaf', m) <= Sum(leaf, m)
    ensures (exists x :: 1 <= x <= m && leaf[x] >= 3) ==> Sum(leaf', m) < Sum(leaf, m)
  {
    if m != 0 {
      SumHalved(leaf, leaf', m - 1);
    }
  }

  lemma {:induction false} SumSmall(leaf: seq<int>, m: nat)
    requires m < |leaf| && forall x :: 1 <= x <= m ==> leaf[x] <= 2
    ensures Sum(leaf, m) <= 2 * m
  {
    if m != 0 {
      SumSmall(leaf, m - 1);
    }
  }

  /** A tree that is too deep has a leaf worth halving. */
  lemma TooLongHasHeavyLeaf(t: Forest, leaf: seq<int>, lens: seq<int>, maxLen: int)
    requires Shape(t) && OneRoot(t) && t.alpha < |leaf| && |lens| == t.alpha <= MAX_ALPHA && maxLen >= 12
    requires forall i :: 0 <= i < |lens| ==> lens[i] == Depth(t.par, t.n, i + 1)
    requires Sum(leaf, t.alpha) <= 516 ==> t.ht[t.n] < 13
    requires exists i :: 0 <= i < |lens| && lens[i] > maxLen
    ensures exists x :: 1 <= x <= t.alpha && leaf[x] >= 3
  {
    var i :| 0 <= i < |lens| && lens[i] > maxLen;
    DepthBelowHeight(t, i + 1);
    if forall x :: 1 <= x <= t.alpha ==> leaf[x] <= 2 {
      SumSmall(leaf, t.alpha);
    }
  }

  /** Every leaf hangs below some inner node, so no length is zero. */
  lemma LengthsPositive(t: Forest, x: int)
    requires Shape(t) && OneRoot(t) && 1 <= x <= t.alpha < t.n
    ensures Depth(t.par, t.n, x) >= 1
  {
  }

  function Shifted(freq: seq<int>, i: int): (w: int)
    requires 0 <= i < |freq|
  {
    if freq[i] == 0 then 1 else freq[i]
  }

  /** The leaf weights after some rounds of rescaling. */
  function Weights(freq: seq<int>, rounds: nat): (w: seq<int>)
    requires forall i :: 0 <= i < |freq| ==> freq[i] >= 0
    ensures |w| == |freq| && forall i :: 0 <= i < |w| ==> w[i] >= 1
    decreases rounds
  {
    if rounds == 0 then seq(|freq|, i requires 0 <= i < |freq| => Shifted(freq, i))
    else
      var w := Weights(freq, rounds - 1);
      seq(|freq|, i requires 0 <= i < |freq| => Halved(w[i]))
  }

  lemma WeightsNext(freq: seq<int>, r: nat, i: int)
    requires (forall k :: 0 <= k < |freq| ==> freq[k] >= 0) && 0 <= i < |freq|
    ensures Weights(freq, r)[i] < 2 * Weights(freq, r + 1)[i] <= Weights(freq, r)[i] + 2
  {
    var w, w' := Weights(freq, r), Weights(freq, r + 1);
    assert w'[i] == Halved(w[i]);
  }

  lemma Scaled(y: int, w: int, w': int, p: nat)
    requires p * (w - 2) <= y < p * (w - 1) && w < 2 * w' <= w + 2
    ensures (2 * p) * (w' - 2) <= y < (2 * p) * (w' - 1)
  {
    ScaleMono(2 * w' - 4, w - 2, p);
    ScaleMono(w - 1, 2 * w' - 2, p);
    assert p * (2 * w' - 4) == (2 * p) * (w' - 2) && p * (2 * w' - 2) == (2 * p) * (w' - 1);
  }

  /** A weight after `r` rounds, in closed form: two more than the frequency less two, zero counting as one, divided by
      2^r and rounded down. */
  lemma {:induction false} WeightsScale(freq: seq<int>, r: nat, i: int)
    requires (forall k :: 0 <= k < |freq| ==> freq[k] >= 0) && 0 <= i < |freq|
    ensures var w, f := Weights(freq, r)[i], Max(1, freq[i]); Pow2(r) * (w - 2) <= f - 2 < Pow2(r) * (w - 1)
  {
    if r != 0 {
      WeightsScale(freq, r - 1, i);
      WeightsNext(freq, r - 1, i);
      Scaled(Max(1, freq[i]) - 2, Weights(freq, r - 1)[i], Weights(freq, r)[i], Pow2(r - 1));
    }
  }

  /** Rounds keep the order of the weights. */
  lemma {:induction false} WeightsOrder(freq: seq<int>, r: nat, i: int, j: int)
    requires (forall k :: 0 <= k < |freq| ==> freq[k] >= 0) && 0 <= i < |freq| && 0 <= j < |freq|
    requires freq[i] <= freq[j]
    ensures Weights(freq, r)[i] <= Weights(freq, r)[j]
  {
    if r != 0 {
      WeightsOrder(freq, r - 1, i, j);
      WeightsNext(freq, r - 1, i);
      WeightsNext(freq, r - 1, j);
    }
  }

  /** Some optimal code of these weights has a length above `maxLen`. */
  ghost predicate Overlong(w: seq<int>, maxLen: int)
  {
    exists lens :: Optimal(w, lens) && exists i :: 0 <= i < |lens| && lens[i] > maxLen
  }

  /** In every round so far an optimal code was too long. */
  ghost predicate Rescaled(freq: seq<int>, rounds: nat, maxLen: int)
    requires forall i :: 0 <= i < |freq| ==> freq[i] >= 0
  {
    forall r :: 0 <= r < rounds ==> Overlong(Weights(freq, r), maxLen)
  }

  lemma OneMoreRound(freq: seq<int>, rounds: nat, maxLen: int)
    requires forall i :: 0 <= i < |freq| ==> freq[i] >= 0
    requires Rescaled(freq, rounds, maxLen) && Overlong(Weights(freq, rounds), maxLen)
    ensures Rescaled(freq, rounds + 1, maxLen)
  {
  }

  ghost function Total(s: seq<int>): (r: int)
  {
    if s == [] then 0 else Total(s[..|s| - 1]) + s[|s| - 1]
  }

  lemma {:induction false} InitialSum(freq: seq<int>, leaf: seq<int>, m: nat)
    requires m <= |freq| && m < |leaf| && forall i :: 0 <= i < |freq| ==> freq[i] >= 0
    requires forall x :: 1 <= x <= m ==> leaf[x] == Shifted(freq, x - 1)
    ensures 0 <= Sum(leaf, m) <= Total(freq[..m]) + m
  {
    if m != 0 {
      InitialSum(freq, leaf, m - 1);
      assert freq[..m][..m - 1] == freq[..m - 1];
    }
  }

  /** Leaf weights from frequencies (huffman.c:79-80). */
  method InitWeights(weight: array<int>, freq: seq<int>) returns (ghost leaf: seq<int>)
    requires weight.Length == 2 * MAX_ALPHA && 2 <= |freq| <= MAX_ALPHA
    requires (forall i :: 0 <= i < |freq| ==> freq[i] >= 0) && Total(freq) <= 900000
    modifies weight
    ensures LeafWeights(weight[..], leaf, |freq|) && 0 <= Sum(leaf, |freq|) <= MAX_TOTAL
    ensures leaf[1..|freq| + 1] == Weights(freq, 0)
  {
    leaf := weight[..];
    for i := 0 to |freq|
      invariant |leaf| == weight.Length
      invariant forall x :: 1 <= x <= i ==> leaf[x] == Shifted(freq, x - 1) && weight[x] == 256 * leaf[x]
    {
      weight[i + 1] := (if freq[i] == 0 then 1 else freq[i]) * 256;
      leaf := leaf[i + 1 := Shifted(freq, i)];
    }
    assert freq[..|freq|] == freq;
    InitialSum(freq, leaf, |freq|);
  }

  /** BZ2_hbMakeCodeLengths: it terminates on every frequency vector, every length lies in `1 .. maxLen`,
      and the lengths fill the code space exactly. They are optimal for the weights after `rounds` rounds of rescaling,
      and there was a round only where an optimal code was too long. */
  method MakeCodeLengths(len: array<int>, freq: seq<int>, alphaSize: int, maxLen: int) returns (ghost rounds: nat)
    requires 2 <= |freq| == alphaSize <= MAX_ALPHA && len.Length >= alphaSize && maxLen >= 12
    requires (forall i :: 0 <= i < |freq| ==> freq[i] >= 0) && Total(freq) <= 900000
    modifies len
    ensures Complete(len[..alphaSize], maxLen)
    ensures Optimal(Weights(freq, rounds), len[..alphaSize])
    ensures Rescaled(freq, rounds, maxLen)
  {
    var weight := new int[2 * MAX_ALPHA];
    var parent := new int[2 * MAX_ALPHA];
    ghost var leaf := InitWeights(weight, freq);
    rounds := 0;
    while true
      invariant LeafWeights(weight[..], leaf, alphaSize) && 0 <= Sum(leaf, alphaSize) <= MAX_TOTAL
      invariant leaf[1..alphaSize + 1] == Weights(freq, rounds)
      invariant Rescaled(freq, rounds, maxLen)
      decreases Sum(leaf, alphaSize)
    {
      var tooLong := OneTree(weight, parent, len, alphaSize, maxLen, leaf);
      if !tooLong { break; }
      ghost var leaf' := Rescale(weight, alphaSize, leaf);
      SumHalved(leaf, leaf', alphaSize);
      OneMoreRound(freq, rounds, maxLen);
      NextWeights(freq, rounds, leaf, leaf');
      leaf, rounds := leaf', rounds + 1;
    }
  }

  /** Build a tree and read off its lengths. */
  method OneTree(weight: array<int>, parent: array<int>, len: array<int>, alphaSize: int, maxLen: int,
                 ghost leaf: seq<int>)
    returns (tooLong: bool)
    requires weight != parent && weight != len && len != parent && weight.Length == parent.Length == 2 * MAX_ALPHA
    requires LeafWeights(weight[..], leaf, alphaSize) && Sum(leaf, alphaSize) <= MAX_TOTAL
    requires len.Length >= alphaSize && maxLen >= 12
    modifies weight, parent, len
    ensures LeafWeights(weight[..], leaf, alphaSize) && Optimal(leaf[1..alphaSize + 1], len[..alphaSize])
    ensures !tooLong ==> Complete(len[..alphaSize], maxLen)
    ensures tooLong ==> Overlong(leaf[1..alphaSize + 1], maxLen) && exists x :: 1 <= x <= alphaSize && leaf[x] >= 3
  {
    var nNodes;
    ghost var t;
    nNodes, t := BuildTree(weight, parent, alphaSize, leaf);
    tooLong := MeasureLengths(len, parent, alphaSize, maxLen, t);
    ghost var lens := len[..alphaSize];
    DepthsOptimal(t, lens);
    if tooLong {
      TooLong(leaf[1..alphaSize + 1], lens, maxLen);
      TooLongHasHeavyLeaf(t, leaf, lens, maxLen);
    } else {
      Finished(t, lens, maxLen);
    }
  }

  /** Lengths within the limit that fill the code space. */
  ghost predicate Complete(lens: seq<int>, maxLen: nat)
  {
    (forall i :: 0 <= i < |lens| ==> 1 <= lens[i] <= maxLen) && Kraft(lens, maxLen) == Pow2(maxLen)
  }

  lemma TooLong(w: seq<int>, lens: seq<int>, maxLen: int)
    requires Optimal(w, lens) && exists i :: 0 <= i < |lens| && lens[i] > maxLen
    ensures Overlong(w, maxLen)
  {
  }

  lemma NextWeights(freq: seq<int>, rounds: nat, leaf: seq<int>, leaf': seq<int>)
    requires (forall i :: 0 <= i < |freq| ==> freq[i] >= 0) && |leaf| == |leaf'| > |freq|
    requires leaf[1..|freq| + 1] == Weights(freq, rounds)
    requires forall x :: 1 <= x <= |freq| ==> leaf[x] >= 1 && leaf'[x] == Halved(leaf[x])
    ensures leaf'[1..|freq| + 1] == Weights(freq, rounds + 1)
  {
    var w, w', u := leaf[1..|freq| + 1], leaf'[1..|freq| + 1], Weights(freq, rounds + 1);
    forall i | 0 <= i < |freq|
      ensures w'[i] == u[i]
    {
      assert w[i] == leaf[i + 1];
    }
  }

  lemma Finished(t: Forest, lens: seq<int>, maxLen: nat)
    requires Shape(t) && OneRoot(t) && |lens| == t.alpha
    requires forall i :: 0 <= i < |lens| ==> lens[i] == Depth(t.par, t.n, i + 1)
    requires forall i :: 0 <= i < |lens| ==> lens[i] <= maxLen
    ensures Complete(lens, maxLen)
  {
    assert t.par[1] == -1 <==> 1 == t.n;
    forall x | 1 <= x <= t.alpha
      ensures Depth(t.par, t.n, x) <= maxLen
    {
      assert lens[x - 1] == Depth(t.par, t.n, x);
    }
    KraftExact(t, maxLen, lens);
    assert t.par[1] == -1 || t.alpha < t.par[1] <= t.n;
    forall i | 0 <= i < |lens|
      ensures 1 <= lens[i]
    {
      LengthsPositive(t, i + 1);
    }
  }
}
