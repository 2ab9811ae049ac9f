/** The binary heap of BZ2_hbMakeCodeLengths: UPHEAP and DOWNHEAP over node numbers keyed by weight. */
module HuffmanHeap {
  import opened Basics

  /** Entry 0 is the sentinel; entries 1.. are the heap. Every entry names a node with a weight. */
  ghost predicate Nodes(hs: seq<int>, w: seq<int>)
  {
    && hs != [] && w != [] && hs[0] == 0 && w[0] == 0
    && (forall k :: 0 <= k < |hs| ==> 0 <= hs[k] < |w| && w[hs[k]] >= 0)
  }

  /** Entry `k` is not lighter than its parent `k / 2`. */
  ghost predicate Above(hs: seq<int>, w: seq<int>, k: int)
    requires Nodes(hs, w) && 1 <= k < |hs|
  {
    w[hs[k / 2]] <= w[hs[k]]
  }

  ghost predicate Heap(hs: seq<int>, w: seq<int>)
    requires Nodes(hs, w)
  {
    forall k :: 2 <= k < |hs| ==> Above(hs, w, k)
  }

  lemma {:induction false} RootIsLeast(hs: seq<int>, w: seq<int>, k: int)
    requires Nodes(hs, w) && Heap(hs, w) && 1 <= k < |hs|
    ensures w[hs[1]] <= w[hs[k]]
  {
    if k > 1 {
      RootIsLeast(hs, w, k / 2);
      assert Above(hs, w, k);
    }
  }

  // ----- UPHEAP -----

  /** A heap but for entry `z`, which may be too light; its children are no lighter than its parent. */
  ghost predicate HeapButUp(f: seq<int>, w: seq<int>, z: int)
  {
    && Nodes(f, w) && 1 <= z < |f|
    && (forall k :: 2 <= k < |f| && k != z ==> Above(f, w, k))
    && (forall k :: 2 <= k < |f| && k / 2 == z && z >= 2 ==> w[f[z / 2]] <= w[f[k]])
  }

  lemma UpStep(f: seq<int>, w: seq<int>, z: int)
    requires HeapButUp(f, w, z) && w[f[z]] < w[f[z / 2]]
    ensures z >= 2 && HeapButUp(Swapped(f, z, z / 2), w, z / 2)
  {
    var g, p := Swapped(f, z, z / 2), z / 2;
    assert z >= 2;
    forall k | 2 <= k < |g| && k != p
      ensures Above(g, w, k)
    {
      if k / 2 == z {
        assert Above(f, w, k);
      } else if k / 2 == p && k != z {
        assert Above(f, w, k);
      } else if k != z {
        assert Above(f, w, k);
      }
    }
    forall k | 2 <= k < |g| && k / 2 == p && p >= 2
      ensures w[g[p / 2]] <= w[g[k]]
    {
      assert Above(f, w, p);
      if k != z {
        assert Above(f, w, k);
      }
    }
  }

  lemma UpStart(h: seq<int>, w: seq<int>)
    requires Nodes(h, w) && |h| >= 2 && Heap(h[..|h| - 1], w)
    ensures HeapButUp(h, w, |h| - 1)
  {
    forall k | 2 <= k < |h| - 1
      ensures Above(h, w, k)
    {
      assert Above(h[..|h| - 1], w, k);
    }
  }

  lemma UpDone(f: seq<int>, w: seq<int>, z: int)
    requires HeapButUp(f, w, z) && w[f[z / 2]] <= w[f[z]]
    ensures Heap(f, w)
  {
  }

  /** Moving the held-out entry over entry `y` is a swap of the filled heap. */
  lemma HoleStep(h: seq<int>, z: int, y: int, tmp: int)
    requires 0 <= z < |h| && 0 <= y < |h| && z != y
    ensures h[z := h[y]][y := tmp] == Swapped(h[z := tmp], z, y)
    ensures multiset(Swapped(h[z := tmp], z, y)) == multiset(h[z := tmp])
  {
    SwappedMultiset(h[z := tmp], z, y);
  }

  method UpHeap(heap: array<int>, weight: array<int>, z: int)
    requires heap != weight && 1 <= z < heap.Length
    requires Nodes(heap[..z + 1], weight[..]) && Heap(heap[..z], weight[..])
    modifies heap
    ensures Nodes(heap[..z + 1], weight[..]) && Heap(heap[..z + 1], weight[..])
    ensures multiset(heap[..z + 1]) == multiset(old(heap[..z + 1]))
  {
    var zz, tmp := z, heap[z];
    ghost var w, h := weight[..], heap[..z + 1];
    assert h[..z] == heap[..z] && h[z := tmp] == h;
    UpStart(h, w);
    while true
      invariant 1 <= zz <= z && h == heap[..z + 1]
      invariant HeapButUp(h[zz := tmp], w, zz)
      invariant multiset(h[zz := tmp]) == multiset(old(heap[..z + 1]))
      decreases zz
    {
      ghost var f := h[zz := tmp];
      assert f[zz / 2] == h[zz / 2] == heap[zz / 2] && f[zz] == tmp;
      if !(weight[tmp] < weight[heap[zz / 2]]) { break; }
      UpStep(h[zz := tmp], w, zz);
      HoleStep(h, zz, zz / 2, tmp);
      heap[zz] := heap[zz / 2];
      h := h[zz := h[zz / 2]];
      zz := zz / 2;
    }
    UpDone(h[zz := tmp], w, zz);
    heap[zz] := tmp;
    assert heap[..z + 1] == h[zz := tmp];
  }

  // ----- DOWNHEAP -----

  /** A heap but for entry `z`, which may be too heavy; its children are no lighter than its parent. */
  ghost predicate HeapButDown(f: seq<int>, w: seq<int>, z: int)
  {
    && Nodes(f, w) && 1 <= z < |f|
    && (forall k :: 2 <= k < |f| && k / 2 != z ==> Above(f, w, k))
    && (forall k :: 2 <= k < |f| && k / 2 == z && z >= 2 ==> w[f[z / 2]] <= w[f[k]])
  }

  lemma DownStep(f: seq<int>, w: seq<int>, z: int, y: int)
    requires HeapButDown(f, w, z) && 2 <= y < |f| && y / 2 == z && w[f[y]] <= w[f[z]]
    requires forall k :: 2 <= k < |f| && k / 2 == z ==> w[f[y]] <= w[f[k]]
    ensures HeapButDown(Swapped(f, z, y), w, y)
  {
    var g := Swapped(f, z, y);
    forall k | 2 <= k < |g| && k / 2 != y
      ensures Above(g, w, k)
    {
      if k / 2 != z {
        assert Above(f, w, k);
      }
    }
    forall k | 2 <= k < |g| && k / 2 == y && y >= 2
      ensures w[g[y / 2]] <= w[g[k]]
    {
      assert Above(f, w, k);
    }
  }

  lemma DownDone(f: seq<int>, w: seq<int>, z: int)
    requires HeapButDown(f, w, z) && forall k :: 2 <= k < |f| && k / 2 == z ==> w[f[z]] <= w[f[k]]
    ensures Heap(f, w)
  {
  }

  /** The lighter child of `zz`, where there is one. */
  method LighterChild(heap: array<int>, weight: array<int>, nHeap: int, zz: int, ghost f: seq<int>) returns (yy: int)
    requires 1 <= zz && 2 * zz <= nHeap < heap.Length && |f| == nHeap + 1 && Nodes(f, weight[..])
    requires forall k :: zz < k <= nHeap ==> heap[k] == f[k]
    ensures yy / 2 == zz && yy <= nHeap
    ensures forall k :: 2 <= k <= nHeap && k / 2 == zz ==> weight[f[yy]] <= weight[f[k]]
  {
    yy := zz * 2;
    assert heap[yy] == f[yy] && (yy < nHeap ==> heap[yy + 1] == f[yy + 1]);
    if yy < nHeap && weight[heap[yy + 1]] < weight[heap[yy]] {
      yy := yy + 1;
    }
    forall k | 2 <= k <= nHeap && k / 2 == zz
      ensures k == 2 * zz || k == 2 * zz + 1
    {
    }
  }

  method DownHeap(heap: array<int>, weight: array<int>, nHeap: int)
    requires heap != weight && 1 <= nHeap < heap.Length
    requires HeapButDown(heap[..nHeap + 1], weight[..], 1)
    modifies heap
    ensures Nodes(heap[..nHeap + 1], weight[..]) && Heap(heap[..nHeap + 1], weight[..])
    ensures multiset(heap[..nHeap + 1]) == multiset(old(heap[..nHeap + 1]))
  {
    var zz, tmp := 1, heap[1];
    ghost var w, h := weight[..], heap[..nHeap + 1];
    assert h[1 := tmp] == h;
    while true
      invariant 1 <= zz <= nHeap && h == heap[..nHeap + 1]
      invariant HeapButDown(h[zz := tmp], w, zz)
      invariant multiset(h[zz := tmp]) == multiset(old(heap[..nHeap + 1]))
      decreases nHeap - zz
    {
      if 2 * zz > nHeap { break; }
      var yy := LighterChild(heap, weight, nHeap, zz, h[zz := tmp]);
      if weight[tmp] < weight[heap[yy]] { break; }
      DownStep(h[zz := tmp], w, zz, yy);
      HoleStep(h, zz, yy, tmp);
      heap[zz] := heap[yy];
      h := h[zz := h[yy]];
      zz := yy;
    }
    DownDone(h[zz := tmp], w, zz);
    heap[zz] := tmp;
    assert heap[..nHeap + 1] == h[zz := tmp];
  }
}
