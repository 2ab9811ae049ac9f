/** When the row number sent with a block is determined by the block (blocksort.c:1059-1061, 1083-1088). */
module OriginPointer {
  import opened Basics
  import opened Rotations
  import opened InverseBwt

  /** Some other rotation spells the block itself. */
  ghost predicate Repeats(b: Block)
    requires |b| > 0
  {
    exists k :: 0 < k < |b| && SamePrefix(b, 0, k, |b|)
  }

  /** Two sorted orders put the block itself in different rows. */
  ghost predicate Ambiguous(b: Block)
    requires |b| > 0
  {
    exists p, q, i, j ::
      IsSortedOrder(b, p) && IsSortedOrder(b, q) && 0 <= i < |b| && 0 <= j < |b| && i != j && p[i] == 0 && q[j] == 0
  }

  /** Without a repetition every sorted order gives the same row. */
  lemma OriginUnique(b: Block, p: seq<int>, q: seq<int>, i: int, j: int)
    requires |b| > 0 && !Repeats(b) && IsSortedOrder(b, p) && IsSortedOrder(b, q)
    requires 0 <= i < |b| && 0 <= j < |b| && p[i] == 0 && q[j] == 0
    ensures i == j
  {
    SortedRowsUnique(b, p, q, i);
    assert q[i] == 0;
  }

  /** Rows that spell the same rotation can change places. */
  lemma SwapSorted(b: Block, p: seq<int>, i: int, j: int)
    requires |b| > 0 && IsSortedOrder(b, p) && 0 <= i < |b| && 0 <= j < |b| && i != j
    requires SamePrefix(b, p[i], p[j], |b|)
    ensures IsSortedOrder(b, Swapped(p, i, j))
  {
    var q := Swapped(p, i, j);
    forall x | 0 <= x < |b|
      ensures 0 <= q[x] < |b| && SamePrefix(b, q[x], p[x], |b|) && SamePrefix(b, p[x], q[x], |b|)
    {
    }
    forall x, y | 0 <= x < y < |b|
      ensures NotAfter(b, q[x], q[y], |b|)
    {
      NotAfterTransitive(b, q[x], p[x], p[y], |b|);
      NotAfterTransitive(b, q[x], p[y], q[y], |b|);
    }
    forall x, y | 0 <= x < y < |b|
      ensures q[x] != q[y]
    {
      var x', y' := if x == i then j else if x == j then i else x, if y == i then j else if y == j then i else y;
      assert q[x] == p[x'] && q[y] == p[y'] && x' != y';
      if x' < y' { assert p[x'] != p[y']; } else { assert p[y'] != p[x']; }
    }
  }

  /** With one, some sorted order gives another row. */
  lemma OriginMoves(b: Block, p: seq<int>, k: int) returns (q: seq<int>, i: int, j: int)
    requires |b| > 0 && IsSortedOrder(b, p) && 0 < k < |b| && SamePrefix(b, 0, k, |b|)
    ensures IsSortedOrder(b, q) && 0 <= i < |b| && 0 <= j < |b| && i != j && p[i] == 0 && q[j] == 0
  {
    i := PermutationReaches(p, 0);
    j := PermutationReaches(p, k);
    SwapSorted(b, p, i, j);
    q := Swapped(p, i, j);
  }

  /** The row is determined exactly when no other rotation spells the block. */
  lemma AmbiguousExactlyWhen(b: Block, p: seq<int>)
    requires |b| > 0 && IsSortedOrder(b, p)
    ensures Ambiguous(b) <==> Repeats(b)
  {
    if Ambiguous(b) && !Repeats(b) {
      var p', q, i, j :| IsSortedOrder(b, p') && IsSortedOrder(b, q) && 0 <= i < |b| && 0 <= j < |b|
        && i != j && p'[i] == 0 && q[j] == 0;
      OriginUnique(b, p', q, i, j);
    }
    if Repeats(b) {
      var k :| 0 < k < |b| && SamePrefix(b, 0, k, |b|);
      var q, i, j := OriginMoves(b, p, k);
      assert IsSortedOrder(b, p) && IsSortedOrder(b, q);
    }
  }

  /** Two equal bytes already leave the row open. */
  lemma TwoEqualBytes()
    ensures Ambiguous([97, 97])
  {
    var b: Block := [97, 97];
    forall i: nat, j: nat | i < 2 && j < 2
      ensures SamePrefix(b, i, j, 2)
    {
      assert Cyc(b, 0) == 97 && Cyc(b, 1) == 97 && Cyc(b, 2) == 97;
    }
    assert SamePrefix(b, 0, 1, |b|) && Repeats(b);
    var p := [0, 1];
    assert IsSortedOrder(b, p) by {
      forall x, y | 0 <= x < y < |b|
        ensures NotAfter(b, p[x], p[y], |b|)
      {
        assert SamePrefix(b, p[x], p[y], 2);
      }
    }
    AmbiguousExactlyWhen(b, p);
  }
}
