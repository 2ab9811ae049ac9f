/** Cyclic rotations of a block, their order, and the Burrows-Wheeler transform they define. */
module Rotations {
  import opened Basics

  type Block = seq<byte>

  /** The block read cyclically. */
  function Cyc(b: Block, m: nat): (c: byte)
    requires |b| > 0
  {
    if m < |b| then b[m] else Cyc(b, m - |b|)
  }

  /** Character `k` of the rotation that starts at `i`. */
  function At(b: Block, i: nat, k: nat): (c: byte)
    requires |b| > 0
  {
    Cyc(b, i + k)
  }

  /** Rotations `i` and `j` agree on their first `h` characters. */
  ghost predicate SamePrefix(b: Block, i: nat, j: nat, h: nat)
    requires |b| > 0
  {
    forall k :: 0 <= k < h ==> At(b, i, k) == At(b, j, k)
  }

  /** Rotation `i` precedes rotation `j`, and position `k` decides it. */
  ghost predicate DiffersAt(b: Block, i: nat, j: nat, k: nat)
    requires |b| > 0
  {
    SamePrefix(b, i, j, k) && At(b, i, k) < At(b, j, k)
  }

  /** Rotation `i` is strictly before rotation `j` within the first `h` characters. */
  ghost predicate Before(b: Block, i: nat, j: nat, h: nat)
    requires |b| > 0
  {
    exists k :: 0 <= k < h && DiffersAt(b, i, j, k)
  }

  lemma {:induction false} Trichotomy(b: Block, i: nat, j: nat, h: nat)
    requires |b| > 0
    ensures SamePrefix(b, i, j, h) || Before(b, i, j, h) || Before(b, j, i, h)
  {
    if h != 0 {
      Trichotomy(b, i, j, h - 1);
      if SamePrefix(b, i, j, h - 1) && !SamePrefix(b, i, j, h) {
        assert DiffersAt(b, i, j, h - 1) || DiffersAt(b, j, i, h - 1);
      }
    }
  }

  lemma BeforeAsymmetric(b: Block, i: nat, j: nat, h: nat)
    requires |b| > 0
    requires Before(b, i, j, h)
    ensures !Before(b, j, i, h)
    ensures !SamePrefix(b, i, j, h) && !SamePrefix(b, j, i, h)
  {
    var k :| 0 <= k < h && DiffersAt(b, i, j, k);
    forall k' | 0 <= k' < h
      ensures !DiffersAt(b, j, i, k')
    {
      assert k' < k ==> At(b, i, k') == At(b, j, k');
    }
  }

  /** "Not after", the order the sorters establish. */
  ghost predicate NotAfter(b: Block, i: nat, j: nat, h: nat)
    requires |b| > 0
  {
    Before(b, i, j, h) || SamePrefix(b, i, j, h)
  }

  lemma NotAfterTransitive(b: Block, i: nat, j: nat, l: nat, h: nat)
    requires |b| > 0
    requires NotAfter(b, i, j, h) && NotAfter(b, j, l, h)
    ensures NotAfter(b, i, l, h)
    ensures Before(b, i, j, h) || Before(b, j, l, h) ==> Before(b, i, l, h)
  {
    if Before(b, i, j, h) {
      var k :| 0 <= k < h && DiffersAt(b, i, j, k);
      if Before(b, j, l, h) {
        var k' :| 0 <= k' < h && DiffersAt(b, j, l, k');
        assert DiffersAt(b, i, l, if k < k' then k else k');
      } else {
        assert DiffersAt(b, i, l, k);
      }
    } else if Before(b, j, l, h) {
      var k :| 0 <= k < h && DiffersAt(b, j, l, k);
      assert DiffersAt(b, i, l, k);
    }
  }

  /** Comparing `h + g` characters is comparing `h`, then `g` more. */
  lemma PrefixSplit(b: Block, i: nat, j: nat, h: nat, g: nat)
    requires |b| > 0
    ensures SamePrefix(b, i, j, h + g) <==> SamePrefix(b, i, j, h) && SamePrefix(b, i + h, j + h, g)
    ensures Before(b, i, j, h + g) <==>
      Before(b, i, j, h) || (SamePrefix(b, i, j, h) && Before(b, i + h, j + h, g))
  {
    SamePrefixSplit(b, i, j, h, g);
    if Before(b, i, j, h + g) {
      var k :| 0 <= k < h + g && DiffersAt(b, i, j, k);
      if h <= k {
        SamePrefixSplit(b, i, j, h, k - h);
        assert DiffersAt(b, i + h, j + h, k - h);
      }
    }
    if SamePrefix(b, i, j, h) && Before(b, i + h, j + h, g) {
      var k :| 0 <= k < g && DiffersAt(b, i + h, j + h, k);
      SamePrefixSplit(b, i, j, h, k);
      assert DiffersAt(b, i, j, h + k);
    }
  }

  lemma SamePrefixSplit(b: Block, i: nat, j: nat, h: nat, g: nat)
    requires |b| > 0
    ensures SamePrefix(b, i, j, h + g) <==> SamePrefix(b, i, j, h) && SamePrefix(b, i + h, j + h, g)
  {
    var i', j' := i + h, j + h;
    if SamePrefix(b, i, j, h + g) {
      forall k | 0 <= k < g
        ensures At(b, i', k) == At(b, j', k)
      {
        assert At(b, i, h + k) == At(b, j, h + k);
      }
    }
    if SamePrefix(b, i, j, h) && SamePrefix(b, i + h, j + h, g) {
      forall k | 0 <= k < h + g
        ensures At(b, i, k) == At(b, j, k)
      {
        if h <= k {
          assert At(b, i', k - h) == At(b, j', k - h);
        }
      }
    }
  }

  /** A start position and the same position one lap later name the same rotation. */
  lemma Lap(b: Block, i: nat, j: nat, h: nat)
    requires |b| > 0
    ensures SamePrefix(b, i + |b|, j, h) <==> SamePrefix(b, i, j, h)
    ensures SamePrefix(b, j, i + |b|, h) <==> SamePrefix(b, j, i, h)
    ensures Before(b, i + |b|, j, h) <==> Before(b, i, j, h)
    ensures Before(b, j, i + |b|, h) <==> Before(b, j, i, h)
  {
    var i' := i + |b|;
    assert forall k: nat :: At(b, i', k) == At(b, i, k);
    forall k: nat
      ensures DiffersAt(b, i', j, k) <==> DiffersAt(b, i, j, k)
      ensures DiffersAt(b, j, i', k) <==> DiffersAt(b, j, i, k)
    {
      assert SamePrefix(b, i', j, k) <==> SamePrefix(b, i, j, k);
      assert SamePrefix(b, j, i', k) <==> SamePrefix(b, j, i, k);
    }
  }

  // ----- The same order as a three-way comparison -----

  /** Three-way comparison of two rotations on their first `h` characters. */
  function Cmp(b: Block, i: nat, j: nat, h: nat): (c: int)
    requires |b| > 0
  {
    if h == 0 then 0
    else
      var c := Cmp(b, i, j, h - 1);
      if c != 0 then c else At(b, i, h - 1) as int - At(b, j, h - 1) as int
  }

  lemma {:induction false} CmpMeaning(b: Block, i: nat, j: nat, h: nat)
    requires |b| > 0
    ensures Cmp(b, i, j, h) < 0 <==> Before(b, i, j, h)
    ensures Cmp(b, i, j, h) == 0 <==> SamePrefix(b, i, j, h)
  {
    if h != 0 {
      CmpMeaning(b, i, j, h - 1);
      PrefixSplit(b, i, j, h - 1, 1);
      var i', j' := i + (h - 1), j + (h - 1);
      assert At(b, i', 0) == At(b, i, h - 1) && At(b, j', 0) == At(b, j, h - 1);
      assert SamePrefix(b, i', j', 1) <==> At(b, i', 0) == At(b, j', 0);
      assert Before(b, i', j', 1) <==> DiffersAt(b, i', j', 0);
      assert Before(b, i, j, h - 1) ==> !SamePrefix(b, i, j, h - 1);
    }
  }

  lemma {:induction false} CmpFlip(b: Block, i: nat, j: nat, h: nat)
    requires |b| > 0
    ensures Cmp(b, j, i, h) == -Cmp(b, i, j, h)
  {
    if h != 0 {
      CmpFlip(b, i, j, h - 1);
    }
  }

  lemma {:induction false} CmpTrans(b: Block, i: nat, j: nat, k: nat, h: nat)
    requires |b| > 0 && Cmp(b, i, j, h) <= 0 && Cmp(b, j, k, h) <= 0
    ensures Cmp(b, i, k, h) <= 0
    ensures Cmp(b, i, k, h) == 0 <==> Cmp(b, i, j, h) == 0 && Cmp(b, j, k, h) == 0
  {
    if h != 0 {
      CmpTrans(b, i, j, k, h - 1);
    }
  }

  lemma {:induction false} CmpSplit(b: Block, i: nat, j: nat, h: nat, g: nat)
    requires |b| > 0
    ensures Cmp(b, i, j, h + g) == if Cmp(b, i, j, h) != 0 then Cmp(b, i, j, h) else Cmp(b, i + h, j + h, g)
    decreases g
  {
    if g != 0 {
      CmpSplit(b, i, j, h, g - 1);
      assert At(b, i, h + g - 1) == At(b, i + h, g - 1) && At(b, j, h + g - 1) == At(b, j + h, g - 1);
    }
  }

  lemma {:induction false} CmpLap(b: Block, i: nat, j: nat, h: nat)
    requires |b| > 0
    ensures Cmp(b, i + |b|, j, h) == Cmp(b, i, j, h) == Cmp(b, i, j + |b|, h) == Cmp(b, i + |b|, j + |b|, h)
  {
    if h != 0 {
      CmpLap(b, i, j, h - 1);
    }
  }
}
