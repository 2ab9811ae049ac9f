/** The decoder's two-level move-to-front list: 16 sliding lines of 16 in a 4096-cell arena. */
module MtfDecoder {
  import opened Basics
  import opened MoveToFront

  const MTFA_SIZE := 4096

  /** The lines are in order and do not overlap. */
  ghost predicate Lines(b: seq<int>)
  {
    && |b| == 16 && 0 <= b[0] && b[15] + 16 <= MTFA_SIZE
    && forall i :: 0 <= i < 15 ==> b[i] + 16 <= b[i + 1]
  }

  lemma {:induction false} LinesApart(b: seq<int>, i: int, j: int)
    requires Lines(b) && 0 <= i < j < 16
    ensures b[i] + 16 * (j - i) <= b[j]
    decreases j
  {
    if i < j - 1 {
      LinesApart(b, i, j - 1);
      assert b[j - 1] + 16 <= b[j - 1 + 1];
    } else {
      assert b[i] + 16 <= b[i + 1];
    }
  }

  lemma LineBounds(b: seq<int>, i: int)
    requires Lines(b) && 0 <= i < 16
    ensures 16 * i <= b[i] <= 3840 + 16 * i
  {
    if i > 0 {
      LinesApart(b, 0, i);
    }
    if i < 15 {
      LinesApart(b, i, 15);
    }
  }

  /** Cell of list entry `m`. */
  function Cell(b: seq<int>, m: int): (p: int)
    requires 0 <= m < 256 && |b| == 16
  {
    b[m / 16] + m % 16
  }

  /** The arena and the line starts hold the flat list. */
  ghost predicate Holds(a: seq<int>, b: seq<int>, flat: seq<int>)
  {
    && |a| == MTFA_SIZE && |flat| == 256 && Lines(b)
    && forall m :: 0 <= m < 256 ==> HoldsAt(a, b, flat, m)
  }

  ghost predicate HoldsAt(a: seq<int>, b: seq<int>, flat: seq<int>, m: int)
    requires 0 <= m < 256 && |b| == 16 && |flat| == 256
  {
    0 <= Cell(b, m) < |a| && a[Cell(b, m)] == flat[m]
  }

  lemma ToFrontAt(l: seq<int>, j: int, m: int)
    requires 0 <= j < |l| && 0 <= m < |l|
    ensures ToFront(l, j)[m] == if m == 0 then l[j] else if m <= j then l[m - 1] else l[m]
  {
  }

  // ----- Short moves stay inside the first line -----

  /** Cells `pp .. pp + n` after shifting up by one down to offset `k`. */
  ghost predicate ShiftedDown(a0: seq<int>, a: seq<int>, pp: int, n: int, k: int)
  {
    && |a| == |a0| && 0 <= pp && 0 <= k <= n && pp + n < |a0|
    && (forall p :: pp + k < p <= pp + n ==> a[p] == a0[p - 1])
    && (forall p :: 0 <= p < |a0| && !(pp + k < p <= pp + n) ==> a[p] == a0[p])
  }

  lemma ShortMove(a0: seq<int>, a: seq<int>, b: seq<int>, flat: seq<int>, n: int)
    requires Holds(a0, b, flat) && 0 <= n < 16 && ShiftedDown(a0, a, b[0], n, 0)
    ensures Holds(a[b[0] := flat[n]], b, ToFront(flat, n))
  {
    var a' := a[b[0] := flat[n]];
    forall m | 0 <= m < 256
      ensures HoldsAt(a', b, ToFront(flat, n), m)
    {
      ToFrontAt(flat, n, m);
      assert HoldsAt(a0, b, flat, m);
      if m >= 16 {
        LinesApart(b, 0, m / 16);
      } else if m >= 1 {
        assert HoldsAt(a0, b, flat, m - 1);
      }
    }
  }

  /** Shift cells up, four at a time and then one at a time (decompress.c:426-436). */
  method ShiftFour(mtfa: array<int>, pp: int, n: int)
    requires 0 <= pp && 0 <= n && pp + n < mtfa.Length
    modifies mtfa
    ensures ShiftedDown(old(mtfa[..]), mtfa[..], pp, n, 0)
  {
    ghost var a0 := mtfa[..];
    var nn := n;
    while nn > 3
      invariant 0 <= nn <= n && ShiftedDown(a0, mtfa[..], pp, n, nn)
    {
      var z := pp + nn;
      mtfa[z] := mtfa[z - 1];
      mtfa[z - 1] := mtfa[z - 2];
      mtfa[z - 2] := mtfa[z - 3];
      mtfa[z - 3] := mtfa[z - 4];
      nn := nn - 4;
    }
    while nn > 0
      invariant 0 <= nn <= n && ShiftedDown(a0, mtfa[..], pp, n, nn)
    {
      mtfa[pp + nn] := mtfa[pp + nn - 1];
      nn := nn - 1;
    }
  }

  // ----- Long moves hand one entry down from line to line -----

  /** Where the lines start once a move from line `n` is complete: every line before it has slid down by one. */
  ghost function Slid(b: seq<int>, n: int): (r: seq<int>)
    requires |b| == 16
    ensures |r| == 16 && forall i :: 0 <= i < 16 ==> r[i] == if i < n then b[i] - 1 else b[i]
  {
    seq(16, i requires 0 <= i < 16 => if i < n then b[i] - 1 else b[i])
  }

  lemma SlidLines(b: seq<int>, n: int)
    requires Lines(b) && b[0] >= 1 && 0 < n < 16
    ensures Lines(Slid(b, n))
  {
    var f := Slid(b, n);
    forall i | 0 <= i < 15
      ensures f[i] + 16 <= f[i + 1]
    {
      assert b[i] + 16 <= b[i + 1];
    }
  }

  /** The line starts while line `l` is waiting for an entry: later lines have slid, earlier ones have not. */
  ghost function Waiting(b: seq<int>, n: int, l: int): (r: seq<int>)
    requires |b| == 16 && 0 <= l <= n < 16
    ensures |r| == 16
  {
    var f := Slid(b, n);
    b[..l] + [f[l] + 1] + f[l + 1..]
  }

  /** Entries past the head of line `l` are already those of `to`; entries before line `l` are still those of `from`. */
  ghost predicate Midway(a: seq<int>, b: seq<int>, n: int, l: int, from: seq<int>, to: seq<int>)
  {
    && Lines(b) && 0 <= l <= n < 16 && |a| == MTFA_SIZE && |from| == 256 && |to| == 256
    && (forall m :: 16 * l < m < 256 ==> HoldsAt(a, Slid(b, n), to, m))
    && (forall m :: 0 <= m < 16 * l ==> HoldsAt(a, b, from, m))
  }

  lemma CellsApart(b: seq<int>, i: int, m: int)
    requires Lines(b) && 0 <= i < 16 && 0 <= m < 256
    ensures m < 16 * i ==> Cell(b, m) < b[i]
    ensures m == 16 * i ==> Cell(b, m) == b[i]
    ensures m > 16 * i ==> Cell(b, m) > b[i]
    ensures 0 <= Cell(b, m) < MTFA_SIZE
  {
    LineBounds(b, m / 16);
    if m / 16 < i {
      LinesApart(b, m / 16, i);
    } else if i < m / 16 {
      LinesApart(b, i, m / 16);
    }
  }

  /** Handing the last entry of line `l - 1` to line `l`, even where the two lines touch. */
  lemma HandDown(a: seq<int>, b: seq<int>, n: int, l: int, flat: seq<int>, nn: int)
    requires 0 <= nn < 256 && n == nn / 16 && |flat| == 256 && 1 <= l
    requires Midway(a, b, n, l, flat, ToFront(flat, nn)) && b[0] >= 1
    ensures 0 <= Slid(b, n)[l] < MTFA_SIZE && 0 <= b[l - 1] + 15 < MTFA_SIZE
    ensures Midway(a[Slid(b, n)[l] := a[b[l - 1] + 15]], b, n, l - 1, flat, ToFront(flat, nn))
  {
    var to, f := ToFront(flat, nn), Slid(b, n);
    SlidLines(b, n);
    LineBounds(f, l);
    LineBounds(b, l - 1);
    var a' := a[f[l] := a[b[l - 1] + 15]];
    assert HoldsAt(a, b, flat, 16 * l - 1);
    ToFrontAt(flat, nn, 16 * l);
    forall m | 16 * (l - 1) < m < 256
      ensures HoldsAt(a', f, to, m)
    {
      CellsApart(f, l, m);
      if m < 16 * l {
        ToFrontAt(flat, nn, m);
        assert HoldsAt(a, b, flat, m - 1);
        assert Cell(f, m) == Cell(b, m - 1);
      } else if m > 16 * l {
        assert HoldsAt(a, f, to, m);
      }
    }
    forall m | 0 <= m < 16 * (l - 1)
      ensures HoldsAt(a', b, flat, m)
    {
      assert HoldsAt(a, b, flat, m);
      CellsApart(b, l - 1, m);
      LinesApart(b, l - 1, l);
    }
  }

  /** Taking entry `nn` out of its own line. */
  lemma TakenOut(a0: seq<int>, a: seq<int>, b: seq<int>, flat: seq<int>, nn: int)
    requires Holds(a0, b, flat) && 16 <= nn < 256
    requires ShiftedDown(a0, a, b[nn / 16], nn % 16, 0)
    ensures Midway(a, b, nn / 16, nn / 16, flat, ToFront(flat, nn))
  {
    var n, to := nn / 16, ToFront(flat, nn);
    var f := Slid(b, n);
    forall m | 16 * n < m < 256
      ensures HoldsAt(a, f, to, m)
    {
      ToFrontAt(flat, nn, m);
      CellsApart(b, n, m);
      assert Cell(f, m) == Cell(b, m);
      assert HoldsAt(a0, b, flat, m);
      if m <= nn {
        assert HoldsAt(a0, b, flat, m - 1);
      } else if m / 16 > n {
        LinesApart(b, n, m / 16);
      }
    }
    forall m | 0 <= m < 16 * n
      ensures HoldsAt(a, b, flat, m)
    {
      assert HoldsAt(a0, b, flat, m);
      CellsApart(b, n, m);
    }
  }

  /** The entry taken out goes to the head of the first line. */
  lemma PutInFront(a: seq<int>, b: seq<int>, flat: seq<int>, nn: int)
    requires 16 <= nn < 256 && |flat| == 256 && Midway(a, b, nn / 16, 0, flat, ToFront(flat, nn)) && b[0] >= 1
    ensures 0 <= b[0] - 1 < MTFA_SIZE
    ensures Holds(a[b[0] - 1 := flat[nn]], Slid(b, nn / 16), ToFront(flat, nn))
  {
    var f, to := Slid(b, nn / 16), ToFront(flat, nn);
    SlidLines(b, nn / 16);
    LineBounds(b, 0);
    var a' := a[f[0] := flat[nn]];
    forall m | 0 <= m < 256
      ensures HoldsAt(a', f, to, m)
    {
      CellsApart(f, 0, m);
      ToFrontAt(flat, nn, m);
      if m > 0 {
        assert HoldsAt(a, f, to, m);
      }
    }
  }

  method ShiftLine(mtfa: array<int>, base: int, off: int)
    requires 0 <= base && 0 <= off && base + off < mtfa.Length
    modifies mtfa
    ensures ShiftedDown(old(mtfa[..]), mtfa[..], base, off, 0)
  {
    ghost var a0 := mtfa[..];
    var pp := base + off;
    while pp > base
      invariant base <= pp <= base + off && ShiftedDown(a0, mtfa[..], base, off, pp - base)
    {
      mtfa[pp] := mtfa[pp - 1];
      pp := pp - 1;
    }
  }

  lemma WaitingStep(b: seq<int>, n: int, l: int)
    requires |b| == 16 && 1 <= l <= n < 16
    ensures Waiting(b, n, l)[l := Waiting(b, n, l)[l] - 1] == Waiting(b, n, l - 1)
    ensures Waiting(b, n, l)[l] - 1 == Slid(b, n)[l] && Waiting(b, n, l)[l - 1] == b[l - 1]
  {
  }

  method Cascade(mtfa: array<int>, mtfbase: array<int>, ghost b: seq<int>, ghost flat: seq<int>, nn: int)
    requires mtfa != mtfbase && mtfa.Length == MTFA_SIZE && mtfbase.Length == 16
    requires 16 <= nn < 256 && |flat| == 256 && |b| == 16 && b[0] >= 1
    requires mtfbase[..] == Waiting(b, nn / 16, nn / 16)
    requires Midway(mtfa[..], b, nn / 16, nn / 16, flat, ToFront(flat, nn))
    modifies mtfa, mtfbase
    ensures mtfbase[..] == Waiting(b, nn / 16, 0)
    ensures Midway(mtfa[..], b, nn / 16, 0, flat, ToFront(flat, nn))
  {
    ghost var to, n := ToFront(flat, nn), nn / 16;
    var lno := nn / 16;
    while lno > 0
      invariant 0 <= lno <= n && mtfbase[..] == Waiting(b, n, lno)
      invariant Midway(mtfa[..], b, n, lno, flat, to)
    {
      ghost var a1, b1 := mtfa[..], mtfbase[..];
      HandDown(a1, b, n, lno, flat, nn);
      WaitingStep(b, n, lno);
      var h := mtfbase[lno] - 1;
      assert h == b1[lno] - 1;
      mtfbase[lno] := h;
      assert mtfbase[..] == b1[lno := h];
      var p := mtfbase[lno - 1];
      assert p == b1[lno - 1];
      mtfa[h] := mtfa[p + 15];
      assert mtfa[..] == a1[h := a1[p + 15]];
      lno := lno - 1;
    }
  }

  // ----- Compaction -----

  /** The packed layout: line `i` starts at `3840 + 16 * i`. */
  ghost function Packed(): (b: seq<int>)
    ensures |b| == 16 && forall i :: 0 <= i < 16 ==> b[i] == 3840 + 16 * i
    ensures Lines(b)
  {
    seq(16, i requires 0 <= i < 16 => 3840 + 16 * i)
  }

  /** Entries from `m` on have been copied to the top of the arena; the earlier ones are untouched. */
  ghost predicate Packing(a: seq<int>, b: seq<int>, flat: seq<int>, m: int)
  {
    && Lines(b) && |a| == MTFA_SIZE && |flat| == 256 && 0 <= m <= 256
    && (forall k :: m <= k < 256 ==> HoldsAt(a, Packed(), flat, k))
    && (forall k :: 0 <= k < m ==> HoldsAt(a, b, flat, k))
  }

  /** The copy never lands on an entry still to be read: entry `m` lies at or below its packed cell. */
  lemma PackStep(a: seq<int>, b: seq<int>, flat: seq<int>, m: int)
    requires Packing(a, b, flat, m) && m > 0
    ensures 0 <= Cell(b, m - 1) < MTFA_SIZE
    ensures Packing(a[3839 + m := a[Cell(b, m - 1)]], b, flat, m - 1)
  {
    assert HoldsAt(a, b, flat, m - 1);
    var a' := a[3839 + m := a[Cell(b, m - 1)]];
    forall k | m - 1 <= k < 256
      ensures HoldsAt(a', Packed(), flat, k)
    {
      assert Cell(Packed(), k) == 3840 + k;
      if k >= m {
        assert HoldsAt(a, Packed(), flat, k);
      }
    }
    forall k | 0 <= k < m - 1
      ensures HoldsAt(a', b, flat, k)
    {
      assert HoldsAt(a, b, flat, k);
      LineBounds(b, k / 16);
    }
  }

  ghost function PackedFrom(b: seq<int>, i: int): (r: seq<int>)
    requires |b| == 16 && 0 <= i <= 16
    ensures |r| == 16
  {
    b[..i] + Packed()[i..]
  }

  method PackLine(mtfa: array<int>, start: int, ii: int, ghost b: seq<int>, ghost flat: seq<int>)
    requires mtfa.Length == MTFA_SIZE && 0 <= ii < 16 && Packing(mtfa[..], b, flat, 16 * ii + 16) && start == b[ii]
    modifies mtfa
    ensures Packing(mtfa[..], b, flat, 16 * ii)
  {
    var jj := 15;
    while jj >= 0
      invariant -1 <= jj <= 15 && Packing(mtfa[..], b, flat, 16 * ii + jj + 1)
    {
      ghost var a1 := mtfa[..];
      ghost var m := 16 * ii + jj;
      PackStep(a1, b, flat, m + 1);
      assert m / 16 == ii && m % 16 == jj;
      mtfa[3840 + 16 * ii + jj] := mtfa[start + jj];
      assert mtfa[..] == a1[3840 + m := a1[Cell(b, m)]];
      jj := jj - 1;
    }
  }

  method Compact(mtfa: array<int>, mtfbase: array<int>, ghost flat: seq<int>)
    requires mtfa != mtfbase && mtfa.Length == MTFA_SIZE && mtfbase.Length == 16
    requires Holds(mtfa[..], mtfbase[..], flat)
    modifies mtfa, mtfbase
    ensures Holds(mtfa[..], mtfbase[..], flat) && mtfbase[..] == Packed()
  {
    ghost var b := mtfbase[..];
    var ii := 15;
    while ii >= 0
      invariant -1 <= ii <= 15 && Packing(mtfa[..], b, flat, 16 * ii + 16)
      invariant mtfbase[..] == PackedFrom(b, ii + 1)
    {
      ghost var b1 := mtfbase[..];
      assert mtfbase[ii] == b1[ii];
      PackLine(mtfa, mtfbase[ii], ii, b, flat);
      mtfbase[ii] := 3840 + 16 * ii;
      assert mtfbase[..] == b1[ii := 3840 + 16 * ii];
      ii := ii - 1;
    }
    assert mtfbase[..] == Packed();
  }

  // ----- The list object -----

  /** mtfa and mtfbase of the decompressor; `flat` is the list they stand for. */
  class TwoLevelList {
    const mtfa: array<int>
    const mtfbase: array<int>
    ghost var flat: seq<int>

    ghost predicate Valid()
      reads this, mtfa, mtfbase
    {
      && mtfa != mtfbase && mtfa.Length == MTFA_SIZE && mtfbase.Length == 16
      && Holds(mtfa[..], mtfbase[..], flat) && mtfbase[0] >= 1
    }

    /** The list starts as the identity. */
    constructor ()
      ensures Valid() && fresh(mtfa) && fresh(mtfbase) && flat == Iota(256)
    {
      mtfa := new int[MTFA_SIZE](p => if p >= 3840 then p - 3840 else 0);
      mtfbase := new int[16](i requires 0 <= i < 16 => 3840 + 16 * i);
      flat := Iota(256);
      new;
      assert mtfbase[..] == Packed();
      forall m | 0 <= m < 256
        ensures HoldsAt(mtfa[..], mtfbase[..], flat, m)
      {
        assert Cell(Packed(), m) == 3840 + m;
      }
    }

    /** The entry in front, left where it is. */
    method Front() returns (uc: int)
      requires Valid()
      ensures uc == flat[0]
    {
      LineBounds(mtfbase[..], 0);
      assert HoldsAt(mtfa[..], mtfbase[..], flat, 0);
      uc := mtfa[mtfbase[0]];
    }

    /** Entry `n`, which moves to the front. */
    method Take(n: int) returns (uc: int)
      requires Valid() && 0 <= n < 256
      modifies this, mtfa, mtfbase
      ensures Valid() && uc == old(flat)[n] && flat == ToFront(old(flat), n)
    {
      if n < 16 {
        uc := TakeNear(n);
      } else {
        uc := TakeFar(n);
      }
    }

    method TakeNear(n: int) returns (uc: int)
      requires Valid() && 0 <= n < 16
      modifies this, mtfa
      ensures Valid() && uc == old(flat)[n] && flat == ToFront(old(flat), n)
    {
      ghost var a0, b := mtfa[..], mtfbase[..];
      LineBounds(b, 0);
      assert HoldsAt(a0, b, flat, n);
      var pp := mtfbase[0];
      uc := mtfa[pp + n];
      ShiftFour(mtfa, pp, n);
      ghost var a1 := mtfa[..];
      ShortMove(a0, a1, b, flat, n);
      mtfa[pp] := uc;
      assert mtfa[..] == a1[pp := uc];
      flat := ToFront(flat, n);
    }

    method TakeFar(n: int) returns (uc: int)
      requires Valid() && 16 <= n < 256
      modifies this, mtfa, mtfbase
      ensures Valid() && uc == old(flat)[n] && flat == ToFront(old(flat), n)
    {
      uc := MoveFar(mtfa, mtfbase, flat, n);
      flat := ToFront(flat, n);
      if mtfbase[0] == 0 {
        Compact(mtfa, mtfbase, flat);
      }
    }
  }

  method MoveFar(mtfa: array<int>, mtfbase: array<int>, ghost flat: seq<int>, nn: int) returns (uc: int)
    requires mtfa != mtfbase && mtfa.Length == MTFA_SIZE && mtfbase.Length == 16
    requires Holds(mtfa[..], mtfbase[..], flat) && mtfbase[0] >= 1 && 16 <= nn < 256
    modifies mtfa, mtfbase
    ensures Holds(mtfa[..], mtfbase[..], ToFront(flat, nn)) && uc == flat[nn] && mtfbase[0] >= 0
  {
    ghost var a0, b := mtfa[..], mtfbase[..];
    var lno, off := nn / 16, nn % 16;
    LineBounds(b, lno);
    assert HoldsAt(a0, b, flat, nn);
    var start := mtfbase[lno];
    uc := mtfa[start + off];
    ShiftLine(mtfa, start, off);
    TakenOut(a0, mtfa[..], b, flat, nn);
    mtfbase[lno] := start + 1;
    assert mtfbase[..] == Waiting(b, lno, lno);
    Cascade(mtfa, mtfbase, b, flat, nn);
    ghost var a1 := mtfa[..];
    PutInFront(a1, b, flat, nn);
    var front := mtfbase[0] - 1;
    assert front == Waiting(b, lno, 0)[0] - 1;
    mtfbase[0] := front;
    assert mtfbase[..] == Slid(b, lno);
    mtfa[front] := uc;
    assert mtfa[..] == a1[front := uc];
  }
}
