/** From the received MTF values to the last column and its byte counts (decompress.c:375-479). */
module ColumnDecoder {
  import opened Basics
  import opened InverseBwt
  import opened MoveToFront
  import opened MtfDecoder

  // ----- One value at a time -----

  /** Where decoding stands: the move-to-front list, the column so far and the digits of the run being read. */
  datatype Progress = Progress(flat: seq<int>, done: seq<int>, ds: seq<int>)

  ghost predicate WellFormed(c: Progress)
  {
    |c.flat| == 256 && forall k :: 0 <= k < |c.ds| ==> IsRun(c.ds[k])
  }

  /** What the next value does: a digit, or the end of a run and then the end mark or a symbol. */
  function TakeValue(c: Progress, v: int, eob: int): (c': Progress)
    requires c.flat != [] && (IsRun(v) || v == eob || 0 <= v - 1 < |c.flat|)
  {
    if IsRun(v) then c.(ds := c.ds + [v])
    else
      var done := c.done + Rep(c.flat[0], Max(0, RunValue(c.ds)));
      if v == eob then Progress(c.flat, done, [])
      else Progress(ToFront(c.flat, v - 1), done + [c.flat[v - 1]], [])
  }

  function Prepend(done: seq<int>, r: Option<seq<int>>): (q: Option<seq<int>>)
  {
    if r.None? then None else Some(done + r.value)
  }

  /** The column that the values `rest` complete. */
  function Completed(c: Progress, rest: seq<int>, eob: int): (r: Option<seq<int>>)
    requires c.flat != []
  {
    Prepend(c.done, Decode(c.flat, c.ds + rest, eob))
  }

  lemma {:induction false} RunValueNonneg(ds: seq<int>)
    requires forall k :: 0 <= k < |ds| ==> ds[k] >= 0
    ensures RunValue(ds) >= |ds|
  {
    if ds != [] {
      RunValueNonneg(ds[1..]);
    }
  }

  lemma Weigh(d: int, a: int, p: int, x: int)
    ensures d + 2 * (a + p * x) == (d + 2 * a) + (2 * p) * x
  {
  }

  /** A further digit counts by the weight reached so far. */
  lemma {:induction false} RunValueSnoc(ds: seq<int>, d: int)
    ensures RunValue(ds + [d]) == RunValue(ds) + Pow2(|ds|) * (d + 1)
  {
    if ds == [] {
      assert [d][1..] == [] && ds + [d] == [d];
    } else {
      RunValueSnoc(ds[1..], d);
      assert (ds + [d])[1..] == ds[1..] + [d];
      Weigh(ds[0] + 1, RunValue(ds[1..]), Pow2(|ds| - 1), d + 1);
    }
  }

  /** The digits of a run, then another value: first the run, then what the value stands for. */
  lemma RunThen(c: Progress, v: int, rest: seq<int>, eob: int)
    requires WellFormed(c) && !IsRun(v) && !IsRun(eob)
    ensures Completed(c, [v] + rest, eob) ==
      Prepend(c.done + Rep(c.flat[0], Max(0, RunValue(c.ds))), Decode(c.flat, [v] + rest, eob))
  {
    var vs := c.ds + ([v] + rest);
    RunValueNonneg(c.ds);
    var tail := Decode(c.flat, [v] + rest, eob);
    if c.ds == [] {
      assert vs == [v] + rest && c.done + Rep(c.flat[0], 0) == c.done;
    } else {
      RunPrefixOf(c.ds, [v] + rest);
      assert vs[..|c.ds|] == c.ds && vs[|c.ds|..] == [v] + rest && IsRun(vs[0]);
      if tail.Some? {
        ConcatAssoc(c.done, Rep(c.flat[0], RunValue(c.ds)), tail.value);
      }
    }
  }

  lemma TakeEnd(c: Progress, eob: int, rest: seq<int>)
    requires WellFormed(c) && eob > 1
    ensures Completed(c, [eob] + rest, eob) == Some(TakeValue(c, eob, eob).done)
  {
    RunThen(c, eob, rest, eob);
    var done := TakeValue(c, eob, eob).done;
    assert done + [] == done;
  }

  lemma TakeSymbolStep(c: Progress, v: int, rest: seq<int>, eob: int)
    requires WellFormed(c) && 1 < v < eob && v - 1 < 256
    ensures Completed(c, [v] + rest, eob) == Completed(TakeValue(c, v, eob), rest, eob)
  {
    RunThen(c, v, rest, eob);
    var done := c.done + Rep(c.flat[0], Max(0, RunValue(c.ds)));
    assert ([v] + rest)[1..] == rest && [] + rest == rest;
    var tail := Decode(ToFront(c.flat, v - 1), rest, eob);
    if tail.Some? {
      ConcatAssoc(done, [c.flat[v - 1]], tail.value);
    }
  }

  /** Taking one value changes nothing about the column that all of them complete. */
  lemma TakeKeeps(c: Progress, v: int, rest: seq<int>, eob: int)
    requires WellFormed(c) && 1 < eob <= 257 && 0 <= v <= eob
    ensures WellFormed(TakeValue(c, v, eob))
    ensures Completed(c, [v] + rest, eob) ==
      if v == eob then Some(TakeValue(c, v, eob).done) else Completed(TakeValue(c, v, eob), rest, eob)
  {
    if IsRun(v) {
      ConcatAssoc(c.ds, [v], rest);
    } else if v == eob {
      TakeEnd(c, eob, rest);
    } else {
      TakeSymbolStep(c, v, rest, eob);
    }
  }

  /** The column so far is part of the whole. */
  lemma DoneFits(c: Progress, rest: seq<int>, eob: int)
    requires WellFormed(c) && Completed(c, rest, eob).Some?
    ensures |c.done| <= |Completed(c, rest, eob).value|
  {
  }

  /** One of the values that complete a column. */
  lemma TakeOne(c: Progress, v: int, rest: seq<int>, eob: int, whole: seq<int>)
    requires WellFormed(c) && 1 < eob <= 257 && 0 <= v <= eob && Completed(c, [v] + rest, eob) == Some(whole)
    ensures var c' := TakeValue(c, v, eob);
      && WellFormed(c') && |c'.done| <= |whole|
      && if v == eob then c'.done == whole else Completed(c', rest, eob) == Some(whole)
  {
    TakeKeeps(c, v, rest, eob);
    if v != eob {
      DoneFits(TakeValue(c, v, eob), rest, eob);
    }
  }

  // ----- How large the accumulator of a run gets -----

  lemma {:induction false} RunValueAtLeast(ds: seq<int>)
    requires forall k :: 0 <= k < |ds| ==> ds[k] >= 0
    ensures RunValue(ds) + 1 >= Pow2(|ds|)
  {
    if ds != [] {
      RunValueAtLeast(ds[1..]);
    }
  }

  lemma {:induction false} RunValueGrows(ds: seq<int>, more: seq<int>)
    requires forall k :: 0 <= k < |more| ==> more[k] >= 0
    ensures RunValue(ds + more) >= RunValue(ds)
  {
    if ds == [] {
      assert ds + more == more;
      RunValueNonneg(more);
    } else {
      RunValueGrows(ds[1..], more);
      assert (ds + more)[1..] == ds[1..] + more;
    }
  }

  lemma {:induction false} RunPrefixWithin(ds: seq<int>, rest: seq<int>)
    requires forall k :: 0 <= k < |ds| ==> IsRun(ds[k])
    ensures RunPrefix(ds + rest) >= |ds|
  {
    if ds != [] {
      RunPrefixWithin(ds[1..], rest);
      assert (ds + rest)[1..] == ds[1..] + rest;
    }
  }

  /** A run that belongs to a column fits in it, and the weight reached so far is at most one more: `es` and `N` stay
      far below what 32 bits hold as long as the values can still complete a column of a block. */
  lemma RunFits(c: Progress, rest: seq<int>, eob: int)
    requires WellFormed(c) && eob > 1 && Completed(c, rest, eob).Some?
    ensures RunValue(c.ds) <= |Completed(c, rest, eob).value| && Pow2(|c.ds|) <= |Completed(c, rest, eob).value| + 1
  {
    RunValueAtLeast(c.ds);
    if c.ds != [] {
      var vs := c.ds + rest;
      RunPrefixWithin(c.ds, rest);
      var n := RunPrefix(vs);
      assert vs[..n] == c.ds + vs[|c.ds|..n] && IsRun(vs[0]);
      RunValueGrows(c.ds, vs[|c.ds|..n]);
    }
  }

  const START := Progress(Iota(256), [], [])

  lemma Starting(vs: seq<int>, eob: int)
    ensures WellFormed(START) && Completed(START, vs, eob) == Decode(Iota(256), vs, eob)
  {
    assert [] + vs == vs;
    if Decode(Iota(256), vs, eob).Some? {
      assert [] + Decode(Iota(256), vs, eob).value == Decode(Iota(256), vs, eob).value;
    }
  }

  function TakeAll(c: Progress, vs: seq<int>, eob: int): (c': Progress)
    requires |c.flat| == 256 && 1 < eob <= 257 && forall k :: 0 <= k < |vs| ==> 0 <= vs[k] <= eob
    decreases |vs|
  {
    if vs == [] then c else TakeAll(TakeValue(c, vs[0], eob), vs[1..], eob)
  }

  /** Value by value up to the end mark, the column is the one that all the values decode to. */
  lemma {:induction false} TakeAllDecodes(c: Progress, vs: seq<int>, eob: int)
    requires WellFormed(c) && 1 < eob <= 257 && forall k :: 0 <= k < |vs| ==> 0 <= vs[k] <= eob
    requires vs != [] && vs[|vs| - 1] == eob && forall k :: 0 <= k < |vs| - 1 ==> vs[k] != eob
    ensures Completed(c, vs, eob) == Some(TakeAll(c, vs, eob).done)
    decreases |vs|
  {
    assert [vs[0]] + vs[1..] == vs;
    TakeKeeps(c, vs[0], vs[1..], eob);
    if |vs| > 1 {
      TakeAllDecodes(TakeValue(c, vs[0], eob), vs[1..], eob);
    } else {
      assert TakeAll(c, vs, eob) == TakeValue(c, vs[0], eob);
    }
  }

  // ----- Bytes and counts -----

  ghost predicate BytesOf(seqToUnseq: seq<byte>, done: seq<int>, l: seq<byte>)
  {
    && |seqToUnseq| == 256 && |l| == |done|
    && forall k :: 0 <= k < |l| ==> 0 <= done[k] < 256 && l[k] == seqToUnseq[done[k]]
  }

  ghost predicate Counted(l: seq<byte>, tab: seq<int>)
  {
    |tab| == 256 && forall c :: 0 <= c < 256 ==> tab[c] == Count(l, c)
  }

  lemma {:induction false} CountBytes(l: seq<byte>, c: byte, n: nat, d: int)
    ensures Count(l + Rep(c, n), d) == Count(l, d) + if c == d then n else 0
  {
    if n == 0 {
      assert l + Rep(c, n) == l;
    } else {
      CountBytes(l, c, n - 1, d);
      assert (l + Rep(c, n))[..|l| + n - 1] == l + Rep(c, n - 1);
    }
  }

  lemma CountedMore(l: seq<byte>, tab: seq<int>, c: byte, n: nat)
    requires Counted(l, tab)
    ensures Counted(l + Rep(c, n), tab[c := tab[c] + n])
  {
    forall d | 0 <= d < 256
      ensures tab[c := tab[c] + n][d] == Count(l + Rep(c, n), d)
    {
      CountBytes(l, c, n, d);
    }
  }

  lemma BytesOfMore(seqToUnseq: seq<byte>, done: seq<int>, l: seq<byte>, x: int, n: nat)
    requires BytesOf(seqToUnseq, done, l) && 0 <= x < 256
    ensures BytesOf(seqToUnseq, done + Rep(x, n), l + Rep(seqToUnseq[x], n))
  {
  }

  /** Store a run of `es` bytes, unless the block is full. */
  method AppendRun(l0: seq<byte>, uc: byte, es: int, nblockMAX: int) returns (ok: bool, l: seq<byte>)
    requires es >= 0 && |l0| <= nblockMAX
    ensures ok <==> |l0| + es <= nblockMAX
    ensures ok ==> l == l0 + Rep(uc, es)
  {
    l := l0;
    var left := es;
    while left > 0
      invariant 0 <= left <= es && |l| <= nblockMAX && l == l0 + Rep(uc, es - left)
    {
      if |l| >= nblockMAX { return false, l; }
      l := l + [uc];
      left := left - 1;
    }
    ok := true;
  }

  lemma IotaEntries(flat: seq<int>, j: int)
    requires |flat| == 256 && 0 <= j < 256 && forall k :: 0 <= k < 256 ==> 0 <= flat[k] < 256
    ensures forall k :: 0 <= k < 256 ==> 0 <= ToFront(flat, j)[k] < 256
  {
  }

  /** `flat` is a list of byte-sized entries and `l`, `tab` are the column and counts for `done`. */
  ghost predicate Stored(flat: seq<int>, seqToUnseq: seq<byte>, done: seq<int>, l: seq<byte>, tab: seq<int>)
  {
    && |flat| == 256 && (forall k :: 0 <= k < 256 ==> 0 <= flat[k] < 256)
    && BytesOf(seqToUnseq, done, l) && Counted(l, tab)
  }

  lemma StoredMore(flat: seq<int>, seqToUnseq: seq<byte>, done: seq<int>, l: seq<byte>, tab: seq<int>, j: int, n: nat)
    requires Stored(flat, seqToUnseq, done, l, tab) && 0 <= j < 256
    ensures var c := seqToUnseq[flat[j]];
      Stored(flat, seqToUnseq, done + Rep(flat[j], n), l + Rep(c, n), tab[c := tab[c] + n])
  {
    CountedMore(l, tab, seqToUnseq[flat[j]], n);
    BytesOfMore(seqToUnseq, done, l, flat[j], n);
  }

  lemma StoredMoved(flat: seq<int>, seqToUnseq: seq<byte>, done: seq<int>, l: seq<byte>, tab: seq<int>, j: int)
    requires Stored(flat, seqToUnseq, done, l, tab) && 0 <= j < 256
    ensures Stored(ToFront(flat, j), seqToUnseq, done, l, tab)
  {
    IotaEntries(flat, j);
  }

  method StoreRun(l0: seq<byte>, c: byte, es: int, nblockMAX: int, unzftab: array<int>) returns (ok: bool, l: seq<byte>)
    requires es >= 0 && |l0| <= nblockMAX && unzftab.Length == 256
    modifies unzftab
    ensures ok <==> |l0| + es <= nblockMAX
    ensures ok ==> l == l0 + Rep(c, es)
    ensures unzftab[..] == old(unzftab[..])[c := old(unzftab[..])[c] + es]
  {
    unzftab[c] := unzftab[c] + es;
    ok, l := AppendRun(l0, c, es, nblockMAX);
  }

  /** The accumulator of a run between two digits. */
  ghost predicate Adding(inRun: bool, es: int, N: int, ds: seq<int>)
  {
    inRun == (ds != []) && (inRun ==> es + 1 == RunValue(ds) && N == Pow2(|ds|))
  }

  lemma AddDigit(es: int, N: int, ds: seq<int>, v: int)
    requires es + 1 == RunValue(ds) && N == Pow2(|ds|)
    ensures es + N * (v + 1) + 1 == RunValue(ds + [v]) && N * 2 == Pow2(|ds + [v]|)
  {
    RunValueSnoc(ds, v);
  }

  datatype Verdict = Failed | Wanted | Finished

  /** The value loop of BZ2_decompress between two values: the column, the counts, the two-level list and the run
      being added up. */
  class ColumnBuilder {
    const eob: int
    const nblockMAX: int
    const seqToUnseq: seq<byte>
    const unzftab: array<int>
    const list: TwoLevelList
    var l: seq<byte>
    var inRun: bool
    var es: int
    var N: int
    ghost var c: Progress
    ghost const repr: set<object>

    ghost predicate Valid()
      reads this, repr
    {
      1 < eob <= 257 && WellFormed(c) && forall i {:trigger Opened(i)} :: Opened(i) ==> Inside()
    }

    /** The finished column and its byte counts. */
    lemma Holds()
      requires Valid()
      ensures BytesOf(seqToUnseq, c.done, l) && unzftab in repr && unzftab.Length == 256 && Counted(l, unzftab[..])
    {
      assert Opened(0);
    }

    /** The accumulator, while the values can still complete a column. */
    lemma Accumulator(rest: seq<int>)
      requires Valid() && Completed(c, rest, eob).Some?
      ensures inRun ==> 0 <= es < |Completed(c, rest, eob).value| && 2 <= N <= |Completed(c, rest, eob).value| + 1
    {
      assert Opened(0);
      RunFits(c, rest, eob);
      RunValueNonneg(c.ds);
    }

    ghost predicate Inside()
      reads this, repr
    {
      && repr == {unzftab, list, list.mtfa, list.mtfbase}
      && unzftab != list.mtfa && unzftab != list.mtfbase && unzftab.Length == 256
      && 1 < eob <= 257 && |seqToUnseq| == 256 && |l| <= nblockMAX && WellFormed(c)
      && list.Valid() && list.flat == c.flat && Stored(c.flat, seqToUnseq, c.done, l, unzftab[..])
      && Adding(inRun, es, N, c.ds)
    }

    constructor (eob: int, nblockMAX: int, seqToUnseq: seq<byte>)
      requires 1 < eob <= 257 && |seqToUnseq| == 256 && nblockMAX >= 0
      ensures Valid() && fresh(repr) && c == START
      ensures this.eob == eob && this.nblockMAX == nblockMAX && this.seqToUnseq == seqToUnseq
    {
      this.eob, this.nblockMAX, this.seqToUnseq := eob, nblockMAX, seqToUnseq;
      var tab := new int[256](_ => 0);
      var two := new TwoLevelList();
      unzftab, list, l, inRun, es, N := tab, two, [], false, -1, 1;
      c, repr := START, {tab, two, two.mtfa, two.mtfbase};
    }

    /** One more value: nothing but a column that gets too long makes it fail. */
    method Take(v: int) returns (r: Verdict)
      requires Valid() && 0 <= v <= eob
      modifies this, repr
      ensures r == Failed <==> |TakeValue(old(c), v, eob).done| > nblockMAX
      ensures r != Failed ==> Valid() && c == TakeValue(old(c), v, eob) && (r == Finished <==> v == eob)
    {
      assert Opened(0);
      if IsRun(v) {
        TakeDigit(v);
        r := Wanted;
        return;
      }
      var ok := true;
      if inRun {
        ok := EndRun();
        if !ok { return Failed; }
      }
      if v == eob { return Finished; }
      ok := TakeSymbol(v);
      r := if ok then Wanted else Failed;
    }

    /** decompress.c:381-386. */
    method TakeDigit(v: int)
      requires Inside() && IsRun(v)
      modifies this`inRun, this`es, this`N, this`c
      ensures Inside() && c == old(c).(ds := old(c).ds + [v])
    {
      if !inRun {
        inRun, es, N := true, -1, 1;
      }
      AddDigit(es, N, c.ds, v);
      if v == RUNA {
        es := es + 1 * N;
      } else {
        es := es + 2 * N;
      }
      N := N * 2;
      c := c.(ds := c.ds + [v]);
    }

    /** decompress.c:391-409. */
    method EndRun() returns (ok: bool)
      requires Inside() && inRun
      modifies this`inRun, this`es, this`l, this`c, unzftab
      ensures var done := old(c).done + Rep(old(c).flat[0], Max(0, RunValue(old(c).ds)));
        && (ok <==> |done| <= nblockMAX)
        && (ok ==> Inside() && c == Progress(old(c).flat, done, []) && !inRun)
    {
      es := es + 1;
      RunValueNonneg(c.ds);
      var uc := list.Front();
      StoredMore(c.flat, seqToUnseq, c.done, l, unzftab[..], 0, es);
      ok, l := StoreRun(l, seqToUnseq[uc], es, nblockMAX, unzftab);
      c := Progress(c.flat, c.done + Rep(c.flat[0], es), []);
      inRun := false;
    }

    /** decompress.c:414-474. */
    method TakeSymbol(v: int) returns (ok: bool)
      requires Inside() && !inRun && 1 < v < eob
      modifies this`l, this`c, repr
      ensures ok <==> |old(c).done| + 1 <= nblockMAX
      ensures ok ==> Inside() && c == Progress(ToFront(old(c).flat, v - 1), old(c).done + [old(c).flat[v - 1]], [])
    {
      if |l| >= nblockMAX { return false; }
      ghost var flat, done, was, tab := c.flat, c.done, l, unzftab[..];
      var uc := list.Take(v - 1);
      StoredMore(flat, seqToUnseq, done, was, tab, v - 1, 1);
      StoredMoved(flat, seqToUnseq, done + Rep(uc, 1), was + Rep(seqToUnseq[uc], 1),
        tab[seqToUnseq[uc] := tab[seqToUnseq[uc]] + 1], v - 1);
      assert done + [uc] == done + Rep(uc, 1);
      ok, l := StoreRun(l, seqToUnseq[uc], 1, nblockMAX, unzftab);
      c := Progress(ToFront(flat, v - 1), done + [uc], []);
    }
  }
}
