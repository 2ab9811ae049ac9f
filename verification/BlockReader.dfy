/** BZ2_decompress from the coding tables to the last value (decompress.c:302-373): the decoding tables, and GET_MTF_VAL
    as a machine that is advanced by one GET_BITS at a time. */
module BlockReader {
  import opened Basics
  import opened Bits
  import opened BitStream
  import opened MoveToFront
  import opened HuffmanTree
  import opened HuffmanCodes
  import opened BlockFormat
  import opened FrontReader

  // ----- Undoing the move-to-front of the selectors (decompress.c:302-314) -----

  /** The entries from `v` to `m` of the list have moved up by one. */
  ghost predicate Shifted(l: seq<int>, t: seq<int>, m: int, v: int)
  {
    && |t| == |l| && 0 <= v <= m < |l|
    && (forall k :: v < k <= m ==> t[k] == l[k - 1])
    && (forall k :: 0 <= k < |l| && !(v < k <= m) ==> t[k] == l[k])
  }

  lemma ShiftedDone(l: seq<int>, t: seq<int>, m: int)
    requires Shifted(l, t, m, 0)
    ensures t[0 := l[m]] == ToFront(l, m)
  {
    forall k | 0 <= k < |l|
      ensures t[0 := l[m]][k] == ToFront(l, m)[k]
    {
    }
  }

  method DropSelector(pos: array<int>, m: int) returns (tmp: int)
    requires 0 <= m < pos.Length
    modifies pos
    ensures tmp == old(pos[..])[m] && pos[..] == ToFront(old(pos[..]), m)
  {
    ghost var l := pos[..];
    tmp := pos[m];
    var v := m;
    while v > 0
      invariant Shifted(l, pos[..], m, v)
    {
      pos[v] := pos[v - 1];
      v := v - 1;
    }
    ShiftedDone(l, pos[..], m);
    ghost var t := pos[..];
    pos[0] := tmp;
    assert pos[..] == t[0 := tmp];
  }

  method UndoMtf(ms: seq<int>, nGroups: int) returns (sels: seq<int>)
    requires 0 < nGroups && forall i :: 0 <= i < |ms| ==> 0 <= ms[i] < nGroups
    ensures sels == UndoSelectorMtf(Iota(nGroups), ms)
  {
    var pos := new int[nGroups](i => i);
    assert pos[..] == Iota(nGroups);
    ghost var whole := UndoSelectorMtf(Iota(nGroups), ms);
    sels := [];
    assert ms[0..] == ms && [] + whole == whole;
    for i := 0 to |ms|
      invariant whole == sels + UndoSelectorMtf(pos[..], ms[i..])
    {
      assert ms[i..][1..] == ms[i + 1..] && ms[i..][0] == ms[i];
      var tmp := DropSelector(pos, ms[i]);
      ConcatAssoc(sels, [tmp], UndoSelectorMtf(pos[..], ms[i + 1..]));
      sels := sels + [tmp];
    }
    assert UndoSelectorMtf(pos[..], ms[|ms|..]) == [];
  }

  /** One step of the front machine; the last selector is followed by the loop over all of them. */
  method StepFront(size: int, p: FrontAt, v: int) returns (r: FrontNext)
    requires Waiting(p)
    ensures r == Step(size, p, v)
  {
    if p.Selector3? && v == 0 && |p.ms| + 1 == p.nSelectors {
      var sels := UndoMtf(p.ms + [p.j], p.nGroups);
      r := Wait(Coding1(p.h, p.inUse, p.nGroups, sels, []));
    } else {
      r := Step(size, p, v);
    }
  }

  // ----- The values (decompress.c:74-102, 349-373) -----

  /** Where GET_MTF_VAL waits: for the first `minLen` bits of a code, or for one more bit of it. `groupPos` more values
      fit in group `groupNo`. */
  datatype CodeAt =
    | First(groupNo: int, groupPos: int)
    | Longer(groupNo: int, groupPos: int, zn: int, zvec: int)

  type CodeNext = Next<CodeAt, int>

  predicate Coded(ts: seq<Table>, sels: seq<int>)
  {
    && (forall t :: 0 <= t < |ts| ==> TableShape(ts[t]))
    && (forall i :: 0 <= i < |sels| ==> 0 <= sels[i] < |ts|)
  }

  predicate Reading(sels: seq<int>, c: CodeAt)
  {
    0 <= c.groupNo < |sels| && 0 <= c.groupPos < G_SIZE && (c.Longer? ==> 0 <= c.zn)
  }

  function TableAt(ts: seq<Table>, sels: seq<int>, c: CodeAt): (t: Table)
    requires Coded(ts, sels) && Reading(sels, c)
    ensures TableShape(t)
  {
    ts[sels[c.groupNo]]
  }

  function CodeWidth(ts: seq<Table>, sels: seq<int>, c: CodeAt): (n: int)
    requires Coded(ts, sels) && Reading(sels, c)
    ensures 1 <= n <= 20
  {
    if c.First? then TableAt(ts, sels, c).minLen else 1
  }

  /** The loop of GET_MTF_VAL between two bits. */
  function Climbed(t: Table, groupNo: int, groupPos: int, zn: int, zvec: int): (r: CodeNext)
    requires TableShape(t) && zn >= 0
  {
    if zn > 20 then Reject
    else if zvec <= t.limit[zn] then
      var k := zvec - t.base[zn];
      if k < 0 || k >= 258 then Reject else Done(t.perm[k])
    else Wait(Longer(groupNo, groupPos, zn + 1, zvec))
  }

  function StepCode(ts: seq<Table>, sels: seq<int>, c: CodeAt, v: int): (r: CodeNext)
    requires Coded(ts, sels) && Reading(sels, c)
    ensures r.Wait? ==> Reading(sels, r.at) && r.at.groupNo == c.groupNo && r.at.groupPos == c.groupPos
  {
    var t := TableAt(ts, sels, c);
    if c.First? then Climbed(t, c.groupNo, c.groupPos, t.minLen, v)
    else Climbed(t, c.groupNo, c.groupPos, c.zn, 2 * c.zvec + v)
  }

  /** Move on to the next value, and to the next selector when the group is used up. */
  function NextCode(nSelectors: int, groupNo: int, groupPos: int): (r: CodeNext)
  {
    if groupPos != 0 then Wait(First(groupNo, groupPos - 1))
    else if groupNo + 1 >= nSelectors then Reject
    else Wait(First(groupNo + 1, G_SIZE - 1))
  }

  /** The symbol that the machine will read. */
  function SymbolAhead(t: Table, c: CodeAt, s: seq<bit>): (r: Parsed<int>)
    requires TableShape(t) && (c.Longer? ==> c.zn >= 0)
  {
    if c.First? then GetSymbol(t, s) else if s == [] then None else Climb(t, c.zn, 2 * c.zvec + s[0], s[1..])
  }

  /** The same after a step. */
  function SymbolAfter(t: Table, r: CodeNext, s: seq<bit>): (q: Parsed<int>)
    requires TableShape(t) && (r.Wait? && r.at.Longer? ==> r.at.zn >= 0)
  {
    match r
    case Reject => None
    case Wait(c) => SymbolAhead(t, c, s)
    case Done(v) => Some((v, s))
  }

  lemma ClimbedKeeps(t: Table, groupNo: int, groupPos: int, zn: int, zvec: int, s: seq<bit>)
    requires TableShape(t) && zn >= 0
    ensures Climb(t, zn, zvec, s) == SymbolAfter(t, Climbed(t, groupNo, groupPos, zn, zvec), s)
  {
  }

  /** For every bit string: one field read in the middle of a code changes nothing about the symbol. */
  lemma CodeKeeps(ts: seq<Table>, sels: seq<int>, c: CodeAt, s: seq<bit>)
    requires Coded(ts, sels) && Reading(sels, c)
    ensures var f := Field(s, CodeWidth(ts, sels, c));
      SymbolAhead(TableAt(ts, sels, c), c, s) ==
        if f.None? then None else SymbolAfter(TableAt(ts, sels, c), StepCode(ts, sels, c, f.value.0), f.value.1)
  {
    var t, f := TableAt(ts, sels, c), Field(s, CodeWidth(ts, sels, c));
    if c.Longer? {
      FieldOne(s);
    }
    if f.Some? {
      var v, s' := f.value.0, f.value.1;
      if c.First? {
        ClimbedKeeps(t, c.groupNo, c.groupPos, t.minLen, v, s');
      } else {
        ClimbedKeeps(t, c.groupNo, c.groupPos, c.zn, 2 * c.zvec + v, s');
      }
    }
  }

  /** `k` values are read; `groupPos` more fit in group `groupNo`. */
  ghost predicate InGroup(k: int, groupNo: int, groupPos: int)
  {
    0 <= groupPos < G_SIZE && -1 <= groupNo && k == G_SIZE * (groupNo + 1) - groupPos && k >= 0
  }

  /** The values from the `k`-th on, which is being read, will be `vs`, and then `rest` is left. */
  ghost predicate ValuesAhead(ts: seq<Table>, sels: seq<int>, k: int, eob: int, c: CodeAt, s: seq<bit>, vs: seq<int>,
                              rest: seq<bit>)
    requires Coded(ts, sels) && Reading(sels, c)
  {
    && k >= 0 && InGroup(k + 1, c.groupNo, c.groupPos)
    && AfterSymbol(ts, sels, k, eob, SymbolAhead(TableAt(ts, sels, c), c, s)) == Some((vs, rest))
  }

  /** The values if the `k`-th is read as `r`. */
  function AfterSymbol(ts: seq<Table>, sels: seq<int>, k: nat, eob: int, r: Parsed<int>): (q: Parsed<seq<int>>)
    requires Coded(ts, sels)
  {
    if r.None? then None
    else if r.value.0 == eob then Some(([eob], r.value.1))
    else
      var rest := ParseData(ts, sels, k + 1, eob, r.value.1);
      if rest.None? then None else Some(([r.value.0] + rest.value.0, rest.value.1))
  }

  lemma GroupOf(k: int, groupNo: int, groupPos: int)
    requires k >= 0 && InGroup(k + 1, groupNo, groupPos)
    ensures k / G_SIZE == groupNo
  {
  }

  lemma GroupNext(k: int, groupNo: int, groupPos: int, nSelectors: int)
    requires k >= 0 && InGroup(k, groupNo, groupPos) && -1 <= groupNo < nSelectors && k / G_SIZE < nSelectors
    ensures var r := NextCode(nSelectors, groupNo, groupPos);
      && r.Wait? && r.at.First? && 0 <= r.at.groupNo < nSelectors && 0 <= r.at.groupPos < G_SIZE
        && InGroup(k + 1, r.at.groupNo, r.at.groupPos)
  {
  }

  /** A parse of values, at the next of them. */
  lemma ValueStarts(ts: seq<Table>, sels: seq<int>, k: int, eob: int, groupNo: int, groupPos: int, s: seq<bit>,
                    vs: seq<int>, rest: seq<bit>)
    requires Coded(ts, sels) && k >= 0 && InGroup(k, groupNo, groupPos) && -1 <= groupNo < |sels|
    requires ParseData(ts, sels, k, eob, s) == Some((vs, rest))
    ensures var r := NextCode(|sels|, groupNo, groupPos);
      r.Wait? && Reading(sels, r.at) && ValuesAhead(ts, sels, k, eob, r.at, s, vs, rest)
  {
    GroupNext(k, groupNo, groupPos, |sels|);
    var c := NextCode(|sels|, groupNo, groupPos).at;
    GroupOf(k, c.groupNo, c.groupPos);
  }

  /** One field: it is there, and either the code goes on or its value is the next of `vs`. */
  lemma ValueStep(ts: seq<Table>, sels: seq<int>, k: int, eob: int, c: CodeAt, s: seq<bit>, vs: seq<int>,
                  rest: seq<bit>)
    requires Coded(ts, sels) && Reading(sels, c) && ValuesAhead(ts, sels, k, eob, c, s, vs, rest)
    ensures Field(s, CodeWidth(ts, sels, c)).Some?
    ensures var f := Field(s, CodeWidth(ts, sels, c)).value;
      var r := StepCode(ts, sels, c, f.0);
      && !r.Reject?
      && (r.Wait? ==> ValuesAhead(ts, sels, k, eob, r.at, f.1, vs, rest))
      && (r.Done? ==> vs != [] && r.result == vs[0] && ValueRead(ts, sels, k, eob, c, f.1, vs, rest))
  {
    CodeKeeps(ts, sels, c, s);
    var f := Field(s, CodeWidth(ts, sels, c));
    var r := StepCode(ts, sels, c, f.value.0);
    if r.Done? && r.result != eob {
      var more := ParseData(ts, sels, k + 1, eob, f.value.1);
      assert vs[1..] == more.value.0;
      ValueStarts(ts, sels, k + 1, eob, c.groupNo, c.groupPos, f.value.1, vs[1..], rest);
    }
  }

  lemma {:induction false} ClimbShortens(t: Table, zn: nat, zvec: int, s: seq<bit>)
    requires TableShape(t) && Climb(t, zn, zvec, s).Some?
    ensures |Climb(t, zn, zvec, s).value.1| <= |s|
    decreases 21 - zn
  {
    if zvec > t.limit[zn] {
      ClimbShortens(t, zn + 1, 2 * zvec + s[0], s[1..]);
    }
  }

  lemma SymbolShortens(t: Table, c: CodeAt, s: seq<bit>)
    requires TableShape(t) && (c.Longer? ==> c.zn >= 0) && SymbolAhead(t, c, s).Some?
    ensures |SymbolAhead(t, c, s).value.1| <= |s|
  {
    if c.First? {
      ClimbShortens(t, t.minLen, FromBits(s[..t.minLen]), s[t.minLen..]);
    } else {
      ClimbShortens(t, c.zn, 2 * c.zvec + s[0], s[1..]);
    }
  }

  lemma {:induction false} DataShortens(ts: seq<Table>, sels: seq<int>, k: nat, eob: int, s: seq<bit>)
    requires Coded(ts, sels) && ParseData(ts, sels, k, eob, s).Some?
    ensures |ParseData(ts, sels, k, eob, s).value.1| <= |s|
    decreases G_SIZE * |sels| - k
  {
    var t := ts[sels[k / G_SIZE]];
    SymbolShortens(t, First(0, 0), s);
    var v := GetSymbol(t, s);
    if v.value.0 != eob {
      DataShortens(ts, sels, k + 1, eob, v.value.1);
    }
  }

  /** What follows the values is not longer than what is ahead. */
  lemma ValuesShorten(ts: seq<Table>, sels: seq<int>, k: int, eob: int, c: CodeAt, s: seq<bit>, vs: seq<int>,
                      rest: seq<bit>)
    requires Coded(ts, sels) && Reading(sels, c) && ValuesAhead(ts, sels, k, eob, c, s, vs, rest)
    ensures |rest| <= |s|
  {
    var t := TableAt(ts, sels, c);
    SymbolShortens(t, c, s);
    var v := SymbolAhead(t, c, s);
    if v.value.0 != eob {
      DataShortens(ts, sels, k + 1, eob, v.value.1);
    }
  }

  /** The `k`-th value is read: it was the end mark, or the next one begins. */
  ghost predicate ValueRead(ts: seq<Table>, sels: seq<int>, k: int, eob: int, c: CodeAt, s: seq<bit>, vs: seq<int>,
                            rest: seq<bit>)
    requires Coded(ts, sels) && Reading(sels, c) && vs != []
  {
    if vs[0] == eob then vs == [eob] && s == rest
    else
      var r := NextCode(|sels|, c.groupNo, c.groupPos);
      r.Wait? && Reading(sels, r.at) && ValuesAhead(ts, sels, k + 1, eob, r.at, s, vs[1..], rest)
  }

  // ----- Decoding tables (decompress.c:331-347) -----

  lemma ScaleSum(a: int, x: int, p: int)
    ensures (a + x) * p == a * p + x * p
  {
  }

  /** The Kraft sum in finer units. */
  lemma {:induction false} KraftScale(lens: seq<int>, hi: nat, d: nat)
    requires hi <= d && forall i :: 0 <= i < |lens| ==> 0 <= lens[i] <= hi
    ensures Kraft(lens, d) == Kraft(lens, hi) * Pow2(d - hi)
  {
    if lens != [] {
      var last := |lens| - 1;
      KraftScale(lens[..last], hi, d);
      Pow2Add(hi - lens[last], d - hi);
      ScaleSum(Kraft(lens[..last], hi), Pow2(hi - lens[last]), Pow2(d - hi));
    }
  }

  lemma Cancel(a: int, b: int, p: int)
    requires p > 0 && a * p <= b * p
    ensures a <= b
  {
    if a > b {
      ScaleMono(b + 1, a, p);
    }
  }

  /** A table built for a code whose Kraft sum is at most one decodes it. */
  lemma TableDecodes(lens: seq<int>, lo: int, hi: int, t: Table, d: nat)
    requires TableFor(lens, lo, hi, t) && hi <= d && Kraft(lens, d) <= Pow2(d)
    ensures Decodes(lens, t)
  {
    KraftScale(lens, hi, d);
    Pow2Add(hi, d - hi);
    Cancel(Kraft(lens, hi), Pow2(hi), Pow2(d - hi));
    forall i, rest | 0 <= i < |lens|
      ensures DecodesTo(lens, t, i, rest)
    {
      DecodeInvertsCode(lens, lo, hi, t, i, rest);
    }
  }

  /** A decoding table that undoes the code of `lens` if that is a prefix code. */
  method CreateTable(lens: seq<int>) returns (tab: Table)
    requires 0 < |lens| <= 258 && Lengths(lens, 1, 20)
    ensures TableShape(tab) && (KraftOk(lens) ==> Decodes(lens, tab))
  {
    var minLen, maxLen := MinMaxLen(lens);
    tab := CreateDecodeTables(lens, minLen, maxLen);
    if KraftOk(lens) {
      TableDecodes(lens, minLen, maxLen, tab, LONGEST);
    }
  }

  /** One decoding table per table of lengths. */
  method CreateTables(tables: seq<seq<int>>, n: int) returns (ts: seq<Table>)
    requires LensOk(tables, n) && 0 < n <= 258
    ensures |ts| == |tables| && forall t :: 0 <= t < |ts| ==> TableShape(ts[t])
    ensures forall t :: 0 <= t < |ts| && KraftOk(tables[t]) ==> Decodes(tables[t], ts[t])
  {
    ts := [];
    for t := 0 to |tables|
      invariant |ts| == t && forall u :: 0 <= u < t ==> TableShape(ts[u])
      invariant forall u :: 0 <= u < t && KraftOk(tables[u]) ==> Decodes(tables[u], ts[u])
    {
      var tab := CreateTable(tables[t]);
      ts := ts + [tab];
    }
  }
}
