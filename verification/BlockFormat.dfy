/** The bits of a block: what sendMTFValues prints, what BZ2_decompress parses, and why they agree. */
module BlockFormat {
  import opened Basics
  import opened Bits
  import opened BitStream
  import opened MoveToFront
  import opened HuffmanCodes
  import opened MtfEncoder

  /** A parse: nothing when the stream is rejected or too short, otherwise a value and the bits after it. */
  type Parsed<+T> = Option<(T, seq<bit>)>

  // Widths of fields, as constants so that proofs do not unroll what is defined by recursion on them.
  const RANGE: nat := 16
  const GROUPS_BITS: nat := 3
  const COUNT_BITS: nat := 15
  const LEN_BITS: nat := 5

  // ----- The alphabet -----

  function FlagBits(f: seq<bool>): (s: seq<bit>)
    ensures |s| == |f|
  {
    if f == [] then [] else [if f[0] then 1 else 0] + FlagBits(f[1..])
  }

  function ParseFlags(n: nat, s: seq<bit>): (r: Parsed<seq<bool>>)
    ensures r.Some? ==> |r.value.0| == n
  {
    if n == 0 then Some(([], s))
    else if s == [] then None
    else
      var rest := ParseFlags(n - 1, s[1..]);
      if rest.None? then None else Some(([s[0] == 1] + rest.value.0, rest.value.1))
  }

  lemma {:induction false} FlagsRoundTrip(f: seq<bool>, rest: seq<bit>)
    ensures ParseFlags(|f|, FlagBits(f) + rest) == Some((f, rest))
  {
    if f == [] {
      assert FlagBits(f) + rest == rest;
    } else {
      FlagsRoundTrip(f[1..], rest);
      var s := FlagBits(f) + rest;
      assert s[1..] == FlagBits(f[1..]) + rest;
      assert [f[0]] + f[1..] == f;
    }
  }

  /** Which of the sixteen ranges of sixteen bytes occur at all. */
  function Used16(inUse: seq<bool>): (u: seq<bool>)
    requires |inUse| == 256
    ensures |u| == 16
  {
    seq(16, i requires 0 <= i < 16 => true in inUse[16 * i..16 * i + 16])
  }

  /** The ranges from `i` on that occur. */
  function RangeBits(inUse: seq<bool>, i: nat): (s: seq<bit>)
    requires |inUse| == 256 && i <= 16
    decreases 16 - i
  {
    if i == 16 then []
    else (if Used16(inUse)[i] then FlagBits(inUse[16 * i..16 * i + 16]) else []) + RangeBits(inUse, i + 1)
  }

  function MapBits(inUse: seq<bool>): (s: seq<bit>)
    requires |inUse| == 256
  {
    FlagBits(Used16(inUse)) + RangeBits(inUse, 0)
  }

  function NoneUsed(): (f: seq<bool>)
    ensures |f| == 16 && true !in f
  {
    seq(16, i => false)
  }

  function ParseRanges(u: seq<bool>, i: nat, s: seq<bit>): (r: Parsed<seq<bool>>)
    requires |u| == 16 && i <= 16
    ensures r.Some? ==> |r.value.0| == 16 * (16 - i)
    decreases 16 - i
  {
    if i == 16 then Some(([], s))
    else
      var row := if u[i] then ParseFlags(RANGE, s) else Some((NoneUsed(), s));
      if row.None? then None else
        var rest := ParseRanges(u, i + 1, row.value.1);
        if rest.None? then None else Some((row.value.0 + rest.value.0, rest.value.1))
  }

  function ParseMap(s: seq<bit>): (r: Parsed<seq<bool>>)
    ensures r.Some? ==> |r.value.0| == 256
  {
    var u := ParseFlags(RANGE, s);
    if u.None? then None else ParseRanges(u.value.0, 0, u.value.1)
  }

  lemma UnusedRange(inUse: seq<bool>, i: int)
    requires |inUse| == 256 && 0 <= i < 16 && !Used16(inUse)[i]
    ensures inUse[16 * i..16 * i + 16] == NoneUsed()
  {
    var row := inUse[16 * i..16 * i + 16];
    assert true !in row;
    forall k | 0 <= k < 16
      ensures row[k] == NoneUsed()[k]
    {
      assert row[k] in row;
    }
  }

  /** One range, which is written only if it occurs. */
  lemma RowRoundTrip(inUse: seq<bool>, i: int, tail: seq<bit>)
    requires |inUse| == 256 && 0 <= i < 16
    ensures var row, used := inUse[16 * i..16 * i + 16], Used16(inUse)[i];
      var s := (if used then FlagBits(row) else []) + tail;
      (if used then ParseFlags(RANGE, s) else Some((NoneUsed(), s))) == Some((row, tail))
  {
    if Used16(inUse)[i] {
      FlagsRoundTrip(inUse[16 * i..16 * i + 16], tail);
    } else {
      UnusedRange(inUse, i);
      assert [] + tail == tail;
    }
  }

  lemma RangesNext(u: seq<bool>, i: nat, s: seq<bit>, row: seq<bool>, tail: seq<bit>, more: seq<bool>, rest: seq<bit>)
    requires |u| == 16 && i < 16 && (if u[i] then ParseFlags(RANGE, s) else Some((NoneUsed(), s))) == Some((row, tail))
    requires ParseRanges(u, i + 1, tail) == Some((more, rest))
    ensures ParseRanges(u, i, s) == Some((row + more, rest))
  {
  }

  lemma {:induction false} RangesRoundTrip(inUse: seq<bool>, i: nat, rest: seq<bit>)
    requires |inUse| == 256 && i <= 16
    ensures ParseRanges(Used16(inUse), i, RangeBits(inUse, i) + rest) == Some((inUse[16 * i..], rest))
    decreases 16 - i
  {
    if i == 16 {
      assert RangeBits(inUse, i) + rest == rest && inUse[16 * i..] == [];
    } else {
      RangesRoundTrip(inUse, i + 1, rest);
      RangesStep(inUse, i, rest);
    }
  }

  lemma RowsJoin(inUse: seq<bool>, i: nat)
    requires |inUse| == 256 && i < 16
    ensures inUse[16 * i..16 * i + 16] + inUse[16 * (i + 1)..] == inUse[16 * i..]
  {
  }

  lemma RangesStep(inUse: seq<bool>, i: nat, rest: seq<bit>)
    requires |inUse| == 256 && i < 16
    requires ParseRanges(Used16(inUse), i + 1, RangeBits(inUse, i + 1) + rest) == Some((inUse[16 * (i + 1)..], rest))
    ensures ParseRanges(Used16(inUse), i, RangeBits(inUse, i) + rest) == Some((inUse[16 * i..], rest))
  {
    var row, more := inUse[16 * i..16 * i + 16], inUse[16 * (i + 1)..];
    RowsJoin(inUse, i);
    var tail := RangeBits(inUse, i + 1) + rest;
    var first := if Used16(inUse)[i] then FlagBits(row) else [];
    RowRoundTrip(inUse, i, tail);
    ConcatAssoc(first, RangeBits(inUse, i + 1), rest);
    assert RangeBits(inUse, i) + rest == first + tail;
    RangesNext(Used16(inUse), i, first + tail, row, tail, more, rest);
  }

  lemma MapRoundTrip(inUse: seq<bool>, rest: seq<bit>)
    requires |inUse| == 256
    ensures ParseMap(MapBits(inUse) + rest) == Some((inUse, rest))
  {
    var u := Used16(inUse);
    FlagsRoundTrip(u, RangeBits(inUse, 0) + rest);
    ConcatAssoc(FlagBits(u), RangeBits(inUse, 0), rest);
    RangesRoundTrip(inUse, 0, rest);
    assert inUse[16 * 0..] == inUse;
  }

  // ----- Selectors -----

  /** Selectors as positions in a move-to-front list of the tables. */
  function SelectorMtf(pos: seq<int>, sels: seq<int>): (ms: seq<int>)
    requires Over(sels, pos)
    ensures |ms| == |sels| && forall i :: 0 <= i < |ms| ==> 0 <= ms[i] < |pos|
    decreases |sels|
  {
    if sels == [] then []
    else
      var j := IndexOf(pos, sels[0]);
      OverAfter(sels, pos, j);
      [j] + SelectorMtf(ToFront(pos, j), sels[1..])
  }

  function UndoSelectorMtf(pos: seq<int>, ms: seq<int>): (sels: seq<int>)
    requires forall i :: 0 <= i < |ms| ==> 0 <= ms[i] < |pos|
    ensures |sels| == |ms|
    decreases |ms|
  {
    if ms == [] then [] else [pos[ms[0]]] + UndoSelectorMtf(ToFront(pos, ms[0]), ms[1..])
  }

  lemma {:induction false} SelectorsRoundTrip(pos: seq<int>, sels: seq<int>)
    requires Over(sels, pos)
    ensures UndoSelectorMtf(pos, SelectorMtf(pos, sels)) == sels
    decreases |sels|
  {
    if sels != [] {
      var j := IndexOf(pos, sels[0]);
      OverAfter(sels, pos, j);
      SelectorsRoundTrip(ToFront(pos, j), sels[1..]);
      assert SelectorMtf(pos, sels)[1..] == SelectorMtf(ToFront(pos, j), sels[1..]);
      assert [sels[0]] + sels[1..] == sels;
    }
  }

  function Ones(j: nat): (s: seq<bit>)
    ensures |s| == j
  {
    if j == 0 then [] else [1] + Ones(j - 1)
  }

  function UnaryBits(ms: seq<int>): (s: seq<bit>)
    requires forall i :: 0 <= i < |ms| ==> ms[i] >= 0
  {
    if ms == [] then [] else Ones(ms[0]) + [0] + UnaryBits(ms[1..])
  }

  /** One unary number below `nGroups`, `j` of it already read. */
  function ParseUnary(j: int, nGroups: int, s: seq<bit>): (r: Parsed<int>)
    requires 0 <= j < nGroups
    ensures r.Some? ==> j <= r.value.0 < nGroups
    decreases |s|
  {
    if s == [] then None
    else if s[0] == 0 then Some((j, s[1..]))
    else if j + 1 >= nGroups then None
    else ParseUnary(j + 1, nGroups, s[1..])
  }

  function ParseUnaries(n: nat, nGroups: int, s: seq<bit>): (r: Parsed<seq<int>>)
    requires nGroups > 0
    ensures r.Some? ==> |r.value.0| == n && forall i :: 0 <= i < n ==> 0 <= r.value.0[i] < nGroups
  {
    if n == 0 then Some(([], s))
    else
      var m := ParseUnary(0, nGroups, s);
      if m.None? then None else
        var rest := ParseUnaries(n - 1, nGroups, m.value.1);
        if rest.None? then None else Some(([m.value.0] + rest.value.0, rest.value.1))
  }

  lemma {:induction false} UnaryRoundTrip(j: nat, m: nat, nGroups: int, rest: seq<bit>)
    requires j + m < nGroups
    ensures ParseUnary(j, nGroups, Ones(m) + [0] + rest) == Some((j + m, rest))
    decreases m
  {
    var s := Ones(m) + [0] + rest;
    if m == 0 {
      assert s[0] == 0 && s[1..] == rest;
    } else {
      UnaryRoundTrip(j + 1, m - 1, nGroups, rest);
      assert s[0] == 1 && s[1..] == Ones(m - 1) + [0] + rest;
    }
  }

  lemma {:induction false} UnariesRoundTrip(ms: seq<int>, nGroups: int, rest: seq<bit>)
    requires nGroups > 0 && forall i :: 0 <= i < |ms| ==> 0 <= ms[i] < nGroups
    ensures ParseUnaries(|ms|, nGroups, UnaryBits(ms) + rest) == Some((ms, rest))
  {
    if ms == [] {
      assert UnaryBits(ms) + rest == rest;
    } else {
      UnariesRoundTrip(ms[1..], nGroups, rest);
      UnaryRoundTrip(0, ms[0], nGroups, UnaryBits(ms[1..]) + rest);
      ConcatAssoc(Ones(ms[0]) + [0], UnaryBits(ms[1..]), rest);
      assert [ms[0]] + ms[1..] == ms;
    }
  }

  // ----- Code lengths -----

  /** Steps of one up or down from `curr` to `l`. */
  function StepBits(curr: int, l: int): (s: seq<bit>)
    decreases if curr < l then l - curr else curr - l
  {
    if curr < l then [1, 0] + StepBits(curr + 1, l)
    else if curr > l then [1, 1] + StepBits(curr - 1, l)
    else []
  }

  function DeltaBits(curr: int, lens: seq<int>): (s: seq<bit>)
    decreases |lens|
  {
    if lens == [] then [] else StepBits(curr, lens[0]) + [0] + DeltaBits(lens[0], lens[1..])
  }

  function ParseLen(curr: int, s: seq<bit>): (r: Parsed<int>)
    ensures r.Some? ==> 1 <= r.value.0 <= 20
    decreases |s|
  {
    if curr < 1 || curr > 20 || s == [] then None
    else if s[0] == 0 then Some((curr, s[1..]))
    else if |s| < 2 then None
    else ParseLen(if s[1] == 0 then curr + 1 else curr - 1, s[2..])
  }

  function ParseLens(curr: int, n: nat, s: seq<bit>): (r: Parsed<seq<int>>)
    ensures r.Some? ==> |r.value.0| == n && forall i :: 0 <= i < n ==> 1 <= r.value.0[i] <= 20
    decreases n
  {
    if n == 0 then Some(([], s))
    else
      var l := ParseLen(curr, s);
      if l.None? then None else
        var rest := ParseLens(l.value.0, n - 1, l.value.1);
        if rest.None? then None else Some(([l.value.0] + rest.value.0, rest.value.1))
  }

  lemma {:induction false} LenRoundTrip(curr: int, l: int, rest: seq<bit>)
    requires 1 <= curr <= 20 && 1 <= l <= 20
    ensures ParseLen(curr, StepBits(curr, l) + [0] + rest) == Some((l, rest))
    decreases if curr < l then l - curr else curr - l
  {
    var s := StepBits(curr, l) + [0] + rest;
    if curr == l {
      assert s[0] == 0 && s[1..] == rest;
    } else {
      var next := if curr < l then curr + 1 else curr - 1;
      LenRoundTrip(next, l, rest);
      assert s[0] == 1 && s[2..] == StepBits(next, l) + [0] + rest;
    }
  }

  lemma LensNext(curr: int, n: nat, s: seq<bit>, l: int, tail: seq<bit>, more: seq<int>, rest: seq<bit>)
    requires n > 0 && ParseLen(curr, s) == Some((l, tail)) && ParseLens(l, n - 1, tail) == Some((more, rest))
    ensures ParseLens(curr, n, s) == Some(([l] + more, rest))
  {
  }

  lemma {:induction false} LensRoundTrip(curr: int, lens: seq<int>, rest: seq<bit>)
    requires 1 <= curr <= 20 && forall i :: 0 <= i < |lens| ==> 1 <= lens[i] <= 20
    ensures ParseLens(curr, |lens|, DeltaBits(curr, lens) + rest) == Some((lens, rest))
    decreases |lens|
  {
    if lens == [] {
      assert DeltaBits(curr, lens) + rest == rest;
    } else {
      var l, first := lens[0], StepBits(curr, lens[0]) + [0];
      var tail := DeltaBits(l, lens[1..]) + rest;
      LensRoundTrip(l, lens[1..], rest);
      LenRoundTrip(curr, l, tail);
      ConcatAssoc(first, DeltaBits(l, lens[1..]), rest);
      assert [l] + lens[1..] == lens && DeltaBits(curr, lens) + rest == first + tail;
      LensNext(curr, |lens|, first + tail, l, tail, lens[1..], rest);
    }
  }

  /** Every table has `n` code lengths in the range the decoder accepts. */
  ghost predicate LensOk(tables: seq<seq<int>>, n: int)
  {
    forall t :: 0 <= t < |tables| ==> |tables[t]| == n && Lengths(tables[t], 1, 20)
  }

  function TableBits(tables: seq<seq<int>>): (s: seq<bit>)
    requires forall t :: 0 <= t < |tables| ==> |tables[t]| > 0 && tables[t][0] >= 0
  {
    if tables == [] then []
    else ToBits(tables[0][0], LEN_BITS) + DeltaBits(tables[0][0], tables[0]) + TableBits(tables[1..])
  }

  function ParseTables(nGroups: nat, n: nat, s: seq<bit>): (r: Parsed<seq<seq<int>>>)
    ensures r.Some? ==> |r.value.0| == nGroups && LensOk(r.value.0, n)
  {
    if nGroups == 0 then Some(([], s))
    else
      var curr := Field(s, LEN_BITS);
      if curr.None? then None else
        var lens := ParseLens(curr.value.0, n, curr.value.1);
        if lens.None? then None else
          var rest := ParseTables(nGroups - 1, n, lens.value.1);
          if rest.None? then None else Some(([lens.value.0] + rest.value.0, rest.value.1))
  }

  lemma TableRoundTrip(lens: seq<int>, rest: seq<bit>)
    requires lens != [] && Lengths(lens, 1, 20)
    ensures Field(ToBits(lens[0], LEN_BITS) + DeltaBits(lens[0], lens) + rest, LEN_BITS) ==
      Some((lens[0], DeltaBits(lens[0], lens) + rest))
    ensures ParseLens(lens[0], |lens|, DeltaBits(lens[0], lens) + rest) == Some((lens, rest))
  {
    LensRoundTrip(lens[0], lens, rest);
    assert Pow2(LEN_BITS) == 32;
    FieldOf(lens[0], LEN_BITS, DeltaBits(lens[0], lens) + rest);
    ConcatAssoc(ToBits(lens[0], LEN_BITS), DeltaBits(lens[0], lens), rest);
  }

  lemma TablesNext(m: nat, n: nat, s: seq<bit>, curr: int, s': seq<bit>, lens: seq<int>, tail: seq<bit>,
                   more: seq<seq<int>>, rest: seq<bit>)
    requires m > 0 && Field(s, LEN_BITS) == Some((curr, s')) && ParseLens(curr, n, s') == Some((lens, tail))
    requires ParseTables(m - 1, n, tail) == Some((more, rest))
    ensures ParseTables(m, n, s) == Some(([lens] + more, rest))
  {
  }

  lemma {:induction false} TablesRoundTrip(tables: seq<seq<int>>, n: nat, rest: seq<bit>)
    requires LensOk(tables, n) && n > 0
    ensures ParseTables(|tables|, n, TableBits(tables) + rest) == Some((tables, rest))
  {
    if tables == [] {
      assert TableBits(tables) + rest == rest;
    } else {
      TablesRoundTrip(tables[1..], n, rest);
      var lens := tables[0];
      var tail := TableBits(tables[1..]) + rest;
      var first := ToBits(lens[0], LEN_BITS) + DeltaBits(lens[0], lens);
      TableRoundTrip(lens, tail);
      ConcatAssoc(first, TableBits(tables[1..]), rest);
      assert [lens] + tables[1..] == tables && TableBits(tables) + rest == first + tail;
      TablesNext(|tables|, n, first + tail, lens[0], DeltaBits(lens[0], lens) + tail, lens, tail, tables[1..], rest);
    }
  }

  // ----- Selectors and tables together -----

  datatype Coding = Coding(sels: seq<int>, tables: seq<seq<int>>)

  /** What the encoder guarantees of its tables and selectors for an alphabet of `n` symbols. */
  ghost predicate CodingOk(c: Coding, n: int)
  {
    && 2 <= |c.tables| <= 6 && 1 <= |c.sels| < 32768 && n > 0
    && (forall i :: 0 <= i < |c.sels| ==> 0 <= c.sels[i] < |c.tables|)
    && LensOk(c.tables, n)
  }

  lemma SelectorsOver(c: Coding, n: int)
    requires CodingOk(c, n)
    ensures Over(c.sels, Iota(|c.tables|))
  {
    forall i | 0 <= i < |c.sels|
      ensures c.sels[i] in Iota(|c.tables|)
    {
      assert Iota(|c.tables|)[c.sels[i]] == c.sels[i];
    }
  }

  ghost function SelectorBits(c: Coding, n: int): (s: seq<bit>)
    requires CodingOk(c, n)
  {
    SelectorsOver(c, n);
    ToBits(|c.tables|, GROUPS_BITS) + (ToBits(|c.sels|, COUNT_BITS) + UnaryBits(SelectorMtf(Iota(|c.tables|), c.sels)))
  }

  /** Number of tables, and the selectors (decompress.c:286-314). */
  function ParseSelectors(s: seq<bit>): (r: Parsed<(int, seq<int>)>)
    ensures r.Some? ==> 2 <= r.value.0.0 <= 6
  {
    var g := Field(s, GROUPS_BITS);
    if g.None? || g.value.0 < 2 || g.value.0 > 6 then None else
      var n := Field(g.value.1, COUNT_BITS);
      if n.None? || n.value.0 < 1 then None else
        var ms := ParseUnaries(n.value.0, g.value.0, n.value.1);
        if ms.None? then None
        else Some(((g.value.0, UndoSelectorMtf(Iota(g.value.0), ms.value.0)), ms.value.1))
  }

  lemma SelectorBitsRoundTrip(c: Coding, n: int, rest: seq<bit>)
    requires CodingOk(c, n)
    ensures ParseSelectors(SelectorBits(c, n) + rest) == Some(((|c.tables|, c.sels), rest))
  {
    SelectorsOver(c, n);
    var pos := Iota(|c.tables|);
    var ms := SelectorMtf(pos, c.sels);
    var tail := UnaryBits(ms) + rest;
    assert Pow2(GROUPS_BITS) == 8 && Pow2(COUNT_BITS) == 32768;
    FieldOf(|c.tables|, GROUPS_BITS, ToBits(|c.sels|, COUNT_BITS) + tail);
    FieldOf(|c.sels|, COUNT_BITS, tail);
    UnariesRoundTrip(ms, |c.tables|, rest);
    SelectorsRoundTrip(pos, c.sels);
    ConcatThree(ToBits(|c.tables|, GROUPS_BITS), ToBits(|c.sels|, COUNT_BITS), UnaryBits(ms), rest);
  }

  function ParseCoding(n: nat, s: seq<bit>): (r: Parsed<Coding>)
  {
    var sel := ParseSelectors(s);
    if sel.None? then None else
      var ts := ParseTables(sel.value.0.0, n, sel.value.1);
      if ts.None? then None else Some((Coding(sel.value.0.1, ts.value.0), ts.value.1))
  }

  ghost function CodingBits(c: Coding, n: int): (s: seq<bit>)
    requires CodingOk(c, n)
  {
    SelectorBits(c, n) + TableBits(c.tables)
  }

  lemma CodingRoundTrip(c: Coding, n: int, rest: seq<bit>)
    requires CodingOk(c, n)
    ensures ParseCoding(n, CodingBits(c, n) + rest) == Some((c, rest))
  {
    SelectorBitsRoundTrip(c, n, TableBits(c.tables) + rest);
    ConcatAssoc(SelectorBits(c, n), TableBits(c.tables), rest);
    TablesRoundTrip(c.tables, n, rest);
  }

  // ----- The values, in groups of fifty -----

  const G_SIZE := 50

  /** The selectors the decoder has room for. */
  const MAX_SELECTORS := 18002

  ghost predicate DataOk(c: Coding, n: int, vs: seq<int>)
  {
    CodingOk(c, n) && |vs| <= G_SIZE * |c.sels| && forall k :: 0 <= k < |vs| ==> 0 <= vs[k] < n
  }

  /** The codes of the values from `k` on; each group of fifty uses the table of its selector. */
  ghost function DataBits(c: Coding, n: int, vs: seq<int>, k: nat): (s: seq<bit>)
    requires DataOk(c, n, vs) && k <= |vs|
    decreases |vs| - k
  {
    if k == |vs| then [] else CodeBits(c.tables[c.sels[k / G_SIZE]], vs[k]) + DataBits(c, n, vs, k + 1)
  }

  /** The values up to the end mark, starting with the `k`-th. */
  function ParseData(ts: seq<Table>, sels: seq<int>, k: nat, eob: int, s: seq<bit>): (r: Parsed<seq<int>>)
    requires forall t :: 0 <= t < |ts| ==> TableShape(ts[t])
    requires forall i :: 0 <= i < |sels| ==> 0 <= sels[i] < |ts|
    ensures r.Some? ==> r.value.0 != [] && r.value.0[|r.value.0| - 1] == eob
    decreases G_SIZE * |sels| - k
  {
    if k / G_SIZE >= |sels| then None
    else
      var v := GetSymbol(ts[sels[k / G_SIZE]], s);
      if v.None? then None
      else if v.value.0 == eob then Some(([eob], v.value.1))
      else
        var rest := ParseData(ts, sels, k + 1, eob, v.value.1);
        if rest.None? then None else Some(([v.value.0] + rest.value.0, rest.value.1))
  }

  /** Decoding tables for every table of code lengths. */
  ghost predicate TablesFor(tables: seq<seq<int>>, ts: seq<Table>)
  {
    && |ts| == |tables| && (forall t :: 0 <= t < |ts| ==> TableShape(ts[t]))
    && forall t :: 0 <= t < |ts| ==> Decodes(tables[t], ts[t])
  }

  /** `t` undoes the code of `lens`, whatever bits follow. */
  ghost predicate Decodes(lens: seq<int>, t: Table)
  {
    && TableShape(t) && Lengths(lens, 1, 20)
    && forall i, rest :: 0 <= i < |lens| ==> DecodesTo(lens, t, i, rest)
  }

  ghost predicate DecodesTo(lens: seq<int>, t: Table, i: int, rest: seq<bit>)
    requires TableShape(t) && 0 <= i < |lens| && lens[i] >= 0
  {
    GetSymbol(t, CodeBits(lens, i) + rest) == Some((i, rest))
  }

  /** The end mark comes last and only there. */
  ghost predicate EndsWith(vs: seq<int>, eob: int)
  {
    vs != [] && vs[|vs| - 1] == eob && forall k :: 0 <= k < |vs| - 1 ==> vs[k] != eob
  }

  lemma NextSymbol(c: Coding, n: int, vs: seq<int>, ts: seq<Table>, k: nat, rest: seq<bit>)
    requires DataOk(c, n, vs) && TablesFor(c.tables, ts) && k < |vs|
    ensures GetSymbol(ts[c.sels[k / G_SIZE]], DataBits(c, n, vs, k) + rest) ==
      Some((vs[k], DataBits(c, n, vs, k + 1) + rest))
  {
    var g := c.sels[k / G_SIZE];
    var tail := DataBits(c, n, vs, k + 1) + rest;
    assert Decodes(c.tables[g], ts[g]) && DecodesTo(c.tables[g], ts[g], vs[k], tail);
    ConcatAssoc(CodeBits(c.tables[g], vs[k]), DataBits(c, n, vs, k + 1), rest);
  }

  lemma ParseNext(ts: seq<Table>, sels: seq<int>, k: nat, eob: int, s: seq<bit>, v: int, s': seq<bit>)
    requires forall t :: 0 <= t < |ts| ==> TableShape(ts[t])
    requires forall i :: 0 <= i < |sels| ==> 0 <= sels[i] < |ts|
    requires k / G_SIZE < |sels| && GetSymbol(ts[sels[k / G_SIZE]], s) == Some((v, s'))
    ensures v == eob ==> ParseData(ts, sels, k, eob, s) == Some(([eob], s'))
    ensures v != eob && ParseData(ts, sels, k + 1, eob, s').Some? ==>
      var r := ParseData(ts, sels, k + 1, eob, s').value;
      ParseData(ts, sels, k, eob, s) == Some(([v] + r.0, r.1))
  {
  }

  lemma HeadOfTail<T>(s: seq<T>, k: int)
    requires 0 <= k < |s|
    ensures [s[k]] + s[k + 1..] == s[k..] && (k == |s| - 1 ==> s[k..] == [s[k]])
  {
  }

  lemma {:induction false} DataRoundTrip(c: Coding, n: int, vs: seq<int>, ts: seq<Table>, k: nat, eob: int,
                                         rest: seq<bit>)
    requires DataOk(c, n, vs) && TablesFor(c.tables, ts) && EndsWith(vs, eob) && k < |vs|
    ensures ParseData(ts, c.sels, k, eob, DataBits(c, n, vs, k) + rest) == Some((vs[k..], rest))
    decreases |vs| - k
  {
    NextSymbol(c, n, vs, ts, k, rest);
    ParseNext(ts, c.sels, k, eob, DataBits(c, n, vs, k) + rest, vs[k], DataBits(c, n, vs, k + 1) + rest);
    HeadOfTail(vs, k);
    if k == |vs| - 1 {
      assert DataBits(c, n, vs, k + 1) + rest == rest;
    } else {
      DataRoundTrip(c, n, vs, ts, k + 1, eob, rest);
    }
  }

  // ----- Everything before the values -----

  datatype Head = Head(crc: int, randomised: int, origPtr: int)

  const CRC_BITS: nat := 32
  const PTR_BITS: nat := 24

  ghost predicate HeadOk(h: Head, blockSize100k: int)
  {
    && 0 <= h.crc < Pow2(CRC_BITS) && 0 <= h.randomised < 2
    && 0 <= h.origPtr < Pow2(PTR_BITS) && h.origPtr <= 10 + 100000 * blockSize100k
  }

  function HeadBits(h: Head): (s: seq<bit>)
    requires 0 <= h.crc && 0 <= h.randomised && 0 <= h.origPtr
  {
    ToBits(h.crc, CRC_BITS) + (ToBits(h.randomised, 1) + ToBits(h.origPtr, PTR_BITS))
  }

  function ParseHead(blockSize100k: int, s: seq<bit>): (r: Parsed<Head>)
  {
    var crc := Field(s, CRC_BITS);
    if crc.None? then None else
      var rand := Field(crc.value.1, 1);
      if rand.None? then None else
        var ptr := Field(rand.value.1, PTR_BITS);
        if ptr.None? || ptr.value.0 > 10 + 100000 * blockSize100k then None
        else Some((Head(crc.value.0, rand.value.0, ptr.value.0), ptr.value.1))
  }

  lemma HeadRoundTrip(h: Head, blockSize100k: int, rest: seq<bit>)
    requires HeadOk(h, blockSize100k)
    ensures ParseHead(blockSize100k, HeadBits(h) + rest) == Some((h, rest))
  {
    var ptr := ToBits(h.origPtr, PTR_BITS) + rest;
    var rand := ToBits(h.randomised, 1) + ptr;
    ConcatThree(ToBits(h.crc, CRC_BITS), ToBits(h.randomised, 1), ToBits(h.origPtr, PTR_BITS), rest);
    FieldOf(h.crc, CRC_BITS, rand);
    FieldOf(h.randomised, 1, ptr);
    FieldOf(h.origPtr, PTR_BITS, rest);
  }

  /** Bytes in use, the second run symbol and the end mark. */
  function AlphaSize(inUse: seq<bool>): (n: int)
    ensures 2 <= n <= |inUse| + 2
  {
    NumUsed(inUse, |inUse|) + 2
  }

  datatype Front = Front(head: Head, inUse: seq<bool>, coding: Coding)

  ghost predicate FrontOk(f: Front, blockSize100k: int)
  {
    && HeadOk(f.head, blockSize100k) && |f.inUse| == 256 && AlphaSize(f.inUse) > 2
    && CodingOk(f.coding, AlphaSize(f.inUse))
  }

  ghost function FrontBits(f: Front, blockSize100k: int): (s: seq<bit>)
    requires FrontOk(f, blockSize100k)
  {
    HeadBits(f.head) + (MapBits(f.inUse) + CodingBits(f.coding, AlphaSize(f.inUse)))
  }

  function ParseFront(blockSize100k: int, s: seq<bit>): (r: Parsed<Front>)
  {
    var h := ParseHead(blockSize100k, s);
    if h.None? then None else
      var m := ParseMap(h.value.1);
      if m.None? || AlphaSize(m.value.0) == 2 then None else
        var c := ParseCoding(AlphaSize(m.value.0), m.value.1);
        if c.None? then None else Some((Front(h.value.0, m.value.0, c.value.0), c.value.1))
  }

  lemma FrontRoundTrip(f: Front, blockSize100k: int, rest: seq<bit>)
    requires FrontOk(f, blockSize100k)
    ensures ParseFront(blockSize100k, FrontBits(f, blockSize100k) + rest) == Some((f, rest))
  {
    var n := AlphaSize(f.inUse);
    var coding := CodingBits(f.coding, n) + rest;
    var map' := MapBits(f.inUse) + coding;
    ConcatThree(HeadBits(f.head), MapBits(f.inUse), CodingBits(f.coding, n), rest);
    HeadRoundTrip(f.head, blockSize100k, map');
    MapRoundTrip(f.inUse, coding);
    CodingRoundTrip(f.coding, n, rest);
  }

  // ----- Fixed bytes -----

  lemma ByteFits(b: byte)
    ensures b < Pow2(BYTE_BITS) == 256
  {
    assert Pow2(4) == 16;
    Pow2Add(4, 4);
  }
}
