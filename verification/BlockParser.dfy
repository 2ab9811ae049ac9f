/** BZ2_decompress inside a block (decompress.c:241-485): a parser that takes one field at a time and can stop
    after any. */
module BlockParser {
  import opened Basics
  import opened Bits
  import opened BitStream
  import opened InverseBwt
  import opened MoveToFront
  import opened MtfEncoder
  import opened HuffmanCodes
  import opened BlockFormat
  import opened FrontReader
  import opened BlockReader
  import opened ColumnDecoder
  import opened BlockCodec

  /** Like `Opened`, for what is known about the block ahead. */
  ghost predicate OpenedOrigin(i: int) { true }

  /** What a block was made of. */
  datatype Origin = Origin(blk: seq<byte>, crc: int, size: int, ptr: seq<int>, f: Front, vs: seq<int>)
  {
    ghost predicate Valid()
    {
      1 <= size <= 9 && |f.inUse| == 256 && forall i {:trigger OpenedOrigin(i)} :: OpenedOrigin(i) ==> Made()
    }

    ghost predicate Made()
    {
      Recipe(blk, crc, size, ptr, f, vs) && |blk| <= 100000 * size
    }

    function Eob(): (v: int) { AlphaSize(f.inUse) - 1 }

    ghost function Column(): (l: seq<byte>)
    {
      if Made() then LastColumn(blk, ptr) else []
    }

    /** The bits of the values, and what follows. */
    ghost function Data(rest: seq<bit>): (s: seq<bit>)
    {
      if Made() then DataBits(f.coding, AlphaSize(f.inUse), vs, 0) + rest else rest
    }

    /** All bits of the block, and what follows. */
    ghost function Bits(rest: seq<bit>): (s: seq<bit>)
    {
      if Made() then RecipeBits(f, vs, size) + rest else rest
    }

    lemma Values()
      requires Valid()
      ensures 1 < Eob() <= 257 && EndsWith(vs, Eob()) && forall k :: 0 <= k < |vs| ==> 0 <= vs[k] <= Eob()
      ensures Decode(Iota(256), vs, Eob()) == Some(Dense(f.inUse, Column()))
    {
      assert OpenedOrigin(0);
      ValuesDecode(LastColumn(blk, ptr), f.inUse, vs);
    }

    lemma ParsesData(ts: seq<Table>, rest: seq<bit>)
      requires Made() && |ts| == |f.coding.tables| && forall t :: 0 <= t < |ts| ==> TableShape(ts[t])
      requires forall t :: 0 <= t < |ts| && KraftOk(f.coding.tables[t]) ==> Decodes(f.coding.tables[t], ts[t])
      ensures Coded(ts, f.coding.sels) && ParseData(ts, f.coding.sels, 0, Eob(), Data(rest)) == Some((vs, rest))
    {
      TablesDecode(blk, crc, size, ptr, f, vs, ts);
      RecipeData(blk, crc, size, ptr, f, vs, ts, rest);
    }

    lemma FrontShape()
      requires Valid()
      ensures LensOk(f.coding.tables, AlphaSize(f.inUse)) && 2 < AlphaSize(f.inUse) <= 258
    {
      assert OpenedOrigin(0);
    }
  }

  // ----- The front -----

  ghost predicate FrontAhead(g: Origin, p: FrontAt, s: seq<bit>, rest: seq<bit>)
  {
    g.Valid() && Waiting(p) && Gives(g.size, Wait(p), s, Some((g.f, g.Data(rest))))
  }

  lemma FrontStarts(g: Origin, rest: seq<bit>)
    requires g.Valid()
    ensures FrontAhead(g, BlockCrc(0, 0), g.Bits(rest), rest)
  {
    assert OpenedOrigin(0);
    RecipeParses(g.blk, g.crc, g.size, g.ptr, g.f, g.vs, rest);
    FrontRun(g.size, RecipeBits(g.f, g.vs, g.size) + rest);
  }

  lemma FrontTakes(g: Origin, p: FrontAt, s: seq<bit>, rest: seq<bit>)
    requires FrontAhead(g, p, s, rest)
    ensures Field(s, Width(p)).Some?
    ensures var f := Field(s, Width(p)).value;
      var r := Step(g.size, p, f.0);
      && !r.Reject? && (r.Wait? ==> FrontAhead(g, r.at, f.1, rest))
        && (r.Done? ==> r.result == g.f && f.1 == g.Data(rest))
  {
    FrontStep(g.size, p, s, Some((g.f, g.Data(rest))));
    var f := Field(s, Width(p)).value;
    GivesOutcome(g.size, Step(g.size, p, f.0), f.1, Some((g.f, g.Data(rest))));
  }

  lemma FrontLong(g: Origin, p: FrontAt, s: seq<bit>, rest: seq<bit>)
    requires FrontAhead(g, p, s, rest)
    ensures |s| >= |rest|
  {
    GivesOutcome(g.size, Wait(p), s, Some((g.f, g.Data(rest))));
    OutcomeShortens(g.size, Wait(p), s);
  }

  lemma SelectorsAnnounced(g: Origin, p: FrontAt, s: seq<bit>, rest: seq<bit>)
    requires FrontAhead(g, p, s, rest) && p.Selector3?
    ensures |p.ms| < p.nSelectors <= MAX_SELECTORS
  {
    GivesOutcome(g.size, Wait(p), s, Some((g.f, g.Data(rest))));
    AnnouncedCount(g.size, Wait(p), s);
    assert OpenedOrigin(0);
  }

  /** The field waited for lies before `rest`. */
  lemma FrontFieldBefore(g: Origin, p: FrontAt, s: seq<bit>, rest: seq<bit>)
    requires FrontAhead(g, p, s, rest)
    ensures |s| >= Width(p) + |rest|
  {
    FrontTakes(g, p, s, rest);
    var f := Field(s, Width(p)).value;
    var r := Step(g.size, p, f.0);
    if r.Wait? {
      FrontLong(g, r.at, f.1, rest);
    }
  }

  // ----- The values -----

  ghost predicate DataAhead(g: Origin, ts: seq<Table>, k: int, c: CodeAt, s: seq<bit>, rest: seq<bit>)
  {
    && g.Valid() && Coded(ts, g.f.coding.sels) && Reading(g.f.coding.sels, c) && 0 <= k < |g.vs|
    && forall i {:trigger OpenedOrigin(i)} :: OpenedOrigin(i) ==>
      ValuesAhead(ts, g.f.coding.sels, k, g.Eob(), c, s, g.vs[k..], rest)
  }

  lemma DataStarts(g: Origin, ts: seq<Table>, rest: seq<bit>)
    requires g.Valid() && |ts| == |g.f.coding.tables| && LensOk(g.f.coding.tables, AlphaSize(g.f.inUse))
    requires forall t :: 0 <= t < |ts| ==> TableShape(ts[t])
    requires forall t :: 0 <= t < |ts| && KraftOk(g.f.coding.tables[t]) ==> Decodes(g.f.coding.tables[t], ts[t])
    ensures var r := NextCode(|g.f.coding.sels|, -1, 0); r.Wait? && DataAhead(g, ts, 0, r.at, g.Data(rest), rest)
  {
    assert g.Made() by { assert OpenedOrigin(0); }
    g.ParsesData(ts, rest);
    g.Values();
    assert g.vs[0..] == g.vs;
    ValueStarts(ts, g.f.coding.sels, 0, g.Eob(), -1, 0, g.Data(rest), g.vs, rest);
  }

  lemma DataTakes(g: Origin, ts: seq<Table>, k: int, c: CodeAt, s: seq<bit>, rest: seq<bit>)
    requires DataAhead(g, ts, k, c, s, rest)
    ensures Field(s, CodeWidth(ts, g.f.coding.sels, c)).Some?
    ensures var f := Field(s, CodeWidth(ts, g.f.coding.sels, c)).value;
      var r := StepCode(ts, g.f.coding.sels, c, f.0);
      && !r.Reject? && (r.Wait? ==> DataAhead(g, ts, k, r.at, f.1, rest))
      && (r.Done? ==> r.result == g.vs[k] && Taken(g, ts, k, c, f.1, rest))
  {
    assert OpenedOrigin(0);
    ValueStep(ts, g.f.coding.sels, k, g.Eob(), c, s, g.vs[k..], rest);
    g.Values();
    var f := Field(s, CodeWidth(ts, g.f.coding.sels, c)).value;
    if StepCode(ts, g.f.coding.sels, c, f.0).Done? {
      assert g.vs[k..][1..] == g.vs[k + 1..];
    }
  }

  /** The `k`-th value is read. */
  ghost predicate Taken(g: Origin, ts: seq<Table>, k: int, c: CodeAt, s: seq<bit>, rest: seq<bit>)
    requires g.Valid() && 0 <= k < |g.vs|
  {
    if g.vs[k] == g.Eob() then k == |g.vs| - 1 && s == rest
    else
      var r := NextCode(|g.f.coding.sels|, c.groupNo, c.groupPos);
      r.Wait? && DataAhead(g, ts, k + 1, r.at, s, rest)
  }

  lemma DataLong(g: Origin, ts: seq<Table>, k: int, c: CodeAt, s: seq<bit>, rest: seq<bit>)
    requires DataAhead(g, ts, k, c, s, rest)
    ensures |s| >= |rest|
  {
    assert OpenedOrigin(0);
    ValuesShorten(ts, g.f.coding.sels, k, g.Eob(), c, s, g.vs[k..], rest);
  }

  lemma DataFieldBefore(g: Origin, ts: seq<Table>, k: int, c: CodeAt, s: seq<bit>, rest: seq<bit>)
    requires DataAhead(g, ts, k, c, s, rest)
    ensures |s| >= CodeWidth(ts, g.f.coding.sels, c) + |rest|
  {
    DataTakes(g, ts, k, c, s, rest);
    var f := Field(s, CodeWidth(ts, g.f.coding.sels, c)).value;
    var r := StepCode(ts, g.f.coding.sels, c, f.0);
    if r.Wait? {
      DataLong(g, ts, k, r.at, f.1, rest);
    } else if g.vs[k] != g.Eob() {
      DataLong(g, ts, k + 1, NextCode(|g.f.coding.sels|, c.groupNo, c.groupPos).at, f.1, rest);
    }
  }

  // ----- The column -----

  ghost predicate ColumnAhead(g: Origin, k: int, c: Progress)
  {
    && g.Valid() && 0 <= k < |g.vs| && WellFormed(c)
    && forall i {:trigger OpenedOrigin(i)} :: OpenedOrigin(i) ==>
         Completed(c, g.vs[k..], g.Eob()) == Some(Dense(g.f.inUse, g.Column()))
  }

  lemma ColumnStarts(g: Origin)
    requires g.Valid()
    ensures ColumnAhead(g, 0, START)
  {
    g.Values();
    Starting(g.vs, g.Eob());
    assert g.vs[0..] == g.vs;
  }

  lemma ColumnGoesOn(g: Origin, k: int, c: Progress)
    requires g.Valid() && 0 <= k < |g.vs| && WellFormed(c)
    requires Completed(c, g.vs[k..], g.Eob()) == Some(Dense(g.f.inUse, g.Column()))
    ensures ColumnAhead(g, k, c)
  {
  }

  lemma ColumnFacts(g: Origin, k: int, c: Progress)
    requires ColumnAhead(g, k, c)
    ensures 1 < g.Eob() <= 257 && 0 <= g.vs[k] <= g.Eob() && (g.vs[k] != g.Eob() ==> k + 1 < |g.vs|)
    ensures Completed(c, g.vs[k..], g.Eob()) == Some(Dense(g.f.inUse, g.Column()))
    ensures |Dense(g.f.inUse, g.Column())| <= 100000 * g.size
  {
    assert OpenedOrigin(0);
    g.Values();
  }

  lemma ColumnTakes(g: Origin, k: int, c: Progress)
    requires ColumnAhead(g, k, c)
    ensures 1 < g.Eob() <= 257 && 0 <= g.vs[k] <= g.Eob()
    ensures var c' := TakeValue(c, g.vs[k], g.Eob());
      && |c'.done| <= 100000 * g.size
      && if g.vs[k] == g.Eob() then c'.done == Dense(g.f.inUse, g.Column()) else ColumnAhead(g, k + 1, c')
  {
    ColumnFacts(g, k, c);
    var v, rest, whole := g.vs[k], g.vs[k + 1..], Dense(g.f.inUse, g.Column());
    assert [v] + rest == g.vs[k..];
    TakeOne(c, v, rest, g.Eob(), whole);
    if v != g.Eob() {
      ColumnGoesOn(g, k + 1, TakeValue(c, v, g.Eob()));
    }
  }

  // ----- What is ahead of the parser -----

  datatype BlockAt = InFront(p: FrontAt) | InData(c: CodeAt) | Ready

  /** Like `Opened`, for what is ahead of a parser. */
  ghost predicate OpenedView(i: int) { true }

  /** A parser of block `g` at `at`, with `k` values taken and the column at `c`, has the bits `s` before it, and then
      `rest`. */
  datatype View = View(g: Origin, rest: seq<bit>, at: BlockAt, s: seq<bit>, ts: seq<Table>, k: int, c: Progress)
  {
    ghost predicate Ok()
    {
      g.Valid() && forall i {:trigger OpenedView(i)} :: OpenedView(i) ==> Inside()
    }

    ghost predicate Inside()
    {
      match at
      case InFront(p) => FrontAhead(g, p, s, rest)
      case InData(c') => DataAhead(g, ts, k, c', s, rest) && ColumnAhead(g, k, c)
      case Ready => s == rest && g.Valid() && c.done == Dense(g.f.inUse, g.Column())
    }

    /** The width of the next field. */
    ghost function Width(): (n: nat)
    {
      match at
      case InFront(p) => FrontReader.Width(p)
      case InData(c') =>
        if Coded(ts, g.f.coding.sels) && Reading(g.f.coding.sels, c') then CodeWidth(ts, g.f.coding.sels, c') else 1
      case Ready => 1
    }
  }

  /** Such a view is true. As a type, so that a proof that only passes it on need not prove it again. */
  type Sight = x: Option<View> | (x.Some? ==> x.value.Ok()) ghost witness None

  lemma StartView(g: Origin, rest: seq<bit>) returns (y: Sight)
    requires g.Valid()
    ensures y == Some(View(g, rest, InFront(BlockCrc(0, 0)), g.Bits(rest), [], 0, START))
  {
    FrontStarts(g, rest);
    var v := View(g, rest, InFront(BlockCrc(0, 0)), g.Bits(rest), [], 0, START);
    assert v.Inside();
    y := Some(v);
  }

  /** Until the block is read its next field is ahead, before what follows the block. */
  lemma FieldBefore(x: Sight)
    requires x.Some? && x.value.at != Ready
    ensures |x.value.s| >= x.value.Width() + |x.value.rest|
  {
    assert OpenedView(0);
    var v := x.value;
    match v.at
    case InFront(p) => FrontFieldBefore(v.g, p, v.s, v.rest);
    case InData(c') => DataFieldBefore(v.g, v.ts, v.k, c', v.s, v.rest);
  }

  /** One field of the front. */
  lemma FrontMoves(x: Sight) returns (y: Sight)
    requires x.Some? && x.value.at.InFront? && Waiting(x.value.at.p)
    ensures Field(x.value.s, Width(x.value.at.p)).Some?
    ensures var v, f := x.value, Field(x.value.s, Width(x.value.at.p)).value;
      var r := Step(v.g.size, v.at.p, f.0);
      && !r.Reject?
      && (r.Wait? ==> Waiting(r.at) && y == Some(v.(at := InFront(r.at), s := f.1)))
      && (r.Done? ==> r.result == v.g.f && f.1 == v.g.Data(v.rest))
  {
    assert OpenedView(0);
    var v := x.value;
    FrontTakes(v.g, v.at.p, v.s, v.rest);
    var f := Field(v.s, Width(v.at.p)).value;
    var r := Step(v.g.size, v.at.p, f.0);
    y := None;
    if r.Wait? {
      var w := v.(at := InFront(r.at), s := f.1);
      assert w.Inside();
      y := Some(w);
    }
  }

  /** The front is read, and there are tables for it. */
  lemma DataView(g: Origin, rest: seq<bit>, ts: seq<Table>) returns (y: Sight)
    requires g.Valid() && LensOk(g.f.coding.tables, AlphaSize(g.f.inUse))
    requires |ts| == |g.f.coding.tables| && forall t :: 0 <= t < |ts| ==> TableShape(ts[t])
    requires forall t :: 0 <= t < |ts| && KraftOk(g.f.coding.tables[t]) ==> Decodes(g.f.coding.tables[t], ts[t])
    ensures var r := NextCode(|g.f.coding.sels|, -1, 0);
      && r.Wait? && Coded(ts, g.f.coding.sels) && Reading(g.f.coding.sels, r.at)
      && y == Some(View(g, rest, InData(r.at), g.Data(rest), ts, 0, START))
  {
    DataStarts(g, ts, rest);
    ColumnStarts(g);
    var r := NextCode(|g.f.coding.sels|, -1, 0);
    var v := View(g, rest, InData(r.at), g.Data(rest), ts, 0, START);
    assert v.Inside();
    y := Some(v);
  }

  /** One field of a code, which may complete a value and with it the block. */
  lemma CodeMoves(x: Sight) returns (y: Sight)
    requires x.Some? && x.value.at.InData? && Coded(x.value.ts, x.value.g.f.coding.sels)
    requires Reading(x.value.g.f.coding.sels, x.value.at.c)
    ensures Field(x.value.s, CodeWidth(x.value.ts, x.value.g.f.coding.sels, x.value.at.c)).Some?
    ensures var v, f := x.value, Field(x.value.s, CodeWidth(x.value.ts, x.value.g.f.coding.sels, x.value.at.c)).value;
      var r := StepCode(v.ts, v.g.f.coding.sels, v.at.c, f.0);
      && !r.Reject?
      && (r.Wait? ==> y == Some(v.(at := InData(r.at), s := f.1)))
      && (r.Done? ==> ValueMoves(v, r.result, f.1, y))
  {
    assert OpenedView(0);
    var v := x.value;
    DataTakes(v.g, v.ts, v.k, v.at.c, v.s, v.rest);
    var f := Field(v.s, CodeWidth(v.ts, v.g.f.coding.sels, v.at.c)).value;
    var r := StepCode(v.ts, v.g.f.coding.sels, v.at.c, f.0);
    if r.Wait? {
      var w := v.(at := InData(r.at), s := f.1);
      assert w.Inside();
      y := Some(w);
    } else {
      y := TakeView(v, f.1);
    }
  }

  /** What a value does: the column takes it, and the next one begins or the block is complete. */
  ghost predicate ValueMoves(v: View, value: int, s': seq<bit>, y: Sight)
    requires v.at.InData?
  {
    && 1 < v.g.Eob() <= 257 && 0 <= value <= v.g.Eob() && WellFormed(v.c)
    && var c' := TakeValue(v.c, value, v.g.Eob());
      && |c'.done| <= 100000 * v.g.size
      && if value == v.g.Eob() then y == Some(v.(at := Ready, s := s', c := c'))
         else
           var r := NextCode(|v.g.f.coding.sels|, v.at.c.groupNo, v.at.c.groupPos);
           && r.Wait? && Reading(v.g.f.coding.sels, r.at)
           && y == Some(v.(at := InData(r.at), s := s', k := v.k + 1, c := c'))
  }

  lemma TakeView(v: View, s': seq<bit>) returns (y: Sight)
    requires v.g.Valid() && v.at.InData? && ColumnAhead(v.g, v.k, v.c) && Taken(v.g, v.ts, v.k, v.at.c, s', v.rest)
    ensures ValueMoves(v, v.g.vs[v.k], s', y)
  {
    ColumnTakes(v.g, v.k, v.c);
    var value := v.g.vs[v.k];
    var c' := TakeValue(v.c, value, v.g.Eob());
    var w;
    if value == v.g.Eob() {
      w := v.(at := Ready, s := s', c := c');
    } else {
      var next := NextCode(|v.g.f.coding.sels|, v.at.c.groupNo, v.at.c.groupPos).at;
      w := v.(at := InData(next), s := s', k := v.k + 1, c := c');
    }
    assert w.Inside();
    y := Some(w);
  }

  lemma ReadyView(x: Sight)
    requires x.Some? && x.value.at == Ready
    ensures var v := x.value; v.s == v.rest && v.g.Valid() && v.c.done == Dense(v.g.f.inUse, v.g.Column())
  {
    assert OpenedView(0);
  }

  // ----- The parser -----

  /** The column of block `g` is being put together. */
  ghost predicate Gathers(g: Origin, col: ColumnBuilder)
    reads col, col.repr
  {
    g.Valid() && col.Valid() && col.eob == g.Eob() && col.nblockMAX == 100000 * g.size
      && Numbered(g.f.inUse, col.seqToUnseq, 256)
  }

  /** The finished column is that of the block. */
  lemma Gathered(g: Origin, col: ColumnBuilder)
    requires Gathers(g, col) && col.c.done == Dense(g.f.inUse, g.Column())
    ensures col.l == g.Column() && Counted(col.l, col.unzftab[..]) && col.unzftab in col.repr
    ensures |col.l| == |g.blk| && 0 <= g.f.head.origPtr < |g.blk|
  {
    col.Holds();
    assert OpenedOrigin(0);
    ColumnInUse(g.blk, g.ptr, g.f.inUse);
    DenseBack(g.f.inUse, g.Column(), col.seqToUnseq, col.l);
  }

  lemma ColumnAccumulates(g: Origin, k: int, col: ColumnBuilder)
    requires Gathers(g, col) && ColumnAhead(g, k, col.c)
    ensures col.inRun ==> 0 <= col.es < 100000 * g.size && 2 <= col.N <= 100000 * g.size + 1
  {
    assert OpenedOrigin(0);
    g.Values();
    col.Accumulator(g.vs[k..]);
  }

  /** Like `Opened`, for the invariant of the parser. */
  ghost predicate OpenedBlock(i: int) { true }

  class Parser {
    const size: int
    var at: BlockAt
    var front: Front
    var ts: seq<Table>
    var col: ColumnBuilder?
    ghost const g: Origin
    /** What follows the block. */
    ghost const rest: seq<bit>
    ghost var view: Sight

    /** `s` is ahead in the input: the rest of the block, and `rest` after it. */
    ghost predicate Valid(s: seq<bit>)
      reads this, col, if col == null then {} else col.repr
    {
      && (at.InFront? ==> Waiting(at.p))
        && (at.InData? ==> Coded(ts, front.coding.sels) && Reading(front.coding.sels, at.c))
      && forall i {:trigger OpenedBlock(i)} :: OpenedBlock(i) ==> Inside(s)
    }

    ghost predicate Inside(s: seq<bit>)
      reads this, col, if col == null then {} else col.repr
    {
      && g.Valid() && size == g.size && view.Some? && view.value.g == g && view.value.rest == rest
      && view.value.at == at && view.value.s == s
      && if at.InFront? then Waiting(at.p) else Collects()
    }

    /** Behind the front. */
    ghost predicate Collects()
      reads this, col, if col == null then {} else col.repr
    {
      && front == g.f && view.Some? && view.value.ts == ts
        && (at.InData? ==> Coded(ts, front.coding.sels) && Reading(front.coding.sels, at.c))
      && col != null && this !in col.repr && Gathers(g, col) && view.value.c == col.c
    }

    constructor (size: int, ghost g: Origin, ghost rest: seq<bit>)
      requires g.Valid() && size == g.size
      ensures Valid(g.Bits(rest)) && this.g == g && this.rest == rest && this.size == size && at != Ready && col == null
    {
      this.size, this.g, this.rest, at, col := size, g, rest, InFront(BlockCrc(0, 0)), null;
      front, ts := Front(Head(0, 0, 0), [], Coding([], [])), [];
      ghost var x := StartView(g, rest);
      view := x;
      new;
      assert Inside(g.Bits(rest));
    }

    /** The width of the field the parser waits for. */
    function NextWidth(): (n: int)
      requires at.InFront? ==> Waiting(at.p)
      requires at.InData? ==> Coded(ts, front.coding.sels) && Reading(front.coding.sels, at.c)
      reads this
      ensures 1 <= n <= 20
    {
      match at
      case InFront(p) => Width(p)
      case InData(c) => CodeWidth(ts, front.coding.sels, c)
      case Ready => 1
    }

    /** Until the block is read its next field is ahead, before what follows the block. */
    lemma HasField(s: seq<bit>)
      requires Valid(s) && at != Ready
      ensures |s| >= NextWidth() + |rest|
    {
      assert OpenedBlock(0);
      FieldBefore(view);
    }

    /** While selectors are read, the place of the next one is within `selectorMtf`. */
    lemma SelectorsFit(s: seq<bit>)
      requires Valid(s) && at.InFront? && at.p.Selector3?
      ensures |at.p.ms| < at.p.nSelectors <= 18002
    {
      assert OpenedBlock(0) && OpenedView(0);
      SelectorsAnnounced(g, at.p, s, rest);
    }

    /** Inside a run the accumulator stays within the size of the block, far below the limit of 32 bits. */
    lemma Accumulates(s: seq<bit>)
      requires Valid(s) && at.InData?
      ensures col != null && (col.inRun ==> 0 <= col.es < 100000 * size && 2 <= col.N <= 100000 * size + 1)
    {
      assert OpenedBlock(0) && OpenedView(0);
      ColumnAccumulates(g, view.value.k, col);
    }

    /** One field. */
    method Accept(v: int, ghost s: seq<bit>, ghost s': seq<bit>) returns (ok: bool)
      requires Valid(s) && at != Ready && Field(s, NextWidth()) == Some((v, s'))
      modifies this, col, if col == null then {} else col.repr
      ensures ok && Valid(s') && Grown()
    {
      assert OpenedBlock(0);
      if at.InFront? {
        ok := AcceptFront(v, s, s');
      } else {
        ok := AcceptCode(v, s, s');
      }
    }

    /** The column under construction is that of the call before, or a new one. */
    twostate predicate Grown()
      reads this
    {
      col == old(col) || (col != null && fresh(col) && fresh(col.repr))
    }

    method AcceptFront(v: int, ghost s: seq<bit>, ghost s': seq<bit>) returns (ok: bool)
      requires Inside(s) && at.InFront? && Field(s, Width(at.p)) == Some((v, s'))
      modifies this
      ensures ok && Valid(s') && Grown()
    {
      ghost var y := FrontMoves(view);
      var r := StepFront(size, at.p, v);
      ok := !r.Reject?;
      if r.Wait? {
        at := InFront(r.at);
        view := y;
      } else {
        StartData(r.result);
      }
    }

    /** Decoding tables, the alphabet and the empty column (decompress.c:282, 331-372). */
    method StartData(f: Front)
      requires g.Valid() && size == g.size && f == g.f
      modifies this
      ensures Valid(g.Data(rest)) && Grown()
    {
      g.Values();
      g.FrontShape();
      front := f;
      ts := CreateTables(f.coding.tables, AlphaSize(f.inUse));
      view := DataView(g, rest, ts);
      var seqToUnseq, nInUse := MakeMapsD(f.inUse);
      col := new ColumnBuilder(nInUse + 1, 100000 * size, seqToUnseq);
      at := InData(NextCode(|f.coding.sels|, -1, 0).at);
    }

    method AcceptCode(v: int, ghost s: seq<bit>, ghost s': seq<bit>) returns (ok: bool)
      requires Inside(s) && at.InData? && Field(s, CodeWidth(ts, front.coding.sels, at.c)) == Some((v, s'))
      modifies this`at, this`view, col, col.repr
      ensures ok && Valid(s')
    {
      ghost var y := CodeMoves(view);
      var r := StepCode(ts, front.coding.sels, at.c, v);
      ok := !r.Reject?;
      if r.Wait? {
        at := InData(r.at);
        view := y;
      } else {
        ok := TakeSymbol(r.result, s', y);
      }
    }

    /** A whole value: into the column, and on to the next value or to the end of the block. */
    method TakeSymbol(v: int, ghost s': seq<bit>, ghost y: Sight) returns (ok: bool)
      requires g.Valid() && size == g.size && view.Some? && view.value.g == g && view.value.rest == rest
      requires view.value.at == at && at.InData? && Collects()
      requires ValueMoves(view.value, v, s', y)
      modifies this`at, this`view, col, col.repr
      ensures ok && Valid(s')
    {
      var verdict := col.Take(v);
      if verdict == Failed { return false; }
      if verdict == Finished {
        ReadyView(y);
        Gathered(g, col);
        at := Ready;
        ok := front.head.origPtr < |col.l|;
      } else {
        var r := NextCode(|front.coding.sels|, at.c.groupNo, at.c.groupPos);
        if r.Reject? { return false; }
        at := InData(r.at);
        ok := true;
      }
      view := y;
    }

    /** The block is read: its last column, the byte counts and the row are those of the block. */
    lemma Complete(s: seq<bit>)
      requires Valid(s) && at == Ready
      ensures s == rest && g.Valid() && size == g.size && front == g.f && col != null && col.unzftab in col.repr
      ensures col.l == g.Column() && Counted(col.l, col.unzftab[..])
    {
      assert OpenedBlock(0);
      ReadyView(view);
      Gathered(g, col);
    }
  }
}
