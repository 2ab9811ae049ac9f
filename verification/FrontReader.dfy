/** BZ2_decompress from the block header to the coding tables (decompress.c:241-329), as the resumable machine it is:
    a label with the saved locals, advanced by one GET_BITS at a time. */
module FrontReader {
  import opened Basics
  import opened Bits
  import opened BitStream
  import opened BlockFormat

  /** After a field: the block is rejected, the parser waits for the next field, or it has its result. */
  datatype Next<+S, +R> = Reject | Wait(at: S) | Done(result: R)

  /** The labels of the source, each with the locals that matter there. */
  datatype FrontAt =
    | BlockCrc(k: int, crc: int)
    | RandBit(crc: int)
    | OrigPtr(k: int, crc: int, rand: int, ptr: int)
    | Mapping1(h: Head, u: seq<bool>)
    | Mapping2(h: Head, u: seq<bool>, i: int, used: seq<bool>, row: seq<bool>)
    | Selector1(h: Head, inUse: seq<bool>)
    | Selector2(h: Head, inUse: seq<bool>, nGroups: int)
    | Selector3(h: Head, inUse: seq<bool>, nGroups: int, nSelectors: int, ms: seq<int>, j: int)
    | Coding1(h: Head, inUse: seq<bool>, nGroups: int, sels: seq<int>, tables: seq<seq<int>>)
    | Coding2(h: Head, inUse: seq<bool>, nGroups: int, sels: seq<int>, tables: seq<seq<int>>, lens: seq<int>, curr: int)
    | Coding3(h: Head, inUse: seq<bool>, nGroups: int, sels: seq<int>, tables: seq<seq<int>>, lens: seq<int>, curr: int)

  predicate Alphabet(inUse: seq<bool>) { |inUse| == 256 && AlphaSize(inUse) > 2 }

  predicate Below(ms: seq<int>, n: int) { forall i :: 0 <= i < |ms| ==> 0 <= ms[i] < n }

  /** What holds whenever the parser waits. */
  predicate Waiting(p: FrontAt)
  {
    match p
    case BlockCrc(k, _) => 0 <= k < 4
    case RandBit(_) => true
    case OrigPtr(k, _, _, _) => 0 <= k < 3
    case Mapping1(_, u) => |u| < 16
    case Mapping2(_, u, i, used, row) => |u| == 16 && 0 <= i < 16 && u[i] && |used| == 16 * i && |row| < 16
    case Selector1(_, inUse) => Alphabet(inUse)
    case Selector2(_, inUse, nGroups) => Alphabet(inUse) && 2 <= nGroups <= 6
    case Selector3(_, inUse, nGroups, nSelectors, ms, j) =>
      Alphabet(inUse) && 2 <= nGroups <= 6 && |ms| < nSelectors && Below(ms, nGroups) && 0 <= j < nGroups
    case Coding1(_, inUse, nGroups, _, tables) => Alphabet(inUse) && |tables| < nGroups
    case Coding2(_, inUse, nGroups, _, tables, lens, curr) =>
      Alphabet(inUse) && |tables| < nGroups && |lens| < AlphaSize(inUse) && 1 <= curr <= 20
    case Coding3(_, inUse, nGroups, _, tables, lens, curr) =>
      Alphabet(inUse) && |tables| < nGroups && |lens| < AlphaSize(inUse) && 1 <= curr <= 20
  }

  /** The width of the field that is read next. */
  function Width(p: FrontAt): (n: int)
    ensures 1 <= n <= 15
  {
    match p
    case BlockCrc(_, _) => BYTE_BITS
    case OrigPtr(_, _, _, _) => BYTE_BITS
    case Selector1(_, _) => GROUPS_BITS
    case Selector2(_, _, _) => COUNT_BITS
    case Coding1(_, _, _, _, _) => LEN_BITS
    case _ => 1
  }

  type FrontNext = Next<FrontAt, Front>

  // ----- The steps -----

  /** On to the next range of sixteen bytes that occurs, or to the selectors (decompress.c:276-285). */
  function NextRange(h: Head, u: seq<bool>, i: int, used: seq<bool>): (r: FrontNext)
    requires |u| == 16 && 0 <= i <= 16 && |used| == 16 * i
    ensures r.Wait? ==> Waiting(r.at)
    decreases 16 - i
  {
    if i == 16 then if AlphaSize(used) == 2 then Reject else Wait(Selector1(h, used))
    else if u[i] then Wait(Mapping2(h, u, i, used, []))
    else NextRange(h, u, i + 1, used + NoneUsed())
  }

  function StepHead(size: int, p: FrontAt, v: int): (r: FrontNext)
    requires Waiting(p) && (p.BlockCrc? || p.RandBit? || p.OrigPtr?)
    ensures r.Wait? ==> Waiting(r.at)
  {
    match p
    case BlockCrc(k, crc) => if k < 3 then Wait(BlockCrc(k + 1, crc * 256 + v)) else Wait(RandBit(crc * 256 + v))
    case RandBit(crc) => Wait(OrigPtr(0, crc, v, 0))
    case OrigPtr(k, crc, rand, ptr) =>
      if k < 2 then Wait(OrigPtr(k + 1, crc, rand, ptr * 256 + v))
      else if ptr * 256 + v > 10 + 100000 * size then Reject
      else Wait(Mapping1(Head(crc, rand, ptr * 256 + v), []))
  }

  function StepMapping(p: FrontAt, v: int): (r: FrontNext)
    requires Waiting(p) && (p.Mapping1? || p.Mapping2?)
    ensures r.Wait? ==> Waiting(r.at)
  {
    match p
    case Mapping1(h, u) =>
      var u' := u + [v == 1];
      if |u'| < 16 then Wait(Mapping1(h, u')) else NextRange(h, u', 0, [])
    case Mapping2(h, u, i, used, row) =>
      var row' := row + [v == 1];
      if |row'| < 16 then Wait(Mapping2(h, u, i, used, row')) else NextRange(h, u, i + 1, used + row')
  }

  function StepSelector(p: FrontAt, v: int): (r: FrontNext)
    requires Waiting(p) && (p.Selector1? || p.Selector2? || p.Selector3?)
    ensures r.Wait? ==> Waiting(r.at)
  {
    match p
    case Selector1(h, inUse) => if v < 2 || v > 6 then Reject else Wait(Selector2(h, inUse, v))
    case Selector2(h, inUse, nGroups) => if v < 1 then Reject else Wait(Selector3(h, inUse, nGroups, v, [], 0))
    case Selector3(h, inUse, nGroups, nSelectors, ms, j) =>
      if v != 0 then
        if j + 1 >= nGroups then Reject else Wait(Selector3(h, inUse, nGroups, nSelectors, ms, j + 1))
      else if |ms| + 1 < nSelectors then Wait(Selector3(h, inUse, nGroups, nSelectors, ms + [j], 0))
      else Wait(Coding1(h, inUse, nGroups, UndoSelectorMtf(Iota(nGroups), ms + [j]), []))
  }

  /** The test before each bit of a code length (decompress.c:321). */
  function CheckLen(p: FrontAt): (r: FrontNext)
    requires p.Coding2?
  {
    if p.curr < 1 || p.curr > 20 then Reject else Wait(p)
  }

  function StepCoding(p: FrontAt, v: int): (r: FrontNext)
    requires Waiting(p) && (p.Coding1? || p.Coding2? || p.Coding3?)
    ensures r.Wait? ==> Waiting(r.at)
  {
    match p
    case Coding1(h, inUse, nGroups, sels, tables) => CheckLen(Coding2(h, inUse, nGroups, sels, tables, [], v))
    case Coding2(h, inUse, nGroups, sels, tables, lens, curr) =>
      if v != 0 then Wait(Coding3(h, inUse, nGroups, sels, tables, lens, curr))
      else if |lens| + 1 < AlphaSize(inUse) then Wait(Coding2(h, inUse, nGroups, sels, tables, lens + [curr], curr))
      else if |tables| + 1 < nGroups then Wait(Coding1(h, inUse, nGroups, sels, tables + [lens + [curr]]))
      else Done(Front(h, inUse, Coding(sels, tables + [lens + [curr]])))
    case Coding3(h, inUse, nGroups, sels, tables, lens, curr) =>
      CheckLen(Coding2(h, inUse, nGroups, sels, tables, lens, if v == 0 then curr + 1 else curr - 1))
  }

  /** What a field of the width asked for leads to. */
  function Step(size: int, p: FrontAt, v: int): (r: FrontNext)
    requires Waiting(p)
    ensures r.Wait? ==> Waiting(r.at)
  {
    if p.BlockCrc? || p.RandBit? || p.OrigPtr? then StepHead(size, p, v)
    else if p.Mapping1? || p.Mapping2? then StepMapping(p, v)
    else if p.Selector1? || p.Selector2? || p.Selector3? then StepSelector(p, v)
    else StepCoding(p, v)
  }

  // ----- Running on the bits at hand -----

  /** Read fields as long as there are bits for them. */
  function Run(size: int, p: FrontAt, s: seq<bit>): (r: (FrontNext, seq<bit>))
    requires Waiting(p)
    ensures r.0.Wait? ==> Waiting(r.0.at) && |r.1| < Width(r.0.at)
    decreases |s|
  {
    var f := Field(s, Width(p));
    if f.None? then (Wait(p), s)
    else
      var next := Step(size, p, f.value.0);
      if next.Wait? then Run(size, next.at, f.value.1) else (next, f.value.1)
  }

  /** However the bits are cut in two, also where the parse fails: stopping in between and going on with the saved
      state and the unread bits ends as one run does. */
  lemma {:induction false} RunResumes(size: int, p: FrontAt, a: seq<bit>, b: seq<bit>)
    requires Waiting(p)
    ensures var (r, left) := Run(size, p, a);
      Run(size, p, a + b) == if r.Wait? then Run(size, r.at, left + b) else (r, left + b)
    decreases |a|
  {
    var f := Field(a, Width(p));
    if f.Some? {
      FieldMore(a, Width(p), b);
      var r := Step(size, p, f.value.0);
      if r.Wait? {
        RunResumes(size, r.at, f.value.1, b);
      }
    }
  }

  // ----- The machine is the parser -----

  /** What a step and the bits after it will give: nothing when they are rejected or too few. */
  function Outcome(size: int, r: FrontNext, s: seq<bit>): (q: Parsed<Front>)
    requires r.Wait? ==> Waiting(r.at)
    decreases |s|
  {
    match r
    case Reject => None
    case Wait(p) =>
      (var f := Field(s, Width(p)); if f.None? then None else Outcome(size, Step(size, p, f.value.0), f.value.1))
    case Done(f) => Some((f, s))
  }

  /** Running as far as the bits go keeps it. */
  lemma {:induction false} RunOutcome(size: int, p: FrontAt, s: seq<bit>)
    requires Waiting(p)
    ensures var (r, left) := Run(size, p, s); Outcome(size, r, left) == Outcome(size, Wait(p), s)
    decreases |s|
  {
    var f := Field(s, Width(p));
    if f.Some? {
      var r := Step(size, p, f.value.0);
      if r.Wait? {
        RunOutcome(size, r.at, f.value.1);
      }
    }
  }

  /** The number of selectors, from where it is known. */
  function SelectorCount(r: FrontNext): (n: int)
  {
    match r
    case Reject => -1
    case Done(f) => |f.coding.sels|
    case Wait(p) =>
      if p.Selector3? then p.nSelectors
      else if p.Coding1? || p.Coding2? || p.Coding3? then |p.sels|
      else -1
  }

  /** Whatever comes, a front that is accepted has as many selectors as were announced. */
  lemma {:induction false} AnnouncedCount(size: int, r: FrontNext, s: seq<bit>)
    requires SelectorCount(r) >= 0 && (r.Wait? ==> Waiting(r.at))
    ensures Outcome(size, r, s).Some? ==> |Outcome(size, r, s).value.0.coding.sels| == SelectorCount(r)
    decreases |s|
  {
    if r.Wait? {
      var f := Field(s, Width(r.at));
      if f.Some? {
        var next := Step(size, r.at, f.value.0);
        if !next.Reject? {
          AnnouncedCount(size, next, f.value.1);
        }
      }
    }
  }

  /** Like `Opened`, for the outcome of the machine. */
  ghost predicate OpenedFront(i: int) { true }

  ghost predicate Gives(size: int, r: FrontNext, s: seq<bit>, q: Parsed<Front>)
    requires r.Wait? ==> Waiting(r.at)
  {
    forall i {:trigger OpenedFront(i)} :: OpenedFront(i) ==> Outcome(size, r, s) == q
  }

  /** A field is read, if it is there. */
  lemma GivesField(size: int, p: FrontAt, s: seq<bit>, q: Parsed<Front>)
    requires Waiting(p)
    requires var f := Field(s, Width(p));
      if f.None? then q == None else Gives(size, Step(size, p, f.value.0), f.value.1, q)
    ensures Gives(size, Wait(p), s, q)
  {
    assert OpenedFront(0);
  }

  lemma FieldOne(s: seq<bit>)
    ensures Field(s, 1) == if s == [] then None else Some((s[0], s[1..]))
  {
    if s != [] {
      assert s[..1] == [s[0]] && s[..1][..0] == [];
    }
  }

  lemma GivesBit(size: int, p: FrontAt, s: seq<bit>, q: Parsed<Front>)
    requires Waiting(p) && Width(p) == 1
    requires if s == [] then q == None else Gives(size, Step(size, p, s[0]), s[1..], q)
    ensures Gives(size, Wait(p), s, q)
  {
    FieldOne(s);
    GivesField(size, p, s, q);
  }

  // The code lengths.

  /** Between two tables: the next one, or all are read. */
  function NextTable(h: Head, inUse: seq<bool>, nGroups: int, sels: seq<int>, tables: seq<seq<int>>): (r: FrontNext)
    requires Alphabet(inUse)
    ensures r.Wait? ==> Waiting(r.at)
  {
    if |tables| < nGroups then Wait(Coding1(h, inUse, nGroups, sels, tables))
    else Done(Front(h, inUse, Coding(sels, tables)))
  }

  /** `q` is what comes of it if the lengths still missing in a table are `ls`. */
  ghost predicate AfterLens(size: int, p: FrontAt, ls: Parsed<seq<int>>, q: Parsed<Front>)
    requires Waiting(p) && p.Coding2?
  {
    if ls.None? then q == None
    else Gives(size, NextTable(p.h, p.inUse, p.nGroups, p.sels, p.tables + [p.lens + ls.value.0]), ls.value.1, q)
  }

  /** One step up or down; out of range it is rejected whatever follows. */
  lemma LenMoves(curr: int, n: nat, s: seq<bit>)
    requires n > 0 && 1 <= curr <= 20 && |s| >= 2 && s[0] == 1
    ensures s[1..][1..] == s[2..]
    ensures var curr' := if s[1] == 0 then curr + 1 else curr - 1;
      && ParseLens(curr, n, s) == ParseLens(curr', n, s[2..])
      && (curr' < 1 || curr' > 20 ==> ParseLens(curr', n, s[2..]).None?)
  {
  }

  lemma LenStops(curr: int, n: nat, s: seq<bit>)
    requires n > 0 && 1 <= curr <= 20 && s != [] && s[0] == 0
    ensures var rest := ParseLens(curr, n - 1, s[1..]);
      ParseLens(curr, n, s) == if rest.None? then None else Some(([curr] + rest.value.0, rest.value.1))
  {
  }

  lemma {:induction false} LensRun(size: int, p: FrontAt, s: seq<bit>, q: Parsed<Front>)
    requires Waiting(p) && p.Coding2?
    requires AfterLens(size, p, ParseLens(p.curr, AlphaSize(p.inUse) - |p.lens|, s), q)
    ensures Gives(size, Wait(p), s, q)
    decreases |s|, 1
  {
    if s != [] {
      if s[0] == 0 {
        LenEnds(size, p, s, q);
      } else {
        LenGoesOn(size, p, s, q);
      }
    }
    GivesBit(size, p, s, q);
  }

  lemma LenGoesOn(size: int, p: FrontAt, s: seq<bit>, q: Parsed<Front>)
    requires Waiting(p) && p.Coding2? && s != [] && s[0] == 1
    requires AfterLens(size, p, ParseLens(p.curr, AlphaSize(p.inUse) - |p.lens|, s), q)
    ensures Gives(size, Step(size, p, s[0]), s[1..], q)
    decreases |s|, 0
  {
    var Coding2(h, inUse, nGroups, sels, tables, lens, curr) := p;
    if |s| >= 2 {
      var p' := Coding2(h, inUse, nGroups, sels, tables, lens, if s[1] == 0 then curr + 1 else curr - 1);
      LenMoves(curr, AlphaSize(inUse) - |lens|, s);
      if 1 <= p'.curr <= 20 {
        LensRun(size, p', s[2..], q);
      }
    }
    SignBit(size, h, inUse, nGroups, sels, tables, lens, curr, s[1..], q);
  }

  /** The bit that tells up from down. */
  lemma SignBit(size: int, h: Head, inUse: seq<bool>, nGroups: int, sels: seq<int>, tables: seq<seq<int>>,
                lens: seq<int>, curr: int, s: seq<bit>, q: Parsed<Front>)
    requires Waiting(Coding3(h, inUse, nGroups, sels, tables, lens, curr))
    requires if s == [] then q == None
             else
               var p' := Coding2(h, inUse, nGroups, sels, tables, lens, if s[0] == 0 then curr + 1 else curr - 1);
               if 1 <= p'.curr <= 20 then Gives(size, Wait(p'), s[1..], q) else q == None
    ensures Gives(size, Wait(Coding3(h, inUse, nGroups, sels, tables, lens, curr)), s, q)
  {
    GivesBit(size, Coding3(h, inUse, nGroups, sels, tables, lens, curr), s, q);
  }

  lemma StepEnds(size: int, p: FrontAt)
    requires Waiting(p) && p.Coding2?
    ensures var lens := p.lens + [p.curr];
      Step(size, p, 0) ==
        if |lens| < AlphaSize(p.inUse) then Wait(Coding2(p.h, p.inUse, p.nGroups, p.sels, p.tables, lens, p.curr))
        else NextTable(p.h, p.inUse, p.nGroups, p.sels, p.tables + [lens])
  {
  }

  lemma LenEnds(size: int, p: FrontAt, s: seq<bit>, q: Parsed<Front>)
    requires Waiting(p) && p.Coding2? && s != [] && s[0] == 0
    requires AfterLens(size, p, ParseLens(p.curr, AlphaSize(p.inUse) - |p.lens|, s), q)
    ensures Gives(size, Step(size, p, s[0]), s[1..], q)
    decreases |s|, 0
  {
    var n := AlphaSize(p.inUse) - |p.lens|;
    LenStops(p.curr, n, s);
    StepEnds(size, p);
    var rest := ParseLens(p.curr, n - 1, s[1..]);
    if n == 1 {
      assert [p.curr] + rest.value.0 == [p.curr];
    } else {
      if rest.Some? {
        ConcatAssoc(p.lens, [p.curr], rest.value.0);
      }
      LensRun(size, Coding2(p.h, p.inUse, p.nGroups, p.sels, p.tables, p.lens + [p.curr], p.curr), s[1..], q);
    }
  }

  function RestTables(h: Head, inUse: seq<bool>, nGroups: int, sels: seq<int>, tables: seq<seq<int>>,
                      s: seq<bit>): (q: Parsed<Front>)
    requires |tables| <= nGroups
  {
    var ts := ParseTables(nGroups - |tables|, AlphaSize(inUse), s);
    if ts.None? then None else Some((Front(h, inUse, Coding(sels, tables + ts.value.0)), ts.value.1))
  }

  lemma TablesStep(h: Head, inUse: seq<bool>, nGroups: int, sels: seq<int>, tables: seq<seq<int>>, s: seq<bit>)
    requires |tables| < nGroups
    ensures RestTables(h, inUse, nGroups, sels, tables, s) ==
      var v := Field(s, LEN_BITS);
      if v.None? then None else
        var ls := ParseLens(v.value.0, AlphaSize(inUse), v.value.1);
        if ls.None? then None else RestTables(h, inUse, nGroups, sels, tables + [ls.value.0], ls.value.1)
  {
    var v := Field(s, LEN_BITS);
    if v.Some? {
      var ls := ParseLens(v.value.0, AlphaSize(inUse), v.value.1);
      if ls.Some? {
        var rest := ParseTables(nGroups - |tables| - 1, AlphaSize(inUse), ls.value.1);
        if rest.Some? {
          ConcatAssoc(tables, [ls.value.0], rest.value.0);
        }
      }
    }
  }

  lemma {:induction false} TablesRun(size: int, h: Head, inUse: seq<bool>, nGroups: int, sels: seq<int>,
                                     tables: seq<seq<int>>, s: seq<bit>)
    requires Alphabet(inUse) && |tables| <= nGroups
    ensures Gives(size, NextTable(h, inUse, nGroups, sels, tables), s, RestTables(h, inUse, nGroups, sels, tables, s))
    decreases nGroups - |tables|
  {
    var q := RestTables(h, inUse, nGroups, sels, tables, s);
    if |tables| == nGroups {
      assert tables + [] == tables;
    } else {
      TablesStep(h, inUse, nGroups, sels, tables, s);
      var v := Field(s, LEN_BITS);
      if v.Some? {
        var ls := ParseLens(v.value.0, AlphaSize(inUse), v.value.1);
        if ls.Some? {
          TablesRun(size, h, inUse, nGroups, sels, tables + [ls.value.0], ls.value.1);
        }
        OneTable(size, h, inUse, nGroups, sels, tables, v.value.0, v.value.1, q);
      }
      GivesField(size, Coding1(h, inUse, nGroups, sels, tables), s, q);
    }
  }

  lemma OneTable(size: int, h: Head, inUse: seq<bool>, nGroups: int, sels: seq<int>, tables: seq<seq<int>>, curr: int,
                 s: seq<bit>, q: Parsed<Front>)
    requires Alphabet(inUse) && |tables| < nGroups
    requires var ls := ParseLens(curr, AlphaSize(inUse), s);
      if ls.None? then q == None
      else Gives(size, NextTable(h, inUse, nGroups, sels, tables + [ls.value.0]), ls.value.1, q)
    ensures Gives(size, Step(size, Coding1(h, inUse, nGroups, sels, tables), curr), s, q)
  {
    var ls := ParseLens(curr, AlphaSize(inUse), s);
    if ls.Some? {
      assert [] + ls.value.0 == ls.value.0;
    }
    if 1 <= curr <= 20 {
      LensRun(size, Coding2(h, inUse, nGroups, sels, tables, [], curr), s, q);
    }
  }

  // The selectors.

  /** Between two selectors: the next one, or the tables. */
  function NextSelector(h: Head, inUse: seq<bool>, nGroups: int, nSelectors: int, ms: seq<int>): (r: FrontNext)
    requires Alphabet(inUse) && 2 <= nGroups <= 6 && |ms| <= nSelectors && Below(ms, nGroups)
    ensures r.Wait? && Waiting(r.at)
  {
    if |ms| < nSelectors then Wait(Selector3(h, inUse, nGroups, nSelectors, ms, 0))
    else Wait(Coding1(h, inUse, nGroups, UndoSelectorMtf(Iota(nGroups), ms), []))
  }

  lemma {:induction false} UnaryRun(size: int, p: FrontAt, s: seq<bit>, q: Parsed<Front>)
    requires Waiting(p) && p.Selector3?
    requires var m := ParseUnary(p.j, p.nGroups, s);
      if m.None? then q == None
      else Gives(size, NextSelector(p.h, p.inUse, p.nGroups, p.nSelectors, p.ms + [m.value.0]), m.value.1, q)
    ensures Gives(size, Wait(p), s, q)
    decreases |s|
  {
    var Selector3(h, inUse, nGroups, nSelectors, ms, j) := p;
    if s != [] && s[0] != 0 && j + 1 < nGroups {
      UnaryRun(size, Selector3(h, inUse, nGroups, nSelectors, ms, j + 1), s[1..], q);
    }
    GivesBit(size, p, s, q);
  }

  function RestSelectors(h: Head, inUse: seq<bool>, nGroups: int, nSelectors: int, ms: seq<int>,
                         s: seq<bit>): (q: Parsed<Front>)
    requires 2 <= nGroups && |ms| <= nSelectors && Below(ms, nGroups)
  {
    var more := ParseUnaries(nSelectors - |ms|, nGroups, s);
    if more.None? then None
    else RestTables(h, inUse, nGroups, UndoSelectorMtf(Iota(nGroups), ms + more.value.0), [], more.value.1)
  }

  lemma SelectorsStep(h: Head, inUse: seq<bool>, nGroups: int, nSelectors: int, ms: seq<int>, s: seq<bit>)
    requires 2 <= nGroups && |ms| < nSelectors && Below(ms, nGroups)
    ensures RestSelectors(h, inUse, nGroups, nSelectors, ms, s) ==
      var m := ParseUnary(0, nGroups, s);
      if m.None? then None else RestSelectors(h, inUse, nGroups, nSelectors, ms + [m.value.0], m.value.1)
  {
    var m := ParseUnary(0, nGroups, s);
    if m.Some? {
      var rest := ParseUnaries(nSelectors - |ms| - 1, nGroups, m.value.1);
      if rest.Some? {
        ConcatAssoc(ms, [m.value.0], rest.value.0);
      }
    }
  }

  lemma {:induction false} SelectorsRun(size: int, h: Head, inUse: seq<bool>, nGroups: int, nSelectors: int,
                                        ms: seq<int>, s: seq<bit>)
    requires Alphabet(inUse) && 2 <= nGroups <= 6 && |ms| <= nSelectors && Below(ms, nGroups)
    ensures Gives(size, NextSelector(h, inUse, nGroups, nSelectors, ms), s,
      RestSelectors(h, inUse, nGroups, nSelectors, ms, s))
    decreases nSelectors - |ms|
  {
    if |ms| == nSelectors {
      assert ms + [] == ms;
      TablesRun(size, h, inUse, nGroups, UndoSelectorMtf(Iota(nGroups), ms), [], s);
    } else {
      SelectorsStep(h, inUse, nGroups, nSelectors, ms, s);
      var m := ParseUnary(0, nGroups, s);
      if m.Some? {
        SelectorsRun(size, h, inUse, nGroups, nSelectors, ms + [m.value.0], m.value.1);
      }
      UnaryRun(size, Selector3(h, inUse, nGroups, nSelectors, ms, 0), s,
        RestSelectors(h, inUse, nGroups, nSelectors, ms, s));
    }
  }

  function RestCoding(h: Head, inUse: seq<bool>, s: seq<bit>): (r: Parsed<Front>)
  {
    var c := ParseCoding(AlphaSize(inUse), s);
    if c.None? then None else Some((Front(h, inUse, c.value.0), c.value.1))
  }

  /** Number of tables, number of selectors, selectors, tables. */
  lemma CodingParts(h: Head, inUse: seq<bool>, s: seq<bit>)
    ensures RestCoding(h, inUse, s) ==
      var g := Field(s, GROUPS_BITS);
      if g.None? || g.value.0 < 2 || g.value.0 > 6 then None else
        var n := Field(g.value.1, COUNT_BITS);
        if n.None? || n.value.0 < 1 then None else RestSelectors(h, inUse, g.value.0, n.value.0, [], n.value.1)
  {
    var g := Field(s, GROUPS_BITS);
    if g.Some? && 2 <= g.value.0 <= 6 {
      var n := Field(g.value.1, COUNT_BITS);
      if n.Some? && n.value.0 >= 1 {
        SelectorParts(h, inUse, g.value.0, n.value.0, n.value.1);
        var ms := ParseUnaries(n.value.0, g.value.0, n.value.1);
        if ms.Some? {
          TableParts(h, inUse, g.value.0, UndoSelectorMtf(Iota(g.value.0), ms.value.0), ms.value.1);
        }
      }
    }
  }

  lemma SelectorParts(h: Head, inUse: seq<bool>, g: int, n: nat, s: seq<bit>)
    requires 2 <= g
    ensures RestSelectors(h, inUse, g, n, [], s) ==
      var ms := ParseUnaries(n, g, s);
      if ms.None? then None else RestTables(h, inUse, g, UndoSelectorMtf(Iota(g), ms.value.0), [], ms.value.1)
  {
    var ms := ParseUnaries(n, g, s);
    if ms.Some? {
      assert [] + ms.value.0 == ms.value.0;
    }
  }

  lemma TableParts(h: Head, inUse: seq<bool>, g: nat, sels: seq<int>, s: seq<bit>)
    ensures RestTables(h, inUse, g, sels, [], s) ==
      var ts := ParseTables(g, AlphaSize(inUse), s);
      if ts.None? then None else Some((Front(h, inUse, Coding(sels, ts.value.0)), ts.value.1))
  {
    var ts := ParseTables(g, AlphaSize(inUse), s);
    if ts.Some? {
      assert [] + ts.value.0 == ts.value.0;
    }
  }

  lemma CountRun(size: int, h: Head, inUse: seq<bool>, g: int, s: seq<bit>, q: Parsed<Front>)
    requires Alphabet(inUse) && 2 <= g <= 6
    requires var n := Field(s, COUNT_BITS);
      q == if n.None? || n.value.0 < 1 then None else RestSelectors(h, inUse, g, n.value.0, [], n.value.1)
    ensures Gives(size, Wait(Selector2(h, inUse, g)), s, q)
  {
    var n := Field(s, COUNT_BITS);
    if n.Some? && n.value.0 >= 1 {
      SelectorsRun(size, h, inUse, g, n.value.0, [], n.value.1);
    }
    GivesField(size, Selector2(h, inUse, g), s, q);
  }

  lemma CodingRun(size: int, h: Head, inUse: seq<bool>, s: seq<bit>)
    requires Alphabet(inUse)
    ensures Gives(size, Wait(Selector1(h, inUse)), s, RestCoding(h, inUse, s))
  {
    CodingParts(h, inUse, s);
    var q := RestCoding(h, inUse, s);
    var g := Field(s, GROUPS_BITS);
    if g.Some? && 2 <= g.value.0 <= 6 {
      CountRun(size, h, inUse, g.value.0, g.value.1, q);
    }
    GivesField(size, Selector1(h, inUse), s, q);
  }

  // The mapping table.

  /** One more flag. */
  lemma FlagsStep(row: seq<bool>, s: seq<bit>)
    requires |row| < 16 && s != []
    ensures var whole, rest := ParseFlags(RANGE - |row|, s), ParseFlags(RANGE - 1 - |row|, s[1..]);
      && whole.Some? == rest.Some?
      && (rest.Some? ==> whole.value.1 == rest.value.1 && row + whole.value.0 == (row + [s[0] == 1]) + rest.value.0)
      && (|row| == 15 ==> whole.Some? && whole.value.1 == s[1..] && row + whole.value.0 == row + [s[0] == 1])
  {
    var rest := ParseFlags(RANGE - 1 - |row|, s[1..]);
    if rest.Some? {
      ConcatAssoc(row, [s[0] == 1], rest.value.0);
    }
  }

  lemma {:induction false} RowRun(size: int, p: FrontAt, s: seq<bit>, q: Parsed<Front>)
    requires Waiting(p) && p.Mapping2?
    requires var more := ParseFlags(RANGE - |p.row|, s);
      if more.None? then q == None
      else Gives(size, NextRange(p.h, p.u, p.i + 1, p.used + (p.row + more.value.0)), more.value.1, q)
    ensures Gives(size, Wait(p), s, q)
    decreases |s|
  {
    var Mapping2(h, u, i, used, row) := p;
    if s != [] {
      FlagsStep(row, s);
      if |row| < 15 {
        RowRun(size, Mapping2(h, u, i, used, row + [s[0] == 1]), s[1..], q);
      }
    }
    GivesBit(size, p, s, q);
  }

  lemma {:induction false} FlagsRun(size: int, h: Head, u: seq<bool>, s: seq<bit>, q: Parsed<Front>)
    requires |u| < 16
    requires var more := ParseFlags(RANGE - |u|, s);
      if more.None? then q == None else Gives(size, NextRange(h, u + more.value.0, 0, []), more.value.1, q)
    ensures Gives(size, Wait(Mapping1(h, u)), s, q)
    decreases |s|
  {
    if s != [] {
      FlagsStep(u, s);
      if |u| < 15 {
        FlagsRun(size, h, u + [s[0] == 1], s[1..], q);
      }
    }
    GivesBit(size, Mapping1(h, u), s, q);
  }

  function RestRanges(h: Head, u: seq<bool>, i: int, used: seq<bool>, s: seq<bit>): (q: Parsed<Front>)
    requires |u| == 16 && 0 <= i <= 16 && |used| == 16 * i
  {
    var more := ParseRanges(u, i, s);
    if more.None? || AlphaSize(used + more.value.0) == 2 then None else RestCoding(h, used + more.value.0, more.value.1)
  }

  lemma RangesStep(h: Head, u: seq<bool>, i: int, used: seq<bool>, s: seq<bit>)
    requires |u| == 16 && 0 <= i < 16 && |used| == 16 * i
    ensures RestRanges(h, u, i, used, s) ==
      var row := if u[i] then ParseFlags(RANGE, s) else Some((NoneUsed(), s));
      if row.None? then None else RestRanges(h, u, i + 1, used + row.value.0, row.value.1)
  {
    var row := if u[i] then ParseFlags(RANGE, s) else Some((NoneUsed(), s));
    if row.Some? {
      var rest := ParseRanges(u, i + 1, row.value.1);
      if rest.Some? {
        ConcatAssoc(used, row.value.0, rest.value.0);
      }
    }
  }

  lemma {:induction false} RangesRun(size: int, h: Head, u: seq<bool>, i: int, used: seq<bool>, s: seq<bit>)
    requires |u| == 16 && 0 <= i <= 16 && |used| == 16 * i
    ensures Gives(size, NextRange(h, u, i, used), s, RestRanges(h, u, i, used, s))
    decreases 16 - i
  {
    if i == 16 {
      assert used + [] == used;
      if AlphaSize(used) != 2 {
        CodingRun(size, h, used, s);
      }
    } else {
      RangesStep(h, u, i, used, s);
      var row := if u[i] then ParseFlags(RANGE, s) else Some((NoneUsed(), s));
      if row.Some? {
        RangesRun(size, h, u, i + 1, used + row.value.0, row.value.1);
        assert [] + row.value.0 == row.value.0;
      }
      if u[i] {
        RowRun(size, Mapping2(h, u, i, used, []), s, RestRanges(h, u, i, used, s));
      }
    }
  }

  function RestMap(h: Head, s: seq<bit>): (r: Parsed<Front>)
  {
    var m := ParseMap(s);
    if m.None? || AlphaSize(m.value.0) == 2 then None else RestCoding(h, m.value.0, m.value.1)
  }

  lemma MapParts(h: Head, s: seq<bit>)
    ensures RestMap(h, s) ==
      var u := ParseFlags(RANGE, s); if u.None? then None else RestRanges(h, u.value.0, 0, [], u.value.1)
  {
    var u := ParseFlags(RANGE, s);
    if u.Some? {
      var more := ParseRanges(u.value.0, 0, u.value.1);
      if more.Some? {
        assert [] + more.value.0 == more.value.0;
      }
    }
  }

  lemma MapFrom(size: int, h: Head, s: seq<bit>, q: Parsed<Front>)
    requires var u := ParseFlags(RANGE, s); q == if u.None? then None else RestRanges(h, u.value.0, 0, [], u.value.1)
    ensures Gives(size, Wait(Mapping1(h, [])), s, q)
  {
    var u := ParseFlags(RANGE, s);
    if u.Some? {
      assert [] + u.value.0 == u.value.0;
      RangesRun(size, h, u.value.0, 0, [], u.value.1);
    }
    FlagsRun(size, h, [], s, q);
  }

  lemma MapRun(size: int, h: Head, s: seq<bit>)
    ensures Gives(size, Wait(Mapping1(h, [])), s, RestMap(h, s))
  {
    MapParts(h, s);
    MapFrom(size, h, s, RestMap(h, s));
  }

  // The numbers.

  const CRC_BYTES: nat := 4
  const PTR_BYTES: nat := 3

  /** A number of `count` more bytes, most significant first. */
  function Number(acc: int, count: nat, s: seq<bit>): (r: Parsed<int>)
    decreases count
  {
    if count == 0 then Some((acc, s))
    else
      var b := Field(s, BYTE_BITS);
      if b.None? then None else Number(acc * 256 + b.value.0, count - 1, b.value.1)
  }

  lemma NumberNext(pre: seq<bit>, count: nat, s: seq<bit>)
    requires count > 0 && |s| >= 8
    ensures Number(FromBits(pre), count, s) == Number(FromBits(pre + s[..8]), count - 1, s[8..])
  {
    FromBitsAppend(pre, s[..8]);
    Pow2Values();
  }

  lemma Rejoin(pre: seq<bit>, s: seq<bit>, n: nat)
    requires |s| >= n + 8
    ensures (pre + s[..8]) + s[8..][..n] == pre + s[..n + 8] && s[8..][n..] == s[n + 8..]
  {
  }

  /** With the bits `pre` read before. */
  lemma {:induction false} NumberIsField(pre: seq<bit>, count: nat, s: seq<bit>)
    ensures Number(FromBits(pre), count, s) ==
      if |s| < 8 * count then None else Some((FromBits(pre + s[..8 * count]), s[8 * count..]))
    decreases count
  {
    if count == 0 {
      assert pre + s[..0] == pre && s[0..] == s;
    } else if |s| >= 8 {
      var n := 8 * (count - 1);
      NumberNext(pre, count, s);
      NumberIsField(pre + s[..8], count - 1, s[8..]);
      if |s| >= n + 8 {
        Rejoin(pre, s, n);
      }
    }
  }

  lemma {:induction false} NumberTakes(acc: int, count: nat, s: seq<bit>)
    requires Number(acc, count, s).Some?
    ensures |Number(acc, count, s).value.1| == |s| - 8 * count
    decreases count
  {
    if count != 0 {
      var b := Field(s, BYTE_BITS);
      NumberTakes(acc * 256 + b.value.0, count - 1, b.value.1);
    }
  }

  /** Byte by byte, most significant first: the same number as one wide field. */
  lemma NumberOfField(count: nat, n: nat, s: seq<bit>)
    requires n == 8 * count
    ensures Number(0, count, s) == Field(s, n)
  {
    NumberIsField([], count, s);
    if |s| >= n {
      assert [] + s[..n] == s[..n];
    }
  }

  /** `q` is what comes of it if the row number is `ptr`. */
  ghost predicate AfterPtr(size: int, crc: int, rand: int, ptr: Parsed<int>, q: Parsed<Front>)
  {
    if ptr.None? || ptr.value.0 > 10 + 100000 * size then q == None
    else Gives(size, Wait(Mapping1(Head(crc, rand, ptr.value.0), [])), ptr.value.1, q)
  }

  lemma NumberStep(acc: int, count: nat, s: seq<bit>)
    requires count > 0
    ensures var b := Field(s, BYTE_BITS);
      Number(acc, count, s) == if b.None? then None else Number(acc * 256 + b.value.0, count - 1, b.value.1)
    ensures count == 1 ==> var b := Field(s, BYTE_BITS);
      Number(acc, count, s) == if b.None? then None else Some((acc * 256 + b.value.0, b.value.1))
  {
  }

  lemma PtrStep(size: int, k: int, crc: int, rand: int, ptr: int, s: seq<bit>, q: Parsed<Front>)
    requires 0 <= k < 3
    requires var v := Field(s, BYTE_BITS);
      if v.None? then q == None
      else if k < 2 then Gives(size, Wait(OrigPtr(k + 1, crc, rand, ptr * 256 + v.value.0)), v.value.1, q)
      else AfterPtr(size, crc, rand, Some((ptr * 256 + v.value.0, v.value.1)), q)
    ensures Gives(size, Wait(OrigPtr(k, crc, rand, ptr)), s, q)
  {
    GivesField(size, OrigPtr(k, crc, rand, ptr), s, q);
  }

  lemma {:induction false} PtrRun(size: int, k: int, crc: int, rand: int, ptr: int, s: seq<bit>, q: Parsed<Front>)
    requires 0 <= k < 3 && AfterPtr(size, crc, rand, Number(ptr, PTR_BYTES - k, s), q)
    ensures Gives(size, Wait(OrigPtr(k, crc, rand, ptr)), s, q)
    decreases 3 - k
  {
    var v := Field(s, BYTE_BITS);
    NumberStep(ptr, PTR_BYTES - k, s);
    if v.Some? && k < 2 {
      PtrRun(size, k + 1, crc, rand, ptr * 256 + v.value.0, v.value.1, q);
    }
    PtrStep(size, k, crc, rand, ptr, s, q);
  }

  ghost predicate AfterCrc(size: int, crc: Parsed<int>, q: Parsed<Front>)
  {
    if crc.None? then q == None else Gives(size, Wait(RandBit(crc.value.0)), crc.value.1, q)
  }

  lemma {:induction false} CrcRun(size: int, k: int, crc: int, s: seq<bit>, q: Parsed<Front>)
    requires 0 <= k < 4 && AfterCrc(size, Number(crc, CRC_BYTES - k, s), q)
    ensures Gives(size, Wait(BlockCrc(k, crc)), s, q)
    decreases 4 - k
  {
    var v := Field(s, BYTE_BITS);
    if v.Some? && k < 3 {
      CrcRun(size, k + 1, crc * 256 + v.value.0, v.value.1, q);
    }
    GivesField(size, BlockCrc(k, crc), s, q);
  }

  lemma RandRun(size: int, crc: int, s: seq<bit>, q: Parsed<Front>)
    requires var rand := Field(s, 1);
      if rand.None? then q == None else AfterPtr(size, crc, rand.value.0, Field(rand.value.1, PTR_BITS), q)
    ensures Gives(size, Wait(RandBit(crc)), s, q)
  {
    var rand := Field(s, 1);
    if rand.Some? {
      NumberOfField(PTR_BYTES, PTR_BITS, rand.value.1);
      PtrRun(size, 0, crc, rand.value.0, 0, rand.value.1, q);
    }
    GivesField(size, RandBit(crc), s, q);
  }

  /** The head, then the mapping table and the rest. */
  lemma HeadParts(size: int, s: seq<bit>)
    ensures var h := ParseHead(size, s);
      ParseFront(size, s) == if h.None? then None else RestMap(h.value.0, h.value.1)
  {
  }

  lemma HeadRun(size: int, s: seq<bit>, q: Parsed<Front>)
    requires var h := ParseHead(size, s);
      if h.None? then q == None else Gives(size, Wait(Mapping1(h.value.0, [])), h.value.1, q)
    ensures Gives(size, Wait(BlockCrc(0, 0)), s, q)
  {
    NumberOfField(CRC_BYTES, CRC_BITS, s);
    var crc := Field(s, CRC_BITS);
    if crc.Some? {
      RandRun(size, crc.value.0, crc.value.1, q);
    }
    CrcRun(size, 0, 0, s, q);
  }

  /** For every bit string, valid or not: from its first label the machine accepts what the parser accepts, with the
      same result and the same bits left over. */
  lemma FrontRun(size: int, s: seq<bit>)
    ensures Gives(size, Wait(BlockCrc(0, 0)), s, ParseFront(size, s))
    ensures Outcome(size, Wait(BlockCrc(0, 0)), s) == ParseFront(size, s)
  {
    HeadParts(size, s);
    var h := ParseHead(size, s);
    if h.Some? {
      MapRun(size, h.value.0, h.value.1);
    }
    HeadRun(size, s, ParseFront(size, s));
    GivesOutcome(size, Wait(BlockCrc(0, 0)), s, ParseFront(size, s));
  }

  lemma GivesOutcome(size: int, r: FrontNext, s: seq<bit>, q: Parsed<Front>)
    requires (r.Wait? ==> Waiting(r.at)) && Gives(size, r, s, q)
    ensures Outcome(size, r, s) == q
  {
    assert OpenedFront(0);
  }

  /** No more bits are left than there were. */
  lemma {:induction false} OutcomeShortens(size: int, r: FrontNext, s: seq<bit>)
    requires (r.Wait? ==> Waiting(r.at)) && Outcome(size, r, s).Some?
    ensures |Outcome(size, r, s).value.1| <= |s|
    decreases |s|
  {
    if r.Wait? {
      var f := Field(s, Width(r.at));
      OutcomeShortens(size, Step(size, r.at, f.value.0), f.value.1);
    }
  }

  // ----- One field at a time -----

  /** A run that ends with a result has the field it waits for, and goes on with it to the same result. */
  lemma FrontStep(size: int, p: FrontAt, s: seq<bit>, q: Parsed<Front>)
    requires Waiting(p) && Gives(size, Wait(p), s, q) && q.Some?
    ensures var f := Field(s, Width(p)); f.Some? && Gives(size, Step(size, p, f.value.0), f.value.1, q)
  {
    assert OpenedFront(0);
  }
}
