/** The printing half of sendMTFValues: each part of the block, written bit field by bit field. */
module BlockWriter {
  import opened Basics
  import opened Bits
  import opened BitStream
  import opened MoveToFront
  import opened HuffmanCodes
  import opened BlockFormat

  function Flag(b: bool): (v: int) { if b then 1 else 0 }

  lemma OneBit(v: bit)
    ensures v < Pow2(1) && ToBits(v, 1) == [v]
  {
    assert ToBits(v / 2, 0) == [];
  }

  /** Writing `x` when `x + rest` is still to be written. */
  lemma Advance(bits: seq<bit>, x: seq<bit>, rest: seq<bit>, goal: seq<bit>)
    requires bits + (x + rest) == goal
    ensures (bits + x) + rest == goal
  {
  }

  lemma AllWritten(bits: seq<bit>, goal: seq<bit>)
    requires bits + [] == goal
    ensures bits == goal
  {
  }

  method PutBit(s: BitWriter, v: bit)
    requires s.Valid()
    modifies s
    ensures s.Valid() && s.bits == old(s.bits) + [v]
  {
    OneBit(v);
    s.W(1, v);
  }

  // ----- The mapping table (compress.c:494-515) -----

  method PutFlags(s: BitWriter, f: seq<bool>)
    requires s.Valid()
    modifies s
    ensures s.Valid() && s.bits == old(s.bits) + FlagBits(f)
  {
    ghost var goal := s.bits + FlagBits(f);
    assert f[0..] == f;
    for i := 0 to |f|
      invariant s.Valid() && s.bits + FlagBits(f[i..]) == goal
    {
      assert f[i..][1..] == f[i + 1..];
      Advance(s.bits, [Flag(f[i])], FlagBits(f[i + 1..]), goal);
      PutBit(s, Flag(f[i]));
    }
    AllWritten(s.bits, goal);
  }

  method RangesInUse(inUse: seq<bool>) returns (inUse16: seq<bool>)
    requires |inUse| == 256
    ensures inUse16 == Used16(inUse)
  {
    inUse16 := [];
    for i := 0 to 16
      invariant |inUse16| == i && forall k :: 0 <= k < i ==> inUse16[k] == Used16(inUse)[k]
    {
      var any := false;
      for j := 0 to 16
        invariant any <==> true in inUse[16 * i..16 * i + j]
      {
        assert inUse[16 * i..16 * i + (j + 1)] == inUse[16 * i..16 * i + j] + [inUse[16 * i + j]];
        if inUse[16 * i + j] { any := true; }
      }
      inUse16 := inUse16 + [any];
    }
  }

  /** The ranges in use, from the first on. */
  method PutRanges(s: BitWriter, inUse: seq<bool>, inUse16: seq<bool>, first: nat)
    requires s.Valid() && |inUse| == 256 && inUse16 == Used16(inUse) && first <= 16
    modifies s
    ensures s.Valid() && s.bits == old(s.bits) + RangeBits(inUse, first)
  {
    ghost var goal := s.bits + RangeBits(inUse, first);
    for i := first to 16
      invariant s.Valid() && s.bits + RangeBits(inUse, i) == goal
    {
      RangeNext(s.bits, inUse, i, goal);
      if inUse16[i] {
        PutFlags(s, inUse[16 * i..16 * i + 16]);
      }
    }
    AllWritten(s.bits, goal);
  }

  lemma RangeNext(bits: seq<bit>, inUse: seq<bool>, i: nat, goal: seq<bit>)
    requires |inUse| == 256 && i < 16 && bits + RangeBits(inUse, i) == goal
    ensures if Used16(inUse)[i] then (bits + FlagBits(inUse[16 * i..16 * i + 16])) + RangeBits(inUse, i + 1) == goal
            else bits + RangeBits(inUse, i + 1) == goal
  {
    if Used16(inUse)[i] {
      Advance(bits, FlagBits(inUse[16 * i..16 * i + 16]), RangeBits(inUse, i + 1), goal);
    } else {
      assert [] + RangeBits(inUse, i + 1) == RangeBits(inUse, i + 1);
    }
  }

  method PutMap(s: BitWriter, inUse: seq<bool>)
    requires s.Valid() && |inUse| == 256
    modifies s
    ensures s.Valid() && s.bits == old(s.bits) + MapBits(inUse)
  {
    var inUse16 := RangesInUse(inUse);
    ConcatAssoc(s.bits, FlagBits(inUse16), RangeBits(inUse, 0));
    PutFlags(s, inUse16);
    PutRanges(s, inUse, inUse16, 0);
  }

  // ----- The selectors (compress.c:461-478, 517-526) -----

  lemma MtfNext(pos: seq<int>, sels: seq<int>, done: seq<int>, whole: seq<int>)
    requires sels != [] && Over(sels, pos) && whole == done + SelectorMtf(pos, sels)
    ensures var j := IndexOf(pos, sels[0]);
      Over(sels[1..], ToFront(pos, j)) && whole == (done + [j]) + SelectorMtf(ToFront(pos, j), sels[1..])
  {
    OverAfter(sels, pos, IndexOf(pos, sels[0]));
  }

  /** Find one selector in the list and move it to the front. */
  method LiftSelector(pos: array<int>, x: int) returns (j: int)
    requires x in pos[..]
    modifies pos
    ensures j == IndexOf(old(pos[..]), x) && pos[..] == ToFront(old(pos[..]), j)
  {
    ghost var l := pos[..];
    ghost var at := IndexOf(l, x);
    BeforeIndex(l, x);
    j := 0;
    var tmp := pos[0];
    while x != tmp
      invariant 0 <= j <= at && Shifting(l, pos[..], j, tmp)
      decreases at - j
    {
      j := j + 1;
      var tmp2 := tmp;
      tmp := pos[j];
      pos[j] := tmp2;
    }
    ShiftingDone(l, pos[..], j, tmp);
    ghost var t := pos[..];
    pos[0] := tmp;
    assert pos[..] == t[0 := tmp];
  }

  method MtfSelectors(sels: seq<int>, nGroups: int) returns (selectorMtf: seq<int>)
    requires 0 < nGroups && Over(sels, Iota(nGroups))
    ensures selectorMtf == SelectorMtf(Iota(nGroups), sels)
  {
    var pos := new int[nGroups](i => i);
    assert pos[..] == Iota(nGroups);
    ghost var whole := SelectorMtf(Iota(nGroups), sels);
    selectorMtf := [];
    assert sels[0..] == sels && [] + whole == whole;
    for i := 0 to |sels|
      invariant Over(sels[i..], pos[..]) && whole == selectorMtf + SelectorMtf(pos[..], sels[i..])
    {
      MtfNext(pos[..], sels[i..], selectorMtf, whole);
      assert sels[i..][1..] == sels[i + 1..] && sels[i..][0] == sels[i];
      var j := LiftSelector(pos, sels[i]);
      selectorMtf := selectorMtf + [j];
    }
    assert SelectorMtf(pos[..], sels[|sels|..]) == [];
  }

  lemma {:induction false} OnesSnoc(j: nat)
    ensures Ones(j) + [1] == Ones(j + 1)
  {
    if j > 0 {
      OnesSnoc(j - 1);
      assert Ones(j) + [1] == [1] + (Ones(j - 1) + [1]);
    }
  }

  method PutUnary(s: BitWriter, m: int)
    requires s.Valid() && m >= 0
    modifies s
    ensures s.Valid() && s.bits == old(s.bits) + (Ones(m) + [0])
  {
    ghost var b := s.bits;
    for j := 0 to m
      invariant s.Valid() && s.bits == b + Ones(j)
    {
      OnesSnoc(j);
      ConcatAssoc(b, Ones(j), [1]);
      PutBit(s, 1);
    }
    ConcatAssoc(b, Ones(m), [0]);
    PutBit(s, 0);
  }

  method PutUnaries(s: BitWriter, ms: seq<int>)
    requires s.Valid() && forall i :: 0 <= i < |ms| ==> ms[i] >= 0
    modifies s
    ensures s.Valid() && s.bits == old(s.bits) + UnaryBits(ms)
  {
    ghost var goal := s.bits + UnaryBits(ms);
    assert ms[0..] == ms;
    for i := 0 to |ms|
      invariant s.Valid() && s.bits + UnaryBits(ms[i..]) == goal
    {
      assert ms[i..][1..] == ms[i + 1..];
      Advance(s.bits, Ones(ms[i]) + [0], UnaryBits(ms[i + 1..]), goal);
      PutUnary(s, ms[i]);
    }
    AllWritten(s.bits, goal);
  }

  lemma SelectorWidths(c: Coding, n: int)
    requires CodingOk(c, n)
    ensures |c.tables| < Pow2(3) && |c.sels| < Pow2(15)
  {
    assert Pow2(GROUPS_BITS) == 8 && Pow2(COUNT_BITS) == 32768;
  }

  method PutSelectors(s: BitWriter, ghost c: Coding, ghost n: int, nGroups: int, selectors: seq<int>)
    requires s.Valid() && CodingOk(c, n) && nGroups == |c.tables| && selectors == c.sels
    modifies s
    ensures s.Valid() && s.bits == old(s.bits) + SelectorBits(c, n)
  {
    SelectorsOver(c, n);
    var ms := MtfSelectors(selectors, nGroups);
    SelectorWidths(c, n);
    ConcatThree(s.bits, ToBits(nGroups, GROUPS_BITS), ToBits(|selectors|, COUNT_BITS), UnaryBits(ms));
    ghost var b := s.bits;
    s.W(GROUPS_BITS, nGroups);
    s.W(COUNT_BITS, |selectors|);
    PutUnaries(s, ms);
    assert s.bits == b + SelectorBits(c, n) by {
      ConcatAssoc(b, ToBits(nGroups, GROUPS_BITS), ToBits(|selectors|, COUNT_BITS));
      ConcatAssoc(b, ToBits(nGroups, GROUPS_BITS) + ToBits(|selectors|, COUNT_BITS), UnaryBits(ms));
      ConcatAssoc(ToBits(nGroups, GROUPS_BITS), ToBits(|selectors|, COUNT_BITS), UnaryBits(ms));
    }
  }

  // ----- The coding tables (compress.c:528-542) -----

  lemma TwoBits(v: int)
    requires v == 2 || v == 3
    ensures v < Pow2(2) && ToBits(v, 2) == [1, v - 2]
  {
    OneBit(1);
    assert Pow2(2) == 4;
    assert ToBits(v, 2) == ToBits(v / 2, 1) + [v % 2];
  }

  method PutSteps(s: BitWriter, curr0: int, l: int)
    requires s.Valid()
    modifies s
    ensures s.Valid() && s.bits == old(s.bits) + StepBits(curr0, l)
  {
    ghost var goal := s.bits + StepBits(curr0, l);
    var curr := curr0;
    while curr < l
      invariant s.Valid() && s.bits + StepBits(curr, l) == goal
    {
      TwoBits(2);
      Advance(s.bits, [1, 0], StepBits(curr + 1, l), goal);
      s.W(2, 2);
      curr := curr + 1;
    }
    while curr > l
      invariant s.Valid() && s.bits + StepBits(curr, l) == goal && curr >= l
    {
      TwoBits(3);
      Advance(s.bits, [1, 1], StepBits(curr - 1, l), goal);
      s.W(2, 3);
      curr := curr - 1;
    }
    AllWritten(s.bits, goal);
  }

  method PutDeltas(s: BitWriter, lens: seq<int>)
    requires s.Valid() && lens != []
    modifies s
    ensures s.Valid() && s.bits == old(s.bits) + DeltaBits(lens[0], lens)
  {
    ghost var goal := s.bits + DeltaBits(lens[0], lens);
    var curr := lens[0];
    assert lens[0..] == lens;
    for i := 0 to |lens|
      invariant s.Valid() && s.bits + DeltaBits(curr, lens[i..]) == goal
    {
      assert lens[i..][1..] == lens[i + 1..];
      Advance(s.bits, StepBits(curr, lens[i]) + [0], DeltaBits(lens[i], lens[i + 1..]), goal);
      ConcatAssoc(s.bits, StepBits(curr, lens[i]), [0]);
      PutSteps(s, curr, lens[i]);
      curr := lens[i];
      PutBit(s, 0);
    }
    AllWritten(s.bits, goal);
  }

  lemma LenFits(l: int)
    requires 1 <= l <= 20
    ensures l < Pow2(5)
  {
    assert Pow2(LEN_BITS) == 32;
  }

  method PutTables(s: BitWriter, tables: seq<seq<int>>, n: int)
    requires s.Valid() && LensOk(tables, n) && n > 0
    modifies s
    ensures s.Valid() && s.bits == old(s.bits) + TableBits(tables)
  {
    ghost var goal := s.bits + TableBits(tables);
    assert tables[0..] == tables;
    for t := 0 to |tables|
      invariant s.Valid() && s.bits + TableBits(tables[t..]) == goal
    {
      var lens := tables[t];
      assert tables[t..][1..] == tables[t + 1..];
      LenFits(lens[0]);
      Advance(s.bits, ToBits(lens[0], LEN_BITS) + DeltaBits(lens[0], lens), TableBits(tables[t + 1..]), goal);
      ConcatAssoc(s.bits, ToBits(lens[0], LEN_BITS), DeltaBits(lens[0], lens));
      s.W(LEN_BITS, lens[0]);
      PutDeltas(s, lens);
    }
    AllWritten(s.bits, goal);
  }

  // ----- The values (compress.c:544-594) -----

  /** Codes for every table; each fits its length. */
  ghost predicate CodesFor(c: Coding, codes: seq<seq<int>>)
  {
    && |codes| == |c.tables|
    && forall t :: 0 <= t < |codes| ==> CodesAre(c.tables[t], codes[t])
  }

  ghost predicate CodesAre(lens: seq<int>, codes: seq<int>)
  {
    |codes| >= |lens| && forall i :: 0 <= i < |lens| ==> CodeIs(lens, i, codes[i])
  }

  ghost predicate CodeIs(lens: seq<int>, i: int, code: int)
    requires 0 <= i < |lens|
  {
    0 <= lens[i] <= 24 && code == Code(lens, i) && code < Pow2(lens[i])
  }

  method PutSymbol(s: BitWriter, lens: seq<int>, codes: seq<int>, v: int)
    requires s.Valid() && CodesAre(lens, codes) && 0 <= v < |lens| && lens[v] >= 0
    modifies s
    ensures s.Valid() && s.bits == old(s.bits) + CodeBits(lens, v)
  {
    assert CodeIs(lens, v, codes[v]);
    s.W(lens[v], codes[v]);
  }

  /** Written so far, then the codes of the values from `k` on, is the goal. */
  ghost predicate DataLeft(bits: seq<bit>, c: Coding, n: int, vs: seq<int>, k: int, goal: seq<bit>)
  {
    DataOk(c, n, vs) && 0 <= k <= |vs| && bits + DataBits(c, n, vs, k) == goal
  }

  lemma DataNext(bits: seq<bit>, c: Coding, n: int, vs: seq<int>, k: int, goal: seq<bit>, selCtr: int)
    requires DataLeft(bits, c, n, vs, k, goal) && k < |vs| && G_SIZE * selCtr <= k < G_SIZE * selCtr + G_SIZE
    ensures 0 <= selCtr < |c.sels| && 0 <= vs[k] < |c.tables[c.sels[selCtr]]| && c.tables[c.sels[selCtr]][vs[k]] >= 0
    ensures DataLeft(bits + CodeBits(c.tables[c.sels[selCtr]], vs[k]), c, n, vs, k + 1, goal)
  {
    assert k / G_SIZE == selCtr;
    Advance(bits, CodeBits(c.tables[c.sels[selCtr]], vs[k]), DataBits(c, n, vs, k + 1), goal);
  }

  lemma DataDone(bits: seq<bit>, c: Coding, n: int, vs: seq<int>, goal: seq<bit>)
    requires DataLeft(bits, c, n, vs, |vs|, goal)
    ensures bits == goal
  {
    AllWritten(bits, goal);
  }

  /** One group, all of it in the table of its selector. */
  method PutGroup(s: BitWriter, c: Coding, codes: seq<seq<int>>, mtfv: seq<int>, gs: int, ge: int, selCtr: int,
                  ghost n: int, ghost goal: seq<bit>)
    requires s.Valid() && DataLeft(s.bits, c, n, mtfv, gs, goal) && CodesFor(c, codes)
    requires 0 <= gs <= ge < |mtfv| && gs == G_SIZE * selCtr && ge < gs + G_SIZE && 0 <= selCtr < |c.sels|
    modifies s
    ensures s.Valid() && DataLeft(s.bits, c, n, mtfv, ge + 1, goal)
  {
    var t := c.sels[selCtr];
    assert CodesAre(c.tables[t], codes[t]);
    for i := gs to ge + 1
      invariant s.Valid() && DataLeft(s.bits, c, n, mtfv, i, goal)
    {
      DataNext(s.bits, c, n, mtfv, i, goal, selCtr);
      PutSymbol(s, c.tables[t], codes[t], mtfv[i]);
    }
  }

  /** How far the group counter has come when the values before `gs` are done. */
  predicate AtGroup(gs: int, selCtr: int, nMTF: int)
  {
    gs == Min(nMTF, G_SIZE * selCtr) && G_SIZE * (selCtr - 1) < nMTF && 0 <= selCtr
  }

  method PutData(s: BitWriter, c: Coding, codes: seq<seq<int>>, mtfv: seq<int>, ghost n: int) returns (selCtr: int)
    requires s.Valid() && DataOk(c, n, mtfv) && CodesFor(c, codes) && mtfv != []
    modifies s
    ensures s.Valid() && s.bits == old(s.bits) + DataBits(c, n, mtfv, 0)
    ensures AtGroup(|mtfv|, selCtr, |mtfv|)
  {
    ghost var goal := s.bits + DataBits(c, n, mtfv, 0);
    var gs := 0;
    selCtr := 0;
    while gs < |mtfv|
      invariant s.Valid() && DataLeft(s.bits, c, n, mtfv, gs, goal) && AtGroup(gs, selCtr, |mtfv|)
    {
      var ge := gs + G_SIZE - 1;
      if ge >= |mtfv| { ge := |mtfv| - 1; }
      PutGroup(s, c, codes, mtfv, gs, ge, selCtr, n, goal);
      gs := ge + 1;
      selCtr := selCtr + 1;
    }
    DataDone(s.bits, c, n, mtfv, goal);
  }

  // ----- Bytes, numbers and the block header (compress.c:82-97, 632-650) -----

  method PutUChar(s: BitWriter, c: byte)
    requires s.Valid()
    modifies s
    ensures s.Valid() && s.bits == old(s.bits) + ToBits(c, BYTE_BITS)
  {
    ByteFits(c);
    s.W(BYTE_BITS, c);
  }

  method PutBytes(s: BitWriter, m: seq<byte>)
    requires s.Valid()
    modifies s
    ensures s.Valid() && s.bits == old(s.bits) + BytesToBits(m)
  {
    ghost var b := s.bits;
    for i := 0 to |m|
      invariant s.Valid() && s.bits == b + BytesToBits(m[..i])
    {
      assert m[..i + 1] == m[..i] + [m[i]];
      BytesToBitsSnoc(m[..i], m[i]);
      ConcatAssoc(b, BytesToBits(m[..i]), ToBits(m[i], BYTE_BITS));
      PutUChar(s, m[i]);
    }
    assert m[..|m|] == m;
  }

  lemma JoinByte(u: int, a: nat, n: nat, m: nat, b: byte)
    requires a < Pow2(n) && u == a * 256 + b && m == n + 8
    ensures 0 <= u < Pow2(m) && ToBits(u, m) == ToBits(a, n) + ToBits(b, BYTE_BITS)
  {
    ByteFits(b);
    Pow2Sum(n, BYTE_BITS, m);
    JoinBelow(a, b, Pow2(n), 256);
    BitsOfPair(a, b, n, BYTE_BITS);
  }

  /** Bytes, most significant first, spell the whole number. */
  lemma JoinThree(u0: int, u1: int, u2: int, a: nat, n: nat, m: nat, b2: byte, b1: byte, b0: byte)
    requires a < Pow2(n) && m == n + 24
    requires u2 == a * 256 + b2 && u1 == u2 * 256 + b1 && u0 == u1 * 256 + b0
    ensures u0 >= 0
    ensures ToBits(u0, m) == ((ToBits(a, n) + ToBits(b2, BYTE_BITS)) + ToBits(b1, BYTE_BITS)) + ToBits(b0, BYTE_BITS)
  {
    JoinByte(u2, a, n, n + 8, b2);
    JoinByte(u1, u2, n + 8, n + 16, b1);
    JoinByte(u0, u1, n + 16, m, b0);
  }

  lemma WordSplit(u: int)
    ensures u == (u / 256) * 256 + u % 256
    ensures u / 256 == (u / 0x1_0000) * 256 + u / 256 % 256
    ensures u / 0x1_0000 == (u / 0x100_0000) * 256 + u / 0x1_0000 % 256
  {
  }

  lemma FourParts<T>(b: seq<T>, x: seq<T>, y: seq<T>, z: seq<T>, w: seq<T>)
    ensures (((b + x) + y) + z) + w == b + (((x + y) + z) + w)
  {
  }

  method PutUInt32(s: BitWriter, u: int)
    requires s.Valid() && 0 <= u < 0x1_0000_0000
    modifies s
    ensures s.Valid() && s.bits == old(s.bits) + ToBits(u, CRC_BITS)
  {
    ghost var b := s.bits;
    var b3, b2, b1, b0 := u / 0x100_0000, u / 0x1_0000 % 256, u / 256 % 256, u % 256;
    ByteFits(b3);
    WordSplit(u);
    JoinThree(u, u / 256, u / 0x1_0000, b3, BYTE_BITS, CRC_BITS, b2, b1, b0);
    PutUChar(s, b3);
    PutUChar(s, b2);
    PutUChar(s, b1);
    PutUChar(s, b0);
    FourParts(b, ToBits(b3, BYTE_BITS), ToBits(b2, BYTE_BITS), ToBits(b1, BYTE_BITS), ToBits(b0, BYTE_BITS));
  }

  lemma PtrFits(p: int)
    requires 0 <= p < 0x100_0000
    ensures p < Pow2(PTR_BITS)
  {
    Pow2Values();
  }

  method PutHead(s: BitWriter, h: Head)
    requires s.Valid() && 0 <= h.crc < 0x1_0000_0000 && h.randomised == 0 && 0 <= h.origPtr < 0x100_0000
    modifies s
    ensures s.Valid() && s.bits == old(s.bits) + HeadBits(h)
  {
    ghost var b, x, y, z := s.bits, ToBits(h.crc, CRC_BITS), ToBits(0, 1), ToBits(h.origPtr, PTR_BITS);
    PutUInt32(s, h.crc);
    OneBit(0);
    s.W(1, 0);
    PtrFits(h.origPtr);
    s.W(PTR_BITS, h.origPtr);
    ThreeParts(b, x, y, z);
  }

  lemma ThreeParts<T>(b: seq<T>, x: seq<T>, y: seq<T>, z: seq<T>)
    ensures ((b + x) + y) + z == b + (x + (y + z))
  {
  }

  // ----- Codes for the chosen tables (compress.c:480-492) -----

  method AssignAll(tables: seq<seq<int>>, n: int) returns (codes: seq<seq<int>>)
    requires 0 < n <= 258 && LensOk(tables, n) && forall t :: 0 <= t < |tables| ==> KraftOk(tables[t])
    ensures |codes| == |tables| && forall t :: 0 <= t < |codes| ==> CodesAre(tables[t], codes[t])
  {
    codes := [];
    for t := 0 to |tables|
      invariant |codes| == t && forall u :: 0 <= u < t ==> CodesAre(tables[u], codes[u])
    {
      var code := new int[258];
      var minLen, maxLen := MinMaxLen(tables[t]);
      AssignCodes(code, tables[t], minLen, maxLen, n);
      CodesFit(tables[t], code[..]);
      codes := codes + [code[..]];
    }
  }

  lemma CodesFit(lens: seq<int>, code: seq<int>)
    requires Lengths(lens, 1, 20) && KraftOk(lens) && |lens| <= |code|
    requires forall i :: 0 <= i < |lens| ==> code[i] == Code(lens, i)
    ensures CodesAre(lens, code)
  {
    forall i | 0 <= i < |lens|
      ensures CodeIs(lens, i, code[i])
    {
      CodeFits(lens, i, LONGEST);
    }
  }
}
