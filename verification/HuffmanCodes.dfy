/** Canonical Huffman codes: BZ2_hbAssignCodes, BZ2_hbCreateDecodeTables and the GET_MTF_VAL loop. */
module HuffmanCodes {
  import opened Basics
  import opened Bits
  import opened InverseBwt
  import opened HuffmanTree

  // ----- The canonical numbering -----

  /** The first code of length `n`: shorter codes are used up first. */
  function FirstCode(lens: seq<int>, n: nat): (c: nat)
  {
    if n == 0 then 0 else 2 * (FirstCode(lens, n - 1) + Count(lens, n - 1))
  }

  /** Codes of one length go to its symbols in order. */
  function Code(lens: seq<int>, i: int): (c: nat)
    requires 0 <= i < |lens| && lens[i] >= 0
  {
    FirstCode(lens, lens[i]) + Count(lens[..i], lens[i])
  }

  ghost predicate Lengths(lens: seq<int>, lo: int, hi: int)
  {
    1 <= lo <= hi && forall i :: 0 <= i < |lens| ==> lo <= lens[i] <= hi
  }

  const LONGEST: nat := 20

  /** The Kraft sum is at most one. */
  ghost predicate KraftOk(lens: seq<int>)
  {
    Kraft(lens, LONGEST) <= Pow2(LONGEST)
  }

  lemma CodeRange(lens: seq<int>, i: int)
    requires 0 <= i < |lens| && lens[i] >= 0
    ensures FirstCode(lens, lens[i]) <= Code(lens, i) < FirstCode(lens, lens[i]) + Count(lens, lens[i])
  {
    CountPrefixMono(lens, i, |lens|, lens[i]);
    assert lens[..|lens|] == lens;
  }

  lemma GrowCore(f: int, p: int, x: int)
    requires f >= p * x
    ensures 2 * f >= (2 * p) * x
  {
    assert (2 * p) * x == 2 * (p * x);
  }

  /** Codes of length `n` and more start after everything shorter. */
  lemma {:induction false} FirstCodeGrows(lens: seq<int>, m: nat, n: nat)
    requires m < n
    ensures FirstCode(lens, n) >= Pow2(n - m) * (FirstCode(lens, m) + Count(lens, m))
    decreases n
  {
    if m + 1 < n {
      FirstCodeGrows(lens, m, n - 1);
      GrowCore(FirstCode(lens, n - 1), Pow2(n - 1 - m), FirstCode(lens, m) + Count(lens, m));
      assert Pow2(n - m) == 2 * Pow2(n - 1 - m);
    } else {
      assert Pow2(n - m) == 2;
    }
  }

  // ----- Codes fit their length exactly when the Kraft sum allows it -----

  /** Kraft sum of the lengths up to `n`, in units of 2^-d. */
  function KraftUpTo(lens: seq<int>, n: int, d: int): (s: int)
  {
    if lens == [] then 0
    else
      var l := lens[|lens| - 1];
      KraftUpTo(lens[..|lens| - 1], n, d) + if 0 <= l <= n && l <= d then Pow2(d - l) else 0
  }

  lemma {:induction false} KraftStep(lens: seq<int>, n: nat, d: nat)
    requires 0 < n <= d
    ensures KraftUpTo(lens, n, d) == KraftUpTo(lens, n - 1, d) + Count(lens, n) * Pow2(d - n)
  {
    if lens != [] {
      KraftStep(lens[..|lens| - 1], n, d);
    }
  }

  lemma {:induction false} KraftZero(lens: seq<int>, d: nat)
    requires forall i :: 0 <= i < |lens| ==> lens[i] >= 1
    ensures KraftUpTo(lens, 0, d) == 0 && Count(lens, 0) == 0
  {
    if lens != [] {
      KraftZero(lens[..|lens| - 1], d);
    }
  }

  lemma {:induction false} KraftPart(lens: seq<int>, n: int, d: int)
    requires n <= d
    ensures KraftUpTo(lens, n, d) <= Kraft(lens, d)
  {
    if lens != [] {
      KraftPart(lens[..|lens| - 1], n, d);
    }
  }

  /** The numbering uses exactly the code space of the lengths handed out so far. */
  lemma {:induction false} CodesUsed(lens: seq<int>, n: nat, d: nat)
    requires n <= d && forall i :: 0 <= i < |lens| ==> lens[i] >= 1
    ensures (FirstCode(lens, n) + Count(lens, n)) * Pow2(d - n) == KraftUpTo(lens, n, d)
    decreases n
  {
    KraftZero(lens, d);
    if n != 0 {
      CodesUsed(lens, n - 1, d);
      KraftStep(lens, n, d);
      assert Pow2(d - (n - 1)) == 2 * Pow2(d - n);
      UsedCore(FirstCode(lens, n - 1) + Count(lens, n - 1), Count(lens, n), Pow2(d - n), KraftUpTo(lens, n - 1, d));
    }
  }

  lemma UsedCore(x: int, c: int, p: int, k: int)
    requires x * (2 * p) == k
    ensures (2 * x + c) * p == k + c * p
  {
  }

  lemma Distribute(a: int, b: int, p: int)
    ensures (a + b) * p == a * p + b * p
  {
  }

  /** With a Kraft sum of at most one, every code fits in its own length. */
  lemma CodeFits(lens: seq<int>, i: int, d: nat)
    requires 0 <= i < |lens| && Lengths(lens, 1, d) && Kraft(lens, d) <= Pow2(d)
    ensures Code(lens, i) < Pow2(lens[i])
  {
    var n := lens[i];
    CodeRange(lens, i);
    CodesUsed(lens, n, d);
    KraftPart(lens, n, d);
    var x := FirstCode(lens, n) + Count(lens, n);
    Pow2Add(n, d - n);
    if x > Pow2(n) {
      ScaleMono(Pow2(n) + 1, x, Pow2(d - n));
      Distribute(Pow2(n), 1, Pow2(d - n));
    }
  }

  // ----- Codes as bit strings -----

  function CodeBits(lens: seq<int>, i: int): (s: seq<bit>)
    requires 0 <= i < |lens| && lens[i] >= 0
    ensures |s| == lens[i]
  {
    ToBits(Code(lens, i), lens[i])
  }

  lemma PrefixAboveCore(pre: int, rest: int, p: int, x: int)
    requires 0 <= rest < p && pre * p + rest >= p * x
    ensures pre >= x
  {
    if pre < x {
      ScaleMono(pre + 1, x, p);
      Distribute(pre, 1, p);
    }
  }

  /** A code cut short reads as a value above every code of the shorter length. */
  lemma PrefixAbove(lens: seq<int>, i: int, m: nat)
    requires 0 <= i < |lens| && m < lens[i] && Code(lens, i) < Pow2(lens[i])
    ensures FromBits(CodeBits(lens, i)[..m]) >= FirstCode(lens, m) + Count(lens, m)
  {
    var code := CodeBits(lens, i);
    FirstCodeGrows(lens, m, lens[i]);
    FromToBits(Code(lens, i), lens[i]);
    FromBitsSplit(code, m);
    PrefixAboveCore(FromBits(code[..m]), FromBits(code[m..]), Pow2(lens[i] - m), FirstCode(lens, m) + Count(lens, m));
  }

  lemma CodesDistinct(lens: seq<int>, i: int, j: int)
    requires 0 <= i < j < |lens| && 0 <= lens[i] == lens[j]
    ensures Code(lens, i) < Code(lens, j)
  {
    CountPrefixMono(lens, i, j, lens[i]);
  }

  lemma PrefixDiffers(lens: seq<int>, i: int, j: int)
    requires 0 <= i < |lens| && 0 <= j < |lens| && i != j && 0 <= lens[i] <= lens[j]
    requires Code(lens, i) < Pow2(lens[i]) && Code(lens, j) < Pow2(lens[j])
    ensures CodeBits(lens, j)[..lens[i]] != CodeBits(lens, i)
  {
    FromToBits(Code(lens, i), lens[i]);
    if lens[i] < lens[j] {
      CodeRange(lens, i);
      PrefixAbove(lens, j, lens[i]);
    } else {
      CodesDistinct(lens, Min(i, j), Max(i, j));
      assert CodeBits(lens, j)[..lens[j]] == CodeBits(lens, j);
      FromToBits(Code(lens, j), lens[j]);
    }
  }

  /** No code is a prefix of another. */
  lemma PrefixFree(lens: seq<int>, i: int, j: int, d: nat)
    requires 0 <= i < |lens| && 0 <= j < |lens| && i != j && Lengths(lens, 1, d) && Kraft(lens, d) <= Pow2(d)
    ensures !(CodeBits(lens, i) <= CodeBits(lens, j))
  {
    CodeFits(lens, i, d);
    CodeFits(lens, j, d);
    PrefixSlice(CodeBits(lens, i), CodeBits(lens, j));
    if lens[i] <= lens[j] {
      PrefixDiffers(lens, i, j);
    }
  }

  lemma PrefixSlice<T>(a: seq<T>, b: seq<T>)
    ensures a <= b ==> |a| <= |b| && b[..|a|] == a
  {
  }

  // ----- Shortest and longest code (compress.c:482-487, decompress.c:333-338) -----

  method MinMaxLen(lens: seq<int>) returns (minLen: int, maxLen: int)
    requires lens != [] && Lengths(lens, 1, 20)
    ensures Lengths(lens, minLen, maxLen) && maxLen <= 20 && minLen in lens && maxLen in lens
  {
    minLen, maxLen := 32, 0;
    for i := 0 to |lens|
      invariant forall k :: 0 <= k < i ==> minLen <= lens[k] <= maxLen
      invariant if i == 0 then minLen == 32 && maxLen == 0 else minLen in lens && maxLen in lens
    {
      if lens[i] > maxLen { maxLen := lens[i]; }
      if lens[i] < minLen { minLen := lens[i]; }
    }
  }

  // ----- BZ2_hbAssignCodes -----

  lemma {:induction false} NoneShorter(lens: seq<int>, lo: int, n: nat)
    requires n <= lo && forall i :: 0 <= i < |lens| ==> lo <= lens[i]
    ensures FirstCode(lens, n) == 0 && CountLess(lens, n) == 0
  {
    if n != 0 {
      NoneShorter(lens, lo, n - 1);
      CountNone(lens, n - 1);
    }
    CountLessNone(lens, n);
  }

  lemma {:induction false} CountNone(lens: seq<int>, c: int)
    requires forall i :: 0 <= i < |lens| ==> lens[i] != c
    ensures Count(lens, c) == 0
  {
    if lens != [] {
      CountNone(lens[..|lens| - 1], c);
    }
  }

  lemma CountNext(lens: seq<int>, i: int, c: int)
    requires 0 <= i < |lens|
    ensures Count(lens[..i + 1], c) == Count(lens[..i], c) + if lens[i] == c then 1 else 0
  {
    assert lens[..i + 1][..i] == lens[..i];
  }

  method AssignCodes(code: array<int>, length: seq<int>, minLen: int, maxLen: int, alphaSize: int)
    requires |length| == alphaSize <= code.Length && Lengths(length, minLen, maxLen)
    modifies code
    ensures forall i :: 0 <= i < alphaSize ==> code[i] == Code(length, i)
  {
    var vec := 0;
    NoneShorter(length, minLen, minLen);
    for n := minLen to maxLen + 1
      invariant vec == FirstCode(length, n)
      invariant forall i :: 0 <= i < alphaSize && length[i] < n ==> code[i] == Code(length, i)
    {
      for i := 0 to alphaSize
        invariant vec == FirstCode(length, n) + Count(length[..i], n)
        invariant forall k :: 0 <= k < alphaSize && (length[k] < n || (length[k] == n && k < i)) ==>
          code[k] == Code(length, k)
      {
        CountNext(length, i, n);
        if length[i] == n {
          code[i] := vec;
          vec := vec + 1;
        }
      }
      assert length[..alphaSize] == length;
      vec := vec * 2;
    }
  }

  // ----- BZ2_hbCreateDecodeTables -----

  datatype Table = Table(minLen: int, limit: seq<int>, base: seq<int>, perm: seq<int>)

  const MAX_CODE_LEN := 23

  /** `t` decodes the canonical code of `lens`. */
  ghost predicate TableFor(lens: seq<int>, lo: int, hi: int, t: Table)
  {
    && Lengths(lens, lo, hi) && hi <= 20 && |lens| <= 258
    && t.minLen == lo && |t.limit| == |t.base| == |t.perm| == 258
    && (forall n :: lo <= n <= hi ==> LimitAt(lens, n, t.limit[n]) && OffsetAt(lens, n, t.base[n]))
    && (forall j :: 0 <= j < |lens| ==> Rank(lens, j) < |lens| && t.perm[Rank(lens, j)] == j)
  }

  /** Symbol `k` comes before symbol `j` of length `i` in the sorted order. */
  ghost predicate Earlier(length: seq<int>, k: int, i: int, j: int)
    requires 0 <= k < |length|
  {
    length[k] < i || (length[k] == i && k < j)
  }

  ghost predicate Placed(length: seq<int>, ranks: seq<int>, perm: seq<int>, i: int, j: int)
    requires |ranks| == |length| && forall k :: 0 <= k < |ranks| ==> 0 <= ranks[k] < |perm|
  {
    forall k :: 0 <= k < |length| && Earlier(length, k, i, j) ==> perm[ranks[k]] == k
  }

  lemma PlaceNext(length: seq<int>, ranks: seq<int>, perm: seq<int>, i: int, j: int)
    requires IsPermutation(ranks) && |ranks| == |length| <= |perm| && 0 <= j < |length|
    requires Placed(length, ranks, perm, i, j)
    ensures length[j] == i ==> Placed(length, ranks, perm[ranks[j] := j], i, j + 1)
    ensures length[j] != i ==> Placed(length, ranks, perm, i, j + 1)
  {
    forall k | 0 <= k < |length| && k != j
      ensures ranks[k] != ranks[j]
    {
      assert k < j || j < k;
    }
  }

  /** All symbols of one length. */
  method SortLength(length: seq<int>, i: int, perm: array<int>, pp0: int, ghost ranks: seq<int>) returns (pp: int)
    requires |length| <= perm.Length && ranks == Ranks(length) && IsPermutation(ranks)
    requires pp0 == CountLess(length, i) && Placed(length, ranks, perm[..], i, 0)
    modifies perm
    ensures pp == CountLess(length, i + 1) && Placed(length, ranks, perm[..], i, |length|)
  {
    pp := pp0;
    for j := 0 to |length|
      invariant pp == CountLess(length, i) + Count(length[..j], i)
      invariant Placed(length, ranks, perm[..], i, j)
    {
      CountNext(length, j, i);
      PlaceNext(length, ranks, perm[..], i, j);
      if length[j] == i {
        ghost var was := perm[..];
        assert pp == ranks[j];
        perm[pp] := j;
        assert perm[..] == was[pp := j];
        pp := pp + 1;
      }
    }
    assert length[..|length|] == length;
    CountLessStep(length, i);
  }

  /** Symbols sorted by length, then by number (huffman.c:180-183). */
  method SortSymbols(length: seq<int>, minLen: int, maxLen: int, perm: array<int>)
    requires |length| <= perm.Length && Lengths(length, minLen, maxLen)
    modifies perm
    ensures forall j :: 0 <= j < |length| ==> Rank(length, j) < |length| && perm[Rank(length, j)] == j
  {
    RanksPermutation(length);
    ghost var ranks := Ranks(length);
    var pp := 0;
    NoneShorter(length, minLen, minLen);
    for i := minLen to maxLen + 1
      invariant pp == CountLess(length, i) && Placed(length, ranks, perm[..], i, 0)
    {
      pp := SortLength(length, i, perm, pp, ranks);
    }
    forall j | 0 <= j < |length|
      ensures Rank(length, j) < |length| && perm[Rank(length, j)] == j
    {
      assert Earlier(length, j, maxLen + 1, 0);
      assert perm[..][ranks[j]] == j;
    }
  }

  /** Cumulative counts (huffman.c:185-188). */
  method CumulateCounts(length: seq<int>, base: array<int>)
    requires base.Length >= MAX_CODE_LEN && forall i :: 0 <= i < |length| ==> 0 <= length[i] <= 20
    modifies base
    ensures forall n :: 0 <= n < MAX_CODE_LEN ==> base[n] == CountLess(length, n)
  {
    for i := 0 to MAX_CODE_LEN
      invariant forall n :: 0 <= n < i ==> base[n] == 0
    {
      base[i] := 0;
    }
    for i := 0 to |length|
      invariant base[0] == 0 && forall n :: 1 <= n < MAX_CODE_LEN ==> base[n] == Count(length[..i], n - 1)
    {
      var next := length[..i + 1];
      forall c | 0 <= c < MAX_CODE_LEN
        ensures Count(next, c) == Count(length[..i], c) + if length[i] == c then 1 else 0
      {
        CountNext(length, i, c);
      }
      base[length[i] + 1] := base[length[i] + 1] + 1;
    }
    assert length[..|length|] == length;
    CountLessNone(length, 0);
    for i := 1 to MAX_CODE_LEN
      invariant forall n :: 0 <= n < i ==> base[n] == CountLess(length, n)
      invariant forall n :: i <= n < MAX_CODE_LEN ==> base[n] == Count(length, n - 1)
    {
      CountLessStep(length, i - 1);
      base[i] := base[i] + base[i - 1];
    }
  }

  ghost predicate LimitAt(length: seq<int>, n: nat, x: int) { x == FirstCode(length, n) + Count(length, n) - 1 }

  ghost predicate OffsetAt(length: seq<int>, n: nat, x: int) { x == FirstCode(length, n) - CountLess(length, n) }

  /** The last code of each length (huffman.c:190-197). */
  method Limits(length: seq<int>, minLen: int, maxLen: int, limit: array<int>, base: array<int>)
    requires limit != base && limit.Length >= MAX_CODE_LEN && base.Length >= MAX_CODE_LEN
    requires Lengths(length, minLen, maxLen) && maxLen <= 20
    requires forall n :: 0 <= n < MAX_CODE_LEN ==> base[n] == CountLess(length, n)
    modifies limit
    ensures forall n :: minLen <= n <= maxLen ==> LimitAt(length, n, limit[n])
  {
    for i := 0 to MAX_CODE_LEN {
      limit[i] := 0;
    }
    var vec := 0;
    NoneShorter(length, minLen, minLen);
    for i := minLen to maxLen + 1
      invariant vec == FirstCode(length, i)
      invariant forall n :: minLen <= n < i ==> LimitAt(length, n, limit[n])
    {
      CountLessStep(length, i);
      vec := vec + (base[i + 1] - base[i]);
      limit[i] := vec - 1;
      vec := vec * 2;
    }
  }

  /** What to subtract from a code to get its place in `perm` (huffman.c:198-199). */
  method Offsets(length: seq<int>, minLen: int, maxLen: int, limit: array<int>, base: array<int>)
    requires limit != base && limit.Length >= MAX_CODE_LEN && base.Length >= MAX_CODE_LEN
    requires Lengths(length, minLen, maxLen) && maxLen <= 20
    requires forall n :: 0 <= n < MAX_CODE_LEN ==> base[n] == CountLess(length, n)
    requires forall n :: minLen <= n <= maxLen ==> LimitAt(length, n, limit[n])
    modifies base
    ensures forall n :: minLen <= n <= maxLen ==> OffsetAt(length, n, base[n])
  {
    NoneShorter(length, minLen, minLen);
    for i := minLen + 1 to maxLen + 1
      invariant forall n :: i <= n <= maxLen ==> base[n] == CountLess(length, n)
      invariant forall n :: minLen <= n < i ==> OffsetAt(length, n, base[n])
    {
      assert LimitAt(length, i - 1, limit[i - 1]);
      base[i] := (limit[i - 1] + 1) * 2 - base[i];
    }
  }

  method CreateDecodeTables(length: seq<int>, minLen: int, maxLen: int) returns (t: Table)
    requires |length| <= 258 && Lengths(length, minLen, maxLen) && maxLen <= 20
    ensures TableFor(length, minLen, maxLen, t)
  {
    var limit, base, perm := new int[258], new int[258], new int[258];
    SortSymbols(length, minLen, maxLen, perm);
    CumulateCounts(length, base);
    Limits(length, minLen, maxLen, limit, base);
    Offsets(length, minLen, maxLen, limit, base);
    t := Table(minLen, limit[..], base[..], perm[..]);
  }

  // ----- Decoding one symbol (GET_MTF_VAL) -----

  /** Lengthen the code bit by bit until it is within the limit of its length (decompress.c:90-101). */
  function Climb(t: Table, zn: nat, zvec: int, s: seq<bit>): (r: Option<(int, seq<bit>)>)
    requires |t.limit| == |t.base| == |t.perm| == 258
    decreases 21 - zn
  {
    if zn > 20 then None
    else if zvec <= t.limit[zn] then
      var k := zvec - t.base[zn];
      if k < 0 || k >= 258 then None else Some((t.perm[k], s))
    else if s == [] then None
    else Climb(t, zn + 1, 2 * zvec + s[0], s[1..])
  }

  predicate TableShape(t: Table) { |t.limit| == |t.base| == |t.perm| == 258 && 1 <= t.minLen <= 20 }

  function GetSymbol(t: Table, s: seq<bit>): (r: Option<(int, seq<bit>)>)
    requires TableShape(t)
  {
    if |s| < t.minLen then None else Climb(t, t.minLen, FromBits(s[..t.minLen]), s[t.minLen..])
  }

  lemma TopOfCode(lens: seq<int>, lo: int, hi: int, t: Table, i: int)
    requires TableFor(lens, lo, hi, t) && 0 <= i < |lens|
    ensures Code(lens, i) <= t.limit[lens[i]] && Code(lens, i) - t.base[lens[i]] == Rank(lens, i)
    ensures t.perm[Rank(lens, i)] == i
  {
    CodeRange(lens, i);
    assert LimitAt(lens, lens[i], t.limit[lens[i]]) && OffsetAt(lens, lens[i], t.base[lens[i]]);
    assert Rank(lens, i) == CountLess(lens, lens[i]) + Count(lens[..i], lens[i]);
  }

  lemma NextBit(code: seq<bit>, zn: nat, rest: seq<bit>)
    requires zn < |code|
    ensures var s := code[zn..] + rest;
      s != [] && 2 * FromBits(code[..zn]) + s[0] == FromBits(code[..zn + 1]) && s[1..] == code[zn + 1..] + rest
  {
    FromBitsSnoc(code[..zn], code[zn]);
    assert code[..zn + 1] == code[..zn] + [code[zn]];
  }

  lemma ClimbEnds(lens: seq<int>, lo: int, hi: int, t: Table, i: int, rest: seq<bit>)
    requires TableFor(lens, lo, hi, t) && 0 <= i < |lens| && lo <= lens[i] && Code(lens, i) < Pow2(lens[i])
    ensures var code, n := CodeBits(lens, i), lens[i];
      Climb(t, n, FromBits(code[..n]), code[n..] + rest) == Some((i, rest))
  {
    var code, n := CodeBits(lens, i), lens[i];
    TopOfCode(lens, lo, hi, t, i);
    FromToBits(Code(lens, i), n);
    assert code[..n] == code && code[n..] + rest == rest;
  }

  /** From any cut of its code at least `minLen` long, the loop climbs to the symbol. */
  lemma {:induction false} ClimbToSymbol(lens: seq<int>, lo: int, hi: int, t: Table, i: int, zn: nat, rest: seq<bit>)
    requires TableFor(lens, lo, hi, t) && 0 <= i < |lens| && lo <= zn <= lens[i] && Code(lens, i) < Pow2(lens[i])
    ensures Climb(t, zn, FromBits(CodeBits(lens, i)[..zn]), CodeBits(lens, i)[zn..] + rest) == Some((i, rest))
    decreases lens[i] - zn
  {
    if zn == lens[i] {
      ClimbEnds(lens, lo, hi, t, i, rest);
    } else {
      PrefixAbove(lens, i, zn);
      assert LimitAt(lens, zn, t.limit[zn]);
      ClimbToSymbol(lens, lo, hi, t, i, zn + 1, rest);
      NextBit(CodeBits(lens, i), zn, rest);
    }
  }

  /** Each code, followed by any further bits, decodes to its own symbol and takes exactly its length. */
  lemma DecodeInvertsCode(lens: seq<int>, lo: int, hi: int, t: Table, i: int, rest: seq<bit>)
    requires TableFor(lens, lo, hi, t) && 0 <= i < |lens| && Kraft(lens, hi) <= Pow2(hi)
    ensures GetSymbol(t, CodeBits(lens, i) + rest) == Some((i, rest))
  {
    var code := CodeBits(lens, i);
    var s := code + rest;
    CodeFits(lens, i, hi);
    assert s[..lo] == code[..lo] && s[lo..] == code[lo..] + rest;
    ClimbToSymbol(lens, lo, hi, t, i, lo, rest);
  }
}
