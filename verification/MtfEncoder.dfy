/** makeMaps_e and generateMTFValues, with the MTF values written over the pointers already read. */
module MtfEncoder {
  import opened Basics
  import opened InverseBwt
  import opened MoveToFront

  // ----- The alphabet maps -----

  /** How many of the bytes below `c` are in use. */
  // As a constant, so that proofs do not unroll what is defined by recursion on it.
  const ALPHABET: int := 256

  function NumUsed(inUse: seq<bool>, c: int): (n: nat)
    requires 0 <= c <= |inUse|
    ensures n <= c
  {
    if c == 0 then 0 else NumUsed(inUse, c - 1) + if inUse[c - 1] then 1 else 0
  }

  lemma {:induction false} NumUsedMono(inUse: seq<bool>, c: int, d: int)
    requires 0 <= c <= d <= |inUse|
    ensures NumUsed(inUse, c) <= NumUsed(inUse, d)
    ensures c < d && inUse[c] ==> NumUsed(inUse, c) < NumUsed(inUse, d)
    decreases d
  {
    if c < d {
      NumUsedMono(inUse, c, d - 1);
    }
  }

  /** makeMaps_e: byte to dense index. */
  method MakeMapsE(inUse: seq<bool>) returns (unseqToSeq: seq<int>, nInUse: int)
    requires |inUse| == 256
    ensures |unseqToSeq| == 256 && nInUse == NumUsed(inUse, ALPHABET)
    ensures forall c :: 0 <= c < 256 && inUse[c] ==> unseqToSeq[c] == NumUsed(inUse, c)
  {
    nInUse := 0;
    var map' := new int[256];
    for i := 0 to 256
      invariant nInUse == NumUsed(inUse, i)
      invariant forall c :: 0 <= c < i && inUse[c] ==> map'[c] == NumUsed(inUse, c)
    {
      if inUse[i] {
        map'[i] := nInUse;
        nInUse := nInUse + 1;
      }
    }
    unseqToSeq := map'[..];
  }

  /** The bytes below `i` that are in use have been numbered. */
  ghost predicate Numbered(inUse: seq<bool>, m: seq<byte>, i: int)
  {
    && |inUse| == |m| == 256 && 0 <= i <= 256
    && forall c {:trigger NumberAt(inUse, m, c)} :: 0 <= c < i && inUse[c] ==> NumberAt(inUse, m, c)
  }

  ghost predicate NumberAt(inUse: seq<bool>, m: seq<byte>, c: int)
    requires |inUse| == |m| && 0 <= c < |inUse|
  {
    m[NumUsed(inUse, c)] == c
  }

  lemma NumberNext(inUse: seq<bool>, m: seq<byte>, i: int)
    requires Numbered(inUse, m, i) && i < 256
    ensures if inUse[i] then Numbered(inUse, m[NumUsed(inUse, i) := i], i + 1) else Numbered(inUse, m, i + 1)
  {
    if inUse[i] {
      var m' := m[NumUsed(inUse, i) := i];
      forall c | 0 <= c < i + 1 && inUse[c]
        ensures NumberAt(inUse, m', c)
      {
        assert c < i ==> NumberAt(inUse, m, c);
        NumUsedMono(inUse, c, i);
      }
    }
  }

  lemma NumUsedNext(inUse: seq<bool>, i: int)
    requires 0 <= i < |inUse|
    ensures NumUsed(inUse, i + 1) == NumUsed(inUse, i) + if inUse[i] then 1 else 0
  {
  }

  /** makeMaps_d: dense index to byte. */
  method MakeMapsD(inUse: seq<bool>) returns (seqToUnseq: seq<byte>, nInUse: int)
    requires |inUse| == 256
    ensures nInUse == NumUsed(inUse, ALPHABET) && Numbered(inUse, seqToUnseq, 256)
  {
    nInUse := 0;
    var map' := new byte[256];
    for i := 0 to ALPHABET
      invariant nInUse == NumUsed(inUse, i) && Numbered(inUse, map'[..], i)
    {
      ghost var was := map'[..];
      NumberNext(inUse, was, i);
      NumUsedNext(inUse, i);
      if inUse[i] {
        map'[nInUse] := i;
        assert map'[..] == was[nInUse := i];
        nInUse := nInUse + 1;
      }
    }
    seqToUnseq := map'[..];
  }

  /** A column of bytes as dense indices. */
  function Dense(inUse: seq<bool>, l: seq<byte>): (col: seq<int>)
    requires |inUse| == 256
    ensures |col| == |l| && forall i :: 0 <= i < |l| ==> col[i] == NumUsed(inUse, l[i])
  {
    seq(|l|, i requires 0 <= i < |l| => NumUsed(inUse, l[i]))
  }

  lemma DenseOver(inUse: seq<bool>, l: seq<byte>)
    requires |inUse| == 256 && forall i :: 0 <= i < |l| ==> inUse[l[i]]
    ensures Over(Dense(inUse, l), Iota(NumUsed(inUse, ALPHABET)))
  {
    var n := NumUsed(inUse, ALPHABET);
    forall i | 0 <= i < |l|
      ensures Dense(inUse, l)[i] in Iota(n)
    {
      NumUsedMono(inUse, l[i], 256);
      assert Iota(n)[NumUsed(inUse, l[i])] == NumUsed(inUse, l[i]);
    }
  }

  // ----- The list, in place -----

  /** Find `x` and move it to the front (compress.c:189-205). */
  method Promote(yy: array<int>, x: int, n: int) returns (j: int)
    requires 2 <= n <= yy.Length && x in yy[..n] && yy[0] != x
    modifies yy
    ensures 1 <= j < n && j == IndexOf(old(yy[..n]), x) && yy[..n] == ToFront(old(yy[..n]), j)
  {
    ghost var l := yy[..n];
    ghost var at := IndexOf(l, x);
    BeforeIndex(l, x);
    var rtmp := yy[1];
    yy[1] := yy[0];
    j := 1;
    while x != rtmp
      invariant 1 <= j <= at && Shifting(l, yy[..n], j, rtmp)
      decreases at - j
    {
      j := j + 1;
      var rtmp2 := rtmp;
      rtmp := yy[j];
      yy[j] := rtmp2;
    }
    ShiftingDone(l, yy[..n], j, rtmp);
    ghost var t := yy[..n];
    yy[0] := rtmp;
    assert yy[..n] == t[0 := rtmp];
  }

  // ----- arr1: 32-bit pointers and 16-bit MTF values in one buffer -----

  /** `ptr[i]`, two 16-bit halves of the shared buffer. */
  function PtrAt(arr1: seq<int>, i: int): (p: int)
    requires 0 <= i && 2 * i + 1 < |arr1|
  {
    arr1[2 * i] + 65536 * arr1[2 * i + 1]
  }

  /** The pointers from `i` on have not been overwritten. */
  ghost predicate Intact(arr1: seq<int>, ptr: seq<int>, i: int)
  {
    2 * |ptr| <= |arr1| && forall k :: 0 <= i <= k < |ptr| ==> PtrAt(arr1, k) == ptr[k]
  }

  lemma IntactAfter(arr1: seq<int>, arr1': seq<int>, ptr: seq<int>, i: int, wr: int)
    requires Intact(arr1, ptr, i) && |arr1'| == |arr1| && 0 <= wr <= 2 * i
    requires forall k :: wr <= k < |arr1| ==> arr1'[k] == arr1[k]
    ensures Intact(arr1', ptr, i)
  {
    forall k | 0 <= i <= k < |ptr|
      ensures PtrAt(arr1', k) == ptr[k]
    {
      assert PtrAt(arr1, k) == ptr[k];
    }
  }

  /** While flushing: what is written and the digits still to come; nothing behind has changed. */
  ghost predicate Flushing(m0: seq<int>, wr0: int, goal: seq<int>, m: seq<int>, wr: int, zPend: int)
  {
    && |m| == |m0| && 0 <= wr0 <= wr <= |m| && 0 <= zPend && m[..wr] + RunDigits(zPend) == goal
    && forall k :: wr <= k < |m| ==> m[k] == m0[k]
  }

  lemma FlushDigit(m0: seq<int>, wr0: int, goal: seq<int>, m: seq<int>, wr: int, zPend: int, d: int)
    requires Flushing(m0, wr0, goal, m, wr, zPend) && wr < |m| && d == zPend % 2
    ensures zPend >= 2 ==> Flushing(m0, wr0, goal, m[wr := d], wr + 1, (zPend - 2) / 2)
    ensures zPend < 2 ==> m[wr := d][..wr + 1] == goal
  {
    var rest := if zPend < 2 then [] else RunDigits((zPend - 2) / 2);
    assert m[wr := d][..wr + 1] == m[..wr] + [d];
    assert (m[..wr] + [d]) + rest == m[..wr] + ([d] + rest);
    assert (m[..wr] + [d]) + [] == m[..wr] + [d];
  }

  /** Write the digits of a pending run (compress.c:174-188). */
  method FlushRun(mtfv: array<int>, wr0: int, zPend0: int) returns (wr: int)
    requires 0 <= wr0 && 0 <= zPend0 && wr0 + zPend0 <= mtfv.Length
    modifies mtfv
    ensures wr0 <= wr <= wr0 + zPend0 && mtfv[..wr] == old(mtfv[..wr0]) + Flush(zPend0)
    ensures forall k :: wr <= k < mtfv.Length ==> mtfv[k] == old(mtfv[k])
  {
    wr := wr0;
    if zPend0 > 0 {
      wr := FlushDigits(mtfv, wr0, zPend0 - 1);
    }
  }

  method FlushDigits(mtfv: array<int>, wr0: int, z: int) returns (wr: int)
    requires 0 <= wr0 && 0 <= z && wr0 + z + 1 <= mtfv.Length
    modifies mtfv
    ensures wr0 <= wr <= wr0 + z + 1 && mtfv[..wr] == old(mtfv[..wr0]) + RunDigits(z)
    ensures forall k :: wr <= k < mtfv.Length ==> mtfv[k] == old(mtfv[k])
  {
    wr := wr0;
    var zPend := z;
    ghost var m0 := mtfv[..];
    ghost var goal := m0[..wr0] + RunDigits(z);
    while true
      invariant wr + zPend <= wr0 + z && Flushing(m0, wr0, goal, mtfv[..], wr, zPend)
      decreases zPend
    {
      ghost var m := mtfv[..];
      FlushDigit(m0, wr0, goal, m, wr, zPend, zPend % 2);
      if zPend % 2 == 1 {
        mtfv[wr] := RUNB;
      } else {
        mtfv[wr] := RUNA;
      }
      assert mtfv[..] == m[wr := zPend % 2];
      wr := wr + 1;
      if zPend < 2 { break; }
      zPend := (zPend - 2) / 2;
    }
    assert mtfv[..wr] == mtfv[..][..wr];
  }

  /** The state of the main loop: what is written plus what the rest will produce is the whole output. */
  ghost predicate Encoding(out: seq<int>, yy: seq<int>, zPend: int, col: seq<int>, i: int, eob: int, whole: seq<int>)
  {
    && yy != [] && zPend >= 0 && 0 <= i <= |col| && Over(col[i..], yy)
    && whole == out + Encode(yy, zPend, col[i..], eob)
  }

  lemma EncodeSame(out: seq<int>, yy: seq<int>, zPend: int, col: seq<int>, i: int, eob: int, whole: seq<int>)
    requires Encoding(out, yy, zPend, col, i, eob, whole) && i < |col| && col[i] == yy[0]
    ensures Encoding(out, yy, zPend + 1, col, i + 1, eob, whole)
  {
    assert col[i..][1..] == col[i + 1..];
  }

  lemma EncodeOther(out: seq<int>, yy: seq<int>, zPend: int, col: seq<int>, i: int, eob: int, whole: seq<int>)
    requires Encoding(out, yy, zPend, col, i, eob, whole) && i < |col| && col[i] != yy[0]
    ensures col[i] in yy
    ensures var j := IndexOf(yy, col[i]);
      Encoding(out + Flush(zPend) + [j + 1], ToFront(yy, j), 0, col, i + 1, eob, whole)
  {
    var rest := col[i..];
    assert rest[1..] == col[i + 1..] && rest[0] == col[i];
    var j := IndexOf(yy, col[i]);
    OverAfter(rest, yy, j);
    EncodeMoved(out, yy, zPend, rest, eob, j);
  }

  lemma EncodeMoved(out: seq<int>, yy: seq<int>, zPend: nat, rest: seq<int>, eob: int, j: int)
    requires rest != [] && yy != [] && Over(rest, yy) && rest[0] != yy[0] && j == IndexOf(yy, rest[0])
    ensures Over(rest[1..], ToFront(yy, j))
    ensures out + Encode(yy, zPend, rest, eob) ==
      ((out + Flush(zPend)) + [j + 1]) + Encode(ToFront(yy, j), 0, rest[1..], eob)
  {
    OverAfter(rest, yy, j);
    var tail := Encode(ToFront(yy, j), 0, rest[1..], eob);
    assert out + ((Flush(zPend) + [j + 1]) + tail) == ((out + Flush(zPend)) + [j + 1]) + tail;
  }

  lemma OnlySymbol(yy: seq<int>, x: int)
    requires x in yy && x != yy[0]
    ensures |yy| >= 2
  {
  }

  /** Code a symbol that is not at the front (compress.c:172-207). */
  method CodeSymbol(arr1: array<int>, yy: array<int>, nInUse: int, wr0: int, zPend: int, x: int,
                    ghost col: seq<int>, ghost i: int, ghost eob: int, ghost whole: seq<int>) returns (wr: int)
    requires arr1 != yy && 1 <= nInUse <= yy.Length && 0 <= wr0 && 0 <= zPend && wr0 + zPend + 1 <= arr1.Length
    requires Encoding(arr1[..wr0], yy[..nInUse], zPend, col, i, eob, whole)
    requires i < |col| && x == col[i] && x != yy[0]
    modifies arr1, yy
    ensures wr0 <= wr <= wr0 + zPend + 1
    ensures Encoding(arr1[..wr], yy[..nInUse], 0, col, i + 1, eob, whole)
    ensures forall k :: wr <= k < arr1.Length ==> arr1[k] == old(arr1[k])
  {
    ghost var out := arr1[..wr0];
    EncodeOther(out, yy[..nInUse], zPend, col, i, eob, whole);
    OnlySymbol(yy[..nInUse], x);
    wr := FlushRun(arr1, wr0, zPend);
    ghost var out' := arr1[..wr];
    var j := Promote(yy, x, nInUse);
    arr1[wr] := j + 1;
    wr := wr + 1;
    assert arr1[..wr] == out' + [j + 1];
  }

  method IdentityList(n: int) returns (yy: array<int>)
    requires 0 <= n <= 256
    ensures fresh(yy) && yy.Length == 256 && yy[..n] == Iota(n)
  {
    yy := new int[256];
    for i := 0 to n
      invariant forall k :: 0 <= k < i ==> yy[k] == k
    {
      yy[i] := i;
    }
  }

  /** The byte before rotation `i`, read through the shared buffer (compress.c:166-167). */
  method ColumnByte(arr1: array<int>, block: seq<byte>, i: int, ghost ptr: seq<int>) returns (c: byte)
    requires 0 <= i < |block| == |ptr| && Intact(arr1[..], ptr, i)
    requires forall k :: 0 <= k < |ptr| ==> 0 <= ptr[k] < |block|
    ensures c == LastColumn(block, ptr)[i]
  {
    assert PtrAt(arr1[..], i) == ptr[i];
    var j := arr1[2 * i] + 65536 * arr1[2 * i + 1] - 1;
    if j < 0 { j := j + |block|; }
    c := block[j];
  }

  /** The main loop (compress.c:163-210). */
  method CodeColumn(arr1: array<int>, block: seq<byte>, unseqToSeq: seq<int>, yy: array<int>, nInUse: int,
                    ghost ptr: seq<int>, ghost col: seq<int>, ghost eob: int, ghost whole: seq<int>)
    returns (wr: int, zPend: int)
    requires arr1 != yy && 0 < |block| == |ptr| == |col| && 1 <= nInUse <= yy.Length && |unseqToSeq| == 256
    requires Intact(arr1[..], ptr, 0) && forall i :: 0 <= i < |ptr| ==> 0 <= ptr[i] < |block|
    requires forall i :: 0 <= i < |col| ==> col[i] == unseqToSeq[LastColumn(block, ptr)[i]]
    requires Encoding([], yy[..nInUse], 0, col, 0, eob, whole)
    modifies arr1, yy
    ensures 0 <= wr && 0 <= zPend && wr + zPend <= |block|
    ensures Encoding(arr1[..wr], yy[..nInUse], zPend, col, |block|, eob, whole)
  {
    wr, zPend := 0, 0;
    assert arr1[..0] == [];
    for i := 0 to |block|
      invariant CodedTo(arr1[..], yy[..nInUse], wr, zPend, ptr, col, i, eob, whole)
    {
      wr, zPend := CodeAt(arr1, block, unseqToSeq, yy, nInUse, wr, zPend, i, ptr, col, eob, whole);
    }
    CodedParts(arr1[..], yy[..nInUse], wr, zPend, ptr, col, |block|, eob, whole);
    assert arr1[..][..wr] == arr1[..wr];
  }

  /** The loop after `i` bytes of the column. */
  ghost predicate CodedTo(a: seq<int>, list: seq<int>, wr: int, zPend: int, ptr: seq<int>, col: seq<int>, i: int,
                          eob: int, whole: seq<int>)
  {
    && 0 <= wr <= |a| && 0 <= zPend && wr + zPend <= i
    && forall j {:trigger Opened(j)} :: Opened(j) ==>
      Encoding(a[..wr], list, zPend, col, i, eob, whole) && Intact(a, ptr, i)
  }

  lemma CodedParts(a: seq<int>, list: seq<int>, wr: int, zPend: int, ptr: seq<int>, col: seq<int>, i: int, eob: int,
                   whole: seq<int>)
    requires CodedTo(a, list, wr, zPend, ptr, col, i, eob, whole)
    ensures Encoding(a[..wr], list, zPend, col, i, eob, whole) && Intact(a, ptr, i)
  {
    assert Opened(0);
  }

  /** One byte of the column. */
  method CodeAt(arr1: array<int>, block: seq<byte>, unseqToSeq: seq<int>, yy: array<int>, nInUse: int, wr0: int,
                zPend0: int, i: int,
                ghost ptr: seq<int>, ghost col: seq<int>, ghost eob: int, ghost whole: seq<int>)
    returns (wr: int, zPend: int)
    requires arr1 != yy && 0 <= i < |block| == |ptr| == |col| && 1 <= nInUse <= yy.Length && |unseqToSeq| == 256
    requires forall i :: 0 <= i < |ptr| ==> 0 <= ptr[i] < |block|
    requires col[i] == unseqToSeq[LastColumn(block, ptr)[i]]
    requires CodedTo(arr1[..], yy[..nInUse], wr0, zPend0, ptr, col, i, eob, whole)
    modifies arr1, yy
    ensures CodedTo(arr1[..], yy[..nInUse], wr, zPend, ptr, col, i + 1, eob, whole)
  {
    CodedParts(arr1[..], yy[..nInUse], wr0, zPend0, ptr, col, i, eob, whole);
    assert arr1[..][..wr0] == arr1[..wr0];
    var c := ColumnByte(arr1, block, i, ptr);
    wr, zPend := CodeByte(arr1, yy, nInUse, wr0, zPend0, unseqToSeq[c], ptr, col, i, eob, whole);
    assert arr1[..][..wr] == arr1[..wr];
  }

  /** One byte of the column: a longer pending run, or a new symbol; pointers not yet read stay intact. */
  method CodeByte(arr1: array<int>, yy: array<int>, nInUse: int, wr0: int, zPend0: int, x: int,
                  ghost ptr: seq<int>, ghost col: seq<int>, ghost i: int, ghost eob: int, ghost whole: seq<int>)
    returns (wr: int, zPend: int)
    requires arr1 != yy && 1 <= nInUse <= yy.Length && 0 <= wr0 && 0 <= zPend0 && wr0 + zPend0 <= i < |ptr|
    requires Intact(arr1[..], ptr, i)
    requires Encoding(arr1[..wr0], yy[..nInUse], zPend0, col, i, eob, whole) && i < |col| && x == col[i]
    modifies arr1, yy
    ensures 0 <= wr && 0 <= zPend && wr + zPend <= i + 1
    ensures Encoding(arr1[..wr], yy[..nInUse], zPend, col, i + 1, eob, whole)
    ensures Intact(arr1[..], ptr, i + 1)
  {
    ghost var a := arr1[..];
    if yy[0] == x {
      EncodeSame(arr1[..wr0], yy[..nInUse], zPend0, col, i, eob, whole);
      wr, zPend := wr0, zPend0 + 1;
    } else {
      wr := CodeSymbol(arr1, yy, nInUse, wr0, zPend0, x, col, i, eob, whole);
      zPend := 0;
      IntactAfter(a, arr1[..], ptr, i + 1, wr);
    }
  }

  /** The last run and the end mark (compress.c:212-230). */
  method CodeEnd(arr1: array<int>, wr0: int, zPend: int, eob: int, ghost yy: seq<int>, ghost col: seq<int>,
                 ghost whole: seq<int>)
    returns (wr: int)
    requires 0 <= wr0 && 0 <= zPend && wr0 + zPend < arr1.Length
    requires Encoding(arr1[..wr0], yy, zPend, col, |col|, eob, whole)
    modifies arr1
    ensures wr0 < wr <= wr0 + zPend + 1 && arr1[..wr] == whole
  {
    ghost var out := arr1[..wr0];
    assert col[|col|..] == [];
    wr := FlushRun(arr1, wr0, zPend);
    ghost var out' := arr1[..wr];
    arr1[wr] := eob;
    wr := wr + 1;
    assert arr1[..wr] == out' + [eob];
    assert out + (Flush(zPend) + [eob]) == (out + Flush(zPend)) + [eob];
  }

  /** generateMTFValues: although the values overwrite the pointers, they come out as if from a copy. */
  method GenerateMTFValues(arr1: array<int>, block: seq<byte>, inUse: seq<bool>, ghost ptr: seq<int>)
    returns (nMTF: int, nInUse: int)
    requires 0 < |block| == |ptr| && 2 * |block| <= arr1.Length && Intact(arr1[..], ptr, 0)
    requires forall i :: 0 <= i < |ptr| ==> 0 <= ptr[i] < |block|
    requires |inUse| == 256 && forall i :: 0 <= i < |block| ==> inUse[block[i]]
    modifies arr1
    ensures nInUse == NumUsed(inUse, ALPHABET) >= 1 && 1 <= nMTF <= |block| + 1
    ensures Over(Dense(inUse, LastColumn(block, ptr)), Iota(nInUse))
    ensures arr1[..nMTF] == Encode(Iota(nInUse), 0, Dense(inUse, LastColumn(block, ptr)), nInUse + 1)
  {
    var unseqToSeq;
    unseqToSeq, nInUse := MakeMapsE(inUse);
    ghost var l := LastColumn(block, ptr);
    ghost var col := Dense(inUse, l);
    DenseOver(inUse, l);
    NumUsedMono(inUse, block[0], ALPHABET);
    ghost var whole := Encode(Iota(nInUse), 0, col, nInUse + 1);
    assert col[0..] == col && [] + whole == whole;
    nMTF := CodeAll(arr1, block, unseqToSeq, nInUse, ptr, col, whole);
  }

  method CodeAll(arr1: array<int>, block: seq<byte>, unseqToSeq: seq<int>, nInUse: int,
                 ghost ptr: seq<int>, ghost col: seq<int>, ghost whole: seq<int>)
    returns (nMTF: int)
    requires 0 < |block| == |ptr| == |col| && 1 <= nInUse <= 256 && |unseqToSeq| == 256 && 2 * |block| <= arr1.Length
    requires Intact(arr1[..], ptr, 0) && forall i :: 0 <= i < |ptr| ==> 0 <= ptr[i] < |block|
    requires forall i :: 0 <= i < |col| ==> col[i] == unseqToSeq[LastColumn(block, ptr)[i]]
    requires Encoding([], Iota(nInUse), 0, col, 0, nInUse + 1, whole)
    modifies arr1
    ensures 1 <= nMTF <= |block| + 1 && nMTF <= arr1.Length && arr1[..nMTF] == whole
  {
    var yy := IdentityList(nInUse);
    var wr, zPend := CodeColumn(arr1, block, unseqToSeq, yy, nInUse, ptr, col, nInUse + 1, whole);
    nMTF := CodeEnd(arr1, wr, zPend, nInUse + 1, yy[..nInUse], col, whole);
  }
}
