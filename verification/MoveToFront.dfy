/** Move-to-front with zero-run coding: the values the encoder sends for a column, and their inverse. */
module MoveToFront {
  import opened Basics

  const RUNA := 0
  const RUNB := 1

  // ----- The list -----

  function ToFront(l: seq<int>, j: int): (r: seq<int>)
    requires 0 <= j < |l|
    ensures |r| == |l|
  {
    [l[j]] + l[..j] + l[j + 1..]
  }

  function IndexOf(l: seq<int>, x: int): (j: int)
    requires x in l
    ensures 0 <= j < |l| && l[j] == x && x !in l[..j]
  {
    if l[0] == x then 0 else
      assert forall k :: 0 < k < |l| ==> l[k] == l[1..][k - 1];
      var j := IndexOf(l[1..], x) + 1;
      assert l[..j] == [l[0]] + l[1..][..j - 1];
      j
  }

  lemma ToFrontMembers(l: seq<int>, j: int, x: int)
    requires 0 <= j < |l|
    ensures x in ToFront(l, j) <==> x in l
  {
    assert l == l[..j] + [l[j]] + l[j + 1..];
  }

  /** A longer list behaves the same at the front. */
  lemma ToFrontLonger(l: seq<int>, tail: seq<int>, j: int)
    requires 0 <= j < |l|
    ensures ToFront(l + tail, j) == ToFront(l, j) + tail
  {
  }

  // ----- Moving up and searching in one pass -----

  /** While the search runs: the entries before `j` have moved up by one, and `hold` is in hand. */
  ghost predicate Shifting(l: seq<int>, t: seq<int>, j: int, hold: int)
  {
    && |t| == |l| && 0 <= j < |l| && hold == l[j]
    && (forall m :: 1 <= m <= j ==> t[m] == l[m - 1])
    && (forall m :: j < m < |l| ==> t[m] == l[m])
  }

  lemma ShiftingDone(l: seq<int>, t: seq<int>, j: int, hold: int)
    requires Shifting(l, t, j, hold)
    ensures t[0 := hold] == ToFront(l, j)
  {
    forall m | 0 <= m < |l|
      ensures t[0 := hold][m] == ToFront(l, j)[m]
    {
    }
  }

  lemma BeforeIndex(l: seq<int>, x: int)
    requires x in l
    ensures forall m :: 0 <= m < IndexOf(l, x) ==> l[m] != x
  {
    var at := IndexOf(l, x);
    forall m | 0 <= m < at
      ensures l[m] != x
    {
      assert l[..at][m] == l[m];
    }
  }

  // ----- Run lengths in bijective base two -----

  /** Digits for a pending run of `z + 1` (compress.c:175-186). */
  function RunDigits(z: nat): (ds: seq<int>)
    ensures 1 <= |ds| <= z + 1
    ensures forall k :: 0 <= k < |ds| ==> ds[k] == RUNA || ds[k] == RUNB
  {
    [z % 2] + if z < 2 then [] else RunDigits((z - 2) / 2)
  }

  /** What the decoder adds up: digit `d` at weight `n` counts `(d + 1) * n` (decompress.c:381-391). */
  function RunValue(ds: seq<int>): (v: int)
  {
    if ds == [] then 0 else ds[0] + 1 + 2 * RunValue(ds[1..])
  }

  lemma {:induction false} RunRoundTrip(z: nat)
    ensures RunValue(RunDigits(z)) == z + 1
  {
    if z >= 2 {
      RunRoundTrip((z - 2) / 2);
      assert RunDigits(z)[1..] == RunDigits((z - 2) / 2);
    }
  }

  /** A pending run of `n`, possibly none. */
  function Flush(n: nat): (ds: seq<int>)
    ensures |ds| <= n && forall k :: 0 <= k < |ds| ==> ds[k] == RUNA || ds[k] == RUNB
  {
    if n == 0 then [] else RunDigits(n - 1)
  }

  // ----- Encoding a column -----

  ghost predicate Over(col: seq<int>, yy: seq<int>)
  {
    forall i :: 0 <= i < |col| ==> col[i] in yy
  }

  /** The values sent for `col` when `zPend` copies of the front symbol are pending. */
  function Encode(yy: seq<int>, zPend: nat, col: seq<int>, eob: int): (vs: seq<int>)
    requires yy != [] && Over(col, yy)
    decreases |col|
  {
    if col == [] then Flush(zPend) + [eob]
    else if col[0] == yy[0] then
      assert Over(col[1..], yy);
      Encode(yy, zPend + 1, col[1..], eob)
    else
      var j := IndexOf(yy, col[0]);
      OverAfter(col, yy, j);
      Flush(zPend) + [j + 1] + Encode(ToFront(yy, j), 0, col[1..], eob)
  }

  lemma OverAfter(col: seq<int>, yy: seq<int>, j: int)
    requires col != [] && Over(col, yy) && 0 <= j < |yy|
    ensures Over(col[1..], ToFront(yy, j))
  {
    forall i | 0 <= i < |col| - 1
      ensures col[1..][i] in ToFront(yy, j)
    {
      assert col[1..][i] == col[i + 1];
      ToFrontMembers(yy, j, col[i + 1]);
    }
  }

  // ----- Decoding -----

  predicate IsRun(v: int) { v == RUNA || v == RUNB }

  /** Leading run digits of `vs`. */
  function RunPrefix(vs: seq<int>): (n: nat)
    ensures n <= |vs| && (forall k :: 0 <= k < n ==> IsRun(vs[k])) && (n < |vs| ==> !IsRun(vs[n]))
  {
    if vs == [] || !IsRun(vs[0]) then 0 else 1 + RunPrefix(vs[1..])
  }

  /** The column the decoder rebuilds from the values up to `eob`; None where it would report an error. */
  function Decode(yy: seq<int>, vs: seq<int>, eob: int): (r: Option<seq<int>>)
    requires yy != []
    decreases |vs|
  {
    if vs == [] then None
    else if vs[0] == eob then Some([])
    else if IsRun(vs[0]) then
      var n := RunPrefix(vs);
      assert n >= 1;
      var run := RunValue(vs[..n]);
      var rest := Decode(yy, vs[n..], eob);
      if rest.None? || run < 0 then None else Some(Rep(yy[0], run) + rest.value)
    else if vs[0] < 1 || vs[0] - 1 >= |yy| then None
    else
      var rest := Decode(ToFront(yy, vs[0] - 1), vs[1..], eob);
      if rest.None? then None else Some([yy[vs[0] - 1]] + rest.value)
  }

  lemma {:induction false} RunPrefixFlush(n: nat, v: int, rest: seq<int>)
    requires !IsRun(v)
    ensures RunPrefix(Flush(n) + [v] + rest) == |Flush(n)|
  {
    RunPrefixOf(Flush(n), [v] + rest);
    assert Flush(n) + ([v] + rest) == Flush(n) + [v] + rest;
  }

  lemma {:induction false} RunPrefixOf(ds: seq<int>, rest: seq<int>)
    requires (forall k :: 0 <= k < |ds| ==> IsRun(ds[k])) && (rest == [] || !IsRun(rest[0]))
    ensures RunPrefix(ds + rest) == |ds|
  {
    if ds == [] {
      assert ds + rest == rest;
    } else {
      RunPrefixOf(ds[1..], rest);
      assert (ds + rest)[1..] == ds[1..] + rest;
    }
  }

  /** A pending run followed by another symbol decodes to the run, then the rest. */
  lemma DecodeFlush(yy: seq<int>, n: nat, v: int, rest: seq<int>, eob: int, out: seq<int>)
    requires yy != [] && !IsRun(v) && !IsRun(eob)
    requires Decode(yy, [v] + rest, eob) == Some(out)
    ensures Decode(yy, Flush(n) + [v] + rest, eob) == Some(Rep(yy[0], n) + out)
  {
    var ds := Flush(n);
    var vs := ds + [v] + rest;
    if n == 0 {
      assert vs == [v] + rest;
      assert Rep(yy[0], 0) + out == out;
    } else {
      RunPrefixFlush(n, v, rest);
      RunRoundTrip(n - 1);
      assert vs[..|ds|] == ds && vs[|ds|..] == [v] + rest;
      assert IsRun(vs[0]);
    }
  }

  lemma DecodeSymbol(all: seq<int>, j: int, rest: seq<int>, eob: int, col: seq<int>)
    requires 0 < j < |all| && j + 1 != eob && col != [] && col[0] == all[j]
    requires Decode(ToFront(all, j), rest, eob) == Some(col[1..])
    ensures Decode(all, [j + 1] + rest, eob) == Some(col)
  {
    assert ([j + 1] + rest)[1..] == rest && [col[0]] + col[1..] == col;
  }

  lemma OneMore(col: seq<int>, n: nat)
    requires col != []
    ensures Rep(col[0], n + 1) + col[1..] == Rep(col[0], n) + col
  {
  }

  lemma DecodeOther(yy: seq<int>, tail: seq<int>, zPend: nat, col: seq<int>, eob: int, j: int, rest: seq<int>)
    requires 0 < j < |yy| && eob > |yy| && col != [] && col[0] == yy[j]
    requires Decode(ToFront(yy, j) + tail, rest, eob) == Some(col[1..])
    ensures Decode(yy + tail, Flush(zPend) + [j + 1] + rest, eob) == Some(Rep(yy[0], zPend) + col)
  {
    ToFrontLonger(yy, tail, j);
    DecodeSymbol(yy + tail, j, rest, eob, col);
    DecodeFlush(yy + tail, zPend, j + 1, rest, eob, col);
  }

  /** Decoding inverts encoding, whatever follows the list and whatever run is pending. */
  lemma {:induction false} DecodeInvertsEncode(yy: seq<int>, tail: seq<int>, zPend: nat, col: seq<int>, eob: int)
    requires yy != [] && Over(col, yy) && eob > |yy|
    ensures Decode(yy + tail, Encode(yy, zPend, col, eob), eob) == Some(Rep(yy[0], zPend) + col)
    decreases |col|
  {
    var all := yy + tail;
    if col == [] {
      DecodeFlush(all, zPend, eob, [], eob, []);
      assert Flush(zPend) + [eob] + [] == Flush(zPend) + [eob];
      assert Rep(yy[0], zPend) + [] == Rep(yy[0], zPend) + col;
    } else if col[0] == yy[0] {
      assert Over(col[1..], yy);
      DecodeInvertsEncode(yy, tail, zPend + 1, col[1..], eob);
      OneMore(col, zPend);
    } else {
      var j := IndexOf(yy, col[0]);
      OverAfter(col, yy, j);
      DecodeInvertsEncode(ToFront(yy, j), tail, 0, col[1..], eob);
      assert Rep(ToFront(yy, j)[0], 0) + col[1..] == col[1..];
      DecodeOther(yy, tail, zPend, col, eob, j, Encode(ToFront(yy, j), 0, col[1..], eob));
    }
  }
}
