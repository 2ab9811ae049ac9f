/** make_crc_table and the byte and word loops of crc32, in both byte orders. */
module CrcTables {
  import opened Basics
  import opened Iteration
  import opened Crc32

  // ----- The tables -----

  /** Entry `x` is the register after `x` and `n - 8` further zero bits. */
  ghost predicate TableIs(t: seq<bv32>, n: nat)
  {
    |t| == 256 && forall i :: 0 <= i < 256 ==> t[i] == Zeros(n, i as bv32)
  }

  ghost predicate Reversed(t: seq<bv32>, u: seq<bv32>)
  {
    |t| == |u| == 256 && forall i :: 0 <= i < 256 ==> u[i] == Rev(t[i])
  }

  /** The bytes of a word in the other order. */
  function Rev(w: bv32): (r: bv32)
  {
    (w >> 24) | ((w >> 8) & 0xff00) | ((w & 0xff00) << 8) | (w << 24)
  }

  /** REV, which adds the four bytes up. */
  function RevMacro(w: bv32): (r: bv32)
    ensures r == Rev(w)
  {
    ((w >> 24) & 0xff) + ((w >> 8) & 0xff00) + ((w & 0xff00) << 8) + ((w & 0xff) << 24)
  }

  datatype Tables = Tables(t0: seq<bv32>, t1: seq<bv32>, t2: seq<bv32>, t3: seq<bv32>,
                           t4: seq<bv32>, t5: seq<bv32>, t6: seq<bv32>, t7: seq<bv32>)

  const N1: nat := 8
  const N2: nat := 16
  const N3: nat := 24
  const N4: nat := 32

  ghost predicate TablesOk(t: Tables)
  {
    && TableIs(t.t0, N1) && TableIs(t.t1, N2) && TableIs(t.t2, N3) && TableIs(t.t3, N4)
    && Reversed(t.t0, t.t4) && Reversed(t.t1, t.t5) && Reversed(t.t2, t.t6) && Reversed(t.t3, t.t7)
  }

  lemma BackAndForth(x: bv32)
    ensures (x as int) as bv32 == x
  {
  }

  lemma OneMore(k: nat, c: bv32)
    ensures Zeros(k + 1, c) == Shift(Zeros(k, c))
  {
    IterateSum(Shift, 1, k, c);
    assert Iterate(Shift, 1, Zeros(k, c)) == Shift(Zeros(k, c));
  }

  /** The exclusive-or pattern from the terms of the polynomial. */
  method MakePoly() returns (poly: bv32)
    ensures poly == POLY
  {
    poly := 0;
    poly := poly | (1 << 31) | (1 << 30) | (1 << 29) | (1 << 27) | (1 << 26) | (1 << 24) | (1 << 23);
    poly := poly | (1 << 21) | (1 << 20) | (1 << 19) | (1 << 15) | (1 << 9) | (1 << 8) | (1 << 5);
  }

  method EightShifts(n: bv32, poly: bv32) returns (c: bv32)
    requires poly == POLY
    ensures c == Zeros(N1, n)
  {
    c := n;
    for k := 0 to N1
      invariant c == Zeros(k, n)
    {
      OneMore(k, n);
      c := if c & 1 == 1 then poly ^ (c >> 1) else c >> 1;
    }
  }

  lemma SmallIndex(x: bv32)
    requires x <= 0xff
    ensures 0 <= x as int < 256
  {
  }

  function At(t: seq<bv32>, x: bv32): (r: bv32)
    requires |t| == 256 && x <= 0xff
  {
    SmallIndex(x);
    t[x as int]
  }

  lemma LookUp(t: seq<bv32>, n: nat, x: bv32)
    requires TableIs(t, n) && x <= 0xff
    ensures At(t, x) == Zeros(n, x)
  {
    SmallIndex(x);
    BackAndForth(x);
  }

  method FirstTable() returns (t: seq<bv32>)
    ensures TableIs(t, N1)
  {
    var poly := MakePoly();
    t := [];
    for n := 0 to 256
      invariant |t| == n && forall i :: 0 <= i < n ==> t[i] == Zeros(N1, i as bv32)
    {
      var c := EightShifts(n as bv32, poly);
      t := t + [c];
    }
  }

  lemma LowByte(c: bv32)
    ensures c & 0xff <= 0xff
  {
  }

  /** A table lookup in place of eight shifts. */
  method EightZeros(t0: seq<bv32>, c: bv32) returns (d: bv32)
    requires TableIs(t0, N1)
    ensures d == Zeros(N1, c)
  {
    LowByte(c);
    LookUp(t0, N1, c & 0xff);
    ByTable(c);
    d := At(t0, c & 0xff) ^ (c >> 8);
  }

  /** Eight more zero bits for every entry (crc32.c:125-133). */
  method NextTable(t0: seq<bv32>, t: seq<bv32>, ghost n: nat, ghost m: nat) returns (u: seq<bv32>)
    requires TableIs(t0, N1) && TableIs(t, n) && m == N1 + n
    ensures TableIs(u, m)
  {
    u := [];
    for i := 0 to 256
      invariant |u| == i && forall j :: 0 <= j < i ==> u[j] == Zeros(m, j as bv32)
    {
      var d := EightZeros(t0, t[i]);
      ZerosSum(N1, n, i as bv32);
      u := u + [d];
    }
  }

  method ReverseTable(t: seq<bv32>) returns (u: seq<bv32>)
    requires |t| == 256
    ensures Reversed(t, u)
  {
    u := [];
    for i := 0 to 256
      invariant |u| == i && forall j :: 0 <= j < i ==> u[j] == Rev(t[j])
    {
      u := u + [RevMacro(t[i])];
    }
  }

  method MakeTables() returns (t: Tables)
    ensures TablesOk(t)
  {
    var t0 := FirstTable();
    var t1 := NextTable(t0, t0, N1, N2);
    var t2 := NextTable(t0, t1, N2, N3);
    var t3 := NextTable(t0, t2, N3, N4);
    var t4 := ReverseTable(t0);
    var t5 := ReverseTable(t1);
    var t6 := ReverseTable(t2);
    var t7 := ReverseTable(t3);
    t := Tables(t0, t1, t2, t3, t4, t5, t6, t7);
  }

  // ----- One byte -----

  lemma ByteParts(c: bv32, b: bv32)
    requires b <= 0xff
    ensures (c ^ b) & 0xff <= 0xff && (c ^ b) >> 8 == c >> 8
  {
  }

  lemma ByteShifts(c: bv32, b: bv8, z: bv32)
    requires z == Xor(c, b as bv32)
    ensures ByteStep(c, b) == Zeros(N1, z)
  {
  }

  /** Eight zeros for `z`, which agrees with `c` above the low byte. */
  method Through(t0: seq<bv32>, c: bv32, z: bv32) returns (r: bv32)
    requires TableIs(t0, N1) && z >> 8 == c >> 8
    ensures r == Zeros(N1, z)
  {
    LowByte(z);
    LookUp(t0, N1, z & 0xff);
    ByTable(z);
    r := At(t0, z & 0xff) ^ (c >> 8);
  }

  /** DO1: the byte-wise step through the table. */
  method OneByte(t0: seq<bv32>, c: bv32, b: bv8) returns (r: bv32)
    requires TableIs(t0, N1)
    ensures r == ByteStep(c, b)
  {
    ByteParts(c, b as bv32);
    var z := c ^ (b as bv32);
    ByteShifts(c, b, z);
    r := Through(t0, c, z);
  }

  lemma RegisterNext(c: bv32, s: seq<bv8>, i: nat)
    requires i < |s|
    ensures Register(c, s[..i + 1]) == ByteStep(Register(c, s[..i]), s[i])
  {
    assert s[..i + 1][..i] == s[..i];
  }

  /** The byte loop over a whole string. */
  method Bytes(t0: seq<bv32>, c0: bv32, s: seq<bv8>) returns (c: bv32)
    requires TableIs(t0, N1)
    ensures c == Register(c0, s)
  {
    c := c0;
    for i := 0 to |s|
      invariant c == Register(c0, s[..i])
    {
      RegisterNext(c0, s, i);
      c := OneByte(t0, c, s[i]);
    }
    assert s[..|s|] == s;
  }

  // ----- One word -----

  /** A byte in a higher place comes down to the lowest. */
  lemma Down8(y: bv32)
    requires y <= 0xff
    ensures Zeros(N1, y << 8) == y
  {
    assert (y << 8) & 0xff == 0 && (y << 8) >> 8 == y;
    HalveByte(y << 8);
  }

  lemma DownOne(x: bv32, x': bv32, n: nat, m: nat, y: bv32)
    requires x & 0xff == 0 && x >> 8 == x' && Zeros(n, x') == y && m == n + N1
    ensures Zeros(m, x) == y
  {
    HalveByte(x);
    ZerosSum(n, N1, x);
  }

  lemma Down16(y: bv32, n: nat, m: nat, r: bv32)
    requires y <= 0xff && Zeros(n, y << 8) == r && m == n + N1
    ensures Zeros(m, y << 16) == r
  {
    assert (y << 16) & 0xff == 0 && (y << 16) >> 8 == y << 8;
    DownOne(y << 16, y << 8, n, m, r);
  }

  lemma Down24(y: bv32, n: nat, m: nat, r: bv32)
    requires y <= 0xff && Zeros(n, y << 16) == r && m == n + N1
    ensures Zeros(m, y << 24) == r
  {
    assert (y << 24) & 0xff == 0 && (y << 24) >> 8 == y << 16;
    DownOne(y << 24, y << 16, n, m, r);
  }

  lemma Down8By(y: bv32, n: nat, m: nat)
    requires y <= 0xff && m == n + N1
    ensures Zeros(m, y << 8) == Zeros(n, y)
  {
    Down8(y);
    ZerosSum(n, N1, y << 8);
  }

  /** Four bytes as a little-endian word. */
  function Word(b0: bv8, b1: bv8, b2: bv8, b3: bv8): (w: bv32)
  {
    Xor(Xor(Xor(b0 as bv32, b1 as bv32 << 8), b2 as bv32 << 16), b3 as bv32 << 24)
  }

  lemma AddWord(c: bv32, b0: bv32, b1: bv32, b2: bv32, b3: bv32)
    ensures Xor(c, Xor(Xor(Xor(b0, b1), b2), b3)) == Xor(Xor(Xor(Xor(c, b0), b1), b2), b3)
  {
    XorAssociative();
    SumFour(Xor, c, b0, b1, b2, b3);
  }

  lemma Places(b1: bv32, b2: bv32, b3: bv32)
    requires b1 <= 0xff && b2 <= 0xff && b3 <= 0xff
    ensures Zeros(N1, b1 << 8) == b1 && Zeros(N2, b2 << 16) == b2 && Zeros(N3, b3 << 24) == b3
  {
    Down8(b1);
    Down8(b2);
    Down16(b2, N1, N2, b2);
    Down8(b3);
    Down16(b3, N1, N2, b3);
    Down24(b3, N2, N3, b3);
  }

  /** Four byte steps are thirty-two zeros after adding the word. */
  lemma FourAtOnce(c: bv32, b0: bv8, b1: bv8, b2: bv8, b3: bv8, z: bv32)
    requires z == Xor(c, Word(b0, b1, b2, b3))
    ensures FourSteps(Shift, Xor, N1, c, b0 as bv32, b1 as bv32, b2 as bv32, b3 as bv32) == Zeros(N4, z)
  {
    var x0, x1, x2, x3 := b0 as bv32, b1 as bv32, b2 as bv32, b3 as bv32;
    Places(x1, x2, x3);
    ShiftAdditive();
    AddWord(c, x0, x1 << 8, x2 << 16, x3 << 24);
    FourLater(Shift, Xor, N1, N4, c, x0, x1, x2, x3, x1 << 8, x2 << 16, x3 << 24, z);
  }

  // ----- A word through four tables -----

  lemma WordBytes(z: bv32)
    ensures z & 0xff <= 0xff && (z >> 8) & 0xff <= 0xff && (z >> 16) & 0xff <= 0xff && z >> 24 <= 0xff
    ensures z == Xor(Xor(Xor(z & 0xff, ((z >> 8) & 0xff) << 8), ((z >> 16) & 0xff) << 16), (z >> 24) << 24)
  {
  }

  /** Bytes in higher places need fewer zeros. */
  lemma FewerZeros(y1: bv32, y2: bv32, y3: bv32)
    requires y1 <= 0xff && y2 <= 0xff && y3 <= 0xff
    ensures Zeros(N4, y1 << 8) == Zeros(N3, y1) && Zeros(N4, y2 << 16) == Zeros(N2, y2)
    ensures Zeros(N4, y3 << 24) == Zeros(N1, y3)
  {
    Down8By(y1, N3, N4);
    Down8By(y2, N2, N3);
    Down16(y2, N3, N4, Zeros(N2, y2));
    Down8By(y3, N1, N2);
    Down16(y3, N2, N3, Zeros(N1, y3));
    Down24(y3, N3, N4, Zeros(N1, y3));
  }

  lemma WordByTables(z: bv32, y0: bv32, y1: bv32, y2: bv32, y3: bv32)
    requires y1 <= 0xff && y2 <= 0xff && y3 <= 0xff && z == Xor(Xor(Xor(y0, y1 << 8), y2 << 16), y3 << 24)
    ensures Zeros(N4, z) == Xor(Xor(Xor(Zeros(N4, y0), Zeros(N3, y1)), Zeros(N2, y2)), Zeros(N1, y3))
  {
    ShiftAdditive();
    FewerZeros(y1, y2, y3);
    IterateFour(Shift, Xor, N4, y0, y1 << 8, y2 << 16, y3 << 24);
  }

  lemma WordZeros(z: bv32)
    ensures z & 0xff <= 0xff && (z >> 8) & 0xff <= 0xff && (z >> 16) & 0xff <= 0xff && z >> 24 <= 0xff
    ensures Zeros(N4, z) ==
      Xor(Xor(Xor(Zeros(N4, z & 0xff), Zeros(N3, (z >> 8) & 0xff)), Zeros(N2, (z >> 16) & 0xff)), Zeros(N1, z >> 24))
  {
    WordBytes(z);
    WordByTables(z, z & 0xff, (z >> 8) & 0xff, (z >> 16) & 0xff, z >> 24);
  }

  method FourGets(t: Tables, y0: bv32, y1: bv32, y2: bv32, y3: bv32) returns (r: bv32)
    requires TablesOk(t) && y0 <= 0xff && y1 <= 0xff && y2 <= 0xff && y3 <= 0xff
    ensures r == Xor(Xor(Xor(Zeros(N4, y0), Zeros(N3, y1)), Zeros(N2, y2)), Zeros(N1, y3))
  {
    var r0 := Get(t.t3, y0, N4);
    var r1 := Get(t.t2, y1, N3);
    var r2 := Get(t.t1, y2, N2);
    var r3 := Get(t.t0, y3, N1);
    r := Xor(Xor(Xor(r0, r1), r2), r3);
  }

  /** The four lookups of DOLIT4. */
  method FourLookups(t: Tables, z: bv32) returns (r: bv32)
    requires TablesOk(t)
    ensures r == Zeros(N4, z)
  {
    WordZeros(z);
    r := FourGets(t, z & 0xff, (z >> 8) & 0xff, (z >> 16) & 0xff, z >> 24);
  }

  method Get(t: seq<bv32>, x: bv32, ghost n: nat) returns (r: bv32)
    requires TableIs(t, n) && x <= 0xff
    ensures r == Zeros(n, x)
  {
    LookUp(t, n, x);
    r := At(t, x);
  }

  // ----- crc32_little -----

  lemma FourBytes(c: bv32, b0: bv8, b1: bv8, b2: bv8, b3: bv8)
    ensures ByteStep(ByteStep(ByteStep(ByteStep(c, b0), b1), b2), b3)
      == FourSteps(Shift, Xor, N1, c, b0 as bv32, b1 as bv32, b2 as bv32, b3 as bv32)
  {
  }

  lemma RegisterFour(c0: bv32, s: seq<bv8>, i: nat, c: bv32)
    requires i + 4 <= |s| && c == Register(c0, s[..i])
    ensures Register(c0, s[..i + 4])
      == FourSteps(Shift, Xor, N1, c, s[i] as bv32, s[i + 1] as bv32, s[i + 2] as bv32, s[i + 3] as bv32)
  {
    RegisterNext(c0, s, i);
    RegisterNext(c0, s, i + 1);
    RegisterNext(c0, s, i + 2);
    RegisterNext(c0, s, i + 3);
    FourBytes(c, s[i], s[i + 1], s[i + 2], s[i + 3]);
  }

  /** DOLIT4: four bytes at once. */
  method LittleWord(t: Tables, c: bv32, s: seq<bv8>, i: nat, ghost c0: bv32) returns (r: bv32)
    requires TablesOk(t) && i + 4 <= |s| && c == Register(c0, s[..i])
    ensures r == Register(c0, s[..i + 4])
  {
    RegisterFour(c0, s, i, c);
    var z := Xor(c, Word(s[i], s[i + 1], s[i + 2], s[i + 3]));
    FourAtOnce(c, s[i], s[i + 1], s[i + 2], s[i + 3], z);
    r := FourLookups(t, z);
  }

  method Invert(c: bv32) returns (r: bv32)
    ensures r == Xor(c, FULL)
  {
    r := !c;
  }

  /** Bytes up to a word boundary. */
  method Align(t: Tables, c0: bv32, s: seq<bv8>, addr: nat) returns (c: bv32, i: nat)
    requires TablesOk(t)
    ensures i <= |s| && c == Register(c0, s[..i])
  {
    c, i := c0, 0;
    while i < |s| && (addr + i) % 4 != 0
      invariant 0 <= i <= |s| && c == Register(c0, s[..i])
    {
      RegisterNext(c0, s, i);
      c := OneByte(t.t0, c, s[i]);
      i := i + 1;
    }
  }

  /** Words, eight at a time and then one at a time. */
  method LittleWords(t: Tables, c1: bv32, s: seq<bv8>, i1: nat, ghost c0: bv32) returns (c: bv32, i: nat)
    requires TablesOk(t) && i1 <= |s| && c1 == Register(c0, s[..i1])
    ensures i <= |s| && c == Register(c0, s[..i]) && |s| - i < 4
  {
    c, i := c1, i1;
    while |s| - i >= 32
      invariant 0 <= i <= |s| && c == Register(c0, s[..i])
    {
      c := LittleEight(t, c, s, i, c0);
      i := i + 32;
    }
    while |s| - i >= 4
      invariant 0 <= i <= |s| && c == Register(c0, s[..i])
    {
      c := LittleWord(t, c, s, i, c0);
      i := i + 4;
    }
  }

  /** The bytes that are left. */
  method Tail(t: Tables, c1: bv32, s: seq<bv8>, i1: nat, ghost c0: bv32) returns (c: bv32)
    requires TablesOk(t) && i1 <= |s| && c1 == Register(c0, s[..i1])
    ensures c == Register(c0, s)
  {
    c := c1;
    for i := i1 to |s|
      invariant c == Register(c0, s[..i])
    {
      RegisterNext(c0, s, i);
      c := OneByte(t.t0, c, s[i]);
    }
    assert s[..|s|] == s;
  }

  /** DOLIT32. */
  method LittleEight(t: Tables, c: bv32, s: seq<bv8>, i: nat, ghost c0: bv32) returns (r: bv32)
    requires TablesOk(t) && i + 32 <= |s| && c == Register(c0, s[..i])
    ensures r == Register(c0, s[..i + 32])
  {
    r := c;
    for k := 0 to 8
      invariant r == Register(c0, s[..i + 4 * k])
    {
      r := LittleWord(t, r, s, i + 4 * k, c0);
    }
  }

  /** crc32_little, for every length and alignment of the buffer. */
  method Little(t: Tables, crc: bv32, s: seq<bv8>, addr: nat) returns (r: bv32)
    requires TablesOk(t)
    ensures r == Crc(crc, s)
  {
    var c0 := Invert(crc);
    var c, i := Align(t, c0, s, addr);
    c, i := LittleWords(t, c, s, i, c0);
    c := Tail(t, c, s, i, c0);
    r := Invert(c);
  }

  // ----- crc32_big -----

  lemma RevXor(a: bv32, b: bv32)
    ensures Rev(Xor(a, b)) == Xor(Rev(a), Rev(b))
  {
  }

  lemma RevBytes(z: bv32)
    ensures Rev(z) & 0xff == z >> 24 && (Rev(z) >> 8) & 0xff == (z >> 16) & 0xff
    ensures (Rev(z) >> 16) & 0xff == (z >> 8) & 0xff && Rev(z) >> 24 == z & 0xff
  {
  }

  lemma RevTwice(c: bv32)
    ensures Rev(Rev(c)) == c && Rev(Xor(c, FULL)) == Xor(Rev(c), FULL)
  {
  }

  method GetReversed(t: seq<bv32>, u: seq<bv32>, x: bv32, ghost n: nat) returns (r: bv32)
    requires TableIs(t, n) && Reversed(t, u) && x <= 0xff
    ensures r == Rev(Zeros(n, x))
  {
    LookUp(t, n, x);
    SmallIndex(x);
    r := u[x as int];
  }

  lemma RevParts(c: bv32, rc: bv32)
    requires rc == Rev(c)
    ensures rc >> 24 == c & 0xff && rc << 8 == Rev(c >> 8)
  {
  }

  /** Where the byte step finds its table entry in the reversed register. */
  lemma BigIndex(hi: bv32, c: bv32, b: bv32, z: bv32)
    requires hi == c & 0xff && z == Xor(c, b) && b <= 0xff
    ensures hi ^ b == z & 0xff && z & 0xff <= 0xff && z >> 8 == c >> 8
  {
  }

  lemma BigByteStep(c: bv32, b: bv8, z: bv32, x: bv32, y: bv32, q: bv32)
    requires z == Xor(c, b as bv32) && x == z & 0xff && z >> 8 == y && q == Rev(y)
    ensures Rev(ByteStep(c, b)) == Xor(Rev(Zeros(N1, x)), q)
  {
    ByteShifts(c, b, z);
    ByTable(z);
    RevXor(Zeros(N1, x), y);
  }

  /** One byte into the reversed register. */
  method BigByte(t: Tables, rc: bv32, b: bv8, ghost c: bv32) returns (r: bv32)
    requires TablesOk(t) && rc == Rev(c)
    ensures r == Rev(ByteStep(c, b))
  {
    ghost var z := Xor(c, b as bv32);
    RevParts(c, rc);
    var hi, q := rc >> 24, rc << 8;
    BigIndex(hi, c, b as bv32, z);
    var x := hi ^ (b as bv32);
    BigByteStep(c, b, z, x, c >> 8, q);
    var e := GetReversed(t.t0, t.t4, x, N1);
    r := Xor(e, q);
  }

  // ----- A word into the reversed register -----

  lemma RevFour(a: bv32, b: bv32, c: bv32, d: bv32)
    ensures Rev(Xor(Xor(Xor(a, b), c), d)) == Xor(Xor(Xor(Rev(d), Rev(c)), Rev(b)), Rev(a))
  {
    var x, y, u, v := Rev(a), Rev(b), Rev(c), Rev(d);
    RevXor(a, b);
    RevXor(Xor(a, b), c);
    RevXor(Xor(Xor(a, b), c), d);
    XorCommutes();
    XorAssociative();
    Backwards(Xor, x, y, u, v);
  }

  lemma XorCommutes()
    ensures forall a, b :: Xor(a, b) == Xor(b, a)
  {
  }

  method FourReversed(t: Tables, y0: bv32, y1: bv32, y2: bv32, y3: bv32) returns (r: bv32)
    requires TablesOk(t) && y0 <= 0xff && y1 <= 0xff && y2 <= 0xff && y3 <= 0xff
    ensures r == Xor(Xor(Xor(Rev(Zeros(N1, y3)), Rev(Zeros(N2, y2))), Rev(Zeros(N3, y1))), Rev(Zeros(N4, y0)))
  {
    var r3 := GetReversed(t.t0, t.t4, y3, N1);
    var r2 := GetReversed(t.t1, t.t5, y2, N2);
    var r1 := GetReversed(t.t2, t.t6, y1, N3);
    var r0 := GetReversed(t.t3, t.t7, y0, N4);
    r := Xor(Xor(Xor(r3, r2), r1), r0);
  }

  lemma BigZeros(z: bv32, y: bv32)
    requires y == Rev(z)
    ensures y & 0xff <= 0xff && (y >> 8) & 0xff <= 0xff && (y >> 16) & 0xff <= 0xff && y >> 24 <= 0xff
    ensures Rev(Zeros(N4, z)) == Xor(Xor(Xor(Rev(Zeros(N1, y & 0xff)), Rev(Zeros(N2, (y >> 8) & 0xff))),
                                         Rev(Zeros(N3, (y >> 16) & 0xff))), Rev(Zeros(N4, y >> 24)))
  {
    RevBytes(z);
    WordZeros(z);
    RevFour(Zeros(N4, z & 0xff), Zeros(N3, (z >> 8) & 0xff), Zeros(N2, (z >> 16) & 0xff), Zeros(N1, z >> 24));
  }

  /** DOBIG4 after the word has been added. */
  method BigLookups(t: Tables, y: bv32, ghost z: bv32) returns (r: bv32)
    requires TablesOk(t) && y == Rev(z)
    ensures r == Rev(Zeros(N4, z))
  {
    BigZeros(z, y);
    r := FourReversed(t, y >> 24, (y >> 16) & 0xff, (y >> 8) & 0xff, y & 0xff);
  }

  /** Four bytes as a big-endian word. */
  function BigWordOf(b0: bv8, b1: bv8, b2: bv8, b3: bv8): (w: bv32)
  {
    Word(b3, b2, b1, b0)
  }

  lemma WordReversed(b0: bv8, b1: bv8, b2: bv8, b3: bv8)
    ensures BigWordOf(b0, b1, b2, b3) == Rev(Word(b0, b1, b2, b3))
  {
  }

  /** DOBIG4: four bytes at once into the reversed register. */
  method BigWord(t: Tables, rc: bv32, s: seq<bv8>, i: nat, ghost c0: bv32, ghost c: bv32) returns (r: bv32)
    requires TablesOk(t) && i + 4 <= |s| && c == Register(c0, s[..i]) && rc == Rev(c)
    ensures r == Rev(Register(c0, s[..i + 4]))
  {
    RegisterFour(c0, s, i, c);
    ghost var w := Word(s[i], s[i + 1], s[i + 2], s[i + 3]);
    ghost var z := Xor(c, w);
    FourAtOnce(c, s[i], s[i + 1], s[i + 2], s[i + 3], z);
    WordReversed(s[i], s[i + 1], s[i + 2], s[i + 3]);
    RevXor(c, w);
    var y := Xor(rc, BigWordOf(s[i], s[i + 1], s[i + 2], s[i + 3]));
    r := BigLookups(t, y, z);
  }

  /** Bytes of the string from `i` on, up to a word boundary when `addr` is given, else to the end. */
  method BigBytes(t: Tables, rc1: bv32, s: seq<bv8>, i1: nat, addr: Option<nat>, ghost c0: bv32)
    returns (rc: bv32, i: nat)
    requires TablesOk(t) && i1 <= |s| && rc1 == Rev(Register(c0, s[..i1]))
    ensures i <= |s| && rc == Rev(Register(c0, s[..i])) && (addr.None? ==> i == |s|)
  {
    rc, i := rc1, i1;
    while i < |s| && (addr.None? || (addr.value + i) % 4 != 0)
      invariant 0 <= i <= |s| && BigAt(rc, c0, s, i)
    {
      rc := BigNext(t, rc, s, i, c0);
      i := i + 1;
    }
    assert Opened(0);
  }

  /** The reversed register after `i` bytes. */
  ghost predicate BigAt(rc: bv32, c0: bv32, s: seq<bv8>, i: nat)
    requires i <= |s|
  {
    forall j {:trigger Opened(j)} :: Opened(j) ==> rc == Rev(Register(c0, s[..i]))
  }

  method BigNext(t: Tables, rc: bv32, s: seq<bv8>, i: nat, ghost c0: bv32) returns (r: bv32)
    requires TablesOk(t) && i < |s| && BigAt(rc, c0, s, i)
    ensures BigAt(r, c0, s, i + 1)
  {
    assert Opened(0);
    RegisterNext(c0, s, i);
    r := BigByte(t, rc, s[i], Register(c0, s[..i]));
  }

  /** Words, one at a time; DOBIG32 is eight of them. */
  method BigWords(t: Tables, rc1: bv32, s: seq<bv8>, i1: nat, ghost c0: bv32) returns (rc: bv32, i: nat)
    requires TablesOk(t) && i1 <= |s| && rc1 == Rev(Register(c0, s[..i1]))
    ensures i <= |s| && rc == Rev(Register(c0, s[..i])) && |s| - i < 4
  {
    rc, i := rc1, i1;
    while |s| - i >= 4
      invariant 0 <= i <= |s| && rc == Rev(Register(c0, s[..i]))
    {
      rc := BigWord(t, rc, s, i, c0, Register(c0, s[..i]));
      i := i + 4;
    }
  }

  /** The reversed register, over the whole string. */
  method BigLoops(t: Tables, rc0: bv32, s: seq<bv8>, addr: nat, ghost c0: bv32) returns (rc: bv32)
    requires TablesOk(t) && rc0 == Rev(c0)
    ensures rc == Rev(Register(c0, s))
  {
    var i;
    assert s[..0] == [];
    rc, i := BigBytes(t, rc0, s, 0, Some(addr), c0);
    rc, i := BigWords(t, rc, s, i, c0);
    rc, i := BigBytes(t, rc, s, i, None, c0);
    assert s[..|s|] == s;
  }

  method Reverse(w: bv32) returns (r: bv32)
    ensures r == Rev(w)
  {
    r := RevMacro(w);
  }

  lemma RevBack(x: bv32, y: bv32)
    requires x == Xor(Rev(y), FULL)
    ensures Rev(x) == Xor(y, FULL)
  {
    RevTwice(Xor(y, FULL));
    RevTwice(y);
  }

  lemma RevStart(x: bv32, crc: bv32)
    requires x == Xor(Rev(crc), FULL)
    ensures x == Rev(Xor(crc, FULL))
  {
    RevTwice(crc);
  }

  /** crc32_big, for every length and alignment of the buffer. */
  method Big(t: Tables, crc: bv32, s: seq<bv8>, addr: nat) returns (r: bv32)
    requires TablesOk(t)
    ensures r == Crc(crc, s)
  {
    var c := Reverse(crc);
    c := Invert(c);
    RevStart(c, crc);
    ghost var c0 := Xor(crc, FULL);
    c := BigLoops(t, c, s, addr, c0);
    ghost var end := Register(c0, s);
    c := Invert(c);
    RevBack(c, end);
    r := Reverse(c);
  }

  /** crc32: no buffer gives zero, otherwise whichever loop the machine's byte order selects. */
  method Update(crc: bv32, buf: Option<seq<bv8>>, addr: nat, byFour: bool, littleEndian: bool) returns (r: bv32)
    ensures r == if buf.None? then 0 else Crc(crc, buf.value)
  {
    if buf.None? { return 0; }
    var t := MakeTables();
    if byFour && littleEndian {
      r := Little(t, crc, buf.value, addr);
    } else if byFour {
      r := Big(t, crc, buf.value, addr);
    } else {
      r := Plain(t, crc, buf.value);
    }
  }

  method Plain(t: Tables, crc: bv32, s: seq<bv8>) returns (r: bv32)
    requires TablesOk(t)
    ensures r == Crc(crc, s)
  {
    var c := Invert(crc);
    c := Bytes(t.t0, c, s);
    r := Invert(c);
  }

  /** In terms of the bit-serial definition. */
  lemma CrcIsBitSerial(crc: bv32, s: seq<bv8>)
    ensures Crc(crc, s) == Xor(BitSerial(Xor(crc, FULL), s), FULL)
  {
    RegisterIsBitSerial(Xor(crc, FULL), s);
  }
}
