/** zlib's CRC-32: the bit-serial definition, the byte and word loops over tables, and crc32_combine. */
module Crc32 {
  import opened Iteration

  const POLY: bv32 := 0xedb88320
  const FULL: bv32 := 0xffffffff

  // ----- The shift register (section 8 of RFC 1952) -----

  function Xor(a: bv32, b: bv32): (r: bv32) { a ^ b }

  /** One zero bit through the register. */
  function Shift(c: bv32): (r: bv32)
  {
    if c & 1 == 1 then POLY ^ (c >> 1) else c >> 1
  }

  lemma LowBit(a: bv32, b: bv32)
    ensures (a ^ b) & 1 == 1 <==> (a & 1 == 1) != (b & 1 == 1)
    ensures (a ^ b) >> 1 == (a >> 1) ^ (b >> 1)
  {
  }

  lemma XorMix(p: bv32, x: bv32, y: bv32)
    ensures (p ^ x) ^ (p ^ y) == x ^ y && (p ^ x) ^ y == p ^ (x ^ y) && x ^ (p ^ y) == p ^ (x ^ y)
  {
  }

  lemma ShiftXor(a: bv32, b: bv32)
    ensures Shift(a ^ b) == Shift(a) ^ Shift(b)
  {
    LowBit(a, b);
    XorMix(POLY, a >> 1, b >> 1);
  }

  lemma ShiftAdditive()
    ensures Additive(Shift, Xor)
  {
    forall a, b
      ensures Shift(Xor(a, b)) == Xor(Shift(a), Shift(b))
    {
      ShiftXor(a, b);
    }
  }

  /** `n` zero bits. */
  function Zeros(n: nat, c: bv32): (r: bv32)
  {
    Iterate(Shift, n, c)
  }

  lemma ZerosSum(m: nat, n: nat, c: bv32)
    ensures Zeros(m + n, c) == Zeros(m, Zeros(n, c))
  {
    IterateSum(Shift, m, n, c);
  }

  // ----- Message bits -----

  function Low(b: bv32): (r: bv32) { b & 1 }

  function High(b: bv32): (r: bv32) { b >> 1 }

  const Bits := Digits(Low, High, 0)

  const BYTE: nat := 8

  /** One message byte, bit by bit, lowest first: section 8 of RFC 1952. */
  function BitSteps(c: bv32, b: bv8): (r: bv32)
  {
    Serial(Shift, Xor, Bits, c, b as bv32, BYTE)
  }

  /** One message byte added at once, then eight zero bits. */
  function ByteStep(c: bv32, b: bv8): (r: bv32)
  {
    Zeros(BYTE, Xor(c, b as bv32))
  }

  /** The register after a string, bit by bit. */
  function BitSerial(c: bv32, s: seq<bv8>): (r: bv32)
  {
    if s == [] then c else BitSteps(BitSerial(c, s[..|s| - 1]), s[|s| - 1])
  }

  /** The register after a string. */
  function Register(c: bv32, s: seq<bv8>): (r: bv32)
  {
    if s == [] then c else ByteStep(Register(c, s[..|s| - 1]), s[|s| - 1])
  }

  /** crc32(crc, s): the register starts and ends inverted. */
  function Crc(crc: bv32, s: seq<bv8>): (r: bv32)
  {
    Xor(Register(Xor(crc, FULL), s), FULL)
  }

  /** The bits of a message after its first. */
  function Rest(b: bv32): (r: bv32) { (b >> 1) << 1 }

  lemma ShiftAbsorbs()
    ensures Absorbs(Shift, Xor, Bits)
  {
    ShiftAdditive();
    assert forall c, b :: Xor(c, b) == Xor(Xor(c, Bits.low(b)), Rest(b));
    assert forall b :: Shift(Rest(b)) == Bits.high(b);
    assert forall c :: Xor(c, Bits.zero) == c;
    AbsorbsFrom(Shift, Xor, Bits, Rest);
  }

  lemma FitsNext(b: bv32, k: nat)
    requires Fits(Bits, b >> 1, k)
    ensures Fits(Bits, b, k + 1)
  {
  }

  lemma FitsTwo(b: bv32, k: nat)
    requires Fits(Bits, b >> 2, k)
    ensures Fits(Bits, b, k + 2)
  {
    assert (b >> 1) >> 1 == b >> 2;
    FitsNext(b >> 1, k);
    FitsNext(b, k + 1);
  }

  lemma FitsFour(b: bv32, k: nat)
    requires Fits(Bits, b >> 4, k)
    ensures Fits(Bits, b, k + 4)
  {
    assert (b >> 2) >> 2 == b >> 4;
    FitsTwo(b >> 2, k);
    FitsTwo(b, k + 2);
  }

  lemma FitsByte(b: bv32, k: nat)
    requires Fits(Bits, b >> 8, k)
    ensures Fits(Bits, b, k + 8)
  {
    assert (b >> 4) >> 4 == b >> 8;
    FitsFour(b >> 4, k);
    FitsFour(b, k + 4);
  }

  lemma ByteFits(b: bv32)
    requires b <= 0xff
    ensures Fits(Bits, b, BYTE)
  {
    assert b >> 8 == 0;
    FitsByte(b, 0);
  }

  /** Adding the bits of a byte one by one is adding them at once. */
  lemma ByteAtOnce(c: bv32, b: bv8)
    ensures BitSteps(c, b) == ByteStep(c, b)
  {
    ShiftAbsorbs();
    ByteFits(b as bv32);
    SerialAtOnce(Shift, Xor, Bits, c, b as bv32, BYTE);
  }

  /** The byte-wise register is the bit-serial one. */
  lemma {:induction false} RegisterIsBitSerial(c: bv32, s: seq<bv8>)
    ensures Register(c, s) == BitSerial(c, s)
  {
    if s != [] {
      RegisterIsBitSerial(c, s[..|s| - 1]);
      ByteAtOnce(Register(c, s[..|s| - 1]), s[|s| - 1]);
    }
  }

  lemma Halve(n: nat, x: bv32)
    requires n > 0 && x & 1 == 0
    ensures Zeros(n, x) == Zeros(n - 1, x >> 1)
  {
  }

  /** Eight shifts of a value whose low byte is clear. */
  lemma HalveByte(x: bv32)
    requires x & 0xff == 0
    ensures Zeros(BYTE, x) == x >> 8
  {
    Halve(8, x);
    Halve(7, x >> 1);
    Halve(6, x >> 2);
    Halve(5, x >> 3);
    Halve(4, x >> 4);
    Halve(3, x >> 5);
    Halve(2, x >> 6);
    Halve(1, x >> 7);
    assert (x >> 7) >> 1 == x >> 8 && (x >> 6) >> 1 == x >> 7 && (x >> 5) >> 1 == x >> 6 && (x >> 4) >> 1 == x >> 5;
    assert (x >> 3) >> 1 == x >> 4 && (x >> 2) >> 1 == x >> 3 && (x >> 1) >> 1 == x >> 2;
  }

  lemma SplitByte(c: bv32)
    ensures c == (c & 0xff) ^ ((c >> 8) << 8) && ((c >> 8) << 8) & 0xff == 0 && ((c >> 8) << 8) >> 8 == c >> 8
  {
  }

  /** The table lookup: the low byte through the table, the rest moved down. */
  lemma ByTable(c: bv32)
    ensures Zeros(BYTE, c) == Xor(Zeros(BYTE, c & 0xff), c >> 8)
  {
    SplitByte(c);
    HalveByte((c >> 8) << 8);
    ShiftAdditive();
    IterateParts(Shift, Xor, BYTE, c, c & 0xff, (c >> 8) << 8, c >> 8);
  }

  // ----- gf2_matrix_times and gf2_matrix_square -----

  type Operator = bv32 -> bv32

  const DIM: nat := 32

  function Up(x: bv32): (r: bv32) { x << 1 }

  lemma UpAdditive()
    ensures Additive(Up, Xor)
  {
    assert forall a, b :: Up(Xor(a, b)) == Xor(Up(a), Up(b));
  }

  lemma BitParts()
    ensures forall v :: v == Xor(Bits.low(v), Up(Bits.high(v)))
    ensures forall v :: Bits.low(v) == 0 || Bits.low(v) == 1
  {
  }

  lemma XorZero()
    ensures forall a :: Xor(a, 0) == a && Xor(0, a) == a
  {
  }

  lemma XorAssociative()
    ensures forall a, b, c :: Xor(Xor(a, b), c) == Xor(a, Xor(b, c))
  {
    forall a, b, c
      ensures Xor(Xor(a, b), c) == Xor(a, Xor(b, c))
    {
      XorAssoc(a, b, c);
    }
  }

  lemma XorAssoc(a: bv32, b: bv32, c: bv32)
    ensures (a ^ b) ^ c == a ^ (b ^ c) && (a ^ b) ^ c == (a ^ c) ^ b
  {
  }

  lemma BitsPlaced()
    ensures Placed(Xor, Bits, Up, 1)
  {
    UpAdditive();
    BitParts();
    XorZero();
    XorAssociative();
    assert Up(0) == 0;
  }

  /** Four bytes are thirty-two bits. */
  lemma WordFits(v: bv32)
    ensures Fits(Bits, v, DIM)
  {
    assert (v >> 24) >> 8 == 0 && (v >> 16) >> 8 == v >> 24 && (v >> 8) >> 8 == v >> 16;
    FitsByte(v >> 24, 0);
    FitsByte(v >> 16, 8);
    FitsByte(v >> 8, 16);
    FitsByte(v, 24);
  }

  /** A linear operator that maps zero to zero, and its matrix. */
  ghost predicate MatrixOf(f: Operator, n: nat, m: seq<bv32>)
  {
    Additive(f, Xor) && f(0) == 0 && |m| == DIM && Represents(f, n, Up, 1, m)
  }

  lemma FitsZero(v: bv32)
    requires Fits(Bits, v, 0)
    ensures v == 0
  {
  }

  /** The product so far, and the bits still to come in their places. */
  ghost predicate Multiplying(f: Operator, n: nat, goal: bv32, sum: bv32, v: bv32, i: nat)
  {
    i <= DIM && Fits(Bits, v, DIM - i) && goal == Xor(sum, Iterate(f, n, Iterate(Up, i, v)))
  }

  lemma MultiplyStep(f: Operator, n: nat, m: seq<bv32>, goal: bv32, sum: bv32, v: bv32, i: nat)
    requires MatrixOf(f, n, m) && Multiplying(f, n, goal, sum, v, i) && v != 0
    ensures i < DIM
    ensures if v & 1 == 1 then Multiplying(f, n, goal, sum ^ m[i], v >> 1, i + 1)
      else Multiplying(f, n, goal, sum, v >> 1, i + 1)
  {
    if i == DIM {
      FitsZero(v);
    }
    BitsPlaced();
    TimesStep(f, n, Xor, Bits, Up, 1, m, goal, sum, v, i);
    assert Bits.low(v) == v & 1 && Bits.high(v) == v >> 1;
  }

  lemma MultiplyEnd(f: Operator, n: nat, goal: bv32, sum: bv32, i: nat)
    requires f(0) == 0 && Multiplying(f, n, goal, sum, 0, i)
    ensures sum == goal
  {
    assert Up(0) == 0;
    IterateFixed(Up, i, 0);
    IterateFixed(f, n, 0);
  }

  lemma MultiplyStart(f: Operator, n: nat, v: bv32)
    ensures Multiplying(f, n, Iterate(f, n, v), 0, v, 0)
  {
    WordFits(v);
    var goal := Iterate(f, n, v);
    assert Xor(0, goal) == goal;
  }

  /** The matrix product applies the operator the matrix stands for. */
  method Times(mat: seq<bv32>, vec: bv32, ghost f: Operator, ghost n: nat) returns (sum: bv32)
    requires MatrixOf(f, n, mat)
    ensures sum == Iterate(f, n, vec)
  {
    ghost var goal := Iterate(f, n, vec);
    sum := 0;
    var v, i := vec, 0;
    MultiplyStart(f, n, vec);
    while v != 0
      invariant Multiplying(f, n, goal, sum, v, i)
      decreases DIM - i
    {
      MultiplyStep(f, n, mat, goal, sum, v, i);
      if v & 1 == 1 { sum := sum ^ mat[i]; }
      v := v >> 1;
      i := i + 1;
    }
    MultiplyEnd(f, n, goal, sum, i);
  }

  /** Squaring a matrix composes its operator with itself. */
  method Square(mat: seq<bv32>, ghost f: Operator, ghost n: nat) returns (square: seq<bv32>)
    requires MatrixOf(f, n, mat)
    ensures MatrixOf(f, 2 * n, square)
  {
    square := [];
    for i := 0 to DIM
      invariant |square| == i && Represents(f, 2 * n, Up, 1, square)
    {
      SquareColumn(f, n, Iterate(Up, i, 1));
      var column := Times(mat, mat[i], f, n);
      square := square + [column];
    }
  }

  // ----- crc32_combine_ -----

  /** `k` more doublings do not overflow. */
  predicate Room(row: bv32, k: nat)
    decreases k
  {
    k == 0 || (row <= 0x7fffffff && Room(row << 1, k - 1))
  }

  lemma RoomFour(row: bv32, k: nat)
    requires row <= 0x07ffffff && Room(row << 4, k)
    ensures Room(row, k + 4)
  {
    assert (row << 3) << 1 == row << 4 && (row << 2) << 1 == row << 3 && (row << 1) << 1 == row << 2;
    assert Room(row << 3, k + 1);
    assert Room(row << 2, k + 2);
    assert Room(row << 1, k + 3);
  }

  lemma RoomForAll()
    ensures Room(1, DIM - 1)
  {
    assert Room(0x40000000, 1);
    assert Room(0x20000000, 2);
    assert Room(0x10000000, 3);
    RoomFour(0x01000000, 3);
    RoomFour(0x00100000, 7);
    RoomFour(0x00010000, 11);
    RoomFour(0x00001000, 15);
    RoomFour(0x00000100, 19);
    RoomFour(0x00000010, 23);
    RoomFour(0x00000001, 27);
  }

  lemma ShiftBack(row: bv32)
    requires row <= 0x7fffffff
    ensures Shift(row << 1) == row
  {
  }

  /** What the matrix of one zero bit relies on. */
  ghost predicate OneBit(f: Operator)
  {
    Additive(f, Xor) && f(0) == 0 && f(1) == POLY && forall row: bv32 :: row <= 0x7fffffff ==> f(Up(row)) == row
  }

  lemma ShiftOneBit()
    ensures OneBit(Shift)
  {
    ShiftAdditive();
    forall row: bv32 | row <= 0x7fffffff
      ensures Shift(Up(row)) == row
    {
      ShiftBack(row);
    }
  }

  /** The operator for one zero bit: the polynomial, then ones moved down by one place. */
  method OneZeroBit(ghost f: Operator) returns (odd: seq<bv32>)
    requires OneBit(f)
    ensures MatrixOf(f, 1, odd)
  {
    odd := [POLY];
    assert Iterate(f, 1, Iterate(Up, 0, 1)) == POLY;
    var row: bv32 := 1;
    RoomForAll();
    for n := 1 to DIM
      invariant |odd| == n && Represents(f, 1, Up, 1, odd) && row == Iterate(Up, n - 1, 1) && Room(row, DIM - n)
    {
      assert f(Up(row)) == row;
      NextColumn(f, Up, 1, n - 1, row, row << 1);
      odd := odd + [row];
      row := row << 1;
    }
  }

  /** What is left to do: `x` zero bits for each of `len` units. */
  ghost predicate Shifting(goal: bv32, x: nat, len: nat, crc: bv32)
  {
    goal == Zeros(x * len, crc)
  }

  lemma UnitSplit(x: nat, len: nat)
    ensures x * len == (2 * x) * (len / 2) + x * (len % 2)
  {
    var h := len / 2;
    assert len == 2 * h + len % 2;
    assert x * (2 * h + len % 2) == x * (2 * h) + x * (len % 2);
    assert x * (2 * h) == (2 * x) * h;
  }

  /** One bit of the length: apply the operator or not, and go on with its square. */
  lemma ShiftingStep(goal: bv32, x: nat, len: nat, crc: bv32)
    requires Shifting(goal, x, len, crc)
    ensures Shifting(goal, 2 * x, len / 2, if len % 2 == 1 then Zeros(x, crc) else crc)
  {
    UnitSplit(x, len);
    if len % 2 == 1 {
      ZerosSum((2 * x) * (len / 2), x, crc);
    }
  }

  /** The alternating square-and-multiply loop appends `8 * len2` zero bits to `crc1`. */
  method AppendZeros(crc1: bv32, len2: nat) returns (crc: bv32)
    requires len2 > 0
    ensures crc == Zeros(8 * len2, crc1)
  {
    ghost var goal := Zeros(8 * len2, crc1);
    ghost var x: nat := 4;
    crc := crc1;
    var len := len2;
    ShiftOneBit();
    var odd := OneZeroBit(Shift);
    var even := Square(odd, Shift, 1);
    odd := Square(even, Shift, 2);
    while true
      invariant len > 0 && MatrixOf(Shift, x, odd) && Shifting(goal, 2 * x, len, crc)
      decreases len
    {
      crc, even := HalfStep(odd, crc, len, goal, x);
      len := len / 2;
      if len == 0 { break; }
      crc, odd := HalfStep(even, crc, len, goal, 2 * x);
      len := len / 2;
      x := 4 * x;
      if len == 0 { break; }
    }
  }

  method HalfStep(mat: seq<bv32>, crc0: bv32, len: nat, ghost goal: bv32, ghost x: nat)
    returns (crc: bv32, square: seq<bv32>)
    requires MatrixOf(Shift, x, mat) && Shifting(goal, 2 * x, len, crc0)
    ensures MatrixOf(Shift, 2 * x, square) && Shifting(goal, 4 * x, len / 2, crc)
  {
    crc := crc0;
    square := Square(mat, Shift, x);
    ShiftingStep(goal, 2 * x, len, crc);
    if len % 2 == 1 {
      crc := Times(square, crc, Shift, 2 * x);
    }
  }

  /** crc32_combine_. */
  method Combine(crc1: bv32, crc2: bv32, len2: int) returns (r: bv32)
    ensures r == if len2 <= 0 then crc1 else Xor(Zeros(8 * len2, crc1), crc2)
  {
    if len2 <= 0 { return crc1; }
    var crc := AppendZeros(crc1, len2);
    r := crc ^ crc2;
  }

  // ----- Combining is concatenating -----

  lemma XorSwaps()
    ensures Swaps(Xor)
  {
    forall a, b, c
      ensures Xor(Xor(a, b), c) == Xor(Xor(a, c), b)
    {
      XorAssoc(a, b, c);
    }
  }

  lemma ByteApart(x: bv32, y: bv32, b: bv8)
    ensures ByteStep(Xor(x, y), b) == Xor(ByteStep(x, b), Zeros(BYTE, y))
  {
    ShiftAdditive();
    XorSwaps();
    StepApart(Shift, Xor, BYTE, x, y, b as bv32);
  }

  /** A difference in the register passes through a message as if the message were zeros. */
  lemma {:induction false} RegisterApart(x: bv32, y: bv32, s: seq<bv8>)
    ensures Register(Xor(x, y), s) == Xor(Register(x, s), Zeros(8 * |s|, y))
  {
    if s != [] {
      var t := s[..|s| - 1];
      RegisterApart(x, y, t);
      ByteApart(Register(x, t), Zeros(8 * |t|, y), s[|s| - 1]);
      ZerosSum(BYTE, 8 * |t|, y);
    }
  }

  lemma {:induction false} RegisterAppend(c: bv32, s: seq<bv8>, t: seq<bv8>)
    ensures Register(c, s + t) == Register(Register(c, s), t)
  {
    if t == [] {
      assert s + t == s;
    } else {
      var n := |t| - 1;
      RegisterAppend(c, s, t[..n]);
      assert (s + t)[..|s| + n] == s + t[..n];
    }
  }

  lemma StartFull(s: seq<bv8>)
    ensures Crc(0, s) == Xor(Register(FULL, s), FULL)
  {
    assert 0 ^ FULL == FULL;
  }

  lemma FullTwice(a: bv32)
    ensures Xor(FULL, Xor(a, FULL)) == a
  {
  }

  lemma Regroup(r: bv32, z: bv32)
    ensures Xor(Xor(r, z), FULL) == Xor(z, Xor(r, FULL))
  {
  }

  lemma Rejoin(s: seq<bv8>, t: seq<bv8>, c: bv32)
    requires c == Xor(Register(FULL, s), FULL)
    ensures Register(FULL, s + t) == Xor(Register(FULL, t), Zeros(8 * |t|, c))
  {
    RegisterAppend(FULL, s, t);
    FullTwice(Register(FULL, s));
    RegisterApart(FULL, c, t);
  }

  /** The checksum of a concatenation from the checksums of its parts. */
  lemma CombineIsConcat(s: seq<bv8>, t: seq<bv8>)
    ensures Crc(0, s + t) == Xor(Zeros(8 * |t|, Crc(0, s)), Crc(0, t))
  {
    StartFull(s);
    StartFull(t);
    StartFull(s + t);
    Rejoin(s, t, Crc(0, s));
    Regroup(Register(FULL, t), Zeros(8 * |t|, Crc(0, s)));
  }

  lemma NoZeros(c: bv32)
    ensures Zeros(0, c) == c && Xor(c, Crc(0, [])) == c
  {
    assert Crc(0, []) == (0 ^ FULL) ^ FULL;
  }

  /** crc32_combine on the checksums of two strings. */
  method CombineStrings(s: seq<bv8>, t: seq<bv8>) returns (r: bv32)
    ensures r == Crc(0, s + t)
  {
    CombineIsConcat(s, t);
    NoZeros(Crc(0, s));
    r := Combine(Crc(0, s), Crc(0, t), |t|);
  }

  // ----- The conditioning and the polynomial (section 8 of RFC 1952) -----

  /** Eight zero bits, spelled out. */
  function Eight(c: bv32): (r: bv32)
  {
    Shift(Shift(Shift(Shift(Shift(Shift(Shift(Shift(c))))))))
  }

  lemma EightShifts(c: bv32)
    ensures Zeros(BYTE, c) == Eight(c)
  {
  }

  lemma Digit(s: seq<bv8>, c: bv32, b: bv8, r: bv32) returns (t: seq<bv8>)
    requires Register(FULL, s) == c && Eight(c ^ b as bv32) == r
    ensures t == s + [b] && Register(FULL, t) == r
  {
    t := s + [b];
    assert t[..|s|] == s;
    EightShifts(c ^ b as bv32);
  }

  /** The check value of this CRC: the checksum of the digits one to nine. */
  lemma CheckValue()
    ensures Crc(0, [0x31, 0x32, 0x33, 0x34, 0x35, 0x36, 0x37, 0x38, 0x39]) == 0xcbf43926
  {
    var s := [];
    s := Digit(s, 0xffffffff, 0x31, 0x7c231048);
    s := Digit(s, 0x7c231048, 0x32, 0xb0acbb32);
    s := Digit(s, 0xb0acbb32, 0x33, 0x77b79c2d);
    s := Digit(s, 0x77b79c2d, 0x34, 0x641c1f5c);
    s := Digit(s, 0x641c1f5c, 0x35, 0x340ac5e3);
    s := Digit(s, 0x340ac5e3, 0x36, 0xf68d2c9e);
    s := Digit(s, 0xf68d2c9e, 0x37, 0xaffc9660);
    s := Digit(s, 0xaffc9660, 0x38, 0x651f2550);
    s := Digit(s, 0x651f2550, 0x39, 0x340bc6d9);
    assert s == [0x31, 0x32, 0x33, 0x34, 0x35, 0x36, 0x37, 0x38, 0x39];
    StartFull(s);
  }

  /** A checksum can be taken up again where it was left. */
  lemma CrcContinues(crc: bv32, s: seq<bv8>, t: seq<bv8>)
    ensures Crc(Crc(crc, s), t) == Crc(crc, s + t) && Crc(crc, []) == crc
  {
    var c := Xor(crc, FULL);
    RegisterAppend(c, s, t);
    Inverted(Register(c, s));
    Inverted(crc);
  }

  lemma Inverted(a: bv32)
    ensures Xor(Xor(a, FULL), FULL) == a
  {
  }

  lemma ShiftInjective(a: bv32, b: bv32)
    ensures Shift(a) == Shift(b) ==> a == b
  {
  }

  lemma {:induction false} ZerosInjective(n: nat, a: bv32, b: bv32)
    ensures Zeros(n, a) == Zeros(n, b) ==> a == b
  {
    if n != 0 {
      ZerosInjective(n - 1, Shift(a), Shift(b));
      ShiftInjective(a, b);
    }
  }

  lemma {:induction false} RegisterInjective(a: bv32, b: bv32, s: seq<bv8>)
    ensures Register(a, s) == Register(b, s) ==> a == b
  {
    if s != [] {
      var t, c := s[..|s| - 1], s[|s| - 1] as bv32;
      RegisterInjective(a, b, t);
      ZerosInjective(BYTE, Xor(Register(a, t), c), Xor(Register(b, t), c));
      XorInjective(Register(a, t), Register(b, t), c);
    }
  }

  lemma XorInjective(a: bv32, b: bv32, c: bv32)
    ensures Xor(a, c) == Xor(b, c) ==> a == b
  {
  }

  /** Different starting values give different checksums of every string. */
  lemma CrcInjective(a: bv32, b: bv32, s: seq<bv8>)
    ensures Crc(a, s) == Crc(b, s) ==> a == b
  {
    RegisterInjective(Xor(a, FULL), Xor(b, FULL), s);
    XorInjective(Register(Xor(a, FULL), s), Register(Xor(b, FULL), s), FULL);
    XorInjective(a, b, FULL);
  }

  /** A zero byte in front shows. */
  lemma LeadingZero(s: seq<bv8>)
    ensures Crc(0, [0] + s) != Crc(0, s)
  {
    CrcContinues(0, [0], s);
    CrcInjective(Crc(0, [0]), 0, s);
    var z := Digit([], 0xffffffff, 0, 0x2dfd1072);
    assert z == [0];
    StartFull([0]);
  }
}
