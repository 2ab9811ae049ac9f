/** zlib's Adler-32: two sums mod 65521 with deferred reduction, and the combination formula. */
module Adler32 {
  import opened Basics

  const BASE := 65521
  const NMAX := 5552
  const U32 := 0x1_0000_0000

  // ----- The sums, never reduced -----

  /** Starting value plus the bytes. */
  function Sum1(a: int, s: seq<byte>): (r: int)
  {
    if s == [] then a else Sum1(a, s[..|s| - 1]) + s[|s| - 1] as int
  }

  /** Starting value plus all the intermediate values of the first sum. */
  function Sum2(a: int, b: int, s: seq<byte>): (r: int)
  {
    if s == [] then b else Sum2(a, b, s[..|s| - 1]) + Sum1(a, s)
  }

  /** Section 2.2 of RFC 1950, continued from the two given components. */
  function Sums(a: int, b: int, s: seq<byte>): (r: (int, int))
  {
    (Sum1(a, s) % BASE, Sum2(a, b, s) % BASE)
  }

  /** The checksum as one number, second sum above the first. */
  function Pack(p: (int, int)): (r: int) { p.0 + 65536 * p.1 }

  lemma {:induction false} SumsAppend(a: int, b: int, s: seq<byte>, t: seq<byte>)
    ensures Sum1(a, s + t) == Sum1(Sum1(a, s), t)
    ensures Sum2(a, b, s + t) == Sum2(Sum1(a, s), Sum2(a, b, s), t)
  {
    if t == [] {
      assert s + t == s;
    } else {
      var n := |t| - 1;
      SumsAppend(a, b, s, t[..n]);
      assert (s + t)[..|s| + n] == s + t[..n];
    }
  }

  /** A different start shifts the first sum once and the second once per byte. */
  lemma {:induction false} SumsShift(a: int, b: int, a': int, b': int, s: seq<byte>)
    ensures Sum1(a', s) == Sum1(a, s) + (a' - a)
    ensures Sum2(a', b', s) == Sum2(a, b, s) + (b' - b) + |s| * (a' - a)
  {
    if s != [] {
      SumsShift(a, b, a', b', s[..|s| - 1]);
      Distribute(|s| - 1, a' - a);
    }
  }

  lemma Distribute(n: int, d: int)
    ensures (n + 1) * d == n * d + d
  {
  }

  // ----- Reducing early changes nothing -----

  lemma ModShift(x: int, q: int)
    ensures (x + q * BASE) % BASE == x % BASE
  {
    ModUnique(x + q * BASE, x / BASE + q, x % BASE);
  }

  lemma ModUnique(x: int, q: int, r: int)
    requires x == q * BASE + r && 0 <= r < BASE
    ensures x % BASE == r
  {
  }

  lemma ModScale(n: int, q: int)
    ensures n * (q * BASE) == (n * q) * BASE
  {
  }

  lemma SumsReduced(a: int, b: int, s: seq<byte>)
    ensures Sums(a % BASE, b % BASE, s) == Sums(a, b, s)
  {
    SumsShift(a, b, a % BASE, b % BASE, s);
    var qa, qb, n := a / BASE, b / BASE, |s|;
    assert a % BASE - a == -qa * BASE && b % BASE - b == -qb * BASE;
    ModShift(Sum1(a, s), -qa);
    ModScale(n, -qa);
    ModShift(Sum2(a, b, s), -qb + n * -qa);
    Fold(qa, qb, n);
  }

  lemma Fold(qa: int, qb: int, n: int)
    ensures (-qb + n * -qa) * BASE == -qb * BASE + (n * -qa) * BASE
  {
  }

  /** Checksums of consecutive pieces chain. */
  lemma SumsChain(a: int, b: int, s: seq<byte>, t: seq<byte>)
    ensures Sums(Sums(a, b, s).0, Sums(a, b, s).1, t) == Sums(a, b, s + t)
  {
    SumsAppend(a, b, s, t);
    SumsReduced(Sum1(a, s), Sum2(a, b, s), t);
  }

  // ----- MOD and MOD4 by conditional subtraction -----

  /** `if (a >= (BASE << k)) a -= (BASE << k)` for `k` down to zero. */
  function Subtract(a: int, k: nat): (r: int)
    requires 0 <= a < BASE * Pow2(k + 1)
    ensures r == a % BASE
  {
    var p: int := Pow2(k);
    var a' := if a >= BASE * p then a - BASE * p else a;
    ModShift(a, -p);
    if k == 0 then a' else Subtract(a', k - 1)
  }

  lemma ShiftBounds()
    ensures BASE * Pow2(17) > U32 && BASE * Pow2(5) == 2096672
  {
    assert Pow2(5) == 32;
    Pow2Add(5, 12);
    Pow2Add(5, 7);
    Pow2Add(5, 2);
  }

  function Mod(a: int): (r: int)
    requires 0 <= a < U32
    ensures r == a % BASE
  {
    ShiftBounds();
    Subtract(a, 16)
  }

  function Mod4(a: int): (r: int)
    requires 0 <= a < 2096672
    ensures r == a % BASE
  {
    ShiftBounds();
    Subtract(a, 4)
  }

  // ----- How large the sums get between reductions -----

  /** The greatest value of a component that was never reduced. */
  const WIDEST := 65535

  /** The largest second sum after `n` bytes from components of at most `m`. */
  function Largest(m: nat, n: nat): (r: int)
  {
    if n == 0 then m else Largest(m, n - 1) + m + 255 * n
  }

  lemma {:induction false} LargestClosed(m: nat, n: nat)
    ensures 2 * Largest(m, n) == 255 * (n * (n + 1)) + 2 * ((n + 1) * m)
  {
    if n != 0 {
      LargestClosed(m, n - 1);
      assert n * (n + 1) == (n - 1) * n + 2 * n;
      Distribute(n, m);
    }
  }

  lemma {:induction false} LargestMono(m: nat, k: nat, n: nat)
    requires k <= n
    ensures Largest(m, k) <= Largest(m, n)
    decreases n - k
  {
    if k < n {
      LargestMono(m, k + 1, n);
    }
  }

  /** NMAX is the largest number of bytes whose sums cannot overflow 32 bits. */
  lemma NmaxIsLargest(n: nat)
    ensures Largest(BASE - 1, n) <= U32 - 1 <==> n <= NMAX
  {
    LargestClosed(BASE - 1, NMAX);
    LargestClosed(BASE - 1, NMAX + 1);
    if n <= NMAX {
      LargestMono(BASE - 1, n, NMAX);
    } else {
      LargestMono(BASE - 1, NMAX + 1, n);
    }
  }

  /** From components that are not reduced NMAX bytes still fit. */
  lemma WidestFits(n: nat)
    requires n <= NMAX
    ensures Largest(WIDEST, n) < U32
  {
    LargestClosed(WIDEST, NMAX);
    LargestMono(WIDEST, n, NMAX);
  }

  lemma {:induction false} SumsBounded(m: nat, a: int, b: int, s: seq<byte>)
    requires 0 <= a <= m && 0 <= b <= m
    ensures a <= Sum1(a, s) <= a + 255 * |s|
    ensures 0 <= Sum2(a, b, s) <= Largest(m, |s|) && Sum1(a, s) <= Largest(m, |s|)
  {
    if s != [] {
      SumsBounded(m, a, b, s[..|s| - 1]);
    }
  }

  // ----- adler32 -----

  /** Add up bytes without reducing, in 32-bit arithmetic. */
  method Accumulate(a: int, b: int, s: seq<byte>) returns (adler: int, sum2: int)
    requires 0 <= a <= WIDEST && 0 <= b <= WIDEST && |s| <= NMAX
    ensures adler == Sum1(a, s) && sum2 == Sum2(a, b, s) && 0 <= adler < U32 && 0 <= sum2 < U32
  {
    adler, sum2 := a, b;
    for i := 0 to |s|
      invariant adler == Sum1(a, s[..i]) && sum2 == Sum2(a, b, s[..i]) && 0 <= adler < U32 && 0 <= sum2 < U32
    {
      assert s[..i + 1][..i] == s[..i];
      SumsBounded(WIDEST, a, b, s[..i + 1]);
      WidestFits(i + 1);
      adler := (adler + s[i] as int) % U32;
      sum2 := (sum2 + adler) % U32;
    }
    assert s[..|s|] == s;
  }

  /** A piece of at most NMAX bytes, reduced at its end. */
  method Piece(a: int, b: int, s: seq<byte>) returns (adler: int, sum2: int)
    requires 0 <= a <= WIDEST && 0 <= b <= WIDEST && |s| <= NMAX
    ensures (adler, sum2) == Sums(a, b, s)
  {
    adler, sum2 := Accumulate(a, b, s);
    adler, sum2 := Mod(adler), Mod(sum2);
  }

  /** Fewer than sixteen bytes: one subtraction and MOD4 are enough. */
  method Short(a: int, b: int, s: seq<byte>) returns (adler: int, sum2: int)
    requires 0 <= a <= WIDEST && 0 <= b <= WIDEST && |s| < 16
    ensures (adler, sum2) == Sums(a, b, s)
  {
    SumsBounded(WIDEST, a, b, s);
    LargestMono(WIDEST, |s|, 15);
    LargestClosed(WIDEST, 15);
    adler, sum2 := Accumulate(a, b, s);
    if adler >= BASE { adler := adler - BASE; }
    sum2 := Mod4(sum2);
  }

  /** One byte: two subtractions, of which the second may be one too few when the start was not reduced. */
  method Single(a: int, b: int, c: byte) returns (adler: int, sum2: int)
    requires 0 <= a <= WIDEST && 0 <= b <= WIDEST
    ensures adler == Sums(a, b, [c]).0 && sum2 == Sums(a, b, [c]).1 + if b + adler >= 2 * BASE then BASE else 0
  {
    assert [c][..0] == [];
    assert Sum1(a, [c]) == a + c && Sum2(a, b, [c]) == b + (a + c);
    adler := a + c;
    if adler >= BASE { adler := adler - BASE; }
    assert (b + adler) % BASE == Sums(a, b, [c]).1;
    sum2 := b + adler;
    if sum2 >= BASE { sum2 := sum2 - BASE; }
  }

  /** Blocks of NMAX bytes, then what is left. */
  method Long(a: int, b: int, s: seq<byte>) returns (adler: int, sum2: int)
    requires 0 <= a <= WIDEST && 0 <= b <= WIDEST && s != []
    ensures (adler, sum2) == Sums(a, b, s)
  {
    adler, sum2 := a, b;
    var i := 0;
    assert s[..0] == [];
    while |s| - i >= NMAX
      invariant 0 <= i <= |s| && Carried(a, b, s[..i], adler, sum2)
    {
      CarriedOn(a, b, s[..i], adler, sum2, s[i..i + NMAX]);
      assert s[..i] + s[i..i + NMAX] == s[..i + NMAX];
      adler, sum2 := Piece(adler, sum2, s[i..i + NMAX]);
      i := i + NMAX;
    }
    CarriedOn(a, b, s[..i], adler, sum2, s[i..]);
    assert s[..i] + s[i..] == s;
    assert i == |s| ==> s[..i] == s;
    if i < |s| {
      adler, sum2 := Piece(adler, sum2, s[i..]);
    }
  }

  /** Between two pieces: nothing read yet, or the checksum of what was. */
  ghost predicate Carried(a: int, b: int, s: seq<byte>, adler: int, sum2: int)
  {
    if s == [] then adler == a && sum2 == b else (adler, sum2) == Sums(a, b, s)
  }

  lemma CarriedOn(a: int, b: int, s: seq<byte>, adler: int, sum2: int, t: seq<byte>)
    requires Carried(a, b, s, adler, sum2)
    ensures Sums(adler, sum2, t) == Sums(a, b, s + t)
  {
    if s == [] {
      assert s + t == t;
    } else {
      SumsChain(a, b, s, t);
    }
  }

  /** adler32: no buffer asks for the initial value, otherwise the checksum is continued over the buffer. Any starting
      value will do; the result is reduced except after a single byte, when the starting value was not reduced and the
      sums come to twice BASE. */
  method Adler(adler: nat, buf: Option<seq<byte>>) returns (r: int)
    ensures buf.None? ==> r == 1
    ensures var a, b := adler % 65536, adler / 65536 % 65536;
      buf.Some? ==> r == Pack(Sums(a, b, buf.value))
                         + if |buf.value| == 1 && b + Sums(a, b, buf.value).0 >= 2 * BASE then 65536 * BASE else 0
  {
    if buf.None? { return 1; }
    var a, b, s := adler % 65536, adler / 65536 % 65536, buf.value;
    if |s| == 1 {
      a, b := Single(a, b, s[0]);
      assert [s[0]] == s;
    } else if |s| < 16 {
      a, b := Short(a, b, s);
    } else {
      a, b := Long(a, b, s);
    }
    r := Pack((a, b));
  }

  /** From a reduced checksum the result is that of section 2.2 of RFC 1950, reduced again. */
  lemma ReducedStart(a: int, b: int, s: seq<byte>)
    requires 0 <= a < BASE && 0 <= b < BASE
    ensures b + Sums(a, b, s).0 < 2 * BASE && 0 <= Sums(a, b, s).0 < BASE && 0 <= Sums(a, b, s).1 < BASE
  {
  }

  // ----- adler32_combine -----

  /** The checksum of a string from the initial value. */
  function Checksum(s: seq<byte>): (r: int)
    ensures r % 65536 == Sum1(1, s) % BASE && r / 65536 % 65536 == Sum2(1, 0, s) % BASE
  {
    Pack(Sums(1, 0, s))
  }

  lemma OneMore(s: seq<byte>, c: byte) returns (t: seq<byte>)
    ensures t == s + [c] && Sum1(1, t) == Sum1(1, s) + c && Sum2(1, 0, t) == Sum2(1, 0, s) + Sum1(1, t)
  {
    t := s + [c];
    assert t[..|s|] == s;
  }

  /** The checksum of the digits one to nine, and where the sums wrap. */
  lemma CheckValues()
    ensures Checksum([0x31, 0x32, 0x33, 0x34, 0x35, 0x36, 0x37, 0x38, 0x39]) == 0x91e01de
    ensures Sums(65520, 0, [0]) == (65520, 65520) && Sums(65520, 0, [1]) == (0, 0)
  {
    var s: seq<byte> := [];
    s := OneMore(s, 0x31);
    s := OneMore(s, 0x32);
    s := OneMore(s, 0x33);
    s := OneMore(s, 0x34);
    s := OneMore(s, 0x35);
    s := OneMore(s, 0x36);
    s := OneMore(s, 0x37);
    s := OneMore(s, 0x38);
    s := OneMore(s, 0x39);
    assert s == [0x31, 0x32, 0x33, 0x34, 0x35, 0x36, 0x37, 0x38, 0x39];
    assert [0][..0] == [] && [1][..0] == [];
  }

  /** The two sums in one word, `lo | (hi << 16)`; `lo` may be one bit too long. */
  function Join(lo: int, hi: int): (r: int)
    requires 0 <= lo < 131072 && 0 <= hi
  {
    if lo < 65536 then Pack((lo, hi)) else Pack((lo - 65536, if hi % 2 == 0 then hi + 1 else hi))
  }

  /** What should come out for the components of two checksums and the length of the second string. */
  function Combined(p: int, q: int, p2: int, q2: int, len2: nat): (r: (int, int))
  {
    ((p + p2 - 1) % BASE, (q + q2 + len2 * (p - 1)) % BASE)
  }

  /** The sums before the last subtractions are within what these reduce. */
  predicate Reducible(p: int, q: int, p2: int, q2: int, len2: nat)
  {
    p + p2 <= 2 * BASE && ((len2 % BASE) * p) % BASE + q + q2 < 3 * BASE + len2 % BASE
  }

  lemma ReducedReducible(p: int, q: int, p2: int, q2: int, len2: nat)
    requires p < BASE && q < BASE && p2 < BASE && q2 < BASE
    ensures Reducible(p, q, p2, q2, len2)
  {
  }

  /** A number as one of type unsigned long, of 64 bits or of 32. */
  function Unsigned(x: int, long: bool): (n: nat)
    ensures 0 <= x < U32 || (long && 0 <= x < U32 * U32) ==> n == x
  {
    if long then x % (U32 * U32) else x % U32
  }

  /** The formula, as the source computes it: right exactly when the sums are within what the subtractions reduce, which
      reduced checksums always are. */
  method Combine(adler1: nat, adler2: nat, len2: int, long: bool) returns (r: int)
    ensures var p, q, p2, q2 := adler1 % 65536, adler1 / 65536 % 65536, adler2 % 65536, adler2 / 65536 % 65536;
      r == Pack(Combined(p, q, p2, q2, Unsigned(len2, long))) <==> Reducible(p, q, p2, q2, Unsigned(len2, long))
  {
    r := CombineParts(adler1 % 65536, adler1 / 65536 % 65536, adler2 % 65536, adler2 / 65536 % 65536,
                      Unsigned(len2, long));
  }

  method CombineParts(p: int, q: int, p2: int, q2: int, len2: nat) returns (r: int)
    requires 0 <= p <= WIDEST && 0 <= q <= WIDEST && 0 <= p2 <= WIDEST && 0 <= q2 <= WIDEST
    ensures r == Pack(Combined(p, q, p2, q2, len2)) <==> Reducible(p, q, p2, q2, len2)
  {
    var rem := len2 % BASE;
    var sum1 := p;
    Square(rem, p);
    var sum2 := Mod(rem * sum1);
    SumsCombined(p, q, p2, q2, len2, rem, sum2);
    sum1 := sum1 + p2 + BASE - 1;
    sum2 := sum2 + q + q2 + BASE - rem;
    ghost var c := Combined(p, q, p2, q2, len2);
    var lo, hi := SubtractTwice(sum1), SubtractDouble(sum2);
    PackApart(lo, hi, c.0, c.1);
    r := Join(lo, hi);
  }

  lemma SumsCombined(p: int, q: int, p2: int, q2: int, len2: nat, rem: int, prod: int)
    requires rem == len2 % BASE && prod == (rem * p) % BASE
    ensures Combined(p, q, p2, q2, len2) == ((p + p2 + BASE - 1) % BASE, (prod + q + q2 + BASE - rem) % BASE)
    ensures Reducible(p, q, p2, q2, len2) <==> p + p2 + BASE - 1 < 3 * BASE && prod + q + q2 + BASE - rem < 4 * BASE
  {
    ModShift(p + p2 - 1, 1);
    CombineSum2(len2, p, q + q2, rem, prod);
  }

  /** Two fixed subtractions reduce exactly what is below three times BASE. */
  function SubtractTwice(x: int): (r: int)
    requires 0 <= x < 4 * BASE
    ensures r == x % BASE + if x < 3 * BASE then 0 else BASE
  {
    var y := if x >= BASE then x - BASE else x;
    if y >= BASE then y - BASE else y
  }

  /** A subtraction of twice BASE and one of BASE reduce exactly what is below four times BASE. */
  function SubtractDouble(x: int): (r: int)
    requires 0 <= x < 5 * BASE
    ensures r == x % BASE + if x < 4 * BASE then 0 else BASE
  {
    var y := if x >= 2 * BASE then x - 2 * BASE else x;
    if y >= BASE then y - BASE else y
  }

  /** Sums that are BASE too large show in the result. */
  lemma PackApart(lo: int, hi: int, lo': int, hi': int)
    requires 0 <= lo' < BASE && 0 <= hi' < BASE && (lo == lo' || lo == lo' + BASE) && (hi == hi' || hi == hi' + BASE)
    ensures Join(lo, hi) == Pack((lo', hi')) <==> lo == lo' && hi == hi'
  {
  }

  lemma Square(rem: int, p: int)
    requires 0 <= rem < BASE && 0 <= p <= WIDEST
    ensures 0 <= rem * p < U32
  {
    ScaleMono(rem, BASE - 1, p);
    ScaleMono(0, rem, p);
  }

  lemma CombineSum2(len2: nat, p: int, q: int, rem: int, prod: int)
    requires rem == len2 % BASE && prod == (rem * p) % BASE
    ensures (prod + q + BASE - rem) % BASE == (q + len2 * (p - 1)) % BASE
  {
    var n, m := len2 / BASE, (rem * p) / BASE;
    assert prod == rem * p - m * BASE;
    Expand(n, rem, p, len2);
    ModShift(q + len2 * (p - 1), 1 - m - n * (p - 1));
    Regroup(m, n * (p - 1));
  }

  lemma Expand(n: int, rem: int, p: int, len2: int)
    requires len2 == n * BASE + rem
    ensures len2 * (p - 1) == (n * (p - 1)) * BASE + rem * p - rem
  {
    assert (n * BASE) * (p - 1) == (n * (p - 1)) * BASE;
  }

  lemma Regroup(m: int, x: int)
    ensures (1 - m - x) * BASE == BASE - m * BASE - x * BASE
  {
  }

  /** Combining the checksums of two strings gives the checksum of their concatenation. */
  lemma CombineIsConcat(s: seq<byte>, t: seq<byte>)
    ensures var x, y := Sums(1, 0, s), Sums(1, 0, t); Checksum(s + t) == Pack(Combined(x.0, x.1, y.0, y.1, |t|))
  {
    var a, b := Sum1(1, s), Sum2(1, 0, s);
    var a', b' := a % BASE, b % BASE;
    SumsChain(1, 0, s, t);
    SumsShift(1, 0, a', b', t);
    ModAdd(Sum1(1, t), a' - 1);
    ModAdd(Sum2(1, 0, t), b' + |t| * (a' - 1));
  }

  lemma ModAdd(x: int, y: int)
    ensures (x + y) % BASE == (x % BASE + y) % BASE
  {
    ModShift(x % BASE + y, x / BASE);
  }

  /** adler32_combine on the checksums of two strings, the second of a length that the type of `len2` can hold. */
  method CombineStrings(s: seq<byte>, t: seq<byte>, long: bool) returns (r: int)
    requires |t| < U32 || (long && |t| < U32 * U32)
    ensures r == Checksum(s + t)
  {
    CombineIsConcat(s, t);
    var x, y := Sums(1, 0, s), Sums(1, 0, t);
    ReducedReducible(x.0, x.1, y.0, y.1, |t|);
    r := Combine(Checksum(s), Checksum(t), |t|, long);
  }
}
