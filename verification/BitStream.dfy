/** bsW and GET_BITS: the 32-bit buffers between bit fields and bytes. */
module BitStream {
  import opened Basics
  import opened Bits

  const WORD := 0x1_0000_0000

  /** Like `Opened`, for the invariants of the two bit buffers. */
  ghost predicate OpenedBits(i: int) { true }

  /** `buff` holds the `live` bits of value `top` in its high end, zeros below. */
  ghost predicate HighEnd(buff: int, live: int, top: int)
  {
    0 <= live <= 32 && 0 <= top < Pow2(live) && buff == top * Pow2(32 - live)
  }

  lemma Pow2Values()
    ensures Pow2(8) == 256 && Pow2(24) == 0x100_0000 && Pow2(32) == WORD
  {
    Pow2Add(8, 16);
    Pow2Add(8, 8);
    Pow2Add(24, 8);
    assert Pow2(8) == 256;
  }

  lemma TakeByteCore(buff: int, top: int, p: int, q: int) returns (hi: int, lo: int)
    requires p > 0 && q > 0 && p * q == 0x100_0000 && 0 <= top < 256 * p && buff == top * q
    ensures 0 <= hi < 256 && 0 <= lo < p && top == hi * p + lo
    ensures buff / 0x100_0000 == hi && buff * 256 % WORD == lo * (q * 256)
  {
    hi, lo := top / p, top % p;
    DivMod(top, p);
    HiBelow(top, p, 256);
    SplitBuffer(buff, hi, lo, p, q);
    ShiftOut(buff, hi, lo, q);
  }

  lemma Pow2Sum(a: nat, b: nat, c: nat)
    requires a + b == c
    ensures Pow2(a) * Pow2(b) == Pow2(c)
  {
    Pow2Add(a, b);
  }

  /** The byte that leaves the buffer, and what remains of it. */
  lemma TakeByte(buff: int, live: int, top: int) returns (hi: int, lo: int)
    requires HighEnd(buff, live, top) && live >= 8
    ensures 0 <= hi < 256 && 0 <= lo < Pow2(live - 8) && top == hi * Pow2(live - 8) + lo
    ensures buff / 0x100_0000 == hi
    ensures HighEnd(buff * 256 % WORD, live - 8, lo)
    ensures ToBits(top, live) == ToBits(hi, BYTE_BITS) + ToBits(lo, live - 8)
  {
    var p, q := Pow2(live - 8), Pow2(32 - live);
    Pow2Values();
    Pow2Sum(8, live - 8, live);
    Pow2Sum(live - 8, 32 - live, 24);
    Pow2Sum(32 - live, 8, 32 - (live - 8));
    hi, lo := TakeByteCore(buff, top, p, q);
    BitsOfPair(hi, lo, 8, live - 8);
  }

  lemma DivMod(v: int, p: int)
    requires p > 0
    ensures v == (v / p) * p + v % p && 0 <= v % p < p
  {
  }

  lemma HiBelow(top: int, p: int, n: int)
    requires p > 0 && 0 <= top < n * p
    ensures 0 <= top / p < n
  {
    var h := top / p;
    assert top == h * p + top % p;
    if h >= n {
      ScaleMono(n, h, p);
      assert false;
    }
    if h < 0 {
      ScaleMono(h, -1, p);
      assert false;
    }
  }

  lemma SplitBuffer(buff: int, hi: int, lo: int, p: int, q: int)
    requires p > 0 && q > 0 && 0 <= lo < p && p * q == 0x100_0000 && buff == (hi * p + lo) * q
    ensures buff == hi * 0x100_0000 + lo * q && 0 <= lo * q < 0x100_0000 && buff / 0x100_0000 == hi
  {
    assert (hi * p + lo) * q == hi * (p * q) + lo * q;
    ScaleMono(lo + 1, p, q);
    ScaleMono(0, lo, q);
    QuotientUnique(buff, 0x100_0000, hi, lo * q);
  }

  lemma ShiftOut(buff: int, hi: int, lo: int, q: int)
    requires buff == hi * 0x100_0000 + lo * q && 0 <= lo * q < 0x100_0000
    ensures buff * 256 % WORD == lo * (q * 256)
  {
    assert buff * 256 == WORD * hi + lo * q * 256;
    QuotientUnique(buff * 256, WORD, hi, lo * q * 256);
  }

  // ----- Writing -----

  lemma AddFieldCore(top: int, v: int, p: int, n: int, q: int)
    requires p == n * q && 0 <= v < n && q > 0
    ensures top * p + v * q == (top * n + v) * q
  {
    assert top * (n * q) == (top * n) * q;
  }

  lemma JoinBelow(top: int, v: int, a: int, n: int)
    requires 0 <= top < a && 0 <= v < n
    ensures 0 <= top * n + v < a * n
  {
    ScaleMono(top + 1, a, n);
    ScaleMono(0, top, n);
  }

  /** Appending a field below the live bits. */
  lemma AddField(buff: int, live: int, top: int, n: int, v: int)
    requires HighEnd(buff, live, top) && n >= 0 && live + n <= 32 && 0 <= v < Pow2(n)
    ensures HighEnd(buff + v * Pow2(32 - live - n), live + n, top * Pow2(n) + v)
    ensures ToBits(top * Pow2(n) + v, live + n) == ToBits(top, live) + ToBits(v, n)
  {
    Pow2Sum(n, 32 - live - n, 32 - live);
    Pow2Sum(live, n, live + n);
    AddFieldCore(top, v, Pow2(32 - live), Pow2(n), Pow2(32 - live - n));
    JoinBelow(top, v, Pow2(live), Pow2(n));
    BitsOfPair(top, v, live, n);
  }

  /** Emitted bytes, then the live bits of the buffer, spell `bits`. */
  ghost predicate Buffered(zbits: seq<byte>, buff: int, live: int, top: int, bits: seq<bit>)
  {
    HighEnd(buff, live, top) && bits == BytesToBits(zbits) + ToBits(top, live)
  }

  /** The same, not looked into. */
  ghost predicate Holds(zbits: seq<byte>, buff: int, live: int, top: int, bits: seq<bit>)
  {
    forall i {:trigger OpenedBits(i)} :: OpenedBits(i) ==> Buffered(zbits, buff, live, top, bits)
  }

  lemma NothingHeld()
    ensures Holds([], 0, 0, 0, [])
  {
    assert Pow2(0) == 1 && ToBits(0, 0) == [] && BytesToBits([]) == [];
  }

  lemma EmitStep(sent: seq<byte>, zbits: seq<byte>, buff: int, live: int, top: int, bits: seq<bit>) returns (lo: int)
    requires Holds(sent + zbits, buff, live, top, bits) && live >= 8
    ensures 0 <= buff / 0x100_0000 < 256
    ensures Holds(sent + (zbits + [buff / 0x100_0000]), buff * 256 % WORD, live - 8, lo, bits)
  {
    assert OpenedBits(0);
    var hi;
    hi, lo := TakeByte(buff, live, top);
    ByteOut(sent + zbits, hi, ToBits(top, live), ToBits(lo, live - 8));
    ConcatAssoc(sent, zbits, [hi]);
  }

  lemma ByteOut(zbits: seq<byte>, hi: byte, s: seq<bit>, rest: seq<bit>)
    requires s == ToBits(hi, BYTE_BITS) + rest
    ensures BytesToBits(zbits) + s == BytesToBits(zbits + [hi]) + rest
  {
    BytesToBitsSnoc(zbits, hi);
    ConcatAssoc(BytesToBits(zbits), ToBits(hi, BYTE_BITS), rest);
  }

  lemma FieldStep(zbits: seq<byte>, buff: int, live: int, top: int, bits: seq<bit>, n: int, v: int)
    requires Holds(zbits, buff, live, top, bits) && 0 <= live && n >= 0 && live + n <= 32 && 0 <= v < Pow2(n)
    ensures Holds(zbits, buff + v * Pow2(32 - live - n), live + n, top * Pow2(n) + v, bits + ToBits(v, n))
  {
    assert OpenedBits(0);
    AddField(buff, live, top, n, v);
    ConcatAssoc(BytesToBits(zbits), ToBits(top, live), ToBits(v, n));
  }

  /** The compressor's output side. `zbits` is the output of the current block, `sent` that of the blocks before
      it, and `bits` everything written since the start of the stream. */
  class BitWriter {
    ghost const sent: seq<byte>
    var zbits: seq<byte>
    var bsBuff: int
    var bsLive: int
    ghost var top: int
    ghost var bits: seq<bit>

    ghost predicate Valid()
      reads this
    {
      0 <= bsLive <= 32 && Holds(sent + zbits, bsBuff, bsLive, top, bits)
    }

    /** BZ2_bsInitWrite. */
    constructor ()
      ensures Valid() && bits == [] && zbits == [] && sent == []
    {
      zbits, bsBuff, bsLive, top, bits := [], 0, 0, 0, [];
      sent := [];
      new;
      NothingHeld();
      assert sent + zbits == [];
    }

    /** The next block: its bytes are counted from zero again, the unfinished byte is carried over. */
    constructor Resume(w: BitWriter)
      requires w.Valid()
      ensures Valid() && bits == w.bits && zbits == [] && sent == w.sent + w.zbits
    {
      zbits, bsBuff, bsLive, top, bits := [], w.bsBuff, w.bsLive, w.top, w.bits;
      sent := w.sent + w.zbits;
      new;
      assert sent + zbits == w.sent + w.zbits;
    }

    /** All bits written are in whole bytes or in the buffer. */
    lemma Measured()
      requires Valid()
      ensures |bits| == 8 * (|sent| + |zbits|) + bsLive && 0 <= bsLive <= 32
    {
      assert OpenedBits(0);
    }

    /** bsNEEDW. */
    method NeedW()
      requires Valid()
      modifies this
      ensures Valid() && bits == old(bits) && bsLive < 8
    {
      while bsLive >= 8
        invariant Valid() && bits == old(bits)
        decreases bsLive
      {
        ghost var lo := EmitStep(sent, zbits, bsBuff, bsLive, top, bits);
        zbits := zbits + [bsBuff / 0x100_0000];
        bsBuff := bsBuff * 256 % WORD;
        bsLive := bsLive - 8;
        top := lo;
      }
    }

    /** bsW: append an `n`-bit field. */
    method W(n: int, v: int)
      requires Valid() && 0 <= n <= 24 && 0 <= v < Pow2(n)
      modifies this
      ensures Valid() && bits == old(bits) + ToBits(v, n)
    {
      NeedW();
      FieldStep(sent + zbits, bsBuff, bsLive, top, bits, n, v);
      bsBuff := bsBuff + v * Pow2(32 - bsLive - n);
      top := top * Pow2(n) + v;
      bsLive := bsLive + n;
      bits := bits + ToBits(v, n);
    }

    /** bsFinishWrite: everything written comes out, the last byte padded with zero bits. */
    method Finish() returns (ghost pad: nat)
      requires Valid()
      modifies this
      ensures pad < 8 && BytesToBits(sent + zbits) == old(bits) + ToBits(0, pad)
    {
      pad := 0;
      FlushStart();
      while bsLive > 0
        invariant Flushing(sent + zbits, bsBuff, bsLive, top, old(bits), pad)
        decreases bsLive
      {
        ghost var lo;
        lo, pad := FlushStep(sent, zbits, bsBuff, bsLive, top, old(bits), pad);
        zbits := zbits + [bsBuff / 0x100_0000];
        bsBuff := bsBuff * 256 % WORD;
        bsLive := bsLive - 8;
        top := lo;
      }
      FlushEnd(sent + zbits, old(bits), pad);
    }

    lemma FlushStart()
      requires Valid()
      ensures Flushing(sent + zbits, bsBuff, bsLive, top, bits, 0)
    {
      NothingLive(sent + zbits, bsBuff, bsLive, top, bits);
    }
  }

  /** While flushing: bits are left in the buffer, or all are out with `pad` zero bits after them. */
  ghost predicate Flushing(zbits: seq<byte>, buff: int, live: int, top: int, bits: seq<bit>, pad: nat)
  {
    live <= 32 && if live > 0 then Holds(zbits, buff, live, top, bits) else Flushed(zbits, bits, pad)
  }

  ghost predicate Flushed(zbits: seq<byte>, bits: seq<bit>, pad: nat)
  {
    forall i {:trigger OpenedBits(i)} :: OpenedBits(i) ==> pad < 8 && BytesToBits(zbits) == bits + ToBits(0, pad)
  }

  lemma FlushEnd(zbits: seq<byte>, bits: seq<bit>, pad: nat)
    requires Flushed(zbits, bits, pad)
    ensures pad < 8 && BytesToBits(zbits) == bits + ToBits(0, pad)
  {
    assert OpenedBits(0);
  }

  lemma NothingLive(zbits: seq<byte>, buff: int, live: int, top: int, bits: seq<bit>)
    requires Holds(zbits, buff, live, top, bits) && 0 <= live <= 32
    ensures Flushing(zbits, buff, live, top, bits, 0)
  {
    if live == 0 {
      assert OpenedBits(0);
      assert bits + ToBits(0, 0) == bits;
    }
  }

  lemma FlushStep(sent: seq<byte>, zbits: seq<byte>, buff: int, live: int, top: int, bits: seq<bit>, pad0: nat)
    returns (lo: int, pad: nat)
    requires Flushing(sent + zbits, buff, live, top, bits, pad0) && live > 0
    ensures 0 <= buff / 0x100_0000 < 256
    ensures Flushing(sent + (zbits + [buff / 0x100_0000]), buff * 256 % WORD, live - 8, lo, bits, pad)
  {
    lo, pad := 0, 0;
    if live >= 8 {
      lo := EmitStep(sent, zbits, buff, live, top, bits);
      NothingLive(sent + (zbits + [buff / 0x100_0000]), buff * 256 % WORD, live - 8, lo, bits);
    } else {
      pad := 8 - live;
      assert OpenedBits(0);
      LastByte(sent + zbits, buff, live, top, bits);
      ConcatAssoc(sent, zbits, [buff / 0x100_0000]);
    }
  }

  lemma LastByteCore(buff: int, top: int, p: int, q: int)
    requires q > 0 && 0 <= top < p && buff == top * (q * 0x100_0000) && p * q == 256
    ensures buff / 0x100_0000 == top * q && 0 <= top * q < 256
  {
    assert top * (q * 0x100_0000) == (top * q) * 0x100_0000;
    ScaleMono(top + 1, p, q);
    ScaleMono(0, top, q);
  }

  lemma LastByteBits(buff: int, live: int, top: int)
    requires HighEnd(buff, live, top) && 0 < live < 8
    ensures 0 <= buff / 0x100_0000 < 256
    ensures ToBits(buff / 0x100_0000, BYTE_BITS) == ToBits(top, live) + ToBits(0, 8 - live)
  {
    Pow2Values();
    Pow2Sum(live, 8 - live, 8);
    Pow2Sum(8 - live, 24, 32 - live);
    LastByteCore(buff, top, Pow2(live), Pow2(8 - live));
    BitsOfPair(top, 0, live, 8 - live);
  }

  lemma LastByte(zbits: seq<byte>, buff: int, live: int, top: int, bits: seq<bit>)
    requires Buffered(zbits, buff, live, top, bits) && 0 < live < 8
    ensures 0 <= buff / 0x100_0000 < 256
    ensures BytesToBits(zbits + [buff / 0x100_0000]) == bits + ToBits(0, 8 - live)
  {
    LastByteBits(buff, live, top);
    BytesToBitsSnoc(zbits, buff / 0x100_0000);
    ConcatAssoc(BytesToBits(zbits), ToBits(top, live), ToBits(0, 8 - live));
  }

  // ----- Reading -----

  /** The low `live` bits of `buff` hold `low`; what is above them is stale. */
  ghost predicate LowEnd(buff: int, live: int, hi: int, low: int)
  {
    0 <= live <= 32 && hi >= 0 && 0 <= low < Pow2(live) && buff == hi * Pow2(live) + low
  }

  lemma ShiftInCore(buff: int, hi: int, low: int, c: int, p: int, r: int)
    requires p > 0 && r > 0 && p * r == WORD && 0 <= low < p && hi >= 0 && buff == hi * p + low
    ensures buff % WORD == (hi % r) * p + low
  {
    var k, m := hi / r, hi % r;
    DivMod(hi, r);
    assert hi * p == (k * r + m) * p == k * (p * r) + m * p;
    ScaleMono(m + 1, r, p);
    ScaleMono(0, m, p);
    QuotientUnique(buff, WORD, k, m * p + low);
  }

  /** One more input byte below the live bits. */
  lemma ShiftIn(buff: int, live: int, hi: int, low: int, c: int) returns (hi': int)
    requires LowEnd(buff, live, hi, low) && live <= 24 && 0 <= c < 256
    ensures LowEnd((buff * 256 + c) % WORD, live + 8, hi', low * 256 + c)
    ensures ToBits(low * 256 + c, live + 8) == ToBits(low, live) + ToBits(c, BYTE_BITS)
  {
    Pow2Values();
    Pow2Sum(live, 8, live + 8);
    Pow2Sum(live + 8, 24 - live, 32);
    hi' := ShiftInParts(buff, hi, low, c, Pow2(live), Pow2(24 - live));
    BitsOfPair(low, c, live, 8);
  }

  lemma ShiftInParts(buff: int, hi: int, low: int, c: int, p: int, r: int) returns (hi': int)
    requires p > 0 && r > 0 && (p * 256) * r == WORD && 0 <= low < p && hi >= 0 && buff == hi * p + low && 0 <= c < 256
    ensures hi' >= 0 && (buff * 256 + c) % WORD == hi' * (p * 256) + (low * 256 + c) && 0 <= low * 256 + c < p * 256
  {
    hi' := hi % r;
    assert (hi * p) * 256 == hi * (p * 256);
    ShiftInCore(buff * 256 + c, hi, low * 256 + c, c, p * 256, r);
  }

  lemma TakeFieldCore(buff: int, hi: int, low: int, p: int, n: int, q: int) returns (a: int, c: int)
    requires n > 0 && q > 0 && p == n * q && hi >= 0 && 0 <= low < p && buff == hi * p + low
    ensures low == a * q + c && 0 <= a < n && 0 <= c < q
    ensures (buff / q) % n == a && buff == (hi * n + a) * q + c
  {
    a, c := low / q, low % q;
    DivMod(low, q);
    HiBelow(low, q, n);
    assert hi * (n * q) == (hi * n) * q;
    assert buff == (hi * n + a) * q + c;
    QuotientUnique(buff, q, hi * n + a, c);
    QuotientUnique(hi * n + a, n, hi, a);
  }

  /** Taking an `n`-bit field from the top of the live bits. */
  lemma TakeField(buff: int, live: int, hi: int, low: int, n: int) returns (a: int, c: int)
    requires LowEnd(buff, live, hi, low) && 0 <= n <= live
    ensures 0 <= a < Pow2(n) && (buff / Pow2(live - n)) % Pow2(n) == a
    ensures LowEnd(buff, live - n, hi * Pow2(n) + a, c)
    ensures ToBits(low, live) == ToBits(a, n) + ToBits(c, live - n)
  {
    Pow2Sum(n, live - n, live);
    a, c := TakeFieldCore(buff, hi, low, Pow2(live), Pow2(n), Pow2(live - n));
    ScaleMono(0, hi, Pow2(n));
    BitsOfPair(a, c, n, live - n);
  }

  /** The live bits of the buffer and the rest of the current input spell `bits`. */
  ghost predicate Queued(live: int, low: int, input: seq<byte>, bits: seq<bit>)
  {
    0 <= live && 0 <= low && bits == ToBits(low, live) + BytesToBits(input)
  }

  /** `LowEnd`, not looked into. */
  ghost predicate Low(buff: int, live: int, hi: int, low: int)
  {
    forall i {:trigger OpenedLow(i)} :: OpenedLow(i) ==> LowEnd(buff, live, hi, low)
  }

  /** Like `OpenedBits`, for the number in the buffer. */
  ghost predicate OpenedLow(i: int) { true }

  lemma LowShift(buff: int, live: int, hi: int, low: int, c: int, buff': int, low': int) returns (hi': int)
    requires Low(buff, live, hi, low) && live <= 24 && 0 <= c < 256
    requires buff' == (buff * 256 + c) % WORD && low' == low * 256 + c
    ensures 0 <= live && 0 <= low <= low' && Low(buff', live + 8, hi', low')
    ensures ToBits(low', live + 8) == ToBits(low, live) + ToBits(c, BYTE_BITS)
  {
    assert OpenedLow(0);
    hi' := ShiftIn(buff, live, hi, low, c);
  }

  lemma LowTake(buff: int, live: int, hi: int, low: int, n: int) returns (hi': int, a: int, c: int)
    requires Low(buff, live, hi, low) && 0 <= n <= live
    ensures 0 <= low && 0 <= c && 0 <= a < Pow2(n) && (buff / Pow2(live - n)) % Pow2(n) == a
    ensures Low(buff, live - n, hi', c) && ToBits(low, live) == ToBits(a, n) + ToBits(c, live - n)
  {
    assert OpenedLow(0);
    a, c := TakeField(buff, live, hi, low, n);
    hi' := hi * Pow2(n) + a;
  }

  /** The same, not looked into. */
  ghost predicate Waits(buff: int, live: int, hi: int, low: int, input: seq<byte>, bits: seq<bit>)
  {
    Low(buff, live, hi, low) && forall i {:trigger OpenedBits(i)} :: OpenedBits(i) ==> Queued(live, low, input, bits)
  }

  lemma RefillStep(buff: int, live: int, hi: int, low: int, input: seq<byte>, bits: seq<bit>, buff': int, low': int)
    returns (hi': int)
    requires Waits(buff, live, hi, low, input, bits) && live <= 24 && input != []
    requires buff' == (buff * 256 + input[0] as int) % WORD && low' == low * 256 + input[0] as int
    ensures Waits(buff', live + 8, hi', low', input[1..], bits)
  {
    hi' := LowShift(buff, live, hi, low, input[0], buff', low');
    QueueStep(live, low, input, bits, low');
  }

  lemma QueueStep(live: int, low: int, input: seq<byte>, bits: seq<bit>, low': int)
    requires forall i {:trigger OpenedBits(i)} :: OpenedBits(i) ==> Queued(live, low, input, bits)
    requires 0 <= live && 0 <= low <= low' && input != []
    requires ToBits(low', live + 8) == ToBits(low, live) + ToBits(input[0], BYTE_BITS)
    ensures forall i {:trigger OpenedBits(i)} :: OpenedBits(i) ==> Queued(live + 8, low', input[1..], bits)
  {
    assert OpenedBits(0);
    HeadByte(ToBits(low, live), input);
  }

  lemma NothingQueued(buff: int, live: int, hi: int, low: int, input: seq<byte>, bits: seq<bit>)
    requires buff == live == hi == low == 0 && input == [] && bits == []
    ensures Waits(buff, live, hi, low, input, bits)
  {
    assert Pow2(live) == 1 && hi * Pow2(live) == 0;
    assert LowEnd(buff, live, hi, low);
    assert ToBits(low, live) == [] && BytesToBits(input) == [];
    assert Queued(live, low, input, bits);
  }

  lemma HeadByte(pre: seq<bit>, input: seq<byte>)
    requires input != []
    ensures pre + BytesToBits(input) == (pre + ToBits(input[0], BYTE_BITS)) + BytesToBits(input[1..])
  {
    BytesHead(input[0], input[1..]);
    assert [input[0]] + input[1..] == input;
    ConcatAssoc(pre, ToBits(input[0], BYTE_BITS), BytesToBits(input[1..]));
  }

  lemma BytesHead(c: byte, tail: seq<byte>)
    ensures BytesToBits([c] + tail) == ToBits(c, BYTE_BITS) + BytesToBits(tail)
  {
    BytesToBitsAppend([c], tail);
    OneByte(c);
  }

  /** GET_BITS as a function of the bits ahead. */
  function Field(s: seq<bit>, n: nat): (r: Option<(int, seq<bit>)>)
    ensures r.Some? ==> 0 <= r.value.0 < Pow2(n) && |r.value.1| == |s| - n
  {
    if |s| < n then None else
      FromBitsBound(s[..n]);
      Some((FromBits(s[..n]), s[n..]))
  }

  lemma FieldOf(v: nat, n: nat, rest: seq<bit>)
    requires v < Pow2(n)
    ensures Field(ToBits(v, n) + rest, n) == Some((v, rest))
  {
    FromToBits(v, n);
    var s := ToBits(v, n) + rest;
    assert s[..n] == ToBits(v, n) && s[n..] == rest;
  }

  /** A field that is there stays the same when more bits arrive behind it. */
  lemma FieldMore(s: seq<bit>, n: nat, more: seq<bit>)
    requires |s| >= n
    ensures Field(s + more, n) == Some((Field(s, n).value.0, Field(s, n).value.1 + more))
  {
    assert (s + more)[..n] == s[..n] && (s + more)[n..] == s[n..] + more;
  }

  lemma TakeStep(buff: int, live: int, hi: int, low: int, input: seq<byte>, bits: seq<bit>, n: int)
    returns (hi': int, low': int)
    requires Waits(buff, live, hi, low, input, bits) && 0 <= n <= live
    ensures |bits| >= n && Field(bits, n) == Some(((buff / Pow2(live - n)) % Pow2(n), bits[n..]))
    ensures Waits(buff, live - n, hi', low', input, bits[n..])
  {
    assert OpenedBits(0);
    var a;
    hi', a, low' := LowTake(buff, live, hi, low, n);
    var tail := BytesToBits(input);
    ConcatAssoc(ToBits(a, n), ToBits(low', live - n), tail);
    FieldOf(a, n, ToBits(low', live - n) + tail);
  }

  lemma FeedStep(buff: int, live: int, hi: int, low: int, bits: seq<bit>, more: seq<byte>)
    requires Waits(buff, live, hi, low, [], bits)
    ensures Waits(buff, live, hi, low, more, bits + BytesToBits(more))
  {
    assert OpenedBits(0);
    assert bits == ToBits(low, live);
  }

  lemma TakeBackStep(buff: int, live: int, hi: int, low: int, input: seq<byte>, bits: seq<bit>) returns (left: seq<bit>)
    requires Waits(buff, live, hi, low, input, bits)
    ensures Waits(buff, live, hi, low, [], left) && bits == left + BytesToBits(input) && |left| == live
  {
    assert OpenedBits(0);
    left := ToBits(low, live);
    assert left + BytesToBits([]) == left;
  }

  /** The input side of the decompressor. `input` is what the caller's current call still offers; `bits` is that and
      what is left in the buffer of the calls before. */
  class BitReader {
    var input: seq<byte>
    var bsBuff: int
    var bsLive: int
    ghost var hi: int
    ghost var low: int
    ghost var bits: seq<bit>

    ghost predicate Valid()
      reads this
    {
      bsLive >= 0 && Waits(bsBuff, bsLive, hi, low, input, bits)
    }

    constructor ()
      ensures Valid() && bits == [] && input == [] && bsLive == 0
    {
      input, bsBuff, bsLive, hi, low, bits := [], 0, 0, 0, 0, [];
      new;
      NothingQueued(bsBuff, bsLive, hi, low, input, bits);
    }

    /** A call begins: its input comes behind the bits that the calls before have left. */
    method Feed(more: seq<byte>)
      requires Valid() && input == []
      modifies this`input, this`bits
      ensures Valid() && input == more && bits == old(bits) + BytesToBits(more)
    {
      FeedStep(bsBuff, bsLive, hi, low, bits, more);
      bits := bits + BytesToBits(more);
      input := more;
    }

    /** A call ends: what it has not read of its input is the caller's again. */
    method TakeBack() returns (unread: seq<byte>)
      requires Valid()
      modifies this`input, this`bits
      ensures Valid() && input == [] && unread == old(input) && old(bits) == bits + BytesToBits(unread)
      ensures |bits| == bsLive
    {
      ghost var left := TakeBackStep(bsBuff, bsLive, hi, low, input, bits);
      unread := input;
      bits := left;
      input := [];
    }

    /** Bring one input byte into the buffer. */
    method Refill()
      requires Valid() && bsLive <= 24 && input != []
      modifies this
      ensures Valid() && bits == old(bits) && bsLive == old(bsLive) + 8 && input == old(input)[1..]
    {
      var shifted := (bsBuff * 256 + input[0] as int) % WORD;
      ghost var low' := low * 256 + input[0] as int;
      hi := RefillStep(bsBuff, bsLive, hi, low, input, bits, shifted, low');
      bsBuff, bsLive, low, input := shifted, bsLive + 8, low', input[1..];
    }

    /** The buffer holds at most what an unfinished byte or an unfinished field of `n` bits needs. */
    ghost predicate Spare(n: int)
      reads this
    {
      0 <= bsLive < Max(8, n)
    }

    /** GET_BITS: the next `n` bits; it fails only when the caller's input is used up, and then keeps all it has, so
        that asking again when there is more input gives the same field. Input is read only as it is needed. */
    method GetBits(n: int) returns (ok: bool, v: int)
      requires Valid() && 0 <= n <= 24 && Spare(n)
      modifies this
      ensures Valid() && ok == (n <= |old(bits)|) && SuffixOf(input, old(input))
      ensures ok ==> Field(old(bits), n) == Some((v, bits)) && Spare(0)
      ensures !ok ==> bits == old(bits) && input == [] && Spare(n)
    {
      v := 0;
      while bsLive < n
        invariant Valid() && bits == old(bits) && 0 <= bsLive < n + 8 && (bsLive >= n ==> bsLive - n < 8)
        invariant SuffixOf(input, old(input))
        decreases |input|
      {
        if input == [] {
          LiveOnly();
          return false, 0;
        }
        Refill();
      }
      v := Take(n);
      ok := true;
    }

    lemma LiveOnly()
      requires Valid()
      ensures |bits| == bsLive + 8 * |input|
    {
      assert OpenedBits(0);
    }

    method Take(n: int) returns (v: int)
      requires Valid() && 0 <= n <= bsLive
      modifies this`hi, this`low, this`bits, this`bsLive
      ensures Valid() && Field(old(bits), n) == Some((v, bits)) && bsLive == old(bsLive) - n
    {
      v := (bsBuff / Pow2(bsLive - n)) % Pow2(n);
      hi, low := TakeStep(bsBuff, bsLive, hi, low, input, bits, n);
      bits := bits[n..];
      bsLive := bsLive - n;
    }
  }

  /** A field that the first piece of input cuts in two: the call that runs out of input fails, and the same call
      with the next piece reads the field of the joined input. */
  method GetAcross(r: BitReader, n: int, first: seq<byte>, second: seq<byte>) returns (again: bool, ok: bool, v: int)
    requires r.Valid() && 0 <= n <= 24 && r.Spare(n) && r.input == []
    modifies r
    ensures r.Valid() && again == (|old(r.bits)| + 8 * |first| < n)
    ensures var joined := old(r.bits) + BytesToBits(first + if again then second else []);
      && ok == (n <= |joined|) && if ok then Field(joined, n) == Some((v, r.bits)) else r.bits == joined
  {
    r.Feed(first);
    ok, v := r.GetBits(n);
    again := !ok;
    assert first + [] == first;
    if again {
      BytesToBitsAppend(first, second);
      ConcatAssoc(old(r.bits), BytesToBits(first), BytesToBits(second));
      r.Feed(second);
      ok, v := r.GetBits(n);
    }
  }
}
