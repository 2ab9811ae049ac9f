/** BZ2_bzDecompress on a stream of the compressor's form, whose checksums may be wrong, called with any pieces of input
    and any room for output (bzlib.c:808-858, decompress.c:195-235, 558-586). */
module Decompressor {
  import opened Basics
  import opened Bits
  import opened BitStream
  import opened InverseBwt
  import opened BlockCrc
  import opened BlockFormat
  import opened FrontReader
  import opened BlockCodec
  import opened BlockParser
  import opened StreamFormat
  import opened Unpacker

  datatype Return = Ok | StreamEnd | SequenceError | DataErrorMagic | DataError

  /** Where the decompressor stands between two fields. Inside a block its parser knows more. */
  datatype At =
    | Magic(i: int)
    | BlockHeader(i: int)
    | InBlock
    | EndHeader(i: int)
    | CombinedCrc(i: int, crc: int)
    | Output
    | Idle

  // ----- Fixed bytes and checksums -----

  /** What a byte outside of blocks leads to; unless `ret` is Ok it is an error. */
  datatype AfterByte = AfterByte(ret: Return, at: At)

  function Check(v: int, m: seq<byte>, i: int, bad: Return, to: At): (r: AfterByte)
    requires 0 <= i < |m|
  {
    AfterByte(if v != m[i] then bad else Ok, to)
  }

  const FILE_MAGIC: seq<byte> := [0x42, 0x5a, 0x68]

  predicate AtByte(at: At)
  {
    match at
    case Magic(i) => 0 <= i < 4
    case BlockHeader(i) => 0 <= i < 6
    case EndHeader(i) => 1 <= i < 6
    case CombinedCrc(i, _) => 0 <= i < 4
    case _ => false
  }

  /** decompress.c:197-235, 562-586. */
  function StepByte(at: At, v: int): (r: AfterByte)
    requires AtByte(at)
  {
    match at
    case Magic(i) =>
      if i < 3 then Check(v, FILE_MAGIC, i, DataErrorMagic, Magic(i + 1))
      else AfterByte(if v < 0x30 + 1 || v > 0x30 + 9 then DataErrorMagic else Ok, BlockHeader(0))
    case BlockHeader(i) =>
      if i == 0 && v == 0x17 then AfterByte(Ok, EndHeader(1))
      else Check(v, BLOCK_MAGIC, i, DataError, if i < 5 then BlockHeader(i + 1) else InBlock)
    case EndHeader(i) => Check(v, END_MAGIC, i, DataError, if i < 5 then EndHeader(i + 1) else CombinedCrc(0, 0))
    case CombinedCrc(i, crc) => AfterByte(Ok, if i < 3 then CombinedCrc(i + 1, crc * 256 + v) else Idle)
  }

  /** Byte after byte, up to the first error. */
  function StepBytes(at: At, z: seq<byte>): (r: AfterByte)
    decreases |z|
  {
    if z == [] || !AtByte(at) then AfterByte(Ok, at)
    else
      var r := StepByte(at, z[0]);
      if r.ret != Ok then r else StepBytes(r.at, z[1..])
  }

  lemma StepsOn(at: At, b: byte, z: seq<byte>)
    requires AtByte(at)
    ensures StepBytes(at, [b] + z) == var r := StepByte(at, b); if r.ret != Ok then r else StepBytes(r.at, z)
  {
    assert ([b] + z)[1..] == z;
  }

  /** The signature is accepted exactly where it stands, and a wrong one has an error of its own. */
  lemma SignatureExactly(z: seq<byte>)
    requires |z| == 4
    ensures var r := StepBytes(Magic(0), z);
      if z[..3] == [0x42, 0x5a, 0x68] && 0x31 <= z[3] <= 0x39 then r == AfterByte(Ok, BlockHeader(0))
      else r.ret == DataErrorMagic
  {
    assert z == [z[0]] + ([z[1]] + ([z[2]] + ([z[3]] + [])));
    StepsOn(Magic(0), z[0], [z[1]] + ([z[2]] + ([z[3]] + [])));
    StepsOn(Magic(1), z[1], [z[2]] + ([z[3]] + []));
    StepsOn(Magic(2), z[2], [z[3]] + []);
    StepsOn(Magic(3), z[3], []);
  }

  lemma BlockMark(z: seq<byte>)
    requires |z| == 5
    ensures var r := StepBytes(BlockHeader(1), z);
      if z == [0x41, 0x59, 0x26, 0x53, 0x59] then r == AfterByte(Ok, InBlock) else r.ret == DataError
  {
    assert z == [z[0]] + ([z[1]] + ([z[2]] + ([z[3]] + ([z[4]] + []))));
    StepsOn(BlockHeader(1), z[0], [z[1]] + ([z[2]] + ([z[3]] + ([z[4]] + []))));
    StepsOn(BlockHeader(2), z[1], [z[2]] + ([z[3]] + ([z[4]] + [])));
    StepsOn(BlockHeader(3), z[2], [z[3]] + ([z[4]] + []));
    StepsOn(BlockHeader(4), z[3], [z[4]] + []);
    StepsOn(BlockHeader(5), z[4], []);
  }

  lemma EndMark(z: seq<byte>)
    requires |z| == 5
    ensures var r := StepBytes(EndHeader(1), z);
      if z == [0x72, 0x45, 0x38, 0x50, 0x90] then r == AfterByte(Ok, CombinedCrc(0, 0)) else r.ret == DataError
  {
    assert z == [z[0]] + ([z[1]] + ([z[2]] + ([z[3]] + ([z[4]] + []))));
    StepsOn(EndHeader(1), z[0], [z[1]] + ([z[2]] + ([z[3]] + ([z[4]] + []))));
    StepsOn(EndHeader(2), z[1], [z[2]] + ([z[3]] + ([z[4]] + [])));
    StepsOn(EndHeader(3), z[2], [z[3]] + ([z[4]] + []));
    StepsOn(EndHeader(4), z[3], [z[4]] + []);
    StepsOn(EndHeader(5), z[4], []);
  }

  /** So are the marks of a block and of the end. */
  lemma MarkExactly(b: byte, z: seq<byte>)
    requires |z| == 5
    ensures var r := StepBytes(BlockHeader(0), [b] + z);
      if b == 0x31 && z == [0x41, 0x59, 0x26, 0x53, 0x59] then r == AfterByte(Ok, InBlock)
      else if b == 0x17 && z == [0x72, 0x45, 0x38, 0x50, 0x90] then r == AfterByte(Ok, CombinedCrc(0, 0))
      else r.ret == DataError
  {
    StepsOn(BlockHeader(0), b, z);
    BlockMark(z);
    EndMark(z);
  }

  // ----- What lies ahead in the input -----

  /** The blocks `left`, then the trailer with the checksum `total`, then anything. */
  ghost function Blocks(left: seq<Closed>, total: word, tail: seq<bit>): (s: seq<bit>)
  {
    BodyBits(left) + (TrailerBits(total) + tail)
  }

  /** After the first block of `left`. */
  ghost function NextBlocks(left: seq<Closed>, total: word, tail: seq<bit>): (s: seq<bit>)
    requires left != []
  {
    Blocks(left[1..], total, tail)
  }

  /** Fixed bytes, then `rest`. */
  ghost predicate BytesAhead(s: seq<bit>, m: seq<byte>, i: int, rest: seq<bit>)
  {
    0 <= i < |m| && s == BytesToBits(m[i..]) + rest
  }

  ghost predicate AheadAt(size: int, at: At, s: seq<bit>, left: seq<Closed>, total: word, tail: seq<bit>)
    requires 1 <= size <= 9
  {
    match at
    case Magic(i) => BytesAhead(s, HeaderBytes(size), i, Blocks(left, total, tail))
    case BlockHeader(i) =>
      if i == 0 then s == Blocks(left, total, tail)
      else left != [] && BytesAhead(s, BLOCK_MAGIC, i, left[0].bits + NextBlocks(left, total, tail))
    case InBlock => left != [] && s == left[0].bits + NextBlocks(left, total, tail)
    case EndHeader(i) => left == [] && BytesAhead(s, END_MAGIC, i, ToBits(total, CRC_BITS) + tail)
    case CombinedCrc(i, v) => 0 <= i < 4 && left == [] && Number(v, CRC_BYTES - i, s) == Some((total, tail))
    case Idle => left == [] && s == tail
    case Output => false
  }

  /** The next of the fixed bytes. */
  lemma NextByte(s: seq<bit>, m: seq<byte>, i: int, rest: seq<bit>)
    requires BytesAhead(s, m, i, rest)
    ensures Field(s, BYTE_BITS).Some? && Field(s, BYTE_BITS).value.0 == m[i]
    ensures var s' := Field(s, BYTE_BITS).value.1; if i + 1 < |m| then BytesAhead(s', m, i + 1, rest) else s' == rest
  {
    BytesHead(m[i], m[i + 1..]);
    assert [m[i]] + m[i + 1..] == m[i..];
    ByteFits(m[i]);
    FieldOf(m[i], BYTE_BITS, BytesToBits(m[i + 1..]) + rest);
    ConcatAssoc(ToBits(m[i], BYTE_BITS), BytesToBits(m[i + 1..]), rest);
    assert BytesToBits([]) + rest == rest;
  }

  lemma BlocksSome(left: seq<Closed>, total: word, tail: seq<bit>)
    requires left != []
    ensures BytesAhead(Blocks(left, total, tail), BLOCK_MAGIC, 0, left[0].bits + NextBlocks(left, total, tail))
  {
    var end := TrailerBits(total) + tail;
    var m, body, more := BytesToBits(BLOCK_MAGIC), left[0].bits, BodyBits(left[1..]);
    ConcatAssoc(m + body, more, end);
    ConcatAssoc(m, body, more + end);
    assert BLOCK_MAGIC[0..] == BLOCK_MAGIC;
  }

  lemma BlocksNone(total: word, tail: seq<bit>)
    ensures BytesAhead(Blocks([], total, tail), END_MAGIC, 0, ToBits(total, CRC_BITS) + tail)
  {
    assert Blocks([], total, tail) == TrailerBits(total) + tail;
    ConcatAssoc(BytesToBits(END_MAGIC), ToBits(total, CRC_BITS), tail);
    assert END_MAGIC[0..] == END_MAGIC;
  }

  lemma CrcAhead(crc: word, tail: seq<bit>)
    ensures Number(0, CRC_BYTES, ToBits(crc, CRC_BITS) + tail) == Some((crc, tail))
  {
    WordFits(crc);
    FieldOf(crc, CRC_BITS, tail);
    NumberOfField(CRC_BYTES, CRC_BITS, ToBits(crc, CRC_BITS) + tail);
  }

  /** The next byte is there and leads on, never to an error. */
  ghost predicate Leads(size: int, at: At, s: seq<bit>, left: seq<Closed>, total: word, tail: seq<bit>)
    requires 1 <= size <= 9 && AtByte(at)
  {
    var f := Field(s, BYTE_BITS);
    f.Some? &&
    var r := StepByte(at, f.value.0);
    && r.ret == Ok && AheadAt(size, r.at, f.value.1, left, total, tail)
      && (AtByte(r.at) || r.at == InBlock || r.at == Idle)
    && (at == Magic(3) ==> f.value.0 == 0x30 + size)
  }

  lemma MagicLeads(size: int, i: int, s: seq<bit>, left: seq<Closed>, total: word, tail: seq<bit>)
    requires 1 <= size <= 9 && 0 <= i < 4 && AheadAt(size, Magic(i), s, left, total, tail)
    ensures Leads(size, Magic(i), s, left, total, tail)
  {
    NextByte(s, HeaderBytes(size), i, Blocks(left, total, tail));
  }

  lemma HeaderLeads(size: int, i: int, s: seq<bit>, left: seq<Closed>, total: word, tail: seq<bit>)
    requires 1 <= size <= 9 && 0 <= i < 6 && AheadAt(size, BlockHeader(i), s, left, total, tail)
    ensures Leads(size, BlockHeader(i), s, left, total, tail)
  {
    if left == [] {
      BlocksNone(total, tail);
      NextByte(s, END_MAGIC, 0, ToBits(total, CRC_BITS) + tail);
    } else {
      BlocksSome(left, total, tail);
      NextByte(s, BLOCK_MAGIC, i, left[0].bits + NextBlocks(left, total, tail));
    }
  }

  lemma EndLeads(size: int, i: int, s: seq<bit>, left: seq<Closed>, total: word, tail: seq<bit>)
    requires 1 <= size <= 9 && 1 <= i < 6 && AheadAt(size, EndHeader(i), s, left, total, tail)
    ensures Leads(size, EndHeader(i), s, left, total, tail)
  {
    NextByte(s, END_MAGIC, i, ToBits(total, CRC_BITS) + tail);
    CrcAhead(total, tail);
  }

  lemma CrcLeads(size: int, i: int, v: int, s: seq<bit>, left: seq<Closed>, total: word, tail: seq<bit>)
    requires 1 <= size <= 9 && 0 <= i < 4 && AheadAt(size, CombinedCrc(i, v), s, left, total, tail)
    ensures Leads(size, CombinedCrc(i, v), s, left, total, tail)
    ensures i == 3 ==> v * 256 + Field(s, BYTE_BITS).value.0 == total
  {
  }

  /** Like `Opened`, for what lies ahead in the input. */
  ghost predicate OpenedAhead(i: int) { true }

  /** What a decompressor at `at` with the checksum `crc` has before it: the bits `s`, which hold the blocks `left` and
      the stream checksum `total`, and the bytes `data` that it will write, all of them unless a checksum is wrong. */
  datatype Scene = Scene(k: Sums, size: int, at: At, s: seq<bit>, crc: word, left: seq<Closed>, total: word,
    tail: seq<bit>, data: seq<byte>)
  {
    ghost predicate Ok()
    {
      forall i {:trigger OpenedAhead(i)} :: OpenedAhead(i) ==> Inside()
    }

    ghost predicate Inside()
    {
      1 <= size <= 9 && AllForm(size, left) && data == Upto(k, left) && AheadAt(size, at, s, left, total, tail)
    }

    /** No checksum ahead is wrong. */
    ghost predicate Sane()
    {
      Good(k, crc, left, total)
    }
  }

  ghost function Nowhere(): (x: Scene)
    ensures x.Ok()
  {
    Scene(Sums((crc, b) => crc, (crc, c) => crc), 1, Idle, [], 0, [], 0, [], [])
  }

  /** Such a scene is true. As a type, so that a proof that only passes it on need not prove it again. */
  type Prospect = x: Scene | x.Ok() ghost witness Nowhere()

  lemma ByteLeads(x: Prospect) returns (y: Prospect)
    requires AtByte(x.at)
    ensures Field(x.s, BYTE_BITS).Some?
    ensures var f := Field(x.s, BYTE_BITS).value;
      var r := StepByte(x.at, f.0);
      && r.ret == Ok && y == x.(at := r.at, s := f.1) && (AtByte(r.at) || r.at == InBlock || r.at == Idle)
      && (x.at == Magic(3) ==> f.0 == 0x30 + x.size)
      && (x.at.CombinedCrc? && x.at.i == 3 ==> x.at.crc * 256 + f.0 == x.total)
  {
    assert OpenedAhead(0);
    SceneLeads(x);
    var f := Field(x.s, BYTE_BITS).value;
    y := x.(at := StepByte(x.at, f.0).at, s := f.1);
  }

  lemma SceneLeads(x: Scene)
    requires AtByte(x.at) && x.Inside()
    ensures Leads(x.size, x.at, x.s, x.left, x.total, x.tail)
    ensures x.at.CombinedCrc? && x.at.i == 3 ==> x.at.crc * 256 + Field(x.s, BYTE_BITS).value.0 == x.total
  {
    match x.at {
      case Magic(i) => MagicLeads(x.size, i, x.s, x.left, x.total, x.tail);
      case BlockHeader(i) => HeaderLeads(x.size, i, x.s, x.left, x.total, x.tail);
      case EndHeader(i) => EndLeads(x.size, i, x.s, x.left, x.total, x.tail);
      case CombinedCrc(i, v) => CrcLeads(x.size, i, v, x.s, x.left, x.total, x.tail);
    }
  }

  lemma StreamAhead(k: Sums, size: int, blocks: seq<Closed>, total: word, tail: seq<bit>, s: seq<bit>)
    returns (x: Prospect)
    requires 1 <= size <= 9 && AllForm(size, blocks)
    requires s == (BytesToBits(HeaderBytes(size)) + (BodyBits(blocks) + TrailerBits(total))) + tail
    ensures x == Scene(k, size, Magic(0), s, 0, blocks, total, tail, Upto(k, blocks))
  {
    ConcatThree(BytesToBits(HeaderBytes(size)), BodyBits(blocks), TrailerBits(total), tail);
    assert HeaderBytes(size)[0..] == HeaderBytes(size);
    var v := Scene(k, size, Magic(0), s, 0, blocks, total, tail, Upto(k, blocks));
    assert v.Inside();
    x := v;
  }

  /** The tail is part of what is ahead. */
  lemma SceneLong(x: Prospect)
    ensures |x.s| >= |x.tail|
  {
    assert OpenedAhead(0);
    if x.at.CombinedCrc? {
      NumberTakes(x.at.crc, CRC_BYTES - x.at.i, x.s);
    }
  }

  lemma EnteredLong(e: Entered)
    requires e.Ok()
    ensures |e.rest| >= |e.x.tail|
  {
    assert OpenedAhead(0);
  }

  /** At the end of the stream nothing is left. */
  lemma NothingLeft(x: Prospect)
    requires x.at == Idle
    ensures x.s == x.tail && x.data == [] && (x.Sane() <==> x.crc == x.total)
  {
    assert OpenedAhead(0);
  }

  // ----- Blocks -----

  lemma FindOrigin(c: Closed, size: int, rest: seq<bit>) returns (g: Origin)
    requires 1 <= size <= 9 && FormOk(size, c)
    ensures g.Valid() && g.size == size && g.blk == c.blk && g.crc == c.crc && g.Bits(rest) == c.bits + rest
  {
    var ptr, f, vs :| Recipe(c.blk, c.crc, size, ptr, f, vs) && c.bits == RecipeBits(f, vs, size);
    g := Origin(c.blk, c.crc, size, ptr, f, vs);
    assert g.Made();
  }

  /** The block that a decompressor has entered, and what follows it. */
  datatype Entered = Entered(g: Origin, rest: seq<bit>, x: Scene)
  {
    ghost predicate Ok()
    {
      g.Valid() && forall i {:trigger OpenedAhead(i)} :: OpenedAhead(i) ==> Inside()
    }

    ghost predicate Inside()
    {
      && 1 <= x.size <= 9 && g.size == x.size && x.left != [] && g.blk == x.left[0].blk && g.crc == x.left[0].crc
      && AllForm(x.size, x.left) && x.data == Upto(x.k, x.left) && rest == NextBlocks(x.left, x.total, x.tail)
    }
  }

  type Interior = e: Option<Entered> | (e.Some? ==> e.value.Ok()) ghost witness None

  lemma EnterFirst(x: Prospect) returns (i: Interior)
    requires x.at == InBlock
    ensures i.Some? && i.value.g.Valid() && i.value.g.size == x.size && i.value.g.Bits(i.value.rest) == x.s
    ensures i.value.x == x
  {
    assert x.Inside() by { assert OpenedAhead(0); }
    var e := EnterScene(x);
    i := Some(e);
  }

  lemma EnterScene(x: Scene) returns (e: Entered)
    requires x.at == InBlock && x.Inside()
    ensures e.g.Valid() && e.Inside() && e.g.Bits(e.rest) == x.s && e.x == x
  {
    var rest := NextBlocks(x.left, x.total, x.tail);
    var g := FirstOrigin(x.size, x.left, rest);
    e := Entered(g, rest, x);
  }

  lemma FirstOrigin(size: int, cs: seq<Closed>, rest: seq<bit>) returns (g: Origin)
    requires 1 <= size <= 9 && AllForm(size, cs) && cs != []
    ensures g.Valid() && g.size == size && g.blk == cs[0].blk && g.crc == cs[0].crc
    ensures g.Bits(rest) == cs[0].bits + rest
  {
    AllFormTail(size, cs);
    g := FindOrigin(cs[0], size, rest);
  }

  /** The block is read: what comes after it. */
  lemma Leaving(e: Entered) returns (y: Prospect)
    requires e.Ok()
    ensures e.x.left != [] && FormOk(e.x.size, e.x.left[0])
    ensures e.x.data == e.x.left[0].data + if Sound(e.x.k, e.x.left[0]) then y.data else []
    ensures e.x.Sane() <==> Sound(e.x.k, e.x.left[0]) && y.Sane()
    ensures e.g.blk == e.x.left[0].blk && e.g.crc == e.x.left[0].crc && e.g.size == e.x.size
    ensures y == Scene(e.x.k, e.x.size, BlockHeader(0), e.rest, e.x.k.combine(e.x.crc, e.g.crc), e.x.left[1..],
      e.x.total, e.x.tail, y.data)
  {
    assert e.Inside() by { assert OpenedAhead(0); }
    SceneAfter(e.x, e.rest);
    y := AfterFirst(e.x, e.rest);
  }

  ghost function AfterFirst(x: Scene, rest: seq<bit>): (y: Scene)
    requires x.left != []
  {
    Scene(x.k, x.size, BlockHeader(0), rest, x.k.combine(x.crc, x.left[0].crc), x.left[1..], x.total, x.tail,
          Upto(x.k, x.left[1..]))
  }

  lemma SceneAfter(x: Scene, rest: seq<bit>)
    requires 1 <= x.size <= 9 && x.left != [] && AllForm(x.size, x.left)
    requires rest == NextBlocks(x.left, x.total, x.tail)
    ensures AfterFirst(x, rest).Ok() && FormOk(x.size, x.left[0])
  {
    AllFormTail(x.size, x.left);
    assert AfterFirst(x, rest).Inside();
  }

  /** What the output of the block needs. */
  lemma OriginFacts(g: Origin)
    requires g.Valid()
    ensures 0 < |g.blk| <= 100000 * g.size && IsSortedOrder(g.blk, g.ptr) && g.Column() == LastColumn(g.blk, g.ptr)
    ensures 0 <= g.f.head.origPtr < |g.blk| && g.ptr[g.f.head.origPtr] == 0 && g.f.head.crc == g.crc
  {
    assert OpenedOrigin(0);
  }

  /** The checksum of a block, continued from `crc` over `rest`, is the one stored with it. */
  ghost predicate Matches(step: CrcStep, crc: word, rest: seq<byte>, stored: word)
  {
    stored == Finalise(Fold(step, crc, rest))
  }

  /** What will still be written: the rest of the block, and what follows if its checksum is right. */
  ghost function Coming(rest: seq<byte>, good: bool, data: seq<byte>): (s: seq<byte>)
  {
    rest + if good then data else []
  }

  /** Decompression of a block that is read (decompress.c:487-558). */
  method StartBlock(b: Parser, small: bool, step: CrcStep, ghost e: Entered, ghost s: seq<bit>)
    returns (stored: word, o: BlockOutput, ghost y: Prospect)
    requires b.Valid(s) && b.at == Ready && e.Ok() && b.g == e.g && b.rest == e.rest && step == e.x.k.step
    ensures fresh(o) && fresh(o.repr) && o.Valid() && o.crcStep == step && o.small == small && e.x.left != []
    ensures e.x.data == Coming(o.rest, Matches(step, o.crc, o.rest, stored), y.data)
    ensures e.x.Sane() <==> Matches(step, o.crc, o.rest, stored) && y.Sane()
    ensures y == Scene(e.x.k, e.x.size, BlockHeader(0), s, e.x.k.combine(e.x.crc, stored), e.x.left[1..], e.x.total,
      e.x.tail, y.data)
  {
    b.Complete(s);
    y := Leaving(e);
    OriginFacts(e.g);
    stored := b.front.head.crc;
    o := StartOutput(small, step, b.col.l, b.col.unzftab, b.front.head.origPtr, 100000 * b.size, e.g.blk, e.g.ptr);
  }

  // ----- The decompressor -----

  class DState {
    const k: Sums
    const smallDecompress: bool
    const r: BitReader
    var at: At
    var blockSize100k: int
    var storedBlockCRC: word
    var storedCombinedCRC: int
    var calculatedCombinedCRC: word
    var block: Parser?
    var o: BlockOutput?
    ghost const size: int
    ghost const tail: seq<bit>
    /** No checksum in the stream is wrong. */
    ghost const sane: bool
    /** A wrong checksum has been reported. */
    ghost var failed: bool
    /** How many whole bytes lie behind the stream. */
    ghost const behind: int
    /** All the input there will be: the stream, and what the caller may have behind it. */
    ghost const all: seq<byte>
    /** What of it the caller has not offered in the current call. */
    ghost var later: seq<byte>
    /** What is ahead outside of blocks or after the block being written, and inside of a block. */
    ghost var view: Prospect
    ghost var inner: Interior
    /** The bytes still to be written. */
    ghost var remaining: seq<byte>
    /** Everything the decompressor uses. */
    ghost var parts: set<object>

    ghost predicate Valid()
      reads this, parts
    {
      && ReaderOk() && (AtByte(at) || at == InBlock || at == Output || at == Idle)
      && ((failed && at == Output) || Standing(Bits(), r.bsLive))
    }

    /** Nothing wrong has been found so far. */
    ghost predicate Working()
      reads this, parts
    {
      Valid() && !failed
    }

    ghost predicate ReaderOk()
      reads this, parts
    {
      this !in parts && r in parts && r.Valid() && SuffixOf(r.input + later, all) && behind == |tail| / 8
    }

    /** Everything but the reader, which has `s` ahead and `live` bits in its buffer. */
    ghost predicate Stands(s: seq<bit>, live: int)
      reads this`at, this`blockSize100k, this`storedBlockCRC, this`calculatedCombinedCRC, this`block, this`o, this`view,
        this`inner, this`remaining, this`parts, parts - {r}
    {
      if at == Output then AtOutput(s, live) else if at == InBlock then AtBlock(s, live) else AtField(s, live)
    }

    ghost predicate Standing(s: seq<bit>, live: int)
      reads this`at, this`blockSize100k, this`storedBlockCRC, this`calculatedCombinedCRC, this`block, this`o, this`view,
        this`inner, this`remaining, this`parts, parts - {r}
    {
      forall i {:trigger OpenedState(i)} :: OpenedState(i) ==> Stands(s, live)
    }

    /** All bits ahead. */
    ghost function Bits(): (s: seq<bit>)
      reads this, r
    {
      r.bits + BytesToBits(later)
    }

    /** The blocks that have not been read to the end. */
    ghost function Ahead(): (left: seq<Closed>)
      reads this
    {
      if at == InBlock && inner.Some? then inner.value.x.left else view.left
    }

    ghost predicate Sees(x: Scene, at: At, s: seq<bit>, crc: word, data: seq<byte>)
    {
      x.k == k && x.size == size && x.at == at && x.s == s && x.crc == crc && x.tail == tail && x.data == data
    }

    /** Outside of blocks, with `s` ahead. */
    ghost predicate AtField(s: seq<bit>, live: int)
      reads this`at, this`blockSize100k, this`calculatedCombinedCRC, this`view, this`remaining
    {
      && (AtByte(at) || at == Idle) && live < 8 && (at.Magic? || at == Idle || blockSize100k == size)
      && Sees(view, at, s, calculatedCombinedCRC, remaining) && view.Sane() == sane
    }

    /** Inside a block, with `s` ahead. */
    ghost predicate AtBlock(s: seq<bit>, live: int)
      reads this`at, this`blockSize100k, this`storedBlockCRC, this`calculatedCombinedCRC, this`block, this`o, this`view,
        this`inner, this`remaining, this`parts, parts - {r}
    {
      && Owns() && block.Valid(s) && block.at != Ready && live < Max(8, block.NextWidth()) && blockSize100k == size
        && Entering()
    }

    /** The parser and the column it fills are the decompressor's own. */
    ghost predicate Owns()
      reads this`block, this`parts, parts - {r}
    {
      && block != null && block in parts
      && (block.col != null ==> block.col in parts && block.col.repr <= parts && r !in block.col.repr)
    }

    ghost predicate Entering()
      reads this`block, this`inner, this`calculatedCombinedCRC, this`remaining, block
    {
      && block != null && inner.Some? && block.g == inner.value.g && block.rest == inner.value.rest
      && Sees(inner.value.x, InBlock, inner.value.x.s, calculatedCombinedCRC, remaining)
      && inner.value.x.Sane() == sane
    }

    /** Writing a block, with `s` ahead. */
    ghost predicate AtOutput(s: seq<bit>, live: int)
      reads this`at, this`blockSize100k, this`storedBlockCRC, this`calculatedCombinedCRC, this`block, this`o, this`view,
        this`inner, this`remaining, this`parts, parts - {r}
    {
      && o != null && o in parts && o.repr <= parts && r !in o.repr && o.Valid() && o.crcStep == k.step && live < 8
      && blockSize100k == size && Promises(o.crc, o.rest)
      && Sees(view, BlockHeader(0), s, k.combine(calculatedCombinedCRC, storedBlockCRC), view.data)
    }

    /** What is to come of a block with `rest` still to be written after a checksum of `crc`. */
    ghost predicate Promises(crc: word, rest: seq<byte>)
      reads this`storedBlockCRC, this`view, this`remaining
    {
      var good := Matches(k.step, crc, rest, storedBlockCRC);
      remaining == Coming(rest, good, view.data) && sane == (good && view.Sane())
    }

    /** BZ2_bzDecompressInit, before a stream that may have anything behind it. */
    constructor (k: Sums, small: bool, ghost all: seq<byte>, ghost x: Prospect)
      requires x.k == k && x.at == Magic(0) && x.s == BytesToBits(all) && x.crc == 0
      ensures Working() && fresh(parts) && at == Magic(0) && remaining == x.data && later == all && r.input == []
      ensures behind == |x.tail| / 8 && sane == x.Sane()
    {
      this.k, smallDecompress := k, small;
      r := new BitReader();
      at, blockSize100k, block, o := Magic(0), 0, null, null;
      storedBlockCRC, storedCombinedCRC, calculatedCombinedCRC := 0, 0, 0;
      size, tail, behind, this.all, remaining, later, parts := x.size, x.tail, |x.tail| / 8, all, x.data, all, {r};
      view, inner, sane, failed := x, None, x.Sane(), false;
      new;
      assert r.bits + BytesToBits(all) == x.s && r.input + all == all;
      Settled();
    }

    /** GET_BITS: the next field, or everything stays as it is until there is more input. */
    method ReadField(n: int) returns (ok: bool, v: int)
      requires ReaderOk() && 1 <= n <= 20 && |Bits()| >= n + |tail| && r.Spare(n)
      modifies r
      ensures ReaderOk() && |r.input| <= |old(r.input)|
      ensures ok ==> Field(old(Bits()), n) == Some((v, Bits())) && r.Spare(0) && |r.bits| < |old(r.bits)|
      ensures !ok ==> Bits() == old(Bits()) && r.input == [] && |later| > behind && r.Spare(n)
    {
      ghost var before := r.input;
      ok, v := r.GetBits(n);
      SuffixStays(before, r.input, later, all);
      if ok {
        FieldMore(old(r.bits), n, BytesToBits(later));
      }
    }

    /** A byte outside of blocks. */
    method AcceptByte(v: int, ghost s: seq<bit>, ghost s': seq<bit>) returns (ret: Return)
      requires r in parts && this !in parts && r.Spare(0) && AtByte(at) && AtField(s, r.bsLive)
      requires Field(s, BYTE_BITS) == Some((v, s'))
      modifies this`at, this`blockSize100k, this`storedCombinedCRC, this`block, this`parts, this`view, this`inner
      ensures r in parts && this !in parts && fresh(parts - old(parts))
      ensures if at == InBlock then AtBlock(s', r.bsLive) else AtField(s', r.bsLive)
      ensures if at == Idle then ret == StreamEnd && storedCombinedCRC == view.total else ret == Ok
      ensures Ahead() == old(Ahead())
    {
      ret := StepOn(v, s, s');
      if ret == Ok && at == InBlock {
        EnterBlock(s');
      }
    }

    method EnterBlock(ghost s: seq<bit>)
      requires r in parts && this !in parts && r.Spare(0) && blockSize100k == size
      requires Sees(view, InBlock, s, calculatedCombinedCRC, remaining) && view.Sane() == sane
      modifies this`block, this`parts, this`inner
      ensures r in parts && this !in parts && fresh(parts - old(parts)) && AtBlock(s, r.bsLive)
      ensures inner.value.x.left == view.left
    {
      inner := EnterFirst(view);
      block := new Parser(blockSize100k, inner.value.g, inner.value.rest);
      parts := parts + {block};
    }

    method StepOn(v: int, ghost s: seq<bit>, ghost s': seq<bit>) returns (ret: Return)
      requires r.Spare(0) && AtByte(at) && AtField(s, r.bsLive) && Field(s, BYTE_BITS) == Some((v, s'))
      modifies this`at, this`blockSize100k, this`storedCombinedCRC, this`view
      ensures view.left == old(view.left) && Sees(view, at, s', calculatedCombinedCRC, remaining) && view.Sane() == sane
      ensures at.Magic? || at == Idle || blockSize100k == size
      ensures if at == Idle then ret == StreamEnd && storedCombinedCRC == view.total
        else ret == Ok && (at == InBlock || AtByte(at))
    {
      view := ByteLeads(view);
      var next := StepByte(at, v);
      if next.ret != Ok { return next.ret; }
      if at == Magic(3) { blockSize100k := v - 0x30; }
      if at.CombinedCrc? { storedCombinedCRC := at.crc * 256 + v; }
      at := next.at;
      ret := if at == Idle then StreamEnd else Ok;
    }

    /** A field inside a block. */
    method AcceptInBlock(v: int, ghost s: seq<bit>, ghost s': seq<bit>) returns (ret: Return)
      requires r in parts && this !in parts && at == InBlock && AtBlock(s, r.bsLive) && r.Spare(0)
      requires Field(s, block.NextWidth()) == Some((v, s')) && s' == Bits()
      modifies this`at, this`o, this`view, this`storedBlockCRC, this`parts
      modifies block, block.col, if block.col == null then {} else block.col.repr
      ensures r in parts && this !in parts && fresh(parts - old(parts)) && ret == Ok
      ensures Stands(Bits(), r.bsLive)
      ensures if at == Output then |view.left| < |inner.value.x.left| else at == InBlock && inner == old(inner)
    {
      var ok := ParseField(v, s, s');
      if !ok { return DataError; }
      if block.at == Ready {
        FinishBlock(s');
      }
      ret := Ok;
    }

    method ParseField(v: int, ghost s: seq<bit>, ghost s': seq<bit>) returns (ok: bool)
      requires r in parts && this !in parts && Owns() && block.Valid(s) && block.at != Ready
      requires Field(s, block.NextWidth()) == Some((v, s'))
      modifies this`parts, block, block.col, if block.col == null then {} else block.col.repr
      ensures ok && r in parts && this !in parts && fresh(parts - old(parts)) && Owns() && block.Valid(s')
    {
      ok := block.Accept(v, s, s');
      parts := parts + (if block.col == null then {} else {block.col} + block.col.repr);
    }

    method FinishBlock(ghost s: seq<bit>)
      requires r in parts && this !in parts && r.Spare(0) && blockSize100k == size && Entering() && block.Valid(s)
      requires block.at == Ready
      requires s == Bits()
      modifies this`at, this`o, this`view, this`storedBlockCRC, this`parts
      ensures r in parts && this !in parts && fresh(parts - old(parts)) && at == Output && AtOutput(Bits(), r.bsLive)
      ensures |view.left| < |inner.value.x.left|
    {
      var stored, out;
      ghost var y;
      stored, out, y := StartBlock(block, smallDecompress, k.step, inner.value, s);
      BeginOutput(stored, out, y);
    }

    method BeginOutput(stored: word, out: BlockOutput, ghost y: Prospect)
      requires r in parts && this !in parts && r.Spare(0) && blockSize100k == size
      requires this !in out.repr && r !in out.repr && out.Valid() && out.crcStep == k.step
      requires var good := Matches(k.step, out.crc, out.rest, stored);
        remaining == Coming(out.rest, good, y.data) && sane == (good && y.Sane())
      requires Sees(y, BlockHeader(0), Bits(), k.combine(calculatedCombinedCRC, stored), y.data)
      modifies this`at, this`o, this`view, this`storedBlockCRC, this`parts
      ensures r in parts && this !in parts && at == Output && AtOutput(Bits(), r.bsLive) && view == y
      ensures parts == old(parts) + {out} + out.repr
    {
      storedBlockCRC, o, view, at := stored, out, y, Output;
      parts := parts + {o} + o.repr;
      assert out.Valid() == old(out.Valid());
    }

    /** The field that the decompressor waits for lies ahead. */
    lemma ByteThere(s: seq<bit>)
      requires AtByte(at) && AtField(s, r.bsLive)
      ensures |s| >= BYTE_BITS + |tail|
    {
      var y := ByteLeads(view);
      SceneLong(y);
    }

    /** One field outside of blocks, or the end of the input. */
    method ReadByte() returns (ret: Return, more: bool)
      requires ReaderOk() && AtByte(at) && AtField(Bits(), r.bsLive)
      modifies this`at, this`blockSize100k, this`storedCombinedCRC, this`block, this`parts, this`view, this`inner, r
      ensures ReaderOk() && fresh(parts - old(parts)) && Stands(Bits(), r.bsLive)
      ensures AtByte(at) || at == InBlock || at == Idle
      ensures more ==> |r.bits| < |old(r.bits)|
      ensures !more ==> ret == Ok && at != Idle && r.input == [] && |later| > behind
      ensures Ahead() == old(Ahead()) && |r.input| <= |old(r.input)|
      ensures if at == Idle then ret == StreamEnd && storedCombinedCRC == view.total else ret == Ok
    {
      ghost var s := Bits();
      ByteThere(s);
      var v;
      more, v := ReadField(BYTE_BITS);
      ret := Ok;
      if more {
        ret := AcceptByte(v, s, Bits());
      }
    }

    lemma StillInBlock(s: seq<bit>, live0: int, live: int)
      requires AtBlock(s, live0) && live < Max(8, block.NextWidth())
      ensures AtBlock(s, live)
    {
    }

    /** One field inside a block, or the end of the input. */
    method ReadInBlock() returns (ret: Return, more: bool)
      requires ReaderOk() && at == InBlock && AtBlock(Bits(), r.bsLive)
      modifies this`at, this`o, this`view, this`storedBlockCRC, this`parts, parts
      ensures ReaderOk() && fresh(parts - old(parts)) && ret == Ok && Stands(Bits(), r.bsLive)
      ensures if at == Output then |Ahead()| < |old(Ahead())| else at == InBlock && Ahead() == old(Ahead())
      ensures |r.input| <= |old(r.input)| && (more ==> |r.bits| < |old(r.bits)|)
      ensures !more ==> at == InBlock && r.input == [] && |later| > behind
    {
      ghost var s, live := Bits(), r.bsLive;
      block.HasField(s);
      EnteredLong(inner.value);
      var v;
      more, v := ReadField(block.NextWidth());
      assert AtBlock(s, live) == old(AtBlock(s, live));
      StillInBlock(s, live, r.bsLive);
      ret := Ok;
      if more {
        ret := AcceptInBlock(v, s, Bits());
      }
    }

    /** One field, or the end of the input. */
    method ReadOne() returns (ret: Return, more: bool)
      requires Working() && (AtByte(at) || at == InBlock)
      modifies this, parts
      ensures Working() && fresh(parts - old(parts)) && Kept()
      ensures if at == Idle then ret == StreamEnd && storedCombinedCRC == view.total else ret == Ok
      ensures if at == Output then |Ahead()| < |old(Ahead())|
        else Ahead() == old(Ahead()) && (AtByte(at) || at == InBlock || at == Idle)
      ensures more ==> |r.bits| < |old(r.bits)|
      ensures !more ==> (AtByte(at) || at == InBlock) && r.input == [] && |later| > behind
    {
      if at == InBlock {
        ret, more := ReadOneInside();
      } else {
        ret, more := ReadOneOutside();
      }
    }

    method ReadOneInside() returns (ret: Return, more: bool)
      requires Working() && at == InBlock
      modifies this, parts
      ensures Working() && fresh(parts - old(parts)) && Kept() && ret == Ok
      ensures if at == Output then |Ahead()| < |old(Ahead())| else Ahead() == old(Ahead()) && at == InBlock
      ensures more ==> |r.bits| < |old(r.bits)|
      ensures !more ==> at == InBlock && r.input == [] && |later| > behind
    {
      assert OpenedState(0);
      ret, more := ReadInBlock();
      Settled();
    }

    method ReadOneOutside() returns (ret: Return, more: bool)
      requires Working() && AtByte(at)
      modifies this, parts
      ensures Working() && fresh(parts - old(parts)) && Kept()
      ensures if at == Idle then ret == StreamEnd && storedCombinedCRC == view.total else ret == Ok
      ensures Ahead() == old(Ahead()) && (AtByte(at) || at == InBlock || at == Idle)
      ensures more ==> |r.bits| < |old(r.bits)|
      ensures !more ==> (AtByte(at) || at == InBlock) && r.input == [] && |later| > behind
    {
      assert OpenedState(0);
      ret, more := ReadByte();
      Settled();
    }

    lemma Settled()
      requires ReaderOk() && (AtByte(at) || at == InBlock || at == Output || at == Idle) && !failed
      requires Stands(Bits(), r.bsLive)
      ensures Working()
    {
    }

    /** BZ2_decompress: field after field, until a block can be written, the stream ends or the input is used up. */
    method Read() returns (ret: Return)
      requires Working() && (AtByte(at) || at == InBlock)
      modifies this, parts
      ensures Working() && fresh(parts - old(parts)) && Kept()
      ensures if at == Idle then ret == StreamEnd && storedCombinedCRC == view.total else ret == Ok
      ensures at == Output ==> |Ahead()| < |old(Ahead())|
      ensures at == Output || at == Idle || (r.input == [] && |later| > behind)
    {
      while true
        invariant Working() && (AtByte(at) || at == InBlock) && fresh(parts - old(parts)) && Kept()
        invariant Ahead() == old(Ahead())
        decreases |r.bits|
      {
        var more;
        ret, more := ReadOne();
        if !more || ret != Ok || at == Output { return; }
      }
    }

    /** Reading does not touch what is to be written, or the input that is not offered. */
    twostate predicate Kept()
      reads this, r
    {
      remaining == old(remaining) && later == old(later) && |r.input| <= |old(r.input)|
    }

    /** Write some of the current block; when it is complete, its checksum is compared, and if it matches the next
        header is due. */
    method WriteBlock(availOut: nat) returns (ret: Return, out: seq<byte>, done: bool)
      requires ReaderOk() && at == Output && AtOutput(Bits(), r.bsLive)
      modifies this`at, this`calculatedCombinedCRC, this`remaining, o, o.repr
      ensures ReaderOk() && out + remaining == old(remaining) && |out| <= availOut && r.input == old(r.input)
      ensures if ret == DataError then done && at == Output && !sane && remaining == []
        else if done then ret == Ok && at == BlockHeader(0) && AtField(Bits(), r.bsLive)
        else ret == Ok && at == Output && AtOutput(Bits(), r.bsLive) && |out| == availOut
    {
      ghost var crc0, rest0 := o.crc, o.rest;
      var corrupt, sum;
      corrupt, out, done, sum := o.Output(availOut);
      if corrupt { return DataError, out, done; }
      Promised(crc0, rest0, out);
      remaining := Coming(o.rest, Matches(k.step, o.crc, o.rest, storedBlockCRC), view.data);
      ret := Ok;
      if done {
        var crc := Finalise(sum);
        if crc != storedBlockCRC { return DataError, out, done; }
        calculatedCombinedCRC := k.combine(calculatedCombinedCRC, crc);
        at := BlockHeader(0);
        assert [] + view.data == view.data;
      }
    }

    /** Writing some of the block changes nothing about its checksum, or about what is to come. */
    lemma Promised(crc: word, rest: seq<byte>, out: seq<byte>)
      requires Promises(crc, rest) && out <= rest
      ensures var crc', rest' := Fold(k.step, crc, out), rest[|out|..];
        && Matches(k.step, crc', rest', storedBlockCRC) == Matches(k.step, crc, rest, storedBlockCRC)
        && out + Coming(rest', Matches(k.step, crc', rest', storedBlockCRC), view.data) == remaining
    {
      var rest' := rest[|out|..];
      assert out + rest' == rest;
      FoldAppend(k.step, crc, out, rest');
      ConcatAssoc(out, rest', view.data);
      ConcatAssoc(out, rest', []);
    }

    /** Write what is due, then read on. */
    method Step(availOut: nat) returns (ret: Return, out: seq<byte>, stop: bool)
      requires Working() && at != Idle
      modifies this, parts
      ensures Valid() && fresh(parts - old(parts)) && later == old(later) && |r.input| <= |old(r.input)|
      ensures out + remaining == old(remaining) && |out| <= availOut
      ensures stop ==> Halted(ret, |out| == availOut)
      ensures !stop ==> !failed && at == Output && |Ahead()| < |old(Ahead())|
    {
      out, stop := [], false;
      if at == Output {
        var done;
        ret, out, done := Write(availOut);
        if !done || ret != Ok { stop := true; return; }
      }
      ret := Read();
      if ret == StreamEnd {
        Ending();
        if storedCombinedCRC != calculatedCombinedCRC {
          failed, ret := true, DataError;
        }
      }
      stop := at != Output;
    }

    /** At the end the stream checksum tells. */
    lemma Ending()
      requires Working() && at == Idle && storedCombinedCRC == view.total
      ensures remaining == [] && (sane <==> storedCombinedCRC == calculatedCombinedCRC)
    {
      assert OpenedState(0);
      NothingLeft(view);
    }

    /** Why a call returns: the stream is over, or there is no room or no input left. */
    ghost predicate Halted(ret: Return, full: bool)
      reads this, r
    {
      if failed then ret == DataError && !sane && remaining == [] && (at == Output || at == Idle)
      else if at == Idle then ret == StreamEnd && sane && remaining == []
      else ret == Ok && (full || (r.input == [] && |later| > behind))
    }

    method Write(availOut: nat) returns (ret: Return, out: seq<byte>, done: bool)
      requires Working() && at == Output
      modifies this`at, this`calculatedCombinedCRC, this`remaining, this`failed, parts
      ensures Valid() && out + remaining == old(remaining) && |out| <= availOut && r.input == old(r.input)
      ensures failed == (ret == DataError) && (failed ==> done && !sane && remaining == [] && at == Output)
      ensures !failed ==> ret == Ok
      ensures !failed ==> if done then at == BlockHeader(0) && Ahead() == old(Ahead())
        else at == Output && |out| == availOut
    {
      assert OpenedState(0);
      ret, out, done := WriteBlock(availOut);
      failed := ret == DataError;
    }

    /** Block after block, until the caller's buffer is full or the input used up. */
    method Run(availOut: nat) returns (ret: Return, out: seq<byte>)
      requires Working() && at != Idle
      modifies this, parts
      ensures Valid() && fresh(parts - old(parts)) && later == old(later) && |r.input| <= |old(r.input)|
      ensures out + remaining == old(remaining) && |out| <= availOut && Halted(ret, |out| == availOut)
    {
      out := [];
      while true
        invariant Working() && at != Idle && fresh(parts - old(parts)) && later == old(later)
        invariant |r.input| <= |old(r.input)|
        invariant out + remaining == old(remaining) && |out| <= availOut
        decreases |Ahead()|
      {
        var some, stop;
        ret, some, stop := Step(availOut - |out|);
        ConcatAssoc(out, some, remaining);
        out := out + some;
        if stop { return; }
      }
    }

    /** The caller offers the next part of its input. */
    method Offer(input: seq<byte>)
      requires Working() && r.input == [] && input <= later
      modifies r, this`later
      ensures Working() && r.input == input && later == old(later)[|input|..]
    {
      ghost var s, live := Bits(), r.bsLive;
      Offered(r.bits, input, later, all);
      r.Feed(input);
      later := later[|input|..];
      assert Bits() == s;
      assert Standing(s, live) == old(Standing(s, live));
    }

    /** What the call has not read is the caller's again. */
    method GiveBack() returns (unread: nat)
      requires Valid()
      modifies r, this`later
      ensures Valid() && r.input == [] && unread == |old(r.input)| && |later| == |old(later)| + unread
      ensures |r.bits| == r.bsLive
    {
      ghost var s, before, live := Bits(), r.input, r.bsLive;
      var left := r.TakeBack();
      assert Standing(s, live) == old(Standing(s, live));
      label Taken:
      Returned(r.bits, left, later);
      later := left + later;
      unread := |left|;
      assert Bits() == s && r.input + later == before + old(later);
      assert Standing(s, live) == old@Taken(Standing(s, live));
    }

    lemma AtEnd()
      requires Valid() && at == Idle && |r.bits| == r.bsLive
      ensures remaining == [] && |later| == behind
    {
      assert OpenedState(0);
      NothingLeft(view);
      assert |Bits()| == r.bsLive + 8 * |later|;
    }

    lemma Rest()
      requires Valid() && r.input == []
      ensures SuffixOf(later, all)
    {
      assert [] + later == later;
    }

    /** How a call on a working decompressor ends: with the end of a stream in which every checksum is right, with the
        report of a wrong one, when all that precedes it is out, or with more to come. */
    ghost predicate Ends(ret: Return)
      reads this
    {
      if failed then ret == DataError && !sane && remaining == [] && (at == Idle ==> |later| == behind)
      else if at == Idle then ret == StreamEnd && sane && remaining == [] && |later| == behind
      else ret == Ok
    }

    /** BZ2_bzDecompress: over every sequence of calls, whatever input and room each of them offers, the bytes come
        out in order; a call that returns BZ_OK has filled its room or used up its input, and then the stream has more
        to come; the end is reported when all bytes are out, exactly the bytes of the stream are read and no checksum
        was wrong; a wrong one is reported when the bytes up to the end of its block are out. */
    method Decompress(input: seq<byte>, availOut: nat) returns (ret: Return, used: int, out: seq<byte>)
      requires Valid() && r.input == [] && input <= later && (failed ==> at == Idle)
      modifies this, parts
      ensures Valid() && r.input == [] && fresh(parts - old(parts))
      ensures 0 <= used <= |input| && later == old(later)[used..] && out + remaining == old(remaining)
      ensures |out| <= availOut
      ensures old(at) == Idle ==> ret == SequenceError && out == [] && used == 0 && at == Idle && failed == old(failed)
      ensures old(at) != Idle ==> Ends(ret)
      ensures ret == Ok && |out| < availOut ==> used == |input| && |later| > behind
    {
      out, used := [], 0;
      if at == Idle { ret := SequenceError; return; }
      ret, used, out := Serve(input, availOut);
    }

    method Serve(input: seq<byte>, availOut: nat) returns (ret: Return, used: int, out: seq<byte>)
      requires Working() && r.input == [] && input <= later && at != Idle
      modifies this, parts
      ensures Valid() && r.input == [] && fresh(parts - old(parts))
      ensures 0 <= used <= |input| && later == old(later)[used..] && out + remaining == old(remaining)
      ensures |out| <= availOut && Ends(ret)
      ensures ret == Ok && |out| < availOut ==> used == |input| && |later| > behind
    {
      Rest();
      var unread;
      ret, unread, out := Through(input, availOut);
      used := |input| - unread;
      Rest();
      SuffixUsed(old(later), later, used, all);
      if at == Idle {
        AtEnd();
      }
    }

    /** Take the input in, go on, and hand back what is left. */
    method Through(input: seq<byte>, availOut: nat) returns (ret: Return, unread: nat, out: seq<byte>)
      requires Working() && r.input == [] && input <= later && at != Idle
      modifies this, parts
      ensures Valid() && r.input == [] && fresh(parts - old(parts)) && |r.bits| == r.bsLive
      ensures unread <= |input| && |later| == |old(later)| - |input| + unread
      ensures out + remaining == old(remaining) && |out| <= availOut
      ensures if failed then ret == DataError && !sane && remaining == []
        else if at == Idle then ret == StreamEnd && sane && remaining == [] else ret == Ok
      ensures ret == Ok && |out| < availOut ==> unread == 0 && |later| > behind
    {
      Offer(input);
      ret, out := Run(availOut);
      unread := GiveBack();
    }
  }

  lemma Offered(bits: seq<bit>, input: seq<byte>, later: seq<byte>, all: seq<byte>)
    requires input <= later && SuffixOf([] + later, all)
    ensures (bits + BytesToBits(input)) + BytesToBits(later[|input|..]) == bits + BytesToBits(later)
    ensures SuffixOf(input + later[|input|..], all)
  {
    assert later == input + later[|input|..] && [] + later == later;
    BytesToBitsAppend(input, later[|input|..]);
    ConcatAssoc(bits, BytesToBits(input), BytesToBits(later[|input|..]));
  }

  lemma Returned(bits: seq<bit>, unread: seq<byte>, later: seq<byte>)
    ensures (bits + BytesToBits(unread)) + BytesToBits(later) == bits + BytesToBits(unread + later)
  {
    BytesToBitsAppend(unread, later);
    ConcatAssoc(bits, BytesToBits(unread), BytesToBits(later));
  }
}
