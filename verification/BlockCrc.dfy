/** The per-block checksum as a byte fold; the step itself is a parameter. */
module BlockCrc {
  import opened Basics

  type word = x: int | 0 <= x < 0x1_0000_0000

  type CrcStep = (word, byte) -> word

  function Fold(step: CrcStep, crc: word, s: seq<byte>): (r: word)
  {
    if s == [] then crc else step(Fold(step, crc, s[..|s| - 1]), s[|s| - 1])
  }

  lemma FoldSnoc(step: CrcStep, crc: word, s: seq<byte>, c: byte)
    ensures Fold(step, crc, s + [c]) == step(Fold(step, crc, s), c)
  {
    assert (s + [c])[..|s|] == s;
  }

  lemma {:induction false} FoldAppend(step: CrcStep, crc: word, s: seq<byte>, t: seq<byte>)
    ensures Fold(step, crc, s + t) == Fold(step, Fold(step, crc, s), t)
  {
    if t == [] {
      assert s + t == s;
    } else {
      var t' := t[..|t| - 1];
      FoldAppend(step, crc, s, t');
      assert s + t == (s + t') + [t[|t| - 1]];
      FoldSnoc(step, crc, s + t', t[|t| - 1]);
    }
  }
}
