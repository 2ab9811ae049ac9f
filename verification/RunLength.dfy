/** The first run-length stage: runs of 1..255 equal bytes, written as up to four copies plus a count. */
module RunLength {
  import opened Basics

  datatype Run = Run(ch: byte, len: int)

  predicate ValidRun(r: Run) { 1 <= r.len <= 255 }

  predicate ValidRuns(rs: seq<Run>) { forall i :: 0 <= i < |rs| ==> ValidRun(rs[i]) }

  /** What `add_pair_to_block` appends for one run. */
  function EncodeRun(r: Run): (s: seq<byte>)
    requires ValidRun(r)
  {
    if r.len < 4 then Rep(r.ch, r.len) else Rep(r.ch, 4) + [r.len - 4]
  }

  function EncodeRuns(rs: seq<Run>): (s: seq<byte>)
    requires ValidRuns(rs)
  {
    if rs == [] then [] else EncodeRun(rs[0]) + EncodeRuns(rs[1..])
  }

  /** The input bytes a list of runs stands for. */
  function RunBytes(rs: seq<Run>): (s: seq<byte>)
    requires ValidRuns(rs)
  {
    if rs == [] then [] else Rep(rs[0].ch, rs[0].len) + RunBytes(rs[1..])
  }

  /** Two neighbouring runs of one byte occur only after a run of maximal length. */
  ghost predicate Separated(rs: seq<Run>)
  {
    forall i :: 0 <= i < |rs| - 1 ==> rs[i].ch == rs[i + 1].ch ==> rs[i].len == 255
  }

  /** How many bytes, at most four, the expander finds equal at the front. */
  function Lead(s: seq<byte>): (n: nat)
    requires s != []
    ensures 1 <= n <= 4 && n <= |s| && s[..n] == Rep(s[0], n)
    ensures n < 4 && n < |s| ==> s[n] != s[0]
  {
    if |s| < 2 || s[1] != s[0] then 1
    else if |s| < 3 || s[2] != s[0] then 2
    else if |s| < 4 || s[3] != s[0] then 3
    else 4
  }

  /** The block never stops between four equal bytes and their count. */
  predicate Complete(s: seq<byte>)
  {
    if s == [] then true
    else if Lead(s) < 4 then Complete(s[Lead(s)..])
    else |s| > 4 && Complete(s[5..])
  }

  /** The meaning of a block to the expander. */
  function Expand(s: seq<byte>): (out: seq<byte>)
    requires Complete(s)
  {
    if s == [] then []
    else if Lead(s) < 4 then Rep(s[0], Lead(s)) + Expand(s[Lead(s)..])
    else Rep(s[0], s[4] as int + 4) + Expand(s[5..])
  }

  /** The same for every block: one that stops right after four equal bytes takes as their count `after`, the byte
      that the walk fetches next. */
  function Unroll(s: seq<byte>, after: byte): (out: seq<byte>)
  {
    if s == [] then []
    else if Lead(s) < 4 then Rep(s[0], Lead(s)) + Unroll(s[Lead(s)..], after)
    else if |s| == 4 then Rep(s[0], after as int + 4)
    else Rep(s[0], s[4] as int + 4) + Unroll(s[5..], after)
  }

  lemma {:induction false} UnrollComplete(s: seq<byte>, after: byte)
    requires Complete(s)
    ensures Unroll(s, after) == Expand(s)
  {
    if s != [] {
      if Lead(s) < 4 {
        UnrollComplete(s[Lead(s)..], after);
      } else {
        UnrollComplete(s[5..], after);
      }
    }
  }

  lemma EncodedHead(rs: seq<Run>)
    requires ValidRuns(rs) && rs != []
    ensures EncodeRuns(rs) != [] && EncodeRuns(rs)[0] == rs[0].ch
  {
  }

  lemma SeparatedTail(rs: seq<Run>)
    requires rs != [] && Separated(rs)
    ensures Separated(rs[1..]) && (|rs| > 1 && rs[0].ch == rs[1].ch ==> rs[0].len == 255)
  {
    var rest := rs[1..];
    forall i | 0 <= i < |rest| - 1
      ensures rest[i].ch == rest[i + 1].ch ==> rest[i].len == 255
    {
      assert rest[i] == rs[i + 1] && rest[i + 1] == rs[i + 2];
    }
  }

  /** One encoded run in front of others that it cannot be confused with. */
  lemma ExpandRun(r: Run, tail: seq<byte>)
    requires ValidRun(r) && (tail != [] && r.len < 4 ==> tail[0] != r.ch) && Complete(tail)
    ensures Complete(EncodeRun(r) + tail) && Expand(EncodeRun(r) + tail) == Rep(r.ch, r.len) + Expand(tail)
  {
    var s := EncodeRun(r) + tail;
    if r.len < 4 {
      assert Lead(s) == r.len && s[r.len..] == tail;
    } else {
      assert Lead(s) == 4 && s[5..] == tail && s[4] == r.len - 4;
    }
  }

  /** Expanding what the encoder wrote gives back the bytes of its runs. */
  lemma {:induction false} ExpandInvertsEncode(rs: seq<Run>)
    requires ValidRuns(rs) && Separated(rs)
    ensures Complete(EncodeRuns(rs))
    ensures Expand(EncodeRuns(rs)) == RunBytes(rs)
  {
    if rs != [] {
      var r, rest := rs[0], rs[1..];
      SeparatedTail(rs);
      ExpandInvertsEncode(rest);
      if rest != [] {
        EncodedHead(rest);
      }
      ExpandRun(r, EncodeRuns(rest));
    }
  }

  lemma {:induction false} EncodeRunsAppend(rs: seq<Run>, r: Run)
    requires ValidRuns(rs) && ValidRun(r)
    ensures EncodeRuns(rs + [r]) == EncodeRuns(rs) + EncodeRun(r)
    ensures RunBytes(rs + [r]) == RunBytes(rs) + Rep(r.ch, r.len)
  {
    if rs == [] {
      assert rs + [r] == [r];
      assert EncodeRuns([r][1..]) == [] && RunBytes([r][1..]) == [];
    } else {
      EncodeRunsAppend(rs[1..], r);
      assert (rs + [r])[1..] == rs[1..] + [r];
    }
  }
}
