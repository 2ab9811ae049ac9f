/** Shared vocabulary: bytes, optional results, permutations and multisets of sequences. */
module Basics {

  type byte = x: int | 0 <= x < 256

  datatype Option<+T> = None | Some(value: T)

  function Min(a: int, b: int): int { if a < b then a else b }

  function Max(a: int, b: int): int { if a > b then a else b }

  function Pow2(n: nat): (r: nat)
    ensures r >= 1
  {
    if n == 0 then 1 else 2 * Pow2(n - 1)
  }

  lemma {:induction false} Pow2Add(a: nat, b: nat)
    ensures Pow2(a + b) == Pow2(a) * Pow2(b)
  {
    if a != 0 {
      Pow2Add(a - 1, b);
    }
  }

  lemma {:induction false} Pow2Mono(a: nat, b: nat)
    requires a <= b
    ensures Pow2(a) <= Pow2(b)
  {
    if a < b {
      Pow2Mono(a, b - 1);
    }
  }

  lemma ScaleMono(a: int, b: int, y: int)
    requires a <= b && 0 <= y
    ensures a * y <= b * y
  {
  }

  ghost predicate Injective<T>(s: seq<T>)
  {
    forall i, j :: 0 <= i < j < |s| ==> s[i] != s[j]
  }

  /** `p` lists every index of `0 .. |p| - 1` exactly once. */
  ghost predicate IsPermutation(p: seq<int>)
  {
    && (forall i :: 0 <= i < |p| ==> 0 <= p[i] < |p|)
    && Injective(p)
  }

  function Iota(n: nat): (s: seq<int>)
    ensures |s| == n && forall i :: 0 <= i < n ==> s[i] == i
  {
    seq(n, i => i)
  }

  /** `n` copies of `x`. */
  function Rep<T>(x: T, n: nat): (s: seq<T>)
    ensures |s| == n && forall i :: 0 <= i < n ==> s[i] == x
  {
    seq(n, _ => x)
  }

  function Sum(ns: seq<nat>): (n: nat)
  {
    if ns == [] then 0 else Sum(ns[..|ns| - 1]) + ns[|ns| - 1]
  }

  lemma ConcatAssoc<T>(a: seq<T>, b: seq<T>, c: seq<T>)
    ensures (a + b) + c == a + (b + c)
  {
  }

  lemma ConcatThree<T>(a: seq<T>, b: seq<T>, c: seq<T>, rest: seq<T>)
    ensures (a + (b + c)) + rest == a + (b + (c + rest))
  {
  }

  /** `s` is the end of `all`. */
  ghost predicate SuffixOf<T>(s: seq<T>, all: seq<T>)
  {
    |s| <= |all| && s == all[|all| - |s|..]
  }

  lemma SuffixStays<T>(before: seq<T>, after: seq<T>, later: seq<T>, all: seq<T>)
    requires SuffixOf(before + later, all) && SuffixOf(after, before)
    ensures SuffixOf(after + later, all)
  {
    var n := |before| - |after|;
    assert (before + later)[n..] == after + later;
  }

  lemma SuffixTrans<T>(c: seq<T>, b: seq<T>, a: seq<T>)
    requires SuffixOf(c, b) && SuffixOf(b, a)
    ensures SuffixOf(c, a)
  {
  }

  lemma SuffixUsed<T>(before: seq<T>, after: seq<T>, used: int, all: seq<T>)
    requires SuffixOf(before, all) && SuffixOf(after, all) && |after| == |before| - used && used >= 0
    ensures after == before[used..]
  {
  }

  function Swapped(s: seq<int>, x: int, y: int): (t: seq<int>)
    requires 0 <= x < |s| && 0 <= y < |s|
    ensures |t| == |s|
  {
    s[x := s[y]][y := s[x]]
  }

  lemma SwappedMultiset(a: seq<int>, x: int, y: int)
    requires 0 <= x < |a| && 0 <= y < |a|
    ensures multiset(Swapped(a, x, y)) == multiset(a)
  {
    var b := a[x := a[y]];
    assert multiset(b) == multiset(a)[a[x] := multiset(a)[a[x]] - 1] + multiset{a[y]};
  }

  lemma SubsetCardinality<T>(a: set<T>, b: set<T>)
    requires a <= b
    ensures |a| <= |b|
  {
    if a != {} {
      var x :| x in a;
      SubsetCardinality(a - {x}, b - {x});
    }
  }

  lemma InjectiveCardinality<T>(s: seq<T>)
    requires Injective(s)
    ensures |set x | x in s| == |s|
  {
    if s != [] {
      var t := s[..|s| - 1];
      InjectiveCardinality(t);
      assert s == t + [s[|s| - 1]];
      assert (set x | x in s) == (set x | x in t) + {s[|s| - 1]};
    }
  }

  /** Distinct values below `n` number at most `n`. */
  lemma Pigeonhole(s: seq<int>, n: nat)
    requires Injective(s) && forall i :: 0 <= i < |s| ==> 0 <= s[i] < n
    ensures |s| <= n
  {
    InjectiveCardinality(s);
    InjectiveCardinality(Iota(n));
    forall x | x in s
      ensures x in Iota(n)
    {
      assert Iota(n)[x] == x;
    }
    SubsetCardinality(set x | x in s, set x | x in Iota(n));
  }

  /** A permutation reaches every index. */
  lemma PermutationReaches(p: seq<int>, v: int) returns (i: int)
    requires IsPermutation(p) && 0 <= v < |p|
    ensures 0 <= i < |p| && p[i] == v
  {
    if v !in p {
      InjectiveCardinality(p);
      InjectiveCardinality(Iota(|p|));
      forall x | 0 <= x < |p|
        ensures x in Iota(|p|)
      {
        assert Iota(|p|)[x] == x;
      }
      SubsetCardinality(set x | x in p, (set x | x in Iota(|p|)) - {v});
      assert false;
    }
    i :| 0 <= i < |p| && p[i] == v;
  }

  lemma InjectiveMultiplicity<T>(s: seq<T>)
    requires Injective(s)
    ensures forall v :: multiset(s)[v] == if v in s then 1 else 0
  {
    if s != [] {
      var t := s[..|s| - 1];
      assert s == t + [s[|s| - 1]];
      InjectiveMultiplicity(t);
    }
  }

  lemma PermutationMultiset(p: seq<int>)
    requires IsPermutation(p)
    ensures multiset(p) == multiset(Iota(|p|))
  {
    InjectiveMultiplicity(p);
    InjectiveMultiplicity(Iota(|p|));
    forall v
      ensures v in p <==> v in Iota(|p|)
    {
      if 0 <= v < |p| {
        var i := PermutationReaches(p, v);
        assert Iota(|p|)[v] == v;
      }
    }
  }

  /** Converse: anything with the multiset of `0 .. n - 1` is a permutation. */
  lemma MultisetPermutation(p: seq<int>, n: nat)
    requires multiset(p) == multiset(Iota(n))
    ensures |p| == n && IsPermutation(p)
  {
    assert |multiset(p)| == |p| && |multiset(Iota(n))| == n;
    forall i | 0 <= i < |p|
      ensures 0 <= p[i] < n
    {
      assert p[i] in multiset(p);
      assert p[i] in Iota(n);
    }
    InjectiveMultiplicity(Iota(n));
    forall i, j | 0 <= i < j < |p|
      ensures p[i] != p[j]
    {
      assert p == p[..j] + [p[j]] + p[j + 1..];
      assert multiset(p)[p[j]] <= 1;
      assert multiset(p)[p[j]] == multiset(p[..j])[p[j]] + 1 + multiset(p[j + 1..])[p[j]];
      assert p[i] in p[..j];
    }
  }

  /** The elements of `rows` picked by an index sequence. */
  function Select<T>(rows: seq<T>, p: seq<int>): (s: seq<T>)
    requires forall i :: 0 <= i < |p| ==> 0 <= p[i] < |rows|
    ensures |s| == |p| && forall i :: 0 <= i < |p| ==> s[i] == rows[p[i]]
  {
    seq(|p|, i requires 0 <= i < |p| => rows[p[i]])
  }

  lemma MultisetRemove<T>(s: seq<T>, j: int)
    requires 0 <= j < |s|
    ensures multiset(s[..j] + s[j + 1..]) == multiset(s) - multiset{s[j]}
  {
    assert s == s[..j] + [s[j]] + s[j + 1..];
  }

  lemma SelectInsert<T>(rows: seq<T>, p: seq<int>, j: int)
    requires forall i :: 0 <= i < |p| ==> 0 <= p[i] < |rows|
    requires 0 <= j < |p|
    ensures multiset(Select(rows, p)) == multiset(Select(rows, p[..j] + p[j + 1..])) + multiset{rows[p[j]]}
  {
    var s := Select(rows, p);
    assert s == s[..j] + [s[j]] + s[j + 1..];
    assert s[..j] + s[j + 1..] == Select(rows, p[..j] + p[j + 1..]);
  }

  /** What `Select` picks depends, up to order, only on the multiset of indices. */
  lemma {:induction false} SelectMultiset<T>(rows: seq<T>, p: seq<int>, q: seq<int>)
    requires forall i :: 0 <= i < |p| ==> 0 <= p[i] < |rows|
    requires forall i :: 0 <= i < |q| ==> 0 <= q[i] < |rows|
    requires multiset(p) == multiset(q)
    ensures multiset(Select(rows, p)) == multiset(Select(rows, q))
    decreases |p|
  {
    assert |p| == |multiset(p)| == |multiset(q)| == |q|;
    if p != [] {
      assert p[0] in multiset(q);
      var j :| 0 <= j < |q| && q[j] == p[0];
      var p', q' := p[..0] + p[1..], q[..j] + q[j + 1..];
      assert multiset(p') == multiset(q') by {
        MultisetRemove(p, 0);
        MultisetRemove(q, j);
      }
      SelectMultiset(rows, p', q');
      SelectInsert(rows, p, 0);
      SelectInsert(rows, q, j);
    }
  }

  lemma SelectPermutation<T>(rows: seq<T>, p: seq<int>)
    requires IsPermutation(p) && |p| == |rows|
    ensures multiset(Select(rows, p)) == multiset(rows)
  {
    PermutationMultiset(p);
    SelectMultiset(rows, p, Iota(|p|));
    assert Select(rows, Iota(|p|)) == rows;
  }

  /** Object invariants are stated under this name, as `forall i :: Opened(i) ==> ...`, so that a proof
      looks inside one only where it mentions `Opened`. */
  ghost predicate Opened(i: int) { true }

  /** Like `Opened`, for the invariants of the two stream objects, whose parts are stated with `Opened`. */
  ghost predicate OpenedState(i: int) { true }
}
