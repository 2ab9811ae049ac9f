/** How sendMTFValues picks a table for each group of fifty and refines the tables (compress.c:318-458). */
module TableChoice {
  import opened Basics
  import opened BlockFormat
  import opened HuffmanTree
  import opened HuffmanCodes
  import opened HuffmanOptimal
  import HuffmanLengths
  import InverseBwt

  const N_ITERS := 4
  const HALF := 65536

  /** Bits needed for the values `gs .. ge - 1` in one table. */
  function GroupCost(lens: seq<int>, vs: seq<int>, gs: int, ge: int): (c: int)
    requires 0 <= gs <= ge <= |vs| && forall k :: 0 <= k < |vs| ==> 0 <= vs[k] < |lens|
    decreases ge - gs
  {
    if gs == ge then 0 else GroupCost(lens, vs, gs, ge - 1) + lens[vs[ge - 1]]
  }

  /** Byte-sized entries for an alphabet of `n`. */
  ghost predicate Bytewide(lens: seq<int>, n: int)
  {
    |lens| == n && forall i :: 0 <= i < n ==> 0 <= lens[i] < 256
  }

  ghost predicate Values(vs: seq<int>, n: int)
  {
    forall k :: 0 <= k < |vs| ==> 0 <= vs[k] < n
  }

  lemma {:induction false} CostBound(lens: seq<int>, vs: seq<int>, gs: int, ge: int)
    requires Bytewide(lens, |lens|) && Values(vs, |lens|) && 0 <= gs <= ge <= |vs| && ge <= gs + G_SIZE
    ensures 0 <= GroupCost(lens, vs, gs, ge) <= 255 * (ge - gs) < HALF
    decreases ge
  {
    if gs < ge {
      CostBound(lens, vs, gs, ge - 1);
    }
  }

  ghost predicate CostsAre(tables: seq<seq<int>>, n: int, vs: seq<int>, gs: int, ge: int, cost: seq<int>)
  {
    && 0 <= gs <= ge <= |vs| && Values(vs, n) && |cost| == |tables|
    && (forall t :: 0 <= t < |tables| ==> |tables[t]| == n)
    && forall t :: 0 <= t < |tables| ==> cost[t] == GroupCost(tables[t], vs, gs, ge)
  }

  ghost predicate TablesWide(tables: seq<seq<int>>, n: int)
  {
    forall t :: 0 <= t < |tables| ==> Bytewide(tables[t], n)
  }

  // ----- The slow path: 16-bit sums, one per table -----

  method AddLengths(tables: seq<seq<int>>, n: int, vs: seq<int>, gs: int, i: int, cost0: seq<int>)
    returns (cost: seq<int>)
    requires TablesWide(tables, n) && i < |vs| && i < gs + G_SIZE && CostsAre(tables, n, vs, gs, i, cost0)
    ensures CostsAre(tables, n, vs, gs, i + 1, cost)
  {
    cost := cost0;
    for t := 0 to |tables|
      invariant |cost| == |tables|
      invariant forall u :: 0 <= u < t ==> cost[u] == GroupCost(tables[u], vs, gs, i + 1)
      invariant forall u :: t <= u < |tables| ==> cost[u] == GroupCost(tables[u], vs, gs, i)
    {
      assert Bytewide(tables[t], n);
      CostBound(tables[t], vs, gs, i + 1);
      cost := cost[t := (cost[t] + tables[t][vs[i]]) % HALF];
    }
  }

  method SlowCosts(tables: seq<seq<int>>, n: int, vs: seq<int>, gs: int, ge: int) returns (cost: seq<int>)
    requires TablesWide(tables, n) && Values(vs, n) && 0 <= gs <= ge <= |vs| && ge <= gs + G_SIZE
    ensures CostsAre(tables, n, vs, gs, ge, cost)
  {
    cost := seq(|tables|, _ => 0);
    for i := gs to ge
      invariant CostsAre(tables, n, vs, gs, i, cost)
    {
      cost := AddLengths(tables, n, vs, gs, i, cost);
    }
  }

  // ----- The fast path: two 16-bit sums in one 32-bit word -----

  /** `(hi << 16) | lo`. */
  function Pack(hi: int, lo: int): (p: int) { hi * HALF + lo }

  /** One packed pair of tables: neither half ever carries into the other. */
  method PackedCost(hi: seq<int>, lo: seq<int>, n: int, vs: seq<int>, gs: int) returns (c0: int, c1: int)
    requires Bytewide(hi, n) && Bytewide(lo, n) && Values(vs, n) && 0 <= gs && gs + G_SIZE <= |vs|
    ensures c0 == GroupCost(lo, vs, gs, gs + G_SIZE) && c1 == GroupCost(hi, vs, gs, gs + G_SIZE)
  {
    var cost := 0;
    for i := gs to gs + G_SIZE
      invariant cost == Pack(GroupCost(hi, vs, gs, i), GroupCost(lo, vs, gs, i))
    {
      CostBound(hi, vs, gs, i + 1);
      CostBound(lo, vs, gs, i + 1);
      cost := (cost + Pack(hi[vs[i]], lo[vs[i]])) % 0x1_0000_0000;
    }
    CostBound(hi, vs, gs, gs + G_SIZE);
    CostBound(lo, vs, gs, gs + G_SIZE);
    c0, c1 := cost % HALF, cost / HALF;
  }

  method FastCosts(tables: seq<seq<int>>, n: int, vs: seq<int>, gs: int) returns (cost: seq<int>)
    requires |tables| == 6 && TablesWide(tables, n) && Values(vs, n) && 0 <= gs && gs + G_SIZE <= |vs|
    ensures CostsAre(tables, n, vs, gs, gs + G_SIZE, cost)
  {
    var c0, c1 := PackedCost(tables[1], tables[0], n, vs, gs);
    var c2, c3 := PackedCost(tables[3], tables[2], n, vs, gs);
    var c4, c5 := PackedCost(tables[5], tables[4], n, vs, gs);
    cost := [c0, c1, c2, c3, c4, c5];
  }

  // ----- The choice -----

  /** `bt` is the first of the cheapest tables. */
  ghost predicate Cheapest(tables: seq<seq<int>>, n: int, vs: seq<int>, gs: int, ge: int, bt: int)
  {
    && TablesWide(tables, n) && Values(vs, n) && 0 <= gs <= ge <= |vs| && 0 <= bt < |tables|
    && (forall t :: 0 <= t < |tables| ==> GroupCost(tables[bt], vs, gs, ge) <= GroupCost(tables[t], vs, gs, ge))
    && (forall t :: 0 <= t < bt ==> GroupCost(tables[bt], vs, gs, ge) < GroupCost(tables[t], vs, gs, ge))
  }

  method FirstMin(cost: seq<int>) returns (bt: int)
    requires cost != [] && forall t :: 0 <= t < |cost| ==> cost[t] < HALF
    ensures 0 <= bt < |cost|
    ensures forall t :: 0 <= t < |cost| ==> cost[bt] <= cost[t]
    ensures forall t :: 0 <= t < bt ==> cost[bt] < cost[t]
  {
    var bc := 999999999;
    bt := -1;
    for t := 0 to |cost|
      invariant -1 <= bt < t && (bt == -1 <==> t == 0) && bc == if bt == -1 then 999999999 else cost[bt]
      invariant forall u :: 0 <= u < t ==> bc <= cost[u]
      invariant forall u :: 0 <= u < bt ==> bc < cost[u]
    {
      if cost[t] < bc {
        bc, bt := cost[t], t;
      }
    }
  }

  /** Whichever path adds up the costs, the first cheapest table is chosen. */
  method ChooseTable(tables: seq<seq<int>>, n: int, vs: seq<int>, gs: int, ge: int) returns (bt: int)
    requires tables != [] && TablesWide(tables, n) && Values(vs, n) && 0 <= gs < ge <= |vs| && ge <= gs + G_SIZE
    ensures Cheapest(tables, n, vs, gs, ge, bt)
  {
    var cost;
    if |tables| == 6 && ge - gs == G_SIZE {
      cost := FastCosts(tables, n, vs, gs);
    } else {
      cost := SlowCosts(tables, n, vs, gs, ge);
    }
    forall t | 0 <= t < |tables|
      ensures cost[t] < HALF
    {
      assert Bytewide(tables[t], n);
      CostBound(tables[t], vs, gs, ge);
    }
    bt := FirstMin(cost);
  }

  // ----- Frequencies under the chosen tables -----

  /** How often each symbol occurs among the first `k` values coded with table `t`. */
  ghost function FreqRow(sels: seq<int>, vs: seq<int>, n: nat, k: nat, t: int): (row: seq<int>)
    requires k <= |vs| && k <= G_SIZE * |sels| && Values(vs, n)
    ensures |row| == n && forall v :: 0 <= v < n ==> row[v] >= 0
  {
    if k == 0 then seq(n, _ => 0)
    else
      var prev := FreqRow(sels, vs, n, k - 1, t);
      var v := vs[k - 1];
      if sels[(k - 1) / G_SIZE] == t then prev[v := prev[v] + 1] else prev
  }

  /** Where among the first `k` values `v` is coded with table `t`, the groups being of fifty. */
  ghost function Places(sels: seq<int>, vs: seq<int>, k: nat, t: int, v: int): (places: set<int>)
    requires k <= |vs| && k <= 50 * |sels|
  {
    set i | 0 <= i < k && vs[i] == v && sels[i / 50] == t
  }

  /** The row counts these places. */
  lemma {:induction false} FreqRowCounts(sels: seq<int>, vs: seq<int>, n: nat, k: nat, t: int, v: int)
    requires k <= |vs| && k <= 50 * |sels| && Values(vs, n) && 0 <= v < n
    ensures FreqRow(sels, vs, n, k, t)[v] == |Places(sels, vs, k, t, v)|
  {
    if k == 0 {
      assert Places(sels, vs, k, t, v) == {};
    } else {
      FreqRowCounts(sels, vs, n, k - 1, t, v);
      var before, after := Places(sels, vs, k - 1, t, v), Places(sels, vs, k, t, v);
      if vs[k - 1] == v && sels[(k - 1) / 50] == t {
        assert after == before + {k - 1};
      } else {
        assert after == before;
      }
    }
  }

  lemma {:induction false} FreqRowMore(sels: seq<int>, vs: seq<int>, n: nat, k: nat, t: int, bt: int)
    requires k <= |vs| && k <= G_SIZE * |sels| && Values(vs, n)
    ensures FreqRow(sels + [bt], vs, n, k, t) == FreqRow(sels, vs, n, k, t)
  {
    if k != 0 {
      FreqRowMore(sels, vs, n, k - 1, t, bt);
    }
  }

  lemma {:induction false} TotalUpdate(s: seq<int>, i: int, x: int)
    requires 0 <= i < |s|
    ensures HuffmanLengths.Total(s[i := x]) == HuffmanLengths.Total(s) - s[i] + x
  {
    var last := |s| - 1;
    if i < last {
      TotalUpdate(s[..last], i, x);
      assert s[i := x][..last] == s[..last][i := x];
    } else {
      assert s[i := x][..last] == s[..last];
    }
  }

  lemma {:induction false} TotalZero(n: nat)
    ensures HuffmanLengths.Total(seq(n, _ => 0)) == 0
  {
    if n != 0 {
      TotalZero(n - 1);
      assert seq(n, _ => 0)[..n - 1] == seq(n - 1, _ => 0);
    }
  }

  /** No table sees more symbols than were coded. */
  lemma {:induction false} FreqTotal(sels: seq<int>, vs: seq<int>, n: nat, k: nat, t: int)
    requires k <= |vs| && k <= G_SIZE * |sels| && Values(vs, n)
    ensures 0 <= HuffmanLengths.Total(FreqRow(sels, vs, n, k, t)) <= k
  {
    if k == 0 {
      TotalZero(n);
    } else {
      FreqTotal(sels, vs, n, k - 1, t);
      var prev := FreqRow(sels, vs, n, k - 1, t);
      TotalUpdate(prev, vs[k - 1], prev[vs[k - 1]] + 1);
    }
  }

  ghost predicate Tallied(rfreq: seq<seq<int>>, sels: seq<int>, vs: seq<int>, n: nat, k: int)
  {
    && 0 <= k <= |vs| && k <= G_SIZE * |sels| && Values(vs, n)
    && forall t :: 0 <= t < |rfreq| ==> rfreq[t] == FreqRow(sels, vs, n, k, t)
  }

  lemma TallyStep(rfreq: seq<seq<int>>, sels: seq<int>, vs: seq<int>, n: nat, k: int, bt: int)
    requires Tallied(rfreq, sels, vs, n, k) && k < |vs| && k < G_SIZE * |sels|
    requires 0 <= bt < |rfreq| && sels[k / G_SIZE] == bt
    ensures |rfreq[bt]| == n
    ensures Tallied(rfreq[bt := rfreq[bt][vs[k] := rfreq[bt][vs[k]] + 1]], sels, vs, n, k + 1)
  {
  }

  lemma TallyMore(rfreq: seq<seq<int>>, sels: seq<int>, vs: seq<int>, n: nat, k: int, bt: int)
    requires Tallied(rfreq, sels, vs, n, k)
    ensures Tallied(rfreq, sels + [bt], vs, n, k)
  {
    forall t | 0 <= t < |rfreq|
      ensures rfreq[t] == FreqRow(sels + [bt], vs, n, k, t)
    {
      FreqRowMore(sels, vs, n, k, t, bt);
    }
  }

  method TallyGroup(rfreq0: seq<seq<int>>, bt: int, vs: seq<int>, gs: int, ge: int, ghost sels: seq<int>, ghost n: nat)
    returns (rfreq: seq<seq<int>>)
    requires Tallied(rfreq0, sels, vs, n, gs) && 0 <= gs <= ge <= |vs| && 0 <= bt < |rfreq0|
    requires sels != [] && sels[|sels| - 1] == bt && gs == G_SIZE * (|sels| - 1) && ge <= gs + G_SIZE
    ensures |rfreq| == |rfreq0| && Tallied(rfreq, sels, vs, n, ge)
  {
    rfreq := rfreq0;
    for i := gs to ge
      invariant |rfreq| == |rfreq0| && Tallied(rfreq, sels, vs, n, i)
    {
      assert i / G_SIZE == |sels| - 1;
      TallyStep(rfreq, sels, vs, n, i, bt);
      rfreq := rfreq[bt := rfreq[bt][vs[i] := rfreq[bt][vs[i]] + 1]];
    }
  }

  /** Each of the first groups got a cheapest table. */
  ghost predicate Chosen(tables: seq<seq<int>>, n: int, vs: seq<int>, sels: seq<int>)
  {
    && G_SIZE * (|sels| - 1) < |vs|
    && forall g :: 0 <= g < |sels| ==> ChosenAt(tables, n, vs, g, sels[g])
  }

  ghost predicate ChosenAt(tables: seq<seq<int>>, n: int, vs: seq<int>, g: int, bt: int)
  {
    Cheapest(tables, n, vs, G_SIZE * g, Min(|vs|, G_SIZE * g + G_SIZE), bt)
  }

  lemma ChosenMore(tables: seq<seq<int>>, n: int, vs: seq<int>, sels: seq<int>, gs: int, ge: int, bt: int)
    requires Chosen(tables, n, vs, sels) && gs == G_SIZE * |sels| < |vs| && ge == Min(|vs|, gs + G_SIZE)
    requires Cheapest(tables, n, vs, gs, ge, bt)
    ensures Chosen(tables, n, vs, sels + [bt])
  {
    assert ChosenAt(tables, n, vs, |sels|, bt);
  }

  /** One pass over the groups (compress.c:341-434). */
  method SelectTables(tables: seq<seq<int>>, n: nat, vs: seq<int>) returns (sels: seq<int>, rfreq: seq<seq<int>>)
    requires tables != [] && TablesWide(tables, n) && Values(vs, n)
    ensures Chosen(tables, n, vs, sels) && |vs| <= G_SIZE * |sels|
    ensures |rfreq| == |tables| && Tallied(rfreq, sels, vs, n, |vs|)
  {
    rfreq := seq(|tables|, _ => seq(n, _ => 0));
    sels := [];
    var gs := 0;
    while gs < |vs|
      invariant 0 <= gs <= |vs| && gs == Min(|vs|, G_SIZE * |sels|)
      invariant Chosen(tables, n, vs, sels)
      invariant |rfreq| == |tables| && Tallied(rfreq, sels, vs, n, gs)
    {
      gs, sels, rfreq := SelectTable(tables, n, vs, gs, sels, rfreq);
    }
  }

  /** The table for one group. */
  method SelectTable(tables: seq<seq<int>>, n: nat, vs: seq<int>, gs: int, sels0: seq<int>, rfreq0: seq<seq<int>>)
    returns (end: int, sels: seq<int>, rfreq: seq<seq<int>>)
    requires tables != [] && TablesWide(tables, n) && Values(vs, n)
    requires 0 <= gs < |vs| && gs == G_SIZE * |sels0| && Chosen(tables, n, vs, sels0)
    requires |rfreq0| == |tables| && Tallied(rfreq0, sels0, vs, n, gs)
    ensures gs < end == Min(|vs|, G_SIZE * |sels|) && |sels| == |sels0| + 1 && Chosen(tables, n, vs, sels)
    ensures |rfreq| == |tables| && Tallied(rfreq, sels, vs, n, end)
  {
    var ge := gs + G_SIZE - 1;
    if ge >= |vs| { ge := |vs| - 1; }
    end := ge + 1;
    var bt := ChooseTable(tables, n, vs, gs, end);
    ChosenMore(tables, n, vs, sels0, gs, end, bt);
    TallyMore(rfreq0, sels0, vs, n, gs, bt);
    sels := sels0 + [bt];
    rfreq := TallyGroup(rfreq0, bt, vs, gs, end, sels, n);
  }

  // ----- New tables from the frequencies -----

  /** Lengths 1..17 that use up the code space exactly. */
  ghost predicate GoodTable(lens: seq<int>, n: int)
  {
    |lens| == n && Lengths(lens, 1, 17) && Kraft(lens, 17) == Pow2(17)
  }

  /** An optimal code for the frequencies, halved as long as an optimal code was longer than 17 bits. */
  ghost predicate Fitted(freq: seq<int>, lens: seq<int>)
  {
    && (forall v :: 0 <= v < |freq| ==> freq[v] >= 0)
    && exists rounds: nat ::
         Optimal(HuffmanLengths.Weights(freq, rounds), lens) && HuffmanLengths.Rescaled(freq, rounds, 17)
  }

  /** One table from its frequencies (compress.c:449-451). */
  method MakeTable(freq: seq<int>, n: nat) returns (lens: seq<int>)
    requires 3 <= n <= 258 && |freq| == n && HuffmanLengths.Total(freq) <= 900000
    requires forall v :: 0 <= v < n ==> freq[v] >= 0
    ensures GoodTable(lens, n) && Fitted(freq, lens)
  {
    var len := new int[258];
    ghost var rounds := HuffmanLengths.MakeCodeLengths(len, freq, n, 17);
    lens := len[..n];
  }

  method MakeTables(rfreq: seq<seq<int>>, n: nat, ghost sels: seq<int>, ghost vs: seq<int>)
    returns (tables: seq<seq<int>>)
    requires 3 <= n <= 258 && |vs| <= 900000 && Tallied(rfreq, sels, vs, n, |vs|)
    ensures |tables| == |rfreq| && forall t :: 0 <= t < |tables| ==> GoodTable(tables[t], n)
    ensures forall t :: 0 <= t < |tables| ==> Fitted(rfreq[t], tables[t])
  {
    tables := [];
    for t := 0 to |rfreq|
      invariant |tables| == t && forall u :: 0 <= u < t ==> GoodTable(tables[u], n)
      invariant forall u :: 0 <= u < t ==> Fitted(rfreq[u], tables[u])
    {
      FreqTotal(sels, vs, n, |vs|, t);
      var lens := MakeTable(rfreq[t], n);
      tables := tables + [lens];
    }
  }

  /** One of the iterations (compress.c:321-452): every group takes the first of its cheapest tables, and each table is
      then fitted to what it codes. */
  ghost predicate Pass(before: seq<seq<int>>, sels: seq<int>, after: seq<seq<int>>, n: nat, vs: seq<int>)
  {
    exists rfreq :: |rfreq| == |before| == |after| && Chosen(before, n, vs, sels)
      && Tallied(rfreq, sels, vs, n, |vs|) && forall t :: 0 <= t < |after| ==> Fitted(rfreq[t], after[t])
  }

  ghost predicate PassAt(chain: seq<seq<seq<int>>>, picks: seq<seq<int>>, n: nat, vs: seq<int>, i: int)
  {
    0 <= i && i + 1 < |chain| && i < |picks| && Pass(chain[i], picks[i], chain[i + 1], n, vs)
  }

  /** The tables before the first iteration and after each of `k`, with the selectors that each of them picked. */
  ghost predicate Chain(chain: seq<seq<seq<int>>>, picks: seq<seq<int>>, n: nat, vs: seq<int>, k: nat)
  {
    |chain| == k + 1 && |picks| == k && forall i :: 0 <= i < k ==> PassAt(chain, picks, n, vs, i)
  }

  /** The outcome of `k` iterations. */
  ghost predicate Refined(initial: seq<seq<int>>, sels: seq<int>, tables: seq<seq<int>>, n: nat, vs: seq<int>, k: nat)
  {
    exists chain, picks ::
      Chain(chain, picks, n, vs, k) && chain[0] == initial && chain[k] == tables && (k > 0 ==> picks[k - 1] == sels)
  }

  lemma ChainMore(chain: seq<seq<seq<int>>>, picks: seq<seq<int>>, n: nat, vs: seq<int>, k: nat,
                  sels: seq<int>, after: seq<seq<int>>)
    requires Chain(chain, picks, n, vs, k) && Pass(chain[k], sels, after, n, vs)
    ensures Chain(chain + [after], picks + [sels], n, vs, k + 1)
  {
    var chain', picks' := chain + [after], picks + [sels];
    forall i | 0 <= i < k + 1
      ensures PassAt(chain', picks', n, vs, i)
    {
      if i < k {
        assert PassAt(chain, picks, n, vs, i);
      }
    }
  }

  function NumGroups(nMTF: int): (g: int)
    ensures 2 <= g <= 6 && (g > 2 <==> nMTF >= 200) && (g > 3 <==> nMTF >= 600)
    ensures (g > 4 <==> nMTF >= 1200) && (g > 5 <==> nMTF >= 2400)
  {
    if nMTF < 200 then 2 else if nMTF < 600 then 3 else if nMTF < 1200 then 4 else if nMTF < 2400 then 5 else 6
  }

  // ----- The first tables (compress.c:279-317) -----

  const LESSER_ICOST := 0
  const GREATER_ICOST := 15

  ghost function SumFrom(f: seq<int>, i: nat): (r: int)
    requires i <= |f|
    decreases |f| - i
  {
    if i == |f| then 0 else f[i] + SumFrom(f, i + 1)
  }

  lemma {:induction false} SumFromNonneg(f: seq<int>, i: nat)
    requires i <= |f| && forall k :: 0 <= k < |f| ==> f[k] >= 0
    ensures SumFrom(f, i) >= 0
    decreases |f| - i
  {
    if i < |f| {
      SumFromNonneg(f, i + 1);
    }
  }

  lemma {:induction false} SumFromUpdate(f: seq<int>, i: nat, v: int)
    requires i <= |f| && 0 <= v < |f|
    ensures SumFrom(f[v := f[v] + 1], i) == SumFrom(f, i) + if i <= v then 1 else 0
    decreases |f| - i
  {
    if i < |f| {
      SumFromUpdate(f, i + 1, v);
    }
  }

  lemma {:induction false} SumFromZero(n: nat, i: nat)
    requires i <= n
    ensures SumFrom(seq(n, _ => 0), i) == 0
    decreases n - i
  {
    if i < n {
      SumFromZero(n, i + 1);
    }
  }

  /** mtfFreq, as generateMTFValues counts it. */
  method CountValues(vs: seq<int>, n: nat) returns (mtfFreq: seq<int>)
    requires Values(vs, n)
    ensures Occurrences(vs, n, mtfFreq) && SumFrom(mtfFreq, 0) == |vs|
  {
    mtfFreq := seq(n, _ => 0);
    SumFromZero(n, 0);
    for i := 0 to |vs|
      invariant Occurrences(vs[..i], n, mtfFreq) && SumFrom(mtfFreq, 0) == i
    {
      assert vs[..i + 1][..i] == vs[..i];
      SumFromUpdate(mtfFreq, 0, vs[i]);
      mtfFreq := mtfFreq[vs[i] := mtfFreq[vs[i]] + 1];
    }
    assert vs[..|vs|] == vs;
  }

  /** How often each symbol occurs. */
  ghost predicate Occurrences(vs: seq<int>, n: nat, freq: seq<int>)
  {
    |freq| == n && forall v :: 0 <= v < n ==> freq[v] == InverseBwt.Count(vs, v)
  }

  /** From `gs` on, `e` is the first place before which `tFreq` occurrences lie, or the end. */
  ghost predicate Reaches(f: seq<int>, gs: int, e: int, tFreq: int)
  {
    && 0 <= gs <= e <= |f| && (e == |f| || SumFrom(f, gs) - SumFrom(f, e) >= tFreq)
    && (e > gs ==> SumFrom(f, gs) - SumFrom(f, e - 1) < tFreq)
  }

  /** The range from `gs` ends before `end`: where `tFreq` is reached, or one symbol sooner if `drop` asks for it and
      one is left. */
  ghost predicate CutAt(f: seq<int>, gs: int, end: int, tFreq: int, drop: bool)
  {
    exists e :: Reaches(f, gs, e, tFreq) && end == if drop && e > gs + 1 then e - 1 else e
  }

  lemma {:induction false} SumFromFalls(f: seq<int>, i: nat, j: nat)
    requires i <= j <= |f| && forall k :: 0 <= k < |f| ==> f[k] >= 0
    ensures SumFrom(f, i) >= SumFrom(f, j)
    decreases j - i
  {
    if i < j {
      SumFromFalls(f, i + 1, j);
    }
  }

  /** There is one such place. */
  lemma CutUnique(f: seq<int>, gs: int, x: int, y: int, tFreq: int, drop: bool)
    requires (forall k :: 0 <= k < |f| ==> f[k] >= 0) && CutAt(f, gs, x, tFreq, drop) && CutAt(f, gs, y, tFreq, drop)
    ensures x == y
  {
    var d :| Reaches(f, gs, d, tFreq) && x == if drop && d > gs + 1 then d - 1 else d;
    var e :| Reaches(f, gs, e, tFreq) && y == if drop && e > gs + 1 then e - 1 else e;
    if d < e {
      SumFromFalls(f, d, e - 1);
    } else if e < d {
      SumFromFalls(f, e, d - 1);
    }
  }

  /** The next range of symbols, about `tFreq` occurrences of them. */
  method NextRange(mtfFreq: seq<int>, gs: int, tFreq: int, drop: bool) returns (ge: int, aFreq: int)
    requires 0 <= gs <= |mtfFreq| && forall v :: 0 <= v < |mtfFreq| ==> mtfFreq[v] >= 0
    ensures gs - 1 <= ge < |mtfFreq| && aFreq + SumFrom(mtfFreq, ge + 1) == SumFrom(mtfFreq, gs)
    ensures CutAt(mtfFreq, gs, ge + 1, tFreq, drop)
  {
    ge, aFreq := gs - 1, 0;
    while aFreq < tFreq && ge < |mtfFreq| - 1
      invariant gs - 1 <= ge < |mtfFreq| && aFreq + SumFrom(mtfFreq, ge + 1) == SumFrom(mtfFreq, gs)
      invariant ge >= gs ==> aFreq - mtfFreq[ge] < tFreq
      decreases |mtfFreq| - ge
    {
      ge := ge + 1;
      aFreq := aFreq + mtfFreq[ge];
    }
    assert Reaches(mtfFreq, gs, ge + 1, tFreq);
    if ge > gs && drop {
      aFreq := aFreq - mtfFreq[ge];
      ge := ge - 1;
    }
  }

  /** The `k`-th range, `cuts[k] .. cuts[k + 1]`, is an equal share of what is left, and the last table but `k` favours
      it. */
  ghost predicate PartAt(f: seq<int>, len: seq<seq<int>>, cuts: seq<int>, k: int)
    requires 0 <= k && k + 1 < |cuts| && k < |len|
  {
    && 0 <= cuts[k] <= |f|
    && CutAt(f, cuts[k], cuts[k + 1], SumFrom(f, cuts[k]) / (|len| - k), 0 < k < |len| - 1 && k % 2 == 1)
    && Favours(len[|len| - 1 - k], |f|, cuts[k], cuts[k + 1])
  }

  ghost predicate Favours(row: seq<int>, n: int, gs: int, end: int)
  {
    |row| == n && forall v :: 0 <= v < n ==> row[v] == if gs <= v < end then 0 else 15
  }

  /** The first tables for symbols of these frequencies. */
  ghost predicate Initial(f: seq<int>, len: seq<seq<int>>)
  {
    exists cuts :: Parts(f, len, cuts) && |cuts| == |len| + 1
  }

  ghost predicate Parts(f: seq<int>, len: seq<seq<int>>, cuts: seq<int>)
  {
    0 < |cuts| <= |len| + 1 && cuts[0] == 0 && forall k :: 0 <= k < |cuts| - 1 ==> PartAt(f, len, cuts, k)
  }

  /** One range more. */
  lemma PartsMore(f: seq<int>, len: seq<seq<int>>, cuts: seq<int>, end: int, row: seq<int>)
    requires Parts(f, len, cuts) && |cuts| <= |len| && 0 <= cuts[|cuts| - 1] <= |f|
    requires var k, gs := |cuts| - 1, cuts[|cuts| - 1];
      && CutAt(f, gs, end, SumFrom(f, gs) / (|len| - k), 0 < k < |len| - 1 && k % 2 == 1)
      && Favours(row, |f|, gs, end)
    ensures Parts(f, len[|len| - |cuts| := row], cuts + [end])
  {
    var len', cuts' := len[|len| - |cuts| := row], cuts + [end];
    forall k | 0 <= k < |cuts|
      ensures PartAt(f, len', cuts', k)
    {
      if k < |cuts| - 1 {
        assert PartAt(f, len, cuts, k);
      }
    }
  }

  /** The symbols are cut into ranges of about equal weight; each table starts out favouring one range. */
  method InitialTables(mtfFreq: seq<int>, nMTF: int, nGroups: int) returns (len: seq<seq<int>>)
    requires 0 < nGroups && SumFrom(mtfFreq, 0) == nMTF && forall v :: 0 <= v < |mtfFreq| ==> mtfFreq[v] >= 0
    ensures |len| == nGroups && TablesWide(len, |mtfFreq|) && Initial(mtfFreq, len)
    ensures forall t, u, v :: 0 <= t < u < nGroups && 0 <= v < |mtfFreq| ==>
      len[t][v] == GREATER_ICOST || len[u][v] == GREATER_ICOST
  {
    var n := |mtfFreq|;
    len := seq(nGroups, _ => seq(n, _ => GREATER_ICOST));
    var nPart, remF, gs := nGroups, nMTF, 0;
    ghost var cuts := [0];
    while nPart > 0
      invariant 0 <= nPart <= nGroups && 0 <= gs <= n && remF == SumFrom(mtfFreq, gs)
      invariant |len| == nGroups && forall t :: 0 <= t < nGroups ==> Ranged(len[t], n, if t < nPart then 0 else gs)
      invariant forall t, u, v :: 0 <= t < u < nGroups && 0 <= v < n ==>
        len[t][v] == GREATER_ICOST || len[u][v] == GREATER_ICOST
      invariant |cuts| == nGroups - nPart + 1 && cuts[nGroups - nPart] == gs && Parts(mtfFreq, len, cuts)
    {
      SumFromNonneg(mtfFreq, gs);
      var drop := nPart != nGroups && nPart != 1 && (nGroups - nPart) % 2 == 1;
      var ge, aFreq := NextRange(mtfFreq, gs, remF / nPart, drop);
      var row := seq(n, v => if gs <= v <= ge then LESSER_ICOST else GREATER_ICOST);
      PartsMore(mtfFreq, len, cuts, ge + 1, row);
      len, cuts := len[nPart - 1 := row], cuts + [ge + 1];
      nPart, gs, remF := nPart - 1, ge + 1, remF - aFreq;
    }
  }

  /** Every entry is one of the two costs, the low one only below `gs`. */
  ghost predicate Ranged(row: seq<int>, n: int, gs: int)
  {
    && |row| == n
    && forall v :: 0 <= v < n ==> row[v] == GREATER_ICOST || (row[v] == LESSER_ICOST && v < gs)
  }

  lemma ChosenTables(before: seq<seq<int>>, sels: seq<int>, n: nat, vs: seq<int>)
    requires Chosen(before, n, vs, sels)
    ensures forall g :: 0 <= g < |sels| ==> 0 <= sels[g] < |before|
  {
    forall g | 0 <= g < |sels|
      ensures 0 <= sels[g] < |before|
    {
      assert ChosenAt(before, n, vs, g, sels[g]);
    }
  }

  lemma GoodWide(tables: seq<seq<int>>, n: nat)
    requires forall t :: 0 <= t < |tables| ==> GoodTable(tables[t], n)
    ensures TablesWide(tables, n) && LensOk(tables, n)
  {
    forall t | 0 <= t < |tables|
      ensures Bytewide(tables[t], n) && |tables[t]| == n && Lengths(tables[t], 1, 20)
    {
      assert GoodTable(tables[t], n);
    }
  }

  /** One iteration. */
  method RefineOnce(before: seq<seq<int>>, n: nat, vs: seq<int>) returns (sels: seq<int>, tables: seq<seq<int>>)
    requires 3 <= n <= 258 && 0 < |vs| <= 899991 && Values(vs, n) && before != [] && TablesWide(before, n)
    ensures |tables| == |before| && (forall t :: 0 <= t < |tables| ==> GoodTable(tables[t], n))
    ensures Pass(before, sels, tables, n, vs) && G_SIZE * (|sels| - 1) < |vs| <= G_SIZE * |sels|
    ensures forall g :: 0 <= g < |sels| ==> 0 <= sels[g] < |tables|
  {
    var rfreq;
    sels, rfreq := SelectTables(before, n, vs);
    ChosenTables(before, sels, n, vs);
    tables := MakeTables(rfreq, n, sels, vs);
  }

  /** What the encoder ends up with: from whatever tables it starts, the selectors and tables of the fourth iteration;
      the tables are complete prefix codes, and there is exactly one selector for each group of fifty. */
  method RefineTables(initial: seq<seq<int>>, n: nat, vs: seq<int>) returns (c: Coding)
    requires 3 <= n <= 258 && 0 < |vs| <= 899991 && Values(vs, n)
    requires |initial| == NumGroups(|vs|) && TablesWide(initial, n)
    ensures |c.tables| == NumGroups(|vs|) && forall t :: 0 <= t < |c.tables| ==> GoodTable(c.tables[t], n)
    ensures DataOk(c, n, vs) && G_SIZE * (|c.sels| - 1) < |vs| && |c.sels| <= MAX_SELECTORS
    ensures Refined(initial, c.sels, c.tables, n, vs, 4)
  {
    var tables, sels := initial, [];
    ghost var chain, picks := [initial], [];
    for iter := 0 to N_ITERS
      invariant |tables| == NumGroups(|vs|) && TablesWide(tables, n)
      invariant Chain(chain, picks, n, vs, iter) && chain[0] == initial && chain[iter] == tables
      invariant iter > 0 ==> picks[iter - 1] == sels
      invariant iter > 0 ==> forall t :: 0 <= t < |tables| ==> GoodTable(tables[t], n)
      invariant iter > 0 ==> G_SIZE * (|sels| - 1) < |vs| <= G_SIZE * |sels|
      invariant forall g :: 0 <= g < |sels| ==> 0 <= sels[g] < |tables|
    {
      sels, tables := RefineOnce(tables, n, vs);
      GoodWide(tables, n);
      ChainMore(chain, picks, n, vs, iter, sels, tables);
      chain, picks := chain + [tables], picks + [sels];
    }
    c := Coding(sels, tables);
    GoodWide(tables, n);
  }

  /** A coding as the encoder chooses it. */
  ghost predicate WellChosen(c: Coding, n: nat, vs: seq<int>)
  {
    exists freq, initial :: Occurrences(vs, n, freq) && |initial| == NumGroups(|vs|) && Initial(freq, initial)
      && Refined(initial, c.sels, c.tables, n, vs, 4)
  }

  method ChooseCoding(vs: seq<int>, n: nat) returns (c: Coding)
    requires 3 <= n <= 258 && 0 < |vs| <= 899991 && Values(vs, n)
    ensures |c.tables| == NumGroups(|vs|) && forall t :: 0 <= t < |c.tables| ==> GoodTable(c.tables[t], n)
    ensures DataOk(c, n, vs) && G_SIZE * (|c.sels| - 1) < |vs| && |c.sels| <= MAX_SELECTORS
    ensures WellChosen(c, n, vs)
  {
    var mtfFreq := CountValues(vs, n);
    var initial := InitialTables(mtfFreq, |vs|, NumGroups(|vs|));
    c := RefineTables(initial, n, vs);
  }
}
