/** The shard planner: whole sources packed largest-first into regions (src/pheasant/sharding.py). */
module Sharding {
  import opened Lists
  import opened Sums
  import opened Text

  /** What one source contributes. `bytes` is carried but never read by the planner. */
  datatype SourceSize = SourceSize(name: string, files: int, bytes: int)

  /** Graph nodes of a source: 6.3 per file, truncated. Only asked of sources with files. */
  function Nodes(s: SourceSize): (n: nat)
    ensures s.files > 0 ==> n > 0
  {
    if s.files <= 0 then 0 else 63 * s.files / 10
  }

  function Files(s: SourceSize): nat { if s.files <= 0 then 0 else s.files }

  function Load(bin: seq<SourceSize>): nat { Sum(Nodes, bin) }

  function Usable(sources: seq<SourceSize>): seq<SourceSize> {
    if sources == [] then []
    else
      var n := |sources| - 1;
      if sources[n].files > 0 then Usable(sources[..n]) + [sources[n]] else Usable(sources[..n])
  }

  /** Exactly the sources with files are planned for, each as often as it is listed. */
  lemma {:induction false} UsableExactly(sources: seq<SourceSize>, s: SourceSize)
    ensures multiset(Usable(sources))[s] == if s.files > 0 then multiset(sources)[s] else 0
    ensures s in Usable(sources) <==> s in sources && s.files > 0
  {
    if sources != [] {
      UsableExactly(sources[..|sources| - 1], s);
      InitLast(sources);
      InInitLast(sources, s);
      InAppend(Usable(sources[..|sources| - 1]), sources[|sources| - 1], s);
    }
  }

  /** 6.3 nodes for each file, rounded down. */
  lemma NodesRoundDown(s: SourceSize)
    requires s.files > 0
    ensures 10 * Nodes(s) <= 63 * Files(s) < 10 * (Nodes(s) + 1) && Files(s) == s.files
  {
  }

  // ----- ordering: most files first, then by name -----

  predicate KeyLe(a: SourceSize, b: SourceSize) {
    a.files > b.files || (a.files == b.files && StrLe(a.name, b.name))
  }

  predicate Ordered(s: seq<SourceSize>) {
    forall i, j :: 0 <= i < j < |s| ==> KeyLe(s[i], s[j])
  }

  /** Insert after everything not greater: the sort is stable. */
  function Insert(s: seq<SourceSize>, x: SourceSize): seq<SourceSize> {
    if s == [] || KeyLe(s[|s| - 1], x) then s + [x]
    else Insert(s[..|s| - 1], x) + [s[|s| - 1]]
  }

  function Sorted(s: seq<SourceSize>): seq<SourceSize> {
    if s == [] then [] else Insert(Sorted(s[..|s| - 1]), s[|s| - 1])
  }

  lemma KeyLeTotal(a: SourceSize, b: SourceSize)
    ensures KeyLe(a, b) || KeyLe(b, a)
    ensures KeyLe(a, b) && KeyLe(b, a) ==> a.name == b.name && a.files == b.files
  {
    StrLeTotal(a.name, b.name);
  }

  lemma KeyLeTransitive(a: SourceSize, b: SourceSize, c: SourceSize)
    requires KeyLe(a, b) && KeyLe(b, c)
    ensures KeyLe(a, c)
  {
    if a.files == b.files && b.files == c.files {
      StrLeTransitive(a.name, b.name, c.name);
    }
  }

  lemma {:induction false} InsertOrders(s: seq<SourceSize>, x: SourceSize)
    requires Ordered(s)
    ensures Ordered(Insert(s, x))
    ensures multiset(Insert(s, x)) == multiset(s) + multiset{x}
  {
    if s != [] {
      var last := s[|s| - 1];
      assert s == s[..|s| - 1] + [last];
      if KeyLe(last, x) {
        forall i | 0 <= i < |s| ensures KeyLe(s[i], x) {
          if i < |s| - 1 { KeyLeTransitive(s[i], last, x); }
        }
      } else {
        KeyLeTotal(last, x);
        InsertOrders(s[..|s| - 1], x);
        var rest := Insert(s[..|s| - 1], x);
        forall i | 0 <= i < |rest| ensures KeyLe(rest[i], last) {
          assert rest[i] in multiset(rest);
          assert rest[i] in multiset(s[..|s| - 1]) || rest[i] == x;
          if rest[i] in multiset(s[..|s| - 1]) {
            var k :| 0 <= k < |s| - 1 && s[k] == rest[i];
          }
        }
      }
    }
  }

  lemma {:induction false} SortedOrders(s: seq<SourceSize>)
    ensures Ordered(Sorted(s)) && multiset(Sorted(s)) == multiset(s)
  {
    if s != [] {
      SortedOrders(s[..|s| - 1]);
      InsertOrders(Sorted(s[..|s| - 1]), s[|s| - 1]);
      assert s == s[..|s| - 1] + [s[|s| - 1]];
    }
  }

  // ----- packing -----

  /** `min(bins, key=(nodes, index))`: the first bin with the least load. */
  predicate IsSmallest(bins: seq<seq<SourceSize>>, j: nat) {
    && j < |bins|
    && (forall b :: 0 <= b < |bins| ==> Load(bins[j]) <= Load(bins[b]))
    && (forall b :: 0 <= b < j ==> Load(bins[j]) < Load(bins[b]))
  }

  function Smallest(bins: seq<seq<SourceSize>>): (j: nat)
    requires bins != []
    ensures IsSmallest(bins, j)
  {
    if |bins| == 1 then 0
    else
      var n := |bins| - 1;
      var j := Smallest(bins[..n]);
      assert forall b :: 0 <= b < n ==> bins[..n][b] == bins[b];
      if Load(bins[n]) < Load(bins[j]) then n else j
  }

  function Place(bins: seq<seq<SourceSize>>, s: SourceSize): seq<seq<SourceSize>>
    requires bins != []
  {
    var j := Smallest(bins);
    bins[j := bins[j] + [s]]
  }

  function Empties(m: nat): (bins: seq<seq<SourceSize>>)
    ensures |bins| == m && forall b :: 0 <= b < m ==> bins[b] == []
  {
    seq(m, _ => [])
  }

  /** The bins after every source of `ordered` went, in turn, to the bin then smallest. */
  function Pack(ordered: seq<SourceSize>, m: nat): (bins: seq<seq<SourceSize>>)
    requires m >= 1
    ensures |bins| == m
  {
    if ordered == [] then Empties(m)
    else Place(Pack(ordered[..|ordered| - 1], m), ordered[|ordered| - 1])
  }

  lemma {:induction false} FlattenEmpties(m: nat)
    ensures Flatten(Empties(m)) == []
  {
    if m > 0 {
      assert Empties(m)[..m - 1] == Empties(m - 1);
      FlattenEmpties(m - 1);
    }
  }

  /** Nothing is lost or doubled by packing. */
  lemma {:induction false} PackConserves(ordered: seq<SourceSize>, m: nat)
    requires m >= 1
    ensures multiset(Flatten(Pack(ordered, m))) == multiset(ordered)
  {
    if ordered == [] {
      FlattenEmpties(m);
    } else {
      var n := |ordered| - 1;
      var before := Pack(ordered[..n], m);
      PackConserves(ordered[..n], m);
      AppendToBin(before, Smallest(before), ordered[n]);
      assert ordered == ordered[..n] + [ordered[n]];
    }
  }

  // ----- the 4/3 bound -----

  /** The same whole sources, arranged in bins some other way. */
  ghost predicate Arranges(bins: seq<seq<SourceSize>>, sources: seq<SourceSize>) {
    multiset(Flatten(bins)) == multiset(sources)
  }

  ghost predicate Fits(bins: seq<seq<SourceSize>>, cap: int) {
    forall b :: 0 <= b < |bins| ==> Load(bins[b]) <= cap
  }

  lemma PackStep(ordered: seq<SourceSize>, m: nat, j: nat)
    requires ordered != [] && j < m
    ensures var before, last := Pack(ordered[..|ordered| - 1], m), ordered[|ordered| - 1];
      Pack(ordered, m)[j] == if Smallest(before) == j then before[j] + [last] else before[j]
  {
  }

  /** The last source placed in bin `j`, and what the bin held just before. */
  lemma {:induction false} LastPlaced(ordered: seq<SourceSize>, m: nat, j: nat) returns (n: nat)
    requires j < m
    ensures n < |ordered| || Pack(ordered, m)[j] == []
    ensures n < |ordered| ==>
      && IsSmallest(Pack(ordered[..n], m), j)
      && Pack(ordered, m)[j] == Pack(ordered[..n], m)[j] + [ordered[n]]
  {
    if ordered == [] {
      n := 0;
    } else {
      n := |ordered| - 1;
      PackStep(ordered, m, j);
      if Smallest(Pack(ordered[..n], m)) != j {
        n := LastPlaced(ordered[..n], m, j);
        if n < |ordered| - 1 {
          TakeTake(ordered, n, |ordered| - 1);
        } else {
          n := |ordered|;
        }
      }
    }
  }

  /** Counting weight of a source against a source of `p` nodes and a ceiling of `cap`:
    * two if it leaves no room for `p`, nothing if it is smaller than `p`. */
  function Weight(p: nat, cap: nat): SourceSize -> nat {
    (s: SourceSize) => if Nodes(s) < p then 0 else if Nodes(s) + p > cap then 2 else 1
  }

  /** No bin within the ceiling can weigh more than two when three times `p` is over it. */
  lemma {:induction false} FittingBinWeighsAtMostTwo(bin: seq<SourceSize>, p: nat, cap: nat)
    requires 3 * p > cap
    ensures Sum(Weight(p, cap), bin) >= 1 ==> Load(bin) >= p
    ensures Sum(Weight(p, cap), bin) >= 2 ==> Load(bin) >= 2 * p || Load(bin) > cap - p
    ensures Sum(Weight(p, cap), bin) >= 3 ==> Load(bin) > cap
  {
    if bin != [] {
      FittingBinWeighsAtMostTwo(bin[..|bin| - 1], p, cap);
    }
  }

  /** A bin with no room left for `p` weighs at least two. */
  lemma {:induction false} FullBinWeighsAtLeastTwo(bin: seq<SourceSize>, p: nat, cap: nat)
    requires p <= cap
    requires forall i :: 0 <= i < |bin| ==> Nodes(bin[i]) >= p
    ensures Sum(Weight(p, cap), bin) == 0 ==> Load(bin) == 0
    ensures Sum(Weight(p, cap), bin) <= 1 ==> Load(bin) + p <= cap
  {
    if bin != [] {
      FullBinWeighsAtLeastTwo(bin[..|bin| - 1], p, cap);
    }
  }

  lemma {:induction false} InFlatten<T>(bins: seq<seq<T>>, b: nat, i: nat)
    requires b < |bins| && i < |bins[b]|
    ensures bins[b][i] in Flatten(bins)
  {
    if b < |bins| - 1 {
      InFlatten(bins[..|bins| - 1], b, i);
    }
  }

  /** An averaging bound that holds whatever the sizes: the fullest bin was the smallest one
    * when its last source arrived. */
  lemma AveragingBound(ordered: seq<SourceSize>, m: nat, j: nat, n: nat)
    requires j < m && n < |ordered|
    requires IsSmallest(Pack(ordered[..n], m), j)
    ensures m * Load(Pack(ordered[..n], m)[j]) + Nodes(ordered[n]) <= Load(ordered)
  {
    var before := Pack(ordered[..n], m);
    BinsAtLeast(Nodes, before, Load(before[j]));
    PackConserves(ordered[..n], m);
    SumPermutation(Nodes, Flatten(before), ordered[..n]);
    SumSplit(Nodes, ordered, n);
  }

  /** An arrangement under the ceiling weighs at most two per bin. */
  lemma ArrangementWeighsAtMost(ordered: seq<SourceSize>, other: seq<seq<SourceSize>>, p: nat, cap: nat)
    requires Arranges(other, ordered) && Fits(other, cap) && 3 * p > cap
    ensures Sum(Weight(p, cap), ordered) <= |other| * 2
  {
    forall b | 0 <= b < |other| ensures Sum(Weight(p, cap), other[b]) <= 2 {
      FittingBinWeighsAtMostTwo(other[b], p, cap);
    }
    BinsAtMost(Weight(p, cap), other, 2);
    SumPermutation(Weight(p, cap), Flatten(other), ordered);
  }

  /** Packed bins that all lack room for `p` weigh at least two each. */
  lemma PackedWeighsAtLeast(placed: seq<SourceSize>, m: nat, p: nat, cap: nat)
    requires m >= 1 && p <= cap
    requires forall k :: 0 <= k < |placed| ==> Nodes(placed[k]) >= p
    requires forall b :: 0 <= b < m ==> Load(Pack(placed, m)[b]) + p > cap
    ensures m * 2 <= Sum(Weight(p, cap), placed)
  {
    var bins := Pack(placed, m);
    PackConserves(placed, m);
    forall b | 0 <= b < m ensures 2 <= Sum(Weight(p, cap), bins[b]) {
      forall i | 0 <= i < |bins[b]| ensures Nodes(bins[b][i]) >= p {
        InFlatten(bins, b, i);
        assert bins[b][i] in multiset(Flatten(bins));
        var k :| 0 <= k < |placed| && placed[k] == bins[b][i];
      }
      FullBinWeighsAtLeastTwo(bins[b], p, cap);
    }
    BinsAtLeast(Weight(p, cap), bins, 2);
    SumPermutation(Weight(p, cap), Flatten(bins), placed);
  }

  /** With sizes over a third of the ceiling, a source that arrives in bin `j` fits under it:
    * otherwise the bins would already outweigh every arrangement. */
  lemma LargeSourcesFit(ordered: seq<SourceSize>, m: nat, j: nat, n: nat, other: seq<seq<SourceSize>>, cap: nat)
    requires Ordered(ordered) && j < m && n < |ordered|
    requires IsSmallest(Pack(ordered[..n], m), j)
    requires |other| == m && Arranges(other, ordered) && Fits(other, cap)
    requires 3 * Nodes(ordered[n]) > cap
    ensures Load(Pack(ordered[..n], m)[j]) + Nodes(ordered[n]) <= cap
  {
    var p := Nodes(ordered[n]);
    if Load(Pack(ordered[..n], m)[j]) + p > cap {
      SourceFits(other, ordered, n, cap);
      forall k | 0 <= k < n ensures Nodes(ordered[..n][k]) >= p {
        assert KeyLe(ordered[k], ordered[n]);
      }
      PackedWeighsAtLeast(ordered[..n], m, p, cap);
      ArrangementWeighsAtMost(ordered, other, p, cap);
      SumSplit(Weight(p, cap), ordered, n);
      assert false;
    }
  }

  /** A ceiling some arrangement keeps is at least every source. */
  lemma SourceFits(other: seq<seq<SourceSize>>, ordered: seq<SourceSize>, n: nat, cap: nat)
    requires n < |ordered| && Arranges(other, ordered) && Fits(other, cap)
    ensures Nodes(ordered[n]) <= cap
  {
    assert ordered[n] in multiset(ordered);
    var b, i := FindInFlatten(other, ordered[n]);
    ElementAtMostSum(Nodes, other[b], i);
  }

  lemma {:induction false} FindInFlatten<T>(bins: seq<seq<T>>, x: T) returns (b: nat, i: nat)
    requires x in multiset(Flatten(bins))
    ensures b < |bins| && i < |bins[b]| && bins[b][i] == x
  {
    var n := |bins| - 1;
    if x in bins[n] {
      b := n;
      i :| 0 <= i < |bins[n]| && bins[n][i] == x;
    } else {
      b, i := FindInFlatten(bins[..n], x);
    }
  }

  /** What bin `j` held before its last source and that source: either both fit under the ceiling,
    * or the source is at most a third of it and the bin was no fuller than the average. */
  lemma LastSourceCases(ordered: seq<SourceSize>, m: nat, j: nat, n: nat, other: seq<seq<SourceSize>>, cap: nat)
    returns (before: nat, p: nat)
    requires Ordered(ordered) && j < m && n < |ordered|
    requires IsSmallest(Pack(ordered[..n], m), j)
    requires |other| == m && Arranges(other, ordered) && Fits(other, cap)
    ensures before == Load(Pack(ordered[..n], m)[j]) && p == Nodes(ordered[n])
    ensures before + p <= cap || (3 * p <= cap && m * before + p <= m * cap)
  {
    before, p := Load(Pack(ordered[..n], m)[j]), Nodes(ordered[n]);
    if 3 * p > cap {
      LargeSourcesFit(ordered, m, j, n, other, cap);
    } else {
      AveragingBound(ordered, m, j, n);
      ArrangementHoldsAtMost(ordered, other, cap);
    }
  }

  /** Graham's bound for largest-first packing, in integers: against every arrangement of the same
    * whole sources into as many bins, no bin exceeds that arrangement's ceiling by more than a third
    * (less 1/(3m)). */
  lemma LargestFirstBound(ordered: seq<SourceSize>, m: nat, other: seq<seq<SourceSize>>, cap: nat, j: nat)
    requires Ordered(ordered) && j < m
    requires |other| == m && Arranges(other, ordered) && Fits(other, cap)
    ensures 3 * (m * Load(Pack(ordered, m)[j])) + cap <= 4 * (m * cap)
  {
    var n := LastPlaced(ordered, m, j);
    if n < |ordered| {
      var before, p := LastSourceCases(ordered, m, j, n, other, cap);
      CombineBound(m, Load(Pack(ordered, m)[j]), before, p, cap);
    } else {
      CombineBound(m, 0, 0, 0, cap);
    }
  }

  lemma ArrangementHoldsAtMost(ordered: seq<SourceSize>, other: seq<seq<SourceSize>>, cap: nat)
    requires Arranges(other, ordered) && Fits(other, cap)
    ensures Load(ordered) <= |other| * cap
  {
    BinsAtMost(Nodes, other, cap);
    SumPermutation(Nodes, Flatten(other), ordered);
  }

  lemma CombineBound(m: nat, load: nat, before: nat, p: nat, cap: nat)
    requires m >= 1 && load == before + p
    requires load <= cap || (3 * p <= cap && m * before + p <= m * cap)
    ensures 3 * (m * load) + cap <= 4 * (m * cap)
  {
    if load <= cap {
      ScaleLe(m, load, cap);
      ScaleLe(cap, 1, m);
    } else {
      ThirdsLeaveSlack(m, p, cap);
      assert m * load == m * before + m * p;
    }
  }

  lemma ScaleLe(k: nat, a: nat, b: nat)
    requires a <= b
    ensures k * a <= k * b
  {
  }

  lemma ThirdsLeaveSlack(m: nat, p: nat, cap: nat)
    requires m >= 1 && 3 * p <= cap
    ensures 3 * (m * p) + cap <= m * cap + 3 * p
  {
    ScaleLe(cap - 3 * p, 1, m);
    assert m * (cap - 3 * p) == m * cap - 3 * (m * p);
  }

  /** The claim as the module words it: within 4/3 of the best. */
  lemma FourThirds(m: nat, load: nat, cap: nat)
    requires m >= 1 && 3 * (m * load) + cap <= 4 * (m * cap)
    ensures 3 * load <= 4 * cap
  {
    assert m * (3 * load - 4 * cap) == 3 * (m * load) - 4 * (m * cap);
  }
}
