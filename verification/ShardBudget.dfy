/** When the automatic shard count keeps its promise, "the smallest count that keeps every shard under" the
  * budget (src/pheasant/sharding.py, plan_shards). */
module ShardBudget {
  import opened Options
  import opened Sums
  import opened Sharding
  import opened ShardPlan

  /** Every shard is within the budget, and no fewer bins of any arrangement could be. */
  ghost predicate KeepsPromise(plan: Plan, usable: seq<SourceSize>, budget: int)
    requires plan.Plan?
  {
    && (forall i :: 0 <= i < |plan.shards| ==> plan.shards[i].nodes <= budget)
    && (forall other :: Arranges(other, usable) && Fits(other, budget) ==> |other| >= plan.shardCount)
  }

  lemma ShardLoads(sources: seq<SourceSize>, shards: Option<int>, budget: int, plan: Plan)
    requires Usable(sources) != [] && plan == PlanOf(sources, shards, budget)
    ensures plan.shardCount == |plan.shards| == |Bins(sources, shards, budget)|
    ensures forall i :: 0 <= i < |plan.shards| ==> plan.shards[i].nodes == Load(Bins(sources, shards, budget)[i])
  {
    PlanShape(sources, shards, budget);
  }

  lemma SilentWhenFits(sources: seq<SourceSize>, shards: Option<int>, budget: int, plan: Plan)
    requires Usable(sources) != [] && plan == PlanOf(sources, shards, budget)
    ensures plan.warnings == [] <==> Fits(Bins(sources, shards, budget), budget)
  {
    var bins := Bins(sources, shards, budget);
    ShardLoads(sources, shards, budget, plan);
    SilentExactlyWhenWithin(sources, shards, budget);
    if plan.warnings == [] {
      forall b | 0 <= b < |bins| ensures Load(bins[b]) <= budget { assert plan.shards[b].nodes <= budget; }
    }
  }

  lemma NoFewerBins(sources: seq<SourceSize>, budget: int, other: seq<seq<SourceSize>>)
    requires Usable(sources) != [] && Fits(Bins(sources, None, budget), budget)
    requires Arranges(other, Usable(sources)) && Fits(other, budget)
    ensures |other| >= |Bins(sources, None, budget)|
  {
    ShardLoads(sources, None, budget, PlanOf(sources, None, budget));
    SilentWhenFits(sources, None, budget, PlanOf(sources, None, budget));
    SilentAutomaticPlanIsSmallest(sources, budget, other);
  }

  lemma FittingIsPromised(sources: seq<SourceSize>, budget: int, plan: Plan)
    requires Usable(sources) != [] && plan == PlanOf(sources, None, budget)
    requires Fits(Bins(sources, None, budget), budget)
    ensures KeepsPromise(plan, Usable(sources), budget)
  {
    ShardLoads(sources, None, budget, plan);
    forall other | Arranges(other, Usable(sources)) && Fits(other, budget) ensures |other| >= plan.shardCount {
      NoFewerBins(sources, budget, other);
    }
  }

  lemma PromisedIsFitting(sources: seq<SourceSize>, budget: int, plan: Plan)
    requires Usable(sources) != [] && plan == PlanOf(sources, None, budget)
    requires KeepsPromise(plan, Usable(sources), budget)
    ensures Fits(Bins(sources, None, budget), budget) && plan.warnings == []
  {
    var bins := Bins(sources, None, budget);
    ShardLoads(sources, None, budget, plan);
    forall b | 0 <= b < |bins| ensures Load(bins[b]) <= budget { assert plan.shards[b].nodes <= budget; }
    SilentWhenFits(sources, None, budget, plan);
  }

  // ----- enough -----

  lemma ScaleDown(m: nat, load: nat, budget: int)
    requires m >= 1 && m * load <= m * budget
    ensures load <= budget
  {
  }

  lemma Within(m: nat, before: nat, p: nat, load: nat, largest: nat, budget: int)
    requires m >= 1 && m * before + p <= load && p <= largest && load + (m - 1) * largest <= m * budget
    ensures before + p <= budget
  {
    ScaleLe(m - 1, p, largest);
    assert m * (before + p) == m * before + (m - 1) * p + p;
    ScaleDown(m, before + p, budget);
  }

  lemma LoadAppend(bin: seq<SourceSize>, s: SourceSize)
    ensures Load(bin + [s]) == Load(bin) + Nodes(s)
  {
    assert (bin + [s])[..|bin|] == bin;
  }

  /** A bin that holds anything: what it held before its last source and that source, both out of all. */
  lemma LastOf(ordered: seq<SourceSize>, m: nat, i: nat) returns (n: nat, before: nat)
    requires i < m
    ensures n >= |ordered| ==> Load(Pack(ordered, m)[i]) == 0
    ensures n < |ordered| ==>
      && IsSmallest(Pack(ordered[..n], m), i)
      && Load(Pack(ordered, m)[i]) == before + Nodes(ordered[n]) && before == Load(Pack(ordered[..n], m)[i])
      && m * before + Nodes(ordered[n]) <= Load(ordered)
  {
    before := 0;
    n := LastPlaced(ordered, m, i);
    if n < |ordered| {
      before := Load(Pack(ordered[..n], m)[i]);
      AveragingBound(ordered, m, i, n);
      LoadAppend(Pack(ordered[..n], m)[i], ordered[n]);
    }
  }

  lemma PackedWithin(ordered: seq<SourceSize>, m: nat, largest: nat, budget: int, i: nat)
    requires i < m && Load(ordered) + (m - 1) * largest <= m * budget
    requires forall k :: 0 <= k < |ordered| ==> Nodes(ordered[k]) <= largest
    ensures Load(Pack(ordered, m)[i]) <= budget
  {
    var n, before := LastOf(ordered, m, i);
    if n < |ordered| {
      Within(m, before, Nodes(ordered[n]), Load(ordered), largest, budget);
    } else {
      Within(m, 0, 0, Load(ordered), largest, budget);
    }
  }

  lemma SortedKeeps(usable: seq<SourceSize>, ordered: seq<SourceSize>, k: nat) returns (i: nat)
    requires ordered == Sorted(usable) && k < |ordered|
    ensures |ordered| == |usable| && i < |usable| && usable[i] == ordered[k]
  {
    SortedOrders(usable);
    assert |ordered| == |multiset(ordered)| == |usable|;
    assert ordered[k] in multiset(ordered);
    i :| 0 <= i < |usable| && usable[i] == ordered[k];
  }

  lemma SortedLoad(usable: seq<SourceSize>)
    ensures Load(Sorted(usable)) == Load(usable) && |Sorted(usable)| == |usable|
  {
    SortedOrders(usable);
    SumPermutation(Nodes, Sorted(usable), usable);
    assert |multiset(Sorted(usable))| == |multiset(usable)|;
  }

  lemma RoomInEach(usable: seq<SourceSize>, m: nat, largest: nat, budget: int)
    requires forall k :: 0 <= k < |usable| ==> Nodes(usable[k]) <= largest
    requires m >= 1 && Load(usable) + (m - 1) * largest <= m * budget
    ensures Fits(Pack(Sorted(usable), m), budget)
  {
    var ordered := Sorted(usable);
    SortedLoad(usable);
    forall k | 0 <= k < |ordered| ensures Nodes(ordered[k]) <= largest { var i := SortedKeeps(usable, ordered, k); }
    forall i | 0 <= i < m ensures Load(Pack(ordered, m)[i]) <= budget {
      PackedWithin(ordered, m, largest, budget, i);
    }
  }

  /** The promise is kept whenever the budget leaves each shard room for the average and, but for an m-th of
    * it, the largest source: no packing has to be tried to see it. */
  lemma RoomForLargestIsEnough(sources: seq<SourceSize>, budget: int, largest: nat)
    requires Usable(sources) != []
    requires forall k :: 0 <= k < |Usable(sources)| ==> Nodes(Usable(sources)[k]) <= largest
    requires var m := ShardCount(Usable(sources), None, budget);
      Load(Usable(sources)) + (m - 1) * largest <= m * budget
    ensures KeepsPromise(PlanOf(sources, None, budget), Usable(sources), budget)
    ensures PlanOf(sources, None, budget).warnings == []
  {
    RoomInEach(Usable(sources), ShardCount(Usable(sources), None, budget), largest, budget);
    FittingIsPromised(sources, budget, PlanOf(sources, None, budget));
    PromisedIsFitting(sources, budget, PlanOf(sources, None, budget));
  }

  lemma SlackSuffices(m: nat, load: nat, cap: nat, budget: int)
    requires m >= 1 && 3 * (m * load) + cap <= 4 * (m * cap) && 4 * (m * cap) <= 3 * (m * budget) + cap
    ensures load <= budget
  {
    ScaleDown(m, load, budget);
  }

  lemma SlackInEach(usable: seq<SourceSize>, m: nat, other: seq<seq<SourceSize>>, cap: nat, budget: int)
    requires m >= 1 && |other| == m && Arranges(other, usable) && Fits(other, cap)
    requires 4 * (m * cap) <= 3 * (m * budget) + cap
    ensures Fits(Pack(Sorted(usable), m), budget)
  {
    SortedOrders(usable);
    forall i | 0 <= i < m ensures Load(Pack(Sorted(usable), m)[i]) <= budget {
      LargestFirstBound(Sorted(usable), m, other, cap, i);
      SlackSuffices(m, Load(Pack(Sorted(usable), m)[i]), cap, budget);
    }
  }

  /** It is also kept whenever some arrangement into as many bins stays within 3m / (4m - 1) of the budget,
    * three quarters and a little more. */
  lemma QuarterOfSlackIsEnough(sources: seq<SourceSize>, budget: int, other: seq<seq<SourceSize>>, cap: nat)
    requires Usable(sources) != [] && |other| == ShardCount(Usable(sources), None, budget)
    requires Arranges(other, Usable(sources)) && Fits(other, cap)
    requires 4 * (|other| * cap) <= 3 * (|other| * budget) + cap
    ensures KeepsPromise(PlanOf(sources, None, budget), Usable(sources), budget)
  {
    SlackInEach(Usable(sources), |other|, other, cap, budget);
    FittingIsPromised(sources, budget, PlanOf(sources, None, budget));
  }

  // ----- needed -----

  function AtLeast(p: nat): SourceSize -> nat { s => if Nodes(s) >= p then 1 else 0 }

  lemma {:induction false} BigLoad(bin: seq<SourceSize>, p: nat)
    ensures Load(bin) >= Sum(AtLeast(p), bin) * p
  {
    if bin != [] {
      var n := |bin| - 1;
      BigLoad(bin[..n], p);
      BigOrNot(Sum(AtLeast(p), bin[..n]), bin[n], p);
    }
  }

  lemma BigOrNot(count: nat, s: SourceSize, p: nat)
    ensures (count + AtLeast(p)(s)) * p <= count * p + Nodes(s)
  {
    if Nodes(s) >= p { assert (count + 1) * p == count * p + p; }
  }

  lemma {:induction false} AllBig(s: seq<SourceSize>, p: nat)
    requires forall i :: 0 <= i < |s| ==> Nodes(s[i]) >= p
    ensures Sum(AtLeast(p), s) == |s|
  {
    if s != [] { AllBig(s[..|s| - 1], p); }
  }

  /** The largest come first. */
  lemma OrderedNodes(ordered: seq<SourceSize>, i: nat, j: nat)
    requires Ordered(ordered) && i <= j < |ordered|
    ensures Nodes(ordered[i]) >= Nodes(ordered[j])
  {
    if i < j { assert KeyLe(ordered[i], ordered[j]); }
  }

  lemma {:induction false} SomeBinHasMore(bins: seq<seq<SourceSize>>, p: nat, k: nat) returns (b: nat)
    requires Sum(AtLeast(p), Flatten(bins)) > |bins| * k
    ensures b < |bins| && Sum(AtLeast(p), bins[b]) > k
  {
    b := 0;
    while b < |bins| && Sum(AtLeast(p), bins[b]) <= k
      invariant b <= |bins| && forall a :: 0 <= a < b ==> Sum(AtLeast(p), bins[a]) <= k
    {
      b := b + 1;
    }
    if b == |bins| { BinsAtMost(AtLeast(p), bins, k); }
  }

  /** The first sources in order are at least as large as a later one. */
  lemma BigOnes(ordered: seq<SourceSize>, at: nat)
    requires Ordered(ordered) && at < |ordered|
    ensures Sum(AtLeast(Nodes(ordered[at])), ordered) > at
  {
    var p, front := Nodes(ordered[at]), ordered[..at + 1];
    forall i | 0 <= i < |front| ensures Nodes(front[i]) >= p { OrderedNodes(ordered, i, at); }
    AllBig(front, p);
    assert ordered == front + ordered[at + 1..];
    SumConcat(AtLeast(p), front, ordered[at + 1..]);
  }

  /** Whatever the arrangement into m bins within the budget: of the k·m + 1 largest sources some bin holds
    * k + 1, so that many times the smallest of them fits. */
  lemma FittingNeeds(usable: seq<SourceSize>, other: seq<seq<SourceSize>>, budget: int, k: nat, at: nat)
    requires Arranges(other, usable) && Fits(other, budget) && at == |other| * k && at < |Sorted(usable)|
    ensures (k + 1) * Nodes(Sorted(usable)[at]) <= budget
  {
    var ordered := Sorted(usable);
    var p := Nodes(ordered[at]);
    SortedOrders(usable);
    BigOnes(ordered, at);
    SumPermutation(AtLeast(p), ordered, Flatten(other));
    var b := SomeBinHasMore(other, p, k);
    BigLoad(other[b], p);
    ScaleLe(p, k + 1, Sum(AtLeast(p), other[b]));
  }

  /** So the automatic count m keeps its promise only if k + 1 sources as large as the one at k·m, counted
    * from the largest, fit the budget: for every k, with k = 0 the largest itself. */
  lemma PromiseNeeds(sources: seq<SourceSize>, budget: int, k: nat, at: nat)
    requires Usable(sources) != [] && KeepsPromise(PlanOf(sources, None, budget), Usable(sources), budget)
    requires at == ShardCount(Usable(sources), None, budget) * k && at < |Sorted(Usable(sources))|
    ensures (k + 1) * Nodes(Sorted(Usable(sources))[at]) <= budget
  {
    PromisedIsFitting(sources, budget, PlanOf(sources, None, budget));
    BinsArrangeUsable(sources, None, budget);
    FittingNeeds(Usable(sources), Bins(sources, None, budget), budget, k, at);
  }

  // ----- exactly, for sources of one size -----

  lemma {:induction false} EqualLoad(s: seq<SourceSize>, p: nat)
    requires forall i :: 0 <= i < |s| ==> Nodes(s[i]) == p
    ensures Load(s) == |s| * p
  {
    if s != [] { EqualLoad(s[..|s| - 1], p); }
  }

  lemma CountFromLoad(m: nat, before: nat, n: nat, p: nat, most: nat)
    requires p >= 1 && m * (before * p) + p <= n * p && n <= most * m
    ensures before + 1 <= most
  {
    assert (m * before + 1) * p <= n * p;
    if m * before + 1 > n { ScaleLe(p, n + 1, m * before + 1); }
    if before >= most { ScaleLe(m, most, before); }
  }

  lemma PackedEqual(ordered: seq<SourceSize>, m: nat, p: nat, i: nat)
    requires i < m && forall k :: 0 <= k < |ordered| ==> Nodes(ordered[k]) == p
    ensures Load(Pack(ordered, m)[i]) == |Pack(ordered, m)[i]| * p
  {
    var bins := Pack(ordered, m);
    PackConserves(ordered, m);
    forall k | 0 <= k < |bins[i]| ensures Nodes(bins[i][k]) == p {
      InFlatten(bins, i, k);
      assert bins[i][k] in multiset(Flatten(bins));
      var j :| 0 <= j < |ordered| && ordered[j] == bins[i][k];
    }
    EqualLoad(bins[i], p);
  }

  lemma OneMore(count: nat, most: nat, p: nat)
    requires count + 1 <= most
    ensures count * p + p <= most * p
  {
    ScaleLe(p, count + 1, most);
  }

  lemma CountBeforeLast(ordered: seq<SourceSize>, m: nat, p: nat, i: nat, n: nat, most: nat) returns (count: nat)
    requires i < m && p > 0 && forall k :: 0 <= k < |ordered| ==> Nodes(ordered[k]) == p
    requires n < |ordered| <= most * m
    requires m * Load(Pack(ordered[..n], m)[i]) + p <= Load(ordered)
    ensures Load(Pack(ordered[..n], m)[i]) == count * p && count + 1 <= most
  {
    count := |Pack(ordered[..n], m)[i]|;
    EqualLoad(ordered, p);
    PackedEqual(ordered[..n], m, p, i);
    CountFromLoad(m, count, |ordered|, p, most);
  }

  lemma FullestOfEqual(ordered: seq<SourceSize>, m: nat, p: nat, i: nat, most: nat)
    requires i < m && p > 0 && forall k :: 0 <= k < |ordered| ==> Nodes(ordered[k]) == p
    requires |ordered| <= most * m
    ensures Load(Pack(ordered, m)[i]) <= most * p
  {
    var n, before := LastOf(ordered, m, i);
    if n < |ordered| {
      var count := CountBeforeLast(ordered, m, p, i, n, most);
      OneMore(count, most, p);
    }
  }

  lemma EqualNeed(usable: seq<SourceSize>, bins: seq<seq<SourceSize>>, budget: int, p: nat, k: nat, at: nat)
    requires forall i :: 0 <= i < |usable| ==> Nodes(usable[i]) == p
    requires Arranges(bins, usable) && Fits(bins, budget) && at == |bins| * k && at < |usable|
    ensures (k + 1) * p <= budget
  {
    SortedLoad(usable);
    FittingNeeds(usable, bins, budget, k, at);
    var i := SortedKeeps(usable, Sorted(usable), at);
  }

  lemma EqualFits(usable: seq<SourceSize>, m: nat, budget: int, p: nat, most: nat)
    requires m >= 1 && p > 0 && forall k :: 0 <= k < |usable| ==> Nodes(usable[k]) == p
    requires |usable| <= most * m && most * p <= budget
    ensures Fits(Pack(Sorted(usable), m), budget)
  {
    var ordered := Sorted(usable);
    SortedLoad(usable);
    forall k | 0 <= k < |ordered| ensures Nodes(ordered[k]) == p { var i := SortedKeeps(usable, ordered, k); }
    forall i | 0 <= i < m ensures Load(Pack(ordered, m)[i]) <= budget { FullestOfEqual(ordered, m, p, i, most); }
  }

  lemma CeilBounds(n: nat, m: nat, most: nat) returns (k: nat, at: nat)
    requires n >= 1 && m >= 1 && most == CeilDiv(n, m)
    ensures most == k + 1 && at == m * k && at < n <= most * m
  {
    CeilDivLeast(n, m, 0);
    k := most - 1;
    CeilDivLeast(n, m, k);
    at := m * k;
  }

  lemma EqualPromise(sources: seq<SourceSize>, budget: int, p: nat, m: nat, k: nat, at: nat)
    requires Usable(sources) != [] && forall i :: 0 <= i < |Usable(sources)| ==> Nodes(Usable(sources)[i]) == p
    requires m == ShardCount(Usable(sources), None, budget) && at == m * k && at < |Usable(sources)| <= (k + 1) * m
    ensures KeepsPromise(PlanOf(sources, None, budget), Usable(sources), budget) <==> (k + 1) * p <= budget
  {
    UsableHaveFiles(sources);
    if (k + 1) * p <= budget {
      EqualFits(Usable(sources), m, budget, p, k + 1);
      FittingIsPromised(sources, budget, PlanOf(sources, None, budget));
    } else if KeepsPromise(PlanOf(sources, None, budget), Usable(sources), budget) {
      PromisedIsFitting(sources, budget, PlanOf(sources, None, budget));
      BinsArrangeUsable(sources, None, budget);
      EqualNeed(Usable(sources), Bins(sources, None, budget), budget, p, k, at);
    }
  }

  /** For sources of one size the promise is kept exactly when the largest number of them a shard must take,
    * n / m rounded up, is within the budget. */
  lemma EqualSourcesExactly(sources: seq<SourceSize>, budget: int, p: nat)
    requires Usable(sources) != [] && forall k :: 0 <= k < |Usable(sources)| ==> Nodes(Usable(sources)[k]) == p
    ensures var n, m := |Usable(sources)|, ShardCount(Usable(sources), None, budget);
      KeepsPromise(PlanOf(sources, None, budget), Usable(sources), budget) <==> CeilDiv(n, m) * p <= budget
  {
    var n, m := |Usable(sources)|, ShardCount(Usable(sources), None, budget);
    var k, at := CeilBounds(n, m, CeilDiv(n, m));
    EqualPromise(sources, budget, p, m, k, at);
  }

  // ----- exactly, for as many shards as sources -----

  lemma SmallestHoldsNothing(placed: seq<SourceSize>, m: nat, i: nat)
    requires |placed| < m && IsSmallest(Pack(placed, m), i)
    requires forall k :: 0 <= k < |placed| ==> placed[k].files > 0
    ensures Load(Pack(placed, m)[i]) == 0
  {
    var bins := Pack(placed, m);
    PackFillsEmptyBins(placed, m);
    CountEmptyZero(bins);
    var b :| 0 <= b < m && bins[b] == [];
    assert Load(bins[i]) <= Load(bins[b]) == 0;
  }

  /** As long as a bin is empty, a source goes into one. */
  lemma AloneInItsBin(ordered: seq<SourceSize>, m: nat, i: nat, budget: nat)
    requires i < m && |ordered| <= m
    requires forall k :: 0 <= k < |ordered| ==> ordered[k].files > 0 && Nodes(ordered[k]) <= budget
    ensures Load(Pack(ordered, m)[i]) <= budget
  {
    var n, before := LastOf(ordered, m, i);
    if n < |ordered| {
      SmallestHoldsNothing(ordered[..n], m, i);
    }
  }

  lemma EachFits(usable: seq<SourceSize>, m: nat, budget: nat)
    requires m >= 1 && |usable| <= m
    requires forall k :: 0 <= k < |usable| ==> usable[k].files > 0 && Nodes(usable[k]) <= budget
    ensures Fits(Pack(Sorted(usable), m), budget)
  {
    var ordered := Sorted(usable);
    SortedLoad(usable);
    forall k | 0 <= k < |ordered| ensures ordered[k].files > 0 && Nodes(ordered[k]) <= budget {
      var i := SortedKeeps(usable, ordered, k);
    }
    forall i | 0 <= i < m ensures Load(Pack(ordered, m)[i]) <= budget { AloneInItsBin(ordered, m, i, budget); }
  }

  lemma LargestMustFit(usable: seq<SourceSize>, bins: seq<seq<SourceSize>>, budget: int, k: nat)
    requires Arranges(bins, usable) && Fits(bins, budget) && k < |usable|
    ensures Nodes(usable[k]) <= budget
  {
    assert usable[k] in multiset(usable);
    var b, i := FindInFlatten(bins, usable[k]);
    ElementAtMostSum(Nodes, bins[b], i);
  }

  /** When the count is the number of sources, the promise is kept exactly when each fits alone. */
  lemma OneEachExactly(sources: seq<SourceSize>, budget: int)
    requires Usable(sources) != [] && ShardCount(Usable(sources), None, budget) == |Usable(sources)|
    ensures KeepsPromise(PlanOf(sources, None, budget), Usable(sources), budget) <==>
      forall k :: 0 <= k < |Usable(sources)| ==> Nodes(Usable(sources)[k]) <= budget
  {
    var usable := Usable(sources);
    UsableHaveFiles(sources);
    if forall k :: 0 <= k < |usable| ==> Nodes(usable[k]) <= budget {
      assert Nodes(usable[0]) <= budget;
      EachFits(usable, |usable|, budget);
      FittingIsPromised(sources, budget, PlanOf(sources, None, budget));
    }
    if KeepsPromise(PlanOf(sources, None, budget), usable, budget) {
      PromisedIsFitting(sources, budget, PlanOf(sources, None, budget));
      BinsArrangeUsable(sources, None, budget);
      forall k | 0 <= k < |usable| ensures Nodes(usable[k]) <= budget {
        LargestMustFit(usable, Bins(sources, None, budget), budget, k);
      }
    }
  }
}
