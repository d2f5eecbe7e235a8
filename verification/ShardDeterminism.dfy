/** The order in which the sources are listed never changes the plan (src/pheasant/sharding.py). */
module ShardDeterminism {
  import opened Lists
  import opened Options
  import opened Sums
  import opened Sharding
  import opened ShardPlan

  /** What the planner can see of a source. */
  function Key(s: SourceSize): SourceSize { s.(bytes := 0) }

  ghost predicate SameKeys(a: seq<SourceSize>, b: seq<SourceSize>) {
    |a| == |b| && forall i :: 0 <= i < |a| ==> Key(a[i]) == Key(b[i])
  }

  ghost predicate SameBins(a: seq<seq<SourceSize>>, b: seq<seq<SourceSize>>) {
    |a| == |b| && forall i :: 0 <= i < |a| ==> SameKeys(a[i], b[i])
  }

  lemma WithoutLast(s: seq<SourceSize>, last: SourceSize)
    requires Ordered(s) && s != [] && s[|s| - 1] == last
    ensures Ordered(s[..|s| - 1]) && multiset(s[..|s| - 1]) == multiset(s) - multiset{last}
  {
    assert s == s[..|s| - 1] + [last];
    assert forall i :: 0 <= i < |s| - 1 ==> s[..|s| - 1][i] == s[i];
  }

  /** An order has only one ordered arrangement of the same keys. */
  lemma {:induction false} OrderedUnique(a: seq<SourceSize>, b: seq<SourceSize>)
    requires Ordered(a) && Ordered(b) && multiset(a) == multiset(b)
    requires forall i :: 0 <= i < |a| ==> a[i] == Key(a[i])
    ensures a == b
  {
    assert |a| == |multiset(a)| == |multiset(b)| == |b|;
    if a != [] {
      var n := |a| - 1;
      LastAgrees(a, b);
      WithoutLast(a, a[n]);
      WithoutLast(b, a[n]);
      OrderedUnique(a[..n], b[..n]);
      InitLast(a);
      InitLast(b);
    }
  }

  lemma LastAgrees(a: seq<SourceSize>, b: seq<SourceSize>)
    requires Ordered(a) && Ordered(b) && multiset(a) == multiset(b)
    requires |a| == |b| > 0
    requires forall i :: 0 <= i < |a| ==> a[i] == Key(a[i])
    ensures a[|a| - 1] == b[|a| - 1]
  {
    var n := |a| - 1;
    assert a[n] in multiset(b) && b[n] in multiset(a);
    var i :| 0 <= i <= n && b[i] == a[n];
    var j :| 0 <= j <= n && a[j] == b[n];
    if j < n && i < n {
      KeyLeTotal(a[n], b[n]);
      assert a[j] == Key(a[j]) && a[n] == Key(a[n]);
    }
  }

  lemma KeysOrdered(s: seq<SourceSize>)
    requires Ordered(s)
    ensures Ordered(Map(Key, s))
  {
  }

  lemma SortedSameKeys(a: seq<SourceSize>, b: seq<SourceSize>)
    requires multiset(a) == multiset(b)
    ensures SameKeys(Sorted(a), Sorted(b))
  {
    SortedOrders(a);
    SortedOrders(b);
    MapPermutation(Key, Sorted(a), Sorted(b));
    KeysOrdered(Sorted(a));
    KeysOrdered(Sorted(b));
    OrderedUnique(Map(Key, Sorted(a)), Map(Key, Sorted(b)));
    var ka, kb := Map(Key, Sorted(a)), Map(Key, Sorted(b));
    forall i | 0 <= i < |ka| ensures Key(Sorted(a)[i]) == Key(Sorted(b)[i]) {
      assert ka[i] == kb[i];
    }
  }

  lemma {:induction false} SameKeysSameSums(a: seq<SourceSize>, b: seq<SourceSize>)
    requires SameKeys(a, b)
    ensures Load(a) == Load(b) && Sum(Files, a) == Sum(Files, b)
  {
    if a != [] {
      SameKeysSameSums(a[..|a| - 1], b[..|b| - 1]);
      assert Key(a[|a| - 1]) == Key(b[|b| - 1]);
    }
  }

  lemma SameBinsSameSmallest(a: seq<seq<SourceSize>>, b: seq<seq<SourceSize>>)
    requires SameBins(a, b) && a != []
    ensures Smallest(a) == Smallest(b)
  {
    forall i | 0 <= i < |a| ensures Load(a[i]) == Load(b[i]) { SameKeysSameSums(a[i], b[i]); }
  }

  lemma {:induction false} SameKeysSamePack(a: seq<SourceSize>, b: seq<SourceSize>, m: nat)
    requires SameKeys(a, b) && m >= 1
    ensures SameBins(Pack(a, m), Pack(b, m))
  {
    if a != [] {
      var n := |a| - 1;
      SameKeysSamePack(a[..n], b[..n], m);
      SameBinsSameSmallest(Pack(a[..n], m), Pack(b[..n], m));
      assert Key(a[n]) == Key(b[n]);
    }
  }

  lemma {:induction false} SameKeysSameBiggest(a: seq<SourceSize>, b: seq<SourceSize>)
    requires SameKeys(a, b) && a != []
    ensures Key(Biggest(a)) == Key(Biggest(b))
  {
    var n := |a| - 1;
    assert Key(a[n]) == Key(b[n]);
    if n > 0 { SameKeysSameBiggest(a[..n], b[..n]); }
  }

  lemma SameKeysSameDescription(a: seq<SourceSize>, b: seq<SourceSize>, index: nat)
    requires SameKeys(a, b)
    ensures Describe(index, a) == Describe(index, b)
  {
    SameKeysSameSums(a, b);
    forall i | 0 <= i < |a| ensures a[i].name == b[i].name { assert Key(a[i]) == Key(b[i]); }
    assert Map(NameOf, a) == Map(NameOf, b);
  }

  lemma {:induction false} SameBinsSameReport(a: seq<seq<SourceSize>>, b: seq<seq<SourceSize>>, budget: int)
    requires SameBins(a, b) && forall i :: 0 <= i < |a| ==> a[i] != [] && b[i] != []
    ensures Infos(a) == Infos(b)
    ensures OverBudgets(a, budget) == OverBudgets(b, budget)
    ensures EmptyIndices(a) == EmptyIndices(b)
  {
    if a != [] {
      var n := |a| - 1;
      SameBinsSameReport(a[..n], b[..n], budget);
      SameKeysSameDescription(a[n], b[n], n + 1);
      SameKeysSameBiggest(a[n], b[n]);
    }
  }

  /** Keeping the sources with files keeps as many copies of each. */
  lemma {:induction false} UsableCounts(s: seq<SourceSize>, x: SourceSize)
    ensures multiset(Usable(s))[x] == if x.files > 0 then multiset(s)[x] else 0
  {
    if s != [] {
      UsableCounts(s[..|s| - 1], x);
      assert s == s[..|s| - 1] + [s[|s| - 1]];
    }
  }

  lemma UsablePermuted(a: seq<SourceSize>, b: seq<SourceSize>)
    requires multiset(a) == multiset(b)
    ensures multiset(Usable(a)) == multiset(Usable(b)) && |Usable(a)| == |Usable(b)|
  {
    var ua, ub := Usable(a), Usable(b);
    forall x ensures multiset(ua)[x] == multiset(ub)[x] { UsableCounts(a, x); UsableCounts(b, x); }
    assert multiset(ua) == multiset(ub);
    assert |ua| == |multiset(ua)| == |multiset(ub)| == |ub|;
  }

  /** Reordered sources are packed into bins that look the same, as many of them. */
  lemma ReorderedSameBins(a: seq<SourceSize>, b: seq<SourceSize>, shards: Option<int>, budget: int)
    requires Usable(a) != [] && Usable(b) != []
    requires multiset(Usable(a)) == multiset(Usable(b)) && |Usable(a)| == |Usable(b)|
    ensures SameBins(Bins(a, shards, budget), Bins(b, shards, budget))
  {
    var ua, ub := Usable(a), Usable(b);
    SumPermutation(Nodes, ua, ub);
    assert ShardCount(ua, shards, budget) == ShardCount(ub, shards, budget);
    SortedSameKeys(ua, ub);
    SameKeysSamePack(Sorted(ua), Sorted(ub), ShardCount(ua, shards, budget));
  }

  lemma SameBinsSameSummary(a: seq<seq<SourceSize>>, b: seq<seq<SourceSize>>, ua: seq<SourceSize>, ub: seq<SourceSize>,
      budget: int)
    requires SameBins(a, b) && NoneEmpty(a) && NoneEmpty(b)
    requires multiset(ua) == multiset(ub) && |ua| == |ub|
    ensures Summary(a, ua, budget) == Summary(b, ub, budget)
  {
    SumPermutation(Nodes, ua, ub);
    SumPermutation(Files, ua, ub);
    SameBinsSameReport(a, b, budget);
  }

  /** Every reordering of the listed sources gets the whole same plan: the same shards with the same
    * sources in the same order, the same totals and the same warnings, ties and repeated names allowed. */
  lemma PlanIgnoresListingOrder(a: seq<SourceSize>, b: seq<SourceSize>, shards: Option<int>, budget: int)
    requires multiset(a) == multiset(b)
    ensures PlanOf(a, shards, budget) == PlanOf(b, shards, budget)
  {
    UsablePermuted(a, b);
    if Usable(a) != [] {
      NoBinIsEmpty(a, shards, budget);
      NoBinIsEmpty(b, shards, budget);
      ReorderedSameBins(a, b, shards, budget);
      SameBinsSameSummary(Bins(a, shards, budget), Bins(b, shards, budget), Usable(a), Usable(b), budget);
    }
  }
}
