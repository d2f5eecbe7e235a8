/** The planner as it runs: shard objects filled in a loop, and the files a split needs
  * (src/pheasant/sharding.py). */
module ShardPlanner {
  import opened Options
  import opened Sums
  import opened Sharding
  import opened ShardPlan

  class Shard {
    const index: nat
    var sources: seq<SourceSize>

    constructor (index: nat)
      ensures this.index == index && sources == []
    {
      this.index := index;
      sources := [];
    }
  }

  /** What a row of shards holds. */
  function Held(bins: seq<Shard>): (held: seq<seq<SourceSize>>)
    reads bins
    ensures |held| == |bins| && forall i :: 0 <= i < |bins| ==> held[i] == bins[i].sources
  {
    seq(|bins|, i requires 0 <= i < |bins| reads bins => bins[i].sources)
  }

  ghost predicate Distinct(bins: seq<Shard>) {
    forall i, j :: 0 <= i < j < |bins| ==> bins[i] != bins[j]
  }

  method FindSmallest(bins: seq<Shard>) returns (j: nat)
    requires bins != []
    ensures IsSmallest(Held(bins), j)
  {
    j := 0;
    for k := 1 to |bins|
      invariant j < k
      invariant forall b :: 0 <= b < k ==> Load(bins[j].sources) <= Load(bins[b].sources)
      invariant forall b :: 0 <= b < j ==> Load(bins[j].sources) < Load(bins[b].sources)
    {
      if Load(bins[k].sources) < Load(bins[j].sources) {
        j := k;
      }
    }
  }

  method OpenShards(m: nat) returns (bins: seq<Shard>)
    ensures fresh(bins) && |bins| == m && Distinct(bins)
    ensures forall i :: 0 <= i < m ==> bins[i].index == i + 1 && bins[i].sources == []
  {
    bins := [];
    while |bins| < m
      invariant |bins| <= m && fresh(bins) && Distinct(bins)
      invariant forall i :: 0 <= i < |bins| ==> bins[i].index == i + 1 && bins[i].sources == []
    {
      var shard := new Shard(|bins| + 1);
      bins := bins + [shard];
    }
  }

  /** The packing loop fills the shards in place exactly as `Pack` says. */
  method FillShards(bins: seq<Shard>, ordered: seq<SourceSize>)
    requires bins != [] && Distinct(bins)
    requires forall i :: 0 <= i < |bins| ==> bins[i].sources == []
    modifies bins
    ensures Held(bins) == Pack(ordered, |bins|)
  {
    var m := |bins|;
    assert Held(bins) == Empties(m);
    assert ordered[..0] == [];
    for k := 0 to |ordered|
      invariant Held(bins) == Pack(ordered[..k], m)
    {
      var j := FindSmallest(bins);
      ghost var before := Held(bins);
      var shard := bins[j];
      shard.sources := shard.sources + [ordered[k]];
      assert Held(bins) == before[j := before[j] + [ordered[k]]];
      assert ordered[..k + 1][..k] == ordered[..k];
    }
    assert ordered[..|ordered|] == ordered;
  }

  method CollectWarnings(bins: seq<Shard>, budget: int, usable: nat) returns (warnings: seq<Warning>)
    requires forall i :: 0 <= i < |bins| ==> bins[i].index == i + 1 && bins[i].sources != []
    ensures warnings == OverBudgets(Held(bins), budget) + EmptyWarning(Held(bins), usable)
  {
    var held := Held(bins);
    warnings := [];
    assert held[..0] == [];
    for k := 0 to |bins|
      invariant warnings == OverBudgets(held[..k], budget)
    {
      assert held[..k + 1][..k] == held[..k];
      var load := Load(bins[k].sources);
      if load > budget {
        var biggest := Biggest(bins[k].sources);
        warnings := warnings + [OverBudget(bins[k].index, load, biggest.name, Nodes(biggest))];
      }
    }
    assert held[..|bins|] == held;
    var empty := EmptyIndices(held);
    if empty != [] {
      warnings := warnings + [EmptyShards(empty, usable)];
    }
  }

  /** `plan_shards`: the in-place planner computes the plan that the properties are about. */
  method PlanShards(sources: seq<SourceSize>, shards: Option<int>, budget: int) returns (plan: Plan)
    ensures plan == PlanOf(sources, shards, budget)
  {
    var usable := Usable(sources);
    if usable == [] {
      return NothingToPlan;
    }
    var m := ShardCount(usable, shards, budget);
    var bins := PackShards(Sorted(usable), m);
    PlanIs(sources, shards, budget, Held(bins));
    plan := Summarize(bins, usable, budget);
  }

  method Summarize(bins: seq<Shard>, usable: seq<SourceSize>, budget: int) returns (plan: Plan)
    requires NoneEmpty(Held(bins)) && forall i :: 0 <= i < |bins| ==> bins[i].index == i + 1
    ensures plan == Summary(Held(bins), usable, budget)
  {
    AllFilled(bins);
    var warnings := CollectWarnings(bins, budget, |usable|);
    plan := Plan(Sum(Files, usable), Load(usable), |bins|, budget, Infos(Held(bins)), warnings);
  }

  method PackShards(ordered: seq<SourceSize>, m: nat) returns (bins: seq<Shard>)
    requires m >= 1
    ensures |bins| == m && Held(bins) == Pack(ordered, m)
    ensures forall i :: 0 <= i < m ==> bins[i].index == i + 1
  {
    bins := OpenShards(m);
    FillShards(bins, ordered);
  }

  lemma PlanIs(sources: seq<SourceSize>, shards: Option<int>, budget: int, bins: seq<seq<SourceSize>>)
    requires Usable(sources) != [] && bins == Bins(sources, shards, budget)
    ensures NoneEmpty(bins)
    ensures PlanOf(sources, shards, budget) == Summary(bins, Usable(sources), budget)
  {
    NoBinIsEmpty(sources, shards, budget);
  }

  lemma AllFilled(bins: seq<Shard>)
    requires NoneEmpty(Held(bins))
    ensures forall i :: 0 <= i < |bins| ==> bins[i].sources != []
  {
    forall i | 0 <= i < |bins| ensures bins[i].sources != [] { assert Held(bins)[i] == bins[i].sources; }
  }
}
