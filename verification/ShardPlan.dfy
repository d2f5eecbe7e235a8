/** The plan `pheasant shard plan` prints, and what it promises (src/pheasant/sharding.py). */
module ShardPlan {
  import opened Options
  import opened Sums
  import opened Sharding

  datatype Warning =
    | OverBudget(shard: nat, nodes: nat, biggest: string, biggestNodes: nat)
    | EmptyShards(shards: seq<nat>, sources: nat)

  datatype ShardInfo = ShardInfo(index: nat, names: seq<string>, files: nat, nodes: nat)

  datatype Plan =
    | NothingToPlan
    | Plan(totalFiles: nat, totalNodes: nat, shardCount: nat, budget: int,
           shards: seq<ShardInfo>, warnings: seq<Warning>)

  function NameOf(s: SourceSize): string { s.name }

  function Clamp(budget: int): nat { if budget < 1 then 1 else budget }

  function CeilDiv(a: nat, b: nat): nat
    requires b >= 1
  {
    (a + b - 1) / b
  }

  function ShardCount(usable: seq<SourceSize>, shards: Option<int>, budget: int): (m: nat)
    requires usable != []
    ensures 1 <= m <= |usable|
  {
    var asked := match shards
      case Some(k) => k
      case None => var needed := CeilDiv(Load(usable), Clamp(budget)); if needed < 1 then 1 else needed;
    if asked < 1 then 1 else if asked > |usable| then |usable| else asked
  }

  /** `max(sources, key=files)`: the first with the most files. */
  function Biggest(bin: seq<SourceSize>): (s: SourceSize)
    requires bin != []
    ensures s in bin
  {
    if |bin| == 1 then bin[0]
    else
      var b := Biggest(bin[..|bin| - 1]);
      if bin[|bin| - 1].files > b.files then bin[|bin| - 1] else b
  }

  function Describe(index: nat, bin: seq<SourceSize>): ShardInfo {
    ShardInfo(index, Map(NameOf, bin), Sum(Files, bin), Load(bin))
  }

  function Infos(bins: seq<seq<SourceSize>>): seq<ShardInfo> {
    if bins == [] then []
    else
      var n := |bins| - 1;
      Infos(bins[..n]) + (if bins[n] == [] then [] else [Describe(n + 1, bins[n])])
  }

  function OverBudgets(bins: seq<seq<SourceSize>>, budget: int): seq<Warning>
    requires forall b :: 0 <= b < |bins| ==> bins[b] != []
  {
    if bins == [] then []
    else
      var n := |bins| - 1;
      assert forall b :: 0 <= b < n ==> bins[..n][b] == bins[b];
      OverBudgets(bins[..n], budget) +
      if Load(bins[n]) > budget
      then [OverBudget(n + 1, Load(bins[n]), Biggest(bins[n]).name, Nodes(Biggest(bins[n])))]
      else []
  }

  function EmptyIndices(bins: seq<seq<SourceSize>>): seq<nat> {
    if bins == [] then []
    else
      var n := |bins| - 1;
      EmptyIndices(bins[..n]) + if bins[n] == [] then [n + 1] else []
  }

  function EmptyWarning(bins: seq<seq<SourceSize>>, usable: nat): seq<Warning> {
    if EmptyIndices(bins) == [] then [] else [EmptyShards(EmptyIndices(bins), usable)]
  }

  /** The bins the planner fills. */
  function Bins(sources: seq<SourceSize>, shards: Option<int>, budget: int): (bins: seq<seq<SourceSize>>)
    requires Usable(sources) != []
    ensures |bins| == ShardCount(Usable(sources), shards, budget)
  {
    Pack(Sorted(Usable(sources)), ShardCount(Usable(sources), shards, budget))
  }

  ghost predicate NoneEmpty(bins: seq<seq<SourceSize>>) {
    forall b :: 0 <= b < |bins| ==> bins[b] != []
  }

  /** The plan for filled bins. */
  function Summary(bins: seq<seq<SourceSize>>, usable: seq<SourceSize>, budget: int): Plan
    requires NoneEmpty(bins)
  {
    Plan(Sum(Files, usable), Load(usable), |bins|, budget, Infos(bins),
         OverBudgets(bins, budget) + EmptyWarning(bins, |usable|))
  }

  function PlanOf(sources: seq<SourceSize>, shards: Option<int>, budget: int): Plan {
    var usable := Usable(sources);
    if usable == [] then NothingToPlan
    else
      var bins := Bins(sources, shards, budget);
      NoBinIsEmpty(sources, shards, budget);
      Summary(bins, usable, budget)
  }

  // ----- no bin is ever empty -----

  function CountEmpty(bins: seq<seq<SourceSize>>): nat {
    if bins == [] then 0
    else CountEmpty(bins[..|bins| - 1]) + if bins[|bins| - 1] == [] then 1 else 0
  }

  lemma {:induction false} CountEmptyPlaced(bins: seq<seq<SourceSize>>, j: nat, s: SourceSize)
    requires j < |bins|
    ensures CountEmpty(bins[j := bins[j] + [s]]) == CountEmpty(bins) - if bins[j] == [] then 1 else 0
  {
    var n := |bins| - 1;
    var after := bins[j := bins[j] + [s]];
    if j == n {
      assert after[..n] == bins[..n];
    } else {
      assert after[..n] == bins[..n][j := bins[..n][j] + [s]];
      CountEmptyPlaced(bins[..n], j, s);
    }
  }

  lemma {:induction false} CountEmptyZero(bins: seq<seq<SourceSize>>)
    ensures CountEmpty(bins) == 0 <==> forall b :: 0 <= b < |bins| ==> bins[b] != []
  {
    if bins != [] {
      var n := |bins| - 1;
      CountEmptyZero(bins[..n]);
      assert forall b :: 0 <= b < n ==> bins[..n][b] == bins[b];
    }
  }

  lemma {:induction false} CountEmptyAll(m: nat)
    ensures CountEmpty(Empties(m)) == m
  {
    if m > 0 {
      assert Empties(m)[..m - 1] == Empties(m - 1);
      CountEmptyAll(m - 1);
    }
  }

  lemma PositiveLoad(bin: seq<SourceSize>)
    requires forall i :: 0 <= i < |bin| ==> bin[i].files > 0
    ensures Load(bin) == 0 <==> bin == []
  {
    if bin != [] { ElementAtMostSum(Nodes, bin, 0); }
  }

  /** Each source goes to an empty bin for as long as there is one. */
  lemma {:induction false} PackFillsEmptyBins(ordered: seq<SourceSize>, m: nat)
    requires m >= 1
    requires forall i :: 0 <= i < |ordered| ==> ordered[i].files > 0
    ensures CountEmpty(Pack(ordered, m)) == if |ordered| >= m then 0 else m - |ordered|
  {
    if ordered == [] {
      CountEmptyAll(m);
    } else {
      var n := |ordered| - 1;
      var before := Pack(ordered[..n], m);
      PackFillsEmptyBins(ordered[..n], m);
      CountEmptyPlaced(before, Smallest(before), ordered[n]);
      CountEmptyZero(before);
      if CountEmpty(before) > 0 {
        var b :| 0 <= b < m && before[b] == [];
        SmallestIsEmpty(ordered[..n], m, b);
      }
    }
  }

  lemma SmallestIsEmpty(placed: seq<SourceSize>, m: nat, b: nat)
    requires b < m && Pack(placed, m)[b] == []
    requires forall i :: 0 <= i < |placed| ==> placed[i].files > 0
    ensures Pack(placed, m)[Smallest(Pack(placed, m))] == []
  {
    var bins := Pack(placed, m);
    var j := Smallest(bins);
    assert Load(bins[j]) <= Load(bins[b]);
    PackConserves(placed, m);
    forall i | 0 <= i < |bins[j]| ensures bins[j][i].files > 0 {
      InFlatten(bins, j, i);
      assert bins[j][i] in multiset(Flatten(bins));
      var k :| 0 <= k < |placed| && placed[k] == bins[j][i];
    }
    PositiveLoad(bins[j]);
  }

  lemma {:induction false} UsableHaveFiles(sources: seq<SourceSize>)
    ensures forall i :: 0 <= i < |Usable(sources)| ==> Usable(sources)[i].files > 0
  {
    if sources != [] { UsableHaveFiles(sources[..|sources| - 1]); }
  }

  lemma NoBinIsEmpty(sources: seq<SourceSize>, shards: Option<int>, budget: int)
    requires Usable(sources) != []
    ensures forall b :: 0 <= b < |Bins(sources, shards, budget)| ==> Bins(sources, shards, budget)[b] != []
  {
    var usable := Usable(sources);
    var ordered := Sorted(usable);
    UsableHaveFiles(sources);
    SortedOrders(usable);
    forall i | 0 <= i < |ordered| ensures ordered[i].files > 0 {
      assert ordered[i] in multiset(ordered);
      var k :| 0 <= k < |usable| && usable[k] == ordered[i];
    }
    assert |ordered| == |multiset(ordered)| == |usable|;
    PackFillsEmptyBins(ordered, ShardCount(usable, shards, budget));
    CountEmptyZero(Bins(sources, shards, budget));
  }

  // ----- what a plan says -----

  lemma FilledStep(bins: seq<seq<SourceSize>>)
    requires NoneEmpty(bins) && bins != []
    ensures var n := |bins| - 1;
      && NoneEmpty(bins[..n])
      && Infos(bins) == Infos(bins[..n]) + [Describe(n + 1, bins[n])]
      && EmptyIndices(bins) == EmptyIndices(bins[..n])
  {
    assert forall b :: 0 <= b < |bins| - 1 ==> bins[..|bins| - 1][b] == bins[b];
  }

  lemma {:induction false} FilledCount(bins: seq<seq<SourceSize>>)
    requires NoneEmpty(bins)
    ensures |Infos(bins)| == |bins| && EmptyIndices(bins) == []
  {
    if bins != [] {
      FilledStep(bins);
      FilledCount(bins[..|bins| - 1]);
    }
  }

  lemma {:induction false} InfoAt(bins: seq<seq<SourceSize>>, i: nat)
    requires NoneEmpty(bins) && i < |bins|
    ensures |Infos(bins)| == |bins| && Infos(bins)[i] == Describe(i + 1, bins[i])
  {
    var n := |bins| - 1;
    FilledStep(bins);
    FilledCount(bins[..n]);
    if i < n {
      InfoAt(bins[..n], i);
      assert bins[..n][i] == bins[i];
    }
  }

  lemma InfosOfFilledBins(bins: seq<seq<SourceSize>>)
    requires NoneEmpty(bins)
    ensures |Infos(bins)| == |bins|
    ensures forall i :: 0 <= i < |bins| ==> Infos(bins)[i] == Describe(i + 1, bins[i])
    ensures EmptyIndices(bins) == []
  {
    FilledCount(bins);
    forall i | 0 <= i < |bins| ensures Infos(bins)[i] == Describe(i + 1, bins[i]) { InfoAt(bins, i); }
  }

  ghost predicate Warned(warnings: seq<Warning>, shard: nat) {
    exists k :: 0 <= k < |warnings| && warnings[k].OverBudget? && warnings[k].shard == shard
  }

  /** No source of the bin has more files than the `k`-th, and none before it as many. */
  ghost predicate LargestAt(bin: seq<SourceSize>, k: nat) {
    && k < |bin|
    && (forall j :: 0 <= j < |bin| ==> bin[j].files <= bin[k].files)
    && (forall j :: 0 <= j < k ==> bin[j].files < bin[k].files)
  }

  ghost predicate NamesLargest(w: Warning, bin: seq<SourceSize>) {
    w.OverBudget? && exists k: nat :: LargestAt(bin, k) && w.biggest == bin[k].name && w.biggestNodes == Nodes(bin[k])
  }

  lemma {:induction false} BiggestIsLargest(bin: seq<SourceSize>) returns (k: nat)
    requires bin != []
    ensures LargestAt(bin, k) && Biggest(bin) == bin[k]
  {
    var n := |bin| - 1;
    if n == 0 {
      k := 0;
    } else {
      k := BiggestIsLargest(bin[..n]);
      assert forall j :: 0 <= j < n ==> bin[..n][j] == bin[j];
      if bin[n].files > bin[k].files { k := n; }
    }
  }

  /** Every warning is about a shard over the budget, states its load and names its largest source ... */
  lemma {:induction false} WarningIsTrue(bins: seq<seq<SourceSize>>, budget: int, w: Warning)
    requires NoneEmpty(bins) && w in OverBudgets(bins, budget)
    ensures w.OverBudget? && 1 <= w.shard <= |bins|
    ensures w.nodes == Load(bins[w.shard - 1]) > budget && NamesLargest(w, bins[w.shard - 1])
  {
    var n := |bins| - 1;
    assert forall b :: 0 <= b < n ==> bins[..n][b] == bins[b];
    if w in OverBudgets(bins[..n], budget) {
      WarningIsTrue(bins[..n], budget, w);
    } else {
      var k := BiggestIsLargest(bins[n]);
    }
  }

  /** ... and every shard over the budget has one. */
  lemma {:induction false} OverBudgetIsWarned(bins: seq<seq<SourceSize>>, budget: int, b: nat)
    requires forall b :: 0 <= b < |bins| ==> bins[b] != []
    requires b < |bins| && Load(bins[b]) > budget
    ensures Warned(OverBudgets(bins, budget), b + 1)
  {
    var n := |bins| - 1;
    assert forall b :: 0 <= b < n ==> bins[..n][b] == bins[b];
    var all, init := OverBudgets(bins, budget), OverBudgets(bins[..n], budget);
    if b < n {
      OverBudgetIsWarned(bins[..n], budget, b);
      var k :| 0 <= k < |init| && init[k].OverBudget? && init[k].shard == b + 1;
      assert all[k] == init[k];
    } else {
      assert all[|init|].shard == n + 1;
    }
  }

  /** The shards of a plan are the packed bins, in order and all of them. */
  lemma PlanShape(sources: seq<SourceSize>, shards: Option<int>, budget: int)
    requires Usable(sources) != []
    ensures var plan := PlanOf(sources, shards, budget);
      var bins := Bins(sources, shards, budget);
      && plan.shardCount == |bins| == |plan.shards|
      && (forall i :: 0 <= i < |bins| ==> plan.shards[i] == Describe(i + 1, bins[i]) && bins[i] != [])
      && plan.warnings == OverBudgets(bins, budget)
  {
    NoBinIsEmpty(sources, shards, budget);
    InfosOfFilledBins(Bins(sources, shards, budget));
  }

  /** An asked-for number of shards is what the plan has, but for at least one and at most one for each
    * source with files. */
  lemma AskedForCount(sources: seq<SourceSize>, k: int, budget: int)
    requires Usable(sources) != []
    ensures var got, n := |PlanOf(sources, Some(k), budget).shards|, |Usable(sources)|;
      && (1 <= k <= n ==> got == k) && (k > n ==> got == n) && (k < 1 ==> got == 1)
  {
    PlanShape(sources, Some(k), budget);
  }

  /** Without one, it is the least number of shards whose budgets add up to the total, at least one and at
    * most one for each source; a budget below one counts as one. */
  lemma AutomaticCount(sources: seq<SourceSize>, budget: int)
    requires Usable(sources) != []
    ensures var m, n := |PlanOf(sources, None, budget).shards|, |Usable(sources)|;
      var total, room := Load(Usable(sources)), if budget < 1 then 1 else budget;
      && 1 <= m <= n && (m == n || total <= m * room) && (m == 1 || total > (m - 1) * room)
  {
    var total, m := Load(Usable(sources)), ShardCount(Usable(sources), None, budget);
    PlanShape(sources, None, budget);
    CeilDivLeast(total, Clamp(budget), m);
    CeilDivLeast(total, Clamp(budget), m - 1);
  }

  /** The plan says what it was made for, and there is none only when no source has files. */
  lemma PlanStatesItsInput(sources: seq<SourceSize>, shards: Option<int>, budget: int)
    ensures var plan := PlanOf(sources, shards, budget);
      && (plan == NothingToPlan <==> forall s :: s in sources ==> s.files <= 0)
      && (plan.Plan? ==> plan.budget == budget && plan.shardCount == |plan.shards|)
  {
    forall s ensures s in Usable(sources) <==> s in sources && s.files > 0 { UsableExactly(sources, s); }
    if Usable(sources) != [] {
      assert Usable(sources)[0] in Usable(sources);
      PlanShape(sources, shards, budget);
    }
  }

  /** The claim of the module: no shard is more than a third over the fullest bin of any other way to
    * put the same whole sources into as many bins. */
  lemma PlanWithinFourThirds(sources: seq<SourceSize>, shards: Option<int>, budget: int,
                             other: seq<seq<SourceSize>>, cap: nat, i: nat)
    requires Usable(sources) != []
    requires |other| == PlanOf(sources, shards, budget).shardCount
    requires Arranges(other, Usable(sources)) && Fits(other, cap)
    requires i < |PlanOf(sources, shards, budget).shards|
    ensures var plan := PlanOf(sources, shards, budget);
      && 3 * (plan.shardCount * plan.shards[i].nodes) + cap <= 4 * (plan.shardCount * cap)
      && 3 * plan.shards[i].nodes <= 4 * cap
  {
    var ordered := Sorted(Usable(sources));
    SortedOrders(Usable(sources));
    PlanShape(sources, shards, budget);
    LargestFirstBound(ordered, |other|, other, cap, i);
    FourThirds(|other|, PlanOf(sources, shards, budget).shards[i].nodes, cap);
  }

  function NamesIn(info: ShardInfo): seq<string> { info.names }
  function FilesIn(info: ShardInfo): nat { info.files }
  function NodesIn(info: ShardInfo): nat { info.nodes }

  lemma {:induction false} DescribedNames(bins: seq<seq<SourceSize>>, infos: seq<ShardInfo>)
    requires |infos| == |bins|
    requires forall i :: 0 <= i < |bins| ==> infos[i].names == Map(NameOf, bins[i])
    ensures Flatten(Map(NamesIn, infos)) == Map(NameOf, Flatten(bins))
  {
    if bins != [] {
      var n := |bins| - 1;
      DescribedNames(bins[..n], infos[..n]);
      assert Map(NamesIn, infos)[..n] == Map(NamesIn, infos[..n]);
    }
  }

  lemma {:induction false} DescribedTotals(bins: seq<seq<SourceSize>>, infos: seq<ShardInfo>)
    requires |infos| == |bins|
    requires forall i :: 0 <= i < |bins| ==> infos[i].files == Sum(Files, bins[i]) && infos[i].nodes == Load(bins[i])
    ensures Sum(FilesIn, infos) == Sum(Files, Flatten(bins))
    ensures Sum(NodesIn, infos) == Load(Flatten(bins))
  {
    if bins != [] {
      var n := |bins| - 1;
      DescribedTotals(bins[..n], infos[..n]);
      SumConcat(Files, Flatten(bins[..n]), bins[n]);
      SumConcat(Nodes, Flatten(bins[..n]), bins[n]);
    }
  }

  lemma BinsArrangeUsable(sources: seq<SourceSize>, shards: Option<int>, budget: int)
    requires Usable(sources) != []
    ensures Arranges(Bins(sources, shards, budget), Usable(sources))
  {
    SortedOrders(Usable(sources));
    PackConserves(Sorted(Usable(sources)), ShardCount(Usable(sources), shards, budget));
  }

  /** Shards described bin by bin hold what the bins hold, and the bins hold the sources. */
  lemma DescribedHold(bins: seq<seq<SourceSize>>, infos: seq<ShardInfo>, sources: seq<SourceSize>)
    requires Arranges(bins, sources) && |infos| == |bins|
    requires forall i :: 0 <= i < |bins| ==> infos[i] == Describe(i + 1, bins[i])
    ensures multiset(Flatten(Map(NamesIn, infos))) == multiset(Map(NameOf, sources))
    ensures Sum(FilesIn, infos) == Sum(Files, sources) && Sum(NodesIn, infos) == Load(sources)
  {
    DescribedNames(bins, infos);
    DescribedTotals(bins, infos);
    MapPermutation(NameOf, Flatten(bins), sources);
    SumPermutation(Files, Flatten(bins), sources);
    SumPermutation(Nodes, Flatten(bins), sources);
  }

  /** Every source with files is in exactly one shard and no other source is in any; no shard is
    * empty, so the planner never says one would be; the totals are the shards' totals. */
  lemma PlanConserves(sources: seq<SourceSize>, shards: Option<int>, budget: int)
    requires Usable(sources) != []
    ensures var plan := PlanOf(sources, shards, budget);
      && multiset(Flatten(Map(NamesIn, plan.shards))) == multiset(Map(NameOf, Usable(sources)))
      && Sum(FilesIn, plan.shards) == plan.totalFiles
      && Sum(NodesIn, plan.shards) == plan.totalNodes
      && (forall i :: 0 <= i < |plan.shards| ==> plan.shards[i].names != [])
      && (forall w :: w in plan.warnings ==> w.OverBudget?)
  {
    PlanHolds(sources, shards, budget, PlanOf(sources, shards, budget));
    PlanIsFull(sources, shards, budget, PlanOf(sources, shards, budget));
  }

  lemma PlanTotals(sources: seq<SourceSize>, shards: Option<int>, budget: int)
    requires Usable(sources) != []
    ensures PlanOf(sources, shards, budget).totalFiles == Sum(Files, Usable(sources))
    ensures PlanOf(sources, shards, budget).totalNodes == Load(Usable(sources))
  {
  }

  lemma PlanHolds(sources: seq<SourceSize>, shards: Option<int>, budget: int, plan: Plan)
    requires Usable(sources) != [] && plan == PlanOf(sources, shards, budget)
    ensures multiset(Flatten(Map(NamesIn, plan.shards))) == multiset(Map(NameOf, Usable(sources)))
    ensures Sum(FilesIn, plan.shards) == plan.totalFiles && Sum(NodesIn, plan.shards) == plan.totalNodes
  {
    PlanShape(sources, shards, budget);
    PlanTotals(sources, shards, budget);
    BinsArrangeUsable(sources, shards, budget);
    DescribedHold(Bins(sources, shards, budget), plan.shards, Usable(sources));
  }

  lemma DescribedHasNames(index: nat, bin: seq<SourceSize>)
    requires bin != []
    ensures Describe(index, bin).names != []
  {
  }

  lemma OnlyOverBudgets(bins: seq<seq<SourceSize>>, budget: int)
    requires NoneEmpty(bins)
    ensures forall w :: w in OverBudgets(bins, budget) ==> w.OverBudget?
  {
    forall w | w in OverBudgets(bins, budget) ensures w.OverBudget? { WarningIsTrue(bins, budget, w); }
  }

  lemma PlanIsFull(sources: seq<SourceSize>, shards: Option<int>, budget: int, plan: Plan)
    requires Usable(sources) != [] && plan == PlanOf(sources, shards, budget)
    ensures forall i :: 0 <= i < |plan.shards| ==> plan.shards[i].names != []
    ensures forall w :: w in plan.warnings ==> w.OverBudget?
  {
    var bins := Bins(sources, shards, budget);
    PlanShape(sources, shards, budget);
    forall i | 0 <= i < |plan.shards| ensures plan.shards[i].names != [] { DescribedHasNames(i + 1, bins[i]); }
    OnlyOverBudgets(bins, budget);
  }

  // ----- the automatic count -----

  /** No arrangement of the whole sources keeps every bin within the budget with fewer bins than the
    * automatic count asks for. */
  lemma FewerBinsOverflow(usable: seq<SourceSize>, other: seq<seq<SourceSize>>, budget: nat)
    requires budget >= 1 && Arranges(other, usable) && Fits(other, budget)
    ensures |other| >= CeilDiv(Load(usable), budget)
  {
    ArrangementHoldsAtMost(usable, other, budget);
    CeilDivLeast(Load(usable), budget, |other|);
  }

  lemma CeilDivLeast(a: nat, b: nat, k: nat)
    requires b >= 1
    ensures a <= k * b <==> CeilDiv(a, b) <= k
    ensures a <= CeilDiv(a, b) * b
  {
    var q := CeilDiv(a, b);
    var r := (a + b - 1) % b;
    assert a + b - 1 == b * q + r;
    if q <= k {
      ScaleLe(b, q, k);
    } else {
      ScaleLe(b, k + 1, q);
      assert b * (k + 1) == k * b + b;
    }
  }

  /** When the automatic count is used as it is, a shard is over the budget by less than one source:
    * m times its load is at most m budgets and m - 1 times the largest source. */
  lemma AutomaticCountLoads(sources: seq<SourceSize>, budget: int, largest: nat, i: nat)
    requires Usable(sources) != []
    requires CeilDiv(Load(Usable(sources)), Clamp(budget)) <= |Usable(sources)|
    requires forall k :: 0 <= k < |Usable(sources)| ==> Nodes(Usable(sources)[k]) <= largest
    requires i < |PlanOf(sources, None, budget).shards|
    ensures var plan := PlanOf(sources, None, budget);
      plan.shardCount * plan.shards[i].nodes
        <= plan.shardCount * Clamp(budget) + (plan.shardCount - 1) * largest
  {
    var usable := Usable(sources);
    var m := ShardCount(usable, None, budget);
    PlanShape(sources, None, budget);
    SortedOrders(usable);
    SumPermutation(Nodes, Sorted(usable), usable);
    CeilDivLeast(Load(usable), Clamp(budget), m);
    forall k | 0 <= k < |Sorted(usable)| ensures Nodes(Sorted(usable)[k]) <= largest {
      assert Sorted(usable)[k] in multiset(Sorted(usable));
      var i :| 0 <= i < |usable| && usable[i] == Sorted(usable)[k];
    }
    PackedAverage(Sorted(usable), m, i, largest, Clamp(budget));
  }

  lemma PackedAverage(ordered: seq<SourceSize>, m: nat, i: nat, largest: nat, budget: nat)
    requires i < m && Load(ordered) <= m * budget
    requires forall k :: 0 <= k < |ordered| ==> Nodes(ordered[k]) <= largest
    ensures m * Load(Pack(ordered, m)[i]) <= m * budget + (m - 1) * largest
  {
    var n := LastPlaced(ordered, m, i);
    if n < |ordered| {
      AveragingBound(ordered, m, i, n);
      CombineAverage(m, Load(Pack(ordered, m)[i]), Load(Pack(ordered[..n], m)[i]), Nodes(ordered[n]), largest, budget);
    } else {
      CombineAverage(m, 0, 0, 0, largest, budget);
    }
  }

  lemma CombineAverage(m: nat, load: nat, before: nat, p: nat, largest: nat, budget: nat)
    requires m >= 1 && load == before + p && m * before + p <= m * budget && p <= largest
    ensures m * load <= m * budget + (m - 1) * largest
  {
    ScaleLe(m - 1, p, largest);
    assert m * load == m * before + (m - 1) * p + p;
  }

  /** When there are too few sources for the automatic count, some single source is over the budget
    * and the plan says so. */
  lemma ClampedCountWarns(sources: seq<SourceSize>, budget: int)
    requires Usable(sources) != []
    requires CeilDiv(Load(Usable(sources)), Clamp(budget)) > |Usable(sources)|
    ensures exists k :: 0 <= k < |Usable(sources)| && Nodes(Usable(sources)[k]) > Clamp(budget)
    ensures exists shard :: Warned(PlanOf(sources, None, budget).warnings, shard)
  {
    var usable := Usable(sources);
    var bins := Bins(sources, None, budget);
    CeilDivLeast(Load(usable), Clamp(budget), |usable|);
    var k := SomeSourceOver(usable, Clamp(budget));
    PlanShape(sources, None, budget);
    BinsArrangeUsable(sources, None, budget);
    assert usable[k] in multiset(usable);
    var b, i := FindInFlatten(bins, usable[k]);
    ElementAtMostSum(Nodes, bins[b], i);
    OverBudgetIsWarned(bins, budget, b);
  }

  lemma {:induction false} SomeSourceOver(s: seq<SourceSize>, budget: nat) returns (k: nat)
    requires Load(s) > |s| * budget
    ensures k < |s| && Nodes(s[k]) > budget
  {
    var n := |s| - 1;
    if Nodes(s[n]) > budget {
      k := n;
    } else {
      assert |s| * budget == n * budget + budget;
      k := SomeSourceOver(s[..n], budget);
    }
  }

  /** A plan is silent exactly when every shard is within the budget ... */
  lemma SilentExactlyWhenWithin(sources: seq<SourceSize>, shards: Option<int>, budget: int)
    requires Usable(sources) != []
    ensures var plan := PlanOf(sources, shards, budget);
      plan.warnings == [] <==> forall i :: 0 <= i < |plan.shards| ==> plan.shards[i].nodes <= budget
  {
    var plan := PlanOf(sources, shards, budget);
    var bins := Bins(sources, shards, budget);
    PlanShape(sources, shards, budget);
    if plan.warnings != [] {
      var w := plan.warnings[0];
      WarningIsTrue(bins, budget, w);
      assert plan.shards[w.shard - 1].nodes > budget;
    }
    forall i | 0 <= i < |plan.shards| && plan.warnings == [] ensures plan.shards[i].nodes <= budget {
      if Load(bins[i]) > budget { OverBudgetIsWarned(bins, budget, i); }
    }
  }

  /** ... and a silent automatic plan uses the smallest count that any arrangement could. */
  lemma SilentAutomaticPlanIsSmallest(sources: seq<SourceSize>, budget: int, other: seq<seq<SourceSize>>)
    requires Usable(sources) != [] && PlanOf(sources, None, budget).warnings == []
    requires Arranges(other, Usable(sources)) && Fits(other, budget)
    ensures |other| >= PlanOf(sources, None, budget).shardCount
  {
    var usable := Usable(sources);
    SilentBudgetIsPositive(sources, budget);
    FewerBinsOverflow(usable, other, budget);
    if CeilDiv(Load(usable), Clamp(budget)) > |usable| {
      ClampedCountWarns(sources, budget);
      assert false;
    }
  }

  lemma FirstBinHasLoad(bins: seq<seq<SourceSize>>, usable: seq<SourceSize>)
    requires Arranges(bins, usable) && bins != [] && bins[0] != []
    requires forall i :: 0 <= i < |usable| ==> usable[i].files > 0
    ensures Load(bins[0]) >= 1 && Load(usable) >= 1
  {
    InFlatten(bins, 0, 0);
    assert bins[0][0] in multiset(Flatten(bins));
    var k :| 0 <= k < |usable| && usable[k] == bins[0][0];
    ElementAtMostSum(Nodes, bins[0], 0);
    ElementAtMostSum(Nodes, usable, k);
  }

  lemma SilentBudgetIsPositive(sources: seq<SourceSize>, budget: int)
    requires Usable(sources) != [] && PlanOf(sources, None, budget).warnings == []
    ensures budget >= 1 && Load(Usable(sources)) >= 1 && CeilDiv(Load(Usable(sources)), Clamp(budget)) >= 1
  {
    var bins := Bins(sources, None, budget);
    PlanShape(sources, None, budget);
    if Load(bins[0]) > budget { OverBudgetIsWarned(bins, budget, 0); }
    BinsArrangeUsable(sources, None, budget);
    UsableHaveFiles(sources);
    FirstBinHasLoad(bins, Usable(sources));
    CeilDivLeast(Load(Usable(sources)), Clamp(budget), 0);
  }

  /** The docstring's "smallest count that keeps every shard under the budget" is not what the count
    * promises: three one-file sources, 6 nodes each, under a budget of 10 get two shards, one of them
    * over, where three shards would fit. */
  lemma AutomaticCountCanOverflow() returns (sources: seq<SourceSize>, budget: int, fits: seq<seq<SourceSize>>)
    ensures sources == [SourceSize("a", 1, 0), SourceSize("b", 1, 0), SourceSize("c", 1, 0)] && budget == 10
    ensures Usable(sources) == sources && PlanOf(sources, None, budget).shardCount == 2
    ensures PlanOf(sources, None, budget).warnings != []
    ensures |fits| == 3 && Arranges(fits, sources) && Fits(fits, budget)
  {
    var a, b, c := SourceSize("a", 1, 0), SourceSize("b", 1, 0), SourceSize("c", 1, 0);
    sources, budget, fits := [a, b, c], 10, [[a], [b], [c]];
    OneEach(a, b, c);
    forall k | 0 <= k < 3 ensures Load(fits[k]) == 6 { UniformLoad(fits[k]); }
    TwoShardsOverflow(sources, budget);
  }

  lemma TwoShardsOverflow(sources: seq<SourceSize>, budget: int)
    requires |sources| == 3 && forall i :: 0 <= i < 3 ==> sources[i].files == 1
    requires budget == 10
    ensures Usable(sources) == sources && PlanOf(sources, None, budget).shardCount == 2
    ensures PlanOf(sources, None, budget).warnings != []
  {
    UsableIsAll(sources);
    UniformLoad(sources);
    assert ShardCount(sources, None, budget) == 2;
    PlanShape(sources, None, budget);
    BinsArrangeUsable(sources, None, budget);
    var i := Pigeonhole(Bins(sources, None, budget), sources);
    SilentExactlyWhenWithin(sources, None, budget);
    assert PlanOf(sources, None, budget).shards[i].nodes > budget;
  }

  /** Three one-file sources in two bins: one bin has two of them. */
  lemma Pigeonhole(bins: seq<seq<SourceSize>>, sources: seq<SourceSize>) returns (i: nat)
    requires |bins| == 2 && |sources| == 3 && Arranges(bins, sources)
    requires forall k :: 0 <= k < 3 ==> sources[k].files == 1
    ensures i < 2 && Load(bins[i]) >= 12
  {
    assert bins == [bins[0], bins[1]];
    TwoBins(bins[0], bins[1]);
    assert |multiset(Flatten(bins))| == |multiset(sources)| == 3;
    i := if |bins[0]| >= 2 then 0 else 1;
    forall k | 0 <= k < |bins[i]| ensures bins[i][k].files == 1 {
      InFlatten(bins, i, k);
      assert bins[i][k] in multiset(Flatten(bins));
    }
    UniformLoad(bins[i]);
  }

  lemma TwoBins<T>(x: seq<T>, y: seq<T>)
    ensures Flatten([x, y]) == x + y
  {
    assert [x, y][..1] == [x] && [x][..0] == [];
    assert Flatten([x]) == x;
  }

  lemma {:induction false} UniformLoad(bin: seq<SourceSize>)
    requires forall i :: 0 <= i < |bin| ==> bin[i].files == 1
    ensures Load(bin) == 6 * |bin|
  {
    if bin != [] { UniformLoad(bin[..|bin| - 1]); }
  }

  lemma OneEach<T>(a: T, b: T, c: T)
    ensures Flatten([[a], [b], [c]]) == [a, b, c]
  {
    assert [[a]][..0] == [] && [[a], [b]][..1] == [[a]] && [[a], [b], [c]][..2] == [[a], [b]];
    assert Flatten([[a]]) == [a];
    assert Flatten([[a], [b]]) == [a, b];
  }

  lemma {:induction false} UsableIsAll(sources: seq<SourceSize>)
    requires forall i :: 0 <= i < |sources| ==> sources[i].files > 0
    ensures Usable(sources) == sources
  {
    if sources != [] { UsableIsAll(sources[..|sources| - 1]); }
  }
}
