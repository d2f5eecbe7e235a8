/** The files a split needs, one directory per region (src/pheasant/sharding.py, render_artifacts). */
module ShardArtifacts {
  import opened Lists
  import opened Options
  import opened Sums
  import opened Text
  import opened Sharding
  import opened ShardPlan

  datatype Artifact =
    | RegionConfig(kbId: string, sources: seq<string>)
    | Compose(kbId: string, port: int)
    | EnvExample(kbId: string)
    | Readme(regions: seq<string>)

  datatype File = ConfigFile | ComposeFile | EnvFile

  function Suffix(file: File): string {
    match file
    case ConfigFile => "/pheasant.yaml"
    case ComposeFile => "/docker-compose.yml"
    case EnvFile => "/.env.example"
  }

  const README := "README.md"

  function RegionId(base: string, index: nat): string { base + "-shard-" + Decimal(index) }

  function Path(base: string, index: nat, file: File): string { RegionId(base, index) + Suffix(file) }

  /** The configured sources the shard names, in configuration order. */
  function SourcesOf(configured: seq<string>, names: seq<string>): seq<string> {
    if configured == [] then []
    else
      var n := |configured| - 1;
      SourcesOf(configured[..n], names) + if configured[n] in names then [configured[n]] else []
  }

  function Contents(configured: seq<string>, base: string, basePort: int, offset: nat,
                    shard: ShardInfo, file: File): Artifact {
    var kbId := RegionId(base, shard.index);
    match file
    case ConfigFile => RegionConfig(kbId, SourcesOf(configured, shard.names))
    case ComposeFile => Compose(kbId, basePort + offset)
    case EnvFile => EnvExample(kbId)
  }

  /** Different regions or different files: different paths, and none of them is the README. */
  lemma PathsDiffer(base: string, i: nat, f: File, j: nat, g: File)
    ensures Path(base, i, f) == Path(base, j, g) ==> i == j && f == g
    ensures Path(base, i, f) != README
  {
    var p, q := Path(base, i, f), Path(base, j, g);
    assert p[|p| - 1] == Suffix(f)[|Suffix(f)| - 1] && q[|q| - 1] == Suffix(g)[|Suffix(g)| - 1];
    assert p[|p| - 3] == Suffix(f)[|Suffix(f)| - 3] && q[|q| - 3] == Suffix(g)[|Suffix(g)| - 3];
    if p == q {
      assert f == g;
      assert RegionId(base, i) == p[..|p| - |Suffix(f)|] == RegionId(base, j);
      assert Decimal(i) == RegionId(base, i)[|base| + 7..];
      assert Decimal(j) == RegionId(base, j)[|base| + 7..];
      DecimalInjective(i, j);
    }
  }

  /** The three files of one region, written over what is there. */
  function WithRegion(files: map<string, Artifact>, configured: seq<string>, base: string, basePort: int,
                      offset: nat, shard: ShardInfo): map<string, Artifact> {
    files
      [Path(base, shard.index, ConfigFile) := Contents(configured, base, basePort, offset, shard, ConfigFile)]
      [Path(base, shard.index, ComposeFile) := Contents(configured, base, basePort, offset, shard, ComposeFile)]
      [Path(base, shard.index, EnvFile) := Contents(configured, base, basePort, offset, shard, EnvFile)]
  }

  /** The files of the first `n` regions, written region by region. */
  function RegionFiles(shards: seq<ShardInfo>, configured: seq<string>, base: string, basePort: int, n: nat)
    : map<string, Artifact>
    requires n <= |shards|
  {
    if n == 0 then map[]
    else
      var earlier := RegionFiles(shards, configured, base, basePort, n - 1);
      WithRegion(earlier, configured, base, basePort, n - 1, shards[n - 1])
  }

  function RegionIds(shards: seq<ShardInfo>, base: string): (ids: seq<string>)
    ensures |ids| == |shards| && forall i :: 0 <= i < |ids| ==> ids[i] == RegionId(base, shards[i].index)
  {
    seq(|shards|, i requires 0 <= i < |shards| => RegionId(base, shards[i].index))
  }

  method RenderArtifacts(plan: Plan, configured: seq<string>, base: string, basePort: int)
    returns (artifacts: map<string, Artifact>, regions: seq<string>)
    ensures plan.NothingToPlan? ==> artifacts == map[] && regions == []
    ensures plan.Plan? ==> regions == RegionIds(plan.shards, base)
    ensures plan.Plan? ==> (artifacts ==
      RegionFiles(plan.shards, configured, base, basePort, |plan.shards|)
      + if plan.shards == [] then map[] else map["README.md" := Readme(regions)])
  {
    var shards := if plan.Plan? then plan.shards else [];
    artifacts, regions := map[], [];
    for offset := 0 to |shards|
      invariant regions == RegionIds(shards, base)[..offset]
      invariant artifacts == RegionFiles(shards, configured, base, basePort, offset)
    {
      var shard := shards[offset];
      ghost var written := WithRegion(artifacts, configured, base, basePort, offset, shard);
      var kbId := RegionId(base, shard.index);
      regions := regions + [kbId];
      artifacts := artifacts[kbId + Suffix(ConfigFile) := RegionConfig(kbId, SourcesOf(configured, shard.names))];
      artifacts := artifacts[kbId + Suffix(ComposeFile) := Compose(kbId, basePort + offset)];
      artifacts := artifacts[kbId + Suffix(EnvFile) := EnvExample(kbId)];
      assert artifacts == written;
    }
    if regions != [] {
      artifacts := artifacts[README := Readme(regions)];
    }
  }

  lemma LastRegionFile(shards: seq<ShardInfo>, configured: seq<string>, base: string, basePort: int, n: nat, f: File)
    requires 0 < n <= |shards|
    ensures var files, path := RegionFiles(shards, configured, base, basePort, n), Path(base, shards[n - 1].index, f);
      path in files && files[path] == Contents(configured, base, basePort, n - 1, shards[n - 1], f)
  {
    var last := shards[n - 1].index;
    PathsDiffer(base, last, f, last, ConfigFile);
    PathsDiffer(base, last, f, last, ComposeFile);
    PathsDiffer(base, last, f, last, EnvFile);
  }

  lemma EarlierFileStays(shards: seq<ShardInfo>, configured: seq<string>, base: string, basePort: int, n: nat,
                         path: string, last: nat)
    requires 0 < n <= |shards| && last == shards[n - 1].index && forall g :: path != Path(base, last, g)
    requires path in RegionFiles(shards, configured, base, basePort, n - 1)
    ensures var files := RegionFiles(shards, configured, base, basePort, n);
      path in files && files[path] == RegionFiles(shards, configured, base, basePort, n - 1)[path]
  {
  }

  /** No region's file is overwritten by another region's or by the README: each of the three is
    * there in the end with that region's own contents. */
  lemma {:induction false} RegionFilesIntact(shards: seq<ShardInfo>, configured: seq<string>, base: string,
                                             basePort: int, n: nat, i: nat, f: File)
    requires i < n <= |shards|
    requires forall k, l :: 0 <= k < l < |shards| ==> shards[k].index != shards[l].index
    ensures var files, path := RegionFiles(shards, configured, base, basePort, n), Path(base, shards[i].index, f);
      && path in files && path != README
      && files[path] == Contents(configured, base, basePort, i, shards[i], f)
  {
    PathsDiffer(base, shards[i].index, f, shards[i].index, f);
    if i == n - 1 {
      LastRegionFile(shards, configured, base, basePort, n, f);
    } else {
      RegionFilesIntact(shards, configured, base, basePort, n - 1, i, f);
      var path, last := Path(base, shards[i].index, f), shards[n - 1].index;
      forall g ensures path != Path(base, last, g) { PathsDiffer(base, shards[i].index, f, last, g); }
      EarlierFileStays(shards, configured, base, basePort, n, path, last);
    }
  }

  lemma RegionIdsDiffer(base: string, i: nat, j: nat)
    requires i != j
    ensures RegionId(base, i) != RegionId(base, j)
  {
    PathsDiffer(base, i, EnvFile, j, EnvFile);
  }

  /** The regions of a plan have pairwise distinct ids, and every one of them all its files. */
  lemma PlannedRegionsKeepTheirFiles(sources: seq<SourceSize>, shards: Option<int>, budget: int,
                                     configured: seq<string>, base: string, basePort: int, i: nat, f: File)
    requires Usable(sources) != []
    requires i < |PlanOf(sources, shards, budget).shards|
    ensures var infos := PlanOf(sources, shards, budget).shards;
      var files := RegionFiles(infos, configured, base, basePort, |infos|);
      && (forall j :: 0 <= j < |infos| && j != i ==> RegionIds(infos, base)[j] != RegionIds(infos, base)[i])
      && Path(base, infos[i].index, f) in files
      && files[Path(base, infos[i].index, f)] == Contents(configured, base, basePort, i, infos[i], f)
  {
    var infos := PlanOf(sources, shards, budget).shards;
    PlanNumbersShards(sources, shards, budget);
    forall j | 0 <= j < |infos| && j != i ensures RegionIds(infos, base)[j] != RegionIds(infos, base)[i] {
      RegionIdsDiffer(base, infos[j].index, infos[i].index);
    }
    RegionFilesIntact(infos, configured, base, basePort, |infos|, i, f);
  }

  lemma PlanNumbersShards(sources: seq<SourceSize>, shards: Option<int>, budget: int)
    requires Usable(sources) != []
    ensures forall k :: 0 <= k < |PlanOf(sources, shards, budget).shards| ==>
      PlanOf(sources, shards, budget).shards[k].index == k + 1
  {
    PlanShape(sources, shards, budget);
  }

  /** When the sources have distinct names, no two regions index the same source. */
  lemma RegionsShareNoSource(sources: seq<SourceSize>, shards: Option<int>, budget: int,
                             configured: seq<string>, i: nat, j: nat, x: string)
    requires Usable(sources) != [] && multiset(Map(NameOf, Usable(sources)))[x] <= 1
    requires i < j < |PlanOf(sources, shards, budget).shards|
    ensures !(x in SourcesOf(configured, PlanOf(sources, shards, budget).shards[i].names)
              && x in SourcesOf(configured, PlanOf(sources, shards, budget).shards[j].names))
  {
    var infos := PlanOf(sources, shards, budget).shards;
    PlanConserves(sources, shards, budget);
    SourcesAreNamed(configured, infos[i].names, x);
    SourcesAreNamed(configured, infos[j].names, x);
    var names := Map(NamesIn, infos);
    if x in names[i] && x in names[j] {
      TwiceInFlatten(names, i, j, x);
    }
  }

  lemma {:induction false} SourcesAreNamed(configured: seq<string>, names: seq<string>, x: string)
    ensures x in SourcesOf(configured, names) <==> x in configured && x in names
  {
    if configured != [] {
      SourcesAreNamed(configured[..|configured| - 1], names, x);
    }
  }

  lemma {:induction false} TwiceInFlatten<T>(bins: seq<seq<T>>, i: nat, j: nat, x: T)
    requires i < j < |bins| && x in bins[i] && x in bins[j]
    ensures multiset(Flatten(bins))[x] >= 2
  {
    var n := |bins| - 1;
    if j < n {
      TwiceInFlatten(bins[..n], i, j, x);
    } else {
      var k :| 0 <= k < |bins[i]| && bins[i][k] == x;
      InFlatten(bins[..n], i, k);
      assert multiset(Flatten(bins[..n]))[x] >= 1 && multiset(bins[n])[x] >= 1;
    }
  }

  /** Where a region's file is. */
  lemma PathText(base: string, index: nat)
    ensures var id := base + "-shard-" + Decimal(index);
      && RegionId(base, index) == id
      && Path(base, index, ConfigFile) == id + "/pheasant.yaml"
      && Path(base, index, ComposeFile) == id + "/docker-compose.yml"
      && Path(base, index, EnvFile) == id + "/.env.example"
  {
  }

  lemma RegionFileIs(sources: seq<SourceSize>, shards: Option<int>, budget: int, configured: seq<string>,
                     base: string, basePort: int, i: nat, f: File)
    requires Usable(sources) != [] && i < |PlanOf(sources, shards, budget).shards|
    ensures var infos := PlanOf(sources, shards, budget).shards;
      var files := RegionFiles(infos, configured, base, basePort, |infos|);
      && Path(base, i + 1, f) in files
      && files[Path(base, i + 1, f)] == match f
           case ConfigFile => RegionConfig(RegionId(base, i + 1), SourcesOf(configured, infos[i].names))
           case ComposeFile => Compose(RegionId(base, i + 1), basePort + i)
           case EnvFile => EnvExample(RegionId(base, i + 1))
  {
    PlanNumbersShards(sources, shards, budget);
    PlannedRegionsKeepTheirFiles(sources, shards, budget, configured, base, basePort, i, f);
  }

  /** Each region of a plan has its own id in all of its files, a port of its own counted up from the base, and
    * configures exactly those sources that are configured and in its shard. */
  lemma RegionContents(sources: seq<SourceSize>, shards: Option<int>, budget: int, configured: seq<string>,
                       base: string, basePort: int, i: nat, x: string, files: map<string, Artifact>, id: string)
    requires Usable(sources) != [] && i < |PlanOf(sources, shards, budget).shards|
    requires var infos := PlanOf(sources, shards, budget).shards;
      files == RegionFiles(infos, configured, base, basePort, |infos|) && id == base + "-shard-" + Decimal(i + 1)
    ensures id + "/pheasant.yaml" in files && id + "/docker-compose.yml" in files && id + "/.env.example" in files
    ensures files[id + "/docker-compose.yml"] == Compose(id, basePort + i)
    ensures files[id + "/.env.example"] == EnvExample(id)
    ensures files[id + "/pheasant.yaml"].RegionConfig? && files[id + "/pheasant.yaml"].kbId == id
    ensures x in files[id + "/pheasant.yaml"].sources <==>
      x in configured && x in PlanOf(sources, shards, budget).shards[i].names
  {
    PathText(base, i + 1);
    RegionFileIs(sources, shards, budget, configured, base, basePort, i, ConfigFile);
    RegionFileIs(sources, shards, budget, configured, base, basePort, i, ComposeFile);
    RegionFileIs(sources, shards, budget, configured, base, basePort, i, EnvFile);
    SourcesAreNamed(configured, PlanOf(sources, shards, budget).shards[i].names, x);
  }

  lemma {:induction false} InSomeBin<T>(bins: seq<seq<T>>, x: T) returns (b: nat)
    requires x in Flatten(bins)
    ensures b < |bins| && x in bins[b]
  {
    var n := |bins| - 1;
    InConcat(Flatten(bins[..n]), bins[n], x);
    if x in bins[n] {
      b := n;
    } else {
      b := InSomeBin(bins[..n], x);
    }
  }

  /** Every configured source that has files is configured in some region. */
  lemma EverySourceHasARegion(sources: seq<SourceSize>, shards: Option<int>, budget: int, configured: seq<string>,
                              s: SourceSize) returns (i: nat)
    requires s in sources && s.files > 0 && s.name in configured
    ensures PlanOf(sources, shards, budget).Plan? && i < |PlanOf(sources, shards, budget).shards|
    ensures s.name in SourcesOf(configured, PlanOf(sources, shards, budget).shards[i].names)
  {
    var usable := Usable(sources);
    UsableExactly(sources, s);
    PlanConserves(sources, shards, budget);
    var infos := PlanOf(sources, shards, budget).shards;
    var k :| 0 <= k < |usable| && usable[k] == s;
    assert Map(NameOf, usable)[k] == s.name;
    assert s.name in multiset(Map(NameOf, usable));
    i := InSomeBin(Map(NamesIn, infos), s.name);
    SourcesAreNamed(configured, infos[i].names, s.name);
  }
}
