/** What the pods of a service use and may use: for one service, and for all the
    services of a project from one list of its pods
    (internal/service/service_service.go, GetServiceMetrics and GetProjectMetrics). */
module Metrics {
  import opened Basics
  import opened BatchViews

  // --- Tallies ---

  /** Sums over pods; `seen` says whether any usage was reported. */
  datatype Tally = Tally(cpuLimit: real, memLimit: real, cpuUsed: real, memUsed: real, cpuSeen: bool, memSeen: bool)

  const Zero := Tally(0.0, 0.0, 0.0, 0.0, false, false)

  function Add(a: Tally, b: Tally): Tally {
    Tally(a.cpuLimit + b.cpuLimit, a.memLimit + b.memLimit, a.cpuUsed + b.cpuUsed, a.memUsed + b.memUsed,
          a.cpuSeen || b.cpuSeen, a.memSeen || b.memSeen)
  }

  function AmountOf(q: Quantity): real {
    if q.Amount? then q.n else 0.0
  }

  /** Limits stand for a container, or its requests when it has no limits. */
  function Bound(resources: Option<Resources>): (r: Option<Quantities>) {
    if resources.None? then None
    else if resources.value.limits.Some? then resources.value.limits
    else resources.value.requests
  }

  function ContainerLimits(resources: Option<Resources>): Tally {
    var bound := Bound(resources);
    if bound.None? then Zero
    else Zero.(cpuLimit := AmountOf(bound.value.cpu), memLimit := AmountOf(bound.value.memory))
  }

  function ContainerUsage(usage: Option<Quantities>): Tally {
    if usage.None? then Zero
    else Zero.(cpuUsed := AmountOf(usage.value.cpu), cpuSeen := usage.value.cpu.Amount?,
               memUsed := AmountOf(usage.value.memory), memSeen := usage.value.memory.Amount?)
  }

  function Limits(containers: seq<Option<Resources>>): Tally {
    if containers == [] then Zero else Add(Limits(Init(containers)), ContainerLimits(Last(containers)))
  }

  function Usage(usages: seq<Option<Quantities>>): Tally {
    if usages == [] then Zero else Add(Usage(Init(usages)), ContainerUsage(Last(usages)))
  }

  function PodUsage(pod: Pod, metricsByPod: map<string, PodMetrics>): Tally {
    if pod.name in metricsByPod then Usage(metricsByPod[pod.name].usages) else Zero
  }

  function PodTally(pod: Pod, metricsByPod: map<string, PodMetrics>): Tally {
    Add(Limits(pod.resources), PodUsage(pod, metricsByPod))
  }

  /** The tally of several pods: both parts of each, added up. */
  function Total(pods: seq<Pod>, metricsByPod: map<string, PodMetrics>): Tally {
    if pods == [] then Zero
    else Add(Total(Init(pods), metricsByPod), PodTally(Last(pods), metricsByPod))
  }

  datatype MetricValue = MetricValue(used: real, limit: real, pct: real, available: bool)

  datatype ServiceMetrics = ServiceMetrics(cpu: MetricValue, memory: MetricValue)

  function Ratio(a: real, b: real): (r: real)
    ensures a >= 0.0 ==> 0.0 <= r <= 1.0
    ensures r == 1.0 <==> 0.0 < b <= a
  {
    if b <= 0.0 then 0.0
    else if a / b > 1.0 then 1.0
    else a / b
  }

  function Shown(t: Tally): ServiceMetrics {
    ServiceMetrics(MetricValue(t.cpuUsed, t.cpuLimit, Ratio(t.cpuUsed, t.cpuLimit), t.cpuSeen),
                   MetricValue(t.memUsed, t.memLimit, Ratio(t.memUsed, t.memLimit), t.memSeen))
  }

  ghost predicate SameLimits(a: Tally, b: Tally) {
    a.cpuLimit == b.cpuLimit && a.memLimit == b.memLimit
  }

  ghost predicate SameUsage(a: Tally, b: Tally) {
    a.cpuUsed == b.cpuUsed && a.memUsed == b.memUsed && a.cpuSeen == b.cpuSeen && a.memSeen == b.memSeen
  }

  // --- What is measured, resource by resource ---

  datatype Resource = Cpu | Memory

  /** The amount that can be read of a resource. */
  ghost function Readable(q: Quantities, r: Resource): Option<real> {
    match r
    case Cpu => if q.cpu.Amount? then Some(q.cpu.n) else None
    case Memory => if q.memory.Amount? then Some(q.memory.n) else None
  }

  /** What a container states counts for what can be read of it. */
  ghost function Counted(stated: Option<Quantities>, r: Resource): real {
    if stated.Some? && Readable(stated.value, r).Some? then Readable(stated.value, r).value else 0.0
  }

  /** A container is bounded by its limits or, when it has none, by its requests. */
  ghost function BoundOf(container: Option<Resources>, r: Resource): real {
    if container.None? then 0.0
    else if container.value.limits.None? then Counted(container.value.requests, r)
    else Counted(container.value.limits, r)
  }

  ghost function PodBound(containers: seq<Option<Resources>>, r: Resource): real {
    if containers == [] then 0.0 else PodBound(Init(containers), r) + BoundOf(Last(containers), r)
  }

  ghost function PodUse(usages: seq<Option<Quantities>>, r: Resource): real {
    if usages == [] then 0.0 else PodUse(Init(usages), r) + Counted(Last(usages), r)
  }

  ghost function SumOfBounds(pods: seq<Pod>, r: Resource): real {
    if pods == [] then 0.0 else SumOfBounds(Init(pods), r) + PodBound(Last(pods).resources, r)
  }

  /** The sum over the pods that have metrics. */
  ghost function SumOfUse(pods: seq<Pod>, metricsByPod: map<string, PodMetrics>, r: Resource): real {
    if pods == [] then 0.0
    else SumOfUse(Init(pods), metricsByPod, r) + ReportedUse(Last(pods), metricsByPod, r)
  }

  ghost function ReportedUse(pod: Pod, metricsByPod: map<string, PodMetrics>, r: Resource): real {
    if pod.name in metricsByPod then PodUse(metricsByPod[pod.name].usages, r) else 0.0
  }

  /** Some container of some pod has reported a readable usage. */
  ghost predicate IsReported(pods: seq<Pod>, metricsByPod: map<string, PodMetrics>, r: Resource) {
    exists i :: 0 <= i < |pods| && pods[i].name in metricsByPod && SomeReports(metricsByPod[pods[i].name].usages, r)
  }

  ghost predicate ReportsReadably(usage: Option<Quantities>, r: Resource) {
    usage.Some? && Readable(usage.value, r).Some?
  }

  /** The figures shown for a resource: bound, use, whether any was reported, and the
      share, which stays at nothing without a bound and at all of it beyond. */
  ghost predicate Measures(v: MetricValue, pods: seq<Pod>, metricsByPod: map<string, PodMetrics>, r: Resource) {
    && v.limit == SumOfBounds(pods, r)
    && v.used == SumOfUse(pods, metricsByPod, r)
    && (v.available <==> IsReported(pods, metricsByPod, r))
    && (v.limit <= 0.0 ==> v.pct == 0.0)
    && (0.0 < v.limit <= v.used ==> v.pct == 1.0)
    && (0.0 < v.limit && v.used < v.limit ==> v.pct == v.used / v.limit)
  }

  ghost predicate MeasuresPods(m: ServiceMetrics, pods: seq<Pod>, metricsByPod: map<string, PodMetrics>) {
    Measures(m.cpu, pods, metricsByPod, Cpu) && Measures(m.memory, pods, metricsByPod, Memory)
  }

  lemma {:induction false} LimitsAreBounds(containers: seq<Option<Resources>>)
    ensures Limits(containers).cpuLimit == PodBound(containers, Cpu)
    ensures Limits(containers).memLimit == PodBound(containers, Memory)
  {
    if containers != [] {
      LimitsAreBounds(Init(containers));
      ContainerLimitsAreBounds(Last(containers));
      AddedUp(Limits(Init(containers)), ContainerLimits(Last(containers)));
    }
  }

  lemma AddedUp(a: Tally, b: Tally)
    ensures Add(a, b).cpuLimit == a.cpuLimit + b.cpuLimit && Add(a, b).memLimit == a.memLimit + b.memLimit
    ensures Add(a, b).cpuUsed == a.cpuUsed + b.cpuUsed && Add(a, b).memUsed == a.memUsed + b.memUsed
    ensures Add(a, b).cpuSeen == (a.cpuSeen || b.cpuSeen) && Add(a, b).memSeen == (a.memSeen || b.memSeen)
  {
  }

  lemma ContainerLimitsAreBounds(container: Option<Resources>)
    ensures ContainerLimits(container).cpuLimit == BoundOf(container, Cpu)
    ensures ContainerLimits(container).memLimit == BoundOf(container, Memory)
  {
  }

  lemma ContainerUsageIsCounted(usage: Option<Quantities>)
    ensures ContainerUsage(usage).cpuUsed == Counted(usage, Cpu)
        && ContainerUsage(usage).memUsed == Counted(usage, Memory)
    ensures ContainerUsage(usage).cpuSeen <==> ReportsReadably(usage, Cpu)
    ensures ContainerUsage(usage).memSeen <==> ReportsReadably(usage, Memory)
  {
  }

  lemma {:induction false} UsageIsUse(usages: seq<Option<Quantities>>)
    ensures Usage(usages).cpuUsed == PodUse(usages, Cpu) && Usage(usages).memUsed == PodUse(usages, Memory)
  {
    if usages != [] {
      UsageIsUse(Init(usages));
      ContainerUsageIsCounted(Last(usages));
      AddedUp(Usage(Init(usages)), ContainerUsage(Last(usages)));
    }
  }

  lemma {:induction false} UsageIsSeen(usages: seq<Option<Quantities>>)
    ensures SomeReports(usages, Cpu) <==> Usage(usages).cpuSeen
    ensures SomeReports(usages, Memory) <==> Usage(usages).memSeen
  {
    if usages != [] {
      UsageIsSeen(Init(usages));
      ContainerUsageIsCounted(Last(usages));
      AddedUp(Usage(Init(usages)), ContainerUsage(Last(usages)));
      SomeReportsOneMore(usages, Cpu);
      SomeReportsOneMore(usages, Memory);
    }
  }

  ghost predicate SomeReports(usages: seq<Option<Quantities>>, r: Resource) {
    exists j :: 0 <= j < |usages| && ReportsReadably(usages[j], r)
  }

  lemma SomeReportsOneMore(usages: seq<Option<Quantities>>, r: Resource)
    requires usages != []
    ensures SomeReports(usages, r) <==> SomeReports(Init(usages), r) || ReportsReadably(Last(usages), r)
  {
    assert forall j :: 0 <= j < |usages| - 1 ==> Init(usages)[j] == usages[j];
    assert usages[|usages| - 1] == Last(usages);
  }

  lemma {:induction false} TotalsAreBounds(pods: seq<Pod>, metricsByPod: map<string, PodMetrics>)
    ensures Total(pods, metricsByPod).cpuLimit == SumOfBounds(pods, Cpu)
    ensures Total(pods, metricsByPod).memLimit == SumOfBounds(pods, Memory)
  {
    if pods != [] {
      TotalsAreBounds(Init(pods), metricsByPod);
      PodTallyIsItsSums(Last(pods), metricsByPod);
      AddedUp(Total(Init(pods), metricsByPod), PodTally(Last(pods), metricsByPod));
    }
  }

  lemma {:induction false} TotalsAreUse(pods: seq<Pod>, metricsByPod: map<string, PodMetrics>)
    ensures Total(pods, metricsByPod).cpuUsed == SumOfUse(pods, metricsByPod, Cpu)
    ensures Total(pods, metricsByPod).memUsed == SumOfUse(pods, metricsByPod, Memory)
  {
    if pods != [] {
      TotalsAreUse(Init(pods), metricsByPod);
      PodTallyIsItsSums(Last(pods), metricsByPod);
      TotalAddsTheLast(pods, metricsByPod);
      UseAddsTheLast(pods, metricsByPod, Cpu);
      UseAddsTheLast(pods, metricsByPod, Memory);
    }
  }

  lemma TotalAddsTheLast(pods: seq<Pod>, metricsByPod: map<string, PodMetrics>)
    requires pods != []
    ensures Total(pods, metricsByPod).cpuUsed
            == Total(Init(pods), metricsByPod).cpuUsed + PodTally(Last(pods), metricsByPod).cpuUsed
    ensures Total(pods, metricsByPod).memUsed
            == Total(Init(pods), metricsByPod).memUsed + PodTally(Last(pods), metricsByPod).memUsed
  {
    AddedUp(Total(Init(pods), metricsByPod), PodTally(Last(pods), metricsByPod));
  }

  lemma UseAddsTheLast(pods: seq<Pod>, metricsByPod: map<string, PodMetrics>, r: Resource)
    requires pods != []
    ensures SumOfUse(pods, metricsByPod, r)
            == SumOfUse(Init(pods), metricsByPod, r) + ReportedUse(Last(pods), metricsByPod, r)
  {
  }

  lemma PodTallyIsItsSums(pod: Pod, metricsByPod: map<string, PodMetrics>)
    ensures var t := PodTally(pod, metricsByPod);
            && t.cpuLimit == PodBound(pod.resources, Cpu) && t.memLimit == PodBound(pod.resources, Memory)
            && t.cpuUsed == ReportedUse(pod, metricsByPod, Cpu) && t.memUsed == ReportedUse(pod, metricsByPod, Memory)
  {
    LimitsAreBounds(pod.resources);
    LimitsLeaveUsage(pod.resources);
    UsageLeavesLimits(pod, metricsByPod);
    if pod.name in metricsByPod {
      UsageIsUse(metricsByPod[pod.name].usages);
    }
  }

  lemma {:induction false} TotalsAreReported(pods: seq<Pod>, metricsByPod: map<string, PodMetrics>)
    ensures Total(pods, metricsByPod).cpuSeen <==> IsReported(pods, metricsByPod, Cpu)
    ensures Total(pods, metricsByPod).memSeen <==> IsReported(pods, metricsByPod, Memory)
  {
    if pods != [] {
      var init, last := Init(pods), Last(pods);
      TotalsAreReported(init, metricsByPod);
      LimitsLeaveUsage(last.resources);
      if last.name in metricsByPod {
        UsageIsSeen(metricsByPod[last.name].usages);
      }
      ReportedByOneMore(pods, metricsByPod, Cpu);
      ReportedByOneMore(pods, metricsByPod, Memory);
    }
  }

  lemma ReportedByOneMore(pods: seq<Pod>, metricsByPod: map<string, PodMetrics>, r: Resource)
    requires pods != []
    ensures IsReported(pods, metricsByPod, r)
            <==> || IsReported(Init(pods), metricsByPod, r)
                 || (Last(pods).name in metricsByPod && SomeReports(metricsByPod[Last(pods).name].usages, r))
  {
    assert forall i :: 0 <= i < |pods| - 1 ==> Init(pods)[i] == pods[i];
    assert pods[|pods| - 1] == Last(pods);
  }

  lemma ShownTotalsMeasure(pods: seq<Pod>, metricsByPod: map<string, PodMetrics>)
    ensures MeasuresPods(Shown(Total(pods, metricsByPod)), pods, metricsByPod)
  {
    TotalsAreBounds(pods, metricsByPod);
    TotalsAreUse(pods, metricsByPod);
    TotalsAreReported(pods, metricsByPod);
    var t := Total(pods, metricsByPod);
    RatioIsTheShare(t.cpuUsed, t.cpuLimit);
    RatioIsTheShare(t.memUsed, t.memLimit);
  }

  lemma RatioIsTheShare(used: real, limit: real)
    ensures limit <= 0.0 ==> Ratio(used, limit) == 0.0
    ensures 0.0 < limit <= used ==> Ratio(used, limit) == 1.0
    ensures 0.0 < limit && used < limit ==> Ratio(used, limit) == used / limit
  {
    if 0.0 < limit && used < limit {
      ShareIsLess(used, limit);
    }
  }

  lemma ShareIsLess(used: real, limit: real)
    requires 0.0 < limit && used < limit
    ensures used / limit < 1.0
  {
    assert used / limit * limit == used;
  }

  /** One pass for the limits, one for the usage. */
  method BuildServiceMetrics(pods: seq<Pod>, metricsByPod: map<string, PodMetrics>) returns (metrics: ServiceMetrics)
    ensures MeasuresPods(metrics, pods, metricsByPod)
    ensures metrics == Shown(Total(pods, metricsByPod))
  {
    var t := TallyPods(pods, metricsByPod);
    metrics := Shown(t);
    ShownTotalsMeasure(pods, metricsByPod);
  }

  method TallyPods(pods: seq<Pod>, metricsByPod: map<string, PodMetrics>) returns (t: Tally)
    ensures t == Total(pods, metricsByPod)
  {
    t := Zero;
    for i := 0 to |pods|
      invariant SameLimits(t, Total(pods[..i], metricsByPod)) && SameUsage(t, Zero)
    {
      TotalOfOneMore(pods, i, metricsByPod);
      t := AddLimits(t, pods[i].resources);
    }
    assert pods[..|pods|] == pods;
    for i := 0 to |pods|
      invariant SameLimits(t, Total(pods, metricsByPod)) && SameUsage(t, Total(pods[..i], metricsByPod))
    {
      TotalOfOneMore(pods, i, metricsByPod);
      if pods[i].name !in metricsByPod {
        continue;
      }
      t := AddUsage(t, metricsByPod[pods[i].name].usages);
    }
  }

  lemma TotalOfOneMore(pods: seq<Pod>, i: nat, metricsByPod: map<string, PodMetrics>)
    requires i < |pods|
    ensures var before, after := Total(pods[..i], metricsByPod), Total(pods[..i + 1], metricsByPod);
            && SameLimits(after, Add(before, Limits(pods[i].resources)))
            && SameUsage(after, Add(before, PodUsage(pods[i], metricsByPod)))
  {
    assert Init(pods[..i + 1]) == pods[..i];
    LimitsLeaveUsage(pods[i].resources);
    UsageLeavesLimits(pods[i], metricsByPod);
  }

  method AddLimits(t: Tally, containers: seq<Option<Resources>>) returns (sum: Tally)
    ensures SameLimits(sum, Add(t, Limits(containers))) && SameUsage(sum, t)
  {
    sum := t;
    for i := 0 to |containers|
      invariant SameLimits(sum, Add(t, Limits(containers[..i]))) && SameUsage(sum, t)
    {
      assert Init(containers[..i + 1]) == containers[..i];
      if containers[i].None? {
        continue;
      }
      var buckets := [containers[i].value.limits, containers[i].value.requests];
      ghost var before := sum;
      for j := 0 to 2
        invariant sum == before
        invariant forall k :: 0 <= k < j ==> buckets[k].None?
      {
        if buckets[j].None? {
          continue;
        }
        if buckets[j].value.cpu.Amount? {
          sum := sum.(cpuLimit := sum.cpuLimit + buckets[j].value.cpu.n);
        }
        if buckets[j].value.memory.Amount? {
          sum := sum.(memLimit := sum.memLimit + buckets[j].value.memory.n);
        }
        assert j == 1 ==> buckets[0].None?;
        assert Bound(containers[i]) == buckets[j] && SameLimits(sum, Add(before, ContainerLimits(containers[i])));
        break;
      }
      assert buckets[0].None? && buckets[1].None? ==> Bound(containers[i]).None?;
      assert SameLimits(sum, Add(before, ContainerLimits(containers[i]))) && SameUsage(sum, before);
    }
    assert containers[..|containers|] == containers;
  }

  method AddUsage(t: Tally, usages: seq<Option<Quantities>>) returns (sum: Tally)
    ensures SameUsage(sum, Add(t, Usage(usages))) && SameLimits(sum, t)
  {
    sum := t;
    for i := 0 to |usages|
      invariant SameUsage(sum, Add(t, Usage(usages[..i]))) && SameLimits(sum, t)
    {
      assert Init(usages[..i + 1]) == usages[..i];
      if usages[i].None? {
        continue;
      }
      if usages[i].value.cpu.Amount? {
        sum := sum.(cpuUsed := sum.cpuUsed + usages[i].value.cpu.n, cpuSeen := true);
      }
      if usages[i].value.memory.Amount? {
        sum := sum.(memUsed := sum.memUsed + usages[i].value.memory.n, memSeen := true);
      }
    }
    assert usages[..|usages|] == usages;
  }

  lemma {:induction false} LimitsLeaveUsage(containers: seq<Option<Resources>>)
    ensures SameUsage(Limits(containers), Zero)
  {
    if containers != [] {
      LimitsLeaveUsage(Init(containers));
    }
  }

  lemma {:induction false} UsageLeavesLimitsOf(usages: seq<Option<Quantities>>)
    ensures SameLimits(Usage(usages), Zero)
  {
    if usages != [] {
      UsageLeavesLimitsOf(Init(usages));
    }
  }

  lemma UsageLeavesLimits(pod: Pod, metricsByPod: map<string, PodMetrics>)
    ensures SameLimits(PodUsage(pod, metricsByPod), Zero)
  {
    if pod.name in metricsByPod {
      UsageLeavesLimitsOf(metricsByPod[pod.name].usages);
    }
  }

  // --- The pods of a service ---

  predicate CarriesOneOf(pod: Pod, names: set<string>) {
    pod.instance.Some? && pod.instance.value in names
  }

  /** The pods whose instance label is one of the names. */
  function Labelled(pods: seq<Pod>, names: set<string>): seq<Pod> {
    if pods == [] then []
    else
      var rest := Labelled(Init(pods), names);
      if CarriesOneOf(Last(pods), names) then rest + [Last(pods)] else rest
  }

  /** The names of an `in (…)` label selector. */
  function SplitNames(text: string): seq<string>
    decreases |text|
  {
    var cut := Cut(text, ',');
    if cut.None? then [text]
    else [cut.value.0] + SplitNames(cut.value.1)
  }

  /** A name that is a name: not empty, no comma. */
  predicate IsName(name: string) {
    name != "" && ',' !in name
  }

  lemma {:induction false} SplitNamesUndoesJoin(names: seq<string>)
    requires names != [] && forall i :: 0 <= i < |names| ==> IsName(names[i])
    ensures SplitNames(Join(names, ',')) == names
  {
    if |names| > 1 {
      CutUndoesJoin(names[0], ',', Join(names[1..], ','));
      SplitNamesUndoesJoin(names[1..]);
    }
  }

  const LABEL_SIZE: nat := 63

  /** The names are short enough to be the values of a label. */
  predicate FitLabels(names: seq<string>) {
    forall i :: 0 <= i < |names| ==> |names[i]| <= LABEL_SIZE
  }

  /** What the API server answers a list with that selector. A selector that asks for
      a value no label can have is refused. */
  function Selected(pods: seq<Pod>, selector: string): Option<seq<Pod>> {
    if FitLabels(SplitNames(selector)) then Some(Labelled(pods, set name | name in SplitNames(selector))) else None
  }

  function MetricsByName(list: seq<PodMetrics>): map<string, PodMetrics> {
    if list == [] then map[] else MetricsByName(Init(list))[Last(list).name := Last(list)]
  }

  function PodMetricsIn(c: Cluster, namespace: string): map<string, PodMetrics> {
    if namespace in c.podMetrics then MetricsByName(c.podMetrics[namespace]) else map[]
  }

  method ListPodMetricsByName(c: Cluster, namespace: string) returns (byName: map<string, PodMetrics>)
    ensures byName == PodMetricsIn(c, namespace)
  {
    byName := map[];
    if namespace !in c.podMetrics {
      return;
    }
    var list := c.podMetrics[namespace];
    for i := 0 to |list|
      invariant byName == MetricsByName(list[..i])
    {
      assert Init(list[..i + 1]) == list[..i];
      byName := byName[list[i].name := list[i]];
    }
    assert list[..|list|] == list;
  }

  /** The service's metrics: those of the pods that carry the name of one of the
      HelmReleases of its Release. */
  function MetricsOf(c: Cluster, project: string, releaseName: string): Option<ServiceMetrics> {
    var names := InstanceNames(c, project, releaseName);
    if names.None? || project !in c.pods then None
    else Some(Shown(Total(Labelled(c.pods[project], set name | name in names.value), PodMetricsIn(c, project))))
  }

  /** What the single form answers: the metrics, unless a name is too long to select by. */
  function ServiceMetricsOf(c: Cluster, project: string, serviceName: string): Option<ServiceMetrics> {
    var names := InstanceNames(c, project, project + "-" + serviceName);
    if names.Some? && FitLabels(names.value) then MetricsOf(c, project, project + "-" + serviceName) else None
  }

  /** HelmReleases have names. */
  ghost predicate WellNamed(c: Cluster) {
    forall ns, i :: ns in c.helmReleases && 0 <= i < |c.helmReleases[ns]| ==> IsName(c.helmReleases[ns][i].name)
  }

  lemma InstanceNamesAreNames(c: Cluster, project: string, releaseName: string)
    requires WellNamed(c) && InstanceNames(c, project, releaseName).Some?
    ensures forall i :: 0 <= i < |InstanceNames(c, project, releaseName).value|
                        ==> IsName(InstanceNames(c, project, releaseName).value[i])
  {
    var names := InstanceNames(c, project, releaseName).value;
    forall i | 0 <= i < |names|
      ensures IsName(names[i])
    {
      NamesAreOwned(c.helmReleases[project], c.releases[(project, releaseName)], names[i]);
    }
  }

  // --- Whose pods are measured, and with which reports ---

  /** The pod carries the name of a HelmRelease of the Release. */
  ghost predicate IsPodOf(c: Cluster, project: string, releaseName: string, pod: Pod) {
    exists h :: OwnsHelmRelease(c, project, releaseName, h) && pod.instance == Some(c.helmReleases[project][h].name)
  }

  /** These are the Release's pods, each as often as the project has it. */
  ghost predicate ArePodsOf(c: Cluster, project: string, releaseName: string, pods: seq<Pod>)
    requires project in c.pods
  {
    forall pod :: multiset(pods)[pod]
                  == if IsPodOf(c, project, releaseName, pod) then multiset(c.pods[project])[pod] else 0
  }

  /** Report i of the list is the last for its pod. */
  ghost predicate LastReport(list: seq<PodMetrics>, name: string, i: int) {
    0 <= i < |list| && list[i].name == name && forall j :: i < j < |list| ==> list[j].name != name
  }

  /** The reports by pod name, none when they cannot be listed. */
  ghost predicate AreReports(c: Cluster, project: string, metricsByPod: map<string, PodMetrics>) {
    var list := if project in c.podMetrics then c.podMetrics[project] else [];
    && (forall name :: name in metricsByPod <==> exists i :: LastReport(list, name, i))
    && (forall name, i :: LastReport(list, name, i) ==> Lookup(metricsByPod, name) == Some(list[i]))
  }

  /** The figures are those of the Release's pods. */
  ghost predicate MeasuresRelease(c: Cluster, project: string, releaseName: string, m: ServiceMetrics)
    requires project in c.pods
  {
    exists pods, metricsByPod :: && ArePodsOf(c, project, releaseName, pods) && AreReports(c, project, metricsByPod)
                                 && MeasuresPods(m, pods, metricsByPod)
  }

  lemma {:induction false} LabelledIsASelection(pods: seq<Pod>, names: set<string>, pod: Pod)
    ensures multiset(Labelled(pods, names))[pod] == if CarriesOneOf(pod, names) then multiset(pods)[pod] else 0
  {
    if pods != [] {
      LabelledIsASelection(Init(pods), names, pod);
      assert pods == Init(pods) + [Last(pods)];
    }
  }

  lemma {:induction false} ReportsAreTheLast(list: seq<PodMetrics>, name: string)
    ensures name in MetricsByName(list) <==> exists i :: LastReport(list, name, i)
    ensures forall i :: LastReport(list, name, i) ==> Lookup(MetricsByName(list), name) == Some(list[i])
  {
    if list != [] {
      var n, init := |list| - 1, Init(list);
      ReportsAreTheLast(init, name);
      if list[n].name == name {
        assert LastReport(list, name, n);
      } else {
        forall i
          ensures LastReport(list, name, i) <==> LastReport(init, name, i)
        {
          assert forall j :: 0 <= j < n ==> init[j] == list[j];
        }
      }
    }
  }

  lemma CarriesOneOfItsNames(c: Cluster, project: string, releaseName: string, pod: Pod)
    requires InstanceNames(c, project, releaseName).Some?
    ensures CarriesOneOf(pod, set name | name in InstanceNames(c, project, releaseName).value)
            <==> IsPodOf(c, project, releaseName, pod)
  {
    var hrs, uid := c.helmReleases[project], c.releases[(project, releaseName)];
    if pod.instance.Some? {
      NamesAreOwned(hrs, uid, pod.instance.value);
      if h :| 0 <= h < |hrs| && hrs[h].name == pod.instance.value && uid in hrs[h].owners {
        assert OwnsHelmRelease(c, project, releaseName, h);
      }
    }
  }

  /** The metrics of a Release measure its pods. */
  lemma MetricsMeasureTheRelease(c: Cluster, project: string, releaseName: string)
    requires MetricsOf(c, project, releaseName).Some?
    ensures MeasuresRelease(c, project, releaseName, MetricsOf(c, project, releaseName).value)
  {
    var names := set name | name in InstanceNames(c, project, releaseName).value;
    var pods, metricsByPod := Labelled(c.pods[project], names), PodMetricsIn(c, project);
    forall pod
      ensures multiset(pods)[pod]
              == if IsPodOf(c, project, releaseName, pod) then multiset(c.pods[project])[pod] else 0
    {
      LabelledIsASelection(c.pods[project], names, pod);
      CarriesOneOfItsNames(c, project, releaseName, pod);
    }
    assert ArePodsOf(c, project, releaseName, pods);
    var list := if project in c.podMetrics then c.podMetrics[project] else [];
    forall name
      ensures name in metricsByPod <==> exists i :: LastReport(list, name, i)
      ensures forall i :: LastReport(list, name, i) ==> Lookup(metricsByPod, name) == Some(list[i])
    {
      ReportsAreTheLast(list, name);
    }
    assert AreReports(c, project, metricsByPod);
    ShownTotalsMeasure(pods, metricsByPod);
  }

  /** There is a HelmRelease of the Release exactly when it has names. */
  lemma NamedExactlyWhenOwned(c: Cluster, project: string, releaseName: string)
    ensures InstanceNames(c, project, releaseName).Some? <==> exists h :: OwnsHelmRelease(c, project, releaseName, h)
    ensures InstanceNames(c, project, releaseName).Some? ==>
              (FitLabels(InstanceNames(c, project, releaseName).value)
               <==> forall h :: OwnsHelmRelease(c, project, releaseName, h)
                                ==> |c.helmReleases[project][h].name| <= 63)
  {
    if (project, releaseName) in c.releases && project in c.helmReleases {
      var hrs, uid := c.helmReleases[project], c.releases[(project, releaseName)];
      var names := OwnedNames(hrs, uid);
      forall h | OwnsHelmRelease(c, project, releaseName, h)
        ensures hrs[h].name in names
      {
        NamesAreOwned(hrs, uid, hrs[h].name);
      }
      forall i | 0 <= i < |names|
        ensures exists h :: OwnsHelmRelease(c, project, releaseName, h) && hrs[h].name == names[i]
      {
        NamesAreOwned(hrs, uid, names[i]);
        var h :| 0 <= h < |hrs| && hrs[h].name == names[i] && uid in hrs[h].owners;
        assert OwnsHelmRelease(c, project, releaseName, h);
      }
      if names != [] {
        NamesAreOwned(hrs, uid, names[0]);
        var h :| 0 <= h < |hrs| && hrs[h].name == names[0] && uid in hrs[h].owners;
        assert OwnsHelmRelease(c, project, releaseName, h);
      }
    }
  }

  /** The single form asks the API server to select the pods. */
  method GetServiceMetrics(c: Cluster, project: string, serviceName: string) returns (metrics: Option<ServiceMetrics>)
    requires WellNamed(c)
    ensures metrics == ServiceMetricsOf(c, project, serviceName)
    ensures metrics.Some?
        ==> project in c.pods && MeasuresRelease(c, project, project + "-" + serviceName, metrics.value)
    ensures metrics.Some?
            <==> && project in c.pods
                 && (exists h :: OwnsHelmRelease(c, project, project + "-" + serviceName, h))
                 && (forall h :: OwnsHelmRelease(c, project, project + "-" + serviceName, h)
                                 ==> |c.helmReleases[project][h].name| <= 63)
  {
    NamedExactlyWhenOwned(c, project, project + "-" + serviceName);
    var releaseName := project + "-" + serviceName;
    var names := ReleaseInstanceNames(c, project, releaseName);
    if names.None? {
      return None;
    }
    var selector := Join(names.value, ',');
    if project !in c.pods {
      return None;
    }
    InstanceNamesAreNames(c, project, releaseName);
    SplitNamesUndoesJoin(names.value);
    var pods := Selected(c.pods[project], selector);
    if pods.None? {
      return None;
    }
    var metricsByPod := ListPodMetricsByName(c, project);
    var built := BuildServiceMetrics(pods.value, metricsByPod);
    MetricsMeasureTheRelease(c, project, releaseName);
    return Some(built);
  }

  /** The last instance of a name that can be read speaks for it. */
  function ProjectMetrics(c: Cluster, project: string, instances: seq<Instance>): map<string, ServiceMetrics> {
    if instances == [] then map[]
    else
      var rest := ProjectMetrics(c, project, Init(instances));
      var metrics := MetricsOf(c, project, Last(instances).releaseName);
      if metrics.Some? then rest[Last(instances).name := metrics.value] else rest
  }

  /** The batch form lists the pods and the metrics once, and selects by itself; a
      pod without the label reads as labelled "". */
  method GetProjectMetrics(c: Cluster, project: string, instances: seq<Instance>)
    returns (metrics: Option<map<string, ServiceMetrics>>)
    requires WellNamed(c)
    ensures metrics == if project in c.pods then Some(ProjectMetrics(c, project, instances)) else None
    ensures metrics.Some? ==>
              forall name :: name in metrics.value
                             ==> exists k :: && 0 <= k < |instances| && instances[k].name == name
                                             && MeasuresRelease(c, project, instances[k].releaseName,
                                               metrics.value[name])
  {
    if project !in c.pods {
      return None;
    }
    var allPods := c.pods[project];
    var metricsByPod := ListPodMetricsByName(c, project);
    var found: map<string, ServiceMetrics> := map[];
    for i := 0 to |instances|
      invariant found == ProjectMetrics(c, project, instances[..i])
    {
      assert Init(instances[..i + 1]) == instances[..i];
      var names := ReleaseInstanceNames(c, project, instances[i].releaseName);
      if names.None? {
        continue;
      }
      InstanceNamesAreNames(c, project, instances[i].releaseName);
      var pods := PodsNamed(allPods, names.value);
      var built := BuildServiceMetrics(pods, metricsByPod);
      found := found[instances[i].name := built];
    }
    assert instances[..|instances|] == instances;
    EachIsMeasured(c, project, instances);
    return Some(found);
  }

  lemma EachIsMeasured(c: Cluster, project: string, instances: seq<Instance>)
    requires project in c.pods
    ensures forall name :: name in ProjectMetrics(c, project, instances)
                           ==> exists k :: && 0 <= k < |instances| && instances[k].name == name
                                           && MeasuresRelease(c, project, instances[k].releaseName,
                                                              ProjectMetrics(c, project, instances)[name])
  {
    var metrics := ProjectMetrics(c, project, instances);
    forall name | name in metrics
      ensures exists k :: && 0 <= k < |instances| && instances[k].name == name
                          && MeasuresRelease(c, project, instances[k].releaseName, metrics[name])
    {
      ProjectMetricsAreOfTheListed(c, project, instances, name);
      var k :| Speaks(c, project, instances, name, k);
      MetricsMeasureTheRelease(c, project, instances[k].releaseName);
    }
  }

  method PodsNamed(allPods: seq<Pod>, names: seq<string>) returns (pods: seq<Pod>)
    requires "" !in names
    ensures pods == Labelled(allPods, set name | name in names)
  {
    pods := [];
    for i := 0 to |allPods|
      invariant pods == Labelled(allPods[..i], set name | name in names)
    {
      assert Init(allPods[..i + 1]) == allPods[..i];
      var carried := if allPods[i].instance.Some? then allPods[i].instance.value else "";
      if carried in names {
        pods := pods + [allPods[i]];
      }
    }
    assert allPods[..|allPods|] == allPods;
  }

  // --- Both forms agree ---

  /** Instance k speaks for its name: it can be read, and no later one of that name can. */
  ghost predicate Speaks(c: Cluster, project: string, instances: seq<Instance>, name: string, k: int) {
    && 0 <= k < |instances| && instances[k].name == name && MetricsOf(c, project, instances[k].releaseName).Some?
    && forall j :: k < j < |instances| && instances[j].name == name
                   ==> MetricsOf(c, project, instances[j].releaseName).None?
  }

  /** The project's metrics of a name are those of the Release of the instance that
      speaks for it, and absent when none does. */
  lemma {:induction false} ProjectMetricsAreOfTheListed(c: Cluster, project: string, instances: seq<Instance>,
                                                        name: string)
    ensures forall k :: Speaks(c, project, instances, name, k)
                        ==> Lookup(ProjectMetrics(c, project, instances), name)
                            == MetricsOf(c, project, instances[k].releaseName)
    ensures Lookup(ProjectMetrics(c, project, instances), name).Some?
            <==> exists k :: Speaks(c, project, instances, name, k)
  {
    if instances != [] {
      var n, init := |instances| - 1, Init(instances);
      ProjectMetricsAreOfTheListed(c, project, init, name);
      if instances[n].name == name && MetricsOf(c, project, instances[n].releaseName).Some? {
        assert Speaks(c, project, instances, name, n);
      } else {
        forall k
          ensures Speaks(c, project, instances, name, k) <==> Speaks(c, project, init, name, k)
        {
          SpeaksBefore(c, project, instances, name, k);
        }
      }
    }
  }

  lemma SpeaksBefore(c: Cluster, project: string, instances: seq<Instance>, name: string, k: int)
    requires instances != []
    requires Last(instances).name == name ==> MetricsOf(c, project, Last(instances).releaseName).None?
    ensures Speaks(c, project, instances, name, k) <==> Speaks(c, project, Init(instances), name, k)
  {
    assert forall j :: 0 <= j < |instances| - 1 ==> Init(instances)[j] == instances[j];
    assert Last(instances) == instances[|instances| - 1];
  }

  /** Both forms answer the same for a name exactly when the instance that speaks for it
      has the metrics the single form finds, or neither form has any. */
  lemma ProjectMetricsAreServiceMetrics(c: Cluster, project: string, instances: seq<Instance>, name: string)
    ensures Lookup(ProjectMetrics(c, project, instances), name) == ServiceMetricsOf(c, project, name)
            <==> var own := ServiceMetricsOf(c, project, name);
                 if own.Some?
                 then exists k :: Speaks(c, project, instances, name, k)
                                  && MetricsOf(c, project, instances[k].releaseName) == own
                 else forall k :: !Speaks(c, project, instances, name, k)
  {
    ProjectMetricsAreOfTheListed(c, project, instances, name);
  }

  /** Releases are named after their project and instance, as they are created. */
  ghost predicate NamedByProject(project: string, instances: seq<Instance>) {
    forall i :: 0 <= i < |instances| ==> instances[i].releaseName == project + "-" + instances[i].name
  }

  ghost predicate IsListed(instances: seq<Instance>, name: string) {
    exists i :: 0 <= i < |instances| && instances[i].name == name
  }

  lemma {:induction false} SomeoneSpeaks(c: Cluster, project: string, instances: seq<Instance>, name: string)
    requires NamedByProject(project, instances) && MetricsOf(c, project, project + "-" + name).Some?
    ensures IsListed(instances, name) <==> exists k :: Speaks(c, project, instances, name, k)
  {
    if instances != [] {
      var n, init := |instances| - 1, Init(instances);
      assert forall i :: 0 <= i < n ==> init[i] == instances[i];
      SomeoneSpeaks(c, project, init, name);
      if instances[n].name == name {
        assert Speaks(c, project, instances, name, n);
      } else {
        forall k
          ensures Speaks(c, project, instances, name, k) <==> Speaks(c, project, init, name, k)
        {
          SpeaksBefore(c, project, instances, name, k);
        }
      }
    }
  }

  /** For releases so named, both forms answer the same for a name exactly when its
      Release has no metrics, or is listed and has HelmRelease names that fit a label,
      or is neither listed nor has such names. */
  lemma NamedReleasesAreMeasuredAlike(c: Cluster, project: string, instances: seq<Instance>, name: string)
    requires NamedByProject(project, instances)
    ensures Lookup(ProjectMetrics(c, project, instances), name) == ServiceMetricsOf(c, project, name)
            <==> || MetricsOf(c, project, project + "-" + name).None?
                 || (IsListed(instances, name) <==> FitLabels(InstanceNames(c, project, project + "-" + name).value))
  {
    ProjectMetricsAreOfTheListed(c, project, instances, name);
    if MetricsOf(c, project, project + "-" + name).Some? {
      SomeoneSpeaks(c, project, instances, name);
    }
  }

  /** A Release that is not listed, for want of the label, has metrics of its own and
      none in its project's. */
  lemma AnUnlistedReleaseIsMeasuredAloneOnly(c: Cluster, project: string, instances: seq<Instance>, name: string)
    requires !IsListed(instances, name) && ServiceMetricsOf(c, project, name).Some?
    ensures name !in ProjectMetrics(c, project, instances)
  {
    ProjectMetricsAreOfTheListed(c, project, instances, name);
  }

  /** A Release labelled with a name it is not called by has metrics in its project's
      under that name, where the single form finds no Release. */
  lemma ARenamedReleaseIsMeasuredInTheProjectOnly(c: Cluster, project: string, instance: Instance)
    requires (project, project + "-" + instance.name) !in c.releases
    requires MetricsOf(c, project, instance.releaseName).Some?
    ensures instance.name in ProjectMetrics(c, project, [instance]) && ServiceMetricsOf(c, project, instance.name).None?
  {
    assert [instance][0] == instance;
    assert Speaks(c, project, [instance], instance.name, 0);
    ProjectMetricsAreOfTheListed(c, project, [instance], instance.name);
  }

  /** A listed service whose HelmRelease has a name of 64 characters or more has metrics
      in its project's and none of its own. */
  lemma ALongNameIsMeasuredInTheProjectOnly(c: Cluster, project: string, instance: Instance, long: string, uid: string)
    requires instance.releaseName == project + "-" + instance.name && |long| > LABEL_SIZE
    requires Lookup(c.helmReleases, project) == Some([HelmRelease(long, [uid])])
    requires (project, instance.releaseName) in c.releases && c.releases[(project, instance.releaseName)] == uid
    requires project in c.pods
    ensures instance.name in ProjectMetrics(c, project, [instance]) && ServiceMetricsOf(c, project, instance.name).None?
  {
    var release := HelmRelease(long, [uid]);
    assert Init([release]) == [] && Last([release]) == release && Init([instance]) == [];
    assert OwnedNames([release], uid) == [long];
    assert InstanceNames(c, project, instance.releaseName) == Some([long]);
    assert [long][0] == long && !FitLabels([long]);
  }

  // --- Nothing is counted twice, nothing is lost ---

  lemma TotalOfLabelled(pods: seq<Pod>, metricsByPod: map<string, PodMetrics>, names: set<string>)
    requires pods != []
    ensures var before := Total(Labelled(Init(pods), names), metricsByPod);
            Total(Labelled(pods, names), metricsByPod)
            == if CarriesOneOf(Last(pods), names) then Add(before, PodTally(Last(pods), metricsByPod)) else before
  {
    var before := Labelled(Init(pods), names);
    assert Init(before + [Last(pods)]) == before;
  }

  lemma SumsRegroup(a: Tally, b: Tally, more: Tally)
    ensures Add(Add(a, more), b) == Add(Add(a, b), more)
    ensures Add(a, Add(b, more)) == Add(Add(a, b), more)
  {
  }

  lemma {:induction false} TallyOfTwo(pods: seq<Pod>, metricsByPod: map<string, PodMetrics>, a: set<string>,
                                      b: set<string>)
    requires a !! b
    ensures Total(Labelled(pods, a + b), metricsByPod)
            == Add(Total(Labelled(pods, a), metricsByPod), Total(Labelled(pods, b), metricsByPod))
  {
    if pods != [] {
      var rest := Init(pods);
      TallyOfTwo(rest, metricsByPod, a, b);
      TotalOfLabelled(pods, metricsByPod, a);
      TotalOfLabelled(pods, metricsByPod, b);
      TotalOfLabelled(pods, metricsByPod, a + b);
      SumsRegroup(Total(Labelled(rest, a), metricsByPod), Total(Labelled(rest, b), metricsByPod),
        PodTally(Last(pods), metricsByPod));
    }
  }

  function NamesOf(c: Cluster, project: string, releaseName: string): set<string> {
    var names := InstanceNames(c, project, releaseName);
    if names.None? then {} else set name | name in names.value
  }

  function AllNames(c: Cluster, project: string, releases: seq<string>): set<string> {
    if releases == [] then {} else AllNames(c, project, Init(releases)) + NamesOf(c, project, Last(releases))
  }

  function SumOfAll(c: Cluster, project: string, releases: seq<string>, pods: seq<Pod>,
                    metricsByPod: map<string, PodMetrics>): Tally {
    if releases == [] then Zero
    else Add(SumOfAll(c, project, Init(releases), pods, metricsByPod),
             Total(Labelled(pods, NamesOf(c, project, Last(releases))), metricsByPod))
  }

  /** No HelmRelease has two of the Releases for owners. */
  ghost predicate OneOwnerEach(c: Cluster, project: string, releases: seq<string>) {
    forall i, j :: 0 <= i < j < |releases| ==> !Share(c, project, releases[i], releases[j])
  }

  lemma {:induction false} NamesComeFromReleases(c: Cluster, project: string, releases: seq<string>, name: string)
    ensures name in AllNames(c, project, releases)
        <==> exists i :: 0 <= i < |releases| && name in NamesOf(c, project, releases[i])
  {
    if releases != [] {
      NamesComeFromReleases(c, project, Init(releases), name);
      assert forall i :: 0 <= i < |releases| - 1 ==> Init(releases)[i] == releases[i];
    }
  }

  lemma ApartUnlessShared(c: Cluster, project: string, a: string, b: string)
    requires !Share(c, project, a, b)
    requires project in c.helmReleases ==> NamesApart(c.helmReleases[project])
    ensures NamesOf(c, project, a) !! NamesOf(c, project, b)
  {
    if name :| name in NamesOf(c, project, a) && name in NamesOf(c, project, b) {
      NamesAreOwned(c.helmReleases[project], c.releases[(project, a)], name);
      NamesAreOwned(c.helmReleases[project], c.releases[(project, b)], name);
      assert false;
    }
  }

  /** The tallies of a project's Releases add up to the tally of the pods that carry
      a HelmRelease of any of them: no pod counts for two services and none of
      theirs is left out, when each HelmRelease has one owner. */
  lemma {:induction false} ServicesShareOutThePods(c: Cluster, project: string, releases: seq<string>, pods: seq<Pod>,
                                                   metricsByPod: map<string, PodMetrics>)
    requires OneOwnerEach(c, project, releases)
    requires project in c.helmReleases ==> NamesApart(c.helmReleases[project])
    ensures SumOfAll(c, project, releases, pods, metricsByPod)
            == Total(Labelled(pods, AllNames(c, project, releases)), metricsByPod)
  {
    if releases == [] {
      NobodysPods(pods);
    } else {
      var rest := Init(releases);
      ServicesShareOutThePods(c, project, rest, pods, metricsByPod);
      forall name | name in AllNames(c, project, rest)
        ensures name !in NamesOf(c, project, Last(releases))
      {
        NamesComeFromReleases(c, project, rest, name);
        var i :| 0 <= i < |rest| && name in NamesOf(c, project, rest[i]);
        ApartUnlessShared(c, project, releases[i], Last(releases));
      }
      TallyOfTwo(pods, metricsByPod, AllNames(c, project, rest), NamesOf(c, project, Last(releases)));
    }
  }

  lemma {:induction false} NobodysPods(pods: seq<Pod>)
    ensures Labelled(pods, {}) == []
  {
    if pods != [] {
      NobodysPods(Init(pods));
    }
  }
}
