/** Enriching many instances at once with what the cluster says, against doing it
    one instance at a time (internal/service/service_service.go: enrichWithURL and
    setURLIfExposed, enrichWithPodHealth and EnrichPodHealth). The cluster is one
    snapshot: what a call answers, failures included, depends on its arguments. */
module BatchViews {
  import opened Basics

  datatype Instance = Instance(name: string, releaseName: string, service: string, status: string,
                               targetNamespace: string, url: string, roles: seq<string>)

  datatype HelmRelease = HelmRelease(name: string, owners: seq<string>)

  /** A rule without a host that is a string is None; an Ingress without the
      HelmRelease label is owned by "". */
  datatype Ingress = Ingress(owner: string, rules: seq<Option<string>>)

  datatype Container = Container(name: Option<string>, ready: bool, waiting: Option<string>, terminated: Option<string>)

  /** A quantity as its parser leaves it; one that does not parse counts for nothing. */
  datatype Quantity = Absent | Unreadable | Amount(n: real)

  datatype Quantities = Quantities(cpu: Quantity, memory: Quantity)

  /** What a container asks for; a block that is absent is None. */
  datatype Resources = Resources(limits: Option<Quantities>, requests: Option<Quantities>)

  datatype Pod = Pod(name: string, instance: Option<string>, containers: seq<Container>,
    resources: seq<Option<Resources>>)

  datatype PodMetrics = PodMetrics(name: string, usages: seq<Option<Quantities>>)

  /** A list that is absent cannot be read, nor can a Release. */
  datatype Cluster = Cluster(
    suffix: Option<string>,
    releases: map<(string, string), string>,
    helmReleases: map<string, seq<HelmRelease>>,
    ingresses: map<string, seq<Ingress>>,
    pods: map<string, seq<Pod>>,
    podMetrics: map<string, seq<PodMetrics>>)

  // --- The HelmReleases of a Release ---

  function OwnedNames(helmReleases: seq<HelmRelease>, uid: string): seq<string> {
    if helmReleases == [] then []
    else
      var rest := OwnedNames(Init(helmReleases), uid);
      if uid in Last(helmReleases).owners then rest + [Last(helmReleases).name] else rest
  }

  function InstanceNames(c: Cluster, namespace: string, releaseName: string): Option<seq<string>> {
    if (namespace, releaseName) !in c.releases || namespace !in c.helmReleases then None
    else
      var names := OwnedNames(c.helmReleases[namespace], c.releases[(namespace, releaseName)]);
      if names == [] then None else Some(names)
  }

  lemma {:induction false} NamesAreOwned(helmReleases: seq<HelmRelease>, uid: string, name: string)
    ensures name in OwnedNames(helmReleases, uid)
            <==> exists i :: 0 <= i < |helmReleases| && helmReleases[i].name == name && uid in helmReleases[i].owners
  {
    if helmReleases != [] {
      NamesAreOwned(Init(helmReleases), uid, name);
      assert forall i :: 0 <= i < |helmReleases| - 1 ==> Init(helmReleases)[i] == helmReleases[i];
    }
  }

  /** The Release can be read in the namespace and owns HelmRelease h. */
  ghost predicate OwnsHelmRelease(c: Cluster, namespace: string, releaseName: string, h: int) {
    && (namespace, releaseName) in c.releases && namespace in c.helmReleases
    && 0 <= h < |c.helmReleases[namespace]|
    && c.releases[(namespace, releaseName)] in c.helmReleases[namespace][h].owners
  }

  /** The names are those of the HelmReleases of the Release; there is an error exactly
      when it has none. */
  ghost predicate AreItsNames(c: Cluster, namespace: string, releaseName: string, names: Option<seq<string>>) {
    && (names.Some? <==> exists h :: OwnsHelmRelease(c, namespace, releaseName, h))
    && (names.Some? ==> forall name :: name in names.value
                                       <==> exists h :: && OwnsHelmRelease(c, namespace, releaseName, h)
                                                        && c.helmReleases[namespace][h].name == name)
  }

  lemma InstanceNamesAreItsNames(c: Cluster, namespace: string, releaseName: string)
    ensures AreItsNames(c, namespace, releaseName, InstanceNames(c, namespace, releaseName))
  {
    if (namespace, releaseName) in c.releases && namespace in c.helmReleases {
      var hrs, uid := c.helmReleases[namespace], c.releases[(namespace, releaseName)];
      var names := OwnedNames(hrs, uid);
      forall name
        ensures name in names <==> exists h :: OwnsHelmRelease(c, namespace, releaseName, h) && hrs[h].name == name
      {
        NamesAreOwned(hrs, uid, name);
        if h :| 0 <= h < |hrs| && hrs[h].name == name && uid in hrs[h].owners {
          assert OwnsHelmRelease(c, namespace, releaseName, h);
        }
      }
      if names != [] {
        assert names[0] in names;
      }
      if h :| OwnsHelmRelease(c, namespace, releaseName, h) {
        assert hrs[h].name in names;
      }
    }
  }

  method ReleaseInstanceNames(c: Cluster, namespace: string, releaseName: string) returns (names: Option<seq<string>>)
    ensures names == InstanceNames(c, namespace, releaseName)
    ensures AreItsNames(c, namespace, releaseName, names)
  {
    InstanceNamesAreItsNames(c, namespace, releaseName);
    if (namespace, releaseName) !in c.releases || namespace !in c.helmReleases {
      return None;
    }
    var uid, helmReleases := c.releases[(namespace, releaseName)], c.helmReleases[namespace];
    var found: seq<string> := [];
    for i := 0 to |helmReleases|
      invariant found == OwnedNames(helmReleases[..i], uid)
    {
      assert Init(helmReleases[..i + 1]) == helmReleases[..i];
      for j := 0 to |helmReleases[i].owners|
        invariant uid !in helmReleases[i].owners[..j]
        invariant found == OwnedNames(helmReleases[..i], uid)
      {
        if helmReleases[i].owners[j] == uid {
          found := found + [helmReleases[i].name];
          break;
        }
      }
    }
    assert helmReleases[..|helmReleases|] == helmReleases;
    return if found == [] then None else Some(found);
  }

  // --- The hosts an Ingress routes ---

  function RuleHosts(hosts: map<string, string>, rules: seq<Option<string>>, owner: string): map<string, string> {
    if rules == [] then hosts
    else
      var before := RuleHosts(hosts, Init(rules), owner);
      if Last(rules).Some? && Last(rules).value != "" then before[Last(rules).value := owner] else before
  }

  function IngressHosts(items: seq<Ingress>): map<string, string> {
    if items == [] then map[]
    else if Last(items).owner == "" then IngressHosts(Init(items))
    else RuleHosts(IngressHosts(Init(items)), Last(items).rules, Last(items).owner)
  }

  method IngressHostsFromItems(items: seq<Ingress>) returns (hosts: map<string, string>)
    ensures hosts == IngressHosts(items)
  {
    hosts := map[];
    for i := 0 to |items|
      invariant hosts == IngressHosts(items[..i])
    {
      assert Init(items[..i + 1]) == items[..i];
      var owner, rules := items[i].owner, items[i].rules;
      if owner == "" {
        continue;
      }
      ghost var before := hosts;
      for j := 0 to |rules|
        invariant hosts == RuleHosts(before, rules[..j], owner)
      {
        assert Init(rules[..j + 1]) == rules[..j];
        if rules[j].Some? && rules[j].value != "" {
          hosts := hosts[rules[j].value := owner];
        }
      }
      assert rules[..|rules|] == rules;
    }
    assert items[..|items|] == items;
  }

  ghost predicate Routes(ingress: Ingress, host: string) {
    ingress.owner != "" && host != "" && Some(host) in ingress.rules
  }

  /** A host belongs to the last Ingress that routes it. */
  ghost predicate RoutedBy(items: seq<Ingress>, host: string, i: int) {
    && 0 <= i < |items| && Routes(items[i], host)
    && forall j :: i < j < |items| ==> !Routes(items[j], host)
  }

  lemma {:induction false} RuleHostsAre(hosts: map<string, string>, rules: seq<Option<string>>, owner: string,
                                        host: string)
    ensures Lookup(RuleHosts(hosts, rules, owner), host)
            == if host != "" && Some(host) in rules then Some(owner) else Lookup(hosts, host)
  {
    if rules != [] {
      RuleHostsAre(hosts, Init(rules), owner, host);
      assert rules == Init(rules) + [Last(rules)];
    }
  }

  lemma {:induction false} HostsAreRouted(items: seq<Ingress>, host: string)
    ensures host in IngressHosts(items) <==> exists i :: RoutedBy(items, host, i)
    ensures forall i :: RoutedBy(items, host, i) ==> Lookup(IngressHosts(items), host) == Some(items[i].owner)
  {
    if items != [] {
      var n := |items| - 1;
      HostsAreRouted(Init(items), host);
      RuleHostsAre(IngressHosts(Init(items)), Last(items).rules, Last(items).owner, host);
      if Routes(items[n], host) {
        assert RoutedBy(items, host, n);
      } else {
        forall i
          ensures RoutedBy(items, host, i) <==> RoutedBy(Init(items), host, i)
        {
          if RoutedBy(Init(items), host, i) {
            forall j | i < j < |items|
              ensures !Routes(items[j], host)
            {
              if j < n {
                assert !Routes(Init(items)[j], host);
              }
            }
          }
        }
      }
    }
  }

  // --- URLs ---

  function RoleHosts(roles: seq<string>, namespace: string, suffix: string): seq<string> {
    if roles == [] then []
    else
      var rest := RoleHosts(Init(roles), namespace, suffix);
      if Last(roles) == "storage" then rest + ["storage-" + namespace + "." + suffix]
      else if Last(roles) == "spark" then rest + ["spark-web-proxy-" + namespace + "." + suffix]
      else rest
  }

  function NamedHosts(name: string, namespace: string, suffix: string): seq<string> {
    [name + "-console-" + namespace + "." + suffix, name + "-" + namespace + "." + suffix]
  }

  /** The hosts that could expose an instance, the preferred one first. */
  function CandidateHosts(instance: Instance, suffix: string): seq<string> {
    [instance.releaseName + "." + suffix]
    + RoleHosts(instance.roles, instance.targetNamespace, suffix)
    + (if instance.name != "" && instance.name != instance.service
       then NamedHosts(instance.name, instance.targetNamespace, suffix) else [])
    + (if instance.service != "" then NamedHosts(instance.service, instance.targetNamespace, suffix) else [])
  }

  /** Two names of one namespace share a conventional host exactly when they are
      the same or one is the other's console, such as "kafka-console" is that of
      "kafka": hosts alone do not tell whose an Ingress is. */
  lemma NamesShareAHostExactlyWithTheirConsole(a: string, b: string, namespace: string, suffix: string)
    ensures (exists host :: host in NamedHosts(a, namespace, suffix) && host in NamedHosts(b, namespace, suffix))
            <==> a == b || a == b + "-console" || b == a + "-console"
  {
    var rest, console := "-" + namespace + "." + suffix, "-console";
    assert NamedHosts(a, namespace, suffix) == [(a + console) + rest, a + rest] by { TwoHosts(a, namespace, suffix); }
    assert NamedHosts(b, namespace, suffix) == [(b + console) + rest, b + rest] by { TwoHosts(b, namespace, suffix); }
    SameStart(a, b, rest);
    SameStart(a + console, b, rest);
    SameStart(a, b + console, rest);
    SameStart(a + console, b + console, rest);
    SameStart(a, b, console);
    if a == b || a == b + console {
      assert a + rest in NamedHosts(a, namespace, suffix) && a + rest in NamedHosts(b, namespace, suffix);
    } else if b == a + console {
      assert b + rest in NamedHosts(a, namespace, suffix) && b + rest in NamedHosts(b, namespace, suffix);
    }
  }

  lemma SameStart(a: string, b: string, rest: string)
    ensures a + rest == b + rest <==> a == b
  {
    if a + rest == b + rest {
      assert |a| == |b|;
      assert a == (a + rest)[..|a|] && b == (b + rest)[..|b|];
    }
  }

  lemma TwoHosts(name: string, namespace: string, suffix: string)
    ensures NamedHosts(name, namespace, suffix)
            == [(name + "-console") + ("-" + namespace + "." + suffix), name + ("-" + namespace + "." + suffix)]
  {
    assert "-console-" == "-console" + "-";
    assert name + "-console-" + namespace + "." + suffix == (name + "-console") + ("-" + namespace + "." + suffix);
    assert name + "-" + namespace + "." + suffix == name + ("-" + namespace + "." + suffix);
  }

  function NamespaceHosts(c: Cluster, namespace: string): map<string, string> {
    if namespace in c.ingresses then IngressHosts(c.ingresses[namespace]) else map[]
  }

  /** The Ingress that serves the host belongs to one of the named HelmReleases. */
  predicate Exposed(hosts: map<string, string>, names: seq<string>, host: string) {
    host in hosts && hosts[host] in names
  }

  ghost predicate FirstExposed(hosts: map<string, string>, names: seq<string>, candidates: seq<string>, host: string) {
    exists k :: FirstExposedAt(hosts, names, candidates, host, k)
  }

  ghost predicate FirstExposedAt(hosts: map<string, string>, names: seq<string>, candidates: seq<string>, host: string,
                                 k: int) {
    && 0 <= k < |candidates| && candidates[k] == host && Exposed(hosts, names, host)
    && forall j :: 0 <= j < k ==> !Exposed(hosts, names, candidates[j])
  }

  /** The loop both forms end with. */
  method FindExposed(hosts: map<string, string>, names: seq<string>, candidates: seq<string>)
    returns (host: Option<string>)
    ensures host.Some? ==> FirstExposed(hosts, names, candidates, host.value)
    ensures host.None? ==> forall h :: !FirstExposed(hosts, names, candidates, h)
  {
    for k := 0 to |candidates|
      invariant forall j :: 0 <= j < k ==> !Exposed(hosts, names, candidates[j])
    {
      if candidates[k] in hosts && hosts[candidates[k]] in names {
        assert FirstExposedAt(hosts, names, candidates, candidates[k], k);
        return Some(candidates[k]);
      }
    }
    return None;
  }

  /** The host is the instance's: its first candidate that its own HelmReleases expose. */
  ghost predicate IsItsHost(c: Cluster, instance: Instance, host: string) {
    && c.suffix.Some? && instance.targetNamespace != ""
    && var names := InstanceNames(c, instance.targetNamespace, instance.releaseName);
    && names.Some?
    && FirstExposed(NamespaceHosts(c, instance.targetNamespace), names.value,
      CandidateHosts(instance, c.suffix.value), host)
  }

  lemma OneHostEach(c: Cluster, instance: Instance, a: string, b: string)
    requires IsItsHost(c, instance, a) && IsItsHost(c, instance, b)
    ensures a == b
  {
    var names := InstanceNames(c, instance.targetNamespace, instance.releaseName).value;
    var hosts, candidates := NamespaceHosts(c, instance.targetNamespace), CandidateHosts(instance, c.suffix.value);
    var k :| FirstExposedAt(hosts, names, candidates, a, k);
    var l :| FirstExposedAt(hosts, names, candidates, b, l);
    assert k == l;
  }

  /** Its URL becomes that of its host; nothing else changes. */
  ghost predicate URLSet(c: Cluster, before: Instance, after: Instance) {
    && (forall host :: IsItsHost(c, before, host) ==> after == before.(url := "https://" + host))
    && ((forall host :: !IsItsHost(c, before, host)) ==> after == before)
  }

  lemma URLSetIsAFunction(c: Cluster, before: Instance, a: Instance, b: Instance)
    requires URLSet(c, before, a) && URLSet(c, before, b)
    ensures a == b
  {
    if host :| IsItsHost(c, before, host) {
    }
  }

  // --- The conventions, told one by one ---

  /** The host of convention p, in the order they are preferred: the release's own, one
      for each role that has one, the instance's console and plain host when it is not
      named after its service, the service's console and plain host. */
  function Convention(instance: Instance, suffix: string, p: nat): Option<string> {
    var ns, n := instance.targetNamespace, |instance.roles|;
    if p == 0 then Some(instance.releaseName + "." + suffix)
    else if p <= n then RoleHost(instance.roles[p - 1], ns, suffix)
    else if p <= n + 2 then
      if instance.name == "" || instance.name == instance.service then None
      else if p == n + 1 then Some(instance.name + "-console-" + ns + "." + suffix)
      else Some(instance.name + "-" + ns + "." + suffix)
    else if p <= n + 4 then
      if instance.service == "" then None
      else if p == n + 3 then Some(instance.service + "-console-" + ns + "." + suffix)
      else Some(instance.service + "-" + ns + "." + suffix)
    else None
  }

  function RoleHost(role: string, namespace: string, suffix: string): Option<string> {
    if role == "storage" then Some("storage-" + namespace + "." + suffix)
    else if role == "spark" then Some("spark-web-proxy-" + namespace + "." + suffix)
    else None
  }

  /** The last Ingress of the namespace that routes the host belongs to a HelmRelease
      that the instance's Release owns. */
  ghost predicate RoutesToItsOwn(c: Cluster, instance: Instance, host: string) {
    var ns := instance.targetNamespace;
    && ns in c.ingresses
    && exists i, h :: && RoutedBy(c.ingresses[ns], host, i) && OwnsHelmRelease(c, ns, instance.releaseName, h)
                      && c.helmReleases[ns][h].name == c.ingresses[ns][i].owner
  }

  /** Convention p is the first whose host is routed to the instance. */
  ghost predicate IsPreferred(c: Cluster, instance: Instance, p: nat, host: string) {
    && c.suffix.Some? && instance.targetNamespace != ""
    && Convention(instance, c.suffix.value, p) == Some(host) && RoutesToItsOwn(c, instance, host)
    && forall q: nat :: q < p && Convention(instance, c.suffix.value, q).Some?
                        ==> !RoutesToItsOwn(c, instance, Convention(instance, c.suffix.value, q).value)
  }

  /** The URL is that of the first convention routed to the instance, and as it was
      exactly when none is. */
  ghost predicate ShowsThePreferred(c: Cluster, before: Instance, after: Instance) {
    && (forall p, host :: IsPreferred(c, before, p, host) ==> after == before.(url := "https://" + host))
    && ((forall p, host :: !IsPreferred(c, before, p, host)) ==> after == before)
  }

  /** The hosts among the slots, in order. */
  function Filled(slots: seq<Option<string>>): seq<string> {
    if slots == [] then []
    else Filled(Init(slots)) + if Last(slots).Some? then [Last(slots).value] else []
  }

  lemma {:induction false} FilledOfSum(a: seq<Option<string>>, b: seq<Option<string>>)
    ensures Filled(a + b) == Filled(a) + Filled(b)
  {
    if b == [] {
      assert a + b == a;
    } else {
      assert Init(a + b) == a + Init(b) && Last(a + b) == Last(b);
      FilledOfSum(a, Init(b));
    }
  }

  lemma FilledOfOne(slot: Option<string>)
    ensures Filled([slot]) == if slot.Some? then [slot.value] else []
  {
    assert Init([slot]) == [] && Last([slot]) == slot;
  }

  function RoleSlots(roles: seq<string>, namespace: string, suffix: string): seq<Option<string>> {
    seq(|roles|, k requires 0 <= k < |roles| => RoleHost(roles[k], namespace, suffix))
  }

  lemma {:induction false} RoleHostsAreFilled(roles: seq<string>, namespace: string, suffix: string)
    ensures RoleHosts(roles, namespace, suffix) == Filled(RoleSlots(roles, namespace, suffix))
  {
    if roles != [] {
      RoleHostsAreFilled(Init(roles), namespace, suffix);
      assert Init(RoleSlots(roles, namespace, suffix)) == RoleSlots(Init(roles), namespace, suffix);
    }
  }

  function Conventions(instance: Instance, suffix: string): seq<Option<string>> {
    seq(|instance.roles| + 5, p requires 0 <= p => Convention(instance, suffix, p))
  }

  lemma FilledOfTwo(a: Option<string>, b: Option<string>)
    ensures Filled([a, b]) == (if a.Some? then [a.value] else []) + (if b.Some? then [b.value] else [])
  {
    assert [a, b] == [a] + [b];
    FilledOfSum([a], [b]);
    FilledOfOne(a);
    FilledOfOne(b);
  }

  /** The candidates are the hosts of the conventions, in order. */
  lemma CandidatesFollowTheConventions(instance: Instance, suffix: string)
    ensures CandidateHosts(instance, suffix) == Filled(Conventions(instance, suffix))
  {
    var n, all := |instance.roles|, Conventions(instance, suffix);
    var own, roles := [Some(instance.releaseName + "." + suffix)],
      RoleSlots(instance.roles, instance.targetNamespace, suffix);
    var named, served := [all[n + 1], all[n + 2]], [all[n + 3], all[n + 4]];
    assert all == own + roles + named + served;
    FilledOfSum(own + roles + named, served);
    FilledOfSum(own + roles, named);
    FilledOfSum(own, roles);
    FilledOfOne(own[0]);
    FilledOfTwo(all[n + 1], all[n + 2]);
    FilledOfTwo(all[n + 3], all[n + 4]);
    RoleHostsAreFilled(instance.roles, instance.targetNamespace, suffix);
  }

  /** Slot p is the first that is exposed. */
  ghost predicate FirstSlot(hosts: map<string, string>, names: seq<string>, slots: seq<Option<string>>, host: string,
                            p: int) {
    && 0 <= p < |slots| && slots[p] == Some(host) && Exposed(hosts, names, host)
    && forall q :: 0 <= q < p && slots[q].Some? ==> !Exposed(hosts, names, slots[q].value)
  }

  ghost predicate NoneExposed(hosts: map<string, string>, names: seq<string>, candidates: seq<string>) {
    forall j :: 0 <= j < |candidates| ==> !Exposed(hosts, names, candidates[j])
  }

  ghost predicate NoSlotExposed(hosts: map<string, string>, names: seq<string>, slots: seq<Option<string>>) {
    forall q :: 0 <= q < |slots| && slots[q].Some? ==> !Exposed(hosts, names, slots[q].value)
  }

  lemma OneMoreCandidate(hosts: map<string, string>, names: seq<string>, candidates: seq<string>, last: string,
                         host: string)
    ensures NoneExposed(hosts, names, candidates + [last])
            <==> NoneExposed(hosts, names, candidates) && !Exposed(hosts, names, last)
    ensures FirstExposed(hosts, names, candidates + [last], host)
            <==> || FirstExposed(hosts, names, candidates, host)
                 || (NoneExposed(hosts, names, candidates) && last == host && Exposed(hosts, names, host))
  {
    var all, n := candidates + [last], |candidates|;
    assert all[n] == last && forall j :: 0 <= j < n ==> all[j] == candidates[j];
    if k :| FirstExposedAt(hosts, names, candidates, host, k) {
      assert FirstExposedAt(hosts, names, all, host, k);
    }
    if NoneExposed(hosts, names, candidates) && last == host && Exposed(hosts, names, host) {
      assert FirstExposedAt(hosts, names, all, host, n);
    }
    if k :| FirstExposedAt(hosts, names, all, host, k) {
      forall j | 0 <= j < k && j < n
        ensures !Exposed(hosts, names, candidates[j])
      {
        assert all[j] == candidates[j];
      }
      assert k < n ==> FirstExposedAt(hosts, names, candidates, host, k);
    }
    if NoneExposed(hosts, names, all) {
      forall j | 0 <= j < n
        ensures !Exposed(hosts, names, candidates[j])
      {
        assert all[j] == candidates[j];
      }
    }
  }

  lemma {:induction false} FirstOfTheFilled(hosts: map<string, string>, names: seq<string>, slots: seq<Option<string>>,
                                            host: string)
    ensures NoneExposed(hosts, names, Filled(slots)) <==> NoSlotExposed(hosts, names, slots)
    ensures FirstExposed(hosts, names, Filled(slots), host) <==> exists p :: FirstSlot(hosts, names, slots, host, p)
  {
    if slots != [] {
      var init, last := Init(slots), Last(slots);
      FirstOfTheFilled(hosts, names, init, host);
      OneMoreSlot(hosts, names, slots, host);
      if last.Some? {
        OneMoreCandidate(hosts, names, Filled(init), last.value, host);
      } else {
        assert Filled(slots) == Filled(init);
      }
    }
  }

  lemma OneMoreSlot(hosts: map<string, string>, names: seq<string>, slots: seq<Option<string>>, host: string)
    requires slots != []
    ensures NoSlotExposed(hosts, names, slots)
            <==> && NoSlotExposed(hosts, names, Init(slots))
                 && (Last(slots).Some? ==> !Exposed(hosts, names, Last(slots).value))
    ensures (exists p :: FirstSlot(hosts, names, slots, host, p))
            <==> || (exists p :: FirstSlot(hosts, names, Init(slots), host, p))
                 || (NoSlotExposed(hosts, names, Init(slots)) && Last(slots) == Some(host)
                   && Exposed(hosts, names, host))
  {
    var init, n := Init(slots), |slots| - 1;
    assert slots[n] == Last(slots) && forall q :: 0 <= q < n ==> init[q] == slots[q];
    if p :| FirstSlot(hosts, names, init, host, p) {
      assert FirstSlot(hosts, names, slots, host, p);
    }
    if NoSlotExposed(hosts, names, init) && Last(slots) == Some(host) && Exposed(hosts, names, host) {
      assert FirstSlot(hosts, names, slots, host, n);
    }
    if p :| FirstSlot(hosts, names, slots, host, p) {
      forall q | 0 <= q < p && q < n && init[q].Some?
        ensures !Exposed(hosts, names, init[q].value)
      {
        assert init[q] == slots[q];
      }
      assert p < n ==> FirstSlot(hosts, names, init, host, p);
    }
    if NoSlotExposed(hosts, names, slots) {
      forall q | 0 <= q < n && init[q].Some?
        ensures !Exposed(hosts, names, init[q].value)
      {
        assert init[q] == slots[q];
      }
    }
  }

  lemma ExposedMeansRouted(c: Cluster, instance: Instance, host: string)
    requires InstanceNames(c, instance.targetNamespace, instance.releaseName).Some?
    ensures Exposed(NamespaceHosts(c, instance.targetNamespace),
                    InstanceNames(c, instance.targetNamespace, instance.releaseName).value, host)
            <==> RoutesToItsOwn(c, instance, host)
  {
    var ns := instance.targetNamespace;
    InstanceNamesAreItsNames(c, ns, instance.releaseName);
    if ns in c.ingresses {
      HostsAreRouted(c.ingresses[ns], host);
    }
  }

  /** The instance's host is that of the first convention routed to it. */
  lemma ItsHostIsThePreferred(c: Cluster, instance: Instance, host: string)
    ensures IsItsHost(c, instance, host) <==> exists p :: IsPreferred(c, instance, p, host)
  {
    var ns := instance.targetNamespace;
    var names := InstanceNames(c, ns, instance.releaseName);
    InstanceNamesAreItsNames(c, ns, instance.releaseName);
    if c.suffix.Some? && ns != "" && names.Some? {
      var slots, hosts := Conventions(instance, c.suffix.value), NamespaceHosts(c, ns);
      CandidatesFollowTheConventions(instance, c.suffix.value);
      FirstOfTheFilled(hosts, names.value, slots, host);
      forall p: nat
        ensures FirstSlot(hosts, names.value, slots, host, p) <==> IsPreferred(c, instance, p, host)
      {
        SlotIsPreferred(c, instance, names.value, host, p);
      }
    }
  }

  lemma SlotIsPreferred(c: Cluster, instance: Instance, names: seq<string>, host: string, p: nat)
    requires c.suffix.Some? && instance.targetNamespace != ""
    requires InstanceNames(c, instance.targetNamespace, instance.releaseName) == Some(names)
    ensures FirstSlot(NamespaceHosts(c, instance.targetNamespace), names, Conventions(instance, c.suffix.value), host,
        p)
            <==> IsPreferred(c, instance, p, host)
  {
    var slots, hosts := Conventions(instance, c.suffix.value), NamespaceHosts(c, instance.targetNamespace);
    forall h
      ensures Exposed(hosts, names, h) <==> RoutesToItsOwn(c, instance, h)
    {
      ExposedMeansRouted(c, instance, h);
    }
    assert forall q: nat :: q < |slots| ==> slots[q] == Convention(instance, c.suffix.value, q);
    assert p >= |slots| ==> Convention(instance, c.suffix.value, p).None?;
  }

  lemma SetMeansThePreferred(c: Cluster, before: Instance, after: Instance)
    requires URLSet(c, before, after)
    ensures ShowsThePreferred(c, before, after)
  {
    forall p, host | IsPreferred(c, before, p, host)
      ensures after == before.(url := "https://" + host)
    {
      ItsHostIsThePreferred(c, before, host);
    }
    if forall p, host :: !IsPreferred(c, before, p, host) {
      forall host
        ensures !IsItsHost(c, before, host)
      {
        ItsHostIsThePreferred(c, before, host);
      }
    }
  }

  method NamespaceIngressHosts(c: Cluster, namespace: string) returns (hosts: map<string, string>)
    ensures hosts == NamespaceHosts(c, namespace)
  {
    if namespace !in c.ingresses {
      return map[];
    }
    hosts := IngressHostsFromItems(c.ingresses[namespace]);
  }

  lemma NothingToFind(c: Cluster, instance: Instance)
    requires instance.targetNamespace == "" || InstanceNames(c, instance.targetNamespace, instance.releaseName).None?
    ensures URLSet(c, instance, instance)
  {
  }

  lemma FoundIsSet(c: Cluster, instance: Instance, names: seq<string>, host: Option<string>)
    requires c.suffix.Some? && instance.targetNamespace != ""
    requires InstanceNames(c, instance.targetNamespace, instance.releaseName) == Some(names)
    requires var hosts, candidates := NamespaceHosts(c, instance.targetNamespace),
        CandidateHosts(instance, c.suffix.value);
             && (host.Some? ==> FirstExposed(hosts, names, candidates, host.value))
             && (host.None? ==> forall h :: !FirstExposed(hosts, names, candidates, h))
    ensures URLSet(c, instance, if host.Some? then instance.(url := "https://" + host.value) else instance)
  {
    forall h | IsItsHost(c, instance, h)
      ensures host == Some(h)
    {
      if host.Some? {
        assert IsItsHost(c, instance, host.value);
        OneHostEach(c, instance, h, host.value);
      }
    }
  }

  method SetURLIfExposed(c: Cluster, instance: Instance) returns (enriched: Instance)
    ensures URLSet(c, instance, enriched)
    ensures ShowsThePreferred(c, instance, enriched)
  {
    enriched := instance;
    if c.suffix.None? || instance.targetNamespace == "" {
      SetMeansThePreferred(c, instance, enriched);
      return;
    }
    var names := ReleaseInstanceNames(c, instance.targetNamespace, instance.releaseName);
    if names.None? {
      SetMeansThePreferred(c, instance, enriched);
      return;
    }
    var hosts := NamespaceIngressHosts(c, instance.targetNamespace);
    var host := FindExposed(hosts, names.value, CandidateHosts(instance, c.suffix.value));
    FoundIsSet(c, instance, names.value, host);
    if host.Some? {
      enriched := instance.(url := "https://" + host.value);
    }
    SetMeansThePreferred(c, instance, enriched);
  }

  /** The first n of them have their URL set. */
  ghost predicate URLsSet(c: Cluster, before: seq<Instance>, after: seq<Instance>, n: nat) {
    |before| == |after| && n <= |before| && forall j :: 0 <= j < n ==> URLSet(c, before[j], after[j])
  }

  lemma SetMeansEachPreferred(c: Cluster, before: seq<Instance>, after: seq<Instance>)
    requires URLsSet(c, before, after, |before|)
    ensures forall j :: 0 <= j < |before| ==> ShowsThePreferred(c, before[j], after[j])
  {
    forall j | 0 <= j < |before|
      ensures ShowsThePreferred(c, before[j], after[j])
    {
      SetMeansThePreferred(c, before[j], after[j]);
    }
  }

  lemma OneMoreURLSet(c: Cluster, before: seq<Instance>, now: seq<Instance>, next: seq<Instance>, i: nat)
    requires URLsSet(c, before, now, i) && i < |before| == |next|
    requires forall j :: 0 <= j < i ==> next[j] == now[j]
    requires URLSet(c, before[i], next[i])
    ensures URLsSet(c, before, next, i + 1)
  {
    assert forall j :: 0 <= j < i ==> URLSet(c, before[j], now[j]) && next[j] == now[j];
  }

  method EnrichWithURL(c: Cluster, instances: array<Instance>)
    modifies instances
    ensures URLsSet(c, old(instances[..]), instances[..], instances.Length)
    ensures forall j :: 0 <= j < instances.Length ==> ShowsThePreferred(c, old(instances[..])[j], instances[..][j])
  {
    ghost var before := instances[..];
    if c.suffix.None? {
      assert forall j :: 0 <= j < |before| ==> URLSet(c, before[j], before[j]);
      SetMeansEachPreferred(c, before, before);
      return;
    }
    var hostsByNS: map<string, map<string, string>> := map[];
    for i := 0 to instances.Length
      invariant forall j :: i <= j < instances.Length ==> instances[j] == before[j]
      invariant URLsSet(c, before, instances[..], i)
      invariant forall ns :: ns in hostsByNS ==> hostsByNS[ns] == NamespaceHosts(c, ns)
    {
      ghost var now := instances[..];
      var ns := instances[i].targetNamespace;
      if ns == "" {
        NothingToFind(c, instances[i]);
        OneMoreURLSet(c, before, now, now, i);
        continue;
      }
      if ns !in hostsByNS {
        var loaded := NamespaceIngressHosts(c, ns);
        hostsByNS := hostsByNS[ns := loaded];
      }
      var hosts := hostsByNS[ns];
      var names := ReleaseInstanceNames(c, ns, instances[i].releaseName);
      if names.None? {
        NothingToFind(c, instances[i]);
        OneMoreURLSet(c, before, now, now, i);
        continue;
      }
      var host := FindExposed(hosts, names.value, CandidateHosts(instances[i], c.suffix.value));
      FoundIsSet(c, instances[i], names.value, host);
      if host.Some? {
        instances[i] := instances[i].(url := "https://" + host.value);
      }
      OneMoreURLSet(c, before, now, instances[..], i);
    }
    SetMeansEachPreferred(c, before, instances[..]);
  }

  /** A URL comes from an Ingress of the instance's namespace whose HelmRelease the
      instance's own Release owns. */
  lemma URLIsItsOwn(c: Cluster, instance: Instance, host: string) returns (i: nat, h: nat)
    requires IsItsHost(c, instance, host)
    ensures instance.targetNamespace in c.ingresses && instance.targetNamespace in c.helmReleases
    ensures (instance.targetNamespace, instance.releaseName) in c.releases
    ensures RoutedBy(c.ingresses[instance.targetNamespace], host, i)
    ensures h < |c.helmReleases[instance.targetNamespace]|
    ensures c.helmReleases[instance.targetNamespace][h].name == c.ingresses[instance.targetNamespace][i].owner
    ensures c.releases[(instance.targetNamespace,
        instance.releaseName)] in c.helmReleases[instance.targetNamespace][h].owners
  {
    var ns := instance.targetNamespace;
    HostsAreRouted(c.ingresses[ns], host);
    i :| RoutedBy(c.ingresses[ns], host, i);
    var name, uid := c.ingresses[ns][i].owner, c.releases[(ns, instance.releaseName)];
    NamesAreOwned(c.helmReleases[ns], uid, name);
    h :| 0 <= h < |c.helmReleases[ns]| && c.helmReleases[ns][h].name == name && uid in c.helmReleases[ns][h].owners;
  }

  /** HelmReleases of one namespace have a name each. */
  ghost predicate NamesApart(helmReleases: seq<HelmRelease>) {
    forall i, j :: 0 <= i < j < |helmReleases| ==> helmReleases[i].name != helmReleases[j].name
  }

  ghost predicate Share(c: Cluster, ns: string, a: string, b: string) {
    && (ns, a) in c.releases && (ns, b) in c.releases && ns in c.helmReleases
    && exists i :: 0 <= i < |c.helmReleases[ns]|
                   && c.releases[(ns, a)] in c.helmReleases[ns][i].owners
                   && c.releases[(ns, b)] in c.helmReleases[ns][i].owners
  }

  /** Two instances of one namespace have one host only when a HelmRelease has both
      their Releases for owners: with one owner each, URLs tell instances apart. */
  lemma OneHostMeansASharedHelmRelease(c: Cluster, a: Instance, b: Instance, host: string)
    requires a.targetNamespace == b.targetNamespace
    requires a.targetNamespace in c.helmReleases ==> NamesApart(c.helmReleases[a.targetNamespace])
    requires IsItsHost(c, a, host) && IsItsHost(c, b, host)
    ensures Share(c, a.targetNamespace, a.releaseName, b.releaseName)
  {
    var ns := a.targetNamespace;
    var i, h := URLIsItsOwn(c, a, host);
    var i', h' := URLIsItsOwn(c, b, host);
    assert c.ingresses[ns][i].owner == c.ingresses[ns][i'].owner;
    assert h == h';
  }

  /** Two instances of one namespace are given the same URL only in that case. */
  lemma URLsTellInstancesApart(c: Cluster, a: Instance, b: Instance, a': Instance, b': Instance)
    requires a.targetNamespace == b.targetNamespace && a.url == "" && b.url == ""
    requires a.targetNamespace in c.helmReleases ==> NamesApart(c.helmReleases[a.targetNamespace])
    requires URLSet(c, a, a') && URLSet(c, b, b')
    ensures a'.url == b'.url && a'.url != "" ==> Share(c, a.targetNamespace, a.releaseName, b.releaseName)
  {
    if a'.url == b'.url && a'.url != "" {
      var host :| IsItsHost(c, a, host);
      var host' :| IsItsHost(c, b, host');
      assert host == a'.url[|"https://"|..] && host' == b'.url[|"https://"|..];
      OneHostMeansASharedHelmRelease(c, a, b, host);
    }
  }

  // --- Pod health ---

  ghost predicate Matches(name: string, names: seq<string>) {
    exists i :: 0 <= i < |names| && (name == names[i] || names[i] + "-" <= name)
  }

  method MatchesInstance(name: string, names: seq<string>) returns (matches: bool)
    ensures matches <==> Matches(name, names)
  {
    for i := 0 to |names|
      invariant forall j :: 0 <= j < i ==> !(name == names[j] || names[j] + "-" <= name)
    {
      if name == names[i] || names[i] + "-" <= name {
        return true;
      }
    }
    return false;
  }

  ghost predicate IsSidecar(container: Container, sidecars: seq<string>) {
    container.name.Some? && exists i :: 0 <= i < |sidecars| && sidecars[i] <= container.name.value
  }

  /** Not ready, for one of the reasons that are not just waiting. */
  predicate Failing(container: Container) {
    && !container.ready
    && (|| (&& container.waiting.Some?
            && container.waiting.value in {"CrashLoopBackOff", "Error", "ImagePullBackOff", "ErrImagePull"})
        || container.terminated == Some("Error"))
  }

  ghost predicate Broken(pod: Pod, sidecars: seq<string>) {
    exists i :: 0 <= i < |pod.containers| && Failing(pod.containers[i]) && !IsSidecar(pod.containers[i], sidecars)
  }

  ghost predicate AnyBroken(pods: seq<Pod>, names: seq<string>, sidecars: seq<string>) {
    exists i :: 0 <= i < |pods| && Matches(pods[i].name, names) && Broken(pods[i], sidecars)
  }

  method IsInfraSidecar(name: string, sidecars: seq<string>) returns (sidecar: bool)
    ensures sidecar <==> exists i :: 0 <= i < |sidecars| && sidecars[i] <= name
  {
    for i := 0 to |sidecars|
      invariant forall j :: 0 <= j < i ==> !(sidecars[j] <= name)
    {
      if sidecars[i] <= name {
        return true;
      }
    }
    return false;
  }

  /** A container has stopped on an error, or keeps failing to start or to be pulled. */
  ghost predicate GivesAReason(waiting: Option<string>, terminated: Option<string>) {
    || terminated == Some("Error") || waiting == Some("Error")
    || waiting == Some("CrashLoopBackOff") || waiting == Some("ImagePullBackOff") || waiting == Some("ErrImagePull")
  }

  /** Container j of pod i, which has the name of a HelmRelease or continues it after a
      dash, is not ready for such a reason, and is no sidecar by its name. */
  ghost predicate InTrouble(pods: seq<Pod>, names: seq<string>, sidecars: seq<string>, i: int, j: int) {
    && 0 <= i < |pods| && 0 <= j < |pods[i].containers|
    && (exists name :: name in names && (pods[i].name == name || name + "-" <= pods[i].name))
    && !pods[i].containers[j].ready
    && GivesAReason(pods[i].containers[j].waiting, pods[i].containers[j].terminated)
    && (pods[i].containers[j].name.Some?
        ==> forall prefix :: prefix in sidecars ==> !(prefix <= pods[i].containers[j].name.value))
  }

  lemma TroubleMeansBroken(pods: seq<Pod>, names: seq<string>, sidecars: seq<string>)
    ensures (exists i, j :: InTrouble(pods, names, sidecars, i, j)) <==> AnyBroken(pods, names, sidecars)
  {
    forall i, j | 0 <= i < |pods| && 0 <= j < |pods[i].containers|
      ensures InTrouble(pods, names, sidecars, i, j)
              <==> && Matches(pods[i].name, names) && Failing(pods[i].containers[j])
                   && !IsSidecar(pods[i].containers[j], sidecars)
    {
      ContainerInTrouble(pods, names, sidecars, i, j);
    }
    if AnyBroken(pods, names, sidecars) {
      var i :| 0 <= i < |pods| && Matches(pods[i].name, names) && Broken(pods[i], sidecars);
      var j :| 0 <= j < |pods[i].containers| && Failing(pods[i].containers[j])
               && !IsSidecar(pods[i].containers[j], sidecars);
      assert InTrouble(pods, names, sidecars, i, j);
    }
  }

  lemma ContainerInTrouble(pods: seq<Pod>, names: seq<string>, sidecars: seq<string>, i: nat, j: nat)
    requires i < |pods| && j < |pods[i].containers|
    ensures InTrouble(pods, names, sidecars, i, j)
            <==> && Matches(pods[i].name, names) && Failing(pods[i].containers[j])
                 && !IsSidecar(pods[i].containers[j], sidecars)
  {
    var container := pods[i].containers[j];
    if name :| name in names && (pods[i].name == name || name + "-" <= pods[i].name) {
      var k :| 0 <= k < |names| && names[k] == name;
    }
    if container.name.Some? {
      if k :| 0 <= k < |sidecars| && sidecars[k] <= container.name.value {
        assert sidecars[k] in sidecars;
      }
      if prefix :| prefix in sidecars && prefix <= container.name.value {
        var k :| 0 <= k < |sidecars| && sidecars[k] == prefix;
      }
    }
  }

  method CheckPodHealth(pods: seq<Pod>, names: seq<string>, sidecars: seq<string>, current: string)
    returns (status: string)
    ensures status == if AnyBroken(pods, names, sidecars) then "Error" else current
    ensures (exists i, j :: InTrouble(pods, names, sidecars, i, j)) ==> status == "Error"
    ensures (forall i, j :: !InTrouble(pods, names, sidecars, i, j)) ==> status == current
  {
    TroubleMeansBroken(pods, names, sidecars);
    for i := 0 to |pods|
      invariant forall j :: 0 <= j < i ==> !(Matches(pods[j].name, names) && Broken(pods[j], sidecars))
    {
      var matches := MatchesInstance(pods[i].name, names);
      if !matches {
        continue;
      }
      var containers := pods[i].containers;
      for j := 0 to |containers|
        invariant forall k :: 0 <= k < j ==> !(Failing(containers[k]) && !IsSidecar(containers[k], sidecars))
      {
        var container := containers[j];
        if container.name.Some? {
          var sidecar := IsInfraSidecar(container.name.value, sidecars);
          if sidecar {
            continue;
          }
        }
        if container.ready {
          continue;
        }
        if container.waiting.Some? {
          var reason := container.waiting.value;
          if reason == "CrashLoopBackOff" || reason == "Error"
             || reason == "ImagePullBackOff" || reason == "ErrImagePull" {
            return "Error";
          }
        }
        if container.terminated == Some("Error") {
          return "Error";
        }
      }
    }
    return current;
  }

  /** The one change: Ready turns to Error when a pod named after one of its
      HelmReleases is broken. */
  ghost predicate Unhealthy(c: Cluster, sidecars: seq<string>, instance: Instance) {
    && instance.status == "Ready" && instance.targetNamespace != "" && instance.targetNamespace in c.pods
    && var names := InstanceNames(c, instance.targetNamespace, instance.releaseName);
    names.Some? && AnyBroken(c.pods[instance.targetNamespace], names.value, sidecars)
  }

  ghost predicate HealthSet(c: Cluster, sidecars: seq<string>, before: Instance, after: Instance) {
    after == if Unhealthy(c, sidecars, before) then before.(status := "Error") else before
  }

  method EnrichPodHealth(c: Cluster, sidecars: seq<string>, instance: Instance) returns (enriched: Instance)
    ensures HealthSet(c, sidecars, instance, enriched)
  {
    enriched := instance;
    if instance.status != "Ready" || instance.targetNamespace == "" {
      return;
    }
    if instance.targetNamespace !in c.pods {
      return;
    }
    var names := ReleaseInstanceNames(c, instance.targetNamespace, instance.releaseName);
    if names.None? {
      return;
    }
    var status := CheckPodHealth(c.pods[instance.targetNamespace], names.value, sidecars, instance.status);
    enriched := instance.(status := status);
  }

  /** The pods of a namespace are listed once, and a failed list is not tried again. */
  method EnrichWithPodHealth(c: Cluster, sidecars: seq<string>, instances: array<Instance>)
    modifies instances
    ensures forall i :: 0 <= i < instances.Length ==> HealthSet(c, sidecars, old(instances[i]), instances[i])
  {
    var podsByNamespace: map<string, Option<seq<Pod>>> := map[];
    for i := 0 to instances.Length
      invariant forall j :: i <= j < instances.Length ==> instances[j] == old(instances[j])
      invariant forall j :: 0 <= j < i ==> HealthSet(c, sidecars, old(instances[j]), instances[j])
      invariant forall ns :: ns in podsByNamespace ==> podsByNamespace[ns] == Lookup(c.pods, ns)
    {
      if instances[i].status != "Ready" {
        continue;
      }
      var ns := instances[i].targetNamespace;
      if ns == "" {
        continue;
      }
      if ns !in podsByNamespace {
        podsByNamespace := podsByNamespace[ns := if ns in c.pods then Some(c.pods[ns]) else None];
      }
      var pods := podsByNamespace[ns];
      if pods.None? {
        continue;
      }
      var names := ReleaseInstanceNames(c, ns, instances[i].releaseName);
      if names.None? {
        continue;
      }
      var status := CheckPodHealth(pods.value, names.value, sidecars, instances[i].status);
      instances[i] := instances[i].(status := status);
    }
  }

  /** The instance's HelmReleases and the namespace's pods can be read. */
  ghost predicate Readable(c: Cluster, instance: Instance) {
    && (instance.targetNamespace, instance.releaseName) in c.releases
    && instance.targetNamespace in c.helmReleases && instance.targetNamespace in c.pods
  }

  /** The instance's own HelmRelease h. */
  ghost predicate IsItsHelmRelease(c: Cluster, instance: Instance, h: int)
    requires Readable(c, instance)
  {
    && 0 <= h < |c.helmReleases[instance.targetNamespace]|
    && c.releases[(instance.targetNamespace,
      instance.releaseName)] in c.helmReleases[instance.targetNamespace][h].owners
  }

  /** Pod p is broken. */
  ghost predicate IsBrokenPod(c: Cluster, sidecars: seq<string>, instance: Instance, p: int)
    requires Readable(c, instance)
  {
    0 <= p < |c.pods[instance.targetNamespace]| && Broken(c.pods[instance.targetNamespace][p], sidecars)
  }

  /** The pod is labelled for one of the instance's HelmReleases. */
  ghost predicate IsLabelledFor(c: Cluster, instance: Instance, pod: Pod)
    requires Readable(c, instance)
  {
    exists h :: IsItsHelmRelease(c, instance, h)
                && pod.instance == Some(c.helmReleases[instance.targetNamespace][h].name)
  }

  /** The name of one of the instance's HelmReleases is the pod's or begins it. */
  ghost predicate IsNamedLike(c: Cluster, instance: Instance, pod: Pod)
    requires Readable(c, instance)
  {
    exists h :: IsItsHelmRelease(c, instance, h)
                && Matches(pod.name, [c.helmReleases[instance.targetNamespace][h].name])
  }

  lemma NamedLikeMeansMatches(c: Cluster, instance: Instance, pod: Pod)
    requires Readable(c, instance)
    ensures var ns := instance.targetNamespace;
            IsNamedLike(c, instance, pod)
            <==> Matches(pod.name, OwnedNames(c.helmReleases[ns], c.releases[(ns, instance.releaseName)]))
  {
    var ns := instance.targetNamespace;
    var hrs, uid := c.helmReleases[ns], c.releases[(ns, instance.releaseName)];
    var names := OwnedNames(hrs, uid);
    if Matches(pod.name, names) {
      var i :| 0 <= i < |names| && (pod.name == names[i] || names[i] + "-" <= pod.name);
      NamesAreOwned(hrs, uid, names[i]);
      var h :| 0 <= h < |hrs| && hrs[h].name == names[i] && uid in hrs[h].owners;
      assert [hrs[h].name][0] == names[i];
      assert IsItsHelmRelease(c, instance, h) && Matches(pod.name, [hrs[h].name]);
    }
    if h :| IsItsHelmRelease(c, instance, h) && Matches(pod.name, [hrs[h].name]) {
      NamesAreOwned(hrs, uid, hrs[h].name);
      var i :| 0 <= i < |names| && names[i] == hrs[h].name;
    }
  }

  /** Matching by name reaches further than ownership: a broken pod counts against an
      instance exactly when one of its HelmReleases' names is the pod's or, with a
      dash, begins it. */
  lemma HealthFollowsNames(c: Cluster, sidecars: seq<string>, instance: Instance)
    requires instance.status == "Ready" && instance.targetNamespace != "" && Readable(c, instance)
    ensures Unhealthy(c, sidecars, instance)
            <==> exists p :: IsBrokenPod(c, sidecars, instance, p)
                             && IsNamedLike(c, instance, c.pods[instance.targetNamespace][p])
  {
    var ns := instance.targetNamespace;
    var pods, names := c.pods[ns], OwnedNames(c.helmReleases[ns], c.releases[(ns, instance.releaseName)]);
    forall p | 0 <= p < |pods|
      ensures IsNamedLike(c, instance, pods[p]) <==> Matches(pods[p].name, names)
    {
      NamedLikeMeansMatches(c, instance, pods[p]);
    }
    if Unhealthy(c, sidecars, instance) {
      var p :| 0 <= p < |pods| && Matches(pods[p].name, names) && Broken(pods[p], sidecars);
      assert IsBrokenPod(c, sidecars, instance, p) && IsNamedLike(c, instance, pods[p]);
    }
  }

  /** A pod labelled for one of the instance's HelmReleases is broken. */
  ghost predicate BrokenByLabel(c: Cluster, sidecars: seq<string>, instance: Instance)
    requires Readable(c, instance)
  {
    exists p :: IsBrokenPod(c, sidecars, instance, p) && IsLabelledFor(c, instance, c.pods[instance.targetNamespace][p])
  }

  /** The same pods, whatever the state of their containers. */
  ghost predicate SamePods(a: seq<Pod>, b: seq<Pod>) {
    |a| == |b| && forall i :: 0 <= i < |a| ==> a[i].name == b[i].name && a[i].instance == b[i].instance
  }

  /** The cluster with these pods in the instance's namespace. */
  function WithPods(c: Cluster, instance: Instance, pods: seq<Pod>): Cluster {
    c.(pods := c.pods[instance.targetNamespace := pods])
  }

  lemma NamesAndLabelsAreTheSame(c: Cluster, instance: Instance, pods: seq<Pod>, a: Pod, b: Pod)
    requires Readable(c, instance) && a.name == b.name && a.instance == b.instance
    ensures IsNamedLike(WithPods(c, instance, pods), instance, b) == IsNamedLike(c, instance, a)
    ensures IsLabelledFor(WithPods(c, instance, pods), instance, b) == IsLabelledFor(c, instance, a)
  {
    assert forall h :: IsItsHelmRelease(WithPods(c, instance, pods), instance, h) <==> IsItsHelmRelease(c, instance, h);
  }

  ghost predicate HealthIsByLabel(c: Cluster, sidecars: seq<string>, instance: Instance)
    requires Readable(c, instance)
  {
    Unhealthy(c, sidecars, instance) <==> BrokenByLabel(c, sidecars, instance)
  }

  /** Only pod k of the pods is broken. */
  function OneBroken(pods: seq<Pod>, k: nat): seq<Pod> {
    seq(|pods|, i requires 0 <= i < |pods| =>
      pods[i].(containers := if i == k then [Container(None, false, Some("Error"), None)] else []))
  }

  lemma OneIsBroken(pods: seq<Pod>, k: nat, sidecars: seq<string>)
    requires k < |pods|
    ensures SamePods(pods, OneBroken(pods, k))
    ensures forall i :: 0 <= i < |pods| ==> (Broken(OneBroken(pods, k)[i], sidecars) <==> i == k)
  {
    var container := OneBroken(pods, k)[k].containers[0];
    assert Failing(container) && !IsSidecar(container, sidecars);
  }

  /** Names and labels give an instance the same health, whatever becomes of the
      containers, exactly when the pods named like it are the pods labelled for it. */
  lemma HealthAgreesWithLabelsExactly(c: Cluster, sidecars: seq<string>, instance: Instance)
    requires instance.status == "Ready" && instance.targetNamespace != "" && Readable(c, instance)
    ensures (forall pods :: SamePods(c.pods[instance.targetNamespace], pods)
                            ==> HealthIsByLabel(WithPods(c, instance, pods), sidecars, instance))
            <==> forall p :: 0 <= p < |c.pods[instance.targetNamespace]|
                             ==> (IsNamedLike(c, instance, c.pods[instance.targetNamespace][p])
                                  <==> IsLabelledFor(c, instance, c.pods[instance.targetNamespace][p]))
  {
    var own := c.pods[instance.targetNamespace];
    if k :| 0 <= k < |own| && IsNamedLike(c, instance, own[k]) != IsLabelledFor(c, instance, own[k]) {
      OneBrokenTells(c, sidecars, instance, k);
      OneIsBroken(own, k, sidecars);
    } else {
      forall pods | SamePods(own, pods)
        ensures HealthIsByLabel(WithPods(c, instance, pods), sidecars, instance)
      {
        SameWordForEachPod(c, sidecars, instance, pods);
      }
    }
  }

  lemma OneBrokenTells(c: Cluster, sidecars: seq<string>, instance: Instance, k: nat)
    requires instance.status == "Ready" && instance.targetNamespace != "" && Readable(c, instance)
    requires k < |c.pods[instance.targetNamespace]|
    requires var pod := c.pods[instance.targetNamespace][k]; IsNamedLike(c, instance, pod) != IsLabelledFor(c,
        instance, pod)
    ensures !HealthIsByLabel(WithPods(c, instance, OneBroken(c.pods[instance.targetNamespace], k)), sidecars, instance)
  {
    var own := c.pods[instance.targetNamespace];
    var pods := OneBroken(own, k);
    var c' := WithPods(c, instance, pods);
    OneIsBroken(own, k, sidecars);
    NamesAndLabelsAreTheSame(c, instance, pods, own[k], pods[k]);
    HealthFollowsNames(c', sidecars, instance);
    assert IsBrokenPod(c', sidecars, instance, k);
    assert forall p :: IsBrokenPod(c', sidecars, instance, p) ==> p == k;
  }

  lemma SameWordForEachPod(c: Cluster, sidecars: seq<string>, instance: Instance, pods: seq<Pod>)
    requires instance.status == "Ready" && instance.targetNamespace != "" && Readable(c, instance)
    requires SamePods(c.pods[instance.targetNamespace], pods)
    requires forall p :: 0 <= p < |c.pods[instance.targetNamespace]|
                         ==> (IsNamedLike(c, instance, c.pods[instance.targetNamespace][p])
                              <==> IsLabelledFor(c, instance, c.pods[instance.targetNamespace][p]))
    ensures HealthIsByLabel(WithPods(c, instance, pods), sidecars, instance)
  {
    var c' := WithPods(c, instance, pods);
    HealthFollowsNames(c', sidecars, instance);
    forall p | 0 <= p < |pods|
      ensures IsNamedLike(c', instance, pods[p]) <==> IsLabelledFor(c', instance, pods[p])
    {
      NamesAndLabelsAreTheSame(c, instance, pods, c.pods[instance.targetNamespace][p], pods[p]);
    }
  }

  /** It does happen: "kafka" is blamed for a broken pod of "kafka-console". */
  lemma KafkaIsBlamedForItsConsole(c: Cluster, sidecars: seq<string>, uid: string, other: string)
    requires uid != other && sidecars == []
    requires c.releases == map[("demo", "demo-kafka") := uid]
    requires c.helmReleases == map["demo" := [HelmRelease("kafka", [uid]), HelmRelease("kafka-console", [other])]]
    requires c.pods == map["demo" := [Pod("kafka-console-0", Some("kafka-console"),
                                          [Container(None, false, Some("CrashLoopBackOff"), None)], [])]]
    ensures var kafka := Instance("kafka", "demo-kafka", "kafka", "Ready", "demo", "", []);
            && Unhealthy(c, sidecars, kafka)
            && !BrokenByLabel(c, sidecars, kafka)
  {
    var kafka := Instance("kafka", "demo-kafka", "kafka", "Ready", "demo", "", []);
    var pod := c.pods["demo"][0];
    assert Failing(pod.containers[0]) && Broken(pod, sidecars);
    assert "kafka-console-0" == "kafka" + "-" + "console-0";
    assert [c.helmReleases["demo"][0].name][0] == "kafka";
    assert Matches(pod.name, [c.helmReleases["demo"][0].name]);
    assert IsItsHelmRelease(c, kafka, 0) && IsNamedLike(c, kafka, pod);
    assert IsBrokenPod(c, sidecars, kafka, 0);
    HealthFollowsNames(c, sidecars, kafka);
    assert |"kafka"| != |"kafka-console"|;
  }

  // --- Both forms agree ---

  /** What every reader of an instance is shown: its URL, then its health. */
  ghost predicate Enriched(c: Cluster, sidecars: seq<string>, before: Instance, after: Instance) {
    exists exposed :: URLSet(c, before, exposed) && HealthSet(c, sidecars, exposed, after)
  }

  lemma EnrichedIsAFunction(c: Cluster, sidecars: seq<string>, before: Instance, a: Instance, b: Instance)
    requires Enriched(c, sidecars, before, a) && Enriched(c, sidecars, before, b)
    ensures a == b
  {
    var x :| URLSet(c, before, x) && HealthSet(c, sidecars, x, a);
    var y :| URLSet(c, before, y) && HealthSet(c, sidecars, y, b);
    URLSetIsAFunction(c, before, x, y);
  }

  /** The list: both batches over every instance. */
  method ListServices(c: Cluster, sidecars: seq<string>, instances: array<Instance>)
    modifies instances
    ensures forall i :: 0 <= i < instances.Length ==> Enriched(c, sidecars, old(instances[i]), instances[i])
  {
    EnrichWithURL(c, instances);
    ghost var exposed := instances[..];
    EnrichWithPodHealth(c, sidecars, instances);
    forall i | 0 <= i < instances.Length
      ensures Enriched(c, sidecars, old(instances[i]), instances[i])
    {
      assert URLSet(c, old(instances[..])[i], exposed[i]) && HealthSet(c, sidecars, exposed[i], instances[i]);
    }
  }

  /** One service: the single call for the URL, a batch of one for the health. */
  method GetService(c: Cluster, sidecars: seq<string>, instance: Instance) returns (view: Instance)
    ensures Enriched(c, sidecars, instance, view)
  {
    view := SetURLIfExposed(c, instance);
    var instances := new Instance[1](_ => view);
    EnrichWithPodHealth(c, sidecars, instances);
    view := view.(status := instances[0].status);
  }

  /** One watched service: both single calls. */
  method EnrichWatched(c: Cluster, sidecars: seq<string>, instance: Instance) returns (view: Instance)
    ensures Enriched(c, sidecars, instance, view)
  {
    view := SetURLIfExposed(c, instance);
    view := EnrichPodHealth(c, sidecars, view);
  }
}
