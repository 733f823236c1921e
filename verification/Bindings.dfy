/** What a release is bound to, and which releases a connection serves: two views
    of what the release controller publishes (internal/service/service_service.go,
    boundConnections; internal/service/connection_service.go, ListConsumers). */
module Bindings {
  import opened Basics
  import opened Sorting

  datatype Reference = Reference(kind: string, name: string, namespace: string)

  datatype Release = Release(name: string, phase: string, watched: seq<Reference>, effective: seq<Reference>)

  datatype ServiceConnection = ServiceConnection(name: string, namespace: string, kind: string, resolved: bool)

  datatype Consumer = Consumer(service: string, releaseName: string, status: string, effective: bool)

  // --- The connections of a release ---

  function FirstNamed(refs: seq<Reference>, name: string): Option<Reference> {
    if refs == [] then None
    else if FirstNamed(Init(refs), name).Some? then FirstNamed(Init(refs), name)
    else if Last(refs).name == name then Some(Last(refs))
    else None
  }

  function LastNamed(refs: seq<Reference>, name: string): Option<Reference> {
    if refs == [] then None
    else if Last(refs).name == name then Some(Last(refs))
    else LastNamed(Init(refs), name)
  }

  function Connection(ref: Reference, resolved: bool): ServiceConnection {
    ServiceConnection(ref.name, ref.namespace, ref.kind, resolved)
  }

  /** The one entry of a name: its first effective reference, resolved, or else
      the last one watched, pending. */
  function EntryOf(effective: seq<Reference>, watched: seq<Reference>, name: string): Option<ServiceConnection> {
    if FirstNamed(effective, name).Some? then Some(Connection(FirstNamed(effective, name).value, true))
    else if LastNamed(watched, name).Some? then Some(Connection(LastNamed(watched, name).value, false))
    else None
  }

  ghost predicate Names(refs: seq<Reference>, name: string) {
    exists i :: 0 <= i < |refs| && refs[i].name == name
  }

  lemma {:induction false} NamedMeansNames(refs: seq<Reference>, name: string)
    ensures FirstNamed(refs, name).Some? <==> Names(refs, name)
    ensures LastNamed(refs, name).Some? <==> Names(refs, name)
    ensures FirstNamed(refs, name).Some? ==> FirstNamed(refs, name).value.name == name
    ensures LastNamed(refs, name).Some? ==> LastNamed(refs, name).value.name == name
  {
    if refs != [] {
      NamedMeansNames(Init(refs), name);
      assert forall i :: 0 <= i < |refs| - 1 ==> Init(refs)[i] == refs[i];
    }
  }

  /** Every name of the release once, in order, under its entry. */
  ghost predicate IsBoundList(r: Release, bound: seq<ServiceConnection>) {
    && (forall i, j :: 0 <= i < j < |bound| ==> Before(bound[i].name, bound[j].name))
    && (forall i :: 0 <= i < |bound| ==> Some(bound[i]) == EntryOf(r.effective, r.watched, bound[i].name))
    && (forall name :: EntryOf(r.effective, r.watched, name).Some?
                       ==> exists i :: 0 <= i < |bound| && bound[i].name == name)
  }

  /** What the two loops have remembered so far: an entry for each name, and the
      names in the order they were first seen. */
  ghost predicate Remembered(effective: seq<Reference>, watched: seq<Reference>, byName: map<string, ServiceConnection>,
                             order: seq<string>) {
    && (forall name :: Lookup(byName, name) == EntryOf(effective, watched, name))
    && Distinct(order)
    && (forall name :: name in order <==> name in byName)
  }

  /** The effective references are remembered first, then the watched ones. */
  method Gather(r: Release) returns (byName: map<string, ServiceConnection>, order: seq<string>)
    ensures Remembered(r.effective, r.watched, byName, order)
  {
    byName, order := map[], [];
    for i := 0 to |r.effective|
      invariant Remembered(r.effective[..i], [], byName, order)
    {
      ghost var before, seen := byName, order;
      byName, order := Remember(byName, order, r.effective[i], true);
      EffectiveIsRemembered(r.effective, i, before, seen, byName, order);
    }
    assert r.effective[..|r.effective|] == r.effective;
    for i := 0 to |r.watched|
      invariant Remembered(r.effective, r.watched[..i], byName, order)
    {
      ghost var before, seen := byName, order;
      byName, order := Remember(byName, order, r.watched[i], false);
      WatchedIsRemembered(r.effective, r.watched, i, before, seen, byName, order);
    }
    assert r.watched[..|r.watched|] == r.watched;
  }

  function Sorted(order: seq<string>): seq<string> {
    SortBy(order, (name: string) => name)
  }

  lemma SortedIsStrict(order: seq<string>)
    requires Distinct(order)
    ensures forall i, j :: 0 <= i < j < |Sorted(order)| ==> Before(Sorted(order)[i], Sorted(order)[j])
    ensures forall name :: name in Sorted(order) <==> name in order
  {
    SortBySorts(order, (name: string) => name);
    DistinctIsKept(order, Sorted(order));
    SortedDistinctIsStrict(Sorted(order), (name: string) => name);
  }

  /** Reference k is the first, or the last, of that name. */
  ghost predicate IsFirst(refs: seq<Reference>, name: string, k: int) {
    0 <= k < |refs| && refs[k].name == name && forall j :: 0 <= j < k ==> refs[j].name != name
  }

  ghost predicate IsLast(refs: seq<Reference>, name: string, k: int) {
    0 <= k < |refs| && refs[k].name == name && forall j :: k < j < |refs| ==> refs[j].name != name
  }

  /** The entry tells of that reference. */
  predicate Tells(entry: ServiceConnection, ref: Reference) {
    entry.name == ref.name && entry.namespace == ref.namespace && entry.kind == ref.kind
  }

  /** A resolved entry tells of the first effective reference of its name, a pending one
      of the last watched reference of a name no effective one has; every name is told of. */
  ghost predicate DescribesBindings(r: Release, bound: seq<ServiceConnection>) {
    && (forall i :: 0 <= i < |bound| ==>
                      if bound[i].resolved
                      then exists k :: IsFirst(r.effective, bound[i].name, k) && Tells(bound[i], r.effective[k])
                      else && !Names(r.effective, bound[i].name)
                           && exists k :: IsLast(r.watched, bound[i].name, k) && Tells(bound[i], r.watched[k]))
    && (forall name :: Names(r.effective, name) || Names(r.watched, name)
                       ==> exists i :: 0 <= i < |bound| && bound[i].name == name)
  }

  lemma {:induction false} FirstNamedIsFirst(refs: seq<Reference>, name: string)
    ensures FirstNamed(refs, name).Some?
        ==> exists k :: IsFirst(refs, name, k) && refs[k] == FirstNamed(refs, name).value
    ensures FirstNamed(refs, name).None? ==> !Names(refs, name)
  {
    NamedMeansNames(refs, name);
    if refs != [] {
      var init := Init(refs);
      FirstNamedIsFirst(init, name);
      NamedMeansNames(init, name);
      if FirstNamed(init, name).Some? {
        var k :| IsFirst(init, name, k) && init[k] == FirstNamed(init, name).value;
        assert IsFirst(refs, name, k);
      } else if Last(refs).name == name {
        assert forall j :: 0 <= j < |init| ==> refs[j] == init[j];
        assert IsFirst(refs, name, |refs| - 1);
      }
    }
  }

  lemma {:induction false} LastNamedIsLast(refs: seq<Reference>, name: string)
    ensures LastNamed(refs, name).Some? ==> exists k :: IsLast(refs, name, k) && refs[k] == LastNamed(refs, name).value
  {
    if refs != [] {
      var init := Init(refs);
      LastNamedIsLast(init, name);
      if Last(refs).name == name {
        assert IsLast(refs, name, |refs| - 1);
      } else if LastNamed(init, name).Some? {
        var k :| IsLast(init, name, k) && init[k] == LastNamed(init, name).value;
        assert IsLast(refs, name, k);
      }
    }
  }

  lemma BoundListDescribes(r: Release, bound: seq<ServiceConnection>)
    requires IsBoundList(r, bound)
    ensures DescribesBindings(r, bound)
  {
    forall i | 0 <= i < |bound|
      ensures if bound[i].resolved
              then exists k :: IsFirst(r.effective, bound[i].name, k) && Tells(bound[i], r.effective[k])
              else && !Names(r.effective, bound[i].name)
                   && exists k :: IsLast(r.watched, bound[i].name, k) && Tells(bound[i], r.watched[k])
    {
      FirstNamedIsFirst(r.effective, bound[i].name);
      LastNamedIsLast(r.watched, bound[i].name);
    }
    forall name | Names(r.effective, name) || Names(r.watched, name)
      ensures exists i :: 0 <= i < |bound| && bound[i].name == name
    {
      NamedMeansNames(r.effective, name);
      NamedMeansNames(r.watched, name);
      assert EntryOf(r.effective, r.watched, name).Some?;
    }
  }

  method BoundConnections(r: Release) returns (bound: seq<ServiceConnection>)
    ensures IsBoundList(r, bound)
    ensures DescribesBindings(r, bound)
  {
    var byName, order := Gather(r);
    SortedIsStrict(order);
    var sorted := Sorted(order);
    bound := [];
    for i := 0 to |sorted|
      invariant |bound| == i
      invariant forall j :: 0 <= j < i ==> bound[j] == byName[sorted[j]]
    {
      assert sorted[i] in sorted;
      bound := bound + [byName[sorted[i]]];
    }
    EntriesMakeTheList(r, byName, sorted, bound);
    BoundListDescribes(r, bound);
  }

  /** A resolved candidate wins over a pending one. */
  method Remember(byName: map<string, ServiceConnection>, order: seq<string>, ref: Reference, resolved: bool)
    returns (byName': map<string, ServiceConnection>, order': seq<string>)
    ensures RememberedAlso(byName, order, ref, resolved, byName', order')
  {
    byName', order' := byName, order;
    if ref.name !in byName {
      order' := order + [ref.name];
    }
    if ref.name in byName && byName[ref.name].resolved {
      return;
    }
    byName' := byName[ref.name := Connection(ref, resolved)];
  }

  ghost predicate RememberedAlso(byName: map<string, ServiceConnection>, order: seq<string>, ref: Reference,
                                 resolved: bool,
                                 byName': map<string, ServiceConnection>, order': seq<string>) {
    && order' == (if ref.name in byName then order else order + [ref.name])
    && byName' == (if ref.name in byName && byName[ref.name].resolved then byName
                   else byName[ref.name := Connection(ref, resolved)])
  }

  lemma EffectiveIsRemembered(effective: seq<Reference>, i: nat, byName: map<string, ServiceConnection>,
                              order: seq<string>,
                              byName': map<string, ServiceConnection>, order': seq<string>)
    requires i < |effective| && Remembered(effective[..i], [], byName, order)
    requires RememberedAlso(byName, order, effective[i], true, byName', order')
    ensures Remembered(effective[..i + 1], [], byName', order')
  {
    assert Init(effective[..i + 1]) == effective[..i];
    forall name
      ensures Lookup(byName', name) == EntryOf(effective[..i + 1], [], name)
    {
      assert Lookup(byName, name) == EntryOf(effective[..i], [], name);
    }
  }

  lemma WatchedIsRemembered(effective: seq<Reference>, watched: seq<Reference>, i: nat,
                            byName: map<string, ServiceConnection>,
                            order: seq<string>, byName': map<string, ServiceConnection>, order': seq<string>)
    requires i < |watched| && Remembered(effective, watched[..i], byName, order)
    requires RememberedAlso(byName, order, watched[i], false, byName', order')
    ensures Remembered(effective, watched[..i + 1], byName', order')
  {
    assert Init(watched[..i + 1]) == watched[..i];
    forall name
      ensures Lookup(byName', name) == EntryOf(effective, watched[..i + 1], name)
    {
      assert Lookup(byName, name) == EntryOf(effective, watched[..i], name);
    }
  }

  lemma EntriesMakeTheList(r: Release, byName: map<string, ServiceConnection>, sorted: seq<string>,
                           bound: seq<ServiceConnection>)
    requires forall name :: Lookup(byName, name) == EntryOf(r.effective, r.watched, name)
    requires forall name :: name in sorted <==> name in byName
    requires forall i, j :: 0 <= i < j < |sorted| ==> Before(sorted[i], sorted[j])
    requires |bound| == |sorted| && forall i :: 0 <= i < |sorted|
                                                ==> sorted[i] in byName && bound[i] == byName[sorted[i]]
    ensures IsBoundList(r, bound)
  {
    forall i | 0 <= i < |bound|
      ensures bound[i].name == sorted[i] && Some(bound[i]) == EntryOf(r.effective, r.watched, bound[i].name)
    {
      assert Lookup(byName, sorted[i]) == EntryOf(r.effective, r.watched, sorted[i]);
      NamedMeansNames(r.effective, sorted[i]);
      NamedMeansNames(r.watched, sorted[i]);
    }
    forall name | EntryOf(r.effective, r.watched, name).Some?
      ensures exists i :: 0 <= i < |bound| && bound[i].name == name
    {
      assert Lookup(byName, name) == EntryOf(r.effective, r.watched, name);
      var i :| 0 <= i < |sorted| && sorted[i] == name;
      assert bound[i].name == name;
    }
  }

  /** There is one such list: the order of the references decides nothing else. */
  lemma BoundListIsUnique(r: Release, a: seq<ServiceConnection>, b: seq<ServiceConnection>)
    requires IsBoundList(r, a) && IsBoundList(r, b)
    ensures a == b
  {
    var nameOf := (entry: ServiceConnection) => entry.name;
    forall entry
      ensures entry in a <==> entry in b
    {
      if entry in a {
        var j :| 0 <= j < |b| && b[j].name == entry.name;
      }
      if entry in b {
        var j :| 0 <= j < |a| && a[j].name == entry.name;
      }
    }
    StrictIsUnique(a, b, nameOf);
  }

  // --- The consumers of a connection ---

  predicate InScope(ref: Reference, project: string) {
    ref.namespace == project || ref.namespace == ""
  }

  predicate References(refs: seq<Reference>, project: string, name: string) {
    exists i :: 0 <= i < |refs| && refs[i].name == name && InScope(refs[i], project)
  }

  method ReferencesConnection(refs: seq<Reference>, project: string, name: string) returns (found: bool)
    ensures found <==> References(refs, project, name)
  {
    for i := 0 to |refs|
      invariant forall j :: 0 <= j < i ==> !(refs[j].name == name && InScope(refs[j], project))
    {
      if refs[i].name == name && (refs[i].namespace == project || refs[i].namespace == "") {
        return true;
      }
    }
    return false;
  }

  function TrimPrefix(text: string, prefix: string): string {
    if prefix <= text then text[|prefix|..] else text
  }

  function ConsumerOf(r: Release, project: string, name: string): Option<Consumer> {
    var effective := References(r.effective, project, name);
    if References(r.watched, project, name) || effective
    then Some(Consumer(TrimPrefix(r.name, project + "-"), r.name, r.phase, effective))
    else None
  }

  function Consumers(releases: seq<Release>, project: string, name: string): seq<Consumer> {
    if releases == [] then []
    else
      var rest := Consumers(Init(releases), project, name);
      var last := ConsumerOf(Last(releases), project, name);
      if last.Some? then rest + [last.value] else rest
  }

  /** The consumer tells of that release: its name and phase, the service it is called
      after within the project, and whether it has the connection in effect. */
  ghost predicate TellsOf(c: Consumer, r: Release, project: string, name: string) {
    && c.releaseName == r.name && c.status == r.phase
    && r.name == (if project + "-" <= r.name then project + "-" + c.service else c.service)
    && (c.effective <==> References(r.effective, project, name))
  }

  /** Every consumer is a release that watches or has the connection, and every such
      release is one. */
  ghost predicate DescribesConsumers(consumers: seq<Consumer>, releases: seq<Release>, project: string, name: string) {
    && (forall c :: c in consumers ==>
                      exists i :: && 0 <= i < |releases| && TellsOf(c, releases[i], project, name)
                                  && (References(releases[i].watched, project, name) || c.effective))
    && (forall i :: 0 <= i < |releases|
                    && (References(releases[i].watched, project, name)
                      || References(releases[i].effective, project, name))
                    ==> exists c :: c in consumers && TellsOf(c, releases[i], project, name))
  }

  lemma ConsumerTells(r: Release, project: string, name: string)
    ensures ConsumerOf(r, project, name).Some?
            <==> References(r.watched, project, name) || References(r.effective, project, name)
    ensures ConsumerOf(r, project, name).Some? ==> TellsOf(ConsumerOf(r, project, name).value, r, project, name)
  {
    var prefix := project + "-";
    assert prefix <= r.name ==> r.name == prefix + r.name[|prefix|..];
  }

  lemma ConsumerListDescribes(consumers: seq<Consumer>, releases: seq<Release>, project: string, name: string)
    requires IsConsumerList(consumers, releases, project, name)
    ensures DescribesConsumers(consumers, releases, project, name)
  {
    forall c | c in consumers
      ensures exists i :: && 0 <= i < |releases| && TellsOf(c, releases[i], project, name)
                          && (References(releases[i].watched, project, name) || c.effective)
    {
      var i :| 0 <= i < |releases| && ConsumerOf(releases[i], project, name) == Some(c);
      ConsumerTells(releases[i], project, name);
    }
    forall i | 0 <= i < |releases|
               && (References(releases[i].watched, project, name) || References(releases[i].effective, project, name))
      ensures exists c :: c in consumers && TellsOf(c, releases[i], project, name)
    {
      ConsumerTells(releases[i], project, name);
      assert ConsumerOf(releases[i], project, name).value in consumers;
    }
  }

  method ListConsumers(releases: seq<Release>, project: string, name: string) returns (consumers: seq<Consumer>)
    ensures consumers == SortBy(Consumers(releases, project, name), (c: Consumer) => c.releaseName)
    ensures SortedBy(consumers, (c: Consumer) => c.releaseName)
    ensures IsConsumerList(consumers, releases, project, name)
    ensures DescribesConsumers(consumers, releases, project, name)
  {
    consumers := [];
    for i := 0 to |releases|
      invariant consumers == Consumers(releases[..i], project, name)
    {
      assert Init(releases[..i + 1]) == releases[..i];
      var watched := ReferencesConnection(releases[i].watched, project, name);
      var effective := ReferencesConnection(releases[i].effective, project, name);
      if !watched && !effective {
        continue;
      }
      consumers := consumers
        + [Consumer(TrimPrefix(releases[i].name, project + "-"), releases[i].name, releases[i].phase, effective)];
    }
    assert releases[..|releases|] == releases;
    ConsumersComeFrom(releases, project, name);
    SortBySorts(consumers, (c: Consumer) => c.releaseName);
    ConsumerListDescribes(SortBy(consumers, (c: Consumer) => c.releaseName), releases, project, name);
    consumers := SortBy(consumers, (c: Consumer) => c.releaseName);
  }

  lemma {:induction false} ConsumersComeFrom(releases: seq<Release>, project: string, name: string)
    ensures forall c :: c in Consumers(releases, project, name)
                        <==> exists i :: 0 <= i < |releases| && ConsumerOf(releases[i], project, name) == Some(c)
  {
    if releases != [] {
      ConsumersComeFrom(Init(releases), project, name);
      forall c
        ensures c in Consumers(releases, project, name)
                <==> exists i :: 0 <= i < |releases| && ConsumerOf(releases[i], project, name) == Some(c)
      {
        if i :| 0 <= i < |releases| && ConsumerOf(releases[i], project, name) == Some(c) {
          if i < |releases| - 1 {
            assert ConsumerOf(Init(releases)[i], project, name) == Some(c);
          }
        }
        if i :| 0 <= i < |Init(releases)| && ConsumerOf(Init(releases)[i], project, name) == Some(c) {
          assert ConsumerOf(releases[i], project, name) == Some(c);
        }
      }
    }
  }

  // --- The two views are transposes ---

  /** Both views say the same of a release and a name: whether they are related, and
      whether the reference has been resolved. */
  ghost predicate Agree(r: Release, project: string, name: string) {
    var entry, consumer := EntryOf(r.effective, r.watched, name), ConsumerOf(r, project, name);
    && (entry.Some? <==> consumer.Some?)
    && (consumer.Some? ==> entry.value.resolved == consumer.value.effective)
  }

  /** The list the name's entry comes from, the effective one if it has the name and
      else the watched one, has the name in scope too. */
  ghost predicate EntryInScope(r: Release, project: string, name: string) {
    if Names(r.effective, name) then References(r.effective, project, name)
    else Names(r.watched, name) ==> References(r.watched, project, name)
  }

  lemma ReferencedIsNamed(refs: seq<Reference>, project: string, name: string)
    ensures References(refs, project, name) ==> Names(refs, name)
  {
  }

  /** The views of a release and a name agree exactly when the entry is in scope. */
  lemma ViewsAgreeExactlyInScope(r: Release, project: string, name: string)
    ensures Agree(r, project, name) <==> EntryInScope(r, project, name)
  {
    NamedMeansNames(r.effective, name);
    NamedMeansNames(r.watched, name);
    ReferencedIsNamed(r.effective, project, name);
    ReferencedIsNamed(r.watched, project, name);
  }

  ghost predicate Listed(bound: seq<ServiceConnection>, name: string, resolved: bool) {
    exists entry :: entry in bound && entry.name == name && entry.resolved == resolved
  }

  ghost predicate Consumed(consumers: seq<Consumer>, release: string, effective: bool) {
    exists c :: c in consumers && c.releaseName == release && c.effective == effective
  }

  ghost predicate IsConsumerList(consumers: seq<Consumer>, releases: seq<Release>, project: string, name: string) {
    forall c :: c in consumers <==> exists i :: 0 <= i < |releases| && ConsumerOf(releases[i], project, name) == Some(c)
  }

  lemma ListedMeansEntry(r: Release, bound: seq<ServiceConnection>, name: string, resolved: bool)
    requires IsBoundList(r, bound)
    ensures Listed(bound, name, resolved)
            <==> && EntryOf(r.effective, r.watched, name).Some?
                 && EntryOf(r.effective, r.watched, name).value.resolved == resolved
  {
    if EntryOf(r.effective, r.watched, name).Some? {
      var j :| 0 <= j < |bound| && bound[j].name == name;
      assert bound[j] in bound;
    }
  }

  lemma ConsumedMeansConsumer(releases: seq<Release>, k: nat, project: string, name: string, consumers: seq<Consumer>,
                              effective: bool)
    requires k < |releases| && IsConsumerList(consumers, releases, project, name)
    requires forall i, j :: 0 <= i < j < |releases| ==> releases[i].name != releases[j].name
    ensures Consumed(consumers, releases[k].name, effective)
            <==> && ConsumerOf(releases[k], project, name).Some?
                 && ConsumerOf(releases[k], project, name).value.effective == effective
  {
    var consumer := ConsumerOf(releases[k], project, name);
    if consumer.Some? {
      assert consumer.value in consumers && consumer.value.releaseName == releases[k].name;
    }
    if c :| c in consumers && c.releaseName == releases[k].name && c.effective == effective {
      var i :| 0 <= i < |releases| && ConsumerOf(releases[i], project, name) == Some(c);
      assert i == k;
    }
  }

  /** The lists of the releases and the consumers of the connections are transposes
      of each other, resolved in the one exactly when effective in the other, for
      just the releases and names whose entry is in scope. */
  lemma ViewsAreTransposes(releases: seq<Release>, k: nat, project: string, name: string,
                           bound: seq<ServiceConnection>, consumers: seq<Consumer>)
    requires k < |releases| && IsBoundList(releases[k], bound)
    requires forall i, j :: 0 <= i < j < |releases| ==> releases[i].name != releases[j].name
    requires IsConsumerList(consumers, releases, project, name)
    ensures (forall resolved :: Listed(bound, name, resolved) <==> Consumed(consumers, releases[k].name, resolved))
            <==> EntryInScope(releases[k], project, name)
  {
    var r := releases[k];
    ViewsAgreeExactlyInScope(r, project, name);
    forall resolved
      ensures Listed(bound, name, resolved)
              <==> && EntryOf(r.effective, r.watched, name).Some?
                   && EntryOf(r.effective, r.watched, name).value.resolved == resolved
      ensures Consumed(consumers, r.name, resolved)
              <==> && ConsumerOf(r, project, name).Some?
                   && ConsumerOf(r, project, name).value.effective == resolved
    {
      ListedMeansEntry(r, bound, name, resolved);
      ConsumedMeansConsumer(releases, k, project, name, consumers, resolved);
    }
    if EntryOf(r.effective, r.watched, name).Some? {
      assert Listed(bound, name, EntryOf(r.effective, r.watched, name).value.resolved);
    }
    if ConsumerOf(r, project, name).Some? {
      assert Consumed(consumers, r.name, ConsumerOf(r, project, name).value.effective);
    }
  }

  /** Both ways of parting do occur: a reference to another namespace is listed and
      has no consumer, and one that resolved elsewhere and is watched here is listed
      as resolved and consumed as pending. */
  lemma ViewsPart(phase: string, kind: string)
    ensures var elsewhere, here := Reference(kind, "db", "other"), Reference(kind, "db", "demo");
            && var r := Release("demo-app", phase, [], [elsewhere]);
            && EntryOf(r.effective, r.watched, "db") == Some(Connection(elsewhere, true))
            && ConsumerOf(r, "demo", "db").None?
            && var both := Release("demo-app", phase, [here], [elsewhere]);
            && EntryOf(both.effective, both.watched, "db") == Some(Connection(elsewhere, true))
            && ConsumerOf(both, "demo", "db").Some? && !ConsumerOf(both, "demo", "db").value.effective
  {
    var elsewhere, here := Reference(kind, "db", "other"), Reference(kind, "db", "demo");
    assert "other"[0] != "demo"[0];
    assert Init([elsewhere]) == [] && Last([elsewhere]) == elsewhere;
    assert FirstNamed([elsewhere], "db") == Some(elsewhere);
    assert !References([elsewhere], "demo", "db");
    assert [here][0] == here && References([here], "demo", "db");
    var r := Release("demo-app", phase, [], [elsewhere]);
    assert !References(r.watched, "demo", "db");
  }
}
