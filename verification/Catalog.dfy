/** The service catalog as it is stored, services nested in titled sections, and
    as it is read, a list of services under distinct names
    (internal/repository/context_writer_repository.go,
    internal/repository/context_repository.go, internal/service/service_service.go). */
module Catalog {
  import opened Basics

  datatype PlatformService = PlatformService(
    name: string,
    versions: seq<string>,
    defaultVersion: string,
    description: string,
    icon: string,
    category: string,
    repository: string,
    menuLabel: string,
    exposesUI: Option<bool>
  )

  // --- One service, to and from its stored shape ---

  function Strings(items: seq<string>): seq<Value> {
    seq(|items|, i requires 0 <= i < |items| => Str(items[i]))
  }

  /** The strings of a list; other items are skipped. */
  function StringsOf(items: seq<Value>): seq<string> {
    if items == [] then []
    else
      var rest := StringsOf(Init(items));
      if Last(items).Str? then rest + [Last(items).s] else rest
  }

  function With(m: Values, key: string, value: string): Values {
    if value == "" then m else m[key := Str(value)]
  }

  function ToMap(svc: PlatformService): Values {
    var m: Values := map["name" := Str(svc.name), "versions" := List(Strings(svc.versions)),
      "default" := Str(svc.defaultVersion)];
    var m := With(m, "description", svc.description);
    var m := With(m, "repository", svc.repository);
    var m := With(m, "label", svc.menuLabel);
    if svc.exposesUI.Some? then m["exposesUI" := Bool(svc.exposesUI.value)] else m
  }

  function FromMap(m: Values, category: string): PlatformService {
    var default := if StringAt(m, "default") != "" then StringAt(m, "default") else StringAt(m, "tag");
    var listed := if "versions" in m && m["versions"].List? then StringsOf(m["versions"].items) else [];
    PlatformService(
      StringAt(m, "name"),
      if listed == [] && default != "" then [default] else listed,
      default,
      StringAt(m, "description"),
      "",
      category,
      StringAt(m, "repository"),
      StringAt(m, "label"),
      if "exposesUI" in m && m["exposesUI"].Bool? then Some(m["exposesUI"].b) else None)
  }

  /** What is read of a stored service, key by key: a tag stands in for a default, and a
      default for a list of versions that has none; other items of the list are skipped. */
  lemma StoredKeysAreRead(m: Values, category: string, items: seq<string>)
    requires "versions" in m ==> m["versions"] == List(Strings(items))
    requires "versions" !in m ==> items == []
    ensures var svc := FromMap(m, category);
            && svc.name == StringAt(m, "name") && svc.description == StringAt(m, "description")
            && svc.repository == StringAt(m, "repository") && svc.menuLabel == StringAt(m, "label")
            && svc.category == category && svc.icon == ""
            && (StringAt(m, "default") != "" ==> svc.defaultVersion == StringAt(m, "default"))
            && (StringAt(m, "default") == "" ==> svc.defaultVersion == StringAt(m, "tag"))
            && (items != [] ==> svc.versions == items)
            && (items == [] ==> svc.versions == if svc.defaultVersion == "" then [] else [svc.defaultVersion])
            && (svc.exposesUI.Some? ==> Lookup(m, "exposesUI") == Some(Bool(svc.exposesUI.value)))
            && (svc.exposesUI.None? ==> Lookup(m, "exposesUI") !in {Some(Bool(true)), Some(Bool(false))})
  {
    StringsOfUndoesStrings(items);
  }

  lemma {:induction false} StringsOfUndoesStrings(items: seq<string>)
    ensures StringsOf(Strings(items)) == items
  {
    if items != [] {
      StringsOfUndoesStrings(Init(items));
      assert Init(Strings(items)) == Strings(Init(items));
      assert items == Init(items) + [Last(items)];
    }
  }

  // --- What the catalog accepts ---

  predicate IsAlphanumeric(c: char) {
    'a' <= c <= 'z' || '0' <= c <= '9'
  }

  /** Lowercase letters, digits and inner dashes. */
  predicate IsServiceName(name: string) {
    && name != ""
    && IsAlphanumeric(name[0]) && IsAlphanumeric(name[|name| - 1])
    && forall i :: 0 <= i < |name| ==> IsAlphanumeric(name[i]) || name[i] == '-'
  }

  lemma ServiceNamesAreTrimmed(name: string)
    requires IsServiceName(name)
    ensures TrimSpace(name) == name
  {
  }

  ghost predicate GoodVersions(versions: seq<string>) {
    && versions != []
    && Distinct(versions)
    && forall i :: 0 <= i < |versions| ==> TrimSpace(versions[i]) != ""
  }

  /** What a catalog service satisfies once it is accepted. */
  ghost predicate Accepted(svc: PlatformService) {
    && IsServiceName(svc.name)
    && svc.category != ""
    && GoodVersions(svc.versions)
    && svc.defaultVersion in svc.versions
  }

  /** A submitted service with the spaces around its name and category gone and
      its first version standing in for an omitted default. */
  function Tidied(svc: PlatformService): PlatformService {
    svc.(name := TrimSpace(svc.name),
    category := TrimSpace(svc.category),
    defaultVersion := if svc.defaultVersion == "" && svc.versions != [] then svc.versions[0] else svc.defaultVersion)
  }

  method NormalizeAndValidate(submitted: PlatformService) returns (r: Option<PlatformService>)
    ensures r == if Accepted(Tidied(submitted)) then Some(Tidied(submitted)) else None
    ensures r.Some? ==>
              && r.value.name == TrimSpace(submitted.name) && r.value.category == TrimSpace(submitted.category)
              && r.value.versions == submitted.versions && submitted.versions != []
              && r.value.defaultVersion == (if submitted.defaultVersion != "" then submitted.defaultVersion
                                            else submitted.versions[0])
              && r.value == submitted.(name := r.value.name, category := r.value.category,
                                       defaultVersion := r.value.defaultVersion)
  {
    var svc := submitted.(name := TrimSpace(submitted.name));
    if svc.name == "" || !IsServiceName(svc.name) {
      return None;
    }
    svc := svc.(category := TrimSpace(svc.category));
    if svc.category == "" || |svc.versions| == 0 {
      return None;
    }
    var seen: set<string> := {};
    for i := 0 to |svc.versions|
      invariant forall v :: v in seen <==> v in svc.versions[..i]
      invariant Distinct(svc.versions[..i])
      invariant forall j :: 0 <= j < i ==> TrimSpace(svc.versions[j]) != ""
    {
      var v := svc.versions[i];
      if TrimSpace(v) == "" {
        return None;
      }
      if v in seen {
        var j :| 0 <= j < i && svc.versions[j] == v;
        return None;
      }
      seen := seen + {v};
      assert svc.versions[..i + 1] == svc.versions[..i] + [v];
    }
    assert svc.versions[..|svc.versions|] == svc.versions;
    if svc.defaultVersion == "" {
      svc := svc.(defaultVersion := svc.versions[0]);
    } else if svc.defaultVersion !in seen {
      return None;
    }
    return Some(svc);
  }

  lemma WithSets(m: Values, key: string, value: string)
    requires key !in m
    ensures StringAt(With(m, key, value), key) == value
    ensures forall k :: k != key ==> Lookup(With(m, key, value), k) == Lookup(m, k)
  {
  }

  lemma StoredFields(svc: PlatformService)
    ensures var m := ToMap(svc);
            && Lookup(m, "name") == Some(Str(svc.name))
            && Lookup(m, "versions") == Some(List(Strings(svc.versions)))
            && Lookup(m, "default") == Some(Str(svc.defaultVersion))
            && StringAt(m, "description") == svc.description
            && StringAt(m, "repository") == svc.repository
            && StringAt(m, "label") == svc.menuLabel
            && Lookup(m, "exposesUI") == (if svc.exposesUI.Some? then Some(Bool(svc.exposesUI.value)) else None)
  {
    var m: Values := map["name" := Str(svc.name), "versions" := List(Strings(svc.versions)),
      "default" := Str(svc.defaultVersion)];
    var d := With(m, "description", svc.description);
    var r := With(d, "repository", svc.repository);
    WithSets(m, "description", svc.description);
    WithSets(d, "repository", svc.repository);
    WithSets(r, "label", svc.menuLabel);
  }

  /** An accepted service reads back identical apart from its icon. */
  lemma AcceptedServiceReadsBack(svc: PlatformService)
    requires Accepted(svc)
    ensures FromMap(ToMap(svc), svc.category) == svc.(icon := "")
  {
    StoredFields(svc);
    StringsOfUndoesStrings(svc.versions);
    assert svc.defaultVersion != "" by {
      var i :| 0 <= i < |svc.versions| && svc.versions[i] == svc.defaultVersion;
      assert TrimSpace("") == "";
    }
  }

  // --- Sections ---

  /** The services of a section, always as a list. */
  function ServicesOf(section: Values): seq<Value> {
    if "services" in section && section["services"].List? then section["services"].items else []
  }

  predicate IsNamed(service: Value, name: string) {
    service.Obj? && StringAt(service.fields, "name") == name
  }

  predicate IsSection(category: Value, title: string) {
    category.Obj? && StringAt(category.fields, "title") == title
  }

  function Without(services: seq<Value>, name: string): seq<Value> {
    if services == [] then []
    else if IsNamed(Last(services), name) then Without(Init(services), name)
    else Without(Init(services), name) + [Last(services)]
  }

  function SectionWithout(category: Value, name: string): Value {
    if category.Obj? then Obj(category.fields["services" := List(Without(ServicesOf(category.fields), name))])
    else category
  }

  /** Every service of that name dropped from every section. */
  function Removed(categories: seq<Value>, name: string): seq<Value> {
    if categories == [] then [] else Removed(Init(categories), name) + [SectionWithout(Last(categories), name)]
  }

  ghost predicate Holds(category: Value, name: string) {
    category.Obj? && exists j :: 0 <= j < |ServicesOf(category.fields)| && IsNamed(ServicesOf(category.fields)[j], name)
  }

  ghost predicate Found(categories: seq<Value>, name: string) {
    exists i :: 0 <= i < |categories| && Holds(categories[i], name)
  }

  method RemoveServiceFromCategories(categories: seq<Value>, name: string) returns (found: bool, updated: seq<Value>)
    ensures updated == Removed(categories, name)
    ensures found <==> Found(categories, name)
  {
    found, updated := false, [];
    for i := 0 to |categories|
      invariant updated == Removed(categories[..i], name)
      invariant found <==> exists k :: 0 <= k < i && Holds(categories[k], name)
    {
      var category := categories[i];
      assert Init(categories[..i + 1]) == categories[..i];
      if !category.Obj? {
        updated := updated + [category];
        continue;
      }
      var services := ServicesOf(category.fields);
      var kept: seq<Value> := [];
      ghost var foundBefore := found;
      for j := 0 to |services|
        invariant kept == Without(services[..j], name)
        invariant found <==> foundBefore || exists k :: 0 <= k < j && IsNamed(services[k], name)
      {
        assert Init(services[..j + 1]) == services[..j];
        if IsNamed(services[j], name) {
          found := true;
          continue;
        }
        kept := kept + [services[j]];
      }
      assert services[..|services|] == services;
      updated := updated + [Obj(category.fields["services" := List(kept)])];
    }
    assert categories[..|categories|] == categories;
  }

  function SectionPlus(category: Value, service: Values): Value
    requires category.Obj?
  {
    Obj(category.fields["services" := List(ServicesOf(category.fields) + [Obj(service)])])
  }

  function NewSection(title: string, service: Values): Value {
    Obj(map["title" := Str(title), "services" := List([Obj(service)])])
  }

  /** The place of the first section of that title, the length of the list without one. */
  function FirstSection(categories: seq<Value>, title: string): (k: nat)
    ensures k <= |categories|
    ensures k < |categories| ==> IsSection(categories[k], title)
    ensures forall j :: 0 <= j < k ==> !IsSection(categories[j], title)
  {
    if categories == [] || IsSection(categories[0], title) then 0 else 1 + FirstSection(categories[1..], title)
  }

  /** The service added to the first section of that title, or to a new last one. */
  function Appended(categories: seq<Value>, title: string, service: Values): seq<Value> {
    var k := FirstSection(categories, title);
    if k < |categories| then Replaced(categories, k, service)
    else categories + [NewSection(title, service)]
  }

  /** The section is as it was but for the services listed under "services". */
  ghost predicate OnlyServicesChange(before: Value, after: Value, services: seq<Value>) {
    && before.Obj? && after.Obj?
    && Lookup(after.fields, "services") == Some(List(services))
    && forall key :: key != "services" ==> Lookup(after.fields, key) == Lookup(before.fields, key)
  }

  ghost predicate Lists(section: Value, services: seq<Value>) {
    && section.Obj?
    && if "services" in section.fields && section.fields["services"].List?
       then section.fields["services"] == List(services) else services == []
  }

  /** The first section titled so gets the service behind its others; without one, a
      section of that title with the one service comes last. */
  ghost predicate IsAppended(categories: seq<Value>, title: string, service: Values, updated: seq<Value>) {
    if exists k :: 0 <= k < |categories| && IsSection(categories[k], title)
    then
      && |updated| == |categories|
      && exists k, services :: && 0 <= k < |categories| && IsSection(categories[k], title)
                               && (forall j :: 0 <= j < k ==> !IsSection(categories[j], title))
                               && Lists(categories[k], services)
                               && OnlyServicesChange(categories[k], updated[k], services + [Obj(service)])
                               && forall j :: 0 <= j < |categories| && j != k ==> updated[j] == categories[j]
    else updated == categories + [Obj(map["title" := Str(title), "services" := List([Obj(service)])])]
  }

  lemma AppendedIsAppended(categories: seq<Value>, title: string, service: Values)
    ensures IsAppended(categories, title, service, Appended(categories, title, service))
  {
    var k := FirstSection(categories, title);
    if k < |categories| {
      assert Lists(categories[k], ServicesOf(categories[k].fields));
      assert OnlyServicesChange(categories[k], SectionPlus(categories[k], service),
                                ServicesOf(categories[k].fields) + [Obj(service)]);
    }
  }

  method AppendServiceToCategory(categories: seq<Value>, title: string, service: Values) returns (updated: seq<Value>)
    ensures updated == Appended(categories, title, service)
    ensures IsAppended(categories, title, service, updated)
  {
    AppendedIsAppended(categories, title, service);
    for i := 0 to |categories|
      invariant forall j :: 0 <= j < i ==> !IsSection(categories[j], title)
    {
      if !categories[i].Obj? || StringAt(categories[i].fields, "title") != title {
        continue;
      }
      return categories[i := SectionPlus(categories[i], service)];
    }
    return categories + [NewSection(title, service)];
  }

  // --- Reading the catalog ---

  function ReadServices(services: seq<Value>, title: string): seq<PlatformService> {
    if services == [] then []
    else if Last(services).Obj? then ReadServices(Init(services), title) + [FromMap(Last(services).fields, title)]
    else ReadServices(Init(services), title)
  }

  function ReadSection(category: Value): seq<PlatformService> {
    if category.Obj? then ReadServices(ServicesOf(category.fields), StringAt(category.fields, "title")) else []
  }

  /** The services in the order of the sections. */
  function ReadCatalog(categories: seq<Value>): seq<PlatformService> {
    if categories == [] then [] else ReadCatalog(Init(categories)) + ReadSection(Last(categories))
  }

  method GetPlatformServices(categories: seq<Value>) returns (services: seq<PlatformService>)
    ensures services == ReadCatalog(categories)
  {
    services := [];
    for i := 0 to |categories|
      invariant services == ReadCatalog(categories[..i])
    {
      assert Init(categories[..i + 1]) == categories[..i];
      if !categories[i].Obj? {
        continue;
      }
      var title := StringAt(categories[i].fields, "title");
      var raw := ServicesOf(categories[i].fields);
      ghost var before := services;
      for j := 0 to |raw|
        invariant services == before + ReadServices(raw[..j], title)
      {
        assert Init(raw[..j + 1]) == raw[..j];
        if !raw[j].Obj? {
          continue;
        }
        services := services + [FromMap(raw[j].fields, title)];
      }
      assert raw[..|raw|] == raw;
    }
    assert categories[..|categories|] == categories;
  }

  /** The title of each entry; an entry that is no section has none. */
  function Titles(categories: seq<Value>): seq<string> {
    if categories == [] then []
    else Titles(Init(categories)) + [if Last(categories).Obj? then StringAt(Last(categories).fields, "title") else ""]
  }

  // --- The flat view: services by name ---

  function Unnamed(services: seq<PlatformService>, name: string): seq<PlatformService> {
    if services == [] then []
    else if Last(services).name == name then Unnamed(Init(services), name)
    else Unnamed(Init(services), name) + [Last(services)]
  }

  ghost predicate DistinctNames(services: seq<PlatformService>) {
    forall i, j :: 0 <= i < j < |services| ==> services[i].name != services[j].name
  }

  ghost predicate HasName(services: seq<PlatformService>, name: string) {
    exists i :: 0 <= i < |services| && services[i].name == name
  }

  function ByName(services: seq<PlatformService>): map<string, PlatformService> {
    if services == [] then map[] else ByName(Init(services))[Last(services).name := Last(services)]
  }

  lemma {:induction false} UnnamedOfSum(a: seq<PlatformService>, b: seq<PlatformService>, name: string)
    ensures Unnamed(a + b, name) == Unnamed(a, name) + Unnamed(b, name)
  {
    if b == [] {
      assert a + b == a;
    } else {
      UnnamedOfSum(a, Init(b), name);
      assert Init(a + b) == a + Init(b);
    }
  }

  lemma HasNameOfSum(a: seq<PlatformService>, b: seq<PlatformService>, name: string)
    ensures HasName(a + b, name) <==> HasName(a, name) || HasName(b, name)
  {
    if i :| 0 <= i < |a| && a[i].name == name {
      assert (a + b)[i].name == name;
    }
    if i :| 0 <= i < |b| && b[i].name == name {
      assert (a + b)[|a| + i].name == name;
    }
  }

  /** The map holds the services of the list under their names, and no other. */
  lemma {:induction false} ByNameHolds(services: seq<PlatformService>)
    requires DistinctNames(services)
    ensures forall i :: 0 <= i < |services|
                        ==> services[i].name in ByName(services) && ByName(services)[services[i].name] == services[i]
    ensures forall name :: name in ByName(services) <==> HasName(services, name)
  {
    if services != [] {
      ByNameHolds(Init(services));
      assert services == Init(services) + [Last(services)];
      forall name
        ensures name in ByName(services) <==> HasName(services, name)
      {
        HasNameOfSum(Init(services), [Last(services)], name);
        assert HasName([Last(services)], name) <==> [Last(services)][0].name == name;
      }
    }
  }

  lemma {:induction false} UnnamedIsAPart(services: seq<PlatformService>, name: string)
    ensures forall svc :: svc in Unnamed(services, name) ==> svc in services && svc.name != name
    ensures !HasName(services, name) ==> Unnamed(services, name) == services
  {
    if services != [] {
      UnnamedIsAPart(Init(services), name);
      assert services == Init(services) + [Last(services)];
      HasNameOfSum(Init(services), [Last(services)], name);
      assert [Last(services)][0].name == Last(services).name;
    }
  }

  lemma {:induction false} UnnamedStaysDistinct(services: seq<PlatformService>, name: string)
    requires DistinctNames(services)
    ensures DistinctNames(Unnamed(services, name))
  {
    if services != [] {
      var init, last := Init(services), Last(services);
      UnnamedStaysDistinct(init, name);
      UnnamedIsAPart(init, name);
      var kept := Unnamed(init, name);
      forall i | 0 <= i < |kept|
        ensures kept[i].name != last.name
      {
        assert kept[i] in init;
      }
    }
  }

  /** Dropping a name from the list is deleting it from the map. */
  lemma {:induction false} UnnamedDeletes(services: seq<PlatformService>, name: string)
    requires DistinctNames(services)
    ensures ByName(Unnamed(services, name)) == ByName(services) - {name}
  {
    if services != [] {
      var init, last := Init(services), Last(services);
      UnnamedDeletes(init, name);
      ByNameHolds(init);
      DeleteAfterPut(ByName(init), last.name, last, name);
      if last.name == name {
        assert !HasName(init, name);
      } else {
        assert Init(Unnamed(init, name) + [last]) == Unnamed(init, name);
      }
    }
  }

  function Inserted<T>(xs: seq<T>, k: nat, x: T): seq<T>
    requires k <= |xs|
  {
    xs[..k] + [x] + xs[k..]
  }

  lemma InitOfInserted<T>(xs: seq<T>, k: nat, x: T)
    requires k < |xs|
    ensures Init(Inserted(xs, k, x)) == Inserted(Init(xs), k, x) && Last(Inserted(xs, k, x)) == Last(xs)
  {
  }

  lemma InsertedStaysDistinct(services: seq<PlatformService>, k: nat, svc: PlatformService)
    requires k <= |services| && DistinctNames(services) && !HasName(services, svc.name)
    ensures DistinctNames(Inserted(services, k, svc))
  {
    var inserted := Inserted(services, k, svc);
    forall i, j | 0 <= i < j < |inserted|
      ensures inserted[i].name != inserted[j].name
    {
      assert forall n :: 0 <= n < |inserted| ==>
        inserted[n] == if n < k then services[n] else if n == k then svc else services[n - 1];
    }
  }

  lemma {:induction false} InsertedAdds(services: seq<PlatformService>, k: nat, svc: PlatformService)
    requires k <= |services| && !HasName(services, svc.name)
    ensures ByName(Inserted(services, k, svc)) == ByName(services)[svc.name := svc]
    ensures Unnamed(Inserted(services, k, svc), svc.name) == services
  {
    if k == |services| {
      UnnamedIsAPart(services, svc.name);
      assert Inserted(services, k, svc) == services + [svc];
      assert Init(services + [svc]) == services;
    } else {
      var init, last := Init(services), Last(services);
      InitOfInserted(services, k, svc);
      assert services == init + [last];
      HasNameOfSum(init, [last], svc.name);
      assert last.name != svc.name by { assert services[|services| - 1] == last; }
      InsertedAdds(init, k, svc);
    }
  }

  /** A new name anywhere in the list is a new entry of the map. */
  lemma InsertedAnywhere(services: seq<PlatformService>, k: nat, svc: PlatformService)
    requires k <= |services| && DistinctNames(services) && !HasName(services, svc.name)
    ensures DistinctNames(Inserted(services, k, svc))
    ensures ByName(Inserted(services, k, svc)) == ByName(services)[svc.name := svc]
    ensures Unnamed(Inserted(services, k, svc), svc.name) == services
  {
    InsertedStaysDistinct(services, k, svc);
    InsertedAdds(services, k, svc);
  }

  // --- The nested writes, seen flat ---

  lemma {:induction false} ReadWithout(services: seq<Value>, title: string, name: string)
    ensures ReadServices(Without(services, name), title) == Unnamed(ReadServices(services, title), name)
  {
    if services != [] {
      var init, last := Init(services), Last(services);
      ReadWithout(init, title, name);
      if last.Obj? {
        UnnamedOfSum(ReadServices(init, title), [FromMap(last.fields, title)], name);
      }
      if !IsNamed(last, name) {
        assert Init(Without(init, name) + [last]) == Without(init, name);
      }
    }
  }

  /** Removing a service reads as dropping its name, and keeps every section. */
  lemma {:induction false} RemovalIsSeenFlat(categories: seq<Value>, name: string)
    ensures ReadCatalog(Removed(categories, name)) == Unnamed(ReadCatalog(categories), name)
    ensures Titles(Removed(categories, name)) == Titles(categories)
  {
    if categories != [] {
      var init, last := Init(categories), Last(categories);
      RemovalIsSeenFlat(init, name);
      SectionRemovalIsSeenFlat(last, name);
      UnnamedOfSum(ReadCatalog(init), ReadSection(last), name);
      assert Init(Removed(categories, name)) == Removed(init, name);
    }
  }

  lemma SectionRemovalIsSeenFlat(category: Value, name: string)
    ensures ReadSection(SectionWithout(category, name)) == Unnamed(ReadSection(category), name)
    ensures category.Obj?
        ==> StringAt(SectionWithout(category, name).fields, "title") == StringAt(category.fields, "title")
  {
    if category.Obj? {
      ReadWithout(ServicesOf(category.fields), StringAt(category.fields, "title"), name);
    }
  }

  lemma SectionAdditionIsSeenFlat(category: Value, title: string, service: Values)
    requires IsSection(category, title)
    ensures ReadSection(SectionPlus(category, service)) == ReadSection(category) + [FromMap(service, title)]
    ensures IsSection(SectionPlus(category, service), title)
  {
    var services := ServicesOf(category.fields);
    assert Init(services + [Obj(service)]) == services;
  }

  lemma InsertedBeforeMore<T>(xs: seq<T>, k: nat, x: T, more: seq<T>)
    requires k <= |xs|
    ensures Inserted(xs, k, x) + more == Inserted(xs + more, k, x)
  {
  }

  function Replaced(categories: seq<Value>, k: nat, service: Values): seq<Value>
    requires k < |categories| && categories[k].Obj?
  {
    categories[k := SectionPlus(categories[k], service)]
  }

  lemma LastReplacementIsSeenFlat(categories: seq<Value>, title: string, service: Values)
    requires categories != [] && IsSection(Last(categories), title)
    ensures var replaced := Replaced(categories, |categories| - 1, service);
            && ReadCatalog(replaced) == ReadCatalog(categories) + [FromMap(service, title)]
            && Titles(replaced) == Titles(categories)
  {
    var init, last := Init(categories), Last(categories);
    SectionAdditionIsSeenFlat(last, title, service);
    assert Replaced(categories, |categories| - 1, service) == init + [SectionPlus(last, service)];
    assert categories == init + [last];
    OneMoreSection(init, last);
    OneMoreSection(init, SectionPlus(last, service));
    assert ReadCatalog(init) + (ReadSection(last) + [FromMap(service, title)])
           == ReadCatalog(init) + ReadSection(last) + [FromMap(service, title)];
  }

  lemma EarlierReplacement(categories: seq<Value>, k: nat, service: Values)
    requires k < |categories| - 1 && categories[k].Obj?
    ensures Replaced(categories, k, service) == Replaced(Init(categories), k, service) + [Last(categories)]
    ensures categories == Init(categories) + [Last(categories)]
  {
  }

  /** An insertion is seen through a further section. */
  lemma InsertionIsSeenThrough(before: seq<Value>, after: seq<Value>, section: Value, p: nat, svc: PlatformService)
    requires p <= |ReadCatalog(before)| && ReadCatalog(after) == Inserted(ReadCatalog(before), p, svc)
    ensures p <= |ReadCatalog(before + [section])|
    ensures ReadCatalog(after + [section]) == Inserted(ReadCatalog(before + [section]), p, svc)
    ensures Titles(after) == Titles(before) ==> Titles(after + [section]) == Titles(before + [section])
  {
    OneMoreSection(before, section);
    OneMoreSection(after, section);
    InsertedBeforeMore(ReadCatalog(before), p, svc, ReadSection(section));
  }

  /** The replaced section reads with the service after its others. */
  lemma {:induction false} ReplacementIsSeenFlat(categories: seq<Value>, k: nat, title: string, service: Values)
    returns (p: nat)
    requires k < |categories| && IsSection(categories[k], title)
    ensures p <= |ReadCatalog(categories)|
    ensures ReadCatalog(Replaced(categories, k, service))
            == Inserted(ReadCatalog(categories), p, FromMap(service, title))
    ensures Titles(Replaced(categories, k, service)) == Titles(categories)
  {
    if k == |categories| - 1 {
      p := |ReadCatalog(categories)|;
      LastReplacementIsSeenFlat(categories, title, service);
    } else {
      var init := Init(categories);
      p := ReplacementIsSeenFlat(init, k, title, service);
      EarlierReplacement(categories, k, service);
      InsertionIsSeenThrough(init, Replaced(init, k, service), Last(categories), p, FromMap(service, title));
    }
  }

  lemma OneMoreSection(categories: seq<Value>, section: Value)
    ensures ReadCatalog(categories + [section]) == ReadCatalog(categories) + ReadSection(section)
    ensures Titles(categories + [section])
        == Titles(categories) + [if section.Obj? then StringAt(section.fields, "title") else ""]
  {
    assert Init(categories + [section]) == categories;
  }

  /** Adding a service reads as inserting it somewhere, and keeps every section,
      adding one at the end when there was none of that title. */
  lemma AdditionIsSeenFlat(categories: seq<Value>, title: string, service: Values) returns (p: nat)
    ensures p <= |ReadCatalog(categories)|
    ensures ReadCatalog(Appended(categories, title, service))
        == Inserted(ReadCatalog(categories), p, FromMap(service, title))
    ensures Titles(Appended(categories, title, service)) ==
            if FirstSection(categories, title) < |categories| then Titles(categories) else Titles(categories) + [title]
  {
    var k := FirstSection(categories, title);
    if k < |categories| {
      p := ReplacementIsSeenFlat(categories, k, title, service);
    } else {
      p := |ReadCatalog(categories)|;
      var section := NewSection(title, service);
      NewSectionIsSeenFlat(title, service);
      assert Init(categories + [section]) == categories;
    }
  }

  lemma NewSectionIsSeenFlat(title: string, service: Values)
    ensures ReadSection(NewSection(title, service)) == [FromMap(service, title)]
    ensures NewSection(title, service).Obj? && StringAt(NewSection(title, service).fields, "title") == title
  {
    var section, services := NewSection(title, service), [Obj(service)];
    assert ServicesOf(section.fields) == services && StringAt(section.fields, "title") == title;
    assert Init(services) == [] && Last(services) == Obj(service);
    assert ReadServices(services, title) == [FromMap(service, title)];
  }

  /** A name is found in the sections exactly when it is read. */
  lemma {:induction false} FoundMeansRead(categories: seq<Value>, name: string)
    ensures Found(categories, name) <==> HasName(ReadCatalog(categories), name)
  {
    if categories != [] {
      var init, last := Init(categories), Last(categories);
      FoundMeansRead(init, name);
      HasNameOfSum(ReadCatalog(init), ReadSection(last), name);
      if last.Obj? {
        HeldMeansRead(ServicesOf(last.fields), StringAt(last.fields, "title"), name);
      }
      assert Found(categories, name) <==> Found(init, name) || Holds(last, name) by {
        assert forall i :: 0 <= i < |init| ==> init[i] == categories[i];
      }
    }
  }

  lemma {:induction false} HeldMeansRead(services: seq<Value>, title: string, name: string)
    ensures (exists j :: 0 <= j < |services| && IsNamed(services[j], name))
        <==> HasName(ReadServices(services, title), name)
  {
    if services != [] {
      var init, last := Init(services), Last(services);
      HeldMeansRead(init, title, name);
      assert forall j :: 0 <= j < |init| ==> init[j] == services[j];
      if last.Obj? {
        var read := [FromMap(last.fields, title)];
        HasNameOfSum(ReadServices(init, title), read, name);
        assert HasName(read, name) <==> read[0].name == name;
      }
    }
  }
}
