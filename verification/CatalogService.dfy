/** The catalog operations over the stored Context and the cached one
    (internal/repository/context_writer_repository.go,
    internal/repository/context_repository.go, internal/service/service_service.go). */
module CatalogService {
  import opened Basics
  import opened Catalog
  import opened CatalogEdits
  import opened ContextCache

  datatype CatalogError = Conflict | Failed | Validation | Exists | NotFound

  /** What the registry answers about the tags of a package. */
  datatype Registry = NotConfigured | Unreachable | Tags(tags: seq<string>)

  /** The Context object in the cluster, with the history of its writes. When it
      is `shared`, others write it too, at any moment. */
  class ContextStore {
    var categories: seq<Value>
    var revision: nat
    ghost var initial: seq<Value>
    ghost var log: seq<Edit>
    const shared: bool

    constructor (categories: seq<Value>, shared: bool)
      ensures Valid() && this.categories == categories && this.shared == shared && log == []
    {
      this.categories, this.revision, this.shared := categories, 0, shared;
      this.initial, this.log := categories, [];
    }

    ghost predicate Valid()
      reads this
    {
      categories == Replay(initial, log)
    }

    /** Others may write between two calls. */
    method Meanwhile()
      requires Valid()
      modifies this
      ensures Valid() && initial == old(initial)
      ensures revision >= old(revision)
      ensures revision == old(revision) ==> categories == old(categories) && log == old(log)
      ensures !shared ==> revision == old(revision)
      ensures revision != old(revision) ==> log != old(log)
      ensures log == old(log) || (shared && exists edit: Edit :: edit.Foreign? && log == old(log) + [edit])
    {
      if shared {
        var replaced: seq<Value> := *;
        if * {
          assert Init(log + [Foreign(replaced)]) == log;
          categories, revision, log := replaced, revision + 1, log + [Foreign(replaced)];
        }
      }
    }

    method Get() returns (r: Result<(seq<Value>, nat), CatalogError>)
      ensures r.Ok? ==> r.value == (categories, revision)
      ensures r.Err? ==> r.error == Failed
    {
      if * {
        return Err(Failed);
      }
      return Ok((categories, revision));
    }

    /** Replaces the list provided the object still is at the revision it was read at. */
    method Put(ghost edit: Edit, ghost base: seq<Value>, updated: seq<Value>, revision: nat)
      returns (r: Result<(), CatalogError>)
      requires Valid() && updated == Apply(edit, base)
      requires revision == this.revision ==> base == categories
      modifies this
      ensures Valid() && initial == old(initial)
      ensures r.Ok? ==> log == old(log) + [edit] && categories == updated && revision == old(this.revision)
      ensures r.Err? ==> log == old(log) && categories == old(categories) && this.revision == old(this.revision)
      ensures r.Err? ==> r.error == Failed || (r.error == Conflict && revision != this.revision)
    {
      if * {
        return Err(Failed);
      }
      if revision != this.revision {
        return Err(Conflict);
      }
      assert Init(log + [edit]) == log;
      categories, this.revision, log := updated, this.revision + 1, log + [edit];
      return Ok(());
    }
  }

  class ContextWriterRepository {
    const store: ContextStore

    constructor (store: ContextStore)
      ensures this.store == store
    {
      this.store := store;
    }

    /** The read-modify-write, retried on conflicts. A success is one commit of the
        edit, after whatever others committed; a failure leaves no trace. It gives up
        on a conflict only when each of five attempts was overtaken. */
    method MutateCategories(edit: Edit) returns (r: Result<(), CatalogError>, ghost others: seq<Edit>)
      requires store.Valid() && !edit.Foreign?
      modifies store
      ensures store.Valid() && store.initial == old(store.initial)
      ensures store.log == old(store.log) + others + if r.Ok? then [edit] else []
      ensures forall i :: 0 <= i < |others| ==> others[i].Foreign?
      ensures r == Err(Conflict) ==> |others| == 5
      ensures !store.shared
          ==> store.categories == if r.Ok? then Apply(edit, old(store.categories)) else old(store.categories)
      ensures !store.shared && r.Err? ==> r.error == Failed
    {
      r, others := Err(Conflict), [];
      var attempt := 0;
      while attempt < ATTEMPTS && r == Err(Conflict)
        invariant store.Valid() && store.initial == old(store.initial)
        invariant store.log == old(store.log) + others + if r.Ok? then [edit] else []
        invariant forall i :: 0 <= i < |others| ==> others[i].Foreign?
        invariant !store.shared
            ==> store.categories == if r.Ok? then Apply(edit, old(store.categories)) else old(store.categories)
        invariant !store.shared && r.Err? ==> r.error == if attempt == 0 then Conflict else Failed
        invariant attempt <= 5 && (r == Err(Conflict) ==> |others| == attempt)
        decreases ATTEMPTS - attempt
      {
        ghost var before, earlier, more := store.log, others, [];
        assert before == old(store.log) + earlier;
        r, more := Attempt(edit);
        others := earlier + more;
        CommitsRegroup(old(store.log), earlier, more, if r.Ok? then [edit] else []);
        attempt := attempt + 1;
      }
    }

    method Attempt(edit: Edit) returns (r: Result<(), CatalogError>, ghost others: seq<Edit>)
      requires store.Valid() && !edit.Foreign?
      modifies store
      ensures store.Valid() && store.initial == old(store.initial)
      ensures store.log == old(store.log) + others + if r.Ok? then [edit] else []
      ensures forall i :: 0 <= i < |others| ==> others[i].Foreign?
      ensures |others| <= 1 && (r == Err(Conflict) ==> |others| == 1)
      ensures !store.shared
          ==> store.categories == if r.Ok? then Apply(edit, old(store.categories)) else old(store.categories)
      ensures !store.shared && r.Err? ==> r.error == Failed
    {
      others := [];
      var read := store.Get();
      if read.Err? {
        return Err(read.error), [];
      }
      var (categories, revision) := read.value;
      var updated := ApplyEdit(edit, categories);
      store.Meanwhile();
      others := store.log[|old(store.log)|..];
      r := store.Put(edit, categories, updated, revision);
    }

    /** The three functions the writer passes to the loop. */
    method ApplyEdit(edit: Edit, categories: seq<Value>) returns (updated: seq<Value>)
      requires !edit.Foreign?
      ensures updated == Apply(edit, categories)
    {
      match edit
      case Add(svc) =>
        updated := AppendServiceToCategory(categories, svc.category, ToMap(svc));
      case Update(name, svc) =>
        var found, without := RemoveServiceFromCategories(categories, name);
        if !found {
          return without;
        }
        updated := AppendServiceToCategory(without, svc.category, ToMap(svc));
      case Remove(name) =>
        var found, without := RemoveServiceFromCategories(categories, name);
        updated := without;
    }
  }

  class ContextRepository {
    const store: ContextStore
    var cached: Option<seq<Value>>
    var cachedAt: nat

    constructor (store: ContextStore)
      ensures this.store == store && cached.None?
    {
      this.store := store;
      cached, cachedAt := None, 0;
    }

    /** Served from the cache, or fetched and cached: `now` before and `later`
        after the fetch. */
    method GetContext(now: nat, later: nat) returns (r: Result<seq<Value>, CatalogError>)
      modifies this
      ensures r.Ok? ==>
                if FreshlyCached(Cache(old(cached), old(cachedAt)), now)
                then r.value == old(cached).value && cached == old(cached) && cachedAt == old(cachedAt)
                else r.value == store.categories && cached == Some(store.categories) && cachedAt == later
      ensures r.Err? ==> r.error == Failed && cached == old(cached) && cachedAt == old(cachedAt)
    {
      if cached.Some? && now - cachedAt < CONTEXT_TTL {
        return Ok(cached.value);
      }
      var fetched := store.Get();
      if fetched.Err? {
        return Err(Failed);
      }
      cached, cachedAt := Some(fetched.value.0), later;
      return Ok(fetched.value.0);
    }

    method Invalidate()
      modifies this
      ensures cached.None?
    {
      cached := None;
    }
  }

  /** The catalog operations of one server that alone writes the Context. */
  class CatalogService {
    const writer: ContextWriterRepository
    const contexts: ContextRepository

    constructor (store: ContextStore)
      requires store.Valid() && !store.shared
      requires Sound(store.categories)
      ensures Valid() && writer.store == store
    {
      writer := new ContextWriterRepository(store);
      contexts := new ContextRepository(store);
    }

    /** What is cached is what is stored, and what is stored reads as services
        under distinct and well-formed names. */
    ghost predicate Valid()
      reads this, writer, contexts, writer.store
    {
      && contexts.store == writer.store
      && writer.store.Valid()
      && !writer.store.shared
      && (contexts.cached.Some? ==> contexts.cached.value == writer.store.categories)
      && Sound(writer.store.categories)
    }

    ghost function Services(): seq<PlatformService>
      reads this, writer, writer.store
    {
      ReadCatalog(writer.store.categories)
    }

    /** The flat view of the catalog. */
    ghost function Content(): map<string, PlatformService>
      reads this, writer, writer.store
    {
      ByName(Services())
    }

    method FindInCatalog(name: string, now: nat, later: nat) returns (r: Result<bool, CatalogError>)
      requires Valid()
      modifies contexts
      ensures Valid()
      ensures r.Ok? ==> r.value == (name in Content())
      ensures r.Err? ==> r.error == Failed
    {
      var categories := contexts.GetContext(now, later);
      if categories.Err? {
        return Err(Failed);
      }
      var existing := GetPlatformServices(categories.value);
      ByNameHolds(existing);
      for i := 0 to |existing|
        invariant forall j :: 0 <= j < i ==> existing[j].name != name
      {
        if existing[i].name == name {
          return Ok(true);
        }
      }
      return Ok(false);
    }

    /** Every listed version has to be published. */
    method ValidateVersions(svc: PlatformService, registry: Registry) returns (ok: bool)
      ensures ok <==> registry.NotConfigured?
                      || (registry.Tags? && forall i :: 0 <= i < |svc.versions| ==> svc.versions[i] in registry.tags)
    {
      if registry.NotConfigured? {
        return true;
      }
      if registry.Unreachable? {
        return false;
      }
      var available: set<string> := set tag | tag in registry.tags;
      var missing: seq<string> := [];
      for i := 0 to |svc.versions|
        invariant missing == [] <==> forall j :: 0 <= j < i ==> svc.versions[j] in registry.tags
      {
        if svc.versions[i] !in available {
          missing := missing + [svc.versions[i]];
        }
      }
      return missing == [];
    }

    /** Inserts a new service. The check for a service of that name reads the cache. */
    method AddPlatformService(submitted: PlatformService, registry: Registry, now: nat, later: nat)
      returns (r: Result<PlatformService, CatalogError>)
      requires Valid()
      modifies writer.store, contexts
      ensures Valid()
      ensures r.Ok? ==> r.value == Tidied(submitted) && Accepted(r.value) && r.value.name !in old(Content())
      ensures r.Ok? ==> Content() == old(Content())[r.value.name := r.value.(icon := "")]
      ensures r.Ok? ==> Unnamed(Services(), r.value.name) == old(Services())
      ensures Titles(old(writer.store.categories)) <= Titles(writer.store.categories)
      ensures r.Err? ==> writer.store.categories == old(writer.store.categories)
      ensures r.Err? && r.error == Exists ==> Tidied(submitted).name in Content()
    {
      var validated := NormalizeAndValidate(submitted);
      if validated.None? {
        return Err(Validation);
      }
      var svc := validated.value;
      var exists' := FindInCatalog(svc.name, now, later);
      if exists'.Err? {
        return Err(exists'.error);
      }
      if exists'.value {
        return Err(Exists);
      }
      var published := ValidateVersions(svc, registry);
      if !published {
        return Err(Validation);
      }
      ghost var before := writer.store.categories;
      r := AddNew(svc);
      if r.Ok? {
        AdditionKeepsTheCatalog(before, svc);
      }
    }

    /** The writing half of AddPlatformService. */
    method AddNew(svc: PlatformService) returns (r: Result<PlatformService, CatalogError>)
      requires Valid() && Accepted(svc) && svc.name !in Content()
      modifies writer.store, contexts
      ensures Valid()
      ensures r.Ok? ==> r.value == svc && writer.store.categories == Apply(Add(svc), old(writer.store.categories))
      ensures r.Err? ==> writer.store.categories == old(writer.store.categories) && r.error == Failed
    {
      ghost var before := writer.store.categories;
      var added, _ := writer.MutateCategories(Add(svc));
      if added.Err? {
        return Err(added.error);
      }
      AdditionKeepsTheCatalog(before, svc);
      contexts.Invalidate();
      return Ok(svc);
    }

    /** Replaces a service, moving it when its category changed. */
    method UpdatePlatformService(name: string, submitted: PlatformService, registry: Registry, now: nat, later: nat)
      returns (r: Result<PlatformService, CatalogError>)
      requires Valid()
      modifies writer.store, contexts
      ensures Valid()
      ensures r.Ok? ==> r.value == Tidied(submitted.(name := name)) && r.value.name == name && name in old(Content())
      ensures r.Ok? ==> Content() == old(Content())[name := r.value.(icon := "")]
      ensures r.Ok? ==> Unnamed(Services(), name) == Unnamed(old(Services()), name)
      ensures Titles(old(writer.store.categories)) <= Titles(writer.store.categories)
      ensures r.Err? ==> writer.store.categories == old(writer.store.categories)
      ensures r.Err? && r.error == NotFound ==> name !in Content()
    {
      var svc := submitted.(name := name);
      var validated := NormalizeAndValidate(svc);
      if validated.None? {
        return Err(Validation);
      }
      svc := validated.value;
      var found := FindInCatalog(name, now, later);
      if found.Err? {
        return Err(found.error);
      }
      if !found.value {
        return Err(NotFound);
      }
      var published := ValidateVersions(svc, registry);
      if !published {
        return Err(Validation);
      }
      ghost var before := writer.store.categories;
      ByNameHolds(ReadCatalog(before));
      assert svc.name == name by {
        ServiceNamesAreTrimmed(name);
      }
      var updated, _ := writer.MutateCategories(Update(name, svc));
      if updated.Err? {
        return Err(updated.error);
      }
      UpdateReplaces(before, svc);
      AcceptedNamesStayGood(before, Update(name, svc), svc);
      contexts.Invalidate();
      return Ok(svc);
    }

    method RemovePlatformService(name: string, now: nat, later: nat) returns (r: Result<(), CatalogError>)
      requires Valid()
      modifies writer.store, contexts
      ensures Valid()
      ensures r.Ok? ==> name in old(Content()) && Content() == old(Content()) - {name}
      ensures r.Ok? ==> Services() == Unnamed(old(Services()), name)
      ensures Titles(writer.store.categories) == Titles(old(writer.store.categories))
      ensures r.Err? ==> writer.store.categories == old(writer.store.categories)
      ensures r.Err? && r.error == NotFound ==> name !in Content()
    {
      var found := FindInCatalog(name, now, later);
      if found.Err? {
        return Err(found.error);
      }
      if !found.value {
        return Err(NotFound);
      }
      ghost var before := writer.store.categories;
      var removed, _ := writer.MutateCategories(Remove(name));
      if removed.Err? {
        return Err(removed.error);
      }
      RemoveDeletes(before, name);
      UnnamedIsAPart(ReadCatalog(before), name);
      contexts.Invalidate();
      return Ok(());
    }
  }

  lemma CommitsRegroup(log: seq<Edit>, earlier: seq<Edit>, more: seq<Edit>, last: seq<Edit>)
    ensures log + earlier + more + last == log + (earlier + more) + last
  {
  }

  /** What is stored reads as services under distinct and well-formed names. */
  ghost predicate Sound(categories: seq<Value>) {
    DistinctNames(ReadCatalog(categories)) && GoodNames(categories)
  }

  ghost predicate GoodNames(categories: seq<Value>) {
    forall svc :: svc in ReadCatalog(categories) ==> IsServiceName(svc.name)
  }

  /** An accepted service is the only one an Add or an Update brings in. */
  lemma AcceptedNamesStayGood(before: seq<Value>, edit: Edit, svc: PlatformService)
    requires GoodNames(before) && Accepted(svc)
    requires Unnamed(ReadCatalog(Apply(edit, before)), svc.name) == Unnamed(ReadCatalog(before), svc.name)
    ensures GoodNames(Apply(edit, before))
  {
    var after := ReadCatalog(Apply(edit, before));
    forall s | s in after
      ensures IsServiceName(s.name)
    {
      if s.name != svc.name {
        UnnamedKeepsOthers(after, svc.name, s);
        UnnamedIsAPart(ReadCatalog(before), svc.name);
      }
    }
  }

  lemma AdditionKeepsTheCatalog(before: seq<Value>, svc: PlatformService)
    requires Sound(before) && Accepted(svc) && svc.name !in ByName(ReadCatalog(before))
    ensures var after := Apply(Add(svc), before);
            && Sound(after)
            && ByName(ReadCatalog(after)) == ByName(ReadCatalog(before))[svc.name := svc.(icon := "")]
            && Unnamed(ReadCatalog(after), svc.name) == ReadCatalog(before)
            && Titles(before) <= Titles(after)
  {
    ByNameHolds(ReadCatalog(before));
    UnnamedIsAPart(ReadCatalog(before), svc.name);
    AddInserts(before, svc);
    AcceptedNamesStayGood(before, Add(svc), svc);
  }

  lemma {:induction false} UnnamedKeepsOthers(services: seq<PlatformService>, name: string, svc: PlatformService)
    requires svc in services && svc.name != name
    ensures svc in Unnamed(services, name)
  {
    var init, last := Init(services), Last(services);
    assert services == init + [last];
    if svc in init {
      UnnamedKeepsOthers(init, name, svc);
    }
  }
}
