/** Edits of the catalog, what each does to the flat view, and any number of
    writers editing at once with optimistic concurrency
    (internal/repository/context_writer_repository.go). */
module CatalogEdits {
  import opened Basics
  import opened Catalog

  /** retry.DefaultRetry allows five attempts. */
  const ATTEMPTS: nat := 5

  datatype Edit =
    | Add(svc: PlatformService)
    | Update(name: string, svc: PlatformService)
    | Remove(name: string)
    | Foreign(categories: seq<Value>)  // someone else replacing the list

  /** What the function passed to mutateCategories makes of the list. */
  ghost function Apply(edit: Edit, categories: seq<Value>): seq<Value> {
    match edit
    case Add(svc) => Appended(categories, svc.category, ToMap(svc))
    case Update(name, svc) =>
      if Found(categories, name) then Appended(Removed(categories, name), svc.category, ToMap(svc))
      else Removed(categories, name)
    case Remove(name) => Removed(categories, name)
    case Foreign(replaced) => replaced
  }

  ghost function Replay(initial: seq<Value>, log: seq<Edit>): seq<Value> {
    if log == [] then initial else Apply(Last(log), Replay(initial, Init(log)))
  }

  // --- One edit, seen flat ---

  /** Adding an accepted service under a new name inserts it into the map; the
      others keep their content and order, and every section stays. */
  lemma AddInserts(categories: seq<Value>, svc: PlatformService)
    requires Accepted(svc) && DistinctNames(ReadCatalog(categories)) && !HasName(ReadCatalog(categories), svc.name)
    ensures var before, after := ReadCatalog(categories), ReadCatalog(Apply(Add(svc), categories));
            && DistinctNames(after)
            && ByName(after) == ByName(before)[svc.name := svc.(icon := "")]
            && Unnamed(after, svc.name) == before
    ensures Titles(categories) <= Titles(Apply(Add(svc), categories))
  {
    var p := AdditionIsSeenFlat(categories, svc.category, ToMap(svc));
    AcceptedServiceReadsBack(svc);
    InsertedAnywhere(ReadCatalog(categories), p, svc.(icon := ""));
  }

  lemma UnnamedHasNot(services: seq<PlatformService>, name: string)
    ensures !HasName(Unnamed(services, name), name)
    ensures Unnamed(Unnamed(services, name), name) == Unnamed(services, name)
  {
    UnnamedIsAPart(services, name);
    var kept := Unnamed(services, name);
    assert forall i :: 0 <= i < |kept| ==> kept[i] in kept;
    UnnamedIsAPart(kept, name);
  }

  lemma RemoveDeletes(categories: seq<Value>, name: string)
    requires DistinctNames(ReadCatalog(categories))
    ensures var before, after := ReadCatalog(categories), ReadCatalog(Apply(Remove(name), categories));
            && DistinctNames(after)
            && ByName(after) == ByName(before) - {name}
            && after == Unnamed(before, name)
    ensures Titles(Apply(Remove(name), categories)) == Titles(categories)
  {
    RemovalIsSeenFlat(categories, name);
    UnnamedStaysDistinct(ReadCatalog(categories), name);
    UnnamedDeletes(ReadCatalog(categories), name);
  }

  /** Updating a service that is there replaces it in the map, wherever its
      category puts it; the others keep their content and order. */
  lemma UpdateReplaces(categories: seq<Value>, svc: PlatformService)
    requires Accepted(svc) && DistinctNames(ReadCatalog(categories)) && HasName(ReadCatalog(categories), svc.name)
    ensures var before, after := ReadCatalog(categories), ReadCatalog(Apply(Update(svc.name, svc), categories));
            && DistinctNames(after)
            && ByName(after) == ByName(before)[svc.name := svc.(icon := "")]
            && Unnamed(after, svc.name) == Unnamed(before, svc.name)
    ensures Titles(categories) <= Titles(Apply(Update(svc.name, svc), categories))
  {
    FoundMeansRead(categories, svc.name);
    RemoveDeletes(categories, svc.name);
    UnnamedHasNot(ReadCatalog(categories), svc.name);
    AddInserts(Removed(categories, svc.name), svc);
    PutAfterDelete(ByName(ReadCatalog(categories)), svc.name, svc.(icon := ""));
  }

  /** Updating a service that is not there changes nothing that is read. */
  lemma UpdateOfNothing(categories: seq<Value>, name: string, svc: PlatformService)
    requires !HasName(ReadCatalog(categories), name)
    ensures ReadCatalog(Apply(Update(name, svc), categories)) == ReadCatalog(categories)
    ensures Titles(Apply(Update(name, svc), categories)) == Titles(categories)
  {
    FoundMeansRead(categories, name);
    RemovalIsSeenFlat(categories, name);
    UnnamedIsAPart(ReadCatalog(categories), name);
  }

  // --- Whole histories, seen flat ---

  /** What an edit does to the map from names to services. */
  function FlatApply(edit: Edit, services: map<string, PlatformService>): map<string, PlatformService> {
    match edit
    case Add(svc) => services[svc.name := svc.(icon := "")]
    case Update(name, svc) => if name in services then services[name := svc.(icon := "")] else services
    case Remove(name) => services - {name}
    case Foreign(_) => services
  }

  function FlatReplay(services: map<string, PlatformService>, log: seq<Edit>): map<string, PlatformService> {
    if log == [] then services else FlatApply(Last(log), FlatReplay(services, Init(log)))
  }

  /** The edits the service lets through: accepted services, added under new names
      and updated under their own. */
  ghost predicate Lawful(services: map<string, PlatformService>, log: seq<Edit>) {
    log != [] ==>
      && Lawful(services, Init(log))
      && match Last(log)
         case Add(svc) => Accepted(svc) && svc.name !in FlatReplay(services, Init(log))
         case Update(name, svc) => Accepted(svc) && name == svc.name
         case Remove(_) => true
         case Foreign(_) => false
  }

  /** The nested sections refine the flat map over every history of lawful edits,
      names stay distinct and no section disappears. */
  lemma {:induction false} SectionsRefineTheMap(initial: seq<Value>, log: seq<Edit>)
    requires DistinctNames(ReadCatalog(initial)) && Lawful(ByName(ReadCatalog(initial)), log)
    ensures DistinctNames(ReadCatalog(Replay(initial, log)))
    ensures ByName(ReadCatalog(Replay(initial, log))) == FlatReplay(ByName(ReadCatalog(initial)), log)
    ensures Titles(initial) <= Titles(Replay(initial, log))
  {
    if log != [] {
      var before := Replay(initial, Init(log));
      SectionsRefineTheMap(initial, Init(log));
      ByNameHolds(ReadCatalog(before));
      match Last(log)
      case Add(svc) => AddInserts(before, svc);
      case Update(name, svc) =>
        if HasName(ReadCatalog(before), name) {
          UpdateReplaces(before, svc);
        } else {
          UpdateOfNothing(before, name, svc);
        }
      case Remove(name) => RemoveDeletes(before, name);
    }
  }

  // --- Any number of writers ---

  datatype Pc =
    | Reading(attempt: nat)
    | Writing(attempt: nat, categories: seq<Value>, revision: nat)
    | Committed
    | GaveUp

  datatype Writer = Writer(edit: Edit, pc: Pc)

  /** An edit in the log, with the writer that committed it; none for an outsider. */
  datatype Commit = Commit(writer: Option<nat>, edit: Edit)

  datatype State = State(categories: seq<Value>, revision: nat, log: seq<Commit>, writers: seq<Writer>)

  function Move(s: State, i: nat, pc: Pc): State
    requires i < |s.writers|
  {
    s.(writers := s.writers[i := s.writers[i].(pc := pc)])
  }

  /** One API call of writer i. A call may fail for other reasons than a conflict,
      and is not tried again then. */
  ghost predicate WriterStep(s: State, i: nat, s': State) {
    && i < |s.writers|
    && var w := s.writers[i];
    match w.pc
    case Reading(attempt) =>
      || s' == Move(s, i, GaveUp)
      || s' == Move(s, i, Writing(attempt, s.categories, s.revision))
    case Writing(attempt, categories, revision) =>
      || s' == Move(s, i, GaveUp)
      || (if revision == s.revision then
            s' == Move(s, i, Committed).(
            categories := Apply(w.edit, categories),
            revision := s.revision + 1,
            log := s.log + [Commit(Some(i), w.edit)])
          else
            s' == Move(s, i, if attempt < ATTEMPTS then Reading(attempt + 1) else GaveUp))
    case Committed => false
    case GaveUp => false
  }

  ghost predicate OutsideStep(s: State, s': State) {
    s' == s.(categories := s'.categories, revision := s.revision + 1,
    log := s.log + [Commit(None, Foreign(s'.categories))])
  }

  ghost predicate Step(s: State, s': State) {
    (exists i :: WriterStep(s, i, s')) || OutsideStep(s, s')
  }

  ghost predicate StepAt(states: seq<State>, n: nat)
    requires 0 < n < |states|
  {
    Step(states[n - 1], states[n])
  }

  ghost predicate IsRun(states: seq<State>) {
    && states != []
    && states[0].log == []
    && (forall i :: 0 <= i < |states[0].writers| ==> states[0].writers[i].pc == Reading(1))
    && forall n :: 0 < n < |states| ==> StepAt(states, n)
  }

  function Edits(log: seq<Commit>): seq<Edit> {
    if log == [] then [] else Edits(Init(log)) + [Last(log).edit]
  }

  /** How many commits of the log are writer i's. */
  function CommitsOf(log: seq<Commit>, i: nat): nat {
    if log == [] then 0 else CommitsOf(Init(log), i) + if Last(log).writer == Some(i) then 1 else 0
  }

  ghost predicate WriterInv(s: State, i: nat)
    requires i < |s.writers|
  {
    var pc := s.writers[i].pc;
    && (pc.Writing? ==> pc.revision <= s.revision && (pc.revision == s.revision ==> pc.categories == s.categories))
    && (pc.Reading? || pc.Writing? ==> 1 <= pc.attempt <= ATTEMPTS)
    && CommitsOf(s.log, i) == (if pc.Committed? then 1 else 0)
  }

  ghost predicate Inv(s: State, initial: seq<Value>) {
    && s.categories == Replay(initial, Edits(s.log))
    && forall i :: 0 <= i < |s.writers| ==> WriterInv(s, i)
  }

  lemma OneMoreCommit(initial: seq<Value>, log: seq<Commit>, commit: Commit)
    ensures Replay(initial, Edits(log + [commit])) == Apply(commit.edit, Replay(initial, Edits(log)))
    ensures forall i: nat :: CommitsOf(log + [commit], i)
                             == CommitsOf(log, i) + if commit.writer == Some(i) then 1 else 0
  {
    assert Init(log + [commit]) == log;
    assert Init(Edits(log) + [commit.edit]) == Edits(log);
  }

  lemma WriterKeepsInv(s: State, i: nat, s': State, initial: seq<Value>)
    requires Inv(s, initial) && WriterStep(s, i, s')
    ensures Inv(s', initial)
  {
    WriterKeepsReplay(s, i, s', initial);
    forall j | 0 <= j < |s'.writers|
      ensures WriterInv(s', j)
    {
      WriterKeepsWriter(s, i, s', initial, j);
    }
  }

  lemma WriterKeepsReplay(s: State, i: nat, s': State, initial: seq<Value>)
    requires Inv(s, initial) && WriterStep(s, i, s')
    ensures s'.categories == Replay(initial, Edits(s'.log)) && |s'.writers| == |s.writers|
  {
    assert WriterInv(s, i);
    OneMoreCommit(initial, s.log, Commit(Some(i), s.writers[i].edit));
  }

  lemma WriterKeepsWriter(s: State, i: nat, s': State, initial: seq<Value>, j: nat)
    requires Inv(s, initial) && WriterStep(s, i, s') && j < |s.writers| == |s'.writers|
    ensures WriterInv(s', j)
  {
    assert WriterInv(s, i) && WriterInv(s, j);
    OneMoreCommit(initial, s.log, Commit(Some(i), s.writers[i].edit));
  }

  lemma OutsideKeepsInv(s: State, s': State, initial: seq<Value>)
    requires Inv(s, initial) && OutsideStep(s, s')
    ensures Inv(s', initial)
  {
    OneMoreCommit(initial, s.log, Commit(None, Foreign(s'.categories)));
    forall j | 0 <= j < |s'.writers|
      ensures WriterInv(s', j)
    {
      assert WriterInv(s, j);
    }
  }

  /** Under every interleaving the stored list is the committed edits replayed in
      commit order over the initial one: no update is lost. A writer is in that
      order once when it succeeded and not at all when it gave up. */
  lemma {:induction false} NoUpdateIsLost(states: seq<State>, n: nat)
    requires IsRun(states) && n < |states|
    ensures Inv(states[n], states[0].categories)
    ensures states[n].categories == Replay(states[0].categories, Edits(states[n].log))
    ensures forall i :: 0 <= i < |states[n].writers| ==>
                          CommitsOf(states[n].log, i) == (if states[n].writers[i].pc.Committed? then 1 else 0)
  {
    if n > 0 {
      NoUpdateIsLost(states, n - 1);
      var s, s' := states[n - 1], states[n];
      assert StepAt(states, n);
      if i: nat :| WriterStep(s, i, s') {
        WriterKeepsInv(s, i, s', states[0].categories);
      } else {
        OutsideKeepsInv(s, s', states[0].categories);
      }
    }
    forall i | 0 <= i < |states[n].writers|
      ensures CommitsOf(states[n].log, i) == (if states[n].writers[i].pc.Committed? then 1 else 0)
    {
      assert WriterInv(states[n], i);
    }
  }

  /** What one writer commits is its own edit, and the log only grows. */
  lemma CommitsAreFinal(states: seq<State>, n: nat)
    requires IsRun(states) && n + 1 < |states|
    ensures states[n].log <= states[n + 1].log
    ensures |states[n + 1].log| <= |states[n].log| + 1
    ensures |states[n + 1].log| > |states[n].log| && Last(states[n + 1].log).writer.Some?
            ==> var i := Last(states[n + 1].log).writer.value;
                i < |states[n].writers| && Last(states[n + 1].log).edit == states[n].writers[i].edit
  {
    assert StepAt(states, n + 1);
  }

  // --- Retries ---

  /** The writer has been overtaken once for each attempt behind it. */
  ghost predicate OvertakenInv(s: State, first: nat, i: nat)
    requires i < |s.writers|
  {
    var pc := s.writers[i].pc;
    && (pc.Reading? ==> s.revision + 1 >= first + pc.attempt)
    && (pc.Writing? ==> s.revision >= pc.revision && pc.revision + 1 >= first + pc.attempt)
  }

  lemma {:induction false} EachRetryWasOvertaken(states: seq<State>, n: nat)
    requires IsRun(states) && n < |states|
    ensures |states[n].writers| == |states[0].writers| && states[n].revision == states[0].revision + |states[n].log|
    ensures forall i :: 0 <= i < |states[n].writers| ==> OvertakenInv(states[n], states[0].revision, i)
  {
    if n > 0 {
      EachRetryWasOvertaken(states, n - 1);
      assert StepAt(states, n);
      var s, s' := states[n - 1], states[n];
      forall j | 0 <= j < |s'.writers|
        ensures OvertakenInv(s', states[0].revision, j)
      {
        assert OvertakenInv(s, states[0].revision, j);
      }
    }
  }

  /** A writer whose list is out of date tries again up to its fifth attempt, and then
      as many others have committed as it has made attempts: nobody gives up on conflicts
      alone before five commits of others. */
  lemma ConflictsAreRetriedUpToTheFifth(states: seq<State>, n: nat, i: nat)
    requires IsRun(states) && n < |states| && i < |states[n].writers|
    requires var pc := states[n].writers[i].pc; pc.Writing? && pc.revision != states[n].revision
    ensures var s, attempt := states[n], states[n].writers[i].pc.attempt;
            && 1 <= attempt <= 5 && attempt <= |s.log|
            && (WriterStep(s, i, Move(s, i, Reading(attempt + 1))) <==> attempt < 5)
            && forall s' :: WriterStep(s, i, s') ==> s'.categories == s.categories && s'.log == s.log
  {
    EachRetryWasOvertaken(states, n);
    NoUpdateIsLost(states, n);
    var s := states[n];
    assert OvertakenInv(s, states[0].revision, i) && WriterInv(s, i);
    var again := Move(s, i, Reading(s.writers[i].pc.attempt + 1));
    assert again.writers[i].pc == Reading(s.writers[i].pc.attempt + 1);
    assert Move(s, i, GaveUp).writers[i].pc == GaveUp;
  }

  // --- When the names stay distinct ---

  /** How many services bear the name. */
  function CountOf(services: seq<PlatformService>, name: string): nat {
    if services == [] then 0 else CountOf(Init(services), name) + if Last(services).name == name then 1 else 0
  }

  lemma {:induction false} CountOfSum(a: seq<PlatformService>, b: seq<PlatformService>, name: string)
    ensures CountOf(a + b, name) == CountOf(a, name) + CountOf(b, name)
  {
    if b == [] {
      assert a + b == a;
    } else {
      assert Init(a + b) == a + Init(b) && Last(a + b) == Last(b);
      CountOfSum(a, Init(b), name);
    }
  }

  lemma {:induction false} CountOfUnnamed(services: seq<PlatformService>, removed: string, name: string)
    ensures CountOf(Unnamed(services, removed), name) == if name == removed then 0 else CountOf(services, name)
  {
    if services != [] {
      CountOfUnnamed(Init(services), removed, name);
      if Last(services).name != removed {
        CountOfSum(Unnamed(Init(services), removed), [Last(services)], name);
      }
    }
  }

  lemma CountOfInserted(services: seq<PlatformService>, p: nat, svc: PlatformService, name: string)
    requires p <= |services|
    ensures CountOf(Inserted(services, p, svc), name) == CountOf(services, name) + if svc.name == name then 1 else 0
  {
    assert services == services[..p] + services[p..];
    CountOfSum(services[..p], services[p..], name);
    CountOfSum(services[..p] + [svc], services[p..], name);
    CountOfSum(services[..p], [svc], name);
    assert Init([svc]) == [];
  }

  lemma {:induction false} NamedMeansCounted(services: seq<PlatformService>, name: string)
    ensures HasName(services, name) <==> CountOf(services, name) > 0
  {
    if services != [] {
      NamedMeansCounted(Init(services), name);
      assert services == Init(services) + [Last(services)];
      HasNameOfSum(Init(services), [Last(services)], name);
      assert HasName([Last(services)], name) <==> [Last(services)][0].name == name;
    }
  }

  /** No name is borne twice. */
  ghost predicate CountedOnce(services: seq<PlatformService>) {
    forall name :: CountOf(services, name) <= 1
  }

  lemma OneMoreDistinct(services: seq<PlatformService>)
    requires services != []
    ensures DistinctNames(services) <==> DistinctNames(Init(services)) && !HasName(Init(services), Last(services).name)
  {
    assert forall i :: 0 <= i < |services| - 1 ==> Init(services)[i] == services[i];
  }

  lemma {:induction false} DistinctMeansCountedOnce(services: seq<PlatformService>)
    ensures DistinctNames(services) <==> CountedOnce(services)
  {
    if services != [] {
      var init, last := Init(services), Last(services);
      DistinctMeansCountedOnce(init);
      NamedMeansCounted(init, last.name);
      OneMoreDistinct(services);
      assert CountOf(services, last.name) == CountOf(init, last.name) + 1;
      if CountedOnce(services) {
        forall name
          ensures CountOf(init, name) <= 1
        {
          assert CountOf(init, name) <= CountOf(services, name);
        }
      }
      if CountedOnce(init) && CountOf(init, last.name) == 0 {
        forall name
          ensures CountOf(services, name) <= 1
        {
          assert CountOf(init, name) <= 1;
        }
      }
    }
  }

  /** What an edit does to the number of entries of a name. An Add adds one whatever is
      there; an Update leaves one, and a Remove none, of however many there were. */
  function CountAfter(edit: Edit, count: nat, name: string): nat {
    match edit
    case Add(svc) => if svc.name == name then count + 1 else count
    case Update(updated, svc) => if updated == name && count > 0 then 1 else count
    case Remove(removed) => if removed == name then 0 else count
    case Foreign(_) => count
  }

  function CountReplayed(log: seq<Edit>, count: nat, name: string): nat {
    if log == [] then count else CountAfter(Last(log), CountReplayed(Init(log), count, name), name)
  }

  /** The edits of one server's requests: updates keep the name of the path. */
  ghost predicate OfOneServer(log: seq<Edit>) {
    forall i :: 0 <= i < |log| ==> !log[i].Foreign? && (log[i].Update? ==> log[i].svc.name == log[i].name)
  }

  lemma AdditionIsCounted(categories: seq<Value>, svc: PlatformService, name: string)
    ensures CountOf(ReadCatalog(Apply(Add(svc), categories)), name)
            == CountOf(ReadCatalog(categories), name) + if svc.name == name then 1 else 0
  {
    var p := AdditionIsSeenFlat(categories, svc.category, ToMap(svc));
    StoredFields(svc);
    CountOfInserted(ReadCatalog(categories), p, FromMap(ToMap(svc), svc.category), name);
  }

  lemma EditIsCounted(categories: seq<Value>, edit: Edit, name: string)
    requires OfOneServer([edit])
    ensures CountOf(ReadCatalog(Apply(edit, categories)), name)
        == CountAfter(edit, CountOf(ReadCatalog(categories), name), name)
  {
    assert [edit][0] == edit;
    match edit
    case Add(svc) => AdditionIsCounted(categories, svc, name);
    case Remove(removed) =>
      RemovalIsSeenFlat(categories, removed);
      CountOfUnnamed(ReadCatalog(categories), removed, name);
    case Update(updated, svc) =>
      RemovalIsSeenFlat(categories, updated);
      CountOfUnnamed(ReadCatalog(categories), updated, name);
      FoundMeansRead(categories, updated);
      NamedMeansCounted(ReadCatalog(categories), updated);
      AdditionIsCounted(Removed(categories, updated), svc, name);
  }

  lemma {:induction false} HistoryIsCounted(initial: seq<Value>, log: seq<Edit>, name: string)
    requires OfOneServer(log)
    ensures CountOf(ReadCatalog(Replay(initial, log)), name)
        == CountReplayed(log, CountOf(ReadCatalog(initial), name), name)
  {
    if log != [] {
      assert forall i :: 0 <= i < |log| - 1 ==> Init(log)[i] == log[i];
      HistoryIsCounted(initial, Init(log), name);
      assert Last(log) == log[|log| - 1];
      EditIsCounted(Replay(initial, Init(log)), Last(log), name);
    }
  }

  /** Since its last update or removal, no name has had two Adds, or one where there was
      an entry already. */
  ghost predicate ReplayedOnce(log: seq<Edit>, initial: seq<PlatformService>) {
    forall name :: CountReplayed(log, CountOf(initial, name), name) <= 1
  }

  /** Under every interleaving of one server's requests, checked or not, the names that
      are read are distinct exactly when the committed edits leave each at most one. */
  lemma NamesAreDistinctExactlyByTheCount(states: seq<State>, n: nat)
    requires IsRun(states) && n < |states| && OfOneServer(Edits(states[n].log))
    ensures DistinctNames(ReadCatalog(states[n].categories))
            <==> ReplayedOnce(Edits(states[n].log), ReadCatalog(states[0].categories))
  {
    var log, before, after := Edits(states[n].log), states[0].categories, states[n].categories;
    NoUpdateIsLost(states, n);
    DistinctMeansCountedOnce(ReadCatalog(after));
    if CountedOnce(ReadCatalog(after)) {
      forall name
        ensures CountReplayed(log, CountOf(ReadCatalog(before), name), name) <= 1
      {
        HistoryIsCounted(before, log, name);
        assert CountOf(ReadCatalog(after), name) <= 1;
      }
    }
    if ReplayedOnce(log, ReadCatalog(before)) {
      forall name
        ensures CountOf(ReadCatalog(after), name) <= 1
      {
        HistoryIsCounted(before, log, name);
        assert CountReplayed(log, CountOf(ReadCatalog(before), name), name) <= 1;
      }
    }
  }

  // --- Checked Adds that overlap ---

  /** All edits add a service under a name the initial list does not have: requests
      whose check has passed before any of them wrote. */
  ghost predicate CheckedAdds(log: seq<Edit>, initial: seq<Value>) {
    forall i :: 0 <= i < |log| ==> log[i].Add? && !HasName(ReadCatalog(initial), log[i].svc.name)
  }

  ghost predicate Adds(log: seq<Edit>, i: int, name: string) {
    0 <= i < |log| && log[i].Add? && log[i].svc.name == name
  }

  ghost predicate AddedTwice(log: seq<Edit>, name: string) {
    exists i, j :: i < j && Adds(log, i, name) && Adds(log, j, name)
  }

  lemma {:induction false} AddsAreCounted(log: seq<Edit>, name: string)
    requires forall i :: 0 <= i < |log| ==> log[i].Add?
    ensures CountReplayed(log, 0, name) > 0 <==> exists i :: Adds(log, i, name)
    ensures CountReplayed(log, 0, name) > 1 <==> AddedTwice(log, name)
  {
    if log != [] {
      var n, init := |log| - 1, Init(log);
      assert forall i :: 0 <= i < n ==> init[i] == log[i];
      AddsAreCounted(init, name);
      assert forall i :: i < n ==> (Adds(log, i, name) <==> Adds(init, i, name));
      assert Adds(log, n, name) <==> Last(log).svc.name == name;
      if AddedTwice(init, name) {
        var i, j :| i < j && Adds(init, i, name) && Adds(init, j, name);
        assert Adds(log, i, name) && Adds(log, j, name);
      }
    }
  }

  lemma {:induction false} OtherNamesAreNotCounted(log: seq<Edit>, count: nat, name: string)
    requires forall i :: 0 <= i < |log| ==> log[i].Add?
    requires forall i :: !Adds(log, i, name)
    ensures CountReplayed(log, count, name) == count
  {
    if log != [] {
      assert forall i :: 0 <= i < |log| - 1 ==> Init(log)[i] == log[i];
      assert !Adds(log, |log| - 1, name);
      assert forall i :: Adds(Init(log), i, name) ==> Adds(log, i, name);
      OtherNamesAreNotCounted(Init(log), count, name);
    }
  }

  lemma CheckedAddsAreCounted(log: seq<Edit>, initial: seq<Value>, name: string)
    requires CheckedAdds(log, initial) && CountOf(ReadCatalog(initial), name) <= 1
    ensures CountReplayed(log, CountOf(ReadCatalog(initial), name), name) <= 1 <==> !AddedTwice(log, name)
  {
    NamedMeansCounted(ReadCatalog(initial), name);
    if HasName(ReadCatalog(initial), name) {
      assert forall i :: !Adds(log, i, name);
      OtherNamesAreNotCounted(log, CountOf(ReadCatalog(initial), name), name);
    } else {
      AddsAreCounted(log, name);
    }
  }

  /** Requests that all passed their check before any wrote keep the names distinct
      exactly when no two that committed add the same name. */
  lemma OverlappingAddsAreDistinctExactly(states: seq<State>, n: nat)
    requires IsRun(states) && n < |states| && DistinctNames(ReadCatalog(states[0].categories))
    requires CheckedAdds(Edits(states[n].log), states[0].categories)
    ensures DistinctNames(ReadCatalog(states[n].categories)) <==> forall name :: !AddedTwice(Edits(states[n].log), name)
  {
    var log, before := Edits(states[n].log), ReadCatalog(states[0].categories);
    NamesAreDistinctExactlyByTheCount(states, n);
    DistinctMeansCountedOnce(before);
    forall name
      ensures CountReplayed(log, CountOf(before, name), name) <= 1 <==> !AddedTwice(log, name)
    {
      assert CountOf(before, name) <= 1;
      CheckedAddsAreCounted(log, states[0].categories, name);
    }
  }

  /** Two requests for one name, both checked, then run one after the other. */
  function Colliding(initial: seq<Value>, svc: PlatformService, n: nat): State {
    var once := Appended(initial, svc.category, ToMap(svc));
    var twice := Appended(once, svc.category, ToMap(svc));
    var first, second := Commit(Some(0), Add(svc)), Commit(Some(1), Add(svc));
    var start, done := Writer(Add(svc), Reading(1)), Writer(Add(svc), Committed);
    if n == 0 then State(initial, 0, [], [start, start])
    else if n == 1 then State(initial, 0, [], [Writer(Add(svc), Writing(1, initial, 0)), start])
    else if n == 2 then State(once, 1, [first], [done, start])
    else if n == 3 then State(once, 1, [first], [done, Writer(Add(svc), Writing(1, once, 1))])
    else State(twice, 2, [first, second], [done, done])
  }

  lemma CollidingStep(initial: seq<Value>, svc: PlatformService, n: nat)
    requires n < 4
    ensures WriterStep(Colliding(initial, svc, n), n / 2, Colliding(initial, svc, n + 1))
  {
    var s, s' := Colliding(initial, svc, n), Colliding(initial, svc, n + 1);
    assert s'.writers == s.writers[n / 2 := s'.writers[n / 2]];
  }

  lemma EditsOfTwo(a: Commit, b: Commit)
    ensures Edits([a, b]) == [a.edit, b.edit]
  {
    assert Init([a, b]) == [a] && Init([a]) == [];
    assert Edits([a]) == [a.edit];
  }

  function CollidingRun(initial: seq<Value>, svc: PlatformService): seq<State> {
    seq(5, n requires 0 <= n => Colliding(initial, svc, n))
  }

  lemma CollidingIsARun(initial: seq<Value>, svc: PlatformService)
    ensures IsRun(CollidingRun(initial, svc))
  {
    var states := CollidingRun(initial, svc);
    forall n | 0 < n < |states|
      ensures StepAt(states, n)
    {
      CollidingStep(initial, svc, n - 1);
    }
  }

  /** Whatever service the list does not have, two requests that both found it missing
      leave it there twice. */
  lemma OverlappingAddsMayCollide(initial: seq<Value>, svc: PlatformService) returns (states: seq<State>)
    requires DistinctNames(ReadCatalog(initial)) && !HasName(ReadCatalog(initial), svc.name)
    ensures IsRun(states) && states[0].categories == initial && Last(states) == Colliding(initial, svc, 4)
    ensures CheckedAdds(Edits(Last(states).log), initial) && !DistinctNames(ReadCatalog(Last(states).categories))
  {
    states := CollidingRun(initial, svc);
    CollidingIsARun(initial, svc);
    EditsOfTwo(Commit(Some(0), Add(svc)), Commit(Some(1), Add(svc)));
    assert states[4].log == [Commit(Some(0), Add(svc)), Commit(Some(1), Add(svc))];
    var log := Edits(states[4].log);
    assert Adds(log, 0, svc.name) && Adds(log, 1, svc.name);
    assert AddedTwice(log, svc.name);
    OverlappingAddsAreDistinctExactly(states, 4);
  }
}
