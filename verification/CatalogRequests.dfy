/** Catalog requests of one server that overlap: each checks the cached catalog before
    it writes, and drops the cache after (internal/service/service_service.go,
    AddPlatformService, UpdatePlatformService, RemovePlatformService). */
module CatalogRequests {
  import opened Basics
  import opened Catalog
  import opened CatalogEdits

  /** A list that was stored once, and how many commits had been made by then. */
  datatype View = View(categories: seq<Value>, commits: nat)

  datatype Phase =
    | Checking
    | Passed(seen: View)  // to write, then to invalidate
    | Invalidated
    | Refused

  /** The stored list with its writers, how far each one's request has come, and the cache. */
  datatype Server = Server(store: State, phases: seq<Phase>, cache: Option<View>)

  /** The check lets the edit through: names to add are missing, others are there. */
  ghost predicate Passes(edit: Edit, categories: seq<Value>) {
    match edit
    case Add(svc) => !HasName(ReadCatalog(categories), svc.name)
    case Update(name, _) => HasName(ReadCatalog(categories), name)
    case Remove(name) => HasName(ReadCatalog(categories), name)
    case Foreign(_) => false
  }

  function Enter(s: Server, i: nat, phase: Phase): Server
    requires i < |s.phases|
  {
    s.(phases := s.phases[i := phase])
  }

  function Current(s: Server): View {
    View(s.store.categories, |s.store.log|)
  }

  /** The check reads the cache, or what is stored when there is nothing in it or it is
      too old, and leaves what it read in the cache. */
  ghost predicate CheckStep(s: Server, i: nat, s': Server)
    requires i < |s.phases| == |s.store.writers|
  {
    || s' == Enter(s, i, Refused)
    || exists seen :: && (seen == Current(s) || Some(seen) == s.cache)
                      && s' == Enter(s, i, if Passes(s.store.writers[i].edit, seen.categories) then Passed(seen)
                                           else Refused).(cache := Some(seen))
  }

  ghost predicate RequestStep(s: Server, i: nat, s': Server) {
    && i < |s.phases| == |s.store.writers|
    && match s.phases[i]
       case Checking => CheckStep(s, i, s')
       case Passed(_) =>
         || (s.store.writers[i].pc.Committed? && s' == Enter(s, i, Invalidated).(cache := None))
         || (WriterStep(s.store, i, s'.store) && s' == s.(store := s'.store))
       case Invalidated => false
       case Refused => false
  }

  ghost predicate Step(s: Server, s': Server) {
    exists i :: RequestStep(s, i, s')
  }

  ghost predicate StepAt(states: seq<Server>, n: nat)
    requires n + 1 < |states|
  {
    Step(states[n], states[n + 1])
  }

  ghost predicate IsRun(states: seq<Server>) {
    && states != []
    && var s := states[0];
    && s.cache.None? && s.store.log == [] && |s.phases| == |s.store.writers|
    && (forall i :: 0 <= i < |s.phases| ==> s.phases[i] == Checking && s.store.writers[i].pc == Reading(1))
    && (forall i :: 0 <= i < |s.phases| ==> OfOneServer([s.store.writers[i].edit]))
    && forall n :: 0 <= n < |states| - 1 ==> StepAt(states, n)
  }

  // --- What a view is ---

  lemma {:induction false} EditsOfPrefix(log: seq<Commit>, k: nat)
    requires k <= |log|
    ensures |Edits(log)| == |log| && Edits(log[..k]) == Edits(log)[..k]
  {
    if log == [] || k == |log| {
      assert log[..k] == log;
      if log != [] {
        EditsOfPrefix(Init(log), 0);
      }
    } else {
      EditsOfPrefix(Init(log), k);
      assert log[..k] == Init(log)[..k];
    }
  }

  lemma {:induction false} ReplayOfSum(initial: seq<Value>, a: seq<Edit>, b: seq<Edit>)
    ensures Replay(initial, a + b) == Replay(Replay(initial, a), b)
  {
    if b == [] {
      assert a + b == a;
    } else {
      assert Init(a + b) == a + Init(b) && Last(a + b) == Last(b);
      ReplayOfSum(initial, a, Init(b));
    }
  }

  /** What was seen was stored after so many commits. */
  ghost predicate WasStored(seen: View, log: seq<Commit>, initial: seq<Value>) {
    seen.commits <= |Edits(log)| && seen.categories == Replay(initial, Edits(log)[..seen.commits])
  }

  lemma WasStoredForGood(seen: View, log: seq<Commit>, more: seq<Commit>, initial: seq<Value>)
    requires |Edits(log)| == |log| && WasStored(seen, log, initial) && log <= more
    ensures |Edits(more)| == |more| && WasStored(seen, more, initial)
  {
    EditsOfPrefix(more, |log|);
    assert more[..|log|] == log;
    assert Edits(more)[..seen.commits] == Edits(log)[..seen.commits];
  }

  ghost predicate RequestInv(s: Server, i: nat, initial: seq<Value>)
    requires i < |s.phases| == |s.store.writers| && |Edits(s.store.log)| == |s.store.log|
  {
    && OfOneServer([s.store.writers[i].edit])
    && (s.phases[i].Passed? ==>
          && WasStored(s.phases[i].seen, s.store.log, initial)
          && Passes(s.store.writers[i].edit, s.phases[i].seen.categories))
  }

  ghost predicate ServerInv(s: Server, initial: seq<Value>) {
    && Inv(s.store, initial)
    && |s.phases| == |s.store.writers| && |Edits(s.store.log)| == |s.store.log|
    && OfOneServer(Edits(s.store.log))
    && (s.cache.Some? ==> WasStored(s.cache.value, s.store.log, initial))
    && forall i :: 0 <= i < |s.phases| ==> RequestInv(s, i, initial)
  }

  // --- The invariant ---

  lemma CurrentIsStored(s: Server, initial: seq<Value>)
    requires ServerInv(s, initial)
    ensures WasStored(Current(s), s.store.log, initial)
  {
    assert Edits(s.store.log)[..|s.store.log|] == Edits(s.store.log);
  }

  lemma CheckKeepsInv(s: Server, i: nat, s': Server, initial: seq<Value>)
    requires ServerInv(s, initial) && i < |s.phases| && CheckStep(s, i, s')
    ensures ServerInv(s', initial)
  {
    CurrentIsStored(s, initial);
    forall j | 0 <= j < |s'.phases|
      ensures RequestInv(s', j, initial)
    {
      assert RequestInv(s, j, initial);
    }
  }

  lemma InvalidationKeepsInv(s: Server, i: nat, s': Server, initial: seq<Value>)
    requires ServerInv(s, initial) && i < |s.phases| && s' == Enter(s, i, Invalidated).(cache := None)
    ensures ServerInv(s', initial)
  {
    forall j | 0 <= j < |s'.phases|
      ensures RequestInv(s', j, initial)
    {
      assert RequestInv(s, j, initial);
    }
  }

  /** A step of a writer leaves the log as it is or adds its own edit. */
  lemma WriterAddsItsEdit(s: State, i: nat, s': State)
    requires WriterStep(s, i, s')
    ensures s'.log == s.log || s'.log == s.log + [Commit(Some(i), s.writers[i].edit)]
    ensures |s'.writers| == |s.writers| && forall j :: 0 <= j < |s.writers| ==> s'.writers[j].edit == s.writers[j].edit
  {
  }

  lemma OneMoreOfOneServer(log: seq<Commit>, commit: Commit)
    requires OfOneServer(Edits(log)) && OfOneServer([commit.edit])
    ensures OfOneServer(Edits(log + [commit]))
  {
    assert Init(log + [commit]) == log;
    assert [commit.edit][0] == commit.edit;
  }

  lemma WriteKeepsInv(s: Server, i: nat, s': Server, initial: seq<Value>)
    requires ServerInv(s, initial) && i < |s.phases|
    requires WriterStep(s.store, i, s'.store) && s' == s.(store := s'.store)
    ensures ServerInv(s', initial)
  {
    WriterKeepsInv(s.store, i, s'.store, initial);
    WriterAddsItsEdit(s.store, i, s'.store);
    assert RequestInv(s, i, initial);
    if s'.store.log != s.store.log {
      OneMoreOfOneServer(s.store.log, Commit(Some(i), s.store.writers[i].edit));
    }
    EditsOfPrefix(s'.store.log, 0);
    forall seen | WasStored(seen, s.store.log, initial)
      ensures WasStored(seen, s'.store.log, initial)
    {
      WasStoredForGood(seen, s.store.log, s'.store.log, initial);
    }
    forall j | 0 <= j < |s'.phases|
      ensures RequestInv(s', j, initial)
    {
      assert RequestInv(s, j, initial);
    }
  }

  lemma {:induction false} EveryRunKeepsTheInvariant(states: seq<Server>, n: nat)
    requires IsRun(states) && n < |states|
    ensures ServerInv(states[n], states[0].store.categories)
  {
    var initial := states[0].store.categories;
    if n == 0 {
      forall i | 0 <= i < |states[0].store.writers|
        ensures WriterInv(states[0].store, i)
      {
      }
    } else {
      EveryRunKeepsTheInvariant(states, n - 1);
      assert StepAt(states, n - 1);
      var s, s' := states[n - 1], states[n];
      var i: nat :| RequestStep(s, i, s');
      if s.phases[i].Checking? {
        CheckKeepsInv(s, i, s', initial);
      } else if WriterStep(s.store, i, s'.store) && s' == s.(store := s'.store) {
        WriteKeepsInv(s, i, s', initial);
      } else {
        InvalidationKeepsInv(s, i, s', initial);
      }
    }
  }

  // --- When the names stay distinct ---

  /** The edits committed since request i made its check. */
  function Since(s: Server, i: nat): seq<Edit>
    requires i < |s.phases| && s.phases[i].Passed? && s.phases[i].seen.commits <= |Edits(s.store.log)|
  {
    Edits(s.store.log)[s.phases[i].seen.commits..]
  }

  /** Request i commits, adding a name that was missing when it checked and has been
      brought in since. */
  ghost predicate Collides(s: Server, i: nat, s': Server) {
    && i < |s.phases| == |s.store.writers| && s.phases[i].Passed? && s.store.writers[i].edit.Add?
    && s'.store.log == s.store.log + [Commit(Some(i), s.store.writers[i].edit)]
    && s.phases[i].seen.commits <= |Edits(s.store.log)|
    && CountReplayed(Since(s, i), 0, s.store.writers[i].edit.svc.name) > 0
  }

  ghost predicate SomeCollide(s: Server, s': Server) {
    exists i :: Collides(s, i, s')
  }

  ghost predicate CollidesAt(states: seq<Server>, n: nat)
    requires n + 1 < |states|
  {
    SomeCollide(states[n], states[n + 1])
  }

  ghost predicate NamesAreDistinct(s: Server) {
    DistinctNames(ReadCatalog(s.store.categories))
  }

  /** What the check found missing is there at the commit exactly when the edits made
      since say so. */
  lemma MissingUnlessBroughtIn(s: Server, i: nat, initial: seq<Value>, name: string)
    requires ServerInv(s, initial) && i < |s.phases| && s.phases[i].Passed?
    requires s.phases[i].seen.commits <= |Edits(s.store.log)|
    requires !HasName(ReadCatalog(s.phases[i].seen.categories), name)
    ensures CountOf(ReadCatalog(s.store.categories), name) == CountReplayed(Since(s, i), 0, name)
  {
    assert RequestInv(s, i, initial);
    MissingThenReplayed(initial, Edits(s.store.log), s.phases[i].seen, name);
  }

  lemma MissingThenReplayed(initial: seq<Value>, edits: seq<Edit>, seen: View, name: string)
    requires seen.commits <= |edits| && OfOneServer(edits)
    requires seen.categories == Replay(initial, edits[..seen.commits]) && !HasName(ReadCatalog(seen.categories), name)
    ensures CountOf(ReadCatalog(Replay(initial, edits)), name) == CountReplayed(edits[seen.commits..], 0, name)
  {
    var since := edits[seen.commits..];
    assert edits == edits[..seen.commits] + since;
    ReplayOfSum(initial, edits[..seen.commits], since);
    HistoryIsCounted(seen.categories, since, name);
    NamedMeansCounted(ReadCatalog(seen.categories), name);
  }

  /** An edit keeps distinct names distinct unless it adds one that is there. */
  lemma EditKeepsNamesDistinct(categories: seq<Value>, edit: Edit)
    requires OfOneServer([edit]) && DistinctNames(ReadCatalog(categories))
    ensures DistinctNames(ReadCatalog(Apply(edit, categories)))
            <==> !(edit.Add? && CountOf(ReadCatalog(categories), edit.svc.name) > 0)
  {
    var before, after := ReadCatalog(categories), ReadCatalog(Apply(edit, categories));
    DistinctMeansCountedOnce(before);
    DistinctMeansCountedOnce(after);
    forall name
      ensures CountOf(after, name) == CountAfter(edit, CountOf(before, name), name)
      ensures CountOf(before, name) <= 1
    {
      EditIsCounted(categories, edit, name);
    }
    if edit.Add? && CountOf(before, edit.svc.name) > 0 {
      assert CountOf(after, edit.svc.name) > 1;
    } else {
      forall name
        ensures CountOf(after, name) <= 1
      {
        assert CountOf(before, name) <= 1;
      }
    }
  }

  /** A step keeps distinct names distinct exactly when it is no such commit. */
  lemma StepKeepsNamesDistinctExactly(states: seq<Server>, n: nat)
    requires IsRun(states) && n + 1 < |states| && NamesAreDistinct(states[n])
    ensures NamesAreDistinct(states[n + 1]) <==> !CollidesAt(states, n)
  {
    var s, s' := states[n], states[n + 1];
    EveryRunKeepsTheInvariant(states, n);
    assert StepAt(states, n);
    var i: nat :| RequestStep(s, i, s');
    if s'.store.log != s.store.log {
      CommitKeepsNamesDistinctExactly(s, i, s', states[0].store.categories);
      OneCommitter(s, i, s');
      assert CollidesAt(states, n) ==> Collides(s, i, s');
    } else {
      assert s'.store.categories == s.store.categories;
      LogsOfDifferentLength(s.store.log, s'.store.log);
    }
  }

  lemma LogsOfDifferentLength(a: seq<Commit>, b: seq<Commit>)
    requires a == b
    ensures forall commit :: b != a + [commit]
  {
    assert forall commit: Commit :: |a + [commit]| == |a| + 1;
  }

  lemma OneCommitter(s: Server, i: nat, s': Server)
    requires RequestStep(s, i, s') && s'.store.log != s.store.log
    ensures forall j :: Collides(s, j, s') ==> j == i
  {
    WriterAddsItsEdit(s.store, i, s'.store);
    forall j: nat | Collides(s, j, s')
      ensures j == i
    {
      assert Last(s'.store.log) == Commit(Some(j), s.store.writers[j].edit) == Commit(Some(i), s.store.writers[i].edit);
    }
  }

  lemma CommitKeepsNamesDistinctExactly(s: Server, i: nat, s': Server, initial: seq<Value>)
    requires ServerInv(s, initial) && RequestStep(s, i, s') && s'.store.log != s.store.log && NamesAreDistinct(s)
    ensures NamesAreDistinct(s') <==> !Collides(s, i, s')
  {
    var edit := s.store.writers[i].edit;
    assert RequestInv(s, i, initial) && WriterInv(s.store, i);
    assert s'.store.categories == Apply(edit, s.store.categories);
    WriterAddsItsEdit(s.store, i, s'.store);
    EditKeepsNamesDistinct(s.store.categories, edit);
    if edit.Add? {
      MissingUnlessBroughtIn(s, i, initial, edit.svc.name);
    }
  }

  ghost predicate DistinctUpTo(states: seq<Server>, n: nat)
    requires n < |states|
  {
    forall m :: 0 <= m <= n ==> NamesAreDistinct(states[m])
  }

  ghost predicate NoCollisionUpTo(states: seq<Server>, n: nat)
    requires n < |states|
  {
    forall m :: 0 <= m < n ==> !CollidesAt(states, m)
  }

  lemma OneStateMore(states: seq<Server>, n: nat)
    requires n + 1 < |states|
    ensures DistinctUpTo(states, n + 1) <==> DistinctUpTo(states, n) && NamesAreDistinct(states[n + 1])
    ensures NoCollisionUpTo(states, n + 1) <==> NoCollisionUpTo(states, n) && !CollidesAt(states, n)
  {
  }

  /** Whatever requests overlap, adding, updating and removing: starting from distinct
      names, the names are distinct all along exactly when no request commits an Add of
      a name that edits committed since its check have brought in. */
  lemma {:induction false} NamesStayDistinctExactlyWithoutACollision(states: seq<Server>, n: nat)
    requires IsRun(states) && n < |states| && NamesAreDistinct(states[0])
    ensures DistinctUpTo(states, n) <==> NoCollisionUpTo(states, n)
  {
    if n > 0 {
      NamesStayDistinctExactlyWithoutACollision(states, n - 1);
      OneStepMore(states, n - 1);
    } else {
      assert states[n] == states[0];
    }
  }

  lemma OneStepMore(states: seq<Server>, n: nat)
    requires IsRun(states) && n + 1 < |states|
    requires DistinctUpTo(states, n) <==> NoCollisionUpTo(states, n)
    ensures DistinctUpTo(states, n + 1) <==> NoCollisionUpTo(states, n + 1)
  {
    OneStateMore(states, n);
    if DistinctUpTo(states, n) {
      assert NamesAreDistinct(states[n]);
      StepKeepsNamesDistinctExactly(states, n);
    }
  }

  /** A request that commits on the very list it checked never collides. */
  lemma AnUndisturbedRequestDoesNotCollide(s: Server, i: nat, s': Server)
    requires i < |s.phases| && s.phases[i].Passed? && s.phases[i].seen.commits == |Edits(s.store.log)|
    ensures !Collides(s, i, s')
  {
    var edits := Edits(s.store.log);
    assert edits[|edits|..] == [];
  }

  /** Two requests for one name check one after the other, then write one after the other. */
  function Overlapping(initial: seq<Value>, svc: PlatformService, n: nat): Server {
    var seen := View(initial, 0);
    Server(Colliding(initial, svc, if n < 2 then 0 else n - 2),
           [if n < 1 then Checking else Passed(seen), if n < 2 then Checking else Passed(seen)],
           if n < 1 then None else Some(seen))
  }

  lemma OverlappingStep(initial: seq<Value>, svc: PlatformService, n: nat)
    requires n < 6 && !HasName(ReadCatalog(initial), svc.name)
    ensures Step(Overlapping(initial, svc, n), Overlapping(initial, svc, n + 1))
  {
    var s, s' := Overlapping(initial, svc, n), Overlapping(initial, svc, n + 1);
    if n < 2 {
      var seen := View(initial, 0);
      assert s.store.log == [] && Current(s) == seen;
      assert s' == Enter(s, n, Passed(seen)).(cache := Some(seen));
      assert CheckStep(s, n, s');
      assert RequestStep(s, n, s');
    } else {
      CollidingStep(initial, svc, n - 2);
      assert RequestStep(s, (n - 2) / 2, s');
    }
  }

  /** Whatever service the catalog does not have, two requests whose checks overlap the
      other's write can leave it there twice. */
  lemma OverlappingRequestsMayCollide(initial: seq<Value>, svc: PlatformService) returns (states: seq<Server>)
    requires DistinctNames(ReadCatalog(initial)) && !HasName(ReadCatalog(initial), svc.name)
    ensures IsRun(states) && states[0].store.categories == initial && !NamesAreDistinct(Last(states))
  {
    states := seq(7, n requires 0 <= n => Overlapping(initial, svc, n));
    assert OfOneServer([Add(svc)]);
    forall n | 0 <= n < 6
      ensures StepAt(states, n)
    {
      OverlappingStep(initial, svc, n);
    }
    var stores := OverlappingAddsMayCollide(initial, svc);
    assert Last(states).store == Last(stores);
  }
}
