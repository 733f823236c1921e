/** The cached Context, read by any number of goroutines while catalog operations
    write the Context and invalidate the cache
    (internal/repository/context_repository.go, getContext and Invalidate;
    internal/service/service_service.go, the catalog operations). */
module ContextCache {
  import opened Basics

  const CONTEXT_TTL: nat := 5 * SECOND

  /** What the mutex guards. A document is known by its revision here. */
  datatype Cache<D> = Cache(cached: Option<D>, cachedAt: nat)

  /** The cached document, when it is recent enough to be served. */
  function Hit<D>(c: Cache<D>, now: nat): Option<D> {
    if c.cached.Some? && now - c.cachedAt < CONTEXT_TTL then c.cached else None
  }

  datatype Pc =
    | Idle
    | WantRead(floor: nat)
    | Looking(floor: nat)
    | Fetching(floor: nat)
    | Fetched(floor: nat, revision: nat)
    | Read(floor: nat, revision: nat, storedAt: nat, readAt: nat)
    | ReadFailed
    | WantInvalidate(revision: nat)

  /** `stored` is the revision of the Context in the cluster, `settled` the highest
      revision a catalog operation has written and then invalidated the cache for.
      A reader remembers as its floor what was settled when it started. */
  datatype State = State(
    cache: Cache<nat>,
    holder: Option<nat>,
    now: nat,
    stored: nat,
    settled: nat,
    callers: seq<Pc>
  )

  function Go(s: State, i: nat, pc: Pc): State
    requires i < |s.callers|
  {
    s.(callers := s.callers[i := pc])
  }

  /** The lock is taken before looking into the cache and given back with the
      answer, so it is held across the fetch. */
  ghost predicate CallerStep(s: State, i: nat, s': State) {
    && i < |s.callers|
    && match s.callers[i]
       case Idle =>
         || s' == Go(s, i, WantRead(s.settled))
         || s' == Go(s, i, WantInvalidate(s.stored + 1)).(stored := s.stored + 1)
       case WantRead(floor) =>
         s.holder.None? && s' == Go(s, i, Looking(floor)).(holder := Some(i))
       case Looking(floor) =>
         var hit := Hit(s.cache, s.now);
         if hit.Some? then s' == Go(s, i, Read(floor, hit.value, s.cache.cachedAt, s.now)).(holder := None)
         else s' == Go(s, i, Fetching(floor))
       case Fetching(floor) =>
         || s' == Go(s, i, ReadFailed).(holder := None)
         || s' == Go(s, i, Fetched(floor, s.stored))
       case Fetched(floor, revision) =>
         s' == Go(s, i, Read(floor, revision, s.now, s.now)).(cache := Cache(Some(revision), s.now), holder := None)
       case WantInvalidate(revision) =>
         && s.holder.None?
         && s' == Go(s, i, Idle).(
         cache := s.cache.(cached := None),
         settled := if revision > s.settled then revision else s.settled)
       case Read(_, _, _, _) => s' == Go(s, i, Idle)
       case ReadFailed => s' == Go(s, i, Idle)
  }

  /** Time passes, and anyone else may write the Context. */
  ghost predicate OutsideStep(s: State, s': State) {
    s'.now >= s.now && s'.stored >= s.stored && s' == s.(now := s'.now, stored := s'.stored)
  }

  ghost predicate Step(s: State, s': State) {
    (exists i :: CallerStep(s, i, s')) || OutsideStep(s, s')
  }

  ghost predicate StepAt(states: seq<State>, n: nat)
    requires 0 < n < |states|
  {
    Step(states[n - 1], states[n])
  }

  ghost predicate IsRun(states: seq<State>) {
    && states != []
    && states[0].cache.cached.None? && states[0].holder.None? && states[0].settled <= states[0].stored
    && (forall i :: 0 <= i < |states[0].callers| ==> states[0].callers[i] == Idle)
    && forall n :: 0 < n < |states| ==> StepAt(states, n)
  }

  predicate HoldsLock(pc: Pc) {
    pc.Looking? || pc.Fetching? || pc.Fetched?
  }

  /** What one caller may rely on: a fetch under way under the lock sees at least
      what is settled, and an answer is no older than the caller's floor. */
  ghost predicate CallerInv(s: State, i: nat)
    requires i < |s.callers|
  {
    match s.callers[i]
    case WantRead(floor) => floor <= s.settled
    case Looking(floor) => floor <= s.settled && s.holder == Some(i)
    case Fetching(floor) => floor <= s.settled && s.holder == Some(i)
    case Fetched(floor, revision) => floor <= s.settled <= revision <= s.stored && s.holder == Some(i)
    case Read(floor, revision, storedAt, readAt) =>
      floor <= revision <= s.stored && storedAt <= readAt <= s.now && readAt - storedAt < CONTEXT_TTL
    case WantInvalidate(revision) => revision <= s.stored
    case _ => true
  }

  ghost predicate Inv(s: State) {
    && s.settled <= s.stored
    && (s.cache.cached.Some? ==> s.settled <= s.cache.cached.value <= s.stored && s.cache.cachedAt <= s.now)
    && forall i :: 0 <= i < |s.callers| ==> CallerInv(s, i)
  }

  lemma CallerKeepsShared(s: State, i: nat, s': State)
    requires Inv(s) && CallerStep(s, i, s')
    ensures s'.settled <= s'.stored
    ensures s'.cache.cached.Some? ==> s'.settled <= s'.cache.cached.value <= s'.stored && s'.cache.cachedAt <= s'.now
    ensures CallerInv(s', i)
  {
    assert CallerInv(s, i);
  }

  lemma CallerKeepsOthers(s: State, i: nat, s': State, j: nat)
    requires Inv(s) && CallerStep(s, i, s') && j < |s.callers| && j != i
    ensures CallerInv(s', j)
  {
    assert CallerInv(s, i) && CallerInv(s, j);
    assert s'.callers[j] == s.callers[j];
  }

  lemma CallerKeepsInv(s: State, i: nat, s': State)
    requires Inv(s) && CallerStep(s, i, s')
    ensures Inv(s')
  {
    CallerKeepsShared(s, i, s');
    forall j | 0 <= j < |s'.callers|
      ensures CallerInv(s', j)
    {
      if j != i {
        CallerKeepsOthers(s, i, s', j);
      }
    }
  }

  lemma {:induction false} EveryRunKeepsTheInvariant(states: seq<State>, n: nat)
    requires IsRun(states) && n < |states|
    ensures Inv(states[n])
  {
    if n > 0 {
      EveryRunKeepsTheInvariant(states, n - 1);
      var s, s' := states[n - 1], states[n];
      assert StepAt(states, n);
      if i: nat :| CallerStep(s, i, s') {
        CallerKeepsInv(s, i, s');
      } else {
        forall j | 0 <= j < |s'.callers|
          ensures CallerInv(s', j)
        {
          assert CallerInv(s, j);
        }
      }
    }
  }

  /** Caller i starts a read in the step from state m, and is still in that very
      call in state n. */
  ghost predicate SameRead(states: seq<State>, m: nat, n: nat, i: nat) {
    && m < n < |states| && i < |states[m].callers|
    && states[m].callers[i] == Idle
    && states[m + 1] == Go(states[m], i, WantRead(states[m].settled))
    && forall k :: m < k <= n ==> i < |states[k].callers| && !states[k].callers[i].Idle?
  }

  lemma {:induction false} FloorIsKept(states: seq<State>, m: nat, n: nat, i: nat)
    requires IsRun(states) && SameRead(states, m, n, i)
    ensures states[n].callers[i].ReadFailed? || (&& !states[n].callers[i].WantInvalidate?
                                                 && states[n].callers[i].floor == states[m].settled)
  {
    if m + 1 < n {
      FloorIsKept(states, m, n - 1, i);
      var s, s' := states[n - 1], states[n];
      assert StepAt(states, n);
      if j: nat :| CallerStep(s, j, s') {
        StepKeepsFloor(s, j, s', i, states[m].settled);
      }
    }
  }

  /** Caller i is in a read that started with the floor. */
  predicate InRead(pc: Pc, floor: nat) {
    pc.ReadFailed? || (!pc.Idle? && !pc.WantInvalidate? && pc.floor == floor)
  }

  lemma StepKeepsFloor(s: State, j: nat, s': State, i: nat, floor: nat)
    requires CallerStep(s, j, s') && i < |s.callers| && InRead(s.callers[i], floor)
    ensures |s'.callers| == |s.callers| && (s'.callers[i].Idle? || InRead(s'.callers[i], floor))
  {
    assert j != i ==> s'.callers[i] == s.callers[i];
  }

  /** A read that starts after a catalog operation has written and invalidated
      sees that write or a later one, and nothing that was not written. */
  lemma ReadsSeeSettledWrites(states: seq<State>, m: nat, n: nat, i: nat)
    requires IsRun(states) && SameRead(states, m, n, i) && states[n].callers[i].Read?
    ensures states[m].settled <= states[n].callers[i].revision <= states[n].stored
  {
    EveryRunKeepsTheInvariant(states, n);
    FloorIsKept(states, m, n, i);
    assert CallerInv(states[n], i);
  }

  /** A document served from the cache was stored there less than the TTL before. */
  lemma HitsAreRecent(states: seq<State>, n: nat, i: nat)
    requires IsRun(states) && n < |states| && i < |states[n].callers| && states[n].callers[i].Read?
    ensures states[n].callers[i].readAt - states[n].callers[i].storedAt < CONTEXT_TTL
  {
    EveryRunKeepsTheInvariant(states, n);
    assert CallerInv(states[n], i);
  }

  /** At most one goroutine looks, fetches or stores at a time. */
  lemma FetchesNeverOverlap(states: seq<State>, n: nat, i: nat, j: nat)
    requires IsRun(states) && n < |states| && i < j < |states[n].callers|
    ensures !(HoldsLock(states[n].callers[i]) && HoldsLock(states[n].callers[j]))
  {
    EveryRunKeepsTheInvariant(states, n);
    assert CallerInv(states[n], i) && CallerInv(states[n], j);
  }

  // --- What a reader is given under the lock ---

  /** A document is in the cache and less than five seconds old. */
  predicate FreshlyCached<D>(c: Cache<D>, now: nat) {
    c.cached.Some? && now < c.cachedAt + 5_000_000_000
  }

  /** A reader that looks is given what is freshly cached, and fetches exactly when there
      is no such thing. */
  lemma LookingServesWhatIsFresh(s: State, i: nat, s': State)
    requires CallerStep(s, i, s') && s.callers[i].Looking?
    ensures s'.callers[i].Read? <==> FreshlyCached(s.cache, s.now)
    ensures s'.callers[i].Read? ==> s'.callers[i].revision == s.cache.cached.value && s'.cache == s.cache
    ensures s'.callers[i].Fetching? <==> !FreshlyCached(s.cache, s.now)
  {
  }

  /** What a reader fetched it answers with and leaves in the cache, as of now. */
  lemma FetchedIsCached(s: State, i: nat, s': State)
    requires CallerStep(s, i, s') && s.callers[i].Fetched?
    ensures s'.callers[i].Read? && s'.callers[i].revision == s.callers[i].revision
    ensures s'.cache.cached == Some(s.callers[i].revision) && s'.cache.cachedAt == s.now
        && FreshlyCached(s'.cache, s'.now)
  {
  }
}
