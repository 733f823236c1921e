/** The cache of package documents and the single flight in front of it, for one
    key and any number of callers (internal/service/package_schema_service.go,
    load and fetchAndCache). The repository of the service is fixed: the key does
    not name it. */
module PackageCache {
  import opened Basics
  import opened Spacing

  const CACHE_TTL: nat := 15 * 60 * SECOND

  /** A cached document, by the number of the fetch that brought it. */
  datatype Entry = Entry(fetch: nat, fetchedAt: nat)

  function Recent(cached: Option<Entry>, now: nat): Option<Entry> {
    if cached.Some? && now - cached.value.fetchedAt < CACHE_TTL then cached else None
  }

  /** The cache itself, and what one caller does with it when alone. */
  class DocumentCache {
    var entries: map<string, Entry>

    constructor ()
      ensures entries == map[]
    {
      entries := map[];
    }

    /** The cached document, or the fetched one, dated when it arrived. */
    method Load(key: string, now: nat, fetch: nat, fetched: bool, later: nat) returns (r: Option<Entry>)
      modifies this
      ensures var hit := FreshlyCached(Lookup(old(entries), key), now);
              && r == (if hit then Some(old(entries)[key]) else if fetched then Some(Entry(fetch, later)) else None)
              && entries == (if !hit && fetched then old(entries)[key := Entry(fetch, later)] else old(entries))
    {
      if key in entries && now - entries[key].fetchedAt < CACHE_TTL {
        return Some(entries[key]);
      }
      r := FetchAndCache(key, now, fetch, fetched, later);
    }

    /** The function of the flight: it checks again before it fetches. */
    method FetchAndCache(key: string, now: nat, fetch: nat, fetched: bool, later: nat) returns (r: Option<Entry>)
      modifies this
      ensures var hit := FreshlyCached(Lookup(old(entries), key), now);
              && r == (if hit then Some(old(entries)[key]) else if fetched then Some(Entry(fetch, later)) else None)
              && entries == (if !hit && fetched then old(entries)[key := Entry(fetch, later)] else old(entries))
    {
      if key in entries && now - entries[key].fetchedAt < CACHE_TTL {
        return Some(entries[key]);
      }
      if !fetched {
        return None;
      }
      entries := entries[key := Entry(fetch, later)];
      return Some(entries[key]);
    }
  }

  datatype Pc =
    | Idle
    | FirstCheck
    | AtGroup
    | Waiting(flight: nat)
    | SecondCheck(flight: nat)
    | Fetching(flight: nat)
    | Storing(flight: nat, entry: Entry)
    | Ending(flight: nat, result: Option<Entry>)
    | Returned(result: Option<Entry>)

  /** The cached entry, the flight under way, the results of the flights that
      ended, and for every fetch when it started and, once it is over, when its
      document was dated, or None when it failed. */
  datatype State = State(
    cached: Option<Entry>,
    flight: Option<nat>,
    results: seq<Option<Entry>>,
    now: nat,
    callers: seq<Pc>,
    starts: seq<nat>,
    outcomes: seq<Option<nat>>
  )

  function Go(s: State, i: nat, pc: Pc): State
    requires i < |s.callers|
  {
    s.(callers := s.callers[i := pc])
  }

  ghost predicate CallerStep(s: State, i: nat, s': State) {
    && i < |s.callers|
    && match s.callers[i]
       case Idle => s' == Go(s, i, FirstCheck)
       case FirstCheck =>
         var hit := Recent(s.cached, s.now);
         s' == Go(s, i, if hit.Some? then Returned(hit) else AtGroup)
       case AtGroup =>
         if s.flight.Some? then s' == Go(s, i, Waiting(s.flight.value))
         else s' == Go(s, i, SecondCheck(|s.results|)).(flight := Some(|s.results|))
       case Waiting(flight) =>
         flight < |s.results| && s' == Go(s, i, Returned(s.results[flight]))
       case SecondCheck(flight) =>
         var hit := Recent(s.cached, s.now);
         if hit.Some? then s' == Go(s, i, Ending(flight, hit))
         else s' == Go(s, i, Fetching(flight)).(starts := s.starts + [s.now])
       case Fetching(flight) =>
         || s' == Go(s, i, Ending(flight, None)).(outcomes := s.outcomes + [None])
         || s' == Go(s, i, Storing(flight, Entry(|s.outcomes|, s.now))).(outcomes := s.outcomes + [Some(s.now)])
       case Storing(flight, entry) => s' == Go(s, i, Ending(flight, Some(entry))).(cached := Some(entry))
       case Ending(flight, result) => s' == Go(s, i, Returned(result)).(flight := None, results := s.results + [result])
       case Returned(_) => s' == Go(s, i, Idle)
  }

  ghost predicate Step(s: State, s': State) {
    (exists i :: CallerStep(s, i, s')) || (s'.now >= s.now && s' == s.(now := s'.now))
  }

  ghost predicate StepAt(states: seq<State>, n: nat)
    requires 0 < n < |states|
  {
    Step(states[n - 1], states[n])
  }

  ghost predicate IsRun(states: seq<State>) {
    && states != []
    && states[0].cached.None? && states[0].flight.None?
    && states[0].results == [] && states[0].starts == [] && states[0].outcomes == []
    && (forall i :: 0 <= i < |states[0].callers| ==> states[0].callers[i] == Idle)
    && forall n :: 0 < n < |states| ==> StepAt(states, n)
  }

  /** The caller runs the function of the flight. */
  predicate Leads(pc: Pc) {
    pc.SecondCheck? || pc.Fetching? || pc.Storing? || pc.Ending?
  }

  ghost predicate HasLeader(s: State) {
    exists i :: 0 <= i < |s.callers| && Leads(s.callers[i])
  }

  /** One flight at a time, led by one caller, the next to have a result. */
  ghost predicate FlightInv(s: State) {
    && (s.flight.Some? ==> s.flight.value == |s.results| && HasLeader(s))
    && (forall i :: 0 <= i < |s.callers| && Leads(s.callers[i]) ==> s.flight == Some(s.callers[i].flight))
    && (forall i, j :: 0 <= i < j < |s.callers| ==> !(Leads(s.callers[i]) && Leads(s.callers[j])))
    && (forall i :: 0 <= i < |s.callers| && s.callers[i].Waiting? ==>
                      s.callers[i].flight < |s.results| || s.flight == Some(s.callers[i].flight))
  }

  predicate SomeFetching(s: State) {
    exists i :: 0 <= i < |s.callers| && s.callers[i].Fetching?
  }

  /** A document that was fetched: the outcome of its fetch is its date. */
  ghost predicate WasFetched(s: State, entry: Entry) {
    entry.fetch < |s.outcomes| && s.outcomes[entry.fetch] == Some(entry.fetchedAt)
  }

  /** Whatever fetch k found, later fetches keep the TTL from it. */
  ghost predicate KeepsDistance(s: State, k: nat, later: nat)
    requires k < |s.outcomes| && later < |s.starts|
  {
    s.outcomes[k].Some? ==> s.outcomes[k].value + CACHE_TTL <= s.starts[later]
  }

  /** Fetch k has been dated no later than the entry the leader or the cache holds. */
  ghost predicate Superseded(s: State, k: nat, entry: Option<Entry>)
    requires k < |s.outcomes|
  {
    s.outcomes[k].Some? ==> entry.Some? && s.outcomes[k].value <= entry.value.fetchedAt
  }

  ghost predicate FetchInv(s: State) {
    && |s.starts| == |s.outcomes| + (if SomeFetching(s) then 1 else 0)
    && (forall k :: 0 <= k < |s.starts| ==> s.starts[k] <= s.now)
    && (forall k :: 0 <= k < |s.outcomes| && s.outcomes[k].Some? ==> s.starts[k] <= s.outcomes[k].value <= s.now)
    && (forall k, later :: 0 <= k < later < |s.starts| && k < |s.outcomes| ==> KeepsDistance(s, k, later))
  }

  /** What one caller holds was fetched. */
  ghost predicate HoldsFetched(s: State, pc: Pc) {
    && (pc.Storing? ==> WasFetched(s, pc.entry))
    && (pc.Ending? && pc.result.Some? ==> WasFetched(s, pc.result.value))
    && (pc.Returned? && pc.result.Some? ==> WasFetched(s, pc.result.value))
  }

  ghost predicate EntryInv(s: State) {
    && (s.cached.Some? ==> WasFetched(s, s.cached.value))
    && (forall k :: 0 <= k < |s.results| && s.results[k].Some? ==> WasFetched(s, s.results[k].value))
    && (forall i :: 0 <= i < |s.callers| ==> HoldsFetched(s, s.callers[i]))
  }

  /** The entry is as new as any document fetched so far. */
  ghost predicate Newest(s: State, entry: Option<Entry>) {
    forall k :: 0 <= k < |s.outcomes| ==> Superseded(s, k, entry)
  }

  /** The newest document is in the cache, or about to be put there by the leader. */
  ghost predicate NewestInv(s: State) {
    && (forall i :: 0 <= i < |s.callers| && s.callers[i].Storing? ==> Newest(s, Some(s.callers[i].entry)))
    && ((forall i :: 0 <= i < |s.callers| ==> !s.callers[i].Storing?) ==> Newest(s, s.cached))
  }

  lemma CallerKeepsLeader(s: State, i: nat, s': State)
    requires FlightInv(s) && CallerStep(s, i, s')
    ensures s'.flight.Some? ==> s'.flight.value == |s'.results| && HasLeader(s')
    ensures forall j :: 0 <= j < |s'.callers| && Leads(s'.callers[j]) ==> s'.flight == Some(s'.callers[j].flight)
    ensures forall j, k :: 0 <= j < k < |s'.callers| ==> !(Leads(s'.callers[j]) && Leads(s'.callers[k]))
  {
    assert forall j :: 0 <= j < |s.callers| && j != i ==> s'.callers[j] == s.callers[j];
    if Leads(s.callers[i]) {
      assert forall j :: 0 <= j < |s.callers| && j != i ==> !Leads(s'.callers[j]);
    }
    if s'.flight.Some? {
      if s.flight.Some? {
        var j :| 0 <= j < |s.callers| && Leads(s.callers[j]);
        assert Leads(s'.callers[j]);
      } else {
        assert Leads(s'.callers[i]);
      }
    }
  }

  lemma CallerKeepsFlight(s: State, i: nat, s': State)
    requires FlightInv(s) && CallerStep(s, i, s')
    ensures FlightInv(s')
  {
    CallerKeepsLeader(s, i, s');
    assert forall j :: 0 <= j < |s.callers| && j != i ==> s'.callers[j] == s.callers[j];
  }

  lemma WasFetchedForGood(s: State, s': State)
    requires s.outcomes <= s'.outcomes
    ensures forall entry :: WasFetched(s, entry) ==> WasFetched(s', entry)
    ensures forall pc :: HoldsFetched(s, pc) ==> HoldsFetched(s', pc)
  {
  }

  lemma CallerHoldsFetched(s: State, i: nat, s': State)
    requires EntryInv(s) && CallerStep(s, i, s')
    ensures s.outcomes <= s'.outcomes
    ensures HoldsFetched(s', s'.callers[i])
    ensures s'.cached.Some? ==> WasFetched(s', s'.cached.value)
    ensures forall k :: 0 <= k < |s'.results| && s'.results[k].Some? ==> WasFetched(s', s'.results[k].value)
  {
    assert HoldsFetched(s, s.callers[i]);
  }

  lemma CallerKeepsEntries(s: State, i: nat, s': State)
    requires EntryInv(s) && CallerStep(s, i, s')
    ensures EntryInv(s')
  {
    CallerHoldsFetched(s, i, s');
    WasFetchedForGood(s, s');
    forall j | 0 <= j < |s'.callers|
      ensures HoldsFetched(s', s'.callers[j])
    {
      if j != i {
        assert s'.callers[j] == s.callers[j] && HoldsFetched(s, s.callers[j]);
      }
    }
  }

  lemma FetchingIsTheLeader(s: State, i: nat, s': State)
    requires FlightInv(s) && CallerStep(s, i, s')
    ensures SomeFetching(s) ==> Leads(s.callers[i]) ==> s.callers[i].Fetching?
    ensures SomeFetching(s') <==> (if Leads(s.callers[i]) then s'.callers[i].Fetching? else SomeFetching(s))
  {
    assert forall j :: 0 <= j < |s.callers| && j != i ==> s'.callers[j] == s.callers[j];
    if SomeFetching(s) {
      var j :| 0 <= j < |s.callers| && s.callers[j].Fetching?;
      if j != i {
        assert s'.callers[j].Fetching?;
      }
    }
    if SomeFetching(s') {
      var j :| 0 <= j < |s'.callers| && s'.callers[j].Fetching?;
    }
  }

  /** A leader that decides to fetch has just seen the newest document, too old. */
  lemma StartKeepsDistance(s: State, i: nat, s': State)
    requires FlightInv(s) && FetchInv(s) && NewestInv(s) && CallerStep(s, i, s')
    requires s.callers[i].SecondCheck? && s'.callers[i].Fetching?
    ensures FetchInv(s')
  {
    FetchingIsTheLeader(s, i, s');
    assert !SomeFetching(s);
    assert forall j :: 0 <= j < |s.callers| ==> !s.callers[j].Storing?;
    forall k, later | 0 <= k < later < |s'.starts| && k < |s'.outcomes|
      ensures KeepsDistance(s', k, later)
    {
      assert Superseded(s, k, s.cached);
      if later < |s.starts| {
        assert KeepsDistance(s, k, later);
      }
    }
  }

  lemma CallerKeepsFetches(s: State, i: nat, s': State)
    requires FlightInv(s) && FetchInv(s) && NewestInv(s) && CallerStep(s, i, s')
    ensures FetchInv(s')
  {
    if s.callers[i].SecondCheck? && s'.callers[i].Fetching? {
      StartKeepsDistance(s, i, s');
    } else {
      FetchingIsTheLeader(s, i, s');
      assert s.outcomes <= s'.outcomes && s'.starts == s.starts;
      if s.callers[i].Fetching? {
        assert SomeFetching(s);
      }
      forall k, later | 0 <= k < later < |s'.starts| && k < |s'.outcomes|
        ensures KeepsDistance(s', k, later)
      {
        assert k < |s.outcomes| && KeepsDistance(s, k, later);
      }
    }
  }

  lemma NewestAfterFailure(s: State, s': State, entry: Option<Entry>)
    requires Newest(s, entry)
    requires s'.outcomes == s.outcomes || s'.outcomes == s.outcomes + [None]
    ensures Newest(s', entry)
  {
    forall k | 0 <= k < |s'.outcomes|
      ensures Superseded(s', k, entry)
    {
      assert k < |s.outcomes| ==> Superseded(s, k, entry);
    }
  }

  lemma CallerKeepsNewest(s: State, i: nat, s': State)
    requires FlightInv(s) && FetchInv(s) && NewestInv(s) && CallerStep(s, i, s')
    ensures NewestInv(s')
  {
    assert forall j :: 0 <= j < |s.callers| && j != i ==> s'.callers[j] == s.callers[j];
    if s'.callers[i].Storing? {
      forall k | 0 <= k < |s'.outcomes|
        ensures Superseded(s', k, Some(s'.callers[i].entry))
      {
      }
    } else if s.callers[i].Storing? {
      NewestAfterFailure(s, s', Some(s.callers[i].entry));
    } else {
      forall entry | Newest(s, entry)
        ensures Newest(s', entry)
      {
        NewestAfterFailure(s, s', entry);
      }
      assert forall j :: 0 <= j < |s.callers| && s'.callers[j].Storing? ==> s.callers[j].Storing?;
      if forall j :: 0 <= j < |s'.callers| ==> !s'.callers[j].Storing? {
        assert forall j :: 0 <= j < |s.callers| ==> !s.callers[j].Storing?;
      }
    }
  }

  ghost predicate Inv(s: State) {
    FlightInv(s) && FetchInv(s) && NewestInv(s) && EntryInv(s)
  }

  lemma TimePasses(s: State, s': State)
    requires Inv(s) && s'.now >= s.now && s' == s.(now := s'.now)
    ensures Inv(s')
  {
    assert SomeFetching(s') == SomeFetching(s);
    assert forall entry :: WasFetched(s, entry) ==> WasFetched(s', entry);
    assert forall k: nat, later: nat :: k < |s.outcomes| && later < |s.starts| && KeepsDistance(s, k, later)
                                        ==> KeepsDistance(s', k, later);
    forall entry | Newest(s, entry)
      ensures Newest(s', entry)
    {
      NewestAfterFailure(s, s', entry);
    }
  }

  lemma {:induction false} EveryRunKeepsTheInvariant(states: seq<State>, n: nat)
    requires IsRun(states) && n < |states|
    ensures Inv(states[n])
  {
    if n > 0 {
      EveryRunKeepsTheInvariant(states, n - 1);
      var s, s' := states[n - 1], states[n];
      assert StepAt(states, n);
      if i: nat :| CallerStep(s, i, s') {
        CallerKeepsFlight(s, i, s');
        CallerKeepsFetches(s, i, s');
        CallerKeepsNewest(s, i, s');
        CallerKeepsEntries(s, i, s');
      } else {
        TimePasses(s, s');
      }
    }
  }

  // --- What follows ---

  /** Fetches never overlap: at most one caller fetches, and it does while every
      fetch before it is over. */
  lemma FetchesNeverOverlap(states: seq<State>, n: nat)
    requires IsRun(states) && n < |states|
    ensures var s := states[n];
            && (forall i, j :: 0 <= i < j < |s.callers| ==> !(s.callers[i].Fetching? && s.callers[j].Fetching?))
            && |s.starts| == |s.outcomes| + (if SomeFetching(s) then 1 else 0)
  {
    EveryRunKeepsTheInvariant(states, n);
    assert forall i :: 0 <= i < |states[n].callers| && states[n].callers[i].Fetching? ==> Leads(states[n].callers[i]);
  }

  /** Once a document was fetched, no fetch starts before the TTL is over. */
  lemma FetchesKeepTheTTL(states: seq<State>, n: nat, k: nat, later: nat)
    requires IsRun(states) && n < |states|
    requires k < later < |states[n].starts|
    ensures k < |states[n].outcomes|
    ensures states[n].outcomes[k].Some? ==> states[n].outcomes[k].value + CACHE_TTL <= states[n].starts[later]
  {
    EveryRunKeepsTheInvariant(states, n);
    assert KeepsDistance(states[n], k, later);
  }

  /** What a caller gets is a document some fetch brought. */
  lemma AnswersWereFetched(states: seq<State>, n: nat, i: nat)
    requires IsRun(states) && n < |states| && i < |states[n].callers|
    requires states[n].callers[i].Returned? && states[n].callers[i].result.Some?
    ensures WasFetched(states[n], states[n].callers[i].result.value)
  {
    EveryRunKeepsTheInvariant(states, n);
  }

  /** A waiting caller's flight has ended or is still led by a caller. */
  lemma WaitersAreAnswered(states: seq<State>, n: nat, i: nat)
    requires IsRun(states) && n < |states| && i < |states[n].callers| && states[n].callers[i].Waiting?
    ensures || states[n].callers[i].flight < |states[n].results|
            || exists j :: 0 <= j < |states[n].callers| && Leads(states[n].callers[j])
                           && states[n].callers[j].flight == states[n].callers[i].flight
  {
    EveryRunKeepsTheInvariant(states, n);
    if states[n].flight.Some? {
      var j :| 0 <= j < |states[n].callers| && Leads(states[n].callers[j]);
    }
  }

  /** When the documents were dated, in the order of the fetches. */
  function Successes(outcomes: seq<Option<nat>>): seq<nat> {
    if outcomes == [] then []
    else if Last(outcomes).Some? then Successes(Init(outcomes)) + [Last(outcomes).value]
    else Successes(Init(outcomes))
  }

  lemma {:induction false} SuccessesComeFrom(outcomes: seq<Option<nat>>)
    ensures forall time :: time in Successes(outcomes) ==> Some(time) in outcomes
  {
    if outcomes != [] {
      SuccessesComeFrom(Init(outcomes));
      assert outcomes == Init(outcomes) + [Last(outcomes)];
    }
  }

  lemma {:induction false} SuccessesAreSpaced(outcomes: seq<Option<nat>>)
    requires forall k, later :: 0 <= k < later < |outcomes| && outcomes[k].Some? && outcomes[later].Some?
                                ==> outcomes[k].value + CACHE_TTL <= outcomes[later].value
    ensures Spaced(Successes(outcomes), CACHE_TTL)
  {
    if outcomes != [] {
      var before := Successes(Init(outcomes));
      SuccessesAreSpaced(Init(outcomes));
      SuccessesComeFrom(Init(outcomes));
      forall i | 0 < i < |Successes(outcomes)|
        ensures Apart(Successes(outcomes), CACHE_TTL, i)
      {
        if i < |before| {
          assert Apart(before, CACHE_TTL, i);
        } else {
          assert Some(before[i - 1]) in Init(outcomes);
          var k :| 0 <= k < |Init(outcomes)| && Init(outcomes)[k] == Some(before[i - 1]);
          assert outcomes[k].Some? && Last(outcomes) == outcomes[|outcomes| - 1];
        }
      }
    }
  }

  /** A window of length W sees at most W / TTL + 1 documents fetched. */
  lemma FetchesAreRateBounded(states: seq<State>, n: nat, from: nat, length: nat)
    requires IsRun(states) && n < |states|
    ensures Within(Successes(states[n].outcomes), from, length) <= length / CACHE_TTL + 1
  {
    EveryRunKeepsTheInvariant(states, n);
    var s := states[n];
    forall k, later | 0 <= k < later < |s.outcomes| && s.outcomes[k].Some? && s.outcomes[later].Some?
      ensures s.outcomes[k].value + CACHE_TTL <= s.outcomes[later].value
    {
      assert KeepsDistance(s, k, later);
    }
    SuccessesAreSpaced(s.outcomes);
    WindowHoldsFew(Successes(s.outcomes), CACHE_TTL, from, length);
  }

  // --- What a caller is given ---

  /** The cached document is less than a quarter of an hour old. */
  predicate FreshlyCached(cached: Option<Entry>, now: nat) {
    cached.Some? && now < cached.value.fetchedAt + 900_000_000_000
  }

  /** A caller is answered from the cache exactly when the document there is fresh; a
      leader looks again and fetches exactly when it is not. */
  lemma ChecksServeWhatIsFresh(s: State, i: nat, s': State)
    requires CallerStep(s, i, s') && (s.callers[i].FirstCheck? || s.callers[i].SecondCheck?)
    ensures s.callers[i].FirstCheck? ==>
              if FreshlyCached(s.cached, s.now) then s'.callers[i] == Returned(s.cached) else s'.callers[i].AtGroup?
    ensures s.callers[i].SecondCheck? ==>
              if FreshlyCached(s.cached, s.now)
              then s'.callers[i].Ending? && s'.callers[i].result == s.cached && s'.starts == s.starts
              else s'.callers[i].Fetching? && s'.starts == s.starts + [s.now]
  {
  }

  /** A document that arrived is dated then, cached, and what the flight ends with; a
      waiter is answered with what its flight ended with. */
  lemma FetchedIsCached(s: State, i: nat, s': State)
    requires CallerStep(s, i, s')
    ensures s.callers[i].Fetching? && s'.callers[i].Storing? ==> s'.callers[i].entry == Entry(|s.outcomes|, s.now)
    ensures s.callers[i].Storing? ==>
              s'.cached == Some(s.callers[i].entry) && s'.callers[i].Ending? && s'.callers[i].result == s'.cached
    ensures s.callers[i].Ending? ==>
              s'.results == s.results + [s.callers[i].result] && s'.callers[i] == Returned(s.callers[i].result)
    ensures s.callers[i].Waiting? ==>
              s.callers[i].flight < |s.results| && s'.callers[i] == Returned(s.results[s.callers[i].flight])
  {
  }
}
