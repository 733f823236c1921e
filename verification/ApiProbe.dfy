/** "Is this custom resource served by the cluster?", asked by any number of
    goroutines of one probe (internal/repository/api_availability.go). */
module ApiProbe {
  import opened Basics
  import opened Spacing

  /** How long a negative answer is trusted. */
  const TTL: nat := 30 * SECOND

  /** A done channel, by the order of creation. */
  type Chan = nat

  /** The fields the mutex guards. */
  datatype Shared = Shared(available: bool, checkedAt: Option<nat>, inflight: Option<Chan>)

  datatype Decision = Answer(available: bool) | Wait(done: Chan) | Probe(done: Chan)

  /** The first critical section: answer from what is known, wait for the probe
      under way, or become the one probing. */
  function Enter(p: Shared, now: nat, unused: Chan): (Shared, Decision) {
    if p.available then (p, Answer(true))
    else if p.checkedAt.Some? && now - p.checkedAt.value < TTL then (p, Answer(false))
    else if p.inflight.Some? then (p, Wait(p.inflight.value))
    else (p.(inflight := Some(unused)), Probe(unused))
  }

  /** The second critical section: publish what the probe found. */
  function Publish(p: Shared, now: nat, available: bool): Shared {
    Shared(available, Some(now), None)
  }

  class APIProbe {
    var available: bool
    var checkedAt: Option<nat>
    var inflight: Option<Chan>
    const resource: string
    const alsoRequired: seq<string>

    constructor (resource: string, alsoRequired: seq<string>)
      ensures State() == Shared(false, None, None)
      ensures this.resource == resource && this.alsoRequired == alsoRequired
    {
      this.resource, this.alsoRequired := resource, alsoRequired;
      available, checkedAt, inflight := false, None, None;
    }

    ghost function State(): Shared
      reads this
    {
      Shared(available, checkedAt, inflight)
    }

    method LockAndDecide(now: nat, unused: Chan) returns (d: Decision)
      modifies this
      ensures (State(), d) == Enter(old(State()), now, unused)
    {
      if available {
        return Answer(true);
      }
      if checkedAt.Some? && now - checkedAt.value < TTL {
        return Answer(false);
      }
      if inflight.Some? {
        return Wait(inflight.value);
      }
      inflight := Some(unused);
      return Probe(unused);
    }

    method LockAndPublish(now: nat, answer: bool)
      modifies this
      ensures State() == Publish(old(State()), now, answer)
    {
      inflight := None;
      checkedAt := Some(now);
      available := answer;
    }

    /** The discovery call itself: None when it failed. Every required resource
        has to be served, a partial install is not the feature. */
    method Discover(served: Option<seq<string>>) returns (available: bool)
      ensures available <==> served.Some? && resource in served.value
                             && forall i :: 0 <= i < |alsoRequired| ==> alsoRequired[i] in served.value
    {
      if served.None? {
        return false;
      }
      var names: set<string> := {};
      for i := 0 to |served.value|
        invariant forall name :: name in names <==> name in served.value[..i]
      {
        names := names + {served.value[i]};
      }
      assert served.value[..|served.value|] == served.value;
      var required := [resource] + alsoRequired;
      for i := 0 to |required|
        invariant forall j :: 0 <= j < i ==> required[j] in served.value
      {
        if required[i] !in names {
          return false;
        }
      }
      assert required[0] == resource;
      assert forall j :: 0 <= j < |alsoRequired| ==> alsoRequired[j] == required[j + 1];
      return true;
    }
  }

  // --- Any number of callers ---

  datatype Pc =
    | Idle
    | AtLock
    | Blocked(done: Chan)
    | Probing(done: Chan)
    | Probed(done: Chan, answer: bool)
    | Closing(done: Chan, answer: bool)
    | Returning(answer: bool)

  /** The shared fields, the clock, the channels created and the closes made so
      far, the callers, and the record of probes: when each started, when its
      answer was published, and the answer. */
  datatype State = State(
    probe: Shared,
    now: nat,
    nextChan: Chan,
    closes: seq<Chan>,
    callers: seq<Pc>,
    starts: seq<nat>,
    ends: seq<nat>,
    answers: seq<bool>
  )

  ghost predicate Initial(s: State) {
    && s.probe == Shared(false, None, None)
    && s.nextChan == 0 && s.closes == [] && s.starts == [] && s.ends == [] && s.answers == []
    && forall i :: 0 <= i < |s.callers| ==> s.callers[i] == Idle
  }

  function Go(s: State, i: nat, pc: Pc): State
    requires i < |s.callers|
  {
    s.(callers := s.callers[i := pc])
  }

  /** One step of caller i. Only the discovery call takes its answer from outside. */
  ghost predicate CallerStep(s: State, i: nat, s': State) {
    && i < |s.callers|
    && match s.callers[i]
       case Idle => s' == Go(s, i, AtLock)
       case AtLock =>
         var (probe, decision) := Enter(s.probe, s.now, s.nextChan);
         (match decision
          case Answer(available) => s' == Go(s, i, Returning(available))
          case Wait(done) => s' == Go(s, i, Blocked(done))
          case Probe(done) =>
            s' == Go(s, i, Probing(done)).(probe := probe, nextChan := s.nextChan + 1, starts := s.starts + [s.now]))
       case Blocked(done) => done in s.closes && s' == Go(s, i, AtLock)
       case Probing(done) => s' == Go(s, i, Probed(done, true)) || s' == Go(s, i, Probed(done, false))
       case Probed(done, answer) =>
         s' == Go(s, i, Closing(done, answer)).(
         probe := Publish(s.probe, s.now, answer), ends := s.ends + [s.now], answers := s.answers + [answer])
       case Closing(done, answer) => s' == Go(s, i, Returning(answer)).(closes := s.closes + [done])
       case Returning(_) => s' == Go(s, i, Idle)
  }

  ghost predicate Step(s: State, s': State) {
    || (exists i :: CallerStep(s, i, s'))
    || (s'.now >= s.now && s' == s.(now := s'.now))
  }

  ghost predicate StepAt(states: seq<State>, n: nat)
    requires 0 < n < |states|
  {
    Step(states[n - 1], states[n])
  }

  ghost predicate IsRun(states: seq<State>) {
    && states != []
    && Initial(states[0])
    && forall n :: 0 < n < |states| ==> StepAt(states, n)
  }

  // --- The invariant ---

  /** The caller is between becoming the prober and publishing. */
  predicate IsProbing(pc: Pc) {
    pc.Probing? || pc.Probed?
  }

  /** The caller still has to close a channel. */
  predicate MustClose(pc: Pc) {
    IsProbing(pc) || pc.Closing?
  }

  /** Some caller is still due to close the channel. */
  ghost predicate HasCloser(s: State, done: Chan) {
    exists i :: 0 <= i < |s.callers| && MustClose(s.callers[i]) && s.callers[i].done == done
  }

  ghost predicate ProberOf(s: State, done: Chan) {
    exists i :: 0 <= i < |s.callers| && IsProbing(s.callers[i]) && s.callers[i].done == done
  }

  /** Channels are closed once, and those to close are open and each one's own. */
  ghost predicate ClosersInv(s: State) {
    && Distinct(s.closes)
    && (forall k :: 0 <= k < |s.closes| ==> s.closes[k] < s.nextChan)
    && (forall i :: 0 <= i < |s.callers| && MustClose(s.callers[i]) ==>
                      s.callers[i].done < s.nextChan && s.callers[i].done !in s.closes)
    && (forall i, j :: 0 <= i < j < |s.callers| && MustClose(s.callers[i]) && MustClose(s.callers[j]) ==>
                         s.callers[i].done != s.callers[j].done)
  }

  /** Every channel is closed or will be, and callers wait for channels only. */
  ghost predicate OwedInv(s: State) {
    && (forall done: Chan :: done < s.nextChan && done !in s.closes ==> HasCloser(s, done))
    && (forall i :: 0 <= i < |s.callers| && s.callers[i].Blocked? ==> s.callers[i].done < s.nextChan)
  }

  ghost predicate InflightInv(s: State) {
    && (s.probe.inflight.Some? ==> !s.probe.available && ProberOf(s, s.probe.inflight.value))
    && (forall i :: 0 <= i < |s.callers| && IsProbing(s.callers[i]) ==> s.probe.inflight == Some(s.callers[i].done))
    && (s.probe.inflight.Some? ==> s.probe.inflight.value < s.nextChan)
  }

  ghost predicate CountsInv(s: State) {
    && |s.answers| == |s.ends|
    && |s.starts| == |s.ends| + (if s.probe.inflight.Some? then 1 else 0)
    && s.probe.checkedAt == (if s.ends == [] then None else Some(s.ends[|s.ends| - 1]))
    && s.probe.available == (s.answers != [] && s.answers[|s.answers| - 1])
    && (forall k :: 0 <= k < |s.starts| ==> s.starts[k] <= s.now)
    && (forall k :: 0 <= k < |s.ends| ==> s.starts[k] <= s.ends[k] <= s.now)
  }

  ghost predicate RecordInv(s: State) {
    CountsInv(s) && forall k :: 0 < k < |s.starts| ==> AfterTheTTL(s, k)
  }

  /** Probe k started at least the TTL after a negative answer of the one before. */
  ghost predicate AfterTheTTL(s: State, k: nat)
    requires |s.answers| == |s.ends|
    requires 0 < k < |s.starts| && k <= |s.ends|
  {
    s.ends[k - 1] + TTL <= s.starts[k] && !s.answers[k - 1]
  }

  ghost predicate AnswersInv(s: State) {
    && (s.probe.available ==> true in s.answers)
    && forall i :: 0 <= i < |s.callers| && (s.callers[i].Closing? || s.callers[i].Returning?) && s.callers[i].answer
                   ==> true in s.answers
  }

  lemma CallerKeepsClosers(s: State, i: nat, s': State)
    requires ClosersInv(s) && InflightInv(s) && CallerStep(s, i, s')
    ensures ClosersInv(s')
  {
    if s.callers[i].Closing? {
      ClosingKeepsClosers(s, i, s');
    } else if s'.nextChan > s.nextChan {
      assert s' == Go(s, i, Probing(s.nextChan)).(probe := s'.probe, nextChan := s.nextChan + 1, starts := s'.starts);
      assert forall k :: 0 <= k < |s.closes| ==> s.closes[k] != s.nextChan;
    } else {
      assert MustClose(s'.callers[i]) ==> MustClose(s.callers[i]) && s'.callers[i].done == s.callers[i].done;
      assert s'.closes == s.closes;
    }
  }

  lemma ClosingKeepsClosers(s: State, i: nat, s': State)
    requires ClosersInv(s) && CallerStep(s, i, s') && s.callers[i].Closing?
    ensures ClosersInv(s')
  {
    var done := s.callers[i].done;
    assert s'.closes == s.closes + [done];
    assert forall k :: 0 <= k < |s.closes| ==> s.closes[k] != done;
    forall j | 0 <= j < |s'.callers| && MustClose(s'.callers[j])
      ensures s'.callers[j].done < s'.nextChan && s'.callers[j].done !in s'.closes
    {
      assert j != i && s'.callers[j] == s.callers[j];
    }
  }

  lemma CallerKeepsOwed(s: State, i: nat, s': State)
    requires OwedInv(s) && InflightInv(s) && CallerStep(s, i, s')
    ensures OwedInv(s')
  {
    forall done: Chan | done < s'.nextChan && done !in s'.closes
      ensures HasCloser(s', done)
    {
      if done < s.nextChan {
        assert s.closes <= s'.closes;
        assert done !in s.closes;
        var j :| 0 <= j < |s.callers| && MustClose(s.callers[j]) && s.callers[j].done == done;
        assert MustClose(s'.callers[j]) && s'.callers[j].done == done;
      } else {
        assert MustClose(s'.callers[i]) && s'.callers[i].done == done;
      }
    }
  }

  lemma CallerKeepsInflight(s: State, i: nat, s': State)
    requires ClosersInv(s) && InflightInv(s) && CallerStep(s, i, s')
    ensures InflightInv(s')
  {
    if s'.probe.inflight.Some? {
      var done := s'.probe.inflight.value;
      if s.probe.inflight.Some? {
        var j :| 0 <= j < |s.callers| && IsProbing(s.callers[j]) && s.callers[j].done == done;
        assert IsProbing(s'.callers[j]) && s'.callers[j].done == done;
      } else {
        assert IsProbing(s'.callers[i]) && s'.callers[i].done == done;
      }
    }
  }

  /** The steps that record something: a probe starts, or its answer is published. */
  ghost predicate SameRecord(s: State, s': State) {
    s'.probe == s.probe && s'.now == s.now && s'.starts == s.starts && s'.ends == s.ends && s'.answers == s.answers
  }

  lemma OthersRecordNothing(s: State, i: nat, s': State)
    requires CallerStep(s, i, s') && !s.callers[i].Probed? && !s'.callers[i].Probing?
    ensures SameRecord(s, s')
  {
  }

  lemma StartKeepsCounts(s: State, i: nat, s': State)
    requires CountsInv(s) && CallerStep(s, i, s') && s'.callers[i].Probing?
    ensures CountsInv(s')
    ensures s'.starts == s.starts + [s.now] && s'.ends == s.ends && s'.answers == s.answers
    ensures s.ends != [] ==> AfterTheTTL(s', |s.ends|)
  {
  }

  lemma EndKeepsCounts(s: State, i: nat, s': State)
    requires InflightInv(s) && CountsInv(s) && CallerStep(s, i, s') && s.callers[i].Probed?
    ensures CountsInv(s')
    ensures s'.starts == s.starts && s.ends <= s'.ends && s.answers <= s'.answers
  {
  }

  lemma CallerKeepsCounts(s: State, i: nat, s': State)
    requires InflightInv(s) && CountsInv(s) && CallerStep(s, i, s')
    ensures CountsInv(s')
    ensures s.starts <= s'.starts && s.ends <= s'.ends && s.answers <= s'.answers
    ensures |s'.starts| > |s.starts| ==>
              s'.starts == s.starts + [s.now] && (s.ends != [] ==> AfterTheTTL(s', |s.ends|))
  {
    if s.callers[i].Probed? {
      EndKeepsCounts(s, i, s');
    } else if s'.callers[i].Probing? {
      StartKeepsCounts(s, i, s');
    } else {
      OthersRecordNothing(s, i, s');
    }
  }

  lemma CallerKeepsRecord(s: State, i: nat, s': State)
    requires InflightInv(s) && RecordInv(s) && CallerStep(s, i, s')
    ensures RecordInv(s')
  {
    CallerKeepsCounts(s, i, s');
    forall k | 0 < k < |s'.starts|
      ensures AfterTheTTL(s', k)
    {
      if k < |s.starts| {
        assert AfterTheTTL(s, k);
      } else {
        assert k == |s.ends|;
      }
    }
  }

  lemma CallerKeepsAnswers(s: State, i: nat, s': State)
    requires AnswersInv(s) && CallerStep(s, i, s')
    ensures AnswersInv(s')
  {
    if true in s.answers {
      assert s.answers <= s'.answers;
      var k :| 0 <= k < |s.answers| && s.answers[k];
      assert s'.answers[k];
    } else if s.callers[i].Probed? {
      assert s'.answers[|s.answers|] == s.callers[i].answer;
    }
  }

  ghost predicate Inv(s: State) {
    ClosersInv(s) && OwedInv(s) && InflightInv(s) && RecordInv(s) && AnswersInv(s)
  }

  lemma TimePasses(s: State, s': State)
    requires Inv(s) && s'.now >= s.now && s' == s.(now := s'.now)
    ensures Inv(s')
  {
    assert forall k: nat :: 0 < k < |s.starts| && AfterTheTTL(s, k) ==> AfterTheTTL(s', k);
    assert forall done :: HasCloser(s, done) ==> HasCloser(s', done);
    assert forall done :: ProberOf(s, done) ==> ProberOf(s', done);
  }

  lemma {:induction false} EveryRunKeepsTheInvariant(states: seq<State>, n: nat)
    requires IsRun(states) && n < |states|
    ensures Inv(states[n])
  {
    if n > 0 {
      EveryRunKeepsTheInvariant(states, n - 1);
      var s, s' := states[n - 1], states[n];
      assert StepAt(states, n);
      if i: nat :| CallerStep(s, i, s') {
        CallerKeepsClosers(s, i, s');
        CallerKeepsOwed(s, i, s');
        CallerKeepsInflight(s, i, s');
        CallerKeepsRecord(s, i, s');
        CallerKeepsAnswers(s, i, s');
      } else {
        TimePasses(s, s');
      }
    }
  }

  // --- What follows ---

  /** A probe is marked as under way exactly while one caller runs it. */
  lemma InflightExactlyWhileOneProbes(states: seq<State>, n: nat)
    requires IsRun(states) && n < |states|
    ensures var s := states[n];
            && (s.probe.inflight.Some? <==> exists i :: 0 <= i < |s.callers| && IsProbing(s.callers[i]))
            && forall i, j :: 0 <= i < j < |s.callers| ==> !(IsProbing(s.callers[i]) && IsProbing(s.callers[j]))
  {
    EveryRunKeepsTheInvariant(states, n);
  }

  /** Every channel is closed exactly once: it has been, once, or one caller is
      still due to close it, and one only. */
  lemma EveryChannelIsClosedOnce(states: seq<State>, n: nat, done: Chan)
    requires IsRun(states) && n < |states| && done < states[n].nextChan
    ensures Distinct(states[n].closes)
    ensures done in states[n].closes <==> !HasCloser(states[n], done)
    ensures forall i, j :: 0 <= i < j < |states[n].callers| && MustClose(states[n].callers[i])
                           && MustClose(states[n].callers[j])
                           ==> states[n].callers[i].done != states[n].callers[j].done
  {
    EveryRunKeepsTheInvariant(states, n);
  }

  /** A caller is never blocked on a channel nobody will close. */
  lemma BlockedCallersAreWoken(states: seq<State>, n: nat, i: nat)
    requires IsRun(states) && n < |states|
    requires i < |states[n].callers| && states[n].callers[i].Blocked?
    ensures states[n].callers[i].done in states[n].closes || HasCloser(states[n], states[n].callers[i].done)
  {
    EveryRunKeepsTheInvariant(states, n);
  }

  /** A positive answer is final. */
  lemma {:induction false} AvailableStaysAvailable(states: seq<State>, m: nat, n: nat)
    requires IsRun(states) && m <= n < |states| && states[m].probe.available
    ensures states[n].probe.available && states[n].starts == states[m].starts
  {
    if m < n {
      AvailableStaysAvailable(states, m, n - 1);
      EveryRunKeepsTheInvariant(states, n - 1);
      var s, s' := states[n - 1], states[n];
      assert StepAt(states, n);
      if i: nat :| CallerStep(s, i, s') {
        AvailableIsKept(s, i, s');
      }
    }
  }

  lemma AvailableIsKept(s: State, i: nat, s': State)
    requires InflightInv(s) && s.probe.available && CallerStep(s, i, s')
    ensures s'.probe.available && s'.starts == s.starts
  {
    assert !IsProbing(s.callers[i]);
  }

  /** A caller is told "available" only after a probe found it so. */
  lemma TrueComesFromAProbe(states: seq<State>, n: nat, i: nat)
    requires IsRun(states) && n < |states|
    requires i < |states[n].callers| && states[n].callers[i] == Returning(true)
    ensures true in states[n].answers
  {
    EveryRunKeepsTheInvariant(states, n);
  }

  /** The next probe starts at least the TTL after the previous one was answered,
      and none starts after a positive answer. */
  lemma ProbesKeepTheirDistance(states: seq<State>, n: nat, k: nat)
    requires IsRun(states) && n < |states| && 0 < k < |states[n].starts|
    ensures k - 1 < |states[n].ends| == |states[n].answers|
    ensures states[n].ends[k - 1] + TTL <= states[n].starts[k]
    ensures !states[n].answers[k - 1]
  {
    EveryRunKeepsTheInvariant(states, n);
    assert AfterTheTTL(states[n], k);
  }

  /** Discovery is rate-bounded: a window of length W sees at most W / TTL + 1
      probes start. */
  lemma ProbesAreRateBounded(states: seq<State>, n: nat, from: nat, length: nat)
    requires IsRun(states) && n < |states|
    ensures Within(states[n].starts, from, length) <= length / TTL + 1
  {
    EveryRunKeepsTheInvariant(states, n);
    forall k | 0 < k < |states[n].starts|
      ensures Apart(states[n].starts, TTL, k)
    {
      assert AfterTheTTL(states[n], k);
    }
    WindowHoldsFew(states[n].starts, TTL, from, length);
  }

  // --- What a caller is told at the lock ---

  /** The last probe answered, and it answered so. */
  ghost predicate LastAnswered(s: State, available: bool) {
    s.answers != [] && Last(s.answers) == available
  }

  /** The last probe ended less than half a minute ago and found nothing. */
  ghost predicate RecentlyMissing(s: State) {
    LastAnswered(s, false) && s.ends != [] && s.now - Last(s.ends) < 30_000_000_000
  }

  /** In every run a caller at the lock is told what the record of probes says: that the
      feature is there once the last probe found it, that it is not for half a minute
      after a probe that did not. It waits while a probe runs, and otherwise starts one. */
  lemma AtTheLock(states: seq<State>, n: nat, i: nat, s': State)
    requires IsRun(states) && n < |states|
    requires CallerStep(states[n], i, s') && states[n].callers[i] == AtLock
    ensures var s, pc := states[n], s'.callers[i];
            && (pc == Returning(true) <==> LastAnswered(s, true))
            && (pc == Returning(false) <==> RecentlyMissing(s))
            && (pc.Blocked? <==> |s.starts| > |s.ends| && !LastAnswered(s, true) && !RecentlyMissing(s))
            && (pc.Blocked? ==> ProberOf(s, pc.done))
            && (pc.Probing? <==> |s.starts| == |s.ends| && !LastAnswered(s, true) && !RecentlyMissing(s))
            && s'.starts == (if pc.Probing? then s.starts + [s.now] else s.starts)
  {
    EveryRunKeepsTheInvariant(states, n);
  }

  /** What a probe found is in the record, dated when it was published. */
  lemma PublishedIsRecorded(states: seq<State>, n: nat, i: nat, s': State)
    requires IsRun(states) && n < |states|
    requires CallerStep(states[n], i, s') && states[n].callers[i].Probed?
    ensures s'.ends == states[n].ends + [states[n].now]
        && s'.answers == states[n].answers + [states[n].callers[i].answer]
    ensures s'.probe.inflight.None? && |s'.starts| == |s'.ends|
  {
    EveryRunKeepsTheInvariant(states, n);
    EndKeepsCounts(states[n], i, s');
  }
}
