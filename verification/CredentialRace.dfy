/** Any number of Creates of one connection name at once, each cut where it calls
    the API: name check, Secret read, Secret write, connection create
    (internal/service/connection_service.go, Create;
    internal/repository/connection_repository.go, CreateOrUpdateSecret). */
module CredentialRace {
  import opened Basics
  import opened ConnectionState

  datatype Pc =
    | CheckName
    | ReadSecret
    | WriteSecret(seen: Option<Secret>)  // what was read, and its version with it
    | BindName
    | RollBack  // the connection was refused, and not for its name: the Secret stored for it goes
    | Won
    | Lost

  /** One Create; no data when it has no credential of its own to store. */
  datatype Create = Create(data: map<string, string>, pc: Pc)

  /** The connection of the contended name, by the Create that made it, its
      credentials Secret, and the cluster's revision counter. */
  datatype State = State(winner: Option<nat>, secret: Option<Secret>, revision: nat, creates: seq<Create>)

  function Move(s: State, i: nat, pc: Pc): State
    requires i < |s.creates|
  {
    s.(creates := s.creates[i := s.creates[i].(pc := pc)])
  }

  function Write(s: State, i: nat, data: map<string, string>): State
    requires i < |s.creates|
  {
    Move(s.(secret := Some(Secret(true, data, s.revision + 1)), revision := s.revision + 1), i, BindName)
  }

  /** One call of create i. Every call may fail for no reason. When the connection
      is refused because its name is taken the Secret stays, as it may be the
      winner's; for any other reason it is deleted, without another look at it. */
  ghost predicate CreateStep(s: State, i: nat, s': State) {
    && i < |s.creates|
    && var c := s.creates[i];
    match c.pc
    case CheckName =>
      || s' == Move(s, i, Lost)
      || (s.winner.None? && s' == Move(s, i, if c.data == map[] then BindName else ReadSecret))
    case ReadSecret =>
      || s' == Move(s, i, Lost)
      || (s.secret.None? && s' == Move(s, i, WriteSecret(None)))
      || (s.secret.Some? && s.secret.value.managed && s' == Move(s, i, WriteSecret(s.secret)))
    case WriteSecret(seen) =>
      || s' == Move(s, i, Lost)
      || (seen.None? && s.secret.None? && s' == Write(s, i, c.data))
      || (seen.Some? && s.secret.Some? && s.secret.value.version == seen.value.version
        && s' == Write(s, i, seen.value.data + c.data))
    case BindName =>
      || s' == (if s.winner.Some? then Move(s, i, Lost) else Move(s, i, Won).(winner := Some(i)))
      || s' == Move(s, i, if c.data == map[] then Lost else RollBack)
    case RollBack =>
      || s' == Move(s, i, Lost)
      || s' == Move(s, i, Lost).(secret := None)
    case Won => false
    case Lost => false
  }

  /** Anyone else creating, changing, relabelling or removing the Secret: whatever
      they write has a new version. */
  ghost predicate OutsideStep(s: State, s': State) {
    && s' == s.(secret := s'.secret, revision := s.revision + 1)
    && (s'.secret.Some? ==> s'.secret.value.version == s.revision + 1)
  }

  ghost predicate Initial(s: State) {
    && s.winner.None?
    && (s.secret.Some? ==> s.secret.value.version <= s.revision)
    && forall i :: 0 <= i < |s.creates| ==> s.creates[i].pc == CheckName
  }

  datatype Event = Server(i: nat) | Outside

  ghost predicate Step(s: State, e: Event, s': State) {
    match e
    case Server(i) => CreateStep(s, i, s')
    case Outside => OutsideStep(s, s')
  }

  ghost predicate StepAt(events: seq<Event>, states: seq<State>, n: nat)
    requires n < |events| && |states| == |events| + 1
  {
    Step(states[n], events[n], states[n + 1])
  }

  ghost predicate IsRun(events: seq<Event>, states: seq<State>) {
    && |states| == |events| + 1
    && Initial(states[0])
    && forall n :: 0 <= n < |events| ==> StepAt(events, states, n)
  }

  // --- A Secret of someone else is never written ---

  /** A version names one content: a Create about to write over what it read will
      either find exactly that or be refused. */
  ghost predicate VersionsTell(s: State) {
    && (s.secret.Some? ==> s.secret.value.version <= s.revision)
    && forall i :: 0 <= i < |s.creates| && s.creates[i].pc.WriteSecret? && s.creates[i].pc.seen.Some? ==>
                     var seen := s.creates[i].pc.seen.value;
                     && seen.managed && seen.version <= s.revision
                     && (s.secret.Some? && s.secret.value.version == seen.version ==> s.secret.value == seen)
  }

  lemma StepKeepsVersions(s: State, e: Event, s': State)
    requires VersionsTell(s) && Step(s, e, s')
    ensures VersionsTell(s')
  {
    forall i | 0 <= i < |s'.creates| && s'.creates[i].pc.WriteSecret? && s'.creates[i].pc.seen.Some?
      ensures var seen := s'.creates[i].pc.seen.value;
              && seen.managed && seen.version <= s'.revision
              && (s'.secret.Some? && s'.secret.value.version == seen.version ==> s'.secret.value == seen)
    {
      assert s.creates[i] == s'.creates[i] || e == Server(i);
    }
  }

  lemma {:induction false} RunKeepsVersions(events: seq<Event>, states: seq<State>, n: nat)
    requires IsRun(events, states) && n < |states|
    ensures VersionsTell(states[n])
  {
    if n > 0 {
      RunKeepsVersions(events, states, n - 1);
      assert StepAt(events, states, n - 1);
      StepKeepsVersions(states[n - 1], events[n - 1], states[n]);
    }
  }

  /** Whatever others do to the Secret meanwhile, a Create only ever writes where
      there was none or one of ours, and keeps every key that was there. */
  lemma ForeignSecretIsNeverWritten(events: seq<Event>, states: seq<State>, n: nat)
    requires IsRun(events, states) && n < |events| && events[n].Server?
    requires states[n + 1].secret != states[n].secret && states[n + 1].secret.Some?
    ensures states[n].secret.Some? ==> states[n].secret.value.managed
    ensures states[n + 1].secret.value.managed
    ensures states[n].secret.Some? ==> states[n].secret.value.data.Keys <= states[n + 1].secret.value.data.Keys
  {
    RunKeepsVersions(events, states, n);
    assert StepAt(events, states, n);
  }

  // --- One winner ---

  ghost predicate OneWinner(s: State) {
    && (s.winner.Some? ==> s.winner.value < |s.creates|)
    && (forall i :: 0 <= i < |s.creates| ==> (s.creates[i].pc == Won <==> s.winner == Some(i)))
    && (forall i :: 0 <= i < |s.creates| && s.creates[i].pc == RollBack ==> s.creates[i].data != map[])
  }

  /** A step is one Create's, and leaves what each Create submitted as it is. */
  lemma OthersStandStill(s: State, e: Event, s': State)
    requires Step(s, e, s')
    ensures |s'.creates| == |s.creates|
    ensures forall i :: 0 <= i < |s.creates| ==> s'.creates[i].data == s.creates[i].data
    ensures forall i :: 0 <= i < |s.creates| && e != Server(i) ==> s'.creates[i] == s.creates[i]
  {
    if e.Server? {
      OnlyItsPcMoves(s, e.i, s');
    }
  }

  lemma OnlyItsPcMoves(s: State, i: nat, s': State)
    requires CreateStep(s, i, s')
    ensures |s'.creates| == |s.creates| && s'.creates == s.creates[i := s.creates[i].(pc := s'.creates[i].pc)]
  {
  }

  lemma StepKeepsOneWinner(s: State, e: Event, s': State)
    requires OneWinner(s) && Step(s, e, s')
    ensures OneWinner(s')
  {
    OthersStandStill(s, e, s');
    if e.Server? {
      assert s'.winner == s.winner || (s.winner.None? && s'.winner == Some(e.i));
    }
  }

  /** Under every interleaving at most one Create succeeds. */
  lemma {:induction false} AtMostOneWinner(events: seq<Event>, states: seq<State>, n: nat)
    requires IsRun(events, states) && n < |states|
    ensures OneWinner(states[n])
    ensures |states[n].creates| == |states[0].creates|
    ensures forall i :: 0 <= i < |states[0].creates| ==> states[n].creates[i].data == states[0].creates[i].data
    ensures forall i, j :: 0 <= i < j < |states[n].creates| ==>
                             !(states[n].creates[i].pc == Won && states[n].creates[j].pc == Won)
  {
    if n > 0 {
      AtMostOneWinner(events, states, n - 1);
      assert StepAt(events, states, n - 1);
      OthersStandStill(states[n - 1], events[n - 1], states[n]);
      StepKeepsOneWinner(states[n - 1], events[n - 1], states[n]);
    }
  }

  // --- Its Secret, and the rollback that may take it ---

  /** Others leave the Secrets that carry our label alone. */
  ghost predicate SparesOurs(events: seq<Event>, states: seq<State>)
    requires |states| == |events| + 1
  {
    forall n :: 0 <= n < |events| && events[n].Outside? && states[n].secret.Some? && states[n].secret.value.managed
                ==> states[n + 1].secret == states[n].secret
  }

  ghost predicate Spares(s: State, e: Event, s': State) {
    e.Outside? && s.secret.Some? && s.secret.value.managed ==> s'.secret == s.secret
  }

  /** Create j, refused, deletes the Secret that is there. */
  ghost predicate RollsBack(events: seq<Event>, states: seq<State>, k: int, j: nat)
    requires |states| == |events| + 1
  {
    0 <= k < |events| && events[k] == Server(j) && states[k].secret.Some? && states[k + 1].secret.None?
  }

  ghost predicate HoldsKeys(s: State, data: map<string, string>) {
    s.secret.Some? && s.secret.value.managed && data.Keys <= s.secret.value.data.Keys
  }

  ghost predicate HoldsValues(s: State, data: map<string, string>) {
    HoldsKeys(s, data) && forall key :: key in data ==> s.secret.value.data[key] == data[key]
  }

  /** Nothing but a rollback takes a stored key away. */
  lemma StepKeepsKeys(s: State, e: Event, s': State, data: map<string, string>)
    requires VersionsTell(s) && Step(s, e, s') && Spares(s, e, s') && HoldsKeys(s, data)
    ensures HoldsKeys(s', data) || (e.Server? && s'.secret.None?)
    ensures e.Server? && s'.secret.None? ==> e.i < |s.creates| && s.creates[e.i].pc == RollBack
  {
  }

  lemma {:induction false} KeysAreKeptOrRolledBack(events: seq<Event>, states: seq<State>, m: nat, n: nat,
                                                   data: map<string, string>)
    requires IsRun(events, states) && SparesOurs(events, states) && m <= n < |states|
    requires HoldsKeys(states[m], data)
    ensures HoldsKeys(states[n], data) || exists k, j :: m <= k < n && RollsBack(events, states, k, j)
  {
    if m < n {
      KeysAreKeptOrRolledBack(events, states, m, n - 1, data);
      RunKeepsVersions(events, states, n - 1);
      assert StepAt(events, states, n - 1);
      if HoldsKeys(states[n - 1], data) {
        StepKeepsKeys(states[n - 1], events[n - 1], states[n], data);
        if events[n - 1].Server? && states[n].secret.None? {
          assert RollsBack(events, states, n - 1, events[n - 1].i);
        }
      }
    }
  }

  /** A Create that gave up never succeeds. */
  lemma {:induction false} GivenUpForGood(events: seq<Event>, states: seq<State>, m: nat, n: nat, i: nat)
    requires IsRun(events, states) && m <= n < |states| && i < |states[m].creates|
    requires states[m].creates[i].pc in {RollBack, Lost}
    ensures i < |states[n].creates| && states[n].creates[i].pc in {RollBack, Lost}
  {
    if m < n {
      GivenUpForGood(events, states, m, n - 1, i);
      assert StepAt(events, states, n - 1);
    }
  }

  /** A rollback is the doing of a Create that stored credentials and was refused. */
  lemma RollbackIsOfARefusedCreate(events: seq<Event>, states: seq<State>, k: nat, j: nat)
    requires IsRun(events, states) && RollsBack(events, states, k, j)
    ensures j < |states[k].creates| && states[k].creates[j].pc == RollBack && states[k].creates[j].data != map[]
  {
    AtMostOneWinner(events, states, k);
    assert StepAt(events, states, k);
  }

  /** From the moment create i has stored its credentials to any moment at which it
      is the winner, its Secret is at some time gone or short of a key exactly when
      another Create, one that stored credentials and was refused for something else
      than its name, has deleted it. */
  lemma TheWinnerLosesItsSecretExactlyByARollback(events: seq<Event>, states: seq<State>, i: nat, w: nat, n: nat)
    requires IsRun(events, states) && SparesOurs(events, states)
    requires w < n < |states| && i < |states[0].creates|
    requires |states[0].creates| == |states[w].creates| == |states[w + 1].creates| == |states[n].creates|
    requires events[w] == Server(i) && states[w].creates[i].pc.WriteSecret? && states[w + 1].creates[i].pc == BindName
    requires states[n].creates[i].pc == Won
    ensures (exists k :: w < k <= n && !HoldsKeys(states[k], states[0].creates[i].data))
            <==> exists k, j :: w < k < n && j != i && RollsBack(events, states, k, j)
  {
    var data := states[0].creates[i].data;
    AtMostOneWinner(events, states, w);
    assert StepAt(events, states, w);
    assert HoldsKeys(states[w + 1], data);
    if k :| w < k <= n && !HoldsKeys(states[k], data) {
      KeysAreKeptOrRolledBack(events, states, w + 1, k, data);
      var m, j :| w < m < k && RollsBack(events, states, m, j);
      RollbackIsOfARefusedCreate(events, states, m, j);
      if j == i {
        GivenUpForGood(events, states, m, n, i);
        assert false;
      }
      assert w < m < n && j != i && RollsBack(events, states, m, j);
    }
    if k, j :| w < k < n && j != i && RollsBack(events, states, k, j) {
      assert w < k + 1 <= n && !HoldsKeys(states[k + 1], data);
    }
  }

  /** Each Create that has stored its credentials still has them stored. */
  ghost predicate KeysAreHeld(s: State) {
    forall i :: 0 <= i < |s.creates| && s.creates[i].pc in {BindName, RollBack, Won} && s.creates[i].data != map[]
                ==> HoldsKeys(s, s.creates[i].data)
  }

  lemma StepKeepsKeysHeld(s: State, e: Event, s': State)
    requires VersionsTell(s) && KeysAreHeld(s) && Step(s, e, s') && Spares(s, e, s')
    requires e.Server? && s.secret.Some? ==> s'.secret.Some?
    ensures KeysAreHeld(s')
  {
    OthersStandStill(s, e, s');
    forall i | 0 <= i < |s'.creates| && s'.creates[i].pc in {BindName, RollBack, Won} && s'.creates[i].data != map[]
      ensures HoldsKeys(s', s'.creates[i].data)
    {
      if s.creates[i].pc in {BindName, RollBack, Won} {
        StepKeepsKeys(s, e, s', s.creates[i].data);
      } else {
        WriteHoldsValues(s, i, s');
      }
    }
  }

  /** What a Create writes is there. */
  lemma WriteHoldsValues(s: State, i: nat, s': State)
    requires CreateStep(s, i, s') && s.creates[i].pc !in {BindName, RollBack, Won} && s.creates[i].data != map[]
    requires s'.creates[i].pc in {BindName, RollBack, Won}
    ensures HoldsValues(s', s'.creates[i].data)
  {
  }

  ghost predicate NoRollbacks(events: seq<Event>, states: seq<State>)
    requires |states| == |events| + 1
  {
    forall k, j :: !RollsBack(events, states, k, j)
  }

  lemma NotRolledBack(events: seq<Event>, states: seq<State>, k: nat)
    requires |states| == |events| + 1 && k < |events| && NoRollbacks(events, states)
    ensures events[k].Server? && states[k].secret.Some? ==> states[k + 1].secret.Some?
  {
    assert events[k].Server? ==> !RollsBack(events, states, k, events[k].i);
  }

  /** When no rollback deletes the Secret, as when connections are refused for their
      name alone, it exists, is ours and holds every key the winner submitted, from
      the moment it wins to the end of the run. */
  lemma {:induction false} OneWinnerKeepsItsCredentials(events: seq<Event>, states: seq<State>, n: nat)
    requires IsRun(events, states) && SparesOurs(events, states) && NoRollbacks(events, states) && n < |states|
    ensures OneWinner(states[n]) && KeysAreHeld(states[n])
  {
    AtMostOneWinner(events, states, n);
    if n > 0 {
      OneWinnerKeepsItsCredentials(events, states, n - 1);
      RunKeepsVersions(events, states, n - 1);
      assert StepAt(events, states, n - 1);
      NotRolledBack(events, states, n - 1);
      StepKeepsKeysHeld(states[n - 1], events[n - 1], states[n]);
    }
  }

  /** Without a rollback before it, a Secret of someone else is never deleted. */
  lemma {:induction false} ForeignSecretGoesOnlyAfterARollback(events: seq<Event>, states: seq<State>, k: nat, j: nat)
    requires IsRun(events, states) && SparesOurs(events, states) && RollsBack(events, states, k, j)
    requires !states[k].secret.value.managed
    ensures exists m, i :: 0 <= m < k && RollsBack(events, states, m, i)
  {
    RollbackIsOfARefusedCreate(events, states, k, j);
    var w := StoredBefore(events, states, k, j);
    KeysAreKeptOrRolledBack(events, states, w, k, states[w].creates[j].data);
  }

  /** What a Create past its write has stored was there at some moment before. */
  lemma {:induction false} StoredBefore(events: seq<Event>, states: seq<State>, k: nat, j: nat) returns (w: nat)
    requires IsRun(events, states) && k < |states| && j < |states[k].creates|
    requires states[k].creates[j].pc in {BindName, RollBack, Won} && states[k].creates[j].data != map[]
    ensures w <= k && j < |states[w].creates| && HoldsKeys(states[w], states[w].creates[j].data)
  {
    if k > 0 {
      assert StepAt(events, states, k - 1);
      if states[k - 1].creates[j].pc in {BindName, RollBack, Won} {
        w := StoredBefore(events, states, k - 1, j);
      } else {
        w := k;
      }
    }
  }

  // --- When the winner is safe ---

  /** A run of two creates that others leave in peace. */
  ghost predicate RunOfTwo(a: map<string, string>, b: map<string, string>, events: seq<Event>, states: seq<State>) {
    IsRun(events, states) && SparesOurs(events, states)
      && states[0].creates == [Create(a, CheckName), Create(b, CheckName)]
  }

  ghost predicate WinnerHoldsKeys(s: State) {
    forall i :: 0 <= i < |s.creates| && s.creates[i].pc == Won && s.creates[i].data != map[]
                ==> HoldsKeys(s, s.creates[i].data)
  }

  ghost predicate WinnerHoldsValues(s: State) {
    forall i :: 0 <= i < |s.creates| && s.creates[i].pc == Won && s.creates[i].data != map[]
                ==> HoldsValues(s, s.creates[i].data)
  }

  /** The same value under every key both submit. */
  predicate Agree(a: map<string, string>, b: map<string, string>) {
    forall key :: key in a && key in b ==> a[key] == b[key]
  }

  ghost predicate AllAgree(s: State) {
    forall i, j :: 0 <= i < |s.creates| && 0 <= j < |s.creates| ==> Agree(s.creates[i].data, s.creates[j].data)
  }

  ghost predicate ValuesAreHeld(s: State) {
    forall i :: 0 <= i < |s.creates| && s.creates[i].pc in {BindName, RollBack, Won} && s.creates[i].data != map[]
                ==> HoldsValues(s, s.creates[i].data)
  }

  /** A step that deletes nothing keeps stored values, written over by their like. */
  lemma StepKeepsValues(s: State, e: Event, s': State, data: map<string, string>)
    requires VersionsTell(s) && Step(s, e, s') && Spares(s, e, s') && HoldsValues(s, data)
    requires e.Server? ==> s'.secret.Some? && Agree(data, s.creates[e.i].data)
    ensures HoldsValues(s', data)
  {
    StepKeepsKeys(s, e, s', data);
  }

  lemma StepKeepsValuesHeld(s: State, e: Event, s': State)
    requires VersionsTell(s) && AllAgree(s) && ValuesAreHeld(s) && Step(s, e, s') && Spares(s, e, s')
    requires e.Server? && s.secret.Some? ==> s'.secret.Some?
    ensures ValuesAreHeld(s')
  {
    OthersStandStill(s, e, s');
    forall i | 0 <= i < |s'.creates| && s'.creates[i].pc in {BindName, RollBack, Won} && s'.creates[i].data != map[]
      ensures HoldsValues(s', s'.creates[i].data)
    {
      if s.creates[i].pc in {BindName, RollBack, Won} {
        StepKeepsValues(s, e, s', s.creates[i].data);
      } else {
        WriteHoldsValues(s, i, s');
      }
    }
  }

  lemma AgreementIsKept(events: seq<Event>, states: seq<State>, n: nat)
    requires IsRun(events, states) && n < |states| && AllAgree(states[0])
    ensures AllAgree(states[n])
  {
    AtMostOneWinner(events, states, n);
    forall i, j | 0 <= i < |states[n].creates| && 0 <= j < |states[n].creates|
      ensures Agree(states[n].creates[i].data, states[n].creates[j].data)
    {
      assert Agree(states[0].creates[i].data, states[0].creates[j].data);
    }
  }

  /** Any number of creates that agree on the keys they share keep the winner's
      values, too. */
  lemma {:induction false} AgreeingCreatesKeepTheValues(events: seq<Event>, states: seq<State>, n: nat)
    requires IsRun(events, states) && SparesOurs(events, states) && NoRollbacks(events, states) && n < |states|
    requires AllAgree(states[0])
    ensures ValuesAreHeld(states[n])
  {
    if n > 0 {
      AgreeingCreatesKeepTheValues(events, states, n - 1);
      AgreementIsKept(events, states, n - 1);
      RunKeepsVersions(events, states, n - 1);
      assert StepAt(events, states, n - 1);
      NotRolledBack(events, states, n - 1);
      StepKeepsValuesHeld(states[n - 1], events[n - 1], states[n]);
    }
  }

  /** Two creates, a and b, in which b reads before a binds and writes after. */
  function Overtaken(a: map<string, string>, b: map<string, string>, n: nat): State {
    var stored := Secret(true, a, 1);
    var over := Secret(true, a + b, 2);
    if n == 0 then State(None, None, 0, [Create(a, CheckName), Create(b, CheckName)])
    else if n == 1 then State(None, None, 0, [Create(a, ReadSecret), Create(b, CheckName)])
    else if n == 2 then State(None, None, 0, [Create(a, ReadSecret), Create(b, ReadSecret)])
    else if n == 3 then State(None, None, 0, [Create(a, WriteSecret(None)), Create(b, ReadSecret)])
    else if n == 4 then State(None, Some(stored), 1, [Create(a, BindName), Create(b, ReadSecret)])
    else if n == 5 then State(None, Some(stored), 1, [Create(a, BindName), Create(b, WriteSecret(Some(stored)))])
    else if n == 6 then State(Some(0), Some(stored), 1, [Create(a, Won), Create(b, WriteSecret(Some(stored)))])
    else if n == 7 then State(Some(0), Some(over), 2, [Create(a, Won), Create(b, BindName)])
    else State(Some(0), Some(over), 2, [Create(a, Won), Create(b, Lost)])
  }

  const OVERTAKEN_EVENTS := [Server(0), Server(1), Server(0), Server(0), Server(1), Server(0), Server(1), Server(1)]

  lemma OvertakenStep(a: map<string, string>, b: map<string, string>, n: nat)
    requires a != map[] && b != map[] && n < 8
    ensures Step(Overtaken(a, b, n), OVERTAKEN_EVENTS[n], Overtaken(a, b, n + 1))
  {
    var s, s' := Overtaken(a, b, n), Overtaken(a, b, n + 1);
    assert s'.creates == s.creates[OVERTAKEN_EVENTS[n].i := s'.creates[OVERTAKEN_EVENTS[n].i]];
  }

  /** Whatever two creates with credentials submit, the loser may write its values
      over the winner's before it loses. */
  lemma ALoserMayOverwriteTheWinner(a: map<string, string>, b: map<string, string>) returns (states: seq<State>)
    requires a != map[] && b != map[]
    ensures RunOfTwo(a, b, OVERTAKEN_EVENTS, states) && NoRollbacks(OVERTAKEN_EVENTS, states)
    ensures Last(states).creates == [Create(a, Won), Create(b, Lost)]
    ensures Last(states).secret.Some? && Last(states).secret.value.data == a + b
  {
    states := seq(9, n requires 0 <= n => Overtaken(a, b, n));
    forall n | 0 <= n < 8
      ensures StepAt(OVERTAKEN_EVENTS, states, n)
    {
      OvertakenStep(a, b, n);
    }
  }

  // --- Two of any number ---

  /** Creates of these credentials, none of them begun. */
  function Starting(datas: seq<map<string, string>>): seq<Create> {
    seq(|datas|, i requires 0 <= i < |datas| => Create(datas[i], CheckName))
  }

  /** A run of creates of these credentials that others leave in peace. */
  ghost predicate RunOf(datas: seq<map<string, string>>, events: seq<Event>, states: seq<State>) {
    IsRun(events, states) && SparesOurs(events, states) && states[0].creates == Starting(datas)
  }

  /** Where the first and the second of two creates stand among the others. */
  function Place(k: nat, i: nat, j: nat): nat {
    if k == 0 then i else j
  }

  /** A state of two creates, seen at places i and j among creates that have not begun. */
  function Among(s: State, start: seq<Create>, i: nat, j: nat): State
    requires |s.creates| == 2 && i < j < |start|
  {
    s.(winner := if s.winner.Some? then Some(Place(s.winner.value, i, j)) else None,
    creates := start[i := s.creates[0]][j := s.creates[1]])
  }

  function EventAmong(e: Event, i: nat, j: nat): Event {
    if e.Server? then Server(Place(e.i, i, j)) else e
  }

  /** What two creates do, they do among others as well. */
  lemma StepAmong(s: State, k: nat, s': State, start: seq<Create>, i: nat, j: nat)
    requires |s.creates| == 2 && i < j < |start| && CreateStep(s, k, s')
    ensures |s'.creates| == 2
    ensures CreateStep(Among(s, start, i, j), Place(k, i, j), Among(s', start, i, j))
  {
    OnlyItsPcMoves(s, k, s');
    MoveAmong(s, k, s'.creates[k].pc, start, i, j);
  }

  lemma MoveAmong(s: State, k: nat, pc: Pc, start: seq<Create>, i: nat, j: nat)
    requires |s.creates| == 2 && i < j < |start| && k < 2
    ensures Among(s, start, i, j).creates[Place(k, i, j)] == s.creates[k]
    ensures Among(Move(s, k, pc), start, i, j) == Move(Among(s, start, i, j), Place(k, i, j), pc)
  {
  }

  /** A run of two creates is a run of any number of which two are these. */
  lemma RunAmong(datas: seq<map<string, string>>, i: nat, j: nat, events: seq<Event>, states: seq<State>)
    returns (events': seq<Event>, states': seq<State>)
    requires i < j < |datas| && RunOfTwo(datas[i], datas[j], events, states)
    requires forall n :: 0 <= n < |events| ==> events[n].Server?
    ensures RunOf(datas, events', states') && (NoRollbacks(events, states) ==> NoRollbacks(events', states'))
    ensures |Last(states).creates| == 2 && Last(states') == Among(Last(states), Starting(datas), i, j)
  {
    var start := Starting(datas);
    forall n | 0 <= n < |states|
      ensures |states[n].creates| == 2
    {
      AtMostOneWinner(events, states, n);
    }
    events' := seq(|events|, n requires 0 <= n < |events| => EventAmong(events[n], i, j));
    states' := seq(|states|, n requires 0 <= n < |states| && |states[n].creates| == 2 => Among(states[n], start, i, j));
    assert states'[0].creates == start;
    forall n | 0 <= n < |events'|
      ensures StepAt(events', states', n)
    {
      assert StepAt(events, states, n);
      StepAmong(states[n], events[n].i, states[n + 1], start, i, j);
    }
    if NoRollbacks(events, states) {
      forall n, k
        ensures !RollsBack(events', states', n, k)
      {
        if 0 <= n < |events| {
          NotRolledBack(events, states, n);
        }
      }
    }
  }

  /** The winner's values survive every run, rollbacks aside, exactly when each two of
      the creates agree on the keys they share. */
  lemma ValuesSurviveExactlyWhenCreatesAgree(datas: seq<map<string, string>>)
    ensures (forall events, states :: RunOf(datas, events, states) && NoRollbacks(events, states)
                                      ==> WinnerHoldsValues(Last(states)))
            <==> forall i, j :: 0 <= i < j < |datas| ==> Agree(datas[i], datas[j])
  {
    if i, j :| 0 <= i < j < |datas| && !Agree(datas[i], datas[j]) {
      var events, states := ADisagreementIsLost(datas, i, j);
    } else {
      forall events, states | RunOf(datas, events, states) && NoRollbacks(events, states)
        ensures WinnerHoldsValues(Last(states))
      {
        AllAgreeFromTheStart(datas, states[0]);
        AgreeingCreatesKeepTheValues(events, states, |events|);
      }
    }
  }

  lemma AllAgreeFromTheStart(datas: seq<map<string, string>>, s: State)
    requires s.creates == Starting(datas)
    requires forall i, j :: 0 <= i < j < |datas| ==> Agree(datas[i], datas[j])
    ensures AllAgree(s)
  {
    forall i, j | 0 <= i < |datas| && 0 <= j < |datas|
      ensures Agree(datas[i], datas[j])
    {
      assert i < j ==> Agree(datas[i], datas[j]);
      assert j < i ==> Agree(datas[j], datas[i]);
    }
  }

  lemma ADisagreementIsLost(datas: seq<map<string, string>>, i: nat, j: nat)
    returns (events: seq<Event>, states: seq<State>)
    requires i < j < |datas| && !Agree(datas[i], datas[j])
    ensures RunOf(datas, events, states) && NoRollbacks(events, states) && !WinnerHoldsValues(Last(states))
  {
    var a, b := datas[i], datas[j];
    var key :| key in a && key in b && a[key] != b[key];
    var two := ALoserMayOverwriteTheWinner(a, b);
    events, states := RunAmong(datas, i, j, OVERTAKEN_EVENTS, two);
    assert Last(states).creates[i] == Create(a, Won);
    assert (a + b)[key] != a[key];
  }

  /** A Create that alone submits credentials keeps them. */
  lemma {:induction false} LoneCredentialsAreKept(events: seq<Event>, states: seq<State>, i: nat, n: nat)
    requires IsRun(events, states) && SparesOurs(events, states) && n < |states| && i < |states[0].creates|
    requires forall j :: 0 <= j < |states[0].creates| && j != i ==> states[0].creates[j].data == map[]
    ensures |states[n].creates| == |states[0].creates|
    ensures states[n].creates[i].pc in {BindName, RollBack, Won} && states[n].creates[i].data != map[]
            ==> HoldsKeys(states[n], states[n].creates[i].data)
  {
    AtMostOneWinner(events, states, n);
    if n > 0 {
      LoneCredentialsAreKept(events, states, i, n - 1);
      AtMostOneWinner(events, states, n - 1);
      RunKeepsVersions(events, states, n - 1);
      assert StepAt(events, states, n - 1);
      if states[n - 1].creates[i].pc in {BindName, RollBack, Won} && states[n - 1].creates[i].data != map[] {
        StepKeepsKeys(states[n - 1], events[n - 1], states[n], states[n - 1].creates[i].data);
      }
    }
  }

  /** Two creates, a and b: b stores its credentials over a's, is refused while a
      wins, and rolls back. */
  function Undone(a: map<string, string>, b: map<string, string>, n: nat): State {
    var stored := Secret(true, a, 1);
    var over := Secret(true, a + b, 2);
    if n <= 5 then Overtaken(a, b, n)
    else if n == 6 then State(None, Some(over), 2, [Create(a, BindName), Create(b, BindName)])
    else if n == 7 then State(None, Some(over), 2, [Create(a, BindName), Create(b, RollBack)])
    else if n == 8 then State(Some(0), Some(over), 2, [Create(a, Won), Create(b, RollBack)])
    else State(Some(0), None, 2, [Create(a, Won), Create(b, Lost)])
  }

  const UNDONE_EVENTS := [Server(0), Server(1), Server(0), Server(0), Server(1), Server(1), Server(1), Server(0),
    Server(1)]

  lemma UndoneStep(a: map<string, string>, b: map<string, string>, n: nat)
    requires a != map[] && b != map[] && n < 9
    ensures Step(Undone(a, b, n), UNDONE_EVENTS[n], Undone(a, b, n + 1))
  {
    if n < 5 {
      OvertakenStep(a, b, n);
    } else {
      var s, s' := Undone(a, b, n), Undone(a, b, n + 1);
      assert s'.creates == s.creates[UNDONE_EVENTS[n].i := s'.creates[UNDONE_EVENTS[n].i]];
    }
  }

  /** Whatever two creates with credentials submit, the rollback of the one may take
      the Secret the other has just been bound to. */
  lemma ARollbackMayTakeTheWinnersSecret(a: map<string, string>, b: map<string, string>) returns (states: seq<State>)
    requires a != map[] && b != map[]
    ensures RunOfTwo(a, b, UNDONE_EVENTS, states)
    ensures Last(states).creates == [Create(a, Won), Create(b, Lost)] && Last(states).secret.None?
  {
    states := seq(10, n requires 0 <= n => Undone(a, b, n));
    forall n | 0 <= n < 9
      ensures StepAt(UNDONE_EVENTS, states, n)
    {
      UndoneStep(a, b, n);
    }
  }

  /** The winner's keys survive every run exactly when at most one of the creates submits
      credentials. */
  lemma KeysSurviveExactlyWithoutACompetitor(datas: seq<map<string, string>>)
    ensures (forall events, states :: RunOf(datas, events, states) ==> WinnerHoldsKeys(Last(states)))
            <==> forall i, j :: 0 <= i < j < |datas| ==> datas[i] == map[] || datas[j] == map[]
  {
    if i, j :| 0 <= i < j < |datas| && datas[i] != map[] && datas[j] != map[] {
      var events, states := ACompetitorMayTakeTheSecret(datas, i, j);
    } else {
      forall events, states | RunOf(datas, events, states)
        ensures WinnerHoldsKeys(Last(states))
      {
        WithoutACompetitorKeysSurvive(datas, events, states);
      }
    }
  }

  lemma ACompetitorMayTakeTheSecret(datas: seq<map<string, string>>, i: nat, j: nat)
    returns (events: seq<Event>, states: seq<State>)
    requires i < j < |datas| && datas[i] != map[] && datas[j] != map[]
    ensures RunOf(datas, events, states) && !WinnerHoldsKeys(Last(states))
  {
    var two := ARollbackMayTakeTheWinnersSecret(datas[i], datas[j]);
    events, states := RunAmong(datas, i, j, UNDONE_EVENTS, two);
    assert Last(states).creates[i] == Create(datas[i], Won);
  }

  lemma WithoutACompetitorKeysSurvive(datas: seq<map<string, string>>, events: seq<Event>, states: seq<State>)
    requires RunOf(datas, events, states)
    requires forall i, j :: 0 <= i < j < |datas| ==> datas[i] == map[] || datas[j] == map[]
    ensures WinnerHoldsKeys(Last(states))
  {
    var end := Last(states);
    AtMostOneWinner(events, states, |events|);
    forall i | 0 <= i < |end.creates| && end.creates[i].pc == Won && end.creates[i].data != map[]
      ensures HoldsKeys(end, end.creates[i].data)
    {
      forall j | 0 <= j < |datas| && j != i
        ensures states[0].creates[j].data == map[]
      {
        assert states[0].creates[i] == Create(datas[i], CheckName);
        assert j < i ==> datas[j] == map[];
        assert i < j ==> datas[j] == map[];
      }
      LoneCredentialsAreKept(events, states, i, |events|);
    }
  }
}
