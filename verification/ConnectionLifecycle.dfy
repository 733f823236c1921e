/** What every run of the connection operations keeps, whatever API calls fail:
    credentials follow the connections that own them, Secrets of others are left
    alone, and stored values can be read and sent back. */
module ConnectionLifecycle {
  import opened Basics
  import opened Contracts
  import opened ConnectionState

  /** The operations of the server, one after the other, and what others do in between. */
  datatype Op =
    | Create(ns: string, req: Request)
    | Update(ns: string, req: Request)  // req.name is the name of the path
    | Delete(key: Key)
    | Environment

  predicate UserDeclared(s: Store, key: Key) {
    key in s.connections && !s.connections[key].IsManaged()
  }

  /** Others create, change and remove the connections of the release controller
      and the Secrets that do not carry our label, except those a connection of a
      user points at. */
  ghost predicate EnvironmentEffect(s: Store, s': Store) {
    && (forall key :: UserDeclared(s, key) ==> key in s'.connections && s'.connections[key] == s.connections[key])
    && (forall key :: UserDeclared(s', key) ==> UserDeclared(s, key))
    && (forall key :: key in s.secrets && s.secrets[key].managed
                      ==> key in s'.secrets && s'.secrets[key] == s.secrets[key])
    && (forall key :: key in s'.secrets && s'.secrets[key].managed ==> key in s.secrets && s.secrets[key].managed)
    && (forall key :: UserDeclared(s, key) && PointsElsewhere(s.connections[key])
                      && Foreign(s.secrets, ReferredKey(s, key))
                      ==> Foreign(s'.secrets, ReferredKey(s, key)))
  }

  ghost predicate Effect(cfg: Config, op: Op, available: bool, s: Store, s': Store) {
    match op
    case Create(ns, req) => exists r :: CreateEffect(cfg, s, available, ns, req, r, s')
    case Update(ns, req) => exists r :: UpdateEffect(cfg, s, available, ns, req, r, s')
    case Delete(key) => exists r :: DeleteEffect(s, available, key, r, s')
    case Environment => EnvironmentEffect(s, s')
  }

  ghost predicate StepAt(cfg: Config, ops: seq<Op>, available: seq<bool>, states: seq<Store>, i: nat)
    requires |available| == |ops| && |states| == |ops| + 1 && i < |ops|
  {
    Effect(cfg, ops[i], available[i], states[i], states[i + 1])
  }

  /** A run: operation i leads from state i to state i + 1, and the API probe
      answered `available[i]`. */
  ghost predicate IsRun(cfg: Config, ops: seq<Op>, available: seq<bool>, states: seq<Store>) {
    && |available| == |ops| && |states| == |ops| + 1
    && forall i :: 0 <= i < |ops| ==> StepAt(cfg, ops, available, states, i)
  }

  // --- The invariant on owned credentials ---

  predicate Annotated(c: Connection) {
    ANNOTATION_OWNED in c.annotations
  }

  predicate Owns(c: Connection) {
    Annotated(c) && ParseBool(c.annotations[ANNOTATION_OWNED]) == Some(true)
  }

  predicate PointsElsewhere(c: Connection) {
    Annotated(c) && !Owns(c)
  }

  /** The Secret a connection publishes to its consumers. */
  function Published(c: Connection): string {
    StringAt(c.values, SECRET_REF)
  }

  function ReferredKey(s: Store, key: Key): Key
    requires key in s.connections
  {
    Key(key.namespace, Published(s.connections[key]))
  }

  /** The record, if there is one, and the published name agree. Connections without
      it, such as those that predate it, may hold anything. */
  ghost predicate Recorded(key: Key, c: Connection) {
    Annotated(c) ==>
      && IsNamespace(key.namespace)
      && Published(c) != ""
      && Lookup(c.values, SECRET_REF) == Some(Str(Published(c)))
      && Lookup(c.annotations, ANNOTATION_SECRET) == Some(key.namespace + "/" + Published(c))
      && c.annotations[ANNOTATION_OWNED] == BoolText(Owns(c))
  }

  /** Without the record, the naming convention says that the Secret is the server's. */
  predicate OwnsByConvention(key: Key, c: Connection) {
    !Annotated(c) && CredentialsSecretOf(c.annotations, key.name).1
  }

  /** An owning connection publishes the Secret named after it, which exists and is ours. */
  ghost predicate Backed(s: Store, key: Key)
    requires key in s.connections
  {
    Owns(s.connections[key]) ==>
      && Published(s.connections[key]) == key.name + SUFFIX
      && CredentialsKey(key) in s.secrets && s.secrets[CredentialsKey(key)].managed
  }

  ghost predicate OwnedCredentialsHold(s: Store) {
    forall key :: UserDeclared(s, key) ==> Recorded(key, s.connections[key]) && Backed(s, key)
  }

  /** What the record says is what credentialsSecretOf reads. */
  lemma RecordedMeansRead(key: Key, c: Connection)
    requires Recorded(key, c)
    ensures CredentialsSecretOf(c.annotations, key.name) ==
            if Annotated(c) then (Published(c), Owns(c))
            else if OwnsByConvention(key, c) then (key.name + SUFFIX, true)
            else (CredentialsSecretOf(c.annotations, key.name).0, false)
  {
    if Annotated(c) {
      CutUndoesJoin(key.namespace, '/', Published(c));
    }
  }

  lemma WithCredentialsIsRecorded(key: Key, c: Connection, secret: string, owned: bool)
    requires IsNamespace(key.namespace) && secret != ""
    requires exists before :: c.annotations == WithCredentials(before, key.namespace, secret, owned)
    requires Lookup(c.values, SECRET_REF) == Some(Str(secret))
    ensures Recorded(key, c) && Annotated(c) && Owns(c) == owned && Published(c) == secret
  {
    ParseBoolUndoesBoolText(owned);
    assert |ANNOTATION_OWNED| != |ANNOTATION_SECRET|;
  }

  lemma CredentialsKeysDiffer(a: Key, b: Key)
    requires a != b
    ensures CredentialsKey(a) != CredentialsKey(b)
  {
    var ca, cb := CredentialsKey(a).name, CredentialsKey(b).name;
    assert a.name == ca[..|ca| - |SUFFIX|] && b.name == cb[..|cb| - |SUFFIX|];
  }

  function LookupKey<V>(m: map<Key, V>, key: Key): Option<V> {
    if key in m then Some(m[key]) else None
  }

  /** A store that differs at one connection and at that connection's own Secret
      keeps the promise for all the others. */
  lemma OthersKeepTheirCredentials(s: Store, s': Store, key: Key)
    requires OwnedCredentialsHold(s)
    requires forall other :: other != key ==> LookupKey(s.connections, other) == LookupKey(s'.connections, other)
    requires forall k :: k != CredentialsKey(key) ==> LookupKey(s.secrets, k) == LookupKey(s'.secrets, k)
    requires UserDeclared(s', key) ==> Recorded(key, s'.connections[key]) && Backed(s', key)
    ensures OwnedCredentialsHold(s')
  {
    forall other | UserDeclared(s', other)
      ensures Recorded(other, s'.connections[other]) && Backed(s', other)
    {
      if other != key {
        assert LookupKey(s.connections, other) == LookupKey(s'.connections, other);
        assert UserDeclared(s, other);
        CredentialsKeysDiffer(key, other);
        assert LookupKey(s.secrets, CredentialsKey(other)) == LookupKey(s'.secrets, CredentialsKey(other));
      }
    }
  }

  lemma CreatedIsRecorded(cfg: Config, s: Store, ns: string, req: Request)
    requires Acceptable(cfg, s, ns, req, false)
    requires BindingOf(cfg.catalog[req.contract], req).Stored? ==> IsNamespace(ns)
    ensures var c := Created(cfg.catalog[req.contract], ns, req);
            && Recorded(Key(ns, req.name), c)
            && (Owns(c) ==> BindingOf(cfg.catalog[req.contract], req).Stored? && Published(c) == req.name + SUFFIX)
            && (PointsElsewhere(c) ==> BindingOf(cfg.catalog[req.contract], req) == External(Published(c)))
  {
    var d := cfg.catalog[req.contract];
    var c := Created(d, ns, req);
    assert SECRET_REF !in Public(d, req);
    match BindingOf(d, req)
    case Untouched =>
    case Stored => WithCredentialsIsRecorded(Key(ns, req.name), c, req.name + SUFFIX, true);
    case External(secret) => WithCredentialsIsRecorded(Key(ns, req.name), c, secret, false);
  }

  lemma CreateKeepsOwnedCredentials(cfg: Config, s: Store, available: bool, ns: string, req: Request,
                                    r: Result<Connection, ConnectionError>, s': Store)
    requires OwnedCredentialsHold(s) && CreateEffect(cfg, s, available, ns, req, r, s')
    ensures OwnedCredentialsHold(s')
  {
    if r.Ok? {
      CreatedIsRecorded(cfg, s, ns, req);
      CreateLeavesOtherSecrets(cfg.catalog[req.contract], ns, req, s.secrets, s'.secrets);
    } else if s'.secrets != s.secrets {
      CreateLeavesOtherSecrets(cfg.catalog[req.contract], ns, req, s.secrets, s'.secrets);
    }
    OthersKeepTheirCredentials(s, s', Key(ns, req.name));
  }

  lemma CreateLeavesOtherSecrets(d: Descriptor, ns: string, req: Request, before: map<Key, Secret>,
                                 after: map<Key, Secret>)
    requires CreatedSecrets(d, ns, req, before, after) || RefusedSecrets(d, ns, req, before, after)
    ensures forall k :: k != CredentialsKey(Key(ns, req.name)) ==> LookupKey(before, k) == LookupKey(after, k)
  {
  }

  lemma EditedIsRecorded(cfg: Config, s: Store, ns: string, req: Request, existing: Connection)
    requires Acceptable(cfg, s, ns, req, true)
    requires Recorded(Key(ns, req.name), existing)
    requires BindingOf(cfg.catalog[req.contract], req).Stored? ==> IsNamespace(ns)
    ensures var d, c := cfg.catalog[req.contract], Edited(cfg.catalog[req.contract], ns, req, existing);
            && Recorded(Key(ns, req.name), c)
            && (match BindingOf(d, req)
                case Untouched => Annotated(c) == Annotated(existing) && Owns(c) == Owns(existing)
                  && Published(c) == Published(existing)
                case Stored => Owns(c) && Published(c) == req.name + SUFFIX
                case External(secret) => PointsElsewhere(c) && Published(c) == secret)
  {
    var d := cfg.catalog[req.contract];
    var c := Edited(d, ns, req, existing);
    assert SECRET_REF !in Public(d, req);
    match BindingOf(d, req)
    case Untouched =>
    case Stored => WithCredentialsIsRecorded(Key(ns, req.name), c, req.name + SUFFIX, true);
    case External(secret) => WithCredentialsIsRecorded(Key(ns, req.name), c, secret, false);
  }

  /** A connection only ever leaves behind its own Secret. */
  lemma OrphanIsItsOwn(s: Store, key: Key, binding: Binding)
    requires OwnedCredentialsHold(s) && UserDeclared(s, key)
    ensures var orphan := Orphan(s.connections[key], key, binding);
            orphan.Some? ==> orphan.value == CredentialsKey(key)
  {
    RecordedMeansRead(key, s.connections[key]);
  }

  lemma UpdateKeepsOwnedCredentials(cfg: Config, s: Store, available: bool, ns: string, req: Request,
                                    r: Result<Connection, ConnectionError>, s': Store)
    requires OwnedCredentialsHold(s) && UpdateEffect(cfg, s, available, ns, req, r, s')
    ensures OwnedCredentialsHold(s')
  {
    var key := Key(ns, req.name);
    if r.Ok? {
      EditedIsRecorded(cfg, s, ns, req, s.connections[key]);
      OrphanIsItsOwn(s, key, BindingOf(cfg.catalog[req.contract], req));
    }
    OthersKeepTheirCredentials(s, s', key);
  }

  lemma DeleteKeepsOwnedCredentials(s: Store, available: bool, key: Key, r: Result<(), ConnectionError>, s': Store)
    requires OwnedCredentialsHold(s) && DeleteEffect(s, available, key, r, s')
    ensures OwnedCredentialsHold(s')
  {
    if r.Ok? {
      RecordedMeansRead(key, s.connections[key]);
      if PointsElsewhere(s.connections[key]) {
        assert s'.secrets == s.secrets;
      }
      OthersKeepTheirCredentials(s, s', key);
    }
  }

  lemma EffectKeepsOwnedCredentials(cfg: Config, op: Op, available: bool, s: Store, s': Store)
    requires OwnedCredentialsHold(s) && Effect(cfg, op, available, s, s')
    ensures OwnedCredentialsHold(s')
  {
    match op
    case Create(ns, req) =>
      var r :| CreateEffect(cfg, s, available, ns, req, r, s');
      CreateKeepsOwnedCredentials(cfg, s, available, ns, req, r, s');
    case Update(ns, req) =>
      var r :| UpdateEffect(cfg, s, available, ns, req, r, s');
      UpdateKeepsOwnedCredentials(cfg, s, available, ns, req, r, s');
    case Delete(key) =>
      var r :| DeleteEffect(s, available, key, r, s');
      DeleteKeepsOwnedCredentials(s, available, key, r, s');
    case Environment =>
  }

  /** In every state of every run, a connection recorded as owning its credentials
      publishes the Secret named after it, and that Secret exists and is ours: no
      failed update and no rolled-back create strands a live connection. */
  lemma {:induction false} EveryRunKeepsOwnedCredentials(cfg: Config, ops: seq<Op>, available: seq<bool>,
                                                         states: seq<Store>, n: nat)
    requires IsRun(cfg, ops, available, states) && n < |states|
    requires OwnedCredentialsHold(states[0])
    ensures OwnedCredentialsHold(states[n])
  {
    if n > 0 {
      EveryRunKeepsOwnedCredentials(cfg, ops, available, states, n - 1);
      assert StepAt(cfg, ops, available, states, n - 1);
      EffectKeepsOwnedCredentials(cfg, ops[n - 1], available[n - 1], states[n - 1], states[n]);
    }
  }

  /** The connection an operation is about. */
  function Target(op: Op): Key
    requires !op.Environment?
  {
    match op
    case Create(ns, req) => Key(ns, req.name)
    case Update(ns, req) => Key(ns, req.name)
    case Delete(key) => key
  }

  /** An operation touches no connection but its own, and no Secret but the one
      named after that connection. */
  lemma TouchesOnlyItsOwn(cfg: Config, op: Op, available: bool, s: Store, s': Store)
    requires OwnedCredentialsHold(s) && !op.Environment? && Effect(cfg, op, available, s, s')
    ensures forall other :: other != Target(op) ==> LookupKey(s.connections, other) == LookupKey(s'.connections, other)
    ensures forall k :: k != CredentialsKey(Target(op)) ==> LookupKey(s.secrets, k) == LookupKey(s'.secrets, k)
  {
    match op
    case Create(ns, req) =>
      var r :| CreateEffect(cfg, s, available, ns, req, r, s');
    case Update(ns, req) =>
      var r :| UpdateEffect(cfg, s, available, ns, req, r, s');
      if r.Ok? {
        OrphanIsItsOwn(s, Target(op), BindingOf(cfg.catalog[req.contract], req));
      }
    case Delete(key) =>
      var r :| DeleteEffect(s, available, key, r, s');
      if r.Ok? {
        RecordedMeansRead(key, s.connections[key]);
      }
  }

  /** While a connection keeps owning its credentials, no key of them is lost. */
  lemma CredentialsOnlyGrow(cfg: Config, op: Op, available: bool, s: Store, s': Store, key: Key)
    requires OwnedCredentialsHold(s) && Effect(cfg, op, available, s, s')
    requires UserDeclared(s, key) && Owns(s.connections[key])
    requires UserDeclared(s', key) && Owns(s'.connections[key])
    ensures CredentialsKey(key) in s.secrets && CredentialsKey(key) in s'.secrets
    ensures s.secrets[CredentialsKey(key)].data.Keys <= s'.secrets[CredentialsKey(key)].data.Keys
  {
    var k := CredentialsKey(key);
    assert k in s.secrets;
    if op.Environment? {
      assert LookupKey(s.secrets, k) == LookupKey(s'.secrets, k);
    } else if Target(op) != key {
      TouchesOnlyItsOwn(cfg, op, available, s, s');
      CredentialsKeysDiffer(Target(op), key);
      assert LookupKey(s.secrets, k) == LookupKey(s'.secrets, k);
    } else if op.Update? {
      var r :| UpdateEffect(cfg, s, available, op.ns, op.req, r, s');
      if r.Ok? {
        EditedIsRecorded(cfg, s, op.ns, op.req, s.connections[key]);
      }
    }
  }

  // --- Secrets of others ---

  ghost predicate ForeignSecretsKept(s: Store, s': Store) {
    forall k :: Foreign(s.secrets, k) ==> k in s'.secrets && s'.secrets[k] == s.secrets[k]
  }

  /** The operations that may take someone else's Secret away: those that drop what
      the naming convention says, for a connection that carries no record. */
  ghost predicate TrustsTheConvention(cfg: Config, op: Op, available: bool, s: Store) {
    match op
    case Delete(key) =>
      && DeleteRefusal(s, available, key).None?
      && OwnsByConvention(key, s.connections[key])
      && Foreign(s.secrets, CredentialsKey(key))
    case Update(ns, req) =>
      && UpdateRefusal(cfg, s, available, ns, req).None?
      && OwnsByConvention(Key(ns, req.name), s.connections[Key(ns, req.name)])
      && Foreign(s.secrets, CredentialsKey(Key(ns, req.name)))
      && req.existingSecret != "" && req.existingSecret != req.name + SUFFIX
    case _ => false
  }

  lemma RecordedUpdateSparesOthers(cfg: Config, ns: string, req: Request, available: bool, s: Store, s': Store)
    requires OwnedCredentialsHold(s) && Effect(cfg, Update(ns, req), available, s, s')
    requires !TrustsTheConvention(cfg, Update(ns, req), available, s)
    ensures ForeignSecretsKept(s, s')
  {
    var r :| UpdateEffect(cfg, s, available, ns, req, r, s');
    if r.Ok? {
      RecordedMeansRead(Key(ns, req.name), s.connections[Key(ns, req.name)]);
    }
  }

  lemma RecordedConnectionsSpareOthers(cfg: Config, op: Op, available: bool, s: Store, s': Store)
    requires OwnedCredentialsHold(s) && !op.Environment? && Effect(cfg, op, available, s, s')
    requires !TrustsTheConvention(cfg, op, available, s)
    ensures ForeignSecretsKept(s, s')
  {
    match op
    case Create(ns, req) =>
    case Update(ns, req) => RecordedUpdateSparesOthers(cfg, ns, req, available, s, s');
    case Delete(key) =>
      var r :| DeleteEffect(s, available, key, r, s');
      if r.Ok? {
        RecordedMeansRead(key, s.connections[key]);
      }
  }

  /** An operation can lose a Secret this server does not manage exactly when it
      trusts the naming convention for a connection that carries no record. */
  lemma ForeignSecretIsLostExactlyByConvention(cfg: Config, op: Op, available: bool, s: Store)
    requires OwnedCredentialsHold(s) && !op.Environment?
    ensures (exists s' :: Effect(cfg, op, available, s, s') && !ForeignSecretsKept(s, s'))
            <==> TrustsTheConvention(cfg, op, available, s)
  {
    if TrustsTheConvention(cfg, op, available, s) {
      match op
      case Delete(key) =>
        RecordedMeansRead(key, s.connections[key]);
        var s' := Store(s.connections - {key}, s.secrets - {CredentialsKey(key)});
        assert DeleteEffect(s, available, key, Ok(()), s');
        assert Effect(cfg, op, available, s, s') && !ForeignSecretsKept(s, s');
      case Update(ns, req) =>
        var key, d := Key(ns, req.name), cfg.catalog[req.contract];
        RecordedMeansRead(key, s.connections[key]);
        var edited := Edited(d, ns, req, s.connections[key]);
        var s' := Store(s.connections[key := edited], s.secrets - {CredentialsKey(key)});
        assert Orphan(s.connections[key], key, BindingOf(d, req)) == Some(CredentialsKey(key));
        assert UpdateEffect(cfg, s, available, ns, req, Ok(edited), s');
        assert Effect(cfg, op, available, s, s') && !ForeignSecretsKept(s, s');
    } else {
      forall s' | Effect(cfg, op, available, s, s')
        ensures ForeignSecretsKept(s, s')
      {
        RecordedConnectionsSpareOthers(cfg, op, available, s, s');
      }
    }
  }

  /** It does happen: deleting a connection that never had a credential removes
      the Secret of someone else that bears its name, and with it the credentials
      another connection points at. */
  lemma DeletingAnUnrecordedConnectionStrandsAnother(cfg: Config)
    ensures exists s, s', key ::
              && OwnedCredentialsHold(s) && ExternalReferencesHold(s)
              && Effect(cfg, Delete(key), true, s, s')
              && !ExternalReferencesHold(s')
  {
    var bare := Connection("hive", "", "", map[], map[]);
    var pointing := Connection("s3", "", "", WithCredentials(map[], "p", "a" + SUFFIX, false),
      map[SECRET_REF := Str("a" + SUFFIX)]);
    WithCredentialsIsRecorded(Key("p", "b"), pointing, "a" + SUFFIX, false);
    NoRecordMeansTheConvention(bare.annotations, "a");
    assert "a" != "b";
    StrandedByADelete(cfg, Key("p", "a"), Key("p", "b"), bare, pointing);
  }

  /** In a store of two connections, a deleted and b pointing at the Secret that bears
      a's conventional name. */
  lemma StrandedByADelete(cfg: Config, a: Key, b: Key, bare: Connection, pointing: Connection)
    requires a != b && a.namespace == b.namespace && !bare.IsManaged() && !pointing.IsManaged()
    requires OwnsByConvention(a, bare) && Recorded(b, pointing) && PointsElsewhere(pointing)
    requires Published(pointing) == a.name + SUFFIX
    ensures exists s, s', key ::
              && OwnedCredentialsHold(s) && ExternalReferencesHold(s)
              && Effect(cfg, Delete(key), true, s, s')
              && !ExternalReferencesHold(s')
  {
    var s := Store(map[a := bare, b := pointing], map[CredentialsKey(a) := Secret(false, map[], 1)]);
    var s' := Store(s.connections - {a}, s.secrets - {CredentialsKey(a)});
    RecordedMeansRead(a, bare);
    assert OwnedCredentialsHold(s) && ExternalReferencesHold(s);
    assert DeleteEffect(s, true, a, Ok(()), s');
    assert Effect(cfg, Delete(a), true, s, s');
    assert UserDeclared(s', b) && PointsElsewhere(s'.connections[b]);
    assert !ExternalReferencesHold(s');
  }

  /** No operation ever writes into a Secret this server does not manage: it is
      left as it was or, by convention, removed. */
  lemma ForeignSecretIsNeverWritten(cfg: Config, op: Op, available: bool, s: Store, s': Store, k: Key)
    requires !op.Environment? && Effect(cfg, op, available, s, s') && Foreign(s.secrets, k)
    ensures k !in s'.secrets || s'.secrets[k] == s.secrets[k]
  {
    match op
    case Create(ns, req) =>
      var r :| CreateEffect(cfg, s, available, ns, req, r, s');
    case Update(ns, req) =>
      var r :| UpdateEffect(cfg, s, available, ns, req, r, s');
    case Delete(key) =>
  }

  /** The Secrets of others that connections of users point at are still there. */
  ghost predicate ExternalReferencesHold(s: Store) {
    forall key :: UserDeclared(s, key) && PointsElsewhere(s.connections[key])
                  ==> Foreign(s.secrets, ReferredKey(s, key))
  }

  lemma EffectKeepsExternalReferences(cfg: Config, op: Op, available: bool, s: Store, s': Store)
    requires OwnedCredentialsHold(s) && ExternalReferencesHold(s)
    requires Effect(cfg, op, available, s, s') && !TrustsTheConvention(cfg, op, available, s)
    ensures ExternalReferencesHold(s')
  {
    if op.Environment? {
      forall key | UserDeclared(s', key) && PointsElsewhere(s'.connections[key])
        ensures Foreign(s'.secrets, ReferredKey(s', key))
      {
        assert UserDeclared(s, key);
      }
    } else {
      RecordedConnectionsSpareOthers(cfg, op, available, s, s');
      match op
      case Create(ns, req) =>
        var r :| CreateEffect(cfg, s, available, ns, req, r, s');
        if r.Ok? { CreatedIsRecorded(cfg, s, ns, req); }
        KeptReferencesHold(s, s', Key(ns, req.name));
      case Update(ns, req) =>
        var r :| UpdateEffect(cfg, s, available, ns, req, r, s');
        if r.Ok? { EditedIsRecorded(cfg, s, ns, req, s.connections[Key(ns, req.name)]); }
        KeptReferencesHold(s, s', Key(ns, req.name));
      case Delete(key) =>
        KeptReferencesHold(s, s', key);
    }
  }

  lemma KeptReferencesHold(s: Store, s': Store, key: Key)
    requires ExternalReferencesHold(s) && ForeignSecretsKept(s, s')
    requires forall other :: other != key ==> LookupKey(s.connections, other) == LookupKey(s'.connections, other)
    requires UserDeclared(s', key) && PointsElsewhere(s'.connections[key]) ==> Foreign(s.secrets, ReferredKey(s', key))
    ensures ExternalReferencesHold(s')
  {
    forall other | UserDeclared(s', other) && PointsElsewhere(s'.connections[other])
      ensures Foreign(s'.secrets, ReferredKey(s', other))
    {
      if other != key {
        assert LookupKey(s.connections, other) == LookupKey(s'.connections, other);
        assert UserDeclared(s, other);
      }
    }
  }

  lemma RecordedMeansNoConvention(cfg: Config, op: Op, available: bool, s: Store)
    requires forall key :: UserDeclared(s, key) ==> Annotated(s.connections[key])
    ensures !TrustsTheConvention(cfg, op, available, s)
  {
    match op
    case Delete(key) => assert UserDeclared(s, key) ==> Annotated(s.connections[key]);
    case Update(ns, req) => assert UserDeclared(s, Key(ns, req.name)) ==> Annotated(s.connections[Key(ns, req.name)]);
    case _ =>
  }

  /** Over a run in which every connection of a user carries the record, no Secret
      of others is lost to the server and no reference to one dangles. */
  lemma {:induction false} RecordedRunsSpareOthers(cfg: Config, ops: seq<Op>, available: seq<bool>, states: seq<Store>,
                                                   n: nat)
    requires IsRun(cfg, ops, available, states) && n < |states|
    requires OwnedCredentialsHold(states[0]) && ExternalReferencesHold(states[0])
    requires forall i, key :: 0 <= i < |states| && UserDeclared(states[i], key)
                              ==> Annotated(states[i].connections[key])
    ensures ExternalReferencesHold(states[n])
    ensures forall i :: 0 <= i < n && !ops[i].Environment? ==> ForeignSecretsKept(states[i], states[i + 1])
  {
    if n > 0 {
      var s, s', op := states[n - 1], states[n], ops[n - 1];
      assert StepAt(cfg, ops, available, states, n - 1);
      RecordedRunsSpareOthers(cfg, ops, available, states, n - 1);
      EveryRunKeepsOwnedCredentials(cfg, ops, available, states, n - 1);
      RecordedMeansNoConvention(cfg, op, available[n - 1], s);
      EffectKeepsExternalReferences(cfg, op, available[n - 1], s, s');
      if !op.Environment? {
        RecordedConnectionsSpareOthers(cfg, op, available[n - 1], s, s');
      }
    }
  }

  // --- Reading values and sending them back ---

  ghost predicate EditableCatalog(cfg: Config) {
    forall name :: name in cfg.catalog ==> cfg.catalog[name].name == name && Editable(cfg.catalog[name].fields)
  }

  /** Besides SECRET_REF, a connection holds values its contract accepts as they
      are, and none of a secret field. */
  ghost predicate HoldsKeptValues(cfg: Config, c: Connection) {
    && c.contract in cfg.catalog
    && cfg.catalog[c.contract].external
    && Kept(cfg.catalog[c.contract].fields, c.values - {SECRET_REF})
  }

  ghost predicate ValuesAreKept(cfg: Config, s: Store) {
    forall key :: UserDeclared(s, key) ==> HoldsKeptValues(cfg, s.connections[key])
  }

  lemma StoredConnectionIsKept(cfg: Config, s: Store, ns: string, req: Request, isUpdate: bool, c: Connection)
    requires EditableCatalog(cfg) && Acceptable(cfg, s, ns, req, isUpdate)
    requires c.contract == req.contract
    requires c.values - {SECRET_REF} == Public(cfg.catalog[req.contract], req)
    ensures HoldsKeptValues(cfg, c)
  {
    AcceptedValuesAreKept(cfg.catalog[req.contract].fields, req.values, !isUpdate && req.existingSecret == "");
  }

  lemma StoredValues(d: Descriptor, ns: string, req: Request, existing: Connection)
    ensures Created(d, ns, req).values - {SECRET_REF} == Public(d, req)
    ensures Edited(d, ns, req, existing).values - {SECRET_REF} == Public(d, req)
    ensures Created(d, ns, req).contract == Edited(d, ns, req, existing).contract == d.name
  {
    assert SECRET_REF !in Public(d, req);
  }

  lemma EffectKeepsValues(cfg: Config, op: Op, available: bool, s: Store, s': Store)
    requires EditableCatalog(cfg) && ValuesAreKept(cfg, s) && Effect(cfg, op, available, s, s')
    ensures ValuesAreKept(cfg, s')
  {
    forall key | UserDeclared(s', key)
      ensures HoldsKeptValues(cfg, s'.connections[key])
    {
      if UserDeclared(s, key) && s'.connections[key] == s.connections[key] {
        assert HoldsKeptValues(cfg, s.connections[key]);
      } else {
        ChangedConnectionIsKept(cfg, op, available, s, s', key);
      }
    }
  }

  lemma ChangedConnectionIsKept(cfg: Config, op: Op, available: bool, s: Store, s': Store, key: Key)
    requires EditableCatalog(cfg) && Effect(cfg, op, available, s, s')
    requires UserDeclared(s', key) && !(UserDeclared(s, key) && s'.connections[key] == s.connections[key])
    ensures HoldsKeptValues(cfg, s'.connections[key])
  {
    match op
    case Create(ns, req) =>
      var r :| CreateEffect(cfg, s, available, ns, req, r, s');
      StoredValues(cfg.catalog[req.contract], ns, req, r.value);
      StoredConnectionIsKept(cfg, s, ns, req, false, r.value);
    case Update(ns, req) =>
      var r :| UpdateEffect(cfg, s, available, ns, req, r, s');
      StoredValues(cfg.catalog[req.contract], ns, req, s.connections[key]);
      StoredConnectionIsKept(cfg, s, ns, req, true, r.value);
    case Delete(_) =>
      assert false;
    case Environment =>
      assert false;
  }

  /** Every run keeps the stored values fit to be sent back. */
  lemma {:induction false} EveryRunKeepsValues(cfg: Config, ops: seq<Op>, available: seq<bool>, states: seq<Store>,
                                               n: nat)
    requires IsRun(cfg, ops, available, states) && n < |states|
    requires EditableCatalog(cfg) && ValuesAreKept(cfg, states[0])
    ensures ValuesAreKept(cfg, states[n])
  {
    if n > 0 {
      EveryRunKeepsValues(cfg, ops, available, states, n - 1);
      assert StepAt(cfg, ops, available, states, n - 1);
      EffectKeepsValues(cfg, ops[n - 1], available[n - 1], states[n - 1], states[n]);
    }
  }

  /** Sending back what was read of a connection is accepted, API failures aside,
      and leaves the connection, its reference and every Secret as they were. */
  lemma ReadThenEditChangesNothing(cfg: Config, available: bool, s: Store, key: Key,
                                   r: Result<Connection, ConnectionError>, s': Store)
    requires EditableCatalog(cfg) && ValuesAreKept(cfg, s) && available
    requires UserDeclared(s, key) && cfg.isName(key.name)
    requires var c := s.connections[key];
             UpdateEffect(cfg, s, available, key.namespace,
               Request(key.name, c.contract, c.description, c.values, ""), r, s')
    ensures s' == s
    ensures r == Ok(s.connections[key]) || r == Err(Failed)
  {
    SentBackIsTheSame(cfg, s, key);
    assert s.connections[key := s.connections[key]] == s.connections;
  }

  lemma SentBackIsTheSame(cfg: Config, s: Store, key: Key)
    requires EditableCatalog(cfg) && ValuesAreKept(cfg, s)
    requires UserDeclared(s, key) && cfg.isName(key.name)
    ensures var c := s.connections[key];
            var req := Request(key.name, c.contract, c.description, c.values, "");
            && UpdateRefusal(cfg, s, true, key.namespace, req).None?
            && BindingOf(cfg.catalog[c.contract], req) == Untouched
            && Edited(cfg.catalog[c.contract], key.namespace, req, c) == c
  {
    var c := s.connections[key];
    var d := cfg.catalog[c.contract];
    var req := Request(key.name, c.contract, c.description, c.values, "");
    KeptValuesRoundTrip(d.fields, c.values - {SECRET_REF}, c.values);
    assert Public(d, req) == c.values - {SECRET_REF} && Credentials(d, req) == map[];
    assert Edited(d, key.namespace, req, c).values == c.values;
  }

  // --- Credentials stay out of connections, whatever the contracts ---

  ghost predicate LoadedCatalog(cfg: Config) {
    forall name :: name in cfg.catalog ==> cfg.catalog[name].name == name && Loadable(cfg.catalog[name])
  }

  /** A connection holds no value of a secret field of its contract. */
  ghost predicate HoldsNoCredential(cfg: Config, c: Connection) {
    && c.contract in cfg.catalog
    && forall f :: f in cfg.catalog[c.contract].fields && f.secret && f.name != SECRET_REF ==> f.name !in c.values
  }

  ghost predicate CredentialsAreOut(cfg: Config, s: Store) {
    forall key :: UserDeclared(s, key) ==> HoldsNoCredential(cfg, s.connections[key])
  }

  lemma StoredConnectionHoldsNoCredential(cfg: Config, req: Request, c: Connection)
    requires LoadedCatalog(cfg) && req.contract in cfg.catalog && c.contract == req.contract
    requires c.values - {SECRET_REF} == Public(cfg.catalog[req.contract], req)
    ensures HoldsNoCredential(cfg, c)
  {
    var d := cfg.catalog[req.contract];
    forall f | f in d.fields && f.secret && f.name != SECRET_REF
      ensures f.name !in c.values
    {
      var i :| 0 <= i < |d.fields| && d.fields[i] == f;
      UniqueFieldIsFound(d.fields, i);
      assert f.name !in Public(d, req);
      assert f.name in c.values ==> f.name in c.values - {SECRET_REF};
    }
  }

  lemma EffectKeepsCredentialsOut(cfg: Config, op: Op, available: bool, s: Store, s': Store)
    requires LoadedCatalog(cfg) && CredentialsAreOut(cfg, s) && Effect(cfg, op, available, s, s')
    ensures CredentialsAreOut(cfg, s')
  {
    forall key | UserDeclared(s', key) && !(UserDeclared(s, key) && s'.connections[key] == s.connections[key])
      ensures HoldsNoCredential(cfg, s'.connections[key])
    {
      match op
      case Create(ns, req) =>
        var r :| CreateEffect(cfg, s, available, ns, req, r, s');
        StoredValues(cfg.catalog[req.contract], ns, req, r.value);
        StoredConnectionHoldsNoCredential(cfg, req, r.value);
      case Update(ns, req) =>
        var r :| UpdateEffect(cfg, s, available, ns, req, r, s');
        StoredValues(cfg.catalog[req.contract], ns, req, s.connections[key]);
        StoredConnectionHoldsNoCredential(cfg, req, r.value);
      case Delete(_) =>
        assert false;
      case Environment =>
        assert false;
    }
  }

  /** No run stores the value of a secret field in a connection of a user, for any
      contracts that load, whatever their order and their conditions. */
  lemma {:induction false} EveryRunKeepsCredentialsOut(cfg: Config, ops: seq<Op>, available: seq<bool>,
                                                       states: seq<Store>, n: nat)
    requires IsRun(cfg, ops, available, states) && n < |states|
    requires LoadedCatalog(cfg) && CredentialsAreOut(cfg, states[0])
    ensures CredentialsAreOut(cfg, states[n])
  {
    if n > 0 {
      EveryRunKeepsCredentialsOut(cfg, ops, available, states, n - 1);
      assert StepAt(cfg, ops, available, states, n - 1);
      EffectKeepsCredentialsOut(cfg, ops[n - 1], available[n - 1], states[n - 1], states[n]);
    }
  }
}
