/** What the cluster holds of connections and credentials, and how the server
    records on a connection where its credentials live
    (internal/service/connection_service.go, internal/repository/crd). */
module ConnectionState {
  import opened Basics
  import opened Contracts

  const ANNOTATION_SECRET := "okdp.io/credentials-secret"
  const ANNOTATION_OWNED := "okdp.io/credentials-owned"
  const SUFFIX := "-credentials"

  /** Namespace and name; an empty namespace addresses the cluster scope. */
  datatype Key = Key(namespace: string, name: string)

  /** `managed` says whether the Secret carries this server's label; `version`
      is its resourceVersion. */
  datatype Secret = Secret(managed: bool, data: map<string, string>, version: nat)

  datatype Connection = Connection(
    contract: string,
    description: string,
    outputName: string,
    annotations: map<string, string>,
    values: Values
  ) {
    /** Produced by the release controller rather than declared by a user. */
    predicate IsManaged() {
      outputName != ""
    }
  }

  datatype Store = Store(connections: map<Key, Connection>, secrets: map<Key, Secret>)

  datatype ConnectionError = NotFound | AlreadyExists | ForeignSecret | Invalid | Unavailable | Failed

  datatype Request = Request(
    name: string,
    contract: string,
    description: string,
    values: Values,
    existingSecret: string
  )

  /** The contracts by name, and the test a connection name has to pass. */
  datatype Config = Config(catalog: map<string, Descriptor>, isName: string -> bool)

  /** A namespace a Secret can be addressed in: the client refuses the others. */
  predicate IsNamespace(ns: string) {
    ns != "" && '/' !in ns
  }

  /** Where the server puts the credentials of a connection. */
  function CredentialsKey(key: Key): Key {
    Key(key.namespace, key.name + SUFFIX)
  }

  // --- The record of where credentials live ---

  function BoolText(b: bool): string {
    if b then "true" else "false"
  }

  /** The spellings strconv.ParseBool accepts. */
  function ParseBool(text: string): Option<bool> {
    if text in {"1", "t", "T", "TRUE", "true", "True"} then Some(true)
    else if text in {"0", "f", "F", "FALSE", "false", "False"} then Some(false)
    else None
  }

  lemma ParseBoolUndoesBoolText(b: bool)
    ensures ParseBool(BoolText(b)) == Some(b)
  {
    if !b {
      assert |"false"| == 5;
      assert "false" !in {"1", "t", "T", "TRUE", "true", "True"};
    }
  }

  function WithCredentials(annotations: map<string, string>, ns: string, secret: string,
                           owned: bool): map<string, string> {
    annotations[ANNOTATION_SECRET := ns + "/" + secret][ANNOTATION_OWNED := BoolText(owned)]
  }

  function CredentialsOwned(annotations: map<string, string>, connection: string, secret: string): bool {
    if ANNOTATION_OWNED in annotations then ParseBool(annotations[ANNOTATION_OWNED]) == Some(true)
    else secret == connection + SUFFIX
  }

  /** The Secret holding a connection's credentials, and whether this server wrote it. */
  function CredentialsSecretOf(annotations: map<string, string>, connection: string): (string, bool) {
    var cut := if ANNOTATION_SECRET in annotations then Cut(annotations[ANNOTATION_SECRET], '/') else None;
    var secret := if cut.Some? && cut.value.1 != "" then cut.value.1 else connection + SUFFIX;
    (secret, CredentialsOwned(annotations, connection, secret))
  }

  /** What is recorded is what is read back. */
  lemma RecordReadsBack(annotations: map<string, string>, ns: string, connection: string, secret: string, owned: bool)
    requires '/' !in ns && secret != ""
    ensures CredentialsSecretOf(WithCredentials(annotations, ns, secret, owned), connection) == (secret, owned)
  {
    CutUndoesJoin(ns, '/', secret);
    ParseBoolUndoesBoolText(owned);
    assert |ANNOTATION_OWNED| != |ANNOTATION_SECRET|;
  }

  /** Without a record, the naming convention decides: always ours. */
  lemma NoRecordMeansTheConvention(annotations: map<string, string>, connection: string)
    requires ANNOTATION_SECRET !in annotations && ANNOTATION_OWNED !in annotations
    ensures CredentialsSecretOf(annotations, connection) == (connection + SUFFIX, true)
  {
  }

  // --- What a request asks for ---

  /** How a request deals with credentials: none submitted, some to store, or a
      Secret of someone else to point at. */
  datatype Binding = Untouched | Stored | External(secret: string)

  /** The values to validate: normalized, without the key the server adds. */
  function Cleaned(d: Descriptor, req: Request): Values {
    Normalized(d.fields, req.values) - {SECRET_REF}
  }

  function Public(d: Descriptor, req: Request): Values {
    PublicPart(d.fields, Cleaned(d, req))
  }

  function Credentials(d: Descriptor, req: Request): map<string, string> {
    SecretPart(d.fields, Cleaned(d, req))
  }

  function BindingOf(d: Descriptor, req: Request): Binding {
    if req.existingSecret != "" then External(req.existingSecret)
    else if Credentials(d, req) != map[] then Stored
    else Untouched
  }

  /** A Secret someone else owns that carries every credential of the contract. */
  ghost predicate Usable(secrets: map<Key, Secret>, key: Key, d: Descriptor) {
    && IsNamespace(key.namespace)
    && key in secrets && !secrets[key].managed
    && forall i :: 0 <= i < |SecretNames(d.fields)| ==> SecretNames(d.fields)[i] in secrets[key].data
  }

  ghost predicate Acceptable(cfg: Config, s: Store, ns: string, req: Request, isUpdate: bool) {
    && cfg.isName(req.name)
    && req.contract in cfg.catalog
    && var d := cfg.catalog[req.contract];
    && d.external
    && (req.existingSecret != "" ==> Usable(s.secrets, Key(ns, req.existingSecret), d))
    && Accepts(d.fields, Cleaned(d, req), !isUpdate && req.existingSecret == "")
  }

  /** The request submits the text as the credential of that field: the field is asked
      for unconditionally, or shown by the values the contract wants of the request. */
  ghost predicate Submits(d: Descriptor, req: Request, f: Field, text: string) {
    && f in d.fields && f.secret && f.derived.None? && f.name != SECRET_REF
    && Lookup(req.values, f.name) == Some(Str(text)) && text != ""
    && (f.showWhen.None?
        || (WellOrdered(d.fields) && exists out :: Coherent(d.fields, req.values, out) && f.Applies(out)))
  }

  /** Each submitted credential is in the Secret as it was submitted. */
  ghost predicate CredentialsAreIn(d: Descriptor, req: Request, secrets: map<Key, Secret>, key: Key) {
    UniqueNames(d.fields) ==>
      forall f, text :: Submits(d, req, f, text)
                        ==> key in secrets && Lookup(secrets[key].data, f.name) == Some(text)
  }

  /** The connection holds the public values the contract wants of the request, no
      secret field and nothing undeclared, and says what the request says. */
  ghost predicate SaysWhatWasSubmitted(d: Descriptor, req: Request, c: Connection) {
    && c.contract == d.name && c.description == req.description && c.outputName == ""
    && c.values.Keys <= Names(d.fields) + {SECRET_REF}
    && (WellOrdered(d.fields) ==>
          forall out, f :: Coherent(d.fields, req.values, out) && f in d.fields && f.name != SECRET_REF
                           ==> Lookup(c.values, f.name) == if f.secret then None else Lookup(out, f.name))
  }

  lemma SubmittedIsACredential(d: Descriptor, req: Request, f: Field, text: string)
    requires UniqueNames(d.fields) && Submits(d, req, f, text)
    ensures Lookup(Credentials(d, req), f.name) == Some(text)
  {
    var i :| 0 <= i < |d.fields| && d.fields[i] == f;
    UniqueFieldIsFound(d.fields, i);
    SettledAtItsTurn(d.fields, req.values, i);
    if f.showWhen.Some? {
      var out :| Coherent(d.fields, req.values, out) && f.Applies(out);
      NormalizeIsTheCoherentForm(d.fields, req.values, out);
      assert Lookup(out, f.name) == Wanted(f, req.values, out);
    }
    assert Lookup(Normalized(d.fields, req.values), f.name) == Some(Str(text));
  }

  lemma WrittenCredentialsAreIn(d: Descriptor, req: Request, before: map<Key, Secret>, after: map<Key, Secret>,
                                key: Key)
    requires if Credentials(d, req) != map[] then Wrote(before, after, key, Credentials(d, req)) else before == after
    ensures CredentialsAreIn(d, req, after, key)
  {
    if UniqueNames(d.fields) {
      forall f, text | Submits(d, req, f, text)
        ensures key in after && Lookup(after[key].data, f.name) == Some(text)
      {
        SubmittedIsACredential(d, req, f, text);
      }
    }
  }

  lemma PublicFieldIsWanted(d: Descriptor, req: Request, f: Field, out: Values)
    requires WellOrdered(d.fields) && Coherent(d.fields, req.values, out) && f in d.fields && f.name != SECRET_REF
    ensures Lookup(Public(d, req), f.name) == if f.secret then None else Lookup(out, f.name)
  {
    NormalizeIsTheCoherentForm(d.fields, req.values, out);
    var i :| 0 <= i < |d.fields| && d.fields[i] == f;
    UniqueFieldIsFound(d.fields, i);
  }

  lemma StoredSaysWhatWasSubmitted(d: Descriptor, req: Request, c: Connection)
    requires c.contract == d.name && c.description == req.description && c.outputName == ""
    requires c.values - {SECRET_REF} == Public(d, req)
    ensures SaysWhatWasSubmitted(d, req, c)
  {
    forall key | key in c.values && key != SECRET_REF
      ensures key in Names(d.fields)
    {
      assert key in c.values - {SECRET_REF};
    }
    if WellOrdered(d.fields) {
      forall out, f | Coherent(d.fields, req.values, out) && f in d.fields && f.name != SECRET_REF
        ensures Lookup(c.values, f.name) == if f.secret then None else Lookup(out, f.name)
      {
        PublicFieldIsWanted(d, req, f, out);
        assert Lookup(c.values, f.name) == Lookup(c.values - {SECRET_REF}, f.name);
      }
    }
  }

  /** The connection a Create stores. */
  function Created(d: Descriptor, ns: string, req: Request): Connection {
    match BindingOf(d, req)
    case Untouched =>
      Connection(d.name, req.description, "", map[], Public(d, req))
    case Stored =>
      var secret := req.name + SUFFIX;
      Connection(d.name, req.description, "", WithCredentials(map[], ns, secret, true),
                 Public(d, req)[SECRET_REF := Str(secret)])
    case External(secret) =>
      Connection(d.name, req.description, "", WithCredentials(map[], ns, secret, false),
                 Public(d, req)[SECRET_REF := Str(secret)])
  }

  /** The three branches of Create build that connection from the split values. */
  lemma CreatedFromSplitValues(d: Descriptor, ns: string, req: Request, public: Values, secrets: map<string, string>)
    requires public == Public(d, req) && secrets == Credentials(d, req)
    ensures var secret := if req.existingSecret != "" then req.existingSecret else req.name + SUFFIX;
            Created(d, ns, req)
            == if req.existingSecret != "" || secrets != map[]
               then Connection(d.name, req.description, "",
                 WithCredentials(map[], ns, secret, req.existingSecret == ""),
                               public[SECRET_REF := Str(secret)])
               else Connection(d.name, req.description, "", map[], public)
    ensures BindingOf(d, req).Stored? <==> req.existingSecret == "" && secrets != map[]
  {
  }

  /** The connection an Update stores in place of an existing one. */
  function Edited(d: Descriptor, ns: string, req: Request, existing: Connection): Connection {
    var base := existing.(contract := d.name, description := req.description);
    match BindingOf(d, req)
    case Untouched =>
      base.(values := if SECRET_REF in existing.values
                      then Public(d, req)[SECRET_REF := existing.values[SECRET_REF]] else Public(d, req))
    case Stored =>
      var secret := req.name + SUFFIX;
      base.(annotations := WithCredentials(existing.annotations, ns, secret, true),
      values := Public(d, req)[SECRET_REF := Str(secret)])
    case External(secret) =>
      base.(annotations := WithCredentials(existing.annotations, ns, secret, false),
      values := Public(d, req)[SECRET_REF := Str(secret)])
  }

  /** The branches of Update build that connection from the split values. */
  lemma EditedFromSplitValues(d: Descriptor, ns: string, req: Request, existing: Connection,
                              public: Values, secrets: map<string, string>)
    requires public == Public(d, req) && secrets == Credentials(d, req)
    ensures var secret := if req.existingSecret != "" then req.existingSecret else req.name + SUFFIX;
            var base := existing.(contract := d.name, description := req.description);
            Edited(d, ns, req, existing)
            == if req.existingSecret != "" || secrets != map[]
               then base.(annotations := WithCredentials(existing.annotations, ns, secret, req.existingSecret == ""),
                          values := public[SECRET_REF := Str(secret)])
               else if SECRET_REF in existing.values
               then base.(values := public[SECRET_REF := existing.values[SECRET_REF]])
               else base.(values := public)
    ensures BindingOf(d, req).Stored? <==> req.existingSecret == "" && secrets != map[]
    ensures BindingOf(d, req).External? <==> req.existingSecret != ""
  {
  }

  lemma StoredCreateSaysWhatWasSubmitted(d: Descriptor, ns: string, req: Request)
    ensures SaysWhatWasSubmitted(d, req, Created(d, ns, req))
  {
    PublicPartIsDeclared(d, req);
    StoredSaysWhatWasSubmitted(d, req, Created(d, ns, req));
  }

  lemma StoredUpdateSaysWhatWasSubmitted(d: Descriptor, ns: string, req: Request, existing: Connection)
    requires existing.outputName == ""
    ensures SaysWhatWasSubmitted(d, req, Edited(d, ns, req, existing))
  {
    PublicPartIsDeclared(d, req);
    StoredSaysWhatWasSubmitted(d, req, Edited(d, ns, req, existing));
  }

  lemma PublicPartIsDeclared(d: Descriptor, req: Request)
    ensures SECRET_REF !in Public(d, req)
  {
  }

  /** The request needs no Secret, or its namespace is one Secrets can be addressed in. */
  predicate CanReachSecrets(cfg: Config, ns: string, req: Request) {
    || IsNamespace(ns)
    || (req.existingSecret == ""
      && (req.contract in cfg.catalog ==> Credentials(cfg.catalog[req.contract], req) == map[]))
  }

  /** The Secret an Update leaves without a user: one the connection owned and no longer names. */
  function Orphan(existing: Connection, key: Key, binding: Binding): Option<Key> {
    var (previous, owned) := CredentialsSecretOf(existing.annotations, key.name);
    if binding.External? && owned && previous != binding.secret then Some(Key(key.namespace, previous)) else None
  }

  // --- What one operation may do to the store, whatever API calls fail ---

  ghost predicate Foreign(secrets: map<Key, Secret>, key: Key) {
    key in secrets && !secrets[key].managed
  }

  /** `data` was merged into the Secret at `key`, which is ours and was not someone
      else's; nothing else changed. */
  ghost predicate Wrote(before: map<Key, Secret>, after: map<Key, Secret>, key: Key, data: map<string, string>) {
    && IsNamespace(key.namespace)
    && !Foreign(before, key)
    && key in after
    && after[key].managed
    && after[key].data == (if key in before then before[key].data + data else data)
    && after == before[key := after[key]]
  }

  /** The error the rules alone give, when no API call fails. */
  ghost function CreateRefusal(cfg: Config, s: Store, available: bool, ns: string,
                               req: Request): Option<ConnectionError> {
    if !available then Some(Unavailable)
    else if !Acceptable(cfg, s, ns, req, false) then Some(Invalid)
    else if Key(ns, req.name) in s.connections then Some(AlreadyExists)
    else if BindingOf(cfg.catalog[req.contract], req).Stored?
      && Foreign(s.secrets, CredentialsKey(Key(ns, req.name))) then Some(Invalid)
    else None
  }

  /** What a successful Create does to the Secrets. */
  ghost predicate CreatedSecrets(d: Descriptor, ns: string, req: Request, before: map<Key, Secret>,
                                 after: map<Key, Secret>) {
    if BindingOf(d, req).Stored? then Wrote(before, after, CredentialsKey(Key(ns, req.name)), Credentials(d, req))
    else after == before
  }

  /** The credentials were stored and the connection was not: they are rolled back, or
      not if that failed too. */
  ghost predicate RefusedSecrets(d: Descriptor, ns: string, req: Request, before: map<Key, Secret>,
                                 after: map<Key, Secret>) {
    var key := CredentialsKey(Key(ns, req.name));
    && BindingOf(d, req).Stored?
    && (|| Wrote(before, after, key, Credentials(d, req))
        || (!Foreign(before, key) && after == before - {key}))
  }

  /** The Secret is as it was, or gone. */
  ghost predicate NothingLeft(before: map<Key, Secret>, after: map<Key, Secret>, key: Key) {
    after == before || after == before - {key}
  }

  /** After the credentials were written, the rollback leaves them or takes them. */
  lemma RolledBackSecrets(d: Descriptor, ns: string, req: Request, before: map<Key, Secret>,
                          written: map<Key, Secret>, after: map<Key, Secret>)
    requires CreatedSecrets(d, ns, req, before, written)
    requires || after == written
             || (BindingOf(d, req).Stored? && after == written - {CredentialsKey(Key(ns, req.name))})
    ensures after == before || RefusedSecrets(d, ns, req, before, after)
    ensures !BindingOf(d, req).Stored? ==> after == before
    ensures BindingOf(d, req).Stored? && after == written - {CredentialsKey(Key(ns, req.name))}
            ==> NothingLeft(before, after, CredentialsKey(Key(ns, req.name)))
  {
    var key := CredentialsKey(Key(ns, req.name));
    if BindingOf(d, req).Stored? {
      assert written - {key} == before - {key};
    }
  }

  ghost predicate CreateEffect(cfg: Config, s: Store, available: bool, ns: string, req: Request,
                               r: Result<Connection, ConnectionError>, s': Store) {
    var key, refusal := Key(ns, req.name), CreateRefusal(cfg, s, available, ns, req);
    match r
    case Ok(created) =>
      && refusal.None?
      && var d := cfg.catalog[req.contract];
      && created == Created(d, ns, req)
      && s'.connections == s.connections[key := created]
      && CreatedSecrets(d, ns, req, s.secrets, s'.secrets)
    case Err(error) =>
      && (error == Failed || Some(error) == refusal)
      && s'.connections == s.connections
      && (|| s'.secrets == s.secrets
          || (refusal.None? && RefusedSecrets(cfg.catalog[req.contract], ns, req, s.secrets, s'.secrets)))
  }

  ghost function UpdateRefusal(cfg: Config, s: Store, available: bool, ns: string,
                               req: Request): Option<ConnectionError> {
    var key := Key(ns, req.name);
    if !available then Some(Unavailable)
    else if !Acceptable(cfg, s, ns, req, true) then Some(Invalid)
    else if key !in s.connections then Some(NotFound)
    else if s.connections[key].IsManaged() then Some(Invalid)
    else if BindingOf(cfg.catalog[req.contract], req).Stored?
      && Foreign(s.secrets, CredentialsKey(key)) then Some(Invalid)
    else None
  }

  /** What a successful Update of an existing connection may do to the Secrets. */
  ghost predicate EditedSecrets(d: Descriptor, ns: string, req: Request, existing: Connection,
                                before: map<Key, Secret>, after: map<Key, Secret>) {
    var key := Key(ns, req.name);
    match BindingOf(d, req)
    case Untouched => after == before
    case Stored => Wrote(before, after, CredentialsKey(key), Credentials(d, req))
    case External(_) =>
      var orphan := Orphan(existing, key, BindingOf(d, req));
      after == before || (orphan.Some? && after == before - {orphan.value})
  }

  /** `req.name` is the name of the path. */
  ghost predicate UpdateEffect(cfg: Config, s: Store, available: bool, ns: string, req: Request,
                               r: Result<Connection, ConnectionError>, s': Store) {
    var key, refusal := Key(ns, req.name), UpdateRefusal(cfg, s, available, ns, req);
    match r
    case Ok(edited) =>
      && refusal.None?
      && var d, existing := cfg.catalog[req.contract], s.connections[key];
      && edited == Edited(d, ns, req, existing)
      && s'.connections == s.connections[key := edited]
      && EditedSecrets(d, ns, req, existing, s.secrets, s'.secrets)
    case Err(error) =>
      && (error == Failed || Some(error) == refusal)
      && s'.connections == s.connections
      && (|| s'.secrets == s.secrets
          || (&& refusal.None?
              && var d := cfg.catalog[req.contract];
              && BindingOf(d, req).Stored?
              && Wrote(s.secrets, s'.secrets, CredentialsKey(key), Credentials(d, req))))
  }

  ghost function DeleteRefusal(s: Store, available: bool, key: Key): Option<ConnectionError> {
    if !available then Some(Unavailable)
    else if key !in s.connections then Some(NotFound)
    else if s.connections[key].IsManaged() then Some(Invalid)
    else None
  }

  ghost predicate DeleteEffect(s: Store, available: bool, key: Key, r: Result<(), ConnectionError>, s': Store) {
    match r
    case Ok(_) =>
      && DeleteRefusal(s, available, key).None?
      && s'.connections == s.connections - {key}
      && var (secret, owned) := CredentialsSecretOf(s.connections[key].annotations, key.name);
      && (s'.secrets == s.secrets || (owned && s'.secrets == s.secrets - {Key(key.namespace, secret)}))
    case Err(error) =>
      s' == s && (error == Failed || Some(error) == DeleteRefusal(s, available, key))
  }
}
