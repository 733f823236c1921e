/** The write paths of connections, call by call, over an API any call of which
    may fail (internal/service/connection_service.go,
    internal/repository/connection_repository.go). Each operation is proved to do
    no more than its effect in ConnectionState allows. */
module ConnectionService {
  import opened Basics
  import opened Contracts
  import opened ConnectionState

  /** The part of the Kubernetes API these paths use. A call that fails changes nothing
      and is counted. */
  class Api {
    var connections: map<Key, Connection>
    var secrets: map<Key, Secret>
    var revision: nat
    ghost var failures: nat

    constructor (connections: map<Key, Connection>, secrets: map<Key, Secret>)
      ensures State() == Store(connections, secrets) && failures == 0
    {
      this.connections, this.secrets, this.revision, this.failures := connections, secrets, 0, 0;
    }

    ghost function State(): Store
      reads this
    {
      Store(connections, secrets)
    }

    method GetConnection(key: Key) returns (r: Result<Connection, ConnectionError>)
      modifies this`failures
      ensures old(failures) <= failures <= old(failures) + 1
      ensures r.Ok? ==> key in connections && r.value == connections[key]
      ensures r.Err? ==> (r.error == Failed && failures > old(failures)) || (r.error == NotFound && key !in connections)
    {
      if * {
        failures := failures + 1;
        return Err(Failed);
      }
      return if key in connections then Ok(connections[key]) else Err(NotFound);
    }

    method CreateConnection(key: Key, connection: Connection) returns (r: Result<(), ConnectionError>)
      modifies this
      ensures old(failures) <= failures <= old(failures) + 1
      ensures secrets == old(secrets)
      ensures r.Ok? ==> key !in old(connections) && connections == old(connections)[key := connection]
      ensures r.Err? ==> connections == old(connections)
      ensures r.Err?
          ==> (r.error == Failed && failures > old(failures)) || (r.error == AlreadyExists && key in connections)
    {
      if * {
        failures := failures + 1;
        return Err(Failed);
      }
      if key in connections {
        return Err(AlreadyExists);
      }
      connections := connections[key := connection];
      return Ok(());
    }

    method PutConnection(key: Key, connection: Connection) returns (r: Result<(), ConnectionError>)
      modifies this
      ensures old(failures) <= failures <= old(failures) + 1
      ensures secrets == old(secrets)
      ensures r.Ok? ==> key in old(connections) && connections == old(connections)[key := connection]
      ensures r.Err? ==> connections == old(connections)
      ensures r.Err? ==> (r.error == Failed && failures > old(failures)) || (r.error == NotFound && key !in connections)
    {
      if * {
        failures := failures + 1;
        return Err(Failed);
      }
      if key !in connections {
        return Err(NotFound);
      }
      connections := connections[key := connection];
      return Ok(());
    }

    method DeleteConnection(key: Key) returns (r: Result<(), ConnectionError>)
      modifies this
      ensures old(failures) <= failures <= old(failures) + 1
      ensures secrets == old(secrets)
      ensures r.Ok? ==> key in old(connections) && connections == old(connections) - {key}
      ensures r.Err? ==> connections == old(connections)
      ensures r.Err? ==> (r.error == Failed && failures > old(failures)) || (r.error == NotFound && key !in connections)
    {
      if * {
        failures := failures + 1;
        return Err(Failed);
      }
      if key !in connections {
        return Err(NotFound);
      }
      connections := connections - {key};
      return Ok(());
    }

    /** A namespace that cannot be addressed is refused without a call. */
    method GetSecret(key: Key) returns (r: Result<Secret, ConnectionError>)
      modifies this`failures
      ensures old(failures) <= failures <= old(failures) + 1
      ensures r.Ok? ==> IsNamespace(key.namespace) && key in secrets && r.value == secrets[key]
      ensures r.Err? ==> || (r.error == Failed && (failures > old(failures) || !IsNamespace(key.namespace)))
                         || (r.error == NotFound && key !in secrets && IsNamespace(key.namespace))
    {
      if !IsNamespace(key.namespace) {
        return Err(Failed);
      }
      if * {
        failures := failures + 1;
        return Err(Failed);
      }
      return if key in secrets then Ok(secrets[key]) else Err(NotFound);
    }

    method CreateSecret(key: Key, data: map<string, string>) returns (r: Result<(), ConnectionError>)
      modifies this
      ensures old(failures) <= failures <= old(failures) + 1
      ensures connections == old(connections)
      ensures r.Ok? ==> key !in old(secrets) && secrets == old(secrets)[key := Secret(true, data, revision)]
      ensures r.Err? ==> secrets == old(secrets)
      ensures r.Err? ==> (r.error == Failed && failures > old(failures)) || (r.error == AlreadyExists && key in secrets)
    {
      if * {
        failures := failures + 1;
        return Err(Failed);
      }
      if key in secrets {
        return Err(AlreadyExists);
      }
      revision := revision + 1;
      secrets := secrets[key := Secret(true, data, revision)];
      return Ok(());
    }

    /** Replaces a Secret provided it still is at the version the caller read. */
    method UpdateSecret(key: Key, data: map<string, string>, version: nat) returns (r: Result<(), ConnectionError>)
      modifies this
      ensures old(failures) <= failures <= old(failures) + 1
      ensures connections == old(connections)
      ensures r.Ok? ==> key in old(secrets) && old(secrets)[key].version == version
      ensures r.Ok? ==> secrets == old(secrets)[key := Secret(true, data, revision)]
      ensures r.Err? ==> secrets == old(secrets) && r.error == Failed
      ensures r.Err? ==> failures > old(failures) || key !in secrets || secrets[key].version != version
    {
      if * {
        failures := failures + 1;
        return Err(Failed);
      }
      if key !in secrets || secrets[key].version != version {
        return Err(Failed);
      }
      revision := revision + 1;
      secrets := secrets[key := Secret(true, data, revision)];
      return Ok(());
    }

    method RemoveSecret(key: Key) returns (r: Result<(), ConnectionError>)
      modifies this
      ensures old(failures) <= failures <= old(failures) + 1
      ensures connections == old(connections)
      ensures r.Ok? ==> key in old(secrets) && secrets == old(secrets) - {key}
      ensures r.Err? ==> secrets == old(secrets)
      ensures r.Err? ==> (r.error == Failed && failures > old(failures)) || (r.error == NotFound && key !in secrets)
    {
      if * {
        failures := failures + 1;
        return Err(Failed);
      }
      if key !in secrets {
        return Err(NotFound);
      }
      secrets := secrets - {key};
      return Ok(());
    }
  }

  class ConnectionRepository {
    const api: Api

    constructor (api: Api)
      ensures this.api == api
    {
      this.api := api;
    }

    /** The keys a Secret carries and whether it is ours; None when there is none. */
    method InspectSecret(key: Key) returns (r: Result<Option<Secret>, ConnectionError>)
      modifies api`failures
      ensures api.failures >= old(api.failures)
      ensures r.Ok? && r.value.Some?
          ==> IsNamespace(key.namespace) && key in api.secrets && r.value.value == api.secrets[key]
      ensures r.Ok? && r.value.None? ==> key !in api.secrets
      ensures r.Err? ==> r.error == Failed && (api.failures > old(api.failures) || !IsNamespace(key.namespace))
    {
      if key.namespace == "" {
        return Err(Failed);
      }
      var got := api.GetSecret(key);
      if got.Err? {
        return if got.error == NotFound then Ok(None) else Err(got.error);
      }
      return Ok(Some(got.value));
    }

    /** Stores credentials in a Secret of ours, merged over those it holds. */
    method CreateOrUpdateSecret(key: Key, data: map<string, string>) returns (r: Result<(), ConnectionError>)
      modifies api
      ensures api.connections == old(api.connections)
      ensures r.Ok? ==> Wrote(old(api.secrets), api.secrets, key, data)
      ensures r.Err? ==> api.secrets == old(api.secrets)
      ensures api.failures >= old(api.failures)
      ensures r.Err? ==> || (r.error == Failed && (api.failures > old(api.failures) || !IsNamespace(key.namespace)))
                         || (r.error == ForeignSecret && Foreign(api.secrets, key))
    {
      if key.namespace == "" {
        return Err(Failed);
      }
      var got := api.GetSecret(key);
      if got.Err? {
        if got.error == NotFound {
          r := api.CreateSecret(key, data);
          return if r.Err? then Err(Failed) else r;
        }
        return Err(got.error);
      }
      var existing := got.value;
      if !existing.managed {
        return Err(ForeignSecret);
      }
      var merged: map<string, string> := map[];
      var keys := existing.data.Keys;
      while keys != {}
        invariant keys <= existing.data.Keys
        invariant merged == map k | k in existing.data && k !in keys :: existing.data[k]
        decreases keys
      {
        var k :| k in keys;
        keys := keys - {k};
        merged := merged[k := existing.data[k]];
      }
      assert merged == existing.data;
      keys := data.Keys;
      while keys != {}
        invariant keys <= data.Keys
        invariant merged == existing.data + (map k | k in data && k !in keys :: data[k])
        decreases keys
      {
        var k :| k in keys;
        keys := keys - {k};
        merged := merged[k := data[k]];
      }
      assert merged == existing.data + data;
      r := api.UpdateSecret(key, merged, existing.version);
    }

    method DeleteSecret(key: Key) returns (r: Result<(), ConnectionError>)
      modifies api
      ensures api.connections == old(api.connections)
      ensures api.failures >= old(api.failures)
      ensures r.Ok? ==> api.secrets == old(api.secrets) - {key}
      ensures r.Err? ==> api.secrets == old(api.secrets) && api.failures > old(api.failures)
    {
      r := api.RemoveSecret(key);
      if r.Err? && r.error == NotFound {
        return Ok(());
      }
    }

    /** The version to write over is read again just before writing. */
    method Update(key: Key, connection: Connection) returns (r: Result<(), ConnectionError>)
      modifies api
      ensures api.secrets == old(api.secrets)
      ensures r.Ok? ==> key in old(api.connections) && api.connections == old(api.connections)[key := connection]
      ensures api.failures >= old(api.failures)
      ensures r.Err? ==> api.connections == old(api.connections)
      ensures r.Err? ==> || (r.error == Failed && api.failures > old(api.failures))
                         || (r.error == NotFound && key !in api.connections)
    {
      var existing := api.GetConnection(key);
      if existing.Err? {
        return Err(existing.error);
      }
      r := api.PutConnection(key, connection);
    }
  }

  class ConnectionService {
    const repo: ConnectionRepository
    const cfg: Config

    constructor (repo: ConnectionRepository, cfg: Config)
      ensures this.repo == repo && this.cfg == cfg
    {
      this.repo, this.cfg := repo, cfg;
    }

    /** Refuses a Secret that is absent, ours, or lacks a credential of the contract. */
    method CheckExistingSecret(key: Key, d: Descriptor) returns (r: Result<(), ConnectionError>)
      modifies repo.api`failures
      ensures repo.api.failures >= old(repo.api.failures)
      ensures r.Ok? ==> Usable(repo.api.secrets, key, d)
      ensures r.Err?
          ==> || (r.error == Failed && (repo.api.failures > old(repo.api.failures) || !IsNamespace(key.namespace)))
                         || (r.error == Invalid && !Usable(repo.api.secrets, key, d))
    {
      var inspected := repo.InspectSecret(key);
      if inspected.Err? {
        return Err(Failed);
      }
      if inspected.value.None? || inspected.value.value.managed {
        return Err(Invalid);
      }
      var required := SecretFields(d.fields);
      var missing: seq<string> := [];
      for i := 0 to |required|
        invariant missing == [] <==> forall j :: 0 <= j < i ==> required[j] in inspected.value.value.data
      {
        if required[i] !in inspected.value.value.data {
          missing := missing + [required[i]];
        }
      }
      if missing != [] {
        return Err(Invalid);
      }
      return Ok(());
    }

    method ValidateRequest(available: bool, ns: string, req: Request, isUpdate: bool)
      returns (r: Result<(Descriptor, Values), ConnectionError>)
      modifies repo.api`failures
      ensures repo.api.failures >= old(repo.api.failures)
      ensures r.Ok? ==> available && Acceptable(cfg, repo.api.State(), ns, req, isUpdate)
      ensures r.Ok? ==> r.value == (cfg.catalog[req.contract], Cleaned(cfg.catalog[req.contract], req))
      ensures r.Err? ==>
                || (r.error == Failed
                  && (repo.api.failures > old(repo.api.failures) || (!IsNamespace(ns) && req.existingSecret != "")))
                || (r.error == Unavailable && !available)
                || (r.error == Invalid && available && !Acceptable(cfg, repo.api.State(), ns, req, isUpdate))
    {
      if !available {
        return Err(Unavailable);
      }
      if !cfg.isName(req.name) || req.contract !in cfg.catalog || !cfg.catalog[req.contract].external {
        return Err(Invalid);
      }
      var d := cfg.catalog[req.contract];
      var values := Normalize(d.fields, req.values);
      values := values - {SECRET_REF};
      var requireSecrets := !isUpdate;
      if req.existingSecret != "" {
        requireSecrets := false;
        var checked := CheckExistingSecret(Key(ns, req.existingSecret), d);
        if checked.Err? {
          return Err(checked.error);
        }
      }
      var problem := Validate(d.fields, values, requireSecrets);
      if problem.Some? {
        return Err(Invalid);
      }
      return Ok((d, values));
    }

    /** The last call of a Create. A refused connection takes the credentials
        stored for it along, unless a concurrent create has just bound them. */
    method StoreConnection(key: Key, connection: Connection, stored: Option<Key>)
      returns (r: Result<(), ConnectionError>)
      modifies repo.api
      ensures r.Ok?
          ==> key !in old(repo.api.connections) && repo.api.connections == old(repo.api.connections)[key := connection]
      ensures r.Ok? ==> repo.api.secrets == old(repo.api.secrets)
      ensures r.Err? ==> repo.api.connections == old(repo.api.connections)
      ensures r.Err? ==> || repo.api.secrets == old(repo.api.secrets)
                         || (stored.Some? && r.error != AlreadyExists
                           && repo.api.secrets == old(repo.api.secrets) - {stored.value})
      ensures repo.api.failures >= old(repo.api.failures)
      ensures r.Err? && r.error != AlreadyExists && stored.Some? && repo.api.failures <= old(repo.api.failures) + 1
              ==> repo.api.secrets == old(repo.api.secrets) - {stored.value}
      ensures r.Err? ==> || (r.error == Failed && repo.api.failures > old(repo.api.failures))
                         || (r.error == AlreadyExists && key in repo.api.connections)
    {
      r := repo.api.CreateConnection(key, connection);
      if r.Err? && stored.Some? && r.error != AlreadyExists {
        var _ := repo.DeleteSecret(stored.value);
      }
    }

    /** Whatever calls fail, no more than the effect. When none fails, a create is refused
        exactly on the grounds for it and then leaves everything as it was. When one fails
        and the create with it, no credential it stored is left behind. */
    method Create(available: bool, ns: string, req: Request) returns (r: Result<Connection, ConnectionError>)
      modifies repo.api
      ensures CreateEffect(cfg, old(repo.api.State()), available, ns, req, r, repo.api.State())
      ensures repo.api.failures >= old(repo.api.failures)
      ensures repo.api.failures == old(repo.api.failures) && CanReachSecrets(cfg, ns, req) ==>
                var refusal := CreateRefusal(cfg, old(repo.api.State()), available, ns, req);
                && (r.Ok? <==> refusal.None?)
                && (r.Err? ==> Some(r.error) == refusal)
      ensures repo.api.failures == old(repo.api.failures) && r.Err? ==> repo.api.State() == old(repo.api.State())
      ensures r.Err? && repo.api.failures <= old(repo.api.failures) + 1
              ==> NothingLeft(old(repo.api.secrets), repo.api.secrets, CredentialsKey(Key(ns, req.name)))
      ensures r.Ok? ==> req.contract in cfg.catalog && SaysWhatWasSubmitted(cfg.catalog[req.contract], req, r.value)
      ensures r.Ok? && req.existingSecret == "" ==>
                CredentialsAreIn(cfg.catalog[req.contract], req, repo.api.secrets, CredentialsKey(Key(ns, req.name)))
    {
      var validated := ValidateRequest(available, ns, req, false);
      if validated.Err? {
        return Err(validated.error);
      }
      // The name has to be free before anything is written.
      var taken := repo.api.GetConnection(Key(ns, req.name));
      if taken.Ok? {
        return Err(AlreadyExists);
      }
      if taken.error != NotFound {
        return Err(taken.error);
      }
      ghost var before := repo.api.secrets;
      r := CreateUnderFreeName(ns, req, validated.value.0, validated.value.1);
      if r.Ok? {
        StoredCreateSaysWhatWasSubmitted(cfg.catalog[req.contract], ns, req);
        if req.existingSecret == "" {
          WrittenCredentialsAreIn(cfg.catalog[req.contract], req, before, repo.api.secrets,
            CredentialsKey(Key(ns, req.name)));
        }
      }
    }

    /** The writing half of Create. */
    method CreateUnderFreeName(ns: string, req: Request, d: Descriptor, values: Values)
      returns (r: Result<Connection, ConnectionError>)
      requires values == Cleaned(d, req) && Key(ns, req.name) !in repo.api.connections
      modifies repo.api
      ensures repo.api.failures >= old(repo.api.failures)
      ensures r.Ok? ==> r.value == Created(d, ns, req)
      ensures r.Ok? ==> repo.api.connections == old(repo.api.connections)[Key(ns, req.name) := r.value]
      ensures r.Ok? ==> CreatedSecrets(d, ns, req, old(repo.api.secrets), repo.api.secrets)
      ensures r.Err? ==> repo.api.connections == old(repo.api.connections)
      ensures r.Err? ==> || repo.api.secrets == old(repo.api.secrets)
                         || (repo.api.failures > old(repo.api.failures)
                           && RefusedSecrets(d, ns, req, old(repo.api.secrets), repo.api.secrets))
      ensures r.Err? && repo.api.failures <= old(repo.api.failures) + 1
              ==> NothingLeft(old(repo.api.secrets), repo.api.secrets, CredentialsKey(Key(ns, req.name)))
      ensures r.Err? ==> || (r.error == Failed && repo.api.failures > old(repo.api.failures))
                         || (r.error == Failed && !IsNamespace(ns) && BindingOf(d, req).Stored?)
                         || (&& r.error == Invalid && repo.api.secrets == old(repo.api.secrets)
                             && BindingOf(d, req).Stored?
                             && Foreign(repo.api.secrets, CredentialsKey(Key(ns, req.name))))
    {
      var public, secrets := SplitValues(d.fields, values);
      CreatedFromSplitValues(d, ns, req, public, secrets);
      var secretName := req.name + SUFFIX;
      var ownSecret := req.existingSecret == "";
      if !ownSecret {
        secretName := req.existingSecret;
        secrets := map[];
        public := public[SECRET_REF := Str(secretName)];
      } else if secrets != map[] {
        var stored := repo.CreateOrUpdateSecret(Key(ns, secretName), secrets);
        if stored.Err? {
          return Err(if stored.error == ForeignSecret then Invalid else stored.error);
        }
        public := public[SECRET_REF := Str(secretName)];
      }

      var annotations: map<string, string> := map[];
      if secrets != map[] || !ownSecret {
        annotations := WithCredentials(map[], ns, secretName, ownSecret);
      }
      var connection := Connection(d.name, req.description, "", annotations, public);
      assert connection == Created(d, ns, req);

      ghost var written := repo.api.secrets;
      var stored := StoreConnection(Key(ns, req.name), connection,
                                    if ownSecret && secrets != map[] then Some(Key(ns, secretName)) else None);
      if stored.Err? {
        RolledBackSecrets(d, ns, req, old(repo.api.secrets), written, repo.api.secrets);
        return Err(stored.error);
      }
      return Ok(connection);
    }

    /** Whatever calls fail, no more than the effect. When none fails, an update is refused
        exactly on the grounds for it and then leaves everything as it was, and the Secret
        the connection owned and moved off is gone. */
    method Update(available: bool, ns: string, name: string, request: Request)
      returns (r: Result<Connection, ConnectionError>)
      modifies repo.api
      ensures UpdateEffect(cfg, old(repo.api.State()), available, ns, request.(name := name), r, repo.api.State())
      ensures repo.api.failures >= old(repo.api.failures)
      ensures repo.api.failures == old(repo.api.failures) && CanReachSecrets(cfg, ns, request) ==>
                var refusal := UpdateRefusal(cfg, old(repo.api.State()), available, ns, request.(name := name));
                && (r.Ok? <==> refusal.None?)
                && (r.Err? ==> Some(r.error) == refusal)
      ensures repo.api.failures == old(repo.api.failures) && r.Err? ==> repo.api.State() == old(repo.api.State())
      ensures repo.api.failures == old(repo.api.failures) && r.Ok? && request.existingSecret != "" ==>
                && Key(ns, name) in old(repo.api.connections)
                && var (secret, owned) := CredentialsSecretOf(old(repo.api.connections)[Key(ns, name)].annotations,
                  name);
                owned && secret != request.existingSecret ==> Key(ns, secret) !in repo.api.secrets
      ensures r.Ok? ==> request.contract in cfg.catalog
                        && SaysWhatWasSubmitted(cfg.catalog[request.contract], request.(name := name), r.value)
      ensures r.Ok? && request.existingSecret == "" ==>
                CredentialsAreIn(cfg.catalog[request.contract], request.(name := name), repo.api.secrets,
                                 CredentialsKey(Key(ns, name)))
    {
      var req := request.(name := name);
      var validated := ValidateRequest(available, ns, req, true);
      if validated.Err? {
        return Err(validated.error);
      }
      var (d, values) := validated.value;
      var got := repo.api.GetConnection(Key(ns, name));
      if got.Err? {
        return Err(got.error);
      }
      if got.value.IsManaged() {
        return Err(Invalid);
      }
      r := UpdateExisting(ns, req, d, values, got.value);
      if r.Ok? {
        StoredUpdateSaysWhatWasSubmitted(d, ns, req, got.value);
      }
    }

    /** The writing half of Update. */
    method UpdateExisting(ns: string, req: Request, d: Descriptor, values: Values, stored: Connection)
      returns (r: Result<Connection, ConnectionError>)
      requires values == Cleaned(d, req)
      requires Key(ns, req.name) in repo.api.connections && repo.api.connections[Key(ns, req.name)] == stored
      modifies repo.api
      ensures repo.api.failures >= old(repo.api.failures)
      ensures r.Ok? ==> r.value == Edited(d, ns, req, stored)
      ensures r.Ok? ==> repo.api.connections == old(repo.api.connections)[Key(ns, req.name) := r.value]
      ensures r.Ok? ==> EditedSecrets(d, ns, req, stored, old(repo.api.secrets), repo.api.secrets)
      ensures r.Ok? && req.existingSecret == ""
          ==> CredentialsAreIn(d, req, repo.api.secrets, CredentialsKey(Key(ns, req.name)))
      ensures r.Ok? && repo.api.failures == old(repo.api.failures) ==>
                var orphan := Orphan(stored, Key(ns, req.name), BindingOf(d, req));
                orphan.Some? ==> orphan.value !in repo.api.secrets
      ensures r.Err? ==> repo.api.connections == old(repo.api.connections)
      ensures r.Err? ==> || repo.api.secrets == old(repo.api.secrets)
                         || (&& repo.api.failures > old(repo.api.failures) && BindingOf(d, req).Stored?
                             && Wrote(old(repo.api.secrets), repo.api.secrets, CredentialsKey(Key(ns, req.name)),
                                      Credentials(d, req)))
      ensures r.Err? ==> || (r.error == Failed && repo.api.failures > old(repo.api.failures))
                         || (r.error == Failed && !IsNamespace(ns) && BindingOf(d, req).Stored?)
                         || (&& r.error == Invalid && BindingOf(d, req).Stored?
                             && Foreign(repo.api.secrets, CredentialsKey(Key(ns, req.name))))
    {
      var name, key := req.name, Key(ns, req.name);
      var existing := stored;
      var public, secrets := SplitValues(d.fields, values);
      EditedFromSplitValues(d, ns, req, stored, public, secrets);
      var orphaned: Option<Key> := None;
      if req.existingSecret != "" {
        var (previous, owned) := CredentialsSecretOf(existing.annotations, name);
        if owned && previous != req.existingSecret {
          orphaned := Some(Key(ns, previous));
        }
        public := public[SECRET_REF := Str(req.existingSecret)];
        existing := existing.(annotations := WithCredentials(existing.annotations, ns, req.existingSecret, false));
      } else if secrets != map[] {
        var written := repo.CreateOrUpdateSecret(Key(ns, name + SUFFIX), secrets);
        if written.Err? {
          return Err(if written.error == ForeignSecret then Invalid else written.error);
        }
        public := public[SECRET_REF := Str(name + SUFFIX)];
        existing := existing.(annotations := WithCredentials(existing.annotations, ns, name + SUFFIX, true));
      } else if SECRET_REF in existing.values {
        public := public[SECRET_REF := existing.values[SECRET_REF]];
      }
      existing := existing.(contract := d.name, description := req.description, values := public);

      var updated := repo.Update(key, existing);
      if updated.Err? {
        return Err(updated.error);
      }
      if req.existingSecret == "" {
        WrittenCredentialsAreIn(d, req, old(repo.api.secrets), repo.api.secrets, CredentialsKey(key));
      }
      // Only now that the new reference is stored may the old Secret go.
      if orphaned.Some? {
        var _ := repo.DeleteSecret(orphaned.value);
      }
      return Ok(existing);
    }

    /** Whatever calls fail, no more than the effect. When none fails, a delete is refused
        exactly on the grounds for it, and takes the Secret the connection owned along. */
    method Delete(available: bool, ns: string, name: string) returns (r: Result<(), ConnectionError>)
      modifies repo.api
      ensures DeleteEffect(old(repo.api.State()), available, Key(ns, name), r, repo.api.State())
      ensures repo.api.failures >= old(repo.api.failures)
      ensures repo.api.failures == old(repo.api.failures) ==>
                var refusal := DeleteRefusal(old(repo.api.State()), available, Key(ns, name));
                && (r.Ok? <==> refusal.None?)
                && (r.Err? ==> Some(r.error) == refusal)
      ensures repo.api.failures == old(repo.api.failures) && r.Ok? ==>
                && Key(ns, name) in old(repo.api.connections)
                && var (secret, owned) := CredentialsSecretOf(old(repo.api.connections)[Key(ns, name)].annotations,
                  name);
                && (owned ==> Key(ns, secret) !in repo.api.secrets)
                && (!owned ==> repo.api.secrets == old(repo.api.secrets))
    {
      if !available {
        return Err(Unavailable);
      }
      var key := Key(ns, name);
      var got := repo.api.GetConnection(key);
      if got.Err? {
        return Err(got.error);
      }
      if got.value.IsManaged() {
        return Err(Invalid);
      }
      var deleted := repo.api.DeleteConnection(key);
      if deleted.Err? {
        return Err(deleted.error);
      }
      var (secretName, owned) := CredentialsSecretOf(got.value.annotations, name);
      if !owned {
        return Ok(());
      }
      var _ := repo.DeleteSecret(Key(ns, secretName));
      return Ok(());
    }
  }
}
