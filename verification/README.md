# Verification model of the OKDP server's protocols

The server keeps its state in a Kubernetes cluster and changes it through small
sequences of API calls: get, check, write, roll back. This project models the parts
of it where that is hard to get right and proves, for every input, every run and
every interleaving the parts allow, what they keep.

| module | part of the server |
|---|---|
| `Contracts`, `BuiltinContracts` | contract descriptors: loading, normalizing and validating submitted values, splitting credentials off |
| `ConnectionState`, `ConnectionService`, `ConnectionLifecycle` | connections and their credentials Secrets: the write paths call by call, the effects they may have, and what every run of them keeps |
| `CredentialRace` | any number of concurrent creates of one connection name |
| `ApiProbe`, `ContextCache`, `PackageCache`, `Spacing` | the three caches shared by goroutines, and the arithmetic of their rate bounds |
| `Catalog`, `CatalogEdits`, `CatalogService`, `CatalogRequests` | the service catalog: nested sections, optimistic read-modify-write, the flat map they refine, and requests that overlap |
| `NameOwnership` | which objects go with a release when names are the only link |
| `TitleOptions`, `TitleMetadata` | the tokenizer of title options and the expansion of titles into UI hints |
| `Bindings`, `Sorting` | two views of which release uses which connection |
| `BatchViews`, `Metrics` | memoized batch reads against the one-instance reads they stand for |
| `LogFollow` | the goroutine and the loop that follow a pod's log |
| `Basics` | optional values, decoded JSON, text |

How the model is built:

- Every Kubernetes call of the write paths may fail, by a nondeterministic choice
  inside the method that models it; a call that fails changes nothing. The API counts
  the calls of connection operations that failed, so that a contract can say what is
  certain when none did. The
  operations that change the cluster are methods over classes that hold its maps,
  proved against an effect (`CreateEffect`, `UpdateEffect`, `DeleteEffect`) or a
  function of the old state; runs of operations are sequences of states related by
  these effects.
- Where goroutines race, the shared fields and the program counters form a state,
  one step is one critical section or one call, and a run is any sequence of steps.
  The class beside it holds the same critical sections as methods.
- Loops that fill maps and lists are loops here, proved against recursive functions.
- The clock is a number that never goes back (`CONTEXT_TTL`, `CACHE_TTL` and `TTL`
  are in nanoseconds). DNS name tests, number parsing, rounding and the registry's
  answers are parameters.

Plain statements that are false of the code, with the exact condition under which they
hold and an input for which they do not:

- "Secrets of others are never deleted": a connection created without a credential
  carries no ownership record and falls back on the naming convention
  (`internal/service/connection_service.go:767-772`). The operations that can delete
  such a Secret are characterized exactly, and one of them strands another connection.
- "The winner of concurrent creates keeps its Secret": a connection create that fails for
  something else than the name deletes the Secret without another look
  (`internal/service/connection_service.go:222-233`), also when the winner has just been
  bound to it. A winner's Secret is ever gone or short of a key exactly when another
  create has rolled back that way, and any number of creates are safe from it exactly when
  at most one of them submits credentials. Rollbacks aside, the winner keeps every key it
  submitted, and keeps the values, too, exactly when each two agree on the keys they share.
- "Normalizing twice is normalizing once": loading a descriptor does not check the order
  of its fields. A late source that normalizing never changes does no harm. When
  conditions and derivations do not chain, one pass is enough exactly when no default
  comes too late, that is shows, hides or derives, to any effect, a field declared before it.
- "Expanding titles twice is expanding them once": the copy before the expansion goes
  through JSON, so `NaN` leaves nothing of the schema and an integer beyond the precision
  of a float is changed. It holds exactly when the last option for every hint is free of
  that.
- "An object a release's name begins goes with that release": one that bears a release's
  own name goes exactly when a claimant of it is deleted after its namesake.
- "A release spares the objects of its neighbours": neighbours are listed by the
  project's label, and a release takes what it would have left exactly when the rightful
  owner is without it.
- "The connections of a release and the consumers of a connection say the same": they do
  exactly when the list a name's entry comes from names it in scope, that is in the
  project or cluster-wide.
- "A broken pod counts against its own instance": health follows names. It agrees with
  the labels, whatever becomes of the containers, exactly when the pods named like the
  instance are the pods labelled for it; `kafka` is blamed for `kafka-console`.
- "The project's metrics are its services' metrics": a list by label refuses names over
  63 characters and the project's own selection does not; a Release may lack the label by
  which the project's are listed; and a Release may be labelled with a name it is not
  called by. The forms answer the same for a name exactly when the Release of the last
  readable instance of that name has the metrics the single form finds, or neither form
  has any. For Releases called after their project and instance that is when there is
  nothing to answer, or the name is listed and fits, or is neither.
- "Checked names stay distinct": two requests that overlap may both pass the check. From
  distinct names on, the names stay distinct exactly when no request commits an add of a
  name that edits committed since its check have brought in; and in any state they are
  distinct exactly when the committed edits leave each name at most one entry.
- "The log goroutine always ends": it is stuck exactly when the handler has returned, the
  request is not cancelled and a line is on offer; the cancellation that the HTTP server
  makes on return frees it.

`dafny verify dfyconfig.toml` checks the whole project.

## Model

| member | source | states |
|---|---|---|
| Contracts.ValidateTypeDescriptor | internal/service/contract_catalog.go:92-119 | a descriptor is accepted exactly when it has a name, fields, distinct non-empty field names, and a known type for each, an enum with options |
| Contracts.SecretFields | internal/models/connection.go:116-124 | the names listed are exactly those of the secret fields |
| Contracts.FieldNamed | internal/models/connection.go:105-114 | a field is found exactly when the name is declared, and it is one of that name |
| Contracts.Normalize | internal/service/contract_catalog.go:147-180 | the loop that fills and deletes keys computes the fields settled one after the other |
| Contracts.NormalizeIsTheCoherentForm | internal/service/contract_catalog.go:147-180 | when sources come first, or come late and are never changed, a set of values is the normalized one if and only if every field holds what the contract wants under these very values and every other key is as submitted |
| Contracts.CoherentIsUnique | internal/service/contract_catalog.go:147-180 | there is at most one such set of values for a submission |
| Contracts.NormalizeIsIdempotent | internal/service/contract_catalog.go:147-180 | normalizing twice is normalizing once when every source comes first or is never changed |
| Contracts.NormalizedFieldsAreSettled | internal/service/contract_catalog.go:154-178 | under the final values every present field applies, a derived field with a known source equals its table entry, an omitted field with a default that is neither secret nor derived carries it, and what was submitted for an underived field stays |
| Contracts.NormalizingSettlesEveryField | internal/service/contract_catalog.go:147-180 | told without the pass: a field that is not shown holds nothing, a derived one the entry of its source, a plain one what was submitted or its default unless it is a credential; every other key is as submitted |
| Contracts.FixedExactlyWhenCoherent | internal/service/contract_catalog.go:147-180 | whatever the order of the fields, normalizing leaves values as they are if and only if they are coherent as they are |
| Contracts.OnePassSettlesExactly | internal/service/contract_catalog.go:147-180 | for fields in any order, chained or not, a submission is settled in one pass if and only if every field still wants under the final values what it got at its turn |
| Contracts.UnsettledMeansALateSource | internal/service/contract_catalog.go:147-180 | when it is not, the first field that is not settled has read a key that changed after its turn |
| Contracts.OnePassIsEnoughExactlyWhenNothingComesTooLate | internal/service/contract_catalog.go:147-180 | when conditions and derivations do not chain, every submission is settled in one pass if and only if no later default shows, hides or derives an earlier field to any effect |
| Contracts.LoadingAcceptsLateDefaults | internal/service/contract_catalog.go:92-119 | of two loadable descriptors that show a field on a later one, the one whose later field has no default settles in one pass and the one with the matching default does not |
| Contracts.Validate | internal/service/contract_catalog.go:182-213 | no problem is reported exactly when every key is declared and every field that is shown holds a value of its type, within its bounds or among its options, or may hold none; unknown keys come before all else, then the first problem in declaration order |
| Contracts.NoProblemMeansAccepted | internal/service/contract_catalog.go:193-213 | the ordered walk and the order-free reading of it agree |
| Contracts.SplitValues | internal/service/connection_service.go:571-589 | a key is public exactly when it was submitted under a field first declared public, with its value; it is a credential exactly when the field first declared under it is secret and its value a text that is not empty, and the credential is that text |
| Contracts.AcceptedValuesAreKept | internal/service/connection_service.go:503-526 | normalized, accepted and split values are coherent, accepted as an edit and free of secret fields |
| Contracts.KeptValuesRoundTrip | internal/service/connection_service.go:239-306 | stored values sent back, with the published secretRef, normalize and split to themselves and submit no credential |
| BuiltinContracts.DatabaseServerIsEditable | internal/service/contracts/database-server.json:1-112 | the built-in contract with derivation and conditions loads and meets every hypothesis of the round trip |
| BuiltinContracts.EngineDecidesTheRest | internal/service/contracts/database-server.json:9-111 | whatever is submitted, the engine decides the driver and removes the other engine's TLS field |
| ConnectionState.RecordReadsBack | internal/service/connection_service.go:347-355 | the annotations written for a Secret read back as that Secret and its ownership |
| ConnectionService.ConnectionRepository.InspectSecret | internal/repository/connection_repository.go:173-202 | an answer is the Secret as it is; none means there is none |
| ConnectionService.ConnectionRepository.CreateOrUpdateSecret | internal/repository/connection_repository.go:204-251 | success merges the data over what a Secret of ours held and changes nothing else; a Secret of someone else is refused; failure writes nothing |
| ConnectionService.ConnectionRepository.DeleteSecret | internal/repository/connection_repository.go:253-259 | success means the Secret is gone, also when it was not there, and only a failing call prevents it |
| ConnectionService.ConnectionRepository.Update | internal/repository/connection_repository.go:146-165 | success replaces an existing connection, failure changes nothing |
| ConnectionService.ConnectionService.CheckExistingSecret | internal/service/connection_service.go:528-569 | accepted only when the Secret exists, is not ours and carries every credential of the contract; refused as invalid only when not |
| ConnectionService.ConnectionService.ValidateRequest | internal/service/connection_service.go:486-526 | accepted requests satisfy every rule and give the cleaned values; each error is given only for its reason |
| ConnectionService.ConnectionService.Create | internal/service/connection_service.go:164-237 | whatever calls fail, a create stores the connection with its credentials, or leaves all connections alone and at most its own Secret merged or rolled back. With no failed call it succeeds exactly when there is no ground for refusal, and refused changes nothing; with one, no credential is left behind. Stored, the connection says what was submitted and the Secret holds each submitted credential as submitted |
| ConnectionService.ConnectionService.Update | internal/service/connection_service.go:239-306 | whatever calls fail, an update replaces the connection, its credentials merged and its orphan possibly removed, or leaves all connections and every orphan alone. With no failed call it succeeds exactly when there is no ground for refusal, refused changes nothing, and the owned Secret it moved off is gone. Stored, the connection says what was submitted and the Secret holds each submitted credential as submitted |
| ConnectionService.ConnectionService.Delete | internal/service/connection_service.go:308-345 | whatever calls fail, a delete removes the connection and possibly the Secret it owned, or nothing. With no failed call it succeeds exactly when there is no ground for refusal, and then an owned Secret is gone and any other is left |
| ConnectionLifecycle.EveryRunKeepsOwnedCredentials | internal/service/connection_service.go:164-345 | in every state of every run a connection recorded as owning its credentials publishes the conventional Secret in its annotation and its values, and that Secret exists and is ours; connections without the record may hold anything |
| ConnectionLifecycle.TouchesOnlyItsOwn | internal/service/connection_service.go:164-345 | an operation changes no other connection and no Secret but the one named after its own |
| ConnectionLifecycle.CredentialsOnlyGrow | internal/repository/connection_repository.go:228-251 | while a connection keeps owning its credentials no key of them is lost |
| ConnectionLifecycle.ForeignSecretIsNeverWritten | internal/repository/connection_repository.go:221-226 | no operation changes the content of a Secret that is not ours |
| ConnectionLifecycle.ForeignSecretIsLostExactlyByConvention | internal/service/connection_service.go:326-345 | an operation can delete a Secret that is not ours if and only if it is an accepted delete, or update to another Secret, of a connection without the record that the naming convention takes for the owner, and the Secret bears the conventional name |
| ConnectionLifecycle.DeletingAnUnrecordedConnectionStrandsAnother | internal/service/connection_service.go:767-772 | such a delete can leave another connection pointing at nothing |
| ConnectionLifecycle.RecordedRunsSpareOthers | internal/service/connection_service.go:326-345 | in runs whose user connections all carry the record, no Secret of others is lost and every reference to one stays valid |
| ConnectionLifecycle.EveryRunKeepsValues | internal/service/connection_service.go:164-306 | every run keeps stored values coherent, accepted and free of secret fields |
| ConnectionLifecycle.ReadThenEditChangesNothing | internal/service/connection_service.go:239-306 | sending back what was read succeeds or fails only by a failing call, and changes neither connection nor Secrets |
| ConnectionLifecycle.EveryRunKeepsCredentialsOut | internal/service/connection_service.go:571-589 | no run stores the value of a secret field in a user's connection, for any loadable contracts |
| CredentialRace.ForeignSecretIsNeverWritten | internal/repository/connection_repository.go:204-251 | under every interleaving, also with others replacing the Secret, a create writes only where there was none or one of ours and keeps its keys |
| CredentialRace.AtMostOneWinner | internal/service/connection_service.go:170-233 | under every interleaving, whatever calls fail, at most one create wins |
| CredentialRace.OneWinnerKeepsItsCredentials | internal/service/connection_service.go:170-233 | when no rollback deletes the Secret, as when connections are refused for their name alone, it exists, is ours and holds every key the winner submitted |
| CredentialRace.TheWinnerLosesItsSecretExactlyByARollback | internal/service/connection_service.go:222-233 | between its write and any moment after it won, the winner's Secret is gone or short of a key at some time if and only if another create, refused for something else than its name, deleted it |
| CredentialRace.ForeignSecretGoesOnlyAfterARollback | internal/service/connection_service.go:222-233 | a rollback deletes a Secret of someone else only when a rollback before it deleted ours |
| CredentialRace.LoneCredentialsAreKept | internal/service/connection_service.go:170-233 | a create that alone submits credentials keeps them, whatever the others do |
| CredentialRace.KeysSurviveExactlyWithoutACompetitor | internal/service/connection_service.go:170-233 | the winner's keys survive every run of any number of creates if and only if at most one of them submits credentials |
| CredentialRace.ARollbackMayTakeTheWinnersSecret | internal/service/connection_service.go:222-233 | for any two creates with credentials, some interleaving ends with a winner and no Secret |
| CredentialRace.AgreeingCreatesKeepTheValues | internal/repository/connection_repository.go:228-251 | any number of creates that agree on the keys they share keep the winner's values, rollbacks aside |
| CredentialRace.ValuesSurviveExactlyWhenCreatesAgree | internal/repository/connection_repository.go:228-251 | the winner's values survive every run of any number of creates, rollbacks aside, if and only if each two agree on the keys they share |
| CredentialRace.RunAmong | internal/service/connection_service.go:170-233 | what two creates can do alone they can do among any others |
| CredentialRace.ALoserMayOverwriteTheWinner | internal/service/connection_service.go:183-227 | for any two creates with credentials, some interleaving without a rollback leaves the loser's values written over the winner's |
| ApiProbe.APIProbe.LockAndDecide | internal/repository/api_availability.go:52-71 | what a caller does under the first lock: answer, wait, or become the prober |
| ApiProbe.APIProbe.LockAndPublish | internal/repository/api_availability.go:75-79 | what the prober publishes under the second lock |
| ApiProbe.APIProbe.Discover | internal/repository/api_availability.go:84-110 | available exactly when the group is served with the resource and all others required |
| ApiProbe.AtTheLock | internal/repository/api_availability.go:52-71 | by the record of probes: a caller at the lock is answered true exactly when the last probe found it, false exactly when the last probe found nothing less than 30 seconds ago; otherwise it waits while a probe runs and else starts one |
| ApiProbe.PublishedIsRecorded | internal/repository/api_availability.go:73-79 | what a probe found is recorded, dated when it was published, and nothing is in flight then |
| ApiProbe.InflightExactlyWhileOneProbes | internal/repository/api_availability.go:62-79 | inflight is set exactly while a caller probes, and only one does |
| ApiProbe.EveryChannelIsClosedOnce | internal/repository/api_availability.go:67-80 | a channel has been closed, once, or exactly one caller is due to close it |
| ApiProbe.BlockedCallersAreWoken | internal/repository/api_availability.go:62-66 | a blocked caller's channel is closed or has a caller due to close it |
| ApiProbe.AvailableStaysAvailable | internal/repository/api_availability.go:52-57 | once available, always available, and no further probe starts |
| ApiProbe.TrueComesFromAProbe | internal/repository/api_availability.go:47-82 | true is answered only after a probe found it so |
| ApiProbe.ProbesKeepTheirDistance | internal/repository/api_availability.go:58-79 | a probe starts at least the TTL after the one before it was answered, and that answer was negative |
| ApiProbe.ProbesAreRateBounded | internal/repository/api_availability.go:52-81 | a window of length W sees at most W / TTL + 1 probes start |
| Spacing.WindowHoldsFew | internal/repository/api_availability.go:52-81 | moments that keep a distance fit a window that often |
| ContextCache.ReadsSeeSettledWrites | internal/repository/context_repository.go:522-543 | a read that starts after a write was invalidated sees that write or a later one, under every interleaving |
| ContextCache.LookingServesWhatIsFresh | internal/repository/context_repository.go:522-530 | a reader is given the cached document exactly when it is less than five seconds old, and fetches otherwise |
| ContextCache.FetchedIsCached | internal/repository/context_repository.go:531-537 | what was fetched is answered and left in the cache as of now |
| ContextCache.HitsAreRecent | internal/repository/context_repository.go:522-537 | what the cache serves was stored less than the TTL ago |
| ContextCache.FetchesNeverOverlap | internal/repository/context_repository.go:522-537 | the lock is held across the fetch, so one caller at most looks, fetches or stores |
| PackageCache.DocumentCache.Load | internal/service/package_schema_service.go:434-450 | a lone caller gets the recent entry, or the fetched one, which is then cached |
| PackageCache.DocumentCache.FetchAndCache | internal/service/package_schema_service.go:452-489 | the flight looks again before it fetches; a failed fetch caches nothing |
| PackageCache.ChecksServeWhatIsFresh | internal/service/package_schema_service.go:434-470 | both checks answer with the cached document exactly when it is less than 15 minutes old; else the caller joins or leads a flight, and the leader fetches |
| PackageCache.FetchedIsCached | internal/service/package_schema_service.go:443-489 | a document that arrived is dated, cached and the result of its flight, and every waiter gets the result of its flight |
| PackageCache.FetchesNeverOverlap | internal/service/package_schema_service.go:434-489 | fetches of one key never overlap |
| PackageCache.FetchesKeepTheTTL | internal/service/package_schema_service.go:452-489 | after a successful fetch the next starts at least the TTL later |
| PackageCache.AnswersWereFetched | internal/service/package_schema_service.go:434-489 | every document answered was brought by some fetch |
| PackageCache.WaitersAreAnswered | internal/service/package_schema_service.go:443-450 | a waiter's flight has a result or still has a leader |
| PackageCache.FetchesAreRateBounded | internal/service/package_schema_service.go:434-489 | a window of length W sees at most W / TTL + 1 documents fetched |
| Catalog.NormalizeAndValidate | internal/service/service_service.go:242-273 | a service is accepted exactly when, tidied, it has a well-formed name, a category, distinct non-blank versions and a listed default; it comes back with name and category trimmed, the first version for an omitted default, and all else as submitted |
| Catalog.AcceptedServiceReadsBack | internal/repository/context_writer_repository.go:159-181 | an accepted service, written and read again, is identical apart from its icon |
| Catalog.StoredKeysAreRead | internal/repository/context_repository.go:135-160 | what is read of a stored service key by key: a tag stands in for a default, a default for a list of versions without any |
| Catalog.RemoveServiceFromCategories | internal/repository/context_writer_repository.go:84-105 | every entry of that name goes from every section, all else stays; found tells whether there was one |
| Catalog.AppendServiceToCategory | internal/repository/context_writer_repository.go:107-120 | the first section of that title gets the service at its end and keeps its other keys, all other sections stay; without one a section of that title with the one service comes last |
| Catalog.GetPlatformServices | internal/repository/context_repository.go:162-190 | the reader flattens sections in order |
| Catalog.RemovalIsSeenFlat | internal/repository/context_writer_repository.go:84-105 | what is read after a removal is what was read without the name, in order, with all sections |
| Catalog.AdditionIsSeenFlat | internal/repository/context_writer_repository.go:107-120 | what is read after an addition is what was read with the service inserted somewhere; sections stay, one more when the title is new |
| Catalog.FoundMeansRead | internal/repository/context_writer_repository.go:84-105 | the writer finds a name exactly when the reader reads it |
| CatalogEdits.AddInserts | internal/repository/context_writer_repository.go:122-130 | adding under a new name inserts into the flat map and leaves the others' content and order |
| CatalogEdits.UpdateReplaces | internal/repository/context_writer_repository.go:132-143 | updating replaces in the flat map, moving section if needed, and leaves the others' content and order |
| CatalogEdits.RemoveDeletes | internal/repository/context_writer_repository.go:145-157 | removing deletes from the flat map and leaves the rest as it was |
| CatalogEdits.SectionsRefineTheMap | internal/repository/context_writer_repository.go:84-181 | over every history of lawful edits the sections refine the flat map, names stay distinct and no section disappears |
| CatalogEdits.NoUpdateIsLost | internal/repository/context_writer_repository.go:50-74 | under every interleaving of writers the stored list is the successful edits replayed in commit order; a writer that gives up is not among them, one that succeeded is there once |
| CatalogEdits.CommitsAreFinal | internal/repository/context_writer_repository.go:50-74 | the history only grows, by one commit at a time, each its writer's own edit |
| CatalogEdits.ConflictsAreRetriedUpToTheFifth | internal/repository/context_writer_repository.go:50-74 | a writer whose list is out of date can try again exactly up to its fifth attempt, has been overtaken by a commit for each attempt, and leaves no trace |
| CatalogEdits.NamesAreDistinctExactlyByTheCount | internal/repository/context_writer_repository.go:50-157 | under every interleaving of one server's requests the names read are distinct if and only if the committed edits leave each name at most one entry: an add adds one, an update leaves one, a removal none |
| CatalogEdits.OverlappingAddsAreDistinctExactly | internal/service/service_service.go:137-152 | adds that all passed their check before any of them wrote keep the names distinct if and only if no two that committed add the same name |
| CatalogEdits.OverlappingAddsMayCollide | internal/service/service_service.go:137-152 | for any service the list does not have, two requests that both found it missing can leave it there twice |
| CatalogRequests.EveryRunKeepsTheInvariant | internal/service/service_service.go:129-197 | under every interleaving of checks through the cache, writes and invalidations, the cache and every view a request has checked hold the list as it was stored after some number of commits |
| CatalogRequests.StepKeepsNamesDistinctExactly | internal/service/service_service.go:137-157 | a step keeps distinct names distinct if and only if it is no commit of an add whose name edits committed since its check have brought in |
| CatalogRequests.NamesStayDistinctExactlyWithoutACollision | internal/service/service_service.go:129-197 | over every run of overlapping adds, updates and removals from distinct names, the names are distinct all along if and only if there is no such commit |
| CatalogRequests.OverlappingRequestsMayCollide | internal/service/service_service.go:137-157 | for any service the catalog does not have, two overlapping requests can leave it there twice |
| CatalogService.ContextWriterRepository.MutateCategories | internal/repository/context_writer_repository.go:50-74 | success is one commit of the edit after whatever others committed, failure leaves no trace, a conflict is reported only when each of five attempts was overtaken, and alone only a failing call fails it |
| CatalogService.ContextWriterRepository.ApplyEdit | internal/repository/context_writer_repository.go:122-157 | the three functions given to the loop compute the three edits |
| CatalogService.ContextRepository.GetContext | internal/repository/context_repository.go:522-537 | the cached list while recent, else the stored one, then cached |
| CatalogService.CatalogService.FindInCatalog | internal/service/service_service.go:199-214 | although it reads the cache, it finds a name exactly when the stored catalog has it |
| CatalogService.CatalogService.ValidateVersions | internal/service/service_service.go:216-240 | accepted exactly when no registry is configured, or it answers and lists every version |
| CatalogService.CatalogService.AddPlatformService | internal/service/service_service.go:129-157 | success inserts the tidied service under a new name; failure changes nothing; the cache never lags |
| CatalogService.CatalogService.UpdatePlatformService | internal/service/service_service.go:159-182 | success replaces the service of that name; failure changes nothing; not found only when it is not there |
| CatalogService.CatalogService.RemovePlatformService | internal/service/service_service.go:184-197 | success deletes exactly that service; failure changes nothing |
| NameOwnership.OwnsByName | internal/service/service_service.go:490-517 | true exactly when the object has the release's name and a dash before more, and no longer name is the object's or claims it |
| NameOwnership.AtMostOneOwner | internal/service/service_service.go:481-517 | no object belongs to two releases |
| NameOwnership.OwnerIsTheLongest | internal/service/service_service.go:481-517 | the owner is the release whose name reaches furthest, when none bears the object's name |
| NameOwnership.OwnedExactlyWhenClaimed | internal/service/service_service.go:490-517 | an object has an owner exactly when some release claims it and none equals it |
| NameOwnership.DeletionsLeaveTheRemaining | internal/service/service_service.go:457-556 | deletions one after the other, none failing, leave what the flat account of them says remains |
| NameOwnership.RemovedExactlyWithItsOwner | internal/service/service_service.go:519-556 | over any order of deleting all releases an object goes exactly when its longest claimant is deleted |
| NameOwnership.NamesakeGoesWithALaterClaimant | internal/service/service_service.go:500-505 | an object named like a release goes exactly when some claimant is deleted after its namesake |
| NameOwnership.ANamesakeGoesLater | internal/service/service_service.go:500-505 | the volume `demo-db` outlives the release `demo-db` and goes with `demo` |
| NameOwnership.UnclaimedObjectsStay | internal/service/service_service.go:519-556 | an object no release claims outlives them all |
| NameOwnership.UnlabelledNeighboursAreNotSpared | internal/service/service_service.go:519-533 | a release takes an object it would leave if every neighbour were seen exactly when it reaches furthest among those seen and the rightful owner carries no label |
| NameOwnership.AnUnlabelledNeighbourLosesItsVolume | internal/service/service_service.go:519-556 | a home volume of `demo-jupyter-ds` goes with `demo-jupyter` when the former carries no label |
| NameOwnership.Namespace.CleanupKind | internal/service/service_service.go:535-556 | only owned objects go; all of them when no call fails |
| NameOwnership.Namespace.CleanupUserResources | internal/service/service_service.go:519-556 | nothing goes unless the neighbours can be listed, and then only what the release owns |
| NameOwnership.Namespace.DeleteService | internal/service/service_service.go:457-470 | the release goes first, its objects are judged against the labelled releases that stay, and it is said which volumes it removes that are another's |
| TitleOptions.SplitOptions | internal/service/package_schema_service.go:557-600 | the scanning loop computes the tokens of a balanced segment, the fields of an unbalanced one |
| TitleOptions.SplitUndoesJoin | internal/service/package_schema_service.go:557-600 | options joined by one space are found again |
| TitleOptions.SplitKeepsEverything | internal/service/package_schema_service.go:573-600 | on every balanced segment the tokens are options, and together the segment without its unquoted spaces |
| TitleOptions.SplitIsStable | internal/service/package_schema_service.go:557-600 | splitting the joined tokens gives the tokens again |
| TitleOptions.FieldsKeepTheRest | internal/service/package_schema_service.go:558-563 | the fields of an unbalanced segment are not empty, hold no white space, and are together the segment without its white space |
| TitleMetadata.ExpandTitle | internal/service/package_schema_service.go:627-668 | one title with bars is expanded into its hints, anything else is left alone |
| TitleMetadata.ParseTitleMetadata | internal/service/package_schema_service.go:602-671 | the copy of the schema with every property expanded |
| TitleMetadata.TitlesAreRead | internal/service/package_schema_service.go:602-668 | a title of two to four segments is read segment by segment: group and widget become hints, the label the title or nothing, every hint of an option holds what the last option for it says, all other keys stay |
| TitleMetadata.OptionsAreRead | internal/service/package_schema_service.go:645-667 | an option key:value, quoted or not, writes x-ui-key: a truth value, a number where the value is one, else the text |
| TitleMetadata.ConditionsAreRead | internal/service/package_schema_service.go:653-662 | an option condition:field=value writes the field and the value read the same way |
| TitleMetadata.ExpandedHasNoBars | internal/service/package_schema_service.go:627-668 | an expanded property has no bars left, so expanding it again changes nothing |
| TitleMetadata.LastOptionWins | internal/service/package_schema_service.go:645-667 | a hint holds what the last option for it says, or what it held before |
| TitleMetadata.ParsingTwiceIsParsingOnce | internal/service/package_schema_service.go:602-695 | parsing is idempotent on a schema if and only if JSON cannot carry it at all or gives back what the last option for every hint reads as |
| TitleMetadata.ALossyOptionIsNotParsedTwice | internal/service/package_schema_service.go:673-695 | any option that spells a number JSON does not give back makes some schema change when parsed twice |
| Bindings.BoundConnections | internal/service/service_service.go:1093-1130 | the list is strictly sorted with one entry per name; a resolved entry tells name, namespace and kind of the first effective reference of its name, a pending one those of the last watched reference of a name no effective one has |
| Bindings.BoundListIsUnique | internal/service/service_service.go:1093-1130 | there is one such list |
| Sorting.BeforeMeansSmallerAtTheFirstDifference | internal/service/service_service.go:1121 | the order is that of the first character that differs, a text before its continuations |
| Bindings.ReferencesConnection | internal/service/connection_service.go:755-763 | true exactly when a reference of that name is the project's or cluster-wide |
| Bindings.ListConsumers | internal/service/connection_service.go:727-753 | the consumers are exactly the releases that reference the connection, sorted by release name, each with its release, phase, the service it is called after, and whether it has the connection in effect |
| Bindings.ViewsAgreeExactlyInScope | internal/service/connection_service.go:727-763 | both views say the same of a release and a name, relation and resolution, if and only if the list the name's entry comes from names it in scope |
| Bindings.ViewsAreTransposes | internal/service/connection_service.go:727-763 | a release's list and a connection's consumers have the same entries of each other, resolved in the one exactly when effective in the other, if and only if the entry is in scope |
| Bindings.ViewsPart | internal/service/connection_service.go:755-763 | a reference to another namespace is listed without being consumed, and one resolved elsewhere and watched here is listed as resolved and consumed as pending |
| BatchViews.ReleaseInstanceNames | internal/service/service_service.go:910-934 | the names are those of the HelmReleases the Release owns, and there is an error exactly when there are none |
| BatchViews.IngressHostsFromItems | internal/service/service_service.go:729-748 | the loop over Ingresses and rules computes the host map |
| BatchViews.HostsAreRouted | internal/service/service_service.go:729-748 | a host is in the map exactly when a labelled Ingress routes it, and belongs to the last one that does |
| BatchViews.CandidatesFollowTheConventions | internal/service/service_service.go:691-716 | the candidates are the hosts of the conventions that apply, in order: the release's own, one for each role that has one, console and plain host of an instance not named after its service, console and plain host of the service |
| BatchViews.ItsHostIsThePreferred | internal/service/service_service.go:614-716 | an instance's host is that of the first convention routed by an Ingress of a HelmRelease its Release owns |
| BatchViews.NamesShareAHostExactlyWithTheirConsole | internal/service/service_service.go:691-716 | two instance names share a conventional host exactly when they are equal or one is the other's console |
| BatchViews.SetURLIfExposed | internal/service/service_service.go:651-666 | the URL becomes that of the first convention whose host an Ingress of the instance's own HelmReleases routes, and is as it was exactly when none is routed; nothing else changes |
| BatchViews.EnrichWithURL | internal/service/service_service.go:614-644 | with hosts read once per namespace, every instance of any list gets the URL of the first convention routed to it, as the single call gives it |
| BatchViews.URLIsItsOwn | internal/service/service_service.go:614-748 | the host comes from an Ingress of the namespace whose HelmRelease the instance's Release owns |
| BatchViews.URLsTellInstancesApart | internal/service/service_service.go:614-666 | two instances of a namespace get the same URL only when one HelmRelease is owned by both their Releases |
| BatchViews.CheckPodHealth | internal/service/service_service.go:804-835 | Error exactly when a pod matched by name has a container that is not ready for one of the named reasons and is no sidecar, else the status stays |
| BatchViews.EnrichPodHealth | internal/service/service_service.go:788-802 | only a Ready instance changes, and only to Error |
| BatchViews.EnrichWithPodHealth | internal/service/service_service.go:751-782 | with pods listed once per namespace, failed lists included, every instance of any list ends as the single call leaves it |
| BatchViews.HealthFollowsNames | internal/service/service_service.go:804-951 | an instance turns to Error exactly when a broken pod's name is, or continues after a dash, that of one of its HelmReleases |
| BatchViews.HealthAgreesWithLabelsExactly | internal/service/service_service.go:804-951 | names and labels give an instance the same health, whatever becomes of the containers, if and only if the pods named like it are the pods labelled for it |
| BatchViews.KafkaIsBlamedForItsConsole | internal/service/service_service.go:944-951 | `kafka` turns to Error for a broken pod of `kafka-console` |
| BatchViews.ListServices | internal/service/service_service.go:354-367 | the list shows every instance as enriched |
| BatchViews.GetService | internal/service/service_service.go:369-379 | one service is shown as enriched |
| BatchViews.EnrichWatched | internal/api/handlers/service_handler.go:328-329 | a watched service is shown as enriched |
| BatchViews.EnrichedIsAFunction | internal/service/service_service.go:354-379 | the three views of one instance are equal |
| Metrics.BuildServiceMetrics | internal/service/service_service.go:1180-1274 | for CPU and for memory: the bound is the sum over the containers of the readable limits, or requests where there are no limits, the use the sum of the readable usages, available when one was readable, and the share use over bound, clamped |
| Metrics.MetricsMeasureTheRelease | internal/service/service_service.go:1132-1295 | the metrics of a Release are those of the pods that carry the name of a HelmRelease it owns, with the last report of each |
| Metrics.Ratio | internal/service/service_service.go:1365-1374 | a share of usage is between 0 and 1, and 1 exactly at or over a positive limit |
| Metrics.GetServiceMetrics | internal/service/service_service.go:1276-1295 | the figures are those of the pods labelled with the service's HelmReleases, and there are some exactly when the pods can be read, the Release owns a HelmRelease, and no name of one is over 63 characters |
| Metrics.SplitNamesUndoesJoin | internal/service/service_service.go:936-942 | the selector's text selects exactly the names joined into it |
| Metrics.GetProjectMetrics | internal/service/service_service.go:1132-1160 | from one list of pods, each name has the figures of the pods of an instance of that name |
| Metrics.ProjectMetricsAreOfTheListed | internal/service/service_service.go:1132-1160 | the project's metrics of a name are those of the Release of the last readable instance of that name, and absent when there is none |
| Metrics.ProjectMetricsAreServiceMetrics | internal/service/service_service.go:1132-1295 | both forms answer the same for a name if and only if the Release of the last readable instance of that name has the metrics the single form finds, or neither form has any |
| Metrics.NamedReleasesAreMeasuredAlike | internal/service/service_service.go:1132-1295 | for releases called after their project and instance, both forms answer the same if and only if the Release has no metrics, or it is listed and its HelmRelease names fit a label, or neither |
| Metrics.AnUnlistedReleaseIsMeasuredAloneOnly | internal/service/service_service.go:354-358 | a Release that is not listed has metrics of its own and none in its project's |
| Metrics.ARenamedReleaseIsMeasuredInTheProjectOnly | internal/service/service_service.go:1054-1066 | a Release labelled with a name it is not called by has metrics in its project's and none of its own |
| Metrics.ALongNameIsMeasuredInTheProjectOnly | internal/service/service_service.go:1132-1295 | a listed service whose HelmRelease has a name too long for a label has metrics in its project's and none of its own |
| Metrics.ServicesShareOutThePods | internal/service/service_service.go:1132-1160 | when each HelmRelease has one owner, the services' sums add up to the sum over the pods of all of them: none counted twice, none lost |
| LogFollow.DeliveredIsAPrefix | internal/api/handlers/service_handler.go:586-628 | the lines sent are the scanned ones in order, each once, at most one behind |
| LogFollow.LinesAreClosedOnce | internal/api/handlers/service_handler.go:586-598 | lines is closed exactly once, and nothing is sent on it or closes it after that |
| LogFollow.CloseMeansEverythingWasSent | internal/api/handlers/service_handler.go:586-624 | a close without cancellation means that every line was sent and the outcome is in scanErr or was read from it |
| LogFollow.NoOutcomeMeansAbandoned | internal/api/handlers/service_handler.go:613-624 | the default branch is taken exactly when the goroutine gave up a line, which takes a cancelled request |
| LogFollow.ProblemsAreReportedOnce | internal/api/handlers/service_handler.go:614-624 | the client is told of a problem at most once and last, exactly when the handler read an outcome that is an error |
| LogFollow.StuckExactlyWithoutCancellation | internal/api/handlers/service_handler.go:588-598 | after the handler's return the goroutine is stuck exactly on a line on offer in a request not cancelled |
| LogFollow.AFailedKeepaliveMayLeaveItStuck | internal/api/handlers/service_handler.go:607-612 | a keepalive that cannot be written ends the handler and, were the request not cancelled then, would leave the goroutine stuck on a line |
| LogFollow.TheGoroutineEnds | internal/api/handlers/service_handler.go:588-604 | after return and cancellation every path of its own steps has three at most and sends nothing more, and it cannot go on exactly when it has ended, with the channel closed |
| LogFollow.TheGoroutineCanEnd | internal/api/handlers/service_handler.go:588-604 | one of these paths is complete |

## Left out

- Deletes concurrent with creates, and lost updates between concurrent updates of one connection: the repository reads the resourceVersion again before writing, so the code promises nothing there; lifecycle runs are sequential.
- A call that fails after taking effect: a failed call changes nothing.
- Other parties that change users' connections, remove or relabel this server's Secrets, or remove a Secret a user's connection points at: between operations they may do anything else to managed connections and to Secrets of their own.
- Connection status, labels other than the managed one, response formats and the wording of errors.
- CatalogService.CatalogService.AddPlatformService: for sequential requests of one server, because overlapping ones may both pass the check and another server's writes reach the cache only after its TTL; `CatalogRequests.NamesStayDistinctExactlyWithoutACollision` says what overlapping ones keep.
- Catalog.RemoveServiceFromCategories: returns the new list, because the section maps the code edits in place belong to its private copy of the object; aliasing is not captured.
- CatalogEdits.NoUpdateIsLost: a writer's commit and its read of the answer are one step, because a lost answer to a successful write is not modelled.
- PackageCache.FetchesKeepTheTTL: for a fixed package repository, because the cache key does not name it.
- PackageCache.AnswersWereFetched: does not bound the age of an answer, because a waiter may be handed an entry that expired while it waited.
- TitleMetadata.ParsingTwiceIsParsingOnce: numbers are reals, so a hint that is a Go int at first and a float after the second parse counts as unchanged when the float holds it; its JSON is the same.
- Contracts.OnePassIsEnoughExactlyWhenNothingComesTooLate: for descriptors whose conditions and derivations do not chain, because with chains the values a late source can take depend on other conditions; `Contracts.OnePassSettlesExactly` decides each submission of any descriptor.
- CredentialRace.KeysSurviveExactlyWithoutACompetitor: others are assumed to leave Secrets with this server's label alone, because anyone who deletes one takes the credentials along.
- The loop that both forms of the URL lookup end with is written once, as `FindExposed`.
- BatchViews.EnrichWithPodHealth: a list without items and a failed list are told apart, where the code may see nil for both; either way the status stays.
- Metrics.BuildServiceMetrics: sums are exact, because rounding is not the point; quantity parsing and the display texts are left out.
- Tag overrides in the platform's service list, package resolution, menu and identity settings, malformed Context documents.
- Connection testers, secret stores, identity synchronization, Keycloak and registry calls, `kubocd`, schema compilation, YAML and JSON decoding.
- HTTP handlers other than the log-follow loop, and the log writes that fail without an error the loop looks at.
