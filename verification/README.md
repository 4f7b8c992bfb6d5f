# A verified model of the CRM's shared engines and of its activity state machine

The repository is a CRM whose services share a set of storage-agnostic engines (`shared/src`) and one domain service with a
state machine of its own, activities (`activity/src/activity`). This project models those parts in Dafny and proves what they
are for: idempotent mutations under concurrency, at-least-once event delivery and the retry ladder, the module registry and
its runtime axes, who sees and may do what, the parsers that guard uploads and webhooks, the settings validator, and
reminders, escalations and link merging of activities. Registries, catalogs, retry levels, rows and scopes are arbitrary
finite data, so every statement is about all of them and not about the shipped tables.

| file | what it models |
|---|---|
| `Wrappers.dfy`, `Text.dfy` | optional values and results; numerals, split and join, trim, the order of `sort()` |
| `Idempotency.dfy` | the ledger behind `Idempotency-Key`, as code and as a protocol of any number of callers |
| `Outbox.dfy` | outbox rows, the relay's tick, runs of overlapping relays with failures and crashes, the consumer's dedup |
| `BusTopology.dfy` | a broker, the queues a consumer declares, the header-counted retry ladder and the dead letters |
| `ModuleGraph.dfy`, `ModuleRegistry.dfy` | dependency closure, normalisation of module configs with its cascade |
| `ModuleRuntimeState.dfy` | the configured/active axes of a module, runs of saves and resumes, the projection |
| `ModuleLifecycle.dfy` | version parsing and order, upgrade previews and their migrations |
| `Visibility.dfy` | a small Mongo evaluator, the visibility filters and their single-record twins |
| `PermissionRbac.dfy` | permission catalog, role matrix, its expansion into grants, the decision over both |
| `SettingsSchema.dfy` | JSON values, the schema subset, the validator that cleans as it checks, the shorthand |
| `WebhookTarget.dfy` | inet_aton numerals, IPv6 text (section 2.2 of RFC 4291), the deny-list |
| `DocxSanitize.dfy`, `ZipArchive.dfy` | the upload gate over ZIP archives; archives written per PKWARE APPNOTE.TXT and read back |
| `DocxPlaceholders.dfy` | stripping XML tags and finding `{{keys}}` |
| `Activity.dfy`, `ActivityService.dfy` | one activity's transitions, the service over all rows |
| `ActivityRaces.dfy`, `ActivityOverdue.dfy` | users' reads and writes interleaved, concurrent overdue scanners |
| `ActivityMerge.dfy` | repointing contact links when contacts merge |

Code that updates something in place is a class or a method with loops, proved against functions; the properties are then
lemmas about those functions and about runs of them.

Where the code and what it promises part company, the code is kept and the exact limit is proved:

- Calls to a store or a broker may throw after they took effect; the ledger, the relays and the overdue scanners are run with
  that possibility.
- A ledger insert that throws after taking effect blocks its key (`LostClaimBlocksTheKey`). A ledger update that fails after a
  successful mutation releases the claim, and the mutation can succeed again if that release deletes the row. Successes are at
  most one more than the claims deleted that way, and the bound is met; from every reachable state it is said exactly when
  another success is possible (`SucceedsAgainExactlyWhen`).
- "Published is terminal" holds while no row is in two relays' hands and no `markPublished` throws after taking effect, because
  `markAttemptFailed` does not look at the status. For a set of relays it holds in all their runs exactly when there is none,
  they fetch nothing, or there is one and its marks never throw like that (`PublishedIsTerminalExactlyWhen`). A batch size of zero
  means no limit to Mongo and nothing to the stores over Prisma; both are covered. Consumers apply the fact
  of a row taken back once all the same (`PublishedFactIsAppliedOnce`).
- The handler derives the dead-letter exchange from the exchange it consumes from, the topology from the main exchange. They
  agree exactly on the main exchange. A lone consumer on another exchange publishes its exhausted messages to an exchange nobody
  declared: the channel closes, and the message goes back to its work queue again and again (`UndeclaredExchangeRedeliversForever`).
- A list of consumers gets its topology exactly when nobody consumes from the dead-letter exchange and no work queue is named like
  another queue of the cluster with other arguments (`ClusterAcceptedExactlyWhen`).
- The list filter on departments does not trim, its single-record twin does: for a document's department they agree under all
  scopes exactly when that department is trimmed. The ownable pair agrees exactly when a narrowing scope does not contain the
  empty owner id.
- An update judges reminders by the type it is given, which is not stored: the reminder stays in step exactly when that type
  anchors on the same date. This branch is latent: the request of the service has no type field
  (proto/fairflow/activity/v1/activity.proto:161-185).
- Updates read a row and write it later, without looking again. In interleaved runs the reminder stays in step exactly when no
  write lands whose anchor date moved since its read (`ReminderInStepExactlyWhen`), and a closed activity stays closed exactly
  when no update to an open status is still on its way (`ClosedForGoodExactlyWhen`). Taken atomically, both always hold.
- An overdue row is marked for good and silent exactly when, before any event was enqueued, the scanner holding the claim
  crashed, its release threw without taking effect, or a claim threw after taking effect (`EscalationLostExactlyWhen`). Events
  exceed by at most one the claims given back although their enqueue took effect, and that bound is met
  (`EventsAreBounded`, `LateThrowsRepeatTheEvent`).
- On address literals the save-time and the send-time webhook checks differ exactly for text with a colon that is no IPv6 address.

## Model

| member | source | states |
|---|---|---|
| Idempotency.OneHeaderKeepsOperationsApart | shared/src/idempotency.ts:108-114 | one header value never makes two operations share a ledger row |
| Idempotency.SameRowExactlyWhen | shared/src/idempotency.ts:103-110 | two calls share a row exactly when project, operation and header agree, for operations without a colon |
| Idempotency.Ledger.InsertPending | shared/src/idempotency.ts:116-131 | the unique insert succeeds exactly when the key is free, and only then changes the ledger |
| Idempotency.Ledger.WithIdempotency | shared/src/idempotency.ts:103-149 | one call: when the mutation runs, and reply and ledger for every way insert, executor, update and delete may end; a success leaves its result in the row |
| Idempotency.Ledger.CallAndRepeat | shared/src/idempotency.ts:98-171 | a mutation and its repetition: the result is stored, and the repetition is given it without running, if it polls at all |
| Idempotency.FreeKeyCall | shared/src/idempotency.ts:115-148 | a call's own steps in the protocol, on a free key: answer and row for every ending |
| Idempotency.OtherCalls | shared/src/idempotency.ts:103-131 | the same on a taken key, and without a key |
| Idempotency.PollingIsAwaiting | shared/src/idempotency.ts:152-171 | the polls of the protocol and the polling loop end alike |
| Idempotency.AwaitExistingResult | shared/src/idempotency.ts:152-171 | the polling loop answers what the specification of a duplicate says |
| Idempotency.AwaitedIsFirstSettledRow | shared/src/idempotency.ts:159-170 | a duplicate answers `r` exactly when the first row that is not pending, within the budget, is done with `r` |
| Idempotency.RunKeepsKey | shared/src/idempotency.ts:103-171 | invariants of every interleaving: one claim holder per key, successes accounted for, every stored or returned result was produced |
| Idempotency.ExecutorsNeverOverlap | shared/src/idempotency.ts:116-135 | two callers of one key are never inside the mutation or its commit together |
| Idempotency.SuccessesAreBounded | shared/src/idempotency.ts:133-148 | in every run, successes of a key exceed the claims deleted after a success and a lost update by at most one |
| Idempotency.BoundIsMet | shared/src/idempotency.ts:133-148 | for every number of such deletions there is a run with one success more |
| Idempotency.LosersNeverExecute | shared/src/idempotency.ts:126-171 | a caller that lost the race never runs the mutation, whether it is answered, gives up or dies, and whatever follows |
| Idempotency.WaitingHasStartedNothing | shared/src/idempotency.ts:126-131 | a caller that waits or was answered from the ledger has not started the mutation |
| Idempotency.OneSuccess | shared/src/idempotency.ts:133-143 | a history with at most one success of a key holds one result for it |
| Idempotency.EveryReplyIsTheOneResult | shared/src/idempotency.ts:98-171 | while no claim is deleted after a success, all callers of a key that return got the one result of the one success |
| Idempotency.ReturnedIsStored | shared/src/idempotency.ts:139-143 | in every run, whoever returned the result of its own mutation has left it in the ledger |
| Idempotency.DuplicatesGetTheResult | shared/src/idempotency.ts:159-165 | and every later poll of a duplicate within its budget is given that result |
| Idempotency.SucceedsAgainExactlyWhen | shared/src/idempotency.ts:98-171 | in every reachable state: some continuation has a further success exactly when the mutation is running, or a caller is yet to come and the row is gone or its holder alive |
| Idempotency.FreedClaimRunsAgain | shared/src/idempotency.ts:116-148 | whenever the row is gone, the next caller succeeds once more |
| Idempotency.LostUpdateDoublesTheMutation | shared/src/idempotency.ts:134-148 | in any state, a commit that fails and is released lets a waiting newcomer succeed with a result of its own |
| Idempotency.RetryAfterFailure | shared/src/idempotency.ts:144-148 | a released claim lets the next caller run the mutation |
| Idempotency.LostClaimBlocksTheKey | shared/src/idempotency.ts:116-131 | an insert that throws after taking effect: no continuation of the run has another success of the key |
| Outbox.ChainsKeepTheTrace | shared/src/outbox.ts:134-173 | along any chain of reactions the correlation stays, causation links to the predecessor, and depth counts the steps up to its maximum |
| Outbox.BuiltRow | shared/src/outbox.ts:134-173 | the rest of the row: legal types only, its ids, pending and unattempted, depth capped at 16 |
| Outbox.OutboxRelay.Tick | shared/src/outbox.ts:250-268 | a batch with any fates, calls that throw after taking effect included: the new world is the pump specification's, the counters add up to the batch when the tick ends |
| Outbox.TickIsARun | shared/src/outbox.ts:250-268 | a tick is a run of single operations on store and broker, so promises about runs are promises about ticks |
| Outbox.LookAndRecord | activity/src/outbox/mongo-outbox.store.ts:128-148 | reading and writing the count with nobody in between is the whole of `markAttemptFailed`; in runs others may come in between |
| Outbox.RunKeepsOk | shared/src/outbox.ts:195-268 | in every interleaving each row is consistent: published rows acked, pending rows below the maximum of attempts; a relay marks only what was acked |
| Outbox.PublishedWasAcked | shared/src/outbox.ts:254-262 | a published row was acknowledged and its envelope arrived |
| Outbox.RowsPersist | shared/src/outbox.ts:195-207 | no row disappears or changes its envelope |
| Outbox.RequeueMeans | activity/src/outbox/mongo-outbox.store.ts:154-170 | requeueing gives failed rows a new start and touches no other |
| Outbox.AttemptsAreBounded | shared/src/outbox.ts:261-265 | pending rows stay below the maximum in all runs, exactly for a maximum of at least one |
| Outbox.FetchedArePending | shared/src/outbox.ts:195-200 | a fetched batch is pending, distinct and within the limit, and complete below it |
| Outbox.PublishedIsTerminal | shared/src/outbox.ts:250-268 | in every run in which no row is in two relays' hands and no mark throws after taking effect, a published row stays published |
| Outbox.PublishedIsTerminalExactlyWhen | shared/src/outbox.ts:195-268 | a set of relays keeps published rows published in all its runs exactly when it is empty, fetches nothing, or is one relay whose marks never throw after taking effect |
| Outbox.LateMarkReopensPublished | shared/src/outbox.ts:255-265 | one relay takes back a row whose mark took effect and threw, whatever the maximum of attempts |
| Outbox.OverlapReopensPublished | shared/src/outbox.ts:250-268 | any two relays that fetch at all have a run that takes a published row back, without such a mark |
| Outbox.QuietTickDrains | shared/src/outbox.ts:250-268 | a tick in which every publish is acked takes its whole batch off the backlog and leaves only what did not fit |
| Outbox.EachFactOnce | shared/src/outbox.ts:176-178 | a consumer that skips the dedup keys it knows applies each delivered key once; which messages are one fact is said by `FactsAreAppliedOnce` |
| Outbox.FactsAreAppliedOnce | shared/src/outbox.ts:134-178 | a fact, told by its business key or else its message id, is applied once under whatever message ids and deliveries |
| Outbox.TwoSaves | shared/src/outbox.ts:134-178 | two saves are applied once between them exactly when they carry one business key, or none and one message id |
| Outbox.PublishedFactIsAppliedOnce | shared/src/outbox.ts:176-268 | relay and consumer together: the fact of a row that is published, or was acked and taken back, is applied exactly once when delivered |
| BusTopology.Channel.AssertConsumerTopology | shared/src/bus-topology.ts:292-337 | the declarations made, in order, and how far they get on any broker; what they amount to is said by `SetUpGivesExactly` |
| BusTopology.DeclaringAgainIsIdle | shared/src/bus-topology.ts:292-337 | declaring what is in force is accepted and changes nothing |
| BusTopology.AcceptedAreInForce | shared/src/bus-topology.ts:292-337 | after accepted declarations every one of them is in force |
| BusTopology.AcceptedIffConsistent | shared/src/bus-topology.ts:292-337 | an empty broker accepts a list that binds only what it declared before exactly when no two of its declarations clash |
| BusTopology.RetryCountMeans | shared/src/bus-topology.ts:204-210 | which headers count as how many retries |
| BusTopology.ClusterAcceptedExactlyWhen | shared/src/bus-topology.ts:292-337 | any number of consumers can be set up exactly when their names, options and exchanges fit together: no one consumes from the dead-letter exchange, no work queue is named like a queue with other arguments |
| BusTopology.SetUpGivesLadder | shared/src/bus-topology.ts:292-337 | for any consumers and levels, each consumer's work, retry and dead-letter queues stand as the ladder needs them |
| BusTopology.SetUpGivesExactly | shared/src/bus-topology.ts:292-337 | the whole broker after an accepted set-up, in names and arguments: every exchange, queue and binding, and nothing else |
| BusTopology.RoutingKeysAreBound | shared/src/bus-topology.ts:331-334 | every routing key of every consumer is bound, and a queue that is nobody's dead-letter queue is bound to nothing else |
| BusTopology.Rounds | shared/src/bus-topology.ts:230-242 | after each failed round the message is back in its own work queue with its count one higher |
| BusTopology.Ladder | shared/src/consumer-dlq.ts:79-87 | where an always-failing message is after any number of steps, for every starting count: each remaining level once, in order, its work queue in between |
| BusTopology.FailingMessageEndsInItsDlq | shared/src/bus-topology.ts:182-337 | in any accepted cluster it is never lost or altered, and after exactly two steps per remaining level and one it is in its own dead-letter queue |
| BusTopology.EachLevelWaitsItsDelay | shared/src/bus-topology.ts:318-328 | the retry queue of a level holds its message for that level's delay |
| BusTopology.KeyReadableOnTheWay | shared/src/bus-topology.ts:216-242 | from its first hop on the message tells its original routing key wherever it is, dead letters included |
| BusTopology.OriginalKeyIsReadable | shared/src/bus-topology.ts:216-242 | a hop keeps the original routing key readable exactly when the stamped key is not empty (or the queue carries that name) |
| BusTopology.DlxNamesAgree | shared/src/consumer-dlq.ts:53-66 | handler and topology name the same dead-letter exchange exactly on the main exchange |
| BusTopology.ExhaustedExactlyWhen | shared/src/consumer-dlq.ts:53-87 | an exhausted message is dead-lettered, lost or returned to its queue exactly as the handler's exchange has queues, has none, or was never declared |
| BusTopology.UndeclaredExchangeRedeliversForever | audit/src/messaging/rabbitmq.service.ts:67-91 | if it was never declared, a failing message climbs all remaining levels and then stays in its own work queue with the same count at every further step |
| BusTopology.LoneConsumerOnAnotherExchange | shared/src/consumer-dlq.ts:53-66 | a single consumer on another exchange: nobody declares the exchange its handler publishes to |
| BusTopology.QueueNamedLikeADlqIsRefused | shared/src/bus-topology.ts:292-337 | no cluster in which one work queue is named like another consumer's dead-letter queue is accepted |
| BusTopology.LoneConsumerIsAccepted | shared/src/bus-topology.ts:292-337 | a single consumer is accepted exactly when its exchange is not the dead-letter exchange |
| ModuleGraph.EnsureLockedModules | shared/src/module-registry.ts:441-445 | the list with the locked modules added, duplicates gone |
| ModuleGraph.ResolveDependencies | shared/src/module-registry.ts:447-469 | ends on every finite graph, cycles included, with exactly the modules reachable from the valid inputs and the locked ones |
| ModuleGraph.PreviewEnableCascade | shared/src/module-registry.ts:471-476 | exactly the newly reachable modules |
| ModuleGraph.ReachIsLeast | shared/src/module-registry.ts:447-469 | the reachable set is the least dependency-closed set over the roots |
| ModuleGraph.ClosureEquation | shared/src/module-registry.ts:437-469 | the closure as an equation: valid inputs, locked modules, and what modules in it depend on |
| ModuleGraph.ClosureOfClosure | shared/src/module-registry.ts:447-469 | resolving a resolved list adds nothing |
| ModuleRegistry.CascadeOff | shared/src/module-registry.ts:543-566 | turns off exactly the entries with a dependency path through entries to a disabled one, in any list order |
| ModuleRegistry.NormalizeModuleConfigs | shared/src/module-registry.ts:478-577 | defaults, merge, cascade and required modules: the final flags of every entry |
| ModuleRegistry.ExtractEnabledModules | shared/src/module-registry.ts:579-581 | the closure of the enabled entries |
| ModuleRegistry.EnabledNeverDependsOnDisabled | shared/src/module-registry.ts:543-577 | after normalisation no enabled entry depends on a disabled entry |
| ModuleRegistry.LockedOnAndEnabledInstalled | shared/src/module-registry.ts:567-577 | locked modules are on, enabled entries installed |
| ModuleRegistry.MergedMeans | shared/src/module-registry.ts:495-541 | what one record makes of an entry, field by field; settings that fit the module's schema and methods it has survive |
| ModuleRegistry.EntryOfLastRecord | shared/src/module-registry.ts:478-577 | after normalisation everything but the flags of an entry is as its last record and the ones before it made it |
| ModuleRegistry.EntryWithoutRecord | shared/src/module-registry.ts:483-492 | an entry no record names is a default of the closure |
| ModuleRegistry.EffectiveSet | shared/src/module-registry.ts:478-581 | which modules are effectively enabled after normalisation, from the input alone |
| ModuleRegistry.NormalisingAgainIsStable | shared/src/module-registry.ts:478-581 | normalising the output again leaves the extracted set as it is |
| ModuleRuntimeState.SyncKeepsEntry | shared/src/module-runtime-state.ts:123-154 | one entry's sync keeps the rule between settings, suspension and runtime status |
| ModuleRuntimeState.StatusReadAs | shared/src/module-runtime-state.ts:36-41 | how the stored status is read |
| ModuleRuntimeState.RefreshedStatus | shared/src/module-runtime-state.ts:74-100 | what a save that leaves a module on makes of its status |
| ModuleRuntimeState.ResumeExactlyWhen | shared/src/module-runtime-state.ts:103-117 | who may resume, how the others are refused, and what it changes |
| ModuleRuntimeState.ResumeActivates | shared/src/module-runtime-state.ts:103-117 | after a resume that is let through, in any run, the module runs and is not frozen |
| ModuleRuntimeState.RunKeepsInv | shared/src/module-runtime-state.ts:29-154 | every run of saves and resumes keeps it for all entries |
| ModuleRuntimeState.ActiveExactlyWhen | shared/src/module-runtime-state.ts:56-100 | an enabled module runs exactly when its settings are complete and it is not frozen |
| ModuleRuntimeState.ActiveExactlyWhenGiven | shared/src/module-runtime-state.ts:12-100 | in terms of what is stored: an enabled module runs exactly when every required setting is given and it is not frozen |
| ModuleRuntimeState.OnlyResumeThaws | shared/src/module-runtime-state.ts:44-117 | a module turned off by a save is not active again until its delivery is resumed |
| ModuleRuntimeState.ComputeEffectiveModuleProjection | shared/src/module-gating.ts:76-92 | the projection: which modules, which contribute, which run |
| ModuleRuntimeState.FrozenIsNeverProjectedActive | shared/src/module-gating.ts:76-92 | in the projection after any run, the entry of a registered module that is frozen or lacks settings is not flagged as running |
| ModuleRuntimeState.NormalizeCarriesOver | shared/src/module-registry.ts:478-577 | normalising edited entries keeps the entries of registered modules with their runtime fields, as the runs assume; unregistered ones are accepted and dropped |
| ModuleLifecycle.CompareIsATotalPreorder | shared/src/module-lifecycle.ts:99-106 | total, transitive, antisymmetric in sign, on all strings |
| ModuleLifecycle.ParsePrint | shared/src/module-lifecycle.ts:90-96 | a printed version, with any pre-release or build suffix, parses to itself |
| ModuleLifecycle.ParsesExactlyWhen | shared/src/module-lifecycle.ts:90-96 | exactly the texts of that form are versions, white space around them aside |
| ModuleLifecycle.VersionParses | shared/src/module-lifecycle.ts:90-96 | and what they parse to |
| ModuleLifecycle.ResolveRequiredMigrations | shared/src/module-lifecycle.ts:193-209 | one declared step per crossed major, in the code's order |
| ModuleLifecycle.PreviewUpgrade | shared/src/module-lifecycle.ts:346-393 | verdict, refusal and migrations of an upgrade |
| ModuleLifecycle.StepsInOrder | shared/src/module-lifecycle.ts:193-209 | nothing missing: one step per major, increasing; otherwise the least undeclared major is named |
| ModuleLifecycle.UpgradeExactlyWhen | shared/src/module-lifecycle.ts:346-393 | when an upgrade goes through, and how many migrations it has |
| ModuleLifecycle.PreviewByFirstDifference | shared/src/module-lifecycle.ts:112-393 | class, confirmation, migrations or refusal by the first number that differs |
| ModuleLifecycle.UnknownIsRefused | shared/src/module-lifecycle.ts:346-369 | what is not known is refused first: the module, then the target version |
| ModuleLifecycle.UpgradeViaMiddle | shared/src/module-lifecycle.ts:346-393 | a to c succeeds exactly when a to b and b to c do, with the concatenated migrations |
| ModuleLifecycle.UpgradeAlongReleases | shared/src/module-lifecycle.ts:346-393 | the same along any ascending list of releases |
| Visibility.BuildVisibilityFilter | shared/src/rbac.ts:813-837 | the compiled filter of a scope |
| Visibility.VisibilityFilterMeans | shared/src/rbac.ts:813-837 | which documents the filter matches, for every scope and document |
| Visibility.ListAgreesWithRecord | shared/src/rbac.ts:813-958 | list and single-record check agree for every scope on a document whose department is trimmed |
| Visibility.AgreeIffTrimmed | shared/src/rbac.ts:942-958 | for a department of a document, the two agree under all scopes exactly when that department is trimmed |
| Visibility.BuildOwnableVisibilityFilter | shared/src/rbac.ts:848-878 | the compiled filter for rows with an owner field |
| Visibility.OwnableFilterMeans | shared/src/rbac.ts:848-878 | which documents it matches |
| Visibility.OwnableAgreesIffNoEmptyOwner | shared/src/rbac.ts:885-900 | it agrees with the single-record check exactly without an empty owner id in the scope |
| Visibility.BuildCrossEntityVisibilityFilter | shared/src/rbac.ts:920-935 | matches exactly owner-visible rows and rows shared by type and id; with one name for both fields only the id is tested |
| Visibility.UnresolvedMatchesNothing | shared/src/rbac.ts:793-837 | an absent or unhydrated deferred scope matches nothing |
| Visibility.HydrateMeans | shared/src/rbac.ts:763-786 | what hydrating changes in a scope |
| Visibility.DeferredExactlyWhen | control/src/organizations/visibility-resolver.service.ts:225-276 | when control defers a scope, and what it leaves in it |
| Visibility.HydrationRestoresTheScope | control/src/organizations/visibility-resolver.service.ts:225-276 | whatever the inline limit, hydrating the scope that control issued gives back the scope it would have inlined |
| PermissionRbac.BuildPermissionCatalog | shared/src/permission-catalog.ts:92-152 | the catalog holds exactly the pairs contributing manifests declare |
| PermissionRbac.ContributesMeans | shared/src/permission-catalog.ts:92-118 | a module contributes permissions on itself and its parts only, the core any |
| PermissionRbac.ParseKey | shared/src/permission-catalog.ts:49-60 | parsing undoes building a key |
| PermissionRbac.KeyInjective | shared/src/permission-catalog.ts:49-60 | different pairs have different keys |
| PermissionRbac.GrantableMeans | shared/src/permission-rbac.ts:390-412 | which keys may be granted in a project at all |
| PermissionRbac.NeverBeyondProjects | shared/src/permission-rbac.ts:390-540 | no roles and grants give a key of accounts, organisations or billing management |
| PermissionRbac.ScopedRoleStaysInside | shared/src/permission-rbac.ts:461-516 | a role bound to a module gives exactly its grantable keys of that module and its parts |
| PermissionRbac.WhoCan | shared/src/rbac.ts:63-150 | the role matrix by action |
| PermissionRbac.ExceptionsAre | shared/src/rbac.ts:102-169 | the single keys on which a role differs from its row |
| PermissionRbac.ExpandSystemRolePermissions | shared/src/permission-rbac.ts:259-295 | the keys a system role expands to |
| PermissionRbac.ExpandedMeans | shared/src/permission-rbac.ts:259-295 | a grantable key is expanded exactly when catalog, role matrix and elevation rule say so |
| PermissionRbac.CompileEffectivePermissions | shared/src/permission-rbac.ts:482-540 | the compiled allow and deny sets of any roles and grants |
| PermissionRbac.DecideExactlyWhen | shared/src/permission-rbac.ts:558-579 | when the decision is OK: every required key in the catalog, allowed, not denied |
| PermissionRbac.RefusedBecause | shared/src/permission-rbac.ts:558-579 | and which reason a refusal names |
| PermissionRbac.DecoratorsStandFor | shared/src/permission-rbac.ts:332-380 | the decorator pairs with keys of their own; all others stand for themselves |
| PermissionRbac.ExpansionMatchesMatrix | shared/src/permission-rbac.ts:496-579 | deciding over a role's compiled expansion equals the matrix minus elevated pairs of low roles |
| PermissionRbac.OnlyAnalyticExportDiffers | shared/src/rbac.ts:155-169 | on grantable catalog keys the two paths differ only for a low role's export of analytic subjects |
| PermissionRbac.CompanyMergeFollowsExecute | shared/src/permission-rbac.ts:332-351 | the two-key override for merging companies reproduces the matrix row of `execute` |
| SettingsSchema.JsonEqualsReflexive | shared/src/settings-schema.ts:168-180 | structural equality is reflexive |
| SettingsSchema.JsonEqualsSymmetric | shared/src/settings-schema.ts:168-180 | and symmetric, on objects in any field order |
| SettingsSchema.JsonEqualsTransitive | shared/src/settings-schema.ts:168-180 | and transitive |
| SettingsSchema.JsonEqualsMeans | shared/src/settings-schema.ts:168-180 | scalars by value, arrays item by item, objects key by key |
| SettingsSchema.ErrorList.ValidateNode | shared/src/settings-schema.ts:187-268 | appends to the shared errors exactly the specified ones and returns the specified verdict and value; what the keywords mean is said by `NodeReports` and `KeywordsInOrder` |
| SettingsSchema.ErrorList.ValidateObject | shared/src/settings-schema.ts:270-308 | the same for objects |
| SettingsSchema.NodeReports | shared/src/settings-schema.ts:187-268 | a node is valid exactly when it recorded no error, exactly when const, enum, type, bounds, items and properties all hold, and then it is unchanged |
| SettingsSchema.KeywordsInOrder | shared/src/settings-schema.ts:193-246 | the reported keyword is the first of const, enum, type and the bounds of the value's kind that does not hold |
| SettingsSchema.ObjectReports | shared/src/settings-schema.ts:270-308 | every property is kept verbatim or dropped; validity, errors and acceptance coincide |
| SettingsSchema.ErrorsPointAtTheirCause | shared/src/settings-schema.ts:187-332 | every error's path leads to a value, or a missing key, that breaks the keyword it names |
| SettingsSchema.NothingIsDroppedSilently | shared/src/settings-schema.ts:270-308 | every dropped property and every missing required key has an error of its own |
| SettingsSchema.CleaningIsIdempotent | shared/src/settings-schema.ts:270-308 | cleaning the cleaned object changes nothing and can only repeat missing-required errors |
| SettingsSchema.ValidateSettings | shared/src/settings-schema.ts:316-332 | the entry point over shorthand and full schemas |
| SettingsSchema.ValidIffNoErrors | shared/src/settings-schema.ts:316-332 | `valid` exactly when no error was recorded |
| SettingsSchema.ShorthandIsAWhitelist | shared/src/settings-schema.ts:105-147 | under a shorthand schema exactly the listed keys survive |
| SettingsSchema.ShorthandMeans | shared/src/settings-schema.ts:105-123 | what each shorthand descriptor accepts: numbers, texts, flags, lists, one of some texts, one text |
| SettingsSchema.SettingsKeepExactly | shared/src/settings-schema.ts:316-341 | which settings survive under any schema, full or shorthand |
| WebhookTarget.ParseNumericIpv4 | shared/src/webhook-target.ts:77-109 | not numeric, invalid, or the canonical quad of the value the numeral denotes; the last range test cannot fire |
| WebhookTarget.PartsMean | shared/src/webhook-target.ts:81-98 | what hexadecimal, octal and decimal parts denote, up to the safe integers |
| WebhookTarget.PartsWithoutMeaning | shared/src/webhook-target.ts:85-97 | parts that are refused |
| WebhookTarget.InvalidExactlyWhen | shared/src/webhook-target.ts:77-109 | which numeric hosts are invalid: a part without meaning, or numbers that do not fit |
| WebhookTarget.AtonOf | shared/src/webhook-target.ts:99-107 | parts in range sum to a value below 2^32, the one the numeral denotes |
| WebhookTarget.QuadDenotesItself | shared/src/webhook-target.ts:77-109 | a canonical quad denotes its value: canonicalising again is the identity |
| WebhookTarget.QuadTextInjective | shared/src/webhook-target.ts:108 | different addresses have different canonical texts |
| WebhookTarget.PrivateMeansDenied | shared/src/webhook-target.ts:50-64 | the text check denies exactly the listed address blocks |
| WebhookTarget.OnlyQuadTexts | shared/src/webhook-target.ts:50-54 | the text check looks at four groups of one to three digits only, none above a byte |
| WebhookTarget.ExpandIpv6 | shared/src/webhook-target.ts:112-137 | the eight words of a literal |
| WebhookTarget.ReadUndoesPrint | shared/src/webhook-target.ts:112-137 | reading undoes printing for all three forms of section 2.2 of RFC 4291, any compressed run, any embedded quad |
| WebhookTarget.CompressedByWords | shared/src/webhook-target.ts:112-137 | the meaning of compressed text, word by word |
| WebhookTarget.FullByWords | shared/src/webhook-target.ts:112-137 | the meaning of full text, word by word |
| WebhookTarget.NoAddress | shared/src/webhook-target.ts:119-136 | tails, gaps and group counts from which no address is read |
| WebhookTarget.EmbeddedIpv4ClassifiesAsIpv4 | shared/src/webhook-target.ts:140-152 | a mapped or compatible address gets its IPv4 address's verdict, however it is spelled |
| WebhookTarget.OtherIpv6Blocks | shared/src/webhook-target.ts:153-155 | the other denied blocks are fc00::/7 and fe80::/10 |
| WebhookTarget.PlainQuadIsCanonical | shared/src/webhook-target.ts:190 | what `isIP` accepts as IPv4 is the canonical text of what it denotes |
| WebhookTarget.SpellingsClassifyAlike | shared/src/webhook-target.ts:188-207 | decimal, octal, hex and short numerals of an address get the verdict of the address at both gates |
| WebhookTarget.GatesAgreeOnLiterals | shared/src/webhook-target.ts:188-210 | the two gates differ on literals exactly for colon text that is no IPv6 address |
| WebhookTarget.NamesAreInternalExactlyWhen | shared/src/webhook-target.ts:170-211 | a name that is no literal is refused exactly when it is localhost or lies under an internal or configured suffix |
| WebhookTarget.NamesGoByTheirAddresses | shared/src/webhook-target.ts:219-245 | at send time a name passes exactly when none of its IPv4 addresses is denied |
| WebhookTarget.AssertResolvedTargetAllowed | shared/src/webhook-target.ts:219-245 | the send-time gate lets a host through exactly when it, or every address it resolves to, is not denied |
| DocxSanitize.FindEocd | shared/src/docx-sanitize.ts:161-167 | the last end record within reach |
| DocxSanitize.Eocd | shared/src/docx-sanitize.ts:161-167 | a signature at the result, none behind it; -1 only if there is none |
| DocxSanitize.EocdMeans | shared/src/docx-sanitize.ts:161-167 | any signature within reach is at or before the one found |
| DocxSanitize.NoEocd | shared/src/docx-sanitize.ts:161-167 | nothing is found exactly when no signature is within reach |
| DocxSanitize.ParseCentralDirectory | shared/src/docx-sanitize.ts:133-158 | the strict walker, reading only inside the buffer |
| DocxSanitize.IterCentralDirectory | shared/src/docx-sanitize.ts:281-298 | the lenient walker, reading only inside the buffer |
| DocxSanitize.DirectoryMeans | shared/src/docx-sanitize.ts:133-158 | where both walks start, how far they go, and what an empty directory is |
| DocxSanitize.StrictStep | shared/src/docx-sanitize.ts:138-156 | one header of the strict walk, by the field offsets of section 4.3.12 |
| DocxSanitize.WalkStep | shared/src/docx-sanitize.ts:285-297 | one header of the lenient walk |
| DocxSanitize.WalkersAgree | shared/src/docx-sanitize.ts:133-298 | both deliver the same entries in the same order whenever the strict one stays within its cap |
| DocxSanitize.ScanInflatedXmlParts | shared/src/docx-sanitize.ts:188-202 | the first reason among the readable XML parts |
| DocxSanitize.CheckListing | shared/src/docx-sanitize.ts:88-116 | the checks on names, counts, sizes and ratio, in order |
| DocxSanitize.SanitizeDocxBuffer | shared/src/docx-sanitize.ts:81-126 | accepted entries or the first reason to refuse |
| DocxSanitize.AcceptedExactlyWhen | shared/src/docx-sanitize.ts:81-225 | acceptance is equivalent to all bounds, required parts, no macro, and no marker in the buffer or any readable XML part |
| DocxSanitize.RefusedFor | shared/src/docx-sanitize.ts:81-107 | which reason a refusal names, up to the macros |
| DocxSanitize.RefusedPart | shared/src/docx-sanitize.ts:188-225 | how a scanned part condemns the archive |
| DocxSanitize.XxeExactlyWhen | shared/src/docx-sanitize.ts:209-219 | the texts refused as XXE, in terms of what stands in them |
| DocxSanitize.DdeExactlyWhen | shared/src/docx-sanitize.ts:221-225 | the texts refused as DDE |
| DocxSanitize.ScannedPartsAre | shared/src/docx-sanitize.ts:170 | which parts are scanned |
| DocxSanitize.MacrosAre | shared/src/docx-sanitize.ts:93-97 | which names are macros |
| DocxSanitize.SizesAddUp | shared/src/docx-sanitize.ts:103-108 | declared sizes add up |
| DocxSanitize.UnreadableIsMissing | shared/src/docx-sanitize.ts:326-344 | entries without local header, with data beyond the end or of another method have no bytes |
| ZipArchive.ReadingUndoesWriting | shared/src/docx-sanitize.ts:133-158 | both walkers return exactly the entries of an archive written per sections 4.3.12 and 4.3.16 of APPNOTE.TXT, with any archive comment in which no end signature stands where a whole end record would still fit |
| ZipArchive.PlainArchiveComesBack | shared/src/docx-sanitize.ts:133-158 | an archive without a comment comes back without any condition |
| ZipArchive.FindsEndExactlyWhen | shared/src/docx-sanitize.ts:161-167 | the backward search stops at the true end record exactly when no second signature follows where a whole end record would still fit |
| ZipArchive.CentralFields | shared/src/docx-sanitize.ts:144-149 | the header fields are read where section 4.3.12 puts them |
| ZipArchive.PartsComeBack | shared/src/docx-sanitize.ts:326-344 | every written part is read back through its entry: stored as is, deflated inflated |
| DocxPlaceholders.InsertedTagDisappears | shared/src/docx-sanitize.ts:259 | a complete tag inserted outside tags does not change the stripped text |
| DocxPlaceholders.StripLeavesTheTexts | shared/src/docx-sanitize.ts:259 | what is left is exactly the text outside the tags, a last unclosed one included |
| DocxPlaceholders.ScanKeys | shared/src/docx-sanitize.ts:260-267 | sorted, duplicate-free, exactly the keys with an occurrence anywhere in the text |
| DocxPlaceholders.ScannedExactlyWhenOccurring | shared/src/docx-sanitize.ts:234-267 | extracted are exactly the dotted keys between double braces, white space aside |
| DocxPlaceholders.NoOverlap | shared/src/docx-sanitize.ts:261-263 | matches never overlap, so consuming one hides none |
| DocxPlaceholders.ExtractDocxPlaceholders | shared/src/docx-sanitize.ts:249-268 | the keys declared by the stripped text of the readable parts up to the cap |
| DocxPlaceholders.PlaceholderPartsAre | shared/src/docx-sanitize.ts:232 | which parts are read |
| DocxPlaceholders.CollectsUpToTheCap | shared/src/docx-sanitize.ts:250-255 | their texts up to the first that takes them over the cap |
| DocxPlaceholders.TagsDoNotMatter | shared/src/docx-sanitize.ts:249-268 | tags inserted anywhere outside existing ones, even inside a placeholder, leave the keys alone below the cap |
| Activity.CreatedIsSound | activity/src/activity/activity.service.ts:852-964 | a created activity is open, live and has its reminder in step |
| Activity.CreatedExactlyWhen | activity/src/activity/activity.service.ts:757-964 | what is accepted type by type, and what is stored of it |
| Activity.FireTimes | activity/src/activity/activity.service.ts:822-850 | when reminders fire, in milliseconds |
| Activity.NoFireTime | activity/src/activity/activity.service.ts:830-850 | nothing without an offset; an offset without its date is refused |
| Activity.UpdatedExactlyWhen | activity/src/activity/activity.service.ts:1028-1152 | which updates of an open activity are accepted |
| Activity.UpdateRefusedAs | activity/src/activity/activity.service.ts:1028-1152 | how updates are refused |
| Activity.TrashIsOutOfReach | activity/src/activity/activity.service.ts:706-735 | rows in the trash can only be restored, and only they can |
| Activity.UpdateSetsExactly | activity/src/activity/activity.service.ts:1028-1152 | an update sets the fields it is given and no others |
| Activity.StatusMoves | activity/src/activity/activity.service.ts:1066-1080 | the statuses an update may set |
| Activity.OtherMutations | activity/src/activity/activity.service.ts:1244-1416 | what completing, removing and restoring change |
| Activity.ReleasedReminderIsClaimableAgain | activity/src/activity/activity.service.ts:1535-1581 | a claim given back can be claimed again exactly while the row is live and open |
| Activity.UpdateKeepsReminderExactlyWhen | activity/src/activity/activity.service.ts:1016-1133 | when an update keeps the reminder in step with the stored type |
| Activity.ForeignTypeMisplacesReminder | activity/src/activity/activity.service.ts:1122-1133 | the latent branch: an update given a foreign type can break it |
| Activity.ReminderAlwaysInStep | activity/src/activity/activity.service.ts:822-850 | with atomic updates that leave the type alone, a scheduled or fired reminder has an offset and fires that long before its anchor, at all times |
| Activity.TerminalForGood | activity/src/activity/activity.service.ts:1066-1080 | with atomic updates, completed or cancelled activities never become open again |
| Activity.ClaimsExceedReleasesByAtMostOne | activity/src/activity/activity.service.ts:1535-1581 | between reschedulings successful claims exceed effective releases by at most one |
| ActivityRaces.UndisturbedIsAtomic | activity/src/activity/activity.service.ts:1016-1416 | reading and writing with nobody in between is the atomic step |
| ActivityRaces.ReadThenWrite | activity/src/activity/activity.service.ts:1016-1416 | in runs, a read and its write with nobody in between |
| ActivityRaces.LandingKeepsReminderExactlyWhen | activity/src/activity/activity.service.ts:1025-1159 | what a write computed from one row does to another: in step exactly when the anchor it reckoned with is the row's |
| ActivityRaces.TwoUpdatesFromOneRow | activity/src/activity/activity.service.ts:1025-1159 | two updates computed from one row keep the reminder in step exactly when the second does not schedule, brings its date, or the first left that date alone |
| ActivityRaces.ReminderInStepExactlyWhen | activity/src/activity/activity.service.ts:822-1416 | in every interleaving from creation on, always in step exactly when no write lands after its anchor moved |
| ActivityRaces.LandingReopensExactlyWhen | activity/src/activity/activity.service.ts:1066-1106 | a write that lands on a closed activity reopens it exactly when it is an update to an open status |
| ActivityRaces.ClosedForGoodExactlyWhen | activity/src/activity/activity.service.ts:1066-1106 | a closed activity stays closed in all continuations exactly when no such update is in flight |
| ActivityService.ActivityStore.Create | activity/src/activity/activity.service.ts:852-964 | the stored row or the refusal |
| ActivityService.GateExactly | activity/src/activity/activity.service.ts:706-756 | who gets past the gate of a mutation, and how the others are refused |
| ActivityService.ActivityStore.Update | activity/src/activity/activity.service.ts:1016-1159 | the gate, the patch, exactly one row changed |
| ActivityService.ActivityStore.BuildPatch | activity/src/activity/activity.service.ts:1028-1152 | the `$set` of an update and its refusals |
| ActivityService.ActivityStore.Complete | activity/src/activity/activity.service.ts:1244-1273 | completion, its no-op and its refusal |
| ActivityService.ActivityStore.Remove | activity/src/activity/activity.service.ts:1311-1335 | soft deletion drops the reminder |
| ActivityService.ActivityStore.Restore | activity/src/activity/activity.service.ts:1366-1416 | restoring from the trash |
| ActivityService.ActivityStore.ClaimReminderFire | activity/src/activity/activity.service.ts:1535-1556 | succeeds exactly on a live, open row scheduled for that time, which then cannot be claimed again |
| ActivityService.ActivityStore.ReleaseReminderFire | activity/src/activity/activity.service.ts:1570-1581 | undoes a claim of that fire time and nothing else |
| ActivityService.ActivityStore.ClaimOverdueNotification | activity/src/activity/activity.service.ts:1445-1461 | succeeds exactly on a live, open, overdue, unmarked row |
| ActivityService.ActivityStore.PublishOverdueEvent | activity/src/activity/activity.service.ts:1486-1518 | row, event and answer of one call, for every way its claim, enqueue and release may end |
| ActivityOverdue.PublishIsARun | activity/src/activity/activity.service.ts:1486-1518 | such a call is a run of one scanner, so promises about runs are promises about calls |
| ActivityOverdue.EventsAreBounded | activity/src/activity/activity.service.ts:1445-1529 | any scanners, errors, crashes and edits: events exceed the claims given back after their event by at most one |
| ActivityOverdue.AtMostOneOverdueEvent | activity/src/activity/activity.service.ts:1445-1529 | if an enqueue that throws enqueued nothing: at most one overdue event per activity |
| ActivityOverdue.LateThrowsRepeatTheEvent | activity/src/activity/activity.service.ts:1511-1516 | for every claimable row and every number of such claims, a run with one event more |
| ActivityOverdue.ReleasedClaimIsClaimableAgain | activity/src/activity/activity.service.ts:1520-1529 | after a released failed claim the row is claimable exactly while live, open and overdue |
| ActivityOverdue.EscalationLostExactlyWhen | activity/src/activity/activity.service.ts:1445-1529 | in every run: a marked row has an event or a scanner at work exactly unless, before any event, a holder crashed, a release threw without effect or a claim threw after its effect; otherwise it is marked, silent and unattended |
| ActivityOverdue.AbandonedClaimStaysSilent | activity/src/activity/activity.service.ts:1486-1518 | such a row stays marked and without an event in every continuation |
| ActivityMerge.MergeStore.RewriteContactLinksOnMerge | activity/src/activity/activity.service.ts:307-368 | the loops over sources and rows: the new rows, and the count of pairs moved |
| ActivityMerge.PairsAddUp | activity/src/activity/activity.service.ts:319-368 | the count of moved pairs is the number of sources each live activity of the project links |
| ActivityMerge.LinkedMeans | activity/src/activity/activity.service.ts:323-327 | which sources an activity links |
| ActivityMerge.RepointedLinks | activity/src/activity/activity.service.ts:338-342 | what becomes of each link |
| ActivityMerge.CleanSources | activity/src/activity/activity.service.ts:313-316 | the trimmed, distinct, non-empty sources other than the target |
| ActivityMerge.MergeRepointsExactlyTheSources | activity/src/activity/activity.service.ts:323-353 | no live activity of the project links a source; all other links keep place, type and id; everything else untouched |
| ActivityMerge.SourceOrderDoesNotMatter | activity/src/activity/activity.service.ts:323-353 | the order of the sources does not matter |
| ActivityMerge.SecondRunMovesNothing | activity/src/activity/activity.service.ts:301-306 | a redelivered merge moves nothing and changes nothing |

## Left out

- Bootstraps, transports, loggers, swagger, HTTP and gRPC filters: wiring only.
- Mongo, Prisma, amqplib, DNS, zlib, UTF-8 decoding, upper-casing and `isIP` for IPv6: parameters, or state with the stated contract.
- A call that throws has taken effect by then or never does; effects that arrive later are not modelled.
- TTL expiry of ledger rows and a `findOne` that fails while polling: not modelled; the latter ends a caller like a crash does.
- Generated ids, clocks and random values: parameters. Numbers are unbounded integers (times, sizes, versions); NaN dates are not modelled.
- JavaScript strings are sequences of characters: surrogate pairs, and object keys that name members of `Object.prototype`, are not modelled.
- The first, topic-routed delivery of a message to a work queue: the ladder starts at the first delivery. Wall-clock waiting is not modelled, only order and number of hops.
- The outbox stores beyond fetching, marking, recording and requeueing, the fallback without transactions, and the `abac/` compiler: the verdict of the access gate is a parameter.
- Provenance of compiled permissions, labels and sort order of the catalog, policy editing and self-escalation checks: sets of keys only.
- Visibility scopes in transit (base64, JSON) and the expansion of a policy into id lists: not modelled, the lists are given; documents have string, missing or null fields, no arrays.
- Settings: a schema node that is not an object and error texts are not modelled; `pattern` is not among the keywords of the validator.
- Webhook URLs: parsing the URL and stripping brackets. In IPv6 text the prefixes `parseInt` and `Number` would accept beyond hex and decimal digits, which `isIP` lets through only inside a zone identifier, are not modelled.
- DOCX: ZIP64 and a null buffer.
- Activity: titles, descriptions, participants, locations and other payload fields beyond what validation looks at; membership checks of assignees and departments; lists, sorting, paging, calendars; link snapshots on create, update and restore; events other than the overdue one; the scheduler that claims and releases reminders.
- Merging: the name resolver is a function of its links, so a resolver that answers differently on each call is covered for what links point at, not for snapshots. Company merges follow the same code with one source and are not repeated.
- Enabling, disabling, installing and uninstalling guards of the module lifecycle, the manifests' own locked flag, static tables, templates, seeds, retention: they would only add easy members.
