# keepup: what its protocols keep

keepup runs as several replicas against one database. Its hard code is a set of
small protocols that must stay correct while replicas, coroutines and the clock
interleave: the distributed lock, the request-audit buffer, the plugin runtime
and its service registry, sessions, the login throttle and the second factor, the
gateway, the cluster's commands, the per-replica cache, the SQL translator and
the chunked purge. This project models them in Dafny and proves what they promise.

How the models are built:

- A protocol whose parts interleave is a machine on values: a `State`, a `Step`
  for each SQL statement or step between two awaits, `Enabled`, `Apply`, and runs
  as sequences of steps (`Legal`, `After`). Instants are integers; a statement
  carries the clock its replica read, which may be older than the moment it runs.
  Extra fields of a state only record what happened.
- A class or loop of the source is a class or method here, proved against the same
  functions the machine uses: `DatabaseLock`, `IncomingRequestLogger`, `Registry`,
  `Runtime`, `PanelSessions`, `LoginAttempts`, `TotpTable`, `Balancer`, `Send`,
  `ReplicaController`, `ReplicaCache`, `Rewrite`, `PurgeOlderThan`.
- What another system decides is a parameter: clocks, the JSON and token formats,
  the one-time code function, whether a write or a load succeeds, what an address
  answers, what a plugin's hooks do.

Where the code does not do what its comments or a natural reading promise, the
code is modelled as it is, a lemma gives an input that shows it, and another says
exactly when the promise holds:

| what fails | shown by | holds exactly when |
|---|---|---|
| The takeover's DELETE filters by name only and can remove a live holder's row | `DistributedLock.TakeOverRace` | `DistributedLock.TakeOverIsSafeIff`, over runs `DistributedLock.ExclusiveThroughoutIff`, from the table alone `DistributedLock.TakeOverIsSafeToSeeIff` |
| "A third leaves room for two missed beats", but not for the time the calls take | `LockBeat.TwoMissesAndASecond` | `LockBeat.BeatKeepsTheLockIff`, for one limit `LockBeat.BeatsFitIff` |
| After a put-back the first buffered request is not the oldest, and the trimming drops a younger one | `AuditMachine.TrimDropsTheYounger` | `AuditMachine.PutBackKeepsOldestFirstIff` |
| A row ignored by the insert is not always already in the table | `AuditMachine.SecondOfAKeyIsLost` | `AuditMachine.OutcomesSurvive`, and before the write `AuditMachine.RecordedForGoodIff` |
| A flush cancelled while its write fails loses its batch | `AuditMachine.CancelledBatchIsLost` | `AuditMachine.LosesIffCancelled` |
| A lazily built service can be older than the version asked for | `ServiceRegistry.StaleBuild` | `ServiceRegistry.NeverStaleIff` |
| Where local time is behind UTC each renewal puts a session's beginning off, and it never ends | `Sessions.NeverEnds` | `Sessions.SessionCeilingIff` |
| With a long token lifetime a purge takes a live session's row | `Sessions.PurgeTakesALiveRow` | `Sessions.PurgeIsSafeIff` |
| The empty name is never throttled | `LoginThrottle.Unthrottled` | `LoginThrottle.ThrottledIff` |
| An encoded slash hides a dot segment from the path check | `GatewayTable.HiddenSlashPasses` | `GatewayTable.PassesIffSafelyRead` |
| Two services can share a route id | `GatewayRegistry.TwoShareAnId` | `GatewayRegistry.IdsMeetIff` |
| A purge can change what deregistering answers | `GatewayRegistry.PurgeIsSeen` | `GatewayRegistry.UnseenUnbrokenIff`, with broken registrations `GatewayRegistry.PurgeIsUnseenIff` |
| A load in flight re-stores what an invalidate dropped | `ReplicaCaches.StoredLate` | `ReplicaCaches.InvalidateHoldsIff` |
| Placeholders side by side, or a cast behind one, are misread by stricter readers | `PositionalSql.SideBySide`, `PositionalSql.CastBehindAPlaceholder` | `PositionalSql.MeaningIsPreservedIff` |
| A backslash of the query before a colon is read as an escape | `PositionalSql.BackslashIsLost` | `PositionalSql.MeaningIsPreservedIff` |
| An empty batch is not always accepted | `PositionalSql.EmptyBatches` | `PositionalSql.EmptyBatchFitsIff` |

## Model

| member | source | states |
|---|---|---|
| DistributedLock.MutualExclusionOverRuns | locks.py:42-176 | In every interleaving of ticks, sweeps, inserts, takeovers, renewals, releases and crashes of any number of replicas, at most one replica is inside a name and the row names it, as long as no holder's row outgrows the smallest limit of its name and a takeover deletes the row it read. |
| DistributedLock.StepKeepsInv | locks.py:42-176 | Each single statement, flag change and crash keeps mutual exclusion under those two conditions at that step. |
| DistributedLock.TakeOverIsSafeIff | locks.py:115-121 | The takeover's DELETE, which filters by name alone, keeps mutual exclusion if and only if the row it finds does not belong to a replica that is inside. |
| DistributedLock.ExclusiveThroughoutIff | locks.py:42-176 | Over every run whose rows stay fresh: at each moment at most one replica is inside and the row names it, if and only if no takeover's DELETE finds the row of a replica that is inside. |
| DistributedLock.TakeOverIsSafeToSeeIff | locks.py:115-121 | From the table alone, which is what a caller can look at: the DELETE keeps mutual exclusion in every state with this table and clock if and only if the row it would find is abandoned, that is missing, nobody's, or older than the limit of some replica that wants the name. |
| DistributedLock.TakeOverRace | locks.py:99-121 | A concrete run with every row fresh, in the order each replica's statements come: two replicas sweep, insert in vain and judge a dead holder's row expired; the read and the DELETE of one takeover are separated, and both end up inside. |
| LockBeat.BeatKeepsTheLock | locks.py:186-228 | A holder sleeps a beat of a third of the limit after each call, then reads its clock; with no more misses in a row than tolerated and no call longer than a lag, as long as the beats fit into the limit no holder's row ever goes stale and mutual exclusion holds over every run: the freshness condition is discharged. |
| LockBeat.BeatKeepsTheLockIff | locks.py:186-228 | Mutual exclusion holds over every such run from an empty table if and only if the beats fit: for each two that want one name, the beats and calls of all tolerated misses and the renewal after them come within the other's limit. |
| LockBeat.TwoInside | locks.py:186-228 | When they do not fit, for any two replicas concerned: the run in which one keeps every rule, its row is swept as stale, and the other enters beside it. |
| LockBeat.TimedStepKeepsInv | locks.py:130-160 | Each timed step leaves every holder on its beat: the age of its row when it wakes next is at most one beat and one call, and as much again for each miss. |
| LockBeat.OnBeatIsFresh | locks.py:186-228 | A holder on its beat has a row no older than anybody's limit for the name. |
| LockBeat.BeatsFitIff | locks.py:186-228 | With one limit for all, the beats fit if and only if misses + 1 beats and misses + 2 calls come within it: two misses fit exactly from three seconds on and only when calls take no time at all, one miss leaves three calls a third of the limit and the remainder. |
| LockBeat.TwoMissesAndASecond | locks.py:186-228 | For a limit of ten minutes, two misses and calls of one second: the run that ends with two replicas inside. |
| DatabaseLockObject.DatabaseLock.Acquire | locks.py:42-93 | With nobody between its statements the lock is taken exactly when no row of its name is within the limit, and then its row carries the clock of the INSERT that took it; a refusal changes neither table nor flag, and no other name's row is touched. |
| DatabaseLockObject.DatabaseLock.TryAcquireExisting | locks.py:95-128 | Takes over exactly when the row is strictly older than the limit, and then the row is its own. |
| DatabaseLockObject.DatabaseLock.Renew | locks.py:130-160 | True exactly when the flag was set and the row was still this holder's; otherwise the flag is gone and the table is as it was. |
| DatabaseLockObject.DatabaseLock.Release | locks.py:162-176 | Only a holder deletes, and only its own row. |
| DatabaseLockObject.AcquireIsARun | locks.py:42-93 | An undisturbed attempt of an idle locker is a run of the machine, and holds the lock afterwards exactly when no row of its name was within its limit. |
| DatabaseLockObject.ReleaseIsARun | locks.py:162-176 | A holder's release is a run of the machine: its own row goes and no other's, and it is idle again. |
| DatabaseLockObject.DistributedLockScope | locks.py:206-244 | The context manager leaves no row of its name behind, whatever its renewals, and a lock it could not take as it was. |
| AuditMachine.ConservationOverRuns | packages/keepup-audit/keepup_audit/audit.py:185-335 | In every interleaving of starts, ends, picks, successful, failed and cancelled writes, each started request is in exactly one of buffer, picked, written, dropped, lost, and the buffer and the batch hold no id twice. |
| AuditMachine.CountsAddUp | packages/keepup-audit/keepup_audit/audit.py:185-335 | The counts always add up to the number of requests started, and nothing is lost over a run if and only if it cancels no flush whose write fails. |
| AuditMachine.StepConserves | packages/keepup-audit/keepup_audit/audit.py:185-335 | Each single step moves requests between the four places without losing or duplicating one. |
| AuditMachine.LostOnlyByCancelling | packages/keepup-audit/keepup_audit/audit.py:317-325 | The put-back catches an error and not a cancellation: a step loses requests exactly when it cancels a flush whose write fails, and then the whole batch and nothing else. |
| AuditMachine.LosesIffCancelled | packages/keepup-audit/keepup_audit/audit.py:317-325 | From any state: a run's lost requests only grow, and grow if and only if it cancels a flush whose write fails. |
| AuditMachine.CancelledBatchIsLost | packages/keepup-audit/keepup_audit/audit.py:317-325 | A concrete run in which a finished request is picked, the flush is cancelled, and the request is neither buffered nor in the table. |
| AuditMachine.StartEndsWithinLimit | packages/keepup-audit/keepup_audit/audit.py:185-206 | Every start ends with the buffer at or below the hard limit and never drops its own request. |
| AuditMachine.PutBackRestores | packages/keepup-audit/keepup_audit/audit.py:317-325 | The put-back of a failed flush meets none of its requests in the buffer, so it overwrites nothing and brings back all of them. |
| AuditMachine.OutcomesSurvive | packages/keepup-audit/keepup_audit/audit.py:209-335 | Over every run from an empty buffer, whatever calls, failures, put-backs and cancellations come in between: a request has its own row, with the last status, response and error its end calls were given and the instant of the last of them, if and only if it was written before every other request of its instance, method, endpoint and start. |
| AuditMachine.OwnKeySurvives | packages/keepup-audit/keepup_audit/audit.py:209-335 | So a written request whose key no other request shares has its row with its last outcomes. |
| AuditMachine.RecordedForGoodIff | packages/keepup-audit/keepup_audit/audit.py:307-329 | What can be told before the write: a request of the batch gets its row and keeps it in every run from there if and only if its key is not in the table and no request before it in the batch has that key. |
| AuditMachine.SecondOfAKeyIsLost | packages/keepup-audit/keepup_audit/audit.py:307-329 | A concrete run from an empty buffer in which two requests share a key, both are written, and the second has no row: the claim that an ignored row is already in the table fails. |
| AuditMachine.WrittenIsFinal | packages/keepup-audit/keepup_audit/audit.py:217-220 | Once written, a request is answered False by every later end call and its row never changes. |
| AuditMachine.UnfinishedLeavesOnlyWhen | packages/keepup-audit/keepup_audit/audit.py:276-286 | A request never told anything leaves the buffer only past the hard limit, at shutdown, or when it has run for the stale time. |
| AuditMachine.PickTakesIff | packages/keepup-audit/keepup_audit/audit.py:276-286 | A flush picks a buffered request if and only if the process shuts down, an end call reached it, or it has run for an hour; otherwise it stays. |
| AuditMachine.RecordedIffFirstOfItsKey | packages/keepup-audit/keepup_audit/audit.py:307-329 | The batch insert on any table: of the requests of one key exactly the first is recorded, and only when the table has none. |
| AuditMachine.PutBackKeepsOldestFirstIff | packages/keepup-audit/keepup_audit/audit.py:198-201 | The buffer stays oldest first after a put-back if and only if nothing in it is younger than the batch that comes back behind it. |
| AuditMachine.TrimDropsTheYounger | packages/keepup-audit/keepup_audit/audit.py:198-201 | A concrete run in which the trimming after a failed flush drops the younger request and keeps the older one. |
| AuditBuffer.PickSplits | packages/keepup-audit/keepup_audit/audit.py:276-286 | What a flush picks and what it leaves partition the buffer, the picked are exactly the due ones. |
| AuditBuffer.StoredKeeps | packages/keepup-audit/keepup_audit/audit.py:307-316 | A batch insert changes no row already there, adds only rows of the batch, and afterwards every key of the batch has a row. |
| RequestLogger.IncomingRequestLogger.StartRequest | packages/keepup-audit/keepup_audit/audit.py:185-206 | The buffer afterwards is the old one and the request behind it, without as many of the first entries as exceed ten thousand, each counted as dropped; a flush is asked for exactly when the buffer is full, none runs and no pause is on. |
| RequestLogger.IncomingRequestLogger.EndRequest | packages/keepup-audit/keepup_audit/audit.py:217-249 | True exactly when the request is buffered; its entry takes only what this call was told, and no other entry changes. |
| RequestLogger.IncomingRequestLogger.FlushBuffer | packages/keepup-audit/keepup_audit/audit.py:252-335 | Exactly what has ended or runs for an hour, at shutdown everything, leaves; a successful flush keeps the rows there were and gives each new key a row with the end, status, response and error of its entry; a failed one moves the batch behind the rest and loses nothing; the number returned is the number of new rows. |
| RequestLogger.IncomingRequestLogger.TakeDue | packages/keepup-audit/keepup_audit/audit.py:276-286 | Under the buffer's lock exactly the due entries leave, in order, and the others keep theirs. |
| RequestLogger.IncomingRequestLogger.GiveBack | packages/keepup-audit/keepup_audit/audit.py:317-325 | The setdefault loop leaves what is buffered in front as it is, puts back in order exactly the entries whose id is missing, and sets the pause. |
| RequestLogger.IncomingRequestLogger.LogApiRequest | packages/keepup-audit/keepup_audit/audit.py:439-481 | After the context manager, whatever the route reported and whether or not it failed, the entry holds the last status, response and error: the calls of its except and finally clauses erase nothing. |
| RequestLogger.RequestsTable.InsertOrIgnore | packages/keepup-audit/keepup_audit/audit.py:307-335 | A batch adds exactly as many rows as it reports; rows there stay, each new one carries the end, status, response and error of an entry of its key, and clashes are ignored in order. |
| ServiceRegistry.Newest | kernel/services.py:188-195 | The provider chosen is at or above the minimum and no provider is newer; none is chosen only when none is new enough. |
| ServiceRegistry.Registry.Provide | kernel/services.py:78-125 | Refused exactly when frozen or nameless, and otherwise the provider stands last of its name; nothing published is withdrawn. |
| ServiceRegistry.Registry.Require | kernel/services.py:154-186 | The newest provider, the first of its version, decides: too old fails, an object is answered, and for a factory the object already built under the name or, the first time, its own, which is kept; where no built name has a newer provider without an object, the answer is new enough and that stays so. |
| ServiceRegistry.Registry.CheckDuplicates | kernel/services.py:197-213 | Finds a clash exactly when some required name has more than one provider. |
| ServiceRegistry.Registry.Freeze | kernel/services.py:215-222 | Freezes exactly when no required name has two providers or more. |
| ServiceRegistry.SatisfiedAndUnambiguousIsExactlyOne | kernel/services.py:188-222 | A satisfied requirement of a required name has exactly one provider, new enough, once duplicates are refused. |
| ServiceRegistry.StaleBuild | kernel/services.py:154-186 | A concrete sequence in which a lazily built older object is handed to a consumer that asked for a newer version. |
| ServiceRegistry.NeverStaleIff | kernel/services.py:78-222 | Over every sequence of offers and requirements, each answered requirement is answered at its version or a higher one if and only if the registry is frozen and no built name has a newer provider without an object of its own. |
| PluginDecisions.ByPriorityIsStable | kernel/lifecycle.py:699-731 | Initialisation order is a permutation of the phase in priority order with ties in catalogue order. |
| PluginDecisions.ListingIsSound | kernel/lifecycle.py:382-442 | A phase's list holds only entries of that phase that are decided and not missing, each with its decision, in catalogue order. |
| PluginDecisions.ListingIsComplete | kernel/lifecycle.py:382-442 | No entry of the phase that is decided and installed is missing from its list. |
| PluginDecisions.OptionalIsDecidedBy | plugins/enablement.py:80-115 | Who decides about an optional plugin without a dialect choice, strongest first: the environment's disabling, its enabling, the panel, the file; otherwise it is off. |
| PluginDecisions.RequiredIsDecidedBy | kernel/lifecycle.py:597-634 | A required plugin or a transport runs unless disabled or off in its file, when it is installed or somebody asks for it; disabling an installed one stops the start; the panel has no say. |
| PluginDecisions.DialectDecides | kernel/lifecycle.py:606-612 | With one database configured a plugin for a dialect runs exactly when it is that one, capital and small letters alike, whoever says otherwise. |
| PluginDecisions.RefusedIff | kernel/lifecycle.py:405-430 | Deciding an entry stops the start exactly when the environment disables an installed plugin that is not optional, or a required one its file enables is not installed. |
| PluginInvariant.OptionalRun | kernel/lifecycle.py:699-731 | Nothing but its own hooks or an unpublished need keeps an optional plugin that is switched on and installed out of the start order. |
| PluginInvariant.SwitchesHold | kernel/lifecycle.py:636-645 | An optional plugin in the start order is switched on by environment, panel or file in that order, and one that is switched on, installed, able and satisfied is in it: what the panel switched off never runs. |
| PluginInvariant.StopReversesTheStart | kernel/lifecycle.py:330-343 | What a stop cleans is cleaned once each, in exactly the reverse of the start order. |
| PluginInvariant.CleanedAre | kernel/lifecycle.py:330-343 | A stop cleans every started plugin that has a cleanup hook and no other. |
| PluginInvariant.NeedsHaveOneProvider | kernel/lifecycle.py:699-745 | When duplicates were refused, each service an initialised plugin needs has exactly one provider at a sufficient version. |
| PluginInvariant.PanelKeepsOff | kernel/lifecycle.py:473-499 | No plugin the panel switched on offers a service that an enabled plugin cannot run without. |
| PluginInvariant.RequiredRun | kernel/lifecycle.py:565-595 | Every required, enabled and installed plugin is in the start order and its check said yes. |
| PluginRuntime.Runtime.Start | kernel/lifecycle.py:263-323 | After a successful start the registry is frozen, the order names exactly the initialised plugins with the required phase first and priorities inside a phase, every service an initialised plugin needs has exactly one provider, every required plugin that is enabled and installed runs, an optional plugin runs only when environment, panel or file, strongest first, switch it on, and then does if it loads, initialises and has its needs published by a plugin that registered, and the panel chose no provider of a required service; a second start changes nothing. |
| PluginRuntime.Runtime.Stop | kernel/lifecycle.py:330-343 | Cleans the plugins with a hook from the end of the order to its beginning and empties the order. |
| PluginRuntime.StartAndStop | kernel/lifecycle.py:263-343 | Over one life what came up is what is cleaned, once each and in reverse. |
| PluginRuntime.Runtime.Decide | kernel/lifecycle.py:382-442 | Refuses exactly when an entry of the phase must stop the start; otherwise records and lists exactly the phase's decisions, each telling its entry's kind, priority, plugin and outcome and, for an optional one, whether it is switched on. |
| PluginRuntime.Runtime.DecideOne | kernel/lifecycle.py:597-634 | Refuses exactly an entry that must stop the start, goes on exactly with one that is off or installed, and records of it kind, priority, plugin, outcome and decision, and nothing else. |
| PluginRuntime.Runtime.Register | kernel/lifecycle.py:658-680 | Stops exactly when an enabled required plugin does not load; otherwise exactly the enabled plugins that load are loaded. |
| PluginRuntime.Runtime.RegisterOne | kernel/lifecycle.py:658-697 | Publishes in order up to the first nameless provider, marks the needs, and leaves every other plugin's state alone. |
| PluginRuntime.Runtime.InitializeOne | kernel/lifecycle.py:699-731 | Initialised exactly when it loaded, all its needs are met at its turn and its own initialisation succeeds, and then it stands last in the order. |
| PluginRuntime.Runtime.Initialize | kernel/lifecycle.py:699-731 | A phase is initialised in its stable priority order, everything ready when the phase began ends up running, and nothing outside the phase changes. |
| PluginRuntime.Runtime.CheckTheRequired | kernel/lifecycle.py:565-595 | Either every running required plugin answered yes and nothing changed, or one that must run is stopped; the order stays exactly that of the plugins running. |
| PluginRuntime.Runtime.RefuseProvidersThePanelChose | kernel/lifecycle.py:473-499 | Passes exactly when no panel-chosen plugin offers a marked service. |
| PluginRuntime.Runtime.MarkRequiredServices | kernel/lifecycle.py:461-471 | Marks every need of every enabled plugin, whether or not it came up. |
| Sessions.SessionCeiling | packages/keepup-auth/keepup_auth/dependencies.py:231-296 | Over every chain of renewals through both doors a session's tokens carry its login's answer about staying signed in; where local time is not behind UTC no token of an ordinary session is good after start, renewal window and token lifetime together, and in UTC it keeps its login's mark. |
| Sessions.SessionCeilingIff | packages/keepup-auth/keepup_auth/dependencies.py:231-307 | That ceiling holds over every run if and only if the process's local time is not behind UTC: the mark of a beginning is a UTC instant converted as local time and read back as UTC, so each renewal moves it by the zone. |
| Sessions.NeverEnds | packages/keepup-auth/keepup_auth/dependencies.py:231-307 | Where local time is behind UTC: a run in which an ordinary session is renewed for as many seconds as one likes. |
| Sessions.RememberedRenewsWithinItsWindow | packages/keepup-auth/keepup_auth/routes.py:207-303 | A remembered session renews by its credential only within its window of the last renewal, and by a token within that window less what local time is ahead of UTC. |
| Sessions.CredentialIsItsOwn | packages/keepup-auth/keepup_auth/panel_session.py:312-335 | In every state of every run the credential door opens for a session exactly while its row is there, to the digest it was signed in with, if it asked to stay signed in, before it is revoked or its row's end, for an active account. |
| Sessions.RevocationIsPermanent | packages/keepup-auth/keepup_auth/panel_session.py:275-371 | Once a session is revoked, no later state of any run accepts a token naming it, purges and new sessions included. |
| Sessions.AcceptsIff | packages/keepup-auth/keepup_auth/dependencies.py:310-460 | In every state of every run a token is let through exactly when it was issued, has not run out, and names a session whose row is there, which is not revoked and whose account is active. |
| Sessions.OverIsOver | packages/keepup-auth/keepup_auth/dependencies.py:231-307 | Past its ceiling nothing of an ordinary session is let through, where local time is not behind UTC. |
| Sessions.PurgeSparesLiveTokens | packages/keepup-auth/keepup_auth/panel_session.py:381-385 | A purge never removes the live row behind a token that has not expired, as long as no token outlives the time its row is kept. |
| Sessions.PurgeIsSafeIff | packages/keepup-auth/keepup_auth/panel_session.py:275-385 | With the row's end and the token's end read from the clock one after the other, the latter kept in whole seconds: a purge spares the live rows of every run if and only if token lifetime and lag are at most the remember window, the week and one tick, and the lag at most the week and one tick. |
| Sessions.PurgeTakesALiveRow | packages/keepup-auth/keepup_auth/panel_session.py:381-385 | Whenever that fails, a concrete run in which a purge signs a person out. |
| SessionStore.PanelSessions.OpenSession | packages/keepup-auth/keepup_auth/panel_session.py:275-291 | A new session has a live row of its own with the window it was given. |
| SessionStore.PanelSessions.Extend | packages/keepup-auth/keepup_auth/panel_session.py:294-299 | Moves the end of a live session, of no ended one, and changes nobody's owner. |
| SessionStore.PanelSessions.Revoke | packages/keepup-auth/keepup_auth/panel_session.py:359-363 | Ends one live session for good and changes no other's owner. |
| SessionStore.PanelSessions.RevokeAll | packages/keepup-auth/keepup_auth/panel_session.py:366-370 | Ends every session of the account and no other. |
| SessionStore.PanelSessions.PurgeExpired | packages/keepup-auth/keepup_auth/panel_session.py:381-385 | Exactly the rows that ended more than the kept time ago go. |
| SessionStore.PanelSessions.IssueSessionToken | packages/keepup-auth/keepup_auth/dependencies.py:258-296 | Refuses exactly a renewal outside its window, changing nothing; otherwise the token carries the start on, or slides it when remembered, and the row moves with it; check, row and token each read the clock. |
| SessionStore.PanelSessions.RefreshAccessToken | packages/keepup-auth/keepup_auth/routes.py:207-256 | Renews exactly inside the window, for the same session and the same answer about staying signed in. |
| SessionStore.PanelSessions.RefreshFromCredential | packages/keepup-auth/keepup_auth/routes.py:259-303 | Renews exactly when the row has that digest, is live, remembered and inside its window, and the account is active; a blocked account is told so only then, and a refusal changes nothing. |
| LoginThrottle.AtMostMaxChecks | packages/keepup-auth/keepup_auth/login_throttle.py:116-183 | However many logins for one name interleave, at most max_attempts reach the password check between two resets of the count. |
| LoginThrottle.SpentStaysShut | packages/keepup-auth/keepup_auth/login_throttle.py:83-105 | Once the count is spent, nothing more reaches the check until a whole window has passed since the last attempt counted, or since the earliest clock a later statement can carry, unless the name signs in. |
| LoginThrottle.GuessRate | packages/keepup-auth/keepup_auth/login_throttle.py:83-183 | Since a name's last success at most max_attempts reach the check for every window begun, a window counted shorter by the lag of a statement behind its clock. |
| LoginThrottle.ThrottledIff | packages/keepup-auth/keepup_auth/login_throttle.py:157-158 | The bound holds for a name exactly when it is not empty: logins under the empty name are not counted. |
| LoginThrottle.CountedIs | packages/keepup-auth/keepup_auth/login_throttle.py:116-170 | An attempt is numbered one more than the count, or one when there is none or a window has passed since the last failure, and stamps the row; the empty name is numbered nought. |
| LoginThrottle.LockedUntilIs | packages/keepup-auth/keepup_auth/login_throttle.py:83-113 | A name is locked exactly once its count is spent and until a window after its last failure. |
| LoginThrottle.LoginAttempts.ReserveAttempt | packages/keepup-auth/keepup_auth/login_throttle.py:143-170 | The number answered is the count the statement left in the row. |
| LoginThrottle.LoginAttempts.RecordSuccess | packages/keepup-auth/keepup_auth/login_throttle.py:173-183 | The name's row goes and the name is not locked at any instant. |
| LoginThrottle.LoginAttempts.Login | packages/keepup-auth/keepup_auth/routes.py:427-479 | The password is looked at exactly when the name is not locked and its number is within the limit; a locked name is not counted, and only a right password clears the count. |
| SecondFactor.AcceptedStepsIncrease | packages/keepup-auth/keepup_auth/mfa.py:178-213 | Section 5.2 of RFC 6238 over every interleaving of reads and claims: accepted steps strictly increase above the one confirm spent, each within a step of the instant its code was typed and carrying that step's code. |
| SecondFactor.ReplayNeedsACollision | packages/keepup-auth/keepup_auth/mfa.py:98-110 | One typed code lets two verifications in only if the secret has that code at two different steps. |
| SecondFactor.RecoveryCodesAreConserved | packages/keepup-auth/keepup_auth/mfa.py:188-201 | Accepted recovery digests and the stored list are together always the list that was given, as multisets. |
| SecondFactor.MatchIsEarliest | packages/keepup-auth/keepup_auth/mfa.py:98-110 | The step matched is the earliest unspent one around now whose code was typed, and no match means there is none. |
| SecondFactor.OpensAtIff | packages/keepup-auth/keepup_auth/mfa.py:73-110 | A code opens a step exactly from the half minute before it to the one after it, above the last one spent, with six digits that are the step's code; other characters typed do not count. |
| SecondFactor.Matches | packages/keepup-auth/keepup_auth/mfa.py:98-110 | The loop over the three steps answers that match. |
| SecondFactor.WithoutTakesOne | packages/keepup-auth/keepup_auth/mfa.py:188-192 | Removing a stored digest leaves the list with exactly one occurrence less. |
| SecondFactor.TotpTable.Begin | packages/keepup-auth/keepup_auth/mfa.py:136-149 | A confirmed factor is not replaced; any other is, by an unconfirmed one. |
| SecondFactor.TotpTable.Confirm | packages/keepup-auth/keepup_auth/mfa.py:152-169 | Confirms exactly when the code opens an unspent step of an unconfirmed secret, and spends that step. |
| SecondFactor.TotpTable.VerifyCode | packages/keepup-auth/keepup_auth/mfa.py:178-213 | Admits exactly when the code opens an unspent step of a confirmed factor; that step then no longer opens. |
| SecondFactor.TotpTable.VerifyRecovery | packages/keepup-auth/keepup_auth/mfa.py:188-201 | Admits exactly a stored digest, which is stored once less afterwards. |
| GatewayTable.PassesIffSafelyRead | packages/keepup-gateway/keepup_gateway/table.py:191-212 | For every path: it has no backslash and the path, decoded once and decoded twice are all fixed points of remove_dot_segments (section 5.2.4 of RFC 3986), if and only if the check passes it and no segment hides a dot segment behind an escaped slash. |
| GatewayTable.SafelyReadIff | packages/keepup-gateway/keepup_gateway/table.py:191-212 | For every path, the exact condition for those three fixed points: no segment is a dot segment, and none decodes to a text that holds one between slashes. |
| GatewayTable.PassesAsItStands | packages/keepup-gateway/keepup_gateway/table.py:191-212 | For every path: one that passes is a fixed point as it stands, and one that is safe in all three readings is never refused. |
| GatewayTable.HiddenSlashPasses | packages/keepup-gateway/keepup_gateway/table.py:191-212 | A concrete path with an encoded slash that passes although its decoded form is not a fixed point. |
| GatewayTable.FixedIffPlain | packages/keepup-gateway/keepup_gateway/table.py:191-212 | A path is a fixed point of remove_dot_segments if and only if it has no dot segment. |
| GatewayTable.RemoveDotsShortens | packages/keepup-gateway/keepup_gateway/table.py:191-212 | Removing dot segments copies a path without them and strictly shortens any other. |
| GatewayTable.RulesOfRemoval | packages/keepup-gateway/keepup_gateway/table.py:191-212 | The algorithm follows section 5.2.4 of RFC 3986 rule by rule: what stands first in the input decides. |
| GatewayTable.DecodedIsPlainIff | packages/keepup-gateway/keepup_gateway/table.py:206-211 | However often a path is decoded, it has no dot segment exactly when no segment, decoded alone, has one. |
| GatewayTable.Traverses | packages/keepup-gateway/keepup_gateway/table.py:191-212 | The loop refuses exactly a path with a backslash or with a segment of one or two dots, each written as itself or as an escape and each character of that again as itself or as an escape, in capital or small letters. |
| GatewayTable.ClimbsIff | packages/keepup-gateway/keepup_gateway/table.py:191-212 | A segment is taken for a climb if and only if it spells, in one step or two, one dot or two. |
| GatewayTable.EscapeIsItsByte | packages/keepup-gateway/keepup_gateway/table.py:206-211 | A percent sign and the two digits of a byte, capital or small, decode to its character; without a percent sign, or with anything else behind it, a text stays. |
| GatewayTable.StaysUnderItsRoute | packages/keepup-gateway/keepup_gateway/table.py:108-110 | Normalising a path that passed cannot take it out of the route that covers it. |
| GatewayTable.CoversBySegments | packages/keepup-gateway/keepup_gateway/table.py:108-110 | A route covers a path if and only if the segments of its prefix are the first ones of the path's. |
| GatewayTable.UpstreamPathPasses | packages/keepup-gateway/keepup_gateway/proxy.py:126-131 | The path built for the service, stripped or not, passes the check again, so the second refusal never happens. |
| GatewayTable.UpstreamIs | packages/keepup-gateway/keepup_gateway/table.py:112-117 | The service is sent the path as it is or, for a stripping route, what its prefix leaves of it, a slash when that is nothing. |
| GatewayTable.ReachableIff | packages/keepup-gateway/keepup_gateway/proxy.py:95-101 | Some path reaches a route if and only if the route's own prefix passes the check. |
| GatewayTable.BestIsLongest | packages/keepup-gateway/keepup_gateway/table.py:177-188 | The route chosen covers the path with the longest prefix, and none is chosen only when none covers it. |
| GatewayTable.Match | packages/keepup-gateway/keepup_gateway/table.py:177-188 | The loop over the table answers that route. |
| GatewayTable.OrderDoesNotMatter | packages/keepup-gateway/keepup_gateway/table.py:177-188 | With distinct prefixes every permutation of the table answers every path the same. |
| GatewayTable.OrderIndependentIff | packages/keepup-gateway/keepup_gateway/table.py:177-188 | The table is order-independent for all paths if and only if no two of its routes share a prefix. |
| GatewayTable.ParseTable | packages/keepup-gateway/keepup_gateway/table.py:137-305 | Accepts exactly a table whose every entry can be served and whose ids and prefixes are distinct; the answer is those routes, longest prefix first and ties as listed; a refusal names the first entry at fault, and whether it cannot be served, repeats an id or repeats a prefix. |
| GatewayTable.ServedIff | packages/keepup-gateway/keepup_gateway/table.py:137-305 | Those tables, spelled out: each prefix starts with a slash, climbs nowhere, has no braces and meets none of the gateway's own segment by segment, each address is a web address of a host without a query, methods, sign-in, permission, headers and numbers are in order, and no two entries share a name or a prefix. |
| GatewayTable.ProblemIs | packages/keepup-gateway/keepup_gateway/table.py:150-162 | The fault named is the first entry's: it cannot be served, else repeats a name, else a prefix of one before it. |
| GatewayTable.ParsedIs | packages/keepup-gateway/keepup_gateway/table.py:215-305 | A route is its entry: its id or else its prefix as written, the prefix and addresses without trailing slashes, and whether it strips. |
| GatewayTable.AcceptedTableIsOrderIndependent | packages/keepup-gateway/keepup_gateway/table.py:137-163 | An accepted table answers every path the same in any order, the sorted one included. |
| GatewayRegistry.OneServicePerPrefix | packages/keepup-gateway/keepup_gateway/registry.py:180-248 | Over registrations one after another, each whole or broken off by the database anywhere between its statements, deregistrations and purges, at every instant from then on all live rows of a prefix belong to one service name. |
| GatewayRegistry.StepKeepsOneService | packages/keepup-gateway/keepup_gateway/registry.py:180-285 | Each single operation keeps one service per live prefix. |
| GatewayRegistry.RepeatingMakesItWhole | packages/keepup-gateway/keepup_gateway/registry.py:180-238 | A registration broken off after any of its statements takes nothing from anybody: others who are not after its prefixes are told the same over any run, and the address's next registration is answered as if the broken one had never been and, once accepted, leaves the same table. |
| GatewayRegistry.AllOrNothing | packages/keepup-gateway/keepup_gateway/registry.py:180-238 | An accepted registration leaves its address with exactly the prefixes it named, each for its time to live; a refused one changes nothing; no other address is touched. |
| GatewayRegistry.AcceptedIff | packages/keepup-gateway/keepup_gateway/registry.py:143-217 | Accepted exactly when the name has some text of a hundred characters at most and the address of five hundred and is a web address of a host, one to thirty-two different prefixes may be served, the settings are in order whatever its headers, the time to live is at most five minutes, and no prefix is reserved or live under another name. |
| GatewayRegistry.PurgeChangesNoRegistration | packages/keepup-gateway/keepup_gateway/registry.py:282-285 | Whatever follows a purge, broken registrations included, no registration is answered differently and no live row differs. |
| GatewayRegistry.PurgeIsUnseenIff | packages/keepup-gateway/keepup_gateway/registry.py:240-285 | All answers, deregistering included, are the same with and without the purge in every run that follows, broken registrations included, if and only if no row is expired. |
| GatewayRegistry.UnseenUnbrokenIff | packages/keepup-gateway/keepup_gateway/registry.py:240-285 | In the runs in which the database breaks no registration off, if and only if every address that has a row has a live one. |
| GatewayRegistry.PurgeIsUnseenOverRuns | packages/keepup-gateway/keepup_gateway/registry.py:180-285 | Both hold after every run from an empty table. |
| GatewayRegistry.PurgeIsSeen | packages/keepup-gateway/keepup_gateway/registry.py:240-285 | A concrete run: a lease runs out, and deregistering its address answers True without the purge and False after it. |
| GatewayRegistry.IdsMeetIff | packages/keepup-gateway/keepup_gateway/registry.py:131-140 | Two services can share a route id through prefixes the registry accepts, if and only if one name is the other's followed by a colon and a text that, closed by a colon, is itself an acceptable prefix. |
| GatewayRegistry.TwoShareAnId | packages/keepup-gateway/keepup_gateway/registry.py:131-238 | Two registrations, both accepted one after the other, of different services whose routes have one id. |
| GatewayRegistry.OneRouteForTwo | packages/keepup-gateway/keepup_gateway/registry.py:263-277 | What becomes of them: one route, under the first one's prefix, with the addresses of both. |
| GatewayRegistry.IdIsInjective | packages/keepup-gateway/keepup_gateway/registry.py:131-140 | For names without a slash a route id names one service and one prefix. |
| GatewayRegistry.SlashFreeNamesAreApart | packages/keepup-gateway/keepup_gateway/registry.py:131-140 | Services with slash-free names never share a route. |
| GatewayRegistry.GroupedIsExact | packages/keepup-gateway/keepup_gateway/registry.py:250-280 | A route's addresses are exactly the live ones of its service and prefix whose settings still parse, trailing slashes stripped, and it has at least one. |
| GatewayRegistry.FoldGroupsIff | packages/keepup-gateway/keepup_gateway/registry.py:262-277 | The routes read are grouped by service and prefix if and only if no two of the services read share an id. |
| GatewayRegistry.StripIsTheFirsts | packages/keepup-gateway/keepup_gateway/registry.py:262-277 | A route of the registry strips its prefix exactly when the first row read of it says so. |
| GatewayRegistry.OneMoreRow | packages/keepup-gateway/keepup_gateway/registry.py:263-277 | Folding one more row into its route keeps the routes grouped by service and prefix. |
| GatewayRegistry.Registry.Register | packages/keepup-gateway/keepup_gateway/registry.py:180-238 | The checks of the record, the loops of conflicts, deletes and upserts answer and write what the one-step registration does, and the copy is read again. |
| GatewayRegistry.Registry.Write | packages/keepup-gateway/keepup_gateway/registry.py:219-236 | Deleting the address's other prefixes one by one and upserting the named ones leaves exactly the named ones. |
| GatewayRegistry.Registry.Check | packages/keepup-gateway/keepup_gateway/registry.py:206-216 | The loop finds the first prefix that is reserved or live under another name. |
| GatewayRegistry.Registry.Deregister | packages/keepup-gateway/keepup_gateway/registry.py:240-248 | Refuses exactly a name or address without text or longer than a hundred or five hundred characters; otherwise the address's rows go and no other, and the answer says whether there was one. |
| GatewayRegistry.Registry.Routes | packages/keepup-gateway/keepup_gateway/registry.py:250-280 | A copy younger than the refresh is answered as it is, and so is any copy when the query fails; otherwise the routes are the fold of the rows read whose settings still parse, grouped by service and prefix exactly when no two of those services share an id. |
| GatewayBalancer.OrderIsAPermutation | packages/keepup-gateway/keepup_gateway/balancer.py:31-47 | Whatever is cooling, every address is tried as often as it is listed. |
| GatewayBalancer.LiveBeforeCooling | packages/keepup-gateway/keepup_gateway/balancer.py:43-47 | Every live address stands before every cooling one and never after. |
| GatewayBalancer.GroupsKeepTheTurn | packages/keepup-gateway/keepup_gateway/balancer.py:41-47 | Two live addresses, or two cooling ones, stand in the order of the turn. |
| GatewayBalancer.TurnedIsARotation | packages/keepup-gateway/keepup_gateway/balancer.py:38-42 | The turn is the list rotated by the start, taken modulo its length. |
| GatewayBalancer.EachComesFirstOnce | packages/keepup-gateway/keepup_gateway/balancer.py:38-42 | Over n consecutive calls for n addresses the turn puts each first exactly once, whatever the turn was. |
| GatewayBalancer.Balancer.Requests | packages/keepup-gateway/keepup_gateway/balancer.py:31-47 | Requests one after another with nothing cooling: of as many answers as there are addresses each comes first exactly once, whatever the turn was, and no other route's turn moves. |
| GatewayBalancer.AllLiveAnswersTheTurn | packages/keepup-gateway/keepup_gateway/balancer.py:43-47 | With no address cooling the answer is the turn itself. |
| GatewayBalancer.Balancer.Order | packages/keepup-gateway/keepup_gateway/balancer.py:31-47 | Answers the live addresses in turn before the cooling ones in turn, every live one before every cooling one, and moves this route's turn on by one and no other's; a route's first request with nothing cooling gets its list as it is. |
| GatewayBalancer.Balancer.Failed | packages/keepup-gateway/keepup_gateway/balancer.py:49-53 | The address is live again exactly from the end of its cooldown on, and no other's state changes. |
| GatewayBalancer.Balancer.Answered | packages/keepup-gateway/keepup_gateway/balancer.py:55-59 | The address is live at once. |
| GatewayProxy.Send | packages/keepup-gateway/keepup_gateway/proxy.py:135-172 | The loop asks a prefix of the turn, each position once; it goes on only where no connection was taken or, for GET, HEAD, OPTIONS, PUT and DELETE, after a timeout, a broken connection or a 502, 503 or 504; the last asked is passed on, or becomes a 504 for a timeout and a 502 for no connection or a broken one; each address asked is marked. |
| GatewayProxy.NotRepeated | packages/keepup-gateway/keepup_gateway/proxy.py:137-172 | A method that is not idempotent never goes past an address that took the connection. |
| GatewayProxy.FirstGoodAnswer | packages/keepup-gateway/keepup_gateway/proxy.py:137-172 | Section 9.2.2 of RFC 9110: an idempotent request gets the first answer in turn order that is none of 502, 503 and 504. |
| GatewayProxy.NoGoodAnswer | packages/keepup-gateway/keepup_gateway/proxy.py:137-172 | With no such answer every address is asked and the last decides; with no address it is a 503. |
| GatewayProxy.GoodReplyIff | packages/keepup-gateway/keepup_gateway/proxy.py:137-172 | An idempotent request is answered well if and only if some address in turn would answer it well. |
| GatewayProxy.AskedIsDetermined | packages/keepup-gateway/keepup_gateway/proxy.py:137-172 | The loop's contract fixes how many addresses are asked. |
| GatewayProxy.Pass | packages/keepup-gateway/keepup_gateway/proxy.py:135-172 | From the turn to the answer: whichever address stood first and whatever cools, an idempotent request is answered well exactly when some address of the route would answer it well. |
| GatewayProxy.MarksAreTheOutcomes | packages/keepup-gateway/keepup_gateway/proxy.py:146-169 | With distinct addresses, those that answered are live, the others asked are cooling for the cooldown, and no other mark changes. |
| ClusterCommands.ExecutedAtMostOnce | packages/keepup-cluster/keepup_cluster/cluster.py:277-288 | Over any heartbeats and nudges of any number of replicas a command is carried out at most once, by the replica it is addressed to. |
| ClusterCommands.StatusMovesOn | packages/keepup-cluster/keepup_cluster/cluster.py:277-321 | A command never returns to pending, and a closed one never opens again. |
| ClusterCommands.NothingOldStaysOpen | packages/keepup-cluster/keepup_cluster/cluster.py:307-321 | However late statements run behind their clocks: after any replica's sweep at an instant, and for ever after, an open command was asked for, or claimed, no longer than the time to live before it, or than the lag where that is longer, and asked for no longer than twice that. |
| ClusterCommands.OneOpenPerReplica | packages/keepup-cluster/keepup_cluster/cluster.py:160-191 | Commands given one at a time: a replica never has two open. |
| ClusterCommands.StopLeavesOneServing | packages/keepup-cluster/keepup_cluster/cluster.py:183-191 | An unforced stop that is accepted leaves a live replica serving, if one was. |
| ClusterCommands.CheckIs | packages/keepup-cluster/keepup_cluster/cluster.py:158-191 | A command is refused with 400 or 404 exactly for an unknown action or replica, and given exactly when the replica was seen within thirty seconds, has none open, can restart if asked to, and is not the last one serving unless forced. |
| ReplicaControllers.ClusterTables.ClaimCommand | packages/keepup-cluster/keepup_cluster/cluster.py:277-288 | Taken exactly when it was pending, and executing then. |
| ReplicaControllers.ClusterTables.ExpireCommands | packages/keepup-cluster/keepup_cluster/cluster.py:307-321 | Exactly the commands pending or executing for more than five minutes are expired, and nothing else changes. |
| ReplicaControllers.ReplicaController.Execute | packages/keepup-cluster/keepup_cluster/cluster.py:496-518 | A stop leaves the replica stopped, a start serving, anything else as it was, and the registry shows it; stop and start end done, an unknown action and a restart that cannot be failed, and a restart stays executing; no other command or member is touched. |
| ReplicaControllers.ReplicaController.ClaimAndExecute | packages/keepup-cluster/keepup_cluster/cluster.py:459-472 | Each pending command is claimed and ended as its action says, every other is untouched, and the replica is left stopped or serving as the last stop or start of the list says, without one as it was. |
| ReplicaControllers.ReplicaController.Tick | packages/keepup-cluster/keepup_cluster/cluster.py:459-478 | A heartbeat nobody disturbed publishes the replica, expires exactly what is stale, carries out each of its own pending commands, and leaves it stopped or serving as the last stop or start of them says. |
| ReplicaControllers.ReplicaController.Restore | packages/keepup-cluster/keepup_cluster/cluster.py:396-418 | A replica left stopped comes back stopped, and exactly its executing restarts are done. |
| ReplicaCaches.BoundedStaleness | cache.py:66-79 | Whatever threads read, load, store, fail and invalidate, every value returned was the source's at an instant between the get's start less lifetime and load time, and its return. |
| ReplicaCaches.InvalidateHoldsIff | cache.py:81-87 | Every get begun after an invalidate returns a value read after it, in every continuation, if and only if no load that read earlier may still store. |
| ReplicaCaches.StoredLate | cache.py:66-87 | The run that breaks it, from an empty cache: a get reads the source, its key is invalidated, the load stores its older value and the next get is answered with it. |
| ReplicaCaches.StepKeepsInv | cache.py:66-87 | Each step of each thread keeps entries and loads tied to what the source said and when. |
| ReplicaCaches.ReplicaCache.Get | cache.py:66-79 | From every state of the machine with these entries, an undisturbed get is a run of the machine that leaves the same entries and gives the same answer; entries tied to the source stay tied, and what is answered the source said no longer than lifetime and load time before the get began. |
| ReplicaCaches.ReplicaCache.Invalidate | cache.py:81-87 | Does the machine's step from every state with these entries; no get then finds the key, and every other key's entry is as it was. |
| PositionalSql.MeaningIsPreservedIff | packages/keepup-db/keepup_db/positional_sql.py:34-75 | For every query and every bind-parameter reader, one that looks ahead for a colon included: the output is read with exactly p0 to p(n-1) if and only if each placeholder outside a literal stands apart from what is around it, and then everything else is read as the query if and only if no backslash of the query stands before a colon that is let stand. |
| PositionalSql.SideBySide | packages/keepup-db/keepup_db/positional_sql.py:51-75 | Two marks side by side are read back by the code's own rule for opening colons, and not by a reader that opens no parameter after a word character. |
| PositionalSql.CastBehindAPlaceholder | packages/keepup-db/keepup_db/positional_sql.py:51-75 | A cast right behind a placeholder is read back, except by a reader that lets no colon follow a name. |
| PositionalSql.BackslashIsLost | packages/keepup-db/keepup_db/positional_sql.py:34-75 | A concrete query whose backslash is read as an escape of the colon after it. |
| PositionalSql.ErasingGivesTheQuery | packages/keepup-db/keepup_db/positional_sql.py:34-70 | For every query: escapes taken back and parameters read as placeholders, the output is the query, with a parameter exactly at each placeholder outside a literal. |
| PositionalSql.NumberedInOrder | packages/keepup-db/keepup_db/positional_sql.py:51-56 | The parameters are numbered 0 to n-1 in order, n being the placeholders outside literals. |
| PositionalSql.ClearIsReadBack | packages/keepup-db/keepup_db/positional_sql.py:34-75 | Output whose parameters stand clear is read back piece by piece, a backslash before a colon that was let stand as one escaped colon. |
| PositionalSql.NameIsInjective | packages/keepup-db/keepup_db/positional_sql.py:68 | No two parameters share a name. |
| PositionalSql.Rewrite | packages/keepup-db/keepup_db/positional_sql.py:34-64 | The loop writes exactly that output and counts exactly those placeholders. |
| PositionalSql.Positional | packages/keepup-db/keepup_db/positional_sql.py:34-68 | Accepted exactly with one parameter for each placeholder; each parameter stands under its own name and nothing else does. |
| PositionalSql.PositionalMany | packages/keepup-db/keepup_db/positional_sql.py:78-81 | Accepted exactly when every row has a value for each placeholder; with no rows, exactly when the question marks inside literals are as many as the placeholders written %s; then the output and one dictionary for each row. |
| PositionalSql.EmptyBatchFitsIff | packages/keepup-db/keepup_db/positional_sql.py:78-81 | The question marks of the whole text are as many as the placeholders if and only if those inside literals are as many as the %s outside. |
| PositionalSql.EmptyBatches | packages/keepup-db/keepup_db/positional_sql.py:78-81 | An empty batch is refused for one %s, and accepted when a quoted question mark makes up for it. |
| Retention.Table.PurgeOlderThan | packages/keepup-db/keepup_db/retention.py:57-88 | One pass deletes only rows older than the days given, no more than chunk_rows times max_chunks, the oldest first, and if fewer then all of them; it returns their number and touches nothing else. |
| Retention.Table.SelectOldest | packages/keepup-db/keepup_db/retention.py:75-79 | The ids selected are distinct and the oldest rows before the cutoff, up to the limit. |
| Retention.OldestCompose | packages/keepup-db/keepup_db/retention.py:72-88 | The oldest of the oldest: two chunks are one chunk of both sizes. |
| Retention.MoreChangesNothing | packages/keepup-db/keepup_db/retention.py:80-87 | A chunk that is not full took the last old row, so stopping there loses nothing. |
| Retention.OldestAreUnique | packages/keepup-db/keepup_db/retention.py:72-88 | With no two rows of one instant there is only one set the pass can delete. |
| Retention.AllowedIsProduct | packages/keepup-db/keepup_db/retention.py:57-88 | The chunks together allow chunk_rows times max_chunks rows. |

## Left out

- DistributedLock.MutualExclusionOverRuns: keeps two conditions of the code as preconditions, a fresh row and a takeover that deletes the row it read; the first is discharged in LockBeat, the second is not true of the code and `ExclusiveThroughoutIff` says when it matters. Two lock objects of one process for one name, and a panel administrator releasing a lock by force, are not modelled.
- LockBeat.BeatKeepsTheLock: a holder that wakes, or whose call returns, later than the lag is outside it, and so is an UPDATE still on its way when its task is cancelled that meets a later row of the same holder.
- AuditMachine.LostOnlyByCancelling: the write of a cancelled flush is taken as decided when the flush is cancelled; a statement that still runs in the driver is not modelled.
- ServiceRegistry.Registry.Require: the version asked for is not always the one handed out; `NeverStaleIff` says when it is, and `StaleBuild` is the other case.
- PluginRuntime.Runtime.Start: promises that a needed service has one published provider, not that the plugin that published it is itself running; a provider whose own initialisation failed stays published, as in the code.
- PluginRuntime.Runtime.Start: a start after a failed start, or after a stop, finds a frozen or half-filled registry; only the first start of a runtime is described.
- Sessions.SessionCeiling: one `lag` bounds both the time from a renewal's check to its token and from a row's clock to its token; the zone does not change while the process runs.
- SecondFactor.AcceptedStepsIncrease: no begin, confirm or disable of the account runs meanwhile, and two confirms of one secret are not interleaved; steps are counted from one fixed instant, which a zone other than UTC moves.
- SecondFactor.TotpTable.Confirm: a missing recovery column and an empty list are one value.
- GatewayTable.ParseTable: how the URL library splits an address is given with the address; values of a wrong type and entries that are no mappings do not occur, methods arrive in capitals and header names in small letters, and one error stands for all an entry's own faults.
- GatewayRegistry.OneServicePerPrefix: registrations run one after another; two at once for one prefix race in the code.
- GatewayRegistry.Registry.Routes: the rows of a query arrive as an enumeration of the live rows in any order, and which of them no longer parse is a parameter; of a row's settings only strip_prefix is kept in a route.
- ClusterCommands.OneOpenPerReplica: giving a command checks and records in one step; two stops given at once race in the code.
- ReplicaCaches.BoundedStaleness: counts the lifetime from the instant a get read its clock, since a thread may be paused before it returns; the lifetime is not changed while the cache runs.
- PositionalSql.MeaningIsPreservedIff: a reader is a model of its own, told by the characters a colon may follow and whether it looks ahead; none may open a parameter after a colon or a backslash, and each reads an escaped colon as a colon.
- Bytes and characters: a percent escape of a byte above ASCII is one character of its own here, so UTF-8 sequences are not joined; trimming knows ASCII blanks and code digits are ASCII.
- Database failures the code swallows, because it fails open there on purpose (throttle, sweep, renewal), and dialect differences in comparing instants.
- The runtime's tables, identity, contributions, mounting, post-construct hooks and transports; reports and metrics.
- Redaction, request data, durations and the actor's columns of the audit.
- OIDC and foreign sessions, seed accounts, CSRF, cookies, the address rate limit and the username shape.
- Signing of registrations and of identities, headers, bodies, local handlers and WebSockets of the gateway; the balancer's report.
- Member rows' pruning, the restart's exec, the stopped-replica gate and the panel's overview of the cluster.
- The notification bus between the replicas' caches, and the settings that choose lifetimes and retentions.
