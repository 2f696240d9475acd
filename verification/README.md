# Opsyn: models and proofs

A Dafny model of the parts of Opsyn (a fibre-network operations platform: FastAPI, Celery, PostgreSQL, React) whose
correctness spans several calls, several tables or a whole run. Each module follows one component of the repository.
Code that changes state step by step is a class or a loop, proved equal to a specification function; the promised
properties are theorems about that function, over every input and every run.

| module | component |
|---|---|
| `TokenRefresh` | the API client's refresh queue: concurrent 401s, one refresh, everybody else waits |
| `NetworkAudit` | the network audit trigger and the delta log it keeps |
| `EditLog`, `DesignOperations`, `DesignRequests` | undo and redo of design operations, with the foreign keys' ON DELETE actions, and each operation of the editor |
| `TenantPolicy` | migration 0097, a textual rewrite of SQL policies, and the meaning of those policies |
| `FttxRunTask` | the FTTx design task, with an exception possible at every step |
| `TemplateRendering` | customer notification templates, rendered by chained `replace` |
| `SlaSweep`, `AlarmPolling`, `CapacityAlerts` | the periodic jobs and their once-only guarantees |
| `Onboarding`, `RoleAssignment`, `TicketNumbers` | request handlers with run-long invariants |
| `EngineeringMigration` | the legacy project migration, dry and applied |
| `FeatureGrants` | the permission decision, and migration 0087, which copies grants |
| `CamelKeys` | key camelisation of API responses |
| `TextReplace`, `Decimal`, `Optional`, `Sequences` | string replacement, decimal text, absent values and concatenation, shared by the others |

`dafny verify dfyconfig.toml` checks the whole project.

## Where the code and its documentation part

The code was kept as it is; for each promise below the exact condition under which it holds is a theorem.

* `operations.py` calls undo exact. Of the eleven operations it is for all but DELETE_ASSET, and for that one if and only
  if nothing outside the snapshot refers to what goes (`RequestUndoneExactly`, `DeleteAssetUndo`); a rerouted cable that
  still carries an old connection breaks it (`ReroutedCableNotUndone`). The parents-first order restores assets if and
  only if they nest at most two deep (`ParentsFirstExact`).
* The alarm cache is meant to hand each alarm over once. It has one key per tenant, overwritten per OLT, so where nothing
  fails an alarm is handed over once if and only if the polls that list it, of whichever OLT, are consecutive
  (`HandedOverOnceExactly`; with failures, `DeliveredOnceExactly`), and a standing set of alarms stays silent if and only
  if every OLT lists the same ids (`SteadyCycleSilent`). No alarm is lost.
* Chained `replace` is simultaneous substitution for a field's value if and only if the value spells no later
  placeholder and ends in the beginning of none (`RenderingExact`); a reference reading `{title}` does
  (`TitleInReferenceLeaks`).
* Ticket numbers stop after 10000 creations in a year: the number is read back from four characters, and from then on
  the unique key refuses every creation (`CreationExact`, `TenThousandAndFirst`).
* The migration script's dry run predicts the apply run if and only if the database takes every missing row
  (`ApplyAsPredicted`). The designs table, as migrations 0090 and 0099 leave it, takes none, because the INSERT names a
  column `design_status` that it does not have (`ApplyOnCurrentSchema`; one project shows it,
  `DryRunAnnouncesApplyRaises`).
* A node's capacity alert also names its site. A check of a site over its threshold leaves the site with an alert of its
  own if and only if it had one or no recent alert of a node names it (`OwnAlertExactlyInRuns`, `NodeSilencesSite`).
* Migration 0097 recreates policies without FOR, TO and AS. All policies keep theirs if and only if the selected ones have
  the defaults (`ScopeKeptExactly`); a standard policy made FOR SELECT comes back for all commands
  (`SelectPolicyWidened`). No migration here creates such a policy. A bare cast is left in USING exactly beside a NULLIF,
  and in WITH CHECK exactly where USING did not get the policy selected (`BareCastLeftExactly`, `BareCastSurvives`).
* `assign_role` compares the caller only with the new role: a call vacates the top level if and only if it gives its only
  holder a role below the caller's (`TopLostExactly`); a level-4 caller can do it (`LowerCallerVacatesTop`).
* Onboarding's second approval asks for no level and no second person: one person can carry a request through alone if
  and only if a manager of its department (`OnePersonExactly`).

## Model

| member | source | states |
|---|---|---|
| TokenRefresh.ApiClient.Dispatch | frontend/src/api/client.ts:28-32 | A new request carries the stored token, if there is one, and is counted as sent. |
| TokenRefresh.ApiClient.OnResponse | frontend/src/api/client.ts:51-80 | A response moves the client, in all its variables, as the Respond step of the model does. |
| TokenRefresh.ApiClient.DrainQueue | frontend/src/api/client.ts:43-48 | Every waiting entry, in order, is resolved with the token or rejected, once, and the queue ends empty. |
| TokenRefresh.ApiClient.OnRefreshOk | frontend/src/api/client.ts:82-99 | Storing the token, draining, resending the leader and clearing the flag are one step. |
| TokenRefresh.ApiClient.OnRefreshFail | frontend/src/api/client.ts:91-99 | A failed refresh rejects every waiting request and its leader, and clears the token and the flag, in one step. |
| TokenRefresh.SendOutcome | frontend/src/api/client.ts:28-32 | A new request is in flight, not retried, with the stored token; one send is counted and nothing else changes. |
| TokenRefresh.ResponseOutcome | frontend/src/api/client.ts:51-80 | For every state and request: a good response is handed to the caller as a success; a 401 that is not from an /auth/ url and not retried joins the queue while a refresh is out, else leads one more refresh and is marked as retried; any other failure is rejected. No other request, no send and not the token changes. |
| TokenRefresh.StepKeepsInv | frontend/src/api/client.ts:40-99 | Every step, in any order, keeps: at most one refresh out, the queue used only while it is, every request in exactly one place, queued entries released once by the refresh they waited on, sends bounded. |
| TokenRefresh.RefreshOutcome | frontend/src/api/client.ts:82-99 | After a refresh, exactly the queued requests and the leader are resent with the new token and counted, or rejected; no other request changes, only the leader is marked as retried, and the released entries say which of the two happened. |
| TokenRefresh.SendsAndRefreshes | frontend/src/api/client.ts:51-101 | In every run N requests cause at most N refreshes and at most N + N(N+1)/2 sends, even if every answer is a 401. |
| TokenRefresh.WorstCase | frontend/src/api/client.ts:51-101 | For every N some run of N requests reaches both bounds. |
| TokenRefresh.StepDecreases | frontend/src/api/client.ts:51-101 | An integer measure gets smaller with every step of any run. |
| TokenRefresh.RunsEnd | frontend/src/api/client.ts:51-101 | Every run of at most N requests has at most 2N² + 4N steps. |
| TokenRefresh.NothingLeftBehind | frontend/src/api/client.ts:66-99 | When nothing is in flight and no refresh is out, every request has been settled and every entry that joined the queue was released. |
| NetworkAudit.AuditLog.AuditRow | backend/alembic/versions/0094_deployment.py:36-86 | The trigger writes what the specification of one change says: nothing in bulk mode or when only bookkeeping moved, else one entry with the differing keys. |
| NetworkAudit.Differences | backend/alembic/versions/0094_deployment.py:54-61 | The loop lists each differing key exactly once and collects exactly those keys' old and new values. |
| NetworkAudit.DeltaExact | backend/alembic/versions/0094_deployment.py:53-82 | An update writes an entry if and only if the images differ; its two halves hold exactly the differing keys, and each turns the other image into its own. |
| NetworkAudit.ShapeTellsOperation | backend/alembic/versions/0094_deployment.py:65-75 | Hard and soft deletes share a label, but the entry's missing halves tell insert, update and delete apart. |
| NetworkAudit.WrittenExactly | backend/alembic/versions/0094_deployment.py:50-64 | A change writes one entry, or none: in bulk mode, or for an update in which no column but the bookkeeping ones changes. |
| NetworkAudit.LabelExact | backend/alembic/versions/0094_deployment.py:65-75 | Told from the rows alone: create and delete for inserts and deletes; for updates delete or restore when deleted_at changes, promote when design_id goes to NULL under the newer rule, move when only geom and length_m change, lifecycle when only lifecycle_status does, else update. |
| NetworkAudit.FieldsExact | backend/alembic/versions/0094_deployment.py:51-81 | The entry's tenant, id, code, design, actor and actor label are those of the row and the session, with System for an unnamed actor. |
| NetworkAudit.ImagesExact | backend/alembic/versions/0094_deployment.py:41-42 | An insert's entry holds the new row and a delete's the old one, whole but for updated_at and updated_by, and no other half. |
| NetworkAudit.PromoteRuleConservative | backend/alembic/versions/0094_deployment.py:32-35 | The newer trigger writes the earlier one's entry on every change, except exactly those that take a row out of its design, whose entry keeps the old design id. |
| NetworkAudit.LogReplaysHistory | backend/alembic/versions/0092_versions_audit.py:43-47 | Over every history of changes to the three tables, folding the log forward rebuilds every current row and folding it backward restores the start. |
| NetworkAudit.EveryEarlierState | backend/alembic/versions/0092_versions_audit.py:43-47 | From the current tables and the log's suffix, every earlier state is recovered. |
| EditLog.RunRefines | backend/app/modules/design/operations.py:600-658 | The log of patches behaves, over every run of operations, undos and redos, as if whole states had been kept on two stacks. |
| EditLog.HandleExact | backend/app/modules/design/operations.py:600-658 | What one request does to a log whose rows are numbered from 1 with the undone ones last: which row is added, marked or cleared, which of its two patches is applied, and when nothing changes. |
| EditLog.RunNumbered | backend/app/modules/design/operations.py:600-624 | Over every run, failing patches included, the rows stay numbered 1, 2, 3 and so on, the undone ones last. |
| EditLog.UndoThenRedo | backend/app/modules/design/operations.py:627-658 | On the log itself: n undos apply n stored patches and reach the state n operations back, and n redos give the whole editor back, log and undone marks included. |
| DesignOperations.Patches | backend/app/modules/design/operations.py:118-133 | The loop over the tracked rows yields the inverse and forward patches: created rows are deleted, gone rows restored, changed rows written back, and the reverse. |
| DesignOperations.ParentsFirstExact | backend/app/modules/design/operations.py:136-138 | Sorting rows without a parent among them first meets the foreign key for every order they come in, if and only if no row comes back with its parent and that parent's parent. |
| DesignOperations.UndoExact | backend/app/modules/design/operations.py:141-162 | Applying the inverse patch of a well-tracked operation, cascades and SET NULLs included, restores exactly the tables it started from. |
| DesignOperations.RedoExact | backend/app/modules/design/operations.py:141-162 | Applying the forward patch to what the undo restored gives exactly the operation's result. |
| DesignOperations.DesignEditor.ApplyOperation | backend/app/modules/design/operations.py:600-624 | A new operation drops the redo branch and appends its two patches. |
| DesignOperations.DesignEditor.UndoLast | backend/app/modules/design/operations.py:627-641 | Undo applies the inverse of the latest row not undone and marks it; with none, or a patch that fails, nothing changes. |
| DesignOperations.DesignEditor.RedoNext | backend/app/modules/design/operations.py:644-658 | Redo applies the forward patch of the earliest undone row and clears its mark; with none, or a patch that fails, nothing changes. |
| DesignOperations.EditingKeepsSnapshots | backend/app/modules/design/operations.py:28-33 | From an empty log, over every run of well-tracked operations, undos and redos, the working set equals that of an editor keeping whole states. |
| DesignOperations.UndoRedoReturns | backend/app/modules/design/operations.py:627-658 | The same for the design editor: after any run of well-tracked operations, undos and redos, n undos and n redos give tables and log back exactly. |
| DesignOperations.DeleteAssetUndo | backend/app/modules/design/operations.py:294-319 | Undo takes an asset's deletion back exactly if and only if every row that refers to what went is in the snapshot and the asset is not among its own descendants. |
| DesignOperations.ReroutedCableNotUndone | backend/app/modules/design/operations.py:294-319 | A concrete consistent design in which a deletion is not undone. |
| DesignRequests.Transaction.Run | backend/app/modules/design/operations.py:239-558 | The loop over an operation's statements gives the specified tables and tracker, or stops at the first one the database refuses. |
| DesignRequests.ScriptsCareful | backend/app/modules/design/operations.py:239-543 | Every operation that deletes nothing snapshots or makes each row before it changes it. |
| DesignRequests.ScriptGrows | backend/app/modules/design/operations.py:102-133 | A script that does so leaves consistent tables and a tracker holding every row it changed, as it was at the start. |
| DesignRequests.PerformDone | backend/app/modules/design/operations.py:239-558 | After any of the eleven operations, an asset deletion being contained, the tracker is right, the tables are consistent and rows come back at most two deep. |
| DesignRequests.PerformRight | backend/app/modules/design/operations.py:239-558 | For each of the eleven operations: it is refused exactly when something it names is not in the design or a new key is taken, and otherwise leaves the rows asked for, such as the two halves of a split cable with their ends, the moved family, the direction of a feed, the stripped orphans of a deletion, with every other row as it was. |
| DesignRequests.RequestUndoneExactly | backend/app/modules/design/operations.py:28-33 | Undo takes a request back exactly, in whatever order rows return, if and only if it is not an uncontained asset deletion. |
| DesignRequests.PatchKeepsConsistent | backend/app/modules/design/operations.py:141-162 | Foreign keys hold after every patch that commits, whatever is in it. |
| DesignRequests.SessionsExact | backend/app/modules/design/operations.py:600-658 | From consistent tables, over every run of the eleven operations, undos and redos with contained deletions, the editor equals one keeping whole states, n undos go n operations back and n redos return exactly. |
| TenantPolicy.PatchPolicyText | backend/alembic/versions/0097_nullif_tenant_rls.py:72-75 | Replacing the bare cast in a printed policy prints the tree-rewritten policy, character for character. |
| TenantPolicy.TruthTables | backend/alembic/versions/0097_nullif_tenant_rls.py:5-30 | The meaning given to OR, AND and NOT is SQL's: the three-valued truth tables on operands that raise nothing. |
| TenantPolicy.MeaningPreserved | backend/alembic/versions/0097_nullif_tenant_rls.py:27-30 | For every policy expression, row and setting, wherever the old policy evaluates without error the new one gives the same value, in three-valued logic. |
| TenantPolicy.SameUnlessEmpty | backend/alembic/versions/0097_nullif_tenant_rls.py:12-30 | With any setting but the empty string the two policies agree everywhere, errors included. |
| TenantPolicy.StandardPolicyDecision | backend/alembic/versions/0097_nullif_tenant_rls.py:5-30 | The standard policy's decision in every case: an empty setting used to raise and now passes every row; nothing else changed. |
| TenantPolicy.StandardPolicyUpgraded | backend/alembic/versions/0097_nullif_tenant_rls.py:103-133 | A table that holds the standard policy is selected by the loop, ends with the rewritten text, and decides every row as intended before and after. |
| TenantPolicy.Catalogue.Upgrade | backend/alembic/versions/0097_nullif_tenant_rls.py:96-137 | The loop of DROP and CREATE POLICY patches exactly the policies its LIKE conditions select, wildcard underscore included, gives them the default command, roles and AS clause, counts them and leaves the rest. |
| TenantPolicy.UpgradeExact | backend/alembic/versions/0097_nullif_tenant_rls.py:72-133 | With the texts written out: which policies change, what replaces what in which clause, and the command, roles and AS clause they end with; all others stay. |
| TenantPolicy.UpgradeTwice | backend/alembic/versions/0097_nullif_tenant_rls.py:32-44 | A second run changes nothing; tables keep exactly their policies; WITH CHECK stays absent where it was. |
| TenantPolicy.UpgradeKeepsDecisions | backend/alembic/versions/0097_nullif_tenant_rls.py:103-133 | Every selected policy that decided a row decides it the same afterwards, in USING and in WITH CHECK, and a changed outcome means an error on an empty setting. |
| TenantPolicy.ScopeKeptExactly | backend/alembic/versions/0097_nullif_tenant_rls.py:116-130 | Every policy keeps its command, roles and AS clause if and only if each selected one has the defaults. |
| TenantPolicy.SelectPolicyWidened | backend/alembic/versions/0097_nullif_tenant_rls.py:116-123 | A catalogue in which a standard policy is FOR SELECT: the loop recreates it for all commands. |
| TenantPolicy.BareCastLeftExactly | backend/alembic/versions/0097_nullif_tenant_rls.py:109-130 | After the upgrade USING holds the bare cast if and only if it did before and mentions NULLIF, and WITH CHECK if and only if it did before and the policy was not selected. |
| TenantPolicy.BareCastSurvives | backend/alembic/versions/0097_nullif_tenant_rls.py:109-130 | A catalogue whose only bare cast stands in the WITH CHECK of an unselected policy is left as it is. |
| TenantPolicy.SqlLiteralRoundTrip | backend/alembic/versions/0097_nullif_tenant_rls.py:60-66 | Any text quoted by `_sql_literal` is read back unchanged by the SQL lexer, which stops at its closing quote. |
| FttxRunTask.RunTask | backend/app/tasks/fttx_design_run.py:52-189 | For every placement of exceptions the final state is determined. A run that was queued, running or started ends completed or failed unless an exception escaped and recording it failed too; completed if and only if every step worked; completed means a stored output and a written design; without a design, stored if and only if completed; a failed apply leaves no trace in the design but keeps the output; each kind of failure leaves its own message and nothing else. |
| FttxRunTask.Session.RunBody | backend/app/tasks/fttx_design_run.py:85-179 | The same for the body alone: before its first commit it changes nothing, afterwards it leaves the run completed, failed with the right message, or running with an exception on its way out. |
| FttxRunTask.FailUnexpectedly | backend/app/tasks/fttx_design_run.py:63-82 | Only a queued or running run is marked failed, it is unless the update itself fails, and then nothing changes. |
| FttxRunTask.DesignWrittenOnce | backend/app/tasks/fttx_design_run.py:148-175 | Over any number of deliveries of the message, once the design has been written, it and the stored output never change again. |
| TemplateRendering.RenderIsSubstitution | backend/app/tasks/customer_notifications.py:80-87 | If no value leaks, the chain of replaces renders every well-formed template as simultaneous substitution, unknown names left intact. |
| TemplateRendering.EachPlaceholder | backend/app/tasks/customer_notifications.py:80-87 | Each of the six placeholders on its own renders as its own column, or as the default when the column is absent or, for the OLT, empty; the subscriber count as its decimal numeral. |
| TemplateRendering.RenderingExact | backend/app/tasks/customer_notifications.py:80-87 | A field's value is safe in all templates beside plain values if and only if it spells no later placeholder and ends in the beginning of none. |
| TemplateRendering.TitleInReferenceLeaks | backend/app/tasks/customer_notifications.py:80-87 | A reference reading `{title}` leaks: the template `{reference}` renders as the outage's title. |
| TemplateRendering.DoubledBracesBreak | backend/app/tasks/customer_notifications.py:80-87 | Outside well-formed templates a plain value can complete a placeholder. |
| SlaSweep.SlaChecker.CheckAll | backend/app/tasks/sla_checker.py:34-109 | The sweep's loop gives the specified state, or, if a step raises, the state before it. |
| SlaSweep.SlaChecker.HasSlaWarning | backend/app/tasks/sla_checker.py:112-125 | The query answers whether the timeline holds a warning for the outage. |
| SlaSweep.SweepExact | backend/app/tasks/sla_checker.py:46-101 | A sweep breaches exactly the active outages at or past their deadline, warns about exactly those at 80% not yet warned, and changes nothing else. |
| SlaSweep.SweepWrites | backend/app/tasks/sla_checker.py:46-101 | What a sweep adds to the timeline of each outage: a breach at or past the deadline, a first warning from 80% of the allowed time (at least a second), stamped with the sweep's time; nothing for resolved, breached or undated outages, and nothing is removed. |
| SlaSweep.RunKeepsInv | backend/app/tasks/sla_checker.py:46-101 | Over every run with status edits and comments between sweeps: at most one warning and one breach per outage, no warning after a breach, each at its proper time. No assumption on the clock is needed. |
| SlaSweep.BreachedExactly | backend/app/modules/all_modules.py:250-318 | The flag is set after a run if and only if it was before or some sweep met the outage unresolved at or after its deadline; it never clears. |
| AlarmPolling.Poller.PollOlt | backend/app/tasks/smartolt_polling.py:83-124 | One OLT's turn, with a failure possible before or after every external effect. |
| AlarmPolling.TurnEffect | backend/app/tasks/smartolt_polling.py:83-124 | Whatever fails: of the listed ids that the key does not hold, those before the first handler that raises are handed over, in the order of the listing, and that one too if it raises after its commit; the key becomes the listing exactly when no handler raises and the write happens. |
| AlarmPolling.NoAlarmLost | backend/app/tasks/smartolt_polling.py:95-124 | Over every run of polls, failures and expiries, with any OLTs, every id in the cache has been handled, so a fully processed listing leaves no alarm unhandled. |
| AlarmPolling.CycleHandovers | backend/app/tasks/smartolt_polling.py:95-119 | A clean cycle hands nothing over if and only if each listing is contained in what was listed just before it. |
| AlarmPolling.HandoversExact | backend/app/tasks/smartolt_polling.py:95-119 | Over every clean run, expiries included, an alarm is handed over exactly as often as it occurs in the listings it comes back in. |
| AlarmPolling.HandedOverOnceExactly | backend/app/tasks/smartolt_polling.py:95-119 | In a clean run an alarm not known before is handed over exactly once if and only if the polls listing it are consecutive and the first lists it once. |
| AlarmPolling.DeliveriesExact | backend/app/tasks/smartolt_polling.py:84-124 | Over every run, failures and expiries included, an alarm's hand-overs are those of its turns, each handing over a beginning of what is new to the ids last written. |
| AlarmPolling.DeliveredOnceExactly | backend/app/tasks/smartolt_polling.py:84-124 | In every run an alarm is handed over exactly once if and only if the first turn that reaches it hands it over once and no later turn reaches it. |
| AlarmPolling.SteadyCycleSilent | backend/app/tasks/smartolt_polling.py:80-119 | Repeating a cycle hands nothing over again if and only if all OLTs list the same ids. |
| AlarmPolling.TwoOltsRepeat | backend/app/tasks/smartolt_polling.py:80-119 | Two OLTs with one alarm each hand them over again every cycle. |
| CapacityAlerts.Monitor.CheckConfig | backend/app/tasks/capacity_monitor.py:70-144 | One check gives the specified alerts: severity by threshold, deduplication by entity, severity and interval. |
| CapacityAlerts.CheckExact | backend/app/tasks/capacity_monitor.py:70-144 | One check: no alert below both thresholds or while an unresolved alert of the tenant and severity, within the interval, names the entity; otherwise one more, critical from the critical threshold on and else a warning, with its threshold, percentage, time and entity, a node's also with its site. |
| CapacityAlerts.OwnAlertsApart | backend/app/tasks/capacity_monitor.py:89-143 | In every run of checks and resolutions, each alert stamped no earlier than its own check read the clock, unresolved alerts of one severity from one configuration are more than its interval apart. |
| CapacityAlerts.RunKeepsSpaced | backend/app/tasks/capacity_monitor.py:89-143 | Over every such run the same holds across configurations, for all alerts naming the later one's entity; the clocks of different checks may overlap. |
| CapacityAlerts.CheckCovers | backend/app/tasks/capacity_monitor.py:76-105 | A check that finds a threshold reached leaves a recent unresolved alert naming the entity. |
| CapacityAlerts.WarningsDoNotSilence | backend/app/tasks/capacity_monitor.py:76-144 | However many warnings are open, reaching the critical threshold raises a critical alert with that threshold and percentage. |
| CapacityAlerts.OwnAlertExactly | backend/app/tasks/capacity_monitor.py:89-144 | For every set of alerts, a check of a site over its threshold leaves it with a recent alert that is not a node's if and only if there was one or no node's alert names the site. |
| CapacityAlerts.OwnAlertExactlyInRuns | backend/app/tasks/capacity_monitor.py:89-144 | After every run the same, told by which entity's check raised each alert. |
| CapacityAlerts.NodeSilencesSite | backend/app/tasks/capacity_monitor.py:98-121 | The smallest case: a node's alert silences its site's alert of the same severity, and not the other way round. |
| Onboarding.OnboardingApi.SubmitOnboarding | backend/app/modules/all_modules.py:440-453 | A submission adds one request awaiting its manager, whatever the proposal, unless a constraint refuses it. |
| Onboarding.OnboardingApi.ManagerApproveOnboarding | backend/app/modules/all_modules.py:455-484 | Succeeds exactly for a level-4 manager of the request's department on a request awaiting one; the refusals follow the handler's order. |
| Onboarding.OnboardingApi.ApproveOnboarding | backend/app/modules/all_modules.py:487-549 | Approval provisions one inactive user with the proposed address and role, or, if a constraint refuses it, changes nothing. |
| Onboarding.OnboardingApi.RejectOnboarding | backend/app/modules/all_modules.py:551-580 | Rejection in the manager phase needs the department's manager and records the reason; in the administrator phase it does neither. |
| Onboarding.SubmitReply | backend/app/modules/all_modules.py:440-453 | A submission succeeds unless a constraint refuses it. |
| Onboarding.ManagerReply | backend/app/modules/all_modules.py:455-484 | The reply is that of the first check that fails, in the handler's order: level, request, status, department. |
| Onboarding.ApproveReply | backend/app/modules/all_modules.py:487-549 | The reply is that of the first check that fails: request, status, the user's key and address. |
| Onboarding.RejectReply | backend/app/modules/all_modules.py:551-580 | A finished request is a bad request; before the first approval the department's managers of level 4 or above may reject, afterwards anyone. |
| Onboarding.ApprovalProvisions | backend/app/modules/all_modules.py:505-538 | A successful approval adds one user with the proposed address and role, neither active nor deleted, marks the request, and leaves all other users and requests alone. |
| Onboarding.ApprovedNeedsSenior | backend/app/modules/all_modules.py:455-498 | After every run an approved request was approved by a call of someone of level 4 or above in its department. |
| Onboarding.RefusedChangesNothing | backend/app/modules/all_modules.py:440-580 | A call that is refused leaves requests and users as they were. |
| Onboarding.HistoryLawful | backend/app/modules/all_modules.py:440-580 | Over every run, the successful calls on a request form one of five histories, recorded in its fields: an approved request was first approved by a manager of level 4 or above of its own department. |
| Onboarding.FinishedStays | backend/app/modules/all_modules.py:487-580 | Approved and rejected are absorbing under every continuation. |
| Onboarding.ApprovalAsksNothing | backend/app/modules/all_modules.py:487-498 | Whether the second approval succeeds does not depend on its caller. |
| Onboarding.OnePersonExactly | backend/app/modules/all_modules.py:440-549 | One person can submit, manager-approve and approve a request if and only if a manager of level 4 or above of its department. |
| Onboarding.UsersProvisioned | backend/app/modules/all_modules.py:505-538 | Over every run, with other code creating and editing users, a request has a provisioned user if and only if approved, no two share one, each has the proposed address and role and is neither active nor deleted until edited, and the users grow by exactly the approved requests and those other code created. |
| RoleAssignment.RoleApi.Assign | backend/app/modules/all_modules.py:158-169 | The handler's new users, history and reply are those of the step function. |
| RoleAssignment.AssignExact | backend/app/modules/all_modules.py:158-169 | An assignment is refused for a missing role, then for a role not below the caller's, then for a missing user; otherwise that user alone gets the role and the history one row saying who, from what, to what and by whom. |
| RoleAssignment.TopNeverRises | backend/app/modules/all_modules.py:158-169 | No run of assignments and new roles lifts anyone above the highest level held, or gives that level to anyone new. |
| RoleAssignment.TopLostExactly | backend/app/modules/all_modules.py:158-169 | A call vacates the top level if and only if it assigns a role to its only holder, whoever calls. |
| RoleAssignment.LowerCallerVacatesTop | backend/app/modules/all_modules.py:158-169 | A concrete state in which a level-4 caller takes the level-5 role from its only holder. |
| RoleAssignment.HistoryReplays | backend/app/modules/all_modules.py:158-169 | Over every run each user's history is a chain from the first role to the current one, and each change was made by someone then above the role given. |
| TicketNumbers.Projects.CreateProject | backend/app/modules/all_modules.py:705-713 | One creation: query, four-digit format, insert under the unique key. |
| TicketNumbers.CreateExact | backend/app/modules/all_modules.py:705-713 | For any tickets a tenant may hold: the creation asks for the number after the greatest integer that the last four characters of the year's tickets give, or for 1; it fails if some are no integer or the number is taken, and otherwise adds it. |
| TicketNumbers.FourDigitsReadBack | backend/app/modules/all_modules.py:713 | A formatted number has at least four characters, reads back as the number, and is its plain numeral when longer. |
| TicketNumbers.TicketsDistinct | backend/app/modules/all_modules.py:705-713 | Numbers of a year differ exactly when their counters do, and read back as them. |
| TicketNumbers.RunExact | backend/app/modules/all_modules.py:705-713 | Over every interleaving of years, a year that starts without numbers has issued exactly 1 to min(n, 10000), in order, after n creations in it. |
| TicketNumbers.CreationExact | backend/alembic/versions/0035_project_ticket_numbers.py:26-30 | The next creation of a year succeeds if and only if fewer than 10000 came before it; afterwards each asks for number 10000 again and is refused. |
| TicketNumbers.TenThousandAndFirst | backend/app/modules/all_modules.py:705-713 | After ten thousand creations in a year, from no tickets at all, the next is refused. |
| EngineeringMigration.Migration.MigrateProjects | scripts/migrate_projects_to_engineering.py:36-150 | The loop over projects, dry or applied, gives the specified report and tables; an exception leaves the tables as they were. |
| EngineeringMigration.DryRunCounts | scripts/migrate_projects_to_engineering.py:66-150 | A dry run reports how many projects it met, how many lack a row in each table, and warns of exactly those without an id, in order. |
| EngineeringMigration.ApplyAsPredicted | scripts/migrate_projects_to_engineering.py:66-150 | With distinct ids, an apply run reports what the dry run did if and only if the database takes every missing row; otherwise it raises and changes nothing. |
| EngineeringMigration.ApplyCompletes | scripts/migrate_projects_to_engineering.py:78-148 | A committed run keeps every row, leaves every project with an id a row in each table present, and adds only rows for projects that lacked one, each with the project's id and tenant and the name, BOQ number (eight characters of the id, in capitals) or type the script gives it. |
| EngineeringMigration.SecondApplyCreatesNothing | scripts/migrate_projects_to_engineering.py:78-148 | A second apply run changes nothing and reports zero. |
| EngineeringMigration.ApplyOnCurrentSchema | backend/alembic/versions/0090_design_container.py:61-80 | On the designs table as migrations 0090 and 0099 leave it, an apply run raises and changes nothing if and only if some project lacks a design or another insert is refused. |
| EngineeringMigration.DryRunAnnouncesApplyRaises | scripts/migrate_projects_to_engineering.py:78-103 | One project and empty tables: the dry run announces a design, a BOQ and a deployment; the apply run raises. |
| FeatureGrants.AllowedExactly | backend/app/dependencies/permissions.py:47-118 | Who is allowed, stated over the rows: an administrator, or within a tenant a holder of a reached grant or a granting override. |
| FeatureGrants.AccessOnlyGrows | backend/app/dependencies/permissions.py:47-118 | A caller allowed stays allowed at a higher level and with more grants; a denying override takes no grant away. |
| FeatureGrants.PermissionTables.Upgrade | backend/alembic/versions/0087_network_gis_foundation.py:225-237 | The loop of INSERT ... SELECT copies both keys' rows, rows already there winning. |
| FeatureGrants.PermissionTables.Downgrade | backend/alembic/versions/0087_network_gis_foundation.py:246-249 | The loop of DELETEs removes the network keys' rows. |
| FeatureGrants.UpgradedRowsExact | backend/alembic/versions/0087_network_gis_foundation.py:225-237 | The rows of either table after the upgrade: those that were there, and for a network key without one a copy of the infrastructure key's. |
| FeatureGrants.DowngradedRowsExact | backend/alembic/versions/0087_network_gis_foundation.py:246-249 | The rows after the downgrade: those of every key but the two network keys. |
| FeatureGrants.UpgradePreservesAccess | backend/alembic/versions/0087_network_gis_foundation.py:225-237 | If the new keys had no rows, every caller is then allowed them exactly when allowed the old ones, and every other key is decided as before. |
| FeatureGrants.RoundTripExact | backend/alembic/versions/0087_network_gis_foundation.py:244-249 | Upgrade and downgrade restore both tables if and only if the new keys had no rows. |
| FeatureGrants.RoundTripDecides | backend/alembic/versions/0087_network_gis_foundation.py:244-249 | Whatever the tables held, every other key is decided as before the round trip. |
| CamelKeys.CamelUndoneExactly | frontend/src/api/projects.api.ts:13-15 | `toCamel` can be undone on a key if and only if it has no upper-case letter. |
| CamelKeys.CamelFixpoint | frontend/src/api/projects.api.ts:13-15 | A key in which no underscore stands before a lower-case letter stays as it is. |
| CamelKeys.CamelApart | frontend/src/api/projects.api.ts:13-15 | Keys may be camelised apart wherever the cut parts no underscore from its letter. |
| CamelKeys.CamelJoins | frontend/src/api/projects.api.ts:13-15 | Anywhere in a key, an underscore and the lower-case letter after it become that letter in upper case. |
| CamelKeys.CamelIdempotent | frontend/src/api/projects.api.ts:13-15 | `toCamel` twice is `toCamel` once. |
| CamelKeys.CamelizeUndoneExactly | frontend/src/api/projects.api.ts:16-22 | `camelizeKeys` on a JSON tree can be undone if and only if no key at any depth has an upper-case letter. |
| CamelKeys.CamelizeIdempotent | frontend/src/api/projects.api.ts:16-22 | `camelizeKeys` twice is `camelizeKeys` once, for every tree. |
| CamelKeys.RenameExact | frontend/src/api/projects.api.ts:16-22 | Scalars stay; arrays keep length and order; an object ends with different keys, holding each entry renamed unless a later one gets the same key, and nothing else. |
| CamelKeys.NoEntryLostExactly | frontend/src/api/projects.api.ts:16-22 | Renaming keys loses no entry at any depth if and only if no two keys of one object meet. |
| CamelKeys.SnakeKeysNeverCollide | frontend/src/api/projects.api.ts:12-22 | Keys without upper-case letters never meet, so nothing of such a tree is lost. |
| CamelKeys.MixedKeysLose | frontend/src/api/projects.api.ts:16-22 | An object with both `a_b` and `aB` loses an entry. |

## Left out

- HTTP, Redis, SMTP, SMS and Celery transport: steps that succeed or fail, as parameters.
- Clocks, uuids and random suffixes: parameters; a key that is already taken is refused by its constraint.
- The FTTx engine, `apply_output` beyond being one fallible step on the open transaction, geometry and routing.
- Process kills in the FTTx task, progress fields, timestamps and the texts Python gives to exceptions; a completed run delivered again is covered only as far as its output and design go.
- DesignRequests: what an operation computes from geometry, codes, categories and soft-delete marks is a parameter of the request, and so is a connection's design; operations are functions on values, run by one loop. A request refused for such a reason is no request.
- DesignOperations.UndoExact: ports, fibres and other tables that cascade from cables and assets, and unique codes that clash while a patch runs, are not in the model.
- The 0097 downgrade: its filter excludes every text that mentions current_setting, so there is no round trip to state.
- TenantPolicy.PatchPolicyText: expressions of the shape these policies have; other settings, quoted identifiers and a table of the same name in two schemas are not modelled, nor how PostgreSQL deparses a policy it has just been given.
- NetworkAudit.LogReplaysHistory: histories with bulk mode off and no column added or dropped between entries.
- Concurrent sweeps and pollers: each job is taken to finish before it starts again.
- SLA notifications to managers: a step that may raise and roll the sweep back.
- Outage rule matching and the notification log: loops without state from one outage to the next.
- Utilisation percentages: integers, since how a float rounds is not the point; naive timestamps are taken as UTC; deleting an entity's row, which clears its alerts' references, is not a step.
- Capacity tasks created by alert rules: the first matching rule, with no effect on later alerts.
- CapacityAlerts.OwnAlertsApart: configurations of nodes and sites only; utilisation is never computed for other entities. An edited configuration counts as another one.
- TicketNumbers.Cast: white space around a number and other notations PostgreSQL may accept are taken as errors; no generated number contains them.
- Onboarding.UsersProvisioned: hard deletion of users, which no code does; deletion marks are edits.
- Onboarding: the permission check in front of each handler, the staff profile row and the invitation event, which follow the user row.
- EngineeringMigration.NewRow: constant status columns, costs and generated ids, which no property depends on.
- FeatureGrants: the feature_permissions catalogue rows, which no decision reads.
- Pagination, reports, React pages and type declarations: no logic beyond easy members.
