# A verified model of SkillMind's request protocol, migrations, preview acceptor and documentation tools

Five parts of the repository decide something that no single body shows. Each is modelled here in the
form the source has (classes and methods where it changes state, functions where it computes) and
proved to do what it is for, on every input, run or reachable state.

* **The reconciliation panel** (`Reconciliation`, `ReconciliationProtocol`). A tab keeps the id of a
  request it may have sent, retries under that id after a lost reply, a timeout, a storage failure or a
  reload, and forgets it only once a server record names it. The panel is a class over its storage; the
  protocol is a step system in which the network delays, repeats and loses messages, other clients
  write to the same ledger, renders lag behind state, and storage throws at any time. The theorems speak
  about all runs.
* **The guarded migrations** (`SkillScope`, `SkillScopeTheorems`, `SubagentSessions`, `RowVersions`,
  `DocumentUploads`, `EffectUploads`, `ReconciliationLedger`, `InterpretationLedger`, over `Sql`). Tables
  are finite maps, a nullable column is a partial map, a CHECK has SQL's three truth values and rejects
  only on false (ISO/IEC 9075:1992, sections 8.12 and 11.9), unique keys and foreign keys ignore NULL.
  For each downgrade the exact set of databases it accepts is characterised, guards that count groups
  are shown to mean what they are for, and what comes back is compared with what was there before.
* **The task flow preview acceptor** (`TaskContract`, `ContractClauses`, `ResourceSplit`, `TaskFlowPlan`,
  `TaskReadiness`). The recursive
  contract validator with its shared counter, the split of one resource list into task and shared parts
  that must be reassemblable, and the matching of a readiness assessment with the declarations.
* **The signatures of interpretation measurements** (`ContractForm`, `ContractReordering`,
  `TaskSignature`, `BindingSignature`). The normal form of a task contract, what exactly it forgets at
  every level of the tree, the field paths reported beside it, and what the three hashed texts of a
  manifest tell apart.
* **Loops with a global argument** (`DocsOutline`, `DocsLinks`, `SchedulePaging`, `RunDocuments`): heading
  anchors and levels, viewer links, reading a list page by page, and document identity across slots.

`Wrappers`, `Identity`, `Sets`, `Sequences`, `Permutations`, `Sorting`, `Text` and `Json` hold what these
share.

Conventions: an id is the number its UUID spells, so letter case is folded away except in `RunDocuments`,
where the source compares raw text; timestamps are microseconds; a JSON number is its exact value and
whether its token was an integer. `canonical_json` is a parameter required to print different values
differently (numbers are exact decimals, so such a printer exists), `str` and SHA-256 are uninterpreted
parameters. A click on the panel is allowed whenever the handler itself lets it through, whether or not
the button was disabled.

Where code and comments disagree the code is followed, and the gap is a theorem: the comment above
`loadProjectSchedules` (`SKM/web/src/api/schedules.ts:187`) promises that a list that changes while it is
read never yields an incomplete result. `SchedulePaging.NeverMixesExactlyOnOnePage` shows that this holds
for projects of at most one hundred schedules and for no others. Three more properties one might expect
fail, each with an input and the exact condition: a disabled skill version becomes runnable again when
0018 is undone (`SkillScopeTheorems.DisabledVersionReturns`, `ReturnKeepsCatalogs`); 0018 can be refused
its way back right after both upgrades (`DraftCannotReturn`, `MoveAndReturn`); and the semantic signature
depends on the order in which tools are listed, because they are sorted by capability alone
(`BindingSignature.ToolOrderSeen`, `ToolOrderExact`).

## Model

| member | source | states |
|---|---|---|
| Reconciliation.Panel.Restore | SKM/web/src/components/EffectReconciliation.tsx:31-41 | A readable slot fills the ref and the state; a malformed one or a throwing storage sets the storage error and leaves both as they were |
| Reconciliation.Panel.Acknowledge | SKM/web/src/components/EffectReconciliation.tsx:60-68 | Only the pending id itself closes the request; ref and state are cleared only after the slot could be removed |
| Reconciliation.Panel.Start | SKM/web/src/components/EffectReconciliation.tsx:82-99 | The exact new state of a click and the id that leaves the tab: the pending one, or a new one that was stored first, or none |
| Reconciliation.Panel.OnPostSucceeded | SKM/web/src/components/EffectReconciliation.tsx:95-98 | The answer of the request in flight acknowledges that request and starts a new read |
| Reconciliation.Panel.OnPostFailed | SKM/web/src/components/EffectReconciliation.tsx:98 | A failed or timed-out write blocks the next one, keeps the pending id and starts a new read |
| Reconciliation.Panel.OnRecordSeen | SKM/web/src/components/EffectReconciliation.tsx:69-74 | A settled read acknowledges the request its record names and lifts the block only for the shown pending id |
| Reconciliation.Panel.OnRefreshClicked | SKM/web/src/components/EffectReconciliation.tsx:118 | A refresh retries the restore exactly when storage had failed, and starts a new read either way |
| ReconciliationProtocol.InitialInv | SKM/web/src/components/EffectReconciliation.tsx:26-30 | A tab that has sent nothing satisfies the invariant, whatever its slot holds |
| ReconciliationProtocol.NextInv | SKM/web/src/components/EffectReconciliation.tsx:31-99 | No event of panel, network, server, other client or storage breaks the invariant, and what was posted, confirmed or held stays so |
| ReconciliationProtocol.ReachableInv | SKM/web/src/components/EffectReconciliation.tsx:31-99 | The invariant holds after every possible run |
| ReconciliationProtocol.ReloadForgets | SKM/web/src/components/EffectReconciliation.tsx:26-30 | A reload keeps the slot and forgets ref, state and hooks; until the slot is read and rendered no click sends anything |
| ReconciliationProtocol.RestoreReads | SKM/web/src/components/EffectReconciliation.tsx:31-41 | Reading the slot takes over a saved id or its absence; a fault or a damaged slot shows the error and changes nothing else |
| ReconciliationProtocol.CommitReads | SKM/web/src/components/EffectReconciliation.tsx:43-57 | After a commit the read is about the pending id: confirming it if there is one, the latest record otherwise, and never another id's record |
| ReconciliationProtocol.ClickExact | SKM/web/src/components/EffectReconciliation.tsx:81-95 | What a click after a commit sends, in terms of state: the pending id or a new one exactly when nothing runs, no fault is shown, the read is done and its record is not running |
| ReconciliationProtocol.ClickSaves | SKM/web/src/components/EffectReconciliation.tsx:83-94 | A click that sends has the id in ref, state and storage and lifts the block; one that cannot save shows the fault and changes nothing else |
| ReconciliationProtocol.LossKeeps | SKM/web/src/components/EffectReconciliation.tsx:98 | A lost write keeps the request everywhere, blocks the next one and asks for a new read |
| ReconciliationProtocol.AnswerCloses | SKM/web/src/components/EffectReconciliation.tsx:95-98 | An answered write closes its request if that is still the pending one, and asks for a new read |
| ReconciliationProtocol.RereadsExact | SKM/web/src/components/EffectReconciliation.tsx:75-79 | A refresh always asks for a new read, a poll exactly while the shown record runs with no read or write under way |
| ReconciliationProtocol.AtMostOneUnsettled | SKM/web/src/components/EffectReconciliation.tsx:81-99 | In every run at most one id the tab has sent is not yet confirmed by a server record |
| ReconciliationProtocol.RetriesReuseTheRequest | SKM/web/src/components/EffectReconciliation.tsx:84-95 | Of any two sends in a run, the later one repeats the earlier id as long as that id is not confirmed |
| ReconciliationProtocol.FreshOnlyWhenSettled | SKM/web/src/components/EffectReconciliation.tsx:84-92 | A new id is sent only when every id sent before is confirmed and held by the server, and it is in storage before it is sent |
| ReconciliationProtocol.SavedUntilHeld | SKM/web/src/components/EffectReconciliation.tsx:42-74 | The saved id leaves storage only because an answer or a settled read named that very id, which the server holds; a not-found answer that shows another request keeps it |
| ReconciliationProtocol.SendsDoNotOverlap | SKM/web/src/hooks/useResourceRequest.ts:127-228 | Two sends of one run are always separated by an answer, a failure or a reload, stale event handlers included |
| ReconciliationProtocol.ReadCloses | SKM/web/src/components/EffectReconciliation.tsx:60-74 | In every reachable state a settled read that names the pending request empties slot, ref and state and lifts the block; one that names another request leaves all three |
| ReconciliationProtocol.ReadClosesOnlyInStorage | SKM/web/src/components/EffectReconciliation.tsx:60-68 | If storage fails meanwhile, the request stays pending everywhere and the fault is shown |
| ReconciliationProtocol.ClosedByReading | SKM/web/src/components/EffectReconciliation.tsx:31-74 | From every reachable state with a saved id that the ledger holds, a continuation without any click empties the slot, and nothing is sent |
| ReconciliationProtocol.AlwaysRecoverable | SKM/web/src/components/EffectReconciliation.tsx:31-99 | From every reachable state with a readable slot some continuation settles exactly the saved request, or one new one, and leaves nothing open |
| ReconciliationProtocol.SendsExactlyUnlessDamaged | SKM/web/src/components/EffectReconciliation.tsx:31-40 | A reachable tab can still send a request if and only if its slot was not malformed when it opened |
| SkillScope.SkillLibrary.Upgrade0017 | SKM/backend/migrations/versions/0017_skill_library_organization_scope.py:26-152 | The migration as it runs equals the specified upgrade, or leaves every table as it was |
| SkillScope.SkillLibrary.AddSkillSourceOrganization | SKM/backend/migrations/versions/0017_skill_library_organization_scope.py:34-81 | Every source gets the organization of its project, unless some source would stay without one |
| SkillScope.SkillLibrary.SeedExistingEnablements | SKM/backend/migrations/versions/0017_skill_library_organization_scope.py:124-152 | Row by row, the seed is one binding per published version and owning project, with importer, time and no end |
| SkillScope.SkillLibrary.Downgrade0017 | SKM/backend/migrations/versions/0017_skill_library_organization_scope.py:155-171 | Bindings and the organization column are dropped, nothing else changes, and the older schema holds |
| SkillScope.SkillLibrary.Upgrade0018 | SKM/backend/migrations/versions/0018_skill_library_scope_switch.py:25-178 | Guards in their order, then columns; on refusal nothing changes |
| SkillScope.SkillLibrary.ScopeSkillsToOrganization | SKM/backend/migrations/versions/0018_skill_library_scope_switch.py:88-163 | Succeeds exactly when every skill has one organization behind its versions, which it then gets |
| SkillScope.SkillLibrary.ContractSkillSources | SKM/backend/migrations/versions/0018_skill_library_scope_switch.py:165-178 | The project column goes and nothing else changes |
| SkillScope.SkillLibrary.Downgrade0018 | SKM/backend/migrations/versions/0018_skill_library_scope_switch.py:180-278 | Guards, restored column and rebuilt unique keys; on refusal nothing changes |
| SkillScopeTheorems.Upgrade17Exact | SKM/backend/migrations/versions/0017_skill_library_organization_scope.py:34-81 | 0017 succeeds exactly when no source names a missing project; the result is valid and undone without a trace |
| SkillScopeTheorems.BackfilledRows | SKM/backend/migrations/versions/0017_skill_library_organization_scope.py:34-152 | Column by column what 0017 writes: each source's organization is its project's, a binding exists exactly for each published version and its project, enabled by the importer, at publication time or else creation time, and never disabled |
| SkillScopeTheorems.SeedKeepsCatalogs | SKM/backend/migrations/versions/0017_skill_library_organization_scope.py:124-152 | Every project has enabled exactly the published versions it owned before, and the scope guard of 0018 finds nothing |
| SkillScopeTheorems.ContentGuardExact | SKM/backend/migrations/versions/0018_skill_library_scope_switch.py:34-58 | Some group of equal organization and content counts more than one row exactly when two different sources share them |
| SkillScopeTheorems.BindingGuardExact | SKM/backend/migrations/versions/0018_skill_library_scope_switch.py:61-85 | The joined rows counted as invalid are more than none exactly when some binding is unpublished or leaves its organization |
| SkillScopeTheorems.KeyGuardExact | SKM/backend/migrations/versions/0018_skill_library_scope_switch.py:251-278 | Some group of equal keys counts more than one row exactly when two different skills share a key |
| SkillScopeTheorems.ScopedKeyExact | SKM/backend/migrations/versions/0018_skill_library_scope_switch.py:150-163 | Under the new unique key two skills share a key only in different organizations |
| SkillScopeTheorems.Upgrade18Exact | SKM/backend/migrations/versions/0018_skill_library_scope_switch.py:34-156 | For every 0017 database the counting guards of 0018 pass exactly when no two sources of an organization share content, every binding is published and in its organization, and every skill has versions, all in one organization |
| SkillScopeTheorems.Upgrade18Sound | SKM/backend/migrations/versions/0018_skill_library_scope_switch.py:88-178 | The result meets every 0018 constraint, every skill has the organization of all its versions' sources, all bindings are kept |
| SkillScopeTheorems.MoveExact | SKM/backend/migrations/versions/0018_skill_library_scope_switch.py:25-178 | Which databases before 0017 both upgrades accept, said in terms of projects, contents and skills, and that every project's catalog survives the move |
| SkillScopeTheorems.Downgrade18Exact | SKM/backend/migrations/versions/0018_skill_library_scope_switch.py:192-278 | For every 0018 database the downgrade succeeds exactly when each source is bound to one project and both old unique keys hold |
| SkillScopeTheorems.Downgrade18Sound | SKM/backend/migrations/versions/0018_skill_library_scope_switch.py:180-278 | What the downgrade returns meets every 0017 constraint |
| SkillScopeTheorems.MoveAndReturn | SKM/backend/migrations/versions/0018_skill_library_scope_switch.py:192-249 | After both upgrades the downgrade succeeds exactly when every source has a published version, and returns the 0017 state with each original project |
| SkillScopeTheorems.ReturnAndMove | SKM/backend/migrations/versions/0018_skill_library_scope_switch.py:180-278 | From any 0018 database that can go back, going forward again restores it exactly when every binding is published within one organization and every skill follows its versions' sources |
| SkillScopeTheorems.ReturnKeepsCatalogs | SKM/backend/migrations/versions/0018_skill_library_scope_switch.py:192-249 | Going back keeps every project's catalog exactly when the published versions are the actively enabled ones |
| SkillScopeTheorems.DisabledVersionReturns | SKM/backend/migrations/versions/0018_skill_library_scope_switch.py:192-249 | A valid 0018 database whose one published version is disabled can go back, and that version is runnable again |
| SkillScopeTheorems.DraftCannotReturn | SKM/backend/migrations/versions/0018_skill_library_scope_switch.py:192-249 | A database with one draft version passes both upgrades, and the downgrade right after them is refused |
| SubagentSessions.AgentSessions.Upgrade0027 | SKM/backend/migrations/versions/0027_subagent_sessions.py:51-98 | The keys are narrowed and the CHECKs added when every row passes them; rows never change |
| SubagentSessions.AgentSessions.Downgrade0027 | SKM/backend/migrations/versions/0027_subagent_sessions.py:101-136 | What the guard lets through meets the widened keys; rows never change |
| SubagentSessions.SessionSchemaExact | SKM/backend/migrations/versions/0027_subagent_sessions.py:51-98 | Which rows and pairs of rows 0027 admits: primary sessions the SDK knows and branches of sub-agents, one primary session per attempt and one active one per run |
| SubagentSessions.CompatibleIsOld | SKM/backend/migrations/versions/0027_subagent_sessions.py:33-48 | A table the guard lets through satisfies every 0026 constraint, whatever it satisfied before |
| SubagentSessions.GuardMeansSubagent | SKM/backend/migrations/versions/0027_subagent_sessions.py:33-48 | Under the 0027 constraints the five clauses are together true exactly when a SUBAGENT row exists |
| SubagentSessions.DownAndUp | SKM/backend/migrations/versions/0027_subagent_sessions.py:51-136 | A downgrade that is not refused is undone by the upgrade, on the same table |
| SubagentSessions.UpAndDown | SKM/backend/migrations/versions/0027_subagent_sessions.py:51-136 | Which 0026 tables the upgrade accepts, and that it can be undone exactly when none holds a branch |
| ReconciliationLedger.ChecksExact | SKM/backend/migrations/versions/0047_effect_reconciliation_requests.py:64-100 | On any mix of NULLs the CHECKs accept exactly the intended two-valued states |
| ReconciliationLedger.StateCheckNeedsOwnerCheck | SKM/backend/migrations/versions/0047_effect_reconciliation_requests.py:76-100 | The state CHECK alone accepts a row without a lease that the owner CHECK rejects |
| ReconciliationLedger.StoredRequestsParse | SKM/web/src/api/reconciliation.ts:20-45 | Every stored row in scope is read by the client exactly when no id is nil and a failure has one of the four public codes |
| ReconciliationLedger.KindsReadAlike | SKM/web/src/api/reconciliation.ts:20-45 | The client knows two kinds beside the stored ones and reads all four alike |
| ReconciliationLedger.ParsedRecordsAreStorable | SKM/web/src/api/reconciliation.ts:20-45 | Whatever the client accepts about a stored kind is the projection of some row the CHECKs accept |
| InterpretationLedger.ChecksExact | SKM/backend/migrations/versions/0044_interpretation_requests.py:65-89 | On any mix of NULLs the CHECKs accept exactly the intended states |
| InterpretationLedger.StoredRequestsParse | SKM/web/src/api/skills.ts:742-759 | The client reads every stored request exactly when no id is nil and no error code is empty |
| InterpretationLedger.ParsedLaunchesAreStorable | SKM/web/src/api/skills.ts:742-759 | Every launch the client accepts is the projection of some row the CHECKs accept |
| RowVersions.ProjectTable.Upgrade0034 | SKM/backend/migrations/versions/0034_project_row_version.py:20-28 | Every project gets version one and the range CHECK holds |
| RowVersions.ProjectTable.Downgrade0034 | SKM/backend/migrations/versions/0034_project_row_version.py:31-41 | Refused with a version above one, otherwise the column is dropped, the older schema holds, and upgrading again restores the table |
| RowVersions.VersionSchemaExact | SKM/backend/migrations/versions/0034_project_row_version.py:20-28 | Every project has a version from 1 to 2147483647 |
| RowVersions.VersionsLossless | SKM/backend/migrations/versions/0034_project_row_version.py:20-41 | The downgrade succeeds exactly on databases the upgrade can produce, and the upgrade restores them |
| RowVersions.VersionsReversible | SKM/backend/migrations/versions/0034_project_row_version.py:20-41 | An upgrade can always be undone and gives back the old database |
| RowVersions.VersionGuardNeedsCheck | SKM/backend/migrations/versions/0034_project_row_version.py:26-36 | Without the CHECK the guard would lose a version below one |
| RowVersions.SettlementExact | SKM/backend/migrations/versions/0036_schedule_occurrences.py:75-87 | On any mix of NULLs an occurrence is pending and blank, or settled with a run exactly when it created one |
| RowVersions.ScheduleTables.Upgrade0036 | SKM/backend/migrations/versions/0036_schedule_occurrences.py:20-95 | Defaults in both columns, no occurrence, and all constraints hold |
| RowVersions.ScheduleTables.Downgrade0036 | SKM/backend/migrations/versions/0036_schedule_occurrences.py:98-118 | Refused with an occurrence or a column off its default, otherwise both columns and the table go, the older schema holds, and upgrading again restores everything |
| RowVersions.OccurrenceSchemaExact | SKM/backend/migrations/versions/0036_schedule_occurrences.py:20-95 | Which rows and pairs of rows 0036 admits: at most one pending occurrence of a schedule, one per time, no shared run, columns in range |
| RowVersions.OccurrencesLossless | SKM/backend/migrations/versions/0036_schedule_occurrences.py:98-118 | Guard and CHECKs together: a downgrade that is not refused is undone exactly by the upgrade |
| RowVersions.OccurrencesReversible | SKM/backend/migrations/versions/0036_schedule_occurrences.py:20-118 | An upgrade can always be undone and gives back the old database |
| DocumentUploads.LifeExact | SKM/backend/migrations/versions/0042_document_upload_closures.py:27-31 | On any mix of NULLs the CHECKs of 0038 and 0042 accept exactly open, closed and published intents with their time order |
| DocumentUploads.ReplacementExact | SKM/backend/migrations/versions/0060_document_upload_replace.py:18-24 | The paired columns are both NULL or both set, to another document and a digest |
| DocumentUploads.IntentSchemaExact | SKM/backend/migrations/versions/0038_document_upload_intents.py:20-104 | Which rows and pairs of rows 0038 admits: each intent lives one life, documents differ, pending paths differ, and a document's intent names it and its project |
| DocumentUploads.IntentsLossless | SKM/backend/migrations/versions/0038_document_upload_intents.py:107-125 | The downgrade succeeds exactly without intents; the foreign key makes its second condition follow |
| DocumentUploads.IntentsReversible | SKM/backend/migrations/versions/0038_document_upload_intents.py:20-125 | An upgrade can always be undone and gives back the old database |
| DocumentUploads.ClosureSchemaExact | SKM/backend/migrations/versions/0042_document_upload_closures.py:20-85 | Which rows and pairs of rows 0042 admits: open paths differ, a closure copies document and project of its intent, and no intent has two |
| DocumentUploads.ClosuresLossless | SKM/backend/migrations/versions/0042_document_upload_closures.py:88-109 | With nothing closed both index predicates select the same rows, so the old index holds and the upgrade restores everything |
| DocumentUploads.ClosuresReversible | SKM/backend/migrations/versions/0042_document_upload_closures.py:20-109 | An upgrade can always be undone and gives back the old database |
| DocumentUploads.ClosureGuardNeedsBothReads | SKM/backend/migrations/versions/0042_document_upload_closures.py:88-102 | A guard that read the closure table alone would let a broken path index through |
| DocumentUploads.ReplacementsLossless | SKM/backend/migrations/versions/0060_document_upload_replace.py:27-39 | The guard reads one column of the pair and the CHECK makes it speak for both |
| DocumentUploads.ReplacementsReversible | SKM/backend/migrations/versions/0060_document_upload_replace.py:14-39 | An upgrade can always be undone and gives back the old database |
| DocumentUploads.ReplacementGuardNeedsCheck | SKM/backend/migrations/versions/0060_document_upload_replace.py:18-39 | Without the CHECK the same guard would lose the other column |
| DocumentUploads.UploadTables.Upgrade0038 | SKM/backend/migrations/versions/0038_document_upload_intents.py:20-104 | The new table and column start empty and meet every constraint |
| DocumentUploads.UploadTables.Downgrade0038 | SKM/backend/migrations/versions/0038_document_upload_intents.py:107-125 | What the guard lets through meets the older schema and comes back whole with the upgrade; otherwise nothing changes |
| DocumentUploads.UploadTables.Upgrade0042 | SKM/backend/migrations/versions/0042_document_upload_closures.py:20-85 | The replaced index and the new table meet every constraint |
| DocumentUploads.UploadTables.Downgrade0042 | SKM/backend/migrations/versions/0042_document_upload_closures.py:88-109 | What the guard lets through meets the older schema and comes back whole with the upgrade; otherwise nothing changes |
| DocumentUploads.UploadTables.Upgrade0060 | SKM/backend/migrations/versions/0060_document_upload_replace.py:14-24 | Both columns start empty and meet the CHECK |
| DocumentUploads.UploadTables.Downgrade0060 | SKM/backend/migrations/versions/0060_document_upload_replace.py:27-39 | What the guard lets through meets the older schema and comes back whole with the upgrade; otherwise nothing changes |
| EffectUploads.StateIsStampCount | SKM/backend/migrations/versions/0045_document_effect_uploads.py:48-66 | On any mix of NULLs the state is the number of set stamps in the chain created, sent, verified, published, with owner and receipt to match |
| EffectUploads.UploadSchemaExact | SKM/backend/migrations/versions/0045_document_effect_uploads.py:69-157 | Which documents 0045 admits: one origin each, and an upload that names the document and its project |
| EffectUploads.UploadsLossless | SKM/backend/migrations/versions/0045_document_effect_uploads.py:144-175 | The downgrade that only reads the upload table loses nothing, because the composite foreign key points into it |
| EffectUploads.UploadsReversible | SKM/backend/migrations/versions/0045_document_effect_uploads.py:16-175 | An upgrade can always be undone and gives back the old database |
| EffectUploads.UploadGuardNeedsForeignKey | SKM/backend/migrations/versions/0045_document_effect_uploads.py:144-175 | Without the foreign key the same guard would lose a document's origin |
| EffectUploads.UploadTables.Upgrade0045 | SKM/backend/migrations/versions/0045_document_effect_uploads.py:16-157 | The new table and column start empty and meet every constraint |
| EffectUploads.UploadTables.Downgrade0045 | SKM/backend/migrations/versions/0045_document_effect_uploads.py:160-175 | What the guard lets through meets the older schema and comes back whole with the upgrade; otherwise nothing changes |
| TaskContract.Contract | SKM/web/src/api/taskFlowPreview.ts:151-174 | The recursive validator with its shared counter and early exits accepts exactly the trees whose nodes are all well formed, not too deep, and not too many in all |
| TaskContract.Fields | SKM/web/src/api/taskFlowPreview.ts:131-133 | The loop over sibling fields stops at the first failure and still decides the whole list |
| TaskContract.ObjectBelow | SKM/web/src/api/taskFlowPreview.ts:169 | The fields of an object node, then the uniqueness of their keys |
| TaskContract.ArrayBelow | SKM/web/src/api/taskFlowPreview.ts:170 | The item of an array node, one level down |
| TaskContract.ValidateContract | SKM/web/src/api/taskFlowPreview.ts:151-174 | A root is accepted exactly when it is a contract in the declarative sense, without visits or counter |
| TaskContract.FieldOrderIrrelevant | SKM/web/src/api/taskFlowPreview.ts:151-174 | Reordering the declared fields at any level of a contract never changes whether it is accepted |
| Json.AtMostExact | SKM/web/src/lib/losslessJson.ts:87-100 | Comparing two numbers over a common denominator compares them as real numbers |
| ContractClauses.BareExact | SKM/web/src/api/taskFlowPreview.ts:153-159 | A root with nothing but version and type is accepted exactly with the known version and a type other than array |
| ContractClauses.RootsOnly | SKM/web/src/api/taskFlowPreview.ts:154-155 | An accepted root is an object with version and type and no attribute outside the eleven |
| ContractClauses.DescriptionExact | SKM/web/src/api/taskFlowPreview.ts:163 | Adding a description keeps a root accepted exactly if it is a text of 1 to 500 characters |
| ContractClauses.PatternExact | SKM/web/src/api/taskFlowPreview.ts:160-164 | A pattern needs the type string and 1 to 128 characters |
| ContractClauses.MinimumExact | SKM/web/src/api/taskFlowPreview.ts:161-166 | A minimum needs a numeric type, a number, and a maximum not below it, compared as real numbers |
| ContractClauses.MaximumExact | SKM/web/src/api/taskFlowPreview.ts:161-166 | Likewise for a maximum added after the minimum |
| ContractClauses.MinLengthExact | SKM/web/src/api/taskFlowPreview.ts:160-168 | A least length needs the type string, an integer from 0 to 100000, and no smaller greatest length |
| ContractClauses.MaxLengthExact | SKM/web/src/api/taskFlowPreview.ts:160-168 | Likewise for a greatest length |
| ContractClauses.EnumExact | SKM/web/src/api/taskFlowPreview.ts:171-173 | An enum needs one to fifty values of the node's type, no two the same, numbers compared by size |
| ContractClauses.OthersRefused | SKM/web/src/api/taskFlowPreview.ts:154 | Any other attribute makes a root refused |
| ContractClauses.BoundsDecide | SKM/web/src/api/taskFlowPreview.ts:165-166 | A numeric root with exactly two bounds is accepted if and only if the first is not above the second |
| ContractClauses.LengthsDecide | SKM/web/src/api/taskFlowPreview.ts:167-168 | A string root with exactly two integer lengths is accepted if and only if they lie in order between 0 and 100000 |
| ContractClauses.FieldListExact | SKM/web/src/api/taskFlowPreview.ts:157-169 | A list of plain fields is accepted exactly below an object, with at most a hundred, each with a key of the pattern, a boolean obligation and a type, and no key twice |
| ContractClauses.FieldsMustBeList | SKM/web/src/api/taskFlowPreview.ts:169 | Fields that are not a list make a root refused |
| ContractClauses.TotalExact | SKM/web/src/api/taskFlowPreview.ts:152 | The bound of one hundred counts fields of all levels together |
| ContractClauses.ItemsExact | SKM/web/src/api/taskFlowPreview.ts:152-170 | Arrays nest exactly as far as five levels allow, the root and the innermost item counted |
| ContractClauses.ItemsNeedArray | SKM/web/src/api/taskFlowPreview.ts:158 | Only an array has items |
| TaskContract.ShuffledFields | SKM/web/src/api/taskFlowPreview.ts:131-133 | Any permutation of a root's fields is such a reordering and leaves acceptance unchanged |
| TaskContract.ReorderedInside | SKM/web/src/api/taskFlowPreview.ts:169-170 | So is a reordering inside one field or inside an item, hence at every level |
| TaskContract.EnumKeyExact | SKM/web/src/lib/losslessJson.ts:57-69 | Two enum values are one entry exactly when they are equal, numbers counting as equal by size alone, however they were written |
| TaskFlowPlan.ReferenceIsIndex | SKM/web/src/api/taskFlowPreview.ts:196 | Each index below fifty has one accepted spelling, and each accepted reference one index |
| Permutations.SortedIota | SKM/web/src/api/taskFlowPreview.ts:232 | The sorted-indices test accepts exactly the permutations of 0 to n-1 |
| TaskFlowPlan.MergeThenSplit | SKM/web/src/api/taskFlowPreview.ts:220-235 | Placing the values of an accepted plan at their indices gives one list whose split by the task's keys is the plan again, order included |
| TaskFlowPlan.SplitThenMerge | SKM/web/src/api/taskFlowPreview.ts:220-235 | Every split of a bounded list with distinct keys is accepted, and its parts give the list back |
| TaskFlowPlan.AcceptedPlansAreSplits | SKM/web/src/api/taskFlowPreview.ts:220-235 | A plan is accepted if and only if it is the split of some list |
| TaskReadiness.MatchesExactly | SKM/web/src/api/taskFlowPreview.ts:263-277 | A preview with an assessment is accepted exactly when its declarations are, every declared resource is assessed once and each requirement restates its declaration, apply targets required, capabilities as sets |
| TaskReadiness.BlueprintMatchesExactly | SKM/web/src/api/taskFlowPreview.ts:263-277 | For a blueprint, attribute by attribute: each resource is assessed once, and its assessment copies kind, guidance, access and capabilities and says required exactly when the resource is or an apply effect aims at it |
| TaskReadiness.SourceMatchesExactly | SKM/web/src/api/taskFlowPreview.ts:263-277 | For a source execution the same without effects and without comparing access and capabilities, which only may not repeat |
| TaskReadiness.NothingToCompare | SKM/web/src/api/taskFlowPreview.ts:265-266 | Without an assessment the declarations alone decide, and an assessment without declarations is refused |
| TaskReadiness.ApplyTargetsAreRequired | SKM/web/src/api/taskFlowPreview.ts:263-277 | In an accepted preview the target of every apply effect is assessed, and as required |
| TaskReadiness.SourceReferencesExact | SKM/web/src/api/taskFlowPreview.ts:94-99 | A source execution passes exactly when the task lists the resources' keys in their order, all proper and none twice, and no document path repeats; comparing newline-joined keys compares the lists |
| ContractForm.CanonicalMeans | SKM/scripts/measure_skill_interpretations.py:225-231 | What is asked of the canonical printer: different values are printed differently |
| Text.LeqExact | SKM/scripts/measure_skill_interpretations.py:357-364 | The order of texts: a text comes before its extensions, and otherwise the first difference decides |
| ContractForm.FieldsDecided | SKM/scripts/measure_skill_interpretations.py:367-384 | Two fields have one normal form exactly when key, type, obligation, enum up to order, items and the fields below agree |
| ContractForm.ContractsDecided | SKM/scripts/measure_skill_interpretations.py:357-364 | Two contracts have one normal form exactly when, for every printed key, their fields agree in order |
| ContractForm.FieldsByKey | SKM/scripts/measure_skill_interpretations.py:357-364 | Without repeated keys the order of fields is free: same keys, and agreeing fields under each |
| ContractReordering.ReorderingExact | SKM/scripts/measure_skill_interpretations.py:357-384 | Over the whole tree: with keys distinct at every level, two contracts have one normal form exactly when they differ by the order of fields and enum values and by unconsidered attributes alone |
| ContractForm.OtherAttributesIgnored | SKM/scripts/measure_skill_interpretations.py:367-384 | Any attribute besides the six considered ones leaves no trace |
| ContractForm.NormalFormIsSame | SKM/scripts/measure_skill_interpretations.py:367-384 | The normal form of a field means what the field means |
| ContractForm.NormalFormIdempotent | SKM/scripts/measure_skill_interpretations.py:367-384 | The normal form of a normal form is itself |
| TaskSignature.ContractTextExact | SKM/scripts/measure_skill_interpretations.py:222-246 | Two responses hash the same contract text exactly when their tasks pair off with equal types and equal fields in both contracts |
| TaskSignature.SignatureExact | SKM/scripts/measure_skill_interpretations.py:271-311 | So do the signatures, unless the hash collides on the two texts |
| TaskSignature.TaskOrderIgnored | SKM/scripts/measure_skill_interpretations.py:222-231 | The order of tasks is seen neither in the text nor in the paths, ties of the sort included |
| TaskSignature.ContractFieldPaths | SKM/scripts/measure_skill_interpretations.py:341-354 | The appending loop lists the paths of the recursive definition |
| TaskSignature.PathsExact | SKM/scripts/measure_skill_interpretations.py:341-354 | A path is listed exactly when some way down the contract spells it: textual keys behind slashes, brackets where items are entered |
| TaskSignature.NormalPaths | SKM/scripts/measure_skill_interpretations.py:341-354 | A contract and its normal form have the same paths, each as often |
| TaskSignature.FieldPathsExact | SKM/scripts/measure_skill_interpretations.py:282-290 | The report is sorted and lists exactly the paths of both contracts of every task, under the task's number in the sorted order |
| TaskSignature.FieldPathsFollowText | SKM/scripts/measure_skill_interpretations.py:275-283 | Responses that hash the same contract text report the same sorted field paths |
| BindingSignature.SourceEntryExact | SKM/scripts/measure_skill_interpretations.py:246-257 | Two data sources leave one entry exactly when capability, obligation and policy agree and the providers agree up to order |
| BindingSignature.WorkflowEntryExact | SKM/scripts/measure_skill_interpretations.py:265-276 | Two workflows leave one entry exactly when they have equally many object steps and the steps agree in kind, one by one |
| BindingSignature.ToolOrderExact | SKM/scripts/measure_skill_interpretations.py:258-264 | The order of the tools is never seen exactly when tools that print one capability agree on it and on being required |
| BindingSignature.ToolOrderSeen | SKM/scripts/measure_skill_interpretations.py:258-264 | A capability listed once as required and once as optional: swapping the two entries changes what is hashed |
| BindingSignature.SemanticTextExact | SKM/scripts/measure_skill_interpretations.py:222-312 | Two manifests hash the same semantic text exactly when level and capability count agree, tasks, sources and workflows pair off with equal attributes, providers and kinds of steps, and tools agree in order under every printed capability |
| BindingSignature.SemanticSplits | SKM/scripts/measure_skill_interpretations.py:278-316 | The semantic texts agree exactly when the contract texts and the runtime binding texts both do |
| DocsOutline.FreeSlug | SKM/scripts/build_docs.py:164-167 | The search ends, by pigeonhole on the anchors, with the first candidate that is free |
| DocsOutline.SlugExact | SKM/scripts/build_docs.py:163-167 | An anchor is the base, or the base with the least number from one on behind a dash that is free |
| DocsOutline.AnchorsDistinct | SKM/scripts/build_docs.py:164-168 | All anchors of a page differ, and a heading keeps its base exactly when no earlier heading has it |
| DocsOutline.SuffixBounded | SKM/scripts/build_docs.py:164-168 | A suffix never exceeds the number of headings before it |
| DocsOutline.AnchorsStable | SKM/scripts/build_docs.py:164-168 | Headings added at the end leave earlier anchors alone |
| DocsOutline.LevelsExact | SKM/scripts/build_docs.py:175-183 | The two level checks accept exactly the headings that form one tree under a single first H1 |
| DocsOutline.ReadHeading | SKM/scripts/build_docs.py:159-172 | One heading adds its anchor, its place in the contents and its level to what the page has so far |
| DocsOutline.ReadTokens | SKM/scripts/build_docs.py:158-174 | The loop over the tokens gets through exactly when every fence is closed, and then has recorded every heading in order |
| DocsOutline.CheckLevels | SKM/scripts/build_docs.py:177-183 | The loop over the levels passes exactly when no heading is more than one level below the one before |
| DocsOutline.ParseDocument | SKM/scripts/build_docs.py:148-184 | A page is accepted exactly with closed fences and such a tree; its ids, anchors, contents and title are as assigned |
| DocsLinks.QuoteRoundTrip | SKM/scripts/build_docs.py:187-194 | Percent-decoding undoes percent-encoding on every text |
| DocsLinks.QuoteIsClean | SKM/scripts/build_docs.py:241-244 | An encoded text holds unreserved octets, slashes and escapes only |
| DocsLinks.PageUrlRoundTrip | SKM/scripts/build_docs.py:201-215 | A viewer link decodes and partitions back to its page and anchor exactly when the page has no double colon and does not end in a colon |
| DocsLinks.OnlyOneSeparator | SKM/scripts/build_docs.py:241-244 | Before decoding, the separator of a link is the only double colon in it |
| DocsLinks.ValidateLink | SKM/scripts/build_docs.py:201-225 | The branching check returns exactly when the link resolves: external, existing file and anchor, or existing viewer page and section |
| DocsLinks.PlainLinksChecked | SKM/scripts/build_docs.py:205-225 | A link elsewhere always passes; a link to an ordinary file passes exactly if the file exists and has the section, as far as its sections are known |
| DocsLinks.ViewerLinksChecked | SKM/scripts/build_docs.py:208-211 | The viewer itself passes without a fragment and with that of its main part |
| DocsLinks.GeneratedLinksChecked | SKM/scripts/build_docs.py:201-244 | A generated link passes the check exactly when the site holds its page and anchor, older page names replaced |
| SchedulePaging.LoadProjectSchedules | SKM/web/src/api/schedules.ts:188-206 | The loop ends against every server and returns what the page-by-page specification says |
| SchedulePaging.LoadPageExact | SKM/web/src/api/schedules.ts:160-184 | A page is accepted exactly when the query was proper, limit and offset are echoed, and its schedules could be cut from a list of the announced length at that place, all of the project and status and without repeated ids |
| SchedulePaging.AppendPage | SKM/web/src/api/schedules.ts:199-203 | A page is appended whole unless one of its ids was read on an earlier page |
| SchedulePaging.CollectedExactly | SKM/web/src/api/schedules.ts:188-206 | Whatever the server does, a returned list has exactly the announced number of schedules, all different and of the project |
| SchedulePaging.CompositeReturned | SKM/web/src/api/schedules.ts:188-206 | With an honest server and a steady total, the result is each hundred as it stood when it was read, refused exactly when that repeats an id |
| SchedulePaging.FixedListReturned | SKM/web/src/api/schedules.ts:188-206 | A list that does not change is returned whole and in order |
| SchedulePaging.NeverMixesExactlyOnOnePage | SKM/web/src/api/schedules.ts:187-206 | The documented promise about changing lists holds exactly for totals of at most one hundred |
| SchedulePaging.ShiftMixes | SKM/web/src/api/schedules.ts:187-206 | For every larger total, a deletion and an addition between two pages go unnoticed and give a list that never existed |
| SchedulePaging.LengthChangeNoticed | SKM/web/src/api/schedules.ts:197 | A request answered with another total than the first one makes the read fail |
| RunDocuments.UuidExact | SKM/web/src/api/runResources.ts:112-113 | A document id is five groups of hexadecimal digits of either case with dashes between |
| RunDocuments.ChecksumExact | SKM/web/src/api/runResources.ts:122-124 | A checksum is the prefix and sixty-four lower-case hexadecimal digits |
| RunDocuments.LowerExact | SKM/web/src/api/runResources.ts:104 | Lower case moves the capital letters and nothing else |
| RunDocuments.DocumentExact | SKM/web/src/api/runResources.ts:111-119 | What a frozen document must be like, attribute by attribute |
| RunDocuments.SnapshotExact | SKM/web/src/api/runResources.ts:94-108 | As many documents as the mode allows, in strictly ascending order of their lower-case ids, and no path twice |
| RunDocuments.SlotExact | SKM/web/src/api/runResources.ts:69-80 | A slot of a declared source is empty with one of two statuses, or frozen over a source that reads documents |
| RunDocuments.IsRunDocumentSnapshots | SKM/web/src/api/runResources.ts:59-91 | The loop with its set and two maps accepts exactly distinct declared slots, each valid, whose documents agree across slots |
| RunDocuments.AddDocuments | SKM/web/src/api/runResources.ts:81-88 | The inner loop succeeds exactly when one id means one document and one path means one id |
| RunDocuments.PathExact | SKM/web/src/api/runResources.ts:116-118 | A path is accepted exactly when no piece that stands between slashes or ends is empty, leads upward or is reserved |
| RunDocuments.PathDetermines | SKM/web/src/api/runResources.ts:83 | A path determines folder and name |
| RunDocuments.OneDocumentPerIdentity | SKM/web/src/api/runResources.ts:59-119 | In an accepted run id, path, and folder with name each single out one document and all its metadata |
| RunDocuments.SlotUuidsAreIdentities | SKM/web/src/api/runResources.ts:104-108 | Within a slot a UUID occurs once, however it is written |
| RunDocuments.CaseDecides | SKM/web/src/api/runResources.ts:69-89 | Across slots a UUID is an identity exactly when every slot writes it the same way, a corollary of the agreement of equal ids that the loop enforces |
| RunDocuments.CaseSplitsIdentity | SKM/web/src/api/runResources.ts:69-89 | Two slots that write one UUID in different letter case pass as two documents |

## Left out

- Several tabs, and tampering with session storage: the slot is written by the panel alone.
- HTTP, JSON decoding, timers and the 401 path of the request hooks: they appear as answers or failures that may come at any time.
- React rendering beyond the delay between a state change and the render that event handlers see.
- Column shapes that stand alone (text lengths, single-column digests, positive sizes) in 0036, 0038, 0042, 0044, 0045 and 0047, the remaining unique keys and partial indexes of 0044, 0045 and 0047, and the columns only they read.
- The surrogate id of a project binding, which the pair of project and version determines.
- Locking, constraint names, and single DDL failures inside a migration: each runs in one transaction.
- Migrations whose guards do not read every dropped column or that refuse by design, and migrations that only create tables.
- The budget ledger, effect execution and schedule firing as running systems.
- The shapes of tasks, notes, interactions, source traces and identities in a preview: each is settled by one expression.
- Integer tokens written as minus zero, and lone surrogates in text, in `TaskContract`.
- Numbers that JSON text tells apart although their values and kinds agree, such as 1.0 and 1.00, in the contract signature.
- The field shapes and review counts of a measured candidate.
- Markdown parsing, the regular expression that turns a title into a base slug, and UTF-8 coding: tokens, bases and octets are given.
- Splitting a URL into scheme, host, path and fragment, and resolving relative paths: parameters of the link check.
- Schedule record shapes, trimming of the search text, and the bound on safe integers in paging.
- Unicode character classes in document paths: a parameter of the check.
- An array that holds a single selection mode, which the source would read as that mode.
