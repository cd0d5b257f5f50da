# REXLiTE integration: a Dafny model and its proofs

REXLiTE is a Home Assistant integration that turns a KNX ETS project into YAML, keeps a tunnel to a gateway, and
reconciles cameras, Frigate, Node-RED and a HACS bundle with what a platform wants. These files model the parts
that are algorithms or protocols and prove what they promise. `dafny verify dfyconfig.toml` checks everything.

How the model is built. Code that updates fields or variables step by step is a class or a method with loops, and its
contract ties it to a function of the old state; the theorems are about those functions. What the environment does is
a parameter: the KNX deployer and the HACS repair consume a list of happenings, one for each atomic operation, which
says whether the operation is done, raises, or is never reached because the process stopped; the tunnel is a state
machine whose events are the turns its tasks take between two suspensions, so a run is any interleaving.
Beside the invariants stand laws, most of them named `…Exactly`, that say of each operation what it does in every case,
in terms of its input and not of the functions that compute it.

| files | part of the program |
|---|---|
| `knx_transaction`, `knx_crash_safety`, `knx_outside_edits`, `knx_registry_effect`, `knx_deployer` | the journaled deployment: attempt, roll-back, recovery, edits from outside, what it does to the entity registry |
| `knx_identity`, `knx_identity_laws`, `decimal_text` | group addresses, their renderings, row identities |
| `knx_plan`, `knx_plan_steps`, `knx_manual_plan`, `knx_plan_theorems`, `knx_scene_choice`, `knx_plan_filter`, `knx_row_addresses` | the plan algebra |
| `knx_deployment_plan`, `knx_written_rows`, `knx_format_change` | the steps composed, which rows they write, and what a change of identity format does to approvals |
| `knx_planner_model`, `knx_planner_passes`, `knx_planner_soundness`, `knx_planner_runs`, `knx_type_lookups`, `knx_channel_split`, `knx_climate_units`, `knx_planned_rows`, `knx_planned_identities`, `knx_planner` | the ETS planner |
| `knx_evidence`, `knx_group_verdicts`, `knx_entity_laws`, `knx_channel_laws`, `knx_outcome_laws`, `knx_pass_laws` | what the planner makes of a project's addresses, told from what they are |
| `tunnel_session`, `tunnel_answers`, `tunnel_progress`, `http_framing`, `chunked_body` | the tunnel client, HTTP framing and bodies (sections 6.3 and 7.1 of RFC 9112) |
| `hacs_repair`, `plate_sync`, `frigate_add`, `node_red_flows`, `flow_rules` | reconciliation and compensation |
| `frame_scan`, `serial_codecs`, `modbus_tcp`, `rsa_input`, `project_upload`, `upload_course`, `traffic_sampler` | codecs and arithmetic (section 7.2.1 of RFC 8017, section 8.1.3 of X.690) |

## Findings

Where the code does less than its own documentation or a natural reading promises, the model follows the code, and
a theorem says exactly when the promise is kept.

- An approved manual plan is carried over as stored (`custom_components/rexlite/knx_project_deployment.py:1586-1592`),
  with identities in the format of the deployment that stored it. After an upgrade from legacy identities with two- or
  one-level addresses to canonical ones, the same rows have other identities, the look-up at line 553 finds no entity,
  and every deployment that plans anew (past the shortcut for an unchanged project at lines 1457-1478) fails, although `docs/KNX_AUTO_DEPLOYMENT.md:29-33` promises an upgrade without loss.
  `ApprovalsBlockFormatChangeExactly` gives the exact condition, `ApprovedSwitchBlocksUpgrade` a site.
- The role `scene` also fills `address`, so a function with a writable scene member and no scene kind becomes a switch
  on a 17.001 or 18.001 address (`SceneProjectPlansSwitch`, a whole project); the `address` has type 1.001 exactly when
  no member has that role (`AddressIsSwitchBitExactly`). Soundness is therefore stated against the role table.
- A camera job that fails does not always leave the installation as it was. A go2rtc stream whose PUT had effect but
  whose confirming GET failed is not removed (`custom_components/rexlite/frigate_bridge.py:358-369`), a configuration
  whose write was not answered is not taken out again, a camera that works but cannot be recorded stays, and a camera
  that Frigate does not show yet, since its restart was refused, stays configured although the clean-up succeeds
  (`custom_components/rexlite/frigate_bridge.py:1425-1443`). `UnconfirmedStreamStays`, `UnansweredWriteStays`,
  `UnrecordedCameraStays` and `UnseenCameraStays` are such jobs; `FailedAddRestoresExactly` says when the installation
  is restored.
- A deployment compares a file and then writes it in two steps
  (`custom_components/rexlite/knx_project_deployment.py:1671-1678`), so an edit in between is overwritten
  (`EditBetweenIsOverwritten`); `WriteLosesExactly` says that no other edit is.
- Plate lists: notes are cut to sixteen characters and read back stripped, so planning again on an equal list is
  empty exactly when no sent note has white space at its ends (`NothingToChangeExactly`, `SpacedNoteIsSentAgain`).
- A Modbus reply whose body is the single byte 0x03 makes the look at its length byte raise
  (`custom_components/rexlite/rs485_protocol.py:322`); on every stream a request ends so exactly when the first reply
  to it is that (`MalformedExactly`, `OneByteReplyFails`).
- The identity check of a Node-RED flow also lets a line feed after the sixteen digits pass
  (`custom_components/rexlite/node_red_bridge.py:167-243`); `IsHex16` keeps that (`LineFeedPasses`).

## Model

| member | source | states |
|---|---|---|
| `KnxCrashSafety.EveryRunIsSafe` | custom_components/rexlite/knx_project_deployment.py:1382-1774 | Play any sequence of deployments and recoveries, each failing or crashing before any atomic operation, recovery included, with no edits from outside: the disk is always the last committed site or a pending journal leads back to exactly that site, and one undisturbed recovery completes, clears the journal and restores every file, the registry and what `_read_previous` returns |
| `KnxCrashSafety.DeployRun` | custom_components/rexlite/knx_project_deployment.py:1382-1774 | One deployment, whatever fails inside it, ends committed (every journaled file at its after image, the manifest digest that of GENERATED) or with the settled site still reachable; undisturbed it commits |
| `KnxRegistryEffect.CommitChangesExactly` | custom_components/rexlite/knx_project_deployment.py:1114-1221 | What a deployment that commits has changed in the registry, whatever was pending before it, told by the settled site and the request: exactly the entries once retired, still disabled by this writer and wanted again are enabled, exactly those replaced, unwanted, enabled and not live are disabled, every other is as before; and the manifest lists as retired exactly the earlier ones still unwanted, then those, with no edits from outside meanwhile |
| `KnxRegistryEffect.RecordChangesExactly` | custom_components/rexlite/knx_project_deployment.py:1114-1153 | A record takes exactly when its entry is still the recorded one, in one of the two recorded states and, before a retirement, not live; then that entry's disabler changes and nothing else |
| `KnxRegistryEffect.PreviousIsReadExactly` | custom_components/rexlite/knx_project_deployment.py:1223-1238 | The active deployment is the manifest whose digest the generated file has; a file without one, or with another digest, is the respective error |
| `KnxRegistryEffect.WriteTakesEffectExactly` | custom_components/rexlite/knx_project_deployment.py:1671-1678 | A write that raises or is never reached changes nothing; one that is done changes its file alone |
| `KnxRegistryEffect.AttemptChangesExactly` | custom_components/rexlite/knx_project_deployment.py:1652-1749 | The same of one pass through the transaction that commits |
| `KnxCrashSafety.TransactionRun` | custom_components/rexlite/knx_project_deployment.py:1632-1762 | All or nothing for one pass through the transaction, in-process rollback and crash alike |
| `KnxCrashSafety.AttemptRun` | custom_components/rexlite/knx_project_deployment.py:1652-1749 | Before clearing the journal every intermediate state is recoverable; clearing it is the only commit point and there every file is at its after image |
| `KnxCrashSafety.RollbackRun` | custom_components/rexlite/knx_project_deployment.py:1353-1380 | A rollback interrupted anywhere leaves a state from which it can run again; when it completes, files, registry and manifest are those before the deployment |
| `KnxCrashSafety.RestoreRun` | custom_components/rexlite/knx_project_deployment.py:1354-1370 | The compare-and-swap restore of the journaled files moves each only between its two recorded images |
| `KnxCrashSafety.UnregisterRun` | custom_components/rexlite/knx_project_deployment.py:1114-1153 | Reversing registry records in memory never hurts what the durable journal, which may still lack the retirements, describes |
| `KnxCrashSafety.RetirementsFaithful` | custom_components/rexlite/knx_project_deployment.py:1166-1221 | Retirements computed after the restorations still record the values of the site before the deployment |
| `KnxCrashSafety.SafeWithoutJournal` | custom_components/rexlite/knx_project_deployment.py:1223-1238 | With no journal pending the disk is the settled site and its active deployment reads back |
| `KnxOutsideEdits.RollbackSparesForeign` | custom_components/rexlite/knx_project_deployment.py:1353-1380 | With edits from outside, of that very file included: while a journaled file holds neither recorded image it is never written, the rollback does not complete and the journal stays |
| `KnxOutsideEdits.ForeignContentBlocks` | custom_components/rexlite/knx_project_deployment.py:1353-1380 | Over any later sequence of deployments and recoveries, with any further edits of that file that write no recorded image, the file is never written and the journal never forgotten |
| `KnxOutsideEdits.WritesSpareEdits` | custom_components/rexlite/knx_project_deployment.py:1671-1678 | A deployment does not write a file that no longer holds the content the journal recorded, however it is edited meanwhile short of that content |
| `KnxOutsideEdits.WriteLosesExactly` | custom_components/rexlite/knx_project_deployment.py:1671-1678 | A completed write replaces something else than the recorded content exactly when the file is edited between the comparison and the write, and not back (see Findings) |
| `KnxOutsideEdits.RestoreLosesExactly` | custom_components/rexlite/knx_project_deployment.py:1354-1366 | The same of a file that a rollback puts back |
| `KnxOutsideEdits.EditBetweenIsOverwritten` | custom_components/rexlite/knx_project_deployment.py:1671-1678 | An edit between the comparison and the write that is overwritten |
| `KnxOutsideEdits.RollbackSparesUserChoice` | custom_components/rexlite/knx_project_deployment.py:1114-1153 | A rollback leaves a registry entry alone whose `disabled_by` is outside the recorded pair, though it is changed again meanwhile to other such values |
| `KnxDeployer.ProjectDeployer.ChangeEntry` | custom_components/rexlite/knx_project_deployment.py:1114-1153 | The registry compare-and-swap on the deployer's fields is the specified step, whose effect over a whole deployment `CommitChangesExactly` tells: it reports whether it took and changes nothing else |
| `KnxOutsideEdits.VerifiedBeforePublishing` | custom_components/rexlite/knx_project_deployment.py:1654-1749 | Nothing is registered and no manifest is written unless the new configuration was reloaded and verified |
| `KnxDeployer.ProjectDeployer.RestoreFiles` | custom_components/rexlite/knx_project_deployment.py:1354-1370 | The restore loop, comparison and write two steps, computes the specified run on disk and environment |
| `KnxDeployer.ProjectDeployer.Rollback` | custom_components/rexlite/knx_project_deployment.py:1353-1380 | The imperative rollback is the function the crash theorems are about |
| `KnxDeployer.ProjectDeployer.Recover` | custom_components/rexlite/knx_project_deployment.py:1330-1334 | Recovery at start-up does nothing without a journal and otherwise is the rollback |
| `KnxDeployer.ProjectDeployer.WriteFiles` | custom_components/rexlite/knx_project_deployment.py:1671-1678 | The write loop, each write a step after its comparison, is the specified run |
| `KnxDeployer.ProjectDeployer.Attempt` | custom_components/rexlite/knx_project_deployment.py:1652-1749 | The transaction body on the deployer's fields is the specified run and returns the in-memory journal a rollback uses |
| `KnxDeployer.ProjectDeployer.Deploy` | custom_components/rexlite/knx_project_deployment.py:1382-1774 | The whole deployment, with recovery first and rollback on failure, is the function the crash theorems are about |
| `KnxIdentity.RenderingReadsBack` | custom_components/rexlite/knx_project_mapper.py:319-329 | Every LONG, SHORT and FREE rendering of an address parses back to that address |
| `KnxIdentity.AddressInverts` | custom_components/rexlite/knx_project_mapper.py:319-329 | `_address` is idempotent and takes every rendering to the long form |
| `KnxIdentity.RenderingInjective` | custom_components/rexlite/knx_project_deployment.py:293-310 | Two addresses are never rendered alike |
| `KnxIdentity.FormatOfRender` | custom_components/rexlite/knx_project_deployment.py:293-310 | Rendering a stored long identity equals building it from its parts in the format |
| `KnxIdentity.IdentityCommutesWithFormat` | custom_components/rexlite/knx_project_deployment.py:320-371 | For every platform and row without `unique_id`: the identity in a format is the stored long identity rendered in it |
| `KnxIdentity.AgreeExactlyWhenPartsAgree` | custom_components/rexlite/knx_project_deployment.py:320-371 | Two rows of a platform have one identity exactly when they have the same addresses and numbers in it: the rendering is injective per platform |
| `KnxIdentity.FormatsDistinguishTheSameRows` | custom_components/rexlite/knx_project_deployment.py:293-371 | Two rows agree in identity in every format or in none |
| `KnxIdentityLaws.AddressesExactly` | custom_components/rexlite/knx_project_mapper.py:319-329 | A text is an address exactly when it is one, two or three decimal numbers within the limits of their level, and which address that is |
| `KnxIdentityLaws.FormatsWrite` | custom_components/rexlite/knx_project_deployment.py:293-310 | LONG writes three levels, SHORT two and FREE one, and their numbers |
| `KnxIdentityLaws.IdentitiesExactly` | custom_components/rexlite/knx_project_deployment.py:320-404 | Which identity a row has, platform by platform, told from the addresses and numbers in its fields: a given name, or the first address of the platform's fields, the pieces joined, None where one is missing; no other row has one |
| `KnxIdentity.NumbersAreWritten` | custom_components/rexlite/knx_project_deployment.py:320-371 | A number is written in decimals, with a minus sign exactly below zero, a flag as a word |
| `KnxIdentity.GivenExactly` | custom_components/rexlite/knx_project_deployment.py:327-328 | Not given are exactly an empty text, list or mapping, zero and false |
| `KnxRowAddresses.RowAddressesExactly` | custom_components/rexlite/knx_project_deployment.py:256-271 | A row mentions exactly the addresses that some field of it, or of a mapping at any depth of its lists and mappings, gives under `address` or a key ending in `_address`: as its value or as any element of its list |
| `KnxPlan.IndexRowsExactly` | custom_components/rexlite/knx_project_deployment.py:410-423 | Indexing any rows fails exactly when one identity occurs twice; rows without one are skipped |
| `KnxPlan.IndexBlocksExactly` | custom_components/rexlite/knx_project_deployment.py:410-423 | A configuration is refused exactly when two rows of one platform have one identity |
| `KnxPlan.CorrespondingRowsIndexed` | custom_components/rexlite/knx_project_deployment.py:410-423 | When rows and entities correspond, indexing succeeds and finds the row of every entity |
| `KnxPlan.IndexRowsOf` | custom_components/rexlite/knx_project_deployment.py:410-423 | The loop computes the specified index or error |
| `KnxPlanSteps.AdaptPlanIdentity` | custom_components/rexlite/knx_project_deployment.py:426-448 | The loop over platforms and rows, rewriting entities through the position table, is the specified adaptation |
| `KnxPlanTheorems.AdaptSucceedsExactly` | custom_components/rexlite/knx_project_deployment.py:426-448 | Adapting fails exactly for a row without a native identity or two rows with one; else the rows are those planned without their names |
| `KnxPlanTheorems.AdaptKeepsCorrespondence` | custom_components/rexlite/knx_project_deployment.py:313-317 | Adapting keeps the bijection of rows and entities and `manifest_identity` of each adapted entity is its `uniqueId` |
| `KnxPlanTheorems.AdaptIgnoresFormat` | custom_components/rexlite/knx_project_deployment.py:426-448 | Whether a plan can be adapted does not depend on the address format |
| `KnxPlanTheorems.AdaptedEntityHasRow` | custom_components/rexlite/knx_project_deployment.py:426-448 | Each adapted entity is the planned one under the identity of its own row |
| `KnxPlanSteps.SelectScenes` | custom_components/rexlite/knx_project_deployment.py:463-507 | The loop over scene rows is the specified selection |
| `KnxSceneChoice.SelectSucceedsExactly` | custom_components/rexlite/knx_project_deployment.py:455-507 | Selecting fails exactly for a scene row without a valid address and number |
| `KnxSceneChoice.SelectSpec` | custom_components/rexlite/knx_project_deployment.py:463-507 | Only the rows and entities of excluded scenes go; every other platform is untouched |
| `KnxSceneChoice.SelectKeepsCorrespondence` | custom_components/rexlite/knx_project_deployment.py:463-507 | The bijection of rows and entities survives |
| `KnxSceneChoice.SelectReportsExcluded` | custom_components/rexlite/knx_project_deployment.py:500-504 | Exactly the excluded scenes' addresses are added to the skipped list |
| `KnxManualPlan.AppendManualPlan` | custom_components/rexlite/knx_project_deployment.py:688-707 | The loops compute the specified append, with the first of the two conflict errors |
| `KnxManualPlan.NoAppendProblem` | custom_components/rexlite/knx_project_deployment.py:688-707 | Appending fails exactly when an identity repeats or a non-scene entity shares an address |
| `KnxManualPlan.PreserveManualPlan` | custom_components/rexlite/knx_project_deployment.py:710-775 | The nested loops over automatic and approved entities are the specified merge |
| `KnxManualPlan.PreserveKeepsManual` | custom_components/rexlite/knx_project_deployment.py:710-775 | On plans whose rows and entities correspond merging never fails, keeps every approved entity and row unchanged, and keeps the bijection |
| `KnxManualPlan.RetainedClashFree` | custom_components/rexlite/knx_project_deployment.py:717-742 | Exactly the automatic entities that clash with an approved one are rejected |
| `KnxManualPlan.SharedAddressesAreDifferentScenes` | custom_components/rexlite/knx_project_deployment.py:726-739 | A kept automatic and an approved entity that share an address are two scenes whose rows have different numbers |
| `KnxManualPlan.DifferentScenesExactly` | custom_components/rexlite/knx_project_deployment.py:726-739 | Two rows are different scenes exactly when both have numbers from 1 to 64 and these differ |
| `KnxManualPlan.PreserveLosesNoAddress` | custom_components/rexlite/knx_project_deployment.py:753-775 | Mapped plus skipped addresses afterwards are exactly those of both plans before, and the two are disjoint |
| `KnxPlanSteps.FilterExisting` | custom_components/rexlite/knx_project_deployment.py:510-570 | The loops compute the specified emission and combined configuration; the skipped list grows by exactly the reported addresses |
| `KnxPlanFilter.FilterEmitsFreeRows` | custom_components/rexlite/knx_project_deployment.py:510-570 | Filtering fails exactly when the site's configuration repeats an identity; it emits, in order, exactly the rows that mention no manual address |
| `KnxPlanFilter.FilterKeepsCorrespondence` | custom_components/rexlite/knx_project_deployment.py:510-570 | The bijection of rows and entities survives |
| `KnxPlanFilter.ManualStaysAuthoritative` | custom_components/rexlite/knx_project_deployment.py:519-537 | No emitted row shares a canonical address with an unowned row or a UI entity; which addresses a row has is `RowAddressesExactly` |
| `KnxPlanFilter.EmittedOrReported` | custom_components/rexlite/knx_project_deployment.py:539-554 | Every planned row is emitted, or not emitted with every address it shares, as `RowAddressesExactly` reads them, reported |
| `KnxPlanFilter.CombinedIsManualThenEmitted` | custom_components/rexlite/knx_project_deployment.py:556-570 | Each platform written is the unowned rows, unchanged and in order, then the emitted rows |
| `KnxPlanFilter.NextDeploymentSeesSameManualRows` | custom_components/rexlite/knx_project_deployment.py:510-570 | The next deployment takes exactly the same rows for somebody else's |
| `KnxDeploymentPlan.PrepareDeployment` | custom_components/rexlite/knx_project_deployment.py:1479-1596 | The steps in the order the deployment takes them are the specified pipeline |
| `KnxDeploymentPlan.PreparedIsStored` | custom_components/rexlite/knx_project_deployment.py:1479-1592 | In every identity mode the adapted, selected and merged plan corresponds and each entity is found under its own identity; merging approvals is never what fails |
| `KnxDeploymentPlan.DeploymentPlanIsSound` | custom_components/rexlite/knx_project_deployment.py:1479-1596 | For every plan: the pipeline fails exactly where adapting, scene numbers or the site's repeated identities do; otherwise the bijection, manual authority, the order of rows and the next deployment's ownership all hold of what is written |
| `KnxDeploymentPlan.EveryProjectDeploysSoundly` | custom_components/rexlite/knx_project_deployment.py:1479-1596 | The same from every ETS project the planner accepts; and in every mode such a project is deployed exactly when the site's configuration repeats no identity |
| `KnxWrittenRows.WrittenRowsExactly` | custom_components/rexlite/knx_project_deployment.py:1479-1596 | Which rows are written for a platform, from beginning to end: of the planned rows, named as the mode does, exactly those that are no scene left out, whose entity no approved one supersedes, and that share no address with the site's own rows and interface entities; then of the approved rows exactly those clear of them; unchanged and in order |
| `KnxWrittenRows.WrittenEntitiesAreTheirs` | custom_components/rexlite/knx_project_deployment.py:426-570 | Every entity written is an approved one or the planned one under the identity of the mode |
| `KnxWrittenRows.ClearIs` | custom_components/rexlite/knx_project_deployment.py:519-537 | An address counts as the site's own exactly when a row has it that stands for no entity of the previous deployment, or an interface entity |
| `KnxWrittenRows.IdentityFollowsFormat` | custom_components/rexlite/knx_project_deployment.py:313-317 | A stored entity has in every format the identity its row has in it |
| `KnxFormatChange.FormatsNeverMeet` | custom_components/rexlite/knx_project_deployment.py:293-371 | No row's identity in one format is any row's identity in another |
| `KnxFormatChange.SameIdentityShares` | custom_components/rexlite/knx_project_deployment.py:256-371 | Two rows of one identity mention a common address |
| `KnxFormatChange.EmitBlocksExactly` | custom_components/rexlite/knx_project_deployment.py:538-554 | Emission succeeds exactly when each row collides with a manual address or has its entity in the plan |
| `KnxFormatChange.MergeAcrossExactly` | custom_components/rexlite/knx_project_deployment.py:710-775 | After a change of identity format merging the approved plan fails exactly when the first approved entity that a planned scene shares an address with is a scene |
| `KnxFormatChange.ApprovalsBlockFormatChangeExactly` | custom_components/rexlite/knx_project_deployment.py:1586-1596 | After that change merging and filtering together succeed exactly when no planned scene meets an approved scene first, the site's configuration repeats no identity, and every approved row shares an address with the site's own configuration (see Findings) |
| `KnxFormatChange.ApprovedSwitchBlocksUpgrade` | custom_components/rexlite/knx_project_deployment.py:1586-1596 | An approved switch, still the generated configuration of the legacy deployment before, with which no plan whatever can be deployed after the upgrade |
| `KnxPlannerRuns.PlannedEntitiesAreSound` | custom_components/rexlite/knx_project_mapper.py:1292-1379 | For every project: each planned entity touches no blocked address, its fields hold addresses whose exact types the role tables admit, a climate has both required temperatures, fan and colour modes agree with command and state, and no two entities claim one address; which entity each group becomes is `GroupBecomesExactly` and its companions |
| `KnxGroupVerdicts.GroupBecomesExactly` | custom_components/rexlite/knx_project_mapper.py:936-1137 | What a function's or a name's addresses become, told from kind, members and project: when all are known, unblocked, of an admitted type, writable where they command, and agree, a climate, cover, scene, fan, light or switch of exactly those fields and settings is planned, or the whole group is refused for what is wrong, or left alone, each exactly when its condition holds; otherwise all are blocked for what is wrong with the first that is not |
| `KnxGroupVerdicts.OneThingHappens` | custom_components/rexlite/knx_project_mapper.py:936-1137 | Of these exactly one applies to good members, whatever the kind and the fields |
| `KnxGroupVerdicts.NamedOnce` | custom_components/rexlite/knx_project_mapper.py:936-1137 | The fields of such an entity, under the platform's names for them, are determined |
| `KnxGroupVerdicts.CollectExactly` | custom_components/rexlite/knx_project_mapper.py:944-976 | Fields are collected exactly when all members are good, and hold exactly their addresses; otherwise the first bad one and its reason decide |
| `KnxEntityLaws.ImpulseGroupBecomesExactly` | custom_components/rexlite/knx_project_mapper.py:1016-1068 | Members with a dry-contact impulse among them become one cover on both wall addresses, or three buttons, or are refused, each exactly when; what happens to the other addresses |
| `KnxEntityLaws.OutputBecomesExactly` | custom_components/rexlite/knx_project_mapper.py:644-682 | A proven command becomes a light or a switch of exactly the addresses that go together, or is left to later passes |
| `KnxEntityLaws.UnitBecomesExactly` | custom_components/rexlite/knx_project_mapper.py:803-831 | A proven command becomes a climate exactly with room temperature and target feedback, without a fan whose two types disagree |
| `KnxEntityLaws.AddressBecomesExactly` | custom_components/rexlite/knx_project_mapper.py:1237-1279 | A single address becomes a state, a switch, a value or nothing, each exactly when its type, its objects and its name say so |
| `KnxEntityLaws.RoleTableExactly` | custom_components/rexlite/knx_project_mapper.py:44-82 | A role fills a field exactly when the table by field, written independently, lists it |
| `KnxEntityLaws.RoleTypesExactly` | custom_components/rexlite/knx_project_mapper.py:44-82 | A role admits exactly the types of the table by role |
| `KnxChannelLaws.OneCommandGoes` | custom_components/rexlite/knx_project_mapper.py:684-744 | The only command under a name, free, a switch bit and on one channel, is finished with exactly the addresses that alone have their tag, are on its channel and suit; otherwise nothing happens; and what is recorded of every other address |
| `KnxChannelLaws.ManyCommandsGo` | custom_components/rexlite/knx_project_mapper.py:573-642 | Several commands under a name: those on one channel are blocked as ambiguous, every other is finished with exactly the addresses it wins; and what is recorded of every other address |
| `KnxChannelLaws.BindExactly` | custom_components/rexlite/knx_project_mapper.py:542-571 | An address is bound for a tag exactly when its one channel is the command's and its type suits, a mixed feedback bit being reconciled; what is recorded otherwise |
| `KnxChannelLaws.ListedExactly` | custom_components/rexlite/knx_project_mapper.py:684-801 | A pass gathers under each tag of its dialect exactly the addresses whose name has it |
| `KnxOutcomeLaws.TaggedExactly` | custom_components/rexlite/knx_project_mapper.py:684-720 | Those are the free addresses whose name has the prefix and the tag |
| `KnxOutcomeLaws.NamedExactly` | custom_components/rexlite/knx_project_mapper.py:1216-1235 | A name gathers exactly the free addresses with its prefix, each under the role its name says |
| `KnxChannelLaws.TagTableExactly` | custom_components/rexlite/knx_project_mapper.py:275-303 | A tag fills a field of a dialect exactly when the table by field lists it |
| `KnxEvidence.ResolvesExactly` | custom_components/rexlite/knx_project_mapper.py:429-483 | An address has a type exactly when nothing about it is unreadable and either it declares the type and every object takes it, or all declarations agree; otherwise which reason it gets |
| `KnxChannelLaws.NoCommandNothing` | custom_components/rexlite/knx_project_mapper.py:700-712 | Without a command nothing happens under a name |
| `KnxEvidence.FeedbackTags` | custom_components/rexlite/knx_project_mapper.py:542-571 | Commands are five tags, all others name a feedback |
| `KnxEvidence.ReasonsAre` | custom_components/rexlite/knx_project_mapper.py:542-642 | A reason given first stays; a conflict overrides it |
| `KnxEvidence.KeysAreProven` | custom_components/rexlite/knx_project_mapper.py:497-527 | A channel is proven exactly by an object on it that receives the command or produces the feedback |
| `KnxPassLaws.LoadReadsExactly` | custom_components/rexlite/knx_project_mapper.py:384-483 | What a loaded project holds of every address: the first record's metadata, its type, whether it is blocked and why |
| `KnxPassLaws.PassesInOrder` | custom_components/rexlite/knx_project_mapper.py:1367-1379 | Each pass begins where the one before it ended, and from where the channel and name passes gather |
| `KnxPassLaws.EachFunctionJoins` | custom_components/rexlite/knx_project_mapper.py:1169-1214 | Every function is joined in turn, from all its members |
| `KnxPassLaws.EachMemberGoes` | custom_components/rexlite/knx_project_mapper.py:1169-1214 | Every member of a function is taken in turn |
| `KnxPassLaws.EachChannelGoes` | custom_components/rexlite/knx_project_mapper.py:684-801 | Every prefix is taken in turn, with the addresses gathered when the pass began |
| `KnxPassLaws.EachSceneGoes` | custom_components/rexlite/knx_project_mapper.py:833-891 | Every address is looked at for scenes in turn |
| `KnxPassLaws.EachNameJoins` | custom_components/rexlite/knx_project_mapper.py:1216-1235 | Every name is joined in turn, a light when it says so |
| `KnxPassLaws.EachAddressFallsBack` | custom_components/rexlite/knx_project_mapper.py:1237-1279 | Every address is looked at on its own in turn |
| `KnxPassLaws.AnnotatesExactly` | custom_components/rexlite/knx_project_mapper.py:1281-1290 | Exactly the unused addresses of which no more is known than that the metadata do not suffice are told to be not exposed or, else, of an unknown role |
| `KnxPassLaws.ClaimsExactly` | custom_components/rexlite/knx_project_mapper.py:894-905 | An entity claims the first address it has of seven fields, and a scene its number too |
| `KnxOutcomeLaws.MemberGoesExactly` | custom_components/rexlite/knx_project_mapper.py:1142-1214 | What one member of a function contributes: its role, the role its name says, or nothing, and what is recorded then |
| `KnxOutcomeLaws.ScenesBecomeExactly` | custom_components/rexlite/knx_project_mapper.py:833-891 | An address becomes one scene for each number its senders name, exactly when it is free and they prove it |
| `KnxOutcomeLaws.AcceptedExactly` | custom_components/rexlite/knx_project_mapper.py:1292-1317 | Accepted are exactly the candidates that touch nothing blocked, agree with every other of their claim, and come first in it |
| `KnxOutcomeLaws.ReportsExactly` | custom_components/rexlite/knx_project_mapper.py:1292-1364 | Reported are exactly the addresses known or with a reason that no accepted entity uses: as a contested claim, else for the reason recorded, else as insufficient |
| `KnxPlannerRuns.RunKeepsInvariant` | custom_components/rexlite/knx_project_mapper.py:1367-1379 | The invariant over `dpts`, `blocked`, `used`, `reserved`, `issues` and `candidates` survives all seven passes, the two places that lift a block included |
| `KnxTypeLookups.EveryLookupSucceeds` | custom_components/rexlite/knx_project_mapper.py:644-1279 | In every run on every project no look-up of a type, for a group's roles, its colour and fan addresses, a command's bound fields or a fallback, meets an address without one |
| `KnxPlannerRuns.PassesStartTyped` | custom_components/rexlite/knx_project_mapper.py:1367-1379 | Before every pass the invariant holds and each address neither blocked nor used has a type |
| `KnxPlannerRuns.LoadEstablishes` | custom_components/rexlite/knx_project_mapper.py:410-483 | A loaded project is typed or blocked everywhere, and only untyped addresses are in conflict |
| `KnxPlannerRuns.NoAddressIsLost` | custom_components/rexlite/knx_project_mapper.py:1292-1379 | For every record of every project: its address is used by an accepted entity or reported, never both; whatever is blocked at the end of the run is never used and reported for the reason recorded with the block, and an address of a contested claim is reported as that unless another entity uses it |
| `KnxPlannerRuns.UncontestedAccepted` | custom_components/rexlite/knx_project_mapper.py:1295-1315 | A claim on which all candidates agree is planned |
| `KnxPlannerRuns.AddressIsSwitchBitExactly` | custom_components/rexlite/knx_project_mapper.py:944-971 | The joined `address` has type 1.1 exactly when no member has the scene role; with one it is a scene address, whatever platform results (see Findings) |
| `KnxPlannerRuns.SceneMemberMakesSwitch` | custom_components/rexlite/knx_project_mapper.py:936-1137 | A group for which a switch is planned on a scene address |
| `KnxPlannerRuns.SceneProjectPlansSwitch` | custom_components/rexlite/knx_project_mapper.py:936-1137 | A whole project, one record and one function, from which the planner makes that switch |
| `KnxPlannerRuns.BindKeeps` | custom_components/rexlite/knx_project_mapper.py:542-571 | Binding an optional role keeps the invariant though it may retype and un-block, and binds only an unblocked address of an admitted type |
| `KnxPlannerRuns.SceneStepKeeps` | custom_components/rexlite/knx_project_mapper.py:868-891 | Reading a scene from metadata keeps the invariant though it may retype and un-block |
| `KnxPlannerSoundness.CollectFills` | custom_components/rexlite/knx_project_mapper.py:944-976 | What a group collects fills its fields with unblocked addresses of admitted types |
| `KnxPlannedRows.PlannedRowsCorrespond` | custom_components/rexlite/knx_project_mapper.py:1318-1364 | The plan made from accepted candidates has rows and entities in bijection, every row named |
| `KnxPlannedRows.EveryPlanCorresponds` | custom_components/rexlite/knx_project_mapper.py:1367-1379 | That holds for every project, whatever the passes did |
| `KnxChannelSplit.SplitExactly` | custom_components/rexlite/knx_project_mapper.py:573-642 | A command's field holds an address exactly when that address alone among its tag's is on the command's single actuator channel and its type fits |
| `KnxChannelSplit.SplitIsInjective` | custom_components/rexlite/knx_project_mapper.py:573-642 | An address is bound to one field of one command at most, and both have the same single actuator key |
| `KnxChannelSplit.SplitIgnoresOrder` | custom_components/rexlite/knx_project_mapper.py:573-642 | The bindings do not depend on the order of commands or of the addresses under a tag |
| `KnxChannelSplit.ApartExactly` | custom_components/rexlite/knx_project_mapper.py:587-604 | The commands split are those whose one channel no other command has |
| `KnxChannelSplit.GatheredListsAreSeparate` | custom_components/rexlite/knx_project_mapper.py:684-720 | The lists a pass gathers under one name never share an address, so the split applies to them |
| `KnxPlanner.Planner.constructor` | custom_components/rexlite/knx_project_mapper.py:384-408 | Reading a project establishes the specified loaded state |
| `KnxPlanner.Planner.FindTypes` | custom_components/rexlite/knx_project_mapper.py:429-483 | Type resolution in any order gives the specified types, blocks and issues |
| `KnxPlanner.Planner.CollectFields` | custom_components/rexlite/knx_project_mapper.py:944-976 | The collecting loop is the specified one and stops at the first address that does not fit |
| `KnxPlanner.Planner.Join` | custom_components/rexlite/knx_project_mapper.py:936-1137 | One group's branches leave the planner in the specified state, the one `GroupBecomesExactly` tells |
| `KnxPlanner.Planner.JoinFunctions` | custom_components/rexlite/knx_project_mapper.py:1169-1214 | The pass over ETS functions is the specified one |
| `KnxPlanner.Planner.BindOptional` | custom_components/rexlite/knx_project_mapper.py:542-571 | Binding one optional role is the specified step |
| `KnxPlanner.Planner.BindOneCommand` | custom_components/rexlite/knx_project_mapper.py:684-744 | A single command with its optional roles gets the specified fields |
| `KnxPlanner.Planner.BindCommands` | custom_components/rexlite/knx_project_mapper.py:573-642 | Several commands under one name get the specified bindings |
| `KnxPlanner.Planner.JoinChannels` | custom_components/rexlite/knx_project_mapper.py:684-801 | The abbreviated and the climate pass are the specified ones |
| `KnxPlanner.Planner.FinishOutput` | custom_components/rexlite/knx_project_mapper.py:644-682 | Finishing a light or switch is the specified step |
| `KnxPlanner.Planner.FinishUnit` | custom_components/rexlite/knx_project_mapper.py:803-831 | Finishing a climate entity is the specified step |
| `KnxPlanner.Planner.ReadScenes` | custom_components/rexlite/knx_project_mapper.py:833-891 | The scene metadata pass is the specified one |
| `KnxPlanner.Planner.JoinNames` | custom_components/rexlite/knx_project_mapper.py:1216-1235 | The pass over whole names is the specified one |
| `KnxPlanner.Planner.FallBack` | custom_components/rexlite/knx_project_mapper.py:1237-1279 | The fallback pass is the specified one |
| `KnxPlanner.Planner.Run` | custom_components/rexlite/knx_project_mapper.py:1367-1379 | All passes in order leave the planner in the state the theorems are about |
| `KnxPlanner.Planner.Accept` | custom_components/rexlite/knx_project_mapper.py:1292-1317 | Accepted are exactly the uncontested claims' first candidates |
| `KnxClimateUnits.UnitsAreApart` | custom_components/rexlite/knx_project_mapper.py:746-831 | After every run no two climate units read the same room temperature unless they have one on/off address |
| `KnxPlannedIdentities.EveryPlanAdapts` | custom_components/rexlite/knx_project_deployment.py:426-507 | Every project the planner accepts can be adapted in every identity mode and format, and none of its scenes lacks a valid number: planned rows have native identities and no two of them one |
| `TunnelSession.AnsweredOnceOnItsSession` | custom_components/rexlite/runtime.py:597-639 | In every run of connects, disconnects, requests, access changes, cancellations and unloads a request is answered at most once and only on the session that delivered it; with what is told by `AnswersTellTheTruth` and `RequestIsAnswered` |
| `TunnelAnswers.AccessDecides` | custom_components/rexlite/runtime.py:470-522 | A request that arrives while remote access is off, or that would reload the tunnel itself, reaches no handler and no exchange in any continuation, and is answered with the refusal or the acknowledgement alone; every other one reaches a handler |
| `TunnelAnswers.AnswersTellTheTruth` | custom_components/rexlite/runtime.py:470-639 | In every run an answer says Home Assistant's result only of a request that was read well and whose exchange then went well, and an error only of one that could not be read, whose exchange failed, or whose reply did not get through |
| `TunnelAnswers.DeliveryWaits` | custom_components/rexlite/runtime.py:470-522 | While the receiver answers a request itself the next one waits |
| `TunnelAnswers.RequestIsAnswered` | custom_components/rexlite/runtime.py:597-639 | With access on, a request whose session and socket last is answered, whatever else happens meanwhile: with the result exactly when it could be read and its exchange went well |
| `TunnelAnswers.InlineIsAnswered` | custom_components/rexlite/runtime.py:485-522 | Without access it is refused, and a reload of the tunnel acknowledged, on the same terms |
| `TunnelAnswers.FailedSendIsTold` | custom_components/rexlite/runtime.py:619-639 | A reply whose send raises is followed by an error |
| `TunnelProgress.SessionIsReplaced` | custom_components/rexlite/runtime.py:265-361 | A lost session is followed by a fresh one once its tasks have ended, in whatever order they do |
| `TunnelProgress.AccessChangeRestarts` | custom_components/rexlite/runtime.py:238-263 | A change of access ends in a fresh session under the new access, without a task of the old one |
| `TunnelProgress.UnloadEnds` | custom_components/rexlite/runtime.py:195-236 | An unload ends, with nothing left running |
| `TunnelProgress.ClosingWaits` | custom_components/rexlite/runtime.py:340-361 | Until all tasks of a session have ended there is no new one |
| `TunnelProgress.AttemptIsRepeated` | custom_components/rexlite/runtime.py:265-291 | An attempt that fails is made again, unless it failed for good |
| `TunnelProgress.AccessChangesOnce` | custom_components/rexlite/runtime.py:238-263 | The same access again, or a change while one is applied, does nothing |
| `TunnelProgress.CancelledEnds` | custom_components/rexlite/runtime.py:265-291 | A cancelled supervisor ends at its next turn, wherever it waits |
| `TunnelProgress.SupervisorGoesOn` | custom_components/rexlite/runtime.py:265-361 | One that was not cancelled connects to a fresh session, sleeps after a failure or a closed session, connects again after sleeping, and ends exactly when it is to stop or failed for good |
| `TunnelProgress.SocketClosesAlone` | custom_components/rexlite/runtime.py:302-321 | A socket that closes is closed, and only it |
| `TunnelProgress.StopCancelsExactly` | custom_components/rexlite/runtime.py:206-236 | Stopping cancels exactly the handlers and the supervisor, and waits for exactly them |
| `TunnelSession.HandlersEndBeforeTheNextSession` | custom_components/rexlite/runtime.py:293-361 | When a session opens no handler of an earlier one is alive and no socket is set |
| `TunnelSession.StepKeeps` | custom_components/rexlite/runtime.py:206-361 | Every step of the supervisor, the handlers, an access change and an unload keeps the invariant |
| `TunnelSession.NoLateAnswer` | custom_components/rexlite/runtime.py:983-995 | What was answered stays answered and nothing answers it again in any continuation |
| `TunnelSession.UnloadIsFinal` | custom_components/rexlite/runtime.py:206-236 | After an unload no session opens and nothing answers a new request, whatever else happens |
| `TunnelSession.TunnelClient.OpenSession` | custom_components/rexlite/runtime.py:302-321 | Opening on the client's fields is the connect step |
| `TunnelSession.TunnelClient.CloseSession` | custom_components/rexlite/runtime.py:340-361 | The socket is cleared and all handlers cancelled before they are awaited: the specified step |
| `TunnelSession.TunnelClient.Supervise` | custom_components/rexlite/runtime.py:265-291 | The supervisor waits for the tasks it cancelled before it reconnects or ends: the specified step |
| `TunnelSession.TunnelClient.Receive` | custom_components/rexlite/runtime.py:470-522 | A request is answered inline or handed to a handler as specified, which `AccessDecides` tells over whole runs |
| `TunnelSession.TunnelClient.Reply` | custom_components/rexlite/runtime.py:597-639 | A task captures the current socket, or ends when it was cancelled |
| `TunnelSession.TunnelClient.Sent` | custom_components/rexlite/runtime.py:983-995 | The outcome of a send is recorded as specified |
| `TunnelSession.TunnelClient.SetRemoteAdmin` | custom_components/rexlite/runtime.py:238-263 | An access change stops the session as specified |
| `TunnelSession.TunnelClient.FinishApply` | custom_components/rexlite/runtime.py:250-263 | The restart waits for everything it cancelled |
| `TunnelSession.TunnelClient.Stop` | custom_components/rexlite/runtime.py:206-236 | An unload closes the client as specified |
| `ChunkedBody.ChunkedBodyArrives` | custom_components/rexlite/runtime.py:815-843 | For every body, split, extension, size spelling and trailers: the payloads concatenate to the body, each has 1 to 32768 bytes, and the reader stops right after the final CRLF |
| `DecimalText.StripExactly` | custom_components/rexlite/protocol.py:55-95 | Stripping takes white space off both ends, and all of it |
| `DecimalText.SpacesAre` | custom_components/rexlite/protocol.py:55-95 | White space are exactly these 29 characters |
| `ChunkedBody.HeaderDeclaresLength` | custom_components/rexlite/runtime.py:821-829 | Any spelling of a chunk size, with padding and extension, is read as the length of its data |
| `ChunkedBody.LineEndsExactly` | custom_components/rexlite/runtime.py:815-829 | A line ends at the first CR LF, within 65536 bytes; a longer one is too large, and without one the stream is too large or cut off, each exactly then |
| `ChunkedBody.SizeIsReadExactly` | custom_components/rexlite/runtime.py:821-829 | A chunk size is, exactly, a hexadecimal number with a sign, a prefix, grouped digits and white space around it, perhaps an extension, and not negative; what it counts, and every other line is refused |
| `ChunkedBody.DigitsCount` | custom_components/rexlite/runtime.py:821-829 | Hexadecimal digits count the same in both cases |
| `ChunkedBody.PayloadsAlwaysSized` | custom_components/rexlite/runtime.py:815-847 | On any input, malformed too, every payload sent has 1 to 32768 bytes |
| `ChunkedBody.FixedCopiesExactly` | custom_components/rexlite/runtime.py:803-813 | A fixed-length copy delivers exactly that many bytes and leaves the rest unread |
| `HttpFraming.FramingFollowsPrecedence` | custom_components/rexlite/protocol.py:55-95 | From raw header lines in any order and case: the framing is that of section 6.3 of RFC 9112 for the items of all Transfer-Encoding and all Content-Length lines together |
| `HttpFraming.SpreadDoesNotMatter` | custom_components/rexlite/protocol.py:55-95 | Lines with the same items have the same framing, however the items are spread over them |
| `HttpFraming.OneLineOrTwo` | custom_components/rexlite/protocol.py:55-95 | A list on one line means the same as its parts on two, whatever the case of their names |
| `HttpFraming.ConflictExactly` | custom_components/rexlite/protocol.py:77-95 | Lengths are refused as conflicting exactly when two different items are declared and the length decides |
| `HttpFraming.DeclaredLength` | custom_components/rexlite/protocol.py:77-95 | A number declared on any number of lines, in lists or not, is the length of the body |
| `HttpFraming.LengthIsReadExactly` | custom_components/rexlite/protocol.py:77-95 | A declared length is, exactly, a decimal number with white space around it, a sign and grouped digits, and what it counts |
| `HttpFraming.LengthsDecideExactly` | custom_components/rexlite/protocol.py:77-95 | No length, one that is no number, two different ones and one good one: what each set of declared lengths comes to |
| `HttpFraming.LowersExactly` | custom_components/rexlite/protocol.py:55-95 | Exactly the capitals of Latin-1 are lowered, by 32 |
| `HttpFraming.GatheredItems` | custom_components/rexlite/runtime.py:901-923 | Gathering values by name loses no item and adds none |
| `HttpFraming.BodyPlan` | custom_components/rexlite/protocol.py:55-95 | The merging loop and the checks after it compute the specified framing |
| `ChunkedBody.StreamCopy.CopyFixedBody` | custom_components/rexlite/runtime.py:803-813 | The loop over `remaining` is the specified copy, failure included |
| `ChunkedBody.StreamCopy.CopyChunkedBody` | custom_components/rexlite/runtime.py:815-843 | The nested loops are the specified decoder, failure included |
| `HacsRepair.OriginalsAreAlwaysKept` | scripts/repair_hacs_rexlite_icon.py:59-166 | After any runs in any mode, each stopped at any write: every file is original or repaired, and if any is repaired every backup exists and holds the original bytes |
| `HacsRepair.RunsTakeEach` | scripts/repair_hacs_rexlite_icon.py:59-166 | Every run begins where the one before it ended |
| `HacsRepair.RepairKeepsSafe` | scripts/repair_hacs_rexlite_icon.py:59-166 | One run keeps that, wherever it stops or fails |
| `HacsRepair.RepairCompletes` | scripts/repair_hacs_rexlite_icon.py:73-166 | From every reachable state an undisturbed apply or restore brings every file to its goal |
| `HacsRepair.RepairIsIdempotent` | scripts/repair_hacs_rexlite_icon.py:59-166 | Where every file is at its goal a further run, wherever it stops, changes no file and no kept original; once every original is kept it changes nothing at all |
| `HacsRepair.FailedWriteRollsBack` | scripts/repair_hacs_rexlite_icon.py:151-160 | A failed write loop restores the state before it once the compensating writes succeed |
| `HacsRepair.RefusalChangesNothing` | scripts/repair_hacs_rexlite_icon.py:59-130 | While a bundle is not recognized no sequence of runs in any mode changes any file |
| `HacsRepair.ForeignScriptIsNeverTouched` | scripts/repair_hacs_rexlite_icon.py:59-166 | A script that something else rewrote, after any runs, is never touched by any later run |
| `HacsRepair.BundleIsRecognizedExactly` | scripts/repair_hacs_rexlite_icon.py:73-130 | A bundle is recognized exactly when its kept original has the released digest and can be edited, its compressed copy unpacks to it, and what is there is the original or the edited script, compressed or not; what it should become, and why it is refused otherwise |
| `HacsRepair.EndIsTold` | scripts/repair_hacs_rexlite_icon.py:134-166 | A run dies exactly when the process does at one of its writes, raises exactly when one failed and it did not, and finishes otherwise, with the writes that put files back counted in |
| `HacsRepair.CheckPassesExactly` | scripts/repair_hacs_rexlite_icon.py:73-130 | The check passes exactly when every bundle is recognized, in either mode |
| `HacsRepair.CheckPasses` | scripts/repair_hacs_rexlite_icon.py:73-130 | Every state runs can lead to is recognized by the check |
| `HacsRepair.Repairer.WritePending` | scripts/repair_hacs_rexlite_icon.py:151-160 | The write loop with its reversed roll-back is the specified run |
| `HacsRepair.Repairer.Run` | scripts/repair_hacs_rexlite_icon.py:59-166 | The command on the installation's files is the specified run |
| `PlateSync.SyncYieldsWanted` | custom_components/rexlite/vigi_web.py:166-190 | Removals, then renames and updates, then adds: never a collision, and exactly the wanted rows remain, for distinct platform plates and distinct raw camera plates |
| `PlateSync.NothingToAddOrRemove` | custom_components/rexlite/vigi_web.py:166-190 | Planning again on the wanted list, in any order, adds and removes nothing |
| `PlateSync.NothingToChangeExactly` | custom_components/rexlite/vigi_web.py:153-190 | Planning again changes nothing exactly when reading back leaves every 16-character note as sent (see Findings) |
| `PlateSync.SpacedNoteIsSentAgain` | custom_components/rexlite/vigi_web.py:153-190 | A note, cut to sixteen characters that end in a space, that is sent again at every synchronization |
| `PlateSync.MergedPlanRemovesOnlyDuplicates` | custom_components/rexlite/vigi_web.py:193-215 | After merging, only duplicates and plates shorter than two characters are removed |
| `PlateSync.MergeKeepsDistinct` | custom_components/rexlite/vigi_web.py:193-215 | Merging adds no plate twice |
| `PlateSync.RemovedForReason` | custom_components/rexlite/vigi_web.py:166-190 | A row is removed only as a second row of a wanted plate or as a row of no wanted plate |
| `PlateSync.PlanKeepsFirst` | custom_components/rexlite/vigi_web.py:166-190 | The first row of each wanted plate is kept and updated, every other row removed |
| `PlateSync.ValidityReadsBack` | custom_components/rexlite/vigi_web.py:111-129 | Validity days survive the camera's clock, the page's own limits reading back as none |
| `PlateSync.NormalizeIsIdempotent` | custom_components/rexlite/lpr_gate.py:40-43 | A normalized plate is its own normal form |
| `PlateSync.NormalizeKeepsExactly` | custom_components/rexlite/lpr_gate.py:40-43 | A plate is the upper-cased text's digits and letters from A to Z, in order, at most twelve of them |
| `PlateSync.EntryReadsBack` | custom_components/rexlite/vigi_web.py:153-215 | A wanted row that is merged back is the entry it came from, but for the page's own limits, the cut and stripped name and an end before its start |
| `PlateSync.BoundsAreSent` | custom_components/rexlite/vigi_web.py:111-118 | A validity bound is sent as its day, moved to the page's limit when it lies beyond, and as the limit when there is none |
| `PlateSync.ModifiesExactly` | custom_components/rexlite/vigi_web.py:655-685 | A row is renamed or changed exactly when it is listed and its new plate is not another row's; nothing else changes |
| `PlateSync.InsertsExactly` | custom_components/rexlite/vigi_web.py:655-685 | A row is added exactly when its plate is not listed; nothing else changes |
| `PlateSync.LeftExactly` | custom_components/rexlite/vigi_web.py:655-685 | A refused exchange leaves every step before the first refused one and no other |
| `PlateSync.PlanChanges` | custom_components/rexlite/vigi_web.py:166-190 | The loops over rows and entries compute the specified plan |
| `PlateSync.MergeRows` | custom_components/rexlite/vigi_web.py:193-215 | The loop computes the specified merged list |
| `PlateSync.CameraSession.DeleteAll` | custom_components/rexlite/vigi_web.py:661-671 | Batched deletion removes exactly the listed plates, each in one batch |
| `PlateSync.CameraSession.ApplyPlates` | custom_components/rexlite/vigi_web.py:655-685 | The exchange stops at the first refusal, and leaves on the camera every step before it |
| `FrigateAdd.CameraKey` | custom_components/rexlite/frigate_bridge.py:459-469 | Ends for every finite set of taken names, with the first name free together with its sub-stream's |
| `FrigateAdd.CandidatesDiffer` | custom_components/rexlite/frigate_bridge.py:459-469 | Different attempts never propose a name in common |
| `FrigateAdd.FailedAddRestoresExactly` | custom_components/rexlite/frigate_bridge.py:1248-1448 | For every sequence of answers of the other services, each call with or without its effect, saving and remembering included: the site is as before the job, the sample camera aside, exactly when a stream cannot be looked at, or no stream the job put stays and the configuration is not written, or is written and then, after a failed verification, shown, shown again and written out (see Findings) |
| `FrigateAdd.FailedAddRestores` | custom_components/rexlite/frigate_bridge.py:1248-1448 | Then, under a name that nothing running has either, the same streams run as before |
| `FrigateAdd.OthersKeepRunning` | custom_components/rexlite/frigate_bridge.py:1248-1388 | No job, failed or not, changes a running stream under another name than its two |
| `FrigateAdd.UnconfirmedStreamStays` | custom_components/rexlite/frigate_bridge.py:358-369 | A stream whose writing had effect but could not be confirmed stays |
| `FrigateAdd.UnansweredWriteStays` | custom_components/rexlite/frigate_bridge.py:1292-1367 | A configuration written without an answer stays |
| `FrigateAdd.UnrecordedCameraStays` | custom_components/rexlite/frigate_bridge.py:1248-1388 | A camera that could not be recorded stays, configured |
| `FrigateAdd.UnseenCameraStays` | custom_components/rexlite/frigate_bridge.py:1417-1448 | A camera stays configured whose restart was refused and which the cached reply therefore does not show, though every call of the clean-up succeeds |
| `FrigateAdd.AddedCameraIsAll` | custom_components/rexlite/frigate_bridge.py:1292-1367 | A successful job adds exactly its camera, restreamed or direct, in place of the sample camera, saves exactly its restreams, each of which runs, and starts nothing else |
| `FrigateAdd.CompletesExactly` | custom_components/rexlite/frigate_bridge.py:1248-1388 | A job completes exactly when no call fails but those it can do without: go2rtc, dropping the sample camera, the picture kept |
| `FrigateAdd.StoppedAsTold` | custom_components/rexlite/frigate_bridge.py:1417-1448 | Before a camera is taken out recording and then the camera are stopped, each exactly when its write works |
| `FrigateAdd.ConfiguredTakenOut` | custom_components/rexlite/frigate_bridge.py:1417-1448 | Taking out what was configured under fresh names undoes the configuration |
| `FrigateAdd.Bridge.AddCamera` | custom_components/rexlite/frigate_bridge.py:1248-1388 | The job on the bridge's state is the specified run |
| `FrigateAdd.Bridge.TakeOutCamera` | custom_components/rexlite/frigate_bridge.py:1417-1448 | The clean-up is the specified one: only a camera that is shown is stopped and read again |
| `NodeRedFlows.MergeKeepsOthers` | custom_components/rexlite/node_red_bridge.py:246-257 | For any flows: the merge is, unchanged and in order, exactly what is no junk, whose id is neither incoming, stale nor the tab's and whose `z` is not the tab, and then the incoming nodes |
| `NodeRedFlows.RemoveKeepsOthers` | custom_components/rexlite/node_red_bridge.py:841-856 | Removal keeps exactly what is no junk and whose id and `z` are none of the bridge's, unchanged and in order |
| `NodeRedFlows.MergeIsIdempotent` | custom_components/rexlite/node_red_bridge.py:246-257 | Deploying the same bridge again changes nothing |
| `NodeRedFlows.MergeKeepsIdsUnique` | custom_components/rexlite/node_red_bridge.py:246-257 | Identities stay unique |
| `NodeRedFlows.DeployThenRemove` | custom_components/rexlite/node_red_bridge.py:841-856 | Deploying a validated flow and removing it leaves exactly what was neither of the bridge nor replaced by it, unchanged and in order, and then the broker node |
| `NodeRedFlows.ValidateFlow` | custom_components/rexlite/node_red_bridge.py:167-243 | The loop over growing sets accepts exactly what the validity predicate, the settings of each node kind included, describes |
| `NodeRedFlows.LineFeedPasses` | custom_components/rexlite/node_red_bridge.py:167-243 | A flow whose tab's identity ends in a line feed that is accepted (see Findings) |
| `NodeRedFlows.NodeRed.Deploy` | custom_components/rexlite/node_red_bridge.py:777-788 | Under any saves of other editors an accepted write is the merge of exactly the flows it replaces; it succeeds exactly when one of its two writes is undisturbed |
| `NodeRedFlows.NodeRed.Remove` | custom_components/rexlite/node_red_bridge.py:837-856 | Removal likewise replaces exactly the flows it read, and succeeds on the same terms |
| `FlowRules.AcceptedExactly` | custom_components/rexlite/node_red_bridge.py:167-243 | A flow is accepted exactly when it is a bridge, told without the loop: one tab, distinct identities, every node of its kind's settings, on the tab or among the declared configuration nodes |
| `FrameScan.ScanFindsFrames` | custom_components/rexlite/rs485_protocol.py:147-172 | Scanning a stream of recognizable frames and silent noise finds exactly the frames, in place and in order |
| `FrameScan.SlicesAreFrames` | custom_components/rexlite/rs485_protocol.py:424-448 | On any input every returned slice is a matching frame, and slices are in order and disjoint |
| `FrameScan.NoFrameBetween` | custom_components/rexlite/rs485_protocol.py:424-448 | No frame starts at a byte that no slice covers |
| `SerialCodecs.SomfyFrameSays` | custom_components/rexlite/rs485_protocol.py:97-108 | What every byte of a built frame says, read inverted, and that its last two are the 16-bit sum of those before |
| `SerialCodecs.SomfyMatchesExactly` | custom_components/rexlite/rs485_protocol.py:147-172 | A frame of a length begins exactly where the inverted length byte says so and the 16-bit sum is right |
| `SerialCodecs.YaleMatchesExactly` | custom_components/rexlite/rs485_protocol.py:424-448 | And of a Yale frame, where start, end, length nibble and checksum agree |
| `SerialCodecs.SomfyFrameRecognized` | custom_components/rexlite/rs485_protocol.py:97-108 | A built Somfy frame with up to 20 data bytes is recognized in front of anything |
| `SerialCodecs.SomfyReadsBack` | custom_components/rexlite/rs485_protocol.py:147-172 | And decodes to its message, sender and data |
| `SerialCodecs.SomfyStreamSplits` | custom_components/rexlite/rs485_protocol.py:147-172 | A concatenation of frames is split into exactly those frames |
| `SerialCodecs.SomfyStreamReadsBack` | custom_components/rexlite/rs485_protocol.py:147-172 | And each of them reads back as the order it was built from |
| `SerialCodecs.ParseSomfy` | custom_components/rexlite/rs485_protocol.py:147-172 | The index loop returns exactly the scanned slices, decoded |
| `SerialCodecs.YaleFrameRecognized` | custom_components/rexlite/rs485_protocol.py:404-408 | A built Yale frame is recognized in front of anything and decodes to its message |
| `SerialCodecs.YaleLineReadsBack` | custom_components/rexlite/rs485_protocol.py:424-448 | Frames with any 0x05-free noise between them read back as exactly the messages, in order |
| `SerialCodecs.ParseYale` | custom_components/rexlite/rs485_protocol.py:424-448 | The index loop returns exactly the scanned slices, decoded |
| `ModbusTcp.FragmentationDoesNotMatter` | custom_components/rexlite/rs485_protocol.py:344-355 | However a well-formed stream is cut into pieces, the same frames come out |
| `ModbusTcp.AnswerIsOwn` | custom_components/rexlite/rs485_protocol.py:298-342 | The answer is that of the first reply to this very request, whatever the fragmentation |
| `ModbusTcp.MalformedExactly` | custom_components/rexlite/rs485_protocol.py:298-355 | On every stream: the request ends with the index error exactly when the first reply to it has the single byte 0x03 for its body |
| `ModbusTcp.MalformedReplyExactly` | custom_components/rexlite/rs485_protocol.py:298-355 | On well-formed streams the same of the first reply sent for this request |
| `ModbusTcp.OneByteReplyFails` | custom_components/rexlite/rs485_protocol.py:322-322 | A reply in eight bytes on which the request ends so |
| `ModbusTcp.FrameIsTakenExactly` | custom_components/rexlite/rs485_protocol.py:344-355 | Which frame is taken off the buffer, told from its header and length alone, and when the buffer is dropped |
| `ModbusTcp.ReadingGivesTheValues` | custom_components/rexlite/rs485_protocol.py:298-342 | A body that carries registers reads back as exactly their values, in order, whatever follows them |
| `ModbusTcp.OtherBodiesGiveNone` | custom_components/rexlite/rs485_protocol.py:322-338 | Every other body gives none, unless it is the single byte above |
| `ModbusTcp.Master.TakeFrame` | custom_components/rexlite/rs485_protocol.py:344-355 | Taking a frame off the buffer is the specified step |
| `ModbusTcp.Master.ReadHolding` | custom_components/rexlite/rs485_protocol.py:298-342 | The request loop gives the specified answer and advances the transaction number |
| `RsaInput.BlockIsSound` | custom_components/rexlite/vigi_setup.py:54-69 | The padded block has the modulus length, at least eight non-zero padding bytes, a value below the modulus, and unpads to the message |
| `RsaInput.Padding` | custom_components/rexlite/vigi_setup.py:54-69 | Drawing random bytes until enough are non-zero gives exactly the first so many non-zero bytes drawn, or fails exactly when too few are drawn |
| `RsaInput.Pad` | custom_components/rexlite/vigi_setup.py:54-69 | Accepts exactly the messages that fit, and builds exactly the block with the bytes drawn; it fails otherwise for the one reason that holds |
| `RsaInput.ElementReadsBack` | custom_components/rexlite/vigi_setup.py:72-83 | A DER element with a short or long length is read back wherever it stands |
| `RsaInput.PublicKeyReadsBack` | custom_components/rexlite/vigi_setup.py:86-108 | The DER encoding of (n, e) reads back as (n, e) exactly when n has at least 1024 bits and e is at least 3 |
| `ProjectUpload.StagedIsPrefix` | custom_components/rexlite/knx_project_upload.py:39-140 | However chunks of one source are repeated, reordered or mixed with others, the staged file is the source's prefix of length `offset` |
| `ProjectUpload.SealedIsWhole` | custom_components/rexlite/knx_project_upload.py:39-140 | After any run a sealed upload has its declared size and fingerprint |
| `ProjectUpload.SealedIsFrozen` | custom_components/rexlite/knx_project_upload.py:39-168 | Over any run a sealed upload stays, sealed and byte for byte the same, until it is discarded, consumed or expired |
| `ProjectUpload.ConsumedIsHeld` | custom_components/rexlite/knx_project_upload.py:156-168 | While it is consumed nothing changes, expires or discards it |
| `ProjectUpload.OneConsumerAtATime` | custom_components/rexlite/knx_project_upload.py:156-168 | In every run a second consumer is refused until the first has ended |
| `ProjectUpload.ResendIsHarmless` | custom_components/rexlite/knx_project_upload.py:39-140 | Sending an accepted chunk again within the session's time is accepted and changes no byte |
| `UploadCourse.UploadCompletes` | custom_components/rexlite/knx_project_upload.py:39-168 | An archive sent from beginning to end, in whatever pieces and at whatever steady pace, is sealed with exactly its bytes |
| `UploadCourse.StartOpens` | custom_components/rexlite/knx_project_upload.py:39-86 | A well-described upload opens empty when fewer than two others live |
| `UploadCourse.StartIsRefusedExactly` | custom_components/rexlite/knx_project_upload.py:52-90 | When an opening is refused and why, and when it repeats one; nothing else changes then |
| `UploadCourse.ThirdIsTurnedAway` | custom_components/rexlite/knx_project_upload.py:78-86 | A third upload is turned away, and nothing else changes |
| `UploadCourse.DiscardRemoves` | custom_components/rexlite/knx_project_upload.py:39-140 | Its owner can discard an upload, and nothing else changes |
| `UploadCourse.ChunkAppends` | custom_components/rexlite/knx_project_upload.py:92-117 | The next chunk is appended, and nothing else changes |
| `UploadCourse.ChunkIsRefusedExactly` | custom_components/rexlite/knx_project_upload.py:92-117 | Any other chunk is refused for the first thing wrong with it, or repeats what is there, and changes no byte |
| `UploadCourse.SealSealsExactly` | custom_components/rexlite/knx_project_upload.py:118-136 | Exactly a complete archive with its fingerprint is sealed |
| `UploadCourse.SealIsRefusedExactly` | custom_components/rexlite/knx_project_upload.py:118-136 | Sealing is refused as incomplete, as no archive or for the fingerprint, each exactly when that is the first thing wrong |
| `UploadCourse.UnheardChangesNothing` | custom_components/rexlite/knx_project_upload.py:39-90 | A message refused for its identity, owner or upload changes nothing but that expired uploads go |
| `UploadCourse.OpensExactly` | custom_components/rexlite/knx_project_upload.py:142-154 | A sealed upload nobody consumes is opened by its fingerprint, and only so |
| `UploadCourse.ConsumesExactly` | custom_components/rexlite/knx_project_upload.py:156-168 | It is given to one consumer, whose end alone removes it |
| `ProjectUpload.StepKeeps` | custom_components/rexlite/knx_project_upload.py:39-168 | No message, valid or not, breaks the invariant |
| `ProjectUpload.ProjectUploads.Handle` | custom_components/rexlite/knx_project_upload.py:39-140 | The request handler on its session table and files is the specified step |
| `ProjectUpload.ProjectUploads.Open` | custom_components/rexlite/knx_project_upload.py:142-154 | Opening a sealed upload is the specified step |
| `TrafficSampler.TrafficIsConserved` | custom_components/rexlite/network_traffic.py:115-207 | Over any run of the sampler, with other channels, other modes and forgetting in between: if every sample of a counter after the first shows a rate, the rates times the elapsed times sum to eight times what the counter advanced |
| `TrafficSampler.RateExactlyWhenCountedOn` | custom_components/rexlite/network_traffic.py:150-207 | A counter sampled again, with anything happening to other channels in between, shows a rate exactly when both samples were complete and it counted on within the limit, or its report is the same and showed one; so never after a reset, a reboot, a clock set back or a gap |
| `TrafficSampler.RateShowsItsNumber` | custom_components/rexlite/network_traffic.py:115-207 | In rate mode exactly a fresh, known number in range and in the channel's unit is shown, times the unit's bits |
| `TrafficSampler.CounterEntersHistory` | custom_components/rexlite/network_traffic.py:115-207 | In counter mode exactly a complete sample enters the history, and what is shown is what was entered |
| `TrafficSampler.ContinuityIsRead` | custom_components/rexlite/network_traffic.py:120-135 | A counter takes for marker and uptime exactly the fresh numbers in range of their own entities, a rate none |
| `TrafficSampler.ChannelStatusExactly` | custom_components/rexlite/network_traffic.py:186-195 | A channel is available exactly when both directions are, warming up when one is, and stale when one is and neither warms up |
| `TrafficSampler.RunTakesEach` | custom_components/rexlite/network_traffic.py:115-207 | A run takes every event in turn |
| `TrafficSampler.RatesNeverNegative` | custom_components/rexlite/network_traffic.py:115-207 | After any run no rate shown is negative, and a rate means available |
| `TrafficSampler.RereadRepeats` | custom_components/rexlite/network_traffic.py:115-207 | Sampling the same report again, with anything happening to other channels in between, shows the same value and status |
| `TrafficSampler.ForgottenStartsAnew` | custom_components/rexlite/network_traffic.py:110-113 | After forgetting a channel its next sample shows no rate, whatever other channels do in between |
| `TrafficSampler.Sampler.SampleDirection` | custom_components/rexlite/network_traffic.py:115-207 | Sampling one direction updates its history as specified and touches no other |
| `TrafficSampler.Sampler.SampleChannel` | custom_components/rexlite/network_traffic.py:115-207 | Both directions of a channel, and the channel's status |
| `TrafficSampler.Sampler.ForgetChannel` | custom_components/rexlite/network_traffic.py:110-113 | Exactly the channel's histories are dropped |

Methods of classes and the loops are in the table where a theorem is about the function they compute.

## Left out

- JSON, YAML, base64 and gzip encoding, and hash functions: images and manifests are values, digests and compression are function parameters with no assumed properties beyond those stated in a contract.
- Durability order of directory entries: a crash is a stop between two atomic operations, and a change of the entity registry is taken as durable at once, although the program's host saves it a little later.
- KnxCrashSafety.EveryRunIsSafe: the last-attempt record and log or status text are not part of the disk, the unchanged-project shortcut (`custom_components/rexlite/knx_project_deployment.py:1457-1478`) writes none of it, and schema validation and reload are operations that succeed or fail.
- Old manifests without `managedDigest` are read as no deployment, as the code does, and are not restored.
- Manual YAML parsing and the preflight baseline: the parsed addition enters as a plan; the activation change of `configuration.yaml` enters as a before/after pair.
- KnxIdentity.IdentityCommutesWithFormat: a typed button's payload encoding is given, text payloads are plain digits, and the error for an unknown address format is left out.
- KnxSceneChoice.SelectSpec: the entity list is taken as given when two entities share one identity, which `wanted` would merge.
- KnxPlanSteps.FilterExisting: the order of the addresses reported for one row is open, and rows that are not dictionaries are not modelled.
- KnxPlannerRuns.PlannedEntitiesAreSound: names are given as parsed (prefix, role) tokens, aliases and links as resolved addresses; regular expressions, case folding, label truncation, display names and sorting orders (any order is covered) are not modelled.
- KnxDeploymentPlan.EveryProjectDeploysSoundly: names given to planned entities are assumed to differ where platform and claim differ, as hashed identities do; that only repeated identities stop a deployment is stated of records with canonical addresses, which reading a project makes them, and of a pass order without repetitions over prefixes that differ, which sorting and grouping give.
- TunnelSession.AnsweredOnceOnItsSession: heartbeats, hello, stream messages and the limit of eight handlers are not modelled; time is not; a send that raises after its bytes left counts as not sent; the status codes of the error answers are one `Failed`.
- HttpFraming.FramingFollowsPrecedence: letters and white space are those of Latin-1, in which headers arrive; reading the header block into lines is not modelled.
- ChunkedBody.ChunkedBodyArrives: the time-outs and the streams of upgraded connections are not modelled.
- HacsRepair.RepairCompletes: backup writes are taken as atomic, the release check and symbolic links are not modelled.
- PlateSync.SyncYieldsWanted: the camera's temporary list, whose rows `camera_plate` skips, is not modelled: every plate the camera holds is taken to be listed; upper-casing outside ASCII and the camera's time zone are parameters; `ValidityReadsBack` assumes the day-start law of a zone without gaps at midnight.
- FrigateAdd.FailedAddRestoresExactly: cancelling a job at one of the calls whose failure it ignores, what restarting Frigate does to streams that run without configuration, the record of the job's progress, probing and discovery are not modelled; waiting for Frigate and for frames are calls that succeed or fail.
- NodeRedFlows.DeployThenRemove: the size limit of a flow in bytes, heartbeats and broker credentials are not modelled.
- RsaInput.BlockIsSound: exponentiation and base64 after the padding are not modelled.
- ProjectUpload.StagedIsPrefix: partly written chunks and shutting the store down are not modelled.
- TrafficSampler.TrafficIsConserved: values are exact rationals, so rounding to floats is not modelled; the sample time that is shown beside the rates is left out.
- Sockets, ONVIF, RTSP, MQTT, discovery, config flow, entities, diagnostics, plate gate decisions: abstract or absent; they would add only easy members.
