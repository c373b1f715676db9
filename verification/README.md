# Vesta: a verified model of its core

Vesta is a platform on Kubernetes: an API edits custom resources, an operator turns them into
workloads, and a database holds users and their second factors. This project models the parts of
it whose correctness spans several functions or several concurrent callers, and proves what they
keep. `dafny verify dfyconfig.toml` checks everything.

The cluster is a finite map from (kind, namespace, name) to object. A run of the API and the
operator on one app is a state machine over reads and writes under optimistic concurrency. The
database is a set of tables whose single statements are atomic steps. Code that works by changing
things step by step is written as methods and classes, proved against functions; the properties
are proved of those functions.

| file | models |
|---|---|
| Text, Json | strings, sorting, decimal printing, decoded documents |
| Cluster, Export, Import, ImportRun, RoundTrip | project transfer: collecting a project, writing it into another cluster, and collecting it again |
| ExportContents, ImportContents | what a bundle holds and what an import leaves, object by object, without naming how they are computed |
| AppSpec, History, Deploy, Lifecycle | deploys, rollbacks and the deployment history, as handlers and in every interleaving |
| ConfigUpdate | the merge of a configuration update, its retry, and the certificate an environment gets |
| Factors, FactorRows, SecondFactor, Overlap | second factors: calls served one at a time and what each leaves in every table, the handlers statement by statement, and every overlap of their statements |
| Lockout, Authenticator | the failure window, and single use of authenticator codes |
| Ports, Shell, Rollout | the operator's port names, command splitting and rollout triggers |
| CrdMerge, Identity, Quantity | the schema merge script, the agreement on the instance key, printed amounts |

## Where the code falls short of what it says

- A configuration update that is retried after a conflict reuses the patch its first attempt
  edited, and so sends the images of the first copy it read: a deploy in between is undone
  (api/internal/handlers/apps.go:331-401). `ConfigUpdate.RetrySendsTheFirstImage` says exactly
  when the deploy survives.
- The comment on the counter of an authenticator says a replayed code is refused when two requests
  interleave (api/internal/db/mfa.go:115-117). The update is guarded, but nobody looks at whether
  it changed a row, so both requests pass: `Authenticator.OverlapAcceptsAStepTwice`.
- The sessions table takes only the purposes register and authenticate
  (api/internal/db/db.go:301), so a re-authentication by passkey, which asks for reauth, can never
  begin, and no grant is ever earned that way: `Factors.NoPasskeyReauthentication` for calls one at
  a time, `Overlap.PasskeysEarnNoGrant` for every overlap.
- The longer lock for ten failures (api/internal/mfa/lockout.go:17-20) is unreachable when attempts
  do not overlap: `Lockout.CountStaysAtMostSix`.
- A changed secret or config map wakes its app only when the environment's name holds no '-'
  (operator/controllers/vestaapp_controller.go:2299-2303): `Rollout.SourceWakesItsApp`.
- The guard against removing the last factor is a read before a write: two overlapping removals
  pass it (api/internal/handlers/mfa.go:336-343), and leave a factor only if there is a third:
  `Overlap.OverlappedBothRemove`. It holds whenever no two of the user's removals are between their
  first read and their deletion at once: `Overlap.RemovalsApartKeepAFactor`.
- Adding a property is called backward compatible (hack/merge-crd-properties.py:11-13). It is not
  for a node that already takes unknown fields: `CrdMerge.OpenGainCanReject`, with the exact
  condition in `CrdMerge.AcceptedExactly`.
- The merge copies properties only: what a generated node takes without a property is lost where
  the shipped node does not take it: `CrdMerge.OpennessIsNotMerged`, with the exact condition in
  `CrdMerge.KeptExactly`.
- A project whose shared secret is named like an app's own secrets, or whose data is empty, does
  not come back from a transfer as it was: `RoundTrip.RoundTrip` gives the exact condition.

## Model

| member | source | states |
|---|---|---|
| Json.StringMapUndoesAnyMap | api/internal/handlers/projecttransfer.go:547-563 | reading back the map an import writes gives the strings it was made from, and an empty one stays empty |
| Text.SortedKeys | api/internal/handlers/projecttransfer.go:582-589 | whatever order a map is visited in, the result is the one sorted list of its keys |
| Text.SortForgetsOrder | api/internal/handlers/projecttransfer.go:180-182 | sorting two lists gives the same list exactly when they hold the same items the same number of times |
| Cluster.ApiServer.Create | api/internal/k8s/client.go:119-122 | a create adds one object under a free key in an existing namespace, or changes nothing and says why |
| Cluster.ApiServer.List | api/internal/k8s/client.go:128-137 | a list returns the selected keys once each, in (namespace, name) order |
| Export.SpecEnvironmentNames | api/internal/handlers/projecttransfer.go:531-545 | the non-empty names of the mapping entries, in order |
| Export.ReferencedPullSecrets | api/internal/handlers/projecttransfer.go:501-527 | the names referenced by the project and by the image of each app, and no others |
| Export.CollectSharedSecrets | api/internal/handlers/projecttransfer.go:146-185 | one entry per name, sorted, with the sorted environments of all secrets of that name and the data of the first listed |
| Export.CollectRegistrySecrets | api/internal/handlers/projecttransfer.go:190-217 | exactly the registry credentials that are wanted, sorted by name |
| Export.CollectConfig | api/internal/handlers/projecttransfer.go:123-138 | the two configuration maps gain an entry for each environment whose object holds data |
| Export.CollectProject | api/internal/handlers/projecttransfer.go:87-144 | the loops over stores, apps and environments compute the specified payload, whose contents the rows of ExportContents say object by object |
| ExportContents.ProjectIsExported | api/internal/handlers/projecttransfer.go:87-97 | there is a bundle exactly when the project is stored, and it carries the stored spec |
| ExportContents.AppsAreExported | api/internal/handlers/projecttransfer.go:99-111 | the bundle holds exactly the stored apps labelled with the project, with their specs, once each, ordered by name |
| ExportContents.VariablesAreExported | api/internal/handlers/projecttransfer.go:113-129 | an app and environment have an entry exactly when the app is stored under the project, the environment is a non-empty name in its own list or, when that names none, in the project's, and the config map <app>-envvars in namespace <project>-<environment> holds data; the entry is the strings of that data |
| ExportContents.SecretsAreExported | api/internal/handlers/projecttransfer.go:113-138 | the same of the secret <app>-secrets and its data |
| ExportContents.CredentialsAreExported | api/internal/handlers/projecttransfer.go:190-217 | exactly the stored registry credentials that the project or an app of it names |
| ExportContents.SharedSecretsAreExported | api/internal/handlers/projecttransfer.go:146-185 | one entry per name of a stored shared secret of the project, with each environment once for every secret of the name that is for it, sorted, and the strings of the one in the first namespace |
| Import.ApplyApp | api/internal/handlers/projecttransfer.go:353-382 | one app: its object with spec.project renamed, then the namespaces of its own environments, up to the first failure |
| Import.ApplyPayload | api/internal/handlers/projecttransfer.go:295-472 | the import makes the scheduled writes in order, each exactly once, stops at the first that fails, and reports how many registry secrets, projects and apps it made |
| Import.ImportOnlyAdds | api/internal/handlers/projecttransfer.go:270-281 | at every return, failed or not, every earlier object is unchanged and the registrySecrets, projects and apps counts are the objects of that kind added |
| Import.RunCounts | api/internal/handlers/projecttransfer.go:297-373 | along any run of writes each counter equals the number of new objects of its kind |
| ImportContents.ProjectIsImported | api/internal/handlers/projecttransfer.go:329-373 | after an import that went through, the project and every app stand as bundled, under their labels, each app saying it belongs to the new name |
| ImportContents.VariablesAreImported | api/internal/handlers/projecttransfer.go:384-408 | and the variables of every app and environment, labelled with both |
| ImportContents.SecretsAreImported | api/internal/handlers/projecttransfer.go:410-438 | and their secrets, labelled with both and naming both in the body |
| ImportContents.SharedSecretsAreImported | api/internal/handlers/projecttransfer.go:440-469 | and each shared secret in each of its environments, whose namespace is there |
| ImportContents.CredentialsAreImported | api/internal/handlers/projecttransfer.go:299-326 | and each registry credential, one of that name already there being left as it was |
| ImportContents.NamespacesAreImported | api/internal/handlers/projecttransfer.go:340-382 | and the namespaces of the environments of the project and of each app |
| ImportContents.NothingElseIsImported | api/internal/handlers/projecttransfer.go:295-472 | every object an import added is one of these |
| ImportContents.ImportGoesInOrder | api/internal/handlers/projecttransfer.go:295-472 | credentials before the project, the project before its apps, then variables, secrets and shared secrets |
| ImportRun.RunSucceedsExactly | api/internal/handlers/projecttransfer.go:295-472 | a run of writes succeeds exactly when every write finds its namespace there and its key free (or may skip it); then the keys are the old ones and the written ones |
| ImportRun.ScheduleIs | api/internal/handlers/projecttransfer.go:295-472 | which writes an import makes, independently of the order its maps are visited in |
| RoundTrip.ExportsAreExported | api/internal/handlers/projecttransfer.go:87-217 | what every export of every cluster has in common: apps as listed, configuration only of its own apps and environments, sorted names and environments, only wanted credentials |
| RoundTrip.RoundTrip | api/internal/handlers/projecttransfer.go:87-217 | export, import into a target with none of the names, export again: the import succeeds and the payload comes back (renamed) if and only if no two secrets share a key, no data is empty, every shared secret is fanned out once per environment, and none shadows an app without secrets |
| RoundTrip.RenamingToItself | api/internal/handlers/projecttransfer.go:351-358 | under its own name the payload is unchanged exactly when every app already says it belongs to the project |
| RoundTrip.ImportThenExport | api/internal/handlers/projecttransfer.go:295-472 | the same statement for a run of the scheduled writes, for any visiting order of the maps |
| RoundTrip.SharedBack | api/internal/handlers/projecttransfer.go:440-469 | the shared secrets come back exactly when each names environments, none twice |
| RoundTrip.SecretsBack | api/internal/handlers/projecttransfer.go:410-438 | the secrets of the apps come back exactly when none is empty and no shared secret sits where an app without secrets would keep its own |
| RoundTrip.VarsBack | api/internal/handlers/projecttransfer.go:384-408 | the environment variables come back exactly when no map of them is empty |
| RoundTrip.RegistryBack | api/internal/handlers/projecttransfer.go:299-326 | the registry credentials always come back |
| RoundTrip.AppsBack | api/internal/handlers/projecttransfer.go:351-373 | the apps come back in the same order, each with only spec.project changed |
| RoundTrip.ScheduleGoesThrough | api/internal/handlers/projecttransfer.go:293-294 | an unambiguous project with its shared secrets fanned out is imported without a failure |
| RoundTrip.SuccessIsUnambiguous | api/internal/handlers/projecttransfer.go:410-469 | a successful import never wrote two secrets under one key |
| RoundTrip.ImportFailsOnlyOnATakenKey | api/internal/handlers/projecttransfer.go:343-382 | for exported payloads every write targets a namespace ensured before it, in any cluster that runs Vesta: the import fails only on a taken key |
| AppSpec.TagEnvironment | api/internal/handlers/deploy.go:94-112 | the loop sets the tag of the first mapping entry of the name and reports whether there was one; everything else is as it was |
| AppSpec.LastTagWins | api/internal/handlers/deploy.go:119-124 | edits applied in order leave each environment at its own last tag and nothing else in the spec changed |
| AppSpec.SetTagTouchesTheFirst | api/internal/handlers/deploy.go:94-112 | tagging changes at most one entry, the first mapping of the name |
| AppSpec.TaggedEntry | api/internal/handlers/deploy.go:100-108 | and in that entry only image.tag, an image that is no mapping making way for one |
| History.ImageIsRepositoryAndTag | operator/controllers/vestaapp_controller.go:587-608 | repository and tag are decided apart, the environment's own before the app's; an environment with its own repository neither inherits the app's tag nor needs an app image, without which any other runs a placeholder |
| History.IndexHistory | operator/controllers/vestaapp_controller.go:2158-2161 | the index gives, for every environment, the image of its last record |
| History.RecordDeployments | operator/controllers/vestaapp_controller.go:2157-2187 | the loop, with its index, its next version and the current image kept beside it, computes the specified history; the current image is that of the last record, unless nothing was recorded and there was one |
| History.PassAppends | operator/controllers/vestaapp_controller.go:2163-2181 | a pass only appends, and consecutive versions stay consecutive |
| History.PassRecords | operator/controllers/vestaapp_controller.go:2163-2183 | each record a pass appends has the next version, one for an empty history, the time of the pass, and a target whose image differs from the last record of its environment; no other target is recorded |
| History.TargetsAre | operator/controllers/vestaapp_controller.go:206-233 | the environments a pass looks at: those the app lists, with their own images, or the project's when it lists none |
| History.VersionsAreUnique | operator/controllers/vestaapp_controller.go:2163-2181 | with consecutive versions, a version is its record's position from the first: no two records share one |
| History.PassIsUpToDate | operator/controllers/vestaapp_controller.go:2153-2183 | after a pass the last record of every environment is the image it runs, if and only if targets of one name run one image |
| History.RepeatedPass | operator/controllers/vestaapp_controller.go:2168-2173 | a repeated pass records nothing, if and only if targets of one name run one image |
| History.FindRecord | api/internal/handlers/deploy.go:249-276 | the first record of the version decides: its image, or another environment it belongs to, or nothing |
| History.FindsTheRecord | api/internal/handlers/deploy.go:246-267 | with consecutive versions, asking for a record's version finds that record and no other |
| History.RecordedParts | api/internal/handlers/deploy.go:278-282 | an image made of a repository and a tag gives both back exactly when the tag holds no ':' |
| History.RollbackRestores | api/internal/handlers/deploy.go:278-297 | an environment that takes the tag of a recorded image runs that image, if and only if its repository is the recorded one |
| Deploy.AppServer.Update | api/internal/k8s/client.go:139-141 | an update goes through exactly when nobody changed the object since it was read; a conflict means somebody wrote |
| Deploy.DeployIsChecked | api/internal/handlers/deploy.go:63-118 | the answer to a deploy: an environment nobody listed, no tag, no image mapping, or accepted, in that order |
| Deploy.AppWideEdits | api/internal/handlers/deploy.go:113-124 | an environment without an entry of its own: a deploy makes the app image the repository first read and the tag, a rollback sets its tag |
| Deploy.EditIsStored | api/internal/handlers/deploy.go:119-144 | what a committed edit leaves: the edited spec, its target, the history untouched, and a new resource version exactly when something changed |
| Deploy.WritesAreSeen | api/internal/k8s/client.go:139-141 | whatever changes the object gives it a new resource version |
| Deploy.PassIsStored | operator/controllers/vestaapp_controller.go:2153-2187 | what a status pass leaves: the spec untouched, the time, and the recorded history, unless the app has no image |
| Deploy.DeployApp | api/internal/handlers/deploy.go:26-148 | the deploy adds exactly one edit to the log when it is accepted and none otherwise; what is stored is the work of the log; with the server up it fails only when others wrote around each of its five attempts |
| Deploy.RollbackApp | api/internal/handlers/deploy.go:226-329 | the rollback of a recorded version commits the edit of that record or nothing, in one attempt |
| Lifecycle.EveryRunIsSerial | api/internal/handlers/deploy.go:77-144 | serial equivalence: in every interleaving of deploys, rollbacks, status passes and other writes, the stored app is what the committed writes make one after another, in commit order |
| Lifecycle.AcceptedIsCommittedOnce | api/internal/handlers/deploy.go:145-168 | in every interleaving a deploy or rollback is accepted exactly when one edit of its was committed, never two, and every committed edit was asked for |
| Lifecycle.UndisturbedClientCommits | api/internal/handlers/deploy.go:77-144 | a client that reads and then writes with nobody in between is answered by what it read, and commits its edit exactly when accepted; a deploy that reads again after a conflict is not checked again and keeps the repository it saw first |
| Lifecycle.WritesAreNotLost | api/internal/handlers/deploy.go:128-144 | no write undoes another: a client whose copy was changed since, by anything, commits nothing |
| Lifecycle.ConflictsAreRetried | api/internal/handlers/deploy.go:77-144 | a write against a changed object commits nothing; a deploy reads again up to four times, keeping the image it read first, a rollback fails at once |
| Lifecycle.LastCommittedTagWins | api/internal/handlers/deploy.go:119-124 | in every interleaving, with distinctly named environment objects, each environment ends at its last committed tag and nothing else in the spec moves |
| Lifecycle.HistoryIsAppendOnly | operator/controllers/vestaapp_controller.go:2157-2187 | in every interleaving the history only grows and its versions stay consecutive |
| Lifecycle.PassSettles | operator/controllers/vestaapp_controller.go:2153-2183 | after a pass every environment's last record is the image it runs, and a second pass records nothing |
| Lifecycle.RollbackRuns | api/internal/handlers/deploy.go:284-312 | a committed rollback makes its environment run the recorded image, if and only if its repository is the recorded one, and changes what no other runs |
| Lifecycle.RollbackRestoresItsRecord | api/internal/handlers/deploy.go:243-312 | after any run without ':' in tags, rolling an environment back to any of its recorded versions finds that record and runs its image, if and only if the repository is still the recorded one; no other environment changes |
| ConfigUpdate.CollectEnvImages | api/internal/handlers/apps.go:612-624 | the index holds, per name, the image of the last entry that has one |
| ConfigUpdate.StoredImageIsTheLast | api/internal/handlers/apps.go:612-624 | the image recorded for a name is that of the last entry of the name with one, and there is none exactly when no entry has one |
| ConfigUpdate.RestoreEnvImages | api/internal/handlers/apps.go:629-646 | an entry that leaves the image out takes the recorded one, one that names it keeps its own, an explicit null clears it |
| ConfigUpdate.MergeCertFields | api/internal/handlers/apps.go:594-607 | of the three certificate fields, what the patch leaves out comes from what was stored and an explicit null clears; all other fields stay |
| ConfigUpdate.RestoreIngressCertFields | api/internal/handlers/apps.go:574-592 | the app-level block and every environment's block take over the selection stored under their name |
| ConfigUpdate.UpdateCall.Attempt | api/internal/handlers/apps.go:342-403 | the statements of one attempt compute the spec that is sent and the edited patch, whose every field the rows below say |
| ConfigUpdate.ImageMerges | api/internal/handlers/apps.go:395-401 | for every patch whose app image is a mapping and every field: what the patch gives is sent, a tag it leaves out is the stored one unless that is empty, and nothing else of the stored image |
| ConfigUpdate.IngressMerges | api/internal/handlers/apps.go:574-592 | every field of the app-level ingress block sent: the patch's, but a certificate field it leaves out is the stored one |
| ConfigUpdate.EntryMerges | api/internal/handlers/apps.go:629-646 | every field of every environment entry sent: the patch's, but an image it leaves out is the stored one |
| ConfigUpdate.EntryIngressMerges | api/internal/handlers/apps.go:574-592 | and every field of its ingress block |
| ConfigUpdate.OddEntriesStay | api/internal/handlers/apps.go:629-646 | no entry is added or dropped, and one that is no mapping is sent as it is |
| ConfigUpdate.UnlistedEntriesStay | api/internal/handlers/apps.go:365-372 | environments of a patch that lists none are sent as they are stored |
| ConfigUpdate.OddShapesReplace | api/internal/handlers/apps.go:365-401 | where patch or stored value has no mapping or list to merge, the field is replaced, removed by a null, or left |
| ConfigUpdate.EditedPatchHoldsWhatWasSent | api/internal/handlers/apps.go:342-403 | what an attempt leaves in the patch for the next: the environments, ingress and image it sent, everything else as it came |
| ConfigUpdate.AppTagKept | api/internal/handlers/apps.go:395-401 | a patch of the app image without a tag keeps the stored tag |
| ConfigUpdate.UpdateKeepsImages | api/internal/handlers/apps.go:386-390 | a first attempt that names no image leaves the image of every environment it lists as it was |
| ConfigUpdate.UpdateKeepsUnlistedImages | api/internal/handlers/apps.go:365-372 | and of every environment when it lists none |
| ConfigUpdate.RetrySendsTheFirstImage | api/internal/handlers/apps.go:331-401 | after conflicts the update sends the image of the first copy read that had one, so a deploy between the attempts survives if and only if that image is the stored one |
| ConfigUpdate.RetryUndoesADeploy | api/internal/handlers/apps.go:331-401 | a concrete deploy that a retried update undoes |
| ConfigUpdate.RuntimeMerges | api/internal/handlers/apps.go:346-384 | the runtime is merged field by field: the patch's fields win, the others stay |
| ConfigUpdate.OtherFieldsMerge | api/internal/handlers/apps.go:365-372 | any other field is replaced whole, removed by a null, or left |
| ConfigUpdate.CertFollowsPrecedence | operator/controllers/vestaapp_controller.go:1179-1194 | the documented precedence: the environment before the app, a secret before an issuer, fields before annotations, the instance default last |
| ConfigUpdate.SelectionDecides | operator/controllers/vestaapp_controller.go:1195-1250 | with the same selection fields, the certificate is the same exactly when a field decides it or the same legacy annotation is in force |
| ConfigUpdate.UpdateKeepsCertificates | api/internal/handlers/apps.go:533-607 | an update that names no certificate field and drops no ingress block keeps an environment's certificate, if and only if a field decides it or the same legacy annotation stays in force |
| ConfigUpdate.ValidateIngressCertAnnotations | api/internal/handlers/ingress_validation.go:25-81 | accepts exactly the patches whose issuer annotations, at app level and per environment, are absent or the stored ones |
| ConfigUpdate.AcceptsExactlyStoredAnnotations | api/internal/handlers/ingress_validation.go:25-81 | a patch passes exactly when no issuer annotation in it, at app level or in an environment, is other than the stored one |
| ConfigUpdate.ValidatedUpdateKeepsCertificates | api/internal/handlers/apps.go:342-403 | with no legacy annotation stored, a validated update that names no certificate field and drops no ingress block keeps the certificate of every environment it lists |
| ConfigUpdate.ValidatedUnlistedUpdateKeepsCertificates | api/internal/handlers/apps.go:342-403 | and of every environment when it lists none |
| Factors.ServeView | api/internal/handlers/mfa.go:273-526 | the whole effect of every call on the factors and codes of every user, its own and others |
| Factors.WhatACallKeeps | api/internal/handlers/mfa.go:480-485 | unused codes only beside a factor; a bound user never gives up the last; a passkey leaves unused codes alone; a confirmed authenticator brings new ones; a used code is gone |
| Factors.CodesNeedAFactorThroughout | api/internal/handlers/mfa.go:834-843 | in every run of calls that do not overlap, unused recovery codes exist only while their user holds a confirmed factor |
| Factors.NeverWithoutAFactor | api/internal/mfa/policy.go:17-34 | in every run of calls that do not overlap, under an unchanged mandatory policy, a user with a factor never reaches none by calls of their own |
| Factors.NoPasskeyReauthentication | api/internal/handlers/reauth.go:71-176 | after every run of calls that do not overlap, beginning or finishing a re-authentication by passkey is refused and changes nothing, and no grant there is was earned with one: the sessions table does not take its purpose |
| SecondFactor.Database.ListEnrollments | api/internal/db/mfa.go:330-359 | lists the confirmed authenticator and each passkey of the user, and nothing else |
| SecondFactor.GuardLastFactor | api/internal/handlers/mfa.go:814-832 | passes exactly when the policy does not bind the role or another factor would remain |
| SecondFactor.ReauthWithPassword | api/internal/handlers/reauth.go:28-64 | a right password earns a grant of five minutes, a wrong one nothing |
| SecondFactor.BeginReauthWebAuthn | api/internal/handlers/reauth.go:71-99 | refused without a passkey; otherwise it asks for a session of purpose reauth, and reports whether the table gave one |
| SecondFactor.FinishReauthWebAuthn | api/internal/handlers/reauth.go:102-162 | takes such a session once; only then, and with a valid assertion, a grant |
| SecondFactor.RequireReauthForNewFactor | api/internal/handlers/reauth.go:221-236 | lets a first factor through unproved, and any other only by spending the grant that came with the call |
| SecondFactor.DisableTOTP | api/internal/handlers/mfa.go:331-350 | guard, then grant, then removal, then the codes if no factor is left; a refusal at any step leaves every table as it was |
| SecondFactor.DeleteWebAuthnCredential | api/internal/handlers/mfa.go:508-526 | the same order for one passkey of the user; an unknown one costs the grant and removes nothing |
| SecondFactor.RegenerateBackupCodes | api/internal/handlers/mfa.go:725-759 | needs a factor and a grant; the whole set of codes makes way for ten new ones |
| SecondFactor.ResetUserMFA | api/internal/handlers/reauth.go:239-280 | the handler's steps (never the caller, never a user who is not there, under the caller's own grant) compute the served reset, whose rows FactorRows.ResetTakesEverything says |
| FactorRows.ResetTakesEverything | api/internal/db/mfa.go:394-423 | a reset that went through leaves the target no authenticator, lockout, passkey, code (used or not), session or grant; every row of anybody else is as it was, but for the grant that came with the call; no row appears |
| FactorRows.SucceedsExactly | api/internal/handlers/mfa.go:206-526 | for every call, exactly when it goes through, said of the rows it finds |
| FactorRows.RefusalRows | api/internal/handlers/reauth.go:178-236 | a refused call leaves every table as it was, but for a grant spent on a passkey that is not the caller's or an enrolment over a confirmed authenticator, and a session taken by a failed ceremony |
| FactorRows.DisableRows | api/internal/handlers/mfa.go:331-350 | disabling takes the authenticator's row and the grant, and all codes exactly when no passkey is left |
| FactorRows.RemoveRows | api/internal/handlers/mfa.go:508-526 | removing takes the passkey's row and the grant, and all codes exactly when no factor is left |
| FactorRows.RegenerateRows | api/internal/handlers/mfa.go:725-759 | every code of the user, used or not, makes way for ten unused ones |
| FactorRows.EnrollRows | api/internal/handlers/mfa.go:206-247 | an enrolment is a pending row for a quarter of an hour |
| FactorRows.ConfirmRows | api/internal/handlers/mfa.go:273-328 | a confirmation keeps the step of the code that was shown, and renews the codes |
| FactorRows.BeginRows | api/internal/handlers/mfa.go:354-406 | a ceremony has five minutes and is for registering |
| FactorRows.FinishRows | api/internal/handlers/mfa.go:408-489 | a registration takes its session and stores one passkey; codes are renewed exactly when none are unused |
| FactorRows.ReauthRows | api/internal/handlers/reauth.go:28-162 | a grant is the caller's, says how it was earned, and lasts five minutes |
| FactorRows.UseCodeRows | api/internal/db/mfa.go:276-289 | a code is accepted exactly when it is an unused one of the user, and is used from then on |
| SecondFactor.EnrollTOTP | api/internal/handlers/mfa.go:206-247 | a first factor starts unproved, another only under a grant; a confirmed authenticator is never overwritten |
| SecondFactor.BeginWebAuthnRegistration | api/internal/handlers/mfa.go:354-406 | a ceremony session is created only past the same gate, and carries what was shown there |
| SecondFactor.FinishWebAuthnRegistration | api/internal/handlers/mfa.go:408-489 | takes the caller's own unexpired session once, stores the passkey, and issues codes only when none are unused |
| SecondFactor.ConfirmTOTP | api/internal/handlers/mfa.go:273-328 | only a pending, unexpired enrolment with a valid code is confirmed, and always with new codes |
| Overlap.GrantsAreSpentOnce | api/internal/db/mfa.go:372-387 | in every interleaving each grant is spent at most once, by its owner, before it expires |
| Overlap.ChangesNeedGrants | api/internal/handlers/reauth.go:178-236 | in every interleaving the removals, regenerations, resets and additions of a factor that got past their gate or altered any table but the grants, except additions whose two reads in the run found no factor of their user, are no more than the grants spent |
| Overlap.SpendsNeedGrants | api/internal/db/mfa.go:372-387 | and the grants spent are no more than the grants issued |
| Overlap.CallsAreAccounted | api/internal/handlers/reauth.go:185-236 | in every interleaving each spend belongs to one call that named the grant; and every removal, regeneration, reset or addition past its gate, or that altered a table, has a spend of its own, or adds a factor and read, at one step of the run, no confirmed authenticator and at a later one no passkey of its user |
| Overlap.CodesAreAcceptedOnce | api/internal/db/mfa.go:276-289 | in every interleaving a recovery code is accepted at most once |
| Overlap.EveryPasskeyIsTraced | api/internal/handlers/reauth.go:211-236 | in every interleaving each passkey traces to a begin call of its own, by its owner, that spent a grant or whose two reads in the run found no factor of the owner |
| Overlap.EveryAuthenticatorIsTraced | api/internal/handlers/reauth.go:211-236 | in every interleaving each authenticator, pending or confirmed, was stored by an enrolment of its user that spent a grant or whose two reads in the run found no factor |
| Overlap.AloneIsServed | api/internal/handlers/mfa.go:331-350 | a call whose statements nothing interrupts does what it does when served alone: the interleaved and the sequential model agree |
| Overlap.PurgeTakesTheExpired | api/internal/db/mfa.go:389-392 | the purge takes exactly the expired grants and sessions, and nothing a call could still use |
| Overlap.RemovalsApartKeepAFactor | api/internal/mfa/policy.go:17-34 | in every interleaving in which no two of a bound user's own removals are between their first read and their deletion at once, a user who holds a factor keeps one, whatever else overlaps |
| Overlap.PastTheGuardBothRemove | api/internal/handlers/mfa.go:334-348 | from every state, two of a user's removals that are past their guards, each with a grant to spend, leave a factor if and only if the user holds one that neither removes |
| Overlap.OverlappedBothRemove | api/internal/handlers/mfa.go:334-348 | from every state, two such removals that have not begun and would each pass the guard can overlap so that the same holds: with no third factor the user ends with none |
| Overlap.OverlappingRemovalsLeaveNoFactor | api/internal/handlers/mfa.go:334-348 | a concrete admin under the policy whom two overlapping removals, each guarded, leave without a factor |
| Overlap.PasskeysEarnNoGrant | api/internal/handlers/reauth.go:71-176 | in every interleaving neither half of a re-authentication by passkey comes through, and no grant ever handed out was earned with one |
| Lockout.NineAtMost | api/internal/mfa/lockout.go:31-66 | in every run of attempts that do not overlap, no half-open quarter of an hour without a success or reset holds more than nine recorded failures |
| Lockout.FailuresAreBudgeted | api/internal/mfa/lockout.go:42-61 | from any state, the failures still to come in an interval fit the budget the state leaves |
| Lockout.NineCanHappen | api/internal/mfa/lockout.go:42-61 | the bound is reached |
| Lockout.CountStaysAtMostSix | api/internal/mfa/lockout.go:42-61 | in every run of attempts in order the stored count never passes six, so the extended lock is never reached |
| Lockout.LockLasts | api/internal/mfa/lockout.go:42-61 | after a failure, attempts are refused for a quarter of an hour from the fifth failure of the window on, for an hour from the tenth, and not otherwise |
| Lockout.WindowsOpen | api/internal/mfa/lockout.go:31-66 | a failure opens a window when there is none or it is a quarter of an hour old; a success or reset forgets what was counted |
| Authenticator.VerifyTOTP | api/internal/mfa/totp.go:84-108 | the nested loops find the first of the current, next and previous steps that shows the code with the space around it trimmed, and refuse it when the counter has passed it |
| Authenticator.AcceptedIsNear | api/internal/mfa/totp.go:84-108 | an accepted step shows the code, is within one of the current step, and lies past the counter |
| Authenticator.OwnCodeIsAccepted | api/internal/mfa/totp.go:84-108 | a code no other nearby step shows, with or without space around it, is accepted exactly when its step lies past the counter |
| Authenticator.CodeIsGoodForNinetySeconds | api/internal/mfa/totp.go:84-108 | in seconds: a code that no step near its own shows is accepted exactly from thirty seconds before its period until thirty after it, and then only past the counter; otherwise, in that time, it is a replay |
| Authenticator.OnlySixDigits | api/internal/mfa/totp.go:84-92 | anything but six digits, trimmed, is invalid |
| Authenticator.TrimIsExact | api/internal/mfa/totp.go:84-92 | trimming takes off white space only |
| Authenticator.StepsIncrease | api/internal/handlers/mfa.go:598-623 | verifications one after another accept strictly increasing steps (section 5.2 of RFC 6238), for clocks two periods past the epoch |
| Authenticator.StepZeroIsReused | api/internal/mfa/totp.go:83 | before that, step zero is accepted again and again |
| Authenticator.CounterNeverDecreases | api/internal/db/mfa.go:118-123 | in every overlap the stored counter after more statements is never below what it was before them |
| Authenticator.LaterReadsAcceptLaterSteps | api/internal/db/mfa.go:112-123 | in every overlap, of two accepted verifications the one that read the counter after the other wrote has the later step |
| Authenticator.OverlapAcceptsAStepTwice | api/internal/db/mfa.go:115-123 | two verifications that both read before either writes accept the same code twice |
| Ports.SanitizedIsWellShaped | operator/controllers/vestaapp_controller.go:619-635 | a repaired name has 1 to 15 characters of [a-z0-9-] and starts and ends alphanumeric |
| Ports.SanitizeKeepsLegalNames | operator/controllers/vestaapp_controller.go:619-635 | repair leaves a legal name alone |
| Ports.SanitizedIsStretch | operator/controllers/vestaapp_controller.go:619-635 | a repaired name is one stretch of the name, cut at 15, each letter folded to lower case and each other character to a hyphen; without a letter in it, p- and the port number |
| Ports.CandidateIsCut | operator/controllers/vestaapp_controller.go:642-652 | a candidate is the name, cut as little as it must be, a hyphen and the number |
| Ports.CandidatesDiffer | operator/controllers/vestaapp_controller.go:642-652 | different suffixes give different candidates, whatever was cut off the base |
| Ports.TakenCandidates | operator/controllers/vestaapp_controller.go:642-652 | pigeonhole: so many taken candidates need as many taken names |
| Ports.UsedNames.UniquePortName | operator/controllers/vestaapp_controller.go:639-655 | terminates within one more try than there are used names, and returns the first free candidate, of legal shape |
| Ports.SecondOfANameIsTwo | operator/controllers/vestaapp_controller.go:637-655 | a free repaired name is taken as it is, and numbering starts at two |
| Ports.BuildContainerPorts | operator/controllers/vestaapp_controller.go:662-693 | the first entry of each positive pair, in order, each under the first name free when it is reached |
| Ports.ContainerPortsAreExact | operator/controllers/vestaapp_controller.go:657-693 | exactly the distinct positive (target port, protocol) pairs are exposed |
| Ports.ContainerPortsByNumber | operator/controllers/vestaapp_controller.go:657-693 | entry by entry: the target port or else the port, and the protocol or else TCP, of the first entry of each pair |
| Ports.ContainerNamesAreDistinct | operator/controllers/vestaapp_controller.go:657-693 | under distinct names of legal shape |
| Ports.BuildServicePorts | operator/controllers/vestaapp_controller.go:698-735 | the first entry of each positive pair, in order, each under the first name free when it is reached |
| Ports.ServicePortsAreDistinct | operator/controllers/vestaapp_controller.go:695-735 | no (port, protocol) pair and no name is exposed twice |
| Ports.ServicePortsByNumber | operator/controllers/vestaapp_controller.go:698-735 | entry by entry: port, target port, protocol and node port, with their defaults, of the first entry of each pair |
| Ports.ValidateServicePorts | api/internal/handlers/ports_validation.go:34-107 | accepts exactly the lists whose entries are each well formed and pairwise distinct in name and in (port, protocol), and otherwise names the first entry with which that fails |
| Ports.ValidatedIsDistinct | api/internal/handlers/ports_validation.go:34-107 | a validated list decodes to entries none of which repeats a pair or a name |
| Ports.RepairKeepsValidated | operator/controllers/vestaapp_controller.go:698-735 | if the API accepted a list, the operator's Service carries every entry, in order, with its port, protocol and given name |
| Ports.AcceptedExactlyWhenRepairKeeps | api/internal/handlers/ports_validation.go:34-107 | API and operator agree: of entries that are mappings with fitting numbers, a list is accepted exactly when the Service carries every entry as it was given, and a list of several names them all |
| Shell.ShellSplit | operator/controllers/vestaapp_controller.go:2387-2427 | the loop, with its four variables, computes the tokens that the rows below describe by how a command is written |
| Shell.CommandsSplit | operator/controllers/vestaapp_controller.go:2387-2427 | every command written of words of single-quoted, double-quoted, escaped and plain pieces, with any white space between, splits into the values of its words |
| Shell.SettledIsWritten | operator/controllers/vestaapp_controller.go:2387-2427 | a text ends unquoted and unescaped exactly when it can be written of whole such pieces and spaces |
| Shell.SplitOfJoined | operator/controllers/vestaapp_controller.go:2387-2427 | splitting two commands joined by a space gives the tokens of one and then of the other, if and only if the first ends unquoted and unescaped |
| Shell.SplitUndoesQuoting | operator/controllers/vestaapp_controller.go:2380-2386 | single-quoting any tokens and joining them with spaces splits back to those tokens |
| Shell.SplitUndoesWriting | operator/controllers/vestaapp_controller.go:2380-2426 | writing any tokens, each between double quotes with " and \ escaped, or bare with every special character escaped, and separating them by any white space, splits back to those tokens |
| CrdMerge.StripRequired | hack/merge-crd-properties.py:19-31 | every required list reachable through properties and items is gone, and nothing else |
| CrdMerge.MergeSchema | hack/merge-crd-properties.py:33-47 | the recursion over both schemas computes the specified schema and reports exactly the added paths |
| CrdMerge.AddedExactly | hack/merge-crd-properties.py:33-47 | the reported paths are exactly those of the properties the generated schema has at a place both reach and the shipped one lacks |
| CrdMerge.MergeKeepsTheRest | hack/merge-crd-properties.py:33-47 | wherever the shipped schema leads, the merged node has its properties and the generated ones, stripped, and otherwise is the shipped one |
| CrdMerge.StripKeepsTheRest | hack/merge-crd-properties.py:19-31 | stripping changes nothing but required |
| CrdMerge.MergeIsIdempotent | hack/merge-crd-properties.py:33-47 | a second merge changes nothing and reports nothing |
| CrdMerge.RequirementsStay | hack/merge-crd-properties.py:11-13 | wherever properties and items lead, the merged schema requires exactly what the shipped one did |
| CrdMerge.AcceptedExactly | hack/merge-crd-properties.py:36-47 | a document the shipped schema accepts is accepted by the merged one, if and only if the gained properties accept the fields it holds under their names |
| CrdMerge.MergeIsBackwardCompatible | hack/merge-crd-properties.py:11-13 | whatever the shipped schema accepts of what it keeps, the merged one accepts, when no open node gains a property |
| CrdMerge.OpenGainCanReject | hack/merge-crd-properties.py:11-13 | an open node that gains a property can come to reject a document it accepted |
| CrdMerge.KeptExactly | hack/merge-crd-properties.py:4-9 | pruning a document by the merged schema keeps all that pruning by the generated one keeps, if and only if the shipped one misses nothing of it at the nodes the merge does not reach: fields the generated node takes without a property, and items the shipped node lacks |
| CrdMerge.MergedKeepsWhatGeneratedKeeps | hack/merge-crd-properties.py:4-9 | so of every document, when each shipped node has items where the generated one does and takes fields without a property at least as widely as an open generated node (its additional schema no narrower, its unknown fields preserved too); a generated node for lists that also preserves unknown fields is exempt as long as no mapping stands there |
| CrdMerge.OpennessIsNotMerged | hack/merge-crd-properties.py:33-47 | a generated node that preserves unknown fields, where the shipped one does not, loses any such field: the script copies properties only |
| Rollout.FingerprintParts | operator/controllers/vestaapp_controller.go:442-493 | the lookups in order compute one part per source that exists |
| Rollout.PartsAreOfWhatFeeds | operator/controllers/vestaapp_controller.go:442-493 | the parts are exactly kind/name=version of the stored objects that feed the pods: the secret <app>-secrets, the config map <app>-envvars and the secrets the app binds, in the namespace of project and environment |
| Rollout.RolloutHashInput | operator/controllers/vestaapp_controller.go:2365-2378 | the bytes hashed are the pod spec and the sorted parts, each behind a zero byte |
| Rollout.HashInputIsExact | operator/controllers/vestaapp_controller.go:2365-2378 | the bytes are the same if and only if the pod spec is and the parts are, whatever their order |
| Rollout.UpdatedSourceChangesHash | operator/controllers/vestaapp_controller.go:442-493 | an update of any of those objects changes the bytes hashed for the pods |
| Rollout.MapEnvFromSourceToApps | operator/controllers/vestaapp_controller.go:2293-2358 | exactly the apps the object wakes, each once |
| Rollout.WokenAreNamed | operator/controllers/vestaapp_controller.go:2293-2358 | a request names an app, by namespace and name, exactly when the object wakes it |
| Rollout.SourceWakesItsApp | operator/controllers/vestaapp_controller.go:2285-2313 | any of those objects wakes the app, if and only if the app has a project and the environment's name holds no '-' |
| Rollout.WakesExactly | operator/controllers/vestaapp_controller.go:2285-2358 | which objects wake an app, by kind, namespace and name alone |
| Identity.InstanceIdentity | api/internal/k8s/identity.go:29-68 | a call that returns a key returns the stored one, never an empty one; a key that is there never changes; and none is returned only when one of the requests failed or what is stored is no key |
| Identity.ReplicasAgree | api/internal/k8s/identity.go:25-68 | in every interleaving of any number of replicas a stored key never changes and every successful call returns it |
| Identity.TwoReplicasAgree | api/internal/k8s/identity.go:25-28 | no two replicas that got a key got different ones |
| Identity.EveryReplicaGetsTheKey | api/internal/k8s/identity.go:29-68 | in every interleaving without failures, over a valid stored key or none, a replica that took its three steps has the stored key |
| Quantity.CPURoundTrip | api/internal/k8s/client.go:326-351 | a printed CPU amount reads back rounded down to its unit: never more than it was, and less by under a millicore |
| Quantity.MemRoundTrip | api/internal/k8s/client.go:353-388 | a printed memory amount reads back rounded down to its unit |
| Quantity.AmountsPrint | api/internal/k8s/client.go:341-388 | an amount is printed in the largest unit it reaches, CPU at most in millicores |
| Quantity.CPUAmountsRead | api/internal/k8s/client.go:326-339 | what each CPU unit reads as |
| Quantity.MemAmountsRead | api/internal/k8s/client.go:353-373 | what each memory unit reads as |
| Quantity.NumbersRead | api/internal/k8s/client.go:326-373 | signs are read, and anything but digits behind one reads as nothing |
| Quantity.GetPodMetrics | api/internal/k8s/client.go:305-323 | per pod name, the printed totals of the last item of that name |
| Quantity.LastNamedIsLast | api/internal/k8s/client.go:305-323 | which item counts for a pod name |
| Quantity.SumUsage | api/internal/handlers/logs.go:325-329 | the total adds up the printed amounts of the pods that have metrics |
| Quantity.TotalsFallShort | api/internal/handlers/logs.go:325-329 | a total summed from printed amounts never exceeds the exact one and falls short by less than the units its pods are printed in |

## Left out

- Import.ApplyPayload: the namespaces, envvars, secrets and sharedSecrets counters of an import, which count entries or attempts and not objects.
- Project transfer: sealing and opening a bundle, and the check of secret keys before an import.
- Cluster.ApiServer.List: the server's order is taken to be by namespace and then name, compared by code point; the source relies on some fixed order only for which of several equal copies of a shared secret is read first.
- Export.CollectProject: the nested configuration maps are flattened to one map over (app, environment); an absent or non-mapping spec or data reads as empty; a failed list request for secrets is not modelled.
- Deploy.DeployApp: the redeploy type (a restart of the workload, which writes no app) and unknown types, notifications and the audit log; an app that disappears between attempts counts as a failed read.
- Deploy.RollbackApp: history versions are integers; how the decoded number type is tested is not modelled.
- Lifecycle: merge patches sent without a resource version (scale, sleep, rate limits) and configuration updates are not among the interleaved writers; writes to anything else of the object are.
- History.RecordDeployments: decoding failures of a stored app; fields of a wrong type read as absent.
- ConfigUpdate.UpdateCall.Attempt: in-place sharing between patch and spec appears as the second result, the edited patch; the heap itself is not modelled.
- Factors.ServeView: what a code or a passkey assertion proves is a parameter of the call; the role of a user and the policy come with each request, as it finds them; the password check, the lockout it shares with code checks (Lockout) and a key's usage count are not modelled, nor are failed statements.
- SecondFactor.GuardLastFactor: a user who has disappeared since signing in.
- SecondFactor.ResetUserMFA: that a reset user is told to enrol again.
- Overlap.EveryPasskeyIsTraced: passkeys and sessions from before the run carry no origin, so the run starts without any.
- Overlap.EveryAuthenticatorIsTraced: for the same reason the run starts without authenticators.
- Lockout.NineAtMost: calls that overlap; the lockout is read and written in two statements, so overlapping failures can be lost.
- Authenticator.VerifyTOTP: the code an app shows at a step is an arbitrary function of the step.
- Ports.UsedNames.UniquePortName: names in use are assumed fewer than the suffixes that fit in 15 characters, and upper-case letters outside ASCII are not folded.
- Ports.SanitizedIsWellShaped: adjacent hyphens stay, and a suffix can cut off the only letter, so full conformance with section 5.1 of RFC 6335 is not claimed.
- Rollout.HashInputIsExact: the digest itself and its truncation; equality is of the bytes hashed.
- CrdMerge.MergeIsBackwardCompatible: pruning and validation follow Kubernetes structural schemas, which are not part of the repository; everything a node demands by itself is one arbitrary predicate; that no open node gains a property is a sufficient condition, the exact one per document being that of CrdMerge.AcceptedExactly.
- CrdMerge.MergedKeepsWhatGeneratedKeeps: that each node covers the other is a sufficient condition for all documents; the exact one per document is that of CrdMerge.KeptExactly.
- CrdMerge.MergeSchema: editing in place, and a properties key that is present but empty.
- Identity.InstanceIdentity: the key encoding is an arbitrary predicate; nobody deletes the secret.
- Quantity.CPURoundTrip: int64 overflow and numbers out of range.
- Cryptography, HTTP plumbing, logs, notifications, the scheduler, the CLI and the UI.
