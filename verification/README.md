# CFAPI operator and BTP service broker: model and proofs

A Dafny model of the three parts of this repository whose correctness is not visible from any one
function, with the theorems they are meant to satisfy.

* **The CFAPI reconcile, patch and finalize protocol.** `Json` is JSON Merge Patch (RFC 7396, section 2)
  and the patch that `client.MergeFrom` computes. `Patch` is the two-phase write of a main object and
  its status. `Types` is the CFAPI record. `ApiServer` is what the two writes do to a CFAPI object,
  proved equal to the JSON form, and `StoredJson` ties it to whatever JSON is stored. `Controller` is
  the reconciler as methods over mutable objects, each equal to a function; `CompileFacts` says what
  each field of the configuration holds, `Endings` which state, conditions, URL, finalizers and request
  to come back each answer of the installables leads to. `Reconcile` wraps it as the work queue sees it.
  `Protocol` is the same as small steps, with crashes, failing patches, users who create, edit and
  delete at any moment, foreign finalizers, objects recreated under the same name, and an arbitrary
  world; `Safety` and `Ready` hold what is true over all its runs, `Runs` those in which something
  promised fails. `Solo` ties the small steps back to `Controller`. `Convergence` says when an object
  becomes Ready and when reconciling it again changes nothing, `Termination` when a deletion ends.
* **The installables and Helm releases.** `Cluster` is the world they act on, `Helm` the decisions of the
  Helm client, `Installables` the four kinds as functions and as methods, `InstallableFacts` what their
  answers mean for the world, `InstallableAnswers` what each answers under every fault.
* **The BTP service broker.** `Credentials` decodes binding secrets, `Catalogue` joins offerings and plans,
  `Broker` has the requests and polls, `BrokerRuns` the runs of broker, operator and other writers with
  their invariant, `BrokerFacts` what the answers mean over all of them, `BrokerAnswers` what each
  request stores and each poll answers.

Every method is proved against a function of its inputs and of the old state; the theorems are about those
functions. What the outside answers (API errors, lookups, Helm actions, the clock) is a parameter, so each
theorem holds for every fault unless it says otherwise.

## What is assumed of the environment

* One worker runs. A read returns the last committed object.
* Only this controller writes its finalizer and the CFAPI status. Users and other controllers write the
  spec, their own finalizers, and the deletion mark.
* The API server keeps an object with a finalizer alive after a delete, refuses new finalizers on it, and
  moves `generation` only when the spec changes or (in `Protocol`, possibly; in `Broker`, always) when the
  object is marked for deletion. The status endpoint changes only the status, the main endpoint never does.
* `meta.SetStatusCondition` keeps one condition of each type, and its transition time while the status value
  stays the same.
* Which statuses Helm's lookup shows is not fixed: `Helm.SHOWN` is any set with deployed in it, and
  everything is proved for each. "Absent" means nothing that the lookup shows; `Traceless` means nothing
  at all. An install action refuses a name that has a release. An action that returns a release has
  recorded the chart version and the values it was given, except that an upgrade without values keeps
  the current ones; a completed uninstall reports a non-empty status.
* The BTP operator works for the stored resource and not for a former one of the same name, and reports
  success for a version only after it has finished that version.
* Parsing JSON inverts printing it.

## What turned out false, and what holds instead

* *An object that is gone has left nothing behind.* Components are installed before anything is committed;
  if the process crashes between the two patches of the first reconcile and the object is then deleted,
  finalize finds no configuration and drops the finalizer, for every wiring of the controller
  (`Runs.LeakHappens`, `Runs.LeakHappensAsWired`). A finalize that drops the finalizer leaves nothing
  exactly if a configuration was committed or nothing was there before (`Runs.FinalizeLeavesNothingIff`);
  once a configuration is committed the property holds over all runs (`Safety.GoneOnlyAfterFullPass`,
  `Safety.FinalizerGoneMeansClean`), as long as nobody brings back in the last pass what it has found gone;
  what is brought back then outlives the object (`Runs.RevivedOutlivesItsObject`). Every life with a pass that
  completes at last is such a run (`Runs.FinalizerIsDropped`, `Runs.EveryLifeEnds`).
* *A release that Helm does not list is gone.* A complete pass leaves nothing at all exactly if the lookup hid no
  release of the order (`ControllerFacts.CleanPassIff`, for one component `InstallableFacts.GoneMeansGoneIff`).
  A release in a status that is not shown, such as a pending or an uninstalling one where only deployed and
  failed ones are, outlives its object (`Runs.HiddenReleaseOutlivesItsObject`); a removal that broke off is then
  taken for done (`InstallableFacts.BrokenRemovalIsForgottenIff`).
* *A stored Ready observes the generation that its conditions observe.* Everything else about a stored Ready
  holds in every reachable state, but if objects are deleted and recreated in the middle of two
  reconciles the observed generation can be lost (`Runs.ObservedGenerationIsLost`). It agrees with the
  conditions exactly if it is not 0 (`Ready.CommittedReadyIsBacked`).
* *Ready means that the installed objects stay.* An update keeps a deletion mark. Ready leaves no enabled
  object on its way out exactly if none was when the reconcile began (`Convergence.ReadyStandsIff`);
  `Convergence.ReadyOverDeletedObject` is an input where one was.
* *Reconciling a Ready object again changes nothing.* The object stays as it is. The world does exactly if no
  enabled manifest lists a key with two bodies and every enabled chart holds the values asked for
  (`Convergence.SecondBodyChangesNothingIff`, and `Convergence.ContradictoryManifestIsRewritten` for a
  manifest that lists a key with two); an upgrade without values keeps the old ones, and the next
  install then upgrades again (`InstallableFacts.HelmSuccessIsCurrent`).
* *Patch stores the modified object.* A modification that drops the status is not stored: exactly then the
  status endpoint is not called (`Patch.QuietPatch`). Lists are replaced whole, so a finalizer added
  concurrently is lost (`Patch.ConcurrentListEditLost`, `Patch.ConcurrentFinalizerLost`), as is whatever
  others put below a key that the modification removes (`Json.ReplacedSubtreeLost`).
* *Uninstall terminates.* It does exactly if nothing is blocked: no held object, no org that is held or lies
  outside the root namespace, no release shown in status uninstalling (`Termination.DeletionEndsIff`,
  and `Termination.HeldObjectBlocksForEver` for one that is). Failing requests only delay it
  (`Termination.DeletionTerminates`).
* *Install converges.* A pending release, one that the lookup does not show, or one of the requested
  version and values in a status that is neither deployed nor failed, is never changed again
  (`InstallableFacts.HelmInstallConverges`, `InstallableFacts.InterruptedInstallNeverSucceeds`). Ready
  is reached exactly if no enabled chart is blocked so and nothing of a disabled component is blocked
  (`Convergence.ReadyReachedIff`).
* *Compiling the configuration is deterministic.* Exactly if a custom registry secret has one registry
  (`ControllerFacts.OneRegistryIff`).
* *A deletion ends quietly.* When the main patch removes the last finalizer the object is gone before its
  status can be patched, so that call returns an error, and only the next one is quiet
  (`Reconcile.UndisturbedCommit`, `Termination.DeletionEndsIff`).
* *A poll answers one of the three states of the Open Service Broker API.* Neither a create poll nor a delete
  poll does before the operator's first report (`BrokerFacts.FirstPollsHaveNoState`,
  `BrokerFacts.FirstDeletePollsHaveNoState`); `BrokerAnswers.CreatePollMeans` and
  `BrokerAnswers.RemovePollMeans` say exactly when they do, and which.
* *Bind hands out credentials of the stored spec.* It polls and then reads the secret in another request; if
  the binding is written in between they can be those of a spec that no longer is stored
  (`BrokerFacts.BindHandsOutOldCredentials` is such a run). They are of the stored version exactly if that is
  the version polled, or one that the operator has finished since (`BrokerFacts.CredentialsAreStoredIff`).
  They never are older than the poll, and if nobody else writes the binding they are for the spec that was
  asked for (`BrokerFacts.BindHandsOutRecentCredentials`).
* *Decoding inverts encoding.* Not for a credential named `.metadata` (`Credentials.RoundTripIff`,
  `Credentials.MetadataCredentialLost`).

The comment on `CredentialsDecoder` promises the reverse of the operator's encoding for every credentials
object; the code is followed.

## Model

| member | source | states |
|---|---|---|
| Json.DiffEmptyIffEqual | tools/k8s/patch.go:47 | the computed merge patch is empty exactly if nothing was modified |
| Json.MergeDiffIsModified | tools/k8s/patch.go:47 | for any two JSON trees, applying the computed patch to the original gives the modified tree, null counting as absent |
| Json.UntouchedPathKept | tools/k8s/patch.go:47 | at any depth, a place the modification left alone keeps whatever the server holds there, as long as the modified tree has objects down to it, new ones included |
| Json.TouchedLeafWritten | tools/k8s/patch.go:47 | at any depth, also below a subtree that the modification introduces, a changed leaf becomes the modified one, whatever the server held |
| Json.ReplacedSubtreeLost | tools/k8s/patch.go:47 | below a key that the modification removes or replaces by something else than an object nothing of the server is left |
| Json.PatchAgain | components/btp-service-broker/btp/broker.go:162-172 | sending the same modified tree a second time changes nothing, whatever nulls it has and whatever was stored before the first time |
| Json.MergeKeepsEssence | tools/k8s/patch.go:47-53 | two JSON objects that a Go client reads the same, zero members counting as absent, still read the same after any merge patch |
| Patch.Patch | tools/k8s/patch.go:26-64 | for all concurrent writers before and between the two requests and all failures, of the requests and of the conversions before and after them: the stored object, the in-memory object and the error of a call |
| Patch.PatchEndings | tools/k8s/patch.go:26-64 | exactly when a call ends with each error, an object gone before either request included, and what is then stored and in memory |
| Patch.QuietPatch | tools/k8s/patch.go:26-64 | with nobody else writing, exactly three states of the server told apart by the error: unchanged, main part only, or the whole modified object, which then is in memory too unless it could not be copied back; it is not the whole exactly if the modification drops an existing status |
| Patch.PatchIsThreeWayMerge | tools/k8s/patch.go:39-60 | with arbitrary writers before and between the requests: untouched places keep the others' values, touched ones get ours, the status last |
| Patch.ConcurrentEditsKept | tools/k8s/patch.go:47-53 | neither endpoint writes a place the modification left alone |
| Patch.OwnEditsWritten | tools/k8s/patch.go:47-53 | the responsible endpoint writes every leaf the modification changed |
| Patch.ConcurrentListEditLost | tools/k8s/patch.go:47 | wherever a list is, if the modification changes it, whatever another client has put into it since the read is lost |
| Patch.ConcurrentFinalizerLost | tools/k8s/patch.go:47 | for one, a finalizer that somebody else adds between the read and the main patch |
| Types.SetThenFind | controllers/cfapi/controller.go:111-117 | setting a condition makes it the one found for its kind, keeps its transition time if the status value stays, and leaves other kinds alone |
| Types.SetAgain | controllers/cfapi/controller.go:124-130 | setting a condition that says what the stored one says changes nothing, whatever the clock reads |
| Types.FindIsFirst | controllers/cfapi/controller.go:111-117 | the condition found is the first of its kind, and there is none exactly if no condition has the kind |
| Types.RemoveFromParts | controllers/cfapi/controller.go:357 | removing a finalizer reorders nothing and leaves out only that one |
| Types.AddThenRemove | controllers/cfapi/controller.go:104-106 | adding our finalizer and removing it again leaves exactly the other finalizers |
| ApiServer.TypedPatchIsJsonPatch | tools/k8s/patch.go:47-60 | for any stored CFAPI object, the typed patches used in the protocol are the JSON merge patches on its two endpoints |
| ApiServer.ConfigMembersMean | api/v1alpha1/cfapi_types.go:67-92 | each field of the configuration under its own name, and which are missing when zero |
| ApiServer.StatusMembersMean | api/v1alpha1/cfapi_types.go:50-65 | the same for the status, the finalizers and the deletion mark |
| StoredJson.TypedPatchOnStoredJson | tools/k8s/patch.go:47-60 | the same for whatever JSON is stored, with members that the typed record does not know, with or without a status: if it reads as the typed object before a patch it reads as the patched one afterwards |
| StoredJson.UnknownMembersKept | tools/k8s/patch.go:47-60 | no patch of the controller writes a member that the typed record does not know, at any level, nor anything in the spec |
| StoredJson.ReadOnce | api/v1alpha1/cfapi_types.go:50-135 | stored JSON, whatever else it holds, gives one reading at most of the fields the controller uses |
| StoredJson.FreshObjectReads | api/v1alpha1/cfapi_types.go:130-136 | an object stored without any status reads as one with the zero status, whatever else is stored with it |
| Helm.ApplyChart | controllers/helm/client.go:30-70 | the releases afterwards and the result, for every failure, of comparing the values too, and every state of the newest release; an upgrade without values keeps the current ones |
| Helm.UninstallRelease | controllers/helm/client.go:72-120 | the same for an uninstall, including one that breaks off half way |
| Helm.CanonTwice | controllers/helm/client.go:135-148 | the YAML normal form of a value is normal |
| Helm.StoredValuesCompareEqual | controllers/helm/client.go:122-133 | values that were stored in their YAML form compare equal to the ones asked for |
| Installables.CreateOrUpdate | controllers/installable/yaml.go:101-127 | one document creates or updates its object, or the first failing request stops it with the store unchanged; the update never conflicts |
| Installables.InstallYaml | controllers/installable/yaml.go:43-65 | the loop over the documents is the specification ApplyDocs, in answer and world |
| Installables.UninstallYaml | controllers/installable/yaml.go:67-99 | the loop with its accumulator is the specification DeleteDocs, in answer and world |
| Installables.InstallChart | controllers/installable/helm.go:47-87 | the method is the specification HelmInstall, in answer and releases |
| InstallableAnswers.ChartInstallAnswers | controllers/installable/helm.go:47-87 | under every fault: values that cannot be had are in progress; a load, lookup, comparison or configuration that fails, the first of them, is a failure; neither touches a release; and otherwise what each status of the release and each ending of the action becomes, and what is recorded |
| InstallableAnswers.ChartUninstallAnswers | controllers/installable/helm.go:89-114 | the same for Uninstall: which fault fails, when nothing is done, and what each ending of the removal leaves |
| InstallableAnswers.YamlAnswers | controllers/installable/yaml.go:43-99 | a manifest that cannot be read fails without touching anything, the first document that cannot be processed makes either call return its error, and otherwise the two answers |
| InstallableAnswers.OrgsAnswers | controllers/installable/orgs.go:31-68 | exactly the orgs of the root namespace that nothing holds go; the first failing request is returned, and any org left anywhere keeps the call in progress |
| InstallableAnswers.ChartFaults | controllers/installable/conditional.go:28-34 | with conditions before it too, missing values are waited for and a failing Apply is final |
| InstallableAnswers.EqualValuesIff | controllers/helm/client.go:122-148 | the comparison forgets the Go element types of maps and lists and nothing else |
| Installables.UninstallChart | controllers/installable/helm.go:89-114 | only the zero result, no release found, is a success |
| Installables.UninstallOrgs | controllers/installable/orgs.go:31-68 | orgs of the root namespace are deleted, but the orgs of all namespaces are counted |
| Installables.RunInstall | controllers/installable/conditional.go:28-34 | any installable's Install as a function of configuration, world and faults; a ruled-out conditional uninstalls its delegate |
| Installables.RunUninstall | controllers/installable/conditional.go:36-38 | the same for Uninstall, conditional or not |
| InstallableFacts.YamlInstallApplies | controllers/installable/yaml.go:43-65 | every manifest key holds its last document, all other objects are unchanged; on an error exactly the documents before the failing one were applied |
| InstallableFacts.YamlUninstallPurges | controllers/installable/yaml.go:67-99 | exactly the manifest's objects are deleted or marked; without error it is a success exactly if none of them was there |
| InstallableFacts.YamlRoundTrip | controllers/installable/yaml.go:43-99 | install and two uninstalls touch no other object and leave of the manifest exactly the objects that something held at the start; the second uninstall succeeds exactly if there are none |
| InstallableFacts.PendingNeverWritten | controllers/helm/client.go:48-54 | no sequence of Apply calls, for any releases, versions, values and faults, writes a pending release |
| InstallableFacts.HelmSuccessIsCurrent | controllers/installable/helm.go:47-87 | success means the newest release is deployed with the requested version, and the requested values if any were given; repeating the install writes nothing exactly if it holds them |
| InstallableFacts.HelmInstallConverges | controllers/helm/client.go:44-69 | however often a healthy Helm is asked, the install succeeds exactly if the newest release does not block it at the start |
| InstallableFacts.InterruptedInstallNeverSucceeds | controllers/helm/client.go:48-54 | for one, a release whose installation was interrupted blocks every later install |
| InstallableFacts.UninstallSuccessMeansAbsent | controllers/installable/installable.go:11-28 | a successful Uninstall of any installable leaves none of its objects and orgs and no release that the Helm lookup shows |
| InstallableFacts.GoneMeansGoneIff | controllers/helm/client.go:150-171 | for every set of statuses that the lookup shows: after a successful Uninstall nothing at all is left exactly if it hid no release of the component |
| InstallableFacts.BrokenRemovalIsForgottenIff | controllers/helm/client.go:72-120 | after a removal that broke off and left the release uninstalling, the next Uninstall changes nothing, and is a success exactly if such releases are not shown |
| InstallableFacts.InstallSuccessMeansInPlace | controllers/installable/installable.go:11-28 | a successful Install of any installable leaves it in place as the configuration asks, or absent where it rules it out |
| InstallableFacts.InstallTouchesOwn | controllers/installable/yaml.go:43-65 | installing a component leaves everything that a disjoint component owns as it was |
| InstallableFacts.UninstallShrinks | controllers/installable/yaml.go:129-136 | no Uninstall ever creates an object, a release or an org |
| Controller.CompiledIsLegal | controllers/cfapi/controller.go:188-242 | a compiled configuration is never the zero value and has one of the two legal gateway pairs |
| ControllerFacts.LookupMattersIff | controllers/cfapi/controller.go:188-323 | each lookup influences a compiled configuration exactly if the spec leaves open what it answers; where the spec decides it may answer anything, an error too |
| ControllerFacts.PinnedSpecIff | controllers/cfapi/controller.go:188-265 | a spec that gives explicitly what was compiled compiles to the same configuration, whatever users and UAA lookups answer, exactly if there is a UAA and an administrator |
| CompileFacts.CompiledMeans | controllers/cfapi/controller.go:188-323 | field by field: the spec's value where it gives one, and otherwise the answer of the lookup or the literal default; the registry and the defaults under its URL, the domain, the gateway and its ingress, the flags |
| CompileFacts.CompileFailsIff | controllers/cfapi/controller.go:188-323 | there is no configuration exactly if something is in the way that the spec makes it ask for, and the error is the first such thing in a fixed order |
| Controller.SortIsStable | controllers/cfapi/controller.go:278-280 | the sort is descending and keeps the order of results of the same state |
| Controller.HeadOfStableSort | controllers/cfapi/controller.go:278-282 | the head of any stable sort is the earliest result of the greatest severity |
| Controller.AggregateIsEarliestWorst | controllers/cfapi/controller.go:278-282 | the aggregate is the earliest of the severest results, and a success exactly if every installable succeeded |
| Endings.AggregateByState | controllers/installable/installable.go:24-28 | in terms of the states alone: failed exactly if some result is, in progress exactly if none failed and some is in progress, and the first result of its state |
| Controller.Reconciler.InstallAll | controllers/cfapi/controller.go:267-283 | the loop with its early exit and the sort are the specification, in world and result |
| Controller.Reconciler.UninstallAll | controllers/cfapi/controller.go:361-375 | the early-exit loop is the specification, in world and result |
| Controller.Reconciler.ApplyInstallResultToStatus | controllers/cfapi/controller.go:144-186 | the whole object and the requeue after each of the three outcomes |
| Controller.Reconciler.RunFinalize | controllers/cfapi/controller.go:325-359 | object, world, result and error of finalize |
| Controller.Reconciler.ReconcileResource | controllers/cfapi/controller.go:97-142 | object, world, result and error of one reconcile body |
| Endings.InstallEndings | controllers/cfapi/controller.go:124-186 | if every component answers: one failure ends in Error, else one in progress in Processing, else it is Ready under the domain that was looked up; state, URL, both conditions with their message, generation and transition time, finalizers, world and request to come back |
| Endings.BrokenEnding | controllers/cfapi/controller.go:132-138 | a component that returns an error ends the reconcile with it, in Processing, and nothing is said about the installation |
| Endings.RejectedEnding | controllers/cfapi/controller.go:109-123 | a spec that does not compile ends in Warning with the first obstacle as the message, comes back after the interval, and installs nothing |
| Endings.DeletionEndings | controllers/cfapi/controller.go:325-359 | the first component that does not succeed decides: its error is returned, or its message is in the Deletion condition and the call comes back; our finalizer goes exactly if all succeed |
| Endings.UnstartedDeletionEnding | controllers/cfapi/controller.go:331-336 | without a committed configuration nothing is called and our finalizer goes |
| Endings.StateTellsEnding | controllers/cfapi/controller.go:97-186 | for every object, world, lookup and fault, exactly when the state is each of the five |
| Endings.MissingValuesAskAgain | controllers/installable/helm.go:50-57 | a whole call in which nothing is wrong but values that cannot be had yet leaves Processing and asks for another |
| Endings.FailedApplyIsFinal | controllers/installable/helm.go:59-65 | a whole call in which all answer and one Apply fails leaves Error and is forgotten by the queue |
| ControllerFacts.OneRegistryIff | controllers/cfapi/controller.go:304-309 | the compiled configuration is the same for every iteration order of the secret's registries exactly if there is one |
| ControllerFacts.InstallPassIsPrefix | controllers/cfapi/controller.go:267-283 | a pass calls exactly the prefix of the install order up to the first error, each once and in order, and returns that error or all results |
| ControllerFacts.ReadyMeansInstalled | controllers/cfapi/controller.go:97-158 | a reconcile ends Ready exactly if every installable succeeded; then every one is in place for exactly the configuration in the status, and URL and conditions agree with it |
| ControllerFacts.UninstallPassLeavesNothing | controllers/cfapi/controller.go:361-375 | after a complete pass every component of the order is absent at the same moment, and no pass creates anything |
| Endings.UninstallPassIsPrefix | controllers/cfapi/controller.go:361-375 | a pass calls exactly the prefix of the uninstall order up to the first component that does not succeed, and ends as that one answers |
| ControllerFacts.CleanPassIff | controllers/helm/client.go:150-171 | a complete pass leaves nothing at all of its order exactly if the Helm lookup hid no release of it when the pass began |
| ControllerFacts.ReconcileIsFixpoint | controllers/cfapi/controller.go:97-186 | with the same answers, reconciling the committed object changes nothing in it, transition times included, in every ending |
| ControllerFacts.MainOrdersAreSound | main.go:135-160 | the two orders of the operator meet what the theorems ask: installable, non-empty, covered by the uninstall order, disjoint if the manifests are |
| ControllerFacts.MainOrdersMirror | main.go:135-160 | the uninstall order is the install order backwards, but for the orgs and the root namespace, which go first |
| ControllerFacts.ContourFollowsGateway | main.go:67-69 | at every Ready ending, whatever the world was, Contour is deployed exactly if the committed gateway type is contour, and otherwise the Helm lookup shows no release of it |
| Reconcile.PatchingReconciler.Reconcile | tools/k8s/reconcile.go:38-90 | stored object, world, result and error of one call, for all concurrent writers and failures of requests and conversions, including the mapping of NotReadyError |
| Reconcile.MappedMeans | tools/k8s/reconcile.go:61-80 | which flags of a NotReadyError make it no error, and which of several counts |
| Reconcile.CommitMeans | tools/k8s/patch.go:47-60 | the stored object and the first failure, for every combination of failing requests, refusals and others |
| Reconcile.ReplyMeans | tools/k8s/reconcile.go:46-89 | a failing read or an absent object ends the call, and a failing commit hides what the body asks for |
| Reconcile.NoSilentDrop | tools/k8s/reconcile.go:46-89 | no error and no requeue exactly if the object was absent, or both patches were stored and the body ended Ready, Error or finalized (or the interval is not positive) |
| Reconcile.UndisturbedCommit | tools/k8s/patch.go:47-60 | undisturbed, the modified object is stored as it is; one that loses its last finalizer is gone and reported as an error |
| Reconcile.SecondReconcileWritesNothing | tools/k8s/reconcile.go:38-90 | a second call with the same answers leaves the stored object as it is and answers the same |
| Protocol.NextKeepsInv | tools/k8s/patch.go:47-56 | every step of worker, users, other controllers and world keeps the invariant: a committed non-zero configuration implies our finalizer or a full pass |
| Protocol.ReachableInv | controllers/cfapi/controller.go:97-142 | the invariant holds in every state of every run |
| Safety.GoneOnlyAfterFullPass | controllers/cfapi/controller.go:325-375 | over every run, once a non-zero configuration is committed the object, or our finalizer, can disappear only after a pass in which the whole uninstall order succeeded, and the configuration is never reset |
| Safety.ZeroTestIsExact | controllers/cfapi/controller.go:331-336 | over every run, the committed configuration is zero exactly if none was ever committed for this object |
| Safety.FinalizerGoneMeansClean | controllers/cfapi/controller.go:325-359 | over every run only the main patch takes our finalizer off; with a committed configuration, whatever others did before and do to anything else, as long as from some moment of rest on they bring back nothing that the pass in progress has found gone: every component of both orders is absent at that moment and no org remains, and nothing at all is left exactly if the Helm lookup hides no release |
| Ready.CommittedReadyIsBacked | controllers/cfapi/controller.go:132-158 | in every reachable state a stored Ready has its URL, both conditions True for one generation, and an install pass of one reconcile in which all succeeded for exactly the stored configuration; its observed generation is theirs exactly if it is not 0 |
| Ready.ReadyCommitMeansInPlace | controllers/cfapi/controller.go:132-141 | over every run, when a Ready status is stored every component is in place for exactly the configuration stored with it, whatever others did before, as long as from some moment of rest on they take nothing out of place that the pass in progress has put there |
| Runs.ObservedGenerationIsLost | tools/k8s/patch.go:47-56 | for every wiring, the run of deletions and recreations in the middle of two reconciles after which a stored Ready observes generation 0 |
| Solo.SoloBody | controllers/cfapi/controller.go:97-142 | the small steps of one undisturbed body give exactly the object and the world of ReconcileResource |
| Solo.SoloCommit | tools/k8s/patch.go:47-60 | the two patch steps of the protocol, with any others before each, store exactly what Reconcile commits |
| Runs.LeakHappens | controllers/cfapi/controller.go:331-336 | for every wiring, world, configuration and fault, the run create, install, main patch, crash, delete, finalize ends with the object gone and everything the install pass left still there |
| Runs.LeakHappensAsWired | main.go:135-160 | with the orders of the operator at least the system namespaces stay |
| Runs.FinalizeLeavesNothingIff | controllers/cfapi/controller.go:325-359 | a finalize that drops the finalizer leaves its order absent exactly if a configuration was committed or it was absent before, and leaves nothing at all exactly if moreover no release of it was hidden |
| Runs.FinalizerIsDropped | controllers/cfapi/controller.go:325-375 | for every wiring, world and fault: create, install, commit, delete, any number of passes that stop or break, each with its commit and whatever others do after it, and the first complete pass: then the main patch drops our finalizer with the whole order absent, and the run meets what FinalizerGoneMeansClean asks |
| Runs.EveryLifeEnds | controllers/cfapi/controller.go:325-375 | such a run ends within as many passes as there were live resources after the installation, plus one, if each stopping component loses something and others add nothing |
| Runs.FinalizerIsDroppedOnce | controllers/installable/yaml.go:67-99 | for one, a manifest with any document: installed, deleted by a first attempt, found gone by a second, and then the finalizer goes |
| Runs.RevivedOutlivesItsObject | controllers/cfapi/controller.go:325-359 | in every run whose next main patch drops our finalizer, others can put any world in place before it: the finalizer goes and that world stays |
| Runs.HiddenReleaseOutlivesItsObject | controllers/helm/client.go:150-171 | for every chart, and a release of it in any status that the lookup does not show: create, install, commit, delete and uninstall end with the finalizer gone and the release as it was |
| Convergence.ReadyReachedIff | tools/k8s/reconcile.go:38-90 | over repeated calls of Reconcile with a healthy cluster: Ready from the second call on, exactly if every enabled chart can be deployed and nothing of a disabled component is blocked; otherwise every call for ever asks for another |
| Convergence.ReadyStandsIff | controllers/installable/yaml.go:101-127 | a Ready ending leaves no object of an enabled manifest on its way out exactly if none was when the reconcile began |
| Convergence.ReadyOverDeletedObject | controllers/installable/yaml.go:101-127 | for one, over a held object that is being deleted a healthy reconcile ends Ready and the object still is on its way out |
| Convergence.SecondBodyChangesNothingIff | controllers/cfapi/controller.go:97-158 | after a Ready ending a second healthy body leaves the object as it is, and the world exactly if no enabled manifest contradicts itself and every enabled chart holds the values asked for |
| Convergence.ContradictoryManifestIsRewritten | controllers/installable/yaml.go:43-65 | for one, with a manifest that lists a key with two bodies a second body over a Ready ending changes the world |
| Termination.UninstallTerminates | controllers/cfapi/controller.go:361-375 | if each stopping component loses something and others add no more to the components than they take away, a complete pass comes within the number of live resources plus one, although every pass runs only a prefix |
| Termination.UninstallCompletesIff | controllers/cfapi/controller.go:361-375 | left alone with a healthy cluster, passes complete exactly if nothing is blocked, and never otherwise |
| Termination.HeldObjectBlocksForEver | controllers/installable/yaml.go:129-136 | for one, a manifest object that something holds keeps every pass from completing |
| Termination.DeletionTerminates | tools/k8s/reconcile.go:38-90 | over repeated calls of Reconcile, whatever the installables answer and whatever reads, patches and conversions fail: if each stopping component loses something and others add nothing, the finalizer goes at the first complete pass whose main patch is stored, before more main patches are stored than there were live resources, plus one; every call before it keeps the object and asks to be repeated, by an error exactly if its pass broke or a request failed |
| Termination.DeletionTerminatesSoon | tools/k8s/reconcile.go:38-90 | if all main patches are stored that is within the number of live resources plus one calls |
| Termination.DeletionEndsIff | tools/k8s/reconcile.go:46-53 | left alone with a healthy cluster: the finalizer goes within that many calls exactly if nothing is blocked, every call for ever asks for another otherwise, and no call before the end reports an error |
| Credentials.DecodeSecretKeys | components/btp-service-broker/btp/bindings/credentials.go:43-68 | the loop with its early exits is the specification Decoded, including which error it stops at |
| Credentials.DecodeBindingSecretData | components/btp-service-broker/btp/bindings/credentials.go:28-41 | the decoder is the specification DecodeBinding for every secret |
| Credentials.DecodeBindingMeans | components/btp-service-broker/btp/bindings/credentials.go:28-41 | exactly when a secret is decoded and to what object, and which error it ends with: no metadata entry, its text, its shape, or the first listing that cannot be read |
| Credentials.MetadataMeans | components/btp-service-broker/btp/bindings/credentials.go:9-16 | which documents are metadata, and their listings in order |
| Credentials.DecodeValueMeans | components/btp-service-broker/btp/bindings/credentials.go:46-63 | what each listed value is read as, and why it may not be |
| Credentials.DecodedMeans | components/btp-service-broker/btp/bindings/credentials.go:43-68 | success exactly if every listed property is present and readable; exactly the listed names, each with the value of its last listing |
| Credentials.OrderDoesNotMatter | components/btp-service-broker/btp/bindings/credentials.go:45-65 | with distinct names the order of the properties matters neither for success nor for the object |
| Credentials.UnlistedIgnored | components/btp-service-broker/btp/bindings/credentials.go:45-65 | entries that are not listed do not matter |
| Credentials.RoundTripIff | components/btp-service-broker/btp/bindings/credentials.go:18-21 | decoding what was encoded, in any order and with any further entries, gives the credentials back exactly if there is none called .metadata or it happens to be the metadata document itself |
| Credentials.RoundTrip | components/btp-service-broker/btp/bindings/credentials.go:18-21 | so without such a credential the round trip is the identity |
| Credentials.MetadataCredentialLost | components/btp-service-broker/btp/bindings/credentials.go:28-41 | for one, a number under that name comes back as the metadata document |
| Catalogue.GetPlanByID | components/btp-service-broker/btp/broker.go:178-189 | the loop returns the first plan with the id, and says that there is none exactly if no plan has it |
| Catalogue.GetOfferingByID | components/btp-service-broker/btp/broker.go:191-202 | the loop returns the first offering with the id, and says that there is none exactly if no offering has it |
| Catalogue.CatalogueError | components/btp-service-broker/btp/broker.go:59-131 | which error a failing catalogue reports: the offerings, the plans, then offering after offering its tags, its metadata, its plans in order, its permissions |
| Catalogue.PlansForInOrder | components/btp-service-broker/btp/broker.go:109-115 | the plans of an offering come in the order in which they are listed |
| Catalogue.CatalogueIsJoin | components/btp-service-broker/btp/broker.go:59-131 | the catalogue exists exactly if both lists were read and everything shown can be unmarshalled; one service per offering in order, with exactly its plans in order |
| Catalogue.CatalogueConservesPlans | components/btp-service-broker/btp/broker.go:59-115 | over all services every plan appears exactly as often as its offering is listed |
| Catalogue.DistinctOfferingsConservePlans | components/btp-service-broker/btp/broker.go:59-115 | with distinct offering ids the plans shown are, as a multiset, exactly those whose offering exists |
| Broker.PollsTheRightOperation | components/btp-service-broker/btp/broker.go:220-230 | the operation data of every request, whatever the id, leads its polls to the right operation, for instances and bindings |
| Broker.ResourceStore.CreateOrPatch | components/btp-service-broker/btp/broker.go:162-172 | creates, or merges the difference and moves the generation exactly if the stored spec changes |
| Broker.BTPBroker.Provision | components/btp-service-broker/btp/broker.go:144-176 | accepted exactly if plan and offering exist and the write succeeds; then the stored spec, otherwise the first error and nothing stored |
| Broker.BTPBroker.Deprovision | components/btp-service-broker/btp/broker.go:204-218 | the instance is marked or gone, and an absent one is no error |
| Broker.BTPBroker.Unbind | components/btp-service-broker/btp/broker.go:361-375 | the same for a binding |
| Broker.BTPBroker.Bind | components/btp-service-broker/btp/broker.go:308-343 | the stored binding and the answer, whatever operator and others do between the write and the poll and between the poll and the reading of the secret |
| Broker.BTPBroker.GetCredentials | components/btp-service-broker/btp/broker.go:345-359 | the decoded secret, or why there is none |
| BrokerRuns.NextKeepsInv | components/btp-service-broker/btp/broker.go:465-475 | every step keeps it: a success observed at the stored generation was reported by work that is finished on exactly the stored spec |
| BrokerFacts.SucceededIsCurrent | components/btp-service-broker/btp/broker.go:251-272 | over every run, "succeeded" is answered only if the operator has finished exactly the stored spec of exactly this resource |
| BrokerFacts.ResendKeepsEverything | components/btp-service-broker/btp/broker.go:162-175 | over every run, sending the last request again changes nothing stored and no answer |
| BrokerFacts.ChangeLosesSuccess | components/btp-service-broker/btp/broker.go:251-256 | after a request that changes the stored spec no poll answers "succeeded", whatever requests, deletions, recreations and other reports follow, until the operator reports success for the name |
| BrokerFacts.BindHandsOutRecentCredentials | components/btp-service-broker/btp/broker.go:308-343 | over every run: credentials handed out by Bind are those the operator produced for a version stored at some moment from the poll on, and, if nobody else writes or deletes the binding from the request to the reading of the secret, for the requested spec |
| BrokerFacts.CredentialsAreStoredIff | components/btp-service-broker/btp/broker.go:308-343 | over every run and whatever happens between the poll and the reading of the secret: credentials handed out by Bind are the decoded output of the operator, and that is of the version stored when the secret is read exactly if this is the version polled or the operator has finished it since |
| BrokerFacts.BindHandsOutOldCredentials | components/btp-service-broker/btp/broker.go:308-343 | for one, a request that changes the spec between the poll and the reading of the secret: Bind hands out the credentials of the former spec |
| BrokerFacts.FailureIsDescribedByItsOwnMessage | components/btp-service-broker/btp/broker.go:258-263 | over every run the description, taken from the unfiltered list, is that of the current failure |
| BrokerAnswers.CreatePollMeans | components/btp-service-broker/btp/broker.go:232-272 | over every run, exactly when a create poll answers not found, succeeded, failed with which message, in progress, or no state |
| BrokerAnswers.RemovePollMeans | components/btp-service-broker/btp/broker.go:274-306 | the same for a delete poll |
| BrokerAnswers.PollByData | components/btp-service-broker/btp/broker.go:220-230 | which operation data leads to which poll, for instances and bindings, and that any other is refused |
| BrokerAnswers.InstanceSpecMeans | components/btp-service-broker/btp/broker.go:162-170 | member by member what the instance says: offering name, plan name, plan id and parameters if there are any, and nothing else |
| BrokerAnswers.BindingSpecMeans | components/btp-service-broker/btp/broker.go:316-323 | the same for the binding: the instance, its own id as the secret, parameters |
| BrokerAnswers.SentMeans | components/btp-service-broker/btp/broker.go:162-172 | a new resource is a first generation without reports; of an existing one only the spec changes, to the one sent, and the generation exactly with it; other resources stay |
| BrokerAnswers.RemovedMeans | components/btp-service-broker/btp/broker.go:204-215 | what nobody holds goes, what the operator holds is marked once as a new generation; other resources stay |
| BrokerAnswers.BindMeans | components/btp-service-broker/btp/broker.go:325-342 | the answer of Bind for every answer of its poll, with the decoded secret or the reason why there is none, and the operation data |
| BrokerFacts.FirstPollsHaveNoState | components/btp-service-broker/btp/broker.go:265-271 | after a request for a new name every poll has no state, whatever else goes on, until the operator reports on it or it ends |
| BrokerFacts.FirstDeletePollsHaveNoState | components/btp-service-broker/btp/broker.go:293-306 | after the removal of a held resource every delete poll has no state until the operator reports on it or lets it go |
| BrokerFacts.DeletedMeansReleased | components/btp-service-broker/btp/broker.go:274-291 | over every run, a held resource that is removed stays stored and no delete poll answers "succeeded" until the operator lets it go; then the next one does |

## Left out

- The installables have no common trait: Dafny's traits are not used here, so an installable is a datatype with four constructors, and the theorems about it are by cases.
- Within the protocol one call of one installable is a single step; other actors move between calls, not within one.
- One clock reading is used for a whole reconcile body, and transition times are integers.
- Several workers and stale caches.
- The resource version, managed fields and the timestamps the API server keeps, and finalizers that an update of a manifest's object could drop.
- Helm itself: chart loading and action configuration. Which revision an upgrade starts from is an input, and so are the statuses its list action shows.
- Values providers (`controllers/installable/values`): the values of a chart are a function of the configuration that may fail.
- Registry, user, UAA and gateway lookups: inputs of the compilation, with their failures.
- File globbing and YAML parsing: a manifest is its list of documents, or the error of loading it.
- Message texts of results and events, except that the chosen message is carried through.
- `PatchResource`, `TryPatchResource`, and the copy of `patch.go` under `components`: single-patch variants of Patch.
- Broker methods that answer "not implemented".
- `controllerutil.CreateOrPatch` is one step; a spec written by somebody else in between is covered as a write before or after it. Admission plugins that rewrite a spec are not modelled.
- Case-insensitive matching of member names when Go unmarshals the metadata document; byte strings are character strings.
- The encoder is the one the comment of the decoder describes, strings as text and other values as JSON; its renaming of keys with spaces is not part of this model.
