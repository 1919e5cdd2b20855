# DeployGuard in Dafny

A model of the DeployGuard operator and proofs about it. `dafny verify dfyconfig.toml` checks
the whole project (Dafny 4.11).

Three protocols and one piece of generated code are modelled.

- **Certificate rotation** (`rotation/`). The rotator writes a new key pair to four places one
  after another: the Secret, `tls.crt`, `tls.key`, and the caBundle of every webhook. Any call
  may fail, the pod may be restarted between any two events with or without its disk, other
  controllers rewrite the webhook configuration, and TLS connections read the two files
  without a lock. `RotationMachine` is this as a small-step machine whose labels are the
  events; `RotationSafety`, `RotationTrust`, `RotationRepair`, `RotationExpiry` and
  `RotationCount` are the theorems over all its runs, for any certificate lifetime and renewal
  threshold (the last one for the code's 365 and 30 days); `Rotators` is the rotator in its own imperative form, every
  method of which is shown to take exactly the machine's steps.
- **Finalizer and status reconcile loop** (`controller/`). One key in the API server with its
  version history, a cache that lags, watch events, a deduplicating queue, users who create,
  edit and delete, and `Reconcile` cut at its read and its write. Same arrangement:
  `PolicyMachine`, `PolicyConvergence`, `PolicySafety`, and the imperative `Reconcilers`.
- **Admission** (`admission/`). The image reference scanner against the grammar, the rule
  loops, the evaluator, the denial message and its inverse, the handler with its deferred
  accounting, and an API server that calls it (`Cluster`).
- **Deep copies** (`deepcopy/`). The generated copy functions and what they share: nothing.

In the two imperative modules any call may fail and anybody may move between two calls, unless
the object is created as calm. What a method promises in calm surroundings shows that its
promises about success are not empty.

Each generated key pair carries the number of the `generateCert` call that made it. The number
stands for the key and certificate bytes; no decision of the code depends on it.

Where the code and its own comments differ, the model follows the code:

- rotator.go:79-80 says that a failed rotation is tried again at the next tick. A failure after
  the Secret write is not: `rotateIfNeeded` looks at the Secret only. `TickHealsIff` says
  exactly when a tick repairs, and `FailedRotationIsNotRetried` gives the failing runs.
- rotator.go:63 and 91 say that a valid certificate is ensured at start. Its date is not looked
  at: `StartServesUnexpiredIff`, `StartMayServeExpired`. An incomplete Secret is not noticed
  either: `EnsureRepairs`.
- rotator.go:254-258 describes a strategic merge patch. The code does Get and Update;
  `NoLostUpdate` shows that the resourceVersion check still loses no other writer's change.
- deploypolicy_controller.go:99-103 treats a failed status write as harmless. A conflict is;
  any other failure leaves the policy without Ready=True until something else happens to it:
  `CalmMeansSettledIff`, `DroppedStatusStays`.
- deploypolicy_types.go:35 and the CRD speak of requests and limits. Only requests are checked,
  and only of regular containers.

A certificate of 365 days of which 30 must be left suggests a renewal every 336 daily ticks.
But a certificate holds whole seconds, and time passes between its generation, the ticker and
the checks: it is every 335 or 336 ticks, as `RotatesEvery335Or336Days` says, and exactly 336
only under the condition of `RotatesEvery336DaysIff`.

Assumed of the surroundings, as parts of the machines: one active rotator, the only writer of
the Secret (others may delete it), with a Secret Get that is current or an error; a read of a
file that overlaps a write does not parse; `tls.LoadX509KeyPair` fails unless key and
certificate belong together; a caBundle accepts a self-signed certificate exactly if it is that
certificate; the API server accepts an update only of the stored version and
makes no version of an update that changes nothing; the informer cache shows versions in order
but may lag and skip; a work queue holds a key at most once and does not hand it out twice at
a time; `controllerutil` and `meta.SetStatusCondition` do what `PolicyObject` does. Which runes
above Latin-1 are printable (for `%q`) is a parameter: everything holds for every choice.

## Model

| member | source | states |
|---|---|---|
| RotationSafety.AlwaysOrdered | internal/certrotator/rotator.go:137-165 | in every reachable state, under failures, torn writes, crashes, disk loss and foreign overwrites that may put back any caBundle ever stored, the generations that are present and parse are ordered Secret >= tls.crt >= tls.key >= every caBundle ever written, and the Secret holds a matching pair |
| RotationSafety.LoadIsConsistent | internal/webhook/server.go:51-60 | for every run and every two moments of reading tls.crt and tls.key, a load that succeeds has one generation, not older than any caBundle written by either moment and not newer than the Secret |
| RotationSafety.NoLostUpdate | internal/certrotator/rotator.go:259-276 | in every run a change of the stored configuration is another writer's, or the version stored immediately before with only the caBundles replaced, however stale the read was |
| RotationSafety.InvNext | internal/certrotator/rotator.go:326-340 | every single event, wherever it strikes, keeps the ordering and the facts known at each program point, and no caBundle version disappears from the history |
| RotationTrust.TrustedIff | internal/certrotator/rotator.go:157-161 | for every run and every two moments of reading, the certificate of a load that succeeds equals every stored caBundle at the second read exactly if none is foreign or of an older generation |
| RotationTrust.TrustLostExactly | internal/certrotator/rotator.go:145-161 | in an undisturbed rotation from agreement, a successful load with its reads at any two moments is not trusted at its end exactly between the writing of the files and the Update, and a load at one moment fails exactly while the files are replaced |
| RotationTrust.TrustIsLost | internal/certrotator/rotator.go:152-161 | every rotation that is due passes through a moment at which a certificate is served that a stored caBundle does not accept |
| RotationTrust.StartedMeansTrusted | internal/certrotator/rotator.go:60-67 | a start that gets to its tick loop, however disturbed, has just made every caBundle the certificate of the one pair in the files |
| RotationTrust.ConflictIsAnError | internal/certrotator/rotator.go:271-273 | a conflicting Update changes nothing and ends a start, or a rotation |
| RotationTrust.SavedIff | internal/certrotator/rotator.go:301-324 | the Secret is written exactly if it is there for an Update or not there for a Create |
| RotationTrust.GetErrorMeansCreate | internal/certrotator/rotator.go:316-320 | after any error of the Get a Create follows, which saves the pair exactly if there is no Secret |
| RotationTrust.ErrorsArePassedOn | internal/certrotator/rotator.go:142-162 | every other call may fail, changes nothing then, and ends a start or a rotation |
| RotationTrust.GenuineNext | internal/certrotator/rotator.go:173-252 | every event keeps: two certificates of one generation, wherever they are, are one certificate |
| RotationRepair.EnsureRepairs | internal/certrotator/rotator.go:92-107 | an undisturbed ensureCert from any state installs the Secret's pair everywhere, and ends in agreement if and only if the Secret was absent or held one generateCert output |
| RotationRepair.RestartHeals | internal/certrotator/rotator.go:94-106 | from every reachable state an undisturbed start ends with Secret, both files and every caBundle at one generation |
| RotationRepair.StartServesUnexpiredIff | internal/certrotator/rotator.go:60-67 | that pair is unexpired exactly if the Secret was absent or its certificate had not expired |
| RotationRepair.RotateAllOrNothing | internal/certrotator/rotator.go:110-135 | an undisturbed rotateIfNeeded from any state changes no store because 30 days are left, or ends in agreement on a new generation |
| RotationRepair.TickHealsIff | internal/certrotator/rotator.go:76-82 | a tick restores agreement exactly if there was agreement or the guard for rotating holds at the moment of the check |
| RotationRepair.FailedRotationIsNotRetried | internal/certrotator/rotator.go:147-155 | from every reachable state with a due certificate (if new ones are not due at once) a failure after the Secret write leaves a reachable disagreement that the next tick does not touch |
| RotationRepair.RanksDown | internal/certrotator/rotator.go:137-165 | until an undisturbed operation returns it can take a successful step, and at most twelve of them |
| RotationRepair.StartMayServeExpired | internal/certrotator/rotator.go:94-103 | the other case exists: every reachable Secret is served expired by an undisturbed start after a long enough outage |
| RotationExpiry.NeverExpires | internal/certrotator/rotator.go:71-88 | in every run with any failures, crashes, restarts, disk losses and deletions that starts with the threshold left and keeps to a schedule costing no more than the margin, a stored certificate is valid at every moment |
| RotationExpiry.InvNext | internal/certrotator/rotator.go:110-150 | every event keeps what is left of the margin: a failed tick costs a period, a restart a period, a delay and an outage |
| RotationExpiry.NeverExpiresIff | internal/certrotator/rotator.go:128-132 | for every lifetime, threshold and schedule, no timely run from a reachable good start sees an expired certificate exactly if (patience + 1) periods, a delay, and a delay and an outage per restart fit into the threshold and into the lifetime less the fraction of a second cut off by the encoding |
| RotationExpiry.ExpiresBeforeRenewal | internal/certrotator/rotator.go:128-132 | otherwise a reachable run expires: here by failing ticks, restarts and a late tick from the threshold on |
| RotationExpiry.ExpiresAfterRenewal | internal/certrotator/rotator.go:213-214 | otherwise a reachable run expires: here after a renewal, if a whole lifetime is too short |
| RotationExpiry.NeverExpiresByKind | internal/certrotator/rotator.go:71-88 | without restarts the condition is (patience + 1) * period + delay, with restarts only and no outage (patience + 1) * (period + delay) |
| RotationExpiry.DailyTicker | internal/certrotator/rotator.go:71 | the 24h ticker survives 28 failing ticks exactly if the work takes at most a day, 29 exactly if it takes no time, and 28 failing ticks or restarts exactly if 29 delays and 28 outages fit into a day |
| RotationExpiry.TimedIsRun | internal/certrotator/rotator.go:74-88 | the timed runs are runs of the machine |
| RotationCount.RotatesEvery335Or336Days | internal/certrotator/rotator.go:71-88 | in every run of the 24h ticker without failures, with delays anywhere, the renewals after n ticks are between two bounds given by the time left at the start, after every tick 30 days are left, and renewals are 335 or 336 ticks apart, 335 exactly if that tick is checked later in its day than the whole second of the generation |
| RotationCount.FollowsRun | internal/certrotator/rotator.go:110-150 | the diary of a run (when each tick checked, and when it generated) explains the Secret, the number of generations and the ticks, with renewal exactly when less than 30 days were left |
| RotationCount.Interval | internal/certrotator/rotator.go:128-132 | no renewal for 334 ticks after one, then at the 335th or 336th, and which |
| RotationCount.FirstRenewal | internal/certrotator/rotator.go:128-132 | the first renewal is at the tick that is sure to find less than 30 days left or at the one before, and which |
| RotationCount.CountBetween | internal/certrotator/rotator.go:71-88 | the bounds on the count from both intervals |
| RotationCount.PunctualRuns | internal/certrotator/rotator.go:71-88 | if every tick is worked on the moment it is due, the count is an exact function of the time left, of whether the clock shows a whole second, and of n |
| RotationCount.RotatesEvery336DaysIff | internal/certrotator/rotator.go:213-214 | exactly floor(n / 336) renewals in all punctual runs if and only if the full 365 days are left when the ticker is started |
| RotationCount.PunctualRun | internal/certrotator/rotator.go:110-135 | punctual runs of every length exist |
| Rotators.Rotator.Start | internal/certrotator/rotator.go:60-89 | ensureCert, then one rotateIfNeeded per tick before the cancellation, errors dropped; the events are a run |
| Rotators.Rotator.EnsureCert | internal/certrotator/rotator.go:92-107 | if it succeeds, whatever happened meanwhile, both files hold what it installed and every stored caBundle is its CA; without a fault it succeeds with the Secret's pair, in agreement exactly if the Secret it found was absent or whole |
| Rotators.Rotator.RotateIfNeeded | internal/certrotator/rotator.go:110-135 | if it succeeds, whatever happened meanwhile, it wrote nothing or a new pair is served and trusted; without a fault it succeeds, and changes nothing or ends in agreement on a new generation |
| Rotators.Rotator.NeedsRotation | internal/certrotator/rotator.go:116-132 | true exactly for no block, no certificate, or less than 30 days left |
| Rotators.Rotator.GenerateAndSave | internal/certrotator/rotator.go:138-165 | Secret, files, configuration in this order, stopping at the first error; success means that a new pair is served and trusted |
| Rotators.Rotator.GenerateCert | internal/certrotator/rotator.go:173-252 | a matching pair of the next unused generation, valid from now for 365 days in whole seconds, whose CA is the certificate |
| Rotators.Rotator.LoadCertFromSecret | internal/certrotator/rotator.go:285-299 | the stored material, or nothing if there is none or the Get fails |
| Rotators.Rotator.SaveCertToSecret | internal/certrotator/rotator.go:301-324 | success means that the Secret holds the pair, and without a fault there is success |
| Rotators.Rotator.WriteCertToDisk | internal/certrotator/rotator.go:326-340 | directory, certificate, key, each step able to fail; success means that both files hold the pair |
| Rotators.Rotator.WriteFile | internal/certrotator/rotator.go:331-337 | truncation, partial and full content as separate events; success means full content, and the other file is untouched |
| Rotators.Rotator.PatchWebhookConfigs | internal/certrotator/rotator.go:259-276 | success means that every stored caBundle is the new one; without a fault there is success if there is a configuration |
| Rotators.Rotator.SetBundles | internal/certrotator/rotator.go:267-269 | the loop replaces the caBundle of every entry and nothing else |
| Rotators.Rotator.Update | internal/certrotator/rotator.go:271-273 | success means that the changed object is stored; without a fault there is success exactly if the version read is still the stored one |
| Rotators.GetCertificate | internal/webhook/server.go:51-60 | with anything happening between the two reads, a returned pair is of one generation, not older than any caBundle written and not newer than the Secret; unless a read overlaps a write, one is returned exactly if key and certificate match |
| PolicyConvergence.CalmMeansSettledIff | internal/controller/deploypolicy_controller.go:48-107 | with nothing pending and nothing running, the object is as Reconcile wants it exactly if no status write of the stored version was lost otherwise than by conflict |
| PolicyConvergence.SettledMeans | internal/controller/deploypolicy_controller.go:66-98 | as Reconcile wants it: deleting without our finalizer, or live with it and a Ready condition with status True, its reason and its message |
| PolicyConvergence.SetStatusConditionSets | internal/controller/deploypolicy_controller.go:152-160 | the first condition of the kind is set in place, with the new time exactly if its status changes, or appended with the time; no other changes |
| PolicyConvergence.Converged | internal/controller/deploypolicy_controller.go:97-106 | if status writes fail by conflict only, calm means: live with the finalizer and Ready=True, or deleting without our finalizer |
| PolicyConvergence.DroppedStatusStays | internal/controller/deploypolicy_controller.go:99-103 | otherwise it can be calm and not Ready, for every new policy |
| PolicyConvergence.InvNext | internal/controller/deploypolicy_controller.go:48-107 | every event keeps: a write in progress is the one its snapshot calls for, and an outdated snapshot has an event or queue entry outstanding |
| PolicyConvergence.FewWrites | internal/controller/deploypolicy_controller.go:72-80 | without outside edits, whatever fails, is stale, resynced or restarted (with an older list, too), at most two versions are made of a live policy and one of a deleting one, each being one of the writes still needed |
| PolicyConvergence.Quiesces | internal/controller/deploypolicy_controller.go:97-106 | a run without outside edits is no longer than a measure of its start plus five steps per failure |
| PolicyConvergence.StepMeasure | internal/controller/deploypolicy_controller.go:48-107 | every step that does not fail lowers the measure |
| PolicyConvergence.NotStuck | internal/controller/deploypolicy_controller.go:48-107 | until all is calm some step of the controller is possible |
| PolicyConvergence.MarkReadyMarks | internal/controller/deploypolicy_controller.go:152-160 | setting Ready is a fixpoint exactly if it is set already, time included, and touches no other condition |
| PolicyConvergence.OthersKept | internal/controller/deploypolicy_controller.go:73-119 | adding and removing our finalizer keep the others and their order |
| PolicySafety.LeavesOnlyByRemoval | internal/controller/deploypolicy_controller.go:111-125 | in every run in which nobody else touches our finalizer, a persisted finalizer and its object go only by a handleDeletion write of the stored, deleting version |
| PolicySafety.NeverAddedBack | internal/controller/deploypolicy_controller.go:66-80 | in every run, after deletionTimestamp is set it stays set and an absent finalizer of ours never comes back, not even from a stale snapshot |
| PolicySafety.WritesAreNarrow | internal/controller/deploypolicy_controller.go:72-125 | a write of the controller leaves the version stored just before as it is except for our finalizer and the Ready condition, and makes only a deleting object without other finalizers go |
| Reconcilers.Reconciler.Reconcile | internal/controller/deploypolicy_controller.go:48-107 | its read and its write are the machine's steps; an error is returned exactly when the machine retries; undisturbed, the stored object afterwards is the former one with our finalizer removed, or added, or with Ready=True reported |
| Reconcilers.Reconciler.HandleDeletion | internal/controller/deploypolicy_controller.go:111-125 | the write is the machine's removal |
| Reconcilers.Reconciler.Send | internal/controller/deploypolicy_controller.go:76-103 | Update and Status().Update with conflict, lost request and lost answer; only the former's error is returned |
| Reconcilers.Reconciler.Work | internal/controller/deploypolicy_controller.go:42-48 | one turn of the worker; if nothing is pending after it, the object is settled unless a status write was lost |
| Reconcilers.PolicyObject.SetCondition | internal/controller/deploypolicy_controller.go:152-160 | the in-place change is SetStatusCondition: the time moves only with the status |
| Reconcilers.PolicyObject.RemoveFinalizer | internal/controller/deploypolicy_controller.go:119 | every occurrence of ours goes, the others stay in order |
| ImageReference.VerdictOnReferences | internal/rules/block_latest_tag.go:49-80 | every reference printed from host, port, path, tag and digest is blocked exactly if it has no digest and its tag is absent or latest |
| ImageReference.BlockedIff | internal/rules/block_latest_tag.go:57-79 | which strings are blocked, stated without scanning, for all strings |
| ImageReference.PrefixIsIrrelevant | internal/rules/block_latest_tag.go:62-68 | a prefix without @ up to a slash never changes the verdict, for all strings |
| Rules.Distributes | internal/rules/require_resources.go:24-28 | the violations that a rule returns for a + b are those it returns for a, and then those it returns for b with the same messages and every index shifted by the length of a |
| Rules.FindingsShift | internal/rules/block_latest_tag.go:25-38 | containers numbered from k further on give the same findings, shifted by k |
| Rules.ResourcesFindings | internal/rules/require_resources.go:33-61 | a finding is reported exactly for no requests at all, for a missing cpu, or for a missing memory, with the container and its index |
| Rules.LatestTagFindings | internal/rules/block_latest_tag.go:25-38 | a finding is reported exactly for each container whose image is blocked |
| Rules.ProbeFindings | internal/rules/require_readiness.go:24-37 | a finding is reported exactly for each container without a readiness probe |
| Rules.Texts | internal/rules/require_resources.go:37-57 | the path and the message of each kind of finding |
| Rules.CheckContainer | internal/rules/require_resources.go:33-61 | none, one or two violations, with the early return, each naming what is missing |
| Rules.RequireResourcesEvaluate | internal/rules/require_resources.go:19-29 | the loop returns the rule's findings in order |
| Rules.BlockLatestTagEvaluate | internal/rules/block_latest_tag.go:22-39 | the loop returns the rule's findings in order |
| Rules.RequireReadinessProbeEvaluate | internal/rules/require_readiness.go:21-38 | the loop returns the rule's findings in order |
| Evaluator.ReportNames | internal/policy/evaluator.go:36-103 | what is in a report: exactly what each enabled rule asks for and a container does not have |
| Evaluator.AdmittedIffCompliant | internal/policy/evaluator.go:66-103 | the list is empty exactly if every container meets every enabled rule |
| Evaluator.AtMostFour | internal/policy/evaluator.go:66-103 | at most four violations name one container |
| Evaluator.FieldsDistinct | internal/rules/require_resources.go:37-57 | all Field strings of one list are distinct |
| Evaluator.MoreRulesMoreFindings | internal/policy/evaluator.go:36-59 | enabling more rules yields a list with the old one as a subsequence |
| Evaluator.EmptyIffComplies | internal/rules/require_readiness.go:24-35 | one rule finds nothing exactly if every container complies |
| Denial.FormatViolations | internal/webhook/validate.go:190-199 | the builder loop yields the title and one numbered line per violation |
| Denial.OneViolationText | internal/webhook/validate.go:190-199 | the message for one violation, letter by letter |
| Denial.FormatRoundTrip | internal/webhook/validate.go:190-199 | reading the message back gives 1 + n lines: the title with the number n, and the i-th with number i, Field and Message of violation i |
| Denial.DenialRoundTrip | internal/webhook/validate.go:162-167 | this holds of every list that Evaluate can return, whatever the names and images contain |
| Text.QuoteRoundTrip | internal/rules/block_latest_tag.go:29-33 | a %q-quoted string gives back every code point |
| Text.QuotePlain | internal/rules/block_latest_tag.go:29-33 | printable runes other than quote and backslash stand for themselves |
| Text.QuoteIsShown | internal/rules/block_latest_tag.go:29-33 | everything in a %q-quoted string is printable |
| Text.QuoteIsOneLine | internal/rules/block_latest_tag.go:29-33 | a %q-quoted string has no newline |
| Text.NoLeadingZero | internal/webhook/validate.go:195 | %d has no leading zero |
| Text.DecRoundTrip | internal/webhook/validate.go:195 | %d of a number reads back as the number |
| Handler.PolicyEvaluator.constructor | internal/policy/evaluator.go:36-59 | the active rules are the enabled ones in order, none without a policy |
| Handler.PolicyEvaluator.Evaluate | internal/policy/evaluator.go:66-103 | all findings rule by rule, and one counter series raised per rule that found something |
| Handler.PolicyEvaluator.HasRules | internal/policy/evaluator.go:107-109 | whether there is any Deployment that Evaluate finds fault with |
| Handler.Decide | internal/webhook/validate.go:83-168 | reply, decision and the labels the deferred function sees, on every path including the nil request |
| Handler.HandleValidate | internal/webhook/validate.go:44-168 | the reply, and the metrics after the deferred accounting, on every path |
| Handler.AllowedIff | internal/webhook/validate.go:120-167 | allowed exactly if the object decodes and List failed, no policy exists, or the first policy is met; every answer has its request's uid |
| Handler.DenialTellsAll | internal/webhook/validate.go:162-167 | a denial by policy gives back every violation in order |
| Handler.Conserved | internal/webhook/validate.go:62-77 | over every sequence of requests: total, deny, allow plus fail-opens, errors, and violations counted equal what was answered and returned |
| Handler.ReplyByBody | internal/webhook/validate.go:83-120 | an unreadable body or a bad review is a bad request, a review without request an aborted connection, and an object that does not decode is denied with its message |
| Handler.EveryQuery | internal/webhook/validate.go:66-72 | any selection of attributes counts exactly the requests that carry them |
| Handler.EveryLabel | internal/webhook/validate.go:62-72 | each series of the request counter goes up by the requests whose body has its namespace and operation and whose reply stands for its decision |
| Handler.EveryViolationLabel | internal/policy/evaluator.go:91-96 | each series of the violation counter goes up by what its rule found in Deployments of its namespace |
| Handler.ConservedByRule | internal/policy/evaluator.go:91-96 | the series of a rule add up to the violations of that rule returned |
| Handler.DurationsAgree | internal/webhook/validate.go:73-76 | the duration histogram counts each decision as often as the request counter |
| Metrics.SumAdd | internal/policy/evaluator.go:92 | counting raises exactly the selections that contain the series |
| Cluster.StoredIffInOrder | config/webhook/webhookconfig.yaml:45-82 | with this selector and failurePolicy Fail a write is stored exactly if the namespace is not selected, or the handler was reached and List failed or showed no policy or a first policy that is met |
| Cluster.SelectedIff | config/webhook/webhookconfig.yaml:45-82 | a namespace is selected exactly if it is labelled enforce=enabled and not named as one of the four system namespaces |
| Cluster.VerdictByLabels | config/webhook/webhookconfig.yaml:45-82 | the same from the values of the two labels |
| Cluster.EveryStoredDeployment | internal/webhook/validate.go:122-186 | in every run the containers of every stored Deployment come from a write that was in order when admitted, or were there at the start |
| DeepCopy.DeployPolicy.DeepCopyInto | api/v1alpha1/zz_generated.deepcopy.go:29-51 | equal, nil and empty kept apart, with conditions of its own; into itself, all conditions are blanked |
| DeepCopy.DeepCopyPolicy | api/v1alpha1/zz_generated.deepcopy.go:20-27 | nil stays nil, anything else becomes a fresh equal object |
| DeepCopy.DeployPolicyList.DeepCopyInto | api/v1alpha1/zz_generated.deepcopy.go:69-80 | equal item by item; items and conditions are all new and no two items share any, even if the original's did; into itself, as many zero items are left |
| DeepCopy.DeepCopyList | api/v1alpha1/zz_generated.deepcopy.go:60-67 | nil stays nil, anything else becomes a fresh list with the same promise |
| DeepCopy.ChangeCopy | api/v1alpha1/zz_generated.deepcopy.go:42-51 | a write to any condition of one copied item is seen by no original and no other item |
| DeepCopy.ChangeOriginal | api/v1alpha1/zz_generated.deepcopy.go:42-51 | a write to any condition of the original is not seen by a copy made before |

## Left out

- Cryptography, PEM and x509 encoding: a blob decodes to a certificate, a key or nothing; the two clock readings of a certificate's validity are one.
- Several rotators at once: leader election admits one; a failover is a crash with loss of the disk.
- A stale Secret read: Get of the Secret answers currently or with an error.
- The error branch after reconcilePolicy: that function never fails, so the branch is never taken.
- Several DeployPolicy keys: they share no state in Reconcile, so one key is modelled.
- observedGeneration of a condition: Reconcile leaves it zero and the CRD schema does not store it.
- HTTP, JSON, routing, logging, tracing and exporters: a request is unreadable, no review, a review without request, or a review whose object decodes or not; a reply that gets lost is an unreachable handler.
- ObjectMeta and ListMeta in deep copies: a library copies them, and what it makes of them in a copy of an object into itself is not stated; a slice of structs is a sequence of objects, and a slice is a whole array, not a window of one.
- TypeMeta and status code of a reply: constants.
- DeepCopyObject: it only wraps DeepCopy in an interface.
- Init containers, limits, RBAC, network policies, Terraform and monitoring.
