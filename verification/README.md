# Verification of the trusted deployment protocol

This project models the safety-critical logic of the bootstrap-infrastructure
repository in Dafny and proves what it is for. `dafny verify dfyconfig.toml`
checks all of it.

**Central deployment protocol.** `Schedule`, `Scopes`, `Contract`, `Barriers`,
`PinnedComparison`, `JobGraph`, `JobOrder`, `JobListings`, `Promotion`,
`Publication`, `Emitter`, `Codec`. A snapshot of
changed files is classified into scopes and frozen into a contract with a serial
schedule. Workers produce receipts, receipts reduce to a TEST and then a PROD
barrier, barriers and job timings become a proof, and the proof is published over
an unreliable API. `Promotion` is the protocol as a state machine: workers finish
in any order, under any contract, and anybody may upload artifacts. Safety and
completeness are proved over all runs; which job listings a proof accepts is stated
of the listing itself, in both directions. `Emitter` is a class with a ghost log whose
writes may fail, take effect unseen, or succeed.

**Operator plan validation.** `Properties`, `PlanRules`, `Checkpoint`, `PlanPreview`
model the validator; `PlanRuns` proves what every sequence of accepted plans keeps,
each applied to the checkpoint the one before it left; `PlanDrift` proves what an
accepted preview tells about its plan. Some of it is visible in no single rule: the lifecycle
table lets a plan delete an IAM policy, yet only the first plan of a run can
(`PlanRuns.PoliciesStay`), and one preview cannot belong to two plans that differ in
more than secrets (`PlanDrift.PreviewDeterminesPlan`).

**Sealed plans.** `Base64`, `Diagnostics`, `Envelope`, `Replay`: canonical base64,
size bounds and bounded capture, sealing under an ideal KMS and cipher, and
at-most-once replay over interleaved previews, applies and foreign writes.

**Convergent controls.** `Ruleset` proves a hardening transformation against the
verifier written beside it; `BranchPolicies` reconciles server state, also when a
run fails halfway; `Enrollment` paginates; `Alerts` acknowledges, groups and
fingerprints; `StackIndex` finds what protects a bucket elsewhere in its stack.

`JsonValues` is parsed JSON, `Sorting` the order of text, `Wrappers` what everything
shares.

Ideal assumptions: SHA-256 over canonical JSON is a term holding the hashed
document or, for alerts, an injective function; parsing reads back what canonical
JSON wrote; timestamps are integers; the order of stacks is an arbitrary sequence
without repetitions rather than the three installed names. What other code
decides (authenticity of collected facts, live rechecks, the per-type field shapes
of resources, JSON text parsing) is a parameter, so theorems hold for every answer.

Where the repository's own words and its code disagree, the model follows the code:

- A contract is said to be valid after admission. It is not when the pinned
  trust-cutover comparison is seen with a record count other than its path count,
  as a rename between two of its five paths does
  (`PinnedComparison.RenameDefeatsReselection`, `Contract.BuiltContractsValidate`).
- Hardened pull-request rules are said to preserve stronger review counts and to
  satisfy the verifier. A count above one that is not written as an integer is
  preserved and then reported (`Ruleset.NonIntegerCountIsReported`,
  `Ruleset.PayloadMeetsVerifier`), and of several pull-request rules an earlier, stricter one is lost
  (`Ruleset.EarlierReviewsAreLost`, `Ruleset.ReviewsAreNotLowered`).

## Model

| member | source | states |
|---|---|---|
| Schedule.DeploymentSchedule | scripts/deployment_schedule.py:40-64 | the triple loop with its running predecessor builds exactly the specified schedule of an accepted request and rejects every other request |
| Schedule.ScheduleOrder | scripts/deployment_schedule.py:52-64 | of any two steps the earlier is in an earlier account, or an earlier scope of the account, or is an earlier operation of the same node; nodes never interleave |
| Schedule.Predecessors | scripts/deployment_schedule.py:52-64 | every step but the first waits for exactly the step before it |
| Schedule.KeysAreInjective | scripts/deployment_schedule.py:52-64 | a key determines environment, scope and operation, whatever the scope name contains |
| Schedule.ScheduleKeysAreDistinct | scripts/deployment_schedule.py:40-64 | no two steps share a key, so a predecessor names one step |
| Schedule.ScheduledOperations | scripts/deployment_schedule.py:40-64 | a selected scope gets exactly its command's operations, in order, in each target account; nothing else is scheduled |
| JobGraph.CompleteJobs | scripts/deployment_receipt_runtime.py:112-166 | collection accepts exactly when every page the first count calls for repeats that count, is full, and all jobs are of this run attempt with distinct IDs; it then returns all pages |
| JobGraph.AcceptedJobsAreDistinct | scripts/deployment_receipt_runtime.py:151-166 | an accepted answer has exactly `total_count` different job IDs, all of this run |
| JobGraph.FixedListing | scripts/deployment_receipt_runtime.py:151-166 | on any fixed list of 1 to 500 distinct jobs collection succeeds and returns that list |
| JobOrder.SelectEvidence | scripts/deployment_promotion_proof.py:156-194 | evidence is selected exactly when every expected job name occurs once, completed and successful |
| JobOrder.VerifyJobGraph | scripts/deployment_promotion_proof.py:181-194 | the graph is accepted exactly when evidence can be selected and its timing checks hold |
| JobOrder.ChecksAreExact | scripts/deployment_promotion_proof.py:197-279 | the timing checks, which compare only adjacent scopes and fixed barriers, hold if and only if every pair of the full precedence relation is honoured |
| JobOrder.PrecedenceIsAStrictOrder | scripts/deployment_promotion_proof.py:197-279 | that precedence relation is irreflexive and transitive |
| JobOrder.LinearExtension | scripts/deployment_promotion_proof.py:197-279 | for every two steps i < j of the schedule, also in non-adjacent scopes and across accounts, the job of step i ended no later than the job of step j started |
| Scopes.SnapshotPaths | scripts/deployment_scopes.py:169-234 | the loop over the records accepts exactly sound snapshots and returns the touched paths sorted |
| Scopes.SelectAccepts | scripts/deployment_scopes.py:352-398 | selection succeeds exactly when the snapshot is sound and every touched path, renamed sources included, is classified |
| Scopes.SelectedStacks | scripts/deployment_scopes.py:368-398 | a stack is selected exactly when some touched path needs it |
| Scopes.ReselectReproduces | scripts/deployment_scopes.py:340-398 | selecting again from the reasons as plain modifications gives the same selection if and only if the snapshot was not the pinned comparison seen with a record count other than its path count |
| PinnedComparison.RenameDefeatsReselection | scripts/deployment_scopes.py:22-37 | the concrete failing input: the installed pinned base, head and five paths, shown as four records one of which is a rename between two of the paths; whatever classifies the five paths, selection succeeds and selecting again does not give the same |
| Sorting.SortSet | scripts/deployment_scopes.py:209-234 | a sorted set lists its members once, ascending by code point |
| Contract.SelectionSchedules | scripts/deployment_controller.py:192-251 | an admitted selection is canonical, so it always has a schedule |
| Contract.BuiltContractsValidate | scripts/deployment_controller.py:192-314 | every contract that is built is accepted by every later revalidation, except exactly the miscounted pinned comparison |
| Contract.ValidContractsAreBuilt | scripts/deployment_controller.py:254-314 | a contract is valid if and only if admission would build it again from its own contents |
| Contract.ContractDigestBinds | scripts/deployment_controller.py:129-141 | valid contracts that share a digest are the same contract |
| Barriers.ReceiptsAreBuilt | scripts/deployment_worker_receipt.py:33-66 | a receipt is built exactly when the node is scheduled and its five results are what the command asks, and lists exactly the scheduled operations as successful |
| Barriers.CollectDigests | scripts/deployment_controller.py:377-421 | the reduction loop accepts exactly when every scope did what its selection calls for, and collects the receipt digests in dependency order |
| Barriers.ReduceAccountBarrier | scripts/deployment_controller.py:377-421 | the reduction accepts exactly when contract, account, predecessor and every scope's result and receipt are right, and its barrier names receipts in dependency order and TEST's digest |
| Barriers.TestBarriersAreAccepted | scripts/deployment_controller.py:324-349 | a reduced TEST barrier passes the check PROD makes of it |
| Barriers.BarrierDigestBinds | scripts/deployment_controller.py:377-421 | equal barrier digests mean the same contract, account, results, receipts and TEST barrier |
| Promotion.ReadyMeansPassed | scripts/deployment_receipt_runtime.py:169-235 | under any history the root can authenticate a node exactly when a worker of the same contract reported its results as required, or the unselected node was skipped |
| Promotion.TestBarrierMeansPassed | scripts/deployment_account_barrier.py:75-145 | TEST reduces exactly when the run was admitted, the contract is valid and every node of the account passed |
| Promotion.ProdBarrierMeansPassed | scripts/deployment_account_barrier.py:118-145 | PROD reduces exactly when it was requested, both accounts passed and the published TEST barrier is the one its receipts give |
| Promotion.StepIsSound | scripts/deployment_account_barrier.py:75-145 | every action keeps the invariant and only extends what was recorded |
| Promotion.ReachableIsSound | scripts/deployment_account_barrier.py:75-145 | every reachable world is sound, whatever order workers finish in and whatever is uploaded |
| Promotion.BarriersAreSafe | scripts/deployment_account_barrier.py:118-145 | in every run a barrier means all its scheduled steps succeeded under the run's contract, and a PROD barrier means that of both accounts and names TEST's barrier |
| Promotion.ProofsAreSafe | scripts/deployment_promotion_proof.py:282-330 | in every run a proof exists only for a non-empty PROD apply with both barriers and with job timing that extends the schedule |
| JobListings.AcceptedMeansTimely | scripts/deployment_promotion_proof.py:156-279 | a job listing is accepted if and only if it shows every expected job once, successful, and times every two of them as the precedence asks |
| JobListings.SerialListingIsAccepted | scripts/deployment_promotion_proof.py:156-279 | the jobs of a run that executes them one after another are an accepted listing, for every selection of different scopes |
| Promotion.PassedRunsPromote | scripts/deployment_promotion_proof.py:282-330 | once every node passed both reductions succeed, and the proof is built if and only if the listing shows every expected job once, successful and in order |
| Promotion.SuccessfulRunsPromote | scripts/deployment_promotion_proof.py:282-330 | an all-success run in schedule order always reaches both barriers, and a proof if and only if its jobs are so listed |
| Promotion.SerialRunsPromote | scripts/deployment_promotion_proof.py:282-330 | an all-success run in schedule order whose jobs ran one after another ends in a proof, with nothing assumed of the listing |
| Publication.RevalidatedMeansPassed | scripts/deployment_promotion_publication.py:79-157 | requests exist only if both accounts' steps succeeded under one contract; they are for separate accounts at its head commit |
| Emitter.Read | scripts/deployment_promotion_emitter.py:119-126 | a read returns what the server holds or gives up after its attempts |
| Emitter.Pages | scripts/deployment_promotion_emitter.py:240-251 | an accepted listing is the server's whole list and is shorter than all pages |
| Emitter.Server.FindDeployment | scripts/deployment_promotion_emitter.py:254-261 | the only row with the request's evidence, or none; two are ambiguous |
| Emitter.Server.EnsureDeployment | scripts/deployment_promotion_emitter.py:275-292 | at most one write, only when no row matched before; on success the one matching row is stored as asked and reads back under its ID |
| Emitter.Server.EnsureStatus | scripts/deployment_promotion_emitter.py:322-348 | an already correct latest status is kept without a write; otherwise at most one write, read back; on success the latest status is the one asked for |
| Emitter.GrownKeeps | scripts/deployment_promotion_emitter.py:275-292 | a deployment write for one account never disturbs another account's and never makes a second match |
| Emitter.Server.PublishAccounts | scripts/deployment_promotion_emitter.py:407-413 | over all accounts: at most one write per deployment and per status, none if all are published, and no request gains a second deployment |
| Emitter.Server.ConfirmAccounts | scripts/deployment_promotion_emitter.py:414-422 | success means each deployment and then its latest status were read back as asked; nothing is written |
| Emitter.Server.Publish | scripts/deployment_promotion_emitter.py:351-436 | at most one write per deployment and per status; no commit status before every account was read back; success means everything asked for is stored; publishing what is published writes nothing |
| Properties.DiffsReachEverything | scripts/operator_plan_validation.py:414-438 | every change of one property map into another has an accepted diff that makes it |
| Properties.DiffsAreExact | scripts/operator_plan_validation.py:414-438 | an accepted diff's deletions and additions are exactly the key difference, and whatever else changed is an update |
| Properties.SameIsEqualElsewhere | scripts/operator_plan_validation.py:1110-1121 | outside four kinds the comparison is equality |
| Properties.SameExclusive | scripts/operator_plan_validation.py:1110-1121 | for an exclusive set it is equality of the listed set and of everything else |
| Properties.ProjectionHidesOnlySecrets | scripts/operator_plan_validation.py:138-162 | two values free of secrets that look alike in the preview are the same value, at any depth |
| PlanRules.StrippingIsHarmless | scripts/operator_plan_validation.py:1168-1182 | dropping the redundant empty-defaults addition gives the same inputs, and fails exactly when the whole diff does |
| Checkpoint.OwnIsAgreement | scripts/operator_plan_validation.py:795-818 | one step of the owner fold accepts exactly the rows that agree with every row before |
| Checkpoint.Collect | scripts/operator_plan_validation.py:862-873 | the loop over the rows accepts exactly coherent checkpoints and returns their inventory |
| Checkpoint.ReadCheckpoint | scripts/operator_plan_validation.py:821-881 | a checkpoint is read exactly when its URNs are distinct and the inventory is admitted |
| Checkpoint.OrderIsIrrelevant | scripts/operator_plan_validation.py:862-881 | the order of the rows does not matter |
| Checkpoint.AgreementIsOneManager | scripts/operator_plan_validation.py:795-818 | pairwise agreement is: per physical resource all rows name one target, at most one manages it, and only a writable role is both managed and referenced |
| PlanPreview.PreviewSteps | scripts/operator_plan_validation.py:1315-1354 | the loop accepts exactly well-formed listings without repeated operations whose summary is the histogram of counted steps, and groups the steps by resource |
| PlanPreview.ReadGoals | scripts/operator_plan_validation.py:87-92 | a plan with a repeated member is refused |
| PlanPreview.ValidateResources | scripts/operator_plan_validation.py:1641-1674 | the loop over the goals accepts exactly when every goal, every unplanned reference and the resulting inventory are accepted |
| PlanPreview.ValidatePlan | scripts/operator_plan_validation.py:1677-1727 | the whole validation accepts exactly when checkpoint, goals, listing and all cross-checks between them are accepted, and returns exactly the resources the plan changes |
| PlanRuns.PermanentSurvives | scripts/operator_plan_validation.py:942-990 | one accepted operation on a resource of a permanent kind keeps it, its ownership, its target and every input no plan may rewrite |
| PlanRuns.NothingPermanentAppears | scripts/operator_plan_validation.py:942-963 | nothing of a permanent kind is created |
| PlanRuns.RunKeeps | scripts/operator_plan_validation.py:942-990 | over any run of accepted plans no role, secret, identity or AWS provider, exclusive set or component appears or disappears, and each keeps ownership, ID, target and fixed inputs; unwritable ones keep all inputs; references are untouched |
| PlanRuns.RunsEnforce | scripts/operator_plan_validation.py:1040-1058 | after any plan every managed row carries its controls, every AWS provider is hardened, and no target has two managed owners |
| PlanRuns.PlanLeavesOneOwner | scripts/operator_plan_validation.py:1582-1638 | an accepted plan leaves at most one managed owner per target; only a writable role shares one with a reference |
| PlanRuns.ProtectedStays | scripts/operator_plan_validation.py:942-963 | over any run a protected resource is never deleted and keeps its ownership |
| PlanRuns.PoliciesStay | scripts/operator_plan_validation.py:942-963 | although a plan may delete an IAM policy, only the first plan of a run can |
| PlanRuns.ProvidersStay | scripts/operator_plan_validation.py:667-697 | from the first plan on provider settings never change again |
| PlanRuns.GuardsStay | scripts/operator_plan_validation.py:924-939 | every later checkpoint gives a managed role the catalog boundary and frozen trust; once its attachments are managed they stay so, with all guards and below the ceiling |
| PlanRuns.FullInventoryStays | scripts/operator_plan_validation.py:1040-1107 | from the first plan on the exclusive set lists the full inventory of the same role |
| PlanRuns.SharedRolesAreOriginal | scripts/operator_plan_validation.py:1582-1624 | a managed role that shares its target with a reference was managed all along |
| PlanDrift.SummaryCountsThePlan | scripts/operator_plan_validation.py:1315-1354 | the summary of an accepted preview counts, for every operation, exactly the resources the plan puts through it |
| PlanDrift.NoChangeKeepsInventory | scripts/operator_plan_validation.py:1641-1674 | an accepted plan without changes wants exactly the managed resources of the checkpoint as they are, up to bridge metadata and attachment order |
| PlanDrift.RefreshesFindNoDrift | scripts/operator_plan_validation.py:1503-1535 | every refresh shown found the recorded outputs, secrets aside |
| PlanDrift.DriftIsSound | scripts/operator_plan_validation.py:1677-1727 | an accepted plan without changes counts only unchanged resources, one for each managed one that is shown |
| PlanDrift.PreviewDeterminesPlan | scripts/operator_plan_validation.py:1457-1579 | two plans accepted with one preview on one checkpoint agree on operations, ownership and inputs up to secrets, for every resource shown |
| Base64.DecodingInvertsEncoding | scripts/operator_plan_envelope.py:230-240 | decoding the encoding gives the bytes back |
| Base64.DecodeAcceptsExactlyCanonical | scripts/operator_plan_envelope.py:230-240 | exactly the canonical text of bytes within the bounds is accepted |
| Base64.DecodeIsInjective | scripts/operator_plan_envelope.py:230-240 | no two texts decode to the same bytes |
| Diagnostics.DiagnosticCapture.Append | scripts/operator_execution_transport.py:63-73 | the capture stays the exact prefix of its stream, flagged if and only if there was more |
| Diagnostics.DiagnosticCapture.Drain | scripts/operator_execution_transport.py:164-192 | however the streams are cut and interleaved, the capture depends only on their contents |
| Diagnostics.CapturedPayloadsAreAccepted | scripts/operator_execution_runtime.py:310-346 | whatever failed, at whatever stage, with whatever exit code or message, and whatever the streams produced: the payload made of it is accepted |
| Diagnostics.WholeIsLongest | scripts/operator_execution_runtime.py:324-330 | the truncated reason is the longest prefix of the message that fits the bound in UTF-8 |
| Diagnostics.AcceptedFieldsFit | scripts/operator_plan_envelope.py:396-430 | a payload with fields in bounds is within 45 MiB: that check never fires |
| Diagnostics.PlansFit | scripts/operator_plan_envelope.py:278-294 | a plan of at most 32 MiB seals within 48 MiB |
| Diagnostics.DiagnosticsFit | scripts/operator_plan_envelope.py:466-483 | an accepted payload seals within 61 MiB |
| Envelope.BindingsBind | scripts/operator_plan_envelope.py:182-222 | a binding pins the whole contract and execution, the checkpoint version included |
| Envelope.PlansOpenOnlyWhereSealed | scripts/operator_plan_envelope.py:255-345 | a sealed plan opens, to itself, for exactly the contract and execution it was sealed for |
| Envelope.DiagnosticsOpenOnlyWhereSealed | scripts/operator_plan_envelope.py:444-539 | a sealed diagnostic opens, to itself, for exactly the contract and execution it was sealed for |
| Envelope.OpenedWasSealed | scripts/operator_plan_envelope.py:297-345 | whatever an envelope was assembled from, a ciphertext that opens was sealed as a plan under this binding |
| Envelope.AadsDiffer | scripts/operator_plan_envelope.py:433-441 | the two kinds authenticate different member sets, and a plan's authenticated members pin its binding and wrapped key |
| Envelope.DiagnosticsAreNotPlans | scripts/operator_plan_envelope.py:433-441 | because of those members a sealed diagnostic never opens as a plan, even in a rewritten envelope; both plaintexts are plain bytes |
| Envelope.PlansAreNotDiagnostics | scripts/operator_plan_envelope.py:486-539 | because of those members a sealed plan never opens as a diagnostic |
| Replay.BundlesUnpack | scripts/operator_execution_runtime.py:471-491 | the three byte strings bundled as base64 members of one JSON object are what is unbundled |
| Replay.AlwaysRight | scripts/operator_execution_runtime.py:545-638 | in every interleaving each sealed blob is a recorded sealing, each opened bundle was computed for its process's contract and snapshot, and no two applies were at one version |
| Replay.AppliedWhereComputed | scripts/operator_execution_runtime.py:545-638 | in every interleaving what is applied was previewed and sealed under the same contract on exactly the checkpoint version it is applied to |
| Replay.AppliedAtMostOnce | scripts/operator_execution_runtime.py:545-638 | no sealed plan, nor two plans of one checkpoint version, is ever applied twice |
| Ruleset.DeduplicateCentralChecks | scripts/_github_repository_controls.py:191-199 | the loop keeps first occurrences and refuses differing duplicates |
| Ruleset.DeduplicatedKeeps | scripts/_github_repository_controls.py:191-199 | removing duplicates loses no check and leaves one per context |
| Ruleset.CentralDeploymentRules | scripts/_github_repository_controls.py:202-228 | the loop drops TEST and PROD from deployment requirements in order, and refuses what it cannot retire |
| Ruleset.ChecksAreKept | scripts/_github_repository_controls.py:118-188 | every existing required check survives, hardened, unless its context is retired; one the App does not issue survives verbatim |
| Ruleset.EarlierReviewsAreLost | scripts/_github_repository_controls.py:273-306 | the concrete failing input: a rule asking for three reviews followed by one asking for one |
| Ruleset.OthersAreKept | scripts/_github_repository_controls.py:202-321 | rules of other kinds pass through unchanged; for the central repository deployment requirements only lose TEST and PROD |
| Ruleset.PayloadIsFixed | scripts/_github_repository_controls.py:273-321 | the transformation is a fixed point of itself |
| Ruleset.PayloadMeetsVerifier | scripts/_github_repository_controls.py:273-620 | an accepted payload has no verifier blocker if and only if the last pull-request rule's count is not a number above one written otherwise than as an integer |
| Ruleset.NonIntegerCountIsReported | scripts/_github_repository_controls.py:260-270 | the concrete failing input: a count of 1.5 |
| Ruleset.ReviewsAreKept | scripts/_github_repository_controls.py:260-270 | the payload asks for the greater of one and the last rule's count |
| Ruleset.ReviewsAreNotLowered | scripts/_github_repository_controls.py:260-270 | no pull-request rule's count is lowered if and only if it is at most one or at most the last rule's |
| BranchPolicies.KeptIsSmallest | scripts/configure_github_repository_controls.py:233-253 | the first main rule of the sorted listing is the one with the smallest ID |
| BranchPolicies.CompleteListing | scripts/configure_github_repository_controls.py:217-230 | as many distinct policies as the server counts is all of them |
| BranchPolicies.Environment.ValidatedPolicies | scripts/configure_github_repository_controls.py:217-230 | an accepted listing holds every policy of the server, ascending; reading changes nothing |
| BranchPolicies.Environment.Converge | scripts/configure_github_repository_controls.py:236-253 | success means all the others were deleted, in order, and the rule created only if there was none; a run that stops has deleted the first few of them and nothing else |
| BranchPolicies.Environment.ConfigureMainBranchPolicy | scripts/configure_github_repository_controls.py:233-253 | a refused listing leaves the server untouched; success leaves exactly the main rule, with its smallest ID if there was one; however a run ends that rule stays, nothing is added beside a main rule, and others are deleted at most once each |
| BranchPolicies.ConvergedStays | scripts/configure_github_repository_controls.py:233-253 | a run over a converged server writes nothing, whether or not it succeeds |
| Enrollment.ListAll | scripts/operator_enrollment_runtime.py:77-98 | pagination accepts exactly when a trail of fresh markers exhausts the server within the bounds, and returns all of its pages; no marker is followed twice |
| Enrollment.TrailsAgree | scripts/operator_enrollment_runtime.py:77-98 | there is only one such trail |
| Codec.UniqueObject | scripts/deployment_contract_io.py:186-193 | an object with a repeated member is refused |
| Codec.LoadAcceptsClean | scripts/deployment_contract_io.py:186-224 | exactly the documents without repeated members or non-integer numbers, at any depth, load |
| Codec.ArrayInverse | scripts/deployment_contract_io.py:60-64 | an array decoder is the inverse of its encoder when its element decoder is |
| Codec.ShapeInverse | scripts/deployment_contract_io.py:168-183 | a contract decodes from exactly its encoding, no member extra or missing |
| Codec.ContractsDecodeExactly | scripts/deployment_contract_io.py:227-234 | a document decodes to a contract if and only if it is that contract's encoding and the contract is valid |
| Codec.WrittenLoads | scripts/deployment_contract_io.py:186-224 | what is written of a value without floating-point numbers, members sorted, loads as that value |
| Codec.WrittenContractsDecode | scripts/deployment_contract_io.py:227-234 | decoding the written document of a valid contract returns the contract |
| Codec.WrittenReceiptsDecode | scripts/deployment_contract_io.py:242-274 | decoding the written document of a scheduled node's receipt returns the receipt |
| Codec.ReceiptsDecodeExactly | scripts/deployment_contract_io.py:242-274 | a scheduled node has one receipt its artifact can decode to, and one document that decodes to it |
| Alerts.BenignMeansCompleted | scripts/operations_alert_triage.py:119-159 | only a completed backup event of this account and region without warning is acknowledged silently |
| Alerts.ClassifiedAlerts | scripts/operations_alert_triage.py:162-199 | a batch is classified exactly when its topic is a named one of the trusted account and region; then there is one audit record per message, in order, with its digest, disposition and reason, and acted-on and acknowledged messages are the in-order selections by disposition |
| Alerts.AcknowledgedOnce | scripts/operations_alert_triage.py:174-191 | no receipt is acknowledged twice |
| Alerts.StableIgnoresVolatile | scripts/operations_alert_triage.py:279-291 | two values stabilize alike exactly when they differ, at any depth, in volatile members only |
| Alerts.StreamsShareFingerprints | scripts/operations_alert_triage.py:299-326 | messages whose identity fields agree and whose rest differs only in volatile members share a fingerprint, whatever the digest |
| Alerts.FingerprintsIdentifyStreams | scripts/operations_alert_triage.py:299-326 | under an ideal digest only those do |
| Alerts.AlertGroups | scripts/operations_alert_triage.py:329-337 | the groups come in fingerprint order, one for each fingerprint of the batch, and hold exactly its messages in batch order |
| Alerts.GroupsPartition | scripts/operations_alert_triage.py:329-337 | grouping partitions the batch, repetitions included |
| Alerts.BatchesIdentifyStreamSets | scripts/operations_alert_triage.py:355-364 | batch fingerprints are equal exactly when the sets of streams are |
| StackIndex.Targets | policy/guardrails.py:310-387 | the loops index exactly the bucket names and URNs that some configuring resource of the stack names or depends on |
| StackIndex.StackViolations | policy/guardrails.py:186-258 | the rule reports, in order, the messages of exactly the resources the index does not cover |
| StackIndex.CoveredMeansProtected | policy/guardrails.py:339-413 | the index covers a bucket if and only if the bucket configures the control itself or some resource of the stack protects it |
| StackIndex.ReportedMeansUnprotected | policy/guardrails.py:186-258 | a violation is reported if and only if it is of an unprotected bucket, with its one message, or of another resource that lacks the control |
| StackIndex.OrderIsIrrelevant | policy/guardrails.py:310-387 | stacks that list the same resources in another order get the same violations, each as often |
| StackIndex.GrowthOnlySilences | policy/guardrails.py:186-258 | added resources never bring up an old one: what is reported of the old ones can only become less |

## Left out

- Promotion.ReadyMeansPassed: artifact ZIP transport, artifact metadata and the run's identity are taken as authenticated; a receipt is found by its artifact number.
- Promotion.SuccessfulRunsPromote: workers record results, not times; the times are those of the job listing, which is any listing here and the serial one in `Promotion.SerialRunsPromote`.
- Replay.AppliedAtMostOnce: assumes, as the runtime does, that an apply writes a version never used before and that nothing writes between the final snapshot and the apply. `execute` is modelled on values, as interleaved steps, so the order of its `diagnostic_stage` labels is not captured.
- Envelope.PlansOpenOnlyWhereSealed: the cipher and KMS are ideal terms; nonce reuse and key lengths are not modelled. An envelope is a record of its members: its JSON text and their base64 are the subject of `Base64` and `Diagnostics` only.
- Emitter.Server.Publish: no other writer acts during one call; before a call the server's state is arbitrary. Live rechecks are a yes or no that may change at every call. A stored deployment keeps the commit, account and evidence asked for; all its other fields and every status are arbitrary until read back.
- PlanRuns.RunKeeps: an apply is taken to leave the inventory its plan wanted, with outputs filled in and IDs for what was created or replaced.
- PlanPreview.ValidatePlan: manifests, stack configuration, metadata, diagnostics lists, seeds' base64 text and document sizes are checked elsewhere in the validator and not modelled; per-type field shapes are the parameter `shaped`. JSON booleans and numbers never compare equal here, as `True == 1` does in Python; deletion markers of replaced states are absent from rows.
- Codec.ContractsDecodeExactly: JSON text parsing and the 1 MiB bound are not modelled; a document is the tree the parser meets, repeated members included.
- Ruleset.PayloadMeetsVerifier: values compare by type, so `True` and `1` differ; the verifier's messages are reduced to whether there is any. Reviewed-environment payloads and their verifiers are left out as one-branch checks.
- Alerts.FingerprintsIdentifyStreams: fingerprints are ideal digests, not 24 hexadecimal digits, so the collisions of a cut digest are not modelled; canonical JSON is the value itself.
- Scopes.SelectAccepts: the path tables are the parameter `classify`.
- JobGraph.CompleteJobs: display-name text of jobs is parsed elsewhere; a job's name is a datatype value.
- The other rules of policy/guardrails.py: checks of one resource at a time.
- BranchPolicies.Environment.ConfigureMainBranchPolicy: nobody else changes the policies during one run.
- Well-Architected collectors, scoring and rendering; the doctor, Docker and stack-configuration helpers; command-line parsing: input and output, or single-branch checks.
- Subprocess, GitHub, AWS and Pulumi transport, temporary files and permissions: abstracted as server state or parameters.
- `pulumi_command_preflight`, `seed.policy_registry` and `reviewed_source_admission` are not part of this model; their verdicts are parameters.
- Malformed value types that make the original raise: a rejection here, or excluded by the datatypes.
