# Verified model of the TBD deployment platform

This project models the parts of the platform whose correctness depends on many
steps fitting together, and proves what they promise over all inputs, all runs
and all interleavings.

- **Deploy lifecycle.** A table of deploys per environment, stepped by creation,
  transitions, promote, rollback, stop, start, destroy, the stuck-deploy sweep and
  the executor's own bookkeeping. `DeployModel` gives every step as a function on
  the table; `DeployStore` updates the rows as the services do and is proved to take
  exactly those steps; `DeployActive`, `DeployAccounting` and `DeployOrder` prove
  what runs of such steps keep. `DeployLaws` says row by row what each event does.
- **Release publication.** Any number of publishers read the source branch, read the
  release branch, build a commit, read the source branch again and try a non-force
  update, interleaved in any way (`ReleaseProtocol`, `ReleaseLaws`, `ReleasePublisher`);
  and what makes a receipt (`Receipts`, `ReceiptLaws`).
- **Deploy executor and addresses.** The executor's run, stage by stage, with both of
  its handlers (`ExecutorModel`, `DeployExecutor`, and `ExecutorLaws`, told from how the
  calls ended); the first-fit address search and the scan it relies on (`Addresses`,
  `FlatIp`, `AddressLaws`); and the claim protocol among concurrent attempts and the
  whole lifecycle (`IpClaims`).
- **OCI layout normalisation.** A rewrite over a content-addressed store, after the OCI
  Image Format Specification, "Image Layout" and "Content Descriptors"
  (`OciLayout`, `OciConverter`, `OciLaws`).
- **Rate limiter.** The pruned buckets, specified over the full history of admitted
  requests (`RateLimit`, `RateLaws`).
- **Terminal page.** The expression evaluator (`MathGrammar`, `MathReading`,
  `MathEvaluator`, `MathLaws`) and the simulated file system (`Paths`, `PathLaws`,
  `FileTree`, `FileOps`, `FileLaws`, `FileSystem`).
- **Secrets file.** Its printer, the shell that sources it in the generated init
  script (POSIX.1-2017, "Shell Command Language"), and a reader after systemd.exec(5),
  "EnvironmentFile=", the format the printer names (`SecretsFile`, `SecretsLaws`).

The modules called laws state what the definitions come to without using them, with
the constants, characters and limits of the code spelled out. `Common` and `Text` hold
small shared definitions.

Each handler or database transaction is one atomic step. What the code cannot decide
by itself (the clock, which of two equally old rows a query returns, how a call to the
cluster ends) is a parameter or part of an event, and the theorems range over it.

## Where the code does not do what one might expect

- Destroying a deploy that is in progress frees a slot without waking the queue, so a
  run without sweeps and retries need not be work conserving:
  `DeployAccounting.DestroyLeavesOneWaiting`, with the exact condition in
  `DestroyStrandsIff`.
- `start_deploy` supersedes nothing: `StartKeepsOneActiveIff` says when two deploys end
  up active, and `StartLeavesTwoActive` gives a table where they do.
- A new deploy is stored as queued before the queue is counted, so an environment never
  holds more than the configured size minus one waiting deploys, retries aside.
- A client address that spells out an authentication bucket's key
  (`<address>:auth`, possible because the address may come from a header) shares that
  bucket and is judged by the other limit: a burst of such requests is admitted beyond
  the bucket's quota (`BurstExceeds`). `RateLimit.BoundedIff` says for which keys and
  limits the quota holds whatever arrives, and `EveryWindowBounded` what holds of a run.
- The OCI pass can make a layout readable that was not: `NormalizationMayRepair`. The
  exact condition, on the layout before the pass, is in `NormalizationKeepsConfigIff`.
- The secrets file is written for "EnvironmentFile=" of systemd
  (`api/app/services/secrets_injector.py:133`), but what reads it is a shell
  (`api/app/services/systemd_generator.py:188-193`), to which a dollar or a backtick
  between double quotes and an operator or a tilde outside them mean something. So
  `pa$$word` and `a;b` are not recovered (`NotRecoveredWhenSourced`). `SourcedIff` has the
  exact condition for the shell. `ReadContent` and `RoundTripIff` are about the systemd
  format, whose reader would recover both of these but trims a trailing carriage return,
  which the shell keeps (`CarriageReturnIsKept`). `ContentIsInjective` is about the file.
- From a safe state, addresses are sure to stay distinct exactly as long as every step is
  quiet: no pending claim is lost (swept, failed, destroyed, cleared, rolled back or
  superseded), and no claim is committed too late. The allocation lock covers the scan
  only, and the commit comes after it; a claim is too late when the index lets it through
  although a live container has the address by then or the claim's own deploy has left
  the index's view. Any one step that is not quiet is enough for a shared address
  (`HarmlessIffQuiet`, `LateClaimIff`).
- In the executor, an address conflict at commit poisons the session and leaves the
  deploy provisioning; a cleanup call that breaks inside the handler for expected
  failures escapes it; and an unexpected exception after promotion destroys the
  container of the deploy that is in service (`EndsFailedIff`, `BrokenAfterPromotion`).
- The executor's header comment (`api/app/services/deploy_executor.py:20`) promises a
  rollback to a snapshot; the code destroys the new container and restarts the previous
  one if it was told of one. The status endpoint's comment
  (`api/app/routers/deploys.py:402`) says that any state may fail; the status table
  allows it only up to healthy. The model follows the code.
- The production route's race guard asks for the newest active deploy; when there is none,
  because the deploy was stopped meanwhile, it lets the route move (`GuardMissesStop`).
- Copying to, or moving, the home directory itself ties the tree into a knot
  (`CopyKeepsTreeIff`, `MoveHomeKeepsTreeIff`); moving a directory into itself loses it
  (`MoveIntoItselfLoses`).

## Model

| member | source | states |
|---|---|---|
| `DeployStore.DeployStore.SelectOldestQueued` | api/app/services/deploy_queue.py:165-178 | nothing when the environment's queue is empty, otherwise a queued deploy no younger than any other |
| `DeployStore.DeployStore.TryPromoteNext` | api/app/services/deploy_queue.py:146-200 | promotes one of the oldest queued deploys exactly when there is capacity and someone waits, and changes nothing else |
| `DeployStore.DeployStore.OnDeployCompleted` | api/app/services/deploy_queue.py:51-56 | a freed slot goes to the queue in the same way |
| `DeployStore.DeployStore.EnqueueDeploy` | api/app/services/deploy_queue.py:20-48 | a deploy that finds the queue full, itself counted, fails; otherwise the queue may promote one deploy |
| `DeployStore.DeployStore.TriggerDeploy` | api/app/services/build_coordinator.py:320-334 | creation is exactly the Create step: stored as queued, then enqueued |
| `DeployStore.DeployStore.MarkSuperseded` | api/app/services/deploy_queue.py:59-94 | every active deploy of the environment but one becomes superseded, and the result lists them |
| `DeployStore.DeployStore.TransitionDeploy` | api/app/services/build_coordinator.py:381-455 | accepted exactly when the status table lists the edge; the newest-deploy guard, the superseding and the freed slot are exactly the Transition step |
| `DeployStore.DeployStore.PromoteDeploy` | api/app/routers/deploys.py:560-662 | exactly the Promote step; a refused or failed request changes nothing |
| `DeployStore.DeployStore.GetProductionDeployId` | api/app/routers/deploys.py:152-177 | the latest promoted active deploy of the project, if any |
| `DeployStore.DeployStore.SelectRollbackTarget` | api/app/routers/deploys.py:468-485 | the candidate promoted last and, among those, created last, if any |
| `DeployStore.DeployStore.RollbackDeploy` | api/app/routers/deploys.py:426-552 | exactly the Rollback step: superseded, and the latest promoted candidate with a container active again |
| `DeployStore.DeployStore.StopDeploy` | api/app/routers/deploys.py:744-815 | exactly the Stop step |
| `DeployStore.DeployStore.StartDeploy` | api/app/routers/deploys.py:818-924 | exactly the Start step: active again, nothing superseded, refused at the container limit |
| `DeployStore.DeployStore.DestroyDeploy` | api/app/routers/deploys.py:670-736 | exactly the Destroy step: rolled back only when the container is proved gone or never was |
| `DeployStore.DeployStore.ReconcileStuckDeploys` | api/app/services/reconciler.py:134-171 | exactly the stuck deploys not locked elsewhere fail and lose their container columns, and their number is returned |
| `DeployLaws.TransitionRows` | api/app/services/build_coordinator.py:381-455 | row by row: nothing outside nineteen edges spelled out; along one, the status, the stamp of an activation, the superseding, and whom the freed slot goes to |
| `DeployLaws.CreateRows` | api/app/services/deploy_queue.py:20-48 | the new row, stamped with its creation, fails when it fills the queue; otherwise one of the longest waiting may start, and nothing else changes |
| `DeployLaws.PromoteRows` | api/app/routers/deploys.py:560-662 | accepted exactly for an active or superseded deploy with address and number that is not in production and is routed; then it alone is active |
| `DeployLaws.RollbackRows` | api/app/routers/deploys.py:468-552 | if a deploy of the environment that is superseded or stopped has a container, exactly one such becomes active: none was promoted later, nor at the same time and created later |
| `DeployLaws.ProductionIs` | api/app/routers/deploys.py:152-177 | the deploy in production is one of the active ones of the project that none was promoted later than |
| `DeployLaws.StopRows` | api/app/routers/deploys.py:744-815 | which stops take effect, and that only the status changes |
| `DeployLaws.StartRows` | api/app/routers/deploys.py:818-924 | a start takes effect only while fewer than three containers of the project run |
| `DeployLaws.DestroyRows` | api/app/routers/deploys.py:670-736 | which destroys take effect |
| `DeployLaws.SweepRows` | api/app/services/reconciler.py:134-171 | exactly the deploys in progress for more than 1800 seconds, and not locked, fail and lose their columns |
| `DeployLaws.TrackRows` | api/app/services/deploy_executor.py:629-631 | the executor's bookkeeping writes the container columns of its deploy and nothing else |
| `DeployLaws.RollbackUndoesPromotion` | api/app/routers/deploys.py:468-485 | promote a deploy, then a newer one, roll that back: the first alone is active again |
| `DeployActive.StepKeepsOneActive` | api/app/services/build_coordinator.py:436-451 | every event but a start keeps at most one active deploy per environment |
| `DeployActive.StartKeepsOneActiveIff` | api/app/routers/deploys.py:909-912 | a start keeps it exactly when it is refused or nothing else is active |
| `DeployActive.StartLeavesTwoActive` | api/app/routers/deploys.py:909-912 | a table with one active and one stopped deploy, where an accepted start leaves both active |
| `DeployActive.StepKeepsActivePromoted` | api/app/services/build_coordinator.py:438-440 | every event keeps that active deploys carry a promotion time, which the guard relies on |
| `DeployActive.EndsActiveAlone` | api/app/routers/deploys.py:611-618 | from any table whatever, an accepted transition or promote that ends active leaves that deploy as the only active one |
| `DeployActive.StepKeepsRolledBack` | api/app/models/deploy.py:37-37 | no event moves a deploy out of rolled_back, removes a row, or changes its environment or age |
| `DeployActive.RunKeepsOneActive` | api/app/services/deploy_queue.py:59-94 | over every run without starts, at most one deploy per environment is active |
| `DeployActive.RunKeepsActivePromoted` | api/app/services/build_coordinator.py:418-434 | over every run, active deploys carry a promotion time |
| `DeployActive.RolledBackIsAbsorbing` | api/app/models/deploy.py:28-39 | over every run, a rolled back deploy stays rolled back |
| `DeployActive.RepairedUntilNextStart` | api/app/services/build_coordinator.py:436-451 | however many deploys are active, one transition or promote that ends active restores the invariant until the next start |
| `DeployAccounting.TransitionCounts` | api/app/services/build_coordinator.py:453-455 | what a transition does to the numbers queued and in progress, the freed slot included |
| `DeployAccounting.CreateCounts` | api/app/services/deploy_queue.py:27-48 | what creating a deploy does to the two numbers |
| `DeployAccounting.PromoteNextCounts` | api/app/services/deploy_queue.py:193-200 | a queue promotion moves exactly one deploy between the two numbers |
| `DeployAccounting.DestroyCounts` | api/app/routers/deploys.py:714-719 | a destroy of an in-progress deploy lowers the number in progress and wakes nobody |
| `DeployAccounting.SweepCounts` | api/app/services/reconciler.py:150-171 | a sweep lowers the number in progress by those it fails and wakes nobody |
| `DeployAccounting.StepKeepsLimits` | api/app/services/deploy_queue.py:155-198 | one step keeps both limits, given how many bypasses and retries came before |
| `DeployAccounting.RunKeepsLimits` | api/app/services/deploy_queue.py:102-143 | over every run, the number in progress is at most the limit plus the queued-to-building steps taken outside the queue, and the number queued at most the queue size less one plus the retries |
| `DeployAccounting.StepIdle` | api/app/services/deploy_queue.py:51-56 | idle capacity with someone waiting never grows but by what a sweep, a retry or a destroy frees |
| `DeployAccounting.DestroyStrandsIff` | api/app/routers/deploys.py:670-736 | a destroy strands capacity exactly when it frees a slot another deploy waits for |
| `DeployAccounting.DestroyLeavesOneWaiting` | api/app/routers/deploys.py:714-719 | a table where it does, with neither sweep nor retry |
| `DeployAccounting.RetryStrandsIff` | api/app/models/deploy.py:36-36 | a retry strands capacity exactly when there is a slot nobody waits for yet |
| `DeployAccounting.RunIdle` | api/app/services/deploy_queue.py:51-56 | over every run idle capacity grows by at most what was swept, retried or destroyed in progress |
| `DeployAccounting.StepDoesNotOvertake` | api/app/services/deploy_queue.py:165-175 | no step lets a younger queued deploy leave before an older one of its environment |
| `DeployAccounting.NoOvertaking` | api/app/services/deploy_queue.py:146-200 | first in, first out over whole runs, for deploys that only the queue moves |
| `DeployLaws.ArrivalOrder` | api/app/services/build_coordinator.py:320-334 | of two creations in a run, the later has the later creation time |
| `DeployLaws.FirstComeFirstServed` | api/app/services/deploy_queue.py:165-175 | so of two deploys created in a run the later does not leave the queue before the earlier, unless it was refused on arrival |
| `DeployOrder.OneActivation` | api/app/services/build_coordinator.py:418-445 | a healthy deploy told to become active wins against all active ones or is superseded and changes nothing but its slot |
| `DeployOrder.BystanderKeeps` | api/app/services/deploy_queue.py:59-94 | creations, container columns, other environments' events and sweeps that strike elsewhere leave an environment's deploys where they are, the queue aside |
| `DeployOrder.NewestWins` | api/app/services/build_coordinator.py:418-445 | healthy deploys promoted in any order, with any such events in between: the newest of them and the previously active ones ends as the only active one |
| `DeployOrder.OrderDoesNotMatter` | api/app/services/build_coordinator.py:413-455 | two orders of the same promotions, each with bystanders of its own that add no deploy to the environment, end with the same status on each of its deploys, queued ones included |
| `DeployOrder.OrderAloneDoesNotMatter` | api/app/services/build_coordinator.py:413-455 | without bystanders they end with the same status on every row of the table |
| `Receipts.MakeReceipt` | deploy/scripts/publish_release.py:69-90 | a receipt is made exactly for a known branch, a full commit and a positive run number in decimal digits of any script, from one good file for every configured image kind and no other, all of that commit |
| `Receipts.ImagesDetermined` | deploy/scripts/publish_release.py:75-91 | the same files never make two receipts with different images |
| `ReceiptLaws.CompleteIff` | deploy/scripts/publish_release.py:75-88 | complete: as many files as configured kinds, of exactly these kinds, all of the commit and with a digest |
| `ReceiptLaws.ImagesAre` | deploy/scripts/publish_release.py:86-88 | for every configured kind and no other, its image at the digest of its file |
| `ReceiptLaws.FormatsAre` | deploy/scripts/publish_release.py:13-14 | a commit is forty hexadecimal digits, a digest sixty-four after "sha256:" |
| `ReceiptLaws.RunIdIs` | deploy/scripts/publish_release.py:73-74 | in ASCII, a run number is decimal digits that are worth more than zero |
| `ReleaseProtocol.StepMovesForward` | deploy/scripts/publish_release.py:127-130 | whatever a publisher does, the release ref only moves to descendants |
| `ReleaseProtocol.PublishersStayConsistent` | deploy/scripts/publish_release.py:116-124 | every publisher's commit extends the head it read, whatever the others do |
| `ReleaseProtocol.LandsIffHeadUnmoved` | deploy/scripts/publish_release.py:127-130 | an update lands exactly when the head is the one that was read, or is this commit already |
| `ReleaseProtocol.StepKeepsConsistent` | deploy/scripts/publish_release.py:111-131 | one step keeps that the history is the initial one and what landed |
| `ReleaseProtocol.NothingIsLost` | deploy/scripts/publish_release.py:116-131 | over every interleaving the history of the release ref is the initial one and exactly the commits whose publisher completed |
| `ReleaseProtocol.RecheckOrders` | deploy/scripts/publish_release.py:125-126 | at the re-check a publisher's receipt is at least as new as every receipt of the head it read |
| `ReleaseProtocol.StepKeepsOrdered` | deploy/scripts/publish_release.py:111-131 | one step keeps receipts in source order along the release branch |
| `ReleaseProtocol.ReleasesFollowSource` | deploy/scripts/publish_release.py:111-131 | over every interleaving receipts along the release branch have nondecreasing source positions |
| `ReleaseProtocol.EarlierReleaseIsNoNewer` | deploy/scripts/publish_release.py:111-131 | of two receipts of the branch, the one published earlier is for a commit no newer |
| `ReleaseLaws.AloneItLands` | deploy/scripts/publish_release.py:111-131 | left alone, a publisher of the newest source commit puts its receipt on top of the branch or starts the branch on that commit; any other changes nothing |
| `ReleaseLaws.LateMovesStop` | deploy/scripts/publish_release.py:125-130 | a source that moves on before the second look, and a branch that comes to be before the update, stop it |
| `ReleaseLaws.OthersStay` | deploy/scripts/publish_release.py:111-131 | no publisher's move, and no push, changes another publisher |
| `ReleasePublisher.Remote.Publish` | deploy/scripts/publish_release.py:111-131 | one call, with anything interleaved between its requests, takes exactly the protocol's moves however it ends: all five, landed, for True; one or four, its source no longer current, for False; otherwise those before the failing request, or all five and refused |
| `ReleasePublisher.Remote.Prepare` | deploy/scripts/publish_release.py:112-124 | up to the re-check: the head it read and a commit that extends it, with the moves it took for each outcome |
| `ReleasePublisher.Remote.MoveRef` | deploy/scripts/publish_release.py:127-130 | the non-force update, or the creation, that the remote accepts |
| `ReleasePublisher.PublishedForGood` | deploy/scripts/publish_release.py:111-131 | a completed publication stays in the branch, in source order, through every later run |
| `Addresses.ToStringInjective` | api/app/services/deploy_executor.py:238-239 | different addresses are written differently |
| `AddressLaws.DottedDecimal` | api/app/services/deploy_executor.py:238-239 | an address is its four bytes in decimal, most significant first |
| `Text.DecimalMeans` | api/app/services/deploy_executor.py:238-239 | a decimal form read in base ten is the number, without leading zeros |
| `Text.OnlyDecimal` | api/app/services/deploy_executor.py:238-239 | and no other text is |
| `Addresses.Net0Config` | api/app/services/proxmox_adapter.py:88-98 | the net0 setting: name, bridge, then tag, address and gateway when present |
| `AddressLaws.Net0Is` | api/app/services/proxmox_adapter.py:88-98 | the setting as text, field by field with its prefixes |
| `Addresses.ExtractIpsFromNet0` | api/app/services/deploy_executor.py:163-178 | the bare addresses of all "ip=" parts, without empty ones and "dhcp" |
| `AddressLaws.ScannedIff` | api/app/services/deploy_executor.py:168-178 | a field yields an address exactly when, stripped, it is "ip=" and that address, with or without a slash and more |
| `AddressLaws.StripIff` | api/app/services/deploy_executor.py:169-169 | stripping leaves a text exactly when it stands between white space |
| `Addresses.ScannerReadsNet0` | api/app/services/deploy_executor.py:168-178 | from a container's own comma-free setting the scanner reads its bare address and nothing else |
| `Addresses.ScannerReadsAddress` | api/app/services/proxmox_adapter.py:88-98 | in particular exactly the address the allocator handed out |
| `Addresses.ScannerFindsAddress` | api/app/services/deploy_executor.py:168-178 | and it finds that address in any setting of comma-free fields |
| `FlatIp.ListAllTbdContainers` | api/app/services/proxmox_adapter.py:647-687 | the settings of the tagged containers on the nodes that are online and can be listed |
| `FlatIp.SeenIff` | api/app/services/proxmox_adapter.py:659-687 | a setting is seen exactly when some such container has it |
| `AddressLaws.ScanSeesIff` | api/app/services/proxmox_adapter.py:659-687 | the same with the conditions on the node and the setting spelled out |
| `AddressLaws.TaggedIff` | api/app/services/proxmox_adapter.py:671-674 | a container counts exactly when one of its tags between semicolons is "tbd", white space aside |
| `FlatIp.AllocateFlatIp` | api/app/services/deploy_executor.py:181-248 | the least address of the range that neither source lists; an error exactly when the range is reversed or entirely used |
| `FlatIp.NeverHeld` | api/app/services/deploy_executor.py:200-239 | the address allocated is in no scanned container's setting, whatever other fields that has and in whatever order, and is claimed by no live row |
| `AddressLaws.UsedIff` | api/app/services/deploy_executor.py:200-232 | which addresses count as used: stored ones of deploys not superseded, rolled back or failed, and those that fields of scanned settings yield |
| `AddressLaws.FirstFitIs` | api/app/services/deploy_executor.py:184-248 | the search has exactly one outcome, with its three errors told apart |
| `FlatIp.FirstFitOnAddresses` | api/app/services/deploy_executor.py:235-248 | on addresses: the least one not taken, and failure exactly when all are taken |
| `IpClaims.ClaimIsLostIff` | api/alembic/versions/012_add_container_tracking.py:74-86 | a claim leaves the view of allocator and index exactly by these guards: its deploy failed, rolled back or superseded (also by another's promotion), destroyed, swept, or its address cleared |
| `IpClaims.StepKeepsSafe` | api/app/services/deploy_executor.py:339-350 | with scan and claim in one step or apart, every quiet step (no pending claim lost, none committed too late) keeps all addresses distinct |
| `IpClaims.LateClaimIff` | api/app/services/deploy_executor.py:339-349 | a claim committed some time after its scan leaves addresses distinct exactly when the index refuses it or nobody has the address, and keeps the state safe exactly when it is refused or no live container has the address and its deploy is still in the index's view |
| `IpClaims.LiveAddressesDistinct` | api/app/services/deploy_executor.py:181-248 | over every quiet run, with scan and claim together or apart, no two live containers or pending claims share an address, though superseded deploys leave the database's view |
| `IpClaims.LateClaimLetsAddressesCollide` | api/app/services/deploy_executor.py:339-349 | from any safe state, a claim committed too late lets a quiet run end with a shared address |
| `IpClaims.LossLetsAddressesCollide` | api/app/services/deploy_executor.py:200-239 | from any safe state, any event that loses a pending claim lets a run that loses no other claim end with a shared address |
| `IpClaims.HarmlessIffQuiet` | api/app/services/deploy_executor.py:339-350 | both halves: in a safe state a step keeps addresses distinct, whatever quiet steps come next, exactly when it loses no pending claim and commits none too late |
| `IpClaims.FiveStepsToCollision` | api/app/services/deploy_executor.py:181-248 | with two deploys waiting, five steps from claim through loss to two containers with one address |
| `IpClaims.IndexAlwaysHolds` | api/alembic/versions/012_add_container_tracking.py:74-86 | over every run whatever, rows that are not superseded, rolled back or failed never share an address |
| `IpClaims.SweepLetsAddressesCollide` | api/app/services/reconciler.py:134-171 | the sweep as one such loss: it leads to two containers with one address |
| `IpClaims.LateClaimsCollide` | api/app/services/deploy_executor.py:339-349 | a run without sweeps, quiet but for one claim that is committed too late, in which two live containers share an address |
| `DeployExecutor.DeployExecutor.AdvanceToProvisioning` | api/app/services/deploy_executor.py:306-314 | from any status before it, the deploy ends provisioning and no other row changes |
| `DeployExecutor.DeployExecutor.ClaimAddress` | api/app/services/deploy_executor.py:344-350 | the claim is committed exactly when no other live row has the address, and undone otherwise |
| `DeployExecutor.DeployExecutor.Prepare` | api/app/services/deploy_executor.py:298-350 | the first two steps: where they stop and what is committed by then |
| `DeployExecutor.DeployExecutor.BuildAndUpload` | api/app/services/deploy_executor.py:380-537 | steps 3 to 8: where they stop, and that the template is there exactly when uploaded or left behind |
| `DeployExecutor.DeployExecutor.MakeContainer` | api/app/services/deploy_executor.py:539-657 | steps 9 to 11: where they stop, and when the container is confirmed and recorded |
| `DeployExecutor.DeployExecutor.RemoveContainer` | api/app/services/deploy_executor.py:920-939 | the container goes only after two ownership proofs, and a container that would not stop is tolerated by one handler only |
| `DeployExecutor.DeployExecutor.CheckHealth` | api/app/services/deploy_executor.py:672-762 | when the check stops the run, and whether the container is known to be gone by then |
| `DeployExecutor.DeployExecutor.Promote` | api/app/services/deploy_executor.py:764-875 | healthy, then active or superseded; the production route is moved exactly when the deploy ended active and routing succeeded |
| `DeployExecutor.DeployExecutor.Handle` | api/app/services/deploy_executor.py:912-1018 | either handler: what it removes, when it lets an exception escape, and that the deploy fails with empty columns otherwise |
| `DeployExecutor.DeployExecutor.DeleteTemplate` | api/app/services/deploy_executor.py:1020-1038 | the uploaded template is deleted however the run went |
| `DeployExecutor.DeployExecutor.ExecuteDeploy` | api/app/services/deploy_executor.py:251-1038 | the whole run: table, containers, templates, production route and the calls made are exactly those of the outcome for how its calls ended |
| `ExecutorModel.AllocatedMeetsNoConflict` | api/app/services/deploy_executor.py:200-239 | an address the allocator found free meets no conflict when claimed |
| `ExecutorModel.FailureIsCleanedUp` | api/app/services/deploy_executor.py:912-1038 | after a run stopped by any stage up to and including the health check: failed, four empty columns, confirmed container and uploaded template gone, the cluster as before, no other row touched but one from the queue |
| `ExecutorLaws.PromotedIff` | api/app/services/deploy_executor.py:300-860 | told from how the calls ended: a run promotes exactly when every stage ended well, the health check among them if there is an address, and nobody else has the address; otherwise no route moves |
| `ExecutorLaws.PromotedRows` | api/app/services/deploy_executor.py:765-860 | what a run that promotes leaves in every row |
| `ExecutorLaws.RoutedIff` | api/app/services/deploy_executor.py:812-880 | the production route moves exactly when such a run is in production, ends active, has somewhere to route to, and routing works |
| `ExecutorLaws.FailedIff` | api/app/services/deploy_executor.py:912-1018 | the deploy ends failed with empty columns exactly when some stage did not end well, nobody else has its address and the last cleanup does not break |
| `ExecutorLaws.StoppedRunLeavesNothing` | api/app/services/deploy_executor.py:912-1038 | with cleanups that work, a run that some stage stopped leaves no container, route or other change behind |
| `ExecutorLaws.ContainerIff` | api/app/services/deploy_executor.py:540-637 | a container is asked for exactly when the stages before ended well; after a promotion it is there unless something broke late and it was destroyed |
| `ExecutorLaws.RemovalAsks` | api/app/services/deploy_executor.py:699-745 | a removal asks for the destroy exactly when both proofs succeed and the stop does, or merely fails where that is tolerated |
| `ExecutorLaws.TemplatesAndRaise` | api/app/services/deploy_executor.py:914-1038 | when an exception escapes the run, and when the uploaded template is left |
| `ExecutorModel.EndsFailedIff` | api/app/services/deploy_executor.py:912-1018 | without assumptions on the cleanup: ends failed with empty columns exactly when the claim met no conflict, nothing was promoted and the cleanup did not break in the handler for expected failures |
| `ExecutorModel.ContainerSurvivesIff` | api/app/services/deploy_executor.py:709-726 | after a run, the container it confirmed creating is there exactly when no destroy among the calls the run made took effect, and every other container is as it was |
| `ExecutorModel.DestroysOnlyItsOwn` | api/app/services/deploy_executor.py:130-134 | however its calls end, a run asks to destroy only after creating the container, and right after two proofs of ownership with a stop in between |
| `ExecutorModel.BrokenAfterPromotion` | api/app/services/deploy_executor.py:980-1010 | an unexpected exception after promotion leaves the deploy active or superseded, its container destroyed and its columns empty |
| `ExecutorModel.GuardAgreesWithPromotion` | api/app/services/deploy_executor.py:832-849 | the race guard lets the production route move exactly when the promotion ended active |
| `ExecutorModel.GuardAfterOthers` | api/app/services/deploy_executor.py:838-849 | with any handlers but starts in between, the guard lets it move exactly when no other deploy of the environment is active by then |
| `ExecutorModel.GuardNoticesStart` | api/app/services/deploy_executor.py:838-849 | after a deploy of the environment is started in between, the guard refuses |
| `ExecutorModel.GuardMissesStop` | api/app/services/deploy_executor.py:849-849 | a deploy that was stopped in between is not noticed when it was the only active one |
| `OciConverter.LayoutDir.RewriteManifest` | api/app/services/oci_converter.py:298-308 | the rewritten manifest, and whether it had any docker type |
| `OciConverter.LayoutDir.NormalizeLayoutMediatypes` | api/app/services/oci_converter.py:278-333 | the pass over the index, blob by blob, is exactly the specified normalisation |
| `OciLayout.StoreStaysOk` | api/app/services/oci_converter.py:313-319 | every blob's name stays the digest of its bytes and no blob is changed |
| `OciLayout.EveryEntryNormalized` | api/app/services/oci_converter.py:294-327 | a completed pass normalises every entry, in place and in order |
| `OciLaws.EveryEntryKeepsItsImage` | api/app/services/oci_converter.py:294-327 | every entry names the same image after: the same layers in order and the same config, each with its digest, size, platform and other members, and only the three docker types turned into their OCI counterparts |
| `OciLaws.CompletesIff` | api/app/services/oci_converter.py:294-301 | the pass gets to the end exactly when every entry names a stored JSON document whose config is not null |
| `OciLayout.WrittenIff` | api/app/services/oci_converter.py:294-319 | which blobs are there after the pass, told from the layout before it: the stored ones, and the rewritten form of every docker-typed entry that no earlier entry stops the pass at |
| `OciLayout.NormalizationKeepsConfigIff` | api/app/services/oci_converter.py:347-368 | the reader's answer, errors included, is unchanged exactly unless it fails for want of one of those rewritten forms |
| `OciLayout.NormalizationMayRepair` | api/app/services/oci_converter.py:316-319 | a layout where it does |
| `OciLayout.ReadableConfigIsKept` | api/app/services/oci_converter.py:347-368 | a config that could be read is read unchanged |
| `OciLaws.FindsConfigIff` | api/app/services/oci_converter.py:336-368 | the reader finds a config exactly when the first entry for linux on amd64, or else the first, names a manifest whose config names a document that says so |
| `OciLayout.FailureKeepsIndex` | api/app/services/oci_converter.py:329-333 | a failure part-way leaves the index as it was and the store well formed |
| `OciLayout.CompletedIsClean` | api/app/services/oci_converter.py:321-327 | after a completed pass no referenced manifest has a docker type, and redirected entries match their blob in digest and size |
| `OciLayout.NormalizeTwice` | api/app/services/oci_converter.py:278-333 | a second pass changes nothing, however the first one went |
| `RateLimit.LimitOfKeyUnlessAliased` | api/app/middleware/rate_limit.py:86-91 | a request is judged by the limit of its bucket exactly unless its address spells out another bucket's key |
| `RateLimit.PruneDropsPrefix` | api/app/middleware/rate_limit.py:50-53 | pruning drops exactly the expired prefix |
| `RateLimit.PruneTwice` | api/app/middleware/rate_limit.py:50-53 | pruning early never matters later |
| `RateLimit.CleanupChangesNoDecision` | api/app/middleware/rate_limit.py:56-69 | no decision depends on an earlier pruning or cleanup |
| `RateLimit.AcceptKeepsSpaced` | api/app/middleware/rate_limit.py:94-106 | admitting a request keeps the spacing the bound rests on |
| `RateLimit.WindowBound` | api/app/middleware/rate_limit.py:90-106 | no half-open window of sixty seconds, wherever it starts, holds more admitted requests than the limit |
| `RateLimit.BurstExceeds` | api/app/middleware/rate_limit.py:86-94 | as many ordinary requests as the ordinary limit allows, from an address that spells out an authentication bucket's key, are all admitted into it at once |
| `RateLimit.BoundedIff` | api/app/middleware/rate_limit.py:86-106 | whatever arrives, a bucket stays within its quota in every window exactly when it is an ordinary one or the ordinary limit is within the quota |
| `RateLimit.Replay` | api/app/middleware/rate_limit.py:75-109 | every history that decisions can lead to is that of a run of the limiter |
| `RateLimit.RetryAfterRange` | api/app/middleware/rate_limit.py:99-99 | Retry-After is between 1 and 61 |
| `RateLimit.RetryIff` | api/app/middleware/rate_limit.py:94-104 | coming back later is enough exactly when the deciding time has expired |
| `RateLimit.RetryAdmits` | api/app/middleware/rate_limit.py:90-107 | a client that waits as told, its key idle, is admitted |
| `RateLimit.RateLimiter.MaybeCleanup` | api/app/middleware/rate_limit.py:56-69 | every five hundredth request prunes all buckets and drops the empty ones |
| `RateLimit.RateLimiter.Dispatch` | api/app/middleware/rate_limit.py:75-109 | the answer is the one the full history demands, and the history grows by the request exactly when it is admitted |
| `RateLaws.JudgedBy` | api/app/middleware/rate_limit.py:79-91 | five exempt paths; the two login paths are judged by the login limit under a key of their own, all others by the ordinary limit under the address |
| `RateLaws.AdmittedIff` | api/app/middleware/rate_limit.py:90-99 | a request is admitted exactly when fewer than the limit were in the last sixty seconds |
| `RateLaws.WaitIsTight` | api/app/middleware/rate_limit.py:99-99 | coming back after some whole seconds is enough exactly when they are as many as advertised, or one less and the time left is whole |
| `RateLaws.BoundIff` | api/app/middleware/rate_limit.py:86-106 | a number bounds what a key may have admitted in sixty seconds exactly when no limit of the key is above it |
| `RateLimit.EveryWindowBounded` | api/app/middleware/rate_limit.py:75-109 | at any point of any run, every window of every key is within its quota, unless an aliased request was let into the key under a larger limit |
| `MathGrammar.NoValueIffDividesByZero` | web/src/app/page.tsx:607-614 | an expression has no value exactly when some divisor or modulus in it is zero |
| `MathLaws.SumsAndProducts` | web/src/app/page.tsx:603-632 | between two operands, "+", "-" and "*" give the sum, the difference and the product |
| `MathLaws.Quotients` | web/src/app/page.tsx:607-610 | "/" gives the quotient, and nothing by zero |
| `MathLaws.Remainders` | web/src/app/page.tsx:611-614 | "%" gives what is smaller than the modulus, zero or of the dividend's sign, and a whole multiple away; nothing by zero |
| `MathLaws.SignsAndGroups` | web/src/app/page.tsx:574-592 | signs and parentheses |
| `MathLaws.OrderOfOperations` | web/src/app/page.tsx:597-634 | of two operators in a row the first goes first, unless it adds or subtracts and the second does not |
| `MathLaws.SpaceIff` | web/src/app/page.tsx:549-551 | which characters count as white space, and that they mean nothing around an operand |
| `MathLaws.DigitsRead` | web/src/app/page.tsx:553-572 | a digit is worth its distance from "0", and one more digit makes ten times the number plus that |
| `MathLaws.DecimalIsRead` | web/src/app/page.tsx:569-571 | the decimal form of a number is read as it |
| `MathLaws.DotMoves` | web/src/app/page.tsx:557-563 | moving the dot one digit to the right multiplies by ten |
| `MathLaws.FractionIsRead` | web/src/app/page.tsx:553-572 | with k digits after the dot, ten to the k times the number is the number without the dot |
| `MathReading.WrittenIsRead` | web/src/app/page.tsx:546-641 | every expression, written with any sufficient parentheses and white space, is read as its value, or as nothing exactly when it divides by zero |
| `MathReading.MinimalIsRead` | web/src/app/page.tsx:597-635 | in particular with minimal parentheses: precedence and left associativity |
| `MathLaws.MinimalSparesNone` | web/src/app/page.tsx:597-635 | minimal indeed: no pair of parentheses could be left out |
| `MathReading.EvaluatesIffWritten` | web/src/app/page.tsx:636-641 | a string has a value exactly when it is the text of some expression with that value |
| `MathEvaluator.Evaluator.ParseNumber` | web/src/app/page.tsx:553-572 | the scanner over the shared index reads what the grammar reads |
| `MathEvaluator.Evaluator.ParseFactor` | web/src/app/page.tsx:574-595 | signs, groups and numbers, likewise |
| `MathEvaluator.Evaluator.ParseTerm` | web/src/app/page.tsx:597-618 | the multiplication loop, likewise |
| `MathEvaluator.Evaluator.ParseExpression` | web/src/app/page.tsx:620-634 | the addition loop, likewise |
| `MathEvaluator.SafeEvalMath` | web/src/app/page.tsx:546-641 | the evaluator computes the grammar's reading |
| `Paths.WalkParts` | web/src/app/page.tsx:160-174 | editing the list of parts in place comes to the walk over them |
| `Paths.ResolvePath` | web/src/app/page.tsx:148-178 | never null: the home directory followed by the resolved parts |
| `PathLaws.ResolvedIs` | web/src/app/page.tsx:148-178 | parts between slashes are followed one by one from the working directory, or from home after a slash or "~/" |
| `PathLaws.DotsAndSlashes` | web/src/app/page.tsx:148-178 | "./x" is x, "/x" and "~/x" are x at home from anywhere, ".." leaves a directory but not home |
| `PathLaws.SlashesSeparate` | web/src/app/page.tsx:144-146 | a path splits at its slashes; doubled and trailing ones mean nothing |
| `Paths.ResolvedIsClean` | web/src/app/page.tsx:160-178 | whatever is typed, only plain names remain below the home directory |
| `Paths.ResolvedAgain` | web/src/app/page.tsx:148-178 | resolving a resolved path changes nothing |
| `Paths.TwoStepsAreOne` | web/src/app/page.tsx:148-178 | two relative steps lead where one joint step does |
| `Paths.UpUndoesDown` | web/src/app/page.tsx:163-167 | down to a name and up again leads back |
| `FileTree.LinkWalks` | web/src/app/page.tsx:329-329 | hanging a separate subtree under a directory changes the paths below it and no others |
| `FileTree.UnlinkWalks` | web/src/app/page.tsx:310-310 | deleting a child drops the paths through it and no others |
| `FileTree.Detached` | web/src/app/page.tsx:342-343 | a deleted subtree is whole and apart from the rest |
| `FileTree.DepthBound` | web/src/app/page.tsx:135-142 | no path is longer than there are objects, so cloning ends |
| `FileLaws.ViewIs` | web/src/app/page.tsx:180-190 | a path shows an object without its children, and goes on through the children of directories only |
| `FileOps.WriteView` | web/src/app/page.tsx:263-276 | writing changes what exactly one path shows |
| `FileLaws.WriteRefusedIff` | web/src/app/page.tsx:263-276 | writing is refused exactly when the path's directory is none, or the path is one |
| `FileLaws.WrittenShows` | web/src/app/page.tsx:263-276 | the text replaces a file's or follows it and keeps its mode; a new file has mode "-rw-r--r--"; nothing else changes |
| `FileOps.MakeRefusedIff` | web/src/app/page.tsx:278-300 | refused exactly when a part of the path is a file, or parents are not wanted and one is missing |
| `FileLaws.MadeShows` | web/src/app/page.tsx:278-300 | the directories that were missing show with mode "drwxr-xr-x", everything else as it did |
| `FileOps.AddMissing` | web/src/app/page.tsx:290-292 | adding a missing directory shows it and changes nothing else |
| `FileOps.RemoveView` | web/src/app/page.tsx:302-312 | removing drops a path with all below it and nothing else |
| `FileLaws.RemoveRefusedIff` | web/src/app/page.tsx:302-312 | removing is refused exactly when the path shows nothing, or a directory and that was not asked for |
| `FileOps.ForestIsClone` | web/src/app/page.tsx:137-141 | a new directory over clones of all children is a clone |
| `FileOps.CopyView` | web/src/app/page.tsx:314-331 | a copy shows the source as it was below the target, also inside the source, and changes nothing else |
| `FileLaws.CopyAndMoveRefusedIff` | web/src/app/page.tsx:314-345 | told from what paths show, when a copy or a move is refused, and with which error |
| `FileLaws.HomeAsTarget` | web/src/app/page.tsx:263-345 | the same for the home directory as target, which for writing and removing is "~" in itself |
| `FileLaws.TargetIs` | web/src/app/page.tsx:314-345 | what goes to a directory keeps its name in it, and otherwise gets the name it is given |
| `FileOps.CopyKeepsTreeIff` | web/src/app/page.tsx:324-326 | the tree stays one exactly unless the destination is the home directory itself |
| `FileOps.MoveView` | web/src/app/page.tsx:333-345 | moving takes the whole subtree along when the target is neither the source nor inside it |
| `FileOps.MoveIntoItselfLoses` | web/src/app/page.tsx:342-343 | otherwise exactly that subtree is lost |
| `FileOps.MoveHomeKeepsTreeIff` | web/src/app/page.tsx:336-343 | moving the home directory keeps the tree exactly when it is moved onto itself |
| `FileSystem.CloneNode` | web/src/app/page.tsx:135-142 | a separate tree of new objects that shows the same at every path |
| `FileSystem.FileSystem.GetNode` | web/src/app/page.tsx:180-190 | the object the path leads to, if any |
| `FileSystem.FileSystem.GetParent` | web/src/app/page.tsx:192-200 | the directory that holds the path's slot, and the slot's name |
| `FileSystem.FileSystem.WriteFile` | web/src/app/page.tsx:263-276 | in place: one path shows the new content, all others what they did; a failure changes nothing |
| `FileSystem.FileSystem.MakeDirAt` | web/src/app/page.tsx:278-300 | in place: exactly the missing parts of the path appear; a failure changes nothing, also with parents |
| `FileSystem.FileSystem.RemoveNode` | web/src/app/page.tsx:302-312 | in place: exactly the subtree disappears; a failure changes nothing |
| `FileSystem.FileSystem.CopyNode` | web/src/app/page.tsx:314-331 | in place: the copy of the source, as it was, and nothing else; when the tree stays a tree |
| `FileSystem.FileSystem.MoveNode` | web/src/app/page.tsx:333-345 | in place: what every path shows after a move, for every source and target |
| `SecretsFile.GenerateSecretsEnvContent` | api/app/services/secrets_injector.py:130-154 | the header, then one line per secret in key order |
| `SecretsLaws.LineIs` | api/app/services/secrets_injector.py:143-151 | a value with one of eight characters, spelled out, is quoted, a backslash before every quote and backslash; any other is written as it is |
| `SecretsLaws.LastLine` | api/app/services/secrets_injector.py:142-154 | the secret whose key comes after all others has the last line, after the file of the others |
| `SecretsLaws.NoSecrets` | api/app/services/secrets_injector.py:140-154 | without secrets the file is two comment lines |
| `SecretsLaws.SortedBefore` | api/app/services/secrets_injector.py:142-142 | a key comes before another when it ends or has the smaller character where they part |
| `SecretsLaws.KeyIff` | api/app/schemas/secret.py:12-12 | capital letters, digits and underscores, no digit first |
| `SecretsFile.UnquoteEscaped` | api/app/services/secrets_injector.py:146-149 | unquoting undoes the two escapes, whatever follows, exactly when nothing between the quotes means anything to the reader |
| `SecretsFile.SourcedIff` | api/app/services/systemd_generator.py:188-193 | sourcing the file recovers the secrets exactly when no quoted value has a backtick or a dollar that starts an expansion and no unquoted value an operator or a tilde that stands for a directory; and when it assigns literal values only, they are the secrets |
| `SecretsLaws.SourcesBackIff` | api/app/services/systemd_generator.py:188-193 | the same with every character and the tilde's name spelled out, as an equation |
| `SecretsFile.NotRecoveredWhenSourced` | api/app/services/systemd_generator.py:188-193 | two values for which it does not |
| `SecretsFile.ReadContent` | api/app/services/secrets_injector.py:130-154 | in the format of systemd that the printer names, a reader gets every key and, up to trimming, every value |
| `SecretsFile.RoundTripIff` | api/app/services/secrets_injector.py:145-151 | such a reader recovers the secrets exactly when no unquoted value begins or ends with a trimmed character |
| `SecretsLaws.ReadsBackIff` | api/app/services/secrets_injector.py:145-151 | for a reader that drops blanks and carriage returns: exactly when no value without a special character begins or ends with a carriage return |
| `SecretsFile.CarriageReturnIsKept` | api/app/services/systemd_generator.py:188-193 | a value that such a reader loses and the shell keeps |
| `SecretsFile.ContentIsInjective` | api/app/schemas/secret.py:12-12 | different secrets never print the same file |

## Left out

- Postgres isolation, row locks and SKIP LOCKED: every transaction is one atomic step, a request that raises leaves the table as it was, and rows locked by another transaction are those the sweep skips.
- The partial unique index inside the lifecycle handlers: `DeployModel` has no index; `IpClaims` adds it, as a check at commit.
- IpClaims.LiveAddressesDistinct: assumes that a scan sees every container, and that a creation the attempt gave up on is visible at once or never happens.
- IpClaims.IndexAlwaysHolds: the index is checked once per commit, not once per statement; a transaction it refuses is undone and so is no step.
- ExecutorModel.FailureIsCleanedUp: assumes no other writer during the run; the interleavings with other writers are the subject of `IpClaims` and of the lifecycle runs. Log flushing, webhooks and the work directory are not modelled.
- DeployExecutor.DeployExecutor.ExecuteDeploy: each call to the cluster, the converter or the network allocator is replaced by how it ended; VLAN leases themselves, scheduling scores and quotas are not modelled, and database errors other than the address conflict are not either.
- DeployStore.DeployStore.PromoteDeploy: routing is one yes-or-no outcome; a refused routing request aborts the whole transaction. `RollbackDeploy`'s routing and teardown effects are not modelled.
- DeployExecutor.DeployExecutor.Promote: nothing else happens between the promotion's commit and the route guard's query; `ExecutorModel.GuardAfterOthers`, `GuardNoticesStart` and `GuardMissesStop` say what remains when other handlers do.
- FlatIp.AllocateFlatIp: the configured addresses are numbers; parsing and validating the settings text is left out.
- ReleasePublisher.Remote.Publish: Git objects are represented by what they are digests of; HTTP failures are a parameter that may hit any request, and a request that errs has had no effect (an update whose response alone is lost counts, in `ReleaseProtocol`, as landed).
- Receipts.MakeReceipt: the digits are those of Unicode 14, and Python's limit on the length of a number is not modelled; validating the configuration and the schema hashes is left out; the configured kinds are a parameter.
- OciConverter.LayoutDir.NormalizeLayoutMediatypes: files are written atomically; JSON text is an abstract encode/decode pair and SHA-256 an injective function.
- MathReading.WrittenIsRead: numbers are exact reals, so rounding, infinities and the final test for finiteness are not modelled.
- RateLimit.RateLimiter.Dispatch: the clock never goes back; times are exact reals.
- FileSystem.FileSystem.WriteFile: children are a map of names, so names inherited from JavaScript's object prototype and the order of entries are not modelled, here and in all file operations; paths are resolved ones, as every caller passes; the clock is read once per call.
- FileSystem.FileSystem.CopyNode: copying the home directory into itself recurses without end in the original; here it is an error result, with the knot already tied.
- SecretsFile.ReadContent: systemd's line continuations outside quotes cannot occur in printed files and are not modelled.
- SecretsFile.SourcedIff: what the shell does when a value is expanded, joined or run is one outcome, none. A dollar before any other character is literal, as in all common shells; the characters that start an expansion and the names whose tilde is expanded are parameters. NUL characters, a secret that renames the home directory for later lines, and variables that a shell does not let one assign are not modelled.
- Listing, formatting, pattern matching and all shell commands of the terminal page that are not named above.
- HTTP, LDAP, OIDC, GitHub, Proxmox and BuildKit protocols, roles and authentication, audit logging, notifications, templates, statistics and CRUD routers: easy members, or input and output.
- The reconciler's other passes only log, or rewrite proxy files; they do not step the deploys table.
- DNS labels, VLAN tags, netmasks, firewall rules, scheduler scoring, framework detection: single-function table lookups or arithmetic.
