# Auto-reshare orchestrator and MPC node: a verified model

A Dafny 4.11 model of the parts of the AICW MPC node that decide *who* holds the shares
of a wallet and *when* they are redistributed:

- the **reshare orchestrator**: a scan thread per instance that classifies wallets,
  confirms triggers, selects a committee, takes a per-wallet Consul session lock and
  publishes one reshare per key family, with partial progress, verification and cooldowns;
- the **deterministic committee selection** that every node must compute alike;
- the **peer registry and its ECDH mesh**, whose gates must open only with a keyed quorum;
- the **incremental peer directory** that feeds both.

`dafny verify dfyconfig.toml` checks everything.

## Layout

| file | content |
|---|---|
| `Ordering.dfy` | total orders, sorting, the first k elements of a set |
| `Committee.dfy` | policy, tiers, committee selection and its churn properties |
| `LockProtocol.dfy` | the in-flight lock as a step system over instances, sessions, sweepers and Consul |
| `LockHazards.dfy` | executions from the start that break exclusion, one per hazard |
| `LockManager.dfy` | cooldown marks, stale-lock sweep, retry backoffs |
| `Trigger.dfy` | trigger matrix and confirmation hysteresis |
| `Types.dfy`, `Publisher.dfy` | key families; publishing with retries and partial progress |
| `Verifier.dfy` | post-reshare verification, public-key guard, freezing |
| `Reconciler.dfy` | liveness helpers, the decision for a wallet, a whole scan with its gauge |
| `VerdictTable.dfy` | trigger, verdict, streak and counters of a scan by its inputs alone |
| `Guards.dfy` | what frozen wallets and cooldowns mean for later scans |
| `RegistryModel.dfy`, `Registry.dfy` | registry and mesh as functions; the objects that refine them |
| `Keygen.dfy` | the keygen party |
| `Directory.dfy` | the peer directory with its callbacks |
| `Broadcast.dfy` | the periodic ECDH broadcast loop |
| `Authorizer.dfy` | collecting and checking authorizer signatures |

Conventions.  SHA-256 is a parameter `sha` about which nothing is known.  Times are
integers; durations are int64 nanoseconds where doubling can overflow.  What Consul, the
network and the signers answer is passed in as a parameter, so every theorem holds for
all answers.  A loop that ranges over a Go map picks its elements with `:|`, so its
contract holds for every iteration order.  Go's `ready`, `whitelist` and `ping` maps only
ever hold true entries and no empty id, and are sets here.

## What the proofs say

- **Lock.**  For any number of instances and every interleaving, exclusion holds as long
  as each step is `Safe`: no session of a run expires; an instance does not take a key
  between the two halves of its own release, nor while a sweeper works from a list with an
  old or unreadable record of it; and no sweeper reads the clock over a list with such a
  record of a wallet that has a run.  The condition is exact: a step is safe if and only if
  every safe continuation keeps one run per wallet and its key in Consul (`SafeIff`).  Runs
  may outlive the sweep age as long as nothing sweeps them, and with the sweeper off, which
  is the default, only sessions and releases matter (`MutualExclusionUnswept`).
- **Lock hazards.**  Each of the six ways to be unsafe is reached from the start by safe
  steps, and safe steps alone lead on from it to two runs on one wallet
  (`LockHazards.EveryHazardStrikes`).  Among them: `SweepStale` lists first, judges and
  deletes later, so a key left over by a failed release can be listed, taken again by its
  owner and deleted under the new run.  With sweeps and releases undisturbed, live sessions
  and timely runs suffice (`MutualExclusionAtomic`).  Recreating a session and clearing
  `held` is *not* among the hazards while the old session lives.
- **Backoff.**  A configuration obeys min(max, failure·2^(n−1)) for every n if and only if
  failure ≤ max and the first doubling that reaches max fits in an int64 (`BackoffExact`).
  With failure > max, which the configuration accepts, the first delay is not capped
  (`FirstDelayUncapped`); when the doubling does not fit, the delay at that failure is
  negative (`BackoffOverflows`).
- **Cooldown.**  A scan that reads the cooldown within the window of the last mark does not
  publish (`CoolingNeverPublished`).  The read precedes the lock, so a mark made in between
  is not seen and the wallet is published inside its window (`ReadBeforeMark`).
- **Selection.**  Retain, trim and fill together are one sort: by (not in the old
  committee, hash, id).  Canonicity, maximal overlap, idempotence and stability follow.
- **The scan as a table.**  How many old positions are whitelisted and ready, with the tier,
  the replies and the streak, decides the verdict on a wallet completely (`VerdictCases`,
  `StreakCases`); a whole scan is that table applied in inventory order (`ScanTrace`).
- **Urgent never publishes.**  A plan's members are always ready, so preflight fails
  exactly when fewer than t+1 old members are ready, which is what Urgent means: the
  "act immediately" path always ends deferred (`UrgentDeferred`).
- **The gate and joins.**  `AddPeer` does not recompute `ready`, so an open gate means
  "all peers ready" if and only if nobody joined since the last refresh (`AllReadyIff`);
  every new peer gives an example of the other case (`GateOpenBeforeReady`), and a fresh
  registry reaches one in five steps (`GateOpenBeforeReadyReachable`).
- **Directory keys.**  A peer that stays listed keeps the key first stored for it, even
  when the directory shows another (`StoredKeyKept`).
- **Code against comment.**  The comment on `SweepStale` says that held keys are never
  removed.  The code removes a held key exactly when its listed record is unreadable
  (`HeldSwept`, `HeldKeySwept`).  The model follows the code.

## Model

| member | source | states |
|---|---|---|
| Committee.TierForPicks | pkg/committee/committee.go:109-128 | the tier chosen is the one with the lowest ceiling that covers the active count, else the one with the highest ceiling, said without reference to any order |
| Committee.TierOrderIrrelevant | pkg/committee/committee.go:109-128 | with distinct ceilings, permuting the configured tiers never changes the choice |
| Committee.SelectIgnoresTierOrder | pkg/committee/committee.go:109-148 | with distinct ceilings, two policies that list the tiers in different orders select the same plan, policy hash and errors included |
| Committee.TargetSizeBounds | pkg/committee/committee.go:130-137 | the target is the least of the active count, the cap and the size of the tier with the lowest covering ceiling; it reaches t+1 exactly when the active count does |
| Committee.UniqueSorted | pkg/committee/committee.go:279-297 | the result is strictly sorted and holds exactly the non-empty ids of the input |
| Committee.Retain | pkg/committee/committee.go:196-208 | exactly the old members in the pool, each once |
| Committee.Trim | pkg/committee/committee.go:210-219 | too many survivors: what is kept is the top of the pool when old members come first and ties go by hash; otherwise nothing is dropped |
| Committee.FillCandidates | pkg/committee/committee.go:221-227 | exactly the pool members that were not retained, each once |
| Committee.SortByHash | pkg/committee/committee.go:266-277 | a permutation strictly sorted by (hash, id) |
| Committee.FillUp | pkg/committee/committee.go:230-237 | the retained members followed by exactly as many leading candidates as there are seats |
| Committee.RetainThenFill | pkg/committee/committee.go:191-244 | the two phases deliver `size` distinct members that are the top of the pool in the single order (not old, hash, id) |
| Committee.SelectCommittee | pkg/committee/committee.go:167-258 | the two-phase program equals the one-sort specification on every input and error case, and never reports insufficient candidates |
| Committee.ChosenIsTop | pkg/committee/committee.go:191-248 | the specified committee is strictly sorted, has `size` members, and every member precedes every other pool member in retain order |
| Committee.ChosenUnique | pkg/committee/committee.go:191-248 | only one sequence has these properties |
| Committee.SelectCanonical | pkg/committee/committee.go:5-10 | the plan depends only on the set of pool members and the old members among them: not on order, repeats, empty ids or departed members |
| Committee.SelectSucceedsIff | pkg/committee/committee.go:85-107 | selection succeeds exactly with a consistent policy, a wallet id and t+1 distinct non-empty candidates; then the plan has the size and spare of the covering tier, limited by the cap and the candidates, members from the pool, and the policy's threshold, version and hash |
| Committee.SelectErrors | pkg/committee/committee.go:167-189 | which check refuses a selection, by its inputs |
| Committee.PlanPreferred | pkg/committee/committee.go:191-277 | every member is preferred to every candidate left out: old members first, then the smaller sha256(wallet, node, version), then the smaller id |
| Committee.HashKeySeparates | pkg/committee/committee.go:260-264 | with a collision-free hash the key changes with the wallet, the node and the version |
| Committee.PolicyHashIff | pkg/committee/committee.go:139-148 | with a collision-free hash and distinct ceilings, two policies share their hash exactly when they differ at most in the order of their tiers, whatever characters the version has |
| Committee.DefaultPolicyTable | pkg/committee/committee.go:69-82 | the size and spare of the default policy for every number of candidates |
| Ordering.StringLeIff | pkg/committee/committee.go:266-277 | the order of ids and hashes: a prefix comes first, else the first difference decides |
| Committee.MaximalOverlap | pkg/committee/committee.go:196-219 | no pool subset of the same size shares more members with the old committee |
| Committee.SelectIdempotent | pkg/committee/committee.go:167-258 | selecting again with the plan as the old committee returns the same plan |
| Committee.PoolGrowth | pkg/committee/committee.go:221-237 | enlarging the pool at equal target size brings in only new nodes, so at most as many members change as nodes were added or removed |
| LockProtocol.NoOrphanedHold | pkg/orchestrator/lock.go:96-214 | in every execution, with expiry, recreation, crashes, lost replies and two-step releases: a locally held wallet has an unreleased run of that instance, and an instance without runs holds nothing |
| LockProtocol.GrantMeansFree | pkg/orchestrator/lock.go:178-214 | when Consul grants a request outside a half-done release, no run of any instance is on the wallet |
| LockProtocol.LockStep | pkg/orchestrator/lock.go:96-294 | every safe step keeps the lock invariant: keys, sessions, `held` sets, runs, requests under way and sweepers agree |
| LockProtocol.JudgedMeaning | pkg/orchestrator/lock.go:216-230 | the sweeper goes on to delete a listed key if its record is unreadable, or old and not held by its instance |
| LockProtocol.MutualExclusion | pkg/orchestrator/lock.go:178-294 | for any number of instances and every safe interleaving, sweeps taken apart into list, clock, judgement and delete: at most one run per wallet, its key in Consul under a live session of its own instance, and the node-side signing check sees it |
| LockProtocol.MutualExclusionUnswept | pkg/orchestrator/sweeper.go:11-15 | with the sweeper off, as by default, live sessions and no re-acquiring within a release suffice, however long runs last |
| LockProtocol.MutualExclusionAtomic | pkg/orchestrator/lock.go:230-294 | when nothing comes between the halves of a release or the steps of a sweep, it suffices that sessions live and that no run has reached the sweep age when a sweeper reads the clock |
| LockProtocol.SafeIff | pkg/orchestrator/lock.go:96-294 | the condition is exact: in any state with the lock invariant a step is safe if and only if every safe continuation of it keeps one run per wallet and that run's key in Consul |
| LockProtocol.UnsafeStepDoubles | pkg/orchestrator/lock.go:96-294 | with another instance standing by, an unsafe step is followed by safe steps alone to two runs on one wallet |
| LockProtocol.HalfReleaseClash | pkg/orchestrator/lock.go:284-294 | re-acquiring between the halves of a release is followed by safe steps alone to two instances running the wallet at once |
| LockHazards.HazardReachable | pkg/orchestrator/lock.go:96-294 | for each of the six hazards, safe steps from the start lead to an enabled step that violates that clause of the condition |
| LockHazards.EveryHazardStrikes | pkg/orchestrator/lock.go:96-294 | each hazard strikes alone: with only safe steps before and after it, from the start, two runs end up on one wallet |
| LockHazards.HalfReleaseClashReachable | pkg/orchestrator/lock.go:284-294 | from the start to two instances running one wallet at once, the re-acquire within a release being the only unsafe step |
| LockManager.FailureBackoff | pkg/orchestrator/lock.go:328-339 | the doubling loop computes the specified number of doublings, wrap-around and early cap included |
| LockManager.BackoffClosedForm | pkg/orchestrator/lock.go:332-339 | the delay is min(max, failure·2^(n−1)) for every n, without int64 overflow, whenever the first doubling that reaches max fits |
| LockManager.BackoffExact | pkg/orchestrator/lock.go:332-339 | a configuration obeys that closed form for every n if and only if failure ≤ max and the first doubling reaching max fits in an int64, as it does for every max up to (2^63−1)/2 |
| LockManager.FirstDelayUncapped | pkg/orchestrator/config.go:130-135 | failure above max, which the configuration accepts: the first delay is failure, all later ones max |
| LockManager.BackoffOverflows | pkg/orchestrator/lock.go:332-339 | in every other configuration the delay is negative at the failure whose doubling first reaches max |
| LockManager.CooldownHistory | pkg/orchestrator/lock.go:314-344 | over any history of marks for any wallets, the stored count is the number of failures since the last success and the window follows the closed form |
| LockManager.EligibleIff | pkg/orchestrator/lock.go:301-344 | after any history of marks a cooldown read lets the wallet pass exactly when the window of its last mark is over |
| LockManager.UnreadableIgnored | pkg/orchestrator/lock.go:346-359 | an unreadable cooldown record blocks nothing, and a failure starts to count from one |
| LockManager.RetryBackoffs | pkg/orchestrator/lock.go:115-144 | both session retry loops wait min(60s, 5s·2^k) after k failures |
| LockManager.Manager.SweepStale | pkg/orchestrator/lock.go:232-282 | the targets among the listed records are deleted in listing order up to the first failing delete, and nothing else; the count is the number deleted |
| LockManager.SweptIff | pkg/orchestrator/lock.go:216-230 | the targets are exactly the wallets with an unreadable record, or with one at least maxAge old and not held here |
| LockManager.TargetsNext | pkg/orchestrator/lock.go:243-279 | each record is judged on its own account, whatever was listed before it |
| LockManager.SweptInOrder | pkg/orchestrator/lock.go:243-279 | the records are taken one by one, in listing order |
| LockManager.HeldSwept | pkg/orchestrator/lock.go:216-230 | a key held by this instance is swept exactly when its listed record is unreadable |
| LockManager.HeldKeySwept | pkg/orchestrator/lock.go:232-282 | a sweep deletes a held key whose record is unreadable, against the comment |
| LockManager.Manager.MarkSuccess | pkg/orchestrator/lock.go:314-320 | one success mark applied to the entries, or no change when the write fails |
| LockManager.Manager.MarkFailure | pkg/orchestrator/lock.go:322-344 | one failure mark applied to the entries, or no change when the read or the write fails |
| Trigger.StreakCounts | pkg/orchestrator/trigger.go:88-106 | over any interleaved history, stored streaks lie strictly between 0 and need and count the wallet's own patient calls since its last reset or firing |
| Trigger.SinceIsTailModNeed | pkg/orchestrator/trigger.go:88-106 | that count is the length of the current run of patient calls modulo need |
| Trigger.FiresIff | pkg/orchestrator/trigger.go:88-106 | a call fires iff it is urgent, or patient and completing a multiple of need in the wallet's current run; other wallets have no influence |
| Trigger.FiringsClosedForm | pkg/orchestrator/trigger.go:86-106 | over any further calls whose calls for the wallet are patient, Proactive and Migration mixed and other wallets in between, the wallet fires floor((pending+n)/need) times and (pending+n) mod need stay pending |
| Trigger.ConfirmTracker.constructor | pkg/orchestrator/trigger.go:79-84 | the tracker starts empty with need at least 1 |
| Trigger.ConfirmTracker.Observe | pkg/orchestrator/trigger.go:86-106 | the object follows the history function: it appends the call and answers whether it fires |
| Publisher.ReshareOneWithRetry | pkg/orchestrator/publisher.go:184-202 | a second publish exactly after a failed first one with a live context; the answer is that of the last publish |
| Publisher.ReshareWallet | pkg/orchestrator/publisher.go:157-182 | families are published in order up to the first failure, and exactly those before it are reported, each with the key the network returned |
| Publisher.RunMeaning | pkg/orchestrator/publisher.go:157-202 | in terms of single replies: everything published but a failing last family is done, with the key delivered at the first try or at the second after a failure with a live context; nothing else is |
| Publisher.WalletKeyTypes | pkg/orchestrator/publisher.go:103-117 | exactly the families the wallet holds, EdDSA before ECDSA |
| Publisher.FreshFamilies | pkg/orchestrator/reconciler.go:252-257 | a fresh round attempts exactly the families the wallet holds, or both if it holds none |
| Publisher.RemainingKeyTypes | pkg/orchestrator/publisher.go:119-129 | the attempted families that are not done, in order |
| Publisher.RemainingConcat | pkg/orchestrator/publisher.go:119-129 | what remains is decided family by family, in order |
| Publisher.RemainingIsSuffix | pkg/orchestrator/publisher.go:119-129 | when a prefix is done, what remains is the suffix |
| Publisher.PublishPending | pkg/orchestrator/reconciler.go:244-322 | a run attempts the stored list as it stands or, if empty, the wallet's own families, and leaves exactly those attempted and not completed; something is left exactly after a failure |
| Publisher.LeftIsSuffix | pkg/orchestrator/publisher.go:119-129 | on lists without repeats what is left is the uncompleted suffix |
| Publisher.ProgressStore.SetPending | pkg/orchestrator/progress.go:52-66 | the record becomes the given list, an empty list clears it, a failed write changes nothing, other wallets keep theirs |
| Publisher.ProgressStore.Clear | pkg/orchestrator/progress.go:68-74 | the record is gone unless the delete fails, other wallets keep theirs |
| Publisher.ProgressStore.RunReshare | pkg/orchestrator/reconciler.go:236-333 | on any stored record, readable or not: a fresh run publishes only families the wallet holds, and all of them if none fails, a resumed one the stored list; the families reported, and the record left; on a record left by earlier runs that is one step of the round |
| Publisher.ProgressConserved | pkg/orchestrator/reconciler.go:244-322 | over any sequence of runs, failed reads of the record among them, what is done in the round followed by what is pending is the list the round started with |
| Publisher.RunOutcome | pkg/orchestrator/reconciler.go:244-322 | after any sequence of runs the next one continues the round's list, or starts a new round when nothing is pending or the record is unreadable; its pending list is empty exactly when all its families succeed |
| Publisher.PublishedInOrder | pkg/orchestrator/publisher.go:160-182 | a family is published only when all before it in the round are done: never ECDSA before EdDSA succeeded |
| Verifier.DedupSorted | pkg/orchestrator/verifier.go:206-216 | the in-place compaction leaves the input without repeats of neighbours in the first cells |
| Verifier.CompactSorted | pkg/orchestrator/verifier.go:206-216 | on sorted input the compaction is strictly sorted and keeps the set of elements |
| Verifier.EqualStringSet | pkg/orchestrator/verifier.go:186-204 | true exactly when both lists have the same set of elements |
| Verifier.Verifier.VerifyFamily | pkg/orchestrator/verifier.go:77-141 | effect and flags for one family, with read, write and freeze failures |
| Verifier.Verifier.Verify | pkg/orchestrator/verifier.go:65-144 | OK exactly if every completed family is known, shows the new committee under a higher version and reported its recorded or first key; frozen exactly if some reported key clashed; whatever the order in which families are visited |
| Verifier.VerifiedMeaning | pkg/orchestrator/verifier.go:107-140 | the store after a call, entry by entry, with any failures: recorded keys stay, a first reported key is recorded, a clash freezes the wallet, nothing else changes |
| Verifier.BaselineIsFirst | pkg/orchestrator/verifier.go:113-125 | over any history the baseline of a wallet and family is the first non-empty key that a completed family reported |
| Verifier.FrozenIff | pkg/orchestrator/verifier.go:126-140 | over any history a wallet is frozen exactly when some family later reported a key different from its first |
| Verifier.FreezePermanent | pkg/orchestrator/verifier.go:146-165 | no later call unfreezes a wallet |
| Guards.FrozenNeverPublished | pkg/orchestrator/reconciler.go:128-137 | once a key differed, no later scan publishes the wallet, whatever else it reads |
| Guards.CoolingNeverPublished | pkg/orchestrator/lock.go:301-344 | no scan that reads the cooldown after the last mark and within its window publishes the wallet: the success cooldown, or min(max, failure·2^(n−1)) after the n-th failure in a row |
| Guards.ReadBeforeMark | pkg/orchestrator/reconciler.go:169-215 | a mark made between the cooldown read and the lock is not seen: any confirmed wallet that passes the read is published inside the window the mark opened |
| Guards.SpareMissing | pkg/committee/committee.go:69-82 | confirmed wallets exist: on three of five ready nodes the default policy wants a spare |
| Guards.ConsiderStored | pkg/orchestrator/reconciler.go:128-174 | the loop body asking the stores themselves: published only if both reads succeed, the wallet is not frozen and its cooldown has passed |
| Reconciler.CandidatePool | pkg/orchestrator/types.go:48-58 | strictly sorted, exactly the nodes that are ready, whitelisted and ping-active |
| Reconciler.CountAlive | pkg/orchestrator/types.go:60-69 | the number of positions whose member is alive |
| Reconciler.ReachableCommittee | pkg/orchestrator/types.go:71-85 | the members on the whitelist, in order, also when either side is empty |
| Reconciler.PreflightReady | pkg/orchestrator/reconciler.go:219-234 | true exactly with a whitelisted old member, t+1 ready whitelisted old positions and every new member ready |
| Reconciler.PlanMembersAlive | pkg/orchestrator/reconciler.go:179-185 | every member of a plan drawn from the pool is ready, whitelisted and ping-active, and there are as many as the target |
| Reconciler.PreflightIff | pkg/orchestrator/reconciler.go:187-195 | on such a plan preflight fails exactly when the old quorum is short |
| Reconciler.ReadyOldCount | pkg/orchestrator/types.go:60-85 | the ready count is the number of old positions whose member is whitelisted and ready |
| Reconciler.ReadyOldMembers | pkg/orchestrator/types.go:60-85 | on a committee without repeats that is the number of ready whitelisted members |
| Reconciler.ScanSafety | pkg/orchestrator/reconciler.go:139-215 | every published reshare has t+1 ready whitelisted old members, an alive plan of target size, clean replies and a non-urgent trigger |
| Reconciler.EveryVerdictSafe | pkg/orchestrator/reconciler.go:117-216 | the same for every wallet that a whole scan publishes |
| Reconciler.PublishesIff | pkg/orchestrator/reconciler.go:122-215 | a wallet is published exactly when it has a committee, an id, a pool with a quorum and a confirmed patient trigger, and the freeze, cooldown and lock replies are clean: selection and preflight never stop it then |
| Reconciler.UrgentDeferred | pkg/orchestrator/reconciler.go:161-195 | an Urgent wallet is deferred whatever Consul answers |
| Reconciler.SettlesIff | pkg/orchestrator/reconciler.go:139-153 | with the plan as committee the same snapshot gives no trigger and no migration exactly when the target covers t+1 plus the tier's spare |
| Reconciler.DefaultPolicySettles | pkg/committee/committee.go:69-82 | the default policy always meets that condition, so every plan settles |
| Reconciler.MigrationShrinks | pkg/orchestrator/reconciler.go:144-153 | a migration plan is strictly smaller than the old committee |
| VerdictTable.TriggerTable | pkg/orchestrator/trigger.go:55-68 | the trigger by the number of ready old positions, the covering tier's spare and the target size, migration included |
| VerdictTable.VerdictCases | pkg/orchestrator/reconciler.go:117-215 | skipped, lost, healthy and published, each exactly characterised by the inputs; all else is deferred |
| VerdictTable.StreakCases | pkg/orchestrator/reconciler.go:122-167 | the wallet's streak after its turn, in each case; other wallets keep theirs |
| VerdictTable.PublishedPlan | pkg/orchestrator/reconciler.go:179-215 | what is published is the plan selected for the wallet from its old committee and the pool |
| VerdictTable.ScanTrace | pkg/orchestrator/reconciler.go:117-216 | a scan is one decision per wallet in inventory order, each on the streaks the one before left |
| Types.OldCommitteeCases | pkg/orchestrator/types.go:28-39 | the EdDSA entry decides unless it has no members, then the ECDSA entry; empty exactly if no entry has members |
| Reconciler.TallyBalanced | pkg/orchestrator/reconciler.go:98-115 | scanned = healthy + deferred + triggered + unrecoverable |
| Reconciler.Orchestrator.Finish | pkg/orchestrator/reconciler.go:236-242 | runs ending at any moment leave the gauge equal to the number of live runs |
| Reconciler.Orchestrator.Spawn | pkg/orchestrator/reconciler.go:213-215 | a new run below the maximum keeps the gauge exact and within bounds |
| Reconciler.Orchestrator.DecideTriggerFor | pkg/orchestrator/reconciler.go:139-153 | the trigger of the matrix, raised to Migration only for a healthy oversized committee |
| Reconciler.Orchestrator.Consider | pkg/orchestrator/reconciler.go:122-211 | the loop body gives the specified verdict and streaks for every combination of replies |
| Reconciler.Orchestrator.TakeTurn | pkg/orchestrator/reconciler.go:117-216 | with runs finishing before and after the gauge is read: saturation changes nothing, otherwise one run is spawned per acquired lock |
| Reconciler.Orchestrator.ReconcileOnce | pkg/orchestrator/reconciler.go:82-217 | without inventory or snapshot nothing happens; otherwise the scan decides the wallets in order, stops early only when saturated, reports in each counter the number of verdicts of its kind, publishes only safe plans, and keeps the gauge equal to the live runs and within the maximum |
| RegistryModel.RegistryHistory | pkg/mpc/dynamic_registry.go:218-324 | over all joins, leaves, polls, rejoins, key arrivals and ceremonies: readyCount is 1 plus the ready peers, ready peers are registered, registered peers are in the mesh, and the flag speaks of the peers known at the last refresh |
| RegistryModel.StepKeeps | pkg/mpc/dynamic_registry.go:693-777 | each single operation keeps that invariant |
| RegistryModel.JoinMeaning | pkg/mpc/dynamic_registry.go:218-283 | what a join changes: nothing for this node or a refused peer, the key exchange of a known peer, registration and mesh for a new one |
| RegistryModel.LeaveMeaning | pkg/mpc/dynamic_registry.go:294-324 | what a leave removes; the mesh stays |
| RegistryModel.LeaveReadiness | pkg/mpc/dynamic_registry.go:304-322 | readiness, counter and flag after a leave |
| RegistryModel.PollMeaning | pkg/mpc/dynamic_registry.go:693-777 | after a poll a peer is ready exactly if listed, counter and flag follow, a peer that dropped out loses its key, epochs are those listed |
| RegistryModel.RejoiningMeaning | pkg/mpc/dynamic_registry.go:724-734 | a poll renegotiates exactly with listed peers that were not ready or have a new epoch |
| RegistryModel.RejoinMeaning | pkg/mpc/dynamic_registry.go:607-634 | a renegotiation drops the key and keeps the peer in the mesh |
| RegistryModel.CeremonyMeaning | pkg/mpc/dynamic_ecdh_session.go:262-290 | a ceremony brings its committee without this node into the mesh |
| RegistryModel.GateMeaning | pkg/mpc/dynamic_registry.go:779-834 | the gate is open exactly when the peers of the last refresh exist and are all ready, a t+1 quorum is ready, and every mesh peer has a key; then every registered peer has one |
| RegistryModel.AllReadyIff | pkg/mpc/dynamic_registry.go:264-282 | behind an open gate all peers are ready if and only if none joined since the last refresh |
| RegistryModel.GateOpenBeforeReady | pkg/mpc/dynamic_registry.go:264-282 | any accepted new peer whose key has arrived passes the gate before it is ready |
| RegistryModel.GateOpens | pkg/mpc/dynamic_registry.go:779-834 | from a fresh registry: a peer that joined, is ready and has its key opens the gate |
| RegistryModel.GateOpenBeforeReadyReachable | pkg/mpc/dynamic_registry.go:264-282 | from a fresh registry: a run that ends with the gate open although a registered peer is not ready |
| Registry.EcdhSession.AddPeer | pkg/mpc/dynamic_ecdh_session.go:136-181 | a new peer enters the mesh, a known peer loses its stale key, this node is ignored |
| Registry.EcdhSession.EnsureECDH | pkg/mpc/dynamic_ecdh_session.go:262-290 | the mesh grows by the committee without this node, which becomes the scope unless empty |
| Registry.EcdhSession.MeshCompletedKeyCount | pkg/mpc/dynamic_ecdh_session.go:220-236 | counts exactly the mesh peers with a key, independent of the ceremony scope |
| Registry.IdentityStore.UnregisterPeerPublicKey | pkg/identity/dynamic_store.go:322-334 | a known peer loses public and symmetric key, an unknown one changes nothing |
| Registry.DynamicRegistry.constructor | pkg/mpc/dynamic_registry.go:191-216 | a fresh registry counts itself and is not ready |
| Registry.DynamicRegistry.AddPeer | pkg/mpc/dynamic_registry.go:218-283 | the join of the model, with its refusals and the rejoin path |
| Registry.DynamicRegistry.RemovePeer | pkg/mpc/dynamic_registry.go:294-324 | the leave of the model, counter and flag included |
| Registry.DynamicRegistry.UpdateReadyState | pkg/mpc/dynamic_registry.go:757-777 | the flag computed by counting equals "there are peers and all are ready" |
| Registry.PollRefines | pkg/mpc/dynamic_registry.go:718-754 | visiting the peers in any order with incremental updates equals a recount from scratch |
| Registry.RejoinsRefine | pkg/mpc/dynamic_registry.go:724-734 | renegotiation starts exactly for peers newly ready or ready with a new epoch |
| Registry.DynamicRegistry.PollPeer | pkg/mpc/dynamic_registry.go:719-751 | the updates for one peer |
| Registry.DynamicRegistry.CheckPeerReadiness | pkg/mpc/dynamic_registry.go:693-755 | a poll equals the recount, keeps the invariant and reports the rejoining peers |
| Registry.DynamicRegistry.HandleECDHRejoin | pkg/mpc/dynamic_registry.go:607-634 | the stale key is dropped and the peer is in the mesh |
| Registry.DynamicRegistry.ArePeersReady | pkg/mpc/dynamic_registry.go:794-834 | answers the gate condition of the model |
| Registry.DynamicRegistry.AreCeremonyReady | pkg/mpc/dynamic_registry.go:836-875 | open exactly for a committee of at least t+1 with this node in it and every other member ready and keyed |
| Registry.DynamicRegistry.GetReadyPeersIncludeSelf | pkg/mpc/dynamic_registry.go:1005-1018 | lists exactly the ready peers and this node |
| Keygen.GetKeygenParty | pkg/mpc/dynamic_registry.go:1026-1058 | the filtered party is the one selected from the set of ready nodes, or nobody, whatever order they are listed in; the unfiltered one is all of them |
| Keygen.TwoNodesAgree | pkg/mpc/dynamic_registry.go:1006-1058 | two registries that see the same nodes ready compute the same party |
| Keygen.KeygenAgreement | pkg/mpc/dynamic_registry.go:1031-1036 | nodes with the same ready set compute the same party: the selected committee, within the cap, exactly when the ready set has a quorum, else nobody |
| Directory.ParsePeers | pkg/identity/dynamic_store.go:515-527 | the snapshot's peers without this node, malformed entries skipped, last entry wins |
| Directory.ParsedMeaning | pkg/identity/dynamic_store.go:515-527 | a peer is listed exactly if some readable entry names it and it is not this node; its last entry gives the key |
| Directory.DiffAdded | pkg/identity/dynamic_store.go:541-546 | exactly the unknown listed peers are added with the listed key |
| Directory.DiffRemoved | pkg/identity/dynamic_store.go:547-553 | exactly the unlisted peers lose their public and symmetric keys |
| Directory.CallbacksAdded | pkg/mpc/dynamic_registry.go:333-343 | each added peer is offered to the registry under its stored key |
| Directory.CallbacksRemoved | pkg/mpc/dynamic_registry.go:344-349 | each removed peer leaves the registry |
| Directory.OnListing | pkg/identity/dynamic_store.go:515-563 | a listing with its callbacks is one snapshot of the model, whatever the order of changes |
| Directory.SnapshotRefines | pkg/identity/dynamic_store.go:515-563 | a snapshot leaves the registry with exactly the stored peers whose stored key is accepted |
| Directory.DirectoryRefines | pkg/identity/dynamic_store.go:485-567 | after any history of listings and single callbacks, with polls, rejoins, key arrivals and ceremonies anywhere between them, the stored peers are the last listing's and, whenever no callback is outstanding, the registry's are those whose stored key is accepted |
| Directory.DirectoryFromStartup | cmd/aicw-node/main.go:314-342 | the same for a node's whole life, from startup on a preloaded store in any order |
| Directory.StoredKeyKept | pkg/identity/dynamic_store.go:541-553 | a peer that stays keeps its stored key, whatever the snapshot shows; a newcomer gets the listed one; one that leaves loses both keys |
| Broadcast.PeriodicBroadcast | pkg/mpc/dynamic_registry.go:545-605 | the loop ends by grace exactly at the first tick whose unbroken run of non-empty fully keyed ticks spans more than the grace period |
| Broadcast.RunStart | pkg/mpc/dynamic_registry.go:574-594 | the run reaches back to the first full tick after the last tick that was not full |
| Broadcast.ExpiredIff | pkg/mpc/dynamic_registry.go:513-594 | the grace period is over exactly when the longest run of ticks with a non-empty fully keyed mesh spans more than thirty seconds |
| Broadcast.AtMostOneLoop | pkg/mpc/dynamic_registry.go:517-548 | in every interleaving of restarts and exits at most one loop is alive and the flag tells whether |
| Broadcast.EnsureStarts | pkg/mpc/dynamic_registry.go:525-548 | asking for the loop leaves exactly one alive, an exit none |
| Authorizer.Collect | pkg/orchestrator/authorizer.go:91-117 | one non-empty signature per signer in order, or nothing on a repeated id, an error or an empty signature |
| Authorizer.AuthorizeInitiatorMessage | pkg/identity/dynamic_store.go:792-829 | accepts exactly when disabled, or all required ids signed and every signature verifies under a configured key |
| Authorizer.CollectedAccepted | pkg/identity/dynamic_store.go:794-856 | what was collected is accepted exactly when the required ids are among the signers and every signer's signature verifies under a configured key |

## Left out

- Desktop GUI, installation, process management, CLI entry points, configuration loading, node-web client: plumbing without protocol content.
- Consul, NATS, HTTP and JSON as such: only a key-value store with sessions is kept; malformed values appear where the code branches on them.
- Cryptography and the MPC ceremonies themselves: uninterpreted functions and arbitrary replies.
- Audit records: written for operators, never read back by the code modelled here.
- Matching a reshare result to its session: waiters are keyed by wallet and family only, so no per-session claim is made.
- Agreement of the EdDSA and ECDSA committees after a partial failure: the resumed family may get a later plan.
- EnsureCeremonyReady: its waiting loop; the gates it polls are modelled.
- Liveness of the broadcast loop after a rejoin: the compare-and-swap can miss a loop that is just exiting.
- Ties between tiers with equal ceilings: the library sort promises no order; the model keeps the configured one, and TierForPicks holds for any.
- Counts read at one tick of the broadcast loop: taken at one moment, although the program makes two calls.
- LockProtocol.MutualExclusionAtomic: all instances share one clock; that runs end within the sweep age (twice the result timeout plus five minutes, against a publishing cap of twice the timeout plus one minute) is an assumption on steps, shown necessary by SafeIff.
- Publisher.ProgressConserved: crash-free runs whose store writes succeed; single runs with failing writes are covered by Publisher.ProgressStore.RunReshare.
- Directory.DirectoryRefines: the difference to a listing is one event, as it is taken under the store's lock, and the membership verifier is fixed.
- Verifier.BaselineIsFirst, Verifier.FrozenIff: calls without Consul failures; single calls with failures are covered by Verifier.Verifier.Verify.
- Stake stubs, whitelist parsing, recovery cache, liveness of scans: easy or input and output only.
