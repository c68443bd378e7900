# Verified model of the control plane

This project models the decision procedures and state machines of the control plane in Dafny and
proves what they promise. Each module follows one part of the repository:

- `ChainMatching`, `ForwardChains`, `DeletionDependencies`, `DeletionPlan`, `DeletionSteps`: deleting a server.
  Which forward chains keep a path of distinct servers (bipartite matching by augmenting paths, with a Hall
  violator when it fails), which nodes and tunnels have to go with the server (least fixpoints, whatever
  the iteration order), how the two fit together, and the ordered, resumable plan that carries the deletion out.
- `Words`, `ReplayWindow`, `MachineWindow`, `SecureChannel`: the secure channel. The 64-bit anti-replay window
  refines the set of accepted numbers, on numbers and on a 64-bit machine word; of two ends of a channel the
  receiver returns each text at most once, whatever arrives, unless bytes arrive that open though they were not
  sealed.
- `AccessSwap`, `DeleteGate`: disabling, enabling and deleting a user. Swapping credentials is undone
  exactly, also across edits by others; removals pass gates that compare credentials as multisets.
- `IdentityResolution`, `ManagementView`, `NodeParents`, `NodeOwners`: who owns a runtime identity, a connection
  total, or a node.
- `Management`, `ManagementQueue`, `UpdateProgress`, `HelperBatch`, `CoreMode`, `HelperCredentials`: the helper
  state machine. Command queues, progress posts, the batch upgrade scheduler, the core-mode reconciler and the
  life of install tokens and credentials in memory and on disk.
- `DurableWrite`: saving the helper state so that a crash at any point of any run loses neither state, and
  recovery.
- `BillingCycle`: the monthly reset windows of traffic groups.

## How the model is built

State that the program updates in place is held by a class whose methods reassign it; loops over lists and
maps are loops here, and a loop over a Go map picks the next key arbitrarily. Pure decisions are functions.
A method is proved against a declarative specification, and what the program promises is then proved of
that specification or of every run of steps. Each method's contract states that it is such a step: the methods
on queues ensure `Stepped` for every queue, those on credentials end in the `Step` of their operation, and
two channels are run against each other by `Exchange`.

Where such a specification is a function close to the program's own steps, a further statement says what it means
record by record and without it: `RootOwnerByTheRules`, `OwnerOfMeans`, `EffectiveMeansCounts`, `AppliedIs`,
`AfterReportIs`, `RepairIsDueMeans`, `NonceFoldsInTheNumber`, `SurvivorsStay` and others. The methods' contracts use
those statements.

- Integers are unbounded, except that sequence numbers and bitmaps are words below 2^64 with explicit
  wrap-around and truncation, and identifiers are 64-bit. Counters in totals do not wrap. Times are integers.
- Hashes stand for themselves: equal hashes mean equal values. Message authentication and encryption are
  abstract: a signature is by one key over exactly the fields, and opening undoes sealing.
- JSON objects are records; text is trimmed and lower-cased before it enters the model.
- Clocks, random identifiers, reports, query results and the outcome of a save are parameters or arbitrary
  choices. Fresh random secrets and command identifiers are assumed not to have been drawn before, in any
  earlier state, those lost by a crash included. Times may be arbitrary; where a property of runs needs them
  not to go back, its lemma says so.
- Progress reports name one of the allowed phases (the handler refuses others).

## What the proofs found

For each of these a lemma shows an input, and a statement over all inputs says exactly when the property holds.

- **Superseded credentials.** `saveLocked` can fail before the file is replaced, or after it, when only the
  directory is not synced. A credential superseded in memory by an operation whose save failed comes back when
  the process restarts (`FailedSaveThenRestart`). A report's promotion whose save fails after the file was
  replaced is taken back in memory though it stands on disk: the old credential goes on authorising, and the
  next save undoes the disk (`LostPromotionUndoesTheDisk`). Over all runs of operations, failed saves, restarts
  and crashes a minted credential can authorise again exactly if it has a place in memory or in something a
  crash may leave on disk (`AuthorisesAgainExactlyIfPlaced`), and memory and disk stay in step exactly unless a
  promotion is lost in that way (`InStepExactlyUnlessPromotionIsLost`). A redeemed install token never opens
  again in any of these runs (`RedeemedAtMostOnce`).
- **Damaged state file.** A comment in `durable_write.go` (33-34) says that a damaged file never replaces the
  last good backup. That holds for recovery, which validates first. A *save* publishes the previous file as
  the backup without reading it, so a save that starts from a damaged file can leave nothing to recover when
  interrupted: `DamagedFileCanReplaceTheGoodBackup`, and `SaveIsSafeExactlyFromAGoodFile` for the condition.
- **Failed save as backup.** A save that replaced the file and was then reported as failed becomes the next
  save's backup, so recovery from a damaged file can bring back a state no save of which completed:
  `FailedSaveCanBecomeTheBackup`. Over every run of completed and failed saves, crashes and loads,
  `DamagedFileRecovers` says exactly which states a damaged or missing state file recovers, and
  `RecoversACompletedSaveExactlyIf` that such a state is of a completed save exactly if what last changed the
  state file, before the save that published the backup, was a completed save or a crash that left the file of one.
- **Second delete gate.** For a plan that deletes a whole inbound, the gate on default credentials can fail
  after the gate on other credentials has passed, namely when a binding without a user name accounts for
  another entry: `NamelessBindingTripsTheSecondGate`, and `SecondGateFollowsFirst` for the condition.
- **Core mode.** On leaving a pass the desired mode is the known recorded mode unless a change is pending,
  exactly except where the recorded mode was to be adopted, a repair was due, and no command could be made for
  want of an identifier or a signing key; then the intent is not stored at all. `Reconcile` states the
  condition, on what is known before the call; `AdoptionIsMissedWithoutAnIdentifier` is an input.
- **Tunnel labels.** Labels spread to earlier hops once, before the forwarding closure, so a later hop of a
  labelled chain can go while an earlier one stays: `LaterHopGoesEarlierHopStays`, an inventory and a deleted
  server with that outcome. The result is closed under labels exactly if whatever stands before a hop that leads
  to a labelled one leads to a labelled one, too: `ClosureKeepsLabelsExactlyIf`.
- **Replay window.** An envelope's number is accepted before the envelope is authenticated, so a forged
  envelope can use a number up: `ForgedEnvelopeUsesUpItsNumber`. `Exchange` states exactly which genuine
  envelopes are delivered, whatever else arrives: those whose number is fresh among all that was claimed. Each
  genuine text comes out at most once in any case.
- **Cyclic node parents.** On a cycle every node gets an entry without users. Whether it is marked as backed by
  an inbound is decided by the cycle's node that resolution meets first: `OrderMatters` gives two orders with
  different flags, and by `OrderMattersExactlyOnMixedCycles` the order is irrelevant exactly if the nodes on the
  cycle agree.
- **Manual relations.** With only manual relations of several users, identities nobody owns are not listed as
  unassigned: `UnownedIsNotListed`. `Resolve` states exactly when the list is that of the identities without an
  owner.

## Model

| member | source | states |
|---|---|---|
| ChainMatching.Matcher.Assign | server_delete_dependencies.go:240-254 | one augmenting search: it keeps the matching injective, serves one hop more on success, and on failure has visited every option of the hop and of every hop served by a visited server |
| ChainMatching.Matcher.HasDistinctServers | server_delete_dependencies.go:255-260 | true exactly if every hop can have a server of its own; on false the returned hops have fewer servers than hops among them |
| ChainMatching.ChainHasPath | server_delete_dependencies.go:235-261 | true exactly if an injective choice of one server per hop exists, each from the hop's group |
| ChainMatching.MoveKeepsMatching | server_delete_dependencies.go:246-250 | handing a server to another hop keeps the matching injective, with only visited servers changed |
| ChainMatching.MatchingIsPath | server_delete_dependencies.go:255-260 | a matching that serves all hops is a path of distinct servers |
| ChainMatching.Stuck | server_delete_dependencies.go:240-259 | a failed search yields a Hall violator: the hop, and the hops served by the visited servers |
| ChainMatching.ViolatorExcludesPaths | server_delete_dependencies.go:235-261 | where some hops have together fewer servers than hops, no path exists |
| ForwardChains.CollectMembers | server_delete.go:262-272 | a server stays in a group exactly if a row puts it there, it is known and it is not the deleted one, in the order of the rows; affected are exactly the groups that had the deleted server |
| ForwardChains.SurvivorsStay | server_delete.go:262-271 | a group's survivors are exactly the servers that stay in it, told by rows and servers alone |
| ForwardChains.SurvivorsInOrder | server_delete.go:262-271 | the survivors of a group come in the order of their rows |
| ForwardChains.CollectHops | server_delete.go:276-288 | the groups of every chain in hop order, and the chains with an affected hop, by whether the hop has members left |
| ForwardChains.TryChains | server_delete.go:289-293 | a degraded chain is broken exactly if its surviving members admit no path, in whatever order chains are tried |
| ForwardChains.DecideChains | server_delete.go:262-293 | a chain is broken exactly if the deletion touches it and there is no choice of pairwise different servers, one per hop, each by a row of the hop's group and known and not deleted; every other touched chain is degraded |
| ForwardChains.SurvivesExactlyIfPath | server_delete_dependencies.go:235-261 | a choice of different servers that stay exists exactly if the survivors of the groups have a path in the sense of the matching |
| ForwardChains.EmptyHopExcludesPaths | server_delete.go:273-288 | a chain marked for an emptied hop has no path, so it need not be tried |
| DeletionDependencies.CloseNodes | server_delete.go:315-342 | the passes end with the least set of nodes that contains the seeds and is closed under the parent, chain, routed-target and exhausted-relay-group rules |
| DeletionDependencies.NodeMustGo | server_delete.go:318-340 | a node is taken exactly if it depends on a removed one |
| DeletionDependencies.NodeClosureIsUnique | server_delete.go:315-342 | the set does not depend on the order in which nodes are visited |
| DeletionDependencies.NodeClosureIsMonotone | server_delete.go:315-342 | more seeds never remove fewer nodes |
| DeletionDependencies.TrimRelayGroups | server_delete.go:372-402 | exactly the retained nodes whose relay group lost a member get a trimmed group, made of their remaining members in order |
| DeletionDependencies.KeptMembers | server_delete.go:372-402 | trimming keeps exactly the members that are not removed |
| DeletionDependencies.RetainedNodeKeepsItsReferences | server_delete.go:315-402 | a retained node references no removed node, and its trimmed relay group still has an existing member |
| DeletionDependencies.CollectOwnHosts | server_delete.go:232-248 | exactly the addresses of the server that no other server has |
| DeletionDependencies.BreakChain | server_delete_dependencies.go:155-177 | exactly the hops of a chain up to its last one on the server or leading to it |
| DeletionDependencies.CollectTunnels | server_delete_dependencies.go:105-177 | the table of all tunnels, and as seeds exactly those on the server or leading to it, and the hops of chains before such a one |
| DeletionDependencies.BreakLabels | server_delete_dependencies.go:178-202 | the seeds and everything before the last broken hop of a labelled chain |
| DeletionDependencies.CloseTunnels | server_delete_dependencies.go:203-218 | the loop ends with the least set of tunnels that contains the labelled ones and is closed under forwarding to a removed hop |
| DeletionDependencies.ClosureIsReachability | server_delete_dependencies.go:203-218 | a tunnel goes exactly if forwarding leads from it, hop by hop, to a labelled one |
| DeletionDependencies.ClosureKeepsLabelsExactlyIf | server_delete_dependencies.go:192-218 | the final set is closed under labels exactly if every hop before one that leads to a labelled hop leads to one, too |
| DeletionDependencies.LaterHopGoesEarlierHopStays | server_delete_dependencies.go:149-218 | the tunnels, hosts and deleted server for which a later hop of a labelled chain goes and an earlier one stays, from the seeds that this server has |
| DeletionDependencies.PlanDependencies | server_delete_dependencies.go:178-232 | tunnels, the nodes listening behind removed tunnels, and the node closure over all seeds together |
| DeletionDependencies.RetainedPathsAvoidBrokenHops | server_delete_dependencies.go:203-227 | no retained tunnel forwards to a removed hop, and no retained node listens behind one |
| DeletionPlan.AddChainNodes | server_delete.go:294-298 | the seeds gain exactly the nodes on a broken chain and those pinned to the deleted server |
| DeletionPlan.PlanRemoval | server_delete_dependencies.go:105-232 | from the listed chains, tunnels and the deleted server to the removed nodes and tunnels: the seeds are exactly what the server takes down; every node on a chain without a surviving path, pinned to the server or behind a removed tunnel goes; the removed nodes and tunnels are the least closures |
| DeletionPlan.RetainedNodesKeepTheirChains | server_delete.go:262-342 | a retained node lies only on chains that keep a path of distinct surviving servers, is not pinned to the deleted server, and depends on no removed node |
| DeletionSteps.AssembleSteps | server_delete.go:555-576 | the steps as one list, each with nothing done yet: packages, other relations, dependent nodes, direct nodes, then helper, server, sweep and verification |
| DeletionSteps.PlanIsOrdered | server_delete.go:554-576 | every package and node step comes before the server's steps, and verification is the last step |
| DeletionSteps.TakeMovesThePrefix | server_delete_execute.go:41-79 | the completed steps stay a prefix, which a request extends by one exactly if the step succeeds; no other step changes |
| DeletionSteps.Record | server_delete_execute.go:52-68 | what one outcome records on the first open step, and the state of the plan |
| DeletionSteps.FindOpen | server_delete_execute.go:47-51 | the step attempted is the first that is not completed |
| DeletionSteps.AttemptsFollowTheOrder | server_delete_execute.go:47-79 | when a step is attempted, every step of lower rank is completed, so the server goes after all packages and nodes |
| DeletionSteps.DependenciesComeFirst | server_delete_execute.go:47-79 | the same by kinds: packages, configuration, nodes, helper, server, sweep, verification |
| DeletionSteps.DeletedMeansEverythingIsDone | server_delete_execute.go:66-68 | a plan in state deleted has every step completed |
| DeletionSteps.DeletedAfterEnoughSuccesses | server_delete_execute.go:41-79 | whatever fails or waits in between, a plan is deleted exactly after as many successes as it had open steps |
| DeletionSteps.Deletion.Execute | server_delete_execute.go:41-79 | one request on the plan in memory, kept on disk only if the save succeeds, with the invariants of both |
| DeletionSteps.Deletion.Reload | server_delete.go:634-642 | the saved plan is taken up again, in a state the invariants hold for |
| Words.ShiftedBit | official_secure_channel.go:194-199 | shifting a 64-bit word left moves every bit up and drops those beyond 63 |
| Words.SetBit | official_secure_channel.go:201-208 | or-ing in one bit sets that bit and no other |
| ReplayWindow.SlideTracks | official_secure_channel.go:193-203 | sliding the window keeps bit i equal to whether the maximum less i was accepted |
| ReplayWindow.MarkTracks | official_secure_channel.go:204-209 | marking a number inside the window does too |
| ReplayWindow.AcceptRefines | official_secure_channel.go:189-210 | a call accepts exactly the numbers that are nonzero, not accepted before, and above the maximum or less than 64 below it, and keeps the window exact |
| ReplayWindow.RunTracks | official_secure_channel.go:189-210 | after any sequence of calls bit i is set exactly if the maximum less i was accepted |
| ReplayWindow.VerdictIsFreshness | official_secure_channel.go:189-210 | over any sequence of calls the verdict is the rule on the set of numbers accepted so far |
| ReplayWindow.NeverTwice | official_secure_channel.go:189-210 | no number is accepted twice |
| ReplayWindow.FirstInWindowSucceeds | official_secure_channel.go:189-210 | the first arrival of a number inside the window is accepted |
| ReplayWindow.MaxIsLargestAccepted | official_secure_channel.go:189-210 | the maximum is the largest number accepted |
| MachineWindow.AcceptOnMatches | official_secure_channel.go:189-210 | one call on any bitmap whose operations obey the three bit laws does what the window on numbers does |
| MachineWindow.AcceptsTheFresh | official_secure_channel.go:189-210 | after any calls such a bitmap accepts exactly the numbers not accepted before and less than 64 below the highest |
| MachineWindow.MachineIsLawful | official_secure_channel.go:194-209 | shift, or and and on a 64-bit word obey the three bit laws |
| MachineWindow.WordAcceptsTheFresh | official_secure_channel.go:189-210 | so after any calls the 64-bit word accepts exactly the fresh numbers |
| SecureChannel.BigEndianRoundTrip | official_secure_channel.go:159-181 | the sequence number is read back from its eight bytes |
| SecureChannel.BigEndianByte | official_secure_channel.go:159-181 | byte i of the eight is the one of weight 256^(7-i) |
| SecureChannel.XorCancels | official_secure_channel.go:212-220 | xor with the same byte is injective |
| SecureChannel.XorBit | official_secure_channel.go:212-220 | each bit of the xor is set exactly if it is set in one of the two bytes |
| SecureChannel.NonceIsInjective | official_secure_channel.go:212-220 | in one direction different sequence numbers have different nonces |
| SecureChannel.NonceFoldsInTheNumber | official_secure_channel.go:212-220 | the nonce has the first four bytes of the base, and in bit k of the last eight differs from the base exactly if that bit of the number is set |
| SecureChannel.BaseXorNonceIsTheNumber | official_secure_channel.go:212-220 | nonce and base xor-ed byte by byte are twelve bytes whose big-endian value is the sequence number |
| SecureChannel.EnvelopeRoundTrip | official_secure_channel.go:159-187 | opening an envelope gives back the number and the text |
| SecureChannel.EnvelopeLayout | official_secure_channel.go:159-168 | an envelope is the version byte 1, the number in eight big-endian bytes, and the text sealed under the nonce that folds the number in |
| SecureChannel.Channel.Encrypt | official_secure_channel.go:159-168 | the envelope under the next number of the sending direction, which advances: the number's bytes, then the text sealed under the nonce that folds this number into the sending base |
| SecureChannel.Channel.Decrypt | official_secure_channel.go:170-187 | malformed, replayed, undecryptable or the text, opened under the nonce that folds the claimed number into the receiving base; the number is used up before the text is authenticated |
| SecureChannel.Channel.AcceptSequence | official_secure_channel.go:189-210 | the window in the channel's own fields behaves as the window above |
| SecureChannel.EndsMatch | official_secure_channel.go:131-136 | what one end sends with, the other receives with, in both directions |
| SecureChannel.SendAll | official_secure_channel.go:159-168 | one end encrypts texts under the numbers 1, 2, 3, ... |
| SecureChannel.ReceiveAll | official_secure_channel.go:170-210 | one end decrypts any arrivals: each result is the one given by what was claimed before it |
| SecureChannel.Exchange | official_secure_channel.go:131-210 | two ends of one session, any reordering, repetition, loss and foreign bytes: a genuine envelope is delivered unaltered exactly if its number is fresh, and each text at most once by its own envelope; if no foreign bytes that arrive open, every text returned was sent and comes out once |
| SecureChannel.GenuineTextsComeOutOnce | official_secure_channel.go:170-210 | whatever else arrives, forged envelopes included, the envelope of a text delivers it at most once |
| SecureChannel.EveryTextIsReturnedAtMostOnce | official_secure_channel.go:170-210 | if whatever opens on arrival was sealed by the sender, no number yields a text twice and no other text comes out |
| SecureChannel.GenuineTrafficIsUnforged | official_secure_channel.go:159-187 | that holds of all traffic in which no foreign bytes open, genuine traffic among it |
| SecureChannel.AssumptionsCanBeMet | official_secure_channel.go:159-187 | a cipher and traffic with foreign bytes for which all assumptions hold |
| SecureChannel.FirstArrivalIsDelivered | official_secure_channel.go:170-210 | the first arrival of an envelope is delivered unless something claimed its number, or one 64 above it, before |
| SecureChannel.ForgedEnvelopeUsesUpItsNumber | official_secure_channel.go:170-187 | the input for which bytes that do not open make the genuine envelope a replay |
| SecureChannel.NoncesNeverRepeat | official_secure_channel.go:159-168 | no two of the first 2^64 - 1 messages of a direction share a nonce |
| BillingCycle.LastDayIsMonthLength | package_traffic_groups_enforcement.go:27-30 | the last day of a month, leap years included |
| BillingCycle.DaysOfTheMonths | package_traffic_groups_enforcement.go:27-30 | 30 days for April, June, September and November, 28 or 29 for February, 31 for the others |
| BillingCycle.LeapDays | package_traffic_groups_enforcement.go:27-30 | February has 29 days exactly in the years divisible by 4 but not by 100, or by 400 |
| BillingCycle.ResetFallsOn | package_traffic_groups_enforcement.go:19-40 | the reset of a month falls on the wanted day, or on the last one of a shorter month |
| BillingCycle.WindowContainsNow | package_traffic_groups_enforcement.go:19-40 | reset <= now < next reset, on the clamped days of consecutive months |
| BillingCycle.OneWindowOnly | package_traffic_groups_enforcement.go:19-40 | an instant lies in the window of one month only |
| BillingCycle.WindowsTile | package_traffic_groups_enforcement.go:19-40 | any instant of a window computes that same window |
| BillingCycle.NextResetOpensNextWindow | package_traffic_groups_enforcement.go:27-40 | a window ends where the next one begins |
| BillingCycle.ResetWindow | package_traffic_groups_enforcement.go:20-40 | the step from this month to the previous one gives two resets that fall on the wanted day of consecutive months, or on the last one of a shorter month, on both sides of now |
| BillingCycle.TrafficGroupCycle | package_traffic_groups_enforcement.go:12-49 | the cycle starts at the latest of assignment start, last reset and monthly reset, and ends at the earliest of assignment end and next reset |
| BillingCycle.MonthlyWindowContainsNow | package_traffic_groups_enforcement.go:12-49 | with monthly reset on, the computed window contains now |
| DurableWrite.Store.StageFile | durable_write.go:47-74 | a synced temporary file with the data, or nothing changed |
| DurableWrite.Store.ReplaceFile | durable_write.go:35-45 | only the stages of one file's replacement are passed; success means the last one |
| DurableWrite.Store.WriteFile | durable_write.go:10-31 | however far it gets, only the stages of a save are passed, and success means the last one |
| DurableWrite.Store.Load | helper_identity.go:153-169 | what loading finds: a fresh start exactly if both files are missing, nothing to recover exactly if neither reads back, otherwise the state file, or, if that does not read back, the backup, which becomes the state file; only the stages of restoring are passed |
| DurableWrite.CrashRecoversOldOrNew | durable_write.go:10-31 | however earlier saves ended: a crash between any two steps of a save from a good state file recovers what it might have held before or the new state, after success the new one |
| DurableWrite.SaveIsSafeExactlyFromAGoodFile | durable_write.go:17-31 | no crash point of a save loses everything exactly if nothing was lost to begin with and the state file, when there is one, is good |
| DurableWrite.DamagedFileCanReplaceTheGoodBackup | durable_write.go:17-34 | the input for which a crash leaves nothing to recover |
| DurableWrite.RestoringNeverLoses | durable_write.go:33-45 | at every crash point of putting the good backup in place something loads, at the end the backup |
| DurableWrite.BackupIsThePreviousFile | durable_write.go:17-31 | a completed save leaves as backup exactly what the state file was |
| DurableWrite.SavesLeaveTheLastTwo | durable_write.go:10-31 | after several saves the two files hold the last two states |
| DurableWrite.DamagedFileRecoversARecentSave | helper_identity.go:153-169 | after two completed saves in a row, whatever was before, also in the middle of the next save: with the state file alone damaged, loading recovers one of the two |
| DurableWrite.DamagedFileRecovers | helper_identity.go:153-169 | at any point of any run of completed and failed saves, crashes and loads: with the state file alone damaged, loading can recover a state exactly if the backup has it from the beginning or from the state file as it was when a save began, and no save has published another for good |
| DurableWrite.RecoversACompletedSaveExactlyIf | durable_write.go:17-31 | that state is of a completed save exactly if what last changed the state file before that save was a completed save, or a crash that left the file of one |
| DurableWrite.StateFileStaysGood | durable_write.go:10-31 | over any run of completed and failed saves, crashes and loads the state file stays good and holds a recent state |
| DurableWrite.EveryLoadIsRecent | helper_identity.go:153-169 | at any point of any such run loading finds a recent state, in the state file itself |
| DurableWrite.LastCompletedSaveIsRecent | durable_write.go:10-31 | recent means the last completed save, if no later one replaced the file |
| DurableWrite.FailedSaveCanBecomeTheBackup | durable_write.go:17-31 | the run in which a save that did not complete is what a damaged file recovers |
| DurableWrite.FourOutcomes | durable_write.go:10-31 | a save leaves the state file as it was, the same but durable, replaced but not durable, or replaced for good |
| NodeParents.FindCandidates | node_owners.go:208-220 | the nodes that a relay or chain copy may be a copy of, in order |
| NodeParents.CopiesMeans | node_owners.go:208-220 | when one node is a copy of another |
| NodeParents.OneCandidate | node_owners.go:208-224 | there is one candidate exactly if the node is a copy of one stored node and no other |
| NodeParents.InferParents | node_owners.go:200-224 | with distinct ids a node's parent is the recorded one if that is another existing node, else the one node standing alone that it is a relay copy (same inbound up to "-relay") or chain copy (same configuration) of, else none |
| NodeParents.ParentsAre | node_owners.go:200-224 | with distinct ids the map holds exactly each node's own parent |
| NodeParents.InferredParentIsARoot | node_owners.go:208-223 | a parent that is inferred is an existing node of its own and has no parent itself |
| NodeParents.ParentsAreValid | node_owners.go:200-224 | the inferred map leads from nodes to nodes only |
| NodeParents.RootlessNodesFollowRecordedParents | node_owners.go:200-224 | inference never closes a circle: a node without a root follows recorded parents at every step |
| NodeOwners.Data.RootsAgree | node_owners.go:240-254 | the root ancestor is the same however it is reached |
| NodeOwners.Data.RootOfParent | node_owners.go:251-253 | a node and its parent have the same root |
| NodeOwners.Data.CycleHasNoRoot | node_owners.go:246-253 | a node on a cycle of parents has no root |
| NodeOwners.Data.OwnerFromParent | node_owners.go:251-253 | an owner of the parent, with the parent noted, is an owner of the node |
| NodeOwners.Resolver.Reaches | node_owners.go:308-314 | walking up from an alias meets the node exactly if the node is an ancestor, on cycles too |
| NodeOwners.Resolver.CollectBound | node_owners.go:301-320 | the package users bound to a node are those of the node itself and of its aliases |
| NodeOwners.Resolver.ResolveRoot | node_owners.go:254-338 | the owner of a node without a parent by the rules, user by user: those with a credential, ordinary ones before administrators; else those whose packages contain it, for a node without an inbound only a single one; else all administrators if the saved configuration has the inbound |
| NodeOwners.Data.RootOwnerByTheRules | node_owners.go:254-338 | the same of the declarative rule: which source decides, which users own the node, and the flags, told of credentials, packages and saved configuration one by one |
| NodeOwners.Resolver.Resolve | node_owners.go:239-339 | the memoised recursion terminates on any parents and returns the owner of the root ancestor with its own parent noted, or a cyclic node's empty owner with the flag of the node where the walk meets a decided or visited one |
| NodeOwners.Resolver.ResolveAll | node_owners.go:239-343 | every node has an entry: below a root the users, source and flags that the rules give for that root, with its own parent noted, whatever the order; on a cycle the empty owner with the flag that the order of resolution gives |
| NodeOwners.Data.FlagIsOfTheCycle | node_owners.go:246-253 | in every order the flag of a node that leads to a cycle is that of a node on the cycle |
| NodeOwners.Data.CycleDecidesWhenFirst | node_owners.go:246-253 | for each node on the cycle there is an order in which its flag is the one taken |
| NodeOwners.Data.OrderMattersExactlyOnMixedCycles | node_owners.go:246-343 | the flag is the same in every order exactly if all nodes on the cycle agree on it |
| NodeOwners.OrderMatters | node_owners.go:246-343 | the input with two orders that give different flags |
| IdentityResolution.RemoveString | connection_ownership.go:505-513 | all occurrences of the value go, and no other value is lost or repeated |
| IdentityResolution.OwnerOfMeans | connection_ownership.go:323-403 | who the declarative owner is, told by the relations one by one: the only user of the relations that count first if one of them is to the whole port, else the only one they name for the identity, else the only one a manual relation names |
| IdentityResolution.ListsUnassignedMeans | connection_ownership.go:343-402 | identities without an owner are listed exactly if some relation is official or all are of one user |
| IdentityResolution.Resolution.ResolveAuthoritative | connection_ownership.go:405-435 | after the official relations each identity is owned by exactly its official owner, and an unassigned one has none |
| IdentityResolution.Resolution.RemoveAmbiguous | connection_ownership.go:468-489 | identities with several owners lose them all and become unassigned |
| IdentityResolution.Resolution.ResolveRemainingManual | connection_ownership.go:437-466 | manual relations take only unassigned identities, each for its only claimant |
| IdentityResolution.Resolution.ResolveManual | connection_ownership.go:343-402 | with manual relations only, each identity is owned by exactly the user the rule gives, and by no two |
| IdentityResolution.Resolution.Resolve | connection_ownership.go:323-403 | the passes give every identity exactly the owner that the relations name; the unassigned are exactly the identities without one if and only if there is an official relation, one user, or nothing without an owner |
| IdentityResolution.UnownedIsNotListed | connection_ownership.go:343-402 | the input for which an identity without owner is not listed |
| IdentityResolution.OwnersAreRelated | connection_ownership.go:323-489 | an owner has a relation to the identity, or a whole-port relation takes part |
| IdentityResolution.ManualNeverOverridesOfficial | connection_ownership.go:437-466 | adding a manual relation changes no official owner |
| ManagementView.EffectiveRelations | connection_ownership.go:515-551 | exactly the relations that count are kept, one for every user and identity: bindings and manual ones always, an inbound owner's for an identity unless a binding names it and for the whole port unless there is any binding |
| ManagementView.EffectiveMeansCounts | connection_ownership.go:515-560 | being of the highest priority for the port or identity means that no binding stands against it |
| ManagementView.FirstOfItsPairIsKept | connection_ownership.go:515-551 | of relations with the same user and identity the first one that counts is kept |
| ManagementView.FirstEffectiveKeeps | connection_ownership.go:515-551 | the result holds only relations of the highest priority for their port or identity, one for every user and identity that has one |
| ManagementView.BindingDecides | connection_ownership.go:515-560 | a user who alone is bound to an identity owns it whatever the inbound owners' and manual relations for it say, where no whole-port relation takes part |
| ManagementView.ViewBuilder.FindOrAppendPort | connection_ownership.go:584-596 | the user has one port for the tag, and no total of any user or port changes |
| ManagementView.ViewBuilder.AddToPort | connection_ownership.go:602-603 | one record's total is added to one port of one user, and to no other |
| ManagementView.ViewBuilder.MapIdentity | connection_ownership.go:240-249 | an identity goes to its user; the branch for conflicting users cannot be reached |
| ManagementView.ViewBuilder.AddRelation | connection_ownership.go:209-250 | exactly the identities resolved to a user are mapped to that user, and no other mapping changes |
| ManagementView.ViewBuilder.AddTag | connection_ownership.go:186-272 | one tag adds to each user's ports the totals of exactly its records mapped to them, and is listed as unassigned exactly if it should be |
| ManagementView.ViewBuilder.BuildView | connection_ownership.go:184-303 | an identity is mapped to exactly the owner the rule gives; each user has one port per tag at most; each port's and each user's total is that of exactly the records mapped to them, and all mapped records are counted; exactly the tags without relations, or with identities that the rule lists, are listed as unassigned, with exactly the identities nobody owns; an identity that one user alone is bound to is mapped to that user |
| AccessSwap.CollectExpected | user_access_lifecycle.go:443-494 | the credentials expected on the inbound, each key once, with its backup; ambiguous exactly if some reference fits several entries |
| AccessSwap.HitsAre | user_access_lifecycle.go:443-494 | a node configuration fits no entry, exactly one, or several |
| AccessSwap.MeantIs | user_access_lifecycle.go:443-494 | which credential a reference stands for: the one written down, or the only entry a node configuration points at where the inbound can be pointed at, and when that is ambiguous |
| AccessSwap.Find | user_access_lifecycle.go:509-537 | the first entry that is the original or the disabled credential; drift is reported |
| AccessSwap.LocateIs | user_access_lifecycle.go:509-537 | the first entry that authenticates as one of the pair decides: found if it is exactly that credential, drifted otherwise |
| AccessSwap.FoundByPrimaryOrEmail | user_access_lifecycle.go:509-537 | where both have a value that authenticates it alone decides, otherwise the e-mail does |
| AccessSwap.ReplaceableProtocols | user_access_lifecycle.go:613-651 | for exactly which protocols a replacement can be made |
| AccessSwap.AnalysisDraws | user_access_lifecycle.go:538-576 | a pair without a backup has the drawn value in place of the one that authenticates, the drawn secret for exactly mieru, socks and http, and the user's e-mail and other fields |
| AccessSwap.Analyze | user_access_lifecycle.go:405-590 | the whole analysis: a refusal, nothing to do, or the entries with exactly the planned swaps, new pairs made from the draws |
| AccessSwap.Rewrite | user_access_lifecycle.go:567-576 | replaced entries are replaced, all others stay in place |
| AccessSwap.SwapsExactlyThePairs | user_access_lifecycle.go:500-576 | with the pairs known, each of them swapped already or not, every entry that is the side to go becomes its partner in place and no other entry changes; there is nothing to do exactly if all are in the wanted state |
| AccessSwap.AfterSwap | user_access_lifecycle.go:500-576 | after a swap all pairs are in the wanted state, whatever they were in before |
| AccessSwap.RepeatingIsNoOp | user_access_lifecycle.go:558-566 | analysing again with all pairs in the wanted state finds nothing to do |
| AccessSwap.SwapTwice | user_access_lifecycle.go:500-576 | disabling and enabling the known pairs gives back the entries |
| AccessSwap.FirstDisable | user_access_lifecycle.go:538-576 | if the draws are not in use, the first disable replaces exactly the user's entries by counterparts made from the draws, backs both up, and leaves no entry that authenticates as a replaced original |
| AccessSwap.EnableUndoesDisable | user_access_lifecycle.go:405-590 | enabling after the first disable restores the inbound's entries exactly |
| AccessSwap.DisableThenEnable | user_access_lifecycle.go:405-590 | the first analysis disables the user as above, and the two one after the other, with the backups saved in between, give back the entries unless the first is refused |
| AccessSwap.EnableExpectsTheBackups | user_access_lifecycle.go:443-494 | after a disable the references expect the backups and nothing else |
| AccessSwap.Rebase | user_access_lifecycle.go:779-796 | on a changed inbound of the same shape the swap is planned anew for the current entries from the backups alone; otherwise it is refused |
| AccessSwap.OnlyBackupsExpected | user_access_lifecycle.go:488-494 | without references exactly the backups are expected |
| DeleteGate.Analyze | user_lifecycle.go:1253-1370 | the plan for a missing, unlistable or listed inbound, entry by entry: conflict when a target may be in use by a binding, an entry is nobody's or a user unaccounted for; the whole inbound exactly if all others are unclaimed defaults; otherwise the targets |
| DeleteGate.EntriesAreSplit | user_lifecycle.go:1270-1305 | every entry is a target or another, exactly by whether a reference of the user matches it |
| DeleteGate.DecisionIsPlan | user_lifecycle.go:1336-1370 | the decision on the classified entries is the plan that the entries and bindings call for |
| DeleteGate.FindShared | user_lifecycle.go:1289-1298 | a target is shared exactly if some binding names no credential or matches it |
| DeleteGate.ClassifyOthers | user_lifecycle.go:1307-1335 | matched users, default entries and whether an entry is unknown |
| DeleteGate.Consume | user_lifecycle.go:1746-1767 | taking entries off the counted ones succeeds exactly if they are contained in them as a multiset |
| DeleteGate.Execute | user_lifecycle.go:1709-1823 | a removal is decided only if the other live credentials equal the planned ones as a multiset; the whole inbound only if they are all planned defaults; clients only if another credential stays, and then exactly the targets among the live entries |
| DeleteGate.LiveIsSplit | user_lifecycle.go:1709-1745 | the live entries are split into targets and others by the planned targets |
| DeleteGate.OthersStay | user_lifecycle.go:1746-1823 | what a removal leaves are the other live credentials |
| DeleteGate.OnlyDefaultsStay | user_lifecycle.go:1768-1823 | removing the whole inbound takes no credential but targets and planned defaults with it |
| DeleteGate.Verify | user_lifecycle.go:1824-1853 | succeeds exactly if no target is left and the planned others are all there, as a multiset |
| DeleteGate.SecondGateFollowsFirst | user_lifecycle.go:1746-1796 | for a whole-inbound plan, the second gate follows from the first exactly if no other entry was accounted for by a binding |
| DeleteGate.NamedBindingsNeverTripTheSecondGate | user_lifecycle.go:1256-1370 | if every binding names its user, a whole-inbound plan means no bindings, and the second gate cannot fail |
| DeleteGate.NamelessBindingTripsTheSecondGate | user_lifecycle.go:1256-1320 | the input for which it fails on an unchanged inbound |
| DeleteGate.CleanRemovalVerifies | user_lifecycle.go:1817-1853 | a removal that takes effect and nothing more passes the verification |
| ManagementQueue.EnqueueLocked | agent_management.go:244-280 | exactly when a command is refused (no credential, sixteen commands waiting, no identifier, or an update under way), the command with its lifetime, the queue and the progress it starts |
| ManagementQueue.NoUpdateUnderWayIs | agent_management.go:219-247 | when an update is under way, told by commands, progress and rows of the batch |
| ManagementQueue.Enqueue | agent_management.go:193-217 | a command is kept only if it is saved; the queue stays within its limit; for every queue this is a step that adds that command or none |
| ManagementQueue.AcceptReport | agent_management.go:298-431 | exactly when a report is refused, exactly when it needs a save, and is undone if that fails; otherwise identity, queue, history, status and intent of the one server after it, nothing elsewhere, and the head of the queue as answer; for every queue a step that adds nothing |
| ManagementQueue.AfterReportIs | agent_management.go:320-410 | what a report that is taken changes: the answered and expired commands at the front go and a promotion signs the rest anew, the history gains the result, the status is the reported one with its update completed or failed, identity and intent follow, and no other server changes |
| ManagementQueue.NeedsSaveIs | agent_management.go:400-425 | when it has to be saved: it promotes, shortens the queue, moves the machine, brings a result, or a status that differs by more than its time |
| ManagementQueue.KeepLast | agent_management.go:362-366 | the history is cut to its last twenty results |
| ManagementQueue.ReportTakesHeads | agent_management.go:348-383 | a report removes only the head it acknowledges and expired heads, and the head it leaves has not expired |
| ManagementQueue.ExpireStale | update_progress.go:214-243 | exactly the running updates fail that nothing was heard of for 15 minutes, with no update command left that could run and no batch to look after them; of their queues exactly the update commands go, in whatever order servers are visited; for every queue a step that adds nothing |
| ManagementQueue.DroppingUpdatesIsAStep | update_progress.go:230-240 | expiry keeps the order of the other commands |
| ManagementQueue.OnlyDeadUpdatesAreDropped | update_progress.go:214-240 | what expiry drops had expired, and no update stays pending |
| ManagementQueue.RunGoesOn | agent_management.go:244-431 | a step of any method, with a fresh identifier, is a further step of a run |
| ManagementQueue.OrderIsKept | agent_management.go:244-431 | over any run of the methods' steps, commands that stay keep their order |
| ManagementQueue.NeverOvertaken | agent_management.go:244-431 | over any run, once a command is handed out every earlier one is gone for good: commands go out in the order they were enqueued |
| UpdateProgress.Record | update_progress.go:101-153 | a post is taken unless it comes too late for its attempt, and put back when its save fails; one that is not of an ended attempt shows with its phase, message and time |
| UpdateProgress.OnlyLatePostsAreDropped | update_progress.go:110-128 | posts of a running attempt, or of another one, are never too late; of an ended attempt exactly those that would reopen it or turn its failure into success |
| UpdateProgress.LastTakenPostShows | update_progress.go:101-153 | while no taken post has ended an attempt its progress is that of the last taken post |
| UpdateProgress.AttemptKeepsItsStart | update_progress.go:110-128 | over any posts of one attempt, lost or not, it keeps component, target and start |
| UpdateProgress.FinishedStaysFinished | update_progress.go:110-117 | an attempt that is over stays over, and one that failed never succeeds |
| UpdateProgress.RowFollowsItsAttempt | helper_batch.go:227-232 | the batch row of an attempt still recognises it after any posts and takes over its phase; once it is over the row is closed, and after a failure never a success |
| HelperBatch.Start | helper_batch.go:87-161 | a batch starts exactly if none is active, a selected server is eligible and the save succeeds; exactly the rows of the selected eligible servers wait |
| HelperBatch.NoReasonMeansEligible | helper_batch.go:87-123 | a server is not skipped exactly if it is idle, connected and heard of within 15 seconds, has a credential and a helper that is not up to date and can update itself, and there is a complete artifact |
| HelperBatch.FirstUpgrades | helper_batch.go:92-94 | which versions predate self-updating |
| HelperBatch.Stop | helper_batch.go:172-193 | the waiting rows are cancelled, nothing else changes, and the job ends exactly if nothing runs |
| HelperBatch.Finish | helper_batch.go:195-207 | the loop over the rows decides whether the job ends, and how, as the rule below |
| HelperBatch.FinishedIs | helper_batch.go:195-207 | a job ends exactly if no row waits or runs, as failed exactly if some row failed or was rolled back |
| HelperBatch.ObserveRow | helper_batch.go:227-255 | a running row follows the report of its own upgrade, is given up after five minutes, and its command leaves the queue when it ends |
| HelperBatch.ObservedIs | helper_batch.go:227-249 | a running row ends exactly with a report of its own upgrade that is over, or after five minutes, and otherwise takes over the reported phase |
| HelperBatch.EndOfRowIs | helper_batch.go:233-252 | the end of a row takes exactly its command from the queue and marks an upgrade that was given up as failed |
| HelperBatch.ObserveAll | helper_batch.go:221-256 | the same for all rows: with one row per server exactly what the reports known at the start say |
| HelperBatch.DispatchRow | helper_batch.go:266-288 | the outcome of a waiting row's turn, exactly: offline fails, the wanted version succeeds, otherwise its command is queued under the identifier drawn for it, and it is refused exactly if the server is not able or nothing was drawn |
| HelperBatch.DispatchAll | helper_batch.go:257-289 | rows get their turn from the front, a row waits only once two run, and a queue gains one upgrade command at most; with one row per server every row is exactly as its turn makes it |
| HelperBatch.Advance | helper_batch.go:211-303 | one tick: at most two rows run, a waiting row means two running, terminal rows never change, the job ends exactly if nothing is open; for every queue a step that adds at most one upgrade command with a drawn identifier; when the save would fail nothing changes; with one row per server the rows after a saved tick are exactly what the reports and then the turns make of them |
| HelperBatch.AbleRowRuns | helper_batch.go:257-289 | a waiting row whose server is online and able, and whose turn comes while fewer than two run, runs after the tick with its command queued |
| HelperBatch.RunningAre | helper_batch.go:218-256 | the count of running rows is the number of them |
| HelperBatch.UnchangedMeansBothIdle | helper_batch.go:290-294 | when the rows are unchanged neither pass touched a queue or status, so undoing them loses nothing |
| HelperBatch.LoadNeverGrows | helper_batch.go:221-289 | twice the waiting plus the running rows never grows, and drops on a tick at which a running row is five minutes old |
| HelperBatch.LaterTickLowersTheLoad | helper_batch.go:211-303 | however often the scheduler ticks, if rows are open after a tick the load is lower after any tick five minutes later |
| HelperBatch.BatchEnds | helper_batch.go:211-303 | a batch is over once more ticks than its load at the start lie five minutes apart, however many lie between |
| HelperBatch.BatchEndsInTime | helper_batch.go:211-318 | with ticks at most some gap apart, it is over after as many times five minutes and a gap as its load at the start |
| HelperBatch.EveryBatchEnds | helper_batch.go:211-318 | a batch over n servers has no row left that waits or runs after 2n times five minutes and a gap |
| CoreMode.Observe | core_mode.go:138-171 | the recorded mode is adopted unless a change is pending, an unrequested switch to embedded is flagged, and waiting for the official runtime goes on only while nothing else is missing |
| CoreMode.Judge | core_mode.go:205-253 | without a queued command: wait for the official runtime, wait out a short drift, or repair |
| CoreMode.Reconcile | core_mode.go:129-274 | exactly when a repair command is issued, told by mode, reports, time and queue, and the command; the intent afterwards; exactly when the desired mode is the recorded one or a change pending; and that for every queue this is a step, which adds a repair only where none could run |
| CoreMode.RepairIsDueMeans | core_mode.go:138-253 | a repair is called for exactly if record or agent is not where it should be, the change is wanted or the drift has lasted 20 seconds, the agent can repair, and neither a command nor a pause is running; neither connection nor heartbeat counts, and a pass that reports a result issues nothing |
| CoreMode.PassDoneMeans | core_mode.go:138-253 | the intent after a pass: afresh for a healthy server, otherwise attempts and pause go on from the adopted or kept mode |
| CoreMode.SetIntent | core_mode.go:61-82 | an administrator's request is pending with no pause |
| CoreMode.AdoptionIsMissedWithoutAnIdentifier | core_mode.go:138-274 | the input for which the recorded mode is not adopted |
| CoreMode.OneRepairAtATime | core_mode.go:197-274 | over any run of queue steps in which repairs are added only where none could run, at most one could run at any time |
| CoreMode.PassIsPaced | core_mode.go:172-253 | a pass counts attempts and sets the pause, and issues nothing before the pause is over |
| CoreMode.RepairDelays | core_mode.go:115-124 | the pauses are 1, 5, 15 and from then on 30 minutes |
| CoreMode.AttemptsAreTries | core_mode.go:172-192 | the attempts count the results since the last reset |
| CoreMode.RepairsAreSpaced | core_mode.go:115-124 | after the n-th result in a row without recovery the next repair is at least 1, 5, 15, 30, 30... minutes away |
| HelperCredentials.ShiftAdvances | helper_identity.go:309-630 | moving one credential forward and dropping others keeps every credential in one place and never moves one back |
| HelperCredentials.MintAdvances | helper_identity.go:321-377 | minting puts a fresh credential with its install token and moves no other |
| HelperCredentials.RedeemAdvances | helper_identity.go:398-413 | redeeming moves the credential to pending, or to current on a first install |
| HelperCredentials.PromoteAdvances | agent_management.go:373-399 | a report with the pending credential makes it the current one |
| HelperCredentials.PruneAdvances | helper_identity.go:536-554 | pruning only drops |
| HelperCredentials.RebindAdvances | helper_identity.go:586-595 | a rebind moves the current credential to the new server and supersedes that server's own |
| HelperCredentials.PrunedIs | helper_identity.go:536-554 | exactly the expired records go and all others stay as they are |
| HelperCredentials.OneRebindSource | helper_identity.go:571-582 | at most one server can be the source of a rebind, so the iteration order does not matter |
| HelperCredentials.ReportAdvances | agent_management.go:373-399 | a report that is taken promotes the pending credential or moves none |
| HelperCredentials.AppliedAdvances | helper_identity.go:309-630 | every operation, before it saves, moves credentials forward only and opens no token again |
| HelperCredentials.AppliedIs | helper_identity.go:309-630 | what each operation does to every identity, install token and rebind token, before it saves |
| HelperCredentials.RedeemedIs | helper_identity.go:384-418 | a redemption makes the credential current at once, or, with one to preserve, pending until a day after the token's expiry |
| HelperCredentials.MovedIs | helper_identity.go:556-630 | a move needs a live rebind token and a source that proves itself by credential and machine; the identity is the target's afterwards, and the source is no more |
| HelperCredentials.SavesIs | helper_identity.go:309-630 | when an operation saves |
| HelperCredentials.StepIs | helper_identity.go:216-232 | what an operation leaves in memory, in the file and after a crash, for each way its save can end |
| HelperCredentials.StepIsSound | helper_identity.go:153-630 | memory, and everything a crash may leave, stay well-formed and hold only what was minted, over every operation, save outcome, restart and crash |
| HelperCredentials.Store.Save | durable_write.go:10-31 | the four ways a save ends, and what of them a crash may leave |
| HelperCredentials.Store.CreateInstallToken | helper_identity.go:309-382 | the step of the operation, kept in memory even if the save fails: the token holds the new credential, and nothing else but what has expired changes |
| HelperCredentials.Store.ConsumeInstallToken | helper_identity.go:384-418 | succeeds exactly for a token that can be redeemed and a save that succeeds; the token is gone from memory in any case |
| HelperCredentials.Store.AcceptReport | agent_management.go:298-431 | taken exactly with a current or valid pending credential and a save that succeeds if one is needed; on failure the memory is put back, whatever became of the file |
| HelperCredentials.Store.RebindMachine | helper_identity.go:556-630 | exactly when a rebind succeeds, and what it leaves |
| HelperCredentials.Store.PruneExpired | helper_identity.go:536-554 | exactly the expired pending credentials, install tokens and rebind tokens go, in whatever order |
| HelperCredentials.Store.Load | helper_identity.go:153-169 | the memory becomes what the file holds |
| HelperCredentials.Store.AuthorizeReporter | helper_identity.go:420-445 | a reporter is known exactly by a current or unexpired pending credential |
| HelperCredentials.OnlyForward | helper_identity.go:309-630 | a credential only moves forward through minted, pending, current, superseded |
| HelperCredentials.RunKeepsGone | helper_identity.go:153-630 | once neither memory nor anything on disk has a credential, no run brings it back |
| HelperCredentials.AuthorisesAgainExactlyIfPlaced | helper_identity.go:153-630 | over all runs: a minted credential can authorise a report again exactly if memory, or something a crash may leave, has it |
| HelperCredentials.InStepExactlyUnlessPromotionIsLost | agent_management.go:373-425 | an operation keeps memory and disk in step exactly unless it is a promotion whose save fails after the file was replaced |
| HelperCredentials.RunStaysInStep | agent_management.go:373-425 | over any run without such a loss they stay in step |
| HelperCredentials.SupersededNeverAuthorises | agent_management.go:302-310 | in step with the disk, a credential superseded on disk never authorises a report again |
| HelperCredentials.SupersededOnDiskReturnsExactlyFromMemory | agent_management.go:302-425 | without that, it can exactly if the memory still has it |
| HelperCredentials.LostPromotionUndoesTheDisk | agent_management.go:411-425 | the run in which it does, and the next save undoes the disk |
| HelperCredentials.RedeemedAtMostOnce | helper_identity.go:384-418 | after a successful redemption the token cannot be redeemed again in any run |
| HelperCredentials.RedeemsAgainExactlyIfOpen | helper_identity.go:384-418 | a minted token can be redeemed exactly if memory, or something a crash may leave, has it |
| HelperCredentials.FailedSaveThenRestart | helper_identity.go:404-416 | the input for which a credential superseded in memory comes back |

## Left out

- IdentityResolution.Resolution.Resolve: the warning texts are left out.
- ManagementView.ViewBuilder.BuildView: sorting, limits, per-state and network-address counters, and settings of users are left out; one connection total stands for all counters, and a record's identity is its tag and user.
- ManagementQueue.AcceptReport: log lines of upgrade progress are left out; the rebind tokens a promotion deletes are in HelperCredentials.
- UpdateProgress.Record: log lines and download percentages are left out; whether a save is due is a parameter.
- HelperBatch.Advance: the throttled flush of upgrade progress, which writes the file without changing the modelled state, is left out.
- CoreMode.Reconcile: display texts for the last repair, and the choice between an immediate and a delayed save of an intent, are left out.
- HelperCredentials.Store.CreateInstallToken: the core-mode intent and the commands dropped for the new install mode, and failures to draw random secrets, are left out.
- HelperCredentials.Store.AcceptReport: whether the queue, result or status in a report need a save by themselves is a parameter, stated in ManagementQueue; credentials bound by the legacy reporter path (helper_identity.go 447-479), which accepts a token as current without minting it, are left out.
- HelperCredentials.Store.Load: the file and its backup are one file that reads back; damaged files are in DurableWrite.
- HelperCredentials.Store.RebindMachine: the queues, statuses and intents that move along with an identity are left out.
- SecureChannel.Channel.constructor: the handshake and key derivation internals are left out; the sequence number wraps after 2^64 - 1 messages, which the channel does not prevent.
- DeletionDependencies.CollectTunnels: routed tunnels, which only mark nodes and never enter the table (server_delete_dependencies.go 113-147), are left out.
- MachineWindow.WordAcceptsTheFresh: the bitmap is a 64-bit word; the sequence numbers stay numbers below 2^64, and a shift takes such a number.
- HelperBatch.BatchEnds: a stop in the middle of a run is not a step of it; it only cancels waiting rows, and the bound holds anew from the rows it leaves.
- AccessSwap.Rebase: sharing checks against other users before a disable (user_access_lifecycle.go 797-809) and the check of the written configuration are left out.
- HTTP handlers, routing, SQL text and PostgreSQL behaviour, system services and sockets are left out; a transaction is one step and query results are inputs.
- Text sanitising, JSON encoding, version strings beyond equality and prefixes, time zones and daylight saving are left out.
- Traffic-group block transitions and usage arithmetic (package_traffic_groups_enforcement.go 60-76, 290-316) are left out: a set difference and a clamped subtraction.
- The guard and connection aggregation of the helper program are left out; parts they rely on are not part of this model.
