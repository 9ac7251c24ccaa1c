# What a run of the integration test keeps

The scripts of this repository drive a network of seven tapyrus-core nodes and three signers:
they generate traffic and keep a shadow ledger that must agree with seven wallets, disturb the
nodes, force a reorg, and hand the chain from one signer set to the next. This project models the
protocols in those scripts and proves what they keep, over every input, every interleaving and
every run of the model.

`dafny verify dfyconfig.toml` checks everything.

| file | what it models |
|---|---|
| `Chain.dfy`, `Network.dfy` | blocks, wallet balances, and an environment that may move between any two RPC calls |
| `Ledger.dfy`, `Settlement.dfy`, `Passes.dfy`, `Traffic.dfy` | the traffic generator: seeding, coinbase, pending changes, the settle loops and their passes, the run |
| `RoundRobin.dfy`, `Conservation.dfy` | the send schedule, and what the ledger holds in total |
| `Supervisor.dfy` | action loop, crash supervisor and shutdown tasks of one node, as a transition system |
| `PauseControl.dfy`, `Chaos.dfy` | the pause file on both of its sides, the downtime wait, the order of chaos actions |
| `Polling.dfy` | the loops that wait for heights, matching tips and empty mempools |
| `BlockTree.dfy`, `Confirmation.dfy`, `Reorg.dfy` | seven nodes with block trees, what the last check proves, and the two-sided reorg recipe |
| `XField.dfy`, `Text.dfy`, `FederationToml.dfy` | the signed xfield texts, and the federations.toml printers with a reader |
| `Ceremony.dfy`, `Handoff.dfy` | shares and keys of a ceremony, and the files through rotation and block-size change |
| `Options.dfy`, `Sequences.dfy` | one optional value, and facts about sequences |

## How the environment is modelled

Traffic. Every RPC first lets the network do anything `Network.Evolves` allows: the chain grows,
nodes advance, restart or lose height. Its hypotheses: blocks are not replaced; the earner of a
block (core-1a, core-2a or core-3a) holds it before anyone else, answers, and never loses height; a
wallet balance is a function of the local height; a wallet reports a transaction confirmed only if
it is. Amounts are integers in the smallest unit; reports leave out a TPC difference of up to 1e-6,
as the source does. Heights and reachability change any number of times, but finitely often
(`moves`); that is what termination of the discarded passes rests on.

Reorg. The node trees are linear when the recipe starts and nothing else disturbs the nodes
(`Isolated`); a new block extends the highest active tip among the running nodes; a node relays its
active chain to any running node; stopping or starting a group is one step. Exact lengths need that
no block lands between the one that reaches the target and the stop of the signers: that hypothesis
is `quiet`, and what holds without it is stated without it.

Polling, Chaos. Answers and clock readings are arbitrary lists; a loop that has used up its list is
still waiting.

Supervisor. One step is what a task does between two points where it can be suspended. The lock
serves the tasks that wait for it in the order in which they asked. Launches, kills and waits may
raise wherever the source lets an exception leave the lock.

## Where the code does less than its comments say

- A settle pass whose second height poll finds every node at the same height again may still have
  read a chaos node's balance lower down, when an invalidation and its reconsideration both fall
  inside the pass (scripts/generate_traffic.py:686-789). `Settlement.InvalidationBetweenPolls` is
  such a run, `Settlement.SteadyIsExact` says exactly for which nodes it can happen, and
  `Settlement.SeenDifference` what the pass then sees.
- A shutdown whose stop call fails because tapyrusd has just died calls terminate() on a dead
  process; when that raises, os._exit is never reached and the supervisor starts tapyrusd again
  (scripts/container/node_orchestrator.py:257-275). `Supervisor.RaisingShutdownIsUndone` is such a
  run. `Supervisor.ShutdownCanBeUndoneIff` gives the exact condition on the state in which the
  shutdown holds the lock: something can still be launched if and only if the shutdown may still
  come to terminate or kill the process (it has yet to look at a live one, or is past that look and
  has not reached os._exit), some task that launches is left, and no other shutdown waits for the
  lock ahead of all of them: a second shutdown would find the process dead and exit.
- The jitter sleep after the pause gate does not look at the file again
  (scripts/container/node_orchestrator.py:303-307): an action can start while paused, at most the
  jitter after a moment when the file was absent, if and only if it had to wait at the gate and the
  jitter is not zero (`Chaos.PausedStartIff`).
- The pause counter belongs to one process; two scripts that pause at the same time share only the
  file, and the first to resume removes it (scripts/lib/orchestrator_control.py:44-60).
  `PauseControl.SharedFileIsExactIff` says exactly when the file is right.
- `bytes.fromhex` skips white space, so a key with a trailing blank is accepted and its encoding
  extends that of the plain key: the encodings are prefix-free only for keys without white space
  (`XField.PrefixIff`).
- The wait for matching tips also ends when no node answers
  (scripts/simulate_reorg.py:508-512); it then hands back no height and no tip.
- The branch that discards a settle pass has no deadline test (scripts/generate_traffic.py:788-789),
  so the loop is not bounded by its timeout. What holds is that the passes past the deadline
  outnumber the discarded ones by at most one (`Passes.AreLoop`, promised by
  `Traffic.TrafficGenerator.SettleAndVerify`), and no bound on their number holds:
  `Passes.DiscardedWithoutEnd` gives, for every number, that many discarded passes in a row past the
  deadline. The model's loop ends because every discarded pass uses up a movement of the network.
- Changes that are still pending when the balances match are dropped
  (scripts/generate_traffic.py:795-811); only each node's current colour is compared
  (scripts/generate_traffic.py:674-675); and a spend whose call fails after the broadcast is never
  tracked (scripts/generate_traffic.py:413-418, scripts/generate_traffic.py:460-468). Agreement of
  ledger and wallets therefore has "every wallet transaction is tracked" as a hypothesis, and
  `Settlement.MismatchExactly` says what is reported without it.

## Model

| member | source | states |
|---|---|---|
| `Settlement.NoFalseMismatch` | scripts/generate_traffic.py:766-833 | with every wallet transaction tracked, nothing pending and no invalidation inside the pass, a trusted comparison reports nothing, for every node, TPC and every current colour |
| `Settlement.MismatchExactly` | scripts/generate_traffic.py:766-852 | a pair of node and asset is reported if and only if the effect of the unaccounted transactions differs from that of the blocks the node lacked while it was read, by more than 1e-6 for TPC and at all for a token |
| `Settlement.SeenDifference` | scripts/generate_traffic.py:677-731 | wallet minus ledger, as a pass sees it under any interleaving, is exactly those two effects; coinbase never contributes, and a node that was not set back lacked nothing |
| `Settlement.UntrackedSpendIsReported` | scripts/generate_traffic.py:407-447 | a wallet transaction no change covers, alone or among others, enters the difference by exactly its own effect, and its pair is reported if and only if the others do not happen to cancel it up to the tolerance |
| `Settlement.InvalidationBetweenPolls` | scripts/generate_traffic.py:778-789 | a run of the environment in which equal heights before and after do not make the balance read in between one of that height |
| `Settlement.SteadyIsExact` | scripts/generate_traffic.py:778-789 | for every node above height zero and every two states with at least two movements of the network between them, some reachable state in between has the node lower than before if and only if it lost height in between: "not set back" is the exact condition under which a pass read the converged height |
| `Settlement.ComparisonTrusted` | scripts/generate_traffic.py:718-789 | a pass that is not discarded compared balances read at the converged height (of every node not set back meanwhile) with a ledger credited through exactly that height |
| `Settlement.ReportExact` | scripts/generate_traffic.py:835-851 | an entry is in the report if and only if its pair was compared and the two values read differ by more than the tolerance |
| `Settlement.SeedSound` | scripts/generate_traffic.py:320-371 | equal height vectors around the balance reads pin every earner, and the highest height answered is one through which no coinbase is missing from, or repeated after, the seeded balances, chaos nodes lagging or not |
| `Settlement.LowestAnchorCreditsTwice` | scripts/generate_traffic.py:355-369 | in any network that stands still while some node answers from below an earner, the double read succeeds, and anchoring the seed at the lowest height answered would make the ledger of that earner too high by exactly what it earned above that height |
| `Settlement.LowestAnchorIsUnsound` | scripts/generate_traffic.py:355-369 | such a network exists, with 52 credited twice |
| `Settlement.CreditKeepsOrder` | scripts/generate_traffic.py:636-641 | crediting the next height keeps the ledger equal to seed plus coinbase of each credited height once plus applied changes once |
| `Settlement.ApplyKeepsOrder` | scripts/generate_traffic.py:911-919 | applying one change all of whose transactions are confirmed keeps that equation and takes the change out of those that may still be applied |
| `Settlement.SubmitKeepsOrder` | scripts/generate_traffic.py:190-209 | a change whose transactions nobody knew before joins the pending ones without a transaction belonging to two changes |
| `Ledger.LedgerGap` | scripts/generate_traffic.py:624-670 | wallet minus ledger at a height is the seed's own gap plus the effect of the transactions after the seed that no applied change covers |
| `Ledger.PickedPartition` | scripts/generate_traffic.py:883-930 | the changes a pass settles, keeps and drops are a partition of those it was given |
| `Conservation.LedgerConserves` | scripts/generate_traffic.py:643-670 | the ledger's total of TPC is seed plus rewards of the credited heights plus fees of the applied changes; the total of a colour changes only by what is issued |
| `Conservation.ColorTotalIsIssued` | scripts/generate_traffic.py:407-427 | at every moment of a run the total of a colour equals what the applied issuances made |
| `Conservation.OnlySubsidyIsNew` | scripts/generate_traffic.py:643-670 | when blocks pay subsidy plus fees and exactly the transactions of the credited blocks are applied, TPC grows by the subsidy per height |
| `RoundRobin.RoundIsPermutation` | scripts/generate_traffic.py:449-455 | in every round of any number of nodes from two on the target map is a permutation without a fixed point |
| `RoundRobin.EachPairOnce` | scripts/generate_traffic.py:449-455 | over any n - 1 consecutive rounds every ordered pair of distinct nodes meets in exactly one round |
| `RoundRobin.RoundNetsToZero` | scripts/generate_traffic.py:449-478 | a round in which all send the same amount changes no balance |
| `Traffic.FullRoundNetsToZero` | scripts/generate_traffic.py:449-478 | the deltas of a full round of TPC sends add up to zero at every node |
| `Network.World.GetTransaction` | scripts/generate_traffic.py:932-944 | a confirmed reply may hold any entries that tell the fee and no other; the fee is found in it, and "confirmed" means in a block the node has connected |
| `Network.ExtractFeeIsFirstTold` | scripts/generate_traffic.py:932-944 | for any list of entries the fee found is that of the first entry which tells one, in either of the two shapes, and 0 when none does |
| `Network.ExtractFeeFindsIt` | scripts/generate_traffic.py:932-944 | for any list of entries that all tell the same fee if they tell one, and one of which does, that fee is found |
| `Network.World.Broadcast` | scripts/generate_traffic.py:457-478 | a send gives a new transaction with the deltas asked for, or fails, possibly after the broadcast |
| `Traffic.TrafficGenerator.AllHeights` | scripts/generate_traffic.py:609-622 | every answer is a height its node had at some moment of the poll, in any order of answers |
| `Traffic.TrafficGenerator.CurrentHeight` | scripts/generate_traffic.py:573-581 | the lowest height answered, with a node that answered it; no earner is below it |
| `Traffic.TrafficGenerator.WaitForNextBlock` | scripts/generate_traffic.py:583-607 | returns only after one poll in which every node was reachable and one above the lowest height seen at the start |
| `Traffic.TrafficGenerator.WaitForConvergence` | scripts/generate_traffic.py:686-699 | returns only a height that every node answered in one poll |
| `Traffic.TrafficGenerator.FetchBalances` | scripts/generate_traffic.py:677-684 | every balance is that of some height its node had while the balances were read |
| `Traffic.TrafficGenerator.SeedLedger` | scripts/generate_traffic.py:320-371 | after at most five attempts, a ledger and a height that satisfy the run invariant, or an error |
| `Traffic.TrafficGenerator.FindCoinbase` | scripts/generate_traffic.py:643-670 | for any height the reference node holds, exactly the earner of that block and its reward are found |
| `Traffic.TrafficGenerator.CreditThrough` | scripts/generate_traffic.py:719-721 | afterwards the heights credited are exactly those through the larger of the old mark and the given height, each once, regressions included |
| `Traffic.TrafficGenerator.NextBlockWithCoinbase` | scripts/generate_traffic.py:624-641 | credits through the lowest height answered, never below the old mark |
| `Traffic.TrafficGenerator.CheckConfirmed` | scripts/generate_traffic.py:899-910 | confirmed means all transactions of the change are confirmed and the sum of their fees; a wallet that can see them all is believed |
| `Traffic.TrafficGenerator.ApplyToLedger` | scripts/generate_traffic.py:912-914 | every ledger entry moves by exactly the fee and the deltas of the change |
| `Traffic.TrafficGenerator.ResolveOne` | scripts/generate_traffic.py:895-927 | settled, kept or dropped: applied at most once, only when confirmed; dropped only in the final pass; settled if the wallet shows it confirmed |
| `Traffic.TrafficGenerator.ResolvePendingChanges` | scripts/generate_traffic.py:883-930 | every pending change gets one verdict, in order; the kept ones are returned, the settled ones applied and counted, and a final pass keeps none |
| `Traffic.TrafficGenerator.SyncSenders` | scripts/generate_traffic.py:723-727 | each chaos node with a pending change has caught up with where the reference node was, unless it was set back again |
| `Traffic.TrafficGenerator.AdvanceLedgerAndResolve` | scripts/generate_traffic.py:701-730 | one pass: all nodes agreed on a height, the ledger is credited through exactly it, and the pending changes are resolved |
| `Traffic.TrafficGenerator.SettlePending` | scripts/generate_traffic.py:754-764 | at most one final pass is made, only past the deadline, and it empties the list; every change handed in ends applied or dropped; a change counts as a success exactly when it is applied and counting is on |
| `Traffic.TrafficGenerator.DiffBalances` | scripts/generate_traffic.py:835-851 | builds the report of the pairs in which ledger and wallets differ by more than the tolerance of the asset |
| `Traffic.TrafficGenerator.VerifyUntilDecided` | scripts/generate_traffic.py:777-820 | ends with a trusted comparison in a pass that was not discarded; every earlier pass was discarded or ended before the deadline, so the passes past the deadline outnumber the discarded ones by at most one; each pass but the last uses up a movement of the network; a difference is reported only when nothing is pending or the deadline has passed |
| `Passes.LateWereDiscarded` | scripts/generate_traffic.py:777-820 | when each of any passes was discarded or ended in time, those past the deadline are no more than the discarded ones |
| `Passes.DiscardedWithoutEnd` | scripts/generate_traffic.py:782-789 | from any network in which all nodes answer one height, and for any chaos node that goes away before every second poll, any number of passes in a row can be discarded past the deadline |
| `Traffic.TrafficGenerator.SettleAndVerify` | scripts/generate_traffic.py:766-833 | adds exactly the report of one trusted comparison to the mismatches, or nothing when it raises; its passes obey the same bound, with the settle timeout as deadline |
| `Traffic.TrafficGenerator.SendTpc` | scripts/generate_traffic.py:472-478 | a pending transfer of the amount from sender to target, or nothing |
| `Traffic.TrafficGenerator.IssueColor` | scripts/generate_traffic.py:407-447 | a pending issuance of a colour nobody used before, which becomes the node's colour only when the calls succeeded |
| `Traffic.TrafficGenerator.FundUnfundedNodes` | scripts/generate_traffic.py:373-391 | one transfer for each funding pair, in order, failures left out |
| `Traffic.TrafficGenerator.IssueColors` | scripts/generate_traffic.py:393-405 | one issuance for each node, in order, of the colour the node then has |
| `Traffic.TrafficGenerator.SendRound` | scripts/generate_traffic.py:449-470 | the changes of a round in node order, TPC before colour; each TPC send goes to the round-robin target; each colour action is a transfer to that target, a top-up of the node's colour, or an issuance of a new one where the node has none or cannot top up, and moves no other node's colour |
| `Traffic.TrafficGenerator.RunRounds` | scripts/generate_traffic.py:256-260 | the mismatches are exactly the reports of the trusted comparisons made, one for each finished round; every change applied meanwhile was sent in one of the rounds, and each counts once as a success |
| `Traffic.TrafficGenerator.SetUp` | scripts/generate_traffic.py:247-256 | three blocks of coinbase, then funding and issuance: nothing is applied but the changes these produced, and none counts as a success |
| `Traffic.TrafficGenerator.Run` | scripts/generate_traffic.py:229-283 | passes only if no comparison of any round reported anything and at least half of the round actions were applied; the successes are exactly the applied changes after those of the set-up, all of them sent in the rounds; when every comparison is clean nothing is reported |
| `Traffic.CleanReports` | scripts/generate_traffic.py:766-833 | a run each of whose comparisons has every wallet transaction tracked, nothing pending and no node set back reports no mismatch |
| `Supervisor.AtMostOneLive` | scripts/container/node_orchestrator.py:154-275 | in every state of every run at most one tapyrusd is alive, and it is the one the orchestrator refers to |
| `Supervisor.InvKept` | scripts/container/node_orchestrator.py:154-275 | every step of every task, raising ones included, keeps the lock discipline and "earlier processes have exited" |
| `Supervisor.LaunchesReplaceTheDead` | scripts/container/node_orchestrator.py:154-158 | a process is launched only when every earlier one has exited, and the supervisor replaces only the process it watched |
| `Supervisor.OneSuccessorEach` | scripts/container/node_orchestrator.py:237-255 | no process is replaced twice |
| `Supervisor.DowntimeIsNotCutShort` | scripts/container/node_orchestrator.py:174-194 | between a restart's stop and its own launch nothing is launched by anyone |
| `Supervisor.ShutdownCanBeUndoneIff` | scripts/container/node_orchestrator.py:257-275 | with the lock held by a shutdown, some continuation of the run launches a process if and only if the shutdown may still come to terminate or kill it, a task that launches is left, and no other shutdown is ahead of all of those in the queue; otherwise no continuation does, raising ones included |
| `Supervisor.CrashIsAnsweredIff` | scripts/container/node_orchestrator.py:237-275 | when the process is dead and the lock free, something can be launched if and only if a task that launches is left and no shutdown gets the lock before all of those |
| `Supervisor.SealedNeverLaunches` | scripts/container/node_orchestrator.py:257-275 | a shutdown that looks at a dead process, or is about to exit, is final whatever the supervisor does |
| `Supervisor.NoLaunchAfterShutdown` | scripts/container/node_orchestrator.py:257-275 | once a shutdown task has the lock nothing is launched again, unless its terminate or kill raises |
| `Supervisor.RaisingShutdownIsUndone` | scripts/container/node_orchestrator.py:266-275 | a run in which terminate() raises on a process that has just died and the supervisor starts it again |
| `Supervisor.CrashIsRecovered` | scripts/container/node_orchestrator.py:237-255 | when the process is dead, the lock free and nobody else waiting for it, at most eight steps of a supervisor that has not ended launch a new one, also from a stale reference |
| `Supervisor.EndedForGood` | scripts/container/node_orchestrator.py:237-255 | after an exception ended the supervisor it launches nothing any more |
| `PauseControl.GateFollowsTheTasks` | scripts/lib/orchestrator_control.py:44-60 | for any interleaving of bracketing tasks the counter is the number of open brackets, the file exists exactly while somebody is inside, and the reason is that of the one who closed the gate |
| `PauseControl.ClampNeverFires` | scripts/lib/orchestrator_control.py:54-56 | the clamp at zero is never needed for bracketing tasks |
| `PauseControl.OpenWhenAllHaveLeft` | scripts/lib/orchestrator_control.py:54-60 | counter, reason and file are as at the start if and only if all have left |
| `PauseControl.SharedFileIsExactIff` | scripts/lib/orchestrator_control.py:40-60 | with several processes the file is right throughout a run if and only if no process ends its pause while another is inside |
| `PauseControl.TwoProcessesExpose` | scripts/lib/orchestrator_control.py:40-60 | a run of two processes after which one is inside and the file is gone |
| `PauseControl.Orchestrators.Pause` | scripts/lib/orchestrator_control.py:44-51 | the new counter, reason and file; only the outermost pause touches the file |
| `PauseControl.Orchestrators.Resume` | scripts/lib/orchestrator_control.py:54-60 | the new counter, reason and file; only the outermost resume touches the file |
| `Chaos.WaitOutPause` | scripts/container/node_orchestrator.py:298-307 | whatever the times of the checks, opens at the first check that does not find the file, and starts then, or at most the jitter later when it had to wait |
| `Chaos.PausedStartIff` | scripts/container/node_orchestrator.py:303-307 | whatever the times of the checks, the file can come and go such that the action starts while paused if and only if it had to wait and the jitter is positive |
| `Chaos.WaitOutDowntime` | scripts/container/node_orchestrator.py:209-235 | ends exactly at the first poll that sees the wanted blocks or is past the deadline, or after the flat wait if and only if there was no baseline |
| `Chaos.FiveAttemptsCoverAll` | scripts/container/node_orchestrator.py:279-296 | any five consecutive attempts contain all three actions, whatever the shuffles |
| `Chaos.FourAttemptsMayMissOne` | scripts/container/node_orchestrator.py:279-296 | four consecutive attempts need not |
| `Polling.WaitForHeight` | scripts/simulate_reorg.py:451-491 | ends at the first poll in which all nodes are reachable and far enough, with their lowest height, or that ends an unchanged vector of tips spanning the stall window; at no other; and never gives up on a network whose vector changes within every window |
| `Polling.ReachabilityIsMovement` | scripts/simulate_reorg.py:476-480 | a node that only becomes reachable or unreachable changes that vector |
| `Polling.WaitForMatchingTips` | scripts/simulate_reorg.py:493-519 | ends at the first poll in which all answers agree, "no answer" included, or at the first one past the deadline |
| `Polling.WaitForEmptyMempool` | scripts/generate_traffic.py:520-571 | ends at the first look with every mempool empty; gives up only on a frozen height or past the overall deadline, after at most one look past it |
| `BlockTree.PlayKeepsIsolated` | scripts/simulate_reorg.py:216-262 | while only one group runs, it stays on one line of blocks above its base and every block it adds is new; without signers it adds none |
| `BlockTree.PlayKeepsJoined` | scripts/simulate_reorg.py:264-296 | with both groups running, group A's nodes are on their own fork or on group B's chain, and keep their own fork in their trees |
| `BlockTree.TieHolds` | scripts/simulate_reorg.py:270-279 | at equal heights no relay moves any node off its group's tip |
| `BlockTree.TipIsKeptIff` | scripts/simulate_reorg.py:270-279 | with the signers stopped, a running node is certain to stay on its tip if and only if no running node is higher |
| `BlockTree.CommonIsTheForkPoint` | scripts/simulate_reorg.py:199-262 | the last common ancestor of the two forks is exactly the baseline |
| `BlockTree.GroupATips` | scripts/simulate_reorg.py:298-347 | after full propagation a group A node has exactly two tips: group B's, active, and its own fork, valid, with its own length |
| `BlockTree.GroupBTips` | scripts/simulate_reorg.py:348-372 | a group B node has group B's tip, and group A's beside it if and only if it heard of that fork |
| `Reorg.ForksStayApart` | scripts/simulate_reorg.py:216-262 | in every net that can be reached while group B runs alone, and in every net that can be reached after group A took its place, a chain heard in one group shares at most the baseline with the other group's fork |
| `Reorg.NewForkIsDifferent` | scripts/simulate_reorg.py:249-262 | group A's fork differs from group B's in its first block |
| `Reorg.GroupBPasses` | scripts/simulate_reorg.py:348-372 | the check of core-3a passes if and only if that node never heard of group A's fork; the bridge nodes always pass |
| `Reorg.ReorgSimulator.BuildBaseline` | scripts/simulate_reorg.py:199-214 | the recorded height is that of the one chain all nodes are on with the signers stopped, and not below the floor |
| `Reorg.ReorgSimulator.BuildGroupBFork` | scripts/simulate_reorg.py:216-227 | group B alone has grown by at least the length, group A knows nothing above the baseline; the recorded tip is on the fork, and is all of it with exactly the length in a quiet run |
| `Reorg.ReorgSimulator.RestoreGroupA` | scripts/simulate_reorg.py:229-237 | group A runs again at the baseline while group B is down with its fork |
| `Reorg.ReorgSimulator.BuildGroupAFork` | scripts/simulate_reorg.py:249-262 | the same for group A, with a first block different from group B's |
| `Reorg.ReorgSimulator.BuildForks` | scripts/simulate_reorg.py:199-262 | whatever the timing, two forks that leave the recorded baseline at the same block and share none after it |
| `Reorg.ReorgSimulator.ConfirmTieHolds` | scripts/simulate_reorg.py:270-279 | the check says whether all of group A is on its own tip, and cannot fail in a quiet run |
| `Reorg.ReorgSimulator.ExtendGroupB` | scripts/simulate_reorg.py:281-296 | in a quiet run exactly two blocks are added and every node has them |
| `Reorg.ReorgSimulator.ConfirmConvergence` | scripts/simulate_reorg.py:298-372 | names exactly the nodes whose answer was not as expected when asked; after a quiet run only core-3a can be among them |
| `Reorg.ReorgSimulator.Run` | scripts/simulate_reorg.py:165-195 | whatever the timing, a run in which every check passes made the reorg it intended; a quiet run that no wait times out of ends with every node on group B's chain and group A's fork demoted with the configured length, and only the check of core-3a can fail in it |
| `Reorg.ChecksAreSound` | scripts/simulate_reorg.py:298-372 | when all seven answers are as expected, each taken at its own moment and with no hypothesis on the lengths of the forks: all nodes showed one chain that contains all of group B's fork, the recorded tip of group A is all of its fork, which left that chain exactly at the baseline with the configured length, and each node showed the tips its place allows |
| `Confirmation.PlayKeepsCrossed` | scripts/simulate_reorg.py:264-296 | whatever happens once both groups run, every chain anyone hears of is part of one of the two forks or of one line on top of the longer of them |
| `XField.DecodeRecovers` | scripts/simulate_federation_change.py:121-128 | a reader of tag, length and bytes recovers variant and value of every accepted input of either encoder |
| `XField.EveryKeyIsAccepted` | scripts/simulate_federation_change.py:121-128 | every 33-byte key with a compressed-point prefix is accepted and recovered |
| `XField.LittleEndianIsExact` | scripts/simulate_maxblocksize_change.py:91-97 | the four bytes of a size below 2^32 give the size back |
| `XField.PrefixIff` | scripts/simulate_maxblocksize_change.py:91-97 | one encoding is a prefix of another exactly for equal inputs or the same key padded with white space: injective, and the two kinds disjoint |
| `XField.PrefixFreeOnPlainKeys` | scripts/simulate_federation_change.py:121-128 | prefix-free on keys of 66 characters |
| `XField.TrailingSpaceIsAccepted` | scripts/simulate_federation_change.py:125-128 | for every accepted key the same key with a blank behind it is accepted, and extends its encoding |
| `FederationToml.FileRoundTrip` | scripts/simulate_federation_change.py:131-146 | a file of appended entries of all three printers reads back as exactly those entries, absent fields absent, if and only if their strings hold no quote, backslash or control character |
| `FederationToml.ReadRotation` | scripts/simulate_federation_change.py:131-146 | a rotation entry, member or not, reads back as itself wherever it stands |
| `FederationToml.ReadResize` | scripts/simulate_maxblocksize_change.py:100-113 | so does a max-block-size entry |
| `FederationToml.GenesisIsRotationAtZero` | scripts/assemble_signer_configs.py:87-100 | both printers of aggregated-key entries write the same text for a member at height 0 |
| `FederationToml.ReadAppended` | scripts/simulate_federation_change.py:319-332 | appending with one blank line in between keeps what was readable before and adds the new entry |
| `FederationToml.NewlineInSignature` | scripts/simulate_federation_change.py:293-300 | an entry whose signature holds a newline does not read back |
| `Ceremony.ShareDistribution` | scripts/generate_dev_secrets.py:118-129 | every signer gets exactly its column of the share matrix in sender order, whatever order each sender printed its lines in |
| `Ceremony.Gather` | scripts/simulate_federation_change.py:431-484 | one share from every sender, in sender order, or an error if and only if some sender addressed none to the key |
| `Ceremony.AggpubkeyCeremony.AggregateArgs` | scripts/generate_dev_secrets.py:121-127 | every signer passes its own column of the ceremony's shares, and its key, to `aggregate` |
| `Ceremony.SignArgs` | scripts/simulate_federation_change.py:248-260 | every signer passes its own column of the round's shares to `sign` |
| `Ceremony.ComputesigArgs` | scripts/simulate_federation_change.py:266-300 | signer 0 passes all signatures, its column of the round and its column of the ceremony to `computesig` |
| `Ceremony.SharesInAnyOrder` | scripts/lib/ceremony.py:27-45 | with distinct receivers, all lines addressed to a key carry its share and there is one |
| `Ceremony.ExtractOnlyShare` | scripts/lib/ceremony.py:27-45 | extraction finds that share |
| `Ceremony.PositionIsNotReceiver` | scripts/lib/ceremony.py:34-39 | a sender's output from which taking lines by position gives the wrong share |
| `Ceremony.ColonlessLine` | scripts/lib/ceremony.py:41-44 | a line without a colon is addressed to itself with an empty share |
| `Ceremony.AggpubkeyCeremony.CreateKeys` | scripts/generate_dev_secrets.py:85-98 | keys are appended in the order of the createkey results, earlier ones kept |
| `Ceremony.AggpubkeyCeremony.Aggregate` | scripts/generate_dev_secrets.py:131-143 | the key all signers agree on, or the first signer that differs from signer 0; the secret shares up to there are written, and no others |
| `Ceremony.FillKeys` | scripts/simulate_federation_change.py:164-185 | no slot stays empty, the reused key is only in its slot, fresh keys keep their order; fails if and only if the slot does not exist |
| `Handoff.HandoffIsContinuous` | scripts/simulate_federation_change.py:431-484 | at every height what a signer reads from its file names the key of the set in charge; it holds shares if and only if it belongs to that set, and then they are its own column of that ceremony's share matrix in sender order, whatever order each sender printed its lines in |
| `Handoff.QuorumHolds` | scripts/simulate_maxblocksize_change.py:181-197 | at every height the signers that hold shares are exactly the three participants of that set, no fewer than the threshold |
| `Handoff.HeightsIncreaseIff` | scripts/simulate_maxblocksize_change.py:173-179 | the block heights of all files increase strictly if and only if the first scheduled height is positive and the second above it, so with offsets of at least one |
| `Handoff.SignerFiles.Assemble` | scripts/assemble_signer_configs.py:67-100 | the first file of every signer of set A is its member entry at height 0, with the shares extracted for its key; an error if and only if some share is missing |
| `Handoff.SignerFiles.Rotate` | scripts/simulate_federation_change.py:431-484 | afterwards each of the five files is made of exactly the two entries meant for its signer, with the shares extracted for the key it has in each set; an error if and only if some share of set B is missing |
| `Handoff.SignerFiles.ResizeAll` | scripts/simulate_maxblocksize_change.py:181-197 | exactly the three active members get the new entry behind what they had, with the shares extracted from set B's ceremony |

## Left out

- Traffic.TrafficGenerator.Run: starts at the seeding; the waits for RPC and empty mempools before it, and collecting addresses, only decide whether it starts (the mempool wait is `Polling.WaitForEmptyMempool`).
- Chaos.WaitOutPause: the jitter sleep lasts exactly as long as it was drawn; the sleeps between checks may last longer than asked.
- Traffic.TrafficGenerator.SendTpc: does not say that a transfer is produced, because the call may fail at any time in the source too.
- Traffic.TrafficGenerator.SendRound: sends one operation after the other; the source interleaves them, which the environment steps between the calls stand for.
- Traffic.TrafficGenerator.CheckConfirmed: promises to notice a confirmation only for a wallet that does not lose sight of its own transactions.
- Traffic.TrafficGenerator.VerifyUntilDecided: always ends because the network of the model makes finitely many moves; the source has no such bound (see above).
- Traffic.TrafficGenerator.DiffBalances: ledger entries are exact integers; the floating-point drift that the tolerance is there for is not modelled.
- Supervisor.CrashIsRecovered: says that recovery is possible, not when it happens; fairness of the scheduler is not modelled.
- Reorg.ReorgSimulator.BuildBaseline: starts from undisturbed nodes; the source records the baseline before it pauses chaos (scripts/simulate_reorg.py:165-182), so a node that goes down or loses height meanwhile, and the answer of no node at all, are outside it.
- Reorg.ReorgSimulator.ExtendGroupB: promises exact lengths only for quiet runs, and so do the contracts built on it.
- Reorg.Testbed.WaitForHeight: says when the wait succeeds; its polls and time-outs are `Polling.WaitForHeight`.
- Resending wallet transactions, the topology waiter and the canary transaction of the reorg recipe: their effects lie in tapyrus-core.
- RPC transport, cookies, docker compose, subprocesses and git: only their outcomes (value, error, unreachable, exit) appear.
- The cryptography of tapyrus-setup: keys, shares and signatures are arbitrary texts.
- Restarting a reorg or rotation halfway: every method models one run from its start.
- The atomic rename that writes a file: a file is replaced as a whole.
- The seeder check, the topology check, genesis signing and the collection of coinbase addresses: plain polling or repetitions of what is here.
