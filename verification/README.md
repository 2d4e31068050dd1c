# Failover proofs for pg_replica

This project models the failover protocol of HyperionDb's `pg_replica` extension in Dafny and proves what
its four layers promise, over every cluster size, every input and every run.

1. **Step models** (`Leadership`, `Durability`, `WalDurability`). The two transition systems the repository
   model-checks for three and five nodes: term-fenced leadership, and quorum-acknowledged writes with
   failover. Here they are proved for every size, quorum, bound and run length, with the exact condition under
   which each property fails. `WalDurability` puts WAL contents behind the LSNs.
2. **The supervisor** (`Supervisor`, `SupervisorProcess`, `SupervisorRuns`, `GossipRuns`, `ChoresRuns`,
   `Effects`, `Scenarios`, `FenceCache`, `Watchdog`, `NonOverlap`, `NewSide`, `OldSide`, `Threshold`).
   `SupervisorProcess.Process` is the loop as a class whose variables are updated in place; a whole pass is
   proved to compute `Supervisor.Tick`, and the object's life to be one of the runs about which
   `SupervisorRuns` proves what they guarantee, `GossipRuns` what is known of peers, and `ChoresRuns` what is
   done once per decision. `Effects` replays a pass's calls on the server one by one and proves what holds
   between any two of them, `FenceCache` adds the deadman watchdog as a second writer, `NonOverlap` puts a
   cut-off primary beside a majority side on one clock, and `Threshold` says exactly for which timings the two
   cannot overlap, with `NewSide` and `OldSide` the runs, each from a process's start, in which otherwise they
   do. `Scenarios` holds the building blocks of the concrete runs.
3. **The durable Raft store** (`DurableFile`, `RaftLog`, `RaftStateMachine`, `RaftStore`). A file replaced by
   write-sync-rename-sync on a disk that loses whatever is unsynced, the log store and state machine on top,
   and their interleaving with crashes between any two steps.
4. **Selection and wire** (`Selection`, `Wire`, `Rpc`). The production chooser against the step model, frames
   and gossip, and the pairing of answers with calls.

`Quorum` holds majorities and the counting facts shared by all of them.

## What the model assumes

- Sequence numbers are not monotone: applying an entry overwrites the decision, whatever its number
  (`src/store.rs:250-251`), and a leader may propose the same number again after 20 passes
  (`src/lib.rs:377-387`). Nothing here relies on their order.
- In `Supervisor` a setting call either takes effect and succeeds, or does neither. `FenceCache` splits it
  into its two SQL calls (`src/lib.rs:68-71`) and says exactly what that costs.
- Gossip is dated when it is drained, not when it arrives (`src/lib.rs:258-261`). `NonOverlap` therefore
  keeps arrival and draining apart.
- A failed probe of the node's own LSN reads 0, a failed probe of a peer falls back on its gossip
  (`src/apply.rs:134-145`, `src/lib.rs:355`). `Selection.Accurate` is the hypothesis that none did.
- Durability is crash-stop: a crashed node stays down. Any node may crash in the store model and come back
  with what its disk kept.
- Calls into the store follow the Raft library's contract: contiguous appends, purges that move forward and
  only up to a snapshot, installed snapshots no older than the state, at most one write in progress per file,
  and, where replay is concerned, no truncation or overwriting of entries counted as committed
  (`RaftStore.KeepsCommitted`).
- `NonOverlap` assumes one clock, one date per message, passes at most `pace` apart, messages that arrive
  within `delay` of the cut, and fences in force within `landing`. On the majority side a node leaves recovery
  only after asking for its promotion, and a decision it can read names the old primary until one of its own
  leaders has proposed another (`NonOverlap.Ratified`).

## Where the code and its documentation disagree

- *Every acknowledged write is on whichever node wins* (`docs/DURABILITY.md:36-40`, line 48 of the repository's
  README). True of positions: `Durability.LossExactly`. Not of contents when the failover may ignore survivors, as the step
  model's electorates do (`packages/consensus-model/src/lib.rs:44-53`): from five nodes on, with any quorum
  below all nodes, two failovers can replace acknowledged entries by others with the same LSN
  (`WalDurability.ContentLossExactly`, `WalDurability.LsnSafetyIsNotContentSafety`). Choosing among all
  survivors, as `choose_primary` does when every survivor is heard, keeps contents
  (`WalDurability.AllAliveKeepsContents`).
- *A writable primary always has sync configured* (`src/lib.rs:519-521`). `Effects.WritableWithoutSyncExactly`
  says of every pass out of recovery exactly when it ends otherwise. There are three ways: the unfence at line
  555 does not look at the result of the sync call at line 540; a node that serves before any decision never
  sets the target (lines 510-516); and a failed fence leaves a writable server as it was. `Effects.SyncGapRun`
  and `Effects.BootstrapGapRun` are runs from a process's start into the first two. The order of the calls is
  right: `Effects.SyncBeforeUnfence`, and from the second decided pass whose calls succeed there is no window,
  not even between two calls (`Effects.NoWindowUnderDecision`).
- *The cache knows what the server does.* The stall check drops the cache so that a watchdog's fence is not
  overlooked (`src/lib.rs:238-245`). That rests on more than 2000 ms exceeding 1500 ms, as
  `FenceCache.CoherenceExactly` makes precise: the heartbeat must land within 500 ms of its pass's start, the
  watchdog's fence within 1500 ms of its look at the heartbeat (the script looks, asks for the setting and
  fences in separate commands), and the node must not serve before any decision, since it then opens again at
  once after a stall.
- *A node believed fenced is fenced.* An unfence that alters the setting and fails to reload it leaves a
  writable setting behind that the next reload, of any setting, activates while the supervisor's cache says
  read-only: `FenceCache.SilentlyWritableExactly`. The supervisor then loses authority, issues no fence, and
  the server takes writes through any number of passes (`FenceCache.StaysWritable`,
  `FenceCache.AnyNumberOfPasses`).
- *Promote fenced* (`src/lib.rs:432-441`). The result of a promotion's fence is ignored. Once a pass has asked
  for a promotion its server is writable exactly when its setting was and the fence failed
  (`Effects.PromotedOpenExactly`); `Effects.FailedPromoteFenceRun` is such a run from a process's start. The
  bound of `NonOverlap.TimedNonOverlap` then shrinks by the confirm window, and no less
  (`Threshold.NonOverlapExactly`).
- *The log is purged only behind the durable state machine.* A snapshot is built from memory
  (`src/store.rs:192-197`) while an apply releases its lock before it persists (lines 244-263), so a snapshot
  may cover entries that are not yet on disk. `RaftStore.HoleExactly`: the durable purge point stays behind
  the durable applied point, for every committed log with anything in it, exactly when snapshots are not built
  during an apply's write.
- *Frames round-trip.* The writer accepts any length and truncates it to 32 bits, the reader refuses more
  than 4 MiB: `Wire.FrameRoundTripExactly`.
- *The chooser follows the model.* On equal LSNs it prefers a node out of recovery, the model a lower id. With
  equal flags the two always agree (`Selection.ChooserRefinesModel`). With any flags they agree exactly when
  the alive nodes above the front candidate, by LSN and then by id, leave at least a majority
  (`Selection.ChooserFollowsModelExactly`); mixed flags go either way (`Selection.MixedFlagsGoEitherWay`). An
  acknowledged position is not lost in either case (`Selection.ChosenHoldsAcked`).

## Model

| member | source | states |
|---|---|---|
| `Leadership.ElectState` | packages/consensus-model/src/leadership.rs:87-95 | the voter loop yields the election step: the voters and nobody else enter a term above every term, and only the winner among them is writable |
| `Leadership.CommitState` | packages/consensus-model/src/leadership.rs:96-122 | the counting loop yields the commit step: refused without a current-term majority of alive nodes, otherwise recorded in the history with its split-brain verdict |
| `Leadership.FencedCommit` | packages/consensus-model/src/leadership.rs:96-122 | a fenced commit is never behind the committed history and, in an already committed term, is the committer's own |
| `Leadership.FencedInvStep` | packages/consensus-model/src/leadership.rs:83-131 | every step keeps: one leader per term, committed terms held by a majority, no split-brain |
| `Leadership.CommitsOrdered` | packages/consensus-model/src/leadership.rs:137-139 | of any two commits of a fenced run the later has the higher term or the same term and the same leader |
| `Leadership.HistoryMonotone` | packages/consensus-model/src/leadership.rs:109-121 | the recorded term only grows along a run and its committer never changes within a term |
| `Leadership.SplitBrainExactly` | packages/consensus-model/src/leadership.rs:163-189 | split-brain is reachable if and only if fencing is off, n is at least 3 and two terms are allowed |
| `Leadership.StaleLeaderExactly` | packages/consensus-model/src/leadership.rs:140-144 | a stale writable leader is reachable, fencing or not, if and only if n is at least 3 and two terms are allowed |
| `Leadership.ElectionMovesMajority` | packages/consensus-model/src/leadership.rs:52-95 | an election moves exactly a bare majority of alive nodes to one new highest term and leaves exactly one of them writable |
| `Leadership.RecoversAsItWas` | packages/consensus-model/src/leadership.rs:123-128 | a node comes back from a crash in the term and with the writability it crashed with |
| `Leadership.StaleAfterRecoveryExactly` | packages/consensus-model/src/leadership.rs:123-128 | a leader can come back from a crash stale and still writable if and only if n is at least 3 and two terms are allowed |
| `Leadership.SplitBrainMeans` | packages/consensus-model/src/leadership.rs:109-121 | in every run, fenced or not, the verdict stands if and only if some commit was in an older term than an earlier one, or in the same term by another leader |
| `Durability.WinnerHolds` | packages/consensus-model/src/lib.rs:37-56 | when quorums and majorities overlap, every possible failover winner holds the acknowledged position |
| `Durability.AckHeldStep` | packages/consensus-model/src/lib.rs:73-134 | every step keeps the acknowledged position on enough nodes and on the primary |
| `Durability.AckHeldAlways` | packages/consensus-model/src/lib.rs:142-145 | so it holds at every point of every run |
| `Durability.LosingRun` | packages/consensus-model/src/lib.rs:195-204 | whenever they do not overlap, a run that loses an acknowledged position exists |
| `Durability.LossExactly` | packages/consensus-model/src/lib.rs:142-145 | a loss is reachable if and only if quorum plus majority is at most n and a write and a failover are allowed (a quorum of zero acts as one, the primary's own copy) |
| `Durability.MajorityMinusOneLoses` | packages/consensus-model/src/lib.rs:195-204 | one confirmation short of a majority loses for exactly the odd n of at least 3 |
| `Durability.PrimaryPlusSyncQuorumIsSafe` | src/lib.rs:161-162 | one primary plus majority-1 standbys never loses |
| `Durability.EveryLagIsReachable` | packages/consensus-model/src/lib.rs:108-124 | standbys catch up one position at a time: every lag behind the primary is reachable, and its position can be acknowledged as soon as enough hold it |
| `WalDurability.EraseStep` | packages/consensus-model/src/lib.rs:108-134 | forgetting contents turns each step into the numeric step by the same action |
| `WalDurability.EraseRun` | packages/consensus-model/src/lib.rs:63-134 | every run with contents is a numeric run |
| `WalDurability.Lift` | packages/consensus-model/src/lib.rs:63-134 | every numeric run has a run with contents behind it |
| `WalDurability.WinnerHolds` | packages/consensus-model/src/lib.rs:49-53 | while alive logs are beginnings of the primary's, any electorate's best member has every acknowledged entry |
| `WalDurability.FailoverKeepsChain` | src/failover.rs:40-49 | a winner over all survivors has the longest of their logs, and theirs are beginnings of it |
| `WalDurability.AllAliveKeepsContents` | docs/DURABILITY.md:36-40 | with overlapping quorums and failover over all survivors, acknowledged entries stay through any number of failovers |
| `WalDurability.ForkLoses` | packages/consensus-model/src/lib.rs:44-53 | from five nodes on a run loses acknowledged entries although a majority confirmed each |
| `WalDurability.ContentLossExactly` | docs/DURABILITY.md:36-40 | acknowledged entries can be lost if and only if quorums miss each other, or a failover may ignore survivors, n is at least 5, two failovers are allowed and not every node must confirm |
| `WalDurability.LsnSafetyIsNotContentSafety` | packages/consensus-model/src/lib.rs:179-193 | in the five-node configuration the repository checks, no position is ever lost and contents can be |
| `Selection.Best` | src/failover.rs:40-49 | the fold yields a candidate that compares at least equal to all |
| `Selection.ChoiceIsOrderFree` | src/failover.rs:40-49 | the choice depends on the set of candidates only |
| `Selection.CanWinExactly` | packages/consensus-model/src/lib.rs:37-56 | a node can win some majority if and only if it is alive and ranks at or above at least a majority of alive nodes |
| `Selection.MembersOf` | packages/consensus-model/src/lib.rs:45 | a mask's members are listed once each |
| `Selection.WinnerOf` | packages/consensus-model/src/lib.rs:45-53 | one mask yields its best member, or none exactly when it is not an electorate |
| `Selection.MaskOf` | packages/consensus-model/src/lib.rs:44 | the masks below 2^n cover every set of nodes |
| `Selection.PossibleNewPrimaries` | packages/consensus-model/src/lib.rs:37-56 | the loop over all masks yields exactly the nodes that can win |
| `Selection.ChoiceIsFront` | src/failover.rs:43-46 | the comparator selects the least id out of recovery among the candidates of highest LSN, or the least id there if all are in recovery |
| `Selection.ChooserFollowsModelExactly` | src/failover.rs:40-49 | over any accurate candidates with any recovery flags the choice is one of the model's possible new primaries if and only if the alive nodes above it, by LSN and then by id, leave at least a majority |
| `Selection.ChooserRefinesModel` | src/failover.rs:40-49 | over live sets of majority size with true LSNs and equal recovery flags, the chosen node is one of the model's possible new primaries |
| `Selection.ChosenHoldsAcked` | src/lib.rs:344-368 | over a majority with true LSNs and any flags the chosen node holds every acknowledged position |
| `Selection.MixedFlagsGoEitherWay` | src/failover.rs:43-46 | the same mixed flags once against the model and once with it |
| `SupervisorProcess.Process.DrainInbox` | src/lib.rs:258-266 | the draining loop folds every message, in order, into the four maps |
| `SupervisorProcess.Process.ServeWrites` | src/lib.rs:471-605 | the branch out of recovery computes its specification |
| `SupervisorProcess.Process.FollowInRecovery` | src/lib.rs:409-470 | the branch in recovery computes its specification |
| `SupervisorProcess.Process.Pass` | src/lib.rs:237-605 | one pass in place equals `Supervisor.Tick` on memory and server, whatever others did to the server since; the object's life stays a run from a start; an unfence under a decision ends a held confirm window, authority after a stall needs a new decision, and authority without a decision is gone once the cluster was seen |
| `SupervisorProcess.Process.Guarantees` | src/lib.rs:488-504 | these three guarantees of runs, derived for the object after its last pass |
| `SupervisorRuns.ServerIsNotRead` | src/lib.rs:237-605 | what a pass remembers, reports and orders does not depend on the server's actual settings, only on its caches |
| `SupervisorRuns.ConfirmWindowHeld` | src/lib.rs:489-504 | every unfence under a decision ends at least 1500 ms in which every pass had raw authority, none was in recovery and no gap exceeded 1500 ms |
| `SupervisorRuns.StallNeedsNewDecision` | src/lib.rs:239-243 | after a stall under a decision, writes are authorized only once a different decision has been adopted |
| `SupervisorRuns.WaysToSeeCluster` | src/lib.rs:258-314 | decoding a sequence number of at least 1, adopting a decision or finding the marker makes the cluster known |
| `SupervisorRuns.BootstrapLost` | src/lib.rs:488-494 | once the cluster is known, no later pass of the process is authorized without a decision |
| `SupervisorRuns.AuthorityExactly` | src/lib.rs:401-408 | raw authority in terms of what was heard within the lease, the decision, the doubt, the marker and the numbers heard |
| `SupervisorRuns.AuthorizedExactly` | src/lib.rs:489-504 | authorization in terms of raw authority and its date, and what the date becomes |
| `GossipRuns.HeardIsLast` | src/lib.rs:258-259 | a peer was last heard when its last message was drained, decodable or not |
| `GossipRuns.KnownIsHighest` | src/lib.rs:263-264 | the number known of a peer is the highest it ever said |
| `GossipRuns.SightedAsLastSaid` | src/lib.rs:260-262 | in every run a peer is sighted, and doubted, as it last said of itself, dated when that was drained |
| `GossipRuns.LiveIsRecentlySaid` | src/lib.rs:318-324 | so it is live if and only if that was within the dead timeout |
| `GossipRuns.SelfIsLive` | src/lib.rs:320-322 | from its first broadcast on a node counts itself live |
| `GossipRuns.BroadcastSays` | src/lib.rs:290-296 | a broadcast says the position and recovery flag the pass finds, and the doubt and decision it goes on with |
| `GossipRuns.DecidedNumberIsSeen` | src/lib.rs:258-266 | whoever decodes a decided node's broadcast knows of the cluster |
| `SupervisorRuns.CachedAlways` | src/lib.rs:522-570 | with no other writer, what the caches claim is what the server has, throughout every run |
| `SupervisorRuns.AuthorizedSetsSync` | src/lib.rs:538-554 | an authorized pass under a decision leaves the sync target in force if and only if it was or the call succeeds |
| `SupervisorRuns.TargetStays` | src/lib.rs:505-516 | losing authority never clears the target; only recovery does |
| `Effects.EffectsExplainServer` | src/lib.rs:409-605 | replaying a pass's calls on the server gives exactly the server it leaves |
| `Effects.ServingCallsExactly` | src/lib.rs:517-570 | a serving pass fences without authority, unfences with it and sets the sync it wants, each if and only if its cache does not say so already, and caches what succeeded |
| `Effects.SyncBeforeUnfence` | src/lib.rs:517-570 | in every run, at every unfence under a decision the server already has the sync target if and only if it had it before or the sync call succeeded |
| `Effects.PassOpensNoWindow` | src/lib.rs:519-521 | nothing between two calls of a pass is writable without the target unless the pass began or ends so |
| `Effects.NoWindowUnderDecision` | src/lib.rs:519-521 | from the second decided pass on whose fence and sync calls succeed, the server is never writable without the target, between any two calls either |
| `Effects.UnfenceHasNoWindow` | src/lib.rs:519-521 | when the calls so far succeed, a pass that unfences under a decision has no such window from its first call to its last |
| `Effects.WritableMeansSync` | src/lib.rs:519-521 | when fence and sync calls succeed, a decided server that is writable after a pass is the named primary's, authorized, with the target |
| `Effects.WritableWithoutSyncExactly` | src/lib.rs:517-570 | for every pass out of recovery, decided or not, authorized or not: it ends writable without the target if and only if the server was or is made writable, nothing fences it, and the target neither was in force nor is set |
| `Effects.SyncGapRun` | src/lib.rs:555-570 | a run from a process's start in which one failed sync call opens the server without standbys |
| `Effects.BootstrapGapRun` | src/lib.rs:510-516 | a run from a start in which every fence and sync call succeeds and an undecided node serves without the target |
| `Effects.FenceBeforePromote` | src/lib.rs:435-442 | whenever a pass has asked for a promotion it has asked for its fence first |
| `Effects.PromotedOpenExactly` | src/lib.rs:430-451 | in every run, at every cut of a pass after its promotion request, the server is writable if and only if it was before the pass and the promotion's fence failed |
| `Effects.FailedPromoteFenceRun` | src/lib.rs:435-442 | a run from a process's start in which that happens |
| `SupervisorRuns.ReplacementIsOrderFree` | src/lib.rs:344-368 | the replacement does not depend on the order in which the map yields its entries |
| `SupervisorRuns.ReplacementIsBest` | src/lib.rs:316-398 | a replacement comes from a leader that sees a majority and not the decided primary; it is a node seen, and none seen has a higher fresh LSN |
| `SupervisorRuns.ReplacementByProbes` | src/lib.rs:344-368 | candidates are compared by successful probes, a peer without one by its last gossip, the leader itself without one by nothing |
| `SupervisorRuns.ReplacementIsMostAdvanced` | src/lib.rs:344-368 | with truthful probes a replacement is a live node of highest true position, whatever was gossiped |
| `SupervisorRuns.ProposedHoldsAcked` | src/lib.rs:344-368 | and, quorums overlapping, it holds every acknowledged position |
| `SupervisorRuns.FirstPrimaryExactly` | src/lib.rs:334-338 | before any decision a leader proposes the least live node out of recovery, under number 1, exactly when there is one |
| `SupervisorRuns.ReconfirmsExactly` | src/lib.rs:329-370 | while the decided primary is live a leader proposes it again, under the next number, exactly when somebody is in doubt |
| `SupervisorRuns.ReplacesExactly` | src/lib.rs:339-368 | once it is not, a leader always proposes somebody |
| `ChoresRuns.ProposesExactly` | src/lib.rs:375-396 | in every run from a start a pass proposes if and only if it leads, has a cause, and has not proposed within twenty passes under the same decision |
| `ChoresRuns.RejoinsExactly` | src/lib.rs:572-604 | a pass orders a rewind onto p if and only if it serves unauthorized, the decision names the member p and not this node, script and directory are there, and none was ordered since the decision was adopted |
| `ChoresRuns.RejoinsOncePerDecision` | src/lib.rs:572-604 | between two rewinds a decision is adopted, and no node is rewound onto itself |
| `ChoresRuns.SlotsExactly` | src/lib.rs:472-487 | the named node creates slots in exactly its first serving pass under each decision |
| `ChoresRuns.RepointsExactly` | src/lib.rs:452-469 | a standby is repointed at a member primary exactly until one attempt has succeeded under that decision |
| `ChoresRuns.PromotesExactly` | src/lib.rs:422-451 | the named standby asks for promotion exactly unless a request succeeded within a hundred passes under that decision |
| `ChoresRuns.MarkerExactly` | src/lib.rs:298-314 | the directory is known once a twentieth pass was told; the marker, if it was found then or written under a decision since |
| `ChoresRuns.RecoveryClearsSync` | src/lib.rs:412-421 | after a pass in recovery the sync setting is off if and only if it was or the call succeeded |
| `ChoresRuns.AsynchronousClearsSync` | src/lib.rs:510-511 | where synchronous replication is off, likewise after a serving pass |
| `SupervisorRuns.TargetMeetsThreshold` | src/lib.rs:161-172 | the sync target names all other voters, enough of them, and meets the durability threshold |
| `FenceCache.ServingIsAPass` | src/lib.rs:471-570 | with whole calls the phases here do to authority and setting what a pass out of recovery does |
| `FenceCache.RecoveringIsAPass` | src/lib.rs:409-451 | and what a pass in recovery does |
| `FenceCache.CoherentStep` | src/lib.rs:239-245 | every step of either program keeps the cache right unless the next pass is bound to drop it, and a stall check makes it right |
| `FenceCache.CoherenceExactly` | src/lib.rs:234-245 | after every stall check the cache is right, under any interleaving of the two programs' separate calls and commands, if and only if calls are whole, heartbeats are written and land in time, the watchdog's limit exceeds the stall threshold by that time, its fence lands within the confirm window of its look, and no node serves undecided |
| `FenceCache.DeployedLimitsAreCoherent` | scripts/watchdog.sh:10 | at 2000 ms that means heartbeats within 500 ms of the pass's start and fences within 1500 ms of the look, exactly |
| `FenceCache.SilentlyWritableExactly` | src/lib.rs:68-71 | a node without authority and believed fenced can be writable if and only if an unfence can stop between its two calls |
| `FenceCache.StaysWritable` | src/lib.rs:522-537 | from there no fence is issued and the server stays writable through every stretch of unauthorized, unstalled passes |
| `FenceCache.AnyNumberOfPasses` | src/lib.rs:522-537 | such stretches exist for every number of passes |
| `Watchdog.Deadman.Wake` | scripts/watchdog.sh:23-52 | one wake-up fences exactly a serving, stale, not yet read-only node and counts misses in a row |
| `Watchdog.GivesUpExactly` | scripts/watchdog.sh:27-35 | the count reaches its limit exactly when that many latest looks all found no server |
| `Watchdog.WakeIsWatchdogSteps` | scripts/watchdog.sh:39-51 | a wake-up of a serving node is the look, the question and the two calls of `FenceCache`, each in the state the script reads; a missing heartbeat is a zero |
| `NonOverlap.LastHeard` | src/lib.rs:258-266 | a cut-off node last hears the far side within delay plus one pace of the cut |
| `NonOverlap.LeaseRunsOut` | src/lib.rs:401-408 | and is not authorized once the lease has run out after that |
| `NonOverlap.OldPrimaryFences` | src/lib.rs:517-537 | a fence is ordered within lease, delay and two paces of the cut, and the server stays read-only |
| `NonOverlap.LastBroadcastIsRecent` | src/lib.rs:289-296 | the last broadcast before any instant is less than five paces old |
| `NonOverlap.ClusterInvStep` | src/lib.rs:316-398 | no pass of the majority side departs from the old primary before its dead timeout |
| `NonOverlap.PassOpensLate` | src/lib.rs:409-570 | at no point of a pass, between two calls either, does a majority-side server take writes before its time |
| `NonOverlap.NewPrimaryWaits` | src/lib.rs:422-504 | no majority-side server takes writes before the dead timeout plus the confirm window after the last sighting, or the dead timeout alone should a promotion's fence fail |
| `NewSide.FollowerFromStart` | src/lib.rs:210-235 | the follower these runs begin with is what a run from a process's start leads to |
| `NewSide.WaitIsTight` | src/lib.rs:230-234 | a run, led up to from a start, in which one does at exactly that instant, every promotion fenced |
| `NewSide.FailedFenceIsTight` | src/lib.rs:435-442 | a run, led up to from a start, in which a promotion's fence fails and one does at the dead timeout |
| `NonOverlap.TimedNonOverlap` | src/lib.rs:230-234 | the old primary's fence is in force strictly before any majority-side server takes writes whenever delay + 7 paces + landing is under 2802 ms, or under 1302 ms should a promotion's fence fail |
| `OldSide.OldInvAt` | src/lib.rs:400-408 | the slowest old primary, from its start on: it opens when its window has passed and stays open while its lease holds |
| `OldSide.OldCutOff` | src/lib.rs:258-261 | whatever it hears of the far side arrived by the cut plus the delay |
| `Threshold.NonOverlapExactly` | src/lib.rs:230-234 | for every delay, pace and landing: the fence lands first in all pairs of runs led up to from starts if and only if no time passes or delay + 7 paces + landing is under 2802 ms, or 1302 ms where promotions' fences may fail |
| `DurableFile.IoStepOk` | src/store.rs:359-371 | every disk step of a replacement keeps a complete synced value behind the path |
| `DurableFile.CrashLeavesOldOrNew` | src/store.rs:359-371 | a crash at any step leaves the complete old bytes, or the complete new ones from the rename on |
| `DurableFile.Replaceable.AtomicWrite` | src/store.rs:359-371 | the five steps replace the content, and every later crash keeps the new one |
| `DurableFile.Replaceable.Read` | src/store.rs:338-357 | opening yields the last content written, or the default where there is no file |
| `RaftLog.OperationRefines` | src/store.rs:87-155 | each contract-abiding operation on the map is the matching one on the offset sequence |
| `RaftLog.HistoryRefines` | src/store.rs:60-155 | so is every history of them |
| `RaftLog.VoteIsLastSaved` | src/store.rs:87-93 | over any history the vote is the argument of the last call that saved one |
| `RaftLog.CommittedIsLastSaved` | src/store.rs:99-108 | likewise the committed index |
| `RaftLog.UnsavedStays` | src/store.rs:87-108 | without such a call they are as at the start |
| `RaftLog.PurgeContractExactly` | src/store.rs:145-155 | a purge leaves a sequence if and only if it does not move back or nothing is retained |
| `RaftLog.RangeReadsSlice` | src/store.rs:61-67 | range reads are slices of the sequence |
| `RaftLog.LogStore.AppendEntries` | src/store.rs:114-132 | inserts every entry and persists before the callback could fire |
| `RaftLog.LogStore.RemoveAll` | src/store.rs:138-140 | removes exactly the collected keys |
| `RaftLog.LogStore.TruncateFrom` | src/store.rs:134-143 | drops exactly the indices from the given one on, and persists |
| `RaftLog.LogStore.PurgeUpTo` | src/store.rs:145-155 | drops exactly the indices up to the given one, records it, and persists |
| `RaftLog.LogStore.RecordVote` | src/store.rs:87-93 | the vote is in the file before the call returns |
| `RaftLog.LogStore.RecordCommitted` | src/store.rs:99-108 | the committed index is in the file before the call returns |
| `RaftLog.LogStore.GetLogState` | src/store.rs:73-81 | reports the purge point and last id of the sequence |
| `RaftLog.LogStore.TryGetEntries` | src/store.rs:61-67 | returns the requested slice of the sequence |
| `RaftStateMachine.FoldExtends` | src/store.rs:236-262 | applying the next entries, in any batching, extends the fold |
| `RaftStateMachine.DecisionIsLast` | src/store.rs:250-253 | the decision after n committed entries is that of the highest of them that carries one |
| `RaftStateMachine.MembershipIsLast` | src/store.rs:254-257 | the membership is that of the highest that carries one, dated by its id |
| `RaftStateMachine.NothingFromNothing` | src/store.rs:245-260 | where no entry carries one there is none; the last applied entry is the last of them |
| `RaftStateMachine.UndecidedBatch` | src/store.rs:263-266 | a batch without a decision entry leaves the decision alone, so not publishing is right |
| `RaftStateMachine.ReplayFinishes` | src/store.rs:145-155 | what is retained after a purge up to an applied index completes the fold |
| `RaftStateMachine.StateMachine.Apply` | src/store.rs:236-268 | applies in order, writes the whole state once, and only then publishes a decision if the batch held one |
| `RaftStateMachine.StateMachine.BuildSnapshot` | src/store.rs:191-223 | captures the state with a fresh serial and writes no file |
| `RaftStateMachine.StateMachine.Publish` | src/store.rs:26-33 | only a decision the file holds may be published |
| `RaftStateMachine.StateMachine.InstallSnapshot` | src/store.rs:280-303 | replaces the state, writes it, and only then publishes its decision |
| `RaftStore.ApplyCallIsApply` | src/store.rs:236-268 | a batch enters the transition system as the object applies it, publication included |
| `RaftStore.AlwaysReopens` | src/store.rs:318-357 | every crash at any disk step can be reopened; before the rename it is as if the write had not begun |
| `RaftStore.InvStep` | src/store.rs:87-303 | every step, crashes included, keeps both stores sound and loses nothing acknowledged |
| `RaftStore.StateIsFold` | src/store.rs:236-303 | at every point of every run the state machine is the fold of the committed log up to its last applied entry |
| `RaftStore.AcknowledgedStays` | src/store.rs:87-132 | everything acknowledged stays, in order, at the front of the store's history |
| `RaftStore.PublishedIsDurable` | src/store.rs:263-266 | a decision once readable is reflected by what any later crash recovers |
| `RaftStore.PublishedIsLastDecision` | src/store.rs:250-266 | a readable decision is that of the last decision entry of a prefix every later crash recovers, none exactly if the prefix has none |
| `RaftStore.AcknowledgedLogIsDurable` | src/store.rs:114-132 | a vote, entry or purge once acknowledged is in what any later crash recovers |
| `RaftStore.CallsAccount` | src/store.rs:87-155 | what memory has been is what the calls in effect made of it, one after the other |
| `RaftStore.AckedCallsStay` | src/store.rs:87-132 | a call once acknowledged stays in effect, at its place |
| `RaftStore.RecoveredVoteIsLastSaved` | src/store.rs:87-97 | after a crash at any point the vote read back is that of the last saving call among those acknowledged and possibly the one in progress; likewise the committed index |
| `RaftStore.LogIsAlwaysASequence` | src/store.rs:60-155 | across calls, crashes and reopenings the log store always stands for one sequence after its purge point |
| `RaftStore.NoHole` | src/store.rs:145-155 | without overlap, a reopened node has applied at least what was purged |
| `RaftStore.CommittedAlways` | src/store.rs:114-155 | across calls and crashes the log holds the committed entries from its purge point to what the node counts as committed |
| `RaftStore.ReopenedNodeCatchesUp` | src/store.rs:318-336 | so after every crash of every run its retained log brings it to the fold of the committed log that far |
| `RaftStore.HoleExactly` | src/store.rs:191-197 | for every committed log: the purge point can pass the applied point across a crash if and only if the log is not empty and snapshots may be built during an apply's write |
| `Wire.IntRoundTrip` | src/rpc.rs:60 | big-endian integers read back |
| `Wire.FrameRoundTripExactly` | src/rpc.rs:59-75 | a frame reads back, stream right behind it, if and only if it is at most 4 MiB |
| `Wire.GossipCutOrExtended` | src/failover.rs:8-32 | payloads cut to 9-17 bytes decode with defaults, shorter ones not at all, longer ones unchanged |
| `Wire.HandleConnection` | src/rpc.rs:102-136 | the handler's loop yields the specification's gossip and answers |
| `Wire.GossipEndToEnd` | src/rpc.rs:108-124 | broadcasts on one stream arrive as exactly the voters' original tuples, in order |
| `Wire.AnsweredInOrder` | src/rpc.rs:125-132 | requests on one stream are answered one by one, in order |
| `Wire.ServesUntilClosed` | src/rpc.rs:108-136 | of any mix of frames a connection serves exactly those before the first that is empty, of no known kind or unanswered: the voters' gossip and the replies, in order |
| `Rpc.CutFrame` | src/rpc.rs:65-75 | an answer cut off anywhere before its end is not an answer |
| `Rpc.ExchangePairs` | src/rpc.rs:186-189 | an exchange from a frame boundary returns its own request's reply and ends at a boundary |
| `Rpc.Connection.Perform` | src/rpc.rs:219-239 | keeps a stream exactly after a complete answer; retries once, on a new one |
| `Rpc.CallPairs` | src/rpc.rs:201-239 | a call's answer is the server's reply to that call |
| `Rpc.AnswersPairWithCalls` | src/rpc.rs:201-239 | so is every answer of every sequence of calls, whatever timeouts, broken streams and reconnects |
| `Rpc.ExchangeExactly` | src/rpc.rs:186-189 | from a boundary an exchange has an answer if and only if the request is written and a readable answer arrives whole, and it is that answer |
| `Rpc.CallExactly` | src/rpc.rs:219-239 | a call answers from the kept stream if that completes, else from a new connection if that completes; it is unreachable exactly if the new one is not made, a network error exactly if that fails |
| `Rpc.OutcomesExactly` | src/rpc.rs:201-239 | the same of every call of every sequence, a stream being kept exactly after an answer |

## Left out

- The Raft library itself (election, replication, commit): it appears as one committed log and a storage contract.
- psql, promotion, rewind and script spawning: each is a success flag or an effect in the output of a pass.
- Addresses, passwords, GUC registration and the text of `synchronous_standby_names`: the setting is a value.
- Tokio, the accept loop, signal masking and the latch: I/O plumbing.
- The gossip sender's loop that keeps only the newest queued frame: it drops messages, which the receiving side allows for by taking any inbox.
- JSON: values are stored, and reading back what was written is assumed.
- The status string, logging and `src/state.rs`: display only.
- Real WAL, timelines, rewind and base backup, and the effect of replication slots: a rejoin is an effect and the creation of slots a flag in the output of a pass.
- Liveness and failover latency: they depend on scheduling and networks the code does not fix.
- The wrap-around of a decision's sequence number past 64 bits.
- `Leadership.ElectState`: voters are a set, not a 32-bit mask; the enumeration of actions is the relation `Enabled`.
- `Selection.PossibleNewPrimaries`: asks for fewer than 32 nodes, because the source shifts a 32-bit one by the number of nodes.
- `SupervisorProcess.Process.Pass`: setting calls are whole; `FenceCache` has the half-done ones.
- `FenceCache.CoherenceExactly`: one clock for both programs, to the millisecond; a pass whose heartbeat never lands, and a half-altered fence that is not followed up in time, are not continued.
- `NonOverlap.TimedNonOverlap`: a supervisor restarting during the cut is not modelled, and a node stays on its side of the cut.
- `RaftStore.HoleExactly`: whether the library does build snapshots during an apply's write is not decided here.
- `Wire.IntRoundTrip`: bytes are numbers below 256 and a frame's length any natural number, cut to 32 bits as the cast does.
- `Rpc.AnswersPairWithCalls`: replies must be shorter than 4 GiB, which the length prefix presupposes.
