# simloom, modelled and proved in Dafny

simloom runs asyncio programs inside a simulated universe: every choice is a draw from a tape, time is
virtual, and network, disks and services are stand-ins with injected faults. This project models the
algorithms its claims rest on and proves those claims for all programs, all tapes, all histories and all
interleavings. `dafny verify dfyconfig.toml` checks everything.

A program under test is a finite tree of draws: each node asks for a draw with a label and a bound, and the
answer selects the branch. The scheduler's pick, network delays, protocol reactions and the answers of
monitor predicates are arbitrary inputs, so theorems about them hold for every scheduler, latency model,
protocol and predicate. Code that updates objects in place is modelled by classes; each method is proved
equal to a function on the object's value, and the theorems are about those functions and their runs.

| part | files | main results |
|---|---|---|
| choice tape and replay | `Tape.dfy`, `Run.dfy` | strict replay is exact precisely on complete paths; fallback replay refines it |
| systematic search | `Systematic.dfy` | the odometer visits the delay-bounded space, all of it, once each, in order; `proven_correct` is a proof |
| shrinker | `Shrink.dfy` | descent through exact witnesses that ends without a budget; with budget left no candidate of any pass helps |
| serializability checker | `Cycles.dfy`, `Orders.dfy`, `History.dfy`, `Serializability.dfy`, `Exactness.dfy`, `Checker.dfy`, `Limits.dfy` | globally shortest cycle; when "ok" is right, for all histories with unique appends |
| event loop and monitors | `Monitors.dfy`, `Responses.dfy`, `Clock.dfy`, `Loop.dfy`, `LoopInvariants.dfy`, `LoopTiming.dfy`, `LoopDeadlines.dfy`, `LoopLooks.dfy`, `LoopRuns.dfy`, `LoopRequests.dfy`, `LoopOrder.dfy`, `LoopWitness.dfy` | handle conservation, exact time and order, exact deadlines, goals and responses within their bounds, progress |
| disk | `Disk.dfy` | refines a plain map; exactly what a power cut may leave, and which draws leave it |
| Raft election | `Raft.dfy`, `Election.dfy`, `Roles.dfy`, `PlantedBug.dfy`, `Leading.dfy` | Election Safety, by record, by role and by heartbeat, exactly without the planted bug or with at most one node |
| Redis stand-in | `Redis.dfy`, `Resp.dfy`, `Locking.dfy`, `Transactions.dfy`, `Counter.dfy` | when EXEC commits, what it performs and in which order, no lost updates, wire round trip |
| network | `Net.dfy`, `Transports.dfy`, `Streams.dfy`, `StreamCalls.dfy`, `Partitions.dfy`, `Outage.dfy`, `Datagrams.dfy`, `DatagramFates.dfy` | FIFO streams under faults; nothing crosses a block; what becomes of each datagram and when flows stay in order |

## Where the code is narrower than its documentation

- The consistency module says a serial order exists if and only if the dependency graph is acyclic
  (src/simloom/_consistency.py:17). Self-edges are dropped, appends nobody read get no edge, and values nobody
  appended are skipped, so this fails: `Limits` gives three concrete histories, the last of them outside the
  module's own assumption that appended values are unique. For all histories with unique appends the exact
  statement is `Exactness.SerializableExactly`: the recorded edges together with those left out for unobserved
  appends close no cycle, and the history is coherent, which can be checked one transaction and one key at a time.
  `Exactness.VerdictIsRight` says when "ok" is right; "violation" always is.
- `_shortest_cycle` stops at a two-cycle, "nothing is shorter". A self-loop would be; `_Graph.add` never
  records one, and `Checker.CheckSerializable` uses that.
- The shrinker's module text speaks of shortlex order; its key counts deviations before length, so an accepted
  tape may be longer than the one before (`Shrinking.AcceptedMayBeLonger`), but only for fewer deviations
  (`Shrinking.LongerResultDeviatesLess`). The model follows the key.
- Datagrams are documented as in order by default, each strictly later than the last. That needs a positive
  minimum latency, which `set_latency` does not ask for: `Datagrams.OrderIsKeptExactly` is the exact condition and
  `Datagrams.ZeroLatencyReorders` an example. Likewise a reordered datagram is sure to be overtaken exactly under the
  inequality of `Datagrams.HeldBackIsOvertaken`; `Datagrams.HeldBackStaysAhead` is one that is not.
- When a reached deadline is enforced, "all same-instant events have run" (src/simloom/_loop.py:335). A zero-delay
  timer created by the last callback of that instant has not: `LoopDeadlines.DueTimerIsPassedOver` says exactly when
  that happens and `LoopWitness.DueTimerIsPassedOverHere` is a run. Monitor exactness is therefore stated over the
  step boundaries actually reached.
- `heal` promises that held traffic is delivered. A transport closed while its edge is blocked never flushes what it
  holds: `Streams.HealReleasesEverything` says exactly which endpoints hold something after a heal, and
  `Outage.ClosedTailIsKept` is a run. What is delivered is always a prefix of what was sent.

## Model

Cited paths are relative to the root of the simloom repository. Where a method's contract ties the new value of an
object to a function of its old value, the method refines that step function and its row says what the step is; what
holds of steps and runs is in the rows of the lemmas.

| member | source | states |
|---|---|---|
| `Tapes.Tape.Replay` | src/simloom/_tape.py:126-150 | a replaying tape starts at its first draw, aligned, with nothing re-recorded |
| `Tapes.Tape.Generate` | src/simloom/_tape.py:115-123 | a generating tape has no recording, so it can never misalign |
| `Tapes.Tape.Diverge` | src/simloom/_tape.py:181-188 | strict tapes raise and keep their state; fallback tapes note the position of the first divergence |
| `Tapes.Tape.NextValue` | src/simloom/_tape.py:163-179 | a value of the recording while it fits label and bound, the generator once it was given up, an error under the strict policy; a raised error changes nothing |
| `Tapes.Tape.Draw` | src/simloom/_tape.py:154-161 | every answered draw is recorded with label, value and bound and lies below its bound; a bound below one and a strict divergence raise and record nothing |
| `Tapes.Tape.ForceFallback` | src/simloom/_tape.py:190-200 | gives the recording up where it stands, once, whatever the policy |
| `Runs.Execute` | src/simloom/_run.py:288-326 | the run loop against a tape object ends as the recursive execution of the choice tree does, tape state and reported result alike |
| `Runs.StrictReplayIsExact` | src/simloom/_run.py:310-326 | strict replay consumes its recording exactly if and only if the recording is a complete path of the choice tree; then result and re-recorded tape are that path's, otherwise an error is reported |
| `Runs.ReRecordsAPath` | src/simloom/_tape.py:221-224 | whatever a generating or fallback tape answers, the draws it records are a complete path, and the run ends as that path does |
| `Runs.FallbackReplayRefines` | src/simloom/_tape.py:163-188 | fallback replay of any recording, edited or not, agrees with it up to misaligned_at, where it really diverges, and its re-recorded draws replay strictly and exactly to the same result |
| `Runs.GeneratorAnswersInTurn` | src/simloom/_tape.py:163-188 | the generator behind a tape is asked once for each draw the recording did not answer, from the divergence on, in order and for nothing else, and its answers are the draws |
| `Runs.GeneratedReplays` | src/simloom/_tape.py:114-123 | the tape of a universe generated from any seed replays strictly to the same result |
| `Runs.ZeroFallbackRealizes` | src/simloom/_tape.py:28-34 | zero-fallback replay of a plan runs exactly the plan completed with zeros |
| `Runs.RealizeComplete` | src/simloom/_tape.py:163-179 | completing a plan that already is a complete path changes nothing |
| `Runs.ReplayZero` | src/simloom/_systematic.py:108-116 | the replay used by the search and the shrinker returns the completed plan and its outcome |
| `Systematic.SpaceIsExact` | src/simloom/_systematic.py:83-91 | the enumerated space holds exactly the complete paths with at most max_delays nonzero draws and default values at draws wider than max_bound |
| `Systematic.SpaceIncreasing` | src/simloom/_systematic.py:128-129 | the enumeration is strictly lexicographically increasing, so nothing occurs twice |
| `Systematic.LastBumpableIsRightmost` | src/simloom/_systematic.py:130-140 | the draw to bump has an untried alternative and delay budget before it, and no draw to its right does |
| `Systematic.FirstIsDefault` | src/simloom/_systematic.py:99 | the empty plan runs the first path of the space, the all-default one |
| `Systematic.OdometerSteps` | src/simloom/_systematic.py:128-145 | bumping and truncating the i-th path of the space gives a plan that realizes the path right after it; the odometer rolls over at the last path and only there |
| `Systematic.Advance` | src/simloom/_systematic.py:130-145 | the right-to-left search loop computes the odometer step |
| `Systematic.RecordKeepsReport` | src/simloom/_systematic.py:117-126 | one more run keeps the report exact: failures listed in order with their numbers, the witness the first of them |
| `Systematic.RunPlan` | src/simloom/_systematic.py:108-124 | running a plan visits the next path of the space and keeps the report exact |
| `Systematic.Campaign` | src/simloom/_systematic.py:99-155 | the campaign visits the first paths of the space, in order; it is exhaustive only when it visited all, and stops early only on a failure it may stop on or on a spent budget |
| `Systematic.ExploreSystematic` | src/simloom/_systematic.py:70-155 | rejects the three bad arguments and otherwise keeps the contract of the campaign; its result is proven_correct exactly when the budget covers the space and no path in it fails |
| `Systematic.NoFailuresReported` | src/simloom/_systematic.py:54-56 | the failure list is empty exactly when no visited path fails |
| `Systematic.ExhaustiveCoversTheSpace` | src/simloom/_systematic.py:48 | a campaign visits nothing outside the bounded space and nothing twice, and is exhaustive exactly when it visited all of it and was not stopped by a failure |
| `Systematic.ProvenCorrectMeansNoFailure` | src/simloom/_systematic.py:58-62 | proven_correct holds exactly when the budget covers the space and every path in it passes |
| `Systematic.FirstFailureIsLeast` | src/simloom/_systematic.py:123-124 | the first failure found is the lexicographically least failing path of the space |
| `Systematic.MoreDelaysExploreMore` | src/simloom/_systematic.py:84 | the explored set only grows with max_delays, and so does its size |
| `Systematic.UnboundedSearchIsComplete` | src/simloom/_systematic.py:83-91 | every path without wide draws is reached by some delay bound, namely its own number of delays |
| `Shrinking.KeyLessTransitive` | src/simloom/_shrink.py:68-73 | the order on keys is transitive |
| `Shrinking.SmallerKeyFalls` | src/simloom/_shrink.py:68-73 | a smaller key has a smaller ordinal rank: the termination argument of every pass, with or without a budget |
| `Shrinking.NoEndlessShrinking` | src/simloom/_shrink.py:68-73 | no infinite sequence of tapes descends at every step |
| `Shrinking.LongerResultDeviatesLess` | src/simloom/_shrink.py:133-183 | a result longer than the tape it started from is a witness with strictly fewer deviations |
| `Shrinking.AcceptedMayBeLonger` | src/simloom/_shrink.py:126-130 | a program and a tape of one draw for which the accepted tape has two |
| `Shrinking.Descend` | src/simloom/_shrink.py:186-194 | all candidate values are smaller, and 0, half and one less are among them |
| `Shrinking.WitnessReplaysStrictly` | src/simloom/_shrink.py:126-128 | a re-recorded tape replays strictly, and under zero fallback, to the very run it was accepted for |
| `Shrinking.MinimalMeans` | src/simloom/_shrink.py:186-194 | what minimality says of each draw: deleting it (if others remain), or replacing its value v by 0, v//2 or v-1, is not interesting or not smaller |
| `Shrinking.MinimalBlocks` | src/simloom/_shrink.py:136-161 | and of each block: with the tape cut into pieces of any of the chunk sizes of a pass, from half its length down by halving to one, no piece can be deleted, and no piece that is not all zero can be zeroed as a whole |
| `Shrinking.MinimalHalves` | src/simloom/_shrink.py:136-161 | the coarsest of these pieces are the two halves of the tape |
| `Shrinking.SizesHalve` | src/simloom/_shrink.py:136-161 | each chunk size is followed by its half, and the last is one |
| `Shrinking.Shrinker.constructor` | src/simloom/_shrink.py:114-117 | shrinking starts from the failing run with no run used |
| `Shrinking.Shrinker.TryAccept` | src/simloom/_shrink.py:119-131 | accepts a candidate exactly when budget is left, its run is interesting and its re-recorded tape has a smaller key; counts the run |
| `Shrinking.Shrinker.DeleteChunks` | src/simloom/_shrink.py:139-145 | a sweep that improves nothing shows that deleting no chunk of its size helps; progress always uses budget |
| `Shrinking.Shrinker.DeletionPass` | src/simloom/_shrink.py:136-146 | pass 1 ends without needing the budget, and without improvement leaves no helpful deletion of a chunk of any of its sizes |
| `Shrinking.Shrinker.ZeroChunks` | src/simloom/_shrink.py:153-160 | a sweep that improves nothing shows that zeroing no block of its size with something to zero in it helps |
| `Shrinking.Shrinker.ZeroingPass` | src/simloom/_shrink.py:151-161 | pass 1.5 without improvement leaves no helpful zeroing of a block of any of its sizes |
| `Shrinking.Shrinker.Lower` | src/simloom/_shrink.py:167-174 | if no smaller value of the draw was accepted, every candidate value is rejected by the current tape |
| `Shrinking.Shrinker.ValuePass` | src/simloom/_shrink.py:165-175 | pass 2 without improvement leaves no draw with a helpful smaller value |
| `Shrinking.Shrinker.Minimize` | src/simloom/_shrink.py:133-175 | the rounds end even without a budget; with budget left, or none set, no chunk deletion, block zeroing or smaller value of any pass helps any more; the tape is always a witness or the original |
| `Shrinking.Shrink` | src/simloom/_shrink.py:76-183 | refuses passing runs; otherwise the result is the original or a strictly smaller exact witness, runs_used stays within a nonnegative max_runs, and with budget left, or none set, no candidate of any of the three passes helps any more |
| `Cycles.NoCycleWithin` | src/simloom/_consistency.py:112-127 | while all vertices below level d are expanded, every cycle through the source is longer than d |
| `Cycles.PathTo` | src/simloom/_consistency.py:118-121 | following parent links yields a simple path from the source of the recorded length |
| `Cycles.DiscoverKeeps` | src/simloom/_consistency.py:124-127 | meeting a new vertex keeps the queue ordered by level and the parents a tree of shortest steps |
| `Cycles.PopKeeps` | src/simloom/_consistency.py:113-113 | popping keeps the search invariant, and every vertex nearer than the popped one has left the queue |
| `Cycles.DropKeeps` | src/simloom/_consistency.py:114-115 | a vertex that is pruned or fully expanded need not be looked at again |
| `Cycles.ClosingIsShortest` | src/simloom/_consistency.py:117-123 | the first edge back to the source closes a cycle no longer than any through the source |
| `Cycles.ExhaustedIsShortest` | src/simloom/_consistency.py:112-115 | an empty queue means no cycle through the source beats the best so far, pruned vertices included |
| `Cycles.Expand` | src/simloom/_consistency.py:116-127 | following the edges of a popped vertex closes a simple shortest cycle through the source that beats the best so far, or leaves the vertex expanded |
| `Cycles.ShortestFrom` | src/simloom/_consistency.py:107-127 | one search finds a simple shortest cycle through its source that beats the best so far, or shows there is none |
| `Cycles.ShortestCycle` | src/simloom/_consistency.py:102-132 | None exactly when no cycle passes through the nodes; otherwise a simple one, shorter than or equal to every other, despite pruning and the early stop (a two-cycle could only be beaten by a self-loop) |
| `Histories.ScanAllKnows` | src/simloom/_consistency.py:158-167 | the first pass sees every operation; every recovered order was really read and every attributed value really appended |
| `Histories.LastIndex` | src/simloom/_consistency.py:171-171 | the last position of a value in the version order, or none |
| `Histories.DependsInRange` | src/simloom/_consistency.py:140-145 | dependencies only relate transactions of the history |
| `Serializability.ReadsArePrefixes` | src/simloom/_consistency.py:156-157 | in a serially explained history every read is a prefix of the recovered order, as the checker takes for granted |
| `Serializability.AttributedWriter` | src/simloom/_consistency.py:162-163 | with one appender per value, the transaction a value is attributed to put it in place |
| `Serializability.WriteWriteForward` | src/simloom/_consistency.py:172-176 | a ww edge points forward in every serial explanation |
| `Serializability.WriteReadForward` | src/simloom/_consistency.py:182-186 | a wr edge points forward in every serial explanation |
| `Serializability.ReadWriteForward` | src/simloom/_consistency.py:187-192 | a rw edge points forward in every serial explanation |
| `Serializability.AppendLands` | src/simloom/_consistency.py:162-163 | an appended value stands in the final list, where its transaction put it |
| `Serializability.UnseenIsBehind` | src/simloom/_consistency.py:187-192 | a value no read observed stands behind all recovered versions of its key |
| `Serializability.UnseenForward` | src/simloom/_consistency.py:187-192 | the edge the checker leaves out, to the appender of an unobserved value from those that read the key or wrote its versions, points forward in every serial explanation |
| `Serializability.SerializableKeepsConstraints` | src/simloom/_consistency.py:194-206 | with one appender per value, recorded dependencies and left-out edges of a serializable history together close no cycle |
| `Serializability.SerializableIsAcyclic` | src/simloom/_consistency.py:194-206 | with one appender per value, a serializable history has no dependency cycle: reported violations are real |
| `Exactness.FittingRuns` | src/simloom/_consistency.py:156-167 | a transaction that fits every key where its list stands runs, extends the lists by its own versions, and goes beyond them only with unobserved appends |
| `Exactness.MeetingSeparates` | src/simloom/_consistency.py:172-192 | the edges of a transaction that reads a key or writes its versions place it after the writers of what it found and before all other writers |
| `Exactness.NotSpilled` | src/simloom/_consistency.py:187-192 | in a topological order nothing unobserved is appended to a key before such a transaction |
| `Exactness.AllWritten` | src/simloom/_consistency.py:187-192 | and all versions are written before a transaction with unobserved appends alone |
| `Exactness.TurnFits` | src/simloom/_consistency.py:172-192 | so when its turn comes, every transaction finds exactly the list it needs |
| `Exactness.CutAdvances` | src/simloom/_consistency.py:172-176 | running it moves every key to its next cut of the version order |
| `Exactness.TopologicalRuns` | src/simloom/_consistency.py:194-196 | any topological order of a coherent history executes, prefix by prefix |
| `Exactness.AcyclicIsSerializable` | src/simloom/_consistency.py:194-196 | a coherent history whose constraints close no cycle has a serial explanation |
| `Exactness.VersionsAreFinal` | src/simloom/_consistency.py:156-167 | with unique, observed appends the recovered orders are the final lists of every serial explanation |
| `Exactness.SerializableIsCoherent` | src/simloom/_consistency.py:156-167 | every transaction of a serializable history with unique appends is consistent, on its own, with the version orders |
| `Exactness.SerializableExactly` | src/simloom/_consistency.py:9-20 | for all histories with unique appends: a serial order exists if and only if recorded and left-out edges together close no cycle and the history is coherent |
| `Exactness.VerdictIsRight` | src/simloom/_consistency.py:194-206 | "violation" is always right; "ok" is right if and only if the history is coherent and the left-out edges close no cycle either |
| `Exactness.SerializableIffAcyclicAndCoherent` | src/simloom/_consistency.py:9-20 | when every append was observed, the recorded graph and coherence decide |
| `Exactness.ReadsAgree` | src/simloom/_consistency.py:187-192 | two reads of one key that disagree, before the transaction wrote it, close a cycle |
| `Exactness.AppendFollowsRead` | src/simloom/_consistency.py:187-192 | an append that does not follow the versions its transaction read closes a cycle |
| `Exactness.UnobservedFollowsAll` | src/simloom/_consistency.py:187-192 | so does an unobserved append of a transaction that read less than all versions |
| `Exactness.PlainHistoriesExactly` | src/simloom/_consistency.py:9-20 | for plain transactions (one append per key, read before, not self-observed) and reads that are prefixes of sourced orders, coherence comes for free |
| `Exactness.PlainHistoriesDecided` | src/simloom/_consistency.py:9-20 | and if every append was observed, "no cycle" is equivalent to serializability |
| `Checker.History.constructor` | src/simloom/_consistency.py:81-82 | an empty history |
| `Checker.History.Record` | src/simloom/_consistency.py:84-86 | transactions are numbered in completion order |
| `Checker.Graph.constructor` | src/simloom/_consistency.py:135-138 | a graph without edges |
| `Checker.Graph.Add` | src/simloom/_consistency.py:140-145 | drops self-edges, keeps the first kind of an edge, and keeps successor lists and types in step |
| `Checker.Recover` | src/simloom/_consistency.py:158-167 | version orders are the longest reads, earliest first on ties, and appenders the last appending transaction |
| `Checker.LinkVersions` | src/simloom/_consistency.py:172-176 | adds every ww edge of a key and nothing unsound |
| `Checker.LinkObserved` | src/simloom/_consistency.py:182-186 | adds every wr edge of a read and nothing unsound |
| `Checker.LinkUnseen` | src/simloom/_consistency.py:187-192 | adds every rw edge of a read and nothing unsound |
| `Checker.LinkRead` | src/simloom/_consistency.py:182-192 | links one read |
| `Checker.LinkReads` | src/simloom/_consistency.py:178-192 | links all reads of a key in one transaction |
| `Checker.LinkKey` | src/simloom/_consistency.py:170-192 | links everything about one key |
| `Checker.BuildGraph` | src/simloom/_consistency.py:156-192 | the edges are exactly the dependencies between different transactions, each with a true kind |
| `Checker.DependencyLinked` | src/simloom/_consistency.py:170-192 | once every key is linked no dependency is missing |
| `Checker.SearchDecides` | src/simloom/_consistency.py:194-196 | the answer of the cycle search, read as a statement about all dependency cycles |
| `Checker.EdgeTypes` | src/simloom/_consistency.py:197-199 | every edge of a reported cycle, the closing one included, has its recorded type |
| `Checker.CheckSerializable` | src/simloom/_consistency.py:148-206 | ok exactly when the dependencies are acyclic; otherwise a simple cycle of globally least length with a true kind on every edge |
| `Checker.Verdict` | src/simloom/_consistency.py:148-206 | what the answer is worth: never a false alarm with one appender per value; with unique appends "ok" is right exactly when the history is coherent and the left-out edges close no cycle; on plain, observed histories it always is |
| `Limits.PhantomReadIsMissed` | src/simloom/_consistency.py:184-186 | a read of a value nobody appended passes, although no serial order explains it |
| `Limits.UnobservedAppendIsMissed` | src/simloom/_consistency.py:189-192 | an append nobody read gets no edge, so an unserializable history passes; the left-out edge closes its cycle |
| `Limits.SharedValueIsAFalseAlarm` | src/simloom/_consistency.py:162-163 | a value appended twice makes the checker report a cycle in a serializable history |
| `Disks.SimDisk.constructor` | src/simloom/_world.py:50-52 | an empty disk |
| `Disks.SimDisk.Write` | src/simloom/_world.py:54-55 | buffered only |
| `Disks.SimDisk.Read` | src/simloom/_world.py:57-65 | the buffered contents first, then the synced ones; deleted or missing files raise |
| `Disks.SimDisk.Exists` | src/simloom/_world.py:67-70 | whether a read would succeed |
| `Disks.SimDisk.Delete` | src/simloom/_world.py:72-75 | buffers a delete, or raises and changes nothing |
| `Disks.SimDisk.CommitOne` | src/simloom/_world.py:87-91 | commits a write or a delete of one path |
| `Disks.SimDisk.Fsync` | src/simloom/_world.py:77-82 | commits one path and takes it out of the cache |
| `Disks.SimDisk.FsyncAll` | src/simloom/_world.py:83-85 | commits every path: afterwards the synced files are the visible ones |
| `Disks.SimDisk.Files` | src/simloom/_world.py:93-100 | exactly the visible paths, in ascending order |
| `Disks.SimDisk.DropUnsynced` | src/simloom/_world.py:102-104 | the whole cache is lost |
| `Disks.SimDisk.Sort` | src/simloom/_world.py:110-110 | the paths in ascending order, each once |
| `Disks.FatesAreExact` | src/simloom/_world.py:106-121 | the fates the tape may draw for a path are exactly what a power cut may leave of it: synced, flushed, or torn to a proper nonempty prefix |
| `Disks.FatesAreDrawn` | src/simloom/_world.py:110-121 | whatever the tape answers, a power cut draws one fate for each buffered path, in order, and one tear for each torn write, and records just these draws |
| `Disks.ExtremeFates` | src/simloom/_world.py:102-121 | fate 0 for every path leaves what drop_unsynced leaves, the highest fate for every path what an fsync leaves |
| `Disks.ZeroTapeLosesTheCache` | src/simloom/_world.py:102-122 | on the zero tape a power cut is drop_unsynced |
| `Disks.PowerCutsAreExact` | src/simloom/_world.py:106-122 | a disk may be left by a power cut if and only if some recording makes the cut leave it, replayed strictly and exactly |
| `Disks.SimDisk.CutPath` | src/simloom/_world.py:110-121 | draws the fate of one path, and where to tear it if it is torn, and leaves just what this fate says; touches no other, and changes nothing if the tape raises |
| `Disks.SimDisk.PowerCut` | src/simloom/_world.py:106-122 | the buffered paths in ascending order, each left as its own draws from the tape say; the cache is lost; an error of the tape is passed on and leaves the cache |
| `Disks.OpRefines` | src/simloom/_world.py:54-91 | one operation keeps the visible files equal to a plain map, and says what it makes durable |
| `Disks.DiskRefinesMap` | src/simloom/_world.py:37-43 | after any history the visible files are those of a plain map, the synced ones those of the map as of each path's last fsync, and the cache holds exactly the paths changed since |
| `Disks.CrashDurability` | src/simloom/_world.py:106-122 | after any history and power cut a path holds its last synced contents, its latest ones, or a proper nonempty prefix of its latest write; unchanged since its last fsync, it is kept |
| `Raft.PersistIsDurable` | examples/toy_raft.py:54-59 | after persisting, term and vote are durable |
| `Raft.DurableSurvives` | examples/toy_raft.py:45-52 | no power cut changes durable term and vote |
| `Raft.RaftNode.constructor` | examples/toy_raft.py:29-52 | a starting node has the term and vote of its disk and is a follower |
| `Raft.RaftNode.Persist` | examples/toy_raft.py:54-59 | writes term and vote through to the disk |
| `Raft.RaftNode.OnRpc` | examples/toy_raft.py:88-115 | computes the node step function for a request; what that does to term, vote, role and reply is in Roles.HeartbeatIsFollowed, Roles.LaterTermDeposes and Roles.RepliesAreTrue |
| `Raft.RaftNode.OpenCampaign` | examples/toy_raft.py:137-143 | computes the step function of opening a campaign: a new term and a vote for itself, written through to the disk |
| `Raft.RaftNode.CloseCampaign` | examples/toy_raft.py:144-161 | computes the step function of closing one: grants counted up to a reply of a higher term, and the majority test |
| `Election.QuorumSize` | examples/toy_raft.py:157-157 | the majority a node counts with its peers is more than half of the cluster |
| `Election.NewVoteBinds` | examples/toy_raft.py:100-106 | a vote given by a node that had none in that term keeps votes binding and unique |
| `Election.StartKeeps` | examples/toy_raft.py:137-144 | opening a campaign keeps the cluster invariant |
| `Election.ReceiveKeeps` | examples/toy_raft.py:88-115 | handling any request ever sent, at any time and any number of times, keeps it |
| `Election.AnswerKeeps` | examples/toy_raft.py:119-131 | a late, repeated or reordered reply keeps it |
| `Election.WinnerHasQuorum` | examples/toy_raft.py:145-158 | the votes a winner counted come from a quorum of different nodes |
| `Election.FinishKeeps` | examples/toy_raft.py:145-162 | ending a campaign, won or lost, keeps it |
| `Election.OtherStepsKeep` | examples/toy_raft.py:164-168 | heartbeats, power cuts and restarts keep it |
| `Election.NextKeeps` | examples/toy_raft.py:88-168 | every step of the cluster keeps it |
| `Election.ReachedInv` | examples/toy_raft.py:88-168 | it holds in every state any sequence of steps reaches |
| `Election.QuorumsMeet` | examples/toy_raft.py:157-157 | two quorums of one cluster share a node |
| `Election.ElectionSafety` | examples/toy_raft.py:209-214 | for any number of nodes and any interleaving of calls, losses, campaigns, heartbeats, crashes and restarts, no two nodes lead one term |
| `Election.ReachedDurable` | examples/toy_raft.py:54-59 | in every state any sequence of steps reaches, term and vote are durable on every node, with the bug or without |
| `Election.RestartReloads` | examples/toy_raft.py:45-52 | after a power cut and a restart a node has exactly the term and vote it had at its last await, and is a follower |
| `Election.VotesAreGranters` | examples/toy_raft.py:145-156 | the votes counted are as many as there are nodes that granted one |
| `Roles.ReachedRoles` | examples/toy_raft.py:157-168 | in every reached state a node whose role is leader is recorded as leader of its term, and so is every sender of a heartbeat, with the bug or without |
| `Roles.OneLeaderByRole` | examples/toy_raft.py:209-214 | no two nodes have the role of leader in one term, neither at one time nor at two different times of a run |
| `Roles.HeartbeatsComeFromTheWinner` | examples/toy_raft.py:164-168 | every heartbeat ever sent comes from the one node that won its term with a quorum of votes |
| `Roles.HeartbeatIsFollowed` | examples/toy_raft.py:109-115 | a node, candidate or not, that hears another node's heartbeat of its own or a later term is a follower of that term afterwards; an earlier one changes nothing |
| `Roles.LeadersAreNotDeposedByEquals` | examples/toy_raft.py:109-115 | without the bug nobody else ever sends a heartbeat of the term of a leader |
| `Roles.LaterTermDeposes` | examples/toy_raft.py:89-93 | a call of a later term makes any node a follower of that term |
| `Roles.RepliesAreTrue` | examples/toy_raft.py:94-115 | without the bug a vote is granted exactly when the node now stands in the term of the request with its vote on the one who asked, a heartbeat acknowledged exactly when it stands in its term, and the reply carries that term |
| `Roles.BallotsAdvance` | examples/toy_raft.py:45-59 | no step, power cut or restart makes a node forget a term or change its vote within one |
| `Roles.ElectedExactly` | examples/toy_raft.py:145-162 | at the end of a campaign the node is leader if and only if it is still a candidate of that term, no reply was of a later one, and with its own vote more than half of the cluster granted theirs; after a reply of a later term it is a follower |
| `Roles.RoleChanges` | examples/toy_raft.py:88-162 | the only ways from role to role: candidates by opening a campaign in a new term, leaders from candidates of that very term, followers through a later term or a heartbeat of their own |
| `PlantedBug.Grants` | examples/toy_raft.py:95-106 | with the bug a node grants a candidate of its term whatever it has granted before |
| `PlantedBug.Collects` | examples/toy_raft.py:144-156 | so two candidates of one term collect the votes of all others |
| `PlantedBug.Wins` | examples/toy_raft.py:157-160 | and a candidate granted by all others wins |
| `PlantedBug.BuggyElectsTwo` | examples/toy_raft.py:95-98 | with the planted bug every cluster of two nodes or more has a run that elects two leaders of one term |
| `PlantedBug.SafeExactly` | examples/toy_raft.py:209-214 | Election Safety holds in all runs if and only if the bug is absent or the cluster has at most one node |
| `Leading.SomebodyCanLead` | examples/toy_raft.py:137-162 | every cluster of at least one node, with the bug or without, has a run that elects a leader |
| `Redis.Connection.constructor` | src/simloom/_services.py:65-67 | a fresh connection watches nothing and queues nothing |
| `Redis.SimRedis.constructor` | src/simloom/_services.py:74-76 | an empty keyspace |
| `Redis.SimRedis.Bump` | src/simloom/_services.py:78-79 | the version of one key moves on by one |
| `Redis.SimRedis.Delete` | src/simloom/_services.py:129-136 | removes and counts the keys present, bumping just those |
| `Redis.SimRedis.CountPresent` | src/simloom/_services.py:137-138 | counts present keys, repetitions included |
| `Redis.SimRedis.WatchKeys` | src/simloom/_services.py:147-150 | remembers the current version of each key |
| `Redis.SimRedis.Count` | src/simloom/_services.py:139-146 | the increment family: a missing key counts as zero, and non-numbers and missing arguments raise without writing |
| `Redis.SimRedis.Dispatch` | src/simloom/_services.py:99-163 | each plain command changes keyspace and session, and replies, as specified |
| `Redis.SimRedis.ExecuteQueue` | src/simloom/_services.py:165-175 | EXEC without MULTI is an error, a changed watched key aborts, otherwise the queue runs in order and a raising command ends it where it stands |
| `Redis.SimRedis.HandleCommand` | src/simloom/_services.py:87-92 | one command takes the step of the server's step function; what that queues and performs, and in which order, is in Transactions.QueueIsWhatWasSent and Transactions.ExecPerformsInOrder |
| `Redis.RaisingEnds` | src/simloom/_services.py:175-175 | what stands in the queue behind a raising command has no effect |
| `Resp.ShowParses` | src/simloom/_services.py:26-27 | integers survive decimal conversion, and hold no newline |
| `Resp.DecimalRoundTrips` | src/simloom/_services.py:140-144 | decimal conversion meets what the counters assume of it |
| `Resp.Reader.ReadLine` | src/simloom/_services.py:45 | a line up to and including its newline, or what is left |
| `Resp.Reader.ReadExactly` | src/simloom/_services.py:55-56 | exactly that many bytes, or none for a negative or too large number |
| `Resp.Reader.ReadBulk` | src/simloom/_services.py:53-56 | one bulk string off the stream |
| `Resp.Reader.ReadBulks` | src/simloom/_services.py:51-57 | that many bulk strings, or failure |
| `Resp.Reader.ReadCommand` | src/simloom/_services.py:42-59 | reads one command and leaves the rest of the stream, or ends the connection |
| `Resp.BulkReads` | src/simloom/_services.py:53-56 | a bulk string is read back whole, whatever bytes it holds |
| `Resp.JoinedReads` | src/simloom/_services.py:51-57 | so are any number of them in a row |
| `Resp.CommandReads` | src/simloom/_services.py:42-57 | an encoded command is read back exactly and takes nothing of what follows |
| `Resp.PipelineArrives` | src/simloom/_services.py:83-86 | any pipeline of commands is read as the same commands in the same order |
| `Resp.PipelinesDiffer` | src/simloom/_services.py:30-39 | different pipelines have different encodings |
| `Locking.PerformTracks` | src/simloom/_services.py:123-146 | no plain command lowers a version, and a key whose version it did not move keeps presence and value |
| `Locking.HandleTracks` | src/simloom/_services.py:87-92 | the same for any command, EXEC with its whole queue included |
| `Locking.WatchAllWatches` | src/simloom/_services.py:147-150 | WATCH remembers the version of just the keys named, over older memories |
| `Locking.HandleWatches` | src/simloom/_services.py:147-174 | a command keeps every watch of its own connection truthful |
| `Locking.WatchedKeysTracked` | src/simloom/_services.py:147-174 | over any interleaving of connections, a watched key whose version is still the remembered one is as it was when last watched |
| `Locking.OptimisticLocking` | src/simloom/_services.py:165-175 | an EXEC that is not aborted finds every watched key with the presence and value of its latest WATCH and runs its whole queue in one go; an aborted one changes nothing |
| `Transactions.QueueIsWhatWasSent` | src/simloom/_services.py:87-92 | in any run a connection has a queue exactly when it sent a MULTI and no EXEC, DISCARD or other MULTI since, and the queue is what it sent to be queued since then, in order of arrival |
| `Transactions.ExecPerformsInOrder` | src/simloom/_services.py:165-175 | an EXEC that commits performs the commands sent since the MULTI in order of arrival, each on what the one before left, and its i-th reply answers the i-th of them; one that raises leaves those before it performed and the others not |
| `Transactions.LastSetDecides` | src/simloom/_services.py:124-127 | of several writes of one key in a transaction the last one decides |
| `Transactions.DeletedExactly` | src/simloom/_services.py:129-136 | DEL removes just the keys named, moves the version of just those that were there, and counts them, each once |
| `Transactions.PresentExactly` | src/simloom/_services.py:137-138 | EXISTS counts the places at which a key that is there is named |
| `Transactions.RepliesTell` | src/simloom/_services.py:127-138 | GET replies what the key holds, DEL how many different keys it removed, EXISTS how often a present key was named |
| `Transactions.PerformWritesExactly` | src/simloom/_services.py:123-146 | a version moves, by one, exactly where its key is written; every other key keeps its value; commands that read or raise write nothing |
| `Transactions.WatchedExactly` | src/simloom/_services.py:147-174 | in any run a connection watches just the keys it named in a WATCH since its watches last ended, by a DISCARD, an EXEC of an open transaction, or an UNWATCH outside of one |
| `Transactions.WatchedVersion` | src/simloom/_services.py:147-150 | what is remembered of a watched key is its version at its last WATCH |
| `Transactions.ExecCommitsExactly` | src/simloom/_services.py:165-174 | over any interleaving, an EXEC commits if and only if the client is in a transaction and no key it watches has been written since it last watched it |
| `Counter.CommitAddsOne` | src/simloom/_services.py:165-175 | an acknowledged EXEC of the read-modify-write round leaves the counter exactly one higher, any other leaves it |
| `Counter.AdvanceKeepsRound` | src/simloom/_services.py:123-175 | each command of a round keeps the client's knowledge of the counter sound |
| `Counter.BystanderLeaves` | src/simloom/_services.py:123-146 | connections that never write the counter leave it alone, queued commands included |
| `Counter.ActKeeps` | src/simloom/_services.py:83-92 | every action of any client keeps the counter equal to its start plus the commits |
| `Counter.IncrementsAdd` | src/simloom/_services.py:139-146 | the increment family adds its step to the counter, a missing one counting as zero, or raises and writes nothing |
| `Counter.NoLostUpdates` | src/simloom/_services.py:165-175 | in every run, whatever the server did before, the counter ends at its initial value plus the number of EXECs that committed; a missing counter counts as zero |
| `Counter.CommitsAreCounted` | src/simloom/_services.py:74-76 | on a server that has just started, the counter ends at the number of commits |
| `Counter.FirstRoundCommits` | src/simloom/_services.py:123-175 | such a run: one round reads the missing counter as zero, commits, and leaves it at one |
| `Monitors.FirstBroken` | src/simloom/_monitors.py:107-109 | the first invariant that does not hold, all before it holding |
| `Monitors.NextDeadlineIsLeast` | src/simloom/_monitors.py:121-132 | the next deadline is pending and none is earlier; None means nothing is pending |
| `Monitors.MonitorSet.constructor` | src/simloom/_monitors.py:73-76 | no monitors |
| `Monitors.MonitorSet.AddAlways` | src/simloom/_monitors.py:84-86 | registers an invariant |
| `Monitors.MonitorSet.AddEventually` | src/simloom/_monitors.py:88-90 | registers an unsatisfied goal |
| `Monitors.MonitorSet.AddLeadsTo` | src/simloom/_monitors.py:92-99 | registers an unarmed response, or refuses a bound that is not positive |
| `Monitors.MonitorSet.AfterStep` | src/simloom/_monitors.py:103-119 | reports the first broken invariant and then updates nothing else; otherwise satisfies goals and arms or discharges slots |
| `Monitors.MonitorSet.NextDeadline` | src/simloom/_monitors.py:121-132 | the scanning loops compute the least pending deadline |
| `Monitors.MonitorSet.FireDue` | src/simloom/_monitors.py:134-157 | enforces reached deadlines in order up to the first that fails, rechecking each |
| `Monitors.MonitorSet.FinalizeRun` | src/simloom/_monitors.py:159-179 | a violation at the end of the run exactly when a goal was never reached or a response is still owed, named after the first such monitor, goals first |
| `Responses.SlotIsExact` | src/simloom/_monitors.py:113-118 | the one slot is armed exactly when some trigger is owed a response, with the deadline of the first such trigger |
| `Responses.ResponsesAreInTime` | src/simloom/_monitors.py:113-118 | as long as no look is overdue, the first response after a trigger is within the bound |
| `Responses.BoundedResponse` | src/simloom/_monitors.py:146-156 | every trigger was answered within its bound, or is owed and its bound has not run out |
| `Responses.ViolationIsReal` | src/simloom/_monitors.py:146-156 | the slot runs out at an instant if and only if some trigger exactly that long ago has had no response since |
| `Loops.SimLoop.constructor` | src/simloom/_loop.py:108-163 | a loop at its epoch with nothing scheduled |
| `Loops.SimLoop.DropTop` | src/simloom/_loop.py:317-318 | cancelled timers leave the top of the heap |
| `Loops.SimLoop.Sift` | src/simloom/_loop.py:305-311 | cancelled work is dropped, work of crashed tasks parked, the rest kept in order |
| `Loops.SimLoop.Compact` | src/simloom/_loop.py:303-312 | the same for the whole ready list |
| `Loops.SimLoop.Release` | src/simloom/_loop.py:354-361 | due timers move to the ready list in heap order, are parked, or are dropped |
| `Loops.SimLoop.DetectLivelock` | src/simloom/_loop.py:386-398 | counts steps at one instant and raises beyond the bound |
| `Loops.SimLoop.Affect` | src/simloom/_loop.py:539-576 | one call of a callback takes the step of the loop's step function; what the calls of a run amount to, deadlines of goals included, is in LoopRequests.RegistryIsExact |
| `Loops.SimLoop.RunCallback` | src/simloom/_loop.py:382-382 | a callback's calls take effect in order |
| `Loops.SimLoop.CheckDue` | src/simloom/_loop.py:421-428 | enforces deadlines without running anything |
| `Loops.SimLoop.StepOne` | src/simloom/_loop.py:366-384 | runs any one ready handle the scheduler picks, unless livelock is raised first, then looks at the monitors |
| `Loops.SimLoop.RunOnce` | src/simloom/_loop.py:314-384 | one turn of the loop: deadlock, a deadline, the next instant, or a step, in this order of precedence |
| `Loops.SimLoop.ReviveCrashed` | src/simloom/_loop.py:494-503 | no task is crashed any more, and every parked handle is ready again |
| `LoopInvariants.RunOnceConserves` | src/simloom/_loop.py:303-384 | on every exit but livelock each handle is in exactly one place: ready, heap, parked, run once, or dropped; on every exit what was dropped had been cancelled, and what is parked belongs to a crashed task |
| `LoopTiming.RunOncePunctual` | src/simloom/_loop.py:314-384 | the clock never goes back, moves only with nothing ready and never past a live timer; what runs is live and due at that very instant |
| `LoopDeadlines.AfterStepInTime` | src/simloom/_monitors.py:103-119 | a boundary keeps every pending deadline at or after the clock, and every slot faithful to what was seen |
| `LoopDeadlines.FireDueInTime` | src/simloom/_monitors.py:134-157 | so does enforcing deadlines |
| `LoopDeadlines.FireDueIsReal` | src/simloom/_monitors.py:138-156 | a liveness violation names a goal whose deadline is now and not reached, or a trigger exactly its bound ago without response since |
| `LoopDeadlines.FireDueProgress` | src/simloom/_monitors.py:134-157 | enforcing a reached deadline reports it or clears it |
| `LoopDeadlines.FireDueReportsTheFirst` | src/simloom/_monitors.py:134-157 | enforcing reports the first goal that is due and does not hold, or if there is none the first such response, and nothing exactly if there is neither |
| `LoopDeadlines.DueTimerIsPassedOver` | src/simloom/_loop.py:334-339 | a liveness violation is raised over a timer due at that instant exactly when nothing is ready, the timer and the next deadline are both reached, and the recheck fails |
| `LoopDeadlines.RunOnceInTime` | src/simloom/_loop.py:322-352 | no turn of the loop skips a deadline; liveness violations are raised with the clock on them and nothing ready; quiescence is reported as deadlock whatever is pending; a turn that neither runs nor raises uses up a timer or a deadline |
| `LoopLooks.BoundaryObserved` | src/simloom/_loop.py:412-419 | after a step that breaks no invariant every registered monitor has looked at the boundary, with the answers of its sample |
| `LoopLooks.TurnFaithfully` | src/simloom/_loop.py:314-384 | a turn of the loop adds that look for each monitor if a handle ran and at most a recheck otherwise, changes no registration, and ends as the sample says |
| `LoopRuns.StartInv` | src/simloom/_loop.py:265-270 | whatever is scheduled or registered before the first turn, all invariants hold at the start |
| `LoopRuns.RunOnceMetered` | src/simloom/_loop.py:386-398 | the livelock counter counts the steps of the latest instant, and no instant exceeds the bound |
| `LoopRuns.RunKeepsInv` | src/simloom/_loop.py:250-252 | all of these hold in every state of every run, from any start, under any scheduler, program and monitors |
| `LoopRuns.EverythingRunsOnTime` | src/simloom/_loop.py:314-384 | in any run each handle that ran did so once, at exactly the instant it was due, in clock order, at most max_steps_per_instant of them at one time |
| `LoopRuns.NoHandleIsLost` | src/simloom/_loop.py:303-312 | in any run only cancelled handles were dropped and only those of crashed tasks are parked; if it did not end in livelock each handle is in exactly one place, so live work that has not run is ready or in the heap; revival moves just the parked ones back to ready |
| `LoopRuns.CrashedTasksStayStopped` | src/simloom/_loop.py:484-492 | nothing that runs after a crash belongs to the crashed tasks |
| `LoopRuns.TriggersAreAnswered` | src/simloom/_loop.py:322-352 | in any run, whenever a handle ran and the trigger of a registered monitor held at the boundary, its response held at a later look within the bound, or at none so far and the bound has not run out; the monitor looks at every boundary, and each look is that of a turn and its sample |
| `LoopRuns.GoalsAreExact` | src/simloom/_loop.py:412-419 | a goal counts as reached if it held at any boundary since its registration, and only if it held at some turn |
| `LoopRuns.LoopMakesProgress` | src/simloom/_loop.py:314-352 | a turn that neither runs a handle nor raises decreases timers plus pending deadlines |
| `LoopRuns.ViolationsAreExact` | src/simloom/_loop.py:322-352 | how a turn ends: a liveness violation only for a real failure, with the clock on it and nothing ready; a safety violation exactly when a handle ran and an invariant did not hold, naming the first; deadlock exactly on quiescence; livelock exactly for one step too many at its instant |
| `LoopRuns.RunForever` | src/simloom/_loop.py:250-252 | the loop object, set up and turned over, is in the state the theorems about runs speak of |
| `LoopRequests.RegistryIsExact` | src/simloom/_loop.py:539-576 | at every point of a run handles, cancellations, crashes and monitors are those its callbacks asked for, in that order: each handle with its owner and the instant it was scheduled for, each goal with the bound counted from its registration, each response with its own bound |
| `LoopRequests.RunsAsScheduled` | src/simloom/_loop.py:354-384 | whatever is called back was scheduled, runs at the very instant it was scheduled for, a past one counting as now, and was neither cancelled nor its task crashed at any earlier point |
| `LoopRequests.EventuallyRegisters` | src/simloom/_world.py:344-354 | an eventually with a positive bound is among the goals from the call on, counted from the instant of the call |
| `LoopRequests.GoalsAreMet` | src/simloom/_monitors.py:204-213 | a goal registered at one time with some bound either held at a look no later than time plus bound, or has held at no boundary since and that instant has not passed |
| `LoopRequests.TriggersAreAnsweredAsRegistered` | src/simloom/_monitors.py:216-220 | bounded response with the bound the monitor was registered with |
| `LoopRequests.LivenessViolationsAreReal` | src/simloom/_monitors.py:134-157 | a liveness violation carries the name of a registered goal that never held and the instant of its registration plus its bound, or the name of a response and the instant of an unanswered trigger plus its bound; and that instant is now |
| `LoopOrder.InsertBehindEquals` | src/simloom/_loop.py:575-575 | a new timer goes behind those of its own time and before later ones |
| `LoopOrder.CompactionKeepsOrder` | src/simloom/_loop.py:303-312 | compaction keeps what may run in its order, and parks and drops the rest in theirs |
| `LoopOrder.ReleaseKeepsOrder` | src/simloom/_loop.py:354-361 | exactly the due timers leave the heap, in its order |
| `LoopOrder.TurnQueues` | src/simloom/_loop.py:314-384 | a turn calls back the candidate the scheduler picked among the live ready handles and the due timers, which stand by time and then by creation; the others stay in order and new work goes to the end |
| `LoopOrder.RunsKeepOrder` | src/simloom/_loop.py:563-576 | in every state of every run the heap is in order of time and creation |
| `LoopWitness.SomethingHappens` | src/simloom/_loop.py:314-384 | a run in which a handle runs, a task crashes and its handle is parked, a timer fires on time, and an unanswered trigger ends in a violation at its deadline |
| `LoopWitness.DueTimerIsPassedOverHere` | src/simloom/_loop.py:334-339 | a run in which a live timer due at the deadline instant is passed over by the enforcement |
| `Net.InboxShrinks` | src/simloom/_net.py:212-221 | handing over one item takes exactly the first one off the inbox, whatever the protocol does in response |
| `Transports.SimNetwork.constructor` | src/simloom/_net.py:523-554 | a network without connections or blocks |
| `Transports.SimNetwork.ConnectedPair` | src/simloom/_net.py:949-958 | two endpoints that are each other's peer |
| `Transports.SimNetwork.IsBlocked` | src/simloom/_net.py:669-670 | whether the edge from an endpoint to its peer is blocked |
| `Transports.SimNetwork.Queue` | src/simloom/_net.py:170-176 | the arrival time is never before those already queued |
| `Transports.SimNetwork.Send` | src/simloom/_net.py:158-176 | holds the item if anything is held or the edge is blocked, else queues it |
| `Transports.SimNetwork.FlushHeld` | src/simloom/_net.py:178-192 | held items of an open endpoint go out in order while the edge is open |
| `Transports.SimNetwork.Release` | src/simloom/_net.py:698-700 | every transport flushes |
| `Transports.SimNetwork.Close` | src/simloom/_net.py:254-265 | marks the endpoint closing once, sending an end of stream to a peer that is not closing |
| `Transports.SimNetwork.End` | src/simloom/_net.py:285-289 | the endpoint is gone: finalized, forced, crashed or reset |
| `Transports.SimNetwork.Arrive` | src/simloom/_net.py:196-201 | moves the first pending item to the inbox of an open endpoint and asks for a pump |
| `Transports.SimNetwork.Hand` | src/simloom/_net.py:213-221 | hands over one item; the protocol may call any transports before it returns |
| `Transports.SimNetwork.Pump` | src/simloom/_net.py:208-221 | hands over items until the inbox is empty, reading is paused or the endpoint is closed |
| `Transports.SimNetwork.Write` | src/simloom/_net.py:141-145 | writes on a closing transport and empty writes do nothing |
| `Transports.SimNetwork.WriteEof` | src/simloom/_net.py:154-156 | an end of stream, unless the transport is closing |
| `Transports.SimNetwork.Invoke` | src/simloom/_net.py:139-310 | any call on a transport |
| `Transports.SimNetwork.PauseReading` | src/simloom/_net.py:242-243 | stops the pump |
| `Transports.SimNetwork.ResumeReading` | src/simloom/_net.py:245-247 | allows it and asks for it |
| `Transports.SimNetwork.Block` | src/simloom/_net.py:672-675 | blocks one direction |
| `Transports.SimNetwork.Unblock` | src/simloom/_net.py:678-680 | unblocks one direction and releases |
| `Transports.SimNetwork.Heal` | src/simloom/_net.py:692-696 | unblocks everything and releases |
| `Transports.SimNetwork.Partition` | src/simloom/_net.py:682-689 | blocks exactly the edges between the two groups, both ways |
| `Streams.SendFlows` | src/simloom/_net.py:158-176 | sending loses, doubles and reorders nothing, and holds data only behind a block |
| `Streams.FlushFlows` | src/simloom/_net.py:178-192 | so does flushing; afterwards an open endpoint holds nothing unless its edge is blocked |
| `Streams.ReleaseFlows` | src/simloom/_net.py:698-700 | so does releasing every transport |
| `Streams.ArrivedFlows` | src/simloom/_net.py:196-201 | an arrival moves an item along |
| `Streams.HandedKeeps` | src/simloom/_net.py:212-221 | so does handing it to the protocol, which may write, pause, resume, close or abort any transports meanwhile |
| `Streams.PumpedKeeps` | src/simloom/_net.py:208-221 | after the pump no open, reading endpoint has items waiting without another pump coming |
| `Streams.ApplyKeeps` | src/simloom/_net.py:139-310 | every operation on the network keeps the stream invariant |
| `Streams.RunKeeps` | src/simloom/_net.py:139-310 | it holds in every network any run reaches |
| `Streams.StreamsAreFifo` | src/simloom/_net.py:158-160 | in every run, sent equals delivered, inbox, pending and held in a row, in each direction; so what is delivered is a prefix of what was sent; a live sender holds data only behind a block |
| `Streams.NothingArrivesEarly` | src/simloom/_net.py:170-176 | an open endpoint has one arrive callback per pending item, and each item enters the inbox at its own computed time |
| `Streams.QuiescentStreamsAreDelivered` | src/simloom/_net.py:692-693 | once nothing is outstanding at an open reader and its live sender is not blocked, everything sent has been delivered |
| `Streams.HealReleasesEverything` | src/simloom/_net.py:692-700 | after a heal an endpoint holds nothing if and only if it was live or held nothing before; a closed one keeps exactly what it held |
| `StreamCalls.SendExactly` | src/simloom/_net.py:158-176 | an item is held exactly behind a block or other held items; otherwise it is on its way and due at the later of its own delay and the item ahead of it |
| `StreamCalls.CallsSendExactly` | src/simloom/_net.py:139-176 | a call sends just what it says, and nothing once the transport is closing |
| `StreamCalls.CallsSwitchExactly` | src/simloom/_net.py:242-289 | a call moves the switches of its own transport alone and leaves third endpoints as they are |
| `StreamCalls.PumpStopsExactly` | src/simloom/_net.py:208-221 | the pump hands over items in order until there are none or its endpoint is paused or closed, be it by the protocol itself; to one that is, it hands nothing |
| `Partitions.SendShut` | src/simloom/_net.py:158-176 | a send over any edge lets nothing through a blocked one |
| `Partitions.FlushShut` | src/simloom/_net.py:178-192 | neither does flushing |
| `Partitions.CallShut` | src/simloom/_net.py:139-310 | nor any call |
| `Partitions.PumpedShut` | src/simloom/_net.py:208-221 | nor the pump, whatever the protocol calls meanwhile |
| `Partitions.NothingCrossesABlock` | src/simloom/_net.py:669-700 | from a state in which an edge is blocked until it is healed or unblocked, the peer gets nothing but what was on its way already, in any run |
| `Partitions.PartitionSeparates` | src/simloom/_net.py:682-690 | a partition blocks just the edges between its groups, in both directions |
| `Outage.ClosedTailIsKept` | src/simloom/_net.py:178-181 | a run in which a transport closed behind a block still holds its data and end of stream after the heal |
| `Datagrams.DatagramNetwork.constructor` | src/simloom/_net.py:523-554 | default latency and no faults |
| `Datagrams.DatagramNetwork.SetLatency` | src/simloom/_net.py:563-567 | accepts exactly the ranges with 0 <= min <= max, zero included |
| `Datagrams.DatagramNetwork.CarryOne` | src/simloom/_net.py:1019-1035 | one copy gets the arrival time the step function says |
| `Datagrams.DatagramNetwork.Carry` | src/simloom/_net.py:1016-1036 | each copy is scheduled at its own time; only copies not held back move the flow's front |
| `Datagrams.DatagramNetwork.RouteDatagram` | src/simloom/_net.py:997-1036 | a datagram vanishes, is dropped, or is scheduled once or twice, as configuration and tape decide |
| `Datagrams.RoutedKeeps` | src/simloom/_net.py:997-1036 | every datagram is accounted for: vanished, dropped, or scheduled, once more if duplicated; the front of a flow is its last arrival not held back |
| `Datagrams.RunKeepsInv` | src/simloom/_net.py:997-1036 | the same in every run, whatever is reconfigured, bound or blocked meanwhile |
| `Datagrams.OrderIsKeptExactly` | src/simloom/_net.py:1028-1032 | without the reordering fault a send keeps its flow in order, whatever the tape decides, if and only if nothing gets through, the flow is new, the configured minimum latency is positive, or the link is slower than the flow's front |
| `Datagrams.HeldBackIsOvertaken` | src/simloom/_net.py:1022-1025 | a held back datagram is overtaken by the next prompt one, whatever their delays, if and only if five maximum latencies outweigh the slowest delay of the link |
| `Datagrams.HeldBackStaysAhead` | src/simloom/_net.py:1022-1025 | a held back datagram that is not overtaken, on a link slower than the default latency |
| `Datagrams.CalmFlowsInOrder` | src/simloom/_net.py:1028-1032 | in every run with a positive minimum latency and no reordering fault, later datagrams of a flow arrive strictly later |
| `Datagrams.CalmFlowsDeliverInOrder` | src/simloom/_net.py:1028-1032 | hence any order of delivery by time, ties broken arbitrarily, is the order of sending |
| `Datagrams.CleanIsExactlyOnce` | src/simloom/_net.py:1003-1016 | without loss and duplication there is exactly one delivery, with its contents, for each datagram sent to a bound, reachable address |
| `Datagrams.ZeroLatencyReorders` | src/simloom/_net.py:563-567 | after set_latency(0, 0), which is accepted, two datagrams of a flow may be delivered out of order |
| `DatagramFates.SendingDecides` | src/simloom/_net.py:1003-1036 | one send is delivered never, once or twice, as addresses, blocks and rolls decide, with its own contents and no sooner than its link allows, and the counter of that case moves |
| `DatagramFates.EveryDatagramIsSettled` | src/simloom/_net.py:997-1036 | in any run each datagram has as many deliveries as that, every packet is a delivery of its datagram, and the counters count the lost, the doubled and those that reached nobody |

## Left out

- Programs that never end: a program under test is a finite tree, so termination of the searches is for finite trees.
- A program that catches the ValueError of a bad bound or the misalignment error of a strict tape and goes on: both end the run here.
- Runs.Execute: leaves out teardown, with its draws (`_drain_ready`, cancellation of revived tasks), and the teardown errors and unhandled exceptions that can turn a run into an error after its program has ended.
- Wording of error messages and reports, the event log, digests, metadata and garbage collection.
- Shrinking.Shrink: a run budget may be absent, which the code's integer argument does not offer, to state that descent alone ends the passes.
- Floating-point rounding: time is real; deadlines rely on now + within > now.
- The scheduler implementations and PCT's probability bound: the pick is any index.
- The heap is a list sorted by time and creation; `heapq` and the weak references behind task sets are library behaviour.
- Loops.SimLoop.RunOnce: does not model the exception handler of a failing callback, contexts or causal tracing; `stop()` is the end of the list of choices of a run, and a loop is not run a second time; what a callback does to the loop is an arbitrary list of effects.
- LoopInvariants.RunOnceConserves: excludes the livelock exit, where the popped handle neither runs nor goes back; that is what the code does.
- Monitors.MonitorSet.AfterStep: a predicate asked twice at one boundary gives one answer, because predicates are synchronous and nothing runs in between; a predicate that raises is not modelled.
- Checker.CheckSerializable: values are integers and keys strings; the result's message is left out.
- Host generations and entry factories: easy members beside the disk and the loop's crash handling.
- Raft.RaftNode.Persist: the JSON encoding of term and vote is a parameter assumed to round-trip; nodes are numbers, and timeouts and lost connections are replies that never come.
- Election.AnswerKeeps: heartbeat replies are not sent back, since the code ignores them.
- Redis.SimRedis.Dispatch: command names are an enumeration; the contents of the HELLO reply and of the unknown-command message are left out, so handshake commands all reply OK.
- Redis.SimRedis.HandleCommand: after a raising command the code's connection ends; here it may go on, which only adds behaviours.
- Resp.Reader.ReadCommand: inline commands are returned unsplit, and Python's tolerance of blanks, underscores and a plus sign in numbers and the stream reader's line limit are left out.
- Transports.SimNetwork.ConnectedPair: transports are records in one list, so aliasing between transport objects is by index.
- Transports.SimNetwork.Hand: the partial copies of buffered protocols are left out, and while it receives a protocol calls transports, not the fault controls of the network.
- Transports.SimNetwork.Queue: the latency and loss tables are an arbitrary nonnegative delay.
- TLS, DNS, listeners, connection set-up, sockets and datagram endpoints' creation: wrappers over libraries that are not part of this model.
- Datagrams.DatagramNetwork.RouteDatagram: the draws of one datagram are given together as its fate, so a tape that misaligns in the middle is left out; link latency is a parameter.
- `_explore`, `_soak`, `_fingerprint`, command line, pytest plugin, patches and escape stubs: reporting, I/O, or easy members.
