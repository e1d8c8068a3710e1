# GraphZero: verified models of the rewrite engine and the measurement fleet

GraphZero optimises boolean graphs by search. This project models, in Dafny, the parts of it whose correctness is
not visible from any single function.

**The Whittle rewrite engine.** A graph is three parallel arrays of opcodes and operand indices. Rewrites append
gates at the end and redirect old uses to them, so operands may point forward; meaning is therefore given by
gate-consistent valuations, and acyclicity by a rank (`AcyclicIffNoCycle` shows that ranks are exactly the absence
of cycles). `Graph`, `Compaction`, `Rules`, `RuleSoundness`, `Rewriting` and `RewriteTheorems` hold the semantics,
the 44 rules and the theorems about one rewrite, `CycleBoundary` the exact cases in which the returned graph is
cyclic. `Inverses` says what each rule builds and that the inverse rule matches it; `UndoOffered` carries that match
through compaction. `Attempts`, `AttemptsExact` and `Enumeration` say what the enumerator lists, `EnumerationOrder` in
which order. `CompactionLoop`, `RewriteLoop`
and `EnumerationLoop` are the imperative algorithms, each proved equal to the function that specifies it.
`GraphArena`, `CandidateArena`, `EngineState` and `Engine` are the hash-consed, reference-counted stores and the two
caches; `TruthTable` and `Generator` are the graph generator.

**The measurement coordinator.** `Fleet` holds the data and report validation; `FleetProtocol` is a state machine
whose events are the smallest changes a locked section makes. `FleetInvariant` proves what every event keeps,
`FleetRuns` and `FleetRecovery` prove safety over whole runs; `FleetService` says over whole runs which device a job goes
to, which reports are committed and when a lease expires, and `FleetProgress` that a waiting job's turn comes.
`Coordinator` is the mutable coordinator: every method
records the events it performs, and the class invariant is that the recorded history is a run of the protocol ending
in the present state, so every theorem about runs holds of it. `ArtifactStore`, `Receipts` and `AgentRecovery` are
the artifact records, the crash-tolerant receipt log and the agent's report directory. `ReportCodec` is one lawful wire
encoding of reports, so that the log, the ledger and the coordinator exist (`Start`).

**Smaller kernels.** `ModelLeases` (model-generation leases), `Features` (breadth-first depth and fan counts) and
`Collator` with `CollatorRoundTrip` (fixed-layout batch encoding). `Basics` and `LittleEndian` are shared.

Where the code and its description differ, the model follows the code:

- Factoring is not offered when the operands of one of the two inner gates coincide, nor consensus removal when those of
  the inner gate do, although the algebraic law would apply; `Instance` records that, and `EnumerationExact` is stated
  with it.
- The two complement-inverse rules accept any NOT node as witness. The rewrite then closes a cycle exactly when the
  witness depends on the constant being rewritten (`ComplementInverseBoundary`), the returned graph keeps it exactly when
  the output depends on that constant too (`ReturnedGraphBoundary`), and the enumerator does list such a candidate
  (`EnumeratedCanCycle`).
- A validated generator configuration may draw no row at all, on which the generator panics, exactly when its minimum
  number of exception terms is zero (`MayDrawNoRow`); `TruthTableSeed` and `Sample` have that outcome.
- The index of a fresh graph slot is cut to 32 bits. The store stays consistent exactly when the graph fits
  (`GraphArena.Insert`, `ApplyCandidate`); otherwise the handle names an older graph.
- When handle indices run out in the middle of a batch, the handles made so far stay behind (`InsertBatch`).
- `publish` accepts a generation that is waiting to be released; the next release then takes the current generation
  away. `PublishBoundary` gives the exact condition, `PublishQueuedLosesCurrent` and `PublishQueuedLosesLease` the
  consequences.
- Requeueing a lease does not give the agent its free slot back; the slot returns with the agent's next ready event.

Hashes and digests are taken to be injective and are represented by what they are taken of. Fresh random lease and
session ids are numbered, on from those given out before a restart. Floats are given by their bit patterns. Time is
a parameter. Hash-map iteration order and the success of a send are nondeterministic choices.

## Model

| member | source | states |
|---|---|---|
| Compaction.CompactSucceeds | crates/gz-engine-whittle/src/graph.rs:284-360 | compaction succeeds if and only if the graph validates and every reference of a reachable node is in range |
| Compaction.CompactKeepsExactly | crates/gz-engine-whittle/src/graph.rs:284-360 | the result consists of exactly the input nodes and the nodes reachable from the output, in their old order, each with its opcode, constant value and operands in order; output, arity and capacity carry over; if nothing is dropped the graph is as it was, otherwise unused operands are blank and constants 0 or 1 |
| Compaction.CompactPreservesFunction | crates/gz-engine-whittle/src/graph.rs:284-360 | compacting an acyclic graph gives an acyclic graph with the same output for every assignment |
| Compaction.LiveCycleSurvives | crates/gz-engine-whittle/src/graph.rs:284-360 | a cycle the output depends on is still there after compaction |
| Compaction.CompactIdempotent | crates/gz-engine-whittle/src/graph.rs:284-360 | compacting twice is compacting once |
| CompactionLoop.MarkReachable | crates/gz-engine-whittle/src/graph.rs:287-300 | the stack loop terminates, also on cyclic graphs, and marks exactly the reachable nodes |
| CompactionLoop.CompactGraph | crates/gz-engine-whittle/src/graph.rs:284-404 | the mark, remap and emit loops compute the specified compaction, with the same errors |
| Wav1.SerializeRoundTrip | crates/gz-engine-whittle/src/graph.rs:407-500 | a valid graph deserialises from its own encoding |
| Wav1.DeserializeCanonical | crates/gz-engine-whittle/src/graph.rs:407-500 | bytes are accepted if and only if they are the encoding of a valid graph, and decode to that graph |
| Rules.PlanAppendsExtraNodes | crates/gz-engine-whittle/src/rules.rs:1161-1205 | every rule appends exactly the tabulated number of gates |
| RuleSoundness.ReplacementSound | crates/gz-engine-whittle/src/rules.rs:938-1069 | for all 44 rules, in any valuation that satisfies the unredirected nodes, the replacement gates compute the value of the root |
| Inverses.ReplacementIs | crates/gz-engine-whittle/src/rules.rs:938-1069 | for all 44 rules, the node that stands for the root is the right-hand side of the rule's law over the matched operands in order, read off the rewritten graph gate by gate |
| Inverses.InverseMatches | crates/gz-engine-whittle/src/rules.rs:1097-1148 | for all 44 rules, the inverse rule matches the replacement over the same operands, if and only if the enumerator's own restrictions on coinciding operands allow it |
| Inverses.InverseOfInverse | crates/gz-engine-whittle/src/rules.rs:1097-1148 | undoing is mutual |
| Inverses.UndoRebuilds | crates/gz-engine-whittle/src/rules.rs:938-1148 | after a reversible rewrite and its inverse the rule matches again at the node that stands for the root |
| UndoOffered.MatchThrough | crates/gz-engine-whittle/src/graph.rs:284-404 | a simplifying or reshaping rule matches in the compacted graph wherever it matched before |
| UndoOffered.UndoIsOffered | crates/gz-engine-whittle/src/rules.rs:898-1148 | after a rewrite at a node the output depends on, the inverse rule has an instance in the compacted result; the exceptions are the folds whose other operand may be gone |
| RewriteTheorems.ApplySucceeds | crates/gz-engine-whittle/src/rules.rs:898-936 | a match that fits the capacity is applied without error, and the result is well formed |
| RewriteTheorems.RewriteReflectsSolutions | crates/gz-engine-whittle/src/rules.rs:913-935 | for every rule, every gate-consistent valuation of the rewritten graph restricts to one of the old graph, whether or not a cycle arose |
| RewriteTheorems.RewritePreservesFunction | crates/gz-engine-whittle/src/rules.rs:898-1069 | a match whose witness cannot reach the root turns an acyclic graph into an acyclic graph with the same output for every assignment |
| RewriteTheorems.ComplementInverseBoundary | crates/gz-engine-whittle/src/rules.rs:878-891 | for the two complement-inverse rules the redirected graph is acyclic if and only if the witness cannot reach the root |
| RewriteTheorems.ComplementInverseCanCycle | crates/gz-engine-whittle/src/rules.rs:878-891 | a concrete acyclic graph and match whose rewrite, even after compaction, is cyclic |
| CycleBoundary.ReturnedGraphBoundary | crates/gz-engine-whittle/src/rules.rs:878-936 | the graph a complement inverse returns is acyclic if and only if not both the witness reaches the root and the output depends on the root; whenever it is acyclic it computes the old function |
| CycleBoundary.EnumeratedCanCycle | crates/gz-engine-whittle/src/rules.rs:878-891 | a concrete acyclic graph with an enumerated candidate whose application returns a cyclic graph |
| RewriteLoop.Redirect | crates/gz-engine-whittle/src/rules.rs:921-933 | the in-place loop redirects exactly the old references to the root and leaves appended gates alone |
| RewriteLoop.ApplyGraph | crates/gz-engine-whittle/src/rules.rs:898-936 | the imperative rewrite equals the specified one, errors included; what that one builds is `ReplacementIs` |
| AttemptsExact.FirstPassExact | crates/gz-engine-whittle/src/rules.rs:506-840 | the attempts of the first pass at a root are exactly the instances of the non-expanding rules there |
| AttemptsExact.SecondPassExact | crates/gz-engine-whittle/src/rules.rs:842-896 | the attempts of the second pass at a root are exactly the instances of the expanding rules there |
| Enumeration.EnumerationExact | crates/gz-engine-whittle/src/rules.rs:427-896 | a candidate is listed if and only if it is an instance of its rule, the replacement fits the capacity, and the rule is not one of 31 to 36 or those are switched on |
| Enumeration.LimitedEnumerationIsPrefix | crates/gz-engine-whittle/src/rules.rs:233-270 | a limited enumeration is the prefix of that length of the full one, which has no duplicates |
| Enumeration.SwitchHidesUnfolding | crates/gz-engine-whittle/src/rules.rs:1085-1095 | with the switch off, a match that fits is missing if and only if its rule undoes a constant fold; with it on, none is |
| EnumerationOrder.EnumerationInOrder | crates/gz-engine-whittle/src/rules.rs:506-896 | of two listed candidates the earlier is of the first pass or both of one pass, at a lower node or at the same node of no later stage |
| EnumerationLoop.Builder.Add | crates/gz-engine-whittle/src/rules.rs:233-265 | one attempt: limit, switch, capacity and seen-set checks, in order, against the specified collection |
| EnumerationLoop.BuildTables | crates/gz-engine-whittle/src/rules.rs:433-504 | the table loop records every constant, negation and pair, and the lowest constants |
| EnumerationLoop.EnumerateGraphLimited | crates/gz-engine-whittle/src/rules.rs:427-896 | the two passes with early exit produce exactly the specified candidate list |
| EnumeratedRewrites.EnumeratedApplies | crates/gz-engine-whittle/src/rules.rs:898-1069 | every enumerated candidate of a well-formed graph applies without error and gives a well-formed graph |
| EnumeratedRewrites.EnumeratedPreservesFunction | crates/gz-engine-whittle/src/rules.rs:427-1069 | every enumerated candidate whose witness avoids the root keeps the graph acyclic and its function unchanged |
| EnumeratedRewrites.RunPreservesFunction | crates/gz-engine-whittle/src/engine.rs:165-179 | any number of such rewrites keeps well-formedness, acyclicity and the function |
| TruthTable.TruthTableSeed | crates/gz-engine-whittle/src/engine.rs:1089-1152 | it panics if and only if no row was selected, fails if and only if its size, given in closed form, exceeds the capacity, and otherwise computes exactly the selected table or its negation |
| TruthTable.TableByRow | crates/gz-engine-whittle/src/engine.rs:1108-1122 | the table has the exceptional value in exactly the rows whose number was selected, input `v` being bit `v` of the number |
| GraphArenas.BodyOfHash | crates/gz-engine-whittle/src/engine.rs:662-675 | a hash determines the graph it was taken of |
| GraphArenas.GraphArena.Insert | crates/gz-engine-whittle/src/engine.rs:662-700 | equal graphs share a slot, stored graphs never change, the count of a hash is the references granted and not released, the free list is exactly the empty slots; consistent afterwards if and only if the graph fits the 32-bit index |
| GraphArenas.GraphArena.RetainHash | crates/gz-engine-whittle/src/engine.rs:709-721 | one more reference if and only if the hash is stored and its count not saturated |
| GraphArenas.GraphArena.ReleaseProtected | crates/gz-engine-whittle/src/engine.rs:723-753 | one reference back; the slot is emptied with the last one, and the last reference of the protected graph is refused |
| CandidateArenas.CandidateArena.InsertBatch | crates/gz-engine-whittle/src/engine.rs:819-859 | fresh distinct handles denote the records in order, each with one reference, and no other handle changes; it fails exactly when indices run out, with the exact cases in which the arena survives that |
| CandidateArenas.CandidateArena.Retain | crates/gz-engine-whittle/src/engine.rs:876-893 | one more reference to a live handle, an error exactly for a dead one or a saturated count |
| CandidateArenas.CandidateArena.Get | crates/gz-engine-whittle/src/engine.rs:895-905 | what a handle denotes, present exactly while it has references |
| CandidateArenas.CandidateArena.Release | crates/gz-engine-whittle/src/engine.rs:907-944 | one reference back; a handle lives while it is referenced and a batch while it has live handles |
| CandidateArenas.ReleaseKeepsArena | crates/gz-engine-whittle/src/engine.rs:920-943 | dropping a handle leaves every other handle located in a live batch with an exact handle count |
| EngineState.EnumeratedHashInjective | crates/gz-engine-whittle/src/engine.rs:1307-1328 | among enumerated candidates of a graph the hashed fields determine the whole record |
| EngineState.PrefixOfFresh | crates/gz-engine-whittle/src/engine.rs:392-411 | handles of a limited enumeration denote the requested prefix of the full list |
| EngineState.CachedServes | crates/gz-engine-whittle/src/engine.rs:382-391 | a cached list that is not too short yields live handles for exactly the requested prefix |
| EngineState.TransitionLearned | crates/gz-engine-whittle/src/engine.rs:543-553 | remembering the hash of a computed rewrite keeps the transition cache in agreement with the pure rewrite |
| EngineState.CacheWithout | crates/gz-engine-whittle/src/engine.rs:603-610 | losing a handle is harmless once the cached list of its graph is dropped |
| Engines.WhittleEngine.EnumerateCandidateIds | crates/gz-engine-whittle/src/engine.rs:375-421 | whatever was cached or released before, the answer is live handles for exactly the requested prefix, each with one new reference; a cached list that is long enough is used as it is and afterwards the answer is a prefix of the cached one; the exact cases of every error, and which references a saturated count leaves taken |
| Engines.WhittleEngine.ApplyCandidate | crates/gz-engine-whittle/src/engine.rs:508-573 | from cache or afresh, the result is the stored graph of the pure rewrite with one new reference; unknown and stale handles are refused exactly; the engine stays consistent if and only if the new graph fits the store |
| Engines.WhittleEngine.ReleaseGraphs | crates/gz-engine-whittle/src/engine.rs:612-623 | succeeds if and only if the listed references are outstanding and one is left for the root; then exactly the still referenced graphs are stored; a refusal gives back exactly the references listed before it |
| Engines.WhittleEngine.Release | crates/gz-engine-whittle/src/engine.rs:598-626 | exact condition for success, exact new counts also after a refusal, and the root is never freed |
| Generator.Choose | crates/gz-engine-whittle/src/engine.rs:1168-1202 | some candidate that does not use the blocked rule, and none only if there is none |
| Generator.WalkKeepsFunction | crates/gz-engine-whittle/src/engine.rs:165-179 | a prewalk of safe rewrites keeps the seed's function |
| Generator.Prewalk | crates/gz-engine-whittle/src/engine.rs:156-179 | every step applies an enumerated candidate and does not use the inverse of the rule used before; it stops early only when nothing is eligible; every created handle holds its graph with one reference |
| Generator.StepNotUndone | crates/gz-engine-whittle/src/engine.rs:165-179 | after a reversible step at a node the output depends on, the rule that would undo it has an instance in the next graph and the walk does not take it |
| Generator.MayDrawNoRow | crates/gz-engine-whittle/src/engine.rs:1093-1097 | a valid configuration may draw no row, on which the source panics, if and only if its minimum number of exception terms is zero |
| Generator.Sample | crates/gz-engine-whittle/src/engine.rs:145-193 | the stored final graph of a safe run computes the selected truth table, for any rows, polarity and choices the configuration allows; exact conditions for the panic and for a seed that is too large |
| Generator.SampleRoot | crates/gz-engine-whittle/src/engine.rs:138-143 | only the final graph stays referenced, and it computes the selected truth table |
| Fleet.CheckSamples | crates/gz-measure-service/src/coordinator.rs:1416-1437 | the counter loop accepts exactly the samples numbered in order, overall and per subject |
| Fleet.ValidateReport | crates/gz-measure-service/src/coordinator.rs:1359-1474 | a report is accepted if and only if it names the held running lease, matches the job's identity and carries acceptable evidence, which `ReportValidExactly` spells out; a lease not held is refused as such |
| Fleet.ValidateSubmission | crates/gz-measure-service/src/coordinator.rs:353-380 | exact condition under which a submission is acceptable |
| FleetService.ReportValidExactly | crates/gz-measure-service/src/coordinator.rs:1359-1474 | validity in the report's own fields: lease, holder, identity, subjects in order, gapless samples within bounds, and one of two outcomes |
| FleetService.FiniteBits | crates/gz-measure-service/src/coordinator.rs:1443-1452 | a reward is finite if and only if its exponent bits are not all set |
| FleetService.CommittedReportAnswers | crates/gz-measure-service/src/coordinator.rs:875-951 | over any run, every committed report answers each submitted artifact, with a finite reward for each or a short failure message and no reward |
| FleetService.LeasedDeviceCanMeasure | crates/gz-measure-service/src/coordinator.rs:511-561 | over any run, a lease goes only to an agent that is not draining, has a free slot and the target profile and declares one capability with engine, formats, encoding and protocol version |
| FleetService.UnservedMeansUnable | crates/gz-measure-service/src/coordinator.rs:541-561 | when no queued job is servable, every agent lacks something every queued job needs |
| FleetService.DeadlineIs | crates/gz-measure-service/src/coordinator.rs:517-523 | the deadline of a held lease is the accept timeout after its grant or the lease duration after the acceptance, heartbeat or rebind that came last |
| FleetService.ExpiresNoSooner | crates/gz-measure-service/src/coordinator.rs:605-619 | a lease expires no sooner than that |
| FleetService.EndedLeaseNeverCommits | crates/gz-measure-service/src/coordinator.rs:621-640 | a lease that expired or was rejected never commits, however the run goes on |
| FleetService.KeyDetermines | crates/gz-measure-service/src/protocol.rs:281-314 | two submissions have one measurement key if and only if they ask for the same measurement |
| FleetProgress.OfferServes | crates/gz-measure-service/src/coordinator.rs:517-535 | a grant takes one free slot of one agent and gives it one active lease |
| FleetProgress.TurnComes | crates/gz-measure-service/src/coordinator.rs:496-539 | when scheduling is over, a job only one device can measure is leased to it if fewer jobs were ahead of it than the device had free slots |
| FleetArtifacts.RetainedExact | crates/gz-measure-service/src/coordinator.rs:443-457 | admission keeps reference counts equal to uses and the byte total equal to the stored sizes |
| FleetArtifacts.ReleasedExact | crates/gz-measure-service/src/coordinator.rs:461-473 | a leaving job keeps both, and both stay within capacity |
| FleetInvariant.AdmitKeeps | crates/gz-measure-service/src/coordinator.rs:314-349 | admission keeps the invariant |
| FleetInvariant.OfferKeeps | crates/gz-measure-service/src/coordinator.rs:511-537 | granting a lease keeps the invariant |
| FleetInvariant.RequeueKeeps | crates/gz-measure-service/src/coordinator.rs:621-640 | requeueing keeps the invariant |
| FleetInvariant.RebindKeeps | crates/gz-measure-service/src/coordinator.rs:1155-1170 | recovering a lease keeps the invariant |
| FleetInvariant.RemoveKeeps | crates/gz-measure-service/src/coordinator.rs:642-667 | a job that leaves takes its place, lease and references with it |
| FleetInvariant.CommitKeeps | crates/gz-measure-service/src/coordinator.rs:911-951 | a commit keeps the invariant |
| FleetInvariant.StepKeepsInv | crates/gz-measure-service/src/coordinator.rs:299-1059 | every event keeps: the queue lists exactly the queued jobs once each, leased jobs and agents' active entries correspond with device, session and lease, recovery only on queued jobs, slots within capacity, ids fresh and distinct, jobs and receipts disjoint with room reserved, artifact counts and bytes exact and within capacity |
| FleetRuns.RunInv | crates/gz-measure-service/src/coordinator.rs:299-1059 | the invariant holds in every state of every run |
| FleetRuns.ReceiptsKept | crates/gz-measure-service/src/receipt.rs:100-142 | a receipt never changes for the rest of any run |
| FleetRuns.CommitAtMostOnce | crates/gz-measure-service/src/coordinator.rs:875-951 | over any run a job is committed at most once, never reopened or readmitted after |
| FleetRuns.OneReply | crates/gz-measure-service/src/coordinator.rs:945-950 | every commit replies to exactly one admission, since which the job was neither closed nor admitted again, and no caller is replied to twice |
| FleetRuns.CommitHasRoom | crates/gz-measure-service/src/coordinator.rs:319-327 | with the memory ledger an open job never lacks room for its receipt |
| FleetRuns.LeaseGone | crates/gz-measure-service/src/coordinator.rs:621-640 | a lease a job has lost is never held by it again |
| FleetRuns.HeldThroughout | crates/gz-measure-service/src/coordinator.rs:496-539 | while a lease is held its job, device and origin session stay the same |
| FleetRuns.HeldIsLastGrant | crates/gz-measure-service/src/coordinator.rs:496-539 | any lease a job holds, running or kept for recovery, is the one most recently granted |
| FleetRuns.CommitUnderLastGrant | crates/gz-measure-service/src/coordinator.rs:900-917 | a commit happens only while the job runs under its most recent grant, by that device in its current session |
| FleetRuns.DrainingGetsNoLease | crates/gz-measure-service/src/coordinator.rs:541-560 | a draining session stays draining and is never offered a lease again |
| FleetRecovery.SubmitGrantedOnlyIfOpen | crates/gz-measure-service/src/coordinator.rs:1139-1181 | submission of a persisted report is granted only for an uncommitted job not leased again since |
| FleetRecovery.LostRunningIsRecoverable | crates/gz-measure-service/src/coordinator.rs:681-695 | a lease lost with its session can be recovered by its device exactly when the job was running |
| FleetRecovery.RecoverableUntilTouched | crates/gz-measure-service/src/coordinator.rs:1139-1181 | that chance lasts, over any run, until the job is granted again, recovered or cancelled |
| FleetRecovery.PersistedReportAccepted | crates/gz-measure-service/src/coordinator.rs:1368-1389 | a report built from a grant's command passes every check in every later state in which the job runs under that lease |
| FleetRecovery.LeaseHasOneJob | crates/gz-measure-service/src/coordinator.rs:517-535 | a lease granted for one job, in this run or before it, is never held by another |
| FleetRecovery.DeletedReportIsUseless | crates/gz-measure-service/src/agent.rs:628-652 | when the agent is told to delete, the job has a receipt for good or no report can ever be committed under that lease, whether the lease is of this run or older |
| FleetRecovery.RefusalSpends | crates/gz-measure-service/src/agent.rs:646-650 | an answer other than "submit" means that the job has its receipt or that no continuation of the run commits under that lease |
| FleetRecovery.SpentLater | crates/gz-measure-service/src/agent.rs:628-652 | a report that has nothing left to do stays so, however the run goes on |
| ArtifactStores.ArtifactStore.Retain | crates/gz-measure-service/src/coordinator.rs:382-459 | all references are taken, or none, with the exact capacity condition |
| ArtifactStores.ArtifactStore.ReleaseOne | crates/gz-measure-service/src/coordinator.rs:461-473 | one reference back; the record and its bytes go with the last |
| ArtifactStores.ArtifactStore.ReleaseAll | crates/gz-measure-service/src/coordinator.rs:664-666 | releasing a job's descriptors one by one is releasing them at once |
| Coordinators.Coordinator.RequeueActive | crates/gz-measure-service/src/coordinator.rs:621-640 | the job goes back once, the agent's record goes only if it names this lease in this session |
| Coordinators.Coordinator.ExpireLeases | crates/gz-measure-service/src/coordinator.rs:605-619 | exactly the leases past their deadline are requeued, in any order; agents lose only entries of theirs, and nothing else is recorded |
| Coordinators.Coordinator.RemoveAgentSession | crates/gz-measure-service/src/coordinator.rs:681-695 | the agent goes; each job leased to it joins the end of the queue, a running lease kept for recovery; every other job and agent is unchanged, and nothing else is recorded |
| Coordinators.Coordinator.FindAssignment | crates/gz-measure-service/src/coordinator.rs:498-508 | the earliest servable queued job with the least matching device, and none only if no queued job is servable |
| Coordinators.Coordinator.Schedule | crates/gz-measure-service/src/coordinator.rs:496-539 | scheduling terminates even when sends fail and grants only to the earliest servable job; on exit every queued job lacks something at every agent: a slot, the profile, a capability, or the agent drains; agents lose free slots only to leases; a job only one agent can measure, with fewer jobs ahead of it than that agent had free slots, is leased to it or the agent is gone |
| Coordinators.Coordinator.AdmitJob | crates/gz-measure-service/src/coordinator.rs:319-349 | a job is admitted exactly when it can be; a refusal changes nothing |
| Coordinators.Coordinator.Enqueue | crates/gz-measure-service/src/coordinator.rs:299-351 | reaps, admits and schedules; a refusal leaves artifacts and jobs untouched |
| Coordinators.Coordinator.CancelJob | crates/gz-measure-service/src/coordinator.rs:642-667 | exactly that job leaves |
| Coordinators.Coordinator.Disconnect | crates/gz-measure-service/src/coordinator.rs:669-679 | only the current session of the device ends |
| Coordinators.Coordinator.DrainAgents | crates/gz-measure-service/src/coordinator.rs:286-297 | every agent is draining with no free slot |
| Coordinators.Coordinator.Connect | crates/gz-measure-service/src/coordinator.rs:717-799 | every persisted report is answered by the state reached after the old session ended, in which a running lease of the device is kept for recovery; granted jobs run again in the new session, all others are untouched |
| Coordinators.Coordinator.ReconcileRecoveries | crates/gz-measure-service/src/coordinator.rs:1139-1181 | each answer is the one due, exactly the granted leases are rebound, and every other job is left as it was |
| Coordinators.Coordinator.CommitReport | crates/gz-measure-service/src/coordinator.rs:911-945 | an accepted report is committed; only an oversized record in a file ledger can fail |
| Coordinators.Coordinator.SubmitResult | crates/gz-measure-service/src/coordinator.rs:861-958 | a commit happens if and only if the report is committable, and then it is a success with a finite reward per submitted artifact or a failure with a short message; repeats are acknowledged and conflicts refused exactly when the ledger holds the same or another report; otherwise nothing changes |
| Coordinators.Coordinator.HandleAgentEvent | crates/gz-measure-service/src/coordinator.rs:962-1059 | reaps, acts and schedules, in this order and nothing else; after a ready event a job only this agent can measure, with fewer jobs ahead of it than the agent has room for, is leased to it or the agent is gone |
| Coordinators.Coordinator.ActOn | crates/gz-measure-service/src/coordinator.rs:978-1055 | an event takes effect if and only if it is authentic, as exactly one protocol step, with the effect on jobs, queue and agents written out for each of the five kinds |
| Coordinators.Coordinator.SetFreeSlots | crates/gz-measure-service/src/coordinator.rs:979-993 | the free slots are what the agent reports if its leases leave that many, and otherwise what they leave |
| Coordinators.Coordinator.FetchArtifact | crates/gz-measure-service/src/coordinator.rs:801-859 | served if and only if the caller holds the job's lease, the digest is that of a submitted artifact and the offset is within it; the bytes are then the artifact's own |
| Coordinators.Start | crates/gz-measure-service/src/coordinator.rs:208-224 | a coordinator with a new ledger of either kind is consistent, for every configuration |
| Coordinators.Restart | crates/gz-measure-service/src/receipt.rs:145-168 | after a crash that cut a record being appended, the new coordinator holds every receipt of the old one and gives out none of its ids |
| AgentRecovery.ReportDirectory.Load | crates/gz-measure-service/src/agent.rs:562-604 | all report files, provided every one is this device's and profile's and there are not too many |
| AgentRecovery.ReportDirectory.Persist | crates/gz-measure-service/src/agent.rs:1085-1119 | a report is written under its own name, never over a different one |
| AgentRecovery.ReportDirectory.SubmitPersisted | crates/gz-measure-service/src/agent.rs:657-691 | the file goes only when the job has its receipt, and stays whenever a request or an answer is lost |
| AgentRecovery.ReportDirectory.Reconcile | crates/gz-measure-service/src/agent.rs:606-691 | while anything else happens at the coordinator, a file is deleted only when its job has a receipt or nothing can be committed under its lease any more; success deletes all announced ones, and in-order answers are never unknown |
| AgentRecovery.BeginSession | crates/gz-measure-service/src/agent.rs:219-273 | load, connect and reconcile, interleaved with any other use of the coordinator: every deleted report has its job's receipt or a lease under which no continuation commits, and a session starts only with an empty directory |
| AgentRecovery.ReconnectAndSubmit | crates/gz-measure-service/src/coordinator.rs:717-958 | an agent that loses its session with an acceptable report and reconnects with it is told to submit it, and the submission is committed |
| Receipts.ReadReceipts | crates/gz-measure-service/src/receipt.rs:170-210 | the reading loop computes the specified reading, and its offset stays in the file |
| Receipts.TruncatedLogRecovers | crates/gz-measure-service/src/receipt.rs:145-210 | after any truncation of a log of committed reports, reading recovers exactly the complete records and the last boundary |
| Receipts.CompleteSurvive | crates/gz-measure-service/src/receipt.rs:170-210 | records that were complete before a crash are recovered after it |
| ReportCodec.WireIsLawful | crates/gz-measure-service/src/receipt.rs:120-131 | a wire encoding of reports in which every report decodes from its own non-empty bytes |
| Receipts.ReceiptLedger.Commit | crates/gz-measure-service/src/receipt.rs:100-142 | the first report of a job is recorded in log and map, an equal one acknowledged and a different one refused without a change; exact failure condition |
| Receipts.Reopen | crates/gz-measure-service/src/receipt.rs:145-168 | reopening cuts the file at the last record boundary and yields a ledger whose later appends read back |
| ModelLeases.ResidentExactly | crates/gz-orchestrator/src/leases.rs:52-149 | the resident generations are exactly the current, the leased and the releasable ones, and a releasable one is neither current nor leased |
| ModelLeases.PublishBoundary | crates/gz-orchestrator/src/leases.rs:70-110 | publishing keeps the registry consistent if and only if the published generation is not waiting for release |
| ModelLeases.PublishQueuedLosesCurrent | crates/gz-orchestrator/src/leases.rs:70-119 | otherwise the next release removes the current generation |
| ModelLeases.PublishQueuedLosesLease | crates/gz-orchestrator/src/leases.rs:70-119 | even if an episode leases it in the meantime: the next release hands over a leased generation |
| ModelLeases.SupersededIsQueued | crates/gz-orchestrator/src/leases.rs:98-108 | such a state is reached by publishing a second generation |
| ModelLeases.ReleaseConsistent | crates/gz-orchestrator/src/leases.rs:112-119 | a release removes nothing current or leased and leaves a consistent registry |
| ModelLeases.ModelLeaseRegistry.AcquireCurrent | crates/gz-orchestrator/src/leases.rs:52-68 | one more user of the current generation |
| ModelLeases.ModelLeaseRegistry.Drop | crates/gz-orchestrator/src/leases.rs:122-143 | one user less; the last user of a superseded generation queues it |
| ModelLeases.ModelLeaseRegistry.Publish | crates/gz-orchestrator/src/leases.rs:70-110 | within the resident bound; consistent afterwards exactly on the boundary's good side, always for a generation never superseded |
| ModelLeases.ModelLeaseRegistry.TakeReleasable | crates/gz-orchestrator/src/leases.rs:112-119 | what is handed over is neither current nor leased; what remains is exactly current or leased |
| ModelLeases.EpisodeModelLeases.EpisodeKeepsModel | crates/gz-orchestrator/src/leases.rs:164-176 | in a consistent registry, which publishing keeps exactly on the boundary's good side, an episode's generation is resident and not waiting for release |
| ModelLeases.EpisodeModelLeases.Ensure | crates/gz-orchestrator/src/leases.rs:164-172 | an episode keeps its generation until it ends |
| Features.SearchIsExact | crates/gz-engine-whittle/src/features.rs:246-263 | a finished search assigns shortest operand-path distances and marks exactly the unreachable nodes |
| Features.BreadthFirst | crates/gz-engine-whittle/src/features.rs:246-263 | the queue loop terminates, on cyclic graphs too, with exact distances |
| Features.FanCounts | crates/gz-engine-whittle/src/features.rs:233-244 | exact numbers of users and operands, with equal totals |
| Features.NodeAttrs | crates/gz-engine-whittle/src/features.rs:232-273 | each attribute times its scale is the node's own number of users or operands or its depth |
| Collator.SectionsApart | crates/gz-features/src/collator.rs:520-595 | sections are 4-aligned, after the header, pairwise disjoint and inside the buffer |
| Collator.ElementsApart | crates/gz-features/src/collator.rs:520-595 | no two elements of the layout share a byte |
| Collator.BatchSize | crates/gz-features/src/collator.rs:520-595 | a batch is 68 header bytes, its rows at a length in closed form, and at most 75 bytes of padding |
| Collator.RoundedNearest | crates/gz-features/src/wire.rs:5-14 | rounding a float gives the nearest pattern with an empty lower half, the even one of two, and changes no rounded float |
| Collator.WriteField | crates/gz-features/src/collator.rs:59-110 | writing a field changes exactly its own elements |
| Collator.WriteRow | crates/gz-features/src/collator.rs:59-176 | a row's fields end up at the row's own index and nothing else changes |
| Collator.ValidateRow | crates/gz-features/src/row.rs:15-75 | the loops accept a row if and only if it fits the vocabulary |
| Collator.Collate | crates/gz-features/src/collator.rs:42-179 | exact refusal condition, the whole row validation included; otherwise header, every row in place, padding elsewhere |
| Collator.HeaderRoundTrip | crates/gz-features/src/collator.rs:440-470 | a written header parses back |
| Collator.Parse | crates/gz-features/src/collator.rs:357-425 | parsing shows every element of every section, with the exact length condition |
| CollatorRoundTrip.CollateThenParse | crates/gz-features/src/collator.rs:42-425 | reading the rows back from a parsed batch gives exactly the collated rows with their floats rounded; every field, subject and padding element is at its own place |

## Left out

- Transport, authentication of enrolment, certificates, protobuf encoding, tokio tasks and timers: each locked section is one atomic method, and a peer is a fingerprint.
- Collision branches for digests and hashes: unreachable, because hashes are taken to be injective.
- Handle generation tags, which exist only in debug builds, and occupancy statistics.
- Generator.Prewalk: assumes that the 32-bit slot index of the graph store outlasts the walk; `GraphArena.Insert` says what happens otherwise.
- Generator.Sample: random rows, polarity and picks are parameters; weights only shape the choice and are not modelled; as for `Prewalk`, the slot index must outlast the walk.
- Generator.SampleRoot: as for `Prewalk`, the slot index must outlast the walk.
- TruthTable.TruthTableSeed: the random selection of rows is a parameter.
- Graph cost, measurement results, candidate metadata and display names: easy members.
- The replacement builder appends gates one by one in the source; here a rule's gates are a list that the loop appends.
- The enumerator's attempts at one root are a list handed to the builder one after another; early exits skip the rest, as in the source.
- Receipts.Reopen: covers logs cut anywhere by a crash, not logs damaged otherwise or written by another program, and not a write error inside a process that keeps running.
- Profile strings, build strings, protocol versions and recovery phases of the agent's hello.
- Which of several refusals an invalid report or hello gets: only whether it is refused, and whether for its lease.
- Coordinators.Coordinator.FetchArtifact: gives the bytes from the offset on, not their division into chunks.
- The agent's session loop beyond recovery: its slot counter and drain flag are a few lines of bookkeeping.
- A bound on the queue length: requeues do not recheck the queue capacity. A commit after the deadline: a lease that has not been reaped can still commit.
- Fleet.ValidateReport: reads 32-bit sample counters as unbounded.
- ModelLeases.ModelLeaseRegistry.AcquireCurrent: user counts are unbounded.
- Features.NodeAttrs: over exact numbers instead of 32-bit floats; expander edges and tokens are not modelled.
- Collator.Collate: the opponent's own opponent fields, which are validated but not written, are not part of a row; step counts are given by the floats they convert to; fields are written section by section instead of interleaved; which refusal a row gets is not stated; decoding of model outputs is not modelled.
- The compiler engine, the measurement backend, the orchestrator's worker pool, admission smoothing, command lines, replay storage and telemetry.
