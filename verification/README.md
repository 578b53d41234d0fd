# Agent capture: a verified model of the trace pipeline

The system records what an AI agent does as a tree of hashed spans, ships the spans to an append-only ledger, attests
them in signed Merkle windows, deletes them under retention rules and litigation holds, gates irreversible actions
through a rule service with human review, and reports on the result. The modules follow the program's components:

- `Spans`, `SpanBuilder`, `BuilderRuns`, `BuilderPlacement`, `BuilderRecords`: the recorder's builder as classes with
  mutable pending lists, its step functions, every run of those steps over many trajectories, where each span ends up and
  what it says. `Traced` and `Emitter` are its two drivers (nested traced calls; event handlers that may interleave, repeat
  or name unknown events), `CallRecords` reads the calls off the log. `Trajectory` is the reporter's loader, `CallTrees`
  joins recorder and loader, `Pipeline` joins recorder, ledger, loader and attestation.
- `Merkle`, `Attestation`, `AnchorRuns`: the loops over tree levels against the recursive tree of section 2.1 of
  RFC 6962 (its shape only: the program hashes without that RFC's prefixes), window building, and runs of the anchor job
  beside a growing store.
- `Json`, `Sorting`, `Canonical`: the canonical printer, a parser that undoes it, and what the text reveals.
- `Ingest`, `IngestOutcomes`, `IngestRuns`, `IngestFaults`: the six checks, the conflict-ignoring insert, what becomes of
  each entry of a batch, runs of arbitrary batches, and what the checks do not catch.
- `Retention`, `RetentionRuns`: partition drop and row delete under holds, hold transitions, and whole runs.
- `Decision`, `Holds`, `EnforcementClient`, `GateRuns`: the rule fold, the hold queue, the polling client, and runs of
  recorder, service, reviewer and timeout worker in any interleaving.
- `Redaction`, `PatternRedactor`, `SchemaAware`: policy lookups with the floor, free-text splicing, the tree walk and the
  fallback sweep.
- `Cursors`, `Paging`: cursor encoding (section 5 of RFC 4648) and the client's loop over pages.
- `TsQueue`, `PyQueue`: the single-threaded exporter queue as a class, and the threaded one as atomic steps.
- `Inventory`: the model inventory with its governance join, completeness and sampling.

SHA-256, HMAC, signatures, ISO rendering, rule predicates, recognizers and lower-casing are arbitrary functions.
Where a lemma needs a hash to bind, it asks for collision freedom on the finite set of strings that are hashed
in it and for digests of 64 characters. Generated ids are fresh and clocks are parameters. Each database transaction
and each repository call is one atomic step.

Where the code does not do what its own documentation says, the code is modelled and the difference is a result:

- A partition with any held trajectory is skipped whole, so unheld expired rows in it survive
  (`RetentionRuns.PassRemovesExactly`).
- Rows repeated inside one batch escape the idempotency check. Pairs stay unique exactly if no accepted pair has two
  start times (`IngestRuns.UniqueExactlyWhen`). Once a pair has two rows, batches with spans of it or with new children
  of it fail for good (`IngestFaults.OneBatchRepeatsPair`, `IngestFaults.RefusedExactlyWhen`).
- A child stored before its parent is not looked at again, so a stored chain can contradict itself
  (`IngestFaults.ContradictsExactlyWhen`).
- The redaction floor promises that recognized personal data never ships in cleartext. It guards winning matches only:
  the part of a losing floor match outside the winners ships (`PatternRedactor.TailOfFloorValueShips`). The promise is
  kept for every text and every report, whatever the recognizers find, exactly if a recognizer of a floor type is the
  only one (`PatternRedactor.FloorAlwaysCoveredExactlyWhen`); a report whose overlapping matches nest keeps it too.
- A subject id that begins with a redaction marker is taken for redacted and ships as it came
  (`SchemaAware.SubjectKeptExactlyWhen`).
- Queue eviction ignores the span type (`TsQueue.BurstEvictsOldest`). With capacity zero a plain span that meets an
  empty buffer is buffered and counted as dropped at once; runs conserve exactly with a capacity of at least one
  (`TsQueue.ExportCountsExactlyWhen`, `TsQueue.RunsConserveExactlyWhen`).
- The threaded queue's counter misses losses: two spans can go on one count, and an export that passed the shutdown flag
  before it was set can put its span behind the exited worker, uncounted. The counter covers every loss exactly if nobody
  produces, or if no shutdown call may happen and the queue has no bound or a single producer
  (`PyQueue.CountsAllExactlyWhen`).
- A hold poll whose body does not decode ends the wait with the local fallback, and one of the wrong shape raises in the
  client and so opens the gate, whatever the hold says (`GateRuns.BadPollDecides`, `GateRuns.AllowedExactlyWhen`).
- The governance join's comment promises card precedence over identity for every observed card; with an identity entry
  in the registry only the first card is looked up (`Inventory.CardPrecedenceExactlyWhen`).
- The first attestation window of a customer reaches back one interval, and later ones start where the last one ended.
  A root stored after its window was built, or older than the first window, is never attested
  (`AnchorRuns.LostExactlyWhen`). A root waiting behind an existing window is attested only once its customer is within
  sight of a pass again (`AnchorRuns.LostAsStoredExactlyWhen`).
- A leaf covers the rows stored when its window was built; it recomputes exactly as long as none of its trajectory's rows
  arrives later (`AnchorRuns.LeafRecomputesExactlyWhen`).
- Roots are bare of leaf counts: equal roots force equal leaves exactly for equal counts (`Merkle.RootBindsExactlyWhen`),
  except over leaves that are hashes of texts no pair of digests can be mistaken for (`Merkle.RootBindsTexts`).

## Model

| member | source | states |
|---|---|---|
| SpanBuilder.SpanBuilder.Open | packages/python/src/agent_capture/span/builder.py:110-162 | An explicit parent wins over the context's, a root takes the head of its trajectory id as span id, a child shares its parent's trajectory; fails exactly without any compliance data and then changes nothing |
| SpanBuilder.SpanBuilder.Close | packages/python/src/agent_capture/span/builder.py:184-250 | The span returned has the identity, parent, customer and start of its open, the end and status of its close, and as payload what the redaction filter makes of its attributes, inputs and outputs, hashed as such; the pending children go to the exporter stamped with that hash, the list is emptied, and the span itself is exported if it is a root and parked on its parent otherwise |
| BuilderRecords.EverySpanIsRecorded | packages/python/src/agent_capture/span/builder.py:184-250 | In every run every exported and every parked span is read off the events: identity, customer, start and inputs from its only open, attributes from its last update before its close, end, status and outputs from its only close, the payload redacted and the hash taken of exactly that |
| BuilderRuns.StepKeepsInv | packages/python/src/agent_capture/span/builder.py:184-250 | Any open, update or first close keeps: each pending list is the children closed since that span's own last close, and the export log is the closed form read off the closing order |
| BuilderRuns.EveryRunKeepsInv | packages/python/src/agent_capture/span/builder.py:110-250 | The same in every run over any number of interleaved trajectories |
| BuilderPlacement.Placement | packages/python/src/agent_capture/span/builder.py:231-250 | A closed span is exported iff it is a root or closed before its parent's close; otherwise it sits in exactly its parent's pending list |
| BuilderPlacement.OnceOnly | packages/python/src/agent_capture/span/builder.py:218-250 | No span is exported or parked twice, and only closed ones are |
| BuilderPlacement.Unexported | packages/python/src/agent_capture/span/builder.py:231-250 | Once all spans are closed, the unexported ones are exactly those that closed after their parent |
| BuilderPlacement.EveryExportIsStamped | packages/python/src/agent_capture/span/builder.py:218-250 | Each exported child carries the final hash of its own parent, and a root carries none |
| BuilderPlacement.ParentLinksAcyclic | packages/python/src/agent_capture/span/builder.py:140-162 | Following parent links of any length leads to a span opened strictly earlier |
| BuilderPlacement.ChildrenFirst | packages/typescript/src/span/builder.ts:108-183 | In every log of every run a span precedes its parent |
| Traced.CallEffect | packages/python/src/agent_capture/instrumentation/decorator.py:151-297 | A traced call, whether it returns, raises, is blocked or never got a span, closes every span it opened exactly once and exports its tree in the recursive closed form |
| CallRecords.LogTellsEveryCall | packages/python/src/agent_capture/instrumentation/decorator.py:151-297 | The log of a traced call tree has a span for every call that ran and opened one, and only for those: under its nearest enclosing span, ok with its outputs iff it returned, in error without outputs iff it was refused, raised or let an exception through |
| CallTrees.TracedTreeLoads | packages/reporter/src/agent_capture_reporter/trajectory.py:50-137 | The log of a traced call tree is the closed form with the root last, nothing stays pending, and every permutation of it loads with hash checks |
| CallTrees.LogCountsForest | packages/python/src/agent_capture/span/builder.py:231-250 | The log has one span per call that opened one |
| Trajectory.FromSpans | packages/reporter/src/agent_capture_reporter/trajectory.py:50-98 | Accepts exactly the lists with one trajectory, distinct ids, one root and present parents, and with checks on, sound hashes; which error, and for hashes that of the first failing span |
| Trajectory.VerifyHashes | packages/reporter/src/agent_capture_reporter/trajectory.py:120-137 | Passes iff every span's hash recomputes and names its parent's hash, a root naming none; else reports the first failure |
| Trajectory.VerifyHashChain | packages/reporter/src/agent_capture_reporter/common/provenance.py:25-40 | For every list, repeated ids included: true iff all hashes recompute, every named parent is present, and every child names the hash of the last span with its parent's id |
| Trajectory.ClassifyChain | packages/ledger/src/agent_capture_ledger/api/routes/trajectories.py:161-180 | For every list: broken iff some root names a parent hash or some child contradicts the parent a lookup finds; verified iff besides that no parent is missing |
| Trajectory.LoadableIgnoresOrder | packages/reporter/src/agent_capture_reporter/trajectory.py:50-98 | Whether a list loads does not depend on its order |
| Trajectory.LoaderVersusChainCheck | packages/reporter/src/agent_capture_reporter/common/provenance.py:25-40 | On a well-formed trajectory what the loader accepts is what the chain check accepts, less the roots that name a parent hash |
| Emitter.SpanEmitter.HandleStart | packages/python/src/agent_capture/instrumentation/adapters/_crewai_emitter.py:56-81 | A start event opens one span under the named parent event, else under the current one, and maps the event to it, as the handler calls of the run do; without event id or on a failed open nothing changes |
| Emitter.SpanEmitter.HandleEnd | packages/python/src/agent_capture/instrumentation/adapters/_crewai_emitter.py:83-120 | An end or error event closes the span of its start event and forgets it; unknown and repeated events change nothing |
| Emitter.SpanEmitter.HandleFeedback | packages/python/src/agent_capture/instrumentation/adapters/_crewai_emitter.py:261-284 | Human feedback opens a span under the named parent event, else under the current one, and closes it at once; no event is mapped to it |
| Emitter.EmitterNeverMisusesBuilder | packages/python/src/agent_capture/instrumentation/adapters/_crewai_emitter.py:56-120 | However events interleave, repeat, name unknown ids or fail to open, the builder runs through all that the handlers ask of it in order, no span is closed twice and the run invariant holds |
| Merkle.SplitPointIsLargestPower | packages/ledger/src/agent_capture_ledger/integrity/merkle.py:34-46 | The recursive tree splits at a power of two, the largest below the length |
| Merkle.BuildRoot | packages/ledger/src/agent_capture_ledger/integrity/merkle.py:34-46 | The loop with odd promotion computes the recursive tree that splits at the largest power of two below the length; the empty list hashes the empty string |
| Merkle.BuildProof | packages/ledger/src/agent_capture_ledger/integrity/merkle.py:49-81 | Errors exactly for no leaves or an index out of range; else root and path are those of the recursive tree |
| Merkle.RootOfNextLevel | packages/ledger/src/agent_capture_ledger/integrity/merkle.py:38-45 | Pairing one level keeps the recursive root |
| Merkle.AuditPathOfNextLevel | packages/ledger/src/agent_capture_ledger/integrity/merkle.py:58-73 | The recursive path is the sibling of this level, if any, then the path of the paired level |
| Merkle.AuditPathFolds | packages/ledger/src/agent_capture_ledger/integrity/merkle.py:84-88 | The path of every leaf folds to the root |
| Merkle.AuditPathShape | packages/ledger/src/agent_capture_ledger/integrity/merkle.py:58-73 | Sides and skips of a path depend on index and count alone |
| Merkle.AuditPathLength | packages/ledger/src/agent_capture_ledger/integrity/merkle.py:58-73 | Path length is the ceiling of log2 of the count less the levels at which the node was promoted |
| Merkle.VerifyProof | packages/ledger/src/agent_capture_ledger/integrity/merkle.py:84-88 | Accepts exactly the proofs whose path folds to the root |
| Merkle.RootBinds | packages/ledger/src/agent_capture_ledger/integrity/merkle.py:30-46 | Equal roots over equally many leaves mean equal leaves, without collisions |
| Merkle.PathBinds | packages/ledger/src/agent_capture_ledger/integrity/merkle.py:84-88 | A path with the sides dictated by index and count that folds to the root starts from the leaf at that index and is the built path |
| Merkle.TwinsAgree | packages/ledger/src/agent_capture_ledger/integrity/merkle.py:30-46 | For any two leaf counts there are leaf lists of those lengths with one root, for every hash of fixed width |
| Merkle.RootBindsExactlyWhen | packages/ledger/src/agent_capture_ledger/integrity/merkle.py:30-46 | Equal roots force equal leaves for two leaf counts iff the counts are the same, collisions aside |
| Merkle.RootBindsTexts | packages/ledger/src/agent_capture_ledger/integrity/merkle.py:30-46 | Over hashes of texts that are not two digests long, equal roots force equal leaves whatever the counts, collisions aside |
| Attestation.Store.BuildWindow | packages/ledger/src/agent_capture_ledger/integrity/attestation.py:47-129 | Nothing is built and nothing changes iff no root of the customer ended in the window; else one window is added that signs the Merkle root of its leaves, with one numbered row for each |
| Attestation.LeavesAreLeaves | packages/ledger/src/agent_capture_ledger/integrity/attestation.py:84-93 | The leaves are the trajectories with a root span that ended in the window, once each by ascending id; each is the Merkle root of the content hashes of the customer's rows of that trajectory, all of them, by ascending start time, ties by ascending span id |
| Attestation.TrajectoryRootIsOfRows | packages/ledger/src/agent_capture_ledger/integrity/attestation.py:61-91 | For any stored rows the leaf of a trajectory is the Merkle root of a listing of its rows, each as often as it is stored, in that order |
| Attestation.GroupIsTrajectory | packages/ledger/src/agent_capture_ledger/integrity/attestation.py:61-91 | Grouping the sorted window rows gives each trajectory's own sorted rows, whatever window they were read for |
| Attestation.TrajectoryRootIgnoresOrder | packages/ledger/src/agent_capture_ledger/integrity/merkle.py:91-93 | Anyone holding the same rows recomputes the same leaf, in whatever order they are stored, as long as rows tied in start and span id carry one hash |
| Attestation.StoredLeavesSorted | packages/ledger/src/agent_capture_ledger/integrity/attestation.py:169-179 | However a scan returns the leaf rows, sorting by index restores the signed order |
| Attestation.Store.ProofFor | packages/ledger/src/agent_capture_ledger/integrity/attestation.py:146-193 | None iff the trajectory has no leaf; else, for whichever leaf is chosen, the proof folds to that window's signed root |
| Attestation.BuildKeepsWellStored | packages/ledger/src/agent_capture_ledger/integrity/attestation.py:96-117 | Every window signs the root of its own stored, consecutively numbered leaves, before and after |
| Attestation.Store.RunOnce | packages/ledger/src/agent_capture_ledger/worker/anchor_job.py:88-141 | A pass is one visit per recently active customer and counts the windows it created |
| AnchorRuns.WindowsTile | packages/ledger/src/agent_capture_ledger/worker/anchor_job.py:107-120 | Over every interleaving of ingest and visits, under any clock, a customer's windows are non-empty and adjacent |
| AnchorRuns.ExactlyOneWindow | packages/ledger/src/agent_capture_ledger/worker/anchor_job.py:107-120 | Every moment between the first start and the last end lies in exactly one window, and no other moment in any |
| AnchorRuns.WindowsHistory | packages/ledger/src/agent_capture_ledger/integrity/attestation.py:84-117 | Every stored window was built by its customer's visit at its end, from the rows stored by then |
| AnchorRuns.LeafExactlyWhen | packages/ledger/src/agent_capture_ledger/integrity/attestation.py:61-93 | A window has a leaf for a trajectory iff one of its roots fell in the window and was stored in time; the leaf is unique and is the Merkle root, in start order, of the rows stored by then |
| AnchorRuns.AttestedAtMostOnce | packages/ledger/src/agent_capture_ledger/worker/anchor_job.py:107-120 | A trajectory with one root time has at most one leaf, and has one iff its root was stored before the visit that built the window covering that time |
| AnchorRuns.SkippedVisitIsNoOp | packages/ledger/src/agent_capture_ledger/worker/anchor_job.py:38-55 | A visit spared to an inactive customer would have changed nothing iff no older root waits for a window |
| AnchorRuns.VisitCoversExactlyWhen | packages/ledger/src/agent_capture_ledger/worker/anchor_job.py:109-117 | A visit's window covers a waiting root iff its end lies before the visit and at or after the last window's end, or, without windows, within one interval of the visit |
| AnchorRuns.LostExactlyWhen | packages/ledger/src/agent_capture_ledger/worker/anchor_job.py:98-120 | Over every continuation of ingest and passes at or after a given time, a stored root not yet attested never is, iff its customer's last window ends after it, or, without windows, it ended more than an interval before that time, or the interval is zero |
| AnchorRuns.LostAsStoredExactlyWhen | packages/ledger/src/agent_capture_ledger/worker/anchor_job.py:98-120 | If nothing more is ingested it is lost also when no stored root of its customer is within ten intervals of that time |
| AnchorRuns.Pass | packages/ledger/src/agent_capture_ledger/worker/anchor_job.py:88-141 | The worker's pass ends in the store of the run with one turn per selected customer, in whatever order they are listed |
| AnchorRuns.LeafRecomputesExactlyWhen | packages/ledger/src/agent_capture_ledger/integrity/attestation.py:61-91 | At the end of a run a leaf is still its trajectory's root iff no row of the trajectory arrived after the window was built, collisions aside |
| Json.ParseUndoesPrint | packages/typescript/src/schema/canonical.ts:88-114 | A parser reads every printed value back, escapes included |
| Json.IntTextExactly | packages/typescript/src/schema/canonical.ts:88-97 | An integer is printed with a minus sign iff it is negative, then digits without a leading zero unless zero is all |
| Json.CharTextExactly | packages/typescript/src/schema/canonical.ts:88-114 | A character is printed as it is iff it is no control character, quote or backslash; which escapes have two characters, and that the others have lower-case digits |
| Canonical.NormalizeValue | packages/typescript/src/schema/canonical.ts:43-69 | The loops over arrays and sorted entries compute the recursive normal form |
| Canonical.StringifyIsPrint | packages/typescript/src/schema/canonical.ts:88-114 | Printing with sorted keys is printing the normal form |
| Canonical.TextFixesMeaning | packages/typescript/src/schema/canonical.ts:43-114 | Two values print alike iff they are equal up to key order at every depth |
| Canonical.CanonicalFixesVisible | packages/typescript/src/schema/canonical.ts:122-174 | There is a canonical text iff every string at any depth, the top-level provenance aside, does not begin like a date-time or is a canonical one in full; the text is fixed by the value without its top-level provenance, and fixes it |
| Canonical.StringSerializesExactlyWhen | packages/typescript/src/schema/canonical.ts:30-143 | A string has a canonical text iff it does not begin with four, two and two digits and a T, or is year, month, day, hour, minute, second and six decimals with a Z and nothing else; the text is the quoted string |
| Canonical.CanonicalTextIsSorted | packages/typescript/src/schema/canonical.ts:88-114 | The text is the print of a value with the same meaning in which the keys of every object, at any depth, ascend by their first difference |
| Canonical.NormalizeIsIdempotent | packages/typescript/src/schema/canonical.ts:43-69 | Normalizing twice changes nothing |
| Canonical.SecondSortDecides | packages/typescript/src/schema/canonical.ts:88-114 | In whatever order the normalized objects list their entries, the printed text is the same |
| Canonical.WritersAgree | packages/python/src/agent_capture/schema/canonical.py:37-104 | Whatever the TypeScript writer accepts, the Python writer serializes to the same text: dropping provenance, sorting and the date guard agree |
| Ingest.LedgerStore.BulkInsert | packages/ledger/src/agent_capture_ledger/storage/repository.py:419-443 | Rows are added in order unless their key is already present, and the count is of rows added |
| Ingest.LedgerStore.IngestSpans | packages/ledger/src/agent_capture_ledger/api/routes/ingest.py:79-118 | The loop over the batch stores, quarantines and reports exactly what the checks against earlier rows decide; a failing lookup stores nothing |
| IngestOutcomes.OneEntryExactlyWhen | packages/ledger/src/agent_capture_ledger/api/routes/ingest.py:136-256 | For every store, token and raw entry, each outcome of a batch of one iff its condition holds: LE001 no span, else LE002 foreign customer, else LE006 other major version, else LE003 wrong hash, else LE004 the only row of the pair has another hash, known if it has this one, server error if the pair has several rows, else LE005 the only row of the parent has another hash than named, server error if that has several, else inserted; with the whole answer, quarantine record, row and batch record |
| IngestOutcomes.EveryEntryExactlyWhen | packages/ledger/src/agent_capture_ledger/api/routes/ingest.py:79-118 | Any batch is refused whole iff an entry meets a repeated pair; else the entries rejected with each code are exactly those that meet its condition, answered and quarantined in order, and the entries stored, in order, are the accepted ones without an accepted one of the same key before them |
| IngestRuns.BatchKeepsInv | packages/ledger/src/agent_capture_ledger/api/routes/ingest.py:95-118 | Stored rows never change and stay genuine; batch size is inserted plus rejected plus known plus skipped; quarantine grows by the rejected |
| IngestRuns.EveryRunKeepsInv | packages/ledger/src/agent_capture_ledger/api/routes/ingest.py:79-256 | The same over any sequence of batches of arbitrary raw spans |
| IngestRuns.UniqueExactlyWhen | packages/ledger/src/agent_capture_ledger/api/routes/ingest.py:223-256 | From unique pairs a batch succeeds, and pairs stay unique iff no accepted pair has two start times |
| IngestFaults.RefusedExactlyWhen | packages/ledger/src/agent_capture_ledger/storage/repository.py:60-68 | A batch is refused whole, and stores nothing, iff it carries a sound span whose own pair has two rows, or whose pair is new and whose parent's pair has two |
| IngestFaults.OneBatchRepeatsPair | packages/ledger/src/agent_capture_ledger/api/routes/ingest.py:223-256 | From the empty ledger one batch stores two rows of a pair, and after any further deliveries every batch with a sound span of the pair is refused |
| IngestFaults.EarlierParentIsChecked | packages/ledger/src/agent_capture_ledger/api/routes/ingest.py:238-253 | Over runs of arbitrary batches a stored child never contradicts a parent stored by an earlier batch |
| IngestFaults.ContradictsExactlyWhen | packages/ledger/src/agent_capture_ledger/api/routes/ingest.py:238-253 | Some run stores a child of batch i contradicting a parent of batch j iff i is at most j |
| IngestFaults.LateChildIsRejected | packages/ledger/src/agent_capture_ledger/api/routes/ingest.py:238-253 | In a later batch than its parent the same mismatched child is rejected with LE005 and nothing is stored |
| IngestRuns.DeliveriesConverge | packages/ledger/src/agent_capture_ledger/api/routes/ingest.py:95-256 | Into a store holding part of a coherent set, deliveries of it in any batching, order and repetition add exactly what they carry, reject nothing, and count it right |
| IngestRuns.IngestConverges | packages/ledger/src/agent_capture_ledger/api/routes/ingest.py:95-256 | From empty, every covering delivery ends in exactly the set, nothing rejected, inserted counts summing to its size |
| Pipeline.RunLogIsCoherent | packages/python/src/agent_capture/span/builder.py:218-250 | The log of every builder run passes all the ledger's checks in any order |
| Pipeline.RecordStoreLoad | packages/reporter/src/agent_capture_reporter/trajectory.py:50-137 | A traced call tree delivered at least once is stored exactly, and read back in any order it loads and is verified |
| Pipeline.TracedTreeIsAttestedOnce | packages/ledger/src/agent_capture_ledger/worker/anchor_job.py:107-120 | A recorded tree stored before the window covering its end gets exactly one leaf, the Merkle root of the content hashes of its own log by ascending start, ties by ascending span id |
| Retention.Store.RunRetention | packages/ledger/src/agent_capture_ledger/retention/enforcer.py:39-113 | The nested loops leave each partition its survivors, drop exactly the partitions due, log one operation per drop and per non-empty delete, and report the log |
| Retention.SlowPathKeeps | packages/ledger/src/agent_capture_ledger/retention/enforcer.py:86-111 | Deleting class by class keeps exactly the rows not yet past the window of their class and the rows under hold |
| Retention.DropTest | packages/ledger/src/agent_capture_ledger/retention/enforcer.py:54-77 | The aggregate test of the fast path holds iff all rows are expired and of one class |
| Retention.DropEqualsDelete | packages/ledger/src/agent_capture_ledger/retention/enforcer.py:73-111 | A dropped partition is one the row deletes would have emptied |
| Retention.Store.PlaceHold | packages/ledger/src/agent_capture_ledger/api/routes/holds.py:30-63 | A hold in force is left alone; a new or released one is placed afresh with who, why and when; afterwards the trajectory is under hold and no other hold has changed |
| Retention.Store.ReleaseHold | packages/ledger/src/agent_capture_ledger/api/routes/holds.py:67-89 | Not found, and nothing changed, iff the trajectory is not under hold; otherwise who and when is recorded; afterwards it is not, and no other hold has changed |
| RetentionRuns.Pass | packages/ledger/src/agent_capture_ledger/retention/enforcer.py:39-113 | The worker's loops, in any listing order, end in the rows of the run's pass step and leave the holds alone |
| RetentionRuns.PassRemovesExactly | packages/ledger/src/agent_capture_ledger/retention/enforcer.py:54-111 | A row goes iff its end is further back than its class keeps and no trajectory in its partition is under hold; it is then not of the class kept forever |
| RetentionRuns.PassDropsExactly | packages/ledger/src/agent_capture_ledger/retention/enforcer.py:54-84 | A partition goes iff it has rows, none under hold, all past their window and all of one class |
| RetentionRuns.HeldTrajectoryLosesNothing | packages/ledger/src/agent_capture_ledger/retention/enforcer.py:92-103 | Over any run during which its hold is active, a trajectory's rows in each partition stay, in order |
| RetentionRuns.HoldStaysUntilReleased | packages/ledger/src/agent_capture_ledger/api/routes/holds.py:30-89 | Only the trajectory's own release ends a hold |
| RetentionRuns.LatePassCatchesUp | packages/ledger/src/agent_capture_ledger/retention/enforcer.py:54-111 | A later pass alone leaves the same rows as an earlier pass followed by it |
| RetentionRuns.PassConserves | packages/ledger/src/agent_capture_ledger/retention/enforcer.py:79-111 | Rows before are rows after plus logged deletions plus rows of dropped partitions, which the log counts as zero |
| Decision.Decide | packages/enforcement/src/agent_capture_enforcement/decision.py:53-91 | Block iff some enabled rule for the span's type, with no action types or the span's own among them, failed as a hard, blocking, fail-closed rule; hold iff none did but a fail-to-human one; else allow. The first such rule gives name and reason; each rule about such spans has its verdict recorded, and no other |
| Decision.AdvisoryNeverEscalates | packages/enforcement/src/agent_capture_enforcement/decision.py:47-50 | Wherever it stands, an advisory, soft or disabled rule does not change the decision |
| Holds.HoldQueue.Resolve | packages/enforcement/src/agent_capture_enforcement/storage/repository.py:83-100 | Changes a hold iff it is pending, recording decision, approver, reason and time |
| Holds.HoldQueue.ExpireDue | packages/enforcement/src/agent_capture_enforcement/storage/repository.py:102-111 | Times out exactly the pending holds past their deadline and counts them |
| Holds.HoldQueue.ResolveHold | packages/enforcement/src/agent_capture_enforcement/service/holds.py:98-131 | Bad decisions, foreign tenants, missing and settled holds are refused in that order and change nothing; else "approved" approves and "rejected" rejects that hold alone, with approver, reason and time |
| Holds.ReviewSettles | packages/enforcement/src/agent_capture_enforcement/service/holds.py:98-131 | A review changes at most its own pending hold, to what its decision says, and does change it unless the decision is a bad one or the reviewer is another tenant's |
| Holds.ExpireSettles | packages/enforcement/src/agent_capture_enforcement/storage/repository.py:102-111 | Expiry changes a hold iff it is pending and its time is up, so it and a late approval exclude each other |
| EnforcementClient.Evaluate | packages/enforcement/src/agent_capture_enforcement/client.py:64-79 | The exchange with its polling loop comes to the outcome that the sequence of replies settles |
| EnforcementClient.PollResolution | packages/enforcement/src/agent_capture_enforcement/client.py:100-111 | The loop stops at the first reply that is not quiet, with allow, block or that failure, and otherwise with block at the budget |
| EnforcementClient.SettledExactlyWhen | packages/enforcement/src/agent_capture_enforcement/client.py:100-111 | The outcome is decided by the first reply that is neither pending nor a transport failure, if within the budget, and is block iff the whole budget was quiet |
| EnforcementClient.KeepsPollingExactlyWhen | packages/enforcement/src/agent_capture_enforcement/client.py:168-182 | The client polls on exactly after a transport failure, a pending hold, or a decision that is neither allow nor block; else the decision is the verdict's |
| EnforcementClient.TableDecides | packages/enforcement/src/agent_capture_enforcement/client.py:128-139 | In an outage the table entry for customer and action class, or else the default mode, decides: block iff it says fail_closed, hold iff it says fail_to_human |
| EnforcementClient.BudgetExactly | packages/enforcement/src/agent_capture_enforcement/client.py:60 | The poll budget is the number of whole intervals in the longest wait, but at least one; a zero interval counts as a millisecond |
| GateRuns.SettledHoldsNeverChange | packages/enforcement/src/agent_capture_enforcement/storage/repository.py:83-111 | In every interleaving a hold leaves pending at most once and then never changes |
| GateRuns.ReviewedExactly | packages/enforcement/src/agent_capture_enforcement/service/holds.py:98-131 | A review in a run sets a hold to what it says iff it names that hold, the hold is pending, the decision is one of the two and the reviewer is not another tenant's; nothing else changes |
| GateRuns.ExpiredExactly | packages/enforcement/src/agent_capture_enforcement/storage/repository.py:102-111 | An expiry in a run times out exactly the pending holds whose time is up; nothing else changes |
| GateRuns.GatedFunctionRunsOnlyIf | packages/python/src/agent_capture/enforcement/gate.py:141-183 | A gated function runs only if no hard, blocking rule about its span failed to a human or closed, or only ones to a human and its own hold stands approved, or a named fallback left it open, or the client raised |
| GateRuns.AllowedExactlyWhen | packages/enforcement/src/agent_capture_enforcement/client.py:64-111 | A finished evaluation lets the action run iff the verdict arrived and no hard, blocking rule about the span failed to a human or closed, the request crashed, an outage met an open fallback, or the deciding poll saw the approval or was a bad body that opens |
| GateRuns.AllowedIf | packages/enforcement/src/agent_capture_enforcement/client.py:128-164 | What the verdict request alone decides: allow and a crash run, block stops, an outage does what the fallback table says |
| GateRuns.BadPollDecides | packages/enforcement/src/agent_capture_enforcement/client.py:74-111 | A poll that does not decode leaves a waiting action to the fallback table, and one of the wrong shape lets it run, whatever the hold says |
| GateRuns.NextPollDecides | packages/enforcement/src/agent_capture_enforcement/service/holds.py:25-31 | The next intact poll of a settled hold lets the action run iff the hold is approved |
| GateRuns.HumanDecides | packages/enforcement/src/agent_capture_enforcement/client.py:64-111 | Whatever the rules, the timing and the client's settings, a span the rules hand to a human, once asked for, reviewed in its tenant and polled, is decided, and its action runs iff the human approved |
| GateRuns.ClosedFallbackNeverOpens | packages/enforcement/src/agent_capture_enforcement/client.py:128-139 | With a fallback table that never fails open, an outage lets nothing run |
| GateRuns.PollingEnds | packages/enforcement/src/agent_capture_enforcement/client.py:60-111 | No call polls past its budget, and at the budget it has a verdict |
| GateRuns.ServeVerdict | packages/enforcement/src/agent_capture_enforcement/service/app.py:129-182 | The route answers block, hold or allow as the rules decide, with the name and reason of the first rule that decided, and creates exactly one pending hold on this span iff the answer is hold |
| Redaction.StrategyForPattern | packages/python/src/agent_capture/redaction/policy.py:131-147 | The first matching rule or the default names the strategy; the declared one applies, except that for the five types of personal data full redaction stands in for passing through; an undeclared name raises |
| PatternRedactor.KeepLongest | packages/python/src/agent_capture/redaction/pattern.py:71-82 | Keeps pairwise disjoint matches such that every dropped one meets a kept one that is longer, or as long and begins no later |
| PatternRedactor.Redact | packages/python/src/agent_capture/redaction/pattern.py:48-68 | Splicing from right to left gives the left-to-right text of untouched gaps and replacements; raises iff some winner has no replacement |
| PatternRedactor.ResolutionOf | packages/typescript/src/redaction/pattern.ts:37-50 | The greedy walk over the stably sorted matches is a resolution in that sense, for every list of matches |
| PatternRedactor.FloorWinnersAreRewritten | packages/python/src/agent_capture/redaction/policy.py:138-147 | A winning floor match becomes a sentinel or a fingerprint |
| PatternRedactor.FloorTouchedExactlyWhen | packages/python/src/agent_capture/redaction/policy.py:131-147 | Every recognized floor value loses at least one character, for all reports, iff the recognizers do not mix floor types with passed-through types |
| PatternRedactor.WhatShipsIsClear | packages/python/src/agent_capture/redaction/pattern.py:60-68 | With the replacements blanked out, the redacted text is exactly the characters outside rewritten winners, in order |
| PatternRedactor.FloorCoveredExactlyWhen | packages/python/src/agent_capture/redaction/policy.py:80-85 | No character of a floor value ships iff every floor match that lost lies inside rewritten winners |
| PatternRedactor.FloorAlwaysCoveredExactlyWhen | packages/python/src/agent_capture/redaction/policy.py:80-85 | That holds for every text and every report recognizers of these names could give, iff no recognizer of a floor type has company |
| PatternRedactor.NestedIsCovered | packages/python/src/agent_capture/redaction/pattern.py:71-82 | It holds for a report whose overlapping matches nest and none of which is passed through |
| PatternRedactor.TailOfFloorValueShips | packages/python/src/agent_capture/redaction/pattern.py:71-82 | Two floor recognizers and a policy of full redaction on one text: the tail of the shorter value is in the output |
| SchemaAware.PathSpecification | packages/python/src/agent_capture/redaction/schema_aware.py:37-80 | Each non-null scalar takes the strategy of the deepest key on its path whose first rule, letter case aside, names one, with that key as label only if it is the last; all else is untouched and shapes are kept |
| SchemaAware.WalkRaisesExactlyWhen | packages/python/src/agent_capture/redaction/schema_aware.py:37-80 | Under whatever keys a subtree hangs, its walk raises iff some scalar's own strategy does |
| SchemaAware.RedactRaisesExactlyWhen | packages/python/src/agent_capture/redaction/schema_aware.py:37-80 | The whole payload raises iff the deepest rule above some non-null scalar asks for a fingerprint and there is no key for it |
| SchemaAware.SweepTree | packages/python/src/agent_capture/redaction/filter.py:164-185 | Same shape; numbers and strings become the sentinel except under structural keys |
| SchemaAware.SweepLeavesNothing | packages/python/src/agent_capture/redaction/filter.py:164-195 | After the sweep no number or string is left unreplaced unless the key "kind" lies on its path |
| SchemaAware.SubjectKeptExactlyWhen | packages/python/src/agent_capture/redaction/filter.py:105-115 | A subject id leaves unchanged iff it begins with a marker, whatever follows; else as its fingerprint, or as the sentinel without a key |
| SchemaAware.SubjectRedactedOnce | packages/python/src/agent_capture/redaction/filter.py:105-115 | Redacting a subject id again, even with another key, changes nothing |
| Cursors.DecodeUndoesEncode | packages/ledger/src/agent_capture_ledger/api/pagination.py:23-45 | Base64 decoding undoes encoding for every byte string |
| Cursors.PaddingRestored | packages/ledger/src/agent_capture_ledger/api/pagination.py:23-38 | The stripped padding is restored from the length alone |
| Cursors.CursorRoundTrip | packages/ledger/src/agent_capture_ledger/api/pagination.py:23-45 | A cursor with an ASCII id comes back from its wire form unchanged |
| Paging.ListTrajectories | packages/ledger/src/agent_capture_ledger/api/routes/trajectories.py:42-72 | A page is the first rows behind the cursor in descending order; a next cursor exists iff the page is full, and points behind its last row |
| Paging.FullListIsComplete | packages/ledger/src/agent_capture_ledger/storage/repository.py:96-131 | The full list strictly descends in (first start, id) and has one summary per matching trajectory, with the earliest start, the latest end and the number of its matching rows |
| Paging.PageOfRest | packages/ledger/src/agent_capture_ledger/storage/repository.py:121-131 | What the query returns behind the k-th row is the list from there on |
| Paging.ListTrajectoryIds | packages/reporter/src/agent_capture_reporter/common/ledger_source.py:91-103 | The loop terminates and returns the full list, for every page limit of at least one |
| TsQueue.BoundedQueueExporter.Export | packages/typescript/src/exporter/queue.ts:45-80 | The four cases of an export, each with its whole new state |
| TsQueue.BoundedQueueExporter.Tick | packages/typescript/src/exporter/queue.ts:95-109 | The scheduled drain hands over the whole buffer in order |
| TsQueue.BoundedQueueExporter.Shutdown | packages/typescript/src/exporter/queue.ts:111-127 | Shutting down hands over everything buffered, whatever the time limit |
| TsQueue.EveryRunConserves | packages/typescript/src/exporter/queue.ts:45-109 | With capacity at least one, in every state submitted is handed over plus dropped plus buffered, in submission order, within capacity, and a non-empty buffer has a drain coming |
| TsQueue.ExportCountsExactlyWhen | packages/typescript/src/exporter/queue.ts:45-80 | In any state one export counts its span once iff the capacity is at least one, the span is critical, the queue is shut down, or something is buffered |
| TsQueue.RunsConserveExactlyWhen | packages/typescript/src/exporter/queue.ts:45-109 | Every state of every run accounts for each submitted span once iff the capacity is at least one |
| TsQueue.CriticalIsEnqueued | packages/typescript/src/exporter/queue.ts:58-75 | A critical span submitted before shutdown is enqueued and nothing is counted as dropped |
| TsQueue.BurstEvictsOldest | packages/typescript/src/exporter/queue.ts:76-80 | A burst of plain spans leaves the last of what was buffered and submitted, critical or not |
| PyQueue.EveryRunKeepsInv | packages/python/src/agent_capture/exporter/queue.py:65-120 | In every interleaving each submitted span is handed over, with the worker, queued, in a producer's hands or lost, the queue keeps its bound, and what is lost is at most twice the counter up to counts in flight |
| PyQueue.LineMoves | packages/python/src/agent_capture/exporter/queue.py:65-120 | Spans are handed over in the order of the queue: the line of handed, taken and queued spans gains a producer's span at its end iff its put gets in, loses its oldest queued one iff that is evicted, and is left alone otherwise; what is handed over is what the worker took |
| PyQueue.NothingInvented | packages/python/src/agent_capture/exporter/queue.py:65-120 | In every run the spans handed over, taken, queued and in producers' hands are submitted ones, no more often than submitted, and the others are as many as counted lost |
| PyQueue.NeverStuck | packages/python/src/agent_capture/exporter/queue.py:74-103 | Inside an export exactly one step on its own is open to a producer, and while it waits it can also get room exactly if there is some; outside it can export anything |
| PyQueue.EveryRunKeepsByKind | packages/python/src/agent_capture/exporter/queue.py:74-103 | In every run only critical spans wait for room and only others evict, count an eviction or try again |
| PyQueue.PutExactly | packages/python/src/agent_capture/exporter/queue.py:65-98 | A put queues its span if there is room; at a full queue a critical span waits and any other evicts |
| PyQueue.LossIsBounded | packages/python/src/agent_capture/exporter/queue.py:65-120 | With no export under way every span is handed over, with the worker, pending or gone, stranded ones among the gone; gone are at most twice the counter, and one more per producer after a shutdown |
| PyQueue.ExitedForGood | packages/python/src/agent_capture/exporter/queue.py:109-120 | Once the worker took the sentinel, nothing is handed over any more |
| PyQueue.ShutdownStrandsAll | packages/python/src/agent_capture/exporter/queue.py:65-72 | With room for them, one span per producer can be put behind the exited worker, none of them counted |
| PyQueue.EveryRunKeepsStopBound | packages/python/src/agent_capture/exporter/queue.py:142-152 | After the flag is set, spans behind the sentinel and in producers' hands never exceed the number of producers |
| PyQueue.TwoProducersLoseTwo | packages/python/src/agent_capture/exporter/queue.py:95-103 | For every bound, two producers can lose two spans on one count |
| PyQueue.ShutdownLosesTwo | packages/python/src/agent_capture/exporter/queue.py:142-152 | For every bound, a shutdown call beside one producer has the same effect |
| PyQueue.CountsAllExactlyWhen | packages/python/src/agent_capture/exporter/queue.py:65-120 | In every reachable state with no export under way no more is gone than counted iff nobody produces, or no shutdown call may happen and the queue is unbounded or has a single producer |
| Inventory.ScopeExactly | packages/reporter/src/agent_capture_reporter/sr_11_7/extract.py:171-195 | The scope is exactly the model calls of the period, ends included, of the tenant or of the one customer there is, each as often as it occurs; which of the three failures is reported, and when |
| Inventory.BuildUsage | packages/reporter/src/agent_capture_reporter/sr_11_7/extract.py:209-246 | Call and trajectory counts, recorded token total, partial flag, and the cards once each, a card listed earlier being first used no later |
| Inventory.UsageIgnoresOrder | packages/reporter/src/agent_capture_reporter/sr_11_7/extract.py:209-246 | Counts, total and flag do not depend on the order of the group; nor do the cards if no two calls start together |
| Inventory.ResolveGovernance | packages/reporter/src/agent_capture_reporter/sr_11_7/extract.py:253-298 | The card loop comes to the first registry entry of the first card, else to the first of the identity, else to that of the first later card the registry knows; which finding otherwise |
| Inventory.CardPrecedenceExactlyWhen | packages/reporter/src/agent_capture_reporter/sr_11_7/registry.py:66-93 | The loop agrees with trying all cards before the identity iff no identity entry exists, no card is known, both name one entry, or the first card is known |
| Inventory.BuildColumns | packages/reporter/src/agent_capture_reporter/sr_11_7/extract.py:312-357 | Identity and usage are resolved, a card if one was seen, and each of the five registry columns that a governing entry fills: between two and eight |
| Inventory.SampleExactly | packages/reporter/src/agent_capture_reporter/sr_11_7/extract.py:385-392 | Exactly the asked number of strictly increasing places with first and last among them, each the nearest to its share of the way, halves to the even one |
| Inventory.SampleSpans | packages/reporter/src/agent_capture_reporter/sr_11_7/extract.py:385-392 | All spans if they fit, the first alone for a size of at most one, else the spread sample |
| Inventory.ExtractInventory | packages/reporter/src/agent_capture_reporter/sr_11_7/extract.py:66-165 | Fails exactly when no scope can be formed; else one row per model key in order, each from its own calls, with the two finding lists and the completeness ratio |
| Inventory.RowsExactly | packages/reporter/src/agent_capture_reporter/sr_11_7/extract.py:86-246 | By ascending provider, model and version, one row for each key that calls of the scope belong to, those without a model name sharing one per provider; its counts, flags and sample, in start order, are of exactly those calls |
| Inventory.ReportAddsUp | packages/reporter/src/agent_capture_reporter/sr_11_7/extract.py:86-165 | Rows partition the calls, every row is governed or exactly one of the two findings, and completeness lies between a quarter and one |

## Left out

- Attestation.Store.ProofFor: the choice of the most recent attestation is left open, because the code orders by a random id.
- Attestation.Store.RunOnce: no ingest between two customers of one pass; `AnchorRuns` covers every such interleaving.
- Cursors.CursorRoundTrip: ids beyond ASCII and strings that encoding never produces are not modelled; the library decoder is laxer than the one here.
- Canonical.WritersAgree: both writers share one printer here, so that the two language libraries escape strings and print integers alike is assumed; floats, `undefined`, `__proto__`, date objects and keys outside the Basic Multilingual Plane, where the two sorts differ, are not modelled.
- Canonical.NormalizeValue: an object keeps its entries in the order they are added, while JavaScript lists integer-like keys by number; `Canonical.SecondSortDecides` shows that the text does not depend on it.
- Traced.CallEffect: each call has its own instance. One `traced` object entered again as a context manager while it is open overwrites its own span, so the inner span is closed twice and the outer one never.
- PatternRedactor.Redact: recognizers are arbitrary well-behaved functions; regular expressions are not modelled.
- Inventory.SampleExactly: exact rationals instead of binary floating point.
- TsQueue.BoundedQueueExporter.Tick: the inner exporter does not call back into the queue.
- Trajectory.FromSpans: the loader does not reject parent cycles; acyclicity is proved of what the builder exports.
- Holds.HoldQueue.Resolve: the read and the write are one step; concurrent transactions are not modelled.
- The exporter's worker is a daemon thread; what is still queued when the process ends is not modelled.
- Delivery by the exporters (HTTP, retries, spool), the tenancy and token layer, access logs, metrics and migrations: no logic of their own.
- Finalizing a span, the exporter and the redaction filter do not fail inside `close`; hashing happens after redaction.
- The redaction filter's re-validation of the rewritten span, and its last resort when that fails.
- Policy and rule-file parsing: policies and rules are already typed, and field rules name declared strategies.
- The asynchronous twins of decorator, gate and client, which repeat the synchronous logic.
- Trajectory dispositions, dashboards, control catalogs, notices and rendering: they would only add easy members.
- Inventory.BuildUsage: input and output token sums, prompt versions, regimes and first and last dates are left out; they are accumulated like the parts modelled.
- Inventory.ExtractInventory: the gap log, the evidence digest and the list of unvalidated models are left out.
