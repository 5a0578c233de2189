# POO Flow: evidence-bound effects and the cores around them

A Dafny model of the parts of POO Flow that decide what may happen and what is remembered, with proofs of what they
guarantee. `dafny verify dfyconfig.toml` checks all of it.

**Evidence-bound effects.** A kernel session (`KernelSession`, `PendingQueue`, `NonceTable`, `Kernel`, `HandleTable`)
admits an effect once, runs it through an adapter and records the result through an evidence sink (`EvidenceSink`) in a
durable journal (`EvidenceStore`, `Journal`). `Coupling` runs kernel and journal together as a state machine whose steps
are those between which a process can die; `CouplingTheorems` proves, over every run with any adapter answers, any
failing journal transaction and any number of crashes, that reconciliation is always accepted and rebuilds the lost
kernel, that no effect runs twice, and that the journal replays to its own head. The classes are proved against the same
functions: `Session.Mediate`, `Session.Flush` and `Session.Reconcile` perform exactly the protocol steps. `Blocking` and
`Unreconciled` give the exact conditions under which a session blocks and under which effects can run again.
`RecordedEffects` proves that the journal tells the truth: receipt and leaf of mediation n carry what was asked for and
what the adapter answered in mediation n. `Kernel.Resources.Mediate` states field by field which token reaches the adapter.

**Around it.** `EventQueue` and `PendingQueue` (publish, poll, submit, acknowledge), `Leases` (conservation of events in
flight), `Checkpoint` (images that no single-byte change survives), `EvidencePacket`, `Merkle`, `CompleteTree`,
`BatchRoots` and `RecordedBatches` (framing, inclusion proofs, and what a batch root binds), `Canonical` (bytes that
identify a value; heads as in section 3 of RFC 8949), `SchemeDatum` (printing and parsing), `FunFlow` (waves of a plan),
`GraphExecutor` (queue, step limit, interrupt and resume), `BundleV1` (table validation and lookup), `Authority` (one-shot
grants) and `Messages` (merging by id).

**Two descriptions of one thing.** The functions that methods are proved against follow the code. Beside them stand
descriptions that do not mention them, with lemmas that connect both for all inputs: readers written from a format alone
(`CanonicalReader`, `PacketReader`, the rows of `BundleLayout`), conditions in terms of fields and rows (`HandleCalls`,
`JournalAnswers`, `AuthorityDecisions`, `GraphSteps`, `BundleLayout`, and lemmas in `EventQueue`, `Mediation` and `Kernel`
named after what they describe), and what a whole run leaves behind (`FunFlowStates`, `FunFlowPlans`, `TreeHalves`,
`MessageContents`, `DatumForms`).

## Reading the model

- A journal transaction is a function from tables to new tables or an error. `EvidenceStore.Store` performs it row by row
  and restores the old tables when a check fails or the driver raises; `fault` numbers the driver call that raises.
- Callbacks do not re-enter the kernel, as `bindings/runtime-c/include/poo_flow/runtime_v0.h:266` demands.
- Hashes are parameters. Lemmas that need them not to collide say on which values: the pairs or texts hashed for the
  roots in question (`Merkle.InjectiveOn`, `BatchRoots.CollisionFree`, `RecordedBatches.NoCollision`), or what the requests
  of a run present and what was issued before (`AuthorityTheorems.NoCollisions`).
- Handles: `Resolve` compares the kind asked for with the handle, not with the slot, as the kernel does. `Kernel` and
  `Leases` take any handles and perform what the code performs on the slot they resolve to. A handle is `Genuine` if its
  kind is the slot's.
- Every resource of the kernel has all fields of the C structure: those shared by kinds are in its `Slot`, those only
  sessions use in its session part, which has no room for events unless the resource is a session.
- Machine words are bounded integers with wrap-around written out; the checksum uses bitwise operations defined bit by
  bit in `BitArithmetic`.
- Adapter answers, clocks, random ids, allocator addresses, engine decisions and Unicode tables are parameters.

## What the code does not promise

- An effect that is committed or fails while leaves are staged cannot be finalized: `append` takes only the mediation
  right after the head. Its reservation stays open and the session is blocked for good
  (`CouplingTheorems.FinalizeSucceedsIff`, `UnfinalizedEffectBlocksSession`). Before the call this is decided by the
  staged leaves: every adapter answer can be recorded exactly if there are none (`Blocking.EveryAnswerFinalizesIff`).
  One buffered and one strict effect are enough (`Blocking.BufferedThenUnbufferedBlocks`).
- `reserve` accepts a reservation that matches a row that is already there, whatever became of it. A fresh kernel that
  skips reconciliation can therefore run effects of the history again: exactly those of the first rows, in order, as long
  as each started from the zero root (`Unreconciled.EffectsRunAgainIff`, `RepeatedEffectsAre`). Two buffered effects run
  again by the same two calls (`Unreconciled.TwoEffectsRunAgain`); after reconciliation none does
  (`Unreconciled.ReconciledKernelRefusesReplay`).
- Duplicating the last node of an odd level gives a tree and its padding the same root, so a root of bare digests binds
  them exactly if their count is known (`CompleteTree.RootsBindIff`; `SameRootIff` says which trees share a root). Leaves
  with fields can be repeated too (`BatchRoots.RepeatedLeafSharesRoot`), but every recorded leaf hashes its own index:
  the root of a recorded batch binds its count and all its leaves (`BatchRoots.BatchRootBindsFields`,
  `RecordedBatches.BatchRootBindsLeaves`).
- Framed packets do not record whether a field was a number (`EvidencePacket.FrameForgetsKind`). Lists of given kinds are
  told apart exactly if the kinds agree or the lengths differ (`EvidencePacket.ToldApartIff`), which the packets that are
  hashed always meet.
- Merging messages into the empty list changes a list that repeats an id (`Messages.EmptyIsIdentityIff`).
- Resuming a graph run with another interrupt does not stop it again but drops the successors of the node
  (`GraphTheorems.ResumeIsUninterruptedIff`, `InterruptDropsSuccessors`, and a run in `ChainDropsSecondNode`).
- A bundle that is valid where it is can be invalid as a copy: all copies are valid exactly if no region is aligned to
  more than 64 bytes (`BundleV1.EveryCopyValidatesIff`, `WideBundleFailsAsCopy`).
- A handle whose kind was altered resolves. The handle of a lease passed as that of an arena releases the lease without
  giving its events back (`Leases.ForgedReleaseBreaksBalance`, `ForgedRunBreaksBalance`). The balance is kept exactly by
  harmless calls (`Leases.CallKeepsIff`), among them all calls with genuine handles (`Leases.LeasesAlwaysBalance`).
- The generation of a handle slot is 32 bits wide and wraps past zero: an old handle resolves again exactly after a
  multiple of 2^32 - 1 reuses of its slot (`Leases.OldHandleResolvesIff`, `WrappedHandleResolves`).

## Model

| member | source | states |
|---|---|---|
| `CouplingTheorems.RunKeepsInvariant` | bindings/runtime-c/src/runtime_v0.c:842-1114 | In every run of mediations, flushes, adapter answers, failing journal transactions and crashes with reconciliation, the journal is well shaped, the kernel is coupled to it (or in flight over exactly one open row), and no effect ran twice. |
| `CouplingTheorems.RunsStayCoupled` | bindings/runtime-c/src/runtime_v0.c:375-445 | Between calls of any run, root, nonce set, mediation sequence, semantic root and staged leaves of the kernel are those of the journal, and reconciling a fresh session would rebuild exactly this kernel. |
| `CouplingTheorems.CrashLosesNothing` | packages/python-runtime/src/poo_flow_runtime/evidence.py:271-302 | A crash at any moment of a call, followed by reconciliation, yields the evidence the interrupted call settles to; reconciliation is always accepted. |
| `CouplingTheorems.RecoveryRestoresKernel` | bindings/runtime-c/src/runtime_v0.c:375-445 | Reconciling from a coupled, well-shaped journal is accepted and gives back the same kernel evidence. |
| `CouplingTheorems.ReconciliationIs` | packages/python-runtime/src/poo_flow_runtime/evidence.py:271-302 | A journal coupled to a kernel reports its roots, its nonces in order, its staged leaves, and the last event of its last reservation. |
| `CouplingTheorems.CoupledKernelUnique` | bindings/runtime-c/src/runtime_v0.c:842-1114 | Two kernels coupled to the same journal are equal. |
| `CouplingTheorems.EachEffectRunsAtMostOnce` | bindings/runtime-c/src/runtime_v0.c:914-957 | Over any run with crashes between any two steps, each nonce reaches the adapter at most once. |
| `CouplingTheorems.UnfinalizedEffectBlocksSession` | packages/python-runtime/src/poo_flow_runtime/evidence.py:96-148 | Once an effect was reserved and not finalized, no later action of any kind makes the adapter run again in that session. |
| `CouplingTheorems.FinalizeSucceedsIff` | packages/python-runtime/src/poo_flow_runtime/evidence.py:150-172 | With a working database an effect in flight is finalized exactly if it is to be buffered or no leaf is staged. |
| `CouplingTheorems.UnbufferedEffectBehindLeavesBlocks` | packages/python-runtime/src/poo_flow_runtime/evidence.py:196-221 | A committed or failed effect that runs while leaves are staged leaves its reservation open and so blocks the session. |
| `Blocking.ReserveSucceedsIff` | packages/python-runtime/src/poo_flow_runtime/evidence.py:96-148 | Between calls an admitted token is reserved exactly if its range is valid and no earlier effect is open. |
| `Blocking.EveryAnswerFinalizesIff` | packages/python-runtime/src/poo_flow_runtime/evidence.py:150-221 | Before the effect runs: whatever the adapter is going to answer can be recorded, exactly if no leaf is staged. |
| `Blocking.CallBlocksIff` | packages/python-runtime/src/poo_flow_runtime/evidence.py:196-221 | With a working database a call that passes all checks blocks the session exactly if it does not come out buffered while leaves are staged. |
| `Blocking.StrictCallBlocks` | packages/python-runtime/src/poo_flow_runtime/evidence.py:196-221 | A strict effect behind staged leaves blocks the session whatever the adapter answers and the database does. |
| `Blocking.BufferedCallStages` | packages/python-runtime/src/poo_flow_runtime/batched_evidence_store.py:49-99 | A buffered effect stages one row and one leaf over the same head and leaves nothing open. |
| `Blocking.BufferedThenUnbufferedBlocks` | packages/python-runtime/src/poo_flow_runtime/evidence.py:196-221 | A run from the empty system that blocks: one buffered effect, then a strict one or one whose adapter does not commit. |
| `Unreconciled.BehindKernelReservesIff` | packages/python-runtime/src/poo_flow_runtime/evidence.py:96-148 | A kernel whose count is behind the journal can reserve exactly the row that comes next in its count, which then stays as it is, whatever became of it. |
| `Unreconciled.RepeatedEffectsAre` | packages/python-runtime/src/poo_flow_runtime/evidence.py:96-148 | Whatever actions follow without reconciliation, the effects a fresh kernel runs are those of the first rows of the journal, in order, each of which started from the zero root, as long as there are rows. |
| `Unreconciled.EffectsRunAgain` | packages/python-runtime/src/poo_flow_runtime/evidence.py:96-148 | The effects of the first m rows can all be run again if all of these rows started from the zero root. |
| `Unreconciled.EffectsRunAgainIff` | packages/python-runtime/src/poo_flow_runtime/evidence.py:96-148 | m effects of the history can run again without reconciliation exactly if the first m rows all started from the zero root. |
| `Unreconciled.StagedRowAtZeroIff` | packages/python-runtime/src/poo_flow_runtime/batched_evidence_store.py:49-99 | A staged row started from the zero root exactly if the head root is still zero. |
| `Unreconciled.TwoEffectsRunAgain` | packages/python-runtime/src/poo_flow_runtime/evidence.py:96-148 | Two buffered effects run, and after a restart without reconciliation the same two calls run both again. |
| `Unreconciled.ReconciledKernelRefusesReplay` | bindings/runtime-c/src/runtime_v0.c:907-920 | After reconciliation every request that carries a nonce of the history is refused before the adapter. |
| `CouplingTheorems.FlushCompletes` | packages/python-runtime/src/poo_flow_runtime/batched_evidence_store.py:101-148 | From every reachable state between calls a flush of staged leaves with a working database is accepted: kernel and journal move to the same new root and nothing stays staged. |
| `CouplingTheorems.WholeCallsKeepInvariant` | bindings/runtime-c/src/runtime_v0.c:842-1114 | A mediation and a flush that run to their end keep kernel, journal and adapter record consistent. |
| `CouplingTheorems.RunReplays` | packages/python-runtime/src/poo_flow_runtime/batched_evidence_store.py:197-222 | In every reachable journal, replaying receipts and batches in order from the zero root, recomputing each leaf from its receipt and each batch root from its own leaves, gives the stored head root. |
| `CouplingProofs.FlushNeverForks` | packages/python-runtime/src/poo_flow_runtime/native_evidence_sink.py:76-91 | While kernel and journal are coupled, the fork check made after the batch is committed never fires. |
| `CouplingProofs.FlushCouples` | packages/python-runtime/src/poo_flow_runtime/native_evidence_sink.py:76-91 | A flush, also one the database rolls back, leaves the journal coupled to the kernel the answer leads to. |
| `CouplingProofs.ReserveCouples` | packages/python-runtime/src/poo_flow_runtime/native_evidence_sink.py:35-40 | A reservation that goes through opens exactly the row of the running mediation and spends its nonce on both sides. |
| `CouplingProofs.FinalizeCouples` | packages/python-runtime/src/poo_flow_runtime/native_evidence_sink.py:42-74 | Whatever the adapter answered and whether or not the database failed, taking the finalize answer over couples kernel and journal again. |
| `RecordedEffects.EveryReceiptTells` | packages/python-runtime/src/poo_flow_runtime/native_evidence_sink.py:42-74 | In every reachable journal, receipt n has range, nonce and roots of the request of mediation n, the observation that the adapter answered in mediation n and the outcome that answer calls for; there is a leaf n exactly if the effect was confirmed in batched durability, and it keeps the input digest of that answer. |
| `RecordedEffects.RunTells` | packages/python-runtime/src/poo_flow_runtime/native_evidence_sink.py:35-74 | Over every run, each effect is entered under a number of its own, whose row carries its nonce, and every receipt and leaf tells the effect of its number. |
| `Mediation.FinalizeRecords` | packages/python-runtime/src/poo_flow_runtime/native_evidence_sink.py:42-74 | A finalize that goes through adds one receipt, with the fields of request and answer in their places, and for a buffered outcome one leaf; nothing else. |
| `Mediation.DurabilityIs` | bindings/runtime-c/src/runtime_v0.c:865-879 | Which durabilities are admitted, and the status of each that is not. |
| `Mediation.TokenIs` | bindings/runtime-c/src/runtime_v0.c:907-920 | When a token is fresh and at the root, and which status the first failing check gives. |
| `Mediation.OutcomeIs` | bindings/runtime-c/src/runtime_v0.c:958-990 | An effect counts as committed or buffered exactly if the answer confirms it without any irregularity, and as indeterminate otherwise. |
| `Mediation.AdapterStatusIs` | bindings/runtime-c/src/runtime_v0.c:958-978 | The adapter status that is reported: its own failure, malformed, or OK exactly for a well-formed confirmation or indeterminate answer. |
| `Mediation.EvidenceStatusIs` | bindings/runtime-c/src/runtime_v0.c:1000-1030 | When evidence is accepted, and which status it is refused with. |
| `Mediation.FlushAdmissionIs` | bindings/runtime-c/src/runtime_v0.c:1050-1080 | When a flush goes to the sink, and which status it is refused with. |
| `Mediation.TakeOverIs` | bindings/runtime-c/src/runtime_v0.c:375-445 | A history is taken over exactly if it is coherent, repeats no nonce, and the session is idle without history of its own; every refusal has its status and changes nothing. |
| `KernelSession.AdmissionIs` | bindings/runtime-c/src/runtime_v0.c:865-920 | A request goes on to the adapter exactly if durability, binding, event view and token are in order; otherwise the first that is not decides. |
| `JournalShape.ReserveKeepsShape` | packages/python-runtime/src/poo_flow_runtime/evidence.py:96-148 | Reservations stay exactly 1..N with distinct nonces: finalized, then staged, then at most one open row. |
| `JournalShape.AppendKeepsShape` | packages/python-runtime/src/poo_flow_runtime/evidence.py:150-245 | Appending a receipt keeps the shape of reservations, receipts, leaves and head. |
| `JournalShape.StageKeepsShape` | packages/python-runtime/src/poo_flow_runtime/batched_evidence_store.py:49-99 | Staging keeps the shape: staged leaves are consecutive, numbered from 0 and bound to the head root. |
| `JournalShape.FlushKeepsShape` | packages/python-runtime/src/poo_flow_runtime/batched_evidence_store.py:101-148 | Flushing finalizes all staged rows at once and keeps the shape. |
| `JournalShape.AppendSucceedsIff` | packages/python-runtime/src/poo_flow_runtime/evidence.py:196-221 | Of valid receipts matching the open reservation, append takes those that continue the head root while no leaf is staged. |
| `JournalShape.OpenReservationIsLast` | packages/python-runtime/src/poo_flow_runtime/evidence.py:180-195 | A row that is still reserved is the last one. |
| `JournalShape.StagedSequencesAre` | packages/python-runtime/src/poo_flow_runtime/batched_evidence_store.py:165-180 | The staged rows, read in leaf order, are the mediations after the head in their own order. |
| `JournalShape.FlushAdvancesRoot` | packages/python-runtime/src/poo_flow_runtime/batched_evidence_store.py:197-231 | The new head root is the execution root of the old one and the Merkle root of the flushed digests. |
| `JournalAnswers.ReserveIs` | packages/python-runtime/src/poo_flow_runtime/evidence.py:96-148 | When a reservation succeeds, what row it writes, and which complaint comes first when it does not. |
| `JournalAnswers.AppendIs` | packages/python-runtime/src/poo_flow_runtime/evidence.py:150-245 | When a receipt is appended, what it writes, and which complaint comes first when it is not. |
| `JournalAnswers.StageIs` | packages/python-runtime/src/poo_flow_runtime/batched_evidence_store.py:49-99 | When a leaf is staged, with which number and digest, and which complaint comes first when it is not. |
| `JournalAnswers.FlushIs` | packages/python-runtime/src/poo_flow_runtime/batched_evidence_store.py:101-148 | A flush is accepted exactly for the digests of all waiting leaves in the order of their indices; the batch it writes names first, last, count and the roots before and after. |
| `JournalAnswers.ReconcileIs` | packages/python-runtime/src/poo_flow_runtime/evidence.py:271-302 | What is reported of a history, in terms of its rows in increasing order. |
| `OrderedRows.SortedAre` | packages/python-runtime/src/poo_flow_runtime/batched_evidence_store.py:173-180 | Every row is listed once, by rank and then by key. |
| `Journal.ReplayUnchanged` | packages/python-runtime/src/poo_flow_runtime/batched_evidence_store.py:197-222 | What a replay up to a mediation yields does not depend on anything recorded later. |
| `RecordedBatches.BatchRootBindsLeaves` | packages/python-runtime/src/poo_flow_runtime/batched_evidence_store.py:49-148 | Two recorded batches have the same root exactly if they have the same count and were made of the same receipts and inputs, unless two of the values hashed for these roots collide; they then start from and lead to the same execution roots. |
| `RecordedBatches.NumberedInputsBind` | packages/python-runtime/src/poo_flow_runtime/batched_evidence_store.py:49-99 | Lists of leaf inputs numbered by position, of any two lengths, have the same root exactly if they are equal, unless hashed values collide. |
| `OrderedRows.SortedRange` | packages/python-runtime/src/poo_flow_runtime/batched_evidence_store.py:173-180 | Rows of consecutive keys with increasing rank are read back in key order. |
| `EvidenceStore.Store.Reserve` | packages/python-runtime/src/poo_flow_runtime/evidence.py:96-148 | Commits the reserve transaction or, on a failed check or a driver error at any call, changes nothing; idempotent for a matching row. |
| `EvidenceStore.Store.Append` | packages/python-runtime/src/poo_flow_runtime/evidence.py:150-245 | Commits the append transaction or changes nothing. |
| `EvidenceStore.Store.Stage` | packages/python-runtime/src/poo_flow_runtime/batched_evidence_store.py:49-99 | Commits the stage transaction or changes nothing. |
| `EvidenceStore.Store.Flush` | packages/python-runtime/src/poo_flow_runtime/batched_evidence_store.py:101-148 | Commits the flush transaction and returns its batch, or changes nothing. |
| `EvidenceSink.Sink.Reserve` | packages/python-runtime/src/poo_flow_runtime/native_evidence_sink.py:35-40 | A raised error becomes status 16 with the journal unchanged; other sessions are untouched. |
| `EvidenceSink.Sink.Finalize` | packages/python-runtime/src/poo_flow_runtime/native_evidence_sink.py:42-74 | Stages buffered outcomes and appends all others. After an accepted finalize the row of this mediation tells range, nonce, roots and outcome as given and what the adapter observed, and a staged leaf keeps its input digest; nothing else is added. The answer is the one the protocol step expects. |
| `EvidenceSink.Sink.Flush` | packages/python-runtime/src/poo_flow_runtime/native_evidence_sink.py:76-91 | Flushes the given digests and reports a fork only after the batch is stored. |
| `KernelSession.Session.Mediate` | bindings/runtime-c/src/runtime_v0.c:842-1048 | Refusals come in the order of the kernel, change nothing and do not reach the adapter; an admitted request is the protocol mediation from end to end, and the adapter sees exactly the events first..last. |
| `KernelSession.Session.Admit` | bindings/runtime-c/src/runtime_v0.c:865-920 | Durability, bindings, event view, roots, replay and budget are judged in this order. |
| `KernelSession.Session.FindView` | bindings/runtime-c/src/runtime_v0.c:894-906 | The two binary searches and the comparison of end indices succeed exactly if the queue holds first, first+1, ..., last without a gap. |
| `KernelSession.Session.CheckToken` | bindings/runtime-c/src/runtime_v0.c:907-920 | Fork, semantic root, replay and budget; a token that passes comes with the free slot of its nonce. |
| `KernelSession.Session.ReadAnswer` | bindings/runtime-c/src/runtime_v0.c:958-978 | An effect counts as committed only if the adapter says so without any irregularity; batched commits become buffered. |
| `KernelSession.Session.TakeAnswer` | bindings/runtime-c/src/runtime_v0.c:1000-1030 | Only accepted evidence moves root or leaves; the sequence advances in every case. |
| `KernelSession.Session.Flush` | bindings/runtime-c/src/runtime_v0.c:1050-1114 | An admitted flush is the protocol flush; any other changes nothing; on failure the kernel keeps its leaves. |
| `KernelSession.Session.Reconcile` | bindings/runtime-c/src/runtime_v0.c:375-445 | A session without history takes the durable history over, or stays exactly as it was, also when a nonce repeats. |
| `KernelSession.Session.LoadNonces` | bindings/runtime-c/src/runtime_v0.c:413-427 | The nonce table is filled with the listed nonces, or left empty if one occurs twice. |
| `KernelSession.EnclosedIsFound` | bindings/runtime-c/src/runtime_v0.c:121-132 | Where the queue holds the whole run, the two searches land on its ends. |
| `KernelSession.MediatedIs` | bindings/runtime-c/src/runtime_v0.c:932-1030 | The four protocol steps in a row, as one mediation performs them. |
| `NonceTable.Table.Slot` | bindings/runtime-c/src/runtime_v0.c:147-165 | Found exactly if the nonce was consumed; otherwise a free slot on its probe path; the full sentinel only from a full table. |
| `NonceTable.Table.Insert` | bindings/runtime-c/src/runtime_v0.c:939-941 | Adds one nonce and keeps every other reachable by probing. |
| `NonceTable.Table.Clear` | bindings/runtime-c/src/runtime_v0.c:420-424 | Forgets every nonce. |
| `NonceTable.FreeSlotMeansAbsent` | bindings/runtime-c/src/runtime_v0.c:147-165 | A probe that meets a free slot before the nonce proves that it was never consumed. |
| `NonceTable.FullPathMeansFull` | bindings/runtime-c/src/runtime_v0.c:153-164 | Probing past every slot means that no slot is free. |
| `NonceTable.InsertKeeps` | bindings/runtime-c/src/runtime_v0.c:939-941 | Filling the slot at the end of a probe path keeps the table a set in which all members are found. |
| `PendingQueue.Queue.LowerBound` | bindings/runtime-c/src/runtime_v0.c:121-132 | The first position not below the sequence sought. |
| `PendingQueue.Queue.Publish` | bindings/runtime-c/src/runtime_v0.c:594-632 | All headers are appended in order or none; the status is that of the first offending header. |
| `PendingQueue.Queue.Ready` | bindings/runtime-c/src/runtime_v0.c:654-664 | How many events can be leased and how far their payloads reach. |
| `PendingQueue.Queue.Take` | bindings/runtime-c/src/runtime_v0.c:682-698 | Exactly the next ready events are marked and returned. |
| `PendingQueue.Queue.Submit` | bindings/runtime-c/src/runtime_v0.c:735-797 | The two-pointer merge gives each item the status, bitmap bit and counts of a search of its own, accepts nothing else, and raises the watermark to the last sequence up to which everything is accepted. |
| `PendingQueue.Queue.Acknowledge` | bindings/runtime-c/src/runtime_v0.c:818-838 | Marks the accepted events of the lease and removes acknowledged events from the front only. |
| `EventQueue.PublishKeeps` | bindings/runtime-c/src/runtime_v0.c:594-632 | Publishing keeps the queue strictly sorted and its polled events a prefix. |
| `EventQueue.PollKeeps` | bindings/runtime-c/src/runtime_v0.c:682-698 | Polled events stay exactly those before the cursor. |
| `EventQueue.SubmitKeeps` | bindings/runtime-c/src/runtime_v0.c:757-797 | Only polled events become accepted. |
| `EventQueue.AcknowledgeKeeps` | bindings/runtime-c/src/runtime_v0.c:818-838 | Everything removed lay before the cursor, so the cursor falls by exactly what was removed and never to the fallback 0. |
| `EventQueue.WatermarkCoversAccepted` | bindings/runtime-c/src/runtime_v0.c:789-796 | The watermark never falls; where it rises, it is the sequence of an event and every event at or below it is accepted. |
| `EventQueue.WatermarkRises` | bindings/runtime-c/src/runtime_v0.c:789-796 | The watermark is at least the sequence of every event up to which all are accepted, and it is such a sequence or what it was. |
| `EventQueue.WatermarkIs` | bindings/runtime-c/src/runtime_v0.c:789-796 | No other value meets both bounds. |
| `EventQueue.ItemStatusIs` | bindings/runtime-c/src/runtime_v0.c:757-788 | An item is accepted exactly if a polled event of its sequence, arena, generation and correlation is not accepted yet; it is a duplicate exactly if that event is; otherwise invalid. |
| `EventQueue.SubmittedIs` | bindings/runtime-c/src/runtime_v0.c:757-788 | Afterwards exactly the events are accepted that were before or that some item fits; nothing else of an event changes. |
| `EventQueue.PublishStatusIs` | bindings/runtime-c/src/runtime_v0.c:594-613 | A batch passes exactly if all headers do; otherwise the first that does not decides, layout before bounds before order. |
| `EventQueue.ReadyAre` | bindings/runtime-c/src/runtime_v0.c:646-664 | Ready are the events from the cursor on, without exception, that are unpolled and of this arena in this generation. |
| `EventQueue.AcknowledgedIs` | bindings/runtime-c/src/runtime_v0.c:818-828 | Acknowledged are afterwards exactly the events that were before or that are accepted, of this arena and in the range of the lease. |
| `EventQueue.RemainingIs` | bindings/runtime-c/src/runtime_v0.c:829-838 | What leaves the queue is the longest acknowledged prefix. |
| `EventQueue.SubmitOne` | bindings/runtime-c/src/runtime_v0.c:757-788 | One step of the merge touches at most the event of its own sequence, and none that an earlier item touched. |
| `EventQueue.FindAtLowerBound` | bindings/runtime-c/src/runtime_v0.c:121-132 | In a sorted queue the first position not below decides the search. |
| `EventQueue.ViewHasNoGaps` | bindings/runtime-c/src/runtime_v0.c:894-906 | Two positions whose distance is the distance of their sequences enclose a run without gaps. |
| `EventQueue.PublishableIsSorted` | bindings/runtime-c/src/runtime_v0.c:597-613 | Headers that pass are increasing, continue the queue and stay inside the arena. |
| `EventQueue.RequiredPayloadIsMax` | bindings/runtime-c/src/runtime_v0.c:654-664 | The reported payload size covers every ready event. |
| `EventQueue.RequiredPayloadIsReached` | bindings/runtime-c/src/runtime_v0.c:654-664 | And it is the payload end of one of them. |
| `Bitmap.SetFlag` | bindings/runtime-c/src/runtime_v0.c:782 | Setting one bit of the accepted bitmap changes no other. |
| `Bitmap.FlagIs` | bindings/runtime-c/src/runtime_v0.c:782 | Flag i is bit i % 8 of byte i / 8, counted from the lowest. |
| `Kernel.Resources.FindFree` | bindings/runtime-c/src/runtime_v0.c:194-214 | The scan finds the lowest slot that is not alive. |
| `Kernel.Resources.Allocate` | bindings/runtime-c/src/runtime_v0.c:194-214 | The lowest free slot gets a new generation and an empty session part of its own; if there is none, nothing changes. |
| `Kernel.Resources.SessionOpen` | bindings/runtime-c/src/runtime_v0.c:333-363 | Opens a session with empty queue and fresh evidence in its own storage, and with epoch and capabilities of the resource the bundle handle resolves to. |
| `Kernel.Resources.ArenaRegister` | bindings/runtime-c/src/runtime_v0.c:538-559 | Registers a region exactly if its instance resolves, it is not empty, and its alignment is a power of two of at least 16 that its address meets. |
| `Kernel.RegistrableIs` | bindings/runtime-c/src/runtime_v0.c:538-559 | A region can be registered exactly if it is not empty and its address is a multiple of its alignment, a power of two from 16 on. |
| `Kernel.Resources.ArenaRelease` | bindings/runtime-c/src/runtime_v0.c:561-570 | Performs the release on whatever slot the handle resolves to; refused while that slot counts events in flight; keeps the balance of leases exactly if the call is harmless. |
| `Kernel.Resources.ArenaRecycle` | bindings/runtime-c/src/runtime_v0.c:1116-1129 | Only forwards, only from the expected generation, only without events in flight, on whatever slot the handle resolves to. |
| `Kernel.Resources.Publish` | bindings/runtime-c/src/runtime_v0.c:572-632 | Resolution, generation, room and headers are judged in this order; the queue grows by all events or none; published count and last sequence are returned. |
| `Kernel.Resources.Poll` | bindings/runtime-c/src/runtime_v0.c:634-706 | Exactly if events are ready, the buffers have room and a slot is free, all ready events are leased together; otherwise nothing changes. Lease and arena slot record number, generation and range. |
| `Kernel.Resources.Ack` | bindings/runtime-c/src/runtime_v0.c:800-840 | Performs the acknowledgement on whatever slots the handles resolve to. With balanced leases and a genuine lease handle it is accepted exactly from the session that holds the lease and never reports the internal-invariant status. |
| `Kernel.Resources.Submit` | bindings/runtime-c/src/runtime_v0.c:708-798 | Judges handles, capacity, generation and items in this order; statuses, bitmap and counts are those of independent searches, and watermark and session sequence move to the last sequence up to which everything is accepted, or stay. |
| `Kernel.Resources.Mediate` | bindings/runtime-c/src/runtime_v0.c:842-1048 | An effect runs only if session, arena and lease are live, the lease is over this arena and held by this session in the generation of the token that the arena still has, the bundle epoch is the token's and the leased range is exactly the one asked for. If any of these does not match while the handles resolve, the status is the binding mismatch and the adapter is not called. Otherwise the status is that of the admission. |
| `Kernel.Resources.Reconcile` | bindings/runtime-c/src/runtime_v0.c:375-445 | Resolves the session, takes the durable history over or leaves everything as it was, and moves the session sequence to the durable one. |
| `Kernel.Resources.OthersStay` | bindings/runtime-c/src/runtime_v0.c:194-214 | Session parts share no storage, so a call that changes nothing outside the one it is given leaves every other session valid and as it was. |
| `Kernel.BindingIs` | bindings/runtime-c/src/runtime_v0.c:880-893 | The binding status is OK exactly if arena and lease are live and the token fits them field by field, and the mismatch exactly if they are live and it does not. |
| `Kernel.BatchStatusIs` | bindings/runtime-c/src/runtime_v0.c:172-188 | A batch call goes on exactly if session and arena are live and the arena is in the generation named; otherwise the first of these decides. |
| `Kernel.PublishStatusIs` | bindings/runtime-c/src/runtime_v0.c:572-613 | A batch is published exactly if session and arena are live and current, there is room for all of it and every header may follow. |
| `Kernel.SubmitStatusIs` | bindings/runtime-c/src/runtime_v0.c:708-756 | Items are submitted exactly if session and arena are live and current, the buffers have room and the items are well formed and increasing. |
| `HandleTable.ResolveIs` | bindings/runtime-c/src/runtime_v0.c:172-188 | A handle resolves exactly if it names a live resource of the instance in its generation; what is wrong with it otherwise decides the status. |
| `HandleCalls.NewIs` | bindings/runtime-c/src/runtime_v0.c:194-214 | A new resource takes the lowest free slot in its next generation; it is refused exactly if all 256 slots are alive. |
| `HandleCalls.PollIs` | bindings/runtime-c/src/runtime_v0.c:634-706 | A poll with ready events makes a lease that says session, arena, generation, number and range, and its arena counts the events; nothing else changes. |
| `HandleCalls.AckIs` | bindings/runtime-c/src/runtime_v0.c:800-840 | When a lease is given back, what changes then, and the status of each refusal. |
| `HandleCalls.FreeArenaIs` | bindings/runtime-c/src/runtime_v0.c:561-570 | An arena is released exactly while it counts no events. |
| `HandleCalls.RecycleIs` | bindings/runtime-c/src/runtime_v0.c:1116-1129 | When an arena gets a new generation, and the status of each refusal. |
| `HandleCalls.UnnamedIsRefused` | bindings/runtime-c/src/runtime_v0.c:172-188 | A call with a handle that names nothing is refused for the first such handle and changes nothing. |
| `Leases.CallKeepsIff` | bindings/runtime-c/src/runtime_v0.c:194-223 | With handles of any kind the caller passes: a call keeps the balance between arenas and leases exactly if it does not take a leased resource out of use, lease over something that is no arena, or acknowledge something that is no lease. |
| `Leases.BalancedThroughoutIff` | bindings/runtime-c/src/runtime_v0.c:561-840 | The runs in which the balance holds after every call are exactly those of harmless calls. |
| `Leases.LeasesAlwaysBalance` | bindings/runtime-c/src/runtime_v0.c:561-840 | In every run with genuine handles each live arena counts exactly the events of its live leases, and each live lease carries the generation of its arena. |
| `Leases.ForgedReleaseBreaksBalance` | bindings/runtime-c/src/runtime_v0.c:172-188 | The handle of a live lease that itself counts nothing in flight, passed with the kind of an arena, resolves; the release succeeds and the balance is lost. |
| `Leases.ForgedRunBreaksBalance` | bindings/runtime-c/src/runtime_v0.c:172-188 | A run from the empty table that loses the balance: instance, arena, session, poll, and a release with the kind of the lease handle altered. |
| `Leases.AckNeverReportsInternalInvariant` | bindings/runtime-c/src/runtime_v0.c:810-817 | In every run of harmless calls, acknowledging a live lease meets neither a dead arena nor too small a count. |
| `Leases.AckIsDecidedByHolder` | bindings/runtime-c/src/runtime_v0.c:810-817 | Acknowledging a live lease is decided by whether the session holds it. |
| `Leases.LeasedArenaIsPinned` | bindings/runtime-c/src/runtime_v0.c:561-570 | While a lease over it is live, an arena can be neither recycled nor released. |
| `Leases.IdleArenaIsReleasable` | bindings/runtime-c/src/runtime_v0.c:561-570 | An arena without live leases can be released. |
| `Leases.LeaseIsCounted` | bindings/runtime-c/src/runtime_v0.c:634-706 | The events of a live lease are among those its arena counts. |
| `Leases.NewHandleResolves` | bindings/runtime-c/src/runtime_v0.c:172-214 | A new handle resolves and is genuine. |
| `Leases.GenerationsRepeatIff` | bindings/runtime-c/src/runtime_v0.c:194-205 | A slot is back at a generation exactly after every 2^32 - 1 allocations. |
| `Leases.OldHandleResolvesIff` | bindings/runtime-c/src/runtime_v0.c:172-214 | Over any run, the handle of a resource that is gone resolves again exactly if its slot holds a live resource of the same instance and was allocated a multiple of 2^32 - 1 times since. |
| `Leases.WrappedHandleResolves` | bindings/runtime-c/src/runtime_v0.c:194-214 | A run of 2^32 - 1 reuses after which an old handle resolves to a resource it was not given out for. |
| `Leases.IssuedHandleStaysGenuine` | bindings/runtime-c/src/runtime_v0.c:172-214 | A handle as the kernel gave it out stays genuine through up to 2^32 - 2 reuses of its slot. |
| `Leases.OldHandleRefused` | bindings/runtime-c/src/runtime_v0.c:172-214 | The handle of a resource that is gone is refused through up to 2^32 - 2 reuses of its slot. |
| `Checkpoint.DamagedCheckpointRejected` | bindings/runtime-c/src/runtime_v0.c:499-520 | A checkpoint with any one byte changed restores nothing, under any bundle. |
| `Checkpoint.OneByteChangeRejected` | bindings/runtime-c/src/runtime_v0.c:499-520 | No image that passes the checks still does after a change of one byte. |
| `Checkpoint.OneByteChangesChecksum` | bindings/runtime-c/src/runtime_v0.c:104-111 | Changing one byte changes the checksum. |
| `Checkpoint.MixIsInjective` | bindings/runtime-c/src/runtime_v0.c:104-111 | Each checksum step is injective in the running value. |
| `Checkpoint.MultiplyIsInjective` | bindings/runtime-c/src/runtime_v0.c:104-111 | Multiplying by the prime loses nothing modulo 2^64. |
| `Checkpoint.CheckpointRestores` | bindings/runtime-c/src/runtime_v0.c:470-536 | An unchanged checkpoint restores epoch, sequence, digest and state, with closed becoming open, exactly under a bundle of the same epoch and digest. |
| `Checkpoint.ChecksumBytes` | bindings/runtime-c/src/runtime_v0.c:104-111 | The loop computes the checksum the theorems speak of. |
| `Checkpoint.Take` | bindings/runtime-c/src/runtime_v0.c:470-497 | The packet written is the sealed packet of the session. |
| `Checkpoint.Restore` | bindings/runtime-c/src/runtime_v0.c:499-536 | Length, checks and bundle identity are judged in this order. |
| `Checkpoint.DecodeOfEncode` | bindings/runtime-c/src/runtime_v0.c:76-84 | The packet layout is read back as written. |
| `Checkpoint.RestoredIs` | bindings/runtime-c/src/runtime_v0.c:499-536 | An image is restored exactly if its magic number, empty reserved word, checksum, epoch and digest stand where the format puts them; one that is intact but of another bundle and one that is not intact are told apart. |
| `Checkpoint.ChecksumVectors` | bindings/runtime-c/src/runtime_v0.c:104-111 | The checksums of no byte, of a zero byte and of a one byte. |
| `BitArithmetic.BitsAre` | bindings/runtime-c/src/runtime_v0.c:104-111 | Exclusive or and conjunction work digit by digit. |
| `Merkle.ComputeRoot` | packages/python-runtime/src/poo_flow_runtime/batched_evidence.py:99-106 | Folding level by level gives the tree root; an empty tree is an error. |
| `Merkle.BuildProof` | packages/python-runtime/src/poo_flow_runtime/batched_evidence.py:68-83 | The proof carries the sibling of every level and the tree root; only indices in range have one. |
| `Merkle.VerifyProof` | packages/python-runtime/src/poo_flow_runtime/batched_evidence.py:85-97 | A proof verifies exactly if climbing it from the leaf reaches its root. |
| `Merkle.BuiltProofVerifies` | packages/python-runtime/src/poo_flow_runtime/batched_evidence.py:68-97 | For every leaf count and index the built proof verifies against the tree root. |
| `Merkle.BuiltProofFollowsPath` | packages/python-runtime/src/poo_flow_runtime/batched_evidence.py:68-83 | The directions of a built proof depend on leaf count and index only. |
| `Merkle.RootBindsLeaves` | packages/python-runtime/src/poo_flow_runtime/batched_evidence.py:99-116 | Trees of equal size and root have equal leaves, unless two of the pairs hashed for these roots collide. |
| `Merkle.VerifiedProofBindsLeaf` | packages/python-runtime/src/poo_flow_runtime/batched_evidence.py:85-97 | A proof that verifies along the directions of index i proves leaf i, and is the built proof, unless two of the pairs hashed collide. |
| `Merkle.PaddedTreeSharesRoot` | packages/python-runtime/src/poo_flow_runtime/batched_evidence.py:107-112 | An odd level and the level padded with its last node have the same root. |
| `CompleteTree.SameRootIff` | packages/python-runtime/src/poo_flow_runtime/batched_evidence.py:99-112 | Trees of equal depth, of whatever sizes, share a root exactly if they fill up to the same complete tree, unless two of the pairs hashed collide. |
| `CompleteTree.RootsBindIff` | packages/python-runtime/src/poo_flow_runtime/batched_evidence.py:99-112 | For given counts of bare digests a root binds the digests exactly if the counts are equal (given some value above which nodes do not collide). |
| `CompleteTree.FirstLeafIsNode` | packages/python-runtime/src/poo_flow_runtime/batched_evidence.py:99-112 | A tree that shares its root with a deeper one has a node of that one as its first leaf. |
| `CompleteTree.SameTree` | packages/python-runtime/src/poo_flow_runtime/batched_evidence.py:99-112 | If no leaf is a node then equal roots mean equal depth and the same complete tree. |
| `CompleteTree.SourceOfIndex` | packages/python-runtime/src/poo_flow_runtime/batched_evidence.py:107-112 | In the complete tree every leaf stands at its own index. |
| `CompleteTree.SourceOfLast` | packages/python-runtime/src/poo_flow_runtime/batched_evidence.py:107-112 | The last position of the complete tree holds the last leaf. |
| `TreeHalves.RootIsBalanced` | packages/python-runtime/src/poo_flow_runtime/batched_evidence.py:99-112 | The root of a tree of any size joins, the left one first, the roots of the two halves of the complete tree it fills up to. |
| `TreeHalves.ProofIs` | packages/python-runtime/src/poo_flow_runtime/batched_evidence.py:68-83 | A proof begins with the node joined with this one, before it for an odd position and after it for an even one, and goes on one level up at half the position. |
| `TreeHalves.ClimbIs` | packages/python-runtime/src/poo_flow_runtime/batched_evidence.py:85-97 | The climb joins a left sibling before and a right one after where it stands. |
| `CompleteTree.ProvedLeafIsInTree` | packages/python-runtime/src/poo_flow_runtime/batched_evidence.py:85-97 | Whatever steps a proof has: if it leads from a value that is no node to the root of a tree, the value is one of its leaves, unless hashed pairs collide. |
| `BatchRoots.SameBatchRootIff` | packages/python-runtime/src/poo_flow_runtime/batched_evidence.py:45-116 | Two batches of any sizes share a root exactly if their trees have the same depth and fill up to the same complete tree of leaves, unless the hash collides on two of the texts hashed for these roots. |
| `BatchRoots.PaddedBatchSharesRoot` | packages/python-runtime/src/poo_flow_runtime/batched_evidence.py:107-112 | An odd batch and the same batch with its last leaf repeated share a root; not both are numbered by position. |
| `BatchRoots.RepeatedLeafSharesRoot` | packages/python-runtime/src/poo_flow_runtime/batched_evidence.py:107-112 | Two concrete batches that share a root: three leaves, and the same three with the last one repeated. |
| `BatchRoots.VerifiedLeafIsInBatch` | packages/python-runtime/src/poo_flow_runtime/batched_evidence.py:85-97 | Whatever its steps are, a proof that verifies against the root of a batch proves that its leaf is in the batch, in a numbered batch at its own index, unless the hash collides on two of the texts hashed. |
| `BatchRoots.EqualSizesBind` | packages/python-runtime/src/poo_flow_runtime/batched_evidence.py:45-116 | Batches of one size share a root exactly if they are equal, unless the hash collides. |
| `EvidencePacket.LeafPacketInjective` | packages/python-runtime/src/poo_flow_runtime/batched_evidence.py:45-57 | Leaf packets are equal only for equal leaves. |
| `EvidencePacket.FramesInjective` | packages/python-runtime/src/poo_flow_runtime/batched_evidence.py:123-129 | Length-framed fields of known kinds are read back in one way only. |
| `EvidencePacket.FramesEqualIff` | packages/python-runtime/src/poo_flow_runtime/batched_evidence.py:118-129 | Frames of two lists are equal exactly if the lists are of one length and their field texts are equal position by position. |
| `EvidencePacket.ToldApartIff` | packages/python-runtime/src/poo_flow_runtime/batched_evidence.py:118-129 | Frames tell lists of given kinds apart exactly if the kinds agree position by position or the lists differ in length. |
| `EvidencePacket.PacketKindsAreFixed` | packages/python-runtime/src/poo_flow_runtime/batched_evidence.py:45-57 | The kinds of leaf packets and of node packets are fixed, so both are always told apart. |
| `BatchRoots.NodeDigestInjective` | packages/python-runtime/src/poo_flow_runtime/batched_evidence.py:114-116 | Node digests bind both children as long as the hash does not collide on the packets of these nodes. |
| `BatchRoots.BatchRootBindsFields` | packages/python-runtime/src/poo_flow_runtime/batched_evidence.py:45-116 | Two batches whose leaves carry their positions, as recorded ones do, share a root exactly if they are equal in count and in all ten fields of every leaf, unless the hash collides on two of the texts hashed for these roots. |
| `EvidencePacket.FrameForgetsKind` | packages/python-runtime/src/poo_flow_runtime/batched_evidence.py:123-129 | A number and its decimal text are framed alike, so kinds must be known. |
| `EvidencePacket.LeafAndNodePacketsDiffer` | packages/python-runtime/src/poo_flow_runtime/batched_evidence.py:45-57 | A leaf packet is never a node packet. |
| `PacketReader.LeafReadsBack` | packages/python-runtime/src/poo_flow_runtime/batched_evidence.py:45-57 | Round trip: a reader written from the format alone gets all ten fields of a leaf back from its packet. |
| `PacketReader.NodeReadsBack` | packages/python-runtime/src/poo_flow_runtime/batched_evidence.py:114-120 | Round trip: both children are read back from a node packet. |
| `PacketReader.FrameReadsBack` | packages/python-runtime/src/poo_flow_runtime/batched_evidence.py:123-129 | A field is read back by its length in bytes of UTF-8, whatever follows it. |
| `Decimal.ValueOfDigits` | packages/python-runtime/src/poo_flow_runtime/batched_evidence.py:123-129 | Decimal text denotes the number it was written for. |
| `Decimal.DigitsSplit` | packages/python-runtime/src/poo_flow_runtime/batched_evidence.py:123-129 | A number written before a non-digit is told apart from what follows. |
| `Decimal.DigitsVectors` | packages/python-runtime/src/poo_flow_runtime/batched_evidence.py:123-129 | Digits are those of ASCII, the most significant first. |
| `NonceText.TextReadsBack` | packages/python-runtime/src/poo_flow_runtime/evidence_model.py:169-177 | A nonce is read back from its text of 32 digits. |
| `NonceText.TextInjective` | packages/python-runtime/src/poo_flow_runtime/evidence_model.py:169-173 | Different nonces have different texts. |
| `NonceText.HexVector` | packages/python-runtime/src/poo_flow_runtime/evidence_model.py:169-173 | Hexadecimal digits are lower case, the most significant first. |
| `Canonical.MaterialIdentifies` | bindings/cedar-gerbil/crates/cedar-authority/src/canonical.rs:164-173 | Materials are equal exactly if the domains are equal and the values are equal up to the order of object fields. |
| `Canonical.EncodingIdentifies` | bindings/cedar-gerbil/crates/cedar-authority/src/canonical.rs:108-162 | Encodings are equal exactly if the values are equal up to the order of object fields. |
| `Canonical.EncodedBinds` | bindings/cedar-gerbil/crates/cedar-authority/src/canonical.rs:108-162 | From the front of any bytes at most one value can be read. |
| `Canonical.EncodingIsPrefixFree` | bindings/cedar-gerbil/crates/cedar-authority/src/canonical.rs:108-162 | No encoding is a proper prefix of another. |
| `Canonical.SameSortsAlike` | bindings/cedar-gerbil/crates/cedar-authority/src/canonical.rs:148-152 | Objects that differ in field order only sort to the same keys with corresponding values. |
| `Canonical.SortedIsOrdered` | bindings/cedar-gerbil/crates/cedar-authority/src/canonical.rs:148-152 | Sorting unique keys gives strictly increasing byte order. |
| `Canonical.HeadBinds` | bindings/cedar-gerbil/crates/cedar-authority/src/canonical.rs:83-101 | A head is read back in one way only. |
| `Canonical.HeadIsShortest` | bindings/cedar-gerbil/crates/cedar-authority/src/canonical.rs:83-101 | No shorter head could hold the number (section 4.2.1 of RFC 8949). |
| `Canonical.ByteStringBinds` | bindings/cedar-gerbil/crates/cedar-authority/src/canonical.rs:103-106 | A byte string is told apart from what follows. |
| `Canonical.WriteHead` | bindings/cedar-gerbil/crates/cedar-authority/src/canonical.rs:83-101 | Appends the head. |
| `Canonical.Encode` | bindings/cedar-gerbil/crates/cedar-authority/src/canonical.rs:108-162 | Appends the encoding; fails exactly if a floating-point number occurs anywhere. |
| `Canonical.Material` | bindings/cedar-gerbil/crates/cedar-authority/src/canonical.rs:164-173 | Gives the material, or nothing exactly if a floating-point number occurs. |
| `Canonical.SameIsEquivalence` | bindings/cedar-gerbil/crates/cedar-authority/src/canonical.rs:148-158 | Being equal up to field order is an equivalence. |
| `CanonicalReader.WrittenReadsBack` | bindings/cedar-gerbil/crates/cedar-authority/src/canonical.rs:108-162 | Round trip: a reader written from the format alone gets the value back from its bytes, with the fields of every object in strict key order and nothing left over. |
| `CanonicalReader.MaterialReadsBack` | bindings/cedar-gerbil/crates/cedar-authority/src/canonical.rs:164-173 | Round trip: domain and value are read back from the material. |
| `CanonicalReader.HeadReadsBack` | bindings/cedar-gerbil/crates/cedar-authority/src/canonical.rs:83-101 | A head is read back by the rules of section 3 of RFC 8949. |
| `SchemeDatum.WrittenReadsBack` | packages/python-runtime/src/poo_flow_runtime/_scheme_datum.py:15-47 | Reading what was written gives the value back for every nesting of booleans, integers, strings and tuples; rows are accepted exactly if the value is a tuple. |
| `SchemeDatum.WriteInjective` | packages/python-runtime/src/poo_flow_runtime/_scheme_datum.py:23-34 | Different values are written differently. |
| `SchemeDatum.DatumReadsBack` | packages/python-runtime/src/poo_flow_runtime/_scheme_datum.py:49-59 | A printed datum is read back from anywhere in a source, provided an atom does not run on. |
| `SchemeDatum.StringReadsBack` | packages/python-runtime/src/poo_flow_runtime/_scheme_datum.py:83-100 | Escaped text is read back character by character. |
| `SchemeDatum.EscapeIsPerCharacter` | packages/python-runtime/src/poo_flow_runtime/_scheme_datum.py:151-152 | The three replacements in a row escape each character once. |
| `SchemeDatum.IntReadsBack` | packages/python-runtime/src/poo_flow_runtime/_scheme_datum.py:102-118 | Printed integers are read as integers. |
| `SchemeDatum.Parser.Parse` | packages/python-runtime/src/poo_flow_runtime/_scheme_datum.py:42-47 | Reads one datum and nothing after it. |
| `SchemeDatum.Parser.ReadDatum` | packages/python-runtime/src/poo_flow_runtime/_scheme_datum.py:49-59 | Terminates on every input with the value and position of the datum, or its error. |
| `SchemeDatum.Parser.ReadList` | packages/python-runtime/src/poo_flow_runtime/_scheme_datum.py:61-81 | Reads items until the closing parenthesis or a dot. |
| `SchemeDatum.Parser.ReadTail` | packages/python-runtime/src/poo_flow_runtime/_scheme_datum.py:69-80 | A dotted tail becomes nested pairs. |
| `SchemeDatum.Parser.ReadString` | packages/python-runtime/src/poo_flow_runtime/_scheme_datum.py:83-100 | Reads to the closing quote, undoing escapes. |
| `SchemeDatum.Parser.ReadAtom` | packages/python-runtime/src/poo_flow_runtime/_scheme_datum.py:102-118 | Reads a boolean, an integer or a symbol; nothing consumed is an error. |
| `DatumForms.WrittenForms` | packages/python-runtime/src/poo_flow_runtime/_scheme_datum.py:23-34 | The printed form of each kind of value, character by character. |
| `DatumForms.DatumIs` | packages/python-runtime/src/poo_flow_runtime/_scheme_datum.py:49-59 | What a datum is, by its first character, and the error where none begins. |
| `DatumForms.ItemsIff` | packages/python-runtime/src/poo_flow_runtime/_scheme_datum.py:61-81 | A list is read exactly if datums follow one another up to where it closes, at once or by one more datum after a dot. |
| `DatumForms.PairsNest` | packages/python-runtime/src/poo_flow_runtime/_scheme_datum.py:69-80 | A dotted tail pairs the first item with what the others make of the tail. |
| `DatumForms.StringBodyIs` | packages/python-runtime/src/poo_flow_runtime/_scheme_datum.py:83-100 | What each character of a string body means, and the errors of one that does not end. |
| `DatumForms.NumberTokens` | packages/python-runtime/src/poo_flow_runtime/_scheme_datum.py:102-118 | Digits with at most one sign are an integer. |
| `DatumForms.ParsedIs` | packages/python-runtime/src/poo_flow_runtime/_scheme_datum.py:36-47 | A text is accepted exactly if it is one datum with space around it; rows exactly if that is a tuple. |
| `FunFlowTheorems.RunSucceedsIff` | packages/python-runtime/src/poo_flow_runtime/_funflow_runtime.py:31-74 | A plan of actions that succeed runs to the end exactly if it has steps, no need is missing and no path of needs leads back to its start. |
| `FunFlowTheorems.ScheduleIsTopological` | packages/python-runtime/src/poo_flow_runtime/_funflow_runtime.py:46-63 | The trace is a permutation of the steps in which each follows all it needs. |
| `FunFlowTheorems.NoLongerChain` | packages/python-runtime/src/poo_flow_runtime/_funflow_runtime.py:46-63 | A step of wave k ends no chain of more than k+1 steps. |
| `FunFlowTheorems.LongestChain` | packages/python-runtime/src/poo_flow_runtime/_funflow_runtime.py:46-63 | A step of wave k ends a chain of exactly k+1 steps that starts in the first wave. |
| `FunFlowTheorems.CallsFollowSchedule` | packages/python-runtime/src/poo_flow_runtime/_funflow_runtime.py:46-88 | The calls made are those of the waves in order. |
| `FunFlowTheorems.CallsSeeEarlierWaves` | packages/python-runtime/src/poo_flow_runtime/_funflow_runtime.py:46-88 | Each step sees exactly the state after all earlier waves. |
| `FunFlowTheorems.KnotHasCycle` | packages/python-runtime/src/poo_flow_runtime/_funflow_runtime.py:46-53 | Steps that block each other contain a cycle of needs. |
| `FunFlowTheorems.CycleIsKnot` | packages/python-runtime/src/poo_flow_runtime/_funflow_runtime.py:46-53 | A cycle of needs is a set of steps none of which can be first. |
| `FunFlowTheorems.ByNameIsUnique` | packages/python-runtime/src/poo_flow_runtime/_funflow_runtime.py:37 | The dictionary of a plan has each of its names once. |
| `FunFlowStates.RunLeavesLatestPatches` | packages/python-runtime/src/poo_flow_runtime/_funflow_runtime.py:46-88 | After a run every key of the state has the value in the patch of the last step of the trace whose patch has it, or else its initial value; the keys are the initial ones and those of the patches. What each step sees is made in the same way of the patches of the waves before it. |
| `FunFlowStates.OverlayIsLatest` | packages/python-runtime/src/poo_flow_runtime/_funflow_runtime.py:60-60 | Laying patches over a state leaves for every key the value of the last that has it. |
| `FunFlowStates.SuccessFollowsSchedule` | packages/python-runtime/src/poo_flow_runtime/_funflow_runtime.py:46-74 | A run that succeeds follows the schedule, whether or not its actions could fail elsewhere. |
| `FunFlowPlans.ByNameKeepsLast` | packages/python-runtime/src/poo_flow_runtime/_funflow_runtime.py:37 | Of several steps of one name the last definition is kept. |
| `FunFlowPlans.ByNameKeepsOrder` | packages/python-runtime/src/poo_flow_runtime/_funflow_runtime.py:37 | Steps wait in the order in which their names come first. |
| `FunFlowPlans.ReadyInOrder` | packages/python-runtime/src/poo_flow_runtime/_funflow_runtime.py:46-53 | A wave takes exactly the steps that are ready, in the order in which they wait. |
| `FunFlowPlans.RunReportsWidest` | packages/python-runtime/src/poo_flow_runtime/_funflow_runtime.py:54-74 | The width that is reported is that of the widest wave. |
| `FunFlowPlans.OutcomeFailsFor` | packages/python-runtime/src/poo_flow_runtime/_funflow_runtime.py:31-53 | A run fails for a plan without steps, a need that no step has, a cycle, or an action that fails, each reported as itself. |
| `FunFlow.KnotBlocks` | packages/python-runtime/src/poo_flow_runtime/_funflow_runtime.py:46-53 | Steps that block each other stop the run. |
| `FunFlow.StuckMeansKnot` | packages/python-runtime/src/poo_flow_runtime/_funflow_runtime.py:46-53 | A run that stops has steps that block each other. |
| `FunFlow.ExecuteFollowsSchedule` | packages/python-runtime/src/poo_flow_runtime/_funflow_runtime.py:31-74 | Trace, final state and widest wave are those of the schedule. |
| `FunFlow.ReadyShrinks` | packages/python-runtime/src/poo_flow_runtime/_funflow_runtime.py:46-66 | Every wave takes something off the pending steps. |
| `FunFlow.Run` | packages/python-runtime/src/poo_flow_runtime/_funflow_runtime.py:31-74 | The loop gives the outcome and makes the calls the theorems speak of, among them FunFlowStates.RunLeavesLatestPatches on what the patches do to the state. |
| `FunFlow.Complete` | packages/python-runtime/src/poo_flow_runtime/_funflow_runtime.py:60-66 | Booking a wave step by step lays its patches over the state in order, of which FunFlowStates.OverlayIsLatest says what they leave, and removes exactly its steps. |
| `FunFlow.RunWave` | packages/python-runtime/src/poo_flow_runtime/_funflow_runtime.py:76-88 | All steps of a wave see the same state; one that fails fails the wave. |
| `GraphTheorems.ResumeIsUninterruptedIff` | packages/python-runtime/src/poo_flow_runtime/_runtime_graph_executor.py:136-148 | Resuming with an answer does the same work as a run whose node had given that answer at once, exactly if the answer is not itself an interrupt. |
| `GraphTheorems.InterruptDropsSuccessors` | packages/python-runtime/src/poo_flow_runtime/_runtime_graph_executor.py:136-148 | Resuming with another interrupt goes on with what was pending anyway, as if the interrupted node had no successors. |
| `GraphTheorems.ChainDropsSecondNode` | packages/python-runtime/src/poo_flow_runtime/_runtime_graph_executor.py:136-148 | A run of two nodes that stops in the first: resumed with an update the second node runs, resumed with an interrupt it never does and the run completes. |
| `GraphTheorems.ContinuesAsUninterrupted` | packages/python-runtime/src/poo_flow_runtime/_runtime_graph_executor.py:262-278 | The work after an interrupted step is that of the uninterrupted run. |
| `GraphTheorems.RunCountsSteps` | packages/python-runtime/src/poo_flow_runtime/_runtime_graph_executor.py:396-420 | In every run the trace has one entry per step and the limit is kept, also when interrupted. |
| `GraphTheorems.DrainedIsLater` | packages/python-runtime/src/poo_flow_runtime/_runtime_graph_executor.py:262-278 | Runs only extend the trace, and an interrupt comes after the start. |
| `GraphTheorems.QueueIsFifo` | packages/python-runtime/src/poo_flow_runtime/_runtime_graph_context.py:63-67 | Work is done in the order in which it was queued. |
| `GraphTheorems.DrainedIgnoresEvents` | packages/python-runtime/src/poo_flow_runtime/_runtime_graph_executor.py:262-278 | Published events influence no later work. |
| `GraphTheorems.DrainedAgrees` | packages/python-runtime/src/poo_flow_runtime/_runtime_graph_executor.py:396-420 | A run depends only on what actions answer in the steps still to come. |
| `GraphSteps.StepIs` | packages/python-runtime/src/poo_flow_runtime/_runtime_graph_executor.py:327-337 | A step that succeeds drops an item that leads to the end, or runs the oldest node in the state with the sent update laid over what it is shown, merges what its answer writes, and queues its successors behind what is pending. |
| `GraphSteps.StepFails` | packages/python-runtime/src/poo_flow_runtime/_runtime_graph_executor.py:396-420 | Why a step fails: the limit, a node without action, an action that raises, an interrupt with the context it carries, or a successor that cannot be found. |
| `GraphSteps.NormalizeIs` | packages/python-runtime/src/poo_flow_runtime/_runtime_graph_state.py:81-92 | What each kind of answer writes, whether it decides by itself where the run goes on, and where. |
| `GraphSteps.MergeIs` | packages/python-runtime/src/poo_flow_runtime/_runtime_graph_state.py:57-68 | A merge key by key. |
| `GraphSteps.TargetsAre` | packages/python-runtime/src/poo_flow_runtime/_runtime_graph_state.py:41-45 | The targets of a node are those of the edges that start there, in edge order. |
| `GraphSteps.RouteNamesAre` | packages/python-runtime/src/poo_flow_runtime/_runtime_graph_executor.py:543-583 | A list of names is followed in order, and fails exactly if one of them leads nowhere. |
| `GraphSteps.ConditionalsInOrder` | packages/python-runtime/src/poo_flow_runtime/_runtime_graph_executor.py:517-528 | Conditional edges are followed one after the other, to the first that fails. |
| `GraphSteps.RunIs` | packages/python-runtime/src/poo_flow_runtime/_runtime_graph_executor.py:262-278 | A run that completes takes steps until nothing is pending, then records the trace. |
| `GraphSteps.ResumeIs` | packages/python-runtime/src/poo_flow_runtime/_runtime_graph_executor.py:136-148 | A resumed run finishes the interrupted node with the answer and goes on. |
| `GraphExecutor.RunContextToEnd` | packages/python-runtime/src/poo_flow_runtime/_runtime_graph_executor.py:262-278 | The loop terminates and drains the queue as the theorems say. |
| `GraphExecutor.ExecuteNext` | packages/python-runtime/src/poo_flow_runtime/_runtime_graph_executor.py:327-337 | One execution of the oldest item. |
| `GraphExecutor.StartAndRunNode` | packages/python-runtime/src/poo_flow_runtime/_runtime_graph_executor.py:396-420 | Step, trace and recorded state advance before the action runs; an interrupt carries that context. |
| `GraphExecutor.FinishNode` | packages/python-runtime/src/poo_flow_runtime/_runtime_graph_executor.py:451-472 | Merges the update, then queues the targets of the merged state. |
| `GraphExecutor.FindConditionalTargets` | packages/python-runtime/src/poo_flow_runtime/_runtime_graph_executor.py:517-583 | Routes of all conditional edges of the node in order, or the first failure. |
| `GraphExecutor.ResumeInterrupted` | packages/python-runtime/src/poo_flow_runtime/_runtime_graph_executor.py:136-148 | Restores the interrupted context, finishes its node with the answer and runs on. |
| `GraphExecutor.Invoke` | packages/python-runtime/src/poo_flow_runtime/_runtime_graph_executor.py:92-99 | Starts from the targets of the start node. |
| `GraphExecutor.MergeState` | packages/python-runtime/src/poo_flow_runtime/_runtime_graph_state.py:57-68 | Keys of the update replace or, where both exist and a reducer does, reduce; all others stay. |
| `GraphExecutor.IndexEdges` | packages/python-runtime/src/poo_flow_runtime/_runtime_graph_state.py:41-45 | The targets of each node in edge order. |
| `GraphExecutor.RunContext.NextNode` | packages/python-runtime/src/poo_flow_runtime/_runtime_graph_context.py:63-67 | Takes the oldest item. |
| `GraphExecutor.RunContext.AdvanceStep` | packages/python-runtime/src/poo_flow_runtime/_runtime_graph_context.py:69-74 | Counts a step and fails past the limit. |
| `GraphExecutor.RunContext.Publish` | packages/python-runtime/src/poo_flow_runtime/_runtime_graph_context.py:76-85 | Appends an event. |
| `BundleV1.Validate` | bindings/runtime-c/bundle-v1/src/bundle_v1.c:260-325 | Header, regions and tables are judged in this order. |
| `BundleV1.ValidBundleIsOrdered` | bindings/runtime-c/bundle-v1/src/bundle_v1.c:116-258 | In a bundle that validates, every table is strictly ordered by its whole key, pairwise. |
| `BundleLayout.ValidIff` | bindings/runtime-c/bundle-v1/src/bundle_v1.c:260-325 | Validation accepts exactly the bundles whose header, regions, rows and tables are as they should be, each stated on its own columns. |
| `BundleLayout.RefusedFor` | bindings/runtime-c/bundle-v1/src/bundle_v1.c:260-325 | A bundle that is refused is refused for the first part that is not as it should be. |
| `BundleLayout.RegionIs` | bindings/runtime-c/bundle-v1/src/bundle_v1.c:55-79 | A region passes exactly if it lies in the arena, is made of whole rows and is aligned in offset and address. |
| `BundleLayout.HeaderIs` | bindings/runtime-c/bundle-v1/src/bundle_v1.c:260-290 | A header passes exactly if it is of schema 1.0 with its flags, length, digest and empty reserved fields. |
| `BundleLayout.TableStatusIs` | bindings/runtime-c/bundle-v1/src/bundle_v1.c:116-258 | The first bad row decides: by itself, or because its key repeats or falls below the one before it. |
| `BundleLayout.CompareIs` | bindings/runtime-c/bundle-v1/src/bundle_v1.c:19-34 | Keys are ordered by the first column in which they differ. |
| `BundleLayout.SymbolReadsBack` | bindings/runtime-c/bundle-v1/include/poo_flow/bundle_v1.h:63-69 | Every column of a symbol row is read from its place in the structure. |
| `BundleLayout.ComponentReadsBack` | bindings/runtime-c/bundle-v1/include/poo_flow/bundle_v1.h:76-92 | The same for components. |
| `BundleLayout.EdgeReadsBack` | bindings/runtime-c/bundle-v1/include/poo_flow/bundle_v1.h:94-102 | The same for edges. |
| `BundleLayout.EvidenceReadsBack` | bindings/runtime-c/bundle-v1/include/poo_flow/bundle_v1.h:104-113 | The same for evidence obligations. |
| `BundleV1.TablePassesIff` | bindings/runtime-c/bundle-v1/src/bundle_v1.c:116-258 | A table passes exactly if each row does and all keys are strictly ordered. |
| `BundleV1.SymbolTablePassesIff` | bindings/runtime-c/bundle-v1/src/bundle_v1.c:116-145 | The same for symbols. |
| `BundleV1.ComponentTablePassesIff` | bindings/runtime-c/bundle-v1/src/bundle_v1.c:147-181 | The same for components. |
| `BundleV1.EdgeTablePassesIff` | bindings/runtime-c/bundle-v1/src/bundle_v1.c:183-226 | The same for edges, whose order column comes before the target. |
| `BundleV1.EvidenceTablePassesIff` | bindings/runtime-c/bundle-v1/src/bundle_v1.c:228-258 | The same for evidence obligations. |
| `BundleV1.ValidateSymbols` | bindings/runtime-c/bundle-v1/src/bundle_v1.c:116-145 | The loop gives the first complaint in row order. |
| `BundleV1.ValidateComponents` | bindings/runtime-c/bundle-v1/src/bundle_v1.c:147-181 | The loop gives the first complaint in row order. |
| `BundleV1.ValidateEdges` | bindings/runtime-c/bundle-v1/src/bundle_v1.c:183-226 | The loop gives the first complaint in row order. |
| `BundleV1.ValidateEvidence` | bindings/runtime-c/bundle-v1/src/bundle_v1.c:228-258 | The loop gives the first complaint in row order. |
| `BundleV1.FindComponent` | bindings/runtime-c/bundle-v1/src/bundle_v1.c:327-366 | Over an ordered table a row is found exactly if one has the key; a found row has it in any case. |
| `BundleV1.KeysAreUnique` | bindings/runtime-c/bundle-v1/src/bundle_v1.c:147-181 | No key occurs in two rows of an ordered table. |
| `BundleV1.EdgeOrderIs` | bindings/runtime-c/bundle-v1/src/bundle_v1.c:196-216 | The cascade of comparisons is the lexicographic comparison of whole keys. |
| `BundleV1.CompareTransitive` | bindings/runtime-c/bundle-v1/src/bundle_v1.c:19-34 | Key order is transitive. |
| `BundleV1.CopyValidatesIff` | bindings/runtime-c/bundle-v1/src/bundle_v1.c:411-420 | The copy of a bundle that validates does too, exactly if its address suits every region alignment. |
| `BundleV1.EveryCopyValidatesIff` | bindings/runtime-c/bundle-v1/src/bundle_v1.c:411-420 | A bundle that validates also does as a copy at every multiple of 64 exactly if none of its five regions is aligned to more than 64. |
| `BundleV1.WideBundleFailsAsCopy` | bindings/runtime-c/bundle-v1/src/bundle_v1.c:411-420 | A bundle with symbols aligned to 128 that is valid at address 128 and invalid at address 64. |
| `BundleV1.ModestAlignmentsCopy` | bindings/runtime-c/bundle-v1/src/bundle_v1.c:411-420 | With alignments up to 64 the copy always validates. |
| `BundleV1.AllocationFits` | bindings/runtime-c/bundle-v1/src/bundle_v1.c:392-399 | The rounded size is a positive multiple of 64, fits a word and holds the arena with less than 64 bytes to spare. |
| `BundleV1.ArenaCreate` | bindings/runtime-c/bundle-v1/src/bundle_v1.c:368-425 | Gives a validated copy, or the status of the first failure: size, validation in place, memory, validation of the copy. |
| `BitArithmetic.NoCommonBitsIff` | bindings/runtime-c/bundle-v1/src/bundle_v1.c:51-53 | The bit test accepts exactly the powers of two. |
| `BitArithmetic.ClearLowBits` | bindings/runtime-c/bundle-v1/src/bundle_v1.c:392-396 | Clearing the low six bits rounds down to a multiple of 64. |
| `AuthorityTheorems.GrantSafety` | bindings/cedar-gerbil/crates/cedar-authority/src/authority.rs:426-504 | Every consumption matches exactly one earlier issue of the same signed grant for the same handoff, in time, with nothing between that ended it; no grant is consumed twice. |
| `AuthorityTheorems.ConsumeSucceedsIff` | bindings/cedar-gerbil/crates/cedar-authority/src/authority.rs:426-504 | In every run a request is granted exactly if it fits and presents, before its deadline, a grant that was issued and not ended since. |
| `AuthorityTheorems.PendingIsBounded` | bindings/cedar-gerbil/crates/cedar-authority/src/authority.rs:278-287 | Pending grants never exceed 4096. |
| `AuthorityTheorems.DeadStaysDead` | bindings/cedar-gerbil/crates/cedar-authority/src/authority.rs:240-251 | After suspension or close nothing is issued or consumed, whatever is called. |
| `AuthorityTheorems.RunKeepsInvariant` | bindings/cedar-gerbil/crates/cedar-authority/src/authority.rs:278-522 | Pending grants are exactly the issued, unended ones, up to those that expired. |
| `AuthorityDecisions.EveryGrantIsPermitted` | bindings/cedar-gerbil/crates/cedar-authority/src/authority.rs:278-392 | In every run, each grant that was issued stems from a call whose proposal was prepared, permitted by the engines and met no failure, and has its id, intent, handoff digest, subject and action. |
| `AuthorityDecisions.EveryConsumptionWasPermitted` | bindings/cedar-gerbil/crates/cedar-authority/src/authority.rs:278-504 | In every run, each consumption is of a grant that one earlier call permitted to this subject for this action, intent and handoff. |
| `AuthorityDecisions.IssueSucceedsIff` | bindings/cedar-gerbil/crates/cedar-authority/src/authority.rs:278-392 | A grant is issued exactly by an authority that is alive and has room, for a proposal that is prepared and permitted without failure. |
| `AuthorityDecisions.IssueIsRefusedFor` | bindings/cedar-gerbil/crates/cedar-authority/src/authority.rs:278-345 | Whatever is not granted has its reason, the first that applies; a denial is none of the errors. |
| `AuthorityDecisions.IssueLeaves` | bindings/cedar-gerbil/crates/cedar-authority/src/authority.rs:278-392 | What an issue leaves of the pending grants, of liveness and of the epoch. |
| `AuthorityDecisions.RefusalIs` | bindings/cedar-gerbil/crates/cedar-authority/src/authority.rs:426-480 | Which check of a request fails first. |
| `AuthorityDecisions.ConsumptionIs` | bindings/cedar-gerbil/crates/cedar-authority/src/authority.rs:426-504 | How the pending grant of its id decides a request that passes, and what then remains pending. |
| `AuthorityDecisions.RevocationIs` | bindings/cedar-gerbil/crates/cedar-authority/src/authority.rs:506-522 | A revocation succeeds exactly for a later epoch on a live authority; it and a close end every grant. |
| `AuthorityDecisions.RevokedIsRefused` | bindings/cedar-gerbil/crates/cedar-authority/src/authority.rs:506-517 | A grant of an earlier epoch is refused from a revocation on. |
| `Authority.AuthorityService.IssueGrant` | bindings/cedar-gerbil/crates/cedar-authority/src/authority.rs:278-392 | Performs the issue of which AuthorityDecisions tells when it succeeds: expired grants are dropped, then budget, projection, engines, environment and decision are judged in this order; a failed evaluation suspends. |
| `Authority.AuthorityService.ConsumeGrant` | bindings/cedar-gerbil/crates/cedar-authority/src/authority.rs:426-504 | Checks in order; removes the grant when it succeeds or has expired, and only then. |
| `Authority.AuthorityService.RevokeGrants` | bindings/cedar-gerbil/crates/cedar-authority/src/authority.rs:506-517 | A higher epoch clears all pending grants. |
| `Authority.AuthorityService.CloseAuthority` | bindings/cedar-gerbil/crates/cedar-authority/src/authority.rs:519-522 | Closes and clears. |
| `Messages.MergeIsAssociative` | packages/python-runtime/src/poo_flow_runtime/messages.py:63-79 | Merging is associative on all lists, whatever ids they repeat or lack. |
| `Messages.EmptyIsIdentityIff` | packages/python-runtime/src/poo_flow_runtime/messages.py:63-79 | The empty list is a right identity, and a left identity exactly on lists that repeat no id. |
| `Messages.MergedIds` | packages/python-runtime/src/poo_flow_runtime/messages.py:63-79 | No id is lost or invented, and no repetition is introduced. |
| `Messages.MergePut` | packages/python-runtime/src/poo_flow_runtime/messages.py:71-78 | Putting a message before or after the merge is the same. |
| `MessageContents.MergedLatest` | packages/python-runtime/src/poo_flow_runtime/messages.py:63-79 | Of every id the merged list has the last message of the right list, or of the left one if the right list lacks it. |
| `MessageContents.MergedKeeps` | packages/python-runtime/src/poo_flow_runtime/messages.py:63-79 | No message moves, and one stays as it was unless it is the last of its id and the right list has that id. |
| `Messages.AddMessages` | packages/python-runtime/src/poo_flow_runtime/messages.py:63-87 | The loop with its index gives the merge. |

## Left out

- SQL text, database drivers, files and the bridge between Python and C: tables are maps, transactions atomic.
- Journal columns that no decision reads: evidence references, kernel signatures, verification flags, attestation and
  batch evidence digests, creation times.
- Journals of different sessions share one store in the model, but batch numbers are counted per session as in the code.
- KernelSession.Session.Mediate: the adapter may submit events while it runs; the model keeps the queue as it is during the call.
- Null pointers and struct sizes in kernel requests, negotiation, profiles, bundles, owned byte buffers and error messages:
  single branches without state of their own.
- Session cancel and close: state changes the evidence protocol does not depend on. The releases of instances, profiles,
  bundles, sessions and owned bytes are calls of `Leases` only; what else can refuse them (dependants, an open session) is
  not modelled, so runs may contain more of them than the kernel admits.
- Payload bounds after an arena slot is used again with the same generation number, because queued events name only slot
  and generation.
- Globally increasing event sequences: an empty queue accepts any start.
- Evidence receipts as dataclasses: field validation is a conjunction of single checks; the checks the journal makes are in
  `Journal.ValidReceipt`.
- NonceText.TextReadsBack: texts that are not 32 hexadecimal digits are not parsed.
- Canonical: parsing JSON into values, and digests of materials; values are documents without duplicate keys.
- SchemeDatum: Python's limit on the digits of an integer, its recursion limit and lone surrogates in strings.
- FunFlow: timings, sandboxes and output keys; actions are functions of the state they are given and do not change it.
- GraphExecutor: event details and stream projections; asynchronous twins of the same methods; exceptions of routers and
  reducers.
- BundleV1: reference counting of owned arenas, packed descriptors and component columns that are neither checked nor
  searched by.
- Authority: policy evaluation, engine receipts, `consume_proposal` (which adds one comparison and then consumes), wall-clock
  times of grants, signatures other than the ideal one.
- Cedar and Lean workers, sockets, subprocesses, TypeScript and WASM slot tables, Gerbil tooling.
