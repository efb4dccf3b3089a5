# Verified model of tun-proxy's stateful core

tun-proxy is a macOS proxy that answers DNS queries with addresses of its own,
maps those addresses back to domains when flows arrive, and routes each flow by
rules. This project models the parts of it whose correctness depends on state
that outlives one call: on disk, across threads, across processes, and in the
host's network settings. Verify with `dafny verify dfyconfig.toml`.

## What is modelled

**Fake IP pool with a write-ahead journal.** `fakeip_table.dfy` holds the mapping
table as a value and what every lock-protected section does to it.
`fakeip_pool.dfy` is the pool object with its two indexes, tombstones, cursor and
flow counts; each method equates its new abstract value with one of those
functions. `fakeip_journal.dfy` reads journals from their bytes and says what a
snapshot and a journal mean together; `fakeip_persistence.dfy` appends, checkpoints
and opens. `fakeip_replay.dfy` tells what a sequence of records means without
replaying it. `fakeip_protocol.dfy` is a transition system in which every
lock-protected section and every durable effect is one step and a crash may fall
between any two; `fakeip_safety.dfy` states what holds over every run of it.
`fakeip_exposure.dfy` says exactly which answers a run leaves unprotected and when
such an answer can lose its address, and `fakeip_shared_address.dfy` is a run in
which two live answers share one. `fakeip_service.dfy` shows that the calls
GetOrAllocate, Flush and OpenPersistence of the objects are runs of that system.
`fakeip_faults.dfy` says exactly what goes wrong when an assumption is dropped.

**Live reload.** `data_plane.dfy`: flows that take a generation without a lock,
against commit, prune and stats under a mutex, with every load, store and counter
update one step of an arbitrary interleaving, also those of copy goroutines that
outlive their flow.

**Reload protocol.** `privsep.dfy`: supervisor and worker over FIFO channels, with
waits that may be abandoned, replies that come late, and workers that exit. `control.dfy`: the
idempotent request cache, its eviction, and the client that retries under one ID.

**Flow policy.** `rules.dfy`, `fallbacks.dfy`, `session.dfy`: first-match rules with
deferred address prefixes, the three-colour search over fallbacks, and resolving
and dialling with arbitrary resolvers and dialers that see the whole history.

**Host changes.** `host_state.dfy`: routes and DNS settings, with the state file.
Every host operation requires and keeps the fact that whatever is outstanding is
on file, so verification of the callers is the proof for every crash point.

**Smaller members.** `app_error.dfy` (bounded error reports), `dns_cache.dfy`
(CNAME chains and TTLs), `udp_limiter.dfy`, `domain_name.dfy`, `address_space.dfy`
(prefix arithmetic on bytes).

## Assumptions of the Fake IP protocol

The clock is monotone; of the configuration only dns_ttl changes, by a reload at
any time and also while the process is down; epochs are fresh; a failed append is
truncated; an allocation gets no error for an effect that is already durable; and
its write takes less than mapping_ttl. A crash may come at any time, a start may
begin on a blank disk and may fail anywhere, and a flush may fail at any point
except that its rename reports an error only if it had no effect.

## Results about the code

An answer is protected until its own TTL has passed, over every run, unless one of
three steps exposes it. For each of them the exact condition is proved, together
with a run in which an exposed answer loses its address:

- A restart after dns_ttl was lowered. Renewals are not journaled
  (`internal/fakeip/pool.go:149-154`), and the protection window of a start is the
  dns_ttl of that moment (`internal/app/service_worker_darwin.go:108`), although a reload
  may change it (`:326`). A live answer is honoured exactly if it ends by the later of
  its stored expiry and now plus dns_ttl: `FakeIPExposure.RestartBreaksIff`. A run of
  fourteen steps ends with two live answers for different domains and one address:
  `FakeIPSharedAddress.LoweredTTLSharesAddress`. While dns_ttl is only raised this cannot
  happen: `FakeIPExposure.RaisingIsSafe`.
- A write that ends less than dns_ttl before mapping_ttl has passed; an answer counts
  from its return and its mapping from before the write: `FakeIPExposure.SlowWriteBreaksIff`.
- A start that stops, by a crash or because its checkpoint fails, after a torn journal
  was moved aside (`internal/fakeip/persistence.go:90` to `:128`). Lost is exactly what an
  active record wrote, no later one touched, and the snapshot does not have:
  `FakeIPFaults.OpeningLosesIff`, `FakeIPExposure.OpeningCrashBreaksIff`,
  `FakeIPFaults.OpeningLosesAllocation`.

A run exposes no answer if and only if all three conditions are met throughout:
`FakeIPExposure.NothingExposedIff`. Other results:

- An allocation that is durable but reported as failed (`internal/fakeip/persistence.go:231`,
  `:235`, `:254`) makes the next start reject the whole journal exactly if some later
  record, before one displaces the lost mapping, leaves no room for it:
  `FakeIPFaults.LateAppendIsSafeIff`, `FakeIPFaults.LateSnapshotIsSafeIff`,
  `FakeIPFaults.LateAppendLosesJournal`.
- A snapshot rename that is durable but reported as failed (`internal/fakeip/persistence.go:298`)
  leaves the old epoch in memory, and every append until the next checkpoint is
  silently skipped on replay: `FakeIPFaults.LateRenameLosesAppends`.
- A failed append whose truncation fails too (`internal/fakeip/persistence.go:210-213` ignores
  that error) makes every later append unreadable: `FakeIPJournal.AppendsAfterTornTail`.
- A UDP copy goroutine that outlives its flow (`internal/session/udp.go:397-407`) may count a
  datagram on a generation that was already folded. Totals are short by exactly the
  number of such counts: `DataPlane.FoldedGenerationsAreQuiet`, `DataPlane.LateCountIsLost`.
- A retry after its record has expired runs the reload handler again:
  `Control.ExecutesIff`, `Control.ExpiredRetryRunsAgain`.
- The session API allows a second commit after an abandoned wait, and a worker
  survives no second commit: `PrivSep.WorkerSurvivesIff`. The supervisor commits once.

## Model

| member | source | states |
|---|---|---|
| `FakeIPSafety.AnswersAreSafe` | internal/fakeip/pool.go:135-262 | After any run of allocations, renewals, reloads of dns_ttl, expiries, writes, crashes and restarts, and until its own TTL has passed, an answer that no step has exposed is safe: its address is not allocated again, its domain gets no other address, and the address resolves only to the answered domain. |
| `FakeIPSafety.LiveAnswersAgree` | internal/fakeip/pool.go:147-212 | Over every run, answers that are neither expired nor exposed pair domains and addresses one to one, also while the process is down. |
| `FakeIPSafety.CrashLosesNothing` | internal/fakeip/persistence.go:187-258 | A crash at any point of any run while serving, tearing an append or not: the next start, whatever its protection window, accepts the disk whole under the snapshot's epoch, every mapping not still being written returns with its address, and anything else that returns was a tombstone or was being written. |
| `FakeIPSafety.HeldMappingsStay` | internal/fakeip/pool.go:455-474 | No step except a crash removes or moves a mapping that a flow holds and that is not still being written, and only a release lowers its count. |
| `FakeIPSafety.StepKeeps` | internal/fakeip/pool.go:135-474 | Every lock-protected section, durable effect, crash and restart keeps the invariant that relates table, tombstones, disk and answers. |
| `FakeIPSafety.RunKeeps` | internal/fakeip/persistence.go:50-134 | The invariant holds in every state that any run reaches from a blank disk or an empty checkpoint. |
| `FakeIPSafety.BeginIsAStep` | internal/fakeip/pool.go:147-199 | Each way the first section of GetOrAllocate can end is a step of the protocol with the same resulting state. |
| `FakeIPExposure.NothingExposedIff` | internal/fakeip/persistence.go:50-134 | A run exposes no answer if and only if every restart finds each live answer to end by its stored expiry or within the protection window, every write ends its answer's TTL before the mapping expires, and every crash while opening finds each live answer in the snapshot. |
| `FakeIPExposure.RaisingIsSafe` | internal/fakedns/server.go:234-263 | If dns_ttl is never lowered, writes end in time and opening does not crash, no run exposes an answer. |
| `FakeIPExposure.BreaksIff` | internal/fakeip/pool.go:455-474 | While the service is up, from any moment between two writes, a live answer can lose its address if and only if its mapping ends before it: then flows end, time passes and a prune frees the address, and otherwise no run without crash or start unmaps it. |
| `FakeIPExposure.SlowWriteBreaksIff` | internal/fakeip/pool.go:157-212 | The answer that ends a write can lose its address if and only if less than its TTL was left of mapping_ttl when the write ended. |
| `FakeIPExposure.RestartBreaksIff` | internal/fakeip/pool.go:411-414 | After a restart with any dns_ttl, a live answer is exposed, and can lose its address, if and only if it outlives both its stored expiry and now plus dns_ttl. |
| `FakeIPExposure.OpeningCrashBreaksIff` | internal/fakeip/persistence.go:84-131 | After a crash while opening, the next start has lost the address of a live answer if and only if the snapshot alone does not have its mapping. |
| `FakeIPExposure.CoveredStays` | internal/fakeip/pool.go:135-474 | No step of a running service removes, moves or shortens a written mapping below a live answer that it covers. |
| `FakeIPSharedAddress.LoweredTTLSharesAddress` | internal/fakeip/pool.go:149-154 | A run from a machine that never answered anything, with one reload and one crash, in which two live answers give one address to two domains. |
| `FakeIPService.GetOrAllocate` | internal/fakeip/pool.go:135-217 | The whole call on pool, journal and snapshot is a run of the protocol, whether its file operations succeed or fail without effect, and the address it returns is an answer of that run with the TTL of its query. |
| `FakeIPService.Write` | internal/fakeip/persistence.go:187-258 | Appending or checkpointing inside an allocation is a run that ends written, or, if it failed without effect, one that ends with the mapping taken out again. |
| `FakeIPService.Flush` | internal/fakeip/pool.go:427-453 | Flushing is a run of the protocol, also when removing the journal fails after the rename; success means the journal is gone and exactly the carried tombstones are retired, and a failure leaves the pool as it was. |
| `FakeIPService.Open` | internal/fakeip/persistence.go:50-134 | Opening after any run or on a blank disk, however its file operations end, is a run of the protocol: one that ends with the service up, or one that ends down with exactly the disk that the failed start left. |
| `FakeIPProtocol.DropServes` | internal/fakeip/pool.go:455-469 | Expired mappings may be dropped at any time, also while a write is in progress, without losing an answer or a tombstone. |
| `FakeIPProtocol.StartServes` | internal/fakeip/pool.go:155-199 | Starting an allocation on a free address keeps every live answer and leaves room for its record on disk. |
| `FakeIPProtocol.RecordFits` | internal/fakeip/pool.go:348-394 | The record of an allocation in progress passes the limit, range and domain checks of replay, removes exactly its tombstones and adds exactly its mapping. |
| `FakeIPProtocol.AppendServes` | internal/fakeip/persistence.go:205-239 | Once the record is appended the disk means the table plus tombstones not yet retired. |
| `FakeIPProtocol.FailServes` | internal/fakeip/pool.go:199-206 | A write that failed and was undone leaves the disk's meaning, and the mapping can be taken out without a tombstone; a flush may fail at any point. |
| `FakeIPProtocol.SwitchServes` | internal/fakeip/persistence.go:242-258 | A renamed snapshot under a fresh epoch is the whole durable state at once, with the old journal still there. |
| `FakeIPProtocol.ClearServes` | internal/fakeip/persistence.go:304-317 | Removing a journal that holds only older epochs changes nothing durable. |
| `FakeIPProtocol.FinishServes` | internal/fakeip/pool.go:207-212 | Retiring the carried tombstones forgets none that the disk still needs, and the new answer is covered by its mapping or exposed. |
| `FakeIPProtocol.FlushServes` | internal/fakeip/pool.go:427-443 | Starting a flush keeps the invariant. |
| `FakeIPProtocol.CrashKeeps` | internal/fakeip/persistence.go:205-226 | A crash while serving, with or without a torn tail, leaves every live answer stored; one while opening exposes exactly the answers that only the moved journal had stored. |
| `FakeIPProtocol.RestartKeeps` | internal/fakeip/persistence.go:63-134 | What is restored honours every live answer except those it exposes because they outlive stored expiry and protection window; a blank disk opens as an empty table. |
| `FakeIPProtocol.CompactServes` | internal/fakeip/persistence.go:127-131 | The checkpoint after a torn journal makes the restored table durable again. |
| `FakeIPFaults.SlowWriteForgetsTombstone` | internal/fakeip/pool.go:207-210 | If the mapping expired during its own write, and only then, pruning and finishing leave it stored with neither mapping nor tombstone in memory. |
| `FakeIPReplay.ReplayHas` | internal/fakeip/pool.go:348-394 | A mapping is recovered if and only if the last record that touches its domain or its address wrote it, or none touches them and it was there before. |
| `FakeIPReplay.StrayReplayIff` | internal/fakeip/pool.go:384-391 | A table with one mapping too many replays a journal that the table without it replays if and only if every record, as long as none has displaced the extra mapping, leaves room for one more. |
| `FakeIPFaults.StepGrows` | internal/fakeip/pool.go:176-210 | Until its next checkpoint the service only appends records of the epoch in memory, and the first of them retires every tombstone that was pending. |
| `FakeIPFaults.LateAppendIsSafeIff` | internal/fakeip/persistence.go:230-239 | After an append reported as failed although durable, and for every run up to the next checkpoint, the journal is accepted if and only if no later record fills the table before one displaces the lost mapping; otherwise the next start yields the snapshot alone. |
| `FakeIPFaults.LateSnapshotIsSafeIff` | internal/fakeip/persistence.go:248-256 | After the checkpoint of an allocation whose journal removal failed, the same condition on the later records decides whether they are accepted. |
| `FakeIPFaults.LateAppendLosesJournal` | internal/fakeip/pool.go:384-386 | A concrete pair of records with room for one mapping: the first is stored although reported as failed, and replay rejects the journal at the second. |
| `FakeIPFaults.AcceptedIff` | internal/fakeip/pool.go:359-389 | A record with canonical names, a usable address and an expiry is rejected only for the mapping limit. |
| `FakeIPFaults.LateRenameLosesAppends` | internal/fakeip/persistence.go:242-258 | After a rename that is durable but reported as failed, and for every run up to the next checkpoint, the next start yields exactly the renamed snapshot: no record appended since has any effect. |
| `FakeIPFaults.OpeningLosesIff` | internal/fakeip/persistence.go:84-131 | If a start stops after moving the journal aside, the next one recovers every mapping if and only if the snapshot has what each active record wrote that no later one touches; nothing is lost without active records, and the last active mapping is lost exactly if the snapshot does not have it. |
| `FakeIPFaults.FailedCheckpointIsACrash` | internal/fakeip/persistence.go:127-131 | A checkpoint that fails while opening leaves the same disk as a crash before it. |
| `FakeIPFaults.OpeningLosesAllocation` | internal/fakeip/persistence.go:84-131 | A disk whose only acknowledged allocation is recovered by one start and gone after a start that stopped in between. |
| `FakeIPJournal.ReadJournal` | internal/fakeip/persistence.go:367-426 | Reading equals decoding the complete lines up to the first malformed one, and reports a tail or a malformed line. |
| `FakeIPJournal.TornJournalKeepsRecords` | internal/fakeip/persistence.go:388-425 | A journal cut off inside its last append yields every record before it, and the cut is reported if and only if there is one. |
| `FakeIPJournal.AppendsAfterTornTail` | internal/fakeip/persistence.go:210-233 | If a torn tail stays in place, every record before it is read and every record appended after it is not. |
| `FakeIPJournal.ActiveJournalRecords` | internal/fakeip/persistence.go:451-490 | The loop computes the active records and the epoch to go on with, or the same rejection. |
| `FakeIPJournal.OnlyTheSnapshotEpoch` | internal/fakeip/persistence.go:463-486 | With a snapshot that names its epoch, exactly the records of that epoch are replayed, in order, and no mixture of epochs is an error. |
| `FakeIPJournal.RecoveryIsDurable` | internal/fakeip/persistence.go:63-134 | A disk of this code's making is accepted whole and recovers exactly its durable table, with expiries raised to the protection window. |
| `FakeIPJournal.FlooredRecover` | internal/fakeip/pool.go:411-414 | Whatever is on disk, the protection window changes neither what is accepted nor which domains and addresses come back. |
| `FakeIPJournal.AppendedIsDurable` | internal/fakeip/persistence.go:187-240 | Appending a record of the current epoch applies its update to the durable table. |
| `FakeIPJournal.SnapshotIsDurable` | internal/fakeip/persistence.go:242-302 | A snapshot under a fresh epoch replaces the durable table, with or without the old journal. |
| `FakeIPPersistence.AcceptedIffWellFormed` | internal/fakeip/persistence.go:63-131 | For a snapshot that names its epoch, opening accepts a disk whole if and only if it is one that this code's own writes could have left. |
| `FakeIPPersistence.Persistence.AppendRecord` | internal/fakeip/persistence.go:198-239 | For each way an append can end, also with a truncation that fails and on top of a torn tail: what is on disk, and that only a complete append reports success. |
| `FakeIPPersistence.Persistence.Checkpoint` | internal/fakeip/persistence.go:242-258 | For each way the rename and the removal can end: the disk, the epoch in memory, and that memory and disk agree on the epoch unless the rename reported an error after taking effect. |
| `FakeIPPersistence.Persistence.Record` | internal/fakeip/persistence.go:187-240 | Success means the update, or the whole pool, is durable; a failure at the first operation changes nothing durable. |
| `FakeIPPersistence.Persistence.OpenSnapshot` | internal/fakeip/persistence.go:63-83 | The pool holds the snapshot, or the snapshot was moved aside and the pool is empty. |
| `FakeIPPersistence.Persistence.OpenJournal` | internal/fakeip/persistence.go:84-126 | The pool holds the snapshot with the journal replayed, or the journal was moved aside and the pool is unchanged. |
| `FakeIPPersistence.Persistence.Prepare` | internal/fakeip/persistence.go:63-126 | For every disk, up to the checkpoint: whether opening goes on, what was moved aside, what the pool holds, and which epoch comes next. |
| `FakeIPPersistence.Persistence.Open` | internal/fakeip/persistence.go:50-134 | For every disk and every outcome of its file operations: whether opening succeeds and what is on disk afterwards; on success the pool holds what the disk meant, journaling is on, and opening the disk again, with any protection window, accepts it whole and yields the pool's domains and addresses. |
| `FakeIPTable.RestoreIsValid` | internal/fakeip/pool.go:310-346 | Whatever a snapshot holds, a restored table pairs domains and addresses one to one inside the range and limit. |
| `FakeIPTable.ReplayIsValid` | internal/fakeip/pool.go:348-394 | Whatever a journal holds, a replayed table pairs domains and addresses one to one inside the range and limit. |
| `FakeIPTable.RestoreOfSnapshot` | internal/fakeip/pool.go:297-346 | Restoring a snapshot gives back the table it was taken from. |
| `FakeIPTable.FlooredReplay` | internal/fakeip/pool.go:411-415 | The protection window changes neither which journals are accepted nor which domains and addresses they yield. |
| `FakeIPTable.CleanUpdate` | internal/fakeip/pool.go:358-391 | If the tombstones leave room and nobody else holds the domain or address, a record adds exactly its mapping. |
| `FakeIPPool.ScanFindsFree` | internal/fakeip/pool.go:155-167 | One more cyclic candidate than there are occupied addresses always includes a free one, across the wrap-around. |
| `FakeIPPool.Pool.constructor` | internal/fakeip/pool.go:116-129 | A new pool is empty, valid and starts at its first address. |
| `FakeIPPool.Pool.Scan` | internal/fakeip/pool.go:158-170 | The bounded scan returns the first free candidate, leaves the cursor after it, and its fall-through is unreachable below the limit. |
| `FakeIPPool.Pool.BeginAllocate` | internal/fakeip/pool.go:135-199 | The first section renews an existing mapping, or prunes and then reports exhaustion exactly at the limit, or maps the first free address and lists exactly the pending tombstones. |
| `FakeIPPool.Pool.FinishAllocate` | internal/fakeip/pool.go:199-212 | The second section retires the carried tombstones, or takes out exactly its own entry if that is still there. |
| `FakeIPPool.Pool.FinishFlush` | internal/fakeip/pool.go:447-452 | Retires exactly the carried tombstones. |
| `FakeIPPool.Pool.Lookup` | internal/fakeip/pool.go:219-231 | The domain of the address unless stale, in which case the mapping is dropped; no other change. |
| `FakeIPPool.Pool.Acquire` | internal/fakeip/pool.go:235-262 | A handle on the address's mapping with its count one higher, or a dropped stale mapping, or nothing. |
| `FakeIPPool.Pool.Release` | internal/fakeip/pool.go:250-260 | The first release of a handle lowers its entry's count by exactly one, a second does nothing; counts equal unreleased handles. |
| `FakeIPPool.Pool.Prune` | internal/fakeip/pool.go:264-270 | Drops exactly the expired mappings that no flow holds, in any visiting order, and returns how many. |
| `FakeIPPool.Pool.Delete` | internal/fakeip/pool.go:464-469 | A deletion from a journaled pool leaves a tombstone. |
| `FakeIPPool.Pool.TakeSnapshot` | internal/fakeip/pool.go:297-308 | The list holds every mapping exactly once. |
| `FakeIPPool.Pool.Restore` | internal/fakeip/pool.go:310-346 | Installs the snapshot's table, or leaves the pool as it was. |
| `FakeIPPool.Pool.RestoreJournal` | internal/fakeip/pool.go:348-394 | Installs the replayed table, or leaves the pool as it was. |
| `FakeIPPool.Pool.Attach` | internal/fakeip/pool.go:418-425 | From then on deletions leave tombstones; nothing else changes. |
| `DomainName.NormalizeIsIdempotent` | internal/domainname/domain.go:16-35 | The output of Normalize is a fixed point of Normalize. |
| `DomainName.SpellingsAgree` | internal/domainname/domain.go:16-35 | Letter case and one trailing dot never make two domains out of one. |
| `DomainName.SuffixMatchesWholeLabels` | internal/domainname/domain.go:52-57 | A suffix pattern selects exactly the domains that end in its labels. |
| `DomainName.PatternsRoundTrip` | internal/domainname/domain.go:37-50 | A parsed pattern has a canonical domain, and writing it out and parsing it again gives the same pattern. |
| `AddressSpace.SetHostBits` | internal/fakeip/pool.go:503-507 | Setting bits in place keeps the prefix and makes every later bit one. |
| `AddressSpace.LastAddress` | internal/fakeip/pool.go:492-507 | For a masked prefix, the last address is the base plus two to the number of host bits, minus one. |
| `AddressSpace.CapacityIsRangeLength` | internal/fakeip/pool.go:476-490 | The capacity is the length of the range for at most 64 host bits and a lower bound above, without overflow of 64 bits. |
| `AddressSpace.NewPoolRange` | internal/fakeip/pool.go:91-130 | An accepted pool has a non-empty range that holds its limit. |
| `AddressSpace.CompiledPoolsExist` | internal/config/config.go:454-489 | Every IPv4 prefix and limit that the configuration accepts is accepted by the pool, and its mapping TTL exceeds its DNS TTL. |
| `AddressSpace.CompiledIPv6PoolExists` | internal/config/config.go:513-547 | Every IPv6 prefix and limit that the configuration accepts is accepted by the pool. |
| `DataPlane.FoldedGenerationsAreQuiet` | internal/app/dataplane_darwin.go:91-149 | In every interleaving no flow runs on a generation whose counters were folded, and base plus unfolded generations fall short of the total over all generations ever installed by exactly the number of late counts on folded generations; they equal it if and only if there was none. |
| `DataPlane.LateCountIsLost` | internal/session/udp.go:341-407 | A run in which a copy goroutine outlives its flow and counts a datagram that no total includes. |
| `DataPlane.StatsNeverGoBackwards` | internal/app/dataplane_darwin.go:124-135 | In every interleaving results of stats never decrease and never exceed what was counted and not lost. |
| `DataPlane.StatsEndKeeps` | internal/app/dataplane_darwin.go:124-135 | A result lies between what was counted and not lost when stats took the mutex and when it ends. |
| `DataPlane.StepKeeps` | internal/app/dataplane_darwin.go:91-149 | Every atomic step of acquire, flow, commit, prune and stats keeps the invariant. |
| `DataPlane.CheckRefsKeeps` | internal/app/dataplane_darwin.go:137-149 | A retired generation seen without references never gets a running flow again, although its count may still be raised. |
| `DataPlane.PruneInPlace` | internal/app/dataplane_darwin.go:137-149 | Filtering in the same array keeps exactly the held generations in order, and base plus kept counters are conserved. |
| `PrivSep.RepliesAreNotConfused` | internal/privsep/supervisor.go:142-349 | Over any number of reloads and then at most one shutdown, with any wait abandoned, any reply late and any exit of the worker: a reload succeeds only if the worker applied its payload under its ID, a shutdown succeeds only if the worker is gone, and kind, ID and digest mismatches do not occur. |
| `PrivSep.AwaitIsARun` | internal/privsep/supervisor.go:261-345 | What the session computes for a wait from the queued replies and the way it ends is the outcome that the protocol gives the call. |
| `PrivSep.StepKeeps` | internal/privsep/supervisor.go:261-300 | Calls, replies, abandoned waits and worker steps keep every queued reply tied to the call whose ID it carries. |
| `PrivSep.SupervisorSession.NextRequest` | internal/privsep/supervisor.go:248-259 | IDs increase by one; the wrap to zero is refused. |
| `PrivSep.SupervisorSession.Await` | internal/privsep/supervisor.go:261-300 | The first reply that is not a stale reload result decides, and the rest stays queued. |
| `PrivSep.FreshIsSuffix` | internal/privsep/supervisor.go:347-349 | Skipping removes only stale reload results, from the front. |
| `PrivSep.SupervisorSession.Reload` | internal/privsep/supervisor.go:142-179 | The exact outcome for every session state, queue and end of the wait. |
| `PrivSep.SupervisorSession.Shutdown` | internal/privsep/supervisor.go:181-219 | The exact outcome for every session state, queue and end of the wait, and that the session closes exactly when a reply was accepted or the worker exited cleanly. |
| `PrivSep.SupervisorSession.Bootstrap` | internal/privsep/supervisor.go:64-105 | Can be sent once, and succeeds exactly if the first reply names the expected worker. |
| `PrivSep.SupervisorSession.Commit` | internal/privsep/supervisor.go:107-140 | Succeeds exactly if the first reply is a running report with this digest. |
| `PrivSep.ServeWorker` | internal/privsep/session.go:96-163 | The command loop answers each command in order and stops after a shutdown or a command it does not accept. |
| `PrivSep.WorkerSurvivesIff` | internal/privsep/session.go:82-158 | A prepared worker survives a sequence of commands if and only if it is empty or the first is a commit that succeeds and all others are reloads with an ID. |
| `Control.ResponsesAreIdempotent` | internal/control/server_darwin.go:161-229 | In every interleaving: at most 64 records, each belonging to one execution of its own request and done exactly when that is; every final response reports a finished execution of the same ID and identity, and responses for one execution are equal. |
| `Control.ExecutionsNeverOverlap` | internal/control/server_darwin.go:161-229 | In every interleaving two unfinished executions have different IDs, each is the record in flight under its ID, and there are at most 64. |
| `Control.InFlightStays` | internal/control/server_darwin.go:161-283 | No step evicts a reload in flight; a repeated ID sees it running, a conflicting one is refused, and neither runs the handler. |
| `Control.ExecutesIff` | internal/control/server_darwin.go:161-199 | An arrival runs the handler if and only if its ID is not cached or has expired and fewer than 64 reloads are in flight. |
| `Control.SuccessMeansExecuted` | cmd/tun-proxy/service.go:486-498 | The client reports success only if the handler ran for its request and returned exactly the expected digest. |
| `Control.ExpiredRetryRunsAgain` | internal/control/server_darwin.go:247-257 | A run in which a retry after expiry executes the handler a second time. |
| `Control.Server.Begin` | internal/control/server_darwin.go:161-199 | The first section: expired records go, a cached ID is answered, otherwise room is made or the cache is full. |
| `Control.Server.Trim` | internal/control/server_darwin.go:259-283 | Evicts only completed records, oldest first, and no more than necessary. |
| `Control.Server.PruneExpired` | internal/control/server_darwin.go:247-257 | Drops exactly the completed records older than ten minutes. |
| `Control.Server.Complete` | internal/control/server_darwin.go:207-229 | Records the final response, which is a failure when the digest is malformed. |
| `Control.RequestServiceReload` | cmd/tun-proxy/service.go:473-523 | The loop stops at the first conclusive attempt and reports success exactly for the expected digest. |
| `Fallbacks.ValidateFallbacks` | internal/session/tcp.go:264-293 | Whatever the visiting order, the search accepts a fallback map if and only if it is closed and acyclic. |
| `Fallbacks.ValidateConfig` | internal/config/config.go:673-715 | The configuration compiler accepts the same maps. |
| `Fallbacks.Visit` | internal/session/tcp.go:266-286 | A visit fails only for a map that is not closed or not acyclic; otherwise the chain it follows ends. |
| `Fallbacks.ValidIffChainsEnd` | internal/session/tcp.go:264-293 | A map is closed and acyclic if and only if every chain ends within the number of outbounds. |
| `Fallbacks.VisitsOnce` | internal/session/decision.go:101-128 | In an accepted map a chain visits every outbound at most once. |
| `Rules.WinnerIsACandidate` | internal/rules/engine.go:95-116 | Whatever a name resolves to, the rule that wins is one of the candidates and not after the conclusive one. |
| `Rules.WinnerOfUnion` | internal/rules/engine.go:118-147 | The winner for a union of answers is the earlier of the two winners. |
| `Rules.RealAddressesLoseNothing` | internal/rules/engine.go:69-93 | If no rule selects a name, the decision with the name equals the decision for the bare addresses, for all addresses. |
| `Rules.New` | internal/rules/engine.go:40-59 | Rules are accepted if and only if the last one is a default, and keep their order. |
| `Rules.Candidates` | internal/rules/engine.go:100-116 | Exactly the rules that match without addresses, in order, up to the first conclusive one. |
| `Rules.MatchResolved` | internal/rules/engine.go:121-147 | The first rule that applies to the addresses; the missing-default error is unreachable. |
| `Rules.RequiresFakeIP` | internal/rules/engine.go:73-93 | True if and only if the name is a domain and some rule selects it by domain or suffix. |
| `Session.Handle` | internal/session/tcp.go:141-176 | For every resolver and dialer: each dialled address is the literal one or came from that same outbound's resolver, the connected outbound is on the fallback chain of the decided rule's outbound, and the decision is first-match. |
| `Session.DecideByName` | internal/session/decision.go:37-91 | The decision comes from the first answer, or without one when every candidate rejects; a prepared answer was resolved along the chain of the decided outbound. |
| `Session.Choose` | internal/session/decision.go:37-67 | The conclusive decision, and an outbound to resolve through unless, and exactly unless, every candidate rejects; fails only for names that are not domains or outbounds that are not configured. |
| `Session.Decide` | internal/session/decision.go:69-91 | Matches the first answer, keeps it if the decided outbound may use it, and otherwise resolves again through the decided outbound; succeeds whenever every lookup is answered. |
| `Session.SkippingIsSafe` | internal/session/decision.go:49-67 | When all candidates reject, every possible set of addresses leads to a rejection. |
| `Session.ResolutionCandidate` | internal/session/decision.go:41-67 | The conclusive candidate, or the first one that does not reject, or none exactly if all reject. |
| `Session.ResolveForDecision` | internal/session/decision.go:93-128 | Asks along the chain, each outbound once, and goes on only after a recoverable failure; the outcome is determined by what was asked. |
| `Session.AskedOnce` | internal/session/decision.go:101-128 | No outbound is asked twice in one resolution. |
| `Session.ConnectPrepared` | internal/session/tcp.go:198-255 | The attempts follow the chain, at most one per outbound, fall back only when nothing failed for good, and determine the outcome. |
| `Session.TryAll` | internal/session/tcp.go:234-246 | Tries addresses in order until one connects, and reports whether all failures were recoverable. |
| `Session.TryOutbound` | internal/session/udp.go:247-283 | One outbound of the chain: own addresses only, then dials, and whether the next one may be tried. |
| `UDPLimiter.Limiter.Register` | internal/session/udp.go:294-309 | Admits a session exactly if it is new and both limits leave room; counters stay the exact sizes of the sources' sessions. |
| `UDPLimiter.Limiter.Unregister` | internal/session/udp.go:315-326 | Frees exactly one place and leaves no zero counter. |
| `HostState.Supervisor.InstallRoute` | internal/app/service_supervisor_darwin.go:623-636 | The route is on file before it is on the host, at every crash point. |
| `HostState.Supervisor.InstallServiceRoutes` | internal/app/service_supervisor_darwin.go:622-649 | Adds only planned routes, all of them on success, and everything owned stays on file. |
| `HostState.Supervisor.ManageDNS` | internal/app/service_supervisor_darwin.go:299-316 | The complete plan is on file before the first service changes, and only planned services change. |
| `HostState.Supervisor.ApplyDNS` | internal/system/dns_darwin.go:48-61 | After any prefix, each service has its own servers or ours. |
| `HostState.Plan` | internal/system/dns_darwin.go:65-79 | The loop computes the plan or the same refusal. |
| `HostState.PlanSucceedsIff` | internal/system/dns_darwin.go:65-79 | Planning succeeds if and only if no service already uses the replacement. |
| `HostState.PlanTwice` | internal/system/dns_darwin.go:48-79 | Planning a plan again changes nothing, so what is applied is what was recorded. |
| `HostState.Supervisor.RestoreDNS` | internal/system/dns_darwin.go:83-106 | Puts back only what still carries our servers, keeps on record whatever it could not, and reports success exactly when nothing remains. |
| `HostState.RestoringUndoesApplying` | internal/system/dns_darwin.go:48-106 | After any part of a plan was applied, a complete restoration leaves every service as it was and nothing on record. |
| `HostState.Supervisor.RemoveRecordedRoutes` | internal/app/routes_darwin.go:16-41 | Tries every route in exact reverse order, then the first one; what stays on record is exactly what failed, in original order. |
| `HostState.KeptIsExact` | internal/app/routes_darwin.go:18-28 | Every route whose removal failed stays on record. |
| `HostState.Supervisor.FinishHost` | internal/app/service_supervisor_darwin.go:145-188 | Host changes are undone first; success means nothing is left on record. |
| `HostState.Supervisor.FinishWorker` | internal/app/service_supervisor_darwin.go:189-236 | Stopping the worker touches no route and no DNS setting, and the state file goes only if every step succeeded and nothing is outstanding. |
| `HostState.Cleanup` | internal/app/cleanup_darwin.go:35-107 | From whatever a crash left: nothing is touched while the owner may live, the file goes only when nothing is outstanding, and cleanup succeeds when every operation does and no service was changed by others. |
| `HostState.Host.AddRoute` | internal/system/route_darwin.go:152-162 | A route can be added only while it is on file. |
| `HostState.Host.RemoveRoute` | internal/system/route_darwin.go:189-230 | Success means the route is no longer there, and a failure may or may not have removed it. |
| `HostState.Host.WriteState` | internal/system/state.go:59-111 | The file is the old or the new record, and covers what is outstanding either way. |
| `HostState.Host.RemoveState` | internal/system/state.go:152-164 | Only possible when nothing is outstanding. |
| `AppError.ReportsAreValid` | internal/apperror/envelope.go:34-91 | For every constructed error tree the report has at most 32 nodes and depth 8 and passes validation. |
| `AppError.ReportsRoundTrip` | internal/apperror/envelope.go:34-111 | Reporting, rebuilding and reporting again gives the same report, truncated or not. |
| `AppError.RoundTripIff` | internal/apperror/envelope.go:93-140 | For every valid report the round trip is exact if and only if its eighth level holds only the placeholder. |
| `AppError.ValidIff` | internal/apperror/envelope.go:113-140 | Validation with one running counter accepts exactly the reports whose nodes are all well formed, at most 8 deep and at most 32. |
| `AppError.CauseInfos` | internal/apperror/envelope.go:76-91 | The loop reports causes in order until the shared budget is spent. |
| `AppError.DetailsAreKept` | internal/apperror/error.go:128-143 | Details that keep their number under sanitizing are unchanged by it. |
| `DNSCache.AnswerTarget` | internal/resolver/lookup.go:147-191 | Succeeds if and only if the chain from the name has no loop and no conflict; then it yields the end of the chain and the smallest TTL of all its CNAME records. |
| `DNSCache.CollectMeans` | internal/resolver/lookup.go:148-170 | Each owner's entry has the smallest TTL of its records and is in conflict exactly if two of them disagree. |
| `DNSCache.CollectAddresses` | internal/resolver/lookup.go:67-84 | The distinct addresses at the target in order, and the smallest TTL of chain and target. |
| `DNSCache.AddressesAreExact` | internal/resolver/lookup.go:67-84 | An address is listed if and only if a record at the target carries it, and each once. |
| `DNSCache.Client.Lookup` | internal/resolver/lookup.go:44-92 | A cached answer while it lives, otherwise the addresses at the end of the reply's chain. |
| `DNSCache.Client.Resolve` | internal/resolver/lookup.go:63-91 | Fails exactly for a bad chain or no addresses; what is cached expires with the first record behind it. |
| `DNSCache.Client.Cached` | internal/resolver/lookup.go:204-217 | A cached answer is returned only while every record behind it lives. |
| `DNSCache.Client.Store` | internal/resolver/lookup.go:219-239 | At most 1024 entries; a full cache first drops the one that expires first. |

## Left out

- FakeIPJournal.RecoveryIsDurable: the two clock readings of one OpenPersistence are taken as one instant.
- FakeIPService.GetOrAllocate: one call at a time; that other calls run between its sections is covered by the steps of the protocol, not by the objects.
- FakeIPService.Write: errors reported after the effect is durable, and a tail that cannot be truncated, are required away here; FakeIPFaults and FakeIPJournal.AppendsAfterTornTail say what they do.
- FakeIPService.Flush: a rename that reports an error after taking effect is required away here; FakeIPFaults.LateRenameLosesAppends says what it does.
- FakeIPPool.Pool.TakeSnapshot: the order of the list is not stated; the source sorts it by domain, and nothing depends on it.
- FakeIPPersistence.Persistence.Record: whether a record fits is a parameter, instead of the 4 KiB and 16 MiB limits; the first epoch and the fates of file operations are parameters too.
- FakeIPPersistence.Persistence.OpenSnapshot: a snapshot that cannot be decoded is treated like one of another version.
- Snapshots written before epochs existed: opening covers them, the protocol does not start from one.
- DataPlane.StatsNeverGoBackwards: active-flow gauges, which go down, are not covered.
- PrivSep.RepliesAreNotConfused: stops at the last ID before the 64-bit counter wraps; payload validation and the order in which simultaneous events are noticed are outside.
- Control.ResponsesAreIdempotent: connections, frames and peer checks are outside; cached records are values keyed by ID instead of shared objects.
- Rules.Candidates: prefixes are address ranges, and rules keep their domains as sets.
- Session.ConnectPrepared: TCP and UDP share one model; for UDP a try includes sending the first datagram.
- HostState.Supervisor.RestoreDNS: nobody else changes DNS settings while it runs (changes before it are covered), and the exact clauses are for plans that name each service once.
- HostState.Supervisor.InstallServiceRoutes: the proof that captured default routes do not loop depends on the kernel's answers.
- AppError.ReportsRoundTrip: error messages are values; the 4 KiB limit on an encoded error is outside.
- DNSCache.AnswerTarget: names are already in canonical form.
- Sockets, the packet path, relays, launchd integration, configuration text and the command line are outside.
