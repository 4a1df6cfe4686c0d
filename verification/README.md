# Verified model of the stock research agent's stateful protocols

A Dafny model of the parts of the repository whose correctness rests on more than one body of
code: what each protocol keeps over every run, which fast or fallible form refines which simple
one, and where a promise holds exactly. `dafny verify dfyconfig.toml` checks it.

| file | what it models |
|---|---|
| basics.dfy | bytes and options, for all the other files |
| anchor_books.dfy | files and their numbers, directories, open descriptors, the log of one operation and what went wrong in it |
| posix_anchor.dfy | the POSIX anchor of the blob store: publication and removal of a pair of files, every system call fallible, other processes at work in the root directory |
| blob_format.dfy | blob URIs, caller metadata, the JSON sidecar and its size |
| blob_stores.dfy | the in-memory store as the reference and the local store on top of the anchor |
| deadline_handoff.dfy | callers with deadlines, the single worker thread and its closer, as a state machine |
| safe_http_get.dfy | the redirect, retry and deadline loop of `get` with its conditional-request cache |
| evidence_tables.dfy | snapshots, items, requests, runs, plans, steps, invocations and observations with their triggers, and the migrations 0011 and 0012 |
| section_forest.dfy | section parents with the deferred cycle check, and document versions |
| report_chain.dfy | report versions and the life cycle of report runs |
| sync_budget.dfy | budget ledger, pause, resume and cancel of synchronisation runs |
| rate_limit.dfy | in-process slots and the shared reservation log |
| circuit_breaker.dfy | the circuit breaker |
| response_bounds.dfy | the bounded reader and the structural bounds of JSON |
| record_sorting.dfy | the multi-pass sorts of documents and facts |
| endpoint_template.dfy | replacing the placeholders of a template one after the other |
| endpoint_path.dfy | percent-encoding, the checks and the path of an endpoint |

Conventions. A class stands for an object or a set of tables that the source updates in place;
its methods follow the branches of the source, and their contracts tie the new state to
specification functions about which the lemmas speak. Values that come from outside (clocks, key
factories, resolvers, servers, streams, failures of system calls) are parameters or arbitrary
choices. A system call that fails changes nothing. A file has its inode number to itself only while
it has a link or an open descriptor.

## What turned out not to hold

For each: a concrete case, and the exact condition.

- The local blob store compares the text of a URI with the one in the sidecar, the in-memory store
  does not: a stored blob named by another accepted spelling is read by one and refused by the
  other (`CapitalsDiffer`; the stores agree on a run exactly under the condition of `RunsAgree`).
- `write_pair` withdraws published names after it has closed the descriptors of the staged files. If
  such a file loses its last link in between, another process may be given its number, and the
  code then destroys a file that is not its own (`NumberReused`). It destroys only what it meant
  exactly when each file it meant still existed (`FindsMeantIff`, a clause of `WritePair`); all
  other removals hold a descriptor.
- A redirect whose response then fails to close does not start the count of tries anew: the call may
  give up on the new target with fewer requests to it than it may make, even none
  (`BrokenRedirect`; the tries are counted exactly since the last redirect that did not break off,
  `GivesUpAfterAllTries`).
- A failure in the middle of `delete_pair` may leave half an entry (`HalfEntry`); a half stays
  exactly when it was never moved or was put back (`Tracks`, a clause of `DeletePair`).
- The HTTP cache is keyed by the requested URL, but validators belong to the URL that answered: if
  a redirect moves on between two calls, a matching 304 returns a stale body (`StaleBody`; the body
  is right for certain exactly when the entry was stored from the URL that answers,
  `RightIffSameSource`, `CertainIffSameSource`). A cached validator with characters that the header check refuses makes
  every later call for that key fail before anything is sent (`RefusedByItsOwnCache`,
  `RefusedIff`).
- The worker may start an operation at or after its deadline, in the moment before the caller
  cancels it (`MayStartLate`; exactly when, `LateStartIff`). Its result is never returned
  (`LateIsNeverReturned`), and a request opened that late is the last of its call
  (`AlwaysBounded`).
- A resumed run that was never started has no start time, and each reservation on it fails with an
  error (`ResumeWithoutStart`, `ResumedIsUsableIff`; no other reservation of a created run does,
  `ReserveRaisesIff`). A caller of `transition` that leaves the counters to their defaults
  overwrites what was consumed (`CommandLineForgets`; the books balance exactly when no accepted
  transition does that, `ConservedIff`). Every reservation uses up
  an attempt, so a run gets at most three, whatever its maximum of requests (`AttemptsCapGrants`).
- A half-open circuit whose probe ends in a permanent failure admits no call any more
  (`Wedged`, `PermanentFailureWedges`; exactly when, `ProbeSettledIff`).
- The recursive query of the section check does not end for a new row that hangs below a cycle of
  the same batch (`HangingBatch`, `HangsInSomeOrderIff`); a batch still never commits with a cycle
  (`Commit`).
- The tables accept an observation of any as-of time (`LateObservation`,
  `ObservationTimeUnchecked`; observations stay in line with their runs exactly under the condition
  of `TimelyIff`).
- With braces beside placeholders the replacement loop may replace text that only came to look like
  a placeholder (`WrongPath`; never for any values exactly under the condition of
  `AgreesForAllIff`).

## Model

| member | source | states |
|---|---|---|
| PosixAnchor.Anchor.WritePair | src/stock_research_agent/infrastructure/blob_storage.py:984-1048 | Whatever other processes do to the root and whatever call fails: each error is told exactly by what went wrong last. Success means nothing did; "already exists" that one of the two final names or a temporary one was found taken; an irregular file "invalid URI"; a failed call, or a name gone before it was opened, "storage"; a failure in the clean-up, or an identity that could not be confirmed, "clean-up". Success means that this call opened each final name and it led to the very file the call had staged for it, and that only files of this call were destroyed. Every destruction is a withdrawal that meant a file of this call and found one with its number; nothing but what was meant is destroyed exactly when each file that was meant still existed at its withdrawal; the only withdrawals for which it may not have are those of the two final names. Everything moved is restored, destroyed or still in quarantine; exactly the descriptors that were open before are open afterwards. In a root that nobody else changes: "already exists" only if a final name or a temporary one was there, or names coincide; success means exactly the two new names with exactly the given bytes and an unchanged quarantine; any error but the clean-up error leaves root and quarantine as they were; names that existed keep their inodes. Without faults: "already exists" exactly when one of the names is taken. |
| AnchorBooks.FindsMeantIff | src/stock_research_agent/infrastructure/blob_storage.py:1480-1536 | On every log of withdrawals that compare numbers: the files found are the files meant exactly when each file meant still existed; then only files this call created were destroyed. |
| PosixAnchor.NumberReused | src/stock_research_agent/infrastructure/blob_storage.py:1028-1043 | A run in which a file of another process is destroyed: after the descriptors are closed it takes the place and the number of the published content, which is then withdrawn. |
| PosixAnchor.Anchor.DeletePair | src/stock_research_agent/infrastructure/blob_storage.py:1050-1127 | Whatever others do and whatever fails: success exactly when nothing went wrong but that one name was absent; "missing" exactly when both were absent and nothing else went wrong; otherwise the error of the last thing that did. Only files this call opened are destroyed, whatever numbers are reused, because their descriptors are held; and none before every half that was found has left the root; everything moved is accounted for. Undisturbed: success removes exactly the two names; an error other than the clean-up error changes nothing; after any failure a name that was there is there exactly when it was never moved or was put back. |
| PosixAnchor.HalfEntry | src/stock_research_agent/infrastructure/blob_storage.py:1105-1127 | A run after which one half is destroyed and the other is back: the close after the destruction reports a failure. |
| PosixAnchor.Anchor.ReadPair | src/stock_research_agent/infrastructure/blob_storage.py:954-982 | Each outcome exactly by what went wrong last: nothing (success), an absent name ("missing"), an irregular file, a file longer than its limit, a failed call. Both files within their limits and exactly as stored, nothing changed, descriptors balanced. |
| PosixAnchor.Anchor.PairExists | src/stock_research_agent/infrastructure/blob_storage.py:950-952 | Says of each half whether its name was absent, and fails exactly when a half is irregular or a call fails; changes nothing. Undisturbed, that is whether the names are in the root. |
| PosixAnchor.Anchor.CreateTemporary | src/stock_research_agent/infrastructure/blob_storage.py:1160-1186 | A new file with exactly the bytes under a free name, or no trace of it; a clean-up error is the only way to leave one. Giving it up destroys no other file, because its descriptor is held. |
| PosixAnchor.Anchor.Publish | src/stock_research_agent/infrastructure/blob_storage.py:1002-1021 | Links a staged file to its final name; success means that the name was opened and led to that file, also when other processes change the root; a link whose opening fails is taken back, and only that file can be destroyed then, because its descriptor is held. |
| PosixAnchor.Anchor.Verify | src/stock_research_agent/infrastructure/blob_storage.py:1008-1021 | Opening what was published: success only if it led to the staged file; a failed opening withdraws the name; each error told by what went wrong last. |
| PosixAnchor.Anchor.Confirm | src/stock_research_agent/infrastructure/blob_storage.py:1017-1021 | The comparison of identities and the close: "clean-up" for another file, "storage" when closing fails, which replaces it. |
| PosixAnchor.Anchor.OpenExisting | src/stock_research_agent/infrastructure/blob_storage.py:1136-1149 | "Missing" for an absent name, "invalid URI" for anything but a regular file, "storage" for a failed call, also when closing the irregular file fails. |
| PosixAnchor.Anchor.PublishBoth | src/stock_research_agent/infrastructure/blob_storage.py:1002-1021 | Content first, then sidecar: which links are there after a failure, and that success has seen both final names lead to the staged files. |
| PosixAnchor.Anchor.QuarantineExpected | src/stock_research_agent/infrastructure/blob_storage.py:1480-1536 | Moves a name into a free slot and keeps it there only when its number is the expected one; it is the expected file exactly when that file still exists, and always when a descriptor of it is held. A file with another number is moved back or stays in quarantine, never destroyed. |
| PosixAnchor.Anchor.RestoreQuarantined | src/stock_research_agent/infrastructure/blob_storage.py:1539-1559 | Puts a held entry back under its name or leaves it held; nothing is destroyed. |
| PosixAnchor.Anchor.CommitQuarantined | src/stock_research_agent/infrastructure/blob_storage.py:1562-1577 | Destroys exactly the held inode of one slot or leaves it there. |
| PosixAnchor.Anchor.UnlinkExpected | src/stock_research_agent/infrastructure/blob_storage.py:1580-1598 | Removes a name only when what it names has the expected number, and notes what was meant, what was found and what existed; otherwise what was moved is put back or accounted for. |
| PosixAnchor.Anchor.TakeAll | src/stock_research_agent/infrastructure/blob_storage.py:1071-1103 | Takes every opened half into the quarantine, or puts all of them back; destroys nothing. |
| PosixAnchor.Anchor.CommitAll | src/stock_research_agent/infrastructure/blob_storage.py:1105-1120 | Destroys the held halves in order; after a failure the rest is put back and what stays is accounted for. |
| PosixAnchor.Anchor.RestoreAll | src/stock_research_agent/infrastructure/blob_storage.py:1088-1096 | Restores in reverse order: the root loses nothing and gains at most names that had been taken. |
| PosixAnchor.Anchor.Conclude | src/stock_research_agent/infrastructure/blob_storage.py:1028-1048 | Removes the staged names always, with their descriptors still open, and the published ones after any failure, with the descriptors closed; which error the caller sees, and that only the latter removals can meet a reused number. |
| PosixAnchor.Anchor.CreateBoth | src/stock_research_agent/infrastructure/blob_storage.py:993-1001 | Both staged files with exactly their bytes, or which of them is there after a failure. |
| PosixAnchor.Anchor.WriteAll | src/stock_research_agent/infrastructure/blob_storage.py:1617-1629 | With writes of any partial length, success appends exactly the bytes, failure a prefix of them. |
| PosixAnchor.Anchor.ReadBounded | src/stock_research_agent/infrastructure/blob_storage.py:1601-1614 | With reads of any partial length, exactly the content, or "too large" exactly when it is longer than the limit. |
| AnchorBooks.NoTrace | src/stock_research_agent/infrastructure/blob_storage.py:993-1048 | The three stages of a failed publication compose to an unchanged root. |
| AnchorBooks.WholePair | src/stock_research_agent/infrastructure/blob_storage.py:993-1048 | The three stages of a successful publication compose to exactly the two new names. |
| BlobFormat.ParseUri | src/stock_research_agent/infrastructure/blob_storage.py:181-205 | A text that is accepted yields a key of 32 hexadecimal digits. |
| BlobFormat.SpellingParses | src/stock_research_agent/infrastructure/blob_storage.py:181-205 | Leading blanks and every capitalisation of the scheme reach the same key as the canonical URI. |
| BlobFormat.CanonicalParses | src/stock_research_agent/infrastructure/blob_storage.py:181-222 | The URI that `put` returns parses back to its key. |
| BlobFormat.ParsesIff | src/stock_research_agent/infrastructure/blob_storage.py:181-205 | The exact language: a text of at most 256 characters without control characters, percent signs and backslashes names a key exactly when it consists of leading blanks, "blob" in any capitals, "://", the backend, "/", the key of 32 lower-case hexadecimal digits, and perhaps an empty query and an empty fragment. |
| BlobFormat.SidecarRoundTrip | src/stock_research_agent/infrastructure/blob_storage.py:1754-1802 | Deserialising what was serialised gives the metadata back for its own URI and an error for every other text. |
| BlobFormat.AcceptedIff | src/stock_research_agent/infrastructure/blob_storage.py:1754-1802 | A stored sidecar is accepted as some metadata exactly when it is a JSON object with exactly the members that `put` writes for that metadata, and the metadata is valid. |
| BlobFormat.SidecarFits | src/stock_research_agent/infrastructure/blob_storage.py:1754-1762 | Every sidecar an accepted `put` writes is at most 128 KiB, the limit of the read. |
| BlobFormat.ValidateEntries | src/stock_research_agent/infrastructure/blob_storage.py:137-164 | The loop with its running total accepts exactly the mappings of at most 32 entries and 8192 characters in all, with keys up to 64 and values up to 1024 characters, none blank, absolute or with control characters, in any order of the items. |
| BlobFormat.Deserialize | src/stock_research_agent/infrastructure/blob_storage.py:1765-1802 | The parsed and validated metadata, or the error. |
| BlobStores.InMemoryBlobStorage.Put | src/stock_research_agent/infrastructure/blob_storage.py:239-261 | The refusals in their order, each with its condition written out (size, content type, metadata bounds, the drawn key, a taken key); otherwise the returned metadata has the canonical URI, the digest, the length, the content type and the metadata of the caller, and exactly that entry is added. |
| BlobStores.InMemoryBlobStorage.Get | src/stock_research_agent/infrastructure/blob_storage.py:263-264 | By the key that the URI names: the stored bytes, whose digest is the stored checksum, or "not found"; "invalid URI" exactly for texts that name no key. |
| BlobStores.InMemoryBlobStorage.Delete | src/stock_research_agent/infrastructure/blob_storage.py:271-276 | Removes exactly the named entry. |
| BlobStores.InMemoryBlobStorage.Checksum | src/stock_research_agent/infrastructure/blob_storage.py:278-283 | The digest of the stored bytes; the integrity check never fails. |
| BlobStores.InMemoryBlobStorage.Describe | src/stock_research_agent/infrastructure/blob_storage.py:285-289 | The stored metadata; the integrity check never fails. |
| BlobStores.LocalBlobStorage.Put | src/stock_research_agent/infrastructure/blob_storage.py:1662-1691 | On a fault-free file system: the same answers, errors and new entries, written out field by field. |
| BlobStores.PutAnswerIs | src/stock_research_agent/infrastructure/blob_storage.py:239-261 | The specification of `put` written out: which refusal comes first and what is stored otherwise. |
| BlobStores.AnswersAre | src/stock_research_agent/infrastructure/blob_storage.py:263-297 | The other calls written out: their answers and what they leave, for a URI that names no key, a free key or a stored one. |
| BlobStores.LocalBlobStorage.Exists | src/stock_research_agent/infrastructure/blob_storage.py:1697-1707 | The same answer as the reference; an incomplete entry never arises. |
| BlobStores.LocalBlobStorage.Delete | src/stock_research_agent/infrastructure/blob_storage.py:1709-1715 | The same answer and entries as the reference. |
| BlobStores.LocalBlobStorage.ReadVerified | src/stock_research_agent/infrastructure/blob_storage.py:1725-1751 | Size and checksum always agree; the blob of the reference, unless the text of the URI differs from the stored one. |
| BlobStores.LocalBlobStorage.Get | src/stock_research_agent/infrastructure/blob_storage.py:1693-1695 | The stored bytes under the same condition. |
| BlobStores.LocalBlobStorage.Checksum | src/stock_research_agent/infrastructure/blob_storage.py:1717-1719 | The digest under the same condition. |
| BlobStores.LocalBlobStorage.Describe | src/stock_research_agent/infrastructure/blob_storage.py:1721-1723 | The metadata under the same condition. |
| BlobStores.RunsAgree | src/stock_research_agent/infrastructure/blob_storage.py:225-297 | Over every sequence of calls the two stores hold the same blobs, and give the same answers exactly when no read names a stored blob by another spelling of its URI. |
| BlobStores.CanonicalRunsAgree | src/stock_research_agent/infrastructure/blob_storage.py:1638-1751 | Callers that read only URIs that `put` handed out cannot tell the stores apart. |
| BlobStores.CapitalsDiffer | src/stock_research_agent/infrastructure/blob_storage.py:1783-1788 | A concrete family of URIs on which the stores differ: the scheme in capitals. |
| BlobStores.PutThenRead | src/stock_research_agent/infrastructure/blob_storage.py:1662-1723 | What was put is read back by the URI that `put` returned, in both stores: the bytes, their digest, and metadata with the size, content type and metadata of the caller, after any calls that do not delete it. |
| DeadlineHandoff.ResultGoesOneWay | src/stock_research_agent/providers/http_client.py:398-460 | Over every interleaving a result is returned or cleaned up, never both and never twice; when all is over exactly one has happened, clean-up exactly when the caller timed out. |
| DeadlineHandoff.TimeoutsAreHonest | src/stock_research_agent/providers/http_client.py:405-460 | A timeout is at or after the deadline, or is the operation's own `TimeoutError`. |
| DeadlineHandoff.OnlyCloseRefuses | src/stock_research_agent/providers/http_client.py:105-140 | In every run, a caller is told that the worker is closed, or that its call was cancelled, only if `close` has begun; its operation has not run. |
| DeadlineHandoff.HolderIsServed | src/stock_research_agent/providers/http_client.py:105-122 | In every run, a caller that holds the lock is put on the queue or leaves with a timeout at its deadline; it is never refused, and `close` has not begun while it holds the lock. |
| DeadlineHandoff.SubmitGoesOn | src/stock_research_agent/providers/http_client.py:105-122 | What each step of `submit` does in every reachable state: refused exactly when `close` has begun; queued as soon as the slot is empty; out of time exactly at the deadline; nothing else before. |
| DeadlineHandoff.WaitEnds | src/stock_research_agent/providers/http_client.py:444-460 | A value in time is returned, an error is raised, a cancellation is passed on; nobody stops waiting for a pending future before the deadline. |
| DeadlineHandoff.CallersLeave | src/stock_research_agent/providers/http_client.py:398-460 | From its deadline on each caller has a step it can take, unless it waits for the lock, and each of its steps brings it nearer to leaving. |
| DeadlineHandoff.CloseEnds | src/stock_research_agent/providers/http_client.py:124-140 | `close` begins as soon as the lock is free, always has a step, and each step brings it nearer to its end. |
| DeadlineHandoff.WorkerProgresses | src/stock_research_agent/providers/http_client.py:142-159 | In every run the started worker, or the callback it waits for, has a step, unless the queue is empty or the worker has stopped; an operation ends with the outcome it has. |
| DeadlineHandoff.OneOperationAtATime | src/stock_research_agent/providers/http_client.py:142-159 | At most one operation runs at a time, each at most once; a cancelled or refused one never. |
| DeadlineHandoff.DoneForGood | src/stock_research_agent/providers/http_client.py:142-159 | A cancelled task stays cancelled and a finished one keeps its outcome, in every continuation. |
| DeadlineHandoff.NoStartAfterLeaving | src/stock_research_agent/providers/http_client.py:444-451 | Once a caller has left, its operation does not start any more. |
| DeadlineHandoff.LateStartIff | src/stock_research_agent/providers/http_client.py:142-153 | In every run, the worker starts the operation in its hand at or after its deadline exactly when the future is still pending at that time; then its caller has neither cancelled nor left. |
| DeadlineHandoff.LateIsNeverReturned | src/stock_research_agent/providers/http_client.py:398-460 | In every run, the result of an operation that started late is never returned; when all is over and there is a value to clean up, the caller timed out and it was cleaned up exactly once. |
| DeadlineHandoff.MayStartLate | src/stock_research_agent/providers/http_client.py:142-153 | A run in which the worker starts an operation at its deadline. |
| DeadlineHandoff.CloseSettles | src/stock_research_agent/providers/http_client.py:124-140 | After `close` every accepted task is done but for the one in the worker's hand; the stop token is never lost and each worker step is progress. |
| DeadlineHandoff.CloseProgresses | src/stock_research_agent/providers/http_client.py:124-159 | After `close` some step of the worker, or of the callback it waits for, is enabled until the worker has stopped, whatever outcome its operation has. |
| DeadlineHandoff.ClosedForGood | src/stock_research_agent/providers/http_client.py:111-113 | After `close` nothing is accepted any more, in every continuation (that nothing is refused before it is `OnlyCloseRefuses`). |
| DeadlineHandoff.RunKeeps | src/stock_research_agent/providers/http_client.py:96-159 | The invariant of queue, lock, worker, closer and every call holds in every run. |
| EvidenceTables.NeverLooksAhead | migrations/versions/0003_create_data_access_and_snapshots.py:912-970 | In every reachable state each item of the snapshot of a request or run was retrieved, and if known published, at or before the as-of time of that request or run; items of complete snapshots have a publication time, and the snapshot of a request is complete or partial. |
| EvidenceTables.SnapshotFrozen | migrations/versions/0003_create_data_access_and_snapshots.py:857-908 | From the insert of a request on, its row, its snapshot row and exactly the items of that snapshot never change. |
| EvidenceTables.RunKeeps | migrations/versions/0006_create_controlled_research_agent.py:653-921 | The invariant of all eight tables holds after every sequence of statements. |
| EvidenceTables.EndedStays | migrations/versions/0006_create_controlled_research_agent.py:745-915 | Once a run, a step or an invocation has ended, no sequence of statements changes or removes it. |
| EvidenceTables.LineageAlwaysHolds | migrations/versions/0012_component_observation_lineage_integrity.py:62-131 | In every reachable state each observation has a step of its own run, the security and snapshot of the run, and an invocation of that step and run exactly when the step names a tool; no two have the same invocation, and no two without one the same step. |
| EvidenceTables.ObservationStays | migrations/versions/0006_create_controlled_research_agent.py:748-921 | An observation, and what its lineage reads of run, step and invocation, never changes; nor does the as-of time of its run. |
| EvidenceTables.ObservationTimeUnchecked | migrations/versions/0012_component_observation_lineage_integrity.py:62-131 | Whether an observation is accepted does not depend on its as-of time. |
| EvidenceTables.LateObservation | migrations/versions/0012_component_observation_lineage_integrity.py:62-131 | A concrete sequence of statements after which an observation of any time, also one long after its run, is accepted. |
| EvidenceTables.TimelyIff | migrations/versions/0012_component_observation_lineage_integrity.py:62-131 | Over every run of statements, observations stay no later than their runs exactly when every accepted insert brings one that is. |
| EvidenceTables.MigrationSucceedsIff | migrations/versions/0012_component_observation_lineage_integrity.py:18-56 | Migrations 0011 and 0012 go through exactly when every old observation fits its invocation and its run, and then the invariant holds. |
| EvidenceTables.Backfill | migrations/versions/0011_component_observation_lineage.py:32-54 | Every observation gets the step of its invocation; it fails exactly when an invocation is missing. |
| EvidenceTables.DowngradeThenUpgrade | migrations/versions/0011_component_observation_lineage.py:98-127 | A downgrade that is let through loses nothing: upgrading again restores every row. |
| EvidenceTables.Database.SnapshotInsert | migrations/versions/0003_create_data_access_and_snapshots.py:868-874 | Accepted exactly for a new key in the building state. |
| EvidenceTables.Database.SnapshotUpdate | migrations/versions/0003_create_data_access_and_snapshots.py:882-908 | Accepted exactly while building, with the identity kept, no items for a failed snapshot, some and all with a publication time for a complete one, and a key that stays or is free and unreferenced. |
| EvidenceTables.Database.SnapshotDelete | migrations/versions/0003_create_data_access_and_snapshots.py:875-880 | Accepted exactly while building and when no item, request, run or observation refers to it. |
| EvidenceTables.Database.ItemInsert | migrations/versions/0003_create_data_access_and_snapshots.py:948-966 | Accepted exactly with a building parent and both times within its cutoff. |
| EvidenceTables.Database.ItemUpdate | migrations/versions/0003_create_data_access_and_snapshots.py:936-966 | Accepted exactly when the old and the new parent are building and the new times are within the cutoff. |
| EvidenceTables.Database.ItemDelete | migrations/versions/0003_create_data_access_and_snapshots.py:923-934 | Accepted exactly while the parent is building. |
| EvidenceTables.Database.RequestInsert | migrations/versions/0010_align_partial_snapshot_request_admission.py:21-39 | Accepted exactly for a complete or partial snapshot of the same security that is not later. |
| EvidenceTables.Database.RunInsert | migrations/versions/0006_create_controlled_research_agent.py:711-737 | Accepted exactly when the run repeats its request. |
| EvidenceTables.Database.RunUpdate | migrations/versions/0006_create_controlled_research_agent.py:745-783 | Accepted exactly along the 18 listed pairs of states, the identity kept, and the key free to change. |
| EvidenceTables.Database.PlanInsert | migrations/versions/0006_create_controlled_research_agent.py:177-203 | Accepted exactly for a run that is there and has no plan yet. |
| EvidenceTables.Database.StepInsert | migrations/versions/0006_create_controlled_research_agent.py:789-807 | Accepted exactly when the plan belongs to the run. |
| EvidenceTables.Database.StepUpdate | migrations/versions/0006_create_controlled_research_agent.py:813-849 | Accepted exactly along the 13 listed pairs of states, the identity kept, and the key free to change. |
| EvidenceTables.Database.InvocationInsert | migrations/versions/0006_create_controlled_research_agent.py:855-873 | Accepted exactly when the step belongs to the run. |
| EvidenceTables.Database.InvocationUpdate | migrations/versions/0006_create_controlled_research_agent.py:879-915 | Accepted exactly from the pending state, or from the running one to any but pending, the identity kept, and the key free to change. |
| EvidenceTables.Database.ObservationInsert | migrations/versions/0012_component_observation_lineage_integrity.py:62-131 | Which refusal comes first, each with its condition, or accepted: the chain of lineage checks and then the primary key and the two partial unique indexes. |
| SafeHttpGet.SafeHttpClient.Get | src/stock_research_agent/providers/http_client.py:555-762 | For any servers: at most (max_redirects + 1) * max_attempts requests. An answer belongs to the latest request of the log, at the URL that the logged redirects reach from the requested one, opened between the start of the call and the answer; its attempts are the requests made; its status is no redirect and not retryable. A 304 returns the cached body and validators after validators that match what that URL holds then, a 2xx what that URL holds then; the cache afterwards is the last complete 2xx response of the call. "Retries exhausted" only after the full number of requests since a redirect or the start. Ill-formed headers or cached validators, and only they, refuse the call with the header error, before anything is sent. When no time passes by itself and nothing outside fails, result, number of requests and time are exactly the recursive reading of the servers' responses (`Scripted`, written out in `ScriptIs` and `HonestlyIs`). |
| SafeHttpGet.SafeHttpClient.Loop | src/stock_research_agent/providers/http_client.py:591-762 | The nested loops end for any server: redirects left and tries left go down lexicographically; the same claims about the answer, and equality with the recursive reading. |
| SafeHttpGet.SafeHttpClient.Round | src/stock_research_agent/providers/http_client.py:593-762 | One pass of the inner loop: at most one request, and the rest of the call is what the recursive reading says. |
| SafeHttpGet.SafeHttpClient.Open | src/stock_research_agent/providers/http_client.py:142-159 | Handing a request over to the worker: at most one request is noted, with the time of the hand-over and the time the worker opened it, if it did; success means it was opened in time. |
| SafeHttpGet.SafeHttpClient.Exchange | src/stock_research_agent/providers/http_client.py:485-724 | One stream: no answer from one that was opened late; a failing close replaces the outcome, even of a redirect already taken. |
| SafeHttpGet.SafeHttpClient.Handle | src/stock_research_agent/providers/http_client.py:625-723 | A retryable status is answered by another try, or by "retries exhausted" exactly on the last one; a redirect is followed and noted exactly when it has a location that can be joined and there are redirects left; a 304 is answered from the cache exactly when there is an entry; anything else ends the call within the size limit, a complete 2xx being stored. The only other outcome is that the time is over or the body breaks off. |
| SafeHttpGet.SafeHttpClient.ReadBody | src/stock_research_agent/providers/http_client.py:679-693 | The exact body within the byte cap, from chunks of any size. |
| SafeHttpGet.SafeHttpClient.Wait | src/stock_research_agent/providers/http_client.py:733-762 | Before the next request there is a sleep of the doubled base delay or of what the server asked for, never past the deadline; none only when the server asks for 0 seconds or no time is left. |
| SafeHttpGet.AlwaysBounded | src/stock_research_agent/providers/http_client.py:462-497 | Every request of a call goes to an allowed host and is handed over before the deadline; it is also opened before the deadline unless nothing follows it in the call but the note that it failed; every sleep fits in the time left. |
| SafeHttpGet.RetriesAreSpaced | src/stock_research_agent/providers/http_client.py:719-762 | Two requests in a row without a redirect between them: the first was answered with a retryable status, or its transport timed out or failed; tries were left; and between them is a sleep of exactly min(base delay * 2^k, time left), or of the seconds the server asked for when they fit, which is skipped only for "0". |
| SafeHttpGet.GivesUpAfterAllTries | src/stock_research_agent/providers/http_client.py:591-762 | "Retries exhausted" only when the requests since the last redirect that did not break off number max_attempts, and the last of them got a retryable status or failed in the network. |
| SafeHttpGet.FinalStatus | src/stock_research_agent/providers/http_client.py:652-718 | A status that is returned was the last one the log shows; if it is not 304 it is no redirect and not retryable, and neither the declared length nor the body is over the limit; if it is 304 there was a cached entry. |
| SafeHttpGet.FailuresHaveCauses | src/stock_research_agent/providers/http_client.py:591-762 | Before the deadline the last response decides the error: redirect, 304 without an entry, retryable, too large; or the failed transport does. |
| SafeHttpGet.RedirectsAreAnswered | src/stock_research_agent/providers/http_client.py:625-651 | Every redirect that is followed answers a 301, 302, 303, 307 or 308 whose location joins to its target. |
| SafeHttpGet.RequestsAreLed | src/stock_research_agent/providers/http_client.py:591-651 | Every request goes where the last redirect before it led, or to the requested URL, with the conditional headers of the call; until a redirect leaves the origin it has all headers of the caller. |
| SafeHttpGet.CacheIsTheLastFull | src/stock_research_agent/providers/http_client.py:693-709 | After a call the key holds what the origin gave in the last 2xx response read to its end; without one the cache is as before. |
| SafeHttpGet.FewRequests | src/stock_research_agent/providers/http_client.py:591-762 | The requests of a call number at most max_attempts for each of the targets it may have. |
| SafeHttpGet.BrokenRedirect | src/stock_research_agent/providers/http_client.py:719-733 | A redirect whose response fails to close: with one try for each target the call gives up on the new target without having asked it. |
| SafeHttpGet.SuccessIsInTime | src/stock_research_agent/providers/http_client.py:462-497 | Every request of a call that succeeds was opened before the deadline, if at all. |
| SafeHttpGet.NothingSensitiveAfterCrossing | src/stock_research_agent/providers/http_client.py:637-650 | After a redirect to another origin no request of the call carries a sensitive header, and every other header is kept. |
| SafeHttpGet.ChainIsHonest | src/stock_research_agent/providers/cache.py:44-59 | Over every sequence of calls each cached entry is what its source URL held when it was stored. |
| SafeHttpGet.SequenceIsTruthful | src/stock_research_agent/providers/http_client.py:652-666 | With validators that tell bodies apart, every body that any call of a sequence returns is what the answering URL holds at that time. |
| SafeHttpGet.InLockstep | src/stock_research_agent/providers/http_client.py:555-762 | For any sequence of requests and any servers that answer 304 only to validators they heed and that match: a client that keeps its cache and one whose cache is emptied before every call give equal answers to the caller (the same failure, or the same URL, attempts and body), provided validators tell bodies apart. |
| SafeHttpGet.Lockstep | src/stock_research_agent/providers/http_client.py:591-762 | The same of one call from any point of the loops, with any cached entry an origin once held: the same requests at the same times and the same end. |
| SafeHttpGet.CacheIsInvisible | src/stock_research_agent/providers/http_client.py:652-666 | Without a script: a call of any sequence, and the same call with an empty cache that happens to be answered from the same URL at the same time, give equal bodies. |
| SafeHttpGet.RightIffSameSource | src/stock_research_agent/providers/http_client.py:562-588 | In a sequence of calls with validators that are only good for one URL: a revalidated body is right when the entry was stored from the URL that answers, and, where no two URLs hold the same body, only then. |
| SafeHttpGet.CertainIffSameSource | src/stock_research_agent/providers/http_client.py:562-588 | Over all such worlds: a matching validator from one URL makes sure of the body at another exactly when they are the same URL. |
| SafeHttpGet.StaleBody | src/stock_research_agent/providers/http_client.py:562-588 | Two calls of `get` after which the second returns, on a 304, a body that the answering URL does not hold. |
| SafeHttpGet.RefusedByItsOwnCache | src/stock_research_agent/providers/http_client.py:586-588 | Two equal calls of which the first succeeds and the second is refused unsent for the validator that the first one stored. |
| SafeHttpGet.RefusedIff | src/stock_research_agent/providers/http_client.py:566-588 | In every sequence of calls, a request that an empty cache lets through is refused with the header error exactly when what its cached entry was stored from gave out validators that fail the header check. |
| SectionForest.ChecksMeanForest | migrations/versions/0005_create_rag_and_citations.py:172-219 | The deferred check passes for all rows of a transaction exactly when the whole table is a forest within parse runs. |
| SectionForest.ForestIff | migrations/versions/0005_create_rag_and_citations.py:172-219 | A table is a forest exactly when every parent is there and in the same run and some numbering of the rows puts every parent before its children. |
| SectionForest.SectionTable.Commit | migrations/versions/0005_create_rag_and_citations.py:172-219 | A batch commits exactly when its keys are new, its parents exist in the same run and some numbering puts every parent before its children; it hangs exactly when it gets as far as a row whose query never ends; otherwise it is rolled back. Nothing changes but by a commit. |
| SectionForest.SectionTable.Check | migrations/versions/0005_create_rag_and_citations.py:193-206 | The walk of the recursive query gives each of its three verdicts exactly when it should: the ancestors end without the row; the parent is in another run or the row is among its ancestors; the ancestors never end and never meet the row. |
| SectionForest.ThreeVerdicts | migrations/versions/0005_create_rag_and_citations.py:187-206 | For every row exactly one of the three holds. |
| SectionForest.NoCycle | migrations/versions/0005_create_rag_and_citations.py:193-206 | No row of a forest is its own ancestor. |
| SectionForest.ChainStaysInRun | migrations/versions/0005_create_rag_and_citations.py:187-191 | Every ancestor is in the parse run of the row. |
| SectionForest.HangsInSomeOrderIff | migrations/versions/0005_create_rag_and_citations.py:193-206 | A batch hangs in some order of its rows exactly when the ancestors of one of its rows run into a cycle that the row is not on. |
| SectionForest.HangingBatch | migrations/versions/0005_create_rag_and_citations.py:193-206 | A batch into an empty table whose commit hangs. |
| SectionForest.SupersessionDescends | migrations/versions/0005_create_rag_and_citations.py:58-96 | Supersession links descend strictly in version number within one document, so they end. |
| SectionForest.VersionTable.Insert | migrations/versions/0005_create_rag_and_citations.py:58-96 | Accepted exactly for a new key and number of its document, a positive number, and a superseded version that is there, of the same document and older; the table stays valid. |
| ReportChain.OnlyTheNextVersion | migrations/versions/0007_create_verifiable_reports_and_reflection.py:976-1000 | Trigger and unique key let through exactly the next version, linked to the latest one. |
| ReportChain.VersionsAreGapFree | migrations/versions/0007_create_verifiable_reports_and_reflection.py:320-328 | The version numbers of a run are exactly 1 to the number of its reports. |
| ReportChain.ChainReachesFirst | migrations/versions/0007_create_verifiable_reports_and_reflection.py:976-1000 | Following predecessors n steps from version v reaches version v - n of the same run. |
| ReportChain.PreviousIsUnique | migrations/versions/0007_create_verifiable_reports_and_reflection.py:351-357 | The unique index on the predecessor is implied by the rest. |
| ReportChain.ReportTable.Insert | migrations/versions/0007_create_verifiable_reports_and_reflection.py:976-1007 | Accepted exactly for the next version; keeps the chain. |
| ReportChain.FewUpdates | migrations/versions/0007_create_verifiable_reports_and_reflection.py:897-960 | A generation run changes at most twice, a reflection or revision run once; the context never. |
| ReportChain.UpdatesLeftIff | migrations/versions/0007_create_verifiable_reports_and_reflection.py:897-960 | For each kind and status exactly the updates that are let through. |
| SyncBudget.MapsAgree | src/stock_research_agent/domain/providers/sync.py:38-83 | The Python transition map and the trigger accept the same transitions. |
| SyncBudget.ReserveBudget | src/stock_research_agent/providers/control_plane.py:349-389 | Granted exactly within duration and all three maxima; otherwise refused for the duration exactly when that is over, and else for the maxima; a grant adds one request, the bytes and one attempt, a refusal changes nothing. |
| SyncBudget.ReserveIs | src/stock_research_agent/providers/control_plane.py:298-346 | The reservation of a store written out: the answer or the error, and the row, for each state of the run. |
| SyncBudget.ControlIs | src/stock_research_agent/providers/control_plane.py:184-224 | Pause, resume and cancel written out: which error, or the new row field by field. |
| SyncBudget.ActionsAre | src/stock_research_agent/providers/control_plane.py:184-224 | In every run: the status to which each control leads. |
| SyncBudget.Conservation | src/stock_research_agent/providers/control_plane.py:184-224 | Over any interleaving of reservations, pause, resume, cancel and transitions whose callers pass on the counters they read, what is consumed at the end, also of a run that is over, is the start plus every granted reservation, and within the maxima. |
| SyncBudget.ConservedIff | src/stock_research_agent/db/repositories/providers.py:470-490 | For every run: the books balance after each of its prefixes exactly when every accepted transition passes on the counters it read. |
| SyncBudget.ConservedWhileOpen | src/stock_research_agent/providers/control_plane.py:184-224 | Where callers that end a run may write any counters, the balance still holds until then, and what is granted stays within the maxima. |
| SyncBudget.CommandLineForgets | src/stock_research_agent/cli_providers.py:434-441 | A run from its creation, queued, started and granted one reservation, whose counters become zero when it is blocked with the default counters, as the command line does. |
| SyncBudget.AttemptsCapGrants | src/stock_research_agent/providers/control_plane.py:354-369 | A run is never granted more reservations than its attempts, at most three. |
| SyncBudget.TerminalAbsorbs | migrations/versions/0008_create_production_data_providers.py:46-57 | A terminal run never changes again. |
| SyncBudget.ReserveRaisesIff | src/stock_research_agent/providers/control_plane.py:298-346 | In every run from a created row a reservation ends in an error exactly when the row is running without a start time; no counter ever outgrows its 32-bit column. |
| SyncBudget.ResumeWithoutStart | src/stock_research_agent/providers/control_plane.py:178-179 | `resume` of a queued run leaves it running without a start time, and every reservation fails. |
| SyncBudget.ResumedIsUsableIff | src/stock_research_agent/providers/control_plane.py:184-224 | A resumed run can be reserved from exactly when it already had a start time. |
| SyncBudget.StoresAgreeIff | src/stock_research_agent/providers/control_plane.py:277-346 | In every run from a created row the two budget stores agree exactly when the run is running and started. |
| SyncBudget.PostgresBudgetStore.Reserve | src/stock_research_agent/providers/control_plane.py:298-346 | One reservation: the answer, the new row, or the error. |
| SyncBudget.PostgresBudgetStore.Change | src/stock_research_agent/providers/control_plane.py:184-224 | Pause, resume and cancel: the new row field by field, or the error; consumption kept; what the trigger accepts. |
| SyncBudget.InMemoryBudgetStore.Reserve | src/stock_research_agent/providers/control_plane.py:277-289 | The same reservation on a snapshot. |
| RateLimit.MonotonicRateLimiter.Acquire | src/stock_research_agent/providers/rate_limit.py:50-58 | Every slot is the later of the clock and one interval after the slot before it, for any order of threads; the wait is exactly up to that slot. |
| RateLimit.GreedyIsSpaced | src/stock_research_agent/providers/rate_limit.py:50-58 | Slots of a bucket are an interval apart and never before the clock. |
| RateLimit.SlotsApart | src/stock_research_agent/providers/rate_limit.py:50-58 | Any two slots are as many intervals apart as there are slots between them. |
| RateLimit.GreedyIsEarliest | src/stock_research_agent/providers/rate_limit.py:50-58 | No other spacing of the same calls is earlier at any slot. |
| RateLimit.ReservationStore.Reserve | src/stock_research_agent/providers/rate_limit.py:107-183 | Accepted exactly when the interval of the units has passed since the last reservation of the scope. |
| RateLimit.ReservationStore.Latest | src/stock_research_agent/providers/rate_limit.py:148-157 | The latest reservation of one scope among all rows. |
| RateLimit.TimesIncrease | src/stock_research_agent/providers/rate_limit.py:158-161 | Accepted times strictly increase even when clocks go back. |
| RateLimit.WindowBound | src/stock_research_agent/providers/rate_limit.py:107-183 | In any window the units after the first reservation total at most rate times length. |
| CircuitBreaker.StateOfHistory | src/stock_research_agent/providers/circuit_breaker.py:118-146 | The stored snapshot is a function of the history: count, status and opening time. |
| CircuitBreaker.AdmittedIff | src/stock_research_agent/providers/circuit_breaker.py:78-116 | Exactly when a call is admitted, in terms of the history. |
| CircuitBreaker.OneProbePerEpisode | src/stock_research_agent/providers/circuit_breaker.py:92-110 | Without a success or transient failure, an open circuit admits one call at most and a half-open one none. |
| CircuitBreaker.PermanentFailureWedges | src/stock_research_agent/providers/circuit_breaker.py:124-127 | A probe that ends in a permanent failure leaves a circuit that admits nothing any more. |
| CircuitBreaker.Wedged | src/stock_research_agent/providers/circuit_breaker.py:60-146 | For every setting, a run from an empty store that opens the circuit, probes it, records a permanent failure and is refused at any later time. |
| CircuitBreaker.ProbeSettledIff | src/stock_research_agent/providers/circuit_breaker.py:118-146 | A probe outcome lets a later call through exactly when it is not a permanent failure. |
| CircuitBreaker.CircuitBreakerService.Ask | src/stock_research_agent/providers/circuit_breaker.py:78-116 | Each decision exactly in its stored state and, for the probe, from the end of the reset time; the stored snapshot of the scope field by field; others untouched. |
| CircuitBreaker.CircuitBreakerService.RecordOutcome | src/stock_research_agent/providers/circuit_breaker.py:118-146 | The stored snapshot after each outcome field by field; others untouched. |
| ResponseBounds.JsonWithinBounds | src/stock_research_agent/providers/http_response.py:217-229 | True exactly when the recursive depth is at most 32 and the recursive node count at most 100000. |
| ResponseBounds.Read | src/stock_research_agent/providers/http_response.py:54-94 | On any stream, even endless: at most max_chunks + 1 chunks, at most max_bytes kept, success exactly for an acceptable stream and then its concatenation; each refusal with its condition; closed once on every path. |
| ResponseBounds.ReadChunks | src/stock_research_agent/providers/http_response.py:61-73 | The loop alone: what it kept, and for each reason to stop exactly when it is given. |
| RecordSorting.SortDocuments | src/stock_research_agent/tools/documents.py:22-28 | In place, the three stable passes: the same documents, and of any two the earlier in the result has the later publication time (the retrieval time when unknown), on a tie the later retrieval time, and then the smaller identifier. |
| RecordSorting.DocumentsNewestFirst | src/stock_research_agent/tools/documents.py:22-28 | The order of the result in terms of the fields alone. |
| RecordSorting.DocumentsSortedOnce | src/stock_research_agent/tools/documents.py:22-28 | The passes are one lexicographic sort, newest first, the same for every order of the input when identifiers are distinct. |
| RecordSorting.DocumentsTop | src/stock_research_agent/tools/documents.py:74 | Nothing cut off by the limit has a later publication (or retrieval) time than anything kept; ties by retrieval time, then by identifier. |
| RecordSorting.SortFacts | src/stock_research_agent/tools/financial_data.py:20-27 | In place, the four stable passes: the same facts, and of any two the earlier in the result has the later period end (unknown ones last), on a tie the later filing (or retrieval) time, then the later retrieval time, then the smaller identifier. |
| RecordSorting.FactsNewestFirst | src/stock_research_agent/tools/financial_data.py:20-27 | The order of the result in terms of the fields alone. |
| RecordSorting.FactsSortedOnce | src/stock_research_agent/tools/financial_data.py:20-27 | The passes are one lexicographic sort, newest first, the same for every order of the input when identifiers are distinct. |
| RecordSorting.FactsTop | src/stock_research_agent/tools/financial_data.py:82 | Nothing cut off by the limit has a later period end than anything kept; ties by filing, by retrieval, then by identifier. |
| RecordSorting.PassesCombine | src/stock_research_agent/tools/documents.py:25-27 | A stable pass over an ordered list refines the order by the new key. |
| EndpointPath.ExpandPath | src/stock_research_agent/providers/http_policy.py:128-152 | Which error, in the order of the checks and each with its condition written out, or the path of the replacement loop; that path is the simultaneous substitution exactly when no placeholder gets spelled by plain braces; and no character of a value reaches it but letters, digits, "-", ".", "_", "~" and the percent encoding. |
| EndpointPath.AgreesForAllIff | src/stock_research_agent/domain/providers/http.py:45-96 | A condition on template and names alone: the loop gives the simultaneous substitution for all values that a request may have and that pass the parameter check (1 to 512 characters, no blanks at the ends, no control characters) exactly when, in the order of the names, no plain brace can come to spell one of them. |
| EndpointPath.WrongPath | src/stock_research_agent/providers/http_policy.py:145-152 | An admissible template, names and values for which the path is not the substitution. |
| EndpointTemplate.LoopAgreesIff | src/stock_research_agent/providers/http_policy.py:145-149 | For given values: the loop is the simultaneous substitution exactly when no name, at its turn, is spelled by a plain brace and the text after it. |
| EndpointTemplate.ReplaceRewrites | src/stock_research_agent/providers/http_policy.py:145-149 | One `replace` on the text is one rewriting of the template: its own placeholder, and whatever only looks like it. |
| EndpointTemplate.RewriteOrLose | src/stock_research_agent/providers/http_policy.py:145-149 | A replacement that hits anything but its placeholder loses an opening brace; otherwise it is a substitution. |
| EndpointPath.QuoteRoundTrip | src/stock_research_agent/providers/http_policy.py:149 | Percent-decoding undoes the encoding. |
| EndpointPath.QuotedBytes | src/stock_research_agent/providers/http_policy.py:149 | A byte stays exactly when it is a letter, a digit or one of "-._~"; every other byte becomes a percent sign and its two upper-case hexadecimal digits. |
| EndpointPath.UnsafePathIff | src/stock_research_agent/providers/http_policy.py:150-152 | A path is refused exactly when it does not start with a slash, has a backslash, or one of its segments is "." or "..". |
| EndpointPath.FromTemplateOrValue | src/stock_research_agent/providers/http_policy.py:145-149 | Every character of the path occurs in the template or is a letter, a digit, one of "-._~" or a percent sign. |
| EndpointPath.SafeValuesAre | src/stock_research_agent/providers/http_policy.py:146-148 | Which values pass the parameter check, with its bounds and characters written out. |
| EndpointPath.ParametersRecoverable | src/stock_research_agent/providers/http_policy.py:145-152 | With placeholders that fill whole segments, the number of segments is kept and every parameter can be read back from the path. |

## Left out

- The Windows anchor, the rename capability probe, the set-up of the private quarantine directory, finalizers and closing of the anchor.
- SHA-256, the JSON text format and the Unicode tables: parameters with the laws in `Library.Lawful`; URL and header syntax: parameters (`Syntax`); regular expressions: a parameter of the template module.
- BlobStores.RunsAgree: one backend name for both stores instead of "memory" and "local", so the 256-character limit on a URI counts the same name in both.
- BlobStores.LocalBlobStorage.Put: refinement of the reference is stated for a fault-free directory that only this store changes; faults and other processes are the subject of the anchor itself.
- PosixAnchor.Anchor.DeletePair: the two names must differ, as they do in every call of the store.
- DeadlineHandoff.CloseSettles: progress and the absence of deadlock are stated per step (`CloseProgresses`); that the scheduler lets every thread run, and that an operation ends, is assumed nowhere, so no run is claimed to stop. Exceptions of `late_cleanup` are swallowed by the code and not modelled.
- PosixAnchor.NumberReused, PosixAnchor.HalfEntry: these two make the calls of `Conclude` and `CommitAll` themselves, so that the other process and the failing close come at a chosen place.
- SafeHttpGet.SafeHttpClient.Get: one call at a time; exceptions of the transport outside the HTTP library's own classes propagate unchanged and are not modelled; responses to other statuses carry their body but no claim about it. The exact result is stated for servers given as a script while the clock stands still and nothing else fails; with faults and time the claims of `Conforms` remain.
- EvidenceTables.RunKeeps: statements run one after the other; column formats, lengths and the other unique keys are not modelled, nor are claims, evidence, packages and run events.
- SectionForest.SectionTable.Commit: a check that never ends leaves the table as it was; locks that the hanging transaction holds are not modelled.
- SyncBudget.Conservation: holds for callers of the repository's `transition` that pass on the counters they read; the trigger does not stop one from writing smaller ones, and the command line does when it blocks a run (cli_providers.py:434-441).
- RateLimit.WindowBound: times are real numbers, decimal rounding is not modelled; sleeping longer than asked is outside the model.
- ResponseBounds.Read: the first clock reading comes before the protected block; a clock that raises there leaves the stream open and is outside the model.
- RecordSorting.SortDocuments: an insertion sort stands for the built-in stable sort.
- EndpointPath.ExpandPath: host, query string and the endpoint and query allowlists are not modelled; the names may come in any order, the source sorts them. That texts of name characters have no blanks at their ends is taken from the Unicode tables.
- Address pinning, the checkpoint revision guard, the claim and package guards.
- Command line, API, configuration, logging, sessions, the HTTP executor, credential and registry gates and the provider adapters.
