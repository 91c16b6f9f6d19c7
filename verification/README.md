# DigitDojo Shield: verified model

A Dafny model of the parts of DigitDojo Shield that keep state, with proofs of what
they promise. Each module follows one component of the Go source, in the source's own
form: objects with fields are classes, loops are loops with invariants, and every such
method is proved against a specification function about which the lemmas then speak.
`dafny verify dfyconfig.toml` checks everything.

| files | component |
|---|---|
| `Orders`, `Wrappers`, `Clock`, `Addresses` | sorted listings, optional values, 64-bit time arithmetic, `netip.Addr` without zones |
| `DesiredState` | the declarative firewall state and its normalisation |
| `Kernel`, `Acceptance`, `TableLines`, `Listings` | the nftables kernel, when it accepts a batch, and what it prints |
| `Render`, `Compile`, `Inspect`, `Drift` | the rendered batch and its meaning, reading it back, rounding over cycles |
| `NftBackend`, `Controller` | the backend over a faulty runner, and the controller that owns rollback |
| `RunLength`, `History`, `AttackEvents` | attack lifecycles and status events as runs of samples |
| `RateLimiter` | the API's token buckets with idle sweeping |
| `Storage` | the durable block and allow lists under crashes |
| `Config`, `ConfigManager`, `ConfigRevisions` | configuration files, revisions, backups, rollback, and the runtime's apply callback |
| `Daemon` | the detector's start, stop and shutdown protocol over all interleavings |
| `Retry` | backoff and jitter in 64-bit arithmetic |

## Environment

Clock reads, faults and random numbers are parameters, so each contract holds for every
choice of them. A runner call can fail or panic before or after it takes effect; a disk
call can fail or be cut off by a crash; daemon callers and goroutines interleave freely.
Times are integer nanoseconds. Tokens are exact reals. Map iteration and nft's listing
order are arbitrary choices in the method bodies, and results are proved independent of
them.

## What the proofs show about the code

Some expected properties hold only under a condition, which is proved exact, or fail.

- A rendered timeout is the ceiling of the remaining time if and only if at most
  2^63 - 10^9 ns remain; beyond that the 64-bit sum wraps, and nft rejects the whole batch
  (`Render.TimeoutExactIff`, `Compile.CompilePreservesMeaning`, `Compile.LongBanRefused`).
- nft lists remaining time in whole seconds, and zero is a parse error. So inspecting or
  snapshotting fails exactly while some live temporary ban is in its last second, and the
  controller then refuses every mutation (`Inspect.ReadBack`, `Controller.SnapshotRefusedIff`,
  `Controller.SnapshotCanBeRefused`).
- Deleting idle buckets is invisible if burst <= 600 * limit, and visible on a concrete run
  otherwise; the admission bound holds under exactly the same condition
  (`RateLimiter.SweepUnobservable`, `RateLimiter.SweepVisible`, `RateLimiter.AdmissionBoundIff`).
- `Save` can report an error after its rename. Memory then lacks a mutation that is on disk,
  and every such rename since the last directory sync can be what a later crash leaves. So a
  mutation is atomic under crashes exactly when those earlier saves only wrote its before- or
  after-state: after one such failure, exactly when it is another try of the same mutation
  (`Storage.AtomicUnderCrashIff`, `Storage.AtomicAfterFailureIff`, `Storage.FailedSaveCanResurface`).
  If only the process dies, it is enough that the last of them did (`Storage.AtomicUnderDeathIff`).
- A failed backup write leaves the candidate current although `Update` or `Rollback` returns
  an error and writes the old file back; every other failure is undone
  (`ConfigRevisions.UpdateOutcome`, `ConfigRevisions.RollbackFailures`,
  `ConfigRevisions.FailedBackupDisagrees`, `ConfigRevisions.FailedRollbackDisagrees`).
- `Rollback` reads backups less strictly than a start reads the file, so a damaged backup can
  be applied and leave a file that the next start refuses; the two agree exactly on known keys
  with no nonzero default missing (`Config.LoadersAgreeIff`, `ConfigRevisions.DamagedBackupApplied`).
- A nil `Start` means that sampling goes on, until the next request to stop or a panic,
  exactly when no stop was in progress; otherwise the only goroutine is being stopped
  (`Daemon.StartContinuesIff`, `Daemon.StartLasts`, `Daemon.StartDuringStop`).
- The history keys attacks by type, NUL and severity. Two pairs are kept apart on every run
  exactly when their keys differ, as they do unless a type contains NUL; otherwise the
  lifecycles merge (`History.KeptApartIff`, `History.MergedLifecycles`).
- Calls that keep failing temporarily end in a panic of the jitter draw exactly when
  10^6 * I, as a 64-bit word, reaches 2^63 after attempts - 2 doublings: with the default
  100 ms, from 39 attempts on (`Retry.PanicsIff`, `Retry.Retry`, `Retry.DefaultBackoffPanics`).

## Model

| member | source | states |
|---|---|---|
| Addresses.NormalizeAddressIdempotent | internal/firewall/backend/backend.go:132-141 | an accepted address, once unmapped, is accepted unchanged |
| Addresses.Ipv4Refused | internal/firewall/backend/backend.go:132-141 | exactly 0.0.0.0, 127/8, 169.254/16 and 224/4 are refused, and an IPv4-mapped address is treated as the IPv4 address |
| Addresses.MappedLoopbackRefused | internal/firewall/backend/backend.go:132-141 | ::ffff:127.0.0.1 is refused |
| Addresses.Ipv6Refused | internal/firewall/backend/backend.go:132-141 | exactly ::, ::1, fe80::/10 and ff00::/8 are refused among the other IPv6 addresses |
| Addresses.NoAddrRefused | internal/firewall/backend/backend.go:133-135 | the zero value is no address |
| Addresses.OrderOfOctets | internal/firewall/backend/backend.go:126-128 | IPv4 before IPv6, and IPv4 octet by octet |
| Orders.SortSlice | internal/firewall/backend/backend.go:126-128 | sort.Slice returns an ordered permutation for any strict weak order |
| DesiredState.NormalizeAddresses | internal/firewall/backend/backend.go:113-130 | the first bad address in list order is the error; otherwise the unmapped addresses once each in address order, whatever the map iteration order |
| DesiredState.LatestOf | internal/firewall/backend/backend.go:86-101 | the first bad ban is the error; otherwise each address with an unexpired ban is mapped to its latest expiry |
| DesiredState.ListBans | internal/firewall/backend/backend.go:102-108 | the map is listed in address order, whatever its iteration order |
| DesiredState.Normalize | internal/firewall/backend/backend.go:76-111 | error or canonical state, checking whitelist, permanent and temporary bans in that order |
| DesiredState.NormalizeSucceedsIffValid | internal/firewall/backend/backend.go:76-111 | normalisation succeeds exactly on safe addresses with expiries, at every time alike |
| DesiredState.FirstErrorReported | internal/firewall/backend/backend.go:76-101 | the error is that of the first bad whitelist entry, else permanent ban, else temporary ban with a bad address or no expiry |
| DesiredState.NormalizeIsCanonical | internal/firewall/backend/backend.go:74-130 | lists are strictly increasing, hold exactly the unmapped inputs, and keep for each address the latest unexpired expiry |
| DesiredState.NormalizeDecidesContent | internal/firewall/backend/backend.go:86-130 | two states normalise alike if and only if they say the same, whatever order and duplication |
| DesiredState.NormalizeComposes | internal/firewall/backend/backend.go:76-141 | normalising at t1 and again at t2 >= t1 is normalising at t2, and the first result is valid |
| Render.TimeoutExactIff | internal/firewall/nftables/render.go:71 | the rendered seconds are the exact ceiling, at least one, if and only if the remaining time is within 2^63 - 10^9 ns |
| Render.FilterAddresses | internal/firewall/nftables/render.go:89-97 | keeps one address family in order |
| Render.WriteAddressSet | internal/firewall/nftables/render.go:44-57 | appends one untimed set with the given elements |
| Render.WriteTemporarySet | internal/firewall/nftables/render.go:59-79 | appends one timed set with the unexpired bans of one family and their rounded timeouts |
| Render.RenderRuleset | internal/firewall/nftables/render.go:18-42 | the batch is that of the normalised state, or the normalisation error |
| Compile.ProgramBuilds | internal/firewall/nftables/render.go:18-42 | running the batch on any ruleset replaces Shield's table by the compiled one |
| Compile.ProgramRejected | internal/firewall/nftables/render.go:59-79 | a ban beyond the 64-bit range makes nft reject the whole batch on any ruleset |
| Compile.RunRendered | internal/firewall/nftables/render.go:18-79 | for every valid state, the rendered batch installs the compiled table or is rejected, by the range of its bans |
| Compile.ChainsDecide | internal/firewall/nftables/render.go:32-40 | the base and policy chains decide by whitelist, then permanent bans, then temporary bans, and accept otherwise |
| Compile.BannedNormal | internal/firewall/backend/backend.go:86-108 | keeping only the latest expiry of each address changes no ban verdict |
| Compile.WithinRangeOfInput | internal/firewall/nftables/render.go:71 | the range condition can be read off the caller's own list |
| Compile.CompilePreservesMeaning | internal/firewall/nftables/render.go:18-79 | compilation preserves meaning for every address, time and prior ruleset, leaves other tables alone, and is accepted exactly when bans are in range |
| Compile.VerdictOfLists | internal/firewall/nftables/render.go:18-79 | the verdict in the words of the lists: whitelist, then permanent bans, then temporary bans until their expiry at least; accepted once every ban ended a second and the commit delay ago |
| Compile.BaseChainHook | internal/firewall/nftables/render.go:31-33 | the base chain hooks into input at priority -10 and accepts by default |
| Compile.LongBanRefused | internal/firewall/nftables/render.go:71 | one ban a nanosecond beyond the range makes nft refuse the batch on any ruleset |
| Compile.BanHoldsUntilExpiry | internal/firewall/nftables/render.go:71 | a ban holds until its expiry and less than a second plus the commit delay longer |
| Inspect.ParseAddressElements | internal/firewall/nftables/backend.go:238-248 | all addresses in order, or an error on an unsupported element |
| Inspect.ParseTemporaryElements | internal/firewall/nftables/backend.go:250-264 | each element's address with now plus its listed seconds, or an error when one is unsupported or has none left |
| Inspect.CollectSets | internal/firewall/nftables/backend.go:191-209 | the last listed set of Shield's table under each name, other tables ignored |
| Inspect.ParseRuleset | internal/firewall/nftables/backend.go:184-236 | whitelist and permanent bans joined over the two families, temporary bans as an ordered permutation |
| Inspect.ParsedIff | internal/firewall/nftables/backend.go:210-264 | parsing fails exactly on an unsupported element of Shield's sets, or one without remaining expiry among temporary bans |
| Inspect.LastSetCounts | internal/firewall/nftables/backend.go:191-209 | the last set under a name counts, and sets of other tables do not |
| Inspect.ReadState | internal/firewall/nftables/backend.go:110-127 | parse at one clock read and normalise at a later one, independent of the listing order of bans |
| Inspect.BansRead | internal/firewall/nftables/backend.go:250-264 | a timed set reads back exactly when no live element is in its last second |
| Inspect.ReadBack | internal/firewall/nftables/backend.go:110-127 | reading back a compiled table returns its lists, and its live bans with deadlines rounded down to the listing; it fails exactly in some ban's last second |
| Drift.ExpiryMoves | internal/firewall/nftables/backend.go:250-264 | one render, commit, list and parse moves an expiry by the delays and less than a second |
| Drift.RenderReadBackIdentity | internal/firewall/nftables/backend.go:110-127 | without delays, render then read back is the identity with each expiry later by at least 0 and less than 1 second |
| Drift.OneCycle | internal/firewall/nftables/backend.go:129-149 | a ban after snapshot and restore comes from one before, its deadline moved by the delays and less than a second |
| Drift.DriftIsBounded | internal/firewall/nftables/backend.go:54-76 | over n cycles lists never change, no ban appears, and a surviving deadline moves by the delays and less than n seconds |
| Drift.CycleKeepsVerdicts | internal/firewall/nftables/backend.go:129-149 | a restored table gives every address the old verdict, except within a second and the delays of the end of a ban |
| Acceptance.AcceptanceIgnoresTime | internal/firewall/nftables/backend.go:92-97 | whether nft accepts a batch does not depend on when it runs |
| NftBackend.CheckPredictsApply | internal/firewall/nftables/backend.go:92-97 | after a nil check nft no longer refuses the batch, however much later it is applied: only a fault of the run itself can keep it from taking effect |
| NftBackend.Runner.Apply | internal/firewall/nftables/backend.go:95-97 | the batch is applied as a whole or not at all, for every fault placement |
| NftBackend.Runner.ListTable | internal/firewall/nftables/backend.go:118-121 | lists every set of the table once with its live elements, in any order |
| NftBackend.Backend.Transaction | internal/firewall/nftables/backend.go:92-98 | check, then apply the same batch, and never apply one that failed the check |
| NftBackend.Backend.Reconcile | internal/firewall/nftables/backend.go:78-99 | an invalid state is an error; otherwise the transaction installs the compiled table or is refused for range |
| NftBackend.Backend.Cleanup | internal/firewall/nftables/backend.go:151-169 | the transaction that destroys Shield's table |
| TableLines.ShieldLine | internal/firewall/nftables/backend.go:176-179 | no table of another family or name prints the line the scan looks for |
| NftBackend.Runner.ListTables | internal/firewall/nftables/backend.go:171-175 | prints a line for every table, in any order, and the empty rest after the last newline |
| NftBackend.Backend.TableExists | internal/firewall/nftables/backend.go:171-182 | scanning the printed lines finds Shield's exactly when its table is there, whatever the order and the other tables |
| NftBackend.Backend.Inspect | internal/firewall/nftables/backend.go:101-127 | empty state without a table, otherwise what the listing reads as, with errors and panics passed on |
| NftBackend.Backend.TakeSnapshot | internal/firewall/nftables/backend.go:54-76 | records absence, or presence with the inspected state |
| NftBackend.Backend.Restore | internal/firewall/nftables/backend.go:129-149 | refuses other backends, undecodable data and versions; destroys the table if it was absent; otherwise reconciles the recorded state |
| Controller.Controller.ExecuteWithRollback | internal/firewall/controller.go:111-140 | outcome, ruleset and number of restores for every fault of name, snapshot, operation and restore |
| Controller.Controller.Reconcile | internal/firewall/controller.go:58-78 | disabled, invalid and unresolved calls change nothing; otherwise the normalised state is reconciled under rollback |
| Controller.Controller.Cleanup | internal/firewall/controller.go:80-96 | disabled and unresolved calls change nothing; otherwise cleanup under rollback |
| Controller.TransactionIsAtomic | internal/firewall/nftables/backend.go:87-99 | whatever fails, the ruleset is the old one or the whole batch's result |
| Controller.ReconciledTable | internal/firewall/nftables/backend.go:87-99 | reconcile touches no other table, and returns nil only with the compiled table in place |
| Controller.RestoredTable | internal/firewall/nftables/backend.go:129-149 | restore touches no other table, and returns nil only with the snapshot's table in place |
| Controller.RollbackUnderFaults | internal/firewall/controller.go:111-140 | nil means done and nothing restored; an error comes with exactly one restore if and only if a snapshot with the backend's name was taken; a successful restore leaves the snapshot's table; foreign tables are untouched |
| Controller.OutcomeIff | internal/firewall/controller.go:111-140 | exactly when each outcome happens, on the faults, the operation and the snapshot: in particular when a failure counts as undone |
| Controller.RulesetLeft | internal/firewall/controller.go:111-140 | what each outcome leaves: the operation's effect, undone unless it succeeded, as far as the faults let it |
| Controller.SnapshotTakenIff | internal/firewall/nftables/backend.go:54-76 | when a snapshot is taken, and what it records |
| Controller.FaultFreeRestore | internal/firewall/controller.go:124-136 | after a failed or panicked cleanup or reconcile, a restore without faults leaves the snapshot's table or its absence, unless a ban has left the 64-bit range |
| Controller.RollbackToAbsence | internal/firewall/controller.go:124-136 | when there was no Shield table, an undone failure leaves the whole ruleset as it was |
| Controller.ReconcileIdempotent | internal/firewall/backend/backend.go:149-153 | reconciling twice is reconciling once, and the result ignores Shield's previous table |
| Controller.ReconcileEnforces | internal/firewall/controller.go:58-78 | a nil reconcile enforces the caller's desired state although it is normalised twice |
| Controller.SnapshotRefusedIff | internal/firewall/nftables/backend.go:54-76 | without faults, a snapshot of an installed table fails exactly in some ban's last second |
| Listings.ListingExists | internal/firewall/nftables/backend.go:118-121 | every table has a listing |
| Controller.SnapshotCanBeRefused | internal/firewall/nftables/backend.go:257-259 | a ban on 1.1.1.1 with a nanosecond left when it is installed makes the next fault-free snapshot fail, and every mutation with it |
| Controller.RollbackIsOneCycle | internal/firewall/controller.go:124-136 | a rollback over an installed table is one snapshot/restore cycle |
| Controller.RollbackKeepsVerdicts | internal/firewall/controller.go:124-136 | after an undone failure, verdicts are those from before the operation, except near the end of a ban |
| RunLength.RunsAreMaximal | internal/history/history.go:86-101 | the incremental list of runs is exactly the ordered list of maximal runs |
| History.New | internal/history/history.go:47-72 | a missing file is created empty, a decodable version-1 file is resumed, anything else is an error |
| History.Store.Save | internal/history/history.go:139-166 | replaces the file by what is in memory, or leaves it |
| History.Store.Record | internal/history/history.go:74-103 | the metric window, the attack list, the file and the result after one record; a failed save leaves memory ahead of the file |
| History.Store.Open | internal/history/history.go:86-95 | starts one attack for each signal key without an active attack |
| History.Store.Close | internal/history/history.go:96-101 | resolves in place exactly the active attacks whose key is absent |
| History.Store.FindActive | internal/history/history.go:105-112 | the last active attack with the key, or -1 exactly when there is none |
| History.Store.Metrics | internal/history/history.go:113-123 | the metrics not before the given time, in order |
| History.SinceKeeps | internal/history/history.go:113-123 | each metric not before the time is kept as often as it occurs, and no other |
| History.SinceJoins | internal/history/history.go:113-123 | in the order of recording |
| History.Store.Attacks | internal/history/history.go:124-138 | one clamped page of a newest-first permutation of all attacks, and their number; exactly which arguments make the slice panic, overflow of the sum included |
| History.RecordedWithKey | internal/history/history.go:86-101 | seen through one key, a record starts, continues or resolves a lifecycle and touches no other key |
| History.HistoryIsRunLengthEncoding | internal/history/history.go:74-112 | the lifecycles of a key are, one for one and in order, the maximal runs of records carrying it, resolved by the first record after the run or still open |
| History.PairLifecycles | internal/history/history.go:74-112 | the lifecycles of a pair of type and severity are the maximal runs of records whose signals contain it, if no other pair in the samples has its key |
| History.PairLifecyclesWithoutNul | internal/history/history.go:74-112 | so they are for every pair when no type contains NUL |
| History.KeptApartIff | internal/history/history.go:87 | on all runs of samples with two different pairs, the lifecycles of one are its own runs if and only if their keys differ |
| History.MergedLifecycles | internal/history/history.go:86-101 | of two pairs with one key, recorded one after the other, the second never starts and the first never ends |
| History.RestartsResume | internal/history/history.go:47-103 | over every run of records, failed saves and restarts, the lifecycles are the run-length encoding of the samples that survived followed by those recorded since |
| History.KeysAreInjective | internal/history/history.go:87 | among types without NUL a key stands for one pair of type and severity |
| History.KeysCollideOnNul | internal/history/history.go:87 | with a NUL in a type, two pairs share a key and are not kept apart |
| History.MetricsAreNewest | internal/history/history.go:80-83 | after any run the metrics are the newest 43200 |
| History.AttacksIdentified | internal/history/history.go:90-93 | every attack on record has its own start time and type as identifier |
| AttackEvents.Handler.HandleSample | internal/app/app.go:301-337 | the status follows the signals, and the events, with their payloads, are those of the transition |
| AttackEvents.EventsAreRuns | internal/app/app.go:305-336 | detections and clearances are the starts and ends of the maximal runs of samples with signals |
| AttackEvents.EventsArePlaced | internal/app/app.go:322-336 | the events published on every run, sample by sample: the sample's own, a detection exactly where a maximal run of samples with signals starts, a clearance exactly where one has ended, and nothing else |
| RateLimiter.NewLimits | internal/api/api.go:744-752 | limit and burst are positive, with defaults 30 and 60 |
| RateLimiter.Limiter.Allow | internal/api/api.go:754-782 | decision and buckets after one request, including the sweep over the bucket map |
| RateLimiter.ForgetsIdle | internal/api/api.go:758-769 | a minute after the last sweep exactly the other buckets idle for ten minutes are forgotten, and none before |
| RateLimiter.IdleIsFull | internal/api/api.go:758-776 | with burst <= 600 * limit, a bucket idle for ten minutes is as good as a new one |
| RateLimiter.AlwaysFaithful | internal/api/api.go:754-782 | over every run, each key's bucket is the one it would have on its own, or was swept while full |
| RateLimiter.SweepUnobservable | internal/api/api.go:758-781 | with burst <= 600 * limit, every decision equals that of a limiter that never deletes, and depends on the key's own times only |
| RateLimiter.SweepVisible | internal/api/api.go:758-769 | with burst > 600 * limit, a concrete run has different decisions with and without sweeping |
| RateLimiter.AdmissionBound | internal/api/api.go:754-782 | a key is admitted at most burst + limit * d times in any window of d seconds, even across sweeps |
| RateLimiter.AdmissionBoundIff | internal/api/api.go:754-782 | that bound holds on every run, key and window if and only if burst <= 600 * limit; beyond it ten minutes can admit one more |
| RateLimiter.AdmittedIff | internal/api/api.go:754-782 | the exact law: a request is admitted if and only if that keeps every window from an earlier request of its key, or from itself, within burst + limit * d |
| RateLimiter.SpacedNeverRefused | internal/api/api.go:758-781 | a key whose requests are at least 1/limit apart is never refused, whatever limit and burst, sweeps included |
| Storage.UniqueSorted | internal/storage/storage.go:160-172 | the sorted list of the distinct strings, a function of their set |
| Storage.StringLessIff | internal/storage/storage.go:170 | the order is lexicographic |
| Storage.Without | internal/storage/storage.go:295-303 | removes exactly the target |
| Storage.ListOf | internal/blacklist/blacklist.go:46-54 | every element of the set, in any order |
| Storage.FileStore.WriteTemporary | internal/storage/storage.go:97-122 | the temporary file is complete and synced, or not; in every version of the directory the state file is untouched |
| Storage.FileStore.Commit | internal/storage/storage.go:129-150 | the state file is the temporary one; its earlier versions can still come back unless the directory sync succeeded |
| Storage.FileStore.Save | internal/storage/storage.go:89-152 | for every failing or crashing step, the state file and the versions of it a crash can leave |
| Storage.Load | internal/storage/storage.go:194-223 | loads exactly version 1 with valid, disjoint lists |
| Storage.LoadedIff | internal/storage/storage.go:194-223 | exactly version 1 with valid addresses and no address on both lists is loaded, as the sets it lists |
| Storage.NewState | internal/storage/storage.go:183-224 | an existing file is loaded or refused unchanged; a missing one is created with empty lists |
| Storage.SharedState.AddBlacklist | internal/storage/storage.go:234-252 | refusal, no-op, or save before the change of memory, for every save fault |
| Storage.SharedState.AddWhitelist | internal/storage/storage.go:254-272 | refused on the blacklist, no-op on the whitelist, otherwise saved before memory changes, for every save fault |
| Storage.SharedState.RemoveBlacklist | internal/storage/storage.go:274-289 | no-op when absent, otherwise the list without the address is saved before memory changes, for every save fault |
| Storage.MutationAnswers | internal/storage/storage.go:234-289 | which calls succeed and what they do: adding is refused exactly for invalid text and addresses on the other list, removing exactly for invalid text; idle calls touch nothing under any fault; every other call saves and answers by how the save ended |
| Storage.MutationKeepsInv | internal/storage/storage.go:234-289 | an error leaves memory unchanged and its own mutation on disk only if it came after the rename; a nil saving mutation makes memory, the state file and every version a crash can leave equal |
| Storage.RestartAlwaysLoads | internal/storage/storage.go:132-150 | whatever a crash leaves of the renames since the last directory sync, a start finds valid disjoint lists that one of those saves, or the state before them, put there |
| Storage.EveryVersionSurvives | internal/storage/storage.go:132-150 | and each of those lists can be what is left |
| Storage.StartKeepsInv | internal/storage/storage.go:183-224 | a start loads the lists in place, or is refused only if there was no file and creating it failed |
| Storage.FirstStart | internal/storage/storage.go:194-200 | a directory without a state file satisfies the invariant as empty lists, so every first start, failed or not, is covered by the run theorem |
| Storage.RunKeepsInv | internal/storage/storage.go:89-289 | over every run of mutations, failures, crashes and starts, lists stay valid and disjoint, the file holds memory or memory with the last mutation that failed after its rename, and every crash is recovered to lists of the trail |
| Storage.AtomicUnderCrashIff | internal/storage/storage.go:132-150 | after any run, a mutation is atomic under crashes if and only if all lists that saves since the last directory sync put in place are its before- or after-state |
| Storage.AtomicWhenSettled | internal/storage/storage.go:234-289 | after a successful save or a recovery the next mutation is atomic |
| Storage.AtomicAfterFailureIff | internal/storage/storage.go:132-150 | after a mutation that failed past its rename, exactly another try of the same one is atomic |
| Storage.AtomicUnderDeathIff | internal/storage/storage.go:132-150 | under the death of the process alone, a mutation is atomic if and only if the lists in place are its before- or after-state |
| Storage.FailedSaveCanResurface | internal/storage/storage.go:137-150 | two additions that fail after their renames, then a crash in a second try of the latter, can bring back the former alone |
| Config.ValidateFields | internal/config/yaml.go:60-70 | accepts exactly known fields without repeats |
| Config.ValidateYaml | internal/config/yaml.go:41-73 | accepts exactly mappings of known sections without repeats, each with known fields without repeats |
| Config.LoadFromFile | internal/config/yaml.go:19-39 | key check, decoding over the defaults, validation |
| Config.DecodeInvertsEncode | internal/config/manager.go:222-232 | an encoded configuration decodes to itself over any base |
| Config.LoadInvertsEncode | internal/config/manager.go:222-232 | encodings pass the key check, and loading over defaults and over zero both invert encoding for valid configurations |
| Config.LoadersAgreeIff | internal/config/yaml.go:19-39 | what loadBytes accepts, LoadFromFile reads alike if and only if all keys are known and every field with a nonzero default is there |
| Config.UnknownSection | internal/config/manager.go:223-232 | an encoding with an unknown section appended passes loadBytes and is refused by LoadFromFile |
| Config.EncodeInjective | internal/config/manager.go:222 | different configurations have different encodings |
| Config.GeneralWrittenUnder | internal/config/manager.go:222 | log and state directory and host_based are written under their own keys |
| Config.FirewallWrittenUnder | internal/config/manager.go:222 | the firewall settings are written under their own keys |
| Config.DetectionWrittenUnder | internal/config/manager.go:222 | the detection settings are written under their own keys |
| Config.AlertsWrittenUnder | internal/config/manager.go:222 | the alert settings are written under their own keys |
| Config.LoggingWrittenUnder | internal/config/manager.go:222 | the logging settings are written under their own keys |
| Config.ApiWrittenUnder | internal/config/manager.go:222 | the API settings are written under their own keys |
| Config.AllowedIff | internal/config/yaml.go:10-17 | the key check allows exactly the section and field pairs that encodings write |
| ConfigManager.Application.ApplyConfiguration | internal/app/app.go:179-205 | vetoes changes of restart-only fields and bad alerts, otherwise replaces configuration, threshold and alerts |
| ConfigManager.Manager.SetApply | internal/config/manager.go:70-74 | installs the callback and changes nothing else |
| ConfigManager.Manager.WriteAtomically | internal/config/manager.go:175-213 | replaces the file or fails without effect |
| ConfigManager.Manager.ApplyLocked | internal/config/manager.go:152-174 | a veto changes nothing; otherwise one new revision, whose backup write may still fail |
| ConfigManager.Manager.Update | internal/config/manager.go:87-119 | an invalid candidate or failed write is refused unchanged; otherwise the candidate is applied, or the previous configuration is written back, for every failure placement |
| ConfigManager.Manager.Rollback | internal/config/manager.go:120-151 | an unknown version, missing or unloadable backup or failed write is refused unchanged; otherwise its configuration is applied or the current one written back |
| ConfigManager.Manager.Reload | internal/config/manager.go:75-86 | an unreadable or invalid file is refused unchanged; otherwise the file's configuration is applied |
| ConfigManager.NewManager | internal/config/manager.go:34-62 | succeeds exactly on valid configurations with working disk, as revision 1 or in memory |
| ConfigRevisions.RunExtends | internal/config/manager.go:46-174 | over every run, history is append-only and numbered, and each backup encodes its revision unless its own write failed |
| ConfigRevisions.RuntimeInStep | internal/app/app.go:179-205 | over every run, the runtime has the manager's configuration, threshold and alerts, and the general, firewall, API and logging sections and the window keep their start-up values |
| ConfigRevisions.UpdateTakenIff | internal/app/app.go:179-205 | after any run, with a working disk, an update is taken if and only if it passes each check, keeps the five restart-only parts of the start-up configuration and has good alerts; otherwise nothing changes |
| ConfigRevisions.ValidIff | internal/config/config.go:78-118 | what a configuration must satisfy, part by part |
| ConfigRevisions.RollbackOutcome | internal/config/manager.go:120-151 | rollback to a kept revision is never vetoed and succeeds unless a disk operation fails, with the old checksum and the file decoding to it |
| ConfigRevisions.RollbackFailures | internal/config/manager.go:120-151 | for every version and backup, damaged ones included: when a rollback succeeds, what it makes current, when the file then agrees, and that a failed one is undone exactly when the backup write was not what failed |
| ConfigRevisions.DamagedBackupApplied | internal/config/manager.go:120-151 | a backup with an unknown section is rolled back to without an error and leaves a file that the next start refuses |
| ConfigRevisions.FailedRollbackDisagrees | internal/config/manager.go:120-170 | after a failed backup write the rolled-back configuration stays current; the file agrees only if it could not be restored or nothing changed |
| ConfigRevisions.UpdateOutcome | internal/config/manager.go:87-119 | when an update succeeds, and that a failed one is undone exactly when the backup write was not what failed |
| ConfigRevisions.FailedBackupDisagrees | internal/config/manager.go:87-170 | after a failed backup write the candidate stays current; the file agrees only if it could not be restored or nothing changed |
| ConfigRevisions.ReloadOutcome | internal/config/manager.go:75-86 | when a reload succeeds, that a failed one changes nothing exactly when the backup write was not what failed, and that file and manager agree whenever the file's configuration was adopted |
| Daemon.Detector.SetHandlers | internal/detector/daemon.go:40-49 | handlers change only when neither running nor stopping |
| Daemon.Detector.Start | internal/detector/daemon.go:52-74 | launches exactly when neither running nor stopping, under its own cancel and done; a running daemon is left alone |
| Daemon.Detector.Stop | internal/detector/daemon.go:77-87 | the first call while running records the request and hands over that goroutine's cancel function; later calls do nothing |
| Daemon.Detector.Shutdown | internal/detector/daemon.go:137-150 | while running, records the request and hands over the cancel function and done channel of one and the same goroutine |
| Daemon.Detector.Exit | internal/detector/daemon.go:94-100 | clears running, stopping and cancel only if the daemon still belongs to this goroutine |
| Daemon.StepKeepsInv | internal/detector/daemon.go:40-161 | every step of every caller and goroutine keeps the lifecycle invariant |
| Daemon.LifecycleSafety | internal/detector/daemon.go:40-161 | in every interleaving: stopping implies running, cancel is set exactly while running, the active goroutine while running is the one done names and none is active otherwise, each channel closed once at its goroutine's end, no lost stop request, and Start never reports "still stopping" |
| Daemon.FinishedForever | internal/detector/daemon.go:89-102 | a goroutine past its deferred section calls no handler again |
| Daemon.ShutdownIsFinal | internal/detector/daemon.go:136-161 | a nil Shutdown means the goroutine it stopped makes no further handler call |
| Daemon.RequestsStop | internal/detector/daemon.go:77-87 | every Stop or Shutdown while running has the running goroutine stopped |
| Daemon.HandlersCalled | internal/detector/daemon.go:40-72 | a launched goroutine has, to its end, the handlers of the last SetHandlers accepted before its Start |
| Daemon.StartContinuesIff | internal/detector/daemon.go:52-74 | after any Start an active goroutine is running, and it is neither cancelled nor about to be if and only if no stop was in progress |
| Daemon.StartLasts | internal/detector/daemon.go:52-87 | if none was, nobody stops that goroutine before the next Stop or Shutdown; if one was, it is being stopped for good |
| Daemon.StartDuringStop | internal/detector/daemon.go:54-57 | on the run Start, Stop, Start the second Start returns nil while the only goroutine is being stopped |
| Retry.Delay | internal/alerts/retry.go:34-36 | one wait is between the exact power of two and 5/4 of it within range, and None is the panic of the random draw |
| Retry.Retry | internal/alerts/retry.go:12-45 | at most max(1, attempts) calls, again only after retryable failures; total waiting between the base and 5/4 of it; with every call failing temporarily, exactly which policies panic |
| Retry.BackoffExact | internal/alerts/retry.go:34-35 | under an explicit bound no wait overflows |
| Retry.BaseWaitClosed | internal/alerts/retry.go:34 | the base waiting before n calls is I * (2^(n-1) - 1) ms |
| Retry.PanicsIff | internal/alerts/retry.go:34-35 | for every initial backoff, some jitter draw up to attempt n panics if and only if the initial nanoseconds, as a 64-bit word, reach 2^63 after n doublings |
| Retry.OverflowsInRange | internal/alerts/retry.go:34-35 | for an initial backoff that fits, that is 10^6 * I * 2^n >= 2^63 |
| Retry.DefaultBackoffPanics | internal/alerts/retry.go:20-35 | the default of 100 ms panics with 39 attempts or more, and with no fewer |

## Left out

- RateLimiter.Limiter.Allow: tokens are exact reals instead of float64, so rounding is not modelled; `Time.Sub` does not saturate there, which needs runs of 292 years.
- History.HistoryIsRunLengthEncoding: speaks of signals as the daemon passes them, with type and severity only, recorded into an empty store.
- AttackEvents.Handler.HandleSample: of the runtime statistics only the status is modelled; the events carry numbers instead of their decimal text.
- Storage.SharedState.AddBlacklist: addresses are compared as text, as the source does, so two spellings of one address can be on both lists; which texts are valid is a parameter.
- Storage.FileStore.Save: the Windows branch and the `updated_at` stamp are not modelled; which of several unsynced renames a crash leaves is an arbitrary choice for each file.
- NftBackend.Backend.TableExists: printed lines carry no surrounding space, so trimming them is the identity and is not modelled.
- History.Store.Save: atomic replacement is one step that fails or succeeds; crashes inside it are not modelled.
- Config.LoadFromFile: YAML bytes and scalar conversions are not modelled; a document is its sections and typed fields, and a field of another scalar type is a decoding error.
- ConfigManager.NewManager: the history file is write-only and is not kept on the model's disk; its failure is one of the failures of the constructor.
- ConfigManager.Manager.WriteAtomically: create, write, sync and rename are one step that fails or succeeds; left-over temporary files and crashes inside it are not modelled.
- ConfigManager.Manager.Reload: reading the file and taking the lock are one atomic step; SHA-256 is taken as collision-free.
- Inspect.ParseRuleset: JSON bytes are not modelled; an element is a plain address, an address with `expires`, or unsupported, and all parse errors are one.
- Render.RenderRuleset: commands are a datatype, not text; set and chain names are constructors.
- NftBackend.Backend.Restore: snapshot bytes are the record they decode to.
- Kernel.Run: jump loops are not rejected; evaluation is bounded by the kernel's jump stack of 16, and Shield's own chains jump once.
- Retry.Retry: the operation is an arbitrary sequence of results, and a timer that is not interrupted waits exactly its duration.
- Daemon.LifecycleSafety: nothing is claimed about progress; a panic of the error handler inside the deferred function, which ends the process, is not a step; sampling itself is not modelled.
- Address zones, IPv6 text, process execution, capability probing and the backend registry.
- Netfilter hooks other than Shield's input chain, NAT and Docker networking; other tables appear only as unchanged.
- HTTP handlers, authentication, streaming, webhooks, logging, audit, sysctl and system inventory.
- The dashboard, installer and scripts.
