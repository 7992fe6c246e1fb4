# Verified model of dimsum's hard cores

dimsum is a DNS filter with an optional DHCPv4 server. This project models, in Dafny, the parts of it
whose correctness rests on an argument rather than on reading one function, and proves that argument:

- **Durable DHCP leases** (`Dhcp*.dfy`). The engine is a value-level state machine (`DhcpEngine`) with one
  invariant (`DhcpInvariant`) that every call keeps (`DhcpSteps`). The writer and its table
  (`DhcpStore`) join it in a system whose steps are packet, probe result, transaction, completion, tick,
  settings change, crash and restart (`DhcpSystem`, `DhcpRuns`); the theorems are about every run. `DhcpRestarts`
  carries them through restarts, `DhcpHorizon` says which writes the store refuses, `DhcpRefused` is a run that ends so.
  `DhcpReplies`, `DhcpOutcomes` and `DhcpDisk` say what each packet, result, tick, write and settings change must give,
  in terms of the settings, the client's own entry and the clock.
  `DhcpOwner` and `DhcpWriter` are the imperative engine and writer, each method proved equal to its function.
- **The fixed-memory answer cache** (`Dns{Arena,Cache,Eviction,Shard}.dfy`, `CacheReply.dfy`). One shard as a class:
  8-way buckets, CLOCK eviction and a block allocator, refining a plain lossy map.
- **The DNS codec and cache templates** (`Dns{Name,Records,Patched,Template,Hit,Eligible,Alias,Served}.dfy`). Name
  decompression, the record scanner, and the induction that lets a cached reply be patched without being
  parsed again. `DnsScanner` and `DnsBuilder` are the loops of the scanner and of the template builder.
  `DnsPersonal` is the path for uncached replies, which patches a copy and compares every name; `DnsSpelling` says when
  it cannot refuse.
- **The encoder of local replies** (`DnsReply.dfy`, `DnsSynthetic.dfy`, `DnsEncoder.dfy`): encode, scan and decode
  round trips.
- **The policy compiler** (`Policy*.dfy`). A linear matcher, the compact indexed snapshot that must agree with
  it, the two-layer overlay, and the printing and parsing of observed names. `PolicyMeaning` says which rule has the
  say and what is answered.
- **Single-flight resolution** (`Flights.dfy`), **the DHCP supervisor** (`Supervisor.dfy`), **lease names in DNS**
  (`Lease{Names,Views,Refresh,Domains,Build}.dfy`) and **the latency histogram** (`Latency.dfy`).

## How the model reads the code

- Durations and instants are integers of nanoseconds. The engine's clock sample is a pair of a wall and a
  monotonic reading; a stored time is a wall reading with an optional monotonic one, and the writer's comparison
  of two times uses the monotonic readings when both have one, as Go's does. Samples have a positive wall reading
  and a monotonic reading that never decreases along a run.
- A lease entry is named by its address; the pool bitmap is a sequence of booleans; byte buffers are sequences
  or arrays of octets. Shared tables that a mutex guards become state machines whose steps are the critical sections.
- A reply counts as given as soon as it is produced, whether or not it could be sent.
- Where the runtime hands a mutation to the writer, admission may be refused at any point; a transaction may be
  refused, may be durable, may be durable and break the store, or may end unknown with either effect.
- Hash functions, name normalisation, glob splitting and regular expressions are arbitrary functions. Case
  folding is ASCII.
- The cache is one shard; the arena, the slots and the bitmap are sequence-valued fields of a class.
- Links between policy rules are kept beside the rule records, in a sequence of their own.
- The library sort of suffix keys is an insertion sort; the index built from it is proved for every order that
  sorts the keys.

## Where code and intent differ

- The writer validates each row with the engine's own recovery check, which refuses a hold time before the expiry
  and compares monotonic readings when both times carry them. After the wall clock was set back and before it has caught up, a legitimate shorter grant can then be
  refused although its stored hold covers its stored expiry, and the writer then takes no more writes.
  `DhcpRefused.RenewalRefused` is a whole run that ends so. `DhcpHorizon.GrantHorizonIff`, `QuarantineHorizonIff`,
  `RetireHorizonIff` and `RetryHorizonIff` are the exact conditions, `DhcpHorizon.RetirementsPass` shows that deletions
  and retirements always pass, and `DhcpSystem.BatchAccepted` that nothing else is refused.
- A hold survives a restart in full only if the wall clock did not gain on elapsed time since it was written
  (`DhcpRestarts.RestartKeepsHoldIff`); `DhcpRestarts.NoDoubleGrantAcrossRestarts` carries exactly that condition,
  `DhcpRuns.NoDoubleGrant` needs none within one process.
- The configuration accepts a local domain that is a reverse name less its first label, such as
  `1.168.192.in-addr.arpa` (internal/dhcp/settings.go:60-73). A lease named by the last octet of an address then has
  its address record replaced by a reverse record, or the other way round (internal/localdns/leases.go:132-138).
  `LeaseDomains.ReverseZoneAccepted` and `LeaseDomains.AddressRecordLost` show it, `LeaseDomains.SafeDomainIff` says for
  which domains it cannot happen, `LeaseDomains.NamesDifferIff` for which configurations. Views are
  specified, and refreshing is proved, for every domain.

## Model

| member | source | states |
|---|---|---|
| `DhcpSettings.CheckReservations` | internal/dhcp/settings.go:159-187 | One pass with four seen-sets accepts exactly the lists whose reservations are valid one by one and pairwise differ in ID, identity, address and case-folded hostname |
| `DhcpSettings.ValidateSettings` | internal/dhcp/settings.go:108-189 | The imperative validator accepts exactly the settings the declarative predicate admits |
| `DhcpSettings.PoolAddressesUsable` | internal/dhcp/settings.go:79-87 | In validated settings every pool address is usable, not only the two ends that are checked |
| `DhcpSteps.CandidateEligible` | internal/dhcp/engine.go:335-360 | Whatever address the allocator picks is free and eligible for its requester: in the pool, usable, not server or gateway, and reserved for nobody else |
| `DhcpReplies.EligibleIff` | internal/dhcp/engine.go:265-290 | An address is allowed a client if and only if it is usable and not the server's or gateway's, and is the one reserved for its client ID, else for its hardware address, else in the pool and reserved for nobody |
| `DhcpReplies.CandidateIs` | internal/dhcp/engine.go:335-360 | The allocator picks the reserved address if it is free; else, below capacity, the requested one if it is free in the pool, else the lowest free one; and nothing otherwise |
| `DhcpOutcomes.FreshAddressIff` | internal/dhcp/engine.go:361-388 | A probe starts exactly when fewer than two run, the client has tries left and there is an address to pick; it is that address |
| `DhcpInvariant.UpdateKeeps` | internal/dhcp/engine.go:389-409 | Rewriting one entry keeps bitmap, identity index, counters, token uniqueness and capacity exact, given the local conditions every call establishes |
| `DhcpInvariant.RemoveKeeps` | internal/dhcp/engine.go:319-325 | Removing an entry frees its bit, its identity and its probe slot and keeps the whole invariant |
| `DhcpInvariant.InsertKeeps` | internal/dhcp/engine.go:361-388 | A new probing entry at a free address for an unused identity keeps the whole invariant, capacity and the two-probe limit included |
| `DhcpSteps.HandleKeeps` | internal/dhcp/engine.go:411-528 | Every packet keeps the invariant, changes entries only in the permitted ways, and any address in its reply is held for that very client |
| `DhcpReplies.RequestRefusedIff` | internal/dhcp/engine.go:457-490 | A heeded REQUEST is answered NAK if and only if its address is off the subnet, held under another identity, or held under the client's own but not allowed it; nothing then changes |
| `DhcpReplies.RequestGranted` | internal/dhcp/engine.go:485-511 | A REQUEST for the client's own bound or offered address repeats the ACK, with exactly the whole seconds left, when it repeats the packet and more than half the lease is left; else it writes a bound lease for leaseSeconds whose hold is never shortened |
| `DhcpReplies.RequestIgnored` | internal/dhcp/engine.go:457-495 | Every other REQUEST is ignored |
| `DhcpReplies.DiscoverOwn` | internal/dhcp/engine.go:429-456 | A DISCOVER from a client whose bound or offered address is still allowed is offered that address; a binding that is not is retired, an offer given up |
| `DhcpOutcomes.DiscoverFresh` | internal/dhcp/engine.go:429-456 | A DISCOVER from a client without entry starts a probe if it can and is not answered yet |
| `DhcpOutcomes.ReleaseMeans` | internal/dhcp/engine.go:512-516 | A RELEASE of the client's own bound address deletes the committed row; any other is ignored |
| `DhcpOutcomes.DeclineMeans` | internal/dhcp/engine.go:517-521 | A DECLINE to this server of the client's own bound or offered address quarantines it for ten minutes and never for less than its hold; any other is ignored |
| `DhcpOutcomes.InformMeans` | internal/dhcp/engine.go:522-526 | An INFORM with an address in use gets an ACK without address and changes nothing |
| `DhcpOutcomes.BareAckInforms` | internal/dhcp/engine.go:411-528 | An ACK without an address answers only an INFORM |
| `DhcpOutcomes.Unheeded` | internal/dhcp/engine.go:411-428 | A disabled engine, an invalid packet or a clock set back give no answer and change no entry |
| `DhcpSteps.CompleteProbeKeeps` | internal/dhcp/engine.go:553-575 | Every probe result, stale or repeated ones included, keeps the invariant and answers honestly |
| `DhcpOutcomes.ProbeMeans` | internal/dhcp/engine.go:553-575 | A free address is offered to the client that asked and held for thirty seconds, a conflicting one quarantined, a failed or late probe given up |
| `DhcpSteps.CompleteCommitKeeps` | internal/dhcp/engine.go:576-617 | Every write completion finishes exactly the entry that waits for its token and keeps the invariant |
| `DhcpOutcomes.CommitMeans` | internal/dhcp/engine.go:576-617 | A completed grant is acknowledged with exactly the whole seconds left, a completed deletion removes the entry, a failed write restores what was before, but a quarantine stays in force |
| `DhcpSteps.TokenNamesOne` | internal/dhcp/engine.go:542-552 | A completion token names at most one entry |
| `DhcpSteps.TickKeeps` | internal/dhcp/engine.go:622-653 | A tick keeps the invariant in whatever order it visits the entries |
| `DhcpOutcomes.TickEntryMeans` | internal/dhcp/engine.go:622-653 | Past its hold a durable entry's deletion is issued and any other entry is removed, as is a late probe; an unwritten quarantine is written again; every other entry stays |
| `DhcpOutcomes.TickClears` | internal/dhcp/engine.go:622-653 | After a tick that visits all entries nothing is overdue |
| `DhcpSteps.ApplyKeeps` | internal/dhcp/engine.go:683-732 | An accepted settings change keeps all durable ownership and the whole invariant under the new settings |
| `DhcpSteps.ApplyCheckMeans` | internal/dhcp/engine.go:683-715 | The checks pass if and only if the generation advances, nothing is pending, and every retained entry fits the new topology, reservations and capacity |
| `DhcpDisk.ApplyMeans` | internal/dhcp/engine.go:683-732 | An accepted change keeps exactly the durable and quarantined entries, unchanged but for the replayed ACK, and the identities that point to them; a refused one changes nothing |
| `DhcpSteps.RestoreKeeps` | internal/dhcp/engine.go:739-795 | A successful recovery starts in the invariant |
| `DhcpDisk.RecoverMeans` | internal/dhcp/engine.go:739-795 | A recovery restores each row as a durable entry with its remaining time, and points to it exactly the identities of bound rows |
| `DhcpSystem.OwnershipGuardsPass` | internal/dhcp/store.go:463-481 | The conflict, delete and unique-identity guards accept every mutation the engine has outstanding |
| `DhcpSystem.BatchAccepted` | internal/dhcp/store.go:438-481 | A whole transaction is accepted if and only if each mutation passes the writer's horizon check, and the resulting table again agrees with the engine |
| `DhcpSystem.TableBounded` | internal/dhcp/store.go:476-481 | Rows exist only at owned addresses, so the writer's capacity guard never fires |
| `DhcpSystem.TokenOrderRespected` | internal/dhcp/store.go:313-344 | The writer's token-order rule never refuses the engine |
| `DhcpDisk.AdmittedIff` | internal/dhcp/store.go:313-344 | A write just issued is queued exactly when its caller still wants it, the writer is open and has not failed, and fewer than 64 wait |
| `DhcpDisk.TransactionMeans` | internal/dhcp/store.go:373-493 | A transaction that can be committed on a disk that does so changes exactly its rows and ends all its writes successfully; one that cannot, or that the disk refuses, changes nothing, fails all and stops the writer; only an unknown outcome is not reported |
| `DhcpSystem.WorkKeeps` | internal/dhcp/store.go:373-422 | Whatever the disk does with a batch, table and engine stay in agreement: each row equals its entry's committed value, or its pending one once that transaction ended |
| `DhcpSystem.WriteDoneKeeps` | internal/dhcp/runtime.go:225-384 | Delivering the oldest completion keeps the agreement |
| `DhcpSystem.DispatchKeeps` | internal/dhcp/runtime.go:225-384 | Admission keeps the agreement, and a refused admission, turned into a failed completion, keeps it too |
| `DhcpRuns.FirstGood` | internal/dhcp/engine.go:161-201 | A fresh installation with validated settings and an empty table satisfies the system invariant, so the theorems about runs speak of real runs |
| `DhcpRuns.StepKeeps` | internal/dhcp/runtime.go:225-384 | Every possible step of engine, writer, crash and restart keeps the system invariant |
| `DhcpRuns.RunKeeps` | internal/dhcp/runtime.go:225-384 | So does every run |
| `DhcpRuns.CrashSafe` | internal/dhcp/engine.go:739-795 | Whichever outstanding writes have reached the disk, the rows form a snapshot that recovery accepts under the current settings |
| `DhcpRuns.CrashRecovers` | internal/dhcp/engine.go:739-795 | A restart with the same settings succeeds once the wall clock is not before the last known time, and agrees with the table |
| `DhcpRuns.ReachableCrashSafe` | internal/dhcp/store.go:438-493 | Both hold in every state reachable from a fresh installation |
| `DhcpRuns.ReplyHonest` | internal/dhcp/engine.go:302-318 | Every reply along a run that names an address names one held for the client it answers |
| `DhcpRuns.AckCommits` | internal/dhcp/engine.go:310-318 | An acknowledgement commits the engine to at least the seconds it promises |
| `DhcpRuns.PledgeDo` | internal/dhcp/engine.go:235-245 | A commitment survives every step before its deadline except a release |
| `DhcpRuns.NoDoubleGrant` | internal/dhcp/engine.go:411-541 | After an ACK for L seconds nobody else is offered or granted that address for L seconds of monotonic time unless its owner released it, through failed and lost writes, migration, decline, conflict, shorter renewals and settings changes |
| `DhcpRestarts.NoDoubleGrantAcrossRestarts` | internal/dhcp/engine.go:739-795 | The same through any number of crashes and restarts, as long as restarts do not read a wall clock that gained on elapsed time |
| `DhcpRestarts.RestartKeepsHoldIff` | internal/dhcp/engine.go:739-795 | A row is restored with its promised hold if and only if the wall clock did not gain since it was written |
| `DhcpHorizon.GrantHorizonIff` | internal/dhcp/store.go:457-459 | A grant passes the writer's horizon check if and only if its hold was raised, has no monotonic reading, or that reading reaches the new expiry |
| `DhcpHorizon.QuarantineHorizonIff` | internal/dhcp/engine.go:529-541 | A quarantine after a decline or a conflict passes if and only if the same holds of its ten minutes |
| `DhcpHorizon.RetireHorizonIff` | internal/dhcp/engine.go:430-447 | The retirement of a binding that no longer fits the settings passes if and only if its hold is raised or its stored row passes |
| `DhcpHorizon.RetryHorizonIff` | internal/dhcp/engine.go:622-653 | A tick's retry of a quarantine passes if and only if its hold is raised now or it passed before |
| `DhcpHorizon.RetirementsPass` | internal/dhcp/store.go:457-459 | In every reachable state, restarts and clock steps included, deletions and retirements pass, so only grants and quarantines can be refused |
| `DhcpHorizon.SteadyWallAccepted` | internal/dhcp/store.go:457-459 | While the wall clock has not lost ground, every grant passes |
| `DhcpRefused.RenewalRefused` | internal/dhcp/store.go:438-481 | For any settings with four-hour leases and any client, a run of eight steps with monotone clocks and a healthy disk ends with a renewal refused, the old row kept and the writer failed |
| `DhcpOwner.LeaseEngine.HandlePacket` | internal/dhcp/engine.go:411-528 | The in-place packet handler equals the state-machine function and keeps the invariant |
| `DhcpOwner.LeaseEngine.ChooseAddress` | internal/dhcp/engine.go:335-360 | The bitmap scan picks the specified candidate |
| `DhcpOwner.LeaseEngine.CountOccupied` | internal/dhcp/engine.go:326-334 | The counting loop yields the number of owned or reserved addresses |
| `DhcpOwner.LeaseEngine.ProbeFinished` | internal/dhcp/engine.go:553-575 | In-place probe completion equals the specified one |
| `DhcpOwner.LeaseEngine.WriteFinished` | internal/dhcp/engine.go:576-617 | In-place write completion equals the specified one |
| `DhcpOwner.LeaseEngine.RunTick` | internal/dhcp/engine.go:622-653 | The tick loop over the table equals the specified fold |
| `DhcpOwner.LeaseEngine.ApplySettings` | internal/dhcp/engine.go:683-732 | All or nothing: a failed check changes no field, success equals the specified new engine |
| `DhcpOwner.LeaseEngine.CheckSettings` | internal/dhcp/engine.go:683-715 | The checks in order give the specified verdict |
| `DhcpOwner.LeaseEngine.ReadRows` | internal/dhcp/engine.go:739-780 | The recovery loop accepts exactly rows with valid fields, distinct addresses and distinct bound identities, and builds both indexes |
| `DhcpOwner.LeaseEngine.RestoreFrom` | internal/dhcp/engine.go:739-795 | Recovery succeeds exactly when specified and otherwise changes nothing |
| `DhcpWriter.LeaseWriter.Admit` | internal/dhcp/store.go:313-344 | Admission equals the specified queue step |
| `DhcpWriter.LeaseWriter.TryBatch` | internal/dhcp/store.go:438-481 | The guard loop yields the specified table or refuses |
| `DhcpWriter.LeaseWriter.WorkOnce` | internal/dhcp/store.go:373-422 | One pass of the worker equals the specified transaction step |
| `DnsArena.FindRun` | internal/dnscache/arena.go:8-42 | The circular search returns a free run if and only if one exists |
| `DnsCache.LayoutInsert` | internal/dnscache/arena.go:8-42 | Filling a slot with a free run keeps the used bits exactly the disjoint union of the slots' blocks |
| `DnsCache.LayoutRemove` | internal/dnscache/arena.go:44-56 | Emptying a slot frees exactly its blocks |
| `DnsCache.StoreKeeps` | internal/dnscache/cache.go:117-166 | Writing a blob and its record keeps layout, key index and stored contents exact |
| `DnsShard.Shard.PickVictim` | internal/dnscache/cache.go:132-146 | Second chance in a full bucket always finds a victim within two rounds; it is a referenced one only if all are |
| `DnsShard.Shard.Evict` | internal/dnscache/clock.go:16-33 | The CLOCK sweep removes exactly one key whenever there is one, a referenced one only if all are, and every other key keeps its value |
| `DnsShard.Shard.PutEntry` | internal/dnscache/cache.go:97-166 | A put is refused only if it does not fit an empty arena; otherwise it is the latest in the history, and besides the key's old value it forgets one key exactly when the bucket is full of other keys, by second chance, and further keys only while those that stay leave no room for the blob |
| `DnsEviction.NothingForgotten` | internal/dnscache/cache.go:117-166 | With a way in the bucket and room beside the other keys a put forgets no other key |
| `DnsShard.Shard.PlaceBlob` | internal/dnscache/cache.go:147-166 | Evicting until a run is free terminates with the blob stored; slots leave only while those that are left leave no room for it |
| `DnsShard.Shard.LookupEntry` | internal/dnscache/cache.go:189-250 | A key is a hit exactly while it is fresh, or positive and within the stale window, and fits the buffer; a hit returns its latest accepted put with the client's ID and the flags it should have, sets its reference bit and nothing else; a miss leaves the buffer unchanged and forgets at most the key, if it can never be served again |
| `DnsShard.ServesMeans` | internal/dnscache/clock.go:10-15 | Whole seconds of age decide the same as instants do |
| `DnsShard.LatestAfterPut` | internal/dnscache/cache.go:97-166 | A put makes its value the latest for its key and leaves the latest value of every other held key; with it the shard's own history says that each held key holds its latest accepted put |
| `DnsShard.ServedHonestly` | internal/dnscache/cache.go:226-245 | A negative entry is never served stale, and while fresh every TTL is the original minus the age and at least one |
| `CacheReply.HitReply` | internal/dnscache/cache.go:226-245 | The reply has the client's ID and question, QR, opcode, AA, TC, RA, Z and response code as stored, RD and CD from the client, AD clear, aged TTLs, and every other byte as stored |
| `CacheReply.FlagsMerge` | internal/dnscache/cache.go:229-231 | The byte-wise merge gives exactly those flags |
| `DnsName.DecodeName` | internal/dnswire/name.go:41-105 | The loop with its visited list decodes exactly the name the recursive walk describes, with the same error otherwise, and folds ASCII case |
| `DnsName.DecodedNames` | internal/dnswire/name.go:41-105 | Every decoded name is a valid name of at most 255 octets inside the message; an uncompressed one is the bytes it was read from |
| `DnsName.PlainWalk` | internal/dnswire/name.go:41-105 | A valid uncompressed name decodes to itself wherever it stands |
| `DnsRecords.ScanPlaced` | internal/dnswire/records.go:140-185 | Scanned records lie one behind the other, each with its TTL between its name and its data |
| `DnsRecords.ScanWithoutNames` | internal/dnswire/records.go:140-185 | The boundary check only refuses more: without it the same records are read |
| `DnsPatched.WalkSame` | internal/dnswire/ttl.go:11-15 | If every marked label leads to marked labels and marks agree up to case, a walk from a mark cannot tell two messages apart |
| `DnsPatched.AddKeeps` | internal/dnswire/ttl.go:18-35 | Adding a name keeps the marks closed and equal in both messages |
| `DnsPatched.NextKeeps` | internal/dnswire/records.go:140-185 | A record untouched but for its TTL scans to the same record, all its names keeping their meaning |
| `DnsPatched.ScanKeeps` | internal/dnswire/records.go:140-185 | So does the rest of the message |
| `DnsTemplate.PatchKeepsMeaning` | internal/dnswire/ttl.go:49-135 | A message accepted as a template can be patched blindly in ID, flags, TTLs and question case: it scans again to the same records, offsets, EDNS data and canonical owner and embedded names |
| `DnsHit.PreparedFits` | internal/dnswire/ttl.go:99-134 | The patch table lies behind the question, inside the message, in order, and no TTL is below the lifetime |
| `DnsHit.PreparedDescribes` | internal/dnswire/ttl.go:98-131 | A template is negative exactly for NXDOMAIN or when nothing answers the type asked for; it has one patch per aging record with that record's TTL, except that in a negative template an authority's is the least of its TTL, the minimum of its data and the configured bound |
| `DnsHit.NegativeBounded` | internal/dnswire/ttl.go:108-131 | A negative template has an authority and outlives neither the configured bound nor any authority's TTL and minimum |
| `DnsEligible.AcceptedIff` | internal/dnswire/ttl.go:50-131 | A response becomes a template if and only if it scans with all names bounded, is a complete standard response without error or NXDOMAIN with plain EDNS and plain records of which one ages, fits the table, and, if negative, is backed by an authority that leaves time |
| `DnsHit.TableReads` | internal/dnswire/ttl.go:121-125 | The table decodes to the patches it was made from |
| `DnsHit.HitKeepsMeaning` | internal/dnscache/cache.go:226-245 | The reply of a cache hit scans to the same response code, question, EDNS data, records and canonical names, and while fresh each TTL is at least one and makes up with the age what the template keeps |
| `DnsServed.PreparedStores` | internal/dnscache/cache.go:97-116 | What put stores satisfies everything the shard assumes of a template |
| `DnsServed.ServedMeansUpstream` | internal/dnscache/cache.go:189-250 | From upstream response to client: whenever the shard serves, the client's message means what the upstream's did, response code and flags included, negative answers within their authority's minimum |
| `DnsAlias.NegativeAuthorityIff` | internal/dnswire/ttl.go:143-190 | The check succeeds if and only if unambiguous aliases lead in at most sixteen links to a name without alias, and then tells whether a zone above that name is in authority |
| `DnsAlias.FollowMeans` | internal/dnswire/ttl.go:143-190 | A name has no alias, aliases that disagree, or aliases that agree on one target, first found where it says |
| `DnsAlias.EnclosingMeans` | internal/dnswire/ttl.go:192-199 | Enclosing zones are exactly the suffixes that start at a label |
| `DnsScanner.Mark` | internal/dnswire/ttl.go:18-35 | The bitmap loop adds exactly the specified marks, or refuses |
| `DnsScanner.ValidateData` | internal/dnswire/records.go:282-400 | The per-type checks accept and read exactly what the specification does, with the same errors |
| `DnsScanner.CheckParams` | internal/dnswire/records.go:322-343 | The service-parameter loop accepts exactly lists with increasing keys that fill the data |
| `DnsScanner.CheckWindows` | internal/dnswire/records.go:356-382 | The type-bitmap loop accepts exactly increasing windows without trailing zero octets |
| `DnsScanner.Scanner.Init` | internal/dnswire/records.go:88-98 | The scanner starts where the parsed question ends |
| `DnsScanner.Scanner.NextRecord` | internal/dnswire/records.go:140-200 | One in-place step of the scanner equals the specified step |
| `DnsBuilder.Inspect` | internal/dnswire/ttl.go:64-86 | The first pass accepts exactly what is specified and learns whether there is an answer, an alias and an authority |
| `DnsBuilder.FollowAliases` | internal/dnswire/ttl.go:143-190 | Scanning once per link equals the specified chain walk |
| `DnsBuilder.WritePatches` | internal/dnswire/ttl.go:99-134 | The second pass fills the caller's table with the specified patches and folds their least TTL |
| `DnsBuilder.PrepareTemplate` | internal/dnswire/ttl.go:49-135 | The builder accepts exactly the specified messages, with the same errors, and its table holds the specified patches |
| `DnsPersonal.PersonalizeReply` | internal/dnswire/personalize.go:43-101 | The patch loop and the comparing scan yield exactly the specified reply, written to the start of the buffer, or none when it has no room or some name would change, and then the buffer is unchanged |
| `DnsPersonal.ScansAgree` | internal/dnswire/personalize.go:14-33 | If every name of the candidate decodes like the original's, the candidate scans to the same records |
| `DnsPersonal.PersonalizeKeepsMeaning` | internal/dnswire/personalize.go:43-101 | A personalised reply has the client's ID, RD, CD and spelling of the question, the upstream's response code and other flags, and otherwise the same records, offsets, EDNS data and canonical owner and embedded names |
| `DnsSpelling.PersonalizeAccepts` | internal/dnswire/personalize.go:43-101 | A response to the client's question that spells it out, and whose names all lead through bytes patching leaves alone, is always personalised |
| `DnsSynthetic.SyntheticRoundTrip` | internal/dnswire/synthetic.go:14-55 | A built reply scans cleanly and gives back exactly the answers and authority records it was built from, under the request's ID with each flag bit as it should be; EDNS is one OPT at the end, with version 0 and the request's DO bit |
| `DnsSynthetic.RecordScans` | internal/dnswire/records.go:140-185 | A well-formed uncompressed record scans and re-encodes to itself |
| `DnsSynthetic.NegativeSOAFits` | internal/dnswire/synthetic.go:58-68 | The negative record is well formed for every zone, and its minimum is the given lifetime |
| `DnsReply.BuildReply` | internal/dnswire/build.go:43-102 | The buffer holds exactly the specified reply, zero-address answer, truncation and recursion bits and capped UDP size included, and stays as it was behind it; the refusals are exactly the stated ones, and then nothing is written |
| `DnsReply.ReplyReads` | internal/dnswire/build.go:6-102 | Every built reply has the request's ID and each flag bit as it should be, and scans cleanly to the request's question, a zero address under its name exactly when one was asked for and fits, and one OPT with version 0 and the request's DO bit if it had one |
| `DnsEncoder.BuildSynthetic` | internal/dnswire/synthetic.go:14-55 | The buffer holds exactly the specified reply and is unchanged behind it; too little room and invalid requests are refused exactly when stated |
| `DnsEncoder.CollectSections` | internal/dnswire/relocate.go:10-65 | The scanner loop collects exactly the specified sections |
| `PolicyNames.NameFromWire` | internal/policy/normalize.go:89-115 | Accepts exactly complete wire names of at most 255 octets, folds ASCII case, and yields valid stored names only |
| `PolicyNames.ReverseName` | internal/policy/index_suffix.go:30-44 | The result is the wire form of the labels in reverse order |
| `PolicyNames.SuffixKeys` | internal/policy/index_suffix.go:30-84 | A prefix of a reversed name equals a reversed key if and only if the key's labels end the name |
| `PolicyNames.EncodeInjective` | internal/policy/normalize.go:155-163 | The wire form tells names apart |
| `PolicyPresentation.DisplayName` | internal/policy/normalize.go:132-153 | The printing loop yields the escaped form, label by label |
| `PolicyPresentation.ParseObservedName` | internal/policy/presentation.go:13-69 | The parsing loop equals the specified reader, errors included |
| `PolicyPresentation.DisplayParses` | internal/policy/presentation.go:13-69 | Parsing what was printed gives back every canonical name, the root and arbitrary octets included |
| `PolicyPresentation.DisplayInjective` | internal/policy/normalize.go:132-153 | No two canonical names print alike |
| `PolicyRules.ScoreFits` | internal/policy/compile.go:180-185 | A score fits one octet |
| `PolicyRules.WinnerUnique` | internal/policy/precedence.go:22-41 | Precedence is a strict order: a set of applicable rules has one winner |
| `PolicyRules.KeepWins` | internal/policy/compile.go:276-297 | Keeping the heavier of two keeps the winner, in whatever order chains are visited |
| `PolicyRules.DecidesOnce` | internal/policy/precedence.go:46-78 | The required decision is determined by the rules alone |
| `PolicyMeaning.DecisionMeans` | internal/policy/precedence.go:22-78 | No applicable rule forwards; else among the applicable rules of the most specific scope a custom allow allows, else a custom deny blocks, else a subscription allow allows, else any deny blocks; the rule named is of that class, the most specific, and of those the first by ID; on request exactly the applicable sources are listed |
| `PolicyMeaning.AboutIff` | internal/policy/match.go:248-281 | A compiled rule matches exactly the names its kind and pattern are about |
| `PolicyMeaning.TakenIff` | internal/policy/match.go:43-156 | A rule compiles if and only if its scope fits its class, it has an ID and a class, and its pattern is one of its kind |
| `PolicyMeaning.LessPrecedes` | internal/policy/precedence.go:40 | IDs are ordered by their first differing octet, a prefix first |
| `PolicyOracle.LabelGlob` | internal/policy/match.go:285-306 | The dynamic program decides the declarative glob relation |
| `PolicyOracle.MatchesForm` | internal/policy/match.go:248-281 | Matching one compiled rule equals the declarative relation |
| `PolicyOracle.CompileMatcher` | internal/policy/match.go:43-103 | Accepts exactly lists of valid rules with distinct IDs |
| `PolicyOracle.LinearMatch` | internal/policy/precedence.go:46-78 | The linear scan gives the required decision and sources |
| `PolicyExact.AddKey` | internal/policy/exact_build.go:19-39 | A key is stored in one page at a fresh offset and no stored key changes |
| `PolicyExact.Finish` | internal/policy/exact_build.go:47-56 | Every offset into the pages means the same key in the contiguous arena |
| `PolicyExact.SomeFree` | internal/policy/compile.go:104-106 | While there are fewer keys than slots some slot is free |
| `PolicyExact.LoadLeavesRoom` | internal/policy/compile.go:104-106 | A table sized for 70 percent load has more slots than keys |
| `PolicyExact.ProbeStep` | internal/policy/index_exact.go:40-54 | One probe decides or leads on, and never all the way round, so lookup and insertion end |
| `PolicyExact.Find` | internal/policy/index_exact.go:40-54 | Lookup returns the key's head, or zero if the key is not in the table |
| `PolicyExact.ExactBuilder.Insert` | internal/policy/exact_build.go:58-75 | Insertion maps the key to the new head and returns the old one |
| `PolicyExact.ExactBuilder.Complete` | internal/policy/exact_build.go:47-56 | The finished table means the same map |
| `PolicyChains.LinkIn` | internal/policy/index_suffix.go:60-72 | Filing a rule under a key puts it in front of that key's chain and disturbs no other chain |
| `PolicySuffix.BuildSuffixes` | internal/policy/index_suffix.go:45-73 | For every sorted input, whatever the order of equal keys, each key's chain lists exactly the rules with that key, and other chains are untouched |
| `PolicySuffix.FindSuffix` | internal/policy/index_suffix.go:74-84 | Binary search returns the key's head or zero |
| `PolicyText.Provenance.Record` | internal/policy/compile.go:149-170 | A recorded rule is appended and every earlier record keeps its meaning |
| `PolicyText.RecordReads` | internal/policy/provenance.go:28-34 | A record reads back as the rule it was made from, scope included |
| `PolicySnapshot.Visit` | internal/policy/compile.go:276-297 | Following a chain counts exactly its admitted rules and keeps winner and sources |
| `PolicySnapshot.SuffixStage` | internal/policy/compile.go:299-306 | The chain for the next label adds exactly the suffix rules of that length |
| `PolicyMatch.Match` | internal/policy/compile.go:273-337 | The indexed match gives the required decision, number and sources under every selection; skipping the fallback loop never matters when no fallback rule is admitted |
| `PolicyMatch.HasEligibleFallback` | internal/policy/scope.go:52-60 | False exactly when no fallback rule is admitted |
| `PolicyMatch.RuleAtMeans` | internal/policy/provenance.go:64-73 | A number names the rule compiled at that position |
| `PolicyCompile.LabelScore` | internal/policy/compile.go:180-182 | The octet-sized counter never wraps |
| `PolicyCompile.SnapshotBuild.Add` | internal/policy/compile.go:131-209 | Each accepted rule is recorded and filed under its key; refusals are exactly the stated ones |
| `PolicyRefine.CompileSnapshot` | internal/policy/compile.go:58-253 | The compiler accepts exactly the lists the linear one accepts and the snapshot represents them |
| `PolicyRefine.SnapshotRefinesLinear` | internal/policy/match.go:10-12 | For every rule list and name the snapshot and the linear matcher give the same result, rule, scope and sources |
| `PolicyRefine.EvaluateNumber` | internal/policy/compile.go:346-372 | Evaluation applies local, pause and original-question precedence to the required decisions |
| `PolicyRefine.EvaluatesOnce` | internal/policy/precedence.go:83-109 | So evaluation is determined by the rules, whichever matcher is used |
| `PolicyMeaning.EvaluationMeans` | internal/policy/precedence.go:83-109 | A local name is answered locally, else a pause as paused, both without rule; else an alias whose original question is allowed gets that decision with the sources of both; else the name's own |
| `PolicyOverlay.LayersValid` | internal/policy/overlay.go:46-58 | The namespaces keep the layers' IDs apart, so both layers are valid exactly when the joint list is |
| `PolicyOverlay.WinnerSplit` | internal/policy/overlay.go:91-113 | The heavier of two layers' winners wins both layers |
| `PolicyOverlay.WithSelection` | internal/policy/scope.go:42-50 | The view's skip flags are set only when nothing is skipped |
| `PolicyOverlay.MatchOverlay` | internal/policy/overlay.go:91-113 | The two-layer match gives the decision one list of all rules demands |
| `PolicyOverlay.NumberNamesWinner` | internal/policy/provenance.go:64-73 | The returned number names the winning rule, owner rules first |
| `PolicyOverlay.OverlayEqualsFlat` | internal/policy/overlay.go:46-113 | Layered compilation and matching equal one flat snapshot in decision and number, under every selection |
| `Flights.StepKeeps` | internal/resolve/inflight.go:47-134 | Every critical section keeps the invariant |
| `Flights.ReachableSafe` | internal/resolve/inflight.go:47-134 | Under every interleaving counters equal the running workers and stay within 128 and 16, waiter counts equal outstanding waits and stay within 64, and before the close a caller only joins work that runs and is not cancelled |
| `Flights.JoinMeans` | internal/resolve/inflight.go:47-99 | In every reachable state a client joins a listed key's flight while it has fewer than 64 waiters, a refresh always and without waiting; an unlisted key starts a flight within the limits of running workers; otherwise, and after the close, nothing changes |
| `Flights.CancelledIff` | internal/resolve/inflight.go:101-131 | Along every run work is cancelled if and only if its last waiter left or the table was closed while it was listed |
| `Flights.ListedIff` | internal/resolve/inflight.go:81-113 | From any reachable state on, a listed flight stays listed if and only if neither its own worker finishes nor its own last waiter leaves, so a detached worker never removes its successor |
| `Flights.ClosedDrains` | internal/resolve/inflight.go:126-134 | After the close nothing starts and every finishing worker lowers the count the close waits for |
| `Flights.ClosedStays` | internal/resolve/inflight.go:126-134 | Once closed and without workers, no worker runs and none ever does again |
| `Flights.FlightTable.JoinStatus` | internal/resolve/inflight.go:47-99 | The in-place join equals the specified critical section |
| `Flights.FlightTable.WorkerDone` | internal/resolve/inflight.go:81-96 | The worker's epilogue equals the specified one |
| `Flights.FlightTable.WaiterLeaves` | internal/resolve/inflight.go:101-113 | Leaving equals the specified critical section |
| `Flights.FlightTable.CloseAll` | internal/resolve/inflight.go:126-131 | Closing cancels exactly the listed flights |
| `Supervisor.StepKeeps` | internal/app/dhcp.go:106-358 | Every critical section or foreign call keeps the invariant, and generations only move forward |
| `Supervisor.LifecycleSafe` | internal/app/dhcp.go:106-304 | Over all interleavings the applied generation never decreases nor exceeds the desired one, a store opens only when none is open, and at most one is |
| `Supervisor.CloseIsFinal` | internal/app/dhcp.go:332-358 | After Close begins nothing becomes visible again; once it has returned no runtime remains or appears |
| `Supervisor.PublishApplies` | internal/app/dhcp.go:271-304 | Publishing before any close applies the desired generation, visibly if it is on, and without runtime or store if it is off |
| `Supervisor.ReconcileSucceeds` | internal/app/dhcp.go:144-304 | From every good state with a free gate before any close, a reconciliation of the newest generation whose calls succeed runs to its end with that generation applied |
| `Supervisor.FailureKeeps` | internal/app/dhcp.go:165-178 | A failed one keeps what is applied, visible and running, and frees the gate |
| `LeaseNames.VariantInjective` | internal/localdns/leases.go:119-130 | Fallback labels of different addresses, or different variants, differ |
| `LeaseNames.VariantIsAddress` | internal/localdns/leases.go:57-67 | Every fallback is an address label, so no name a client chose can equal it |
| `LeaseNames.ChooseFallback` | internal/localdns/leases.go:119-130 | The suffix loop ends with the first variant nobody owns |
| `LeaseViews.ChosenDiffer` | internal/localdns/leases.go:103-131 | No two addresses get the same label |
| `LeaseViews.ChosenOnce` | internal/localdns/leases.go:69-71 | A label does not depend on the order of the rows |
| `LeaseViews.ChosenMeans` | internal/localdns/leases.go:103-131 | An address is called by its reserved name if that is free; without reservation by its host's name if that is free, unclaimed and not in the form of an address; else by the first variant of host- and its octets that nobody owns |
| `LeaseViews.RecordsExactIff` | internal/localdns/leases.go:132-138 | A view holds both records of every row if and only if no two of all their names are equal |
| `LeaseViews.RecordsInvert` | internal/localdns/leases.go:132-138 | While a lease lasts, and no two record names are equal, its forward and reverse records answer and invert each other, deny other types, and live at most thirty seconds and never past the expiry; afterwards neither answers |
| `LeaseViews.NoOtherNames` | internal/localdns/leases.go:208-231 | Names no row has are not answered |
| `LeaseViews.AttributionMeans` | internal/localdns/leases.go:177-207 | An address is displayed as its lease while it lasts, a reservation by its name before and after, and only a lease that lasts lends its hardware address |
| `LeaseViews.ForwardNamesDiffer` | internal/localdns/leases.go:132-138 | All forward names differ, in every domain |
| `LeaseDomains.NamesDifferIff` | internal/localdns/leases.go:103-138 | For a configuration, every valid row list has pairwise different record names if and only if no address may be called the last octet of one whose reverse name lies in the domain |
| `LeaseDomains.SafeDomainIff` | internal/localdns/leases.go:132-138 | A domain keeps all record names apart, whatever is reserved or leased, if and only if it is not a reverse name less its first label |
| `LeaseDomains.ReverseZoneAccepted` | internal/dhcp/settings.go:60-73 | The validator accepts every such domain |
| `LeaseDomains.KnownClash` | internal/dhcp/settings.go:60-73 | `1.168.192.in-addr.arpa` is accepted, and there the lease 192.168.1.5 of a host named 5 has one name for both its records |
| `LeaseDomains.AddressRecordLost` | internal/localdns/leases.go:132-138 | There a lease named by its own last octet loses its address record to its own reverse record |
| `LeaseRefresh.RefreshEqualsRebuild` | internal/localdns/leases.go:154-231 | A refreshed view answers every lookup, name and hardware address like a rebuilt one: in every domain for rows in address order, as the engine lists them, and in any order when no two record names are equal |
| `LeaseBuild.BuildLeases` | internal/localdns/leases.go:72-152 | The loops build exactly the specified view, in every domain |
| `LeaseBuild.RefreshExpiries` | internal/localdns/leases.go:158-175 | Succeeds exactly when only lifetimes changed, and then shares everything else |
| `Latency.BinContains` | internal/stats/latency.go:10-27 | Every 32-bit duration lies in its own bin, and its index is below 464 |
| `Latency.BinsAdjoin` | internal/stats/latency.go:19-27 | Bins follow one another without gap or overlap |
| `Latency.BoundsFit` | internal/stats/latency.go:19-27 | All bounds fit 32 bits and the last bin ends at the greatest 32-bit duration |
| `Latency.BinUnique` | internal/stats/latency.go:10-27 | A duration lies in no other bin |
| `Latency.MiddleClose` | internal/stats/latency.go:5-8 | The middle of a bin is within a thirty-second of its values, and exact below 32 |
| `Latency.RankIsCeiling` | internal/stats/latency.go:44-45 | The split formula is the ceiling of n times percent over 100 |
| `Latency.Count` | internal/stats/latency.go:29-35 | The sum is the number of recorded values |
| `Latency.Percentile` | internal/stats/latency.go:39-56 | For recorded values in any order the result is the middle of the bin of the true nearest-rank value, hence within a thirty-second of it; nothing exactly for an empty histogram or an unsupported percentile |

## Left out

- Sockets, ARP, netlink, packet encoding and the retry of replies: only abstract requests, probe results and replies are modelled.
- SQLite pragmas, WAL budget, marker file and fsync: a transaction has one of five outcomes.
- The writer's drain on close and the runtime's status and view publication.
- Memory accounting of policy snapshots and of the cache: budgets in bytes, 32-bit offsets and counters that such budgets keep in range are unbounded integers here.
- Regular-expression compilation, cost accounting and budgets; IDNA; random hash seeds.
- Disabled sources of a policy build: the model compiles the list that remains after they are dropped.
- Cache sharding, budget computation and key construction: one shard is modelled, with keys as byte strings whose tail is the canonical question name.
- mDNS scanning, the decision to cut an oversized reply short (internal/dnswire/build.go:111-132), and the answers of zones.
- DnsPersonal.PersonalizeReply: kinds of failure are not told apart.
- PolicyOracle.CompileMatcher: does not model the count and cost budgets of regular expressions, because the expressions themselves are not modelled.
- DnsShard.Shard.LookupEntry: the statistics counters are not modelled.
- Flights.FlightTable.WaiterLeaves: the choice between result and cancelled context is the caller's and does not touch the table.
- LeaseBuild.BuildLeases: rows are IPv4 rows with distinct addresses, as the engine lists them, and reservation names differ case-insensitively, as the validated settings guarantee.
- Latency.Percentile: counts are unbounded integers, so the sum cannot wrap.
- Configuration files, admin interface, clients, list download, history, upstream exchange and the resolver pipeline around the single-flight table.
