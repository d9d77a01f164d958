# A verified model of botex

botex counts the requests of each address and each network in rolling time windows, decides which of
them to block, and keeps the blocks in a key-value store. This project models the parts of it that
have state and proves what they keep over whole runs.

- **Rolling windows** (`Buckets`, `Windows`, `WindowRuns`, `LatestRuns`, `Requests`, `RequestRuns`,
  `History`, `HistoryRuns`, `HistorySteps`, `Stats`). Sorted buckets with early-exit expiry stand for
  the plain list of all events ever added. The classes have the fields and loops of the program; each
  method is tied to a function on values, and the `...Runs` modules prove what those functions keep in
  every run. Every expiry takes the clock readings the code takes, one for each structure.
- **Blocking** (`IPData`, `Botex`, `Protocol`, `ProtocolRuns`, `QueueRuns`, `BlockReasons`,
  `Resolver`, `ResolverRuns`). The classes hold the decision on one address, the block worker and the resolver.
  `Protocol` and `ResolverRuns` are state machines over all interleavings: requests, batches of
  updates, resolver results, worker steps, changes of the block list and of the whitelist rules. The
  queue holds references, so a worker sees the object as it is when the worker takes it.
  `BlockReasons` runs the protocol together with the requests of every address object; a message carries
  the statistics that a request of the run has sent, possibly late, out of order or more than once.
- **Networks** (`Network`, `NetworkRuns`, `Networks`, `NetworksRuns`). The counters of one network, its
  map between times and addresses, the table of networks, the periodic grouping and the blocks that
  follow, each attempt to block at its own clock reading.
- **Store and keys** (`Store`, `Block`, `BlockRuns`). Prefix scans over lexicographically ordered keys,
  entries with a time to live, the three key families of the block list.
- **Cookie framing** (`Padding`). Padding as in section 6.3 of RFC 5652 and cipher block chaining as in
  section 6.2 of NIST SP 800-38A, over any permutation of 16-byte blocks.

`Data` holds the shared records and `Sums` the sums over maps. Times and durations are unbounded
integers, ratios are reals. Clock readings, whitelist rules, the outcome of store accesses, the
initialisation vector and the order in which a loop visits a Go map are parameters or arbitrary choices.

What the proofs show to be otherwise than one may expect:

- The message that `SetHostname` sends reports no requests, so `history.update` ignores it, and a
  resolved address is looked at again only with its next request or the next forced batch
  (`Protocol.BatchStopsAtEmpty`, `Protocol.NetWorkerQueues`). For the same reason one selected address
  without requests ends a forced batch early: those behind it in the order of the table are not looked
  at, and which these are is up to the order (`Protocol.NetWorkerQueues`).
- A request is lost if its address is dropped between the look-up and the count
  (`HistorySteps.OnlyLateCountsLost`, `HistorySteps.RequestMayBeLost`).
- An empty DNS name (a PTR record of the root) makes an address ask for its name once more
  (`ProtocolRuns.EmptyNameAsksAgain`), and while the empty name stays in the cache no lookup of the
  address is delivered (`ResolverRuns.ReadInVain`, `ResolverRuns.EmptyNameDeliversNothing`).
- A request for a slice before the newest one leaves the stored copy of that slice out of date,
  except in one coincidence, and a failing write leaves a finished slot without its copy
  (`Stats.AddKeepsStored`).
- A system that fails the test gets no record of its own if its number or the network that happens to
  stand for the group is seen to be blocked at that moment (`Networks.WholeSystemBlocked`). If what
  blocked it runs out before the tick is over, it is then not blocked (`Networks.TickMayUnblock`).
- Two requests at the same nanosecond displace each other in the time-address map, so the last address
  wins (`NetworkRuns.ExactAfterExpire`).

`dafny verify dfyconfig.toml` checks everything.

## Model

| member | source | states |
|---|---|---|
| Buckets.KeyForSlice | window.go:87-89 | A bucket key is a multiple of the slice width, less than one width away from its time; for times of at least 0 it is the start of the slice that holds the time, for negative ones Go's truncating `%` rounds up |
| Buckets.IncrementCounts | window.go:56-65 | Counting an event changes the count of exactly one bucket, by one, and keeps the buckets sorted and non-empty |
| Buckets.DropBelowKeeps | window.go:99-108 | On sorted buckets the early `break` loses nothing: exactly the buckets not below the threshold survive, with their counts |
| Buckets.ExpireRefines | window.go:92-112 | Early-exit expiry of the buckets is filtering of the plain list of keys they stand for |
| Buckets.BucketsOfCounts | window.go:52-85 | The buckets built by counting a list of keys hold each key's multiplicity, and their sum is the length of the list |
| Buckets.SumDominates | requests.go:171-173 | If bucket by bucket the whole is at least its two parts together, so are the totals |
| Buckets.BucketsInSpan | window.go:87-89 | Sorted buckets that start at multiples of W within a span of N*W number at most N+1 |
| Windows.Window.Add | window.go:52-66 | The new buckets are the old ones with the event's bucket incremented; sortedness is kept |
| Windows.Window.Count | window.go:69-85 | The returned number is the sum of all bucket counts |
| Windows.Window.Expire | window.go:92-112 | Afterwards exactly the buckets not below now - N*W are left with their counts; the size is returned |
| Windows.Window.Map | window.go:114-129 | The returned map has exactly the keys and counts of the buckets |
| Windows.MapWindow.Add | mapwindow.go:50-59 | Only the window of the request's user agent changes; it is created if it was missing |
| Windows.MapWindow.Total | mapwindow.go:62-73 | The returned number is the sum of all agents' windows, whatever the order of the loop |
| Windows.MapWindow.TotalMap | mapwindow.go:76-87 | The returned map has exactly the agents, each with the sum of its window |
| Windows.MapWindow.Expire | mapwindow.go:98-113 | Every agent's window is expired at its own clock reading, windows left empty disappear, and the number of buckets left is returned, whatever the order of the loop |
| Windows.RequestsWindow.Add | requestwindow.go:58-66 | The request comes first in the list; the oldest one goes when the list is longer than its cap |
| Windows.RequestsWindow.Requests | requestwindow.go:69-81 | The returned list is the whole list, newest first |
| Windows.RequestsWindow.Expire | requestwindow.go:89-119 | Requests go from the back of the list up to the first that is not older than the ttl |
| WindowRuns.RunTracks | window.go:52-112 | After any run whose expiries read clocks of at most `now`, the buckets from now - N*W on are those of the list of all events ever added |
| WindowRuns.ExactAfterExpire | window.go:69-112 | Right after an expiry the buckets and their sum are those of all events ever added whose key is at least now - N*W, whatever earlier expiries ran |
| WindowRuns.CountBetween | window.go:69-112 | So the count lies between the exact numbers of events of the last (N-1)*W and of the last N*W |
| WindowRuns.BucketBound | window.go:92-112 | If no event lies in the future, an expiry leaves at most N+1 buckets |
| LatestRuns.AlwaysNewest | requestwindow.go:58-66 | In every run the list is the newest k of all requests ever added, with k at most max(maxSize, 0) |
| LatestRuns.GoneForAReason | requestwindow.go:58-119 | In every run whatever is no longer in the list was pushed out by newer requests or is too old |
| LatestRuns.ExactAfterExpire | requestwindow.go:89-119 | With arrivals in time order an expiry leaves exactly the newest min(cap, number still fresh) |
| Requests.Requests.CanBeExpired | requests.go:102-108 | True exactly when creation and last expiry are both more than one slice ago |
| Requests.Requests.Expire | requests.go:111-132 | If creation and last expiry are both more than one slice ago, the five structures expire in order, each at its own clock reading, the expiry is stamped with the last reading, and the result is the number of entries left; otherwise nothing changes and the result is the length of the latest list |
| Requests.Requests.Add | requests.go:135-188 | First an expiry, then one more request in every structure it belongs to; the numbers sent are the sums of the three windows afterwards |
| RequestRuns.WindowsAgree | requests.go:111-163 | In every run with non-decreasing clocks, bucket by bucket all >= app + other and all >= the sum over the agents, with equality from the largest threshold used on |
| RequestRuns.StatsSound | requests.go:171-188 | Every statistics message has App + Other <= Total, none of them negative, and a ratio in [0,1] |
| RequestRuns.NoStaleCount | requests.go:102-130 | With requests at most N*W old on arrival, no bucket counted with a request started more than (N+1)*W before it, even when the expiry is skipped; the slack is the longest time one expiry takes, 0 for a single clock reading |
| RequestRuns.WindowAfterExpire | requests.go:121-160 | In every run an expiry leaves in each window - all, app, other and every user agent's - exactly the young keys of all requests ever added that concern it |
| RequestRuns.TotalAfterExpire | requests.go:121-121 | In every run an expiry leaves in the total window exactly the young keys of all requests ever added |
| RequestRuns.NothingInvented | requests.go:111-163 | In every run no bucket of any window counts more than the requests ever added that fall into it |
| RequestRuns.AppCountReal | requests.go:171-188 | The app requests reported with a request are at most those ever added whose bucket started no more than (N+1)*W before |
| RequestRuns.ReportsAtLeast | requests.go:171-188 | In every run Total, App and Other as reported with a request are each at least the number of the run's requests of their kind whose bucket is not before the end of the expiry less N*W |
| RequestRuns.ReportsAtMost | requests.go:171-188 | And each at most the number of those whose bucket started no more than (N+1)*W before |
| RequestRuns.ReportsExactly | requests.go:135-188 | If the address expires with the request, each is exactly the number of the requests of its kind before it whose bucket is young enough, and one more if the request is of that kind |
| RequestRuns.ReportsRatio | requests.go:174-188 | The reported ratio times the reported Total is the reported App |
| RequestRuns.LatestAreNewest | requests.go:146-157 | In every run the list of latest requests is the newest k of the address' own requests, each marked as app request exactly if it is no asset, with k at most the cap; what is missing was pushed out or is older than N*W |
| RequestRuns.LatestFresh | requests.go:125-125 | An expiry that is not skipped takes from the end of the list exactly the requests up to the first that is not too old |
| RequestRuns.EmptyLosesNothing | requests.go:121-131 | If an expiry reports no entries, all five structures are empty and no request of the last (N-1)*W was there |
| RequestRuns.OldIsEmptied | requests.go:111-132 | Once all requests are older than N*W, the next expiry leaves nothing in any of the five structures |
| History.History.Add | history.go:137-173 | An address is created on its first request; only its own entry changes |
| History.History.Expire | history.go:87-110 | Afterwards the table has exactly the addresses that were skipped or still hold entries, each expired at its own clock readings, whatever the order of the loop |
| History.DroppedIsEmpty | history.go:93-108 | In every run an address is dropped if and only if it is expirable and all five of its structures are empty, and then none of the requests of the last (N-1)*W was its |
| History.OldIsDropped | history.go:93-108 | An expirable address whose requests are all older than N*W is dropped by the next expiry |
| HistoryRuns.EntriesAreRuns | history.go:87-173 | In every run of the table each entry is what its own requests and expiries since its creation make it |
| HistoryRuns.NothingRecentLost | history.go:87-110 | If each Add runs without interruption, in every run, for every address and every slice of the last (N-1)*W, the count in the table is exactly the number of requests of the address ever added in that slice, 0 if the address is not in the table |
| HistorySteps.OnlyLateCountsLost | history.go:148-164 | When look-ups, counts and expiries interleave, the count is exactly that number less the requests whose object was dropped between their look-up and their count |
| HistorySteps.LookThenCount | history.go:148-164 | Without an expiry in between, the look-up and the count are the whole Add |
| HistorySteps.RequestMayBeLost | history.go:93-164 | With one in between a request can be lost: a run in which the address is dropped and the request is in no slice of the table |
| Stats.StatsWindows.Add | stats.go:80-128 | The request is counted in its slice and in the totals under its kind; when a slice is new, the newest slot so far is copied to the store |
| Stats.StatsWindows.Expire | stats.go:130-151 | Slots not after the threshold are taken off, and their counters off the totals |
| Stats.TotalsAddUp | stats.go:109-150 | In every run the totals are the sums over the live slots in all four fields, Total = Blocked + Human + Whitelisted globally and in each slot, and no field goes negative |
| Stats.ExactAfterExpire | stats.go:109-150 | Right after an expiry the counters of every slice are the numbers of all requests of each kind ever added in it if the slice is after the threshold, and zero otherwise; the totals are their sums |
| Stats.TotalsAfterExpire | stats.go:109-150 | And the totals are the numbers of all requests of each kind ever added in the slices after the threshold |
| Stats.TruncateIs | stats.go:153-155 | A slice starts at a multiple of its width, at most at the time and less than one width before it |
| Stats.AddKeepsStored | stats.go:84-100 | Counting a request, whether the write of the copy succeeds or fails, keeps every finished slot stored with its final counters if and only if the request falls into the newest slot; or into a later one, and the newest slot is stored now or was before; or into a slice without a slot before the newest one whose stored copy has the very same counters |
| Stats.ExpireKeepsStored | stats.go:130-151 | An expiry keeps every finished slot stored |
| Stats.FinishedAreStored | stats.go:88-100 | With request times that never decrease and successful writes, after every run each slot but the newest has a stored copy with its final counters and start |
| Store.BadgerDB.Get | store/badger.go:60-82 | The value of a key, if the key is there and has not expired |
| Store.BadgerDB.SetEx | store/badger.go:100-112 | Exactly one key changes, to expire after its ttl; nothing changes when the write fails |
| Store.BadgerDB.Scan | store/badger.go:125-127 | Seek, ValidForPrefix and Next visit exactly the live items with the prefix, in order |
| Store.BadgerDB.All | store/badger.go:190-219 | The values of exactly the live keys with the prefix, in order |
| Store.BadgerDB.Count | store/badger.go:242-260 | The number of live keys with the prefix |
| Store.BadgerDB.Remove | store/badger.go:115-143 | Exactly the live keys with the prefix disappear, everything else stays as it was |
| Store.PrefixContiguous | store/badger.go:125-127 | In lexicographic order the keys with a prefix are not interrupted by others |
| Store.ScanExact | store/badger.go:125-127 | From the first key not before the prefix to the first without it lie exactly the keys that have it |
| Store.ScanKeys | store/badger.go:190-219 | A scan finds a key if and only if it is live and has the prefix |
| Store.ScanDistinct | store/badger.go:196-210 | A scan finds no key twice |
| Block.Families | block.go:421-434 | The three key families are disjoint by prefix, all extend `bl`, and no host cache or statistics key does |
| Block.KeysInjective | block.go:421-434 | Within a family the key determines the address, the network and the number, except that all numbers of at most 0 share the one key `bl:asn` |
| Block.DecimalInjective | block.go:425-430 | Different numbers have different decimal notations |
| Block.DecimalIs | block.go:425-427 | The notation of a number is digits only, without leading zero, and stands for the number |
| Block.BlockOutcome | block.go:81-297 | For addresses, systems and networks alike: the record is written, to last for the ttl, if and only if something is given that is not seen to be blocked, its key is not live and neither access fails; the two errors are reported exactly when nothing is given and when a needed access fails; without an error it is blocked afterwards |
| Block.Block.BlockIP | block.go:81-104 | Writes the record unless a live one is there; a missing address or a failing store is an error and changes nothing |
| Block.Block.BlockNetwork | block.go:169-199 | The same for a network, and nothing when its system or network is seen to be blocked already |
| Block.Block.BlockASN | block.go:263-297 | The same for an autonomous system |
| Block.Block.IsBlockedByASN | block.go:353-363 | True exactly when the system's or the network's key is live, where a failed read counts as not live |
| Block.Block.IsBlocked | block.go:365-375 | True exactly when one of the three keys is live and its read does not fail; with a working store exactly when one is live |
| Block.Block.RemoveIP | block.go:107-110 | Exactly the live keys that extend the address' key disappear |
| Block.Block.Clear | block.go:378-386 | Exactly the live keys of the block list disappear |
| Block.Block.Recheck | block.go:400-412 | The loop over the address records, all decoded into one variable: a record that cannot be decoded repeats the previous one, and panics if there is none; if all records are addresses under their own keys, exactly the live ones that the rules whitelist disappear |
| Block.RecheckLoopExact | block.go:400-412 | If all records are addresses filed under their own keys, the loop over them, however it interleaves with the removals, removes exactly those that the rules whitelist, and does not panic |
| Block.RemoveIPExact | block.go:107-110 | With 16-byte addresses, removal by prefix takes exactly one key |
| BlockRuns.NeverOverwritten | block.go:81-104 | A live record is neither overwritten nor prolonged by any blocking operation |
| BlockRuns.StaysUntilExpiry | block.go:81-199 | Through any run from any store that does not remove it a record stays as written until it expires |
| Block.RecheckKeeps | block.go:400-412 | A recheck of any store only takes away, and only keys that extend the key of a live address record that the rules whitelist |
| Block.RecheckAny | block.go:400-412 | For any store: the recheck panics if and only if there are live address records and the first cannot be decoded, and then changes nothing; otherwise exactly what is live and extends the key of a whitelisted live address record is gone |
| BlockRuns.RecheckTakesExactly | block.go:400-412 | If address records are filed under their own keys, that is exactly the live records that the rules whitelist |
| BlockRuns.BlockedUntilTTL | block.go:81-104 | An address blocked at t counts as blocked at every moment before t + BlockTTL, unless it is removed |
| BlockRuns.StaysWellKeyed | block.go:421-423 | In every run from a well-keyed store each address record stays filed under its own 16-byte address |
| BlockRuns.RecheckExact | block.go:400-412 | After the recheck an address is blocked if and only if it was and the rules do not whitelist it; other keys are as before |
| BlockRuns.ClearExact | block.go:378-386 | Clearing unblocks everything and leaves the host cache and the statistics alone |
| BlockRuns.RemoveIPOnly | block.go:107-110 | Unblocking one address unblocks that one only |
| IPData.IPData.constructor | ipdata.go:69-100 | A new address has no name, no statistics, no requests and no block, and is whitelisted as the rules say |
| IPData.IPData.Add | ipdata.go:103-113 | Notes the time, counts the request, sends the new statistics, and tells the kind: blocked if it is blocked, else whitelisted if it is whitelisted, else human |
| IPData.IPData.Update | ipdata.go:116-130 | The whole new state of the address, the queue and the requests to the resolver after an update; the address enters the queue if and only if it is judged to be blocked with the new statistics and the update is forced or more than the block TTL has passed since its stamp, and then it is stamped, and marked if forced |
| IPData.IPData.SetHostname | ipdata.go:133-145 | Sets the name and asks for an update in a message that reports no requests |
| IPData.IPData.ShouldBeBlocked | ipdata.go:148-200 | The decision, the reason, the whitelisting and the request for the name, in the code's order of tests |
| IPData.BlocksExactly | ipdata.go:148-200 | An address is to be blocked if and only if its name is known, it is not whitelisted, it was active or created within the last slice, and App exceeds the maximum, or App exceeds the minimum with the ratio at or above the limit, or its system or network is blocked |
| IPData.VerdictExactly | ipdata.go:148-200 | The name is asked for if and only if all else speaks for blocking and there is no name yet; the address is whitelisted from the moment the rules say so; the reason is that of the first test it failed; nothing else changes |
| IPData.UpdatedExactly | ipdata.go:116-130 | The closed condition under which an update queues the address, stamps it and marks it |
| Botex.Botex.BlockWorker | botex.go:385-408 | The worker takes the oldest entry and uses the present state of the address: if that is not blocked, or force-blocked, its record with name, system and reason is written for the ttl unless a live one is there or an access fails; afterwards the address counts as blocked |
| Botex.WorkRecords | botex.go:385-408 | So an address that was not blocked, or was force-blocked, has a live record afterwards if the store works |
| Botex.ToBlockExact | botex.go:356-373 | The batch for the forced update holds exactly the force-blocked addresses and the unblocked ones whose system or network is seen to be blocked, with their cached statistics |
| Protocol.Addresses.Update | history.go:113-126 | The loop over a batch does what the specification of a batch says: it returns at the first unknown address or message without requests |
| Protocol.BatchStopsAtEmpty | history.go:120-122 | Nothing behind the first unusable message of a batch has any effect |
| Protocol.BatchExact | history.go:113-126 | A batch about different addresses updates an address, and queues it, exactly as if its message came alone, if and only if neither its message nor one before it is of an unknown address or without requests; otherwise it leaves the address alone |
| Protocol.BatchQueues | ipdata.go:116-130 | Of a batch, forced or not, an address enters the queue if and only if its message is reached, it is judged to be blocked with the new statistics, and the batch is forced or more than the block TTL has passed since its stamp; stamp, mark and statistics change accordingly |
| Protocol.ForcedBatchQueues | botex.go:375-375 | Of a forced batch exactly those addresses enter the queue that are reached and judged to be blocked, however recently they were blocked before |
| Protocol.Addresses.BlockASNNetWorker | botex.go:355-375 | The whole worker step: the batch is collected from the table in any order, each look into the block list at its own time, and then updated by force |
| Protocol.Collect | botex.go:356-373 | The loop over the table, in any order, collects exactly the batch of the selected addresses |
| Protocol.NetWorkerQueues | botex.go:355-375 | After the worker step an address enters the queue if and only if it is force-blocked, or not blocked and seen to be in a blocked system or network, no such address up to it in the order of the table is without requests, and it is judged to be blocked with its cached statistics |
| Protocol.StepValid | ipdata.go:128-128 | Every step keeps all references in the queue and in the table valid and leading to the right address |
| Protocol.StepQueued | botex.go:380-416 | Every step keeps the queue first-in first-out, every entry justified, and every address record in the store unchanged from the start or traceable to a taken entry |
| ProtocolRuns.EveryBlockJustified | botex.go:380-416 | In every run from any store, each address record was there unchanged at the start, or traces back to an entry into the queue at which the name was known, the address was not whitelisted by the rules of that moment, it was recently active, and it failed one of the tests |
| BlockReasons.EveryRunSound | requests.go:179-199 | In every run of requests, expiries and protocol steps, in which messages with requests repeat what a request of the run has sent, the statistics of every known address and of every entry into the queue were sent by a request step of that address |
| BlockReasons.ForcedIsSent | botex.go:356-375 | The batch that the worker collects after a block repeats only what was sent, so the runs include it |
| BlockReasons.ReportedInRun | requests.go:150-199 | The app requests that a step of a run reports are at most those of its address up to it in the run whose bucket started no more than (N+1)*W before |
| BlockReasons.EveryBlockHasRequests | botex.go:380-416 | In every run, behind each address in the store that was not there unchanged at the start there is a justified entry into the queue, and behind that a request step of the run with whose statistics it was judged; unless its system or network was blocked, the run has, up to that step, more app requests of the address than the limit, none in a bucket that started more than (N+1)*W before |
| BlockReasons.ManyRequestsQueue | ipdata.go:116-180 | And conversely: if a run has counted more app requests in an address object than the limit, in buckets not more than N*W before the end of a request to it, the statistics sent with that request, whenever they arrive, queue the address if and only if its name is known, it is not whitelisted, it is active, and the update is forced or its stamp is older than the block TTL |
| ProtocolRuns.EveryRunOrderly | ipdata.go:122-128 | In every run each address object reaches BlockIP at most once unless force-blocked, and enters the queue unforced only when more than BlockTTL passed since its last entry |
| ProtocolRuns.EveryRunAsksOnce | ipdata.go:193-197 | If names are never empty, in every run each address object asks for its name at most once |
| ProtocolRuns.EntriesFarApart | ipdata.go:122-128 | With no forced entries, k entries of one object span more than (k-1)*BlockTTL |
| ProtocolRuns.WhitelistedForGood | ipdata.go:153-168 | In every run an object that is whitelisted stays so and never enters the queue again |
| ProtocolRuns.EmptyNameAsksAgain | ipdata.go:193-197 | An address that asked for its name and would still be blocked asks again if and only if the name it gets is empty |
| QueueRuns.EveryRunStamped | ipdata.go:122-128 | In every run an address' stamp is the moment at which it last entered the queue, it is marked if and only if it ever entered by force, and it counts as blocked if and only if the worker has taken it |
| QueueRuns.TableIsUses | history.go:139-164 | In every run the table has exactly the addresses that had a request since they were last dropped, with the system and the creation time of the first such request and the time of the last |
| QueueRuns.EntersExactly | history.go:113-126 | After any run a message puts its address into the queue if and only if all messages up to it are of addresses in use and report requests, its name is known, it is not whitelisted, its last request or creation lies in the last slice, the statistics fail a test, and the batch is forced or the address last entered more than the block TTL before |
| QueueRuns.WorkBlocks | botex.go:385-408 | In every run the worker takes the oldest entry not yet taken; if it never took the address before, or that once entered by force, and the store works, the address is blocked afterwards, with the name, system and reason of that moment if no live record was there |
| QueueRuns.AsksExactly | ipdata.go:193-197 | A message asks for a name if and only if there is none yet and all else speaks for blocking; until it comes the address does not enter the queue |
| QueueRuns.NameDecides | history.go:176-187 | After a name has been given, the next message queues the address if and only if the name is neither empty nor the placeholder nor whitelisted and the rest speaks for it |
| Resolver.Resolver.Resolve | resolver.go:238-255 | The lookup has one more try and no error; it goes to the end of the queue if it had tries left and the publication succeeds, and is dropped otherwise |
| Resolver.RequeuedExactly | resolver.go:238-255 | And it counts as published once more if and only if it had tries left; nothing else changes |
| Resolver.Resolver.ReverseLookup | resolver.go:148-193 | The whole lookup is the worker's atomic steps one after the other, in every branch |
| ResolverRuns.StepKeepsPlace | resolver.go:129-193 | Every step moves a lookup from one place to one place |
| ResolverRuns.StepKeepsSound | resolver.go:148-255 | Every step keeps lookups under way without error and with as many tries as publications, and delivered and cached names among DNS' answers |
| ResolverRuns.EveryRunSound | resolver.go:129-255 | In every interleaving, from any cache of names DNS once gave, each submitted lookup is in exactly one place, is published at most ResolverTries times, and what is delivered has no error and a name DNS once gave for the address it was submitted with |
| ResolverRuns.DroppedUsedUp | resolver.go:129-255 | If every publication succeeds and the queue loses nothing, in every interleaving only those lookups are dropped that have been published ResolverTries times and then failed once more |
| ResolverRuns.ReadInVain | resolver.go:158-192 | A look into the cache leads neither to a result nor to a question to DNS if and only if it fails or finds an empty name |
| ResolverRuns.EmptyNameDeliversNothing | resolver.go:158-192 | In every run, as long as an empty name stays in the cache and nobody is asking DNS for it already, no lookup of its address is delivered |
| ResolverRuns.StepUsesWork | resolver.go:238-246 | Every move of a worker and every loss uses up some of the remaining work, in which ResolverTries - Tries leads |
| ResolverRuns.MovesBounded | resolver.go:129-255 | In every run there are at most 6 * ResolverTries moves for each submitted lookup |
| Network.NetworkData.HandleRequest | plugins/network.go:129-170 | Counters, totals, ratio and the time-address map after a request |
| Network.NetworkData.UpdateStats | plugins/network.go:201-213 | Totals are the sums of the maps; the ratio times the total is the number of app requests, and without requests the ratio stays |
| Network.UpdateCount | plugins/network.go:215-232 | The returned number is the sum of the map's counts |
| Network.ExpireStats | plugins/network.go:259-278 | Buckets below the threshold disappear; the number of removed ones is returned |
| Network.NetworkData.ExpireIPs | plugins/network.go:238-257 | Pairs older than the threshold disappear from both directions, nothing else changes |
| Network.NetworkData.Expire | plugins/network.go:280-292 | The three maps and the time-address map expire at their own clock readings; the totals are recomputed only if a bucket went |
| Network.SeenIs | plugins/network.go:166-170 | After a request the time-address map has its pair and, of the others, those with another time and another address; it stays a bijection |
| Network.DropOldIs | plugins/network.go:244-254 | On a bijection in time order the early `break` keeps exactly the pairs that are young enough |
| NetworkRuns.BooksInOrder | plugins/network.go:129-292 | After every request and every expiry the totals equal the sums of their maps, App + Other <= Total, and the ratio is in [0,1] |
| NetworkRuns.ExpiredBooks | plugins/network.go:280-290 | An expiry keeps the books in order also when the `numRemoved > 0` guard skips the update |
| NetworkRuns.KeepsFirstSystem | plugins/network.go:130-132 | In every run a network keeps the autonomous system of its first request |
| NetworkRuns.CountersAfterExpire | plugins/network.go:259-292 | Right after an expiry Total, App and Other are the numbers of all requests ever handled of their kind whose slice is young enough, whatever earlier expiries removed |
| NetworkRuns.AlwaysBijection | plugins/network.go:165-170 | In every run the time-address map is a bijection, so it holds each address and each time at most once |
| NetworkRuns.ExactAfterExpire | plugins/network.go:238-257 | Right after an expiry of the addresses the map holds exactly the young pairs not displaced by a later request of the same address or time, also when times repeat |
| NetworkRuns.LastRequestsKept | plugins/network.go:238-257 | With pairwise distinct request times these are exactly the addresses whose last request is not older than the threshold, each at that time |
| Networks.Networks.HandleRequest | plugins/network.go:340-352 | Only the data of the request's network change; they are created if missing |
| Networks.Networks.Update | plugins/network.go:473-507 | All networks are expired and stay in order, and the groups and the total are those of the visits, whatever the order of the loop |
| Networks.Networks.BlockSystems | plugins/network.go:512-529 | The block list after one attempt for every system's group, in any order, each at its own time and with its own failing accesses, and the number that failed the test |
| Networks.Networks.BlockNetworks | plugins/network.go:531-552 | The same for the networks' groups |
| Networks.Networks.UpdateAndBlock | plugins/network.go:461-575 | One tick: expired networks, their groups, the block list after both loops, and a recheck if and only if some group has more requests than the limit at a mean ratio above the limit; the networks' data stay in order |
| Networks.GroupIsMembers | plugins/network.go:478-506 | A group exists exactly for the keys that occur, and its total, app and other counts, ratio, size and system are those of its members |
| Networks.GroupingConserves | plugins/network.go:476-506 | Whatever the key, the groups' totals add up to the total and their sizes to the number of networks |
| Networks.MeansInUnit | plugins/network.go:514-514 | The mean ratio of every group is in [0,1] |
| Networks.BlockedAtOwnAttempt | plugins/network.go:512-552 | At its own attempt a group that fails the test is blocked if and only if it was before or the store can be read and written |
| Networks.LiveAtEnd | plugins/network.go:512-552 | After a loop a key is live if and only if its record was there before and lasts until then, or it was written in the loop and its ttl is not over |
| Networks.LoopChanges | plugins/network.go:512-552 | A loop leaves what lasts until its end as it was; whatever it writes is the record of a group with more requests than the limit at a mean ratio above the limit, to last for the ttl from its own attempt |
| Networks.WholeSystemBlocked | plugins/network.go:512-529 | If no other group has its key, a system is blocked by its number after the loop if and only if its record was there before and lasts, or it failed the test, was not seen to be blocked at its attempt, the store worked, and the new record lasts |
| Networks.TickConserves | plugins/network.go:461-507 | For networks with their books in order, the system totals, the network totals and the overall total are equal, group sizes add up to the number of networks, and all mean ratios are in [0,1] |
| NetworksRuns.EntriesAreRuns | plugins/network.go:332-352 | In every run of requests, ticks and removals the data of each network are what its own requests and expiries since its creation make them |
| NetworksRuns.EveryNetworkSound | plugins/network.go:129-352 | In every run each network has its system set, its books in order, a bijective time-address map, and is filed under its own name |
| NetworksRuns.EveryTickConserves | plugins/network.go:461-507 | After every tick of every run, and at any other time, the system totals, the network totals and the overall total are equal, group sizes add up to the number of networks, and all mean ratios are in [0,1] |
| NetworksRuns.TickCounts | plugins/network.go:473-476 | In every tick each counter of a network is exactly the number of its requests since its creation whose slice is young enough |
| Networks.TickBlocks | plugins/network.go:512-552 | If the store works, every failing group satisfies IsBlockedByASN when it has been tried; what lasts until the end of the tick is unchanged, and every new or changed record is that of a failing group |
| Networks.TickAtEnd | plugins/network.go:512-552 | At the end of a tick the number of a system, or a network, is blocked if and only if its record was there before and lasts, or was written in this tick and lasts |
| Networks.TickMayUnblock | plugins/network.go:512-552 | A failing group that is blocked when it is tried may be unblocked at the end: the record from before ran out in between |
| Networks.TickBlocksWholeSystem | plugins/network.go:512-552 | If none of its networks was blocked when it was tried and the store works, a failing system of any number is then blocked with all its networks, and still is at the end if the record lasts |
| Networks.TickWrites | plugins/network.go:473-552 | In terms of the networks visited: whatever a tick writes or changes is the record of a system or an address block whose networks together have more requests than the limit at a mean ratio above the limit |
| Networks.TickBlocksAll | plugins/network.go:473-552 | And every such system and address block is blocked at its attempt, if the store works |
| Networks.TickRechecks | plugins/network.go:554-557 | Some group fails the test if and only if there is such a system or address block |
| Networks.TickGroups | plugins/network.go:478-506 | The two groupings are by the number of the system and by the address block of the visited networks |
| Padding.Pad | webserversocket.go:373-379 | The input followed by p bytes of value p, up to a multiple of 16 bytes |
| Padding.Unpad | webserversocket.go:353-371 | Succeeds exactly when the input ends in p bytes of value p for some p from 1 to 16, and takes them off |
| Padding.UnpadPad | webserversocket.go:353-379 | Unpadding a padded string gives it back, for every string |
| Padding.UnpadExact | webserversocket.go:353-379 | On whole blocks unpadding gives x if and only if the input is the padding of x |
| Padding.UnchainChain | webserversocket.go:329-347 | Undoing the chaining gives the blocks back, for every block permutation and every initialisation vector |
| Padding.ChainUnchain | webserversocket.go:329-347 | And chaining what was unchained gives the cipher blocks back |
| Padding.ChainBlock | webserversocket.go:329-330 | Cipher block i is the cipher of the exclusive or of plain block i and cipher block i - 1, the first one with the initialisation vector |
| Padding.XorIs | webserversocket.go:329-347 | A bit of the exclusive or is set if and only if it is in exactly one of the two |
| Padding.Encrypt | webserversocket.go:317-333 | The initialisation vector followed by the chained padding for keys of 16, 24 or 32 bytes, an error for all others |
| Padding.Decrypt | webserversocket.go:335-351 | The unpadded unchained data, an error for a bad key length, and a panic for data that are too short or not whole blocks |
| Padding.DecryptEncrypt | webserversocket.go:317-351 | decrypt(encrypt(m)) = m for every message, every initialisation vector and every accepted key |
| Padding.DecryptExact | webserversocket.go:317-351 | Data decrypt to m if and only if they are an encryption of m under their own initialisation vector |

## Left out

- HTTP and websocket API, NATS, sockets, DNS exchange, log parsing and replay, configuration files, file watching and logging: input and output only.
- ASN and GeoIP databases, regular expressions and whitelist matching: predicates (`isAsset`, `Rules`) that may differ from step to step; descriptions and organisation names are not modelled.
- The caches of blocked networks and systems in block.go: never read for a decision.
- Removal of a network or a system by prefix also removes longer keys; only removal of addresses is shown to be exact.
- `Requests.Ratio`, `IPCount`, the number of addresses in a group, `Averages`, `asnAverage`, `netAverage`, the stored `updated_at`, and the rebucketing of request statistics in api.go.
- The expire timer of a network: a request may arrive between the timer and the removal; in the runs of the table a removal may happen at any time.
- Locks: each operation is one step, except that the look-up and the count of `History.Add` are two in `HistorySteps`; the window counts that `Requests.Add` reads after unlocking are part of its step. Channels do not block and are not closed; nil receivers, nil channels and an address that does not parse are not modelled.
- Windows.MapWindow.Expire: the windows per agent are held by value, so aliasing of a window is not captured; the same holds for the requests of an address in `History` and for the data of a network in `Networks`.
- Windows.RequestsWindow.Add: requests are values, so the later change of `IsApp` through another reference is not captured; `Requests.Add` passes on the changed request.
- The red-black trees and the bidirectional map of the gods library: sorted sequences and maps; that removing the least entry does not disturb the iterator is part of this representation.
- Store.BadgerDB.Get: an entry is live until exactly its expiry time, while Badger counts in whole seconds; read errors are parameters of the callers, and a failing iteration over a prefix is not modelled. Nor are `Set`, `Has`, `Close` and garbage collection.
- Block.Block.Recheck: one clock reading serves the whole recheck; JSON encoding is represented by the record itself, so a record is decoded completely or not at all. The program goes over the records with `Each` (store/badger.go:222-239) and a callback; here `All` reads them first, from the same snapshot, and the callback is the body of a loop.
- Networks.Networks.UpdateAndBlock: each attempt to block has its own clock reading, which serves all accesses of that attempt.
- Stats.FinishedAreStored: ignores that stored copies expire after 24 hours.
- ProtocolRuns.EveryBlockJustified: the statistics in the update messages are arbitrary, which covers more runs than the program has; in `BlockReasons` they are those that requests of the run have sent, with the assumptions of `RequestRuns.NoStaleCount` on arrival times. The names in `Named` steps are arbitrary too; which names a resolver delivers is `ResolverRuns.EveryRunSound`.
- IPData.IPData.Add: the statistics of the history and the table entry, which `History.Add` updates for the same request, are separate operations here (`Stats.StatsWindows.Add`, `History.History.Add`).
- Resolver.Resolver.ReverseLookup: the check of `outChanIsClosed` at the start is not modelled: the field is false from the start and nothing ever sets it (resolver.go:45, 87, 149).
- Padding.Encrypt: the block cipher is any permutation, not AES, and the initialisation vector is a parameter. `decide` and the parsing of cookie text are not modelled.
- Buckets.BucketsInSpan: sums and keys are unbounded integers; overflow of 64-bit counters and timestamps is not modelled, and the slice width is greater than 0, since the program divides by it.
