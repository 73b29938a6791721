# Mesh node manager: a verified model

A Dafny model of the parts of the mesh node manager whose behaviour is hardest to see from the code:
the concurrent crawl of the mesh, the interface watcher and its traffic counters, the confirmation
hand-shake of the WireGuard manager, the one-pass parser of the hosts file, the allocation of tunnel
addresses and ports, the link-quality monitor, the route-metric look-up, and the assembly of the map
file. Concurrent code is a transition system, one step per atomic action of a goroutine, with theorems
over every reachable state; code that updates objects in place is a class whose methods are proved
against functions of the old state; everything else is functions and lemmas.

`dafny verify dfyconfig.toml` checks the whole project.

| files | subject |
|---|---|
| `ConcurrentArray`, `Crawl`, `CrawlInvariant`, `CrawlOutcome`, `CrawlBlocking` | the walker: its shared list, its steps, what every step keeps, what a crawl achieves, when it can block |
| `Scan`, `ScanLoop`, `StatRegistry`, `Tracking`, `IfaceWatcher` | the watcher: a list deleted from while it is walked, tracked names and counters over all runs, the code on its slice |
| `Confirm`, `ConfirmTable` | the confirmation hand-shake; what the table of active peers holds |
| `HostsSpec`, `HostsAdoption`, `HostsParser`, `HostsLines`, `ServiceAttachment` | the hosts file: one pass, two passes, when they agree; the parser's objects; what it makes of the lines; services |
| `Addresses`, `Allocator`, `SharedAddresses` | derived addresses of a tunnel's ends; allocation over all histories; addresses shared with clients' tunnels |
| `StatCounter`, `ByteLedger` | one interface's byte counter; what it reports against what went over the interface |
| `Etx` | installed routes folded to an index, longest-prefix look-up |
| `LinkQuality`, `RouteAccounting` | the link-quality monitor's figures, its route counts and its ticks |
| `MeshMap` | the walk command's output file |
| `Arithmetic`, `Babel`, `Options`, `Tally` | shared definitions |

## What the proofs found

Properties one would expect of the code, the inputs on which they fail, and the exact condition under
which they hold:

- `Walk` sends its own reply into the one-slot response channel before it returns the channel. If a
  task's reply takes the slot first, `Walk` blocks for good (`BlockedForever`). Some schedule does this if
  and only if the starting node's reply lists a host that is not skipped (`CanBlockIff`): every crawl of
  more than one node is at risk. At its send, `Walk` returns if and only if no task has sent before it
  (`WalkReturnsIffFirst`).
- Of two links that get the same ping results, the one with the lower score can end up with the higher one,
  because a dead score is revived to 100. The order is kept whatever the results if and only if the scores
  are the same (`OrderKeptIff`); and it is kept as long as the lower score does not die
  (`OrderKeptWhileAlive`).
- One scan of the watcher can leave dead interfaces behind, because removing an entry makes the loop
  pass over the next one: of three in a row the middle one stays (`DeadCanRemain`). It clears them all if
  and only if no dead entry directly follows another, the last entry aside (`ScanClearsAll`). Each scan
  still removes at least half of them (`RemovesHalf`).
- The registered names and the tracked names, once equal, are equal after a run of watches if and only if
  every counter the watcher tried to start in that run did start (`RegistryAgreement`). A counter whose
  start fails stays registered for good and its interface is never tracked again
  (`FailedStartIsPermanent`; `FailedStartHappens` gives the run).
- A call of `AddPeer` or `RemovePeer` can leave some caller blocked for good on a send that has no time
  limit, if nobody else calls, if and only if a wrong confirmation is held already or something about
  another tunnel is in progress on the channel when the call is made (`CanGetStuckIff`). Two callers can
  even be left with each other's confirmation (`MutualHoldIsReachable`). A caller that holds one can let
  go of it if and only if another caller is still coming or waiting (`StuckIffNoReceiver`), and a call
  makes a wrong delivery possible if and only if something about another tunnel is in progress
  (`PushBackPossibleIff`).
- The one pass over the hosts file equals the two-pass reading if and only if no two child lines of one
  name both come before the host lines of their parents (`AdoptionIsTwoPassIff`); otherwise the earlier
  child is lost, though counted (`ClashLosesChild`).
- Allocation can hand out one address twice. No two live server tunnels ever share one, given enough free
  ports, if and only if the starting address is 4-aligned and its third byte is not 255
  (`NeverRepeatsIff`). The allocator does not look at client tunnels, whose addresses are given: no two
  live tunnels of any kind ever have one address in their rows if and only if, besides, no client is given
  one of the addresses that the allocator goes through (`NeverSharesIff`). And no address at either end of
  one tunnel is ever at either end of another if and only if, besides, no client's tunnel overlaps one
  that the allocator goes through, or another client's (`NeverMeetIff`); the address just below a server's
  is a case (`OutsidePoolCanOverlap`).
- The comment on the migration report's increment (cmd/migrate.go:204-205) says that it mirrors the
  client-side offset. It does except when the last byte is 255 (`EndpointsDifferIff`); the model follows
  the code of both.
- Received bytes are all reported if and only if no poll that sees the receive counter restarted finds
  anything in it, and no poll that ends early, at a fallen transmit counter or a failed save, had received
  anything (`ReceivedInFullIff`; `RestartLosesReceived` loses 50). Transmitted bytes are all reported, or
  still to be booked, if and only if no poll books over a restart of the transmit counter that it did not
  see, none sees one around which bytes went out, and polling does not end with bytes unbooked
  (`SentInFullIff`; `RestartLosesSent` reports 10 of 80). The ledgers say how much is lost
  (`ReceivedLedger`, `SentLedger`).
- The map file is the report with the replies spliced in if and only if at least one reply has a
  position; with none, the array is a lone closing bracket (`WalkOutput`).
- The comment on the hosts parser (internal/services/olsr/hosts_parser.go:108) says that text after `#`
  is ignored. The code reads the parent's address from it, and so does the model.

## Model

| member | source | states |
|---|---|---|
| ConcurrentArrays.AddIfAbsentKeepsDistinct | internal/walker/concurrentarray/concurrentarray.go:22-32 | the check-and-add step never repeats a value, extends the list, and grows it exactly when the value was missing |
| ConcurrentArrays.RemoveFirstAt | internal/walker/concurrentarray/concurrentarray.go:40-49 | removal cuts out the first occurrence and keeps the order of the rest |
| ConcurrentArrays.RemoveUndoesAdd | internal/walker/concurrentarray/concurrentarray.go:22-49 | removing a value just added to a list without it gives the old list back |
| ConcurrentArrays.ConcurrentArray.Contains | internal/walker/concurrentarray/concurrentarray.go:10-20 | true exactly for the values in the list |
| ConcurrentArrays.ConcurrentArray.ContainsOrSet | internal/walker/concurrentarray/concurrentarray.go:22-32 | reports whether the value was there and performs the check-and-add step |
| ConcurrentArrays.ConcurrentArray.Remove | internal/walker/concurrentarray/concurrentarray.go:40-49 | in-place removal is removal of the first occurrence, and nothing for a missing value |
| CrawlInvariant.InvKept | internal/walker/walker/walk.go:44-107 | every step of every goroutine keeps: group counter = unfinished tasks, progress counter = tasks, looked-at hosts recorded, recorded names reachable, one task per name, one response per sender |
| CrawlInvariant.NoPanic | internal/walker/walker/walk.go:46-74 | no step sends on a closed channel or takes the group counter below zero |
| CrawlInvariant.OneTaskEachKept | internal/walker/walker/walk.go:91-102 | recorded names and tasks, spawned or about to be, stay in one-to-one correspondence under the atomic check-and-add |
| CrawlInvariant.SoundKept | internal/walker/walker/walk.go:86-93 | every recorded name stays within every set of names closed under listing |
| Crawl.SkippedIff | internal/walker/walker/walk.go:86-90 | a name is skipped exactly if it is `lan.` and `.local.mesh` with anything between (the dot may be shared), or `mid`, digits, a dot and anything |
| CrawlInvariant.LoggedKept | internal/walker/walker/walk.go:58-68 | sent responses stay one per sender, each with that node's reply, at most one of them buffered |
| CrawlOutcome.CloseSafety | internal/walker/walker/walk.go:46-74 | in every reachable state the group counter is the number of unfinished tasks, no task to be sent or response to be sent meets a closed channel, and once Walk waits a zero counter stays zero |
| CrawlOutcome.CrawlComplete | internal/walker/walker/walk.go:44-107 | when the response channel is closed, the recorded names are exactly the least set of non-skipped upper-cased names reachable from the start through successful replies, in every interleaving |
| CrawlOutcome.CrawlIsPathReachable | internal/walker/walker/walk.go:79-107 | that least set is the set of names with a chain of listings from the start |
| CrawlOutcome.ExactCount | internal/walker/walker/walk.go:48-68 | at close exactly one response per thread has been sent, names plus one in all, each carrying that node's reply or nil; each name has exactly one task; the progress counter equals the names |
| CrawlOutcome.StepDecreases | internal/walker/walker/walk.go:44-107 | every step either records a new name of a finite universe or leaves less work |
| CrawlOutcome.EveryCrawlEnds | internal/walker/walker/walk.go:44-107 | no schedule of a crawl of a finite mesh goes on for ever |
| CrawlOutcome.QuiescentOutcome | internal/walker/walker/walk.go:44-107 | a crawl that can take no step has failed at its first fetch with no task started, or is blocked in Walk's send, or is closed with the whole crawl received |
| CrawlOutcome.FailedAlone | internal/walker/walker/walk.go:63-66 | Walk returns an error only if fetching the starting node fails, and then no task exists |
| CrawlBlocking.BlockedForever | internal/walker/walker/walk.go:68-76 | once the slot is taken before Walk's send, no schedule lets Walk return |
| CrawlBlocking.WalkReturnsIffFirst | internal/walker/walker/walk.go:58-76 | Walk at its send can return exactly when no task has sent its response before it |
| CrawlBlocking.CanBlockIff | internal/walker/walker/walk.go:44-107 | some schedule blocks Walk at its send exactly when the starting node's reply lists a host that is not skipped, whatever other nodes reply |
| CrawlBlocking.ComesToSend | internal/walker/walker/walk.go:79-107 | any thread that is fetching, scanning or spawning can be run on its own up to its send, with nothing sent on the way |
| CrawlBlocking.BlockedIsReachable | internal/walker/walker/walk.go:58-68 | a mesh of two nodes in which Walk can block |
| Scan.ScanPartition | internal/ifacewatcher/watcher.go:83-153 | a scan keeps the entries it does not remove, in order, removes only dead ones and none twice |
| Scan.RemovesHalf | internal/ifacewatcher/watcher.go:83-153 | a scan removes at least half of the dead entries, and loses count of none |
| Scan.ScanClearsAll | internal/ifacewatcher/watcher.go:83-153 | a scan leaves no dead entry exactly when no two dead entries are neighbours, the last entry aside |
| Scan.DeadCanRemain | internal/ifacewatcher/watcher.go:83-153 | of three dead entries a scan leaves the middle one |
| Scan.RoundsHalve | internal/ifacewatcher/watcher.go:83-153 | after k scans, with live additions between them, at most a 2^k-th part of the dead entries is left |
| Scan.RoundsClear | internal/ifacewatcher/watcher.go:83-153 | none is left as soon as 2^k exceeds their number |
| ScanLoop.Visited | internal/ifacewatcher/watcher.go:121-153 | each visited slot holds either the next undecided entry or a stale copy of the last entry, already decided |
| ScanLoop.AtDead | internal/ifacewatcher/watcher.go:83-90 | shifting the tail left under the walk leaves the slots and the decided parts as the next visit expects |
| ScanLoop.AtEnd | internal/ifacewatcher/watcher.go:121-153 | after the last visit the slice holds the kept entries and the marked list the removed ones |
| StatRegistry.StatCounterManager.Add | internal/bandwidth/stat_counter.go:165-172 | refuses a registered name; otherwise registers the name even if the start fails, and reports the start |
| StatRegistry.StatCounterManager.Remove | internal/bandwidth/stat_counter.go:203-214 | removes the name and reports whether it was registered |
| Tracking.RegistryAgreement | internal/ifacewatcher/watcher.go:114-188 | over all sequences of watches tracked names stay pairwise different and registered; from equal name sets, the sets are equal in the end exactly when no attempt to start a counter failed in the run |
| Tracking.FailedStartIsPermanent | internal/bandwidth/stat_counter.go:165-172 | a registered name that is not tracked stays registered and untracked over all sequences of watches |
| Tracking.AgreesAfterAddAll | internal/ifacewatcher/watcher.go:156-188 | one pass over the system's interfaces in which a start fails leaves a registered name untracked; one in which none fails keeps the name sets equal |
| Tracking.FailedStartHappens | internal/bandwidth/stat_counter.go:165-172 | from nothing tracked, one watch with a failing start makes its name registered and untracked, then and after any further watches |
| Tracking.AddedAreLive | internal/ifacewatcher/watcher.go:156-188 | adding keeps what is tracked and appends only interfaces that the same observation does not call dead |
| Tracking.TracksOne | internal/ifacewatcher/watcher.go:156-187 | an interface the second loop looks at is tracked afterwards exactly if it was, or is an active WireGuard one other than wg0 or a vtun one, has a row, a name new to the registry, and a counter that starts; no other one changes |
| Tracking.WatchTracksIff | internal/ifacewatcher/watcher.go:114-188 | a watch leaves an interface tracked exactly if the scan kept it, or it is present and meets those conditions (if no other present one has its name) |
| Tracking.ScanKeepsLive | internal/ifacewatcher/watcher.go:121-153 | the scan removes only WireGuard interfaces without a recent handshake and vtun ones no longer present, with their names in the registry, and no other names |
| Tracking.NewIsTracked | internal/ifacewatcher/watcher.go:156-188 | such an interface of an unregistered name is tracked and registered after the watch |
| Tracking.TrackedOverRun | internal/ifacewatcher/watcher.go:51-63 | over any run, what is tracked was tracked before it or met the conditions in one of its watches |
| Tracking.WatchesAreRounds | internal/ifacewatcher/watcher.go:114-192 | watches under constant answers are scans with live additions |
| Tracking.DeadAreGone | internal/ifacewatcher/watcher.go:92-192 | while answers stay the same, d tracked interfaces that are down (WireGuard without a recent handshake, vtun not present) are gone after any number of watches whose power of two exceeds d, and nothing down is tracked then |
| IfaceWatcher.RemoveInPlace | internal/ifacewatcher/watcher.go:83-90 | the first equal entry is cut out of the used slots and the freed slots keep what they held; nothing changes if there is none |
| IfaceWatcher.NetsOfScan | internal/ifacewatcher/watcher.go:121-153 | scanning entries with their tunnels and scanning their interfaces keep and remove the same |
| IfaceWatcher.FirstVisit | internal/ifacewatcher/watcher.go:122-136 | a dead interface is met with its counter still registered exactly on its first visit, and the slot read is then the one that will be removed |
| IfaceWatcher.Watcher.Drop | internal/ifacewatcher/watcher.go:130-136 | removes the entry, its counter, and marks it; nothing but the failed look-up happens if the counter is gone |
| IfaceWatcher.Watcher.VisitSlot | internal/ifacewatcher/watcher.go:121-153 | one turn of the scan takes the slice, the marked list and the registry one visit further |
| IfaceWatcher.Watcher.ScanTracked | internal/ifacewatcher/watcher.go:121-153 | the loop over the slice it compacts leaves the kept entries, marks each removed one once, and removes exactly their counters |
| IfaceWatcher.Watcher.AddOne | internal/ifacewatcher/watcher.go:156-187 | an interface is tracked exactly if it is wanted, not tracked, has a tunnel row, and its counter is new and starts |
| IfaceWatcher.Watcher.AddPresent | internal/ifacewatcher/watcher.go:156-188 | the loop over the system's interfaces, appending to what is tracked |
| IfaceWatcher.Watcher.ReconcileDB | internal/ifacewatcher/watcher.go:243-300 | of the watcher's own tunnel objects: every marked one is inactive with its byte counts moved into its totals; every tracked one is active, renamed only if it was inactive, its traffic untouched |
| IfaceWatcher.Watcher.Watch | internal/ifacewatcher/watcher.go:114-192 | a watch does to tracked interfaces and registry what the specification says; whatever can be tracked and has a new name is, nothing else becomes so; the removed entries are marked; marked tunnels are inactive, tracked ones active, and no others are changed |
| IfaceWatcher.Watcher.Run | internal/ifacewatcher/watcher.go:51-63 | the loop of watches follows the specification over the whole sequence of observations |
| Confirm.InterfaceNamesDiffer | internal/wireguard/wireguard.go:123-128 | a name is `wgs` or `wgc` by role and the decimal id, so names are equal exactly for the same id and role |
| Confirm.BalancedKept | internal/wireguard/wireguard.go:446-533 | every step keeps confirmations created = nil returns + confirmations in hand, for each channel and id |
| Confirm.ConfirmationsConserved | internal/wireguard/wireguard.go:446-533 | after every run that balance holds and confirmations created are at most the updates of the table for that operation and id |
| ConfirmTable.TableHolds | internal/wireguard/wireguard.go:446-453 | after every run an interface name is in the table of active peers exactly if the last update about it was a Store, with that Store's peer, which is enabled |
| ConfirmTable.NilMeansRegistered | internal/wireguard/wireguard.go:446-509 | a caller returns nil after waiting only if the table was updated for its tunnel; for an addition the peer last stored for it is in the table unless a removal about the tunnel came later |
| ConfirmTable.RemovalDeletesIff | internal/wireguard/wireguard.go:450-480 | a removal goes on to delete the link exactly if the last update about its interface name was a Store; otherwise it confirms at once; the name is out of the table and no other is touched |
| ConfirmTable.DisabledIsNotAdded | internal/wireguard/wireguard.go:482-486 | an addition returns at once exactly for disabled tunnels, and every entry of the table is enabled |
| Confirm.PushBackNeverTaken | internal/wireguard/wireguard.go:502-505 | if a call starts only when all that is in progress on its channel, leftovers included, is about the same tunnel, no confirmation is ever offered again |
| Confirm.PushBackPossibleIff | internal/wireguard/wireguard.go:502-530 | a new call makes a wrong delivery possible exactly when something about another tunnel is in progress on its channel |
| Confirm.StuckIffNoReceiver | internal/wireguard/wireguard.go:494-535 | without new calls, a caller with somebody else's confirmation can get rid of it exactly when another caller is on its way or waiting |
| Confirm.HolderCanGetStuck | internal/wireguard/wireguard.go:494-535 | once somebody holds a wrong confirmation, all other callers can time out and leave it stuck |
| Confirm.CanGetStuckIff | internal/wireguard/wireguard.go:482-535 | after a new call, some run without further calls leaves a caller stuck for good exactly when a wrong confirmation is held already or something about another tunnel is in progress on the channel |
| Confirm.MutualHoldIsReachable | internal/wireguard/wireguard.go:494-509 | a run that leaves two callers with each other's confirmation and nobody to take either |
| HostsSpec.TwoPassStep | internal/services/olsr/hosts_parser.go:181-232 | one more line changes the two-pass reading as the pass does with a list of orphans |
| HostsSpec.UnattachedAfterHost | internal/services/olsr/hosts_parser.go:214-228 | a further host line takes exactly its own children out of the unattached ones, and none if an earlier host has its address |
| HostsAdoption.AdoptionIsTwoPassIff | internal/services/olsr/hosts_parser.go:118-232 | the one pass attaches every child to the first host line with its parent's address, wherever the child stands, and keeps the rest as orphans, exactly when no two child lines of one name precede both their parents' lines |
| HostsAdoption.LostIffClash | internal/services/olsr/hosts_parser.go:193-198 | an orphan is overwritten exactly when there are two such lines |
| HostsAdoption.ClashLosesChild | internal/services/olsr/hosts_parser.go:193-198 | two children of one name before their parent: the host gets the second only, and the readings differ |
| HostsAdoption.EveryLineAccountedFor | internal/services/olsr/hosts_parser.go:181-232 | for any lines, total count = hosts + attached children + orphans + overwritten orphans |
| HostsAdoption.TwoPassLosesNothing | internal/services/olsr/hosts_parser.go:181-232 | the two-pass reading accounts for every counted line |
| HostsAdoption.DistinctNamesAgree | internal/services/olsr/hosts_parser.go:118-232 | with distinct child names the one pass is the two-pass reading and no counted line is lost |
| HostsAdoption.AttachmentIgnoresPosition | internal/services/olsr/hosts_parser.go:183-228 | files with the same lines and host order attach the same children to the same hosts |
| HostsParser.Adopt | internal/services/olsr/hosts_parser.go:214-228 | a new host gets exactly the orphans waiting for its address, whatever the order of the table, and they leave the table |
| HostsParser.FindParent | internal/services/olsr/hosts_parser.go:186-192 | finds the first host with the address |
| HostsLines.CountsOf | internal/services/olsr/hosts_parser.go:156-231 | of the lines themselves: hosts are, in order, the lines with a proper name and an address that is its own parent; the node count is that of dotted names with prefix `dtdlink.`; the total is that of all proper lines |
| HostsLines.WithoutClash | internal/services/olsr/hosts_parser.go:183-228 | if no two child lines of one name precede the host lines of both their parents, the first host with an address has exactly the child lines that name it, and the orphans are exactly the child lines without a host line |
| HostsLines.ClashIs | internal/services/olsr/hosts_parser.go:183-198 | that condition on lines is the clash of the adoption theorem |
| HostsParser.TakeLine | internal/services/olsr/hosts_parser.go:156-231 | one line changes host objects, orphans and counts as the specification's step for it does |
| HostsParser.ParseLines | internal/services/olsr/hosts_parser.go:118-232 | host objects, orphans and both counts are those of the one pass |
| ServiceAttachment.EachServiceOnce | internal/services/olsr/hosts_parser.go:246-290 | in a flat list of names, the shares give each service to the first name that matches it, to no other, and to none only if none matches |
| ServiceAttachment.SlotAt | internal/services/olsr/hosts_parser.go:246-290 | every position of the visiting order is a child or a host |
| ServiceAttachment.EarlierIsBefore | internal/services/olsr/hosts_parser.go:246-290 | of two children or hosts the one visited earlier has the smaller position, and different ones have different positions |
| ServiceAttachment.ServedMeansOnce | internal/services/olsr/hosts_parser.go:246-290 | of the served hosts themselves: service j is attached to a child or host exactly if that name matches without regard to case and no name visited earlier does; to at most one of them; to none only if no name matches; and every list is in the file's order |
| ServiceAttachment.SlotPosition | internal/services/olsr/hosts_parser.go:246-290 | children of a host, then the host, host after host, is one visiting order, and what precedes a name in it is what the loops have visited |
| ServiceAttachment.TakeShare | internal/services/olsr/hosts_parser.go:248-268 | one name gets the services that match it and matched nothing before, in order |
| ServiceAttachment.ServeHost | internal/services/olsr/hosts_parser.go:246-289 | every child and then the host gets its share; names and addresses stay |
| ServiceAttachment.AttachServices | internal/services/olsr/hosts_parser.go:241-290 | every host is served after those before it; names and addresses stay |
| ServiceAttachment.ParseHosts | internal/services/olsr/hosts_parser.go:113-293 | fails exactly if either file cannot be read; returned hosts, counts, children and orphans are those of the lines, as above; with services, each is attached to its first match among the returned names and nowhere else, in the file's order, and without them none is |
| ServiceAttachment.Parser.Parse | internal/services/olsr/hosts_parser.go:63-77 | hosts and counts are replaced together by those of the one pass, with services attached, or stay as they were if parsing fails or is under way |
| Addresses.ClientOwnAddress | internal/wireguard/wireguard.go:175-190 | the in-place byte carry is the next address, or .1 of the next block of 256 |
| Addresses.IncrementIP | cmd/migrate.go:206-222 | the in-place increment, whose carry stops at the third byte |
| Addresses.ClientAddressIs | internal/wireguard/wireguard.go:175-190 | in numbers, modulo 2^32, the client's own address is one further, or two from a last byte of 255 |
| Addresses.IncrementedIs | cmd/migrate.go:206-222 | in numbers, the increment is one further in the last two bytes, modulo 2^16, the first two staying |
| Addresses.DerivedPeerIs | internal/services/lqm/lqm.go:994-1006 | the peer's address is one more or less in the last byte alone, modulo 256; the watcher's look-up address likewise |
| Addresses.EndpointsAgree | internal/wireguard/wireguard.go:175-190 | for every 4-aligned server address, client's own address, derived peer and report's increment coincide, one further in the same block of four, and both decrements recover the server address |
| Addresses.EndpointsDifferIff | cmd/migrate.go:204-222 | client's own address and report's increment differ exactly when the last byte is 255, and then only does the client's decrement miss the server |
| Addresses.GenerateIPv6LinkLocal | internal/utils/ip.go:12-45 | the filled buffer is fe80::/64 with the modified EUI-64 of 00:00 and the address |
| Addresses.MacReadBack | internal/services/lqm/lqm.go:779-802 | every hardware address is read back from the link-local address made of it |
| Addresses.KeyOfLinkLocal | internal/utils/ip.go:12-45 | the generated address is fe80::/64 with the EUI-64 of 00:00 and the IPv4 address, which is what the key reads back |
| Addresses.KeysDiffer | internal/services/lqm/lqm.go:779-802 | different tunnel addresses have different link-local addresses and different keys |
| Allocator.GetNextWireguardIP | internal/db/models/tunnel.go:147-181 | none exactly if the highest of the start and the server tunnels' addresses ends in 253.252 or 254.252; otherwise its first two bytes, and four further in the last two (from a last byte up to 252) |
| Allocator.AfterIs | internal/db/models/tunnel.go:169-178 | the step from the highest address in numbers, the wrap of an unaligned last byte included |
| Allocator.HighestIsHighest | internal/db/models/tunnel.go:157-168 | that address is the start or a server tunnel's, and no server tunnel is higher in its last two bytes |
| Allocator.GetNextWireguardPort | internal/db/models/tunnel.go:183-203 | a port found is at or above the start, no tunnel has it, and some tunnel has every port between; none is found only from a start of 0 or if every port from the start on is taken |
| Allocator.LeastFree | internal/db/models/tunnel.go:196-202 | the port found is unused, in range, with every port from the start below it used; none means all are used |
| Allocator.PortIsFound | internal/db/models/tunnel.go:190-202 | a port is found whenever tunnels are fewer than 65536 minus the start |
| Allocator.TunnelTable.PostServer | internal/server/api/controllers/v1/tunnels.go:388-424 | appends one server tunnel with the next address and the least free port, or leaves the table as it is because there is no address or no port |
| Allocator.TunnelTable.PostClient | internal/server/api/controllers/v1/tunnels.go:515-566 | creates exactly if no tunnel has the address |
| Allocator.TunnelTable.DeleteTunnel | internal/db/models/tunnel.go:132-141 | deletes the tunnels with the id and no others |
| Allocator.OrderlyOverHistory | internal/server/api/controllers/v1/tunnels.go:388-424 | any creates and deletes keep server addresses aligned, distinct, above the start with its first two bytes, and ports distinct from the starting port on |
| Allocator.AllocationHistories | internal/db/models/tunnel.go:147-181 | over all histories from a good start live server blocks of four are disjoint, ports differ, and allocation fails exactly at x.y.253.252 (x.y.254.252 from a start in x.y.254) |
| Allocator.EndsAgree | internal/wireguard/wireguard.go:175-190 | over all histories both ends of every live server tunnel agree on their addresses |
| Allocator.EndsOfAllocatedTunnels | internal/wireguard/wireguard.go:175-190 | over all histories no address of a live server tunnel is an address of another |
| Allocator.BadStartRepeats | internal/db/models/tunnel.go:169-178 | from any other start, creating tunnels one after another comes to an address handed out twice |
| Allocator.NeverRepeatsIff | internal/db/models/tunnel.go:147-181 | given ports, no history gives two live server tunnels one address exactly when the start is 4-aligned and its third byte is not 255 |
| SharedAddresses.ReachesPool | internal/db/models/tunnel.go:147-181 | beside any client's tunnel, creating and deleting servers comes to any address of the allocator's pool |
| SharedAddresses.NeverSharesIff | internal/server/api/controllers/v1/tunnels.go:388-566 | given ports, no history with client addresses from a given set gives the rows of two live tunnels one address exactly when the start is good and the set has no address of the pool |
| SharedAddresses.NeverMeetIff | internal/wireguard/wireguard.go:175-190 | given ports, no such history has one address at ends of two live tunnels exactly when the start is good and no client's tunnel overlaps one of the pool or another client's |
| SharedAddresses.OutsidePoolCanOverlap | internal/wireguard/wireguard.go:175-190 | a client's address outside the pool whose tunnel overlaps a server's |
| StatCounter.StatCounter.Poll | internal/bandwidth/stat_counter.go:57-126 | one turn of the polling loop, every early exit included; totals grow by exactly what is reported |
| StatCounter.StatCounter.Loop | internal/bandwidth/stat_counter.go:53-129 | the loop over all polls until one ends it |
| ByteLedger.BytesConserved | internal/bandwidth/stat_counter.go:57-126 | over any run reported bytes = last minus first reading booked plus what those fell by, for receive bytes less exactly those of polls that end early |
| ByteLedger.SavesEverySecond | internal/bandwidth/stat_counter.go:80-104 | from a start on, a poll saves exactly after an even number, not zero, of polls that came to their end, whatever the count is reset to |
| ByteLedger.ReportsLatest | internal/bandwidth/stat_counter.go:105-126 | a poll that comes to its end reports the latest bytes of both directions, and no other poll reports |
| ByteLedger.ReceivedLedger | internal/bandwidth/stat_counter.go:72-103 | over any run, received between samples = reported + abandoned by polls that end early + come in after a restart before the poll that sees it |
| ByteLedger.SentLedger | internal/bandwidth/stat_counter.go:72-107 | over any run, sent between samples = reported + lost + not yet booked; losses are never negative, and none exactly when every poll keeps its bytes |
| ByteLedger.FitsLater | internal/bandwidth/stat_counter.go:87-107 | one poll loses nothing exactly when it does not book over a restart, sees none around which bytes went out, and does not end polling with bytes unbooked |
| ByteLedger.SentInFullIff | internal/bandwidth/stat_counter.go:72-107 | from a start, all sent bytes are reported or still to be booked exactly when every poll keeps them |
| ByteLedger.SentWithoutRestart | internal/bandwidth/stat_counter.go:87-107 | while the transmit counter never falls between samples, reported bytes are the advance of the reading booked and nothing is lost by a loop that goes on |
| ByteLedger.RestartLosesSent | internal/bandwidth/stat_counter.go:72-91 | three polls with one restart of both counters: 80 bytes sent, 10 reported |
| ByteLedger.RestartLosesReceived | internal/bandwidth/stat_counter.go:73-76 | one poll after a restart: 50 bytes received, none reported |
| ByteLedger.ReceivedInFullIff | internal/bandwidth/stat_counter.go:72-103 | all received bytes are reported exactly when no poll that sees a restart reads above zero and no poll that ends early had received any |
| StatCounter.CountBounded | internal/bandwidth/stat_counter.go:56-126 | the loop's count stays between 0 and 100 |
| Etx.MaskedEqualIffTopEqual | frontend/src/components/NodesTable.vue:143-144 | equality under the bit mask is equality of the first bits; with length 0 it always holds |
| Etx.SpecialCaseIsNeeded | frontend/src/components/NodesTable.vue:143 | the page's shift, modulo 32, gives the mask by itself exactly for lengths other than 0 |
| Etx.QuadRoundTrip | frontend/src/components/NodesTable.vue:116-120 | the four bytes can be read back from the number |
| Etx.UsedIff | internal/services/babel/socket.go:93-116 | the lines used are those with an address, a metric other than 65535, and a length of at most 32, or none for a single host |
| Etx.FetchInstalledRouteMetrics | internal/services/babel/socket.go:87-127 | the table has exactly the networks of reachable IPv4 routes, each with the least metric of its routes |
| Etx.FoldStep | internal/services/babel/socket.go:93-126 | one more line keeps the table the least-metric table of the lines so far |
| Etx.EtxForIp | frontend/src/components/NodesTable.vue:132-153 | returns the least metric among matching entries of greatest length, none exactly if nothing matches |
| Etx.LookupIsLongestMatch | frontend/src/components/NodesTable.vue:132-153 | fold and look-up together are longest match over the routes themselves (section 5.2.4.3 of RFC 1812), for any order of the table |
| Etx.LongestMatchUnique | frontend/src/components/NodesTable.vue:139-152 | the answer does not depend on the order |
| Etx.NodeEtx | frontend/src/components/NodesTable.vue:132-153 | from a dump of lines to the longest match for an address |
| LinkQuality.ReachToLQ | internal/services/lqm/lqm.go:814-828 | the shifting loop computes the specified quality |
| LinkQuality.BitCountIsBits | internal/services/lqm/lqm.go:820-826 | the loop's count is the number of set bits |
| LinkQuality.LQRange | internal/services/lqm/lqm.go:814-828 | the quality is the percentage of set bits rounded up, at most 100; 0 exactly for nothing heard, 100 exactly for all 16 |
| LinkQuality.PingRange | internal/services/lqm/lqm.go:703-721 | the ping score stays in 0 to 100 over all outcomes |
| LinkQuality.UnclampedRun | internal/services/lqm/lqm.go:703-721 | on runs that meet neither clamp nor zero the score moves by successes less four times failures |
| LinkQuality.FailureRun | internal/services/lqm/lqm.go:703-721 | from any score, k failures in a row leave it 4k lower, or dead |
| LinkQuality.DeadAfter25 | internal/services/lqm/lqm.go:703-721 | 100 is dead after 25 straight failures and not before; one success revives it to 100 |
| LinkQuality.SuccessRun | internal/services/lqm/lqm.go:703-721 | k answers in a row raise a live score by k up to 100, and a dead one to 100 |
| LinkQuality.AnswersHelp | internal/services/lqm/lqm.go:703-721 | an answer never lowers a score and a failure never raises one |
| LinkQuality.OrderKeptWhileAlive | internal/services/lqm/lqm.go:703-721 | under the same results the lower of two scores stays the lower as long as it does not die |
| LinkQuality.OrderKeptIff | internal/services/lqm/lqm.go:703-721 | two scores keep their order under all results exactly if they are the same |
| LinkQuality.AverageInRange | internal/services/lqm/lqm.go:426-467 | a running average stays between 0 and its largest sample |
| LinkQuality.FeedIs | internal/services/lqm/lqm.go:428-439 | the first reading is remembered only; one that went back counts as no progress; progress has six tenths of the weight |
| LinkQuality.SteadyAverage | internal/services/lqm/lqm.go:428-439 | on steady progress the average's distance from it shrinks to four tenths with every reading |
| LinkQuality.FailuresAverageLess | internal/services/lqm/lqm.go:426-453 | if in every tick no more failed than were sent, the average of failures never exceeds that of transmissions |
| LinkQuality.TxQualityRange | internal/services/lqm/lqm.go:469-472 | linear in the worse average between them: 100 exactly if it is 0, 0 exactly if it reaches that of transmissions |
| LinkQuality.Tracker.Heard | internal/services/lqm/lqm.go:341-355 | the neighbour line's figures; the clamp of the averaged quality is never needed |
| LinkQuality.Tracker.UpdateAverages | internal/services/lqm/lqm.go:426-472 | all three averages take their counter's reading, and the transmit quality follows from them |
| LinkQuality.Tracker.Ping | internal/services/lqm/lqm.go:676-730 | an answer adds one to a live score up to 100 and revives a dead one to 100, a failure takes four from it down to 0; the time takes its average, and all figures stay in range |
| LinkQuality.Tracker.CalculateQuality | internal/services/lqm/lqm.go:732-751 | the overall quality is within a half of the mean of the positive figures, stays in 0 to 100, and is absent exactly if both are zero |
| RouteAccounting.Service.UpdateNeighbor | internal/services/lqm/lqm.go:312-355 | exactly the tracker of the line's key is created or updated, a WireGuard tracker's address is derived anew, and every tracker stays under its own key |
| RouteAccounting.Service.PruneTrackers | internal/services/lqm/lqm.go:261-271 | exactly the trackers seen within the limit stay |
| RouteAccounting.Service.BuildLookup | internal/services/lqm/lqm.go:888-907 | every tracker is reset, every address of a tracker is a key, and every key leads to a tracker with that address, in any order of visiting |
| RouteAccounting.Service.ChargeAll | internal/services/lqm/lqm.go:913-960 | the loop leaves every tracker's figures and both totals as the direct definition counts them |
| RouteAccounting.Service.UpdateRoutes | internal/services/lqm/lqm.go:859-963 | counts, least metric (0 for none) and routable flag are those of the accepted routes whose next hop is the tracker; the trackers' host-route counts add up to the service's total and their route counts to the known routes, at most the other total; nothing changes if there is no dump |
| RouteAccounting.FiguresAre | internal/services/lqm/lqm.go:913-960 | a tracker's fields are the number of installed IPv4 routes other than unreachable ones via its addresses, the number of those for single hosts, whether there is any, and the least metric |
| RouteAccounting.LookupLeadsHome | internal/services/lqm/lqm.go:888-907 | link-local addresses, addresses, and canonical ones for want of another lead to a tracker with that address, and nothing else leads anywhere |
| RouteAccounting.HeardAre | internal/services/lqm/lqm.go:301-338 | the keys heard of are those of neighbour lines on supported interfaces |
| RouteAccounting.Service.UpdateNeighbors | internal/services/lqm/lqm.go:301-391 | over any neighbour lines, the keys heard of are added and no others, old trackers keep their keys, all figures stay in range |
| RouteAccounting.Service.UpdateRunningAverages | internal/services/lqm/lqm.go:422-474 | every tracker's three averages take their readings |
| RouteAccounting.Service.UpdateTrackingState | internal/services/lqm/lqm.go:649-675 | every pinged tracker's quality is current, all figures stay in range |
| RouteAccounting.Service.RunTick | internal/services/lqm/lqm.go:248-259 | after a tick the trackers are old ones and those heard of, under their keys, none stale, all figures in range, the quality of the pinged ones current |
| RouteAccounting.Service.TakeRefreshed | internal/services/lqm/lqm.go:578-593 | a finished refresh replaces the canonical address, and the address unless a WireGuard tracker has one or none was found; other trackers keep theirs |
| RouteAccounting.Service.Measure | internal/services/lqm/lqm.go:395-474 | reading and averaging keep every tracker's counters and averages those of the readings so far |
| RouteAccounting.Service.RunTicks | internal/services/lqm/lqm.go:226-246 | over any sequence of ticks every tracker stays under its own key with every figure in its range; and if readings never count more failures than packets, no tracker's average of failures exceeds its average of transmissions |
| RouteAccounting.LeastMetricIsLeast | internal/services/lqm/lqm.go:945-947 | the metric is a lower bound of the tracker's routes and is reached, unless all reach the sentinel |
| RouteAccounting.CountsAddUp | internal/services/lqm/lqm.go:913-950 | by the direct definition, host-route counts over all trackers add up to the known host routes, and route counts to the routes with a known next hop, at most all accepted ones |
| RouteAccounting.Service.FieldsAddUp | internal/services/lqm/lqm.go:913-960 | the same of the trackers' own fields and the totals |
| RouteAccounting.LinkLocalsDiffer | internal/services/lqm/lqm.go:312-344 | link-local addresses of different trackers differ |
| RouteAccounting.NextHopIsItsTracker | internal/services/lqm/lqm.go:888-907 | so a tracker's link-local next hop leads to that tracker in every look-up table |
| MeshMap.File.Write | cmd/walk.go:155-211 | writing replaces what is at the position and may extend the file |
| MeshMap.ListedIsJoined | cmd/walk.go:127-133 | values each followed by a comma are the comma-separated values and one comma |
| MeshMap.MappedAt | cmd/walk.go:95-142 | the collected values are, in order of arrival, those of the replies with both a latitude and a longitude, and no others |
| MeshMap.SplicedBytes | cmd/walk.go:205-234 | the bytes of the file for one and for two mapped replies |
| MeshMap.CollectReplies | cmd/walk.go:86-161 | overwriting the last byte leaves the array of mapped replies in order of arrival, or a lone closing bracket for none; completed = mapped + non-mapped + nil |
| MeshMap.CreateFile | cmd/walk.go:190-234 | the header's closing brace and newline give way to the key, the collected bytes and a closing brace |
| MeshMap.WalkOutput | cmd/walk.go:86-234 | the file is the header with the array spliced in before its closing brace exactly when at least one reply is mapped |

## Left out

- Netlink, wgctrl, DNS, HTTP, sockets, exec and files: oracles or input sequences; only the outcomes that the code branches on are kept.
- Replies of the crawl: constant over time, and the same for every spelling of a name where completeness is claimed.
- Changing answers within one watch: the source asks for an interface's last handshake at each slot and again in the second loop; the model has one answer per watch and name.
- Texts: regular expressions, field splitting and number parsing; lines start as split records. The crawl's skip filter is modelled. Upper-casing and case folding are parameters.
- IPv4 address text: equal text stands for equal addresses.
- Stopping the WireGuard manager: the hand-shake is modelled while it runs.
- SQL and concurrent requests: the tunnel table is a sequence and requests come one after another. Hostname uniqueness and key checks are not modelled.
- Address edits of existing tunnels: the allocation results are about histories of creates and deletes.
- vtun interfaces' tunnel look-up by address minus two and minus one: part of the `row` oracle.
- Events and websocket messages, connection and first-seen times, bandwidth per second, and the per-tunnel byte rows that a counter saves on alternate polls.
- IfaceWatcher.Watcher.ReconcileDB: speaks of the object read when tracking began. The source saves that object over the row which the counter has been updating (internal/ifacewatcher/watcher.go:276), so the row's own byte counts are not claimed to survive.
- StatCounter.StatCounter.Poll: does not model the 64-bit wrap-around of byte counters, and keeps totals as exact reals.
- LinkQuality.Tracker.UpdateAverages: averages are exact reals, without floating-point rounding.
- RouteAccounting.LeastMetricIsLeast: metrics from 2147483647 on count as no metric, as in the code, where that number is the sentinel.
- RouteAccounting.Service.RunTick: refreshes of remote trackers run beside the ticks; the model lets those that finish take effect between averages and pings, and keeps only the addresses they find. Which trackers the statistics reach, at most one for each interface, is an input.
- Distances, reverse figures, costs and the time a tracker came back up.
- Rewriting of link types for supernodes, and that the written bytes are well-formed JSON beyond their concatenation.
- Splitting a client tunnel's password into keys for the migration report, and the report's text.
- The page's rejection of malformed addresses and lengths: an absent value of the input.
