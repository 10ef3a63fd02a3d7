# The subnet-announcement control plane, modelled and proved

Lanweave is a zone-based VPN. Its server keeps users, nodes, zones, memberships and announced
subnets in one database, and derives from it the state of two kernel subsystems: the WireGuard
peers with their AllowedIPs, and an nftables table of per-zone sets and rules. About ten handlers
update that derived state piecemeal; start-up rebuilds it. Clients derive routes and address
translations from the same announcements. These modules model that system and prove that the cheap
updates always agree with the rebuild, that what clients route is what the server carries, and that
the allocators, appliers and lock protocols underneath do what they promise, over every run.

| module | models |
|---|---|
| `Common` | options and finite sets |
| `Cidr`, `Ipam` | block arithmetic (section 3.1 of RFC 4632), the synthetic-block allocator, the client range, the private ranges (section 3 of RFC 1918), the configuration check |
| `NodeAddresses`, `Registration` | the lowest-free-address query, and registrations racing between its read and their insert |
| `Schema`, `Store` | the tables and their invariants, what a deletion leaves behind, the repositories' transactions |
| `Netfw`, `Wireguard` | the isolation table with its packet semantics, the device with the kernel's one-owner rule for AllowedIPs |
| `Derive`, `Effects`, `Upkeep` | the kernel state a database stands for, what each change does to it, why each handler's few edits suffice |
| `Control`, `Server`, `Witness` | each API operation on the database, and the handlers that carry it out on database and kernel |
| `Authority` | who may do what, and what comes of each operation, told in rows |
| `Overtaking` | an announcement's handler overtaken by another one between its transaction and its kernel steps |
| `Sorting`, `RouteSync`, `EndToEnd`, `Reconcile` | the clients' aggregation of the zones' lists, the meeting of both sides, and the router's reconcile pass |
| `Nat` | the announcing router's translation table, down to masks and host bits |
| `Routes`, `Router`, `Tunnel` | the two consumer-route appliers, the router's engine and daemon, the Windows client's locked sections under every interleaving |

Conventions. A transaction is one step on the tables. A kernel call takes effect or changes
nothing; where a handler compensates for a failed call, the failure is part of the operation
(`Control.Fault`). Handlers are methods that change the store and then the kernel step by step;
each is proved to do to the database what its `Control` function says and to keep
`Upkeep.Faithful`: the database's invariant, and a kernel holding exactly what a rebuild would
produce. Each also obeys `Authority.Lawful`, which names none of the operations and fixes the reply
and every row in terms of the rows before. The `Control` functions take the code's own steps, its foreign-key cascades and its
reclaiming of the announcements an operation detached, in any state, broken ones included
(`Schema.Expelled`, `ZoneErased`, `NodeErased`, `UserErased`). `Schema.Settle` gives a deletion an
independent meaning, the largest consistent database made of the remaining rows: from a consistent
database the two are equal, and from a broken one the code's steps only ever take rows away
(`Schema.ErasingTakesAway`).

Results that are not what the code's comments promise, each with its exact condition and an input:

- A failed re-join of a member takes its membership away: `Server.Relay.JoinZone` keeps the state
  predicate if and only if the operation is not one, and `Control.FailedRejoinBreaks` says when the
  database itself breaks. `Witness.RejoinBreaks` is such a request. What the rows promise without
  mention of memberships survives even this, over every run (`Control.RunsKeepRows`,
  `Registration.RacesKeepRows`, `Control.RunsKeepAnAdmin`).
- Deleting a zone is two transactions; an announcement committed in between is orphaned if and only
  if it does not take the reuse branch (`Control.DeletionRacesAnnounce`), as in
  `Witness.LateAnnouncementIsOrphaned`.
- A handler that removes something can overtake an announcement between that one's transaction and
  its kernel steps. Kernel and database then disagree exactly if the attachment went while its zone
  stayed, or the node or some of its routes went at the wrong moment (`Overtaking.OvertakenAnnounce`;
  for a leave or kick `Overtaking.LeaveOvertakesAnnounce`), as in `Witness.LeftWhileAnnouncing`.
- `PoolRange` accepts some networks too small for a client, exactly those where its 32-bit additions
  wrap (`Ipam.PoolRangeExact`); taking the server's address first rejects them all
  (`Ipam.ServerAddressGuardsTheRange`).
- The interval sets cannot hold 255.255.255.255 (`Netfw.RangeElementsExact`), and that is the only
  difference between what a client routes and what the server carries
  (`EndToEnd.ClientRoutesAreExact`).
- The appliers' fast path is right if and only if no requested block has come to conflict
  (`Routes.FastPathIsExact`).
- The Windows tunnel records the interface name and brings the device up without the identity check
  it makes before it connects (`Tunnel.NameKeptIff`, `Tunnel.DevicesKeptIff`), as in the run of
  `Tunnel.LateEngineRun`; and it clears its route memory under another lock than it drops the engine
  (`Tunnel.MemoryKeptIff`). `Tunnel.SlipRun` is a run from the start into the gap, and
  `Tunnel.SlippedRequestMisleads` what follows from there.

## Model

| member | source | states |
|---|---|---|
| Ipam.AllocateBlock | internal/server/ipam/blocks.go:64-88 | terminates with the lowest aligned block of the wanted length that lies in the pool and overlaps no used block of any size, or with no space exactly when there is none; no 64-bit or 32-bit overflow for any pool |
| Cidr.OverlapsIffShared | internal/server/ipam/blocks.go:36-40 | the two comparisons hold exactly when the blocks share an address |
| Cidr.BlockFromPrefix | internal/server/ipam/blocks.go:21-24 | the one aligned block of that length around the address |
| Cidr.PrefixRoundTrip | internal/server/ipam/blocks.go:27-29 | a block written as a prefix and parsed again is itself |
| Cidr.Nested | internal/server/ipam/blocks.go:64-88 | aligned blocks that share an address are nested, the longer prefix inside the shorter: what makes stepping by the block size miss nothing |
| Ipam.IsRFC1918 | internal/server/ipam/blocks.go:50-57 | true exactly when the whole masked prefix lies in one private range, though only one address and two lengths are compared; the ranges are also given in numbers |
| Ipam.PrivateIsInRange | internal/server/ipam/blocks.go:43-47 | the ranges run from 10.0.0.0 to 10.255.255.255, 172.16.0.0 to 172.31.255.255 and 192.168.0.0 to 192.168.255.255 |
| Ipam.PoolRangeExact | internal/server/ipam/ipam.go:15-34 | /30 or larger: everything but network, server and broadcast address; smaller: rejected exactly when the additions do not wrap |
| Ipam.ServerAddressGuardsTheRange | internal/server/wg/addr.go:13-30 | a network on which the server finds its own address, the base plus one, has a range that never yields the network, server or broadcast address |
| Ipam.ServerAddressIffRange | internal/server/wg/addr.go:13-30 | it finds one exactly on the networks that have a range without wrapping |
| Ipam.PoolRejectedIsOverlap | internal/server/config/config.go:335-344 | the two one-address tests reject the pool exactly when it shares an address with the VPN network |
| Ipam.ValidAnnouncedSubnet | internal/server/api/announce_handlers.go:149-168 | accepts exactly the private blocks of 4 to 65536 addresses that share none with VPN network or synthetic pool |
| NodeAddresses.LowestFreeAddress | internal/server/store/nodes.go:118-135 | the candidates "first" and "used plus one" always contain the true minimum free address; none exactly when the range is full |
| NodeAddresses.CandidateBelow | internal/server/store/nodes.go:119-125 | below every free address there is a free candidate |
| Registration.InsertKeepsRows | internal/server/store/nodes.go:103-114 | an insert keeps addresses, keys and names distinct and addresses in range however stale the address it read, changes nothing when it fails, and never takes a capped user over the cap |
| Registration.InsertKeeps | internal/server/store/nodes.go:103-114 | and where the rest of the invariant holds, it is kept as well |
| Registration.RacesKeepRows | internal/server/store/nodes.go:53-95 | every interleaving of registrations' reads and inserts with each other and all other operations, failed re-joins included, keeps addresses distinct and in range and all else that rows satisfy |
| Registration.RacesKeepInvariant | internal/server/store/nodes.go:53-95 | and without a failed re-join among the other operations, they keep every other invariant as well |
| Registration.AddressesAreProper | internal/server/wg/addr.go:13-30 | in every such state no node has the network's, the server's, the broadcast or another node's address |
| Registration.UndisturbedIsCreated | internal/server/store/nodes.go:53-95 | an undisturbed registration ends at its first try, as the sequential description of the operation says |
| Registration.RetryIsCreated | internal/server/store/nodes.go:55-67 | an insert that meets a taken address with tries left changes nothing; undisturbed from there, the attempt ends as a sequential registration on the tables it finds |
| Registration.ContendedIff | internal/server/store/nodes.go:55-94 | over every run, an attempt without a result has given up if and only if a hundred inserts of its own each met a taken address |
| Schema.SettleIsLargest | internal/server/store/announcements.go:209-222 | what a deletion leaves contains every consistent database made of the remaining rows: nothing that could stay is lost |
| Schema.SettleKeepsInvariant | internal/server/store/migrations/0007_announcements.sql:4-19 | and it satisfies every invariant itself |
| Schema.LeaveSettles | internal/server/store/announcements.go:352-403 | dropping a membership, detaching its node's announcements there and reclaiming orphans leaves exactly that |
| Schema.DeleteZoneSettles | internal/server/store/announcements.go:488-536 | so do detaching a zone's announcements, reclaiming orphans and deleting the zone with its cascades |
| Schema.DeleteUserSettles | internal/server/store/users.go:167-309 | so do the cascades of a user's deletion and dropping what is attached nowhere |
| Schema.DeleteNodeSettles | internal/server/store/nodes.go:212-226 | so do the cascades of a node's deletion, with no reclaiming needed |
| Store.Database.CreateNode | internal/server/store/nodes.go:53-95 | new row with the lowest free address and the given owner, or the error that applies and an unchanged database |
| Store.NodeConflicts | internal/server/store/nodes.go:64-74 | keys are in conflict across the server, names among the user's own nodes, keys reported first; a refusal changes nothing |
| Store.Database.CreateZone | internal/server/store/zones.go:61-99 | the zone added under its cap and unique name, or the error that applies and an unchanged database |
| Store.Database.CreateAnnouncement | internal/server/store/announcements.go:49-158 | reuses the node's announcement of the subnet or allocates the lowest free synthetic block, attaches it, or reports the error that applies unchanged |
| Store.NodeCapHolds | internal/server/store/nodes.go:103-114 | a successful registration leaves its user within the cap |
| Store.ZoneCapHolds | internal/server/store/zones.go:87-99 | a successful creation leaves its owner within the cap |
| Store.AnnCapHolds | internal/server/store/announcements.go:70-125 | a new announcement leaves its user within the cap; a reused one adds none, whatever the cap |
| Store.Database.Detach | internal/server/store/announcements.go:166-193 | the attachment goes, and the announcement with it exactly when that was its last; otherwise nothing changes |
| Store.Database.DetachAllForNodeZone | internal/server/store/announcements.go:352-403 | all the node's attachments to the zone at once, and a list naming each with its block and whether its announcement went |
| Store.Database.DetachAllForZone | internal/server/store/announcements.go:488-536 | all the zone's attachments at once, with the same list |
| Store.Database.DeleteCascade | internal/server/store/users.go:167-309 | leaves the settled database; the footprint is exactly the difference of the derived states before and after, including precisely the surviving nodes whose routes shrink; refuses only the last administrator |
| Store.FootprintIsExact | internal/server/store/users.go:167-309 | the queries made before the delete and the orphans found after it add up to that difference |
| Store.Database.AllForRebuild | internal/server/store/zones.go:237-272 | one state for each zone, empty ones included, with exactly its members' addresses |
| Store.GroupRows | internal/server/store/announcements.go:295-343 | grouping rows by key loses, adds and mixes nothing |
| Store.Database.RoutesByZone | internal/server/store/announcements.go:295-317 | for every zone exactly the blocks attached to it |
| Store.Database.RoutesByNode | internal/server/store/announcements.go:321-343 | for every node exactly the blocks it announced |
| Netfw.VerdictIsPolicy | internal/server/netfw/nftables.go:84-100 | a chain built by any history accepts a packet if and only if it is a reply, or its ends share a zone, or its sender is in a zone whose routes hold its destination |
| Netfw.VerdictIgnoresHistory | internal/server/netfw/nftables.go:51-134 | two tables with the same sets give every packet the same verdict, whatever order their zones came and went in |
| Netfw.NoRuleNamesAMissingSet | internal/server/netfw/nftables.go:216-258 | no rule of such a chain looks into a set that is not there |
| Netfw.NamesInjective | internal/server/netfw/nftables.go:36-37 | no two zones, and no members set and routes set, share a set name |
| Netfw.Manager.DeleteZone | internal/server/netfw/nftables.go:216-267 | finding rules by set name removes this zone's two rules and sets, and every rule of every other zone stays |
| Netfw.Manager.Rebuild | internal/server/netfw/nftables.go:51-105 | ends with exactly the given zones, members and routes, whatever was there |
| Netfw.Manager.AddZone | internal/server/netfw/nftables.go:111-134 | adds the zone's sets and rules, or nothing when the kernel refuses |
| Netfw.RangeElementsExact | internal/server/netfw/nftables.go:340-352 | an interval element covers its block except for the last address of the address space |
| Wireguard.Device.SetPeerRoutes | internal/server/wg/iface.go:129-139 | the peer gets its address and routes under the kernel's one-owner rule |
| Wireguard.ConfiguredTakesOnly | internal/server/wg/iface.go:129-139 | which means: it shares no prefix with any other peer afterwards, and a peer that had none of these prefixes keeps all it had |
| Wireguard.Device.ReplacePeers | internal/server/wg/iface.go:155-168 | pairwise disjoint peers all keep what they were given |
| Derive.AtMostOnePeer | internal/server/wg/iface.go:170-186 | on a device in sync with proper rows an address is covered by at most one peer: cryptokey routing is a function |
| Upkeep.EveryRunRoutesOnce | internal/server/wg/iface.go:170-186 | in particular after every run of the server whatsoever, failed re-joins included |
| Derive.RecomputeStep | internal/server/wg/iface.go:129-139 | recomputing one peer takes no prefix from any other |
| Derive.SyncedIsUnique | internal/server/app/dataplane.go:46-83 | the database fixes peers, sets and every verdict |
| Effects.ExpelEffect | internal/server/api/zone_handlers.go:420-443 | a leave or kick takes exactly one address and the detached blocks out of one zone's sets, and nothing out of any other |
| Effects.DeleteUserEffect | internal/server/api/admin_user_handlers.go:47-81 | surviving zones lose exactly the footprint's elements |
| Authority.OnlyTheEntitled | internal/server/api/zone_handlers.go:286-307 | nothing changes and nothing is done but at the word of the entitled: the node's owner to delete it, take it out of a zone or announce (from an OpenWrt router), the zone's owner to delete it or kick, either of both to withdraw, a password holder with a node of his own to join, an administrator to delete another user |
| Authority.NextIsLawful | internal/server/api/announce_handlers.go:49-144 | every operation obeys its law: who may, which reply in which case, what becomes of every row, and caps for everyone but administrators |
| Authority.LawIsComplete | internal/server/api/zone_handlers.go:121-175 | and nothing else does: the laws fix reply and database |
| Authority.FoldedIsSame | internal/server/store/migrations/0001_users.sql:2-8 | user names are the same if they differ only in the case of ASCII letters |
| Control.NextKeepsInvariant | internal/server/store/announcements.go:49-158 | every operation but a failed re-join keeps: references live, every announcement attached, attachments only to the node's own zones, synthetic blocks disjoint, aligned, in the pool and as long as their real block, a node's real blocks disjoint |
| Control.RunsKeepInvariant | internal/server/store/announcements.go:49-222 | so does every run without one, from any state that satisfies them; from the empty database in particular |
| Control.RunsKeepRows | internal/server/store/migrations/0007_announcements.sql:4-19 | over every run whatsoever, failed re-joins included: addresses, keys and names unique, addresses in range, synthetic blocks disjoint, aligned, in the pool and as long as their real block, a node's real blocks disjoint |
| Control.RunsKeepAnAdmin | internal/server/store/users.go:167-199 | no run whatsoever leaves the server without an administrator, once it has one |
| Control.CreatedAnnKeeps | internal/server/store/announcements.go:49-158 | announcing keeps every invariant and changes nothing but one attachment and at most one new row |
| Control.RollbackRestores | internal/server/api/announce_handlers.go:173-186 | undoing a fresh attachment gives back the announcements and attachments there were; for a reused announcement because there are no orphans |
| Control.FailedRejoinBreaks | internal/server/api/zone_handlers.go:162-173 | a failed re-join keeps the invariant if and only if the node had announced nothing into the zone |
| Control.DeletionRacesAnnounce | internal/server/api/zone_handlers.go:397-406 | an announcement committed between the two transactions of a zone's deletion stays attached somewhere if and only if the node still had an announcement of that subnet, the guard of the reuse branch; otherwise it is orphaned |
| Witness.ServerInUse | internal/server/api/announce_handlers.go:49-144 | a concrete run is served with every reply a success and ends with an announcement attached to a zone, so the statements about reachable states are about something |
| Witness.RejoinBreaks | internal/server/api/zone_handlers.go:162-173 | from that run's last state, one failed re-join breaks the invariant |
| Witness.LateAnnouncementIsOrphaned | internal/server/api/zone_handlers.go:397-406 | a concrete announcement between the two transactions of a zone's deletion is left attached to nothing |
| Witness.LeftWhileAnnouncing | internal/server/api/zone_handlers.go:178-222 | a concrete router leaves its zone while announcing into it; whenever it does, the kernel ends out of sync, with a block in the zone's set that nobody announces |
| Witness.OneFlow | internal/client/routesync/routesync.go:33-126 | in that state, with its kernel and the API's answers, all premises of the end-to-end statements hold: one flow is routed by the laptop, carried by the server and translated by the router |
| Upkeep.ShrunkKept | internal/server/app/dataplane.go:46-83 | a kernel in sync stays in sync if exactly the lost elements, peers and zones go and every peer whose routes changed is recomputed |
| Upkeep.AnnounceUndone | internal/server/api/announce_handlers.go:115-134 | after the rollback the recomputed peer is the one from before, whether or not it had grown |
| Server.Relay.RegisterNode | internal/server/api/node_handlers.go:63-103 | keeps kernel equal to rebuild; a peer that cannot be added leaves no row |
| Server.Relay.DeleteNode | internal/server/api/node_handlers.go:148-196 | keeps kernel equal to rebuild from a snapshot taken before the delete |
| Server.Relay.CreateZone | internal/server/api/zone_handlers.go:22-117 | keeps kernel equal to rebuild through auto-join and both compensations |
| Server.Relay.JoinZone | internal/server/api/zone_handlers.go:121-175 | keeps kernel equal to rebuild if and only if it is not the failed re-join of a member |
| Server.Relay.LeaveZone | internal/server/api/zone_handlers.go:178-222 | keeps kernel equal to rebuild; membership, attachments and reclaimed announcements are gone from both sides |
| Server.Relay.KickMember | internal/server/api/zone_handlers.go:342-380 | the same, on the zone owner's word only, as its law says: a stranger gets a refusal and changes nothing |
| Server.Relay.DeleteZone | internal/server/api/zone_handlers.go:384-414 | keeps kernel equal to rebuild, other users' reclaimed announcements included |
| Server.Relay.Announce | internal/server/api/announce_handlers.go:49-144 | keeps kernel equal to rebuild; a failed kernel step restores announcements, attachments and peers |
| Server.Relay.Withdraw | internal/server/api/announce_handlers.go:191-249 | keeps kernel equal to rebuild; allowed to the node's owner and the zone's owner only |
| Server.Relay.DeleteUser | internal/server/api/admin_user_handlers.go:17-83 | keeps kernel equal to rebuild by applying the cascade's footprint |
| Server.Relay.Restart | internal/server/app/dataplane.go:46-83 | from any kernel state and any database of proper rows, one left by failed re-joins included, the rebuild produces the derived state |
| Server.Relay.Serve | internal/server/api/zone_handlers.go:384-468 | over every run of operations the incrementally kept kernel state is what a rebuild would produce |
| Overtaking.OvertakenAnnounce | internal/server/api/announce_handlers.go:103-134 | an announcement whose kernel steps are overtaken by any removing handler, before it reads the routes, with them read or with the peer grown, ends in sync if and only if its attachment survived or its zone did not, and its node survived (or its peer was grown already) with no route lost behind its back |
| Overtaking.LeaveOvertakesAnnounce | internal/server/api/zone_handlers.go:415-443 | for a leave or kick: in sync unless it takes the announcing node out of that very zone, or reclaims another announcement of that node while the old routes are held |
| Overtaking.ExpulsionAccounted | internal/server/api/zone_handlers.go:415-443 | a leave's or kick's kernel work is one that account covers |
| Overtaking.WithdrawalAccounted | internal/server/api/announce_handlers.go:191-249 | so is a withdrawal's |
| Overtaking.ZoneDeletionAccounted | internal/server/api/zone_handlers.go:384-414 | so is a zone deletion's |
| Overtaking.NodeDeletionAccounted | internal/server/api/node_handlers.go:148-196 | so is a node deletion's |
| Overtaking.UserDeletionAccounted | internal/server/api/admin_user_handlers.go:47-81 | so is a user deletion's |
| Sorting.SortedUnique | internal/client/routesync/routesync.go:60-64 | sorting by an order that tells elements apart leaves nothing to choice |
| Sorting.StringLeMeans | internal/client/routesync/routesync.go:60-61 | the order on strings is decided at the first difference, beginnings first |
| RouteSync.Fetch | internal/client/routesync/routesync.go:33-66 | one entry for each listed announcement in strictly increasing id order, with the sorted zones that list it; fails only if a request failed or a row does not parse, and where rows agree exactly then |
| RouteSync.FetchIgnoresOrder | internal/client/routesync/routesync.go:33-66 | any two orders of the zones give the same entries |
| RouteSync.BrokenIgnoresOrder | internal/client/routesync/routesync.go:33-66 | and either both fail or neither does |
| RouteSync.FetchZones | internal/client/routesync/routesync.go:41-61 | an entry's zones are exactly those listing its id, each once |
| RouteSync.Consumed | internal/client/routesync/routesync.go:82-93 | the function the next three rows pin down, by a loop over the entries with a set of blocks seen |
| RouteSync.ConsumedExact | internal/client/routesync/routesync.go:82-93 | one entry for each block others announce: none missing, none of the node's own |
| RouteSync.ConsumedOnce | internal/client/routesync/routesync.go:82-93 | and none twice |
| RouteSync.ConsumedIsEarliest | internal/client/routesync/routesync.go:82-93 | and it is the first entry of its block |
| RouteSync.ViewsPartition | internal/client/routesync/routesync.go:69-93 | own entries and others' entries are together all entries |
| RouteSync.ViewsInOrder | internal/client/routesync/routesync.go:69-93 | and both views keep the order by id |
| RouteSync.MemberZones | internal/client/routesync/routesync.go:111-126 | keeps, in order, exactly the zones whose member list could be had and names the node's address |
| RouteSync.Desired | internal/router/reconcile/reconcile.go:27-40 | rules and display entries showing exactly the node's own announcements one by one, or nothing when something was broken |
| EndToEnd.ClientRoutesAreExact | internal/client/routesync/routesync.go:33-126 | for every node and pool address, the chain accepts a new flow and another node's peer owns the address if and only if the client routes it, the top address excepted |
| EndToEnd.RoutedInPool | internal/client/routesync/routesync.go:82-102 | a client never routes an address outside the synthetic pool |
| EndToEnd.NodesMeetInAZone | internal/server/netfw/nftables.go:84-100 | a node opens a flow to another node if and only if the database has both in some zone |
| EndToEnd.AddressReachesItsNode | internal/server/wg/iface.go:170-186 | and it arrives: the device sends a node's address to that node's peer and to no other |
| EndToEnd.RuleComputationsAgree | cmd/lanweave-routerd/main.go:477-520 | the rules over all visible zones are the rules over the router's own zones |
| EndToEnd.OwnRulesProper | cmd/lanweave-routerd/main.go:498-502 | in every server state the router's rules have equal lengths, disjoint blocks on both sides and no real block in a synthetic one |
| EndToEnd.CarriedFlowArrives | internal/router/natctl/natctl.go:206-228 | a flow the server carries to a pool address arrives: the peer that owns the address is a node whose table translates it to the matching address of the subnet that node announced |
| Nat.MaskMatchIsInterval | internal/router/natctl/natctl.go:248-251 | the masked comparison matches exactly the block's addresses, at every prefix length |
| Nat.NetmapKeepsHostBits | internal/router/natctl/natctl.go:206-228 | the kernel's bitwise prefix translation is the shift from one block to the other |
| Nat.TranslationIsBijective | internal/router/natctl/natctl.go:206-228 | the table maps its synthetic addresses one-to-one into its real ones and never into a synthetic block |
| Nat.TranslationIsOnto | internal/router/natctl/natctl.go:206-228 | and onto all of them |
| Nat.TranslationIgnoresOrder | internal/router/natctl/natctl.go:112-125 | rule order does not matter |
| Nat.TranslatedIsMasqueraded | internal/router/natctl/natctl.go:232-246 | a translated flow is disguised exactly when it comes from the VPN |
| Nat.MasqueradesExactly | internal/router/natctl/natctl.go:232-246 | a masquerade rule takes exactly the flows from the pool to its real block |
| Nat.UserDataRoundTrip | internal/router/natctl/natctl.go:57-76 | a text reads back as a rule if and only if it is the text stored for that rule: nothing is lost, and no other text is taken for a rule |
| Nat.UserDataOfOne | internal/router/natctl/natctl.go:55-59 | one such text, letter by letter |
| Reconcile.Reconciler.ReconcileAll | cmd/lanweave-routerd/main.go:477-511 | without a fetch (a list that does not answer is enough) or without a table, table and routes are the old ones; otherwise the table is the fetched own rules and the routes are the request for everybody else's blocks, for which an interface is needed unless there are none |
| Reconcile.InstalledIsPlaced | internal/router/engine/engine.go:212-294 | in any surroundings, a block has a route after a pass if and only if it is wanted and either all was applied before, or it does not clash and was applied before or is not refused |
| Reconcile.WantedIsRouted | cmd/lanweave-routerd/main.go:506-509 | the blocks asked for cover exactly the addresses the client means to route |
| Reconcile.KernelRoutesAreExact | internal/router/engine/engine.go:212-294 | end to end, in any surroundings: a pool address has a route in the router's kernel if and only if the server carries flows to it for that router and its block could be placed |
| Reconcile.ClientKernelRoutesAreExact | internal/client/panel/panel.go:65-85 | the same on the Windows client, with or without its own id: over a tunnel connected by any run from the start, whatever its threads did, in which no request slipped into a teardown |
| Routes.CanonicalPrefixes | internal/netutil/prefix.go:13-30 | sorted without duplicates |
| Routes.CanonicalAscends | internal/netutil/prefix.go:23-28 | ascending by address, then by length |
| Routes.CanonicalExact | internal/netutil/prefix.go:13-30 | with exactly the masked prefixes asked for |
| Routes.RequestsByMeaning | internal/netutil/prefix.go:13-30 | requests with the same masked prefixes are the same request |
| Routes.RequestKeepsCoherent | internal/router/engine/engine.go:212-294 | routes are the applied blocks, AllowedIPs those and the VPN network, applied a subsequence of wanted; diffing against the memory amounts to replacing |
| Routes.FastPathIsExact | internal/router/engine/engine.go:216-219 | equal lengths mean the whole request is applied, and skipping is right if and only if none of it conflicts now |
| Routes.RepeatIsNoOp | internal/router/engine/engine.go:216-219 | a fully applied request repeated in any surroundings changes nothing |
| Router.Engine.SetRoutes | internal/router/engine/engine.go:212-294 | adding first leaves the state the shared description gives, and over a sound interface exactly the requested routes |
| Router.Engine.Up | internal/router/engine/engine.go:64-137 | never takes over an interface; succeeds with an empty memory and only the VPN network allowed |
| Router.Engine.Down | internal/router/engine/engine.go:141-153 | forgets the routes in any case and says truly whether the interface is gone |
| Router.Daemon.Run | internal/router/daemon/daemon.go:59-87 | every run is a sequence of moments, each following from the one before by its event; it ends with the first cancel, having forgotten the routes, stopped if and only if the interface could go; believing the tunnel up implies the interface exists; OnUp fired once for each bring-up, with an empty route memory; a healthy check ends with the tunnel up |
| Router.EventsMean | internal/router/daemon/daemon.go:59-111 | belief in the tunnel is lost only when a stale one was removed and none could be built, and gained only with a fresh one; routes change only by a reconcile or with the interface; only fresh tunnels are counted |
| Router.Daemon.Check | internal/router/daemon/daemon.go:72-84 | when the engine's calls succeed, one check ends with a tunnel that it found fresh or has just built |
| Router.Daemon.TryUp | internal/router/daemon/daemon.go:89-111 | a leftover interface is replaced; success exactly when the calls it needs succeed |
| Tunnel.Tunnel.SetExtraRoutes | internal/client/tunnel/tunnel.go:414-471 | deleting first leaves the very state the router's applier leaves from the same state, request, conflicts and refusals |
| Tunnel.RouteDiff | internal/client/tunnel/profile.go:78-96 | additions and deletions are the two differences, in request order |
| Tunnel.Tunnel.Connect | internal/client/tunnel/tunnel.go:161-226 | with anything other threads do whenever it is outside the lock, a connect is a run of the steps below; what it reports is fixed by setup, adapter and handshake, except that having lost its engine it gives up silently; it succeeds only with its own engine installed and connected, and having failed it left the tunnel disconnected and its engine never comes back |
| Tunnel.UndisturbedEnds | internal/client/tunnel/tunnel.go:161-226 | undisturbed, it ends connected under its own name, or disconnected with its engine closed and down, and touches no other engine |
| Tunnel.Tunnel.Teardown | internal/client/tunnel/tunnel.go:235-249 | a teardown too is a run of the steps, through a state with no engine; undisturbed, it ends with its engine closed |
| Tunnel.RunsAreSafe | internal/client/tunnel/tunnel.go:161-249 | under every interleaving, Disconnected holds exactly when no engine is installed, Connected only with an engine whose attempt connected, and every engine made is installed, being closed or closed once |
| Tunnel.ConnectedOnlyByItsOwn | internal/client/tunnel/tunnel.go:204-217 | the status turns Connected only by the handshake of the installed engine's attempt |
| Tunnel.OvertakenStaysOvertaken | internal/client/tunnel/tunnel.go:207-213 | an attempt that lost its engine never gets it back in any run, and its handshake changes nothing |
| Tunnel.NameKeptIff | internal/client/tunnel/tunnel.go:197-199 | a step keeps the recorded name the installed engine's if and only if it is not an overtaken attempt recording its own, and keeps a name from outliving every engine if and only if it is not an attempt recording its name with none installed |
| Tunnel.DevicesKeptIff | internal/client/tunnel/tunnel.go:192-196 | a step leaves no device running unowned if and only if it is not an engine coming up after it was closed |
| Tunnel.StartedOnTime | internal/client/tunnel/tunnel.go:192-199 | over every run from the start in which attempts bring up and name only engines they still have, the name is the installed engine's and no device is left running |
| Tunnel.LateEngineRun | internal/client/tunnel/tunnel.go:192-199 | the run in which both go wrong |
| Tunnel.MemoryKeptIff | internal/client/tunnel/tunnel.go:235-249 | the route memory stays right at a step if and only if the step is not a request slipping between teardown's two locks |
| Tunnel.RunsKeepMemory | internal/client/tunnel/tunnel.go:235-249 | and over every run without one |
| Tunnel.StartedMemory | internal/client/tunnel/tunnel.go:235-249 | from the start in particular |
| Tunnel.SlipRun | internal/client/tunnel/tunnel.go:235-249 | a concrete run from the start after which a request for any one prefix slips in and leaves the memory wrong |
| Tunnel.SlippedRequestMisleads | internal/client/tunnel/tunnel.go:421-425 | after one, the next connection takes the same request to be applied with no route in the kernel |

## Left out

- Server.Relay.Serve: whole handlers are the steps of a run, and best-effort kernel calls that a handler only logs are taken to succeed; `Server.Relay.Restart` repairs any gap they leave. Handlers interleaved with each other are treated where named (`Registration`, `Control.DeletionRacesAnnounce`, `Overtaking`).
- Control.RunsKeepInvariant: assumes no failed re-join, whose effect `Control.FailedRejoinBreaks` states; `Control.RunsKeepRows` covers all runs.
- Registration.RacesKeepRows: where one insert violates several unique constraints, the address is taken to be reported first, then the key, then the name; SQLite's own order is not part of this model.
- RouteSync.Fetch: a subnet's text is represented by what parsing it gives, and a list request by its answer.
- Router.Engine.SetRoutes: errors after the route diff (server key, device configuration) and a lost race between Down and SetRoutes are not modelled; deleting a route always works.
- Router.Daemon.Run: the select loop runs over a list of events; time, tickers and the handshake's age are in the events.
- Tunnel.RunsAreSafe: an engine's own calls are atomic, and the timeout's teardown may take a newer attempt's engine, as in the code; nothing is claimed against that.
- Nat.UserDataRoundTrip: netip's parser is modelled on IPv4 text; a text whose prefixes are IPv6 is not part of this model.
- Tunnel.NameKeptIff: engines' names are taken as distinct to say whose name is recorded; the code asks for the same name each time, so its callers can tell only the second of the two statements.
- Tunnel.Tunnel.Connect: parsing the stored profile, bringing the engine up and each poll's answer are inputs; probes are not modelled.
- Nat.NetmapKeepsHostBits: the kernel's NETMAP computation follows its documented meaning; four-byte operands are the words they spell, and `|` with a host mask in `PoolRange` is addition.
- Tokens outlive users: an operation by a deleted user meets the foreign key and is refused; tokens, passwords and keys are opaque values.
- IPv6: prefixes that are not IPv4 are not part of this model.
- HTTP decoding, status codes, middleware, rate limits, field validation (name, key and platform syntax) and the distinction between error messages.
- Invites, refresh tokens, password changes, password policy, TLS pinning, key generation and state files: small sequential facts that do not touch the derived state.
- The text of WireGuard configuration updates, base64 and hex keys: an update is the set of allowed prefixes it names.
- Timestamps, logging, handshake statistics, transfer counters and the panel.
- SQL itself: queries are the sets of rows they select, in some order; migrations give the foreign keys, cascades and unique constraints.
- Overtaking.OvertakenAnnounce: the overtaking handler is one whole removal and every kernel call that can succeed does; two removals, or one that is itself overtaken, are not part of this model.
- Router/table locking across processes, table teardown and reading the table back from the kernel.
- FirstUsableAddress and PoolRange on text that is not a CIDR.
