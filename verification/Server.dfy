/** The API handlers (internal/server/api) and the start-up rebuild (internal/server/app): each
    changes the database and then, step by step, the kernel state derived from it. The state
    predicate says the kernel holds exactly what a rebuild would produce; every handler keeps it
    while doing to the database what Control says it does. */
module Server {
  import opened Cidr
  import opened Common
  import opened Ipam
  import opened Schema
  import opened Netfw
  import opened Wireguard
  import opened Derive
  import opened Store
  import opened Effects
  import opened Control
  import opened Authority
  import opened Upkeep

  class Relay {
    const cfg: Config
    const store: Database
    const wg: Device
    const fw: Manager

    ghost predicate Valid()
      reads this, store, wg, fw
    {
      Faithful(cfg, store.tables, wg.peers, fw.table)
    }

    constructor (cfg: Config)
      requires ConfigOk(cfg)
      ensures Valid() && this.cfg == cfg && store.tables == EMPTY
      ensures fresh(store) && fresh(wg) && fresh(fw)
    {
      this.cfg := cfg;
      store := new Database();
      wg := new Device();
      fw := new Manager();
      new;
      EmptyInvariant(cfg);
      assert DerivedMembers(EMPTY) == map[] && DerivedRoutes(EMPTY) == map[] && Keys(EMPTY) == {};
    }

    // -------------------------------------------------------------- kernel steps shared by handlers

    method RemoveMembers(pairs: seq<(int, uint32)>)
      requires fw.Valid()
      modifies fw
      ensures fw.Valid() && fw.table.routes == old(fw.table.routes)
      ensures fw.table.members == MinusMembers(old(fw.table.members), Elems(pairs))
    {
      MinusNothing(fw.table.members, fw.table.routes);
      assert Elems(pairs[..0]) == {};
      for i := 0 to |pairs|
        invariant fw.Valid() && fw.table.routes == old(fw.table.routes)
        invariant fw.table.members == MinusMembers(old(fw.table.members), Elems(pairs[..i]))
      {
        assert Elems(pairs[..i + 1]) == Elems(pairs[..i]) + {pairs[i]};
        MinusMembersOne(old(fw.table.members), Elems(pairs[..i]), pairs[i]);
        fw.RemoveMember(pairs[i].0, pairs[i].1);
      }
      assert pairs[..|pairs|] == pairs;
    }

    method RemoveRoutes(pairs: seq<(int, Block)>)
      requires fw.Valid()
      modifies fw
      ensures fw.Valid() && fw.table.members == old(fw.table.members)
      ensures fw.table.routes == MinusRoutes(old(fw.table.routes), Elems(pairs))
    {
      MinusNothing(fw.table.members, fw.table.routes);
      assert Elems(pairs[..0]) == {};
      for i := 0 to |pairs|
        invariant fw.Valid() && fw.table.members == old(fw.table.members)
        invariant fw.table.routes == MinusRoutes(old(fw.table.routes), Elems(pairs[..i]))
      {
        assert Elems(pairs[..i + 1]) == Elems(pairs[..i]) + {pairs[i]};
        MinusRoutesOne(old(fw.table.routes), Elems(pairs[..i]), pairs[i]);
        fw.RemoveZoneRoute(pairs[i].0, pairs[i].1);
      }
      assert pairs[..|pairs|] == pairs;
    }

    method RemovePeers(keys: seq<string>)
      modifies wg
      ensures wg.peers == old(wg.peers) - Elems(keys)
    {
      assert wg.peers - Elems(keys[..0]) == wg.peers;
      for i := 0 to |keys|
        invariant wg.peers == old(wg.peers) - Elems(keys[..i])
      {
        assert Elems(keys[..i + 1]) == Elems(keys[..i]) + {keys[i]};
        wg.RemovePeer(keys[i]);
      }
      assert keys[..|keys|] == keys;
    }

    method DestroyZones(zones: seq<int>)
      requires fw.Valid() && forall z :: z in zones ==> z >= 1
      modifies fw
      ensures fw.Valid()
      ensures fw.table.members == old(fw.table.members) - Elems(zones)
      ensures fw.table.routes == old(fw.table.routes) - Elems(zones)
    {
      assert fw.table.members - Elems(zones[..0]) == fw.table.members;
      assert fw.table.routes - Elems(zones[..0]) == fw.table.routes;
      for i := 0 to |zones|
        invariant fw.Valid()
        invariant fw.table.members == old(fw.table.members) - Elems(zones[..i])
        invariant fw.table.routes == old(fw.table.routes) - Elems(zones[..i])
      {
        assert zones[i] in zones;
        assert Elems(zones[..i + 1]) == Elems(zones[..i]) + {zones[i]};
        fw.DeleteZone(zones[i]);
      }
      assert zones[..|zones|] == zones;
    }

    /** Recomputes one surviving node's peer from the database. */
    method RecomputePeer(row: RecomputeNode, ghost t: Tables, ghost done: set<int>)
      requires Invariant(cfg, t) && Sub(store.tables, t)
      requires PeersMixed(t, store.tables, done, wg.peers) && RowCurrent(store.tables, row)
      modifies wg
      ensures PeersMixed(t, store.tables, done + {row.node}, wg.peers)
    {
      var routes := store.RoutesForNode(row.node);
      RecomputeStep(cfg, t, store.tables, done, wg.peers, row.node);
      wg.SetPeerRoutes(row.pubKey, row.ip, routes);
    }

    method RecomputePeers(rows: seq<RecomputeNode>, ghost t: Tables)
      requires Invariant(cfg, t) && Sub(store.tables, t)
      requires PeersMixed(t, store.tables, {}, wg.peers) && RowsCurrent(store.tables, rows)
      modifies wg
      ensures PeersMixed(t, store.tables, NodesIn(rows), wg.peers)
    {
      hide Invariant, Sub, PeersMixed;
      ghost var s := store.tables;
      assert NodesIn(rows[..0]) == {};
      for i := 0 to |rows|
        invariant store.tables == s && PeersMixed(t, s, NodesIn(rows[..i]), wg.peers)
      {
        assert RowCurrent(s, rows[i]);
        assert rows[..i + 1] == rows[..i] + [rows[i]];
        NodesInMore(rows[..i], rows[i]);
        RecomputePeer(rows[i], t, NodesIn(rows[..i]));
      }
      assert rows[..|rows|] == rows;
    }

    method GetByName(name: string) returns (zone: Option<int>)
      requires Invariant(cfg, store.tables)
      ensures zone == ZoneNamed(store.tables, name)
    {
      var hits := ZonesNamed(store.tables, name);
      if hits == {} {
        return None;
      }
      var z := PickOne(hits);
      assert Pick(hits) in hits && Pick(ZonesNamed(store.tables, name)) == Pick(hits);
      return Some(z);
    }

    // -------------------------------------------------------------- users

    method AddUser(op: Op) returns (reply: Reply)
      requires Valid() && op.AddUser?
      modifies store, wg, fw
      ensures Valid() && (store.tables, reply) == UserAdded(old(store.tables), op)
      ensures Lawful(cfg, old(store.tables), op, store.tables, reply)
    {
      hide Faithful, Lawful;
      Basics(cfg, store.tables, wg.peers, fw.table);
      NextIsLawful(cfg, store.tables, op);
      ghost var t := store.tables;
      UserAddedKept(cfg, t, UserAdded(t, op).0, wg.peers, fw.table, op);
      var ok := store.CreateUser(op.name, op.admin);
      return if ok then Done else Conflict;
    }

    /** deleteUser: the footprint of the cascade, applied to the kernel. */
    method DeleteUser(op: Op) returns (reply: Reply)
      requires Valid() && op.DeleteUser?
      modifies store, wg, fw
      ensures Valid() && (store.tables, reply) == UserGone(old(store.tables), op)
      ensures Lawful(cfg, old(store.tables), op, store.tables, reply)
    {
      hide Lawful;
      NextIsLawful(cfg, store.tables, op);
      ghost var t, p0, f0 := store.tables, wg.peers, fw.table;
      if !op.who.isAdmin || op.target == op.who.user {
        return Forbidden;
      }
      var result := store.DeleteCascade(op.target);
      match result {
        case UserNotFound => return NotFound;
        case LastAdmin => return Conflict;
        case UserDeleted(d) =>
          UserGoneStarts(cfg, t, store.tables, p0, f0, op.target, d);
          RemovePeers(d.nodePubKeys);
          RemoveMembers(d.survivingMemberships);
          DestroyZones(d.ownedZoneIDs);
          RemoveRoutes(d.survivingZoneRoutes);
          RecomputePeers(d.recompute, t);
          UserGoneKept(cfg, t, store.tables, p0, f0, wg.peers, fw.table, op.target, d);
          return Done;
      }
    }

    // -------------------------------------------------------------- nodes

    /** registerNode: allocate and insert, then add the peer; if the peer cannot be added the row
        is deleted again. */
    method RegisterNode(op: Op) returns (reply: Reply)
      requires Valid() && op.RegisterNode?
      modifies store, wg, fw
      ensures Valid() && (store.tables, reply) == Registered(cfg, old(store.tables), op)
      ensures Lawful(cfg, old(store.tables), op, store.tables, reply)
    {
      hide Faithful, Invariant, Lawful;
      ghost var t := store.tables;
      Basics(cfg, t, wg.peers, fw.table);
      NextIsLawful(cfg, store.tables, op);
      var range := PoolRange(cfg.network);
      if range.None? {
        return ServerError;
      }
      CreatedNodeKeeps(cfg, t, op.who.user, op.name, op.key, op.platform, Cap(op.who, cfg.maxDevices));
      var r := store.CreateNode(op.who.user, op.name, op.key, op.platform, range.value, Cap(op.who, cfg.maxDevices));
      match r {
        case PoolExhausted => return Exhausted;
        case DeviceLimit => return LimitReached;
        case PubKeyTaken => return Conflict;
        case NodeNameTaken => return Conflict;
        case NodeRefused => return ServerError;
        case NodeCreated(n) =>
          ghost var s := store.tables;
          if !op.fault.NoFault? {
            store.DeleteNode(n);
            NodeUndone(cfg, t, s, wg.peers, fw.table, n, store.tables);
            return ServerError;
          }
          assert s.nodes[n].pubKey == op.key && Elems<Block>([]) == {};
          NodeAddedKept(cfg, t, s, wg.peers, fw.table, n);
          wg.SetPeerRoutes(op.key, store.tables.nodes[n].ip, []);
          return Done;
      }
    }

    /** deleteNode: snapshot the node's zones and attachments, delete the row, then remove its
        peer and its elements from the surviving sets. */
    method DeleteNode(op: Op) returns (reply: Reply)
      requires Valid() && op.DeleteNode?
      modifies store, wg, fw
      ensures Valid() && (store.tables, reply) == NodeGone(old(store.tables), op)
      ensures Lawful(cfg, old(store.tables), op, store.tables, reply)
    {
      hide Lawful;
      NextIsLawful(cfg, store.tables, op);
      ghost var t, p0, f0 := store.tables, wg.peers, fw.table;
      if !OwnsNode(store.tables, op.who.user, op.node) {
        return NotFound;
      }
      var node := store.tables.nodes[op.node];
      var zones := Select(NodeMemberships(store.tables, op.node));
      var attachments := Select(NodeAttachments(store.tables, op.node));
      store.DeleteNode(op.node);
      wg.RemovePeer(node.pubKey);
      RemoveMembers(zones);
      RemoveRoutes(attachments);
      NodeGoneKept(cfg, t, store.tables, p0, f0, fw.table, op.node);
      return Done;
    }

    // -------------------------------------------------------------- zones

    /** createZone with its optional auto-join, and the two compensations. */
    method CreateZone(op: Op) returns (reply: Reply)
      requires Valid() && op.CreateZone?
      modifies store, wg, fw
      ensures Valid() && (store.tables, reply) == ZoneMade(cfg, old(store.tables), op)
      ensures Lawful(cfg, old(store.tables), op, store.tables, reply)
    {
      hide Lawful;
      NextIsLawful(cfg, store.tables, op);
      ghost var t, f0 := store.tables, fw.table;
      if op.autoJoin.Some? && !OwnsNode(store.tables, op.who.user, op.autoJoin.value) {
        return NotFound;
      }
      CreatedZoneKeeps(cfg, t, op.who.user, op.name, Cap(op.who, cfg.maxZones));
      var r := store.CreateZone(op.who.user, op.name, Cap(op.who, cfg.maxZones));
      match r {
        case OwnedZoneLimit => return LimitReached;
        case ZoneNameTaken => return Conflict;
        case ZoneRefused => return ServerError;
        case ZoneCreated(z) =>
          reply := EquipZone(z, op, t);
      }
    }

    /** The kernel half of createZone. */
    method EquipZone(z: int, op: Op, ghost t: Tables) returns (reply: Reply)
      requires Faithful(cfg, t, wg.peers, fw.table) && Invariant(cfg, store.tables)
      requires ZoneAdded(t, store.tables, z)
      requires op.CreateZone? && (op.autoJoin.Some? ==> op.autoJoin.value in t.nodes)
      modifies store, wg, fw
      ensures Valid()
      ensures (store.tables, reply) == EquippedZone(t, old(store.tables), op, z)
    {
      hide Faithful, Invariant, WellBuilt, ZoneAdded;
      ghost var s, p, f0 := store.tables, wg.peers, fw.table;
      Basics(cfg, t, p, f0);
      NewZoneId(cfg, t, s, z);
      fw.AddZone(z, !op.fault.FirstCall?);
      if op.fault.FirstCall? {
        store.DeleteZone(z);
        ZoneUndone(cfg, t, s, p, f0, fw.table, z, {}, store.tables);
        return ServerError;
      }
      if op.autoJoin.None? {
        ZoneAddedKept(cfg, t, s, p, f0, fw.table, z);
        return Done;
      }
      reply := EnterZone(z, op.autoJoin.value, op.fault, t, f0);
    }

    /** createZone's auto-join. */
    method EnterZone(z: int, n: int, fault: Fault, ghost t: Tables, ghost f0: Table) returns (reply: Reply)
      requires Faithful(cfg, t, wg.peers, f0) && Invariant(cfg, store.tables)
      requires ZoneAdded(t, store.tables, z) && n in t.nodes && z !in f0.members && f0.routes.Keys == f0.members.Keys
      requires fw.Valid() && fw.table.members == f0.members[z := {}] && fw.table.routes == f0.routes[z := {}]
      modifies store, fw
      ensures Valid()
      ensures reply == if fault.SecondCall? then ServerError else Done
      ensures store.tables == if fault.SecondCall? then t.(next := old(store.tables).next)
                              else old(store.tables).(members := old(store.tables).members + {Member(z, n)})
    {
      hide Faithful, Invariant, WellBuilt;
      ghost var s, f := store.tables, fw.table;
      Basics(cfg, t, wg.peers, f0);
      PutAndTake(f0.members, z, {});
      PutAndTake(f0.routes, z, {});
      store.Join(z, n);
      if fault.SecondCall? {
        UndoZone(z, t, s, {Member(z, n)}, f0);
        return ServerError;
      }
      ZoneAddedKept(cfg, t, s, wg.peers, f0, f, z);
      fw.AddMember(z, store.tables.nodes[n].ip);
      NodeJoinedKept(cfg, s, store.tables, wg.peers, f, fw.table, z, n);
      return Done;
    }

    /** rollbackZone: the row goes, and with it whatever joined; then the sets and rules. */
    method UndoZone(z: int, ghost t: Tables, ghost s: Tables, ghost joined: set<Member>, ghost f0: Table)
      requires Faithful(cfg, t, wg.peers, f0) && ZoneAdded(t, s, z)
      requires store.tables == s.(members := s.members + joined) && forall m :: m in joined ==> m.zone == z
      requires fw.Valid() && fw.table.members - {z} == f0.members && fw.table.routes - {z} == f0.routes
      modifies store, fw
      ensures Valid() && store.tables == t.(next := s.next)
    {
      store.DeleteZone(z);
      fw.DeleteZone(z);
      ZoneUndone(cfg, t, s, wg.peers, f0, fw.table, z, joined, store.tables);
    }

    /** joinZone. The compensation for a failed set update is a leave, so the state predicate
        survives exactly when the operation was not the failed re-join of a member. */
    method JoinZone(op: Op) returns (reply: Reply)
      requires Valid() && op.JoinZone?
      modifies store, wg, fw
      ensures (store.tables, reply) == Joined(old(store.tables), op)
      ensures Lawful(cfg, old(store.tables), op, store.tables, reply)
      ensures Valid() <==> !FailedRejoin(old(store.tables), op)
    {
      hide Faithful, Lawful;
      Basics(cfg, store.tables, wg.peers, fw.table);
      NextIsLawful(cfg, store.tables, op);
      var zone := GetByName(op.name);
      if zone.None? || !op.passwordOk {
        return BadZoneOrPassword;
      }
      if !OwnsNode(store.tables, op.who.user, op.node) {
        return NotFound;
      }
      reply := Enter(zone.value, op.node, op.fault);
    }

    /** The membership row, then the set element. */
    method Enter(zone: int, node: int, fault: Fault) returns (reply: Reply)
      requires Valid() && zone in store.tables.zones && node in store.tables.nodes
      modifies store, fw
      ensures reply == if fault.NoFault? then Done else ServerError
      ensures store.tables == var t := old(store.tables);
                              t.(members := if fault.NoFault? then t.members + {Member(zone, node)}
                                            else t.members - {Member(zone, node)})
      ensures Valid() <==> fault.NoFault? || Member(zone, node) !in old(store.tables).members
    {
      hide Faithful, Invariant, Consistent, WellBuilt;
      ghost var t, p0, f0 := store.tables, wg.peers, fw.table;
      Basics(cfg, t, p0, f0);
      var ip := store.tables.nodes[node].ip;
      store.Join(zone, node);
      if !fault.NoFault? {
        var left := store.Leave(zone, node);
        JoinUndone(cfg, t, store.tables, p0, f0, zone, node);
        return ServerError;
      }
      fw.AddMember(zone, ip);
      NodeJoinedKept(cfg, t, store.tables, p0, f0, fw.table, zone, node);
      return Done;
    }

    method LeaveZone(op: Op) returns (reply: Reply)
      requires Valid() && op.LeaveZone?
      modifies store, wg, fw
      ensures Valid() && (store.tables, reply) == Left(old(store.tables), op)
      ensures Lawful(cfg, old(store.tables), op, store.tables, reply)
    {
      hide Lawful;
      NextIsLawful(cfg, store.tables, op);
      var zone := GetByName(op.name);
      if zone.None? || !OwnsNode(store.tables, op.who.user, op.node) {
        return NotFound;
      }
      if Member(zone.value, op.node) !in store.tables.members {
        return NotFound;
      }
      Expel(zone.value, op.node);
      return Done;
    }

    method KickMember(op: Op) returns (reply: Reply)
      requires Valid() && op.KickMember?
      modifies store, wg, fw
      ensures Valid() && (store.tables, reply) == Kicked(old(store.tables), op)
      ensures Lawful(cfg, old(store.tables), op, store.tables, reply)
    {
      hide Lawful;
      NextIsLawful(cfg, store.tables, op);
      var zone := GetByName(op.name);
      if zone.None? {
        return NotFound;
      }
      if store.tables.zones[zone.value].owner != op.who.user {
        return Forbidden;
      }
      if op.node !in store.tables.nodes || Member(zone.value, op.node) !in store.tables.members {
        return NotFound;
      }
      Expel(zone.value, op.node);
      return Done;
    }

    /** What leaveZone and kickMember share: the membership row goes, then the set element, then
        the node's announcements into the zone and whatever that reclaims. */
    method Expel(zone: int, node: int)
      requires Valid() && zone in store.tables.zones && node in store.tables.nodes
      modifies store, wg, fw
      ensures Valid() && store.tables == Expelled(old(store.tables), zone, node)
    {
      ghost var t, p0, f0 := store.tables, wg.peers, fw.table;
      var row := store.tables.nodes[node];
      var left := store.Leave(zone, node);
      ghost var mid := store.tables;
      RemoveMembers([(zone, row.ip)]);
      OnlyOne((zone, row.ip));
      var dets := store.DetachAllForNodeZone(node, zone);
      ExpelStarts(cfg, t, mid, store.tables, p0, f0, zone, node);
      DetachedPairs(mid, store.tables, zone, node, dets);
      var reclaimed := RemoveDetachedRoutes(zone, dets);
      FlagIsReclaimed(dets, node, reclaimed);
      RecomputeIf(reclaimed, node, t);
      ExpelKept(cfg, t, mid, store.tables, p0, f0, wg.peers, fw.table, zone, node, dets);
    }

    /** cascadeNodeZoneAnnouncements' loop: the elements go, and it remembers whether any
        announcement went with its attachment. */
    method RemoveDetachedRoutes(zone: int, dets: seq<ZoneDetachment>) returns (reclaimed: bool)
      requires fw.Valid()
      modifies fw
      ensures fw.Valid() && fw.table.members == old(fw.table.members)
      ensures fw.table.routes == MinusRoutes(old(fw.table.routes), Elems(Pairs(zone, dets)))
      ensures reclaimed <==> exists d :: d in dets && d.reclaimed
    {
      hide WellBuilt, MinusRoutes;
      MinusNothing(fw.table.members, fw.table.routes);
      reclaimed := false;
      assert Elems(Pairs(zone, dets[..0])) == {};
      for i := 0 to |dets|
        invariant fw.Valid() && fw.table.members == old(fw.table.members)
        invariant fw.table.routes == MinusRoutes(old(fw.table.routes), Elems(Pairs(zone, dets[..i])))
        invariant reclaimed <==> exists d :: d in dets[..i] && d.reclaimed
      {
        assert dets[..i + 1] == dets[..i] + [dets[i]];
        PairsMore(zone, dets[..i], dets[i]);
        MinusRoutesOne(old(fw.table.routes), Elems(Pairs(zone, dets[..i])), (zone, dets[i].synthetic));
        fw.RemoveZoneRoute(zone, dets[i].synthetic);
        reclaimed := reclaimed || dets[i].reclaimed;
      }
      assert dets[..|dets|] == dets;
    }

    /** recomputeReclaimedPeers: the nodes that lost an announcement, each once, looked up again. */
    method RecomputeReclaimedPeers(dets: seq<ZoneDetachment>, ghost t: Tables)
      requires Invariant(cfg, t) && Sub(store.tables, t) && PeersMixed(t, store.tables, {}, wg.peers)
      requires forall d :: d in dets ==> d.node in store.tables.nodes
      modifies wg
      ensures PeersMixed(t, store.tables, ReclaimedFrom(dets), wg.peers)
    {
      hide Invariant, Sub, PeersMixed;
      ghost var s := store.tables;
      var seen: set<int> := {};
      for i := 0 to |dets|
        invariant store.tables == s && seen == ReclaimedFrom(dets[..i])
        invariant PeersMixed(t, s, seen, wg.peers)
      {
        assert dets[..i + 1] == dets[..i] + [dets[i]];
        ReclaimedMore(dets[..i], dets[i]);
        if dets[i].reclaimed && dets[i].node !in seen {
          var n := dets[i].node;
          var row := store.tables.nodes[n];
          RecomputePeer(RecomputeNode(n, row.pubKey, row.ip), t, seen);
          seen := seen + {n};
        }
      }
      assert dets[..|dets|] == dets;
    }

    /** deleteZone: detach, delete, destroy the sets and rules, recompute the reclaimed peers. */
    method DeleteZone(op: Op) returns (reply: Reply)
      requires Valid() && op.DeleteZone?
      modifies store, wg, fw
      ensures Valid() && (store.tables, reply) == ZoneGone(old(store.tables), op)
      ensures Lawful(cfg, old(store.tables), op, store.tables, reply)
    {
      hide Faithful, Invariant, Sub, PeersMixed, WellBuilt, Lawful;
      ghost var t, p0, f0 := store.tables, wg.peers, fw.table;
      Basics(cfg, t, p0, f0);
      NextIsLawful(cfg, store.tables, op);
      var zone := GetByName(op.name);
      if zone.None? {
        return NotFound;
      }
      if store.tables.zones[zone.value].owner != op.who.user {
        return Forbidden;
      }
      var dets := store.DetachAllForZone(zone.value);
      ghost var u := store.tables;
      store.DeleteZone(zone.value);
      ZoneGoneStarts(cfg, t, u, store.tables, p0, f0, zone.value);
      DetachmentsLive(t, u, ZoneLinks(t, zone.value), dets);
      fw.DeleteZone(zone.value);
      RecomputeReclaimedPeers(dets, t);
      ZoneGoneKept(cfg, t, u, store.tables, p0, f0, wg.peers, fw.table, zone.value, dets);
      return Done;
    }

    // -------------------------------------------------------------- announcements

    /** createAnnouncement: check the caller, the node and the subnet, then allocate or attach. */
    method Announce(op: Op) returns (reply: Reply)
      requires Valid() && op.Announce?
      modifies store, wg, fw
      ensures Valid() && (store.tables, reply) == Advertised(cfg, old(store.tables), op)
      ensures Lawful(cfg, old(store.tables), op, store.tables, reply)
    {
      hide Lawful;
      NextIsLawful(cfg, store.tables, op);
      var zone := GetByName(op.name);
      if zone.None? || !Participates(store.tables, zone.value, op.who.user) {
        return NotFound;
      }
      if cfg.pool.None? {
        return Disabled;
      }
      if !OwnsNode(store.tables, op.who.user, op.node) {
        return NotFound;
      }
      if store.tables.nodes[op.node].platform != ROUTER_PLATFORM {
        return Unsupported;
      }
      var valid := ValidAnnouncedSubnet(cfg, op.subnet);
      if !valid {
        return Invalid;
      }
      var subnet := BlockFromPrefix(op.subnet);
      var limit := Cap(op.who, cfg.maxSubnets);
      ghost var t := store.tables;
      CreatedAnnKeeps(cfg, t, op.who.user, op.node, subnet, zone.value, limit);
      var r := store.CreateAnnouncement(op.who.user, op.node, subnet, zone.value, limit, cfg.pool.value);
      match r {
        case NotMember => return NotFound;
        case SubnetOverlap => return Conflict;
        case AnnounceLimit => return LimitReached;
        case SyntheticExhausted => return Exhausted;
        case BadSize => return ServerError;
        case Announced(_, _, _) =>
          reply := Advertise(zone.value, op.node, r, op.fault, t);
      }
    }

    /** The kernel half of createAnnouncement: nothing to do for an announcement that was attached
        already. */
    method Advertise(zone: int, node: int, r: AnnounceResult, fault: Fault, ghost t: Tables) returns (reply: Reply)
      requires Faithful(cfg, t, wg.peers, fw.table) && Invariant(cfg, store.tables)
      requires r.Announced? && AnnouncedInto(t, store.tables, r, node, zone) && Later(t, store.tables)
      modifies store, wg, fw
      ensures Valid()
      ensures reply == if r.attached && !fault.NoFault? then ServerError else Done
      ensures store.tables ==
              if r.attached && !fault.NoFault? then t.(next := old(store.tables).next) else old(store.tables)
    {
      hide Faithful, Invariant, AnnouncedInto;
      Basics(cfg, t, wg.peers, fw.table);
      AnnouncedRows(cfg, t, store.tables, r, node, zone);
      if !r.attached {
        ReannouncedKept(t, store.tables, r, node, zone);
        return Done;
      }
      if fault.FirstCall? {
        UndoAnnouncement(zone, node, t, store.tables, r, wg.peers);
        return ServerError;
      }
      reply := Extend(zone, node, r, fault, t);
    }

    /** Grow the peer, then the zone's routes set; a failed step detaches again and recomputes
        the peer. */
    method Extend(zone: int, node: int, r: AnnounceResult, fault: Fault, ghost t: Tables) returns (reply: Reply)
      requires Faithful(cfg, t, wg.peers, fw.table) && Invariant(cfg, store.tables)
      requires r.Announced? && r.attached && AnnouncedInto(t, store.tables, r, node, zone) && Later(t, store.tables)
      modifies store, wg, fw
      ensures Valid()
      ensures reply == if fault.SecondCall? then ServerError else Done
      ensures store.tables == if fault.SecondCall? then t.(next := old(store.tables).next) else old(store.tables)
    {
      hide Faithful, Invariant, AnnouncedInto, WellBuilt;
      ghost var s, p0, f0 := store.tables, wg.peers, fw.table;
      Basics(cfg, t, p0, f0);
      AnnouncedRows(cfg, t, s, r, node, zone);
      var row := store.tables.nodes[node];
      var routes := store.RoutesForNode(node);
      wg.SetPeerRoutes(row.pubKey, row.ip, routes);
      if fault.SecondCall? {
        UndoAnnouncement(zone, node, t, s, r, p0);
        return ServerError;
      }
      fw.AddZoneRoute(zone, r.row.Synthetic());
      AnnouncedKept(cfg, t, s, p0, f0, fw.table, r, node, zone);
      return Done;
    }

    /** rollbackAnnouncement. Whether or not the peer had grown already, the recomputed AllowedIPs
        are the ones from before. */
    method UndoAnnouncement(zone: int, node: int, ghost t: Tables, ghost s: Tables, r: AnnounceResult, ghost p0: Peers)
      requires Faithful(cfg, t, p0, fw.table) && Invariant(cfg, s) && store.tables == s && Later(t, s)
      requires r.Announced? && r.attached && AnnouncedInto(t, s, r, node, zone)
      requires node in t.nodes && s.nodes == t.nodes
      requires wg.peers == p0 || wg.peers == Configured(p0, t.nodes[node].pubKey, PeerBlocks(s, node))
      modifies store, wg
      ensures Valid() && store.tables == t.(next := s.next)
    {
      hide Faithful, Invariant, AnnouncedInto, WellBuilt;
      Basics(cfg, t, p0, fw.table);
      AnnouncedRows(cfg, t, s, r, node, zone);
      var row := store.tables.nodes[node];
      ghost var p := wg.peers;
      var d := store.Detach(zone, r.ann);
      AnnounceUndone(cfg, t, s, store.tables, p0, p, fw.table, r, node, zone);
      var routes := store.RoutesForNode(node);
      wg.SetPeerRoutes(row.pubKey, row.ip, routes);
    }

    /** deleteAnnouncement: the node's owner or the zone's owner detaches it. */
    method Withdraw(op: Op) returns (reply: Reply)
      requires Valid() && op.Withdraw?
      modifies store, wg, fw
      ensures Valid() && (store.tables, reply) == Withdrawn(old(store.tables), op)
      ensures Lawful(cfg, old(store.tables), op, store.tables, reply)
    {
      hide Lawful;
      NextIsLawful(cfg, store.tables, op);
      ghost var t, p0, f0 := store.tables, wg.peers, fw.table;
      var zone := GetByName(op.name);
      if zone.None? || !Participates(store.tables, zone.value, op.who.user) {
        return NotFound;
      }
      if op.ann !in store.tables.anns {
        return NotFound;
      }
      var ann := store.tables.anns[op.ann];
      var node := store.tables.nodes[ann.node];
      if node.user != op.who.user && store.tables.zones[zone.value].owner != op.who.user {
        return NotFound;
      }
      var ok := Detach(zone.value, op.ann);
      return if ok then Done else NotFound;
    }

    method Detach(zone: int, ann: int) returns (ok: bool)
      requires Valid()
      modifies store, wg, fw
      ensures Valid() && (ok <==> ann in old(store.tables).anns && Link(ann, zone) in old(store.tables).links)
      ensures store.tables == if ok then Unlink(old(store.tables), {Link(ann, zone)}) else old(store.tables)
    {
      ghost var t := store.tables;
      var d := store.Detach(zone, ann);
      if d.None? {
        return false;
      }
      ghost var f0 := fw.table;
      OnlyOne((zone, d.value.0.Synthetic()));
      RemoveRoutes([(zone, d.value.0.Synthetic())]);
      RecomputeWithdrawn(Link(ann, zone), d.value.0.node, d.value.1, t, f0);
      return true;
    }

    /** The withdrawn announcement's peer, if the announcement was reclaimed. */
    method RecomputeWithdrawn(l: Link, node: int, reclaimed: bool, ghost t: Tables, ghost f0: Table)
      requires Faithful(cfg, t, wg.peers, f0) && l in t.links && l.ann in t.anns && fw.Valid()
      requires store.tables == Unlink(t, {l}) && node == t.anns[l.ann].node
      requires reclaimed == (l.ann !in store.tables.anns)
      requires fw.table.members == f0.members
      requires fw.table.routes == MinusRoutes(f0.routes, {(l.zone, t.anns[l.ann].Synthetic())})
      modifies wg
      ensures Valid() && store.tables == old(store.tables)
    {
      hide Faithful, Invariant, Sub, PeersMixed, WellBuilt;
      ghost var s, p0 := store.tables, wg.peers;
      Basics(cfg, t, p0, f0);
      WithdrawStarts(cfg, t, s, p0, f0, l);
      RecomputeIf(reclaimed, node, t);
      WithdrawKept(cfg, t, s, p0, f0, wg.peers, fw.table, l, if reclaimed then {node} else {});
    }

    method RecomputeIf(reclaimed: bool, node: int, ghost t: Tables)
      requires Invariant(cfg, t) && Sub(store.tables, t) && PeersMixed(t, store.tables, {}, wg.peers)
      requires node in store.tables.nodes
      modifies wg
      ensures PeersMixed(t, store.tables, if reclaimed then {node} else {}, wg.peers)
    {
      if reclaimed {
        var row := store.tables.nodes[node];
        RecomputePeer(RecomputeNode(node, row.pubKey, row.ip), t, {});
      }
    }

    // -------------------------------------------------------------- start-up

    /** rebuildNodePeers and rebuildZoneRules: from the database alone, whatever the kernel held
        and whatever became of the memberships. */
    method Restart()
      requires ConfigOk(cfg) && RowsProper(cfg, store.tables)
      modifies wg, fw
      ensures Synced(store.tables, wg.peers, fw.table)
      ensures Consistent(store.tables) ==> Valid()
    {
      RebuildZoneRules();
      RebuildNodePeers();
    }

    method RebuildZoneRules()
      requires Issued(store.tables.zones, store.tables.next.zone)
      modifies fw
      ensures TableMatches(store.tables, fw.table)
    {
      hide Issued, StatesOf, Reflects, TableMatches, WellBuilt;
      ghost var t := store.tables;
      var states := store.AllForRebuild();
      var routesByZone := store.RoutesByZone();
      var zones: seq<ZoneState> := [];
      for i := 0 to |states|
        invariant |zones| == i && store.tables == t
        invariant forall j :: 0 <= j < i ==>
          zones[j] == ZoneState(states[j].0, states[j].1, Group(routesByZone, states[j].0))
      {
        zones := zones + [ZoneState(states[i].0, states[i].1, Group(routesByZone, states[i].0))];
      }
      BuiltStates(t, states, routesByZone, zones);
      StatesIssued(t, zones);
      fw.Rebuild(zones);
      RebuiltMatches(t, zones, fw.table);
    }

    method RebuildNodePeers()
      requires ConfigOk(cfg) && RowsProper(cfg, store.tables)
      modifies wg
      ensures PeersMatch(store.tables, wg.peers)
    {
      hide ConfigOk, RowsProper, PeerFor, NodeRoutes, PeersMatch;
      ghost var t := store.tables;
      var nodes := Select(store.tables.nodes.Keys);
      var routesByNode := store.RoutesByNode();
      var peers: seq<PeerConfig> := [];
      assert forall i :: 0 <= i < |nodes| ==> nodes[i] in Elems(nodes);
      for i := 0 to |nodes|
        invariant |peers| == i && store.tables == t
        invariant forall j :: 0 <= j < i ==> PeerFor(t, nodes[j], peers[j])
      {
        var row := store.tables.nodes[nodes[i]];
        var routes := Group(routesByNode, nodes[i]);
        PeerForNode(t, nodes[i], routes);
        peers := peers + [PeerConfig(row.pubKey, row.ip, routes)];
      }
      PeersApart(cfg, t, nodes, peers);
      wg.ReplacePeers(peers);
      RebuiltPeersMatch(t, nodes, peers, wg.peers);
    }

    // -------------------------------------------------------------- runs

    /** Any one operation, on a server whose kernel is in sync. */
    method Handle(op: Op) returns (reply: Reply)
      requires Valid() && !FailedRejoin(store.tables, op)
      modifies store, wg, fw
      ensures Valid() && (store.tables, reply) == Next(cfg, old(store.tables), op)
      ensures Lawful(cfg, old(store.tables), op, store.tables, reply)
    {
      hide Lawful, Faithful, FailedRejoin, UserAdded, Registered, NodeGone, ZoneMade, Joined, Left, Kicked, ZoneGone;
      hide Advertised, Withdrawn, UserGone;
      match op {
        case AddUser(_, _) => reply := AddUser(op);
        case RegisterNode(_, _, _, _, _) => reply := RegisterNode(op);
        case DeleteNode(_, _) => reply := DeleteNode(op);
        case CreateZone(_, _, _, _) => reply := CreateZone(op);
        case JoinZone(_, _, _, _, _) => reply := JoinZone(op);
        case LeaveZone(_, _, _) => reply := LeaveZone(op);
        case KickMember(_, _, _) => reply := KickMember(op);
        case DeleteZone(_, _) => reply := DeleteZone(op);
        case Announce(_, _, _, _, _) => reply := Announce(op);
        case Withdraw(_, _, _) => reply := Withdraw(op);
        case DeleteUser(_, _) => reply := DeleteUser(op);
      }
    }

    /** Over every run of operations the kernel state stays what a rebuild would produce. */
    method Serve(ops: seq<Op>)
      requires Valid() && Admissible(cfg, store.tables, ops)
      modifies store, wg, fw
      ensures Valid() && store.tables == After(cfg, old(store.tables), ops)
    {
      for i := 0 to |ops|
        invariant Valid() && Admissible(cfg, store.tables, ops[i..])
        invariant After(cfg, store.tables, ops[i..]) == After(cfg, old(store.tables), ops)
      {
        assert ops[i..][0] == ops[i] && ops[i..][1..] == ops[i + 1..];
        var reply := Handle(ops[i]);
      }
    }
  }

  // ---------------------------------------------------------------- start-up lemmas

  /** The states to install are the zones of the database, each once, with its members and routes. */
  ghost predicate StatesOf(t: Tables, zones: seq<ZoneState>) {
    && (forall i, j :: 0 <= i < j < |zones| ==> zones[i].id != zones[j].id)
    && (set s | s in zones :: s.id) == t.zones.Keys
    && (forall i :: 0 <= i < |zones| ==>
          && Elems(zones[i].memberIPs) == MemberIPs(t, zones[i].id)
          && Elems(zones[i].routeCIDRs) == ZoneRoutes(t, zones[i].id))
  }

  lemma BuiltStates(t: Tables, states: seq<(int, seq<uint32>)>, routes: map<int, seq<Block>>, zones: seq<ZoneState>)
    requires forall i, j :: 0 <= i < j < |states| ==> states[i].0 != states[j].0
    requires (set s | s in states :: s.0) == t.zones.Keys
    requires forall i :: 0 <= i < |states| ==> Elems(states[i].1) == MemberIPs(t, states[i].0)
    requires forall z :: Elems(Group(routes, z)) == ZoneRoutes(t, z)
    requires |zones| == |states|
    requires forall i :: 0 <= i < |zones| ==>
               zones[i] == ZoneState(states[i].0, states[i].1, Group(routes, states[i].0))
    ensures StatesOf(t, zones)
  {
    assert forall i :: 0 <= i < |zones| ==> zones[i] in zones && states[i] in states;
    assert (set s | s in zones :: s.id) == (set s | s in states :: s.0);
  }

  lemma StatesIssued(t: Tables, zones: seq<ZoneState>)
    requires StatesOf(t, zones) && Issued(t.zones, t.next.zone)
    ensures forall i :: 0 <= i < |zones| ==> zones[i].id >= 1
  {
    forall i | 0 <= i < |zones| ensures zones[i].id >= 1 {
      assert zones[i] in zones;
      assert zones[i].id in (set s | s in zones :: s.id);
      assert zones[i].id in t.zones.Keys;
    }
  }

  lemma RebuiltMatches(t: Tables, zones: seq<ZoneState>, f: Table)
    requires StatesOf(t, zones) && WellBuilt(f)
    requires f.members.Keys == set z | z in zones :: z.id
    requires forall i :: 0 <= i < |zones| ==> Reflects(f, zones[i])
    ensures TableMatches(t, f)
  {
    forall z | z in t.zones ensures f.members[z] == MemberIPs(t, z) && f.routes[z] == Ranges(ZoneRoutes(t, z)) {
      assert z in (set s | s in zones :: s.id);
      var i :| 0 <= i < |zones| && zones[i].id == z;
      assert Reflects(f, zones[i]);
    }
  }

  ghost predicate PeerFor(t: Tables, n: int, c: PeerConfig) {
    n in t.nodes && c.key == t.nodes[n].pubKey && AllowedIPs(c.ip, Elems(c.routes)) == PeerBlocks(t, n)
  }

  lemma PeerForNode(t: Tables, n: int, routes: seq<Block>)
    requires n in t.nodes && Elems(routes) == NodeRoutes(t, n)
    ensures PeerFor(t, n, PeerConfig(t.nodes[n].pubKey, t.nodes[n].ip, routes))
  {}

  lemma PeersApart(cfg: Config, t: Tables, nodes: seq<int>, peers: seq<PeerConfig>)
    requires ConfigOk(cfg) && RowsProper(cfg, t) && |peers| == |nodes|
    requires forall i, j :: 0 <= i < j < |nodes| ==> nodes[i] != nodes[j]
    requires forall i :: 0 <= i < |nodes| ==> PeerFor(t, nodes[i], peers[i])
    ensures forall i, j :: 0 <= i < j < |peers| ==> Disjoint(peers[i], peers[j])
  {
    forall i, j | 0 <= i < j < |peers| ensures Disjoint(peers[i], peers[j]) {
      assert PeerFor(t, nodes[i], peers[i]) && PeerFor(t, nodes[j], peers[j]);
      BlocksApart(cfg, t, nodes[i], nodes[j]);
    }
  }

  lemma RebuiltPeersMatch(t: Tables, nodes: seq<int>, peers: seq<PeerConfig>, p: Peers)
    requires |peers| == |nodes| && Elems(nodes) == t.nodes.Keys
    requires forall i :: 0 <= i < |nodes| ==> PeerFor(t, nodes[i], peers[i])
    requires p.Keys == set c | c in peers :: c.key
    requires forall i :: 0 <= i < |peers| ==> p[peers[i].key] == AllowedIPs(peers[i].ip, Elems(peers[i].routes))
    ensures PeersMatch(t, p)
  {
    forall k ensures k in p <==> k in Keys(t) {
      if k in p {
        var i :| 0 <= i < |peers| && peers[i].key == k;
        assert PeerFor(t, nodes[i], peers[i]);
      }
      if k in Keys(t) {
        var n :| n in t.nodes && t.nodes[n].pubKey == k;
        assert n in Elems(nodes);
        var i :| 0 <= i < |nodes| && nodes[i] == n;
        assert PeerFor(t, nodes[i], peers[i]) && peers[i] in peers;
      }
    }
    forall n | n in t.nodes ensures p[t.nodes[n].pubKey] == PeerBlocks(t, n) {
      assert n in Elems(nodes);
      var i :| 0 <= i < |nodes| && nodes[i] == n;
      assert PeerFor(t, nodes[i], peers[i]);
    }
  }
}
