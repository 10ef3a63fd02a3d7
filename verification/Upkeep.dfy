/** Why the handlers may update the kernel state piecemeal: for each handler, from a kernel in
    sync with the old database and the few edits the handler makes, a kernel in sync with the new
    one. All on values; the handlers themselves are in module Server. */
module Upkeep {
  import opened Cidr
  import opened Common
  import opened Ipam
  import opened Schema
  import opened Netfw
  import opened Wireguard
  import opened Derive
  import opened Store
  import opened Effects
  import opened Control

  /** The database satisfies its invariant and the kernel holds what it stands for. */
  ghost predicate Faithful(cfg: Config, t: Tables, p: Peers, f: Table) {
    Invariant(cfg, t) && Synced(t, p, f)
  }

  /** Whatever run the server has had, failed re-joins included: if the device's peers are those of
      the database, an address has at most one. */
  lemma EveryRunRoutesOnce(cfg: Config, ops: seq<Op>, peers: Peers, j: string, k: string, a: int)
    requires ConfigOk(cfg) && PeersMatch(After(cfg, EMPTY, ops), peers)
    requires Covers(peers, j, a) && Covers(peers, k, a)
    ensures j == k
  {
    hide RowsProper, PeersMatch, Covers, ConfigOk;
    EmptyInvariant(cfg);
    RunsKeepRows(cfg, EMPTY, ops);
    AtMostOnePeer(cfg, After(cfg, EMPTY, ops), peers, j, k, a);
  }

  lemma AtOne<V>(gone: set<(int, V)>, p: (int, V))
    ensures forall z :: At(gone + {p}, z) == if z == p.0 then At(gone, z) + {p.1} else At(gone, z)
  {}

  lemma OnlyOne<T>(x: T)
    ensures Elems([x]) == {x}
  {}

  lemma Basics(cfg: Config, t: Tables, p: Peers, f: Table)
    requires Faithful(cfg, t, p, f)
    ensures Invariant(cfg, t) && Consistent(t) && WellBuilt(f)
    ensures f.members.Keys == t.zones.Keys && f.routes.Keys == t.zones.Keys
    ensures forall z :: z in t.zones ==> z >= 1
  {}

  lemma PutAndTake<V>(m: map<int, V>, k: int, v: V)
    requires k !in m
    ensures m[k := v] - {k} == m
  {}

  lemma RangesAppend(blocks: set<Block>, b: Block)
    ensures Ranges(blocks + {b}) == Ranges(blocks) + {RangeElements(b)}
  {}

  lemma MinusNothing(members: map<int, set<uint32>>, routes: map<int, set<Interval>>)
    ensures MinusMembers(members, {}) == members && MinusRoutes(routes, {}) == routes
    ensures members - {} == members && routes - {} == routes
  {
    assert Ranges({}) == {};
    forall z | z in members ensures members[z] - At({}, z) == members[z] {
      assert At<uint32>({}, z) == {};
    }
    forall z | z in routes ensures routes[z] - Ranges(At({}, z)) == routes[z] {
      assert At<Block>({}, z) == {};
    }
  }

  lemma MinusMembersOne(sets: map<int, set<uint32>>, gone: set<(int, uint32)>, p: (int, uint32))
    ensures MinusMembers(sets, gone + {p}) ==
            var m := MinusMembers(sets, gone); if p.0 in m then m[p.0 := m[p.0] - {p.1}] else m
  {
    AtOne(gone, p);
    var m, n := MinusMembers(sets, gone), MinusMembers(sets, gone + {p});
    forall z | z in sets ensures n[z] == if z == p.0 then m[z] - {p.1} else m[z] {}
  }

  lemma MinusRoutesOne(sets: map<int, set<Interval>>, gone: set<(int, Block)>, p: (int, Block))
    ensures MinusRoutes(sets, gone + {p}) ==
            var m := MinusRoutes(sets, gone); if p.0 in m then m[p.0 := m[p.0] - {RangeElements(p.1)}] else m
  {
    AtOne(gone, p);
    var m, n := MinusRoutes(sets, gone), MinusRoutes(sets, gone + {p});
    RangesAppend(At(gone, p.0), p.1);
    forall z | z in sets ensures n[z] == if z == p.0 then m[z] - {RangeElements(p.1)} else m[z] {}
  }

  lemma RoutesMinusCommutes(routes: map<int, set<Interval>>, zones: set<int>, gone: set<(int, Block)>)
    ensures MinusRoutes(routes - zones, gone) == MinusRoutes(routes, gone) - zones
  {}

  // ---------------------------------------------------------------- unchanged rows

  /** Rows that only another user, a used-up row id or a zone's name tell apart stand for the
      same kernel state. */
  lemma SameDerived(t: Tables, s: Tables, p: Peers, f: Table)
    requires s.nodes == t.nodes && s.anns == t.anns && s.members == t.members && s.links == t.links
    requires s.zones.Keys == t.zones.Keys
    ensures Synced(t, p, f) <==> Synced(s, p, f)
    ensures PeersMatch(t, p) <==> PeersMatch(s, p)
  {
    SamePeers(t, s, p);
    assert forall z :: MemberIPs(s, z) == MemberIPs(t, z);
    assert forall z :: ZoneRoutes(s, z) == ZoneRoutes(t, z);
    assert DerivedMembers(s) == DerivedMembers(t) && DerivedRoutes(s) == DerivedRoutes(t);
  }

  lemma SamePeers(t: Tables, s: Tables, peers: Peers)
    requires s.nodes == t.nodes && s.anns == t.anns
    ensures PeersMatch(t, peers) <==> PeersMatch(s, peers)
  {}

  /** A transaction undone: only the row ids it used up are gone. */
  lemma UndoneKept(cfg: Config, t: Tables, s: Tables, p: Peers, f: Table)
    requires Faithful(cfg, t, p, f) && s == t.(next := s.next)
    requires Later(t, s)
    ensures Faithful(cfg, s, p, f)
  {
    OnlySequences(cfg, t, s);
    SameDerived(t, s, p, f);
  }

  lemma CascadeOfConsistent(t: Tables)
    requires Consistent(t)
    ensures Cascade(t) == t
  {
    var c := Cascade(t);
    assert forall n :: n in c.nodes <==> n in t.nodes;
    assert forall z :: z in c.zones <==> z in t.zones;
    assert forall a :: a in c.anns <==> a in t.anns;
    forall l | l in t.links ensures l in c.links {
      assert Member(l.zone, t.anns[l.ann].node) in t.members;
    }
    assert c.members == t.members && c.links == t.links;
    assert c.nodes == t.nodes && c.zones == t.zones && c.anns == t.anns;
  }

  // ---------------------------------------------------------------- users and nodes

  lemma UserAddedKept(cfg: Config, t: Tables, s: Tables, p: Peers, f: Table, op: Op)
    requires Faithful(cfg, t, p, f) && op.AddUser? && s == UserAdded(t, op).0
    ensures Faithful(cfg, s, p, f)
  {
    NextKeepsInvariant(cfg, t, op);
    SameDerived(t, s, p, f);
  }

  lemma NodeAddedKept(cfg: Config, t: Tables, s: Tables, p: Peers, f: Table, n: int)
    requires Faithful(cfg, t, p, f) && Invariant(cfg, s) && NodeAdded(t, s, n)
    ensures Faithful(cfg, s, Configured(p, s.nodes[n].pubKey, AllowedIPs(s.nodes[n].ip, {})), f)
  {
    NewNodeEffect(t, s, n, s.nodes[n]);
    PeerGrows(cfg, t, s, p, n);
  }

  lemma NodeUndone(cfg: Config, t: Tables, s: Tables, p: Peers, f: Table, n: int, u: Tables)
    requires Faithful(cfg, t, p, f) && NodeAdded(t, s, n) && u == Cascade(s.(nodes := s.nodes - {n}))
    ensures u == t.(next := s.next) && Faithful(cfg, u, p, f)
  {
    var raw := s.(nodes := s.nodes - {n});
    assert raw.nodes == t.nodes;
    CascadeOfConsistent(raw);
    UndoneKept(cfg, t, u, p, f);
  }

  lemma KeysWithout(t: Tables, s: Tables, n: int)
    requires UniqueNodes(t.nodes) && n in t.nodes && s.nodes == t.nodes - {n}
    ensures Keys(t) - Keys(s) == {t.nodes[n].pubKey}
  {
    forall k ensures k in Keys(t) && k !in Keys(s) <==> k == t.nodes[n].pubKey {
      if k in Keys(t) && k !in Keys(s) {
        var m :| m in t.nodes && t.nodes[m].pubKey == k;
        assert m !in s.nodes;
      }
      assert forall m :: m in s.nodes ==> s.nodes[m].pubKey != t.nodes[n].pubKey;
    }
  }

  /** What every deletion comes down to: some peers gone, some recomputed, some set elements
      gone, some zones destroyed. */
  lemma ShrunkKept(cfg: Config, t: Tables, s: Tables, p0: Peers, f0: Table, p: Peers, f: Table,
                   mem: set<(int, uint32)>, rts: set<(int, Block)>, done: set<int>)
    requires Faithful(cfg, t, p0, f0) && Invariant(cfg, s) && Sub(s, t) && Lost(t, s, mem, rts)
    requires WellBuilt(f)
    requires f.members == MinusMembers(f0.members, mem) - (t.zones.Keys - s.zones.Keys)
    requires f.routes == MinusRoutes(f0.routes, rts) - (t.zones.Keys - s.zones.Keys)
    requires PeersMixed(t, s, done, p) && OthersKeepRoutes(t, s, done)
    ensures Faithful(cfg, s, p, f)
  {
    SetsFollow(t, s, mem, rts);
    RecomputeDone(t, s, done, p);
  }

  ghost predicate OthersKeepRoutes(t: Tables, s: Tables, done: set<int>) {
    forall n :: n in s.nodes && n !in done ==> NodeRoutes(s, n) == NodeRoutes(t, n)
  }

  /** The same when no zone is destroyed. */
  lemma ThinnedKept(cfg: Config, t: Tables, s: Tables, p0: Peers, f0: Table, p: Peers, f: Table,
                    mem: set<(int, uint32)>, rts: set<(int, Block)>, done: set<int>)
    requires Faithful(cfg, t, p0, f0) && Invariant(cfg, s) && Sub(s, t) && Lost(t, s, mem, rts)
    requires s.zones == t.zones && WellBuilt(f)
    requires f.members == MinusMembers(f0.members, mem) && f.routes == MinusRoutes(f0.routes, rts)
    requires PeersMixed(t, s, done, p) && OthersKeepRoutes(t, s, done)
    ensures Faithful(cfg, s, p, f)
  {
    MinusNothing(f.members, f.routes);
    assert t.zones.Keys - s.zones.Keys == {};
    ShrunkKept(cfg, t, s, p0, f0, p, f, mem, rts, done);
  }

  /** Before any peer is recomputed: every surviving node still has its old peer. */
  lemma PeersBefore(t: Tables, s: Tables, p: Peers)
    requires PeersMatch(t, p) && s.nodes == t.nodes
    ensures PeersMixed(t, s, {}, p)
  {}

  function NodeMemberships(t: Tables, node: int): set<(int, uint32)>
    requires node in t.nodes
  {
    set m | m in t.members && m.node == node :: (m.zone, t.nodes[node].ip)
  }

  function NodeAttachments(t: Tables, node: int): set<(int, Block)> {
    set l | l in t.links && l.ann in t.anns && t.anns[l.ann].node == node :: (l.zone, t.anns[l.ann].Synthetic())
  }

  lemma NodeGoneKept(cfg: Config, t: Tables, s: Tables, p0: Peers, f0: Table, f: Table, node: int)
    requires Faithful(cfg, t, p0, f0) && node in t.nodes && s == Cascade(t.(nodes := t.nodes - {node}))
    requires WellBuilt(f)
    requires f.members == MinusMembers(f0.members, NodeMemberships(t, node))
    requires f.routes == MinusRoutes(f0.routes, NodeAttachments(t, node))
    ensures s == Settle(t.(nodes := t.nodes - {node})) && Faithful(cfg, s, p0 - {t.nodes[node].pubKey}, f)
  {
    DeleteNodeSettles(t, node);
    DeleteNodeEffect(t, node, s, NodeMemberships(t, node), NodeAttachments(t, node));
    SettleKeepsInvariant(cfg, t, t.(nodes := t.nodes - {node}));
    KeysWithout(t, s, node);
    PeersRestricted(cfg, t, s, p0);
    ThinnedKept(cfg, t, s, p0, f0, p0 - {t.nodes[node].pubKey}, f,
                NodeMemberships(t, node), NodeAttachments(t, node), {});
  }

  lemma UserGoneStarts(cfg: Config, t: Tables, s: Tables, p0: Peers, f0: Table, target: int, f: DeletionResult)
    requires Faithful(cfg, t, p0, f0) && s == Settle(t.(users := t.users - {target})) && FootprintExact(t, s, f)
    ensures Invariant(cfg, s) && Sub(s, t) && PeersMixed(t, s, {}, p0 - Elems(f.nodePubKeys))
    ensures RowsCurrent(s, f.recompute) && forall z :: z in f.ownedZoneIDs ==> z >= 1
  {
    SettleKeepsInvariant(cfg, t, t.(users := t.users - {target}));
    PeersRestricted(cfg, t, s, p0);
    forall z | z in f.ownedZoneIDs ensures z >= 1 {
      assert z in Elems(f.ownedZoneIDs);
    }
  }

  /** Rows that describe current nodes. */
  ghost predicate RowsCurrent(t: Tables, rows: seq<RecomputeNode>) {
    forall r :: r in rows ==> RowCurrent(t, r)
  }

  ghost predicate RowCurrent(t: Tables, r: RecomputeNode) {
    r.node in t.nodes && r.pubKey == t.nodes[r.node].pubKey && r.ip == t.nodes[r.node].ip
  }

  function NodesIn(rows: seq<RecomputeNode>): set<int> {
    set r | r in rows :: r.node
  }

  lemma NodesInMore(rows: seq<RecomputeNode>, r: RecomputeNode)
    ensures NodesIn(rows + [r]) == NodesIn(rows) + {r.node}
  {}

  lemma UserGoneKept(cfg: Config, t: Tables, s: Tables, p0: Peers, f0: Table, p: Peers, f: Table, target: int,
                     d: DeletionResult)
    requires Faithful(cfg, t, p0, f0) && s == Settle(t.(users := t.users - {target})) && FootprintExact(t, s, d)
    requires WellBuilt(f)
    requires f.members == MinusMembers(f0.members, Elems(d.survivingMemberships)) - Elems(d.ownedZoneIDs)
    requires f.routes == MinusRoutes(f0.routes - Elems(d.ownedZoneIDs), Elems(d.survivingZoneRoutes))
    requires PeersMixed(t, s, NodesIn(d.recompute), p)
    ensures Faithful(cfg, s, p, f)
  {
    UserGoneStarts(cfg, t, s, p0, f0, target, d);
    DeleteUserEffect(t, target, s, d);
    RoutesMinusCommutes(f0.routes, Elems(d.ownedZoneIDs), Elems(d.survivingZoneRoutes));
    ShrunkKept(cfg, t, s, p0, f0, p, f,
               Elems(d.survivingMemberships), Elems(d.survivingZoneRoutes), NodesIn(d.recompute));
  }

  // ---------------------------------------------------------------- zones

  lemma NewZoneId(cfg: Config, t: Tables, s: Tables, z: int)
    requires Invariant(cfg, t) && ZoneAdded(t, s, z)
    ensures z >= 1 && z !in t.zones && s.nodes == t.nodes && s.members == t.members
  {}

  lemma ZoneAddedKept(cfg: Config, t: Tables, s: Tables, p: Peers, f0: Table, f: Table, z: int)
    requires Faithful(cfg, t, p, f0) && Invariant(cfg, s) && ZoneAdded(t, s, z) && WellBuilt(f)
    requires f.members == f0.members[z := {}] && f.routes == f0.routes[z := {}]
    ensures Faithful(cfg, s, p, f)
  {
    NewZoneEffect(t, s, z, s.zones[z]);
    SamePeers(t, s, p);
  }

  lemma ZoneUndone(cfg: Config, t: Tables, s: Tables, p: Peers, f0: Table, f: Table, z: int, joined: set<Member>,
                   u: Tables)
    requires Faithful(cfg, t, p, f0) && ZoneAdded(t, s, z) && forall m :: m in joined ==> m.zone == z
    requires u == Cascade(s.(members := s.members + joined, zones := s.zones - {z}))
    requires WellBuilt(f) && f.members == f0.members && f.routes == f0.routes
    ensures u == t.(next := s.next) && Faithful(cfg, u, p, f)
  {
    assert s.zones - {z} == t.zones;
    CascadeOfConsistent(t.(next := s.next));
    assert u.members == t.members;
    assert u.links == t.links && u.anns == t.anns && u.nodes == t.nodes && u.zones == t.zones;
    UndoneKept(cfg, t, u, p, f0);
  }

  lemma NodeJoinedKept(cfg: Config, t: Tables, s: Tables, p: Peers, f0: Table, f: Table, zone: int, node: int)
    requires Faithful(cfg, t, p, f0) && zone in t.zones && node in t.nodes
    requires s == t.(members := t.members + {Member(zone, node)}) && WellBuilt(f) && zone in f0.members
    requires f == f0.(members := f0.members[zone := f0.members[zone] + {t.nodes[node].ip}])
    ensures Faithful(cfg, s, p, f)
  {
    AddMemberKeeps(cfg, t, zone, node);
    JoinEffect(t, s, zone, node);
    SamePeers(t, s, p);
  }

  /** A failed join is undone exactly, unless the node was a member before: then the set still
      holds an address the database no longer puts there. */
  lemma JoinUndone(cfg: Config, t: Tables, s: Tables, p: Peers, f: Table, zone: int, node: int)
    requires Faithful(cfg, t, p, f) && zone in t.zones && node in t.nodes
    requires s == t.(members := t.members + {Member(zone, node)} - {Member(zone, node)})
    ensures s == t.(members := t.members - {Member(zone, node)})
    ensures Faithful(cfg, s, p, f) <==> Member(zone, node) !in t.members
  {
    assert s.members == t.members - {Member(zone, node)};
    if Member(zone, node) in t.members {
      assert t.nodes[node].ip in MemberIPs(t, zone) by {
        assert Member(zone, node).zone == zone;
      }
      assert t.nodes[node].ip !in MemberIPs(s, zone);
      assert DerivedMembers(s)[zone] != DerivedMembers(t)[zone];
    } else {
      assert s == t;
    }
  }

  lemma ExpelStarts(cfg: Config, t: Tables, mid: Tables, s: Tables, p: Peers, f: Table, zone: int, node: int)
    requires Faithful(cfg, t, p, f) && mid == t.(members := t.members - {Member(zone, node)})
    requires s == Unlink(mid, NodeZoneLinks(mid, zone, node))
    ensures s == Settle(mid) && Invariant(cfg, s) && Sub(s, t) && s.nodes == t.nodes && PeersMixed(t, s, {}, p)
  {
    LeaveSettles(t, zone, node);
    SettleKeepsInvariant(cfg, t, mid);
    PeersBefore(t, s, p);
  }

  /** The blocks of the detachments, for the zone they were detached from. */
  function Pairs(zone: int, dets: seq<ZoneDetachment>): seq<(int, Block)> {
    seq(|dets|, i requires 0 <= i < |dets| => (zone, dets[i].synthetic))
  }

  function ReclaimedFrom(dets: seq<ZoneDetachment>): set<int> {
    set d | d in dets && d.reclaimed :: d.node
  }

  lemma PairsMore(zone: int, dets: seq<ZoneDetachment>, d: ZoneDetachment)
    ensures Elems(Pairs(zone, dets + [d])) == Elems(Pairs(zone, dets)) + {(zone, d.synthetic)}
  {
    assert Pairs(zone, dets + [d]) == Pairs(zone, dets) + [(zone, d.synthetic)];
  }

  lemma FlagIsReclaimed(dets: seq<ZoneDetachment>, node: int, reclaimed: bool)
    requires forall d :: d in dets ==> d.node == node
    requires reclaimed <==> exists d :: d in dets && d.reclaimed
    ensures ReclaimedFrom(dets) == if reclaimed then {node} else {}
  {}

  lemma ReclaimedMore(dets: seq<ZoneDetachment>, d: ZoneDetachment)
    ensures ReclaimedFrom(dets + [d]) == ReclaimedFrom(dets) + if d.reclaimed then {d.node} else {}
  {}

  lemma DetachedPairs(t: Tables, s: Tables, zone: int, node: int, dets: seq<ZoneDetachment>)
    requires Detachments(t, s, NodeZoneLinks(t, zone, node), dets)
    ensures Elems(Pairs(zone, dets)) ==
            set l | l in NodeZoneLinks(t, zone, node) && l.ann in t.anns :: (zone, t.anns[l.ann].Synthetic())
    ensures forall d :: d in dets ==> d.node == node
  {
    var pairs := Pairs(zone, dets);
    forall p | p in Elems(pairs)
      ensures exists l :: l in NodeZoneLinks(t, zone, node) && p == (zone, t.anns[l.ann].Synthetic())
    {
      var j :| 0 <= j < |pairs| && pairs[j] == p;
      assert dets[j] in dets && Describes(t, Link(dets[j].ann, dets[j].zone), dets[j]);
    }
    forall l | l in NodeZoneLinks(t, zone, node) ensures (zone, t.anns[l.ann].Synthetic()) in Elems(pairs) {
      var d :| d in dets && d.ann == l.ann && d.zone == l.zone;
      assert Describes(t, Link(d.ann, d.zone), d);
      var j :| 0 <= j < |dets| && dets[j] == d;
      assert pairs[j] in pairs;
    }
    forall d | d in dets ensures d.node == node {
      assert Describes(t, Link(d.ann, d.zone), d);
    }
  }

  lemma DetachmentsLive(t: Tables, s: Tables, gone: set<Link>, dets: seq<ZoneDetachment>)
    requires Consistent(t) && Detachments(t, s, gone, dets)
    ensures forall d :: d in dets ==> d.node in t.nodes
  {}

  lemma RoutesKept(t: Tables, s: Tables, gone: set<Link>, dets: seq<ZoneDetachment>)
    requires Unlink(t, gone) == s && Detachments(t, s, gone, dets)
    ensures OthersKeepRoutes(t, s, ReclaimedFrom(dets))
  {
    forall n | n in s.nodes && n !in ReclaimedFrom(dets) ensures NodeRoutes(s, n) == NodeRoutes(t, n) {
      NothingReclaimed(t, s, gone, dets, n);
    }
  }

  lemma ExpelKept(cfg: Config, t: Tables, mid: Tables, s: Tables, p0: Peers, f0: Table, p: Peers, f: Table,
                  zone: int, node: int, dets: seq<ZoneDetachment>)
    requires Faithful(cfg, t, p0, f0) && mid == t.(members := t.members - {Member(zone, node)}) && node in t.nodes
    requires s == Unlink(mid, NodeZoneLinks(mid, zone, node))
    requires Detachments(mid, s, NodeZoneLinks(mid, zone, node), dets)
    requires WellBuilt(f)
    requires f.members == MinusMembers(f0.members, {(zone, t.nodes[node].ip)})
    requires f.routes == MinusRoutes(f0.routes, Elems(Pairs(zone, dets)))
    requires PeersMixed(t, s, ReclaimedFrom(dets), p)
    ensures s == Settle(mid) && Faithful(cfg, s, p, f)
  {
    hide Invariant, Synced, Lost, OthersKeepRoutes, PeersMixed, WellBuilt, Unlink, Detachments, Settle;
    ExpelStarts(cfg, t, mid, s, p0, f0, zone, node);
    ExpelShrinks(cfg, t, mid, s, zone, node, dets);
    ThinnedKept(cfg, t, s, p0, f0, p, f, {(zone, t.nodes[node].ip)}, Elems(Pairs(zone, dets)), ReclaimedFrom(dets));
  }

  lemma ExpelShrinks(cfg: Config, t: Tables, mid: Tables, s: Tables, zone: int, node: int, dets: seq<ZoneDetachment>)
    requires Invariant(cfg, t) && mid == t.(members := t.members - {Member(zone, node)}) && node in t.nodes
    requires s == Settle(mid)
    requires s == Unlink(mid, NodeZoneLinks(mid, zone, node))
    requires Detachments(mid, s, NodeZoneLinks(mid, zone, node), dets)
    ensures Lost(t, s, {(zone, t.nodes[node].ip)}, Elems(Pairs(zone, dets))) && s.zones == t.zones
    ensures OthersKeepRoutes(t, s, ReclaimedFrom(dets))
  {
    hide Lost, Unlink, Detachments, Settle;
    DetachedPairs(mid, s, zone, node, dets);
    assert NodeZoneLinks(mid, zone, node) == NodeZoneLinks(t, zone, node);
    ExpelEffect(t, zone, node, s, Elems(Pairs(zone, dets)));
    RoutesKept(mid, s, NodeZoneLinks(mid, zone, node), dets);
    assert forall n :: NodeRoutes(mid, n) == NodeRoutes(t, n);
  }

  lemma ZoneGoneStarts(cfg: Config, t: Tables, u: Tables, s: Tables, p: Peers, f: Table, zone: int)
    requires Faithful(cfg, t, p, f)
    requires u == Unlink(t, ZoneLinks(t, zone)) && s == Cascade(u.(zones := u.zones - {zone}))
    ensures s == Settle(t.(zones := t.zones - {zone})) && Invariant(cfg, s) && Sub(s, t) && s.nodes == t.nodes
    ensures PeersMixed(t, s, {}, p)
  {
    DeleteZoneSettles(t, zone);
    SettleKeepsInvariant(cfg, t, t.(zones := t.zones - {zone}));
    DeleteZoneEffect(t, zone, s);
    PeersBefore(t, s, p);
  }

  lemma ZoneGoneKept(cfg: Config, t: Tables, u: Tables, s: Tables, p0: Peers, f0: Table, p: Peers, f: Table,
                     zone: int, dets: seq<ZoneDetachment>)
    requires Faithful(cfg, t, p0, f0) && zone in t.zones
    requires u == Unlink(t, ZoneLinks(t, zone)) && s == Cascade(u.(zones := u.zones - {zone}))
    requires Detachments(t, u, ZoneLinks(t, zone), dets)
    requires WellBuilt(f) && f.members == f0.members - {zone} && f.routes == f0.routes - {zone}
    requires PeersMixed(t, s, ReclaimedFrom(dets), p)
    ensures Faithful(cfg, s, p, f)
  {
    hide Invariant, Synced, Lost, OthersKeepRoutes, PeersMixed, WellBuilt, Cascade, Unlink, Detachments;
    ZoneGoneStarts(cfg, t, u, s, p0, f0, zone);
    ZoneGoneShape(cfg, t, u, s, zone, dets);
    MinusNothing(f0.members, f0.routes);
    ShrunkKept(cfg, t, s, p0, f0, p, f, {}, {}, ReclaimedFrom(dets));
  }

  lemma ZoneGoneShape(cfg: Config, t: Tables, u: Tables, s: Tables, zone: int, dets: seq<ZoneDetachment>)
    requires Invariant(cfg, t) && zone in t.zones && s == Settle(t.(zones := t.zones - {zone}))
    requires u == Unlink(t, ZoneLinks(t, zone)) && Detachments(t, u, ZoneLinks(t, zone), dets)
    ensures Lost(t, s, {}, {}) && t.zones.Keys - s.zones.Keys == {zone} && OthersKeepRoutes(t, s, ReclaimedFrom(dets))
  {
    DeleteZoneEffect(t, zone, s);
    RoutesKept(t, u, ZoneLinks(t, zone), dets);
    assert s.anns == u.anns;
    assert forall n :: NodeRoutes(s, n) == NodeRoutes(u, n);
  }

  // ---------------------------------------------------------------- announcements

  lemma AnnouncedRows(cfg: Config, t: Tables, s: Tables, r: AnnounceResult, node: int, zone: int)
    requires Invariant(cfg, t) && r.Announced? && AnnouncedInto(t, s, r, node, zone)
    ensures node in t.nodes && zone in t.zones && s.nodes == t.nodes && s.zones == t.zones
    ensures t.nodes.Keys + {node} == t.nodes.Keys && r.ann in s.anns && Link(r.ann, zone) in s.links
  {}

  lemma AnnouncedGrows(cfg: Config, t: Tables, s: Tables, r: AnnounceResult, node: int, zone: int)
    requires Invariant(cfg, t) && Invariant(cfg, s) && r.Announced? && AnnouncedInto(t, s, r, node, zone)
    ensures Sub(t, s) && forall n :: n != node ==> NodeRoutes(s, n) == NodeRoutes(t, n)
  {
    AnnounceEffect(t, s, r.ann, r.row, zone);
  }

  lemma AnnouncedPeer(cfg: Config, t: Tables, s: Tables, p: Peers, r: AnnounceResult, node: int, zone: int)
    requires PeersMatch(t, p) && Invariant(cfg, t) && Invariant(cfg, s) && node in t.nodes
    requires r.Announced? && AnnouncedInto(t, s, r, node, zone)
    ensures Sub(t, s) && s.nodes == t.nodes && forall n :: n != node ==> NodeRoutes(s, n) == NodeRoutes(t, n)
    ensures PeersMatch(s, Configured(p, t.nodes[node].pubKey, PeerBlocks(s, node)))
  {
    hide Invariant, PeersMatch, AnnouncedInto, NodeRoutes;
    AnnouncedRows(cfg, t, s, r, node, zone);
    AnnouncedGrows(cfg, t, s, r, node, zone);
    PeerGrows(cfg, t, s, p, node);
  }

  lemma AnnouncedKept(cfg: Config, t: Tables, s: Tables, p: Peers, f0: Table, f: Table, r: AnnounceResult, node: int,
                      zone: int)
    requires Faithful(cfg, t, p, f0) && Invariant(cfg, s) && node in t.nodes && zone in f0.routes
    requires r.Announced? && AnnouncedInto(t, s, r, node, zone) && WellBuilt(f)
    requires f == f0.(routes := f0.routes[zone := f0.routes[zone] + {RangeElements(r.row.Synthetic())}])
    ensures Faithful(cfg, s, Configured(p, t.nodes[node].pubKey, PeerBlocks(s, node)), f)
  {
    AnnouncedPeer(cfg, t, s, p, r, node, zone);
    AnnounceEffect(t, s, r.ann, r.row, zone);
  }

  /** An announcement that was already attached changes nothing. */
  lemma ReannouncedKept(t: Tables, s: Tables, r: AnnounceResult, node: int, zone: int)
    requires LinksLive(t.members, t.anns, t.links) && r.Announced? && AnnouncedInto(t, s, r, node, zone) && !r.attached
    ensures s == t
  {}

  /** Whether the peer had grown or not, recomputing it after the rollback gives back the peers
      there were before. */
  lemma AnnounceUndone(cfg: Config, t: Tables, s: Tables, u: Tables, p0: Peers, p: Peers, f: Table,
                       r: AnnounceResult, node: int, zone: int)
    requires Faithful(cfg, t, p0, f) && Invariant(cfg, s) && node in t.nodes && Later(t, s)
    requires r.Announced? && r.attached && AnnouncedInto(t, s, r, node, zone)
    requires u == Unlink(s, {Link(r.ann, zone)})
    requires s.nodes == t.nodes && (p == p0 || p == Configured(p0, t.nodes[node].pubKey, PeerBlocks(s, node)))
    ensures u == t.(next := s.next)
    ensures Faithful(cfg, u, Configured(p, t.nodes[node].pubKey, PeerBlocks(u, node)), f)
  {
    RollbackRestores(t, s, r, node, zone);
    UndoneKept(cfg, t, u, p0, f);
    if p == p0 {
      PeerUntouched(cfg, t, u, p0, node);
    } else {
      AnnouncedPeer(cfg, t, s, p0, r, node, zone);
      PeerShrunkBack(cfg, s, u, p, node);
    }
  }

  lemma PeerUntouched(cfg: Config, t: Tables, u: Tables, p: Peers, node: int)
    requires Invariant(cfg, t) && Invariant(cfg, u) && u == t.(next := u.next) && PeersMatch(t, p) && node in t.nodes
    ensures PeersMatch(u, Configured(p, u.nodes[node].pubKey, PeerBlocks(u, node)))
  {
    assert forall n :: NodeRoutes(u, n) == NodeRoutes(t, n);
    assert u.nodes.Keys == t.nodes.Keys + {node};
    PeerGrows(cfg, t, u, p, node);
  }

  lemma PeerShrunkBack(cfg: Config, s: Tables, u: Tables, p: Peers, node: int)
    requires Invariant(cfg, s) && PeersMatch(s, p) && u.nodes == s.nodes && node in s.nodes && Sub(u, s)
    requires forall n :: n != node ==> NodeRoutes(u, n) == NodeRoutes(s, n)
    ensures PeersMatch(u, Configured(p, u.nodes[node].pubKey, PeerBlocks(u, node)))
  {
    PeersBefore(s, u, p);
    RecomputeStep(cfg, s, u, {}, p, node);
    RecomputeDone(s, u, {node}, Configured(p, u.nodes[node].pubKey, PeerBlocks(u, node)));
  }

  lemma WithdrawStarts(cfg: Config, t: Tables, s: Tables, p: Peers, f: Table, l: Link)
    requires Faithful(cfg, t, p, f) && s == Unlink(t, {l})
    ensures s == Settle(t.(links := t.links - {l})) && Invariant(cfg, s) && Sub(s, t) && s.nodes == t.nodes
    ensures PeersMixed(t, s, {}, p)
  {
    DetachSettles(t, {l});
    SettleKeepsInvariant(cfg, t, t.(links := t.links - {l}));
    PeersBefore(t, s, p);
  }

  lemma WithdrawKept(cfg: Config, t: Tables, s: Tables, p0: Peers, f0: Table, p: Peers, f: Table, l: Link,
                     done: set<int>)
    requires Faithful(cfg, t, p0, f0) && s == Unlink(t, {l}) && l in t.links && l.ann in t.anns
    requires WellBuilt(f) && f.members == f0.members
    requires f.routes == MinusRoutes(f0.routes, {(l.zone, t.anns[l.ann].Synthetic())})
    requires l.ann in s.anns || done == {t.anns[l.ann].node}
    requires PeersMixed(t, s, done, p)
    ensures Faithful(cfg, s, p, f)
  {
    WithdrawStarts(cfg, t, s, p0, f0, l);
    WithdrawEffect(t, l, s);
    MinusNothing(f0.members, f0.routes);
    ThinnedKept(cfg, t, s, p0, f0, p, f, {}, {(l.zone, t.anns[l.ann].Synthetic())}, done);
  }
}
