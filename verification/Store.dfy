/** The store's repositories (internal/server/store). A transaction works on its own copy of the
    tables and publishes it at commit; returning early leaves the tables as they were. A query
    without an order returns its rows in some order. */
module Store {
  import opened Cidr
  import opened Common
  import opened Ipam
  import opened Schema
  import opened Derive
  import opened NodeAddresses

  // ---------------------------------------------------------------- query results

  /** The rows of a query: each once, in some order. */
  method Select<T(==)>(s: set<T>) returns (rows: seq<T>)
    ensures Elems(rows) == s
    ensures forall i, j :: 0 <= i < j < |rows| ==> rows[i] != rows[j]
  {
    rows := [];
    var rest := s;
    while rest != {}
      invariant Elems(rows) + rest == s && Elems(rows) !! rest
      invariant forall i, j :: 0 <= i < j < |rows| ==> rows[i] != rows[j]
    {
      var r :| r in rest;
      assert forall i :: 0 <= i < |rows| ==> rows[i] in Elems(rows);
      rows, rest := rows + [r], rest - {r};
      assert Elems(rows) == Elems(rows[..|rows| - 1]) + {r};
    }
  }

  function Group<V>(out: map<int, seq<V>>, k: int): seq<V> {
    if k in out then out[k] else []
  }

  /** `out[k] = append(out[k], v)` over all rows. */
  method GroupRows<V>(rows: seq<(int, V)>) returns (out: map<int, seq<V>>)
    ensures forall k :: Elems(Group(out, k)) == set r | r in rows && r.0 == k :: r.1
  {
    out := map[];
    for i := 0 to |rows|
      invariant forall k :: Elems(Group(out, k)) == set r | r in rows[..i] && r.0 == k :: r.1
    {
      var (k, v) := rows[i];
      ghost var before := out;
      out := out[k := Group(out, k) + [v]];
      assert rows[..i + 1] == rows[..i] + [rows[i]];
      assert Elems(Group(out, k)) == Elems(Group(before, k)) + {v};
      assert forall j :: j != k ==> Group(out, j) == Group(before, j);
    }
    assert rows[..|rows|] == rows;
  }

  // ---------------------------------------------------------------- results

  datatype NodeResult = NodeCreated(node: int) | PoolExhausted | DeviceLimit | PubKeyTaken | NodeNameTaken | NodeRefused
  datatype ZoneResult = ZoneCreated(zone: int) | OwnedZoneLimit | ZoneNameTaken | ZoneRefused
  datatype AnnounceResult =
    | Announced(ann: int, row: AnnRow, attached: bool)
    | NotMember | SubnetOverlap | AnnounceLimit | SyntheticExhausted | BadSize

  datatype ZoneDetachment = ZoneDetachment(ann: int, node: int, zone: int, synthetic: Block, reclaimed: bool)
  datatype RecomputeNode = RecomputeNode(node: int, pubKey: string, ip: uint32)
  datatype DeletionResult = DeletionResult(
    nodePubKeys: seq<string>,
    survivingMemberships: seq<(int, uint32)>,
    ownedZoneIDs: seq<int>,
    survivingZoneRoutes: seq<(int, Block)>,
    recompute: seq<RecomputeNode>)
  datatype DeleteUserResult = UserDeleted(footprint: DeletionResult) | UserNotFound | LastAdmin

  // ---------------------------------------------------------------- what the inserts do

  function UsedIPs(t: Tables): set<uint32> {
    set n | n in t.nodes :: t.nodes[n].ip
  }

  function NodesOf(t: Tables, user: int): set<int> {
    set n | n in t.nodes && t.nodes[n].user == user
  }

  function ZonesOf(t: Tables, user: int): set<int> {
    set z | z in t.zones && t.zones[z].owner == user
  }

  function AnnsOf(t: Tables, user: int): set<int> {
    set a | a in t.anns && t.anns[a].node in t.nodes && t.nodes[t.anns[a].node].user == user
  }

  function UsedSynthetics(t: Tables): set<Block> {
    set a | a in t.anns :: t.anns[a].Synthetic()
  }

  function AnnsFor(t: Tables, node: int, subnet: Block): set<int> {
    set a | a in t.anns && t.anns[a].node == node && t.anns[a].Real() == subnet
  }

  function InsertNode(t: Tables, row: NodeRow): Tables {
    t.(nodes := t.nodes[t.next.node := row], next := t.next.(node := t.next.node + 1))
  }

  function InsertZone(t: Tables, row: ZoneRow): Tables {
    t.(zones := t.zones[t.next.zone := row], next := t.next.(zone := t.next.zone + 1))
  }

  function InsertAnn(t: Tables, row: AnnRow, zone: int): Tables {
    t.(anns := t.anns[t.next.ann := row], links := t.links + {Link(t.next.ann, zone)},
       next := t.next.(ann := t.next.ann + 1))
  }

  /** nodes.go `Create` when no other registration gets between its read and its insert. */
  ghost function CreatedNode(t: Tables, user: int, name: string, key: string, platform: string,
                             range: Range, maxDevices: nat): (Tables, NodeResult)
  {
    var ip := LowestAddress(UsedIPs(t), range);
    if ip.None? then (t, PoolExhausted)
    else if maxDevices > 0 && |NodesOf(t, user)| >= maxDevices then (t, DeviceLimit)
    else if exists n :: n in t.nodes && t.nodes[n].pubKey == key then (t, PubKeyTaken)
    else if exists n :: n in t.nodes && t.nodes[n].user == user && t.nodes[n].name == name then (t, NodeNameTaken)
    else if user !in t.users then (t, NodeRefused)
    else (InsertNode(t, NodeRow(user, name, key, ip.value, platform)), NodeCreated(t.next.node))
  }

  ghost function CreatedZone(t: Tables, owner: int, name: string, maxZones: nat): (Tables, ZoneResult) {
    if maxZones > 0 && |ZonesOf(t, owner)| >= maxZones then (t, OwnedZoneLimit)
    else if exists z :: z in t.zones && t.zones[z].name == name then (t, ZoneNameTaken)
    else if owner !in t.users then (t, ZoneRefused)
    else (InsertZone(t, ZoneRow(name, owner)), ZoneCreated(t.next.zone))
  }

  /** announcements.go `Create`: reuse the node's announcement of the subnet, or allocate. */
  ghost function CreatedAnn(t: Tables, user: int, node: int, subnet: Block, zone: int, limit: nat,
                            pool: Prefix): (Tables, AnnounceResult)
  {
    if Member(zone, node) !in t.members then (t, NotMember)
    else if AnnsFor(t, node, subnet) != {} then
      var a := Pick(AnnsFor(t, node, subnet));
      (t.(links := t.links + {Link(a, zone)}), Announced(a, t.anns[a], Link(a, zone) !in t.links))
    else if exists a :: a in t.anns && t.anns[a].node == node && Overlaps(subnet, t.anns[a].Real())
    then (t, SubnetOverlap)
    else if limit > 0 && |AnnsOf(t, user)| >= limit then (t, AnnounceLimit)
    else
      match LowestFree(pool, subnet.prefixLen, UsedSynthetics(t))
      case NoSpace => (t, SyntheticExhausted)
      case BadLength => (t, BadSize)
      case Allocated(b) =>
        var row := AnnRow(node, subnet.base, subnet.prefixLen, b.base);
        (InsertAnn(t, row, zone), Announced(t.next.ann, row, true))
  }

  /** A key is in conflict on the whole server, a name among the user's own nodes. */
  lemma NodeConflicts(t: Tables, user: int, name: string, key: string, platform: string, range: Range, cap: nat)
    ensures var (s, r) := CreatedNode(t, user, name, key, platform, range, cap);
            && (r.PubKeyTaken? ==> exists n :: n in t.nodes && t.nodes[n].pubKey == key)
            && (r.NodeNameTaken? ==> exists n :: n in t.nodes && t.nodes[n].user == user && t.nodes[n].name == name)
            && (r.NodeNameTaken? || r.NodeCreated? ==> forall n :: n in t.nodes ==> t.nodes[n].pubKey != key)
            && (r.NodeCreated? ==> forall n :: n in t.nodes && t.nodes[n].name == name ==> t.nodes[n].user != user)
            && (!r.NodeCreated? ==> s == t)
  {
    hide LowestAddress;
  }

  /** A capped user never gets more nodes, zones or announced subnets than the cap; reusing an
      announcement adds none. */
  lemma NodeCapHolds(t: Tables, user: int, name: string, key: string, platform: string, range: Range, cap: nat)
    requires cap > 0
    ensures var (s, r) := CreatedNode(t, user, name, key, platform, range, cap);
            r.NodeCreated? ==> |NodesOf(s, user)| <= cap
  {
    var (s, r) := CreatedNode(t, user, name, key, platform, range, cap);
    assert r.NodeCreated? ==> NodesOf(s, user) == NodesOf(t, user) + {t.next.node};
  }

  lemma ZoneCapHolds(t: Tables, owner: int, name: string, cap: nat)
    requires cap > 0
    ensures var (s, r) := CreatedZone(t, owner, name, cap);
            r.ZoneCreated? ==> |ZonesOf(s, owner)| <= cap
  {
    var (s, r) := CreatedZone(t, owner, name, cap);
    assert r.ZoneCreated? ==> ZonesOf(s, owner) == ZonesOf(t, owner) + {t.next.zone};
  }

  lemma AnnCapHolds(t: Tables, user: int, node: int, subnet: Block, zone: int, cap: nat, pool: Prefix)
    requires cap > 0
    ensures var (s, r) := CreatedAnn(t, user, node, subnet, zone, cap, pool);
            && (AnnsFor(t, node, subnet) != {} ==> AnnsOf(s, user) == AnnsOf(t, user))
            && (r.Announced? && AnnsFor(t, node, subnet) == {} ==> |AnnsOf(s, user)| <= cap)
  {
    hide LowestFree, Overlaps;
    var (s, r) := CreatedAnn(t, user, node, subnet, zone, cap, pool);
    if r.Announced? && AnnsFor(t, node, subnet) == {} {
      SubsetSize(AnnsOf(s, user), AnnsOf(t, user) + {t.next.ann});
    }
  }

  // ---------------------------------------------------------------- detaching

  /** One attachment deleted, and its announcement with it if that was the last. */
  method DetachOne(t: Tables, l: Link) returns (tx: Tables, reclaimed: bool)
    ensures tx == ReclaimedOne(t.(links := t.links - {l}), l.ann)
    ensures reclaimed <==> !Mentions(t.links - {l}, l.ann)
  {
    tx, reclaimed := ReclaimIfOrphaned(t.(links := t.links - {l}), l.ann);
  }

  function ReclaimedOne(t: Tables, ann: int): Tables {
    if Attached(t, ann) then t else t.(anns := t.anns - {ann})
  }

  method ReclaimIfOrphaned(t: Tables, ann: int) returns (tx: Tables, reclaimed: bool)
    ensures tx == ReclaimedOne(t, ann)
    ensures reclaimed <==> !Attached(t, ann)
  {
    var remaining := set l | l in t.links && l.ann == ann;
    if |remaining| > 0 {
      assert remaining != {};
      return t, false;
    }
    assert remaining == {};
    assert forall l :: l in t.links && l.ann == ann ==> l in remaining;
    return t.(anns := t.anns - {ann}), true;
  }

  lemma UnlinkNothing(t: Tables)
    ensures Unlink(t, {}) == t
  {}

  /** Removing attachments one at a time, reclaiming as one goes, is removing them together. */
  lemma UnlinkStep(t: Tables, gone: set<Link>, l: Link)
    requires l in t.links && l !in gone
    ensures ReclaimedOne(Unlink(t, gone).(links := t.links - gone - {l}), l.ann) == Unlink(t, gone + {l})
    ensures l.ann in t.anns ==> (l.ann in Unlink(t, gone + {l}).anns <==> Mentions(t.links - gone - {l}, l.ann))
    ensures forall a :: a != l.ann ==> (a in Unlink(t, gone + {l}).anns <==> a in Unlink(t, gone).anns)
  {}

  /** What is left of the announcements once those listed have been looked at. */
  ghost function Reclaimed(t: Tables, rows: seq<Link>): map<int, AnnRow> {
    map a | a in t.anns && ((exists l :: l in rows && l.ann == a) ==> Attached(t, a)) :: t.anns[a]
  }

  ghost predicate Describes(t: Tables, l: Link, d: ZoneDetachment) {
    && l.ann in t.anns && d.ann == l.ann && d.zone == l.zone
    && d.node == t.anns[l.ann].node && d.synthetic == t.anns[l.ann].Synthetic()
  }

  /** The returned list is the removed attachments, each with its announcement's node and block,
      and says of each whether the announcement went with it. */
  ghost predicate Detachments(t: Tables, s: Tables, gone: set<Link>, dets: seq<ZoneDetachment>) {
    && (forall d :: d in dets ==> && Link(d.ann, d.zone) in gone
                                  && Describes(t, Link(d.ann, d.zone), d)
                                  && (d.reclaimed <==> d.ann !in s.anns))
    && (forall l :: l in gone ==> exists d :: d in dets && d.ann == l.ann && d.zone == l.zone)
  }

  lemma DetachmentsFrom(t: Tables, s: Tables, rows: seq<Link>, dets: seq<ZoneDetachment>)
    requires |rows| == |dets|
    requires forall j :: 0 <= j < |rows| ==>
               Describes(t, rows[j], dets[j]) && (dets[j].reclaimed <==> rows[j].ann !in s.anns)
    ensures Detachments(t, s, Elems(rows), dets)
  {}

  lemma OneAnnouncement(t: Tables, node: int, subnet: Block, a: int)
    requires BlocksDisjoint(t.anns) && a in AnnsFor(t, node, subnet)
    ensures forall b :: b in AnnsFor(t, node, subnet) ==> b == a
  {}

  // ---------------------------------------------------------------- rebuild rows

  /** The addresses in the rows of one zone. */
  function Column(rows: seq<(int, Option<uint32>)>, zone: int): set<uint32> {
    set r | r in rows && r.0 == zone && r.1.Some? :: r.1.value
  }

  lemma ColumnAppend(rows: seq<(int, Option<uint32>)>, r: (int, Option<uint32>))
    ensures forall z :: Column(rows + [r], z) ==
                        if r.0 == z && r.1.Some? then Column(rows, z) + {r.1.value} else Column(rows, z)
  {}

  lemma RebuildColumn(t: Tables, rows: seq<(int, Option<uint32>)>, zone: int)
    requires zone in t.zones
    requires forall z, ip :: (z, Some(ip)) in rows <==>
               exists m :: m in t.members && m.zone in t.zones && m.node in t.nodes &&
                           m.zone == z && t.nodes[m.node].ip == ip
    ensures Column(rows, zone) == MemberIPs(t, zone)
  {
    forall ip ensures ip in Column(rows, zone) <==> ip in MemberIPs(t, zone) {
      if ip in Column(rows, zone) {
        var r :| r in rows && r.0 == zone && r.1.Some? && r.1.value == ip;
        assert r == (zone, Some(ip));
      }
      if ip in MemberIPs(t, zone) {
        assert (zone, Some(ip)) in rows;
      }
    }
  }

  /** The grouping loop of `AllForRebuild`: `idx` finds each zone's state again. */
  method GroupStates(rows: seq<(int, Option<uint32>)>) returns (states: seq<(int, seq<uint32>)>)
    ensures forall i, j :: 0 <= i < j < |states| ==> states[i].0 != states[j].0
    ensures (set s | s in states :: s.0) == (set r | r in rows :: r.0)
    ensures forall i :: 0 <= i < |states| ==> Elems(states[i].1) == Column(rows, states[i].0)
  {
    hide Grouped, Column;
    states := [];
    var idx: map<int, int> := map[];
    GroupedNothing();
    assert rows[..0] == [];
    for k := 0 to |rows|
      invariant Grouped(rows[..k], idx, states)
      invariant idx.Keys == set r | r in rows[..k] :: r.0
    {
      var (zone, ip) := rows[k];
      assert rows[..k + 1] == rows[..k] + [rows[k]];
      if zone !in idx {
        GroupedFresh(rows[..k], idx, states, zone);
        idx := idx[zone := |states|];
        states := states + [(zone, [])];
      }
      var i := idx[zone];
      GroupedMore(rows[..k], idx, states, rows[k]);
      if ip.Some? {
        states := states[i := (zone, states[i].1 + [ip.value])];
      }
    }
    assert rows[..|rows|] == rows;
    GroupedDone(rows, idx, states);
  }

  ghost predicate Grouped(rows: seq<(int, Option<uint32>)>, idx: map<int, int>, states: seq<(int, seq<uint32>)>) {
    Indexed(idx, states) && forall i :: 0 <= i < |states| ==> Elems(states[i].1) == Column(rows, states[i].0)
  }

  lemma GroupedNothing()
    ensures Grouped([], map[], [])
  {}

  lemma GroupedDone(rows: seq<(int, Option<uint32>)>, idx: map<int, int>, states: seq<(int, seq<uint32>)>)
    requires Grouped(rows, idx, states)
    ensures forall i, j :: 0 <= i < j < |states| ==> states[i].0 != states[j].0
    ensures (set s | s in states :: s.0) == idx.Keys
    ensures forall i :: 0 <= i < |states| ==> Elems(states[i].1) == Column(rows, states[i].0)
  {
    forall z ensures z in (set s | s in states :: s.0) <==> z in idx {
      if z in idx { assert states[idx[z]] in states; }
    }
  }

  lemma GroupedFresh(rows: seq<(int, Option<uint32>)>, idx: map<int, int>, states: seq<(int, seq<uint32>)>, zone: int)
    requires Grouped(rows, idx, states) && zone !in idx && idx.Keys == set r | r in rows :: r.0
    ensures Grouped(rows, idx[zone := |states|], states + [(zone, [])])
  {}

  lemma GroupedMore(rows: seq<(int, Option<uint32>)>, idx: map<int, int>, states: seq<(int, seq<uint32>)>, r: (int,
                    Option<uint32>))
    requires Grouped(rows, idx, states) && r.0 in idx
    ensures 0 <= idx[r.0] < |states| && states[idx[r.0]].0 == r.0
    ensures var i := idx[r.0];
            Grouped(rows + [r], idx, if r.1.None? then states else states[i := (r.0, states[i].1 + [r.1.value])])
  {
    ColumnAppend(rows, r);
    assert Indexed(idx, states);
    var i := idx[r.0];
    assert 0 <= i < |states| && states[i].0 == r.0;
    if r.1.Some? {
      var was := states[idx[r.0]].1;
      assert Elems(was + [r.1.value]) == Elems(was) + {r.1.value};
    }
  }

  ghost predicate Indexed(idx: map<int, int>, states: seq<(int, seq<uint32>)>) {
    && (forall i :: 0 <= i < |states| ==> states[i].0 in idx && idx[states[i].0] == i)
    && (forall z :: z in idx ==> 0 <= idx[z] < |states| && states[idx[z]].0 == z)
  }

  // ---------------------------------------------------------------- user deletion

  lemma OnlyElement(s: set<int>, x: int)
    requires x in s && |s| <= 1
    ensures s == {x}
  {
    assert |s - {x}| == 0;
  }

  lemma AnotherElement(s: set<int>, x: int) returns (y: int)
    requires x in s && |s| > 1
    ensures y in s && y != x
  {
    assert |s - {x}| > 0;
    y := Pick(s - {x});
  }

  /** One row for each node seen, with that node's key and address. */
  ghost predicate RecomputeRows(d: Tables, seen: set<int>, rows: seq<RecomputeNode>) {
    && (set r | r in rows :: r.node) == seen
    && (forall r :: r in rows ==> r.node in d.nodes && r.pubKey == d.nodes[r.node].pubKey && r.ip == d.nodes[r.node].ip)
    && (forall i, j :: 0 <= i < j < |rows| ==> rows[i].node != rows[j].node)
  }

  ghost function OrphanedNodes(d: Tables): set<int> {
    set a | a in d.anns && !Attached(d, a) :: d.anns[a].node
  }

  /** The footprint of a deletion is the difference of the derived states: the peers to remove,
      the zones to destroy, the elements that surviving zones lose, and precisely the surviving
      nodes whose AllowedIPs shrink. */
  ghost predicate FootprintExact(t: Tables, s: Tables, f: DeletionResult) {
    && Elems(f.nodePubKeys) == Keys(t) - Keys(s)
    && Elems(f.ownedZoneIDs) == t.zones.Keys - s.zones.Keys
    && (forall z, ip :: (z, ip) in f.survivingMemberships <==> z in s.zones && ip in MemberIPs(t, z) - MemberIPs(s, z))
    && (forall z, b :: (z, b) in f.survivingZoneRoutes <==> z in s.zones && b in ZoneRoutes(t, z) - ZoneRoutes(s, z))
    && RecomputeRows(s, (set n | n in s.nodes && NodeRoutes(s, n) != NodeRoutes(t, n)), f.recompute)
  }

  lemma FootprintIsExact(t: Tables, target: int, f: DeletionResult)
    requires Consistent(t) && UniqueNodes(t.nodes) && BlocksDisjoint(t.anns)
    requires var raw := t.(users := t.users - {target});
             var d := Cascade(raw);
             && Elems(f.nodePubKeys) == UserKeys(t, target)
             && Elems(f.ownedZoneIDs) == ZonesOf(t, target)
             && Elems(f.survivingMemberships) == UserMemberships(t, target)
             && Elems(f.survivingZoneRoutes) == UserRoutes(t, target)
             && RecomputeRows(d, OrphanedNodes(d), f.recompute)
    ensures FootprintExact(t, Settle(t.(users := t.users - {target})), f)
  {
    var raw := t.(users := t.users - {target});
    var d, s := Cascade(raw), Settle(raw);
    DeleteUserSettles(t, target);
    SettleIsConsistent(raw);
    assert s.nodes == d.nodes && s.zones == d.zones && s.members == d.members && s.links == d.links;
    forall z ensures z in t.zones.Keys - s.zones.Keys <==> z in ZonesOf(t, target) {}
    KeysLost(t, s, target);
    forall z, ip
      ensures (z, ip) in f.survivingMemberships <==> z in s.zones && ip in MemberIPs(t, z) - MemberIPs(s, z) {
      assert (z, ip) in f.survivingMemberships <==> (z, ip) in Elems(f.survivingMemberships);
      if z in s.zones { MembershipsLost(t, s, target, z); }
    }
    forall z, b ensures (z, b) in f.survivingZoneRoutes <==> z in s.zones && b in ZoneRoutes(t, z) - ZoneRoutes(s, z) {
      assert (z, b) in f.survivingZoneRoutes <==> (z, b) in Elems(f.survivingZoneRoutes);
      if z in s.zones { RoutesLost(t, s, target, z); }
    }
    ShrunkNodes(t, d, s);
  }

  lemma ShrunkNodes(t: Tables, d: Tables, s: Tables)
    requires BlocksDisjoint(t.anns) && Sub(d, t) && s == ReclaimOrphans(d)
    requires forall a :: a in t.anns && t.anns[a].node in d.nodes ==> a in d.anns
    requires forall a :: a in d.anns ==> d.anns[a].node in d.nodes
    ensures OrphanedNodes(d) == set n | n in s.nodes && NodeRoutes(s, n) != NodeRoutes(t, n)
  {
    forall n | n in s.nodes ensures n in OrphanedNodes(d) <==> NodeRoutes(s, n) != NodeRoutes(t, n) {
      NodeRoutesLost(t, d, s, n);
    }
  }

  lemma KeysLost(t: Tables, s: Tables, target: int)
    requires UniqueNodes(t.nodes) && Consistent(t)
    requires s.nodes == map n | n in t.nodes && t.nodes[n].user in t.users - {target} :: t.nodes[n]
    ensures Keys(t) - Keys(s) == UserKeys(t, target)
  {
    forall n | n in t.nodes ensures t.nodes[n].pubKey in Keys(s) <==> n in s.nodes {
      if t.nodes[n].pubKey in Keys(s) {
        var m :| m in s.nodes && s.nodes[m].pubKey == t.nodes[n].pubKey;
        assert m == n;
      }
    }
  }

  function UserKeys(t: Tables, target: int): set<string> {
    set n | n in t.nodes && t.nodes[n].user == target :: t.nodes[n].pubKey
  }

  /** The user's nodes' addresses in zones owned by someone else. */
  function UserMemberships(t: Tables, target: int): set<(int, uint32)> {
    set m | m in t.members && m.node in t.nodes && m.zone in t.zones
            && t.nodes[m.node].user == target && t.zones[m.zone].owner != target ::
            (m.zone, t.nodes[m.node].ip)
  }

  /** The user's announced blocks attached to zones owned by someone else. */
  function UserRoutes(t: Tables, target: int): set<(int, Block)> {
    set l | l in t.links && l.ann in t.anns && t.anns[l.ann].node in t.nodes && l.zone in t.zones
            && t.nodes[t.anns[l.ann].node].user == target && t.zones[l.zone].owner != target ::
            (l.zone, t.anns[l.ann].Synthetic())
  }

  ghost predicate MemberOfUser(t: Tables, target: int, z: int, ip: uint32) {
    exists m :: m in t.members && m.zone == z && m.node in t.nodes &&
                t.nodes[m.node].user == target && t.nodes[m.node].ip == ip
  }

  ghost predicate LinkOfUser(t: Tables, target: int, l: Link) {
    l in t.links && l.ann in t.anns && t.anns[l.ann].node in t.nodes && t.nodes[t.anns[l.ann].node].user == target
  }

  ghost predicate RouteOfUser(t: Tables, target: int, z: int, b: Block) {
    exists l :: LinkOfUser(t, target, l) && l.zone == z && t.anns[l.ann].Synthetic() == b
  }

  /** A surviving zone loses exactly the addresses of the deleted user's members. */
  lemma MembershipsLost(t: Tables, s: Tables, target: int, z: int)
    requires Consistent(t) && UniqueNodes(t.nodes) && s == Settle(t.(users := t.users - {target})) && z in s.zones
    ensures forall ip :: ip in MemberIPs(t, z) - MemberIPs(s, z) <==>
              MemberOfUser(t, target, z, ip)
  {}

  /** A surviving zone loses exactly the blocks the deleted user's nodes announced into it. */
  lemma RoutesLost(t: Tables, s: Tables, target: int, z: int)
    requires Consistent(t) && BlocksDisjoint(t.anns) && s == Settle(t.(users := t.users - {target})) && z in s.zones
    ensures forall b :: b in ZoneRoutes(t, z) - ZoneRoutes(s, z) <==>
              RouteOfUser(t, target, z, b)
  {}

  /** A surviving node's routes shrink exactly when one of its announcements was orphaned. */
  lemma NodeRoutesLost(t: Tables, d: Tables, s: Tables, n: int)
    requires BlocksDisjoint(t.anns) && Sub(d, t) && n in d.nodes && s == ReclaimOrphans(d)
    requires forall a :: a in t.anns && t.anns[a].node in d.nodes ==> a in d.anns
    ensures NodeRoutes(s, n) != NodeRoutes(t, n) <==> exists a :: a in d.anns && !Attached(d, a) && d.anns[a].node == n
  {
    if a :| a in d.anns && !Attached(d, a) && d.anns[a].node == n {
      forall c | c in s.anns && s.anns[c].node == n ensures s.anns[c].Synthetic() != t.anns[a].Synthetic() {
        SyntheticsApart(t, a, c);
      }
      assert t.anns[a].Synthetic() in NodeRoutes(t, n);
    } else {
      assert forall a :: a in t.anns && t.anns[a].node == n ==> a in s.anns;
      assert NodeRoutes(s, n) == NodeRoutes(t, n);
    }
  }

  // ---------------------------------------------------------------- the repositories

  class Database {
    var tables: Tables

    constructor ()
      ensures tables == EMPTY
    {
      tables := EMPTY;
    }

    // -------------------------------------------------------------- inserts

    method CreateUser(name: string, isAdmin: bool) returns (ok: bool)
      modifies this
      ensures ok <==> !exists u :: u in old(tables).users && Folded(old(tables).users[u].name) == Folded(name)
      ensures !ok ==> tables == old(tables)
      ensures ok ==> var t := old(tables); tables == t.(
        users := t.users[t.next.user := UserRow(name, isAdmin)], next := t.next.(user := t.next.user + 1))
    {
      if exists u :: u in tables.users && Folded(tables.users[u].name) == Folded(name) {
        return false;
      }
      tables := tables.(users := tables.users[tables.next.user := UserRow(name, isAdmin)],
                        next := tables.next.(user := tables.next.user + 1));
      return true;
    }

    method CreateNode(user: int, name: string, key: string, platform: string, range: Range, maxDevices: nat)
      returns (r: NodeResult)
      requires range.first <= range.last
      modifies this
      ensures (tables, r) == CreatedNode(old(tables), user, name, key, platform, range, maxDevices)
      ensures r.NodeCreated? && maxDevices > 0 ==> |NodesOf(tables, user)| <= maxDevices
    {
      if maxDevices > 0 { NodeCapHolds(tables, user, name, key, platform, range, maxDevices); }
      var ip := LowestFreeAddress(UsedIPs(tables), range);
      if ip.None? {
        return PoolExhausted;
      }
      if maxDevices > 0 && |NodesOf(tables, user)| >= maxDevices {
        return DeviceLimit;
      }
      if exists n :: n in tables.nodes && tables.nodes[n].pubKey == key {
        return PubKeyTaken;
      }
      if exists n :: n in tables.nodes && tables.nodes[n].user == user && tables.nodes[n].name == name {
        return NodeNameTaken;
      }
      if user !in tables.users {
        return NodeRefused;
      }
      r := NodeCreated(tables.next.node);
      tables := InsertNode(tables, NodeRow(user, name, key, ip.value, platform));
    }

    method CreateZone(owner: int, name: string, maxZones: nat) returns (r: ZoneResult)
      modifies this
      ensures (tables, r) == CreatedZone(old(tables), owner, name, maxZones)
      ensures r.ZoneCreated? && maxZones > 0 ==> |ZonesOf(tables, owner)| <= maxZones
      ensures r.ZoneCreated? ==> forall z :: z in tables.zones && tables.zones[z].name == name ==> z == r.zone
    {
      if maxZones > 0 { ZoneCapHolds(tables, owner, name, maxZones); }
      if maxZones > 0 && |ZonesOf(tables, owner)| >= maxZones {
        return OwnedZoneLimit;
      }
      if exists z :: z in tables.zones && tables.zones[z].name == name {
        return ZoneNameTaken;
      }
      if owner !in tables.users {
        return ZoneRefused;
      }
      r := ZoneCreated(tables.next.zone);
      tables := InsertZone(tables, ZoneRow(name, owner));
    }

    method Join(zone: int, node: int)
      modifies this
      ensures tables == old(tables).(members := old(tables).members + {Member(zone, node)})
    {
      tables := tables.(members := tables.members + {Member(zone, node)});
    }

    method CreateAnnouncement(user: int, node: int, subnet: Block, zone: int, limit: nat, pool: Prefix)
      returns (r: AnnounceResult)
      requires BlocksDisjoint(tables.anns)
      modifies this
      ensures (tables, r) == CreatedAnn(old(tables), user, node, subnet, zone, limit, pool)
    {
      var tx := tables;
      if Member(zone, node) !in tx.members {
        return NotMember;
      }
      var hits := AnnsFor(tx, node, subnet);
      if hits != {} {
        var a := PickOne(hits);
        OneAnnouncement(tx, node, subnet, a);
        var attached := Link(a, zone) !in tx.links;
        tx := tx.(links := tx.links + {Link(a, zone)});
        tables := tx;
        return Announced(a, tx.anns[a], attached);
      }
      var nodeBlocks := Select(set a | a in tx.anns && tx.anns[a].node == node :: tx.anns[a].Real());
      for i := 0 to |nodeBlocks|
        invariant tables == tx == old(tables)
        invariant forall j :: 0 <= j < i ==> !Overlaps(subnet, nodeBlocks[j])
      {
        if Overlaps(subnet, nodeBlocks[i]) {
          assert nodeBlocks[i] in Elems(nodeBlocks);
          return SubnetOverlap;
        }
      }
      assert forall a :: a in tx.anns && tx.anns[a].node == node ==> tx.anns[a].Real() in Elems(nodeBlocks);
      if limit > 0 && |AnnsOf(tx, user)| >= limit {
        return AnnounceLimit;
      }
      var used := Select(UsedSynthetics(tx));
      var block := AllocateBlock(pool, subnet.prefixLen, used);
      match block {
        case NoSpace => return SyntheticExhausted;
        case BadLength => return BadSize;
        case Allocated(b) =>
          var row := AnnRow(node, subnet.base, subnet.prefixLen, b.base);
          r := Announced(tx.next.ann, row, true);
          tx := InsertAnn(tx, row, zone);
          tables := tx;
      }
    }

    // -------------------------------------------------------------- queries

    method RoutesForNode(node: int) returns (blocks: seq<Block>)
      ensures Elems(blocks) == NodeRoutes(tables, node)
    {
      blocks := Select(set a | a in tables.anns && tables.anns[a].node == node :: tables.anns[a].Synthetic());
    }

    method RoutesByZone() returns (out: map<int, seq<Block>>)
      ensures forall z :: Elems(Group(out, z)) == ZoneRoutes(tables, z)
    {
      var rows := Select(set l | l in tables.links && l.ann in tables.anns :: (l.zone, tables.anns[l.ann].Synthetic()));
      out := GroupRows(rows);
      forall z ensures Elems(Group(out, z)) == ZoneRoutes(tables, z) {
        forall b | b in ZoneRoutes(tables, z) ensures b in Elems(Group(out, z)) {
          assert (z, b) in Elems(rows);
        }
        forall r | r in rows && r.0 == z ensures r.1 in ZoneRoutes(tables, z) {
          assert r in Elems(rows);
        }
      }
    }

    method RoutesByNode() returns (out: map<int, seq<Block>>)
      ensures forall n :: Elems(Group(out, n)) == NodeRoutes(tables, n)
    {
      var rows := Select(set a | a in tables.anns :: (tables.anns[a].node, tables.anns[a].Synthetic()));
      out := GroupRows(rows);
      forall n ensures Elems(Group(out, n)) == NodeRoutes(tables, n) {
        forall b | b in NodeRoutes(tables, n) ensures b in Elems(Group(out, n)) {
          assert (n, b) in Elems(rows);
        }
        forall r | r in rows && r.0 == n ensures r.1 in NodeRoutes(tables, n) {
          assert r in Elems(rows);
        }
      }
    }

    /** zones.go `AllForRebuild`: the outer join's rows grouped by zone, empty zones included. */
    method AllForRebuild() returns (states: seq<(int, seq<uint32>)>)
      ensures forall i, j :: 0 <= i < j < |states| ==> states[i].0 != states[j].0
      ensures (set s | s in states :: s.0) == tables.zones.Keys
      ensures forall i :: 0 <= i < |states| ==> Elems(states[i].1) == MemberIPs(tables, states[i].0)
    {
      ghost var t := tables;
      var joined := set m | m in tables.members && m.zone in tables.zones && m.node in tables.nodes ::
                      (m.zone, Some(tables.nodes[m.node].ip));
      var bare := set z | z in tables.zones &&
                          (forall m :: m in tables.members && m.node in tables.nodes ==> m.zone != z) ::
                    (z, None);
      var rows := Select(joined + bare);
      states := GroupStates(rows);
      forall r ensures r in rows <==> r in joined || r in bare {
        assert r in rows <==> r in Elems(rows);
      }
      forall z ensures z in (set r | r in rows :: r.0) <==> z in t.zones {
        if z in t.zones {
          if m :| m in t.members && m.node in t.nodes && m.zone == z {
            assert (z, Some(t.nodes[m.node].ip)) in rows;
          } else {
            assert (z, None) in rows;
          }
        }
      }
      ghost var ids := set s | s in states :: s.0;
      assert ids == t.zones.Keys;
      forall i | 0 <= i < |states| ensures Elems(states[i].1) == MemberIPs(t, states[i].0) {
        assert states[i] in states && states[i].0 in ids;
        RebuildColumn(t, rows, states[i].0);
      }
    }

    // -------------------------------------------------------------- deletes

    method Leave(zone: int, node: int) returns (ok: bool)
      modifies this
      ensures ok <==> Member(zone, node) in old(tables).members
      ensures tables == old(tables).(members := old(tables).members - {Member(zone, node)})
    {
      ok := Member(zone, node) in tables.members;
      tables := tables.(members := tables.members - {Member(zone, node)});
    }

    method DeleteZone(zone: int)
      modifies this
      ensures tables == Cascade(old(tables).(zones := old(tables).zones - {zone}))
    {
      tables := Cascade(tables.(zones := tables.zones - {zone}));
    }

    method DeleteNode(node: int)
      modifies this
      ensures tables == Cascade(old(tables).(nodes := old(tables).nodes - {node}))
    {
      tables := Cascade(tables.(nodes := tables.nodes - {node}));
    }

    /** None when the announcement does not exist or is not attached to the zone. */
    method Detach(zone: int, ann: int) returns (r: Option<(AnnRow, bool)>)
      modifies this
      ensures r.Some? <==> ann in old(tables).anns && Link(ann, zone) in old(tables).links
      ensures r.None? ==> tables == old(tables)
      ensures r.Some? ==> tables == Unlink(old(tables), {Link(ann, zone)})
      ensures r.Some? ==> r.value == (old(tables).anns[ann], ann !in tables.anns)
    {
      var tx := tables;
      if ann !in tx.anns || Link(ann, zone) !in tx.links {
        return None;
      }
      var row := tx.anns[ann];
      UnlinkStep(tx, {}, Link(ann, zone));
      UnlinkNothing(tx);
      var reclaimed;
      tx, reclaimed := DetachOne(tx, Link(ann, zone));
      tables := tx;
      return Some((row, reclaimed));
    }

    method DetachAllForNodeZone(node: int, zone: int) returns (dets: seq<ZoneDetachment>)
      modifies this
      ensures tables == Unlink(old(tables), NodeZoneLinks(old(tables), zone, node))
      ensures Detachments(old(tables), tables, NodeZoneLinks(old(tables), zone, node), dets)
    {
      hide ReclaimedOne, Mentions, Attached;
      var tx := tables;
      var t := tx;
      var recs := Select(NodeZoneLinks(tx, zone, node));
      dets := [];
      UnlinkNothing(tx);
      assert Elems(recs[..0]) == {};
      for i := 0 to |recs|
        invariant tables == t && |dets| == i
        invariant tx == Unlink(t, Elems(recs[..i]))
        invariant forall j :: 0 <= j < i ==> Describes(t, recs[j], dets[j])
        invariant forall j :: 0 <= j < i ==> (dets[j].reclaimed <==> recs[j].ann !in tx.anns)
      {
        var l := recs[i];
        assert l in Elems(recs);
        assert recs[..i + 1] == recs[..i] + [l];
        assert Elems(recs[..i + 1]) == Elems(recs[..i]) + {l};
        assert l !in recs[..i];
        UnlinkStep(t, Elems(recs[..i]), l);
        ghost var before := tx;
        var reclaimed;
        tx, reclaimed := DetachOne(tx, l);
        forall j | 0 <= j < i ensures recs[j].ann != l.ann {
          assert recs[j] in Elems(recs) && recs[j].zone == zone;
        }
        dets := dets + [ZoneDetachment(l.ann, node, zone, t.anns[l.ann].Synthetic(), reclaimed)];
      }
      assert recs[..|recs|] == recs;
      tables := tx;
      DetachmentsFrom(t, tx, recs, dets);
    }

    method DetachAllForZone(zone: int) returns (dets: seq<ZoneDetachment>)
      requires forall l :: l in tables.links ==> l.ann in tables.anns
      modifies this
      ensures tables == Unlink(old(tables), ZoneLinks(old(tables), zone))
      ensures Detachments(old(tables), tables, ZoneLinks(old(tables), zone), dets)
    {
      var tx := tables;
      ghost var t := tx;
      var rows := Select(ZoneLinks(tx, zone));
      dets := [];
      for i := 0 to |rows|
        invariant tables == t == tx && |dets| == i
        invariant forall j :: 0 <= j < i ==> Describes(t, rows[j], dets[j]) && !dets[j].reclaimed
      {
        assert rows[i] in Elems(rows);
        var row := tx.anns[rows[i].ann];
        dets := dets + [ZoneDetachment(rows[i].ann, row.node, zone, row.Synthetic(), false)];
      }
      tx := tx.(links := set l | l in tx.links && l.zone != zone);
      ghost var detached := tx;
      assert detached.links == t.links - ZoneLinks(t, zone);
      for i := 0 to |dets|
        invariant tables == t && |dets| == |rows|
        invariant tx == detached.(anns := Reclaimed(detached, rows[..i]))
        invariant forall j :: 0 <= j < |dets| ==> Describes(t, rows[j], dets[j])
        invariant forall j :: 0 <= j < i ==> (dets[j].reclaimed <==> !Attached(detached, rows[j].ann))
      {
        assert rows[..i + 1] == rows[..i] + [rows[i]];
        var reclaimed;
        tx, reclaimed := ReclaimIfOrphaned(tx, dets[i].ann);
        dets := dets[i := dets[i].(reclaimed := reclaimed)];
      }
      assert rows[..|rows|] == rows;
      tables := tx;
      assert tx.anns == Unlink(t, ZoneLinks(t, zone)).anns by {
        forall a ensures Mentions(ZoneLinks(t, zone), a) <==> exists l :: l in rows && l.ann == a {
          assert forall l :: l in rows <==> l in Elems(rows);
        }
      }
      forall j | 0 <= j < |dets| ensures dets[j].reclaimed <==> rows[j].ann !in tx.anns {
        assert rows[j] in Elems(rows);
        assert Mentions(ZoneLinks(t, zone), rows[j].ann);
      }
      DetachmentsFrom(t, tx, rows, dets);
    }

    /** The announcements no attachment refers to, and one row for each node that has any. */
    static method Orphans(d: Tables) returns (orphanIDs: seq<int>, recompute: seq<RecomputeNode>)
      requires forall a :: a in d.anns ==> d.anns[a].node in d.nodes
      ensures Elems(orphanIDs) == set a | a in d.anns && !Attached(d, a)
      ensures RecomputeRows(d, OrphanedNodes(d), recompute)
    {
      var orphans := Select(set a | a in d.anns && !Attached(d, a));
      orphanIDs := [];
      recompute := [];
      var seenNode: set<int> := {};
      for i := 0 to |orphans|
        invariant orphanIDs == orphans[..i]
        invariant seenNode == set a | a in orphans[..i] && a in d.anns :: d.anns[a].node
        invariant RecomputeRows(d, seenNode, recompute)
      {
        assert orphans[i] in Elems(orphans);
        assert orphans[..i + 1] == orphans[..i] + [orphans[i]];
        var nodeID := d.anns[orphans[i]].node;
        orphanIDs := orphanIDs + [orphans[i]];
        if nodeID !in seenNode {
          seenNode := seenNode + {nodeID};
          recompute := recompute + [RecomputeNode(nodeID, d.nodes[nodeID].pubKey, d.nodes[nodeID].ip)];
        }
      }
      assert orphans[..|orphans|] == orphans;
      assert forall a :: a in orphans <==> a in Elems(orphans);
      assert seenNode == OrphanedNodes(d);
    }

    static method DeleteAnns(d: Tables, ids: seq<int>) returns (tx: Tables)
      ensures tx == d.(anns := map a | a in d.anns && a !in Elems(ids) :: d.anns[a])
    {
      tx := d;
      for i := 0 to |ids|
        invariant tx == d.(anns := map a | a in d.anns && a !in ids[..i] :: d.anns[a])
      {
        assert ids[..i + 1] == ids[..i] + [ids[i]];
        tx := tx.(anns := tx.anns - {ids[i]});
      }
      assert ids[..|ids|] == ids;
    }

    /** users.go `DeleteCascade`: the rows go, and the footprint is exactly the difference between
        the kernel state the database stood for before and the one it stands for now. */
    method DeleteCascade(target: int) returns (r: DeleteUserResult)
      requires Consistent(tables) && UniqueNodes(tables.nodes) && BlocksDisjoint(tables.anns)
      modifies this
      ensures r.UserNotFound? <==> target !in old(tables).users
      ensures r.LastAdmin? <==> target in old(tables).users && old(tables).users[target].isAdmin &&
                                forall u :: u in old(tables).users && old(tables).users[u].isAdmin ==> u == target
      ensures !r.UserDeleted? ==> tables == old(tables)
      ensures r.UserDeleted? ==> tables == UserErased(old(tables), target)
      ensures r.UserDeleted? ==> tables == Settle(old(tables).(users := old(tables).users - {target}))
      ensures r.UserDeleted? ==> FootprintExact(old(tables), tables, r.footprint)
    {
      var tx := tables;
      ghost var t := tx;
      if target !in tx.users {
        return UserNotFound;
      }
      var admins := set u | u in tx.users && tx.users[u].isAdmin;
      if tx.users[target].isAdmin && |admins| <= 1 {
        assert target in admins;
        OnlyElement(admins, target);
        assert forall u :: u in t.users && t.users[u].isAdmin ==> u in admins;
        return LastAdmin;
      }
      if tx.users[target].isAdmin {
        assert target in admins;
        var other := AnotherElement(admins, target);
        assert other in admins;
      }
      var owned := Select(ZonesOf(tx, target));
      var keys := Select(UserKeys(tx, target));
      var memberships := Select(UserMemberships(tx, target));
      var routes := Select(UserRoutes(tx, target));
      tx := Cascade(tx.(users := tx.users - {target}));
      ghost var d := tx;
      var orphanIDs, recompute := Orphans(tx);
      tx := DeleteAnns(tx, orphanIDs);
      assert tx == ReclaimOrphans(d);
      tables := tx;
      DeleteUserSettles(t, target);
      r := UserDeleted(DeletionResult(keys, memberships, owned, routes, recompute));
      FootprintIsExact(t, target, r.footprint);
    }
  }
}
