/** The server's database: the tables, what they satisfy between transactions, and what a
    deletion leaves behind (internal/server/store and its migrations). */
module Schema {
  import opened Cidr
  import opened Common
  import opened Ipam

  datatype UserRow = UserRow(name: string, isAdmin: bool)
  datatype NodeRow = NodeRow(user: int, name: string, pubKey: string, ip: uint32, platform: string)
  datatype ZoneRow = ZoneRow(name: string, owner: int)
  datatype Member = Member(zone: int, node: int)
  datatype Link = Link(ann: int, zone: int)

  /** One prefix_len column serves the real subnet and its synthetic block. */
  datatype AnnRow = AnnRow(node: int, realBase: uint32, prefixLen: PrefixLen, synthBase: uint32) {
    function Real(): Block { Block(realBase, prefixLen) }
    function Synthetic(): Block { Block(synthBase, prefixLen) }
  }

  /** AUTOINCREMENT: the next row ids; an id is never given out twice. */
  datatype Sequences = Sequences(user: int, node: int, zone: int, ann: int)

  datatype Tables = Tables(
    users: map<int, UserRow>,
    nodes: map<int, NodeRow>,
    zones: map<int, ZoneRow>,
    members: set<Member>,
    anns: map<int, AnnRow>,
    links: set<Link>,
    next: Sequences)

  const EMPTY: Tables := Tables(map[], map[], map[], {}, map[], {}, Sequences(1, 1, 1, 1))

  // ---------------------------------------------------------------- invariants

  predicate Mentions(links: set<Link>, a: int) {
    exists l :: l in links && l.ann == a
  }

  predicate Attached(t: Tables, a: int) {
    Mentions(t.links, a)
  }

  /** No row refers to a missing row, every announcement is attached somewhere, and only to zones
      its node is a member of. */
  ghost predicate Consistent(t: Tables) {
    && NodesOwned(t.users, t.nodes) && ZonesOwned(t.users, t.zones)
    && MembersLive(t.zones, t.nodes, t.members)
    && AnnsLive(t.nodes, t.anns, t.links)
    && LinksLive(t.members, t.anns, t.links)
  }

  ghost predicate NodesOwned(users: map<int, UserRow>, nodes: map<int, NodeRow>) {
    forall n :: n in nodes ==> nodes[n].user in users
  }

  ghost predicate ZonesOwned(users: map<int, UserRow>, zones: map<int, ZoneRow>) {
    forall z :: z in zones ==> zones[z].owner in users
  }

  ghost predicate MembersLive(zones: map<int, ZoneRow>, nodes: map<int, NodeRow>, members: set<Member>) {
    forall m :: m in members ==> m.zone in zones && m.node in nodes
  }

  ghost predicate AnnsLive(nodes: map<int, NodeRow>, anns: map<int, AnnRow>, links: set<Link>) {
    forall a :: a in anns ==> anns[a].node in nodes && Mentions(links, a)
  }

  ghost predicate LinksLive(members: set<Member>, anns: map<int, AnnRow>, links: set<Link>) {
    forall l :: l in links ==> l.ann in anns && Member(l.zone, anns[l.ann].node) in members
  }

  ghost predicate UniqueNodes(nodes: map<int, NodeRow>) {
    forall m, n :: m in nodes && n in nodes && m != n ==>
      && nodes[m].ip != nodes[n].ip
      && nodes[m].pubKey != nodes[n].pubKey
      && (nodes[m].user == nodes[n].user ==> nodes[m].name != nodes[n].name)
  }

  ghost predicate UniqueZoneNames(zones: map<int, ZoneRow>) {
    forall y, z :: y in zones && z in zones && y != z ==> zones[y].name != zones[z].name
  }

  /** COLLATE NOCASE: user names are compared with their ASCII letters folded. */
  function Folded(name: string): string {
    seq(|name|, i requires 0 <= i < |name| => if 'A' <= name[i] <= 'Z' then name[i] - 'A' + 'a' else name[i])
  }

  ghost predicate UniqueUserNames(users: map<int, UserRow>) {
    forall u, v :: u in users && v in users && u != v ==> Folded(users[u].name) != Folded(users[v].name)
  }

  ghost predicate AddressesInRange(range: Option<Range>, nodes: map<int, NodeRow>) {
    range.Some? && forall n :: n in nodes ==> range.value.first <= nodes[n].ip <= range.value.last
  }

  /** Every announcement's blocks are proper: the real one announceable, the synthetic one an
      aligned block of the pool. */
  ghost predicate BlocksProper(cfg: Config, anns: map<int, AnnRow>) {
    forall a :: a in anns ==> BlockProper(cfg, anns[a])
  }

  ghost predicate BlockProper(cfg: Config, row: AnnRow) {
    && Announceable(cfg, row.Real())
    && row.Synthetic().Aligned()
    && cfg.pool.Some? && row.Synthetic().Within(BlockFromPrefix(cfg.pool.value))
  }

  /** Synthetic blocks are pairwise disjoint across the server, real blocks across each node. */
  ghost predicate BlocksDisjoint(anns: map<int, AnnRow>) {
    forall a, b :: a in anns && b in anns && a != b ==>
      && !Overlaps(anns[a].Synthetic(), anns[b].Synthetic())
      && (anns[a].node == anns[b].node ==> !Overlaps(anns[a].Real(), anns[b].Real()))
  }

  ghost predicate Issued<V>(rows: map<int, V>, next: int) {
    1 <= next && forall k :: k in rows ==> 1 <= k < next
  }

  /** The properties that rows keep when other rows are deleted. */
  ghost predicate RowsProper(cfg: Config, t: Tables) {
    && UniqueNodes(t.nodes) && UniqueZoneNames(t.zones) && UniqueUserNames(t.users)
    && AddressesInRange(PoolRange(cfg.network), t.nodes)
    && BlocksProper(cfg, t.anns) && BlocksDisjoint(t.anns)
    && Issued(t.users, t.next.user) && Issued(t.nodes, t.next.node)
    && Issued(t.zones, t.next.zone) && Issued(t.anns, t.next.ann)
  }

  ghost predicate HasAdmin(t: Tables) {
    exists u :: u in t.users && t.users[u].isAdmin
  }

  /** What every reachable database satisfies. */
  ghost predicate Invariant(cfg: Config, t: Tables) {
    ConfigOk(cfg) && Consistent(t) && RowsProper(cfg, t)
  }

  // ---------------------------------------------------------------- deletion

  ghost predicate SubMap<K, V>(s: map<K, V>, t: map<K, V>) {
    forall k :: k in s ==> k in t && s[k] == t[k]
  }

  /** s has only rows of t, unchanged. */
  ghost predicate Sub(s: Tables, t: Tables) {
    && SubMap(s.users, t.users) && SubMap(s.nodes, t.nodes) && SubMap(s.zones, t.zones)
    && s.members <= t.members && SubMap(s.anns, t.anns) && s.links <= t.links
  }

  lemma SubAntisymmetric(s: Tables, t: Tables)
    requires Sub(s, t) && Sub(t, s) && s.next == t.next
    ensures s == t
  {}

  lemma SubKeepsRows(cfg: Config, s: Tables, t: Tables)
    requires Sub(s, t) && s.next == t.next && RowsProper(cfg, t)
    ensures RowsProper(cfg, s)
  {}

  /** ON DELETE CASCADE: after rows were deleted, so is every row that refers to them. */
  function Cascade(t: Tables): Tables {
    var nodes := map n | n in t.nodes && t.nodes[n].user in t.users :: t.nodes[n];
    var zones := map z | z in t.zones && t.zones[z].owner in t.users :: t.zones[z];
    var anns := map a | a in t.anns && t.anns[a].node in nodes :: t.anns[a];
    t.(nodes := nodes, zones := zones,
       members := (set m | m in t.members && m.zone in zones && m.node in nodes),
       anns := anns,
       links := set l | l in t.links && l.ann in anns && l.zone in zones)
  }

  /** What a deletion is meant to leave: the cascade's rows, less the attachments to zones the
      announcing node is no longer in, less the announcements that are then attached nowhere. */
  ghost function Settle(t: Tables): Tables {
    var c := Cascade(t);
    var links := set l | l in c.links && Member(l.zone, c.anns[l.ann].node) in c.members;
    c.(links := links, anns := map a | a in c.anns && Mentions(links, a) :: c.anns[a])
  }

  lemma SettleIsConsistent(t: Tables)
    ensures Consistent(Settle(t)) && Sub(Settle(t), t) && Settle(t).next == t.next
  {}

  /** The independent meaning of a deletion: of all the consistent databases that have only the
      remaining rows, it leaves the largest. Nothing that could stay is lost, nothing leaks. */
  lemma SettleIsLargest(t: Tables, s: Tables)
    requires Sub(s, t) && Consistent(s)
    ensures Sub(s, Settle(t))
  {}

  lemma SettleKeepsInvariant(cfg: Config, t: Tables, raw: Tables)
    requires Invariant(cfg, t) && Sub(raw, t) && raw.next == t.next
    ensures Invariant(cfg, Settle(raw)) && Sub(Settle(raw), t)
  {
    hide RowsProper, Settle;
    SettleIsConsistent(raw);
    SubKeepsRows(cfg, Settle(raw), t);
  }

  /** A consistent sub-database that keeps every settled row is the settled one. */
  lemma SettledBy(raw: Tables, c: Tables)
    requires Consistent(c) && Sub(c, raw) && Sub(Settle(raw), c) && c.next == raw.next
    ensures c == Settle(raw)
  {
    SettleIsConsistent(raw);
    SettleIsLargest(raw, c);
    SubAntisymmetric(c, Settle(raw));
  }

  /** announcements.go `reclaimIfOrphaned`, over a set of attachments removed in one
      transaction: the announcements they leave unattached go too. */
  function Unlink(t: Tables, gone: set<Link>): Tables {
    var links := t.links - gone;
    t.(links := links,
       anns := map a | a in t.anns && (Mentions(gone, a) ==> Mentions(links, a)) :: t.anns[a])
  }

  /** users.go `DeleteCascade`: drop every announcement no attachment refers to. */
  function ReclaimOrphans(t: Tables): Tables {
    t.(anns := map a | a in t.anns && Attached(t, a) :: t.anns[a])
  }

  /** The attachments of one node's announcements to one zone (leave, kick). */
  function NodeZoneLinks(t: Tables, zone: int, node: int): set<Link> {
    set l | l in t.links && l.zone == zone && l.ann in t.anns && t.anns[l.ann].node == node
  }

  function ZoneLinks(t: Tables, zone: int): set<Link> {
    set l | l in t.links && l.zone == zone
  }

  // The paths the server takes to delete something, transaction by transaction.

  function Expelled(t: Tables, zone: int, node: int): Tables {
    var left := t.(members := t.members - {Member(zone, node)});
    Unlink(left, NodeZoneLinks(left, zone, node))
  }

  function ZoneErased(t: Tables, zone: int): Tables {
    var u := Unlink(t, ZoneLinks(t, zone));
    Cascade(u.(zones := u.zones - {zone}))
  }

  function NodeErased(t: Tables, node: int): Tables {
    Cascade(t.(nodes := t.nodes - {node}))
  }

  function UserErased(t: Tables, user: int): Tables {
    ReclaimOrphans(Cascade(t.(users := t.users - {user})))
  }

  /** Whatever the state, sound or not, they only take rows away. */
  lemma ErasingTakesAway(t: Tables, zone: int, node: int, user: int, gone: set<Link>)
    ensures Sub(Unlink(t, gone), t) && Sub(Expelled(t, zone, node), t) && Sub(ZoneErased(t, zone), t)
    ensures Sub(NodeErased(t, node), t) && Sub(UserErased(t, user), t)
    ensures Unlink(t, gone).next == Expelled(t, zone, node).next == ZoneErased(t, zone).next == t.next
    ensures NodeErased(t, node).next == UserErased(t, user).next == t.next
    ensures Unlink(t, gone).users == Expelled(t, zone, node).users == ZoneErased(t, zone).users == t.users
    ensures NodeErased(t, node).users == t.users && UserErased(t, user).users == t.users - {user}
  {}

  // From a consistent database, each of them leaves the settled one.

  lemma DetachSettles(t: Tables, gone: set<Link>)
    requires Consistent(t)
    ensures Unlink(t, gone) == Settle(t.(links := t.links - gone))
  {
    var raw, c := t.(links := t.links - gone), Unlink(t, gone);
    forall a | a in c.anns ensures Attached(c, a) {
      assert Attached(t, a);
      var l :| l in t.links && l.ann == a;
    }
    assert forall l :: l in c.links ==> l.ann in c.anns;
    UnlinkKeepsSettled(t, gone, raw);
    SettledBy(raw, c);
  }

  lemma UnlinkKeepsSettled(t: Tables, gone: set<Link>, raw: Tables)
    requires Sub(raw, t) && raw.links <= t.links - gone && raw.next == t.next
    ensures Sub(Settle(raw), Unlink(t, gone))
  {}

  lemma LeaveSettles(t: Tables, zone: int, node: int)
    requires Consistent(t)
    ensures var left := t.(members := t.members - {Member(zone, node)});
            Unlink(left, NodeZoneLinks(left, zone, node)) == Settle(left)
  {
    var left := t.(members := t.members - {Member(zone, node)});
    var gone := NodeZoneLinks(left, zone, node);
    DetachSettles(t, gone);
    var c := Unlink(left, gone);
    assert c == Unlink(t, gone).(members := left.members);
    SettleIsConsistent(t.(links := t.links - gone));
    assert Consistent(c) by {
      assert forall a :: a in c.anns ==> Attached(Unlink(t, gone), a) && Attached(c, a);
    }
    var s := Settle(left);
    SettleIsConsistent(left);
    forall l | l in s.links ensures l in c.links {
      assert Member(l.zone, s.anns[l.ann].node) in s.members;
    }
    SettledKept(left, gone);
    SettledBy(left, c);
  }

  lemma SettledKept(t: Tables, gone: set<Link>)
    requires Settle(t).links !! gone
    ensures Sub(Settle(t), Unlink(t, gone))
  {}

  lemma DeleteZoneSettles(t: Tables, zone: int)
    requires Consistent(t)
    ensures var u := Unlink(t, ZoneLinks(t, zone));
            Cascade(u.(zones := u.zones - {zone})) == Settle(t.(zones := t.zones - {zone}))
  {
    var gone := ZoneLinks(t, zone);
    var u := Unlink(t, gone);
    DetachSettles(t, gone);
    SettleIsConsistent(t.(links := t.links - gone));
    var raw := t.(zones := t.zones - {zone});
    var c := Cascade(u.(zones := u.zones - {zone}));
    assert c.nodes == u.nodes && c.links == u.links && c.anns == u.anns;
    assert Consistent(c) by {
      assert forall a :: a in c.anns ==> Attached(u, a) && Attached(c, a);
    }
    SettleIsConsistent(raw);
    SettledKept(raw, gone);
    SettledBy(raw, c);
  }

  lemma DeleteNodeSettles(t: Tables, node: int)
    requires Consistent(t)
    ensures var raw := t.(nodes := t.nodes - {node}); Cascade(raw) == Settle(raw)
  {}

  lemma DeleteUserSettles(t: Tables, user: int)
    requires Consistent(t)
    ensures var raw := t.(users := t.users - {user}); ReclaimOrphans(Cascade(raw)) == Settle(raw)
  {}
}
