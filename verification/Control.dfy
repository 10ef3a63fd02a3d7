/** The control plane on values: what each API operation does to the database, and that no run of
    operations ever breaks the database's invariant. The handlers themselves, and the kernel
    state they maintain along the way, are in module Server. */
module Control {
  import opened Cidr
  import opened Common
  import opened Ipam
  import opened Schema
  import opened NodeAddresses
  import opened Store

  /** Who is calling: the identity in the access token, which outlives the user's row. */
  datatype Caller = Caller(user: int, isAdmin: bool)

  /** Which of a handler's kernel calls fails, for the handlers that compensate. */
  datatype Fault = NoFault | FirstCall | SecondCall

  datatype Op =
    | AddUser(name: string, admin: bool)
    | RegisterNode(who: Caller, name: string, key: string, platform: string, fault: Fault)
    | DeleteNode(who: Caller, node: int)
    | CreateZone(who: Caller, name: string, autoJoin: Option<int>, fault: Fault)
    | JoinZone(who: Caller, name: string, passwordOk: bool, node: int, fault: Fault)
    | LeaveZone(who: Caller, name: string, node: int)
    | KickMember(who: Caller, name: string, node: int)
    | DeleteZone(who: Caller, name: string)
    | Announce(who: Caller, name: string, node: int, subnet: Prefix, fault: Fault)
    | Withdraw(who: Caller, name: string, ann: int)
    | DeleteUser(who: Caller, target: int)

  datatype Reply =
    | Done | NotFound | Forbidden | Conflict | LimitReached | Exhausted | Disabled | Unsupported | Invalid
    | BadZoneOrPassword | ServerError

  // ---------------------------------------------------------------- lookups

  function ZonesNamed(t: Tables, name: string): set<int> {
    set z | z in t.zones && t.zones[z].name == name
  }

  /** zones.go `GetByName`. */
  ghost function ZoneNamed(t: Tables, name: string): (z: Option<int>)
    ensures z.Some? ==> z.value in t.zones && t.zones[z.value].name == name
  {
    if ZonesNamed(t, name) == {} then None else Some(Pick(ZonesNamed(t, name)))
  }

  predicate OwnsNode(t: Tables, user: int, node: int) {
    node in t.nodes && t.nodes[node].user == user
  }

  /** zones.go `IsParticipant`: owns the zone or has a member node in it. */
  predicate Participates(t: Tables, zone: int, user: int) {
    || (zone in t.zones && t.zones[zone].owner == user)
    || (exists m :: m in t.members && m.zone == zone && OwnsNode(t, user, m.node))
  }

  function Cap(who: Caller, limit: nat): nat {
    if who.isAdmin then 0 else limit
  }

  // ---------------------------------------------------------------- the operations

  ghost function Registered(cfg: Config, t: Tables, op: Op): (Tables, Reply)
    requires op.RegisterNode?
  {
    if PoolRange(cfg.network).None? then (t, ServerError)
    else
      var (s, r) :=
        CreatedNode(t, op.who.user, op.name, op.key, op.platform, PoolRange(cfg.network).value,
                    Cap(op.who, cfg.maxDevices));
      match r
      case PoolExhausted => (t, Exhausted)
      case DeviceLimit => (t, LimitReached)
      case PubKeyTaken => (t, Conflict)
      case NodeNameTaken => (t, Conflict)
      case NodeRefused => (t, ServerError)
      case NodeCreated(n) => if op.fault.NoFault? then (s, Done) else (t.(next := s.next), ServerError)
  }

  /** An auto-join is a second kernel call; without one only the first can fail. */
  ghost function ZoneMade(cfg: Config, t: Tables, op: Op): (Tables, Reply)
    requires op.CreateZone?
  {
    if op.autoJoin.Some? && !OwnsNode(t, op.who.user, op.autoJoin.value) then (t, NotFound)
    else
      var (s, r) := CreatedZone(t, op.who.user, op.name, Cap(op.who, cfg.maxZones));
      match r
      case OwnedZoneLimit => (t, LimitReached)
      case ZoneNameTaken => (t, Conflict)
      case ZoneRefused => (t, ServerError)
      case ZoneCreated(z) => EquippedZone(t, s, op, z)
  }

  ghost function EquippedZone(t: Tables, s: Tables, op: Op, z: int): (Tables, Reply)
    requires op.CreateZone?
  {
    if op.fault.FirstCall? || (op.fault.SecondCall? && op.autoJoin.Some?) then (t.(next := s.next), ServerError)
    else if op.autoJoin.None? then (s, Done)
    else (s.(members := s.members + {Member(z, op.autoJoin.value)}), Done)
  }

  /** A join whose kernel call fails is compensated by a leave, whatever was there before. */
  ghost function Joined(t: Tables, op: Op): (Tables, Reply)
    requires op.JoinZone?
  {
    var zone := ZoneNamed(t, op.name);
    if zone.None? || !op.passwordOk then (t, BadZoneOrPassword)
    else if !OwnsNode(t, op.who.user, op.node) then (t, NotFound)
    else if op.fault.NoFault? then (t.(members := t.members + {Member(zone.value, op.node)}), Done)
    else (t.(members := t.members - {Member(zone.value, op.node)}), ServerError)
  }

  ghost function Left(t: Tables, op: Op): (Tables, Reply)
    requires op.LeaveZone?
  {
    var zone := ZoneNamed(t, op.name);
    if zone.None? || !OwnsNode(t, op.who.user, op.node) then (t, NotFound)
    else if Member(zone.value, op.node) !in t.members then (t, NotFound)
    else (Expelled(t, zone.value, op.node), Done)
  }

  ghost function Kicked(t: Tables, op: Op): (Tables, Reply)
    requires op.KickMember?
  {
    var zone := ZoneNamed(t, op.name);
    if zone.None? then (t, NotFound)
    else if t.zones[zone.value].owner != op.who.user then (t, Forbidden)
    else if op.node !in t.nodes || Member(zone.value, op.node) !in t.members then (t, NotFound)
    else (Expelled(t, zone.value, op.node), Done)
  }

  ghost function ZoneGone(t: Tables, op: Op): (Tables, Reply)
    requires op.DeleteZone?
  {
    var zone := ZoneNamed(t, op.name);
    if zone.None? then (t, NotFound)
    else if t.zones[zone.value].owner != op.who.user then (t, Forbidden)
    else (ZoneErased(t, zone.value), Done)
  }

  const ROUTER_PLATFORM := "openwrt"

  /** A failed dataplane step undoes a fresh attachment: the announcements and attachments are
      then the ones there were before. */
  ghost function Advertised(cfg: Config, t: Tables, op: Op): (Tables, Reply)
    requires op.Announce?
  {
    var zone := ZoneNamed(t, op.name);
    var subnet := BlockFromPrefix(op.subnet);
    if zone.None? || !Participates(t, zone.value, op.who.user) then (t, NotFound)
    else if cfg.pool.None? then (t, Disabled)
    else if !OwnsNode(t, op.who.user, op.node) then (t, NotFound)
    else if t.nodes[op.node].platform != ROUTER_PLATFORM then (t, Unsupported)
    else if !Announceable(cfg, subnet) then (t, Invalid)
    else
      var (s, r) :=
        CreatedAnn(t, op.who.user, op.node, subnet, zone.value, Cap(op.who, cfg.maxSubnets), cfg.pool.value);
      Concluded(t, s, r, op.fault)
  }

  ghost function Concluded(t: Tables, s: Tables, r: AnnounceResult, fault: Fault): (Tables, Reply) {
    match r
    case NotMember => (t, NotFound)
    case SubnetOverlap => (t, Conflict)
    case AnnounceLimit => (t, LimitReached)
    case SyntheticExhausted => (t, Exhausted)
    case BadSize => (t, ServerError)
    case Announced(_, _, attached) =>
      if attached && !fault.NoFault? then (t.(next := s.next), ServerError) else (s, Done)
  }

  ghost function Withdrawn(t: Tables, op: Op): (Tables, Reply)
    requires op.Withdraw?
  {
    var zone := ZoneNamed(t, op.name);
    if zone.None? || !Participates(t, zone.value, op.who.user) then (t, NotFound)
    else if op.ann !in t.anns then (t, NotFound)
    else if t.anns[op.ann].node !in t.nodes then (t, ServerError)
    else if t.nodes[t.anns[op.ann].node].user != op.who.user && t.zones[zone.value].owner != op.who.user
    then (t, NotFound)
    else if Link(op.ann, zone.value) !in t.links then (t, NotFound)
    else (Unlink(t, {Link(op.ann, zone.value)}), Done)
  }

  predicate IsLastAdmin(t: Tables, user: int) {
    user in t.users && t.users[user].isAdmin && forall u :: u in t.users && t.users[u].isAdmin ==> u == user
  }

  ghost function UserGone(t: Tables, op: Op): (Tables, Reply)
    requires op.DeleteUser?
  {
    if !op.who.isAdmin || op.target == op.who.user then (t, Forbidden)
    else if op.target !in t.users then (t, NotFound)
    else if IsLastAdmin(t, op.target) then (t, Conflict)
    else (UserErased(t, op.target), Done)
  }

  ghost function UserAdded(t: Tables, op: Op): (Tables, Reply)
    requires op.AddUser?
  {
    if exists u :: u in t.users && Folded(t.users[u].name) == Folded(op.name) then (t, Conflict)
    else
      (t.(users := t.users[t.next.user := UserRow(op.name, op.admin)], next := t.next.(user := t.next.user + 1)), Done)
  }

  ghost function NodeGone(t: Tables, op: Op): (Tables, Reply)
    requires op.DeleteNode?
  {
    if !OwnsNode(t, op.who.user, op.node) then (t, NotFound)
    else (NodeErased(t, op.node), Done)
  }

  ghost function Next(cfg: Config, t: Tables, op: Op): (Tables, Reply) {
    match op
    case AddUser(_, _) => UserAdded(t, op)
    case RegisterNode(_, _, _, _, _) => Registered(cfg, t, op)
    case DeleteNode(_, _) => NodeGone(t, op)
    case CreateZone(_, _, _, _) => ZoneMade(cfg, t, op)
    case JoinZone(_, _, _, _, _) => Joined(t, op)
    case LeaveZone(_, _, _) => Left(t, op)
    case KickMember(_, _, _) => Kicked(t, op)
    case DeleteZone(_, _) => ZoneGone(t, op)
    case Announce(_, _, _, _, _) => Advertised(cfg, t, op)
    case Withdraw(_, _, _) => Withdrawn(t, op)
    case DeleteUser(_, _) => UserGone(t, op)
  }

  /** The one operation the handlers do not get right: a join of a node that is already a
      member, whose kernel call fails. */
  ghost predicate FailedRejoin(t: Tables, op: Op) {
    && op.JoinZone? && !op.fault.NoFault? && op.passwordOk
    && ZoneNamed(t, op.name).Some? && OwnsNode(t, op.who.user, op.node)
    && Member(ZoneNamed(t, op.name).value, op.node) in t.members
  }

  // ---------------------------------------------------------------- invariant

  lemma EmptyInvariant(cfg: Config)
    requires ConfigOk(cfg)
    ensures Invariant(cfg, EMPTY)
  {
    ServerAddressGuardsTheRange(cfg.network);
  }

  lemma InsertNodeRows(cfg: Config, t: Tables, row: NodeRow)
    requires RowsProper(cfg, t) && FreeIn(UsedIPs(t), PoolRange(cfg.network).value, row.ip)
    requires forall n :: n in t.nodes ==> t.nodes[n].pubKey != row.pubKey
    requires forall n :: n in t.nodes && t.nodes[n].user == row.user ==> t.nodes[n].name != row.name
    ensures RowsProper(cfg, InsertNode(t, row)) && t.next.node !in t.nodes
  {
    assert forall n :: n in t.nodes ==> t.nodes[n].ip in UsedIPs(t);
  }

  lemma InsertNodeKeeps(cfg: Config, t: Tables, row: NodeRow)
    requires Invariant(cfg, t) && row.user in t.users
    requires FreeIn(UsedIPs(t), PoolRange(cfg.network).value, row.ip)
    requires forall n :: n in t.nodes ==> t.nodes[n].pubKey != row.pubKey
    requires forall n :: n in t.nodes && t.nodes[n].user == row.user ==> t.nodes[n].name != row.name
    ensures Invariant(cfg, InsertNode(t, row)) && t.next.node !in t.nodes
  {
    InsertNodeRows(cfg, t, row);
    hide RowsProper;
    assert Consistent(InsertNode(t, row));
  }

  lemma CreatedNodeKeeps(cfg: Config, t: Tables, user: int, name: string, key: string, platform: string,
                         maxDevices: nat)
    requires Invariant(cfg, t)
    ensures var (s, r) := CreatedNode(t, user, name, key, platform, PoolRange(cfg.network).value, maxDevices);
            && Invariant(cfg, s) && (!r.NodeCreated? ==> s == t)
            && (r.NodeCreated? ==> NodeAdded(t, s, r.node))
  {
    var ip := LowestAddress(UsedIPs(t), PoolRange(cfg.network).value);
    if CreatedNode(t, user, name, key, platform, PoolRange(cfg.network).value, maxDevices).1.NodeCreated? {
      assert LowestIn(UsedIPs(t), PoolRange(cfg.network).value, ip.value);
      InsertNodeKeeps(cfg, t, NodeRow(user, name, key, ip.value, platform));
    }
  }

  ghost predicate NodeAdded(t: Tables, s: Tables, n: int) {
    n == t.next.node && n !in t.nodes && n in s.nodes && s == InsertNode(t, s.nodes[n])
  }

  lemma CreatedZoneKeeps(cfg: Config, t: Tables, owner: int, name: string, maxZones: nat)
    requires Invariant(cfg, t)
    ensures var (s, r) := CreatedZone(t, owner, name, maxZones);
            && Invariant(cfg, s) && (!r.ZoneCreated? ==> s == t)
            && (r.ZoneCreated? ==> ZoneAdded(t, s, r.zone))
  {}

  ghost predicate ZoneAdded(t: Tables, s: Tables, z: int) {
    z == t.next.zone && z !in t.zones && z in s.zones && s == InsertZone(t, s.zones[z])
  }

  lemma AddMemberKeeps(cfg: Config, t: Tables, zone: int, node: int)
    requires Invariant(cfg, t) && zone in t.zones && node in t.nodes
    ensures Invariant(cfg, t.(members := t.members + {Member(zone, node)}))
  {}

  lemma AddLinkKeeps(cfg: Config, t: Tables, ann: int, zone: int)
    requires Invariant(cfg, t) && ann in t.anns && Member(zone, t.anns[ann].node) in t.members
    ensures Invariant(cfg, t.(links := t.links + {Link(ann, zone)}))
  {
    MoreLinks(t.links, Link(ann, zone));
  }

  lemma MoreLinks(links: set<Link>, l: Link)
    ensures forall a :: Mentions(links + {l}, a) <==> Mentions(links, a) || a == l.ann
  {}

  lemma InsertAnnRows(cfg: Config, t: Tables, row: AnnRow, zone: int)
    requires RowsProper(cfg, t) && BlockProper(cfg, row)
    requires forall a :: a in t.anns ==>
              && !Overlaps(row.Synthetic(), t.anns[a].Synthetic())
              && (t.anns[a].node == row.node ==> !Overlaps(row.Real(), t.anns[a].Real()))
    ensures RowsProper(cfg, InsertAnn(t, row, zone)) && t.next.ann !in t.anns
  {
    hide BlockProper, BlocksProper, BlocksDisjoint, UniqueNodes, AddressesInRange;
    InsertedDisjoint(cfg, t.anns, t.next.ann, row);
  }

  lemma InsertAnnKeeps(cfg: Config, t: Tables, row: AnnRow, zone: int)
    requires Invariant(cfg, t) && Member(zone, row.node) in t.members && BlockProper(cfg, row)
    requires forall a :: a in t.anns ==>
              && !Overlaps(row.Synthetic(), t.anns[a].Synthetic())
              && (t.anns[a].node == row.node ==> !Overlaps(row.Real(), t.anns[a].Real()))
    ensures Invariant(cfg, InsertAnn(t, row, zone)) && t.next.ann !in t.anns && Consistent(t)
  {
    hide RowsProper, BlockProper;
    InsertAnnRows(cfg, t, row, zone);
    MoreLinks(t.links, Link(t.next.ann, zone));
    assert Consistent(InsertAnn(t, row, zone));
  }

  lemma InsertedDisjoint(cfg: Config, anns: map<int, AnnRow>, a: int, row: AnnRow)
    requires BlocksProper(cfg, anns) && BlocksDisjoint(anns) && BlockProper(cfg, row)
    requires forall b :: b in anns ==>
              && !Overlaps(row.Synthetic(), anns[b].Synthetic())
              && (anns[b].node == row.node ==> !Overlaps(row.Real(), anns[b].Real()))
    ensures BlocksProper(cfg, anns[a := row]) && BlocksDisjoint(anns[a := row])
  {
    assert forall b, c :: Overlaps(b, c) <==> Overlaps(c, b);
  }

  /** Announcing keeps every block disjoint, aligned and in the pool, and the new attachment's
      node is a member of the zone. */
  lemma CreatedAnnKeeps(cfg: Config, t: Tables, user: int, node: int, subnet: Block, zone: int, limit: nat)
    requires Invariant(cfg, t) && cfg.pool.Some? && Announceable(cfg, subnet)
    ensures var (s, r) := CreatedAnn(t, user, node, subnet, zone, limit, cfg.pool.value);
            && Invariant(cfg, s) && Later(t, s)
            && (!r.Announced? ==> s == t)
            && (r.Announced? ==> AnnouncedInto(t, s, r, node, zone))
  {
    hide Invariant, Announceable, BlockProper, AnnouncedInto, LowestFit;
    var (s, r) := CreatedAnn(t, user, node, subnet, zone, limit, cfg.pool.value);
    if r.Announced? {
      if AnnsFor(t, node, subnet) != {} {
        assert r.ann in AnnsFor(t, node, subnet);
        AddLinkKeeps(cfg, t, r.ann, zone);
        ReusedInto(t, r.ann, zone);
      } else {
        NewBlockProper(cfg, t, subnet, r.row);
        InsertAnnKeeps(cfg, t, r.row, zone);
        FreshInto(t, r.row, zone);
      }
    }
  }

  lemma ReusedInto(t: Tables, ann: int, zone: int)
    requires ann in t.anns && Member(zone, t.anns[ann].node) in t.members
    ensures var s := t.(links := t.links + {Link(ann, zone)});
            var r := Announced(ann, t.anns[ann], Link(ann, zone) !in t.links);
            AnnouncedInto(t, s, r, t.anns[ann].node, zone)
  {}

  lemma FreshInto(t: Tables, row: AnnRow, zone: int)
    requires Consistent(t) && t.next.ann !in t.anns && Member(zone, row.node) in t.members
    ensures AnnouncedInto(t, InsertAnn(t, row, zone), Announced(t.next.ann, row, true), row.node, zone)
  {}

  lemma PutSame<K, V>(m: map<K, V>, k: K)
    requires k in m
    ensures m[k := m[k]] == m
  {}

  /** Row ids are only ever used up. */
  ghost predicate Later(t: Tables, s: Tables) {
    && t.next.user <= s.next.user && t.next.node <= s.next.node
    && t.next.zone <= s.next.zone && t.next.ann <= s.next.ann
  }

  /** What a successful announcement changed. */
  ghost predicate AnnouncedInto(t: Tables, s: Tables, r: AnnounceResult, node: int, zone: int)
    requires r.Announced?
  {
    && Member(zone, node) in t.members && r.row.node == node
    && s == t.(anns := t.anns[r.ann := r.row], links := t.links + {Link(r.ann, zone)}, next := s.next)
    && (r.attached <==> Link(r.ann, zone) !in t.links)
    && (r.ann in t.anns ==> t.anns[r.ann] == r.row && s.next == t.next)
  }

  lemma NewBlockProper(cfg: Config, t: Tables, subnet: Block, row: AnnRow)
    requires cfg.pool.Some? && Announceable(cfg, subnet)
    requires LowestFit(cfg.pool.value, subnet.prefixLen, UsedSynthetics(t), row.Synthetic()) && row.Real() == subnet
    ensures BlockProper(cfg, row)
    ensures forall a :: a in t.anns ==> !Overlaps(row.Synthetic(), t.anns[a].Synthetic())
  {
    forall a | a in t.anns ensures !Overlaps(row.Synthetic(), t.anns[a].Synthetic()) {
      assert t.anns[a].Synthetic() in UsedSynthetics(t);
    }
  }

  /** Undoing a fresh attachment restores the announcements and attachments exactly. For a reused
      announcement this rests on there being no orphans: it has another attachment, so the
      rollback does not reclaim it. */
  lemma RollbackRestores(t: Tables, s: Tables, r: AnnounceResult, node: int, zone: int)
    requires Consistent(t) && r.Announced? && r.attached && AnnouncedInto(t, s, r, node, zone)
    ensures Unlink(s, {Link(r.ann, zone)}) == t.(next := s.next)
  {}

  /** Deleting a zone is two transactions, first its attachments and then the zone. An announcement
      into the zone that commits between them stays attached somewhere exactly when it took the
      reuse branch: the node still had an announcement of that very subnet. */
  lemma DeletionRacesAnnounce(cfg: Config, t: Tables, zone: int, user: int, node: int, subnet: Block, limit: nat)
    requires Invariant(cfg, t) && zone in t.zones && cfg.pool.Some? && Announceable(cfg, subnet)
    requires CreatedAnn(Unlink(t, ZoneLinks(t, zone)), user, node, subnet, zone, limit, cfg.pool.value).1.Announced?
    ensures var u := Unlink(t, ZoneLinks(t, zone));
            var s := CreatedAnn(u, user, node, subnet, zone, limit, cfg.pool.value).0;
            Consistent(Cascade(s.(zones := s.zones - {zone}))) <==> AnnsFor(u, node, subnet) != {}
  {
    hide Invariant, AnnouncedInto, Cascade, Unlink, Mentions, Announceable, LowestFree;
    var u := Unlink(t, ZoneLinks(t, zone));
    var (s, r) := CreatedAnn(u, user, node, subnet, zone, limit, cfg.pool.value);
    BetweenTransactions(cfg, t, zone);
    CreatedAnnKeeps(cfg, u, user, node, subnet, zone, limit);
    NextIdIsNew(cfg, u);
    if AnnsFor(u, node, subnet) != {} {
      assert r.ann in AnnsFor(u, node, subnet);
      LateReuseSurvives(u, s, r, node, zone);
    } else {
      LateBlockOrphaned(u, s, r, node, zone);
    }
  }

  lemma BetweenTransactions(cfg: Config, t: Tables, zone: int)
    requires Invariant(cfg, t)
    ensures var u := Unlink(t, ZoneLinks(t, zone));
            Invariant(cfg, u) && Consistent(u) && Consistent(Cascade(u.(zones := u.zones - {zone})))
  {
    hide Cascade, Unlink, RowsProper;
    DetachSettles(t, ZoneLinks(t, zone));
    SettleKeepsInvariant(cfg, t, t.(links := t.links - ZoneLinks(t, zone)));
    DeleteZoneSettles(t, zone);
    SettleIsConsistent(t.(zones := t.zones - {zone}));
  }

  lemma NextIdIsNew(cfg: Config, t: Tables)
    requires Invariant(cfg, t)
    ensures t.next.ann !in t.anns
  {}

  lemma LateReuseSurvives(u: Tables, s: Tables, r: AnnounceResult, node: int, zone: int)
    requires r.Announced? && AnnouncedInto(u, s, r, node, zone) && r.ann in u.anns
    requires Consistent(Cascade(u.(zones := u.zones - {zone})))
    ensures Consistent(Cascade(s.(zones := s.zones - {zone})))
  {
    hide Consistent;
    PutSame(u.anns, r.ann);
    var c, d := Cascade(u.(zones := u.zones - {zone})), Cascade(s.(zones := s.zones - {zone}));
    assert d.links == c.links;
    assert d == c.(next := s.next);
    NextIsNoRow(c, d);
  }

  lemma NextIsNoRow(c: Tables, d: Tables)
    requires Consistent(c) && d == c.(next := d.next)
    ensures Consistent(d)
  {}

  lemma LateBlockOrphaned(u: Tables, s: Tables, r: AnnounceResult, node: int, zone: int)
    requires r.Announced? && AnnouncedInto(u, s, r, node, zone) && r.ann !in u.anns && Consistent(u)
    ensures !Consistent(Cascade(s.(zones := s.zones - {zone})))
  {
    var d := Cascade(s.(zones := s.zones - {zone}));
    assert node in u.nodes && u.nodes[node].user in u.users;
    assert forall l :: l in d.links ==> l.ann != r.ann;
    assert r.ann in d.anns && !Mentions(d.links, r.ann);
  }

  /** A failed re-join is exactly what breaks the database: it leaves the node out of the zone
      while its announcements stay attached to it. Everything else keeps the invariant. */
  lemma FailedRejoinBreaks(cfg: Config, t: Tables, op: Op)
    requires Invariant(cfg, t) && FailedRejoin(t, op)
    ensures Invariant(cfg, Next(cfg, t, op).0) <==> NodeZoneLinks(t, ZoneNamed(t, op.name).value, op.node) == {}
  {
    var zone := ZoneNamed(t, op.name).value;
    var s := Next(cfg, t, op).0;
    assert s == t.(members := t.members - {Member(zone, op.node)});
    if NodeZoneLinks(t, zone, op.node) == {} {
      forall l | l in s.links ensures Member(l.zone, s.anns[l.ann].node) in s.members {
        assert l !in NodeZoneLinks(t, zone, op.node);
      }
      assert forall a :: a in s.anns ==> Attached(t, a) && Attached(s, a);
    } else {
      var l := Pick(NodeZoneLinks(t, zone, op.node));
      assert l in s.links && Member(l.zone, s.anns[l.ann].node) !in s.members;
    }
  }

  /** Every operation but a failed re-join keeps every invariant of the database. */
  lemma NextKeepsInvariant(cfg: Config, t: Tables, op: Op)
    requires Invariant(cfg, t) && !FailedRejoin(t, op)
    ensures Invariant(cfg, Next(cfg, t, op).0)
  {
    hide Invariant, Participates, OwnsNode, IsLastAdmin;
    match op {
      case AddUser(_, _) => UserAddedKeeps(cfg, t, op);
      case RegisterNode(_, _, _, _, _) => RegisteredKeeps(cfg, t, op);
      case DeleteNode(_, node) =>
        DeletionsKeep(cfg, t, 0, node, 0, {});
      case CreateZone(_, _, _, _) => ZoneMadeKeeps(cfg, t, op);
      case JoinZone(_, _, _, _, _) => JoinedKeeps(cfg, t, op);
      case LeaveZone(_, name, node) => ExpelledKeeps(cfg, t, name, node);
      case KickMember(_, name, node) => ExpelledKeeps(cfg, t, name, node);
      case DeleteZone(_, name) =>
        var zone := ZoneNamed(t, name);
        if zone.Some? { DeletionsKeep(cfg, t, zone.value, 0, 0, {}); }
      case Announce(_, _, _, _, _) => AdvertisedKeeps(cfg, t, op);
      case Withdraw(_, name, ann) =>
        var zone := ZoneNamed(t, name);
        if zone.Some? { DeletionsKeep(cfg, t, 0, 0, 0, {Link(ann, zone.value)}); }
      case DeleteUser(_, target) =>
        DeletionsKeep(cfg, t, 0, 0, target, {});
    }
  }

  lemma DeletionsKeep(cfg: Config, t: Tables, zone: int, node: int, user: int, gone: set<Link>)
    requires Invariant(cfg, t)
    ensures Invariant(cfg, Unlink(t, gone)) && Invariant(cfg, Expelled(t, zone, node))
    ensures Invariant(cfg, ZoneErased(t, zone)) && Invariant(cfg, NodeErased(t, node))
    ensures Invariant(cfg, UserErased(t, user))
  {
    hide RowsProper, Cascade, Unlink, Settle, ReclaimOrphans, NodeZoneLinks, ZoneLinks;
    DetachSettles(t, gone);
    SettleKeepsInvariant(cfg, t, t.(links := t.links - gone));
    LeaveSettles(t, zone, node);
    SettleKeepsInvariant(cfg, t, t.(members := t.members - {Member(zone, node)}));
    DeleteZoneSettles(t, zone);
    SettleKeepsInvariant(cfg, t, t.(zones := t.zones - {zone}));
    DeleteNodeSettles(t, node);
    SettleKeepsInvariant(cfg, t, t.(nodes := t.nodes - {node}));
    DeleteUserSettles(t, user);
    SettleKeepsInvariant(cfg, t, t.(users := t.users - {user}));
  }

  lemma UserAddedKeeps(cfg: Config, t: Tables, op: Op)
    requires Invariant(cfg, t) && op.AddUser?
    ensures Invariant(cfg, UserAdded(t, op).0)
  {}

  lemma RegisteredKeeps(cfg: Config, t: Tables, op: Op)
    requires Invariant(cfg, t) && op.RegisterNode?
    ensures Invariant(cfg, Registered(cfg, t, op).0)
  {
    CreatedNodeKeeps(cfg, t, op.who.user, op.name, op.key, op.platform, Cap(op.who, cfg.maxDevices));
    OnlySequences(cfg, t, Registered(cfg, t, op).0);
  }

  lemma ZoneMadeKeeps(cfg: Config, t: Tables, op: Op)
    requires Invariant(cfg, t) && op.CreateZone?
    ensures Invariant(cfg, ZoneMade(cfg, t, op).0)
  {
    var (s, r) := CreatedZone(t, op.who.user, op.name, Cap(op.who, cfg.maxZones));
    CreatedZoneKeeps(cfg, t, op.who.user, op.name, Cap(op.who, cfg.maxZones));
    OnlySequences(cfg, t, t.(next := s.next));
    if r.ZoneCreated? && op.autoJoin.Some? && op.autoJoin.value in t.nodes {
      AddMemberKeeps(cfg, s, r.zone, op.autoJoin.value);
    }
  }

  lemma JoinedKeeps(cfg: Config, t: Tables, op: Op)
    requires Invariant(cfg, t) && op.JoinZone? && !FailedRejoin(t, op)
    ensures Invariant(cfg, Joined(t, op).0)
  {
    var zone := ZoneNamed(t, op.name);
    if zone.Some? && op.node in t.nodes {
      AddMemberKeeps(cfg, t, zone.value, op.node);
      assert Member(zone.value, op.node) !in t.members ==> t.members - {Member(zone.value, op.node)} == t.members;
    }
  }

  lemma ExpelledKeeps(cfg: Config, t: Tables, name: string, node: int)
    requires Invariant(cfg, t)
    ensures ZoneNamed(t, name).Some? ==> Invariant(cfg, Expelled(t, ZoneNamed(t, name).value, node))
  {
    if ZoneNamed(t, name).Some? {
      DeletionsKeep(cfg, t, ZoneNamed(t, name).value, node, 0, {});
    }
  }

  lemma AdvertisedKeeps(cfg: Config, t: Tables, op: Op)
    requires Invariant(cfg, t) && op.Announce?
    ensures Invariant(cfg, Advertised(cfg, t, op).0)
  {
    hide Invariant, Participates, OwnsNode, Announceable, CreatedAnn;
    var zone, subnet := ZoneNamed(t, op.name), BlockFromPrefix(op.subnet);
    if cfg.pool.Some? && zone.Some? && Announceable(cfg, subnet) {
      AdvertisedStoreKeeps(cfg, t, op, zone.value, subnet);
    }
  }

  lemma AdvertisedStoreKeeps(cfg: Config, t: Tables, op: Op, zone: int, subnet: Block)
    requires Invariant(cfg, t) && op.Announce? && cfg.pool.Some? && Announceable(cfg, subnet)
    ensures var s := CreatedAnn(t, op.who.user, op.node, subnet, zone, Cap(op.who, cfg.maxSubnets), cfg.pool.value).0;
            Invariant(cfg, s) && Invariant(cfg, t.(next := s.next))
  {
    CreatedAnnKeeps(cfg, t, op.who.user, op.node, subnet, zone, Cap(op.who, cfg.maxSubnets));
    var s := CreatedAnn(t, op.who.user, op.node, subnet, zone, Cap(op.who, cfg.maxSubnets), cfg.pool.value).0;
    OnlySequences(cfg, t, t.(next := s.next));
  }

  /** A rolled-back operation may have used up a row id; that harms nothing. */
  lemma OnlySequences(cfg: Config, t: Tables, s: Tables)
    requires Invariant(cfg, t)
    requires Later(t, s)
    ensures s == t.(next := s.next) ==> Invariant(cfg, s)
  {}

  // ---------------------------------------------------------------- runs

  /** The database after a run of operations. */
  ghost function After(cfg: Config, t: Tables, ops: seq<Op>): Tables
    decreases |ops|
  {
    if ops == [] then t else After(cfg, Next(cfg, t, ops[0]).0, ops[1..])
  }

  /** No operation of the run is a failed re-join. */
  ghost predicate Admissible(cfg: Config, t: Tables, ops: seq<Op>)
    decreases |ops|
  {
    ops == [] || (!FailedRejoin(t, ops[0]) && Admissible(cfg, Next(cfg, t, ops[0]).0, ops[1..]))
  }

  /** Every database reachable from the empty one without a failed re-join satisfies the whole
      invariant, the clauses about membership included. */
  lemma {:induction false} RunsKeepInvariant(cfg: Config, t: Tables, ops: seq<Op>)
    requires Invariant(cfg, t) && Admissible(cfg, t, ops)
    ensures Invariant(cfg, After(cfg, t, ops))
    decreases |ops|
  {
    if ops != [] {
      NextKeepsInvariant(cfg, t, ops[0]);
      RunsKeepInvariant(cfg, Next(cfg, t, ops[0]).0, ops[1..]);
    }
  }

  /** What rows are like does not depend on who is a member of what: over every run whatsoever,
      failed re-joins included, addresses, keys and names stay unique, addresses in range, real
      and synthetic blocks disjoint, aligned and in the pool. */
  lemma {:induction false} RunsKeepRows(cfg: Config, t: Tables, ops: seq<Op>)
    requires ConfigOk(cfg) && RowsProper(cfg, t)
    ensures RowsProper(cfg, After(cfg, t, ops))
    decreases |ops|
  {
    if ops != [] {
      NextKeepsRows(cfg, t, ops[0]);
      RunsKeepRows(cfg, Next(cfg, t, ops[0]).0, ops[1..]);
    }
  }

  lemma NextKeepsRows(cfg: Config, t: Tables, op: Op)
    requires ConfigOk(cfg) && RowsProper(cfg, t)
    ensures RowsProper(cfg, Next(cfg, t, op).0)
  {
    hide RowsProper, ConfigOk, Participates, OwnsNode, IsLastAdmin;
    hide Expelled, ZoneErased, NodeErased, UserErased, Unlink;
    match op {
      case AddUser(_, _) => UserAddedRows(cfg, t, op);
      case RegisterNode(_, _, _, _, _) => RegisteredRows(cfg, t, op);
      case DeleteNode(_, node) => ErasedRows(cfg, t, 0, node, 0, {});
      case CreateZone(_, _, _, _) => ZoneMadeRows(cfg, t, op);
      case JoinZone(_, _, _, _, _) => JoinedRows(cfg, t, op);
      case LeaveZone(_, name, node) => ErasedRows(cfg, t, ZoneIdOr0(t, name), node, 0, {});
      case KickMember(_, name, node) => ErasedRows(cfg, t, ZoneIdOr0(t, name), node, 0, {});
      case DeleteZone(_, name) => ErasedRows(cfg, t, ZoneIdOr0(t, name), 0, 0, {});
      case Announce(_, _, _, _, _) => AdvertisedRows(cfg, t, op);
      case Withdraw(_, name, ann) => ErasedRows(cfg, t, 0, 0, 0, {Link(ann, ZoneIdOr0(t, name))});
      case DeleteUser(_, target) => ErasedRows(cfg, t, 0, 0, target, {});
    }
  }

  ghost function ZoneIdOr0(t: Tables, name: string): int {
    var z := ZoneNamed(t, name);
    if z.Some? then z.value else 0
  }

  lemma ErasedRows(cfg: Config, t: Tables, zone: int, node: int, user: int, gone: set<Link>)
    requires RowsProper(cfg, t)
    ensures RowsProper(cfg, Unlink(t, gone)) && RowsProper(cfg, Expelled(t, zone, node))
    ensures RowsProper(cfg, ZoneErased(t, zone)) && RowsProper(cfg, NodeErased(t, node))
    ensures RowsProper(cfg, UserErased(t, user))
  {
    hide RowsProper, Unlink, Expelled, ZoneErased, NodeErased, UserErased, Sub;
    ErasingTakesAway(t, zone, node, user, gone);
    SubKeepsRows(cfg, Unlink(t, gone), t);
    SubKeepsRows(cfg, Expelled(t, zone, node), t);
    SubKeepsRows(cfg, ZoneErased(t, zone), t);
    SubKeepsRows(cfg, NodeErased(t, node), t);
    SubKeepsRows(cfg, UserErased(t, user), t);
  }

  lemma UserAddedRows(cfg: Config, t: Tables, op: Op)
    requires RowsProper(cfg, t) && op.AddUser?
    ensures RowsProper(cfg, UserAdded(t, op).0)
  {}

  lemma JoinedRows(cfg: Config, t: Tables, op: Op)
    requires RowsProper(cfg, t) && op.JoinZone?
    ensures RowsProper(cfg, Joined(t, op).0)
  {}

  lemma RegisteredRows(cfg: Config, t: Tables, op: Op)
    requires RowsProper(cfg, t) && op.RegisterNode?
    ensures RowsProper(cfg, Registered(cfg, t, op).0)
  {
    var range := PoolRange(cfg.network).value;
    var (s, r) := CreatedNode(t, op.who.user, op.name, op.key, op.platform, range, Cap(op.who, cfg.maxDevices));
    if r.NodeCreated? {
      var ip := LowestAddress(UsedIPs(t), range).value;
      assert LowestIn(UsedIPs(t), range, ip);
      InsertNodeRows(cfg, t, NodeRow(op.who.user, op.name, op.key, ip, op.platform));
    }
    SequencesKeepRows(cfg, t, t.(next := s.next));
  }

  lemma ZoneMadeRows(cfg: Config, t: Tables, op: Op)
    requires RowsProper(cfg, t) && op.CreateZone?
    ensures RowsProper(cfg, ZoneMade(cfg, t, op).0)
  {}

  lemma SequencesKeepRows(cfg: Config, t: Tables, s: Tables)
    requires RowsProper(cfg, t) && Later(t, s)
    ensures s == t.(next := s.next) ==> RowsProper(cfg, s)
  {}

  lemma AdvertisedRows(cfg: Config, t: Tables, op: Op)
    requires RowsProper(cfg, t) && op.Announce?
    ensures RowsProper(cfg, Advertised(cfg, t, op).0)
  {
    hide RowsProper, Participates, OwnsNode, Announceable, CreatedAnn;
    var zone, subnet := ZoneNamed(t, op.name), BlockFromPrefix(op.subnet);
    if cfg.pool.Some? && zone.Some? && Announceable(cfg, subnet) {
      var limit := Cap(op.who, cfg.maxSubnets);
      CreatedAnnRows(cfg, t, op.who.user, op.node, subnet, zone.value, limit);
      var s := CreatedAnn(t, op.who.user, op.node, subnet, zone.value, limit, cfg.pool.value).0;
      SequencesKeepRows(cfg, t, t.(next := s.next));
    }
  }

  lemma CreatedAnnRows(cfg: Config, t: Tables, user: int, node: int, subnet: Block, zone: int, limit: nat)
    requires RowsProper(cfg, t) && cfg.pool.Some? && Announceable(cfg, subnet)
    ensures var s := CreatedAnn(t, user, node, subnet, zone, limit, cfg.pool.value).0;
            RowsProper(cfg, s) && Later(t, s)
  {
    hide Announceable, BlockProper, RowsProper, LowestFit;
    var (s, r) := CreatedAnn(t, user, node, subnet, zone, limit, cfg.pool.value);
    if r.Announced? && AnnsFor(t, node, subnet) == {} {
      NewBlockProper(cfg, t, subnet, r.row);
      InsertAnnRows(cfg, t, r.row, zone);
    } else {
      LinksAreNoRows(cfg, t, s);
    }
  }

  lemma LinksAreNoRows(cfg: Config, t: Tables, s: Tables)
    requires RowsProper(cfg, t) && s == t.(links := s.links)
    ensures RowsProper(cfg, s)
  {}

  /** No operation, in any state, leaves the server without an administrator. */
  lemma {:induction false} RunsKeepAnAdmin(cfg: Config, t: Tables, ops: seq<Op>)
    requires HasAdmin(t) && Issued(t.users, t.next.user)
    ensures HasAdmin(After(cfg, t, ops))
    decreases |ops|
  {
    if ops != [] {
      NextKeepsAnAdmin(cfg, t, ops[0]);
      RunsKeepAnAdmin(cfg, Next(cfg, t, ops[0]).0, ops[1..]);
    }
  }

  lemma NextKeepsAnAdmin(cfg: Config, t: Tables, op: Op)
    requires Issued(t.users, t.next.user) && HasAdmin(t)
    ensures HasAdmin(Next(cfg, t, op).0) && Issued(Next(cfg, t, op).0.users, Next(cfg, t, op).0.next.user)
  {
    hide Cascade, Participates, Announceable, LowestFree, Mentions, OwnsNode, LowestAddress;
    var s := Next(cfg, t, op).0;
    var u :| u in t.users && t.users[u].isAdmin;
    NextKeepsUsers(cfg, t, op);
    if op.DeleteUser? && UserGone(t, op).1 == Done && op.target == u {
      var v :| v in t.users && t.users[v].isAdmin && v != u;
      assert v in s.users && s.users[v].isAdmin;
    } else {
      assert u in s.users && s.users[u].isAdmin;
    }
  }

  /** The users after an operation: at most one is new, under the next id, and at most the one
      whose deletion was asked for is gone. */
  lemma NextKeepsUsers(cfg: Config, t: Tables, op: Op)
    ensures var s := Next(cfg, t, op).0;
            && (if op.AddUser? then s == UserAdded(t, op).0
                else if op.DeleteUser? then s == t || s.users == t.users - {op.target}
                else s.users == t.users)
            && (!op.AddUser? ==> s.next.user == t.next.user)
            && (op.DeleteUser? && UserGone(t, op).1 != Done ==> s == t)
  {
    hide Participates, OwnsNode, IsLastAdmin, Advertised, ZoneNamed;
    hide Expelled, ZoneErased, NodeErased, UserErased, Unlink;
    if op.Announce? {
      AdvertisedUsers(cfg, t, op);
    } else if op.DeleteUser? {
      ErasingTakesAway(t, 0, 0, op.target, {});
    } else if op.DeleteNode? {
      ErasingTakesAway(t, 0, op.node, 0, {});
    } else if op.LeaveZone? || op.KickMember? {
      if ZoneNamed(t, op.name).Some? { ErasingTakesAway(t, ZoneNamed(t, op.name).value, op.node, 0, {}); }
    } else if op.DeleteZone? {
      if ZoneNamed(t, op.name).Some? { ErasingTakesAway(t, ZoneNamed(t, op.name).value, 0, 0, {}); }
    } else if op.Withdraw? {
      if ZoneNamed(t, op.name).Some? { ErasingTakesAway(t, 0, 0, 0, {Link(op.ann, ZoneNamed(t, op.name).value)}); }
    }
  }

  lemma AdvertisedUsers(cfg: Config, t: Tables, op: Op)
    requires op.Announce?
    ensures Advertised(cfg, t, op).0.users == t.users && Advertised(cfg, t, op).0.next.user == t.next.user
  {
    hide Participates, Announceable, LowestFree, OwnsNode, ZoneNamed, AnnsFor, AnnsOf, Overlaps;
  }
}
