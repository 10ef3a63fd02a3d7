/** Who may do what, and what comes of it: a law for each API operation, told in the rows of the
    database and without the operations of module Control. Every operation obeys its law, and the
    law leaves nothing open: it fixes the reply and every row. */
module Authority {
  import opened Cidr
  import opened Common
  import opened Ipam
  import opened Schema
  import opened NodeAddresses
  import opened Store
  import opened Control

  // ---------------------------------------------------------------- terms

  ghost predicate Named(t: Tables, z: int, name: string) {
    z in t.zones && t.zones[z].name == name
  }

  ghost predicate Mine(t: Tables, user: int, n: int) {
    n in t.nodes && t.nodes[n].user == user
  }

  /** The zone is the user's, or a node of the user's is in it. */
  ghost predicate Sees(t: Tables, user: int, z: int) {
    (z in t.zones && t.zones[z].owner == user) || exists n :: Mine(t, user, n) && Member(z, n) in t.members
  }

  /** Equal but for the case of ASCII letters. */
  predicate SameName(a: string, b: string) {
    |a| == |b| && forall i :: 0 <= i < |a| ==> SameLetter(a[i], b[i])
  }

  predicate SameLetter(c: char, d: char) {
    || c == d
    || ('A' <= c <= 'Z' && d as int == c as int + 32)
    || ('A' <= d <= 'Z' && c as int == d as int + 32)
  }

  /** A limit of 0 is none, and administrators have none. */
  predicate AtLimit(who: Caller, count: nat, limit: nat) {
    !who.isAdmin && limit > 0 && count >= limit
  }

  /** What remains of some rows when all that cannot stay has gone, and nothing else. */
  ghost predicate Remains(raw: Tables, s: Tables) {
    && Sub(s, raw) && Consistent(s) && s.next == raw.next
    && forall u: Tables :: Sub(u, raw) && Consistent(u) ==> Sub(u, s)
  }

  // ---------------------------------------------------------------- users and nodes

  ghost predicate AddUserLaw(t: Tables, op: Op, s: Tables, reply: Reply)
    requires op.AddUser?
  {
    var taken := exists u :: u in t.users && SameName(t.users[u].name, op.name);
    var k := t.next.user;
    if taken then reply == Conflict && s == t
    else
      && reply == Done && k !in t.users
      && s == t.(users := t.users[k := UserRow(op.name, op.admin)], next := t.next.(user := k + 1))
  }

  /** Not all administrators may go, nobody may delete himself, and only administrators delete. */
  ghost predicate DeleteUserLaw(t: Tables, op: Op, s: Tables, reply: Reply)
    requires op.DeleteUser?
  {
    var there := op.target in t.users;
    var needed := !exists u :: u in t.users && u != op.target && t.users[u].isAdmin;
    && (reply.Forbidden? <==> !op.who.isAdmin || op.who.user == op.target)
    && (reply.NotFound? <==> !reply.Forbidden? && !there)
    && (reply.Conflict? <==> !reply.Forbidden? && there && t.users[op.target].isAdmin && needed)
    && (reply.Done? <==> !reply.Forbidden? && !reply.NotFound? && !reply.Conflict?)
    && (if reply.Done? then Remains(t.(users := t.users - {op.target}), s) else s == t)
  }

  /** A client address nobody has: none of the network's first two and not its last. */
  ghost predicate FreeAddress(cfg: Config, t: Tables, a: int) {
    var b := BlockFromPrefix(cfg.network);
    b.base + 2 <= a <= b.End() - 2 && forall n :: n in t.nodes ==> t.nodes[n].ip != a
  }

  ghost predicate FirstFree(cfg: Config, t: Tables, a: int) {
    FreeAddress(cfg, t, a) && forall c :: FreeAddress(cfg, t, c) ==> a <= c
  }

  ghost predicate RegisterLaw(cfg: Config, t: Tables, op: Op, s: Tables, reply: Reply)
    requires op.RegisterNode?
  {
    var k, user := t.next.node, op.who.user;
    var full := !exists a :: FirstFree(cfg, t, a);
    var limited := AtLimit(op.who, |set n | n in t.nodes && t.nodes[n].user == user|, cfg.maxDevices);
    var taken := exists n :: n in t.nodes &&
                   (t.nodes[n].pubKey == op.key || (t.nodes[n].user == user && t.nodes[n].name == op.name));
    && (reply.Exhausted? <==> full)
    && (reply.LimitReached? <==> !full && limited)
    && (reply.Conflict? <==> !full && !limited && taken)
    && (reply.Done? <==> !full && !limited && !taken && user in t.users && op.fault.NoFault?)
    && (reply.ServerError? <==> !full && !limited && !taken && (user !in t.users || !op.fault.NoFault?))
    && (reply.Done? ==>
          && k !in t.nodes
          && forall a: uint32 :: FirstFree(cfg, t, a) ==>
               s == t.(nodes := t.nodes[k := NodeRow(user, op.name, op.key, a, op.platform)],
                       next := t.next.(node := k + 1)))
    && (reply.ServerError? && user in t.users ==> s == t.(next := t.next.(node := k + 1)))
    && (!reply.Done? && !(reply.ServerError? && user in t.users) ==> s == t)
  }

  /** A node is deleted by its owner. */
  ghost predicate DeleteNodeLaw(t: Tables, op: Op, s: Tables, reply: Reply)
    requires op.DeleteNode?
  {
    if Mine(t, op.who.user, op.node) then reply == Done && Remains(t.(nodes := t.nodes - {op.node}), s)
    else reply == NotFound && s == t
  }

  // ---------------------------------------------------------------- zones

  /** Whoever creates a zone owns it, and may put a node of his own into it. */
  ghost predicate CreateZoneLaw(cfg: Config, t: Tables, op: Op, s: Tables, reply: Reply)
    requires op.CreateZone?
  {
    var k, user := t.next.zone, op.who.user;
    var foreign := op.autoJoin.Some? && !Mine(t, user, op.autoJoin.value);
    var limited := AtLimit(op.who, |set z | z in t.zones && t.zones[z].owner == user|, cfg.maxZones);
    var taken := exists z :: Named(t, z, op.name);
    var able := !foreign && !limited && !taken && user in t.users;
    var fails := op.fault.FirstCall? || (op.fault.SecondCall? && op.autoJoin.Some?);
    && (reply.NotFound? <==> foreign)
    && (reply.LimitReached? <==> !foreign && limited)
    && (reply.Conflict? <==> !foreign && !limited && taken)
    && (reply.Done? <==> able && !fails)
    && (reply.ServerError? <==> !foreign && !limited && !taken && (user !in t.users || fails))
    && (reply.Done? ==>
          && k !in t.zones
          && s == t.(zones := t.zones[k := ZoneRow(op.name, user)], next := t.next.(zone := k + 1),
                     members := t.members + if op.autoJoin.Some? then {Member(k, op.autoJoin.value)} else {}))
    && (able && fails ==> s == t.(next := t.next.(zone := k + 1)))
    && (!able ==> s == t)
  }

  /** A zone is joined with its password, by a node of the caller's; a join whose kernel call fails
      is undone by a leave. */
  ghost predicate JoinLaw(t: Tables, op: Op, s: Tables, reply: Reply)
    requires op.JoinZone?
  {
    var admitted := op.passwordOk && exists z :: Named(t, z, op.name);
    && (reply.BadZoneOrPassword? <==> !admitted)
    && (reply.NotFound? <==> admitted && !Mine(t, op.who.user, op.node))
    && (reply.Done? <==> admitted && Mine(t, op.who.user, op.node) && op.fault.NoFault?)
    && (reply.ServerError? <==> admitted && Mine(t, op.who.user, op.node) && !op.fault.NoFault?)
    && (reply.Done? ==>
          forall z :: Named(t, z, op.name) ==> s == t.(members := t.members + {Member(z, op.node)}))
    && (reply.ServerError? ==>
          forall z :: Named(t, z, op.name) ==> s == t.(members := t.members - {Member(z, op.node)}))
    && (!reply.Done? && !reply.ServerError? ==> s == t)
  }

  /** Exactly this membership goes, with what cannot stay without it. */
  ghost predicate Parted(t: Tables, z: int, n: int, s: Tables) {
    && s.members == t.members - {Member(z, n)} && s.nodes == t.nodes && s.zones == t.zones && s.users == t.users
    && Remains(t.(members := t.members - {Member(z, n)}), s)
  }

  /** A node leaves at its owner's word. */
  ghost predicate LeaveLaw(t: Tables, op: Op, s: Tables, reply: Reply)
    requires op.LeaveZone?
  {
    var may := Mine(t, op.who.user, op.node) && exists z :: Named(t, z, op.name) && Member(z, op.node) in t.members;
    if may then reply == Done && forall z :: Named(t, z, op.name) ==> Parted(t, z, op.node, s)
    else reply == NotFound && s == t
  }

  /** A member is kicked at the zone owner's word, and at nobody else's. */
  ghost predicate KickLaw(t: Tables, op: Op, s: Tables, reply: Reply)
    requires op.KickMember?
  {
    && (reply.Done? <==> exists z :: Named(t, z, op.name) && t.zones[z].owner == op.who.user &&
                           Member(z, op.node) in t.members)
    && (reply.Forbidden? <==> exists z :: Named(t, z, op.name) && t.zones[z].owner != op.who.user)
    && (reply.NotFound? <==> !reply.Done? && !reply.Forbidden?)
    && (reply.Done? ==> forall z :: Named(t, z, op.name) ==> Parted(t, z, op.node, s))
    && (!reply.Done? ==> s == t)
  }

  ghost predicate DeleteZoneLaw(t: Tables, op: Op, s: Tables, reply: Reply)
    requires op.DeleteZone?
  {
    && (reply.Done? <==> exists z :: Named(t, z, op.name) && t.zones[z].owner == op.who.user)
    && (reply.Forbidden? <==> exists z :: Named(t, z, op.name) && t.zones[z].owner != op.who.user)
    && (reply.NotFound? <==> !exists z :: Named(t, z, op.name))
    && (reply.Done? ==> forall z :: Named(t, z, op.name) ==> Remains(t.(zones := t.zones - {z}), s))
    && (!reply.Done? ==> s == t)
  }

  // ---------------------------------------------------------------- announcements

  /** An announcement is taken back at the word of the node's owner or the zone's. */
  ghost predicate WithdrawLaw(t: Tables, op: Op, s: Tables, reply: Reply)
    requires op.Withdraw?
  {
    var may := exists z ::
      && Named(t, z, op.name) && Link(op.ann, z) in t.links && op.ann in t.anns
      && (Mine(t, op.who.user, t.anns[op.ann].node) || t.zones[z].owner == op.who.user);
    if may then
      && reply == Done
      && forall z :: Named(t, z, op.name) ==>
           s.links == t.links - {Link(op.ann, z)} && Remains(t.(links := t.links - {Link(op.ann, z)}), s)
    else reply == NotFound && s == t
  }

  /** The node has announced this very subnet. */
  ghost predicate HasAnnounced(t: Tables, n: int, subnet: Block, a: int) {
    a in t.anns && t.anns[a].node == n && t.anns[a].Real() == subnet
  }

  /** An aligned block of the pool of this length, disjoint from all that are taken. */
  ghost predicate Vacant(cfg: Config, t: Tables, len: PrefixLen, b: Block) {
    && cfg.pool.Some? && b.prefixLen == len && b.Aligned() && b.Within(BlockFromPrefix(cfg.pool.value))
    && forall a :: a in t.anns ==> !Overlaps(b, t.anns[a].Synthetic())
  }

  ghost predicate FirstVacant(cfg: Config, t: Tables, len: PrefixLen, b: Block) {
    Vacant(cfg, t, len, b) && forall c :: Vacant(cfg, t, len, c) ==> b.base <= c.base
  }

  /** A router's owner, who sees the zone, asks for a subnet that may be announced. */
  ghost predicate MayAsk(cfg: Config, t: Tables, op: Op)
    requires op.Announce?
  {
    && cfg.pool.Some? && Mine(t, op.who.user, op.node) && t.nodes[op.node].platform == "openwrt"
    && (exists z :: Named(t, z, op.name) && Sees(t, op.who.user, z))
    && MayBeAnnounced(cfg, BlockFromPrefix(op.subnet))
  }

  /** How an announcement that may be asked for is granted: again, anew, or not. */
  datatype Grant = Again | Anew | NotThere | Overlapping | Limited | TooLarge | NoRoom

  ghost function Granted(cfg: Config, t: Tables, op: Op): Grant
    requires op.Announce? && cfg.pool.Some?
  {
    var subnet := BlockFromPrefix(op.subnet);
    var mine := set a | a in t.anns && Mine(t, op.who.user, t.anns[a].node);
    if !exists z :: Named(t, z, op.name) && Member(z, op.node) in t.members then NotThere
    else if exists a :: HasAnnounced(t, op.node, subnet, a) then Again
    else if exists a :: a in t.anns && t.anns[a].node == op.node && Overlaps(subnet, t.anns[a].Real()) then Overlapping
    else if AtLimit(op.who, |mine|, cfg.maxSubnets) then Limited
    else if subnet.prefixLen < cfg.pool.value.bits then TooLarge
    else if exists b :: FirstVacant(cfg, t, subnet.prefixLen, b) then Anew
    else NoRoom
  }

  ghost predicate AnnounceLaw(cfg: Config, t: Tables, op: Op, s: Tables, reply: Reply)
    requires op.Announce?
  {
    if MayAsk(cfg, t, op) then GrantLaw(cfg, t, op, s, reply)
    else
      var seen := exists z :: Named(t, z, op.name) && Sees(t, op.who.user, z);
      var mine := Mine(t, op.who.user, op.node);
      && s == t
      && (reply.NotFound? <==> !seen || (cfg.pool.Some? && !mine))
      && (reply.Disabled? <==> seen && cfg.pool.None?)
      && (reply.Unsupported? <==> seen && cfg.pool.Some? && mine && t.nodes[op.node].platform != "openwrt")
      && (reply.Invalid? <==> !reply.NotFound? && !reply.Disabled? && !reply.Unsupported?)
  }

  ghost predicate GrantLaw(cfg: Config, t: Tables, op: Op, s: Tables, reply: Reply)
    requires op.Announce? && cfg.pool.Some?
  {
    var subnet := BlockFromPrefix(op.subnet);
    match Granted(cfg, t, op)
    case NotThere => reply == NotFound && s == t
    case Overlapping => reply == Conflict && s == t
    case Limited => reply == LimitReached && s == t
    case TooLarge => reply == ServerError && s == t
    case NoRoom => reply == Exhausted && s == t
    case Again =>
      forall z, a :: Named(t, z, op.name) && HasAnnounced(t, op.node, subnet, a) ==>
        if Link(a, z) in t.links || op.fault.NoFault?
        then reply == Done && s == t.(links := t.links + {Link(a, z)})
        else reply == ServerError && s == t
    case Anew =>
      var k := t.next.ann;
      var next := t.next.(ann := k + 1);
      if op.fault.NoFault? then
        && reply == Done && k !in t.anns
        && forall z, b :: Named(t, z, op.name) && FirstVacant(cfg, t, subnet.prefixLen, b) ==>
             s == t.(anns := t.anns[k := AnnRow(op.node, subnet.base, subnet.prefixLen, b.base)],
                     links := t.links + {Link(k, z)}, next := next)
      else reply == ServerError && s == t.(next := next)
  }

  // ---------------------------------------------------------------- the law

  ghost predicate Lawful(cfg: Config, t: Tables, op: Op, s: Tables, reply: Reply) {
    match op
    case AddUser(_, _) => AddUserLaw(t, op, s, reply)
    case RegisterNode(_, _, _, _, _) => RegisterLaw(cfg, t, op, s, reply)
    case DeleteNode(_, _) => DeleteNodeLaw(t, op, s, reply)
    case CreateZone(_, _, _, _) => CreateZoneLaw(cfg, t, op, s, reply)
    case JoinZone(_, _, _, _, _) => JoinLaw(t, op, s, reply)
    case LeaveZone(_, _, _) => LeaveLaw(t, op, s, reply)
    case KickMember(_, _, _) => KickLaw(t, op, s, reply)
    case DeleteZone(_, _) => DeleteZoneLaw(t, op, s, reply)
    case Announce(_, _, _, _, _) => AnnounceLaw(cfg, t, op, s, reply)
    case Withdraw(_, _, _) => WithdrawLaw(t, op, s, reply)
    case DeleteUser(_, _) => DeleteUserLaw(t, op, s, reply)
  }

  // ---------------------------------------------------------------- terms of the code

  lemma FoldedIsSame(a: string, b: string)
    ensures Folded(a) == Folded(b) <==> SameName(a, b)
  {
    if Folded(a) == Folded(b) {
      assert |Folded(a)| == |Folded(b)|;
      forall i | 0 <= i < |a| ensures SameLetter(a[i], b[i]) {
        assert Folded(a)[i] == Folded(b)[i];
      }
    }
  }

  lemma NameIsOne(cfg: Config, t: Tables, name: string)
    requires Invariant(cfg, t)
    ensures ZoneNamed(t, name).None? <==> !exists z :: Named(t, z, name)
    ensures ZoneNamed(t, name).Some? ==> forall z :: Named(t, z, name) <==> z == ZoneNamed(t, name).value
  {
    forall z ensures Named(t, z, name) <==> z in ZonesNamed(t, name) {}
    if ZoneNamed(t, name).Some? {
      assert Named(t, ZoneNamed(t, name).value, name);
    } else {
      assert ZonesNamed(t, name) == {};
    }
  }

  lemma SeesIsParticipates(t: Tables, user: int, z: int)
    ensures Sees(t, user, z) <==> Participates(t, z, user)
  {
    if n :| Mine(t, user, n) && Member(z, n) in t.members {
      assert Member(z, n).zone == z && OwnsNode(t, user, Member(z, n).node);
    }
  }

  lemma SettledRemains(raw: Tables)
    ensures Remains(raw, Settle(raw))
  {
    SettleIsConsistent(raw);
    forall u: Tables | Sub(u, raw) && Consistent(u) ensures Sub(u, Settle(raw)) {
      SettleIsLargest(raw, u);
    }
  }

  lemma OneRemains(raw: Tables, s: Tables, v: Tables)
    requires Remains(raw, s) && Remains(raw, v)
    ensures s == v
  {
    hide Consistent, Sub;
    SubAntisymmetric(s, v);
  }

  // ---------------------------------------------------------------- the operations obey

  lemma AddUserObeys(t: Tables, op: Op)
    requires op.AddUser? && Issued(t.users, t.next.user)
    ensures AddUserLaw(t, op, UserAdded(t, op).0, UserAdded(t, op).1)
  {
    hide Folded, SameName;
    forall u | u in t.users ensures Folded(t.users[u].name) == Folded(op.name) <==> SameName(t.users[u].name, op.name) {
      FoldedIsSame(t.users[u].name, op.name);
    }
  }

  lemma DeleteUserObeys(cfg: Config, t: Tables, op: Op)
    requires op.DeleteUser? && Invariant(cfg, t)
    ensures DeleteUserLaw(t, op, UserGone(t, op).0, UserGone(t, op).1)
  {
    hide Remains, Cascade, ReclaimOrphans, RowsProper, Settle;
    DeleteUserSettles(t, op.target);
    SettledRemains(t.(users := t.users - {op.target}));
  }

  lemma DeleteNodeObeys(cfg: Config, t: Tables, op: Op)
    requires op.DeleteNode? && Invariant(cfg, t)
    ensures DeleteNodeLaw(t, op, NodeGone(t, op).0, NodeGone(t, op).1)
  {
    hide Remains, Cascade, RowsProper, Settle;
    DeleteNodeSettles(t, op.node);
    SettledRemains(t.(nodes := t.nodes - {op.node}));
  }

  lemma FreeAddressIs(cfg: Config, t: Tables, a: uint32)
    requires ConfigOk(cfg)
    ensures PoolRange(cfg.network).Some?
    ensures FirstFree(cfg, t, a) <==> LowestIn(UsedIPs(t), PoolRange(cfg.network).value, a)
  {
    hide PoolRange;
    PoolRangeExact(cfg.network);
    var range := PoolRange(cfg.network).value;
    forall c: int ensures FreeAddress(cfg, t, c) <==> FreeIn(UsedIPs(t), range, c) {}
  }

  lemma FullIs(cfg: Config, t: Tables)
    requires ConfigOk(cfg)
    ensures PoolRange(cfg.network).Some?
    ensures var lowest := LowestAddress(UsedIPs(t), PoolRange(cfg.network).value);
            && (lowest.None? <==> !exists a :: FirstFree(cfg, t, a))
            && (lowest.Some? ==> forall a :: FirstFree(cfg, t, a) <==> a == lowest.value)
  {
    hide PoolRange, ConfigOk;
    FreeAddressIs(cfg, t, 0);
    var range := PoolRange(cfg.network).value;
    forall a: uint32 ensures FirstFree(cfg, t, a) <==> LowestIn(UsedIPs(t), range, a) { FreeAddressIs(cfg, t, a); }
    AlignedFits(BlockFromPrefix(cfg.network));
    forall a | FirstFree(cfg, t, a) ensures 0 <= a < SPACE {}
  }

  lemma RegisterObeys(cfg: Config, t: Tables, op: Op)
    requires op.RegisterNode? && Invariant(cfg, t)
    ensures RegisterLaw(cfg, t, op, Registered(cfg, t, op).0, Registered(cfg, t, op).1)
  {
    hide PoolRange, ConfigOk, Consistent, LowestAddress, FirstFree;
    FullIs(cfg, t);
    var user := op.who.user;
    assert NodesOf(t, user) == set n | n in t.nodes && t.nodes[n].user == user;
  }

  lemma CreateZoneObeys(cfg: Config, t: Tables, op: Op)
    requires op.CreateZone? && Invariant(cfg, t)
    ensures CreateZoneLaw(cfg, t, op, ZoneMade(cfg, t, op).0, ZoneMade(cfg, t, op).1)
  {
    hide ConfigOk, Consistent;
    var user := op.who.user;
    assert ZonesOf(t, user) == set z | z in t.zones && t.zones[z].owner == user;
    assert (exists z :: Named(t, z, op.name)) <==> exists z :: z in t.zones && t.zones[z].name == op.name by {
      if z :| z in t.zones && t.zones[z].name == op.name { assert Named(t, z, op.name); }
    }
    assert op.autoJoin.Some? ==> (Mine(t, user, op.autoJoin.value) <==> OwnsNode(t, user, op.autoJoin.value));
    assert t.members + {} == t.members;
  }

  lemma JoinObeys(cfg: Config, t: Tables, op: Op)
    requires op.JoinZone? && Invariant(cfg, t)
    ensures JoinLaw(t, op, Joined(t, op).0, Joined(t, op).1)
  {
    hide Invariant, ZoneNamed;
    NameIsOne(cfg, t, op.name);
  }

  lemma ExpelledParted(cfg: Config, t: Tables, z: int, n: int)
    requires Invariant(cfg, t)
    ensures Parted(t, z, n, Expelled(t, z, n))
  {
    hide Remains, Settle, Cascade, RowsProper;
    LeaveSettles(t, z, n);
    SettledRemains(t.(members := t.members - {Member(z, n)}));
  }

  lemma LeaveObeys(cfg: Config, t: Tables, op: Op)
    requires op.LeaveZone? && Invariant(cfg, t)
    ensures LeaveLaw(t, op, Left(t, op).0, Left(t, op).1)
  {
    hide Invariant, ZoneNamed, Parted, Expelled;
    NameIsOne(cfg, t, op.name);
    if ZoneNamed(t, op.name).Some? { ExpelledParted(cfg, t, ZoneNamed(t, op.name).value, op.node); }
  }

  lemma KickObeys(cfg: Config, t: Tables, op: Op)
    requires op.KickMember? && Invariant(cfg, t)
    ensures KickLaw(t, op, Kicked(t, op).0, Kicked(t, op).1)
  {
    hide ConfigOk, RowsProper, ZoneNamed, Parted, Expelled;
    NameIsOne(cfg, t, op.name);
    if ZoneNamed(t, op.name).Some? { ExpelledParted(cfg, t, ZoneNamed(t, op.name).value, op.node); }
  }

  lemma DeleteZoneObeys(cfg: Config, t: Tables, op: Op)
    requires op.DeleteZone? && Invariant(cfg, t)
    ensures DeleteZoneLaw(t, op, ZoneGone(t, op).0, ZoneGone(t, op).1)
  {
    hide ConfigOk, RowsProper, Consistent, ZoneNamed, Remains, Settle, Cascade, Unlink;
    NameIsOne(cfg, t, op.name);
    if ZoneNamed(t, op.name).Some? {
      var z := ZoneNamed(t, op.name).value;
      DeleteZoneSettles(t, z);
      SettledRemains(t.(zones := t.zones - {z}));
    }
  }

  lemma WithdrawObeys(cfg: Config, t: Tables, op: Op)
    requires op.Withdraw? && Invariant(cfg, t)
    ensures WithdrawLaw(t, op, Withdrawn(t, op).0, Withdrawn(t, op).1)
  {
    hide ConfigOk, RowsProper, ZoneNamed, Remains, Settle, Unlink;
    NameIsOne(cfg, t, op.name);
    if ZoneNamed(t, op.name).Some? {
      var z := ZoneNamed(t, op.name).value;
      DetachSettles(t, {Link(op.ann, z)});
      SettledRemains(t.(links := t.links - {Link(op.ann, z)}));
      UnlinkedLinks(t, {Link(op.ann, z)});
      AttachedParticipates(t, op.who.user, op.ann, z);
    }
  }

  lemma UnlinkedLinks(t: Tables, gone: set<Link>)
    ensures Unlink(t, gone).links == t.links - gone
  {}

  /** Whoever may take an announcement back sees its zone. */
  lemma AttachedParticipates(t: Tables, user: int, a: int, z: int)
    requires Consistent(t)
    ensures Link(a, z) in t.links ==> a in t.anns && t.anns[a].node in t.nodes && z in t.zones
    ensures Link(a, z) in t.links && (OwnsNode(t, user, t.anns[a].node) || t.zones[z].owner == user) ==>
              Participates(t, z, user)
  {
    if Link(a, z) in t.links {
      assert Member(z, t.anns[a].node) in t.members && Member(z, t.anns[a].node).zone == z;
    }
  }

  // ---------------------------------------------------------------- announcing obeys

  lemma MayAskIs(cfg: Config, t: Tables, op: Op)
    requires op.Announce? && Invariant(cfg, t)
    ensures var zone := ZoneNamed(t, op.name);
            && ((exists z :: Named(t, z, op.name) && Sees(t, op.who.user, z)) <==>
                zone.Some? && Participates(t, zone.value, op.who.user))
            && (Announceable(cfg, BlockFromPrefix(op.subnet)) <==> MayBeAnnounced(cfg, BlockFromPrefix(op.subnet)))
  {
    hide Invariant, ZoneNamed, Announceable, MayBeAnnounced, Sees, Participates;
    NameIsOne(cfg, t, op.name);
    AnnounceableMeans(cfg, BlockFromPrefix(op.subnet));
    forall z ensures Sees(t, op.who.user, z) <==> Participates(t, z, op.who.user) {
      SeesIsParticipates(t, op.who.user, z);
    }
  }

  lemma VacantIs(cfg: Config, t: Tables, len: PrefixLen, b: Block)
    requires cfg.pool.Some?
    ensures FirstVacant(cfg, t, len, b) <==> LowestFit(cfg.pool.value, len, UsedSynthetics(t), b)
  {
    forall c: Block ensures Vacant(cfg, t, len, c) <==> Fits(cfg.pool.value, len, UsedSynthetics(t), c) {
      if Vacant(cfg, t, len, c) {
        forall u | u in UsedSynthetics(t) ensures !Overlaps(c, u) {}
      }
      if Fits(cfg.pool.value, len, UsedSynthetics(t), c) {
        forall a | a in t.anns ensures !Overlaps(c, t.anns[a].Synthetic()) {
          assert t.anns[a].Synthetic() in UsedSynthetics(t);
        }
      }
    }
  }

  lemma RoomIs(cfg: Config, t: Tables, len: PrefixLen)
    requires cfg.pool.Some?
    ensures var r := LowestFree(cfg.pool.value, len, UsedSynthetics(t));
            && (r.BadLength? <==> len < cfg.pool.value.bits)
            && (r.NoSpace? <==> len >= cfg.pool.value.bits && !exists b :: FirstVacant(cfg, t, len, b))
            && (r.Allocated? ==> FirstVacant(cfg, t, len, r.block))
            && (r.Allocated? ==> forall b :: FirstVacant(cfg, t, len, b) ==> b == r.block)
  {
    hide LowestFit, FirstVacant, UsedSynthetics;
    var used := UsedSynthetics(t);
    forall b: Block ensures FirstVacant(cfg, t, len, b) <==> LowestFit(cfg.pool.value, len, used, b) {
      VacantIs(cfg, t, len, b);
    }
    var r := LowestFree(cfg.pool.value, len, used);
    if r.Allocated? {
      forall b | FirstVacant(cfg, t, len, b) ensures b == r.block {
        LowestFitUnique(cfg.pool.value, len, used, b, r.block);
      }
    }
  }

  /** What the transaction does follows the grant. */
  lemma GrantIs(cfg: Config, t: Tables, op: Op, zone: int)
    requires op.Announce? && cfg.pool.Some? && Invariant(cfg, t)
    requires forall z :: Named(t, z, op.name) <==> z == zone
    requires OwnsNode(t, op.who.user, op.node)
    ensures var subnet := BlockFromPrefix(op.subnet);
            var limit := Cap(op.who, cfg.maxSubnets);
            var (s, r) := CreatedAnn(t, op.who.user, op.node, subnet, zone, limit, cfg.pool.value);
            match Granted(cfg, t, op)
            case NotThere => r == NotMember && s == t
            case Overlapping => r == SubnetOverlap && s == t
            case Limited => r == AnnounceLimit && s == t
            case TooLarge => r == BadSize && s == t
            case NoRoom => r == SyntheticExhausted && s == t
            case Again =>
              && r.Announced? && HasAnnounced(t, op.node, subnet, r.ann)
              && (r.attached <==> Link(r.ann, zone) !in t.links)
              && s == t.(links := t.links + {Link(r.ann, zone)})
            case Anew =>
              var k := t.next.ann;
              && r.Announced? && r.attached && r.ann == k
              && exists b :: FirstVacant(cfg, t, subnet.prefixLen, b)
                   && s == InsertAnn(t, AnnRow(op.node, subnet.base, subnet.prefixLen, b.base), zone)
  {
    hide Invariant, FirstVacant, LowestFree, Overlaps, UsedSynthetics;
    var subnet := BlockFromPrefix(op.subnet);
    RoomIs(cfg, t, subnet.prefixLen);
    assert AnnsFor(t, op.node, subnet) != {} <==> exists a :: HasAnnounced(t, op.node, subnet, a) by {
      if a :| HasAnnounced(t, op.node, subnet, a) { assert a in AnnsFor(t, op.node, subnet); }
      if AnnsFor(t, op.node, subnet) != {} {
        assert HasAnnounced(t, op.node, subnet, Pick(AnnsFor(t, op.node, subnet)));
      }
    }
    assert AnnsOf(t, op.who.user) == set a | a in t.anns && Mine(t, op.who.user, t.anns[a].node);
  }

  lemma VacantOnce(cfg: Config, t: Tables, len: PrefixLen)
    ensures forall b, c :: FirstVacant(cfg, t, len, b) && FirstVacant(cfg, t, len, c) ==> b == c
  {}

  /** A node announces a subnet once. */
  lemma AnnouncedOnce(cfg: Config, t: Tables, n: int, subnet: Block, a: int, c: int)
    requires Invariant(cfg, t) && HasAnnounced(t, n, subnet, a) && HasAnnounced(t, n, subnet, c)
    ensures a == c
  {
    hide ConfigOk, Consistent;
    if a != c {
      OverlapsIffShared(subnet, subnet);
    }
  }

  lemma AnnounceObeys(cfg: Config, t: Tables, op: Op)
    requires op.Announce? && Invariant(cfg, t)
    ensures AnnounceLaw(cfg, t, op, Advertised(cfg, t, op).0, Advertised(cfg, t, op).1)
  {
    hide Invariant, ZoneNamed, Announceable, MayBeAnnounced, Sees, Participates, Granted, CreatedAnn, FirstVacant;
    NameIsOne(cfg, t, op.name);
    MayAskIs(cfg, t, op);
    if MayAsk(cfg, t, op) {
      GrantIs(cfg, t, op, ZoneNamed(t, op.name).value);
      GrantObeys(cfg, t, op, ZoneNamed(t, op.name).value);
    }
  }

  lemma GrantObeys(cfg: Config, t: Tables, op: Op, zone: int)
    requires op.Announce? && cfg.pool.Some? && Invariant(cfg, t)
    requires forall z :: Named(t, z, op.name) <==> z == zone
    requires OwnsNode(t, op.who.user, op.node)
    ensures var (s, r) := CreatedAnn(t, op.who.user, op.node, BlockFromPrefix(op.subnet), zone,
                                     Cap(op.who, cfg.maxSubnets), cfg.pool.value);
            var (u, reply) := Concluded(t, s, r, op.fault);
            GrantLaw(cfg, t, op, u, reply)
  {
    hide CreatedAnn, Granted, FirstVacant, ConfigOk, Consistent;
    GrantIs(cfg, t, op, zone);
    var subnet := BlockFromPrefix(op.subnet);
    forall a, c | HasAnnounced(t, op.node, subnet, a) && HasAnnounced(t, op.node, subnet, c) ensures a == c {
      AnnouncedOnce(cfg, t, op.node, subnet, a, c);
    }
    VacantOnce(cfg, t, subnet.prefixLen);
  }

  /** Every operation obeys its law: who may do it, what it answers, and what becomes of every row. */
  lemma NextIsLawful(cfg: Config, t: Tables, op: Op)
    requires Invariant(cfg, t)
    ensures Lawful(cfg, t, op, Next(cfg, t, op).0, Next(cfg, t, op).1)
  {
    hide Invariant, UserAdded, Registered, NodeGone, ZoneMade, Joined, Left, Kicked, ZoneGone, Advertised, Withdrawn;
    hide UserGone, AddUserLaw, RegisterLaw, DeleteNodeLaw, CreateZoneLaw, JoinLaw, LeaveLaw, KickLaw, DeleteZoneLaw;
    hide AnnounceLaw, WithdrawLaw, DeleteUserLaw;
    IdsIssued(cfg, t);
    match op {
      case AddUser(_, _) => AddUserObeys(t, op);
      case RegisterNode(_, _, _, _, _) => RegisterObeys(cfg, t, op);
      case DeleteNode(_, _) => DeleteNodeObeys(cfg, t, op);
      case CreateZone(_, _, _, _) => CreateZoneObeys(cfg, t, op);
      case JoinZone(_, _, _, _, _) => JoinObeys(cfg, t, op);
      case LeaveZone(_, _, _) => LeaveObeys(cfg, t, op);
      case KickMember(_, _, _) => KickObeys(cfg, t, op);
      case DeleteZone(_, _) => DeleteZoneObeys(cfg, t, op);
      case Announce(_, _, _, _, _) => AnnounceObeys(cfg, t, op);
      case Withdraw(_, _, _) => WithdrawObeys(cfg, t, op);
      case DeleteUser(_, _) => DeleteUserObeys(cfg, t, op);
    }
  }

  lemma IdsIssued(cfg: Config, t: Tables)
    requires Invariant(cfg, t)
    ensures Issued(t.users, t.next.user)
  {}

  // ---------------------------------------------------------------- the law leaves nothing open

  lemma RemainingIsOne(raw: Tables)
    ensures forall s: Tables, v: Tables :: Remains(raw, s) && Remains(raw, v) ==> s == v
  {
    hide Remains;
    forall s: Tables, v: Tables | Remains(raw, s) && Remains(raw, v) ensures s == v { OneRemains(raw, s, v); }
  }

  /** The zone a name means, if any. */
  lemma NamedOnce(cfg: Config, t: Tables, name: string) returns (zone: Option<int>)
    requires Invariant(cfg, t)
    ensures forall z :: Named(t, z, name) <==> zone == Some(z)
  {
    NameIsOne(cfg, t, name);
    zone := ZoneNamed(t, name);
    if zone.Some? {
      assert Named(t, zone.value, name);
    }
  }

  lemma OnePartingEach(t: Tables, z: int, n: int)
    ensures forall s: Tables, v: Tables :: Parted(t, z, n, s) && Parted(t, z, n, v) ==> s == v
  {
    hide Remains;
    RemainingIsOne(t.(members := t.members - {Member(z, n)}));
  }

  lemma UsersFixed(t: Tables, op: Op, s: Tables, r: Reply, v: Tables, q: Reply)
    requires op.AddUser? || op.DeleteUser? || op.DeleteNode?
    requires op.AddUser? ==> AddUserLaw(t, op, s, r) && AddUserLaw(t, op, v, q)
    requires op.DeleteUser? ==> DeleteUserLaw(t, op, s, r) && DeleteUserLaw(t, op, v, q)
    requires op.DeleteNode? ==> DeleteNodeLaw(t, op, s, r) && DeleteNodeLaw(t, op, v, q)
    ensures s == v && r == q
  {
    hide Remains;
    if op.DeleteUser? { RemainingIsOne(t.(users := t.users - {op.target})); }
    if op.DeleteNode? { RemainingIsOne(t.(nodes := t.nodes - {op.node})); }
  }

  lemma RegistrationFixed(cfg: Config, t: Tables, op: Op, s: Tables, r: Reply, v: Tables, q: Reply)
    requires ConfigOk(cfg) && op.RegisterNode? && RegisterLaw(cfg, t, op, s, r) && RegisterLaw(cfg, t, op, v, q)
    ensures s == v && r == q
  {
    hide FirstFree, ConfigOk, LowestAddress;
    FullIs(cfg, t);
    assert r == q;
  }

  lemma CreationFixed(cfg: Config, t: Tables, op: Op, s: Tables, r: Reply, v: Tables, q: Reply)
    requires op.CreateZone? && CreateZoneLaw(cfg, t, op, s, r) && CreateZoneLaw(cfg, t, op, v, q)
    ensures s == v && r == q
  {}

  lemma MembershipFixed(cfg: Config, t: Tables, op: Op, s: Tables, r: Reply, v: Tables, q: Reply)
    requires Invariant(cfg, t) && (op.JoinZone? || op.LeaveZone? || op.KickMember? || op.DeleteZone?)
    requires op.JoinZone? ==> JoinLaw(t, op, s, r) && JoinLaw(t, op, v, q)
    requires op.LeaveZone? ==> LeaveLaw(t, op, s, r) && LeaveLaw(t, op, v, q)
    requires op.KickMember? ==> KickLaw(t, op, s, r) && KickLaw(t, op, v, q)
    requires op.DeleteZone? ==> DeleteZoneLaw(t, op, s, r) && DeleteZoneLaw(t, op, v, q)
    ensures s == v && r == q
  {
    hide Named, Parted, Remains, Invariant;
    var zone := NamedOnce(cfg, t, op.name);
    if zone.Some? && (op.LeaveZone? || op.KickMember?) { OnePartingEach(t, zone.value, op.node); }
    if zone.Some? && op.DeleteZone? { RemainingIsOne(t.(zones := t.zones - {zone.value})); }
  }

  lemma WithdrawalFixed(cfg: Config, t: Tables, op: Op, s: Tables, r: Reply, v: Tables, q: Reply)
    requires Invariant(cfg, t) && op.Withdraw? && WithdrawLaw(t, op, s, r) && WithdrawLaw(t, op, v, q)
    ensures s == v && r == q
  {
    hide Remains, Invariant, ConfigOk;
    var zone := NamedOnce(cfg, t, op.name);
    if zone.Some? { RemainingIsOne(t.(links := t.links - {Link(op.ann, zone.value)})); }
  }

  lemma AnnouncementFixed(cfg: Config, t: Tables, op: Op, s: Tables, r: Reply, v: Tables, q: Reply)
    requires op.Announce? && AnnounceLaw(cfg, t, op, s, r) && AnnounceLaw(cfg, t, op, v, q)
    ensures s == v && r == q
  {
    hide Named, Sees, MayBeAnnounced, GrantLaw;
    if MayAsk(cfg, t, op) {
      GrantFixed(cfg, t, op, s, r, v, q);
    }
  }

  lemma GrantFixed(cfg: Config, t: Tables, op: Op, s: Tables, r: Reply, v: Tables, q: Reply)
    requires op.Announce? && cfg.pool.Some? && GrantLaw(cfg, t, op, s, r) && GrantLaw(cfg, t, op, v, q)
    ensures s == v && r == q
  {
    hide Named, FirstVacant, HasAnnounced, Granted;
    GrantWitnessed(cfg, t, op);
    var subnet := BlockFromPrefix(op.subnet);
    if Granted(cfg, t, op).Again? {
      var z :| Named(t, z, op.name);
      var a :| HasAnnounced(t, op.node, subnet, a);
    } else if Granted(cfg, t, op).Anew? {
      var z :| Named(t, z, op.name);
      var b :| FirstVacant(cfg, t, subnet.prefixLen, b);
    }
  }

  /** A grant has its zone, and its announcement or its block. */
  lemma GrantWitnessed(cfg: Config, t: Tables, op: Op)
    requires op.Announce? && cfg.pool.Some?
    ensures var subnet := BlockFromPrefix(op.subnet);
            && (Granted(cfg, t, op).Again? || Granted(cfg, t, op).Anew? ==> exists z :: Named(t, z, op.name))
            && (Granted(cfg, t, op).Again? ==> exists a :: HasAnnounced(t, op.node, subnet, a))
            && (Granted(cfg, t, op).Anew? ==> exists b :: FirstVacant(cfg, t, subnet.prefixLen, b))
  {
    hide FirstVacant, HasAnnounced, Overlaps, AtLimit;
  }

  /** With the operations' obedience: an operation does what the law says, and nothing else obeys. */
  lemma LawIsComplete(cfg: Config, t: Tables, op: Op, s: Tables, r: Reply)
    requires Invariant(cfg, t)
    ensures Lawful(cfg, t, op, s, r) <==> (s, r) == Next(cfg, t, op)
  {
    hide Invariant, Next, AddUserLaw, RegisterLaw, DeleteNodeLaw, CreateZoneLaw, JoinLaw, LeaveLaw, KickLaw;
    hide DeleteZoneLaw, AnnounceLaw, WithdrawLaw, DeleteUserLaw;
    NextIsLawful(cfg, t, op);
    if Lawful(cfg, t, op, s, r) {
      var (v, q) := Next(cfg, t, op);
      ConfigIsOk(cfg, t);
      match op {
        case AddUser(_, _) => UsersFixed(t, op, s, r, v, q);
        case DeleteUser(_, _) => UsersFixed(t, op, s, r, v, q);
        case DeleteNode(_, _) => UsersFixed(t, op, s, r, v, q);
        case RegisterNode(_, _, _, _, _) => RegistrationFixed(cfg, t, op, s, r, v, q);
        case CreateZone(_, _, _, _) => CreationFixed(cfg, t, op, s, r, v, q);
        case Announce(_, _, _, _, _) => AnnouncementFixed(cfg, t, op, s, r, v, q);
        case Withdraw(_, _, _) => WithdrawalFixed(cfg, t, op, s, r, v, q);
        case _ => MembershipFixed(cfg, t, op, s, r, v, q);
      }
    }
  }

  lemma ConfigIsOk(cfg: Config, t: Tables)
    requires Invariant(cfg, t)
    ensures ConfigOk(cfg)
  {}

  // ---------------------------------------------------------------- who may

  /** Whose word an operation needs. */
  ghost predicate Entitled(t: Tables, op: Op) {
    match op
    case AddUser(_, _) => true
    case RegisterNode(who, _, _, _, _) => who.user in t.users
    case DeleteNode(who, node) => Mine(t, who.user, node)
    case CreateZone(who, _, autoJoin, _) =>
      who.user in t.users && (autoJoin.Some? ==> Mine(t, who.user, autoJoin.value))
    case JoinZone(who, _, passwordOk, node, _) => passwordOk && Mine(t, who.user, node)
    case LeaveZone(who, _, node) => Mine(t, who.user, node)
    case KickMember(who, name, _) => exists z :: Named(t, z, name) && t.zones[z].owner == who.user
    case DeleteZone(who, name) => exists z :: Named(t, z, name) && t.zones[z].owner == who.user
    case Announce(who, _, node, _, _) => Mine(t, who.user, node) && t.nodes[node].platform == "openwrt"
    case Withdraw(who, name, ann) =>
      ann in t.anns && (Mine(t, who.user, t.anns[ann].node) ||
                        exists z :: Named(t, z, name) && t.zones[z].owner == who.user)
    case DeleteUser(who, target) => who.isAdmin && who.user != target
  }

  /** Nothing changes, and nothing is reported done, but at the word of whoever is entitled. */
  lemma OnlyTheEntitled(cfg: Config, t: Tables, op: Op, s: Tables, reply: Reply)
    requires Lawful(cfg, t, op, s, reply) && (s != t || reply.Done?)
    ensures Entitled(t, op)
  {
    hide Parted, Remains, GrantLaw, FirstFree, Sees, MayBeAnnounced;
  }
}
