/** What each deletion changes in the derived state: the facts that let a handler get away with
    touching only a few set elements and a few peers. */
module Effects {
  import opened Cidr
  import opened Common
  import opened Schema
  import opened Netfw
  import opened Derive
  import opened Store

  /** The part of the invariant the derived state depends on. */
  ghost predicate Proper(t: Tables) {
    Consistent(t) && UniqueNodes(t.nodes) && BlocksDisjoint(t.anns)
  }

  function At<V>(pairs: set<(int, V)>, z: int): set<V> {
    set p | p in pairs && p.0 == z :: p.1
  }

  /** Members sets after removing some (zone, address) elements. */
  function MinusMembers(sets: map<int, set<uint32>>, gone: set<(int, uint32)>): map<int, set<uint32>> {
    map z | z in sets :: sets[z] - At(gone, z)
  }

  /** Routes sets after removing some (zone, block) elements. */
  ghost function MinusRoutes(sets: map<int, set<Interval>>, gone: set<(int, Block)>): map<int, set<Interval>> {
    map z | z in sets :: sets[z] - Ranges(At(gone, z))
  }

  /** The surviving zones' sets lost exactly the given elements. */
  ghost predicate Lost(t: Tables, s: Tables, mem: set<(int, uint32)>, rts: set<(int, Block)>) {
    && s.zones.Keys <= t.zones.Keys
    && forall z :: z in s.zones ==>
         && MemberIPs(s, z) == MemberIPs(t, z) - At(mem, z)
         && Ranges(ZoneRoutes(s, z)) == Ranges(ZoneRoutes(t, z)) - Ranges(At(rts, z))
  }

  lemma SetsFollow(t: Tables, s: Tables, mem: set<(int, uint32)>, rts: set<(int, Block)>)
    requires Lost(t, s, mem, rts)
    ensures DerivedMembers(s) == MinusMembers(DerivedMembers(t), mem) - (t.zones.Keys - s.zones.Keys)
    ensures DerivedRoutes(s) == MinusRoutes(DerivedRoutes(t), rts) - (t.zones.Keys - s.zones.Keys)
  {
    assert t.zones.Keys - (t.zones.Keys - s.zones.Keys) == s.zones.Keys;
  }

  lemma NodeRoutesKept(t: Tables, s: Tables, n: int)
    requires Sub(s, t)
    requires forall a :: a in t.anns && t.anns[a].node == n ==> a in s.anns
    ensures NodeRoutes(s, n) == NodeRoutes(t, n)
  {}

  /** Removing attachments touches only the announcements they belong to. */
  lemma UnlinkTouches(t: Tables, gone: set<Link>, n: int)
    requires forall l :: l in gone && l.ann in t.anns && t.anns[l.ann].node == n ==> l.ann in Unlink(t, gone).anns
    ensures NodeRoutes(Unlink(t, gone), n) == NodeRoutes(t, n)
  {
    forall a | a in t.anns && t.anns[a].node == n ensures a in Unlink(t, gone).anns {
      if Mentions(gone, a) {
        var l :| l in gone && l.ann == a;
      }
    }
    NodeRoutesKept(t, Unlink(t, gone), n);
  }

  /** If none of the detachments reclaimed an announcement of n, n's routes are what they were. */
  lemma NothingReclaimed(t: Tables, s: Tables, gone: set<Link>, dets: seq<ZoneDetachment>, n: int)
    requires Unlink(t, gone) == s && Detachments(t, s, gone, dets)
    requires forall d :: d in dets && d.node == n ==> !d.reclaimed
    ensures NodeRoutes(s, n) == NodeRoutes(t, n)
  {
    forall l | l in gone && l.ann in t.anns && t.anns[l.ann].node == n ensures l.ann in s.anns {
      var d :| d in dets && d.ann == l.ann && d.zone == l.zone;
      assert Describes(t, Link(d.ann, d.zone), d);
    }
    UnlinkTouches(t, gone, n);
  }

  // ---------------------------------------------------------------- leave and kick

  lemma ExpelEffect(t: Tables, zone: int, node: int, s: Tables, rts: set<(int, Block)>)
    requires Proper(t) && node in t.nodes
    requires s == Settle(t.(members := t.members - {Member(zone, node)}))
    requires rts == set l | l in NodeZoneLinks(t, zone, node) && l.ann in t.anns :: (zone, t.anns[l.ann].Synthetic())
    ensures Sub(s, t) && s.zones == t.zones && s.nodes == t.nodes
    ensures Lost(t, s, {(zone, t.nodes[node].ip)}, rts)
  {
    ExpelShape(t, zone, node, s);
    var mem := {(zone, t.nodes[node].ip)};
    forall z | z in s.zones
      ensures MemberIPs(s, z) == MemberIPs(t, z) - At(mem, z)
      ensures Ranges(ZoneRoutes(s, z)) == Ranges(ZoneRoutes(t, z)) - Ranges(At(rts, z))
    {
      if z == zone {
        ExpelledZone(t, zone, node, s, rts);
        assert At(mem, z) == {t.nodes[node].ip};
      } else {
        ZoneUnchanged(t, s, z);
        assert At(rts, z) == {} && At(mem, z) == {};
      }
    }
  }

  lemma ExpelShape(t: Tables, zone: int, node: int, s: Tables)
    requires Consistent(t) && s == Settle(t.(members := t.members - {Member(zone, node)}))
    ensures Consistent(s) && Sub(s, t) && s.zones == t.zones && s.nodes == t.nodes
    ensures s.members == t.members - {Member(zone, node)}
    ensures s.links == t.links - NodeZoneLinks(t, zone, node)
  {
    var left := t.(members := t.members - {Member(zone, node)});
    LeaveSettles(t, zone, node);
    SettleIsConsistent(left);
    assert NodeZoneLinks(left, zone, node) == NodeZoneLinks(t, zone, node);
  }

  lemma ExpelledZone(t: Tables, zone: int, node: int, s: Tables, rts: set<(int, Block)>)
    requires Proper(t) && Consistent(s) && Sub(s, t) && node in t.nodes && s.nodes == t.nodes
    requires s.members == t.members - {Member(zone, node)}
    requires s.links == t.links - NodeZoneLinks(t, zone, node)
    requires rts == set l | l in NodeZoneLinks(t, zone, node) && l.ann in t.anns :: (zone, t.anns[l.ann].Synthetic())
    ensures MemberIPs(s, zone) == MemberIPs(t, zone) - {t.nodes[node].ip}
    ensures Ranges(ZoneRoutes(s, zone)) == Ranges(ZoneRoutes(t, zone)) - Ranges(At(rts, zone))
  {
    MembersShrink(t, s, zone, {node});
    assert (set n | n in {node} && n in t.nodes :: t.nodes[n].ip) == {t.nodes[node].ip};
    var anns := set l | l in NodeZoneLinks(t, zone, node) :: l.ann;
    forall a | Link(a, zone) in t.links && a in t.anns
      ensures a in anns <==> !(Link(a, zone) in s.links && a in s.anns) {
      assert a in anns <==> Link(a, zone) in NodeZoneLinks(t, zone, node);
    }
    RoutesShrink(t, s, zone, anns);
    forall b ensures b in At(rts, zone) <==> b in Synthetics(t, anns) {
      if b in At(rts, zone) {
        assert (zone, b) in rts;
      }
      if b in Synthetics(t, anns) {
        var a :| a in anns && a in t.anns && t.anns[a].Synthetic() == b;
        assert Link(a, zone) in NodeZoneLinks(t, zone, node);
        assert (zone, b) in rts;
      }
    }
  }

  // ---------------------------------------------------------------- one attachment

  lemma WithdrawEffect(t: Tables, l: Link, s: Tables)
    requires Proper(t) && l in t.links && l.ann in t.anns
    requires s == Unlink(t, {l})
    ensures Sub(s, t) && s.zones == t.zones && s.nodes == t.nodes
    ensures Lost(t, s, {}, {(l.zone, t.anns[l.ann].Synthetic())})
    ensures forall n :: (l.ann in s.anns || n != t.anns[l.ann].node) ==> NodeRoutes(s, n) == NodeRoutes(t, n)
  {
    DetachSettles(t, {l});
    SettleIsConsistent(t.(links := t.links - {l}));
    var rts := {(l.zone, t.anns[l.ann].Synthetic())};
    forall z | z in s.zones
      ensures MemberIPs(s, z) == MemberIPs(t, z) - At({}, z)
      ensures Ranges(ZoneRoutes(s, z)) == Ranges(ZoneRoutes(t, z)) - Ranges(At(rts, z))
    {
      WithdrawnZone(t, l, s, z, rts);
    }
    forall n | l.ann in s.anns || n != t.anns[l.ann].node ensures NodeRoutes(s, n) == NodeRoutes(t, n) {
      UnlinkTouches(t, {l}, n);
    }
  }

  lemma WithdrawnZone(t: Tables, l: Link, s: Tables, z: int, rts: set<(int, Block)>)
    requires Proper(t) && Consistent(s) && Sub(s, t) && l in t.links && l.ann in t.anns
    requires s.links == t.links - {l} && s.members == t.members && s.nodes == t.nodes
    requires rts == {(l.zone, t.anns[l.ann].Synthetic())}
    ensures MemberIPs(s, z) == MemberIPs(t, z)
    ensures Ranges(ZoneRoutes(s, z)) == Ranges(ZoneRoutes(t, z)) - Ranges(At(rts, z))
  {}

  // ---------------------------------------------------------------- zones and nodes

  lemma DeleteZoneEffect(t: Tables, zone: int, s: Tables)
    requires Proper(t) && s == Settle(t.(zones := t.zones - {zone}))
    ensures Sub(s, t) && s.zones.Keys == t.zones.Keys - {zone} && s.nodes == t.nodes
    ensures s.anns == Unlink(t, ZoneLinks(t, zone)).anns
    ensures Lost(t, s, {}, {})
  {
    DeleteZoneShape(t, zone, s);
    forall z | z in s.zones
      ensures MemberIPs(s, z) == MemberIPs(t, z) - At({}, z)
      ensures Ranges(ZoneRoutes(s, z)) == Ranges(ZoneRoutes(t, z)) - Ranges(At({}, z))
    {
      ZoneUnchanged(t, s, z);
    }
  }

  lemma DeleteZoneShape(t: Tables, zone: int, s: Tables)
    requires Consistent(t) && s == Settle(t.(zones := t.zones - {zone}))
    ensures Consistent(s) && Sub(s, t) && s.zones.Keys == t.zones.Keys - {zone} && s.nodes == t.nodes
    ensures s.members == (set m | m in t.members && m.zone != zone) && s.links == t.links - ZoneLinks(t, zone)
    ensures s.anns == Unlink(t, ZoneLinks(t, zone)).anns
  {
    var raw := t.(zones := t.zones - {zone});
    var u := Unlink(t, ZoneLinks(t, zone));
    DeleteZoneSettles(t, zone);
    DetachSettles(t, ZoneLinks(t, zone));
    SettleIsConsistent(t.(links := t.links - ZoneLinks(t, zone)));
    SettleIsConsistent(raw);
    assert s.nodes == t.nodes;
    assert s.anns == u.anns;
    assert s.links == u.links;
  }

  lemma DeleteNodeEffect(t: Tables, node: int, s: Tables, mem: set<(int, uint32)>, rts: set<(int, Block)>)
    requires Proper(t) && node in t.nodes && s == Settle(t.(nodes := t.nodes - {node}))
    requires mem == set m | m in t.members && m.node == node :: (m.zone, t.nodes[node].ip)
    requires rts == set l | l in t.links && l.ann in t.anns
                          && t.anns[l.ann].node == node :: (l.zone, t.anns[l.ann].Synthetic())
    ensures Sub(s, t) && s.zones == t.zones && s.nodes == t.nodes - {node}
    ensures Lost(t, s, mem, rts)
    ensures forall n :: n != node ==> NodeRoutes(s, n) == NodeRoutes(t, n)
  {
    var raw := t.(nodes := t.nodes - {node});
    DeleteNodeSettles(t, node);
    SettleIsConsistent(raw);
    assert Cascade(raw).zones == t.zones by {
      assert forall z :: z in t.zones ==> t.zones[z].owner in t.users;
    }
    assert Cascade(raw).nodes == raw.nodes by {
      assert forall n :: n in raw.nodes ==> raw.nodes[n].user in t.users;
      assert forall n :: n in Cascade(raw).nodes <==> n in raw.nodes;
    }
    forall z | z in s.zones
      ensures MemberIPs(s, z) == MemberIPs(t, z) - At(mem, z)
      ensures Ranges(ZoneRoutes(s, z)) == Ranges(ZoneRoutes(t, z)) - Ranges(At(rts, z))
    {
      NodeLeavesZone(t, s, node, z, mem);
      NodeRoutesLeaveZone(t, s, node, z, rts);
    }
    forall n | n != node ensures NodeRoutes(s, n) == NodeRoutes(t, n) {
      NodeRoutesKept(t, s, n);
    }
  }

  lemma NodeLeavesZone(t: Tables, s: Tables, node: int, z: int, mem: set<(int, uint32)>)
    requires Proper(t) && Sub(s, t) && node in t.nodes && z in s.zones
    requires s == Cascade(t.(nodes := t.nodes - {node}))
    requires mem == set m | m in t.members && m.node == node :: (m.zone, t.nodes[node].ip)
    ensures MemberIPs(s, z) == MemberIPs(t, z) - At(mem, z)
  {
    if Member(z, node) in t.members {
      MembersShrink(t, s, z, {node});
      assert At(mem, z) == {t.nodes[node].ip} by {
        assert (z, t.nodes[node].ip) in mem;
      }
      assert (set n | n in {node} && n in t.nodes :: t.nodes[n].ip) == {t.nodes[node].ip};
    } else {
      MembersShrink(t, s, z, {});
      assert At(mem, z) == {};
    }
  }

  lemma NodeRoutesLeaveZone(t: Tables, s: Tables, node: int, z: int, rts: set<(int, Block)>)
    requires Proper(t) && Sub(s, t) && z in s.zones
    requires s == Cascade(t.(nodes := t.nodes - {node}))
    requires rts == set l | l in t.links && l.ann in t.anns
                          && t.anns[l.ann].node == node :: (l.zone, t.anns[l.ann].Synthetic())
    ensures Ranges(ZoneRoutes(s, z)) == Ranges(ZoneRoutes(t, z)) - Ranges(At(rts, z))
  {
    var left := set l | l in t.links && l.zone == z && l.ann in t.anns && t.anns[l.ann].node == node :: l.ann;
    forall a | Link(a, z) in t.links && a in t.anns ensures a in left <==> !(Link(a, z) in s.links && a in s.anns) {
      assert a in left <==> t.anns[a].node == node by {
        if t.anns[a].node == node { assert Link(a, z).ann == a; }
      }
    }
    RoutesShrink(t, s, z, left);
    forall b ensures b in At(rts, z) <==> b in Synthetics(t, left) {
      if b in At(rts, z) {
        assert (z, b) in rts;
      }
      if b in Synthetics(t, left) {
        var a :| a in left && a in t.anns && t.anns[a].Synthetic() == b;
        var l :| l in t.links && l.zone == z && l.ann == a;
        assert (z, b) in rts;
      }
    }
  }

  // ---------------------------------------------------------------- users

  lemma DeleteUserEffect(t: Tables, target: int, s: Tables, f: DeletionResult)
    requires Proper(t) && s == Settle(t.(users := t.users - {target})) && FootprintExact(t, s, f)
    ensures Sub(s, t) && Lost(t, s, Elems(f.survivingMemberships), Elems(f.survivingZoneRoutes))
  {
    SettleIsConsistent(t.(users := t.users - {target}));
    var mem, rts := Elems(f.survivingMemberships), Elems(f.survivingZoneRoutes);
    forall z | z in s.zones
      ensures MemberIPs(s, z) == MemberIPs(t, z) - At(mem, z)
      ensures Ranges(ZoneRoutes(s, z)) == Ranges(ZoneRoutes(t, z)) - Ranges(At(rts, z))
    {
      SubZone(s, t, z);
      assert At(mem, z) == MemberIPs(t, z) - MemberIPs(s, z) by {
        assert forall ip :: ip in MemberIPs(t, z) - MemberIPs(s, z) ==> (z, ip) in mem;
      }
      assert At(rts, z) == ZoneRoutes(t, z) - ZoneRoutes(s, z) by {
        assert forall b :: b in ZoneRoutes(t, z) - ZoneRoutes(s, z) ==> (z, b) in rts;
      }
      ZoneRoutesApart(t, z);
      RangesMinus(ZoneRoutes(t, z), At(rts, z));
      assert ZoneRoutes(t, z) - At(rts, z) == ZoneRoutes(s, z);
    }
  }

  lemma SubZone(s: Tables, t: Tables, z: int)
    requires Sub(s, t)
    ensures MemberIPs(s, z) <= MemberIPs(t, z) && ZoneRoutes(s, z) <= ZoneRoutes(t, z)
  {}

  lemma ZoneRoutesApart(t: Tables, z: int)
    requires BlocksDisjoint(t.anns)
    ensures forall b, c :: b in ZoneRoutes(t, z) && c in ZoneRoutes(t, z) && b != c ==> !Overlaps(b, c)
  {}

  // ---------------------------------------------------------------- growth

  /** Attaching an announcement adds its block to one zone's routes and to its node's peer. */
  lemma AnnounceEffect(t: Tables, s: Tables, ann: int, row: AnnRow, zone: int)
    requires Proper(t) && Proper(s) && zone in t.zones
    requires s == t.(anns := t.anns[ann := row], links := t.links + {Link(ann, zone)}, next := s.next)
    requires ann in t.anns ==> t.anns[ann] == row
    ensures Sub(t, s) && DerivedMembers(s) == DerivedMembers(t)
    ensures DerivedRoutes(s) == DerivedRoutes(t)[zone := DerivedRoutes(t)[zone] + {RangeElements(row.Synthetic())}]
    ensures forall n :: n != row.node ==> NodeRoutes(s, n) == NodeRoutes(t, n)
  {
    AnnouncedRoutes(t, s, ann, row, zone);
    assert forall z :: MemberIPs(s, z) == MemberIPs(t, z);
    forall n | n != row.node ensures NodeRoutes(s, n) == NodeRoutes(t, n) {
      forall a | a in s.anns && s.anns[a].node == n ensures a in t.anns && t.anns[a] == s.anns[a] {}
    }
  }

  lemma AnnouncedRoutes(t: Tables, s: Tables, ann: int, row: AnnRow, zone: int)
    requires Consistent(t) && zone in t.zones
    requires s == t.(anns := t.anns[ann := row], links := t.links + {Link(ann, zone)}, next := s.next)
    requires ann in t.anns ==> t.anns[ann] == row
    ensures DerivedRoutes(s) == DerivedRoutes(t)[zone := DerivedRoutes(t)[zone] + {RangeElements(row.Synthetic())}]
  {
    forall z | z in t.zones
      ensures Ranges(ZoneRoutes(s, z)) ==
              if z == zone then Ranges(ZoneRoutes(t, z)) + {RangeElements(row.Synthetic())}
              else Ranges(ZoneRoutes(t, z))
    {
      AnnouncedZone(t, s, ann, row, zone, z);
    }
  }

  lemma AnnouncedZone(t: Tables, s: Tables, ann: int, row: AnnRow, zone: int, z: int)
    requires Consistent(t)
    requires s == t.(anns := t.anns[ann := row], links := t.links + {Link(ann, zone)}, next := s.next)
    requires ann in t.anns ==> t.anns[ann] == row
    ensures ZoneRoutes(s, z) == if z == zone then ZoneRoutes(t, z) + {row.Synthetic()} else ZoneRoutes(t, z)
    ensures Ranges(ZoneRoutes(t, z) + {row.Synthetic()}) == Ranges(ZoneRoutes(t, z)) + {RangeElements(row.Synthetic())}
  {
    assert Link(ann, zone) in s.links;
    forall l | l in t.links ensures l in s.links && l.ann in t.anns && s.anns[l.ann] == t.anns[l.ann] {}
    if z == zone {
      assert Link(ann, zone).zone == z && s.anns[Link(ann, zone).ann].Synthetic() == row.Synthetic();
    }
  }

  lemma JoinEffect(t: Tables, s: Tables, zone: int, node: int)
    requires Proper(t) && zone in t.zones && node in t.nodes
    requires s == t.(members := t.members + {Member(zone, node)})
    ensures DerivedMembers(s) == DerivedMembers(t)[zone := DerivedMembers(t)[zone] + {t.nodes[node].ip}]
    ensures DerivedRoutes(s) == DerivedRoutes(t)
  {
    forall z | z in t.zones
      ensures MemberIPs(s, z) == if z == zone then MemberIPs(t, z) + {t.nodes[node].ip} else MemberIPs(t, z)
    {
      if z == zone {
        assert Member(zone, node) in s.members;
      }
      forall ip | ip in MemberIPs(t, z) ensures ip in MemberIPs(s, z) {
        var m :| m in t.members && m.zone == z && m.node in t.nodes && t.nodes[m.node].ip == ip;
        assert m in s.members;
      }
    }
    assert forall z :: ZoneRoutes(s, z) == ZoneRoutes(t, z);
  }

  lemma NewZoneEffect(t: Tables, s: Tables, zone: int, row: ZoneRow)
    requires Proper(t) && zone !in t.zones
    requires s == t.(zones := t.zones[zone := row], next := s.next)
    ensures DerivedMembers(s) == DerivedMembers(t)[zone := {}]
    ensures DerivedRoutes(s) == DerivedRoutes(t)[zone := {}]
  {
    assert MemberIPs(s, zone) == {};
    forall l | l in t.links ensures l.zone != zone {
      assert Member(l.zone, t.anns[l.ann].node) in t.members;
    }
    assert ZoneRoutes(s, zone) == {} && Ranges({}) == {};
    assert forall z :: MemberIPs(s, z) == MemberIPs(t, z);
    assert forall z :: ZoneRoutes(s, z) == ZoneRoutes(t, z);
  }

  lemma NewNodeEffect(t: Tables, s: Tables, n: int, row: NodeRow)
    requires Proper(t) && n !in t.nodes
    requires s == t.(nodes := t.nodes[n := row], next := s.next)
    ensures DerivedMembers(s) == DerivedMembers(t) && DerivedRoutes(s) == DerivedRoutes(t)
    ensures NodeRoutes(s, n) == {}
    ensures forall m :: NodeRoutes(s, m) == NodeRoutes(t, m)
  {
    forall z ensures MemberIPs(s, z) == MemberIPs(t, z) && ZoneRoutes(s, z) == ZoneRoutes(t, z) {
      forall m | m in t.members && m.zone == z ensures m.node in t.nodes && m.node != n {}
    }
    forall m ensures NodeRoutes(s, m) == NodeRoutes(t, m) {}
  }
}
