/** Handlers are not serialized: another one can run between an announcement's transaction and its
    kernel steps (internal/server/api/announce_handlers.go). What is left in the kernel when that
    other one removes something, and exactly when it is what a rebuild would produce. */
module Overtaking {
  import opened Cidr
  import opened Common
  import opened Ipam
  import opened Schema
  import opened Netfw
  import opened Wireguard
  import opened Derive
  import opened Store
  import opened Effects
  import opened Control
  import opened Upkeep

  /** A removing handler's kernel work: the set elements it takes out, the zones it destroys, the
      peers it removes and those it recomputes. */
  datatype Removal = Removal(mem: set<(int, uint32)>, rts: set<(int, Block)>, zones: set<int>, keys: set<string>,
                             again: seq<int>)

  /** The work accounts for the step from s to u, as every removing handler's does (below). */
  ghost predicate Accounts(s: Tables, u: Tables, x: Removal) {
    && Sub(u, s) && Lost(s, u, x.mem, x.rts)
    && x.zones == s.zones.Keys - u.zones.Keys && x.keys == Keys(s) - Keys(u)
    && (forall i :: 0 <= i < |x.again| ==> x.again[i] in u.nodes)
    && OthersKeepRoutes(s, u, Elems(x.again))
  }

  /** Peers recomputed one by one from u. */
  ghost function Recomputed(p: Peers, u: Tables, again: seq<int>): Peers
    requires forall i :: 0 <= i < |again| ==> again[i] in u.nodes
  {
    if again == [] then p
    else
      var n := again[|again| - 1];
      Configured(Recomputed(p, u, again[..|again| - 1]), u.nodes[n].pubKey, PeerBlocks(u, n))
  }

  ghost function PeersLeft(p: Peers, u: Tables, x: Removal): Peers
    requires forall i :: 0 <= i < |x.again| ==> x.again[i] in u.nodes
  {
    Recomputed(p - x.keys, u, x.again)
  }

  /** When the announcing handler is overtaken: before it reads the node's routes, with them read,
      or with the peer grown and the zone's set not yet. */
  datatype Moment = BeforeRead | BeforeGrow | BeforeRoute

  /** The peers when both handlers are done. */
  ghost function PeersAfter(p: Peers, s: Tables, u: Tables, node: int, x: Removal, m: Moment): Peers
    requires node in s.nodes && forall i :: 0 <= i < |x.again| ==> x.again[i] in u.nodes
  {
    var key, ip := s.nodes[node].pubKey, s.nodes[node].ip;
    match m
    case BeforeRead => Configured(PeersLeft(p, u, x), key, AllowedIPs(ip, NodeRoutes(u, node)))
    case BeforeGrow => Configured(PeersLeft(p, u, x), key, AllowedIPs(ip, NodeRoutes(s, node)))
    case BeforeRoute => PeersLeft(Configured(p, key, AllowedIPs(ip, NodeRoutes(s, node))), u, x)
  }

  /** The table when both are done. Into a zone that is gone the element cannot be added; the
      rollback that follows finds the attachment gone as well and does nothing. */
  ghost predicate TableAfter(f0: Table, f: Table, x: Removal, zone: int, b: Block) {
    && WellBuilt(f)
    && f.members == MinusMembers(f0.members, x.mem) - x.zones
    && var left := MinusRoutes(f0.routes, x.rts) - x.zones;
       f.routes == if zone in left then left[zone := left[zone] + {RangeElements(b)}] else left
  }

  // ---------------------------------------------------------------- peers

  /** No peer has more than its node's share. */
  ghost predicate Bounded(s: Tables, p: Peers) {
    && p.Keys <= Keys(s)
    && forall n :: n in s.nodes && s.nodes[n].pubKey in p ==> p[s.nodes[n].pubKey] <= PeerBlocks(s, n)
  }

  /** Giving a node no more than its share takes nothing from the others. */
  lemma GivenItsShare(cfg: Config, s: Tables, p: Peers, n: int, blocks: set<Block>)
    requires ConfigOk(cfg) && RowsProper(cfg, s) && Bounded(s, p) && n in s.nodes && blocks <= PeerBlocks(s, n)
    ensures var q := Configured(p, s.nodes[n].pubKey, blocks);
            && Bounded(s, q) && q.Keys == p.Keys + {s.nodes[n].pubKey} && q[s.nodes[n].pubKey] == blocks
            && forall m :: m in s.nodes && m != n && s.nodes[m].pubKey in p ==>
                 s.nodes[m].pubKey in q && q[s.nodes[m].pubKey] == p[s.nodes[m].pubKey]
  {
    hide ConfigOk, PeerBlocks;
    var q := Configured(p, s.nodes[n].pubKey, blocks);
    forall m | m in s.nodes && m != n && s.nodes[m].pubKey in p
      ensures s.nodes[m].pubKey != s.nodes[n].pubKey && q[s.nodes[m].pubKey] == p[s.nodes[m].pubKey]
    {
      BlocksApart(cfg, s, m, n);
    }
    assert s.nodes[n].pubKey in Keys(s);
  }

  lemma {:induction false} RecomputedMixed(cfg: Config, lo: Tables, s: Tables, u: Tables, p: Peers, again: seq<int>)
    requires ConfigOk(cfg) && RowsProper(cfg, s) && Sub(u, s) && lo.nodes == s.nodes && Bounded(s, p)
    requires forall i :: 0 <= i < |again| ==> again[i] in u.nodes
    requires PeersMixed(lo, u, {}, p)
    ensures Bounded(s, Recomputed(p, u, again)) && PeersMixed(lo, u, Elems(again), Recomputed(p, u, again))
    decreases |again|
  {
    hide ConfigOk, RowsProper, PeerBlocks, PeersMixed, Bounded, Sub, Configured;
    if again == [] {
      assert Elems(again) == {};
    } else {
      var before, n := again[..|again| - 1], again[|again| - 1];
      RecomputedMixed(cfg, lo, s, u, p, before);
      RecomputedOne(cfg, lo, s, u, Recomputed(p, u, before), Elems(before), n);
      assert Elems(again) == Elems(before) + {n};
    }
  }

  lemma RecomputedOne(cfg: Config, lo: Tables, s: Tables, u: Tables, p: Peers, done: set<int>, n: int)
    requires ConfigOk(cfg) && RowsProper(cfg, s) && Sub(u, s) && lo.nodes == s.nodes && Bounded(s, p)
    requires PeersMixed(lo, u, done, p) && n in u.nodes
    ensures var q := Configured(p, u.nodes[n].pubKey, PeerBlocks(u, n));
            Bounded(s, q) && PeersMixed(lo, u, done + {n}, q)
  {
    hide ConfigOk, RowsProper, PeerBlocks, Configured;
    SubBlocks(u, s, n);
    GivenItsShare(cfg, s, p, n, PeerBlocks(u, n));
    assert u.nodes[n].pubKey in Keys(u);
    forall m | m in u.nodes ensures u.nodes[m] == s.nodes[m] && u.nodes[m].pubKey in p {
      assert u.nodes[m].pubKey in Keys(u);
    }
  }

  lemma KeysLeft(cfg: Config, lo: Tables, s: Tables, u: Tables, p: Peers)
    requires RowsProper(cfg, s) && Sub(lo, s) && Sub(u, s) && lo.nodes == s.nodes && PeersMatch(lo, p)
    ensures Bounded(s, p - (Keys(s) - Keys(u))) && PeersMixed(lo, u, {}, p - (Keys(s) - Keys(u)))
  {
    hide PeerBlocks;
    var q := p - (Keys(s) - Keys(u));
    assert Keys(lo) == Keys(s) && Keys(u) <= Keys(s);
    forall n | n in s.nodes ensures p[s.nodes[n].pubKey] == PeerBlocks(lo, n) <= PeerBlocks(s, n) {
      SubBlocks(lo, s, n);
    }
  }

  lemma PeersLeftMixed(cfg: Config, lo: Tables, s: Tables, u: Tables, p: Peers, x: Removal)
    requires ConfigOk(cfg) && RowsProper(cfg, s) && Sub(lo, s) && lo.nodes == s.nodes && PeersMatch(lo, p)
    requires Accounts(s, u, x)
    ensures Bounded(s, PeersLeft(p, u, x)) && PeersMixed(lo, u, Elems(x.again), PeersLeft(p, u, x))
  {
    hide ConfigOk, RowsProper, PeersMixed, Bounded, Lost, OthersKeepRoutes;
    KeysLeft(cfg, lo, s, u, p);
    RecomputedMixed(cfg, lo, s, u, p - x.keys, x.again);
  }

  /** The announcing node's peer is right in the end unless its routes were read before the other
      handler took some away, or the node itself is gone and its peer comes back. */
  ghost predicate PeerSurvives(s: Tables, u: Tables, node: int, m: Moment) {
    m.BeforeRoute? || (node in u.nodes && (m.BeforeRead? || NodeRoutes(u, node) == NodeRoutes(s, node)))
  }

  lemma PeersInTheEnd(cfg: Config, t: Tables, s: Tables, u: Tables, p: Peers, r: AnnounceResult, node: int,
                      zone: int, x: Removal, m: Moment)
    requires Invariant(cfg, t) && Invariant(cfg, s) && PeersMatch(t, p)
    requires r.Announced? && r.attached && AnnouncedInto(t, s, r, node, zone) && node in s.nodes && Accounts(s, u, x)
    ensures PeersMatch(u, PeersAfter(p, s, u, node, x, m)) <==> PeerSurvives(s, u, node, m)
  {
    hide Invariant, PeersMatch, Lost, OthersKeepRoutes, Sub, Keys, AnnouncedInto, NodeRoutes, Configured, PeersLeft;
    hide RowsProper, ConfigOk, PeersMixed, Bounded;
    AnnouncedRows(cfg, t, s, r, node, zone);
    AnnouncedPeer(cfg, t, s, p, r, node, zone);
    RowsHold(cfg, s);
    if m.BeforeRoute? {
      GrownBefore(cfg, s, u, Configured(p, s.nodes[node].pubKey, PeerBlocks(s, node)), x);
    } else {
      PeersLeftMixed(cfg, t, s, u, p, x);
      GrownLate(cfg, t, s, u, PeersLeft(p, u, x), x, node, m.BeforeGrow?);
    }
  }

  /** The peer grown before the other handler starts: it finds a device in sync. */
  lemma GrownBefore(cfg: Config, s: Tables, u: Tables, p: Peers, x: Removal)
    requires ConfigOk(cfg) && RowsProper(cfg, s) && PeersMatch(s, p) && Accounts(s, u, x)
    ensures PeersMatch(u, PeersLeft(p, u, x))
  {
    hide ConfigOk, RowsProper, PeersMatch, Lost, OthersKeepRoutes, PeersLeft, PeersMixed, Bounded, Keys;
    SubItself(s);
    PeersLeftMixed(cfg, s, s, u, p, x);
    LeftMatches(s, u, p, x);
  }

  lemma RowsHold(cfg: Config, s: Tables)
    requires Invariant(cfg, s)
    ensures ConfigOk(cfg) && RowsProper(cfg, s)
  {}

  lemma SubItself(s: Tables)
    ensures Sub(s, s)
  {}

  lemma LeftMatches(s: Tables, u: Tables, p: Peers, x: Removal)
    requires Accounts(s, u, x) && PeersMixed(s, u, Elems(x.again), PeersLeft(p, u, x))
    ensures PeersMatch(u, PeersLeft(p, u, x))
  {
    hide PeersLeft, Lost;
    RecomputeDone(s, u, Elems(x.again), PeersLeft(p, u, x));
  }

  /** The peer grown after the other handler is done. */
  lemma GrownLate(cfg: Config, t: Tables, s: Tables, u: Tables, p: Peers, x: Removal, node: int, stale: bool)
    requires Invariant(cfg, s) && t.nodes == s.nodes && node in s.nodes && Accounts(s, u, x)
    requires forall n :: n != node ==> NodeRoutes(s, n) == NodeRoutes(t, n)
    requires Bounded(s, p) && PeersMixed(t, u, Elems(x.again), p)
    ensures var blocks := AllowedIPs(s.nodes[node].ip, if stale then NodeRoutes(s, node) else NodeRoutes(u, node));
            PeersMatch(u, Configured(p, s.nodes[node].pubKey, blocks)) <==>
              node in u.nodes && (stale ==> NodeRoutes(u, node) == NodeRoutes(s, node))
  {
    hide Lost, RowsProper, ConfigOk, Configured, NodeRoutes, Bounded;
    var routes := if stale then NodeRoutes(s, node) else NodeRoutes(u, node);
    var blocks := AllowedIPs(s.nodes[node].ip, routes);
    var q := Configured(p, s.nodes[node].pubKey, blocks);
    NodeRoutesShrink(u, s, node);
    GivenItsShare(cfg, s, p, node, blocks);
    KeyIsTaken(cfg, s, u, node);
    if node in u.nodes {
      forall n | n in u.nodes && n != node ensures q[u.nodes[n].pubKey] == PeerBlocks(u, n) {
        assert u.nodes[n].pubKey in Keys(u);
        assert NodeRoutes(s, n) == NodeRoutes(t, n);
      }
      SameShare(cfg, s, u, node, routes);
      assert q.Keys == Keys(u);
    } else {
      assert s.nodes[node].pubKey in q;
    }
  }

  lemma NodeRoutesShrink(u: Tables, s: Tables, n: int)
    requires Sub(u, s)
    ensures NodeRoutes(u, n) <= NodeRoutes(s, n)
  {}

  lemma KeyIsTaken(cfg: Config, s: Tables, u: Tables, node: int)
    requires RowsProper(cfg, s) && Sub(u, s) && node in s.nodes
    ensures s.nodes[node].pubKey in Keys(u) <==> node in u.nodes
    ensures node in u.nodes ==> u.nodes[node] == s.nodes[node]
  {}

  /** The node's own address is none of its routes, so the peer tells its routes. */
  lemma SameShare(cfg: Config, s: Tables, u: Tables, node: int, routes: set<Block>)
    requires ConfigOk(cfg) && RowsProper(cfg, s) && Sub(u, s) && node in u.nodes && routes <= NodeRoutes(s, node)
    ensures AllowedIPs(u.nodes[node].ip, routes) == PeerBlocks(u, node) <==> routes == NodeRoutes(u, node)
  {
    hide ConfigOk, RowsProper, NodeRoutes;
    RoutesAreNoHosts(cfg, s, node);
    NodeRoutesShrink(u, s, node);
    var h := Host(u.nodes[node].ip);
    assert h !in routes && h !in NodeRoutes(u, node);
    if AllowedIPs(u.nodes[node].ip, routes) == PeerBlocks(u, node) {
      assert routes == AllowedIPs(u.nodes[node].ip, routes) - {h};
      assert NodeRoutes(u, node) == PeerBlocks(u, node) - {h};
    }
  }

  // ---------------------------------------------------------------- sets

  lemma ElementsApart(t: Tables, a: int, c: int)
    requires BlocksDisjoint(t.anns) && a in t.anns && c in t.anns && a != c
    ensures RangeElements(t.anns[a].Synthetic()) != RangeElements(t.anns[c].Synthetic())
  {
    assert !Overlaps(t.anns[a].Synthetic(), t.anns[c].Synthetic());
  }

  /** A zone's set holds a block's element exactly if the announcement is attached there. */
  lemma ElementMeansAttached(t: Tables, a: int, z: int)
    requires Consistent(t) && BlocksDisjoint(t.anns) && a in t.anns
    ensures RangeElements(t.anns[a].Synthetic()) in Ranges(ZoneRoutes(t, z)) <==> Link(a, z) in t.links
  {
    hide RangeElements;
    var e := RangeElements(t.anns[a].Synthetic());
    if e in Ranges(ZoneRoutes(t, z)) {
      var b :| b in ZoneRoutes(t, z) && RangeElements(b) == e;
      var l :| l in t.links && l.zone == z && l.ann in t.anns && t.anns[l.ann].Synthetic() == b;
      if l.ann != a {
        ElementsApart(t, l.ann, a);
      }
      assert l == Link(a, z);
    }
    if Link(a, z) in t.links {
      assert Link(a, z).zone == z && t.anns[a].Synthetic() in ZoneRoutes(t, z);
    }
  }

  /** In u, where the announcement may be gone. */
  lemma ElementMeansSurvived(cfg: Config, s: Tables, u: Tables, a: int, z: int)
    requires Invariant(cfg, s) && Invariant(cfg, u) && Sub(u, s) && a in s.anns
    ensures RangeElements(s.anns[a].Synthetic()) in Ranges(ZoneRoutes(u, z)) <==> Link(a, z) in u.links
  {
    hide ConfigOk, Ranges;
    if a in u.anns {
      ElementMeansAttached(u, a, z);
    } else {
      GoneElement(s, u, a, z);
    }
  }

  lemma GoneElement(s: Tables, u: Tables, a: int, z: int)
    requires Consistent(u) && BlocksDisjoint(s.anns) && Sub(u, s) && a in s.anns && a !in u.anns
    ensures RangeElements(s.anns[a].Synthetic()) !in Ranges(ZoneRoutes(u, z)) && Link(a, z) !in u.links
  {
    hide RangeElements;
    forall b | b in ZoneRoutes(u, z) ensures RangeElements(b) != RangeElements(s.anns[a].Synthetic()) {
      var l :| l in u.links && l.zone == z && l.ann in u.anns && u.anns[l.ann].Synthetic() == b;
      ElementsApart(s, l.ann, a);
    }
  }

  /** The announced element ends up in a zone's set; it should be there if the attachment is. */
  lemma SetsInTheEnd(cfg: Config, t: Tables, s: Tables, u: Tables, f0: Table, f: Table, r: AnnounceResult, node: int,
                     zone: int, x: Removal)
    requires Invariant(cfg, t) && Invariant(cfg, s) && Invariant(cfg, u) && TableMatches(t, f0)
    requires r.Announced? && r.attached && AnnouncedInto(t, s, r, node, zone) && zone in t.zones && Accounts(s, u, x)
    requires TableAfter(f0, f, x, zone, r.row.Synthetic())
    ensures TableMatches(u, f) <==> (zone in u.zones ==> Link(r.ann, zone) in u.links)
  {
    hide Invariant, AnnouncedInto, Lost, OthersKeepRoutes, WellBuilt, ZoneRoutes, DerivedRoutes, DerivedMembers, Keys;
    Announced(cfg, t, s, r, node, zone);
    SetsFollow(s, u, x.mem, x.rts);
    RoutesAt(u, zone);
    RoutesAt(t, zone);
    SetsShape(f0.routes, DerivedRoutes(u), f.routes, x.rts, x.zones, zone, RangeElements(r.row.Synthetic()));
    ElementMeansSurvived(cfg, s, u, r.ann, zone);
  }

  lemma RoutesAt(t: Tables, z: int)
    ensures DerivedRoutes(t).Keys == t.zones.Keys
    ensures z in t.zones ==> DerivedRoutes(t)[z] == Ranges(ZoneRoutes(t, z))
  {}

  /** Adding an element after taking others out, instead of before, makes a difference only if it
      was among those taken out. */
  lemma SetsShape(d: map<int, set<Interval>>, want: map<int, set<Interval>>, got: map<int, set<Interval>>,
                  rts: set<(int, Block)>, zones: set<int>, zone: int, e: Interval)
    requires zone in d && want == MinusRoutes(d[zone := d[zone] + {e}], rts) - zones
    requires var left := MinusRoutes(d, rts) - zones;
             got == if zone in left then left[zone := left[zone] + {e}] else left
    ensures got == want <==> (zone !in zones ==> zone in want && e in want[zone])
  {
    hide Ranges;
    if zone !in zones {
      assert e in got[zone];
      if e in want[zone] {
        assert got[zone] == want[zone];
        assert got == want;
      }
    } else {
      assert got == want;
    }
  }

  lemma Announced(cfg: Config, t: Tables, s: Tables, r: AnnounceResult, node: int, zone: int)
    requires Invariant(cfg, t) && Invariant(cfg, s) && zone in t.zones
    requires r.Announced? && r.attached && AnnouncedInto(t, s, r, node, zone)
    ensures r.ann in s.anns && s.anns[r.ann] == r.row && s.zones == t.zones
    ensures DerivedMembers(s) == DerivedMembers(t)
    ensures DerivedRoutes(s) == DerivedRoutes(t)[zone := DerivedRoutes(t)[zone] + {RangeElements(r.row.Synthetic())}]
  {
    AnnounceEffect(t, s, r.ann, r.row, zone);
  }

  // ---------------------------------------------------------------- both

  /** An announcement overtaken by any removal leaves kernel and database in agreement exactly if
      its attachment survived it or its zone did not, and its peer's routes were not stale. */
  lemma OvertakenAnnounce(cfg: Config, t: Tables, s: Tables, u: Tables, p: Peers, f0: Table, f: Table,
                          r: AnnounceResult, node: int, zone: int, x: Removal, m: Moment)
    requires Faithful(cfg, t, p, f0) && Invariant(cfg, s) && Invariant(cfg, u)
    requires r.Announced? && r.attached && AnnouncedInto(t, s, r, node, zone) && node in s.nodes && zone in t.zones
    requires Accounts(s, u, x) && TableAfter(f0, f, x, zone, r.row.Synthetic())
    ensures Synced(u, PeersAfter(p, s, u, node, x, m), f) <==>
            (zone in u.zones ==> Link(r.ann, zone) in u.links) && PeerSurvives(s, u, node, m)
  {
    hide Invariant, PeersMatch, TableMatches, Accounts, TableAfter, AnnouncedInto, PeersAfter, PeerSurvives;
    PeersInTheEnd(cfg, t, s, u, p, r, node, zone, x, m);
    SetsInTheEnd(cfg, t, s, u, f0, f, r, node, zone, x);
  }

  // ---------------------------------------------------------------- what the removing handlers do

  lemma WithdrawalAccounted(cfg: Config, s: Tables, u: Tables, l: Link)
    requires Invariant(cfg, s) && l in s.links && l.ann in s.anns && u == Unlink(s, {l})
    ensures var node := s.anns[l.ann].node;
            && Invariant(cfg, u)
            && Accounts(s, u, Removal({}, {(l.zone, s.anns[l.ann].Synthetic())}, {}, {},
                                  if l.ann in u.anns then [] else [node]))
  {
    hide ConfigOk, RowsProper, Lost, NodeRoutes, Unlink, Settle;
    DetachSettles(s, {l});
    SettleKeepsInvariant(cfg, s, s.(links := s.links - {l}));
    RowsSplit(cfg, s);
    WithdrawEffect(s, l, u);
    assert Elems<int>([]) == {} && Elems([s.anns[l.ann].node]) == {s.anns[l.ann].node};
  }

  lemma RowsSplit(cfg: Config, s: Tables)
    requires RowsProper(cfg, s)
    ensures UniqueNodes(s.nodes) && BlocksDisjoint(s.anns)
  {}

  lemma ZoneDeletionAccounted(cfg: Config, s: Tables, u: Tables, zone: int, dets: seq<ZoneDetachment>, again: seq<int>)
    requires Invariant(cfg, s) && zone in s.zones && u == ZoneErased(s, zone)
    requires Detachments(s, Unlink(s, ZoneLinks(s, zone)), ZoneLinks(s, zone), dets)
    requires Elems(again) == ReclaimedFrom(dets)
    ensures Invariant(cfg, u) && Accounts(s, u, Removal({}, {}, {zone}, {}, again))
  {
    hide ConfigOk, RowsProper, Consistent, Lost, OthersKeepRoutes, Cascade, Unlink, Detachments, Settle;
    DeleteZoneSettles(s, zone);
    SettleKeepsInvariant(cfg, s, s.(zones := s.zones - {zone}));
    ZoneGoneShape(cfg, s, Unlink(s, ZoneLinks(s, zone)), u, zone, dets);
    SameNodes(cfg, s, u, zone);
    forall i | 0 <= i < |again| ensures again[i] in u.nodes {
      assert again[i] in Elems(again);
      LiveDetachments(cfg, s, Unlink(s, ZoneLinks(s, zone)), ZoneLinks(s, zone), dets);
    }
  }

  lemma SameNodes(cfg: Config, s: Tables, u: Tables, zone: int)
    requires Invariant(cfg, s) && u == Settle(s.(zones := s.zones - {zone}))
    ensures Sub(u, s) && u.nodes == s.nodes && Keys(s) - Keys(u) == {}
  {
    DeleteZoneEffect(s, zone, u);
  }

  lemma LiveDetachments(cfg: Config, s: Tables, u: Tables, gone: set<Link>, dets: seq<ZoneDetachment>)
    requires Invariant(cfg, s) && Detachments(s, u, gone, dets)
    ensures forall d :: d in dets ==> d.node in s.nodes
  {
    DetachmentsLive(s, u, gone, dets);
  }

  lemma NodeDeletionAccounted(cfg: Config, s: Tables, u: Tables, node: int)
    requires Invariant(cfg, s) && node in s.nodes && u == NodeErased(s, node)
    ensures Invariant(cfg, u)
    ensures Accounts(s, u, Removal(NodeMemberships(s, node), NodeAttachments(s, node), {}, {s.nodes[node].pubKey}, []))
  {
    hide ConfigOk, RowsProper, Lost, NodeRoutes, Cascade, NodeMemberships, NodeAttachments;
    DeleteNodeSettles(s, node);
    SettleKeepsInvariant(cfg, s, s.(nodes := s.nodes - {node}));
    RowsSplit(cfg, s);
    NodeDeletionShape(s, u, node);
    KeysWithout(s, u, node);
    assert Elems<int>([]) == {};
  }

  lemma NodeDeletionShape(s: Tables, u: Tables, node: int)
    requires Proper(s) && node in s.nodes && u == Settle(s.(nodes := s.nodes - {node}))
    ensures Sub(u, s) && u.zones == s.zones && u.nodes == s.nodes - {node}
    ensures Lost(s, u, NodeMemberships(s, node), NodeAttachments(s, node))
    ensures forall n :: n != node ==> NodeRoutes(u, n) == NodeRoutes(s, n)
  {
    DeleteNodeEffect(s, node, u, NodeMemberships(s, node), NodeAttachments(s, node));
  }

  lemma UserDeletionAccounted(cfg: Config, s: Tables, u: Tables, target: int, d: DeletionResult, again: seq<int>)
    requires Invariant(cfg, s) && u == UserErased(s, target) && FootprintExact(s, u, d)
    requires Elems(again) == NodesIn(d.recompute)
    ensures Invariant(cfg, u)
    ensures Accounts(s, u, Removal(Elems(d.survivingMemberships), Elems(d.survivingZoneRoutes), Elems(d.ownedZoneIDs),
                               Elems(d.nodePubKeys), again))
  {
    hide ConfigOk, RowsProper, Lost, NodeRoutes, Cascade, ReclaimOrphans;
    DeleteUserSettles(s, target);
    SettleKeepsInvariant(cfg, s, s.(users := s.users - {target}));
    RowsSplit(cfg, s);
    DeleteUserEffect(s, target, u, d);
    forall i | 0 <= i < |again| ensures again[i] in u.nodes {
      assert again[i] in Elems(again);
    }
    forall n | n in u.nodes && n !in Elems(again) ensures NodeRoutes(u, n) == NodeRoutes(s, n) {}
  }

  /** What a leave or kick of a node amounts to. */
  function Expulsion(s: Tables, zone: int, node: int, dets: seq<ZoneDetachment>): Removal
    requires node in s.nodes
  {
    Removal({(zone, s.nodes[node].ip)}, Elems(Pairs(zone, dets)), {}, {},
            if exists d :: d in dets && d.reclaimed then [node] else [])
  }

  lemma ExpulsionAccounted(cfg: Config, s: Tables, u: Tables, zone: int, node: int, dets: seq<ZoneDetachment>)
    requires Invariant(cfg, s) && node in s.nodes && u == Expelled(s, zone, node)
    requires var mid := s.(members := s.members - {Member(zone, node)});
             Detachments(mid, u, NodeZoneLinks(mid, zone, node), dets)
    ensures Invariant(cfg, u) && u.nodes == s.nodes && u.zones == s.zones
    ensures Accounts(s, u, Expulsion(s, zone, node, dets))
    ensures u.links == s.links - NodeZoneLinks(s, zone, node)
    ensures NodeRoutes(u, node) == NodeRoutes(s, node) <==> forall d :: d in dets ==> !d.reclaimed
  {
    hide Invariant, Lost, Detachments, OthersKeepRoutes, NodeRoutes;
    var mid := s.(members := s.members - {Member(zone, node)});
    ExpelStartsFrom(cfg, s, mid, u, zone, node);
    ExpelShrinks(cfg, s, mid, u, zone, node, dets);
    DetachedPairs(mid, u, zone, node, dets);
    var reclaimed := exists d :: d in dets && d.reclaimed;
    FlagIsReclaimed(dets, node, reclaimed);
    OnlyOne(node);
    assert Elems<int>([]) == {};
    assert Elems(Expulsion(s, zone, node, dets).again) == ReclaimedFrom(dets);
    assert Keys(s) - Keys(u) == {} && s.zones.Keys - u.zones.Keys == {};
    ReclaimedShows(cfg, s, mid, u, zone, node, dets);
  }

  lemma ExpelStartsFrom(cfg: Config, s: Tables, mid: Tables, u: Tables, zone: int, node: int)
    requires Invariant(cfg, s) && mid == s.(members := s.members - {Member(zone, node)})
    requires u == Expelled(s, zone, node)
    ensures u == Unlink(mid, NodeZoneLinks(mid, zone, node)) && u == Settle(mid) && Invariant(cfg, u) && Sub(u, s)
    ensures u.nodes == s.nodes && u.zones == s.zones && u.links == s.links - NodeZoneLinks(s, zone, node)
  {
    LeaveSettles(s, zone, node);
    SettleKeepsInvariant(cfg, s, mid);
    ExpelShape(s, zone, node, u);
  }

  /** A reclaimed announcement's block is gone from its node's routes. */
  lemma ReclaimedShows(cfg: Config, s: Tables, mid: Tables, u: Tables, zone: int, node: int, dets: seq<ZoneDetachment>)
    requires Invariant(cfg, s) && Sub(u, s) && node in u.nodes
    requires mid == s.(members := s.members - {Member(zone, node)})
    requires u == Unlink(mid, NodeZoneLinks(mid, zone, node))
    requires Detachments(mid, u, NodeZoneLinks(mid, zone, node), dets)
    ensures NodeRoutes(u, node) == NodeRoutes(s, node) <==> forall d :: d in dets ==> !d.reclaimed
  {
    hide ConfigOk;
    if d :| d in dets && d.reclaimed {
      assert Describes(mid, Link(d.ann, d.zone), d);
      var b := s.anns[d.ann].Synthetic();
      assert b in NodeRoutes(s, node);
      forall a | a in u.anns && u.anns[a].node == node ensures u.anns[a].Synthetic() != b {
        SyntheticsApart(s, a, d.ann);
      }
      assert b !in NodeRoutes(u, node);
    } else {
      RoutesKept(mid, u, NodeZoneLinks(mid, zone, node), dets);
      assert NodeRoutes(mid, node) == NodeRoutes(s, node);
    }
  }

  /** A leave or kick that overtakes an announcement does harm exactly in two cases: it takes the
      announcing node out of that very zone, or it reclaims another announcement of that node while
      the announcing handler holds the old routes. */
  lemma LeaveOvertakesAnnounce(cfg: Config, t: Tables, s: Tables, p: Peers, f0: Table, f: Table, r: AnnounceResult,
                               node: int, zone: int, leaver: int, left: int, dets: seq<ZoneDetachment>, m: Moment)
    requires Faithful(cfg, t, p, f0) && Invariant(cfg, s)
    requires r.Announced? && r.attached && AnnouncedInto(t, s, r, node, zone) && node in s.nodes && zone in t.zones
    requires leaver in s.nodes
    requires var mid := s.(members := s.members - {Member(left, leaver)});
             Detachments(mid, Expelled(s, left, leaver), NodeZoneLinks(mid, left, leaver), dets)
    requires TableAfter(f0, f, Expulsion(s, left, leaver, dets), zone, r.row.Synthetic())
    ensures var u := Expelled(s, left, leaver);
            var x := Expulsion(s, left, leaver, dets);
            && (forall i :: 0 <= i < |x.again| ==> x.again[i] in u.nodes)
            && (Synced(u, PeersAfter(p, s, u, node, x, m), f) <==>
                && !(leaver == node && left == zone)
                && (leaver == node && m.BeforeGrow? ==> forall d :: d in dets ==> !d.reclaimed))
  {
    hide Invariant, Detachments, TableAfter, Expelled, PeersAfter, Synced;
    var u := Expelled(s, left, leaver);
    var x := Expulsion(s, left, leaver, dets);
    ExpulsionAccounted(cfg, s, u, left, leaver, dets);
    AnnouncedRows(cfg, t, s, r, node, zone);
    Basics(cfg, t, p, f0);
    OvertakenAnnounce(cfg, t, s, u, p, f0, f, r, node, zone, x, m);
    assert Link(r.ann, zone) in u.links <==> !(leaver == node && left == zone) by {
      assert s.anns[r.ann].node == node;
    }
  }
}
