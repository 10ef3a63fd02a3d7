/** The kernel state the database stands for: every peer's AllowedIPs and every zone's sets.
    Start-up builds it from the rows (internal/server/app/dataplane.go); between restarts the
    handlers are meant to keep it. */
module Derive {
  import opened Cidr
  import opened Ipam
  import opened Schema
  import opened Netfw
  import opened Wireguard

  ghost function NodeRoutes(t: Tables, n: int): set<Block> {
    set a | a in t.anns && t.anns[a].node == n :: t.anns[a].Synthetic()
  }

  ghost function PeerBlocks(t: Tables, n: int): set<Block>
    requires n in t.nodes
  {
    AllowedIPs(t.nodes[n].ip, NodeRoutes(t, n))
  }

  ghost function Keys(t: Tables): set<string> {
    set n | n in t.nodes :: t.nodes[n].pubKey
  }

  ghost function MemberIPs(t: Tables, z: int): set<uint32> {
    set m | m in t.members && m.zone == z && m.node in t.nodes :: t.nodes[m.node].ip
  }

  ghost function ZoneRoutes(t: Tables, z: int): set<Block> {
    set l | l in t.links && l.zone == z && l.ann in t.anns :: t.anns[l.ann].Synthetic()
  }

  ghost function DerivedMembers(t: Tables): map<int, set<uint32>> {
    map z | z in t.zones :: MemberIPs(t, z)
  }

  ghost function DerivedRoutes(t: Tables): map<int, set<Interval>> {
    map z | z in t.zones :: Ranges(ZoneRoutes(t, z))
  }

  ghost predicate PeersMatch(t: Tables, peers: Peers) {
    PeersMixed(t, t, {}, peers)
  }

  ghost predicate TableMatches(t: Tables, table: Table) {
    && WellBuilt(table)
    && table.members == DerivedMembers(t)
    && table.routes == DerivedRoutes(t)
  }

  /** The kernel state is exactly what a rebuild from the database would produce. */
  ghost predicate Synced(t: Tables, peers: Peers, table: Table) {
    PeersMatch(t, peers) && TableMatches(t, table)
  }

  /** The database fixes the derived state: two kernels in sync with it route every address to
      the same peers and give every packet the same verdict. */
  lemma SyncedIsUnique(t: Tables, p: Peers, f: Table, q: Peers, g: Table, pkt: Packet)
    requires Synced(t, p, f) && Synced(t, q, g)
    ensures p == q && f.members == g.members && f.routes == g.routes
    ensures Verdict(f, pkt) == Verdict(g, pkt)
  {
    forall k | k in p ensures p[k] == q[k] {
      var n :| n in t.nodes && t.nodes[n].pubKey == k;
    }
    VerdictIgnoresHistory(f, g, pkt);
  }

  // ---------------------------------------------------------------- peers

  /** On the way from t to s: the peers of s's nodes, those in `done` already recomputed. */
  ghost predicate PeersMixed(t: Tables, s: Tables, done: set<int>, peers: Peers) {
    && peers.Keys == Keys(s)
    && forall n :: n in s.nodes && n in t.nodes ==>
         peers[s.nodes[n].pubKey] == if n in done then PeerBlocks(s, n) else PeerBlocks(t, n)
  }

  /** Two nodes never share an AllowedIPs entry. */
  lemma BlocksApart(cfg: Config, t: Tables, m: int, n: int)
    requires ConfigOk(cfg) && RowsProper(cfg, t) && m in t.nodes && n in t.nodes && m != n
    ensures PeerBlocks(t, m) !! PeerBlocks(t, n)
  {
    forall a, c | a in t.anns && c in t.anns && t.anns[a].node == m && t.anns[c].node == n
      ensures t.anns[a].Synthetic() != t.anns[c].Synthetic()
    {
      SyntheticsApart(t, a, c);
    }
    RoutesAreNoHosts(cfg, t, m);
    RoutesAreNoHosts(cfg, t, n);
  }

  lemma RoutesAreNoHosts(cfg: Config, t: Tables, n: int)
    requires ConfigOk(cfg) && RowsProper(cfg, t)
    ensures forall b :: b in NodeRoutes(t, n) ==> b.prefixLen <= 30
  {}

  lemma SubBlocks(s: Tables, t: Tables, n: int)
    requires Sub(s, t) && n in s.nodes
    ensures n in t.nodes && PeerBlocks(s, n) <= PeerBlocks(t, n)
  {}

  /** Recomputing one surviving node's peer takes nothing from any other peer. */
  lemma RecomputeStep(cfg: Config, t: Tables, s: Tables, done: set<int>, peers: Peers, n: int)
    requires ConfigOk(cfg) && RowsProper(cfg, t) && Sub(s, t) && PeersMixed(t, s, done, peers) && n in s.nodes
    ensures PeersMixed(t, s, done + {n}, Configured(peers, s.nodes[n].pubKey, PeerBlocks(s, n)))
  {
    var q := Configured(peers, s.nodes[n].pubKey, PeerBlocks(s, n));
    forall m | m in s.nodes && m in t.nodes
      ensures q[s.nodes[m].pubKey] == if m in done + {n} then PeerBlocks(s, m) else PeerBlocks(t, m)
    {
      SubBlocks(s, t, m);
      SubBlocks(s, t, n);
      if m != n {
        assert t.nodes[m].pubKey != t.nodes[n].pubKey;
        BlocksApart(cfg, t, m, n);
      }
    }
    assert s.nodes[n].pubKey in Keys(s);
  }

  lemma RecomputeDone(t: Tables, s: Tables, done: set<int>, peers: Peers)
    requires Sub(s, t) && PeersMixed(t, s, done, peers)
    requires forall n :: n in s.nodes && n !in done ==> NodeRoutes(s, n) == NodeRoutes(t, n)
    ensures PeersMatch(s, peers)
  {}

  /** Dropping the peers of deleted nodes. */
  lemma PeersRestricted(cfg: Config, t: Tables, s: Tables, peers: Peers)
    requires Invariant(cfg, t) && Sub(s, t) && PeersMatch(t, peers)
    ensures PeersMixed(t, s, {}, peers - (Keys(t) - Keys(s)))
  {}

  /** Growing one node's peer: its new entries are nobody else's. */
  lemma PeerGrows(cfg: Config, t: Tables, s: Tables, peers: Peers, n: int)
    requires Invariant(cfg, s) && Sub(t, s) && PeersMatch(t, peers)
    requires n in s.nodes && s.nodes.Keys == t.nodes.Keys + {n}
    requires forall m :: m in t.nodes && m != n ==> NodeRoutes(s, m) == NodeRoutes(t, m)
    ensures PeersMatch(s, Configured(peers, s.nodes[n].pubKey, PeerBlocks(s, n)))
  {
    var q := Configured(peers, s.nodes[n].pubKey, PeerBlocks(s, n));
    assert Keys(s) == Keys(t) + {s.nodes[n].pubKey};
    forall m | m in s.nodes ensures q[s.nodes[m].pubKey] == PeerBlocks(s, m) {
      if m != n {
        assert s.nodes[m].pubKey != s.nodes[n].pubKey;
        BlocksApart(cfg, s, m, n);
        assert PeerBlocks(t, m) == PeerBlocks(s, m);
      }
    }
  }

  // ---------------------------------------------------------------- sets

  /** Distinct synthetic blocks have distinct interval elements, so removing one block's element
      never removes another block's. */
  lemma RangesMinus(blocks: set<Block>, gone: set<Block>)
    requires forall b, c :: b in blocks && c in gone && b != c ==> !Overlaps(b, c)
    ensures Ranges(blocks) - Ranges(gone) == Ranges(blocks - gone)
  {
    forall b, c | b in blocks && c in gone && RangeElements(b) == RangeElements(c) ensures b == c {
      assert b.base == c.base;
      assert Overlaps(b, c);
    }
  }

  lemma SyntheticsApart(t: Tables, a: int, c: int)
    requires BlocksDisjoint(t.anns) && a in t.anns && c in t.anns
    ensures t.anns[a].Synthetic() != t.anns[c].Synthetic() ==>
              !Overlaps(t.anns[a].Synthetic(), t.anns[c].Synthetic())
    ensures a != c ==> t.anns[a].Synthetic() != t.anns[c].Synthetic()
  {}

  /** The synthetic blocks of a set of announcements. */
  ghost function Synthetics(t: Tables, anns: set<int>): set<Block> {
    set a | a in anns && a in t.anns :: t.anns[a].Synthetic()
  }

  /** A zone's routes set after some of its attachments went: the elements of the announcements
      that left are gone, and only those. */
  lemma RoutesShrink(t: Tables, s: Tables, z: int, left: set<int>)
    requires BlocksDisjoint(t.anns) && Sub(s, t)
    requires forall a :: Link(a, z) in t.links && a in t.anns ==>
               (a in left <==> !(Link(a, z) in s.links && a in s.anns))
    ensures Ranges(ZoneRoutes(s, z)) == Ranges(ZoneRoutes(t, z)) - Ranges(Synthetics(t, left))
  {}

  /** A zone's members set after some of its members went. */
  lemma MembersShrink(t: Tables, s: Tables, z: int, left: set<int>)
    requires UniqueNodes(t.nodes) && Sub(s, t)
    requires forall n :: Member(z, n) in t.members && n in t.nodes ==>
               (n in left <==> !(Member(z, n) in s.members && n in s.nodes))
    ensures MemberIPs(s, z) == MemberIPs(t, z) - (set n | n in left && n in t.nodes :: t.nodes[n].ip)
  {}

  /** A zone none of whose rows changed. */
  lemma ZoneUnchanged(t: Tables, s: Tables, z: int)
    requires BlocksDisjoint(t.anns) && UniqueNodes(t.nodes) && Sub(s, t)
    requires forall a :: Link(a, z) in t.links && a in t.anns ==> Link(a, z) in s.links && a in s.anns
    requires forall n :: Member(z, n) in t.members && n in t.nodes ==> Member(z, n) in s.members && n in s.nodes
    ensures MemberIPs(s, z) == MemberIPs(t, z) && Ranges(ZoneRoutes(s, z)) == Ranges(ZoneRoutes(t, z))
  {}

  // ---------------------------------------------------------------- cryptokey routing

  /** Every address belongs to at most one peer, so cryptokey routing is a function: node
      addresses are unique, synthetic blocks disjoint, and the configuration keeps the synthetic
      pool out of the VPN network. */
  lemma AtMostOnePeer(cfg: Config, t: Tables, peers: Peers, j: string, k: string, a: int)
    requires ConfigOk(cfg) && RowsProper(cfg, t) && PeersMatch(t, peers)
    requires Covers(peers, j, a) && Covers(peers, k, a)
    ensures j == k
  {
    var m :| m in t.nodes && t.nodes[m].pubKey == j;
    var n :| n in t.nodes && t.nodes[n].pubKey == k;
    if m != n {
      var b :| b in peers[j] && b.Has(a);
      var c :| c in peers[k] && c.Has(a);
      BlocksDisjointByAddress(cfg, t, m, n, b, c, a);
    }
  }

  lemma BlocksDisjointByAddress(cfg: Config, t: Tables, m: int, n: int, b: Block, c: Block, a: int)
    requires ConfigOk(cfg) && RowsProper(cfg, t) && m in t.nodes && n in t.nodes && m != n
    requires b in PeerBlocks(t, m) && c in PeerBlocks(t, n)
    ensures !(b.Has(a) && c.Has(a))
  {
    SmallSizes();
    RoutesShareNothing(cfg, t, m, n, a);
    if b in NodeRoutes(t, m) && c !in NodeRoutes(t, n) && b.Has(a) {
      HostOutsidePool(cfg, t, n, b, a);
    } else if c in NodeRoutes(t, n) && b !in NodeRoutes(t, m) && c.Has(a) {
      HostOutsidePool(cfg, t, m, c, a);
    }
  }

  lemma RoutesShareNothing(cfg: Config, t: Tables, m: int, n: int, a: int)
    requires RowsProper(cfg, t) && m != n
    ensures forall b, c :: b in NodeRoutes(t, m) && c in NodeRoutes(t, n) ==> !(b.Has(a) && c.Has(a))
  {
    forall i, k | i in t.anns && k in t.anns && t.anns[i].node == m && t.anns[k].node == n
      ensures !(t.anns[i].Synthetic().Has(a) && t.anns[k].Synthetic().Has(a))
    {
      OverlapsIffShared(t.anns[i].Synthetic(), t.anns[k].Synthetic());
    }
  }

  lemma HostOutsidePool(cfg: Config, t: Tables, n: int, b: Block, a: int)
    requires ConfigOk(cfg) && RowsProper(cfg, t) && n in t.nodes
    requires exists m :: b in NodeRoutes(t, m)
    requires b.Has(a)
    ensures a != t.nodes[n].ip
  {
    var m :| b in NodeRoutes(t, m);
    var i :| i in t.anns && t.anns[i].node == m && b == t.anns[i].Synthetic();
    assert BlockProper(cfg, t.anns[i]);
    PoolRejectedIsOverlap(cfg.pool.value, cfg.network);
    assert BlockFromPrefix(cfg.pool.value).Has(a);
    ServerAddressGuardsTheRange(cfg.network);
  }
}
