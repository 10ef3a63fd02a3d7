/** Server and client together: what a node's client decides to route is what the server's chain
    and peers will carry for it, and a router's two ways of computing its translations agree. */
module EndToEnd {
  import opened Cidr
  import opened Common
  import opened Ipam
  import opened Schema
  import opened Netfw
  import opened Wireguard
  import opened Derive
  import opened Control
  import opened Upkeep
  import opened Sorting
  import opened RouteSync
  import opened Nat

  // ---------------------------------------------------------------- what the API answers

  function RowOf(t: Tables, a: int): Row
    requires a in t.anns && t.anns[a].node in t.nodes
  {
    var ann := t.anns[a];
    Row(a, Some(PrefixOf(ann.Real())), Some(PrefixOf(ann.Synthetic())), ann.node, t.nodes[ann.node].name)
  }

  /** One zone's list and members, as the server reads them from its rows. */
  ghost predicate ListsZone(t: Tables, z: int, rows: Option<seq<Row>>, ips: Option<seq<uint32>>)
    requires Consistent(t)
  {
    && rows.Some? && ips.Some?
    && (forall r :: r in rows.value <==> exists a :: Link(a, z) in t.links && r == RowOf(t, a))
    && (forall i, j :: 0 <= i < j < |rows.value| ==> rows.value[i].id != rows.value[j].id)
    && Elems(ips.value) == MemberIPs(t, z)
  }

  ghost predicate Visible(t: Tables, user: int, name: string) {
    exists z :: z in t.zones && t.zones[z].name == name && Participates(t, z, user)
  }

  /** The zones a user sees, each once, and the truth about each of them. */
  ghost predicate Answers(t: Tables, user: int, zones: seq<string>, list: Lister,
                          members: string -> Option<seq<uint32>>)
    requires Consistent(t)
  {
    && (forall name :: name in zones <==> Visible(t, user, name))
    && (forall i, j :: 0 <= i < j < |zones| ==> zones[i] != zones[j])
    && (forall z :: z in t.zones && Participates(t, z, user) ==>
          ListsZone(t, z, list(t.zones[z].name), members(t.zones[z].name)))
  }

  lemma MemberParticipates(t: Tables, z: int, n: int)
    requires Consistent(t) && Member(z, n) in t.members
    ensures z in t.zones && n in t.nodes && Participates(t, z, t.nodes[n].user)
  {}

  lemma AddressIsMember(t: Tables, z: int, n: int)
    requires Consistent(t) && UniqueNodes(t.nodes) && n in t.nodes
    ensures t.nodes[n].ip in MemberIPs(t, z) <==> Member(z, n) in t.members
  {}

  /** The rows listed in the node's zones are the announcements attached there. */
  lemma ListedHere(t: Tables, n: int, zones: seq<string>, list: Lister, members: string -> Option<seq<uint32>>, r: Row)
    requires Consistent(t) && UniqueNodes(t.nodes) && UniqueZoneNames(t.zones) && n in t.nodes
    requires Answers(t, t.nodes[n].user, zones, list, members)
    ensures Listed(MemberZonesOf(zones, members, t.nodes[n].ip), list, r) <==>
            exists l :: l in t.links && Member(l.zone, n) in t.members && r == RowOf(t, l.ann)
  {
    var mine := MemberZonesOf(zones, members, t.nodes[n].ip);
    if Listed(mine, list, r) {
      var name :| name in mine && list(name).Some? && r in list(name).value;
      var z :| z in t.zones && t.zones[z].name == name && Participates(t, z, t.nodes[n].user);
      AddressIsMember(t, z, n);
      assert t.nodes[n].ip in Elems(members(name).value);
      var a :| Link(a, z) in t.links && r == RowOf(t, a);
      assert Link(a, z).zone == z;
    }
    if l :| l in t.links && Member(l.zone, n) in t.members && r == RowOf(t, l.ann) {
      MemberParticipates(t, l.zone, n);
      AddressIsMember(t, l.zone, n);
      var name := t.zones[l.zone].name;
      assert Visible(t, t.nodes[n].user, name);
      assert t.nodes[n].ip in Elems(members(name).value);
      assert Link(l.ann, l.zone) == l;
      assert name in mine && r in list(name).value;
    }
  }

  // ---------------------------------------------------------------- reachability

  /** The chain accepts a new flow from n to x, and some other node's peer owns x. */
  ghost predicate Carried(t: Tables, p: Peers, f: Table, n: int, x: uint32)
    requires n in t.nodes
  {
    && Verdict(f, Packet(false, true, t.nodes[n].ip, x))
    && exists key :: key != t.nodes[n].pubKey && Covers(p, key, x)
  }

  /** x lies in a block that n's client routes. */
  ghost predicate Routed(entries: seq<Entry>, n: int, x: int) {
    exists q :: q in Prefixes(ConsumedOf(entries, n)) && BlockFromPrefix(q).Has(x)
  }

  /** In the database's terms: another node's block holding x is attached to a zone of n's. */
  ghost predicate Attaches(t: Tables, n: int, x: int, l: Link) {
    && l in t.links && Member(l.zone, n) in t.members
    && l.ann in t.anns && t.anns[l.ann].node != n && t.anns[l.ann].Synthetic().Has(x)
  }

  lemma RoutedIffAttached(cfg: Config, t: Tables, n: int, zones: seq<string>, list: Lister,
                          members: string -> Option<seq<uint32>>, entries: seq<Entry>, x: int)
    requires Invariant(cfg, t) && n in t.nodes && Answers(t, t.nodes[n].user, zones, list, members)
    requires IsFetch(MemberZonesOf(zones, members, t.nodes[n].ip), list, entries)
    ensures Routed(entries, n, x) <==> exists l :: Attaches(t, n, x, l)
  {
    if Routed(entries, n, x) {
      var l := RoutedAttached(cfg, t, n, zones, list, members, entries, x);
    }
    if l :| Attaches(t, n, x, l) {
      AttachedRouted(cfg, t, n, zones, list, members, entries, x, l);
    }
  }

  lemma RoutedAttached(cfg: Config, t: Tables, n: int, zones: seq<string>, list: Lister,
                       members: string -> Option<seq<uint32>>, entries: seq<Entry>, x: int) returns (l: Link)
    requires Invariant(cfg, t) && n in t.nodes && Answers(t, t.nodes[n].user, zones, list, members)
    requires IsFetch(MemberZonesOf(zones, members, t.nodes[n].ip), list, entries) && Routed(entries, n, x)
    ensures Attaches(t, n, x, l)
  {
    hide Consistent, RowsProper, Answers, Listed;
    var q :| q in Prefixes(ConsumedOf(entries, n)) && BlockFromPrefix(q).Has(x);
    var e := ConsumedEntry(entries, n, q);
    l := EntryIsLink(cfg, t, n, zones, list, members, e);
    SynthBack(cfg, t, l.ann);
  }

  lemma ConsumedEntry(entries: seq<Entry>, n: int, q: Prefix) returns (e: Entry)
    requires q in Prefixes(ConsumedOf(entries, n))
    ensures e in entries && e.node != n && e.synthetic == q
  {
    ConsumedExact(entries, n);
    var kept := ConsumedOf(entries, n);
    var i :| 0 <= i < |kept| && Prefixes(kept)[i] == q;
    e := kept[i];
    assert e in kept && e in OthersOf(entries, n);
  }

  /** Every entry is some attachment in a zone of n's. */
  lemma EntryIsLink(cfg: Config, t: Tables, n: int, zones: seq<string>, list: Lister,
                    members: string -> Option<seq<uint32>>, e: Entry) returns (l: Link)
    requires Invariant(cfg, t) && n in t.nodes && Answers(t, t.nodes[n].user, zones, list, members)
    requires IsEntry(MemberZonesOf(zones, members, t.nodes[n].ip), list, e)
    ensures l in t.links && Member(l.zone, n) in t.members && l.ann in t.anns && Describes(RowOf(t, l.ann), e)
  {
    var mine := MemberZonesOf(zones, members, t.nodes[n].ip);
    var r :| Listed(mine, list, r) && Describes(r, e);
    ListedHere(t, n, zones, list, members, r);
    l :| l in t.links && Member(l.zone, n) in t.members && r == RowOf(t, l.ann);
  }

  lemma SynthBack(cfg: Config, t: Tables, a: int)
    requires Invariant(cfg, t) && a in t.anns
    ensures BlockFromPrefix(PrefixOf(t.anns[a].Synthetic())) == t.anns[a].Synthetic()
  {
    assert BlockProper(cfg, t.anns[a]);
    PrefixRoundTrip(t.anns[a].Synthetic());
  }

  lemma AttachedRouted(cfg: Config, t: Tables, n: int, zones: seq<string>, list: Lister,
                       members: string -> Option<seq<uint32>>, entries: seq<Entry>, x: int, l: Link)
    requires Invariant(cfg, t) && n in t.nodes && Answers(t, t.nodes[n].user, zones, list, members)
    requires IsFetch(MemberZonesOf(zones, members, t.nodes[n].ip), list, entries) && Attaches(t, n, x, l)
    ensures Routed(entries, n, x)
  {
    var mine := MemberZonesOf(zones, members, t.nodes[n].ip);
    ListedHere(t, n, zones, list, members, RowOf(t, l.ann));
    var e :| e in entries && e.id == l.ann;
    var k := EntryIsLink(cfg, t, n, zones, list, members, e);
    SynthBack(cfg, t, l.ann);
    ConsumedExact(entries, n);
    assert e in OthersOf(entries, n);
    assert e.synthetic in Prefixes(ConsumedOf(entries, n));
  }

  lemma CarriedIffAttached(cfg: Config, t: Tables, p: Peers, f: Table, n: int, x: uint32)
    requires Faithful(cfg, t, p, f) && n in t.nodes && cfg.pool.Some? && BlockFromPrefix(cfg.pool.value).Has(x)
    ensures Carried(t, p, f, n, x) <==> (x != SPACE - 1 && exists l :: Attaches(t, n, x, l))
  {
    if Carried(t, p, f, n, x) {
      var l := CarriedAttached(cfg, t, p, f, n, x);
    }
    if x != SPACE - 1 {
      if l :| Attaches(t, n, x, l) {
        AttachedCarried(cfg, t, p, f, n, x, l);
      }
    }
  }

  /** No node's own address is in the synthetic pool. */
  lemma NodesOutsidePool(cfg: Config, t: Tables, n: int)
    requires Invariant(cfg, t) && cfg.pool.Some? && n in t.nodes
    ensures !BlockFromPrefix(cfg.pool.value).Has(t.nodes[n].ip)
  {
    PoolRejectedIsOverlap(cfg.pool.value, cfg.network);
    ServerAddressGuardsTheRange(cfg.network);
  }

  lemma CarriedAttached(cfg: Config, t: Tables, p: Peers, f: Table, n: int, x: uint32) returns (l: Link)
    requires Faithful(cfg, t, p, f) && n in t.nodes && cfg.pool.Some? && BlockFromPrefix(cfg.pool.value).Has(x)
    requires Carried(t, p, f, n, x)
    ensures Attaches(t, n, x, l) && x != SPACE - 1
  {
    var pkt := Packet(false, true, t.nodes[n].ip, x);
    VerdictIsPolicy(f, pkt);
    assert forall z :: !SharesZone(f, z, pkt) by {
      forall z ensures !SharesZone(f, z, pkt) { NoMemberInPool(cfg, t, f, z, x); }
    }
    var z :| SendsToRoute(f, z, pkt);
    l := AcceptedByRoute(cfg, t, f, z, n, x);
    var key :| key != t.nodes[n].pubKey && Covers(p, key, x);
    OwnerCovers(t, p, l.ann, x);
    AtMostOnePeer(cfg, t, p, key, t.nodes[t.anns[l.ann].node].pubKey, x);
  }

  lemma NoMemberInPool(cfg: Config, t: Tables, f: Table, z: int, x: uint32)
    requires Invariant(cfg, t) && TableMatches(t, f) && cfg.pool.Some? && BlockFromPrefix(cfg.pool.value).Has(x)
    ensures !InSet(f, ZoneSet(z), x)
  {
    forall m | m in t.members && m.node in t.nodes ensures t.nodes[m.node].ip != x {
      NodesOutsidePool(cfg, t, m.node);
    }
  }

  lemma AcceptedByRoute(cfg: Config, t: Tables, f: Table, z: int, n: int, x: uint32) returns (l: Link)
    requires Invariant(cfg, t) && TableMatches(t, f) && n in t.nodes
    requires InSet(f, ZoneSet(z), t.nodes[n].ip) && InSet(f, RoutesSet(z), x)
    ensures l in t.links && Member(l.zone, n) in t.members && l.ann in t.anns && t.anns[l.ann].Synthetic().Has(x)
    ensures x != SPACE - 1
  {
    AddressIsMember(t, z, n);
    var e :| e in f.routes[z] && e.Has(x);
    var b :| b in ZoneRoutes(t, z) && RangeElements(b) == e;
    l :| l in t.links && l.zone == z && l.ann in t.anns && t.anns[l.ann].Synthetic() == b;
    assert BlockProper(cfg, t.anns[l.ann]);
    AlignedFits(b);
    RangeElementsExact(b, x);
  }

  lemma OwnerCovers(t: Tables, p: Peers, a: int, x: int)
    requires Consistent(t) && PeersMatch(t, p) && a in t.anns && t.anns[a].Synthetic().Has(x)
    ensures Covers(p, t.nodes[t.anns[a].node].pubKey, x)
  {}

  lemma AttachedCarried(cfg: Config, t: Tables, p: Peers, f: Table, n: int, x: uint32, l: Link)
    requires Faithful(cfg, t, p, f) && n in t.nodes && Attaches(t, n, x, l) && x != SPACE - 1
    ensures Carried(t, p, f, n, x)
  {
    var pkt := Packet(false, true, t.nodes[n].ip, x);
    AddressIsMember(t, l.zone, n);
    var b := t.anns[l.ann].Synthetic();
    assert b in ZoneRoutes(t, l.zone);
    assert BlockProper(cfg, t.anns[l.ann]);
    AlignedFits(b);
    RangeElementsExact(b, x);
    assert RangeElements(b) in f.routes[l.zone];
    assert SendsToRoute(f, l.zone, pkt);
    VerdictIsPolicy(f, pkt);
    OwnerCovers(t, p, l.ann, x);
  }

  /** No black hole and nothing missing: in any state the server can be in, an address of the
      synthetic pool is carried for node n exactly when n's client routes it. The one exception
      is the last address of the address space, which the route sets cannot express. */
  lemma ClientRoutesAreExact(cfg: Config, t: Tables, p: Peers, f: Table, n: int, zones: seq<string>, list: Lister,
                             members: string -> Option<seq<uint32>>, entries: seq<Entry>, x: uint32)
    requires Faithful(cfg, t, p, f) && n in t.nodes && Answers(t, t.nodes[n].user, zones, list, members)
    requires IsFetch(MemberZonesOf(zones, members, t.nodes[n].ip), list, entries)
    requires cfg.pool.Some? && BlockFromPrefix(cfg.pool.value).Has(x)
    ensures Carried(t, p, f, n, x) <==> Routed(entries, n, x) && x != SPACE - 1
  {
    CarriedIffAttached(cfg, t, p, f, n, x);
    RoutedIffAttached(cfg, t, n, zones, list, members, entries, x);
  }

  /** The client never routes an address outside the synthetic pool. */
  lemma RoutedInPool(cfg: Config, t: Tables, n: int, zones: seq<string>, list: Lister,
                     members: string -> Option<seq<uint32>>, entries: seq<Entry>, x: int)
    requires Invariant(cfg, t) && n in t.nodes && Answers(t, t.nodes[n].user, zones, list, members)
    requires IsFetch(MemberZonesOf(zones, members, t.nodes[n].ip), list, entries) && Routed(entries, n, x)
    ensures cfg.pool.Some? && BlockFromPrefix(cfg.pool.value).Has(x)
  {
    var l := RoutedAttached(cfg, t, n, zones, list, members, entries, x);
    assert BlockProper(cfg, t.anns[l.ann]);
  }

  /** Isolation, in the database's terms: a node opens a flow to another exactly if some zone has
      both as members. */
  lemma NodesMeetInAZone(cfg: Config, t: Tables, p: Peers, f: Table, m: int, n: int)
    requires Faithful(cfg, t, p, f) && m in t.nodes && n in t.nodes
    ensures Verdict(f, Packet(false, true, t.nodes[m].ip, t.nodes[n].ip))
       <==> exists z :: Member(z, m) in t.members && Member(z, n) in t.members
  {
    var pkt := Packet(false, true, t.nodes[m].ip, t.nodes[n].ip);
    VerdictIsPolicy(f, pkt);
    forall z ensures SharesZone(f, z, pkt) <==> Member(z, m) in t.members && Member(z, n) in t.members {
      AddressIsMember(t, z, m);
      AddressIsMember(t, z, n);
    }
    forall z ensures !SendsToRoute(f, z, pkt) { NoRouteToANode(cfg, t, f, z, n); }
  }

  /** And it arrives there: the device sends a node's address to that node's peer and to no other. */
  lemma AddressReachesItsNode(cfg: Config, t: Tables, p: Peers, f: Table, n: int, key: string)
    requires Faithful(cfg, t, p, f) && n in t.nodes
    ensures Covers(p, key, t.nodes[n].ip) <==> key == t.nodes[n].pubKey
  {
    hide ConfigOk, RowsProper, TableMatches;
    var own, ip := t.nodes[n].pubKey, t.nodes[n].ip;
    SmallSizes();
    assert own in Keys(t) && Host(ip) in p[own] && Host(ip).Has(ip);
    if Covers(p, key, ip) {
      AtMostOnePeer(cfg, t, p, key, own, ip);
    }
  }

  lemma NoRouteToANode(cfg: Config, t: Tables, f: Table, z: int, n: int)
    requires Invariant(cfg, t) && TableMatches(t, f) && n in t.nodes
    ensures !InSet(f, RoutesSet(z), t.nodes[n].ip)
  {
    forall l | l in t.links && l.ann in t.anns ensures !RangeElements(t.anns[l.ann].Synthetic()).Has(t.nodes[n].ip) {
      var b := t.anns[l.ann].Synthetic();
      assert BlockProper(cfg, t.anns[l.ann]);
      AlignedFits(b);
      RangeElementsExact(b, t.nodes[n].ip);
      NodesOutsidePool(cfg, t, n);
    }
  }

  // ---------------------------------------------------------------- the two rule computations

  lemma {:induction false} MineIncreasing(entries: seq<Entry>, n: int)
    requires IncreasingIds(entries)
    ensures IncreasingIds(MineOf(entries, n))
  {
    if entries != [] {
      var rest, last := entries[..|entries| - 1], entries[|entries| - 1];
      MineIncreasing(rest, n);
      forall e | e in MineOf(rest, n) ensures e.id < last.id {
        var i :| 0 <= i < |rest| && rest[i] == e;
        assert entries[i] == e;
      }
      assert forall i :: 0 <= i < |MineOf(rest, n)| ==> MineOf(rest, n)[i] in MineOf(rest, n);
    }
  }

  /** What `Listed` means over all the zones the user sees. */
  lemma ListedAnywhere(t: Tables, user: int, zones: seq<string>, list: Lister,
                       members: string -> Option<seq<uint32>>, name: string, r: Row)
    requires Consistent(t) && UniqueZoneNames(t.zones) && Answers(t, user, zones, list, members)
    requires name in zones && list(name).Some? && r in list(name).value
    ensures r.id in t.anns && r == RowOf(t, r.id)
    ensures exists z :: z in t.zones && t.zones[z].name == name && Link(r.id, z) in t.links
  {}

  /** A zone that lists one of n's announcements is a zone n is in. */
  lemma OwnOnlyInMemberZones(t: Tables, n: int, zones: seq<string>, list: Lister,
                             members: string -> Option<seq<uint32>>, name: string, r: Row)
    requires Consistent(t) && UniqueNodes(t.nodes) && UniqueZoneNames(t.zones) && n in t.nodes
    requires Answers(t, t.nodes[n].user, zones, list, members)
    requires name in zones && list(name).Some? && r in list(name).value && r.node == n
    ensures name in MemberZonesOf(zones, members, t.nodes[n].ip)
  {
    ListedAnywhere(t, t.nodes[n].user, zones, list, members, name, r);
    var z :| z in t.zones && t.zones[z].name == name && Link(r.id, z) in t.links;
    assert Member(Link(r.id, z).zone, n) in t.members;
    MemberParticipates(t, z, n);
    AddressIsMember(t, z, n);
    assert t.nodes[n].ip in Elems(members(name).value);
  }

  lemma {:induction false} TimesZero(rows: seq<Row>, id: int)
    ensures Times(rows, id) == 0 <==> forall r :: r in rows ==> r.id != id
  {
    if rows != [] {
      TimesZero(rows[..|rows| - 1], id);
      assert rows == rows[..|rows| - 1] + [rows[|rows| - 1]];
    }
  }

  lemma {:induction false} MemberZonesCount(zones: seq<string>, members: string -> Option<seq<uint32>>, self: uint32,
                                            name: string)
    ensures multiset(MemberZonesOf(zones, members, self))[name] ==
            if MemberOf(members, self, name) then multiset(zones)[name] else 0
  {
    if zones != [] {
      MemberZonesCount(zones[..|zones| - 1], members, self, name);
      assert zones == zones[..|zones| - 1] + [zones[|zones| - 1]];
    }
  }

  /** Leaving out the zones the node is not in changes nothing about its own announcements. */
  lemma OwnListing(t: Tables, n: int, zones: seq<string>, list: Lister, members: string -> Option<seq<uint32>>, a: int)
    requires Consistent(t) && UniqueNodes(t.nodes) && UniqueZoneNames(t.zones) && n in t.nodes
    requires Answers(t, t.nodes[n].user, zones, list, members)
    requires a in t.anns && t.anns[a].node == n
    ensures Listing(MemberZonesOf(zones, members, t.nodes[n].ip), list, a) == Listing(zones, list, a)
  {
    forall name
      ensures Listing(MemberZonesOf(zones, members, t.nodes[n].ip), list, a)[name] == Listing(zones, list, a)[name] {
      OwnListingAt(t, n, zones, list, members, a, name);
    }
  }

  lemma OwnListingAt(t: Tables, n: int, zones: seq<string>, list: Lister, members: string -> Option<seq<uint32>>,
                     a: int, name: string)
    requires Consistent(t) && UniqueNodes(t.nodes) && UniqueZoneNames(t.zones) && n in t.nodes
    requires Answers(t, t.nodes[n].user, zones, list, members) && a in t.anns && t.anns[a].node == n
    ensures Listing(MemberZonesOf(zones, members, t.nodes[n].ip), list, a)[name] == Listing(zones, list, a)[name]
  {
    hide Answers, Consistent, UniqueNodes, UniqueZoneNames, Listing, Times;
    ListingCounts(MemberZonesOf(zones, members, t.nodes[n].ip), list, a, name);
    ListingCounts(zones, list, a, name);
    MemberZonesCount(zones, members, t.nodes[n].ip, name);
    if !MemberOf(members, t.nodes[n].ip, name) {
      if name in zones {
        NotListedElsewhere(t, n, zones, list, members, a, name);
      } else {
        assert multiset(zones)[name] == 0;
      }
    }
  }

  lemma NotListedElsewhere(t: Tables, n: int, zones: seq<string>, list: Lister,
                           members: string -> Option<seq<uint32>>, a: int, name: string)
    requires Consistent(t) && UniqueNodes(t.nodes) && UniqueZoneNames(t.zones) && n in t.nodes
    requires Answers(t, t.nodes[n].user, zones, list, members)
    requires a in t.anns && t.anns[a].node == n && name in zones && !MemberOf(members, t.nodes[n].ip, name)
    ensures Times(RowsOf(list, name), a) == 0
  {
    forall r | r in RowsOf(list, name) ensures r.id != a {
      ListedAnywhere(t, t.nodes[n].user, zones, list, members, name, r);
      if r.node == n { OwnOnlyInMemberZones(t, n, zones, list, members, name, r); }
    }
    TimesZero(RowsOf(list, name), a);
  }

  /** An own entry of either fetch is in the other. */
  lemma OwnEntryShared(t: Tables, n: int, zones: seq<string>, list: Lister, members: string -> Option<seq<uint32>>,
                       here: seq<string>, there: seq<string>, entries: seq<Entry>, e: Entry)
    requires Consistent(t) && UniqueNodes(t.nodes) && UniqueZoneNames(t.zones) && n in t.nodes
    requires Answers(t, t.nodes[n].user, zones, list, members)
    requires var mine := MemberZonesOf(zones, members, t.nodes[n].ip);
             (here == zones && there == mine) || (here == mine && there == zones)
    requires IsEntry(here, list, e) && e.node == n && IsFetch(there, list, entries)
    ensures e in entries
  {
    var mine := MemberZonesOf(zones, members, t.nodes[n].ip);
    var r :| Listed(here, list, r) && Describes(r, e);
    var name :| name in here && list(name).Some? && r in list(name).value;
    OwnOnlyInMemberZones(t, n, zones, list, members, name, r);
    assert name in there && Listed(there, list, r);
    ListedAnywhere(t, t.nodes[n].user, zones, list, members, name, r);
    var d :| d in entries && d.id == e.id;
    assert IsEntry(there, list, d);
    var q :| Listed(there, list, q) && Describes(q, d);
    var other :| other in there && list(other).Some? && q in list(other).value;
    ListedAnywhere(t, t.nodes[n].user, zones, list, members, other, q);
    OwnListing(t, n, zones, list, members, e.id);
    StringLeTotal();
    SortedUnique(StringLe, d.zones, e.zones);
  }

  /** The rules computed over every zone the user sees are those computed over the zones the
      router is in: its announcements are attached nowhere else. */
  lemma RuleComputationsAgree(t: Tables, n: int, zones: seq<string>, list: Lister,
                              members: string -> Option<seq<uint32>>,
                              all: seq<Entry>, own: seq<Entry>)
    requires Consistent(t) && UniqueNodes(t.nodes) && UniqueZoneNames(t.zones) && n in t.nodes
    requires Answers(t, t.nodes[n].user, zones, list, members)
    requires IsFetch(zones, list, all) && IsFetch(MemberZonesOf(zones, members, t.nodes[n].ip), list, own)
    ensures MineOf(all, n) == MineOf(own, n)
    ensures RulesFor(MineOf(all, n)) == RulesFor(MineOf(own, n))
    ensures OwnEntries(MineOf(all, n)) == OwnEntries(MineOf(own, n))
  {
    var mine := MemberZonesOf(zones, members, t.nodes[n].ip);
    forall e ensures e in MineOf(all, n) <==> e in MineOf(own, n) {
      if e in MineOf(all, n) { OwnEntryShared(t, n, zones, list, members, zones, mine, own, e); }
      if e in MineOf(own, n) { OwnEntryShared(t, n, zones, list, members, mine, zones, all, e); }
    }
    MineIncreasing(all, n);
    MineIncreasing(own, n);
    SameIncreasing(MineOf(all, n), MineOf(own, n));
  }

  // ---------------------------------------------------------------- the router's table

  ghost function TableFor(entries: seq<Entry>, n: int): seq<Mapping> {
    var mine := MineOf(entries, n);
    seq(|mine|, i requires 0 <= i < |mine| => MappingOf(RulesFor(mine)[i]))
  }

  ghost predicate MapsAnn(t: Tables, n: int, a: int, m: Mapping) {
    a in t.anns && t.anns[a].node == n && m == Mapping(t.anns[a].Synthetic(), t.anns[a].Real())
  }

  /** The blocks of an own entry are the blocks of its announcement. */
  lemma OwnMapping(cfg: Config, t: Tables, n: int, zones: seq<string>, list: Lister,
                   members: string -> Option<seq<uint32>>,
                   entries: seq<Entry>, i: int)
    requires Invariant(cfg, t) && n in t.nodes && Answers(t, t.nodes[n].user, zones, list, members)
    requires IsFetch(MemberZonesOf(zones, members, t.nodes[n].ip), list, entries) && 0 <= i < |MineOf(entries, n)|
    ensures MapsAnn(t, n, MineOf(entries, n)[i].id, TableFor(entries, n)[i])
  {
    var e := MineOf(entries, n)[i];
    assert e in MineOf(entries, n);
    var l := EntryIsLink(cfg, t, n, zones, list, members, e);
    SynthBack(cfg, t, l.ann);
    assert BlockProper(cfg, t.anns[l.ann]);
    PrefixRoundTrip(t.anns[l.ann].Real());
  }

  /** In every state of the server, the table a router builds is a proper one, so its translation
      is a bijection from the router's synthetic blocks to its real ones. */
  lemma OwnRulesProper(cfg: Config, t: Tables, n: int, zones: seq<string>, list: Lister,
                       members: string -> Option<seq<uint32>>,
                       entries: seq<Entry>)
    requires Invariant(cfg, t) && n in t.nodes && Answers(t, t.nodes[n].user, zones, list, members)
    requires IsFetch(MemberZonesOf(zones, members, t.nodes[n].ip), list, entries)
    ensures ProperTable(TableFor(entries, n))
  {
    var mine, table := MineOf(entries, n), TableFor(entries, n);
    MineIncreasing(entries, n);
    forall i | 0 <= i < |table| ensures MapsAnn(t, n, mine[i].id, table[i]) {
      OwnMapping(cfg, t, n, zones, list, members, entries, i);
    }
    AnnTableProper(cfg, t, n, mine, table);
  }

  lemma AnnTableProper(cfg: Config, t: Tables, n: int, mine: seq<Entry>, table: seq<Mapping>)
    requires Invariant(cfg, t) && |mine| == |table| && IncreasingIds(mine)
    requires forall i :: 0 <= i < |table| ==> MapsAnn(t, n, mine[i].id, table[i])
    ensures ProperTable(table)
  {
    forall i, j | 0 <= i < |table| && 0 <= j < |table|
      ensures table[i].synth.Aligned() && table[i].lan.Aligned() && table[i].synth.prefixLen == table[i].lan.prefixLen
      ensures i < j ==> !Overlaps(table[i].synth, table[j].synth) && !Overlaps(table[i].lan, table[j].lan)
      ensures !Overlaps(table[i].lan, table[j].synth)
    {
      assert MapsAnn(t, n, mine[i].id, table[i]) && MapsAnn(t, n, mine[j].id, table[j]);
      assert BlockProper(cfg, t.anns[mine[i].id]) && BlockProper(cfg, t.anns[mine[j].id]);
    }
  }

  /** A flow the server carries arrives: the owner of the address translates it to the matching
      address of the subnet it announced. */
  lemma CarriedFlowArrives(cfg: Config, t: Tables, p: Peers, f: Table, n: int, x: uint32, owner: int,
                           zones: seq<string>,
                           list: Lister, members: string -> Option<seq<uint32>>, entries: seq<Entry>)
    requires Faithful(cfg, t, p, f) && n in t.nodes && cfg.pool.Some? && BlockFromPrefix(cfg.pool.value).Has(x)
    requires Carried(t, p, f, n, x) && owner in t.nodes && Covers(p, t.nodes[owner].pubKey, x)
    requires Answers(t, t.nodes[owner].user, zones, list, members)
    requires IsFetch(MemberZonesOf(zones, members, t.nodes[owner].ip), list, entries)
    ensures exists a :: Announces(t, owner, a, x)
    ensures forall a :: Announces(t, owner, a, x) ==>
              var y := Translate(TableFor(entries, owner), x);
              && t.anns[a].Real().Has(y) && y - t.anns[a].Real().base == x - t.anns[a].Synthetic().base
  {
    var l := CarriedAttached(cfg, t, p, f, n, x);
    OwnerCovers(t, p, l.ann, x);
    AtMostOnePeer(cfg, t, p, t.nodes[owner].pubKey, t.nodes[t.anns[l.ann].node].pubKey, x);
    assert Announces(t, owner, l.ann, x);
    OwnRulesProper(cfg, t, owner, zones, list, members, entries);
    forall a | Announces(t, owner, a, x)
      ensures var y := Translate(TableFor(entries, owner), x);
              t.anns[a].Real().Has(y) && y - t.anns[a].Real().base == x - t.anns[a].Synthetic().base
    {
      var m := OwnRule(cfg, t, owner, zones, list, members, entries, a);
      TranslateBy(TableFor(entries, owner), m, x);
    }
  }

  ghost predicate Announces(t: Tables, n: int, a: int, x: int) {
    a in t.anns && t.anns[a].node == n && t.anns[a].Synthetic().Has(x)
  }

  /** Each of a router's announcements has its rule in the router's table. */
  lemma OwnRule(cfg: Config, t: Tables, n: int, zones: seq<string>, list: Lister,
                members: string -> Option<seq<uint32>>,
                entries: seq<Entry>, a: int) returns (m: Mapping)
    requires Invariant(cfg, t) && n in t.nodes && Answers(t, t.nodes[n].user, zones, list, members)
    requires IsFetch(MemberZonesOf(zones, members, t.nodes[n].ip), list, entries) && a in t.anns && t.anns[a].node == n
    ensures m in TableFor(entries, n) && m == Mapping(t.anns[a].Synthetic(), t.anns[a].Real())
  {
    var mine := MemberZonesOf(zones, members, t.nodes[n].ip);
    assert Attached(t, a);
    var l :| l in t.links && l.ann == a;
    assert Member(l.zone, n) in t.members;
    ListedHere(t, n, zones, list, members, RowOf(t, a));
    var e :| e in entries && e.id == a;
    var k := EntryIsLink(cfg, t, n, zones, list, members, e);
    assert e in MineOf(entries, n);
    var i :| 0 <= i < |MineOf(entries, n)| && MineOf(entries, n)[i] == e;
    OwnMapping(cfg, t, n, zones, list, members, entries, i);
    m := TableFor(entries, n)[i];
  }
}
