/** A server in use: a concrete run after which a router has announced a subnet into a zone it
    shares with a laptop, and one flow from the laptop to the far end. The statements about
    reachable states are about something; and from states of the same run the ways in which
    requests break the database or its kernel are real. */
module Witness {
  import opened Cidr
  import opened Common
  import opened Ipam
  import opened Schema
  import opened NodeAddresses
  import opened Netfw
  import opened Wireguard
  import opened Derive
  import opened Effects
  import opened Store
  import opened Control
  import opened Upkeep
  import opened RouteSync
  import opened Nat
  import opened EndToEnd
  import opened Overtaking

  const NETWORK := Prefix(0, 29)
  const POOL := Prefix(0x6400_0000, 30)
  const SUBNET := Prefix(0x0A00_0000, 30)
  const CFG := Config(NETWORK, Some(POOL), 2, 1, 1)

  const OWNER := Caller(1, false)
  const ADD := AddUser("u", true)
  const REGISTER := RegisterNode(OWNER, "r", "k", ROUTER_PLATFORM, NoFault)
  const REGISTER_LAPTOP := RegisterNode(OWNER, "l", "j", "linux", NoFault)
  const CREATE := CreateZone(OWNER, "z", Some(1), NoFault)
  const JOIN := JoinZone(OWNER, "z", true, 2, NoFault)
  const ANNOUNCE := Announce(OWNER, "z", 1, SUBNET, NoFault)

  const NODE := NodeRow(1, "r", "k", 2, ROUTER_PLATFORM)
  const LAPTOP := NodeRow(1, "l", "j", 3, "linux")
  const ANN := AnnRow(1, 0x0A00_0000, 30, 0x6400_0000)

  const T1 := EMPTY.(users := map[1 := UserRow("u", true)], next := Sequences(2, 1, 1, 1))
  const T2 := T1.(nodes := map[1 := NODE], next := Sequences(2, 2, 1, 1))
  const T3 := T2.(nodes := map[1 := NODE, 2 := LAPTOP], next := Sequences(2, 3, 1, 1))
  const T4 := T3.(zones := map[1 := ZoneRow("z", 1)], members := {Member(1, 1)}, next := Sequences(2, 3, 2, 1))
  const T5 := T4.(members := {Member(1, 1), Member(1, 2)})
  const T6 := T5.(anns := map[1 := ANN], links := {Link(1, 1)}, next := Sequences(2, 3, 2, 2))

  lemma BlockAt(base: uint32)
    requires base % 4 == 0
    ensures BlockFromPrefix(Prefix(base, 30)) == Block(base, 30) && Block(base, 30).Size() == 4
    ensures Block(base, 30).Aligned()
  {
    SmallSizes();
    assert Block(base, 30).Aligned() && Block(base, 30).Has(base);
  }

  lemma Blocks()
    ensures BlockFromPrefix(NETWORK) == Block(0, 29) && SizeOf(29) == 8
    ensures BlockFromPrefix(POOL) == Block(0x6400_0000, 30)
    ensures BlockFromPrefix(SUBNET) == Block(0x0A00_0000, 30) && SizeOf(30) == 4
  {
    SmallSizes();
    assert SizeOf(29) == 2 * SizeOf(30);
    assert Block(0, 29).Aligned() && Block(0, 29).Has(0);
    BlockAt(0x6400_0000);
    BlockAt(0x0A00_0000);
  }

  lemma AddressesOnOffer()
    ensures PoolRange(NETWORK) == Some(Range(2, 6))
  {
    Blocks();
    PoolRangeExact(NETWORK);
  }

  lemma SubnetIsPrivate()
    ensures IsPrivate(BlockFromPrefix(SUBNET))
  {
    Blocks();
    var private := RFC1918[0];
    assert BlockFromPrefix(private).Has(private.addr);
    ContainedByOneAddress(SUBNET, private);
  }

  lemma ConfigurationIsAccepted()
    ensures ConfigOk(CFG) && PoolRange(NETWORK) == Some(Range(2, 6)) && Announceable(CFG, BlockFromPrefix(SUBNET))
  {
    hide BlockFromPrefix, PoolRange, IsPrivate, SizeOf;
    Blocks();
    AddressesOnOffer();
    SubnetIsPrivate();
    BlockAt(0x0A00_0000);
  }

  lemma AddressIsFree()
    ensures LowestAddress({}, Range(2, 6)) == Some(2) && LowestAddress({2}, Range(2, 6)) == Some(3)
  {
    assert LowestIn({}, Range(2, 6), 2) && LowestIn({2}, Range(2, 6), 3);
  }

  lemma NodeIsCreated()
    ensures CreatedNode(T1, 1, "r", "k", ROUTER_PLATFORM, Range(2, 6), 2) == (T2, NodeCreated(1))
    ensures CreatedNode(T2, 1, "l", "j", "linux", Range(2, 6), 2) == (T3, NodeCreated(2))
  {
    hide LowestAddress;
    AddressIsFree();
    assert UsedIPs(T1) == {} && NodesOf(T1, 1) == {};
    assert T2.nodes.Keys == {1} && T2.nodes[1] == NODE;
    assert UsedIPs(T2) == {2} && NodesOf(T2, 1) == {1};
  }

  lemma NodeIsRegistered()
    ensures Registered(CFG, T1, REGISTER) == (T2, Done) && Registered(CFG, T2, REGISTER_LAPTOP) == (T3, Done)
  {
    hide CreatedNode, PoolRange, ConfigOk, Announceable;
    ConfigurationIsAccepted();
    NodeIsCreated();
  }

  lemma ZoneIsMade()
    ensures ZoneMade(CFG, T3, CREATE) == (T4, Done)
  {
    assert ZonesOf(T3, 1) == {};
  }

  lemma OneZone(t: Tables)
    requires t.zones == T4.zones
    ensures ZoneNamed(t, "z") == Some(1)
  {
    assert ZonesNamed(t, "z") == {1};
  }

  lemma LaptopJoins()
    ensures Joined(T4, JOIN) == (T5, Done)
  {
    OneZone(T4);
    assert T4.members + {Member(1, 2)} == T5.members;
  }

  lemma BlockIsFree()
    ensures LowestFree(POOL, 30, {}) == Allocated(Block(0x6400_0000, 30))
  {
    Blocks();
    var b := Block(0x6400_0000, 30);
    BlockAt(b.base);
    assert Fits(POOL, 30, {}, b);
    assert LowestFit(POOL, 30, {}, b);
  }

  lemma AnnouncementIsCreated()
    ensures CreatedAnn(T5, 1, 1, Block(0x0A00_0000, 30), 1, 1, POOL) == (T6, Announced(1, ANN, true))
  {
    hide LowestFree, Overlaps;
    BlockIsFree();
    assert AnnsFor(T5, 1, Block(0x0A00_0000, 30)) == {} && AnnsOf(T5, 1) == {} && UsedSynthetics(T5) == {};
    assert T5.links + {Link(1, 1)} == T6.links;
  }

  lemma SubnetIsAnnounced()
    ensures Advertised(CFG, T5, ANNOUNCE) == (T6, Done)
  {
    hide CreatedAnn, BlockFromPrefix, Announceable, ConfigOk, PoolRange, SizeOf;
    ConfigurationIsAccepted();
    Blocks();
    AnnouncementIsCreated();
    OneZone(T5);
  }

  lemma OneMore(t: Tables, op: Op, s: Tables, rest: seq<Op>)
    requires Next(CFG, t, op) == (s, Done)
    ensures After(CFG, t, [op] + rest) == After(CFG, s, rest)
    ensures Admissible(CFG, s, rest) ==> Admissible(CFG, t, [op] + rest)
  {
    assert ([op] + rest)[1..] == rest;
  }

  const RUN := [ADD, REGISTER, REGISTER_LAPTOP, CREATE, JOIN, ANNOUNCE]

  /** The run is served, every reply a success, and its last state has an announcement attached
      to a zone; like every reachable state it satisfies the invariant. */
  lemma ServerInUse()
    ensures Admissible(CFG, EMPTY, RUN) && After(CFG, EMPTY, RUN) == T6
    ensures Invariant(CFG, T6)
  {
    hide Next, Invariant, ConfigOk, FailedRejoin;
    EveryStep();
    LastSteps();
    OneMore(T2, REGISTER_LAPTOP, T3, RUN[3..]);
    OneMore(T1, REGISTER, T2, RUN[2..]);
    OneMore(EMPTY, ADD, T1, RUN[1..]);
    assert RUN == [ADD] + RUN[1..] && RUN[1..] == [REGISTER] + RUN[2..] && RUN[2..] == [REGISTER_LAPTOP] + RUN[3..];
    ConfigurationIsAccepted();
    EmptyInvariant(CFG);
    RunsKeepInvariant(CFG, EMPTY, RUN);
  }

  lemma LastSteps()
    ensures Admissible(CFG, T3, RUN[3..]) && After(CFG, T3, RUN[3..]) == T6
  {
    hide Next, FailedRejoin;
    EveryStep();
    OneMore(T5, ANNOUNCE, T6, []);
    OneMore(T4, JOIN, T5, [ANNOUNCE]);
    OneMore(T3, CREATE, T4, [JOIN, ANNOUNCE]);
    assert RUN[3..] == [CREATE] + [JOIN, ANNOUNCE] && [JOIN, ANNOUNCE] == [JOIN] + [ANNOUNCE];
    assert [ANNOUNCE] == [ANNOUNCE] + [];
  }

  lemma EveryStep()
    ensures Next(CFG, EMPTY, ADD) == (T1, Done) && Next(CFG, T1, REGISTER) == (T2, Done)
    ensures Next(CFG, T2, REGISTER_LAPTOP) == (T3, Done)
    ensures Next(CFG, T3, CREATE) == (T4, Done) && Next(CFG, T4, JOIN) == (T5, Done)
    ensures Next(CFG, T5, ANNOUNCE) == (T6, Done)
  {
    hide Registered, ZoneMade, Advertised, Joined;
    NodeIsRegistered();
    ZoneIsMade();
    LaptopJoins();
    SubnetIsAnnounced();
  }

  // ---------------------------------------------------------------- two ways to break it

  /** The router joins its zone once more, and the first kernel call fails. */
  const REJOIN := JoinZone(OWNER, "z", true, 1, FirstCall)

  lemma RejoinBreaks()
    ensures FailedRejoin(T6, REJOIN) && !Invariant(CFG, Next(CFG, T6, REJOIN).0)
  {
    hide Invariant, Next;
    ServerInUse();
    OneZone(T6);
    FailedRejoinBreaks(CFG, T6, REJOIN);
    assert Link(1, 1) in NodeZoneLinks(T6, 1, 1);
  }

  /** The zone is deleted; the announcement commits after the zone's attachments are gone and
      before the zone is. Its block stays reserved with nothing attached. */
  lemma LateAnnouncementIsOrphaned()
    ensures var u := Unlink(T5, ZoneLinks(T5, 1));
            && CreatedAnn(u, 1, 1, BlockFromPrefix(SUBNET), 1, 1, POOL) == (T6, Announced(1, ANN, true))
            && 1 in Cascade(T6.(zones := T6.zones - {1})).anns
            && !Consistent(Cascade(T6.(zones := T6.zones - {1})))
  {
    hide CreatedAnn, BlockFromPrefix;
    Blocks();
    AnnouncementIsCreated();
    assert Unlink(T5, ZoneLinks(T5, 1)) == T5;
    var d := Cascade(T6.(zones := T6.zones - {1}));
    assert 1 in d.anns && !Mentions(d.links, 1);
  }

  // ---------------------------------------------------------------- one flow

  const SYNTHETIC := Block(0x6400_0000, 30)
  const LAN := Block(0x0A00_0000, 30)

  const PEERS: Peers := map["k" := {Block(2, 32), SYNTHETIC}, "j" := {Block(3, 32)}]
  const TABLE := Table(map[1 := {2, 3}], map[1 := {RangeElements(SYNTHETIC)}], [Established, SameZone(1), ZoneRoute(1)])

  const ROW := Row(1, Some(SUBNET), Some(POOL), 1, "r")
  const LIST: Lister := name => Some([ROW])
  const MEMBERS: string -> Option<seq<uint32>> := name => Some([2, 3])
  const ENTRY := Entry(1, SUBNET, POOL, ["z"], 1, "r")

  lemma PeersInSync()
    ensures PeersMatch(T6, PEERS)
  {
    assert T6.anns.Keys == {1} && T6.anns[1] == ANN && ANN.Synthetic() == SYNTHETIC;
    assert NodeRoutes(T6, 1) == {SYNTHETIC} && NodeRoutes(T6, 2) == {};
    assert PeerBlocks(T6, 1) == PEERS["k"] && PeerBlocks(T6, 2) == PEERS["j"];
    assert Keys(T6) == PEERS.Keys by {
      assert 1 in T6.nodes && 2 in T6.nodes;
    }
  }

  lemma KernelInSync()
    ensures Synced(T6, PEERS, TABLE)
  {
    hide PeersMatch;
    PeersInSync();
    MembersAre();
    RoutesAre();
    assert WellBuilt(TABLE);
  }

  lemma MembersAre()
    ensures DerivedMembers(T6) == TABLE.members
  {
    assert Member(1, 1) in T6.members && Member(1, 2) in T6.members;
    assert MemberIPs(T6, 1) == {2, 3};
  }

  lemma RoutesAre()
    ensures DerivedRoutes(T6) == TABLE.routes
  {
    assert Link(1, 1) in T6.links;
    assert ZoneRoutes(T6, 1) == {SYNTHETIC};
    assert Ranges({SYNTHETIC}) == {RangeElements(SYNTHETIC)};
  }

  lemma ZoneIsSeen()
    ensures Participates(T6, 1, 1) && T6.zones[1].name == "z"
    ensures forall name :: Visible(T6, 1, name) <==> name == "z"
  {
    assert Member(1, 1) in T6.members && T6.nodes[1].user == 1;
  }

  lemma ZoneIsListed()
    requires Consistent(T6)
    ensures ListsZone(T6, 1, Some([ROW]), Some([2, 3]))
  {
    hide Consistent;
    assert Link(1, 1) in T6.links && RowOf(T6, 1) == ROW;
    MembersAre();
    assert DerivedMembers(T6)[1] == {2, 3} && Elems([2, 3]) == {2, 3};
  }

  lemma NothingDangles()
    ensures Consistent(T6)
  {
    hide Consistent;
    ServerInUse();
  }

  lemma ServerAnswers()
    ensures Consistent(T6) && Answers(T6, 1, ["z"], LIST, MEMBERS)
  {
    hide Consistent, Visible, ListsZone, Participates;
    NothingDangles();
    ZoneIsSeen();
    ZoneIsListed();
    assert T6.zones.Keys == {1};
  }

  lemma OnlyZone(self: uint32)
    requires self in {2, 3}
    ensures MemberZonesOf(["z"], MEMBERS, self) == ["z"]
  {
    assert ["z"][..0] == [] && MemberZonesOf([], MEMBERS, self) == [];
    assert MemberOf(MEMBERS, self, "z");
  }

  lemma RowCounts()
    ensures Times([ROW], 1) == 1
  {
    assert [ROW][..0] == [] && Times([], 1) == 0;
  }

  lemma ListedInZ()
    ensures Listing(["z"], LIST, 1) == multiset{"z"}
  {
    hide Times;
    RowCounts();
    assert ["z"][..0] == [] && Listing([], LIST, 1) == multiset{};
    assert RowsOf(LIST, "z") == [ROW];
  }

  lemma ClientFetches(self: uint32)
    requires self in {2, 3}
    ensures MemberZonesOf(["z"], MEMBERS, self) == ["z"] && IsFetch(["z"], LIST, [ENTRY])
  {
    hide Times, MemberZonesOf, Listing;
    OnlyZone(self);
    ListedInZ();
    assert LIST("z") == Some([ROW]) && ROW in [ROW] && "z" in ["z"];
    assert Listed(["z"], LIST, ROW);
    assert RouteSync.Describes(ROW, ENTRY);
    assert ENTRY.id == 1 && ENTRY.zones == ["z"] && |ENTRY.zones| == 1 && multiset(ENTRY.zones) == multiset{"z"};
    assert IsEntry(["z"], LIST, ENTRY);
  }

  /** The second address of the synthetic block, for which the laptop opens a flow. */
  const FAR: uint32 := 0x6400_0001

  lemma FarIsInThePool()
    ensures SYNTHETIC.Has(FAR) && BlockFromPrefix(POOL) == SYNTHETIC
  {
    Blocks();
    BlockAt(SYNTHETIC.base);
  }

  /** All the premises of the end-to-end statements hold at once in the state the run reaches:
      the laptop's client routes the address, the server carries it, and the router translates it
      to the second address of the announced subnet. */
  lemma OneFlow()
    ensures Faithful(CFG, T6, PEERS, TABLE) && Answers(T6, 1, ["z"], LIST, MEMBERS)
    ensures IsFetch(MemberZonesOf(["z"], MEMBERS, LAPTOP.ip), LIST, [ENTRY])
    ensures Routed([ENTRY], 2, FAR) && Carried(T6, PEERS, TABLE, 2, FAR)
    ensures Translate(TableFor([ENTRY], 1), FAR) == 0x0A00_0001
  {
    hide Invariant, Synced, Answers, IsFetch, Carried, BlockFromPrefix, Translate, TableFor;
    ServerInUse();
    KernelInSync();
    ServerAnswers();
    ClientFetches(LAPTOP.ip);
    ClientFetches(NODE.ip);
    FarIsInThePool();
    assert Prefixes(ConsumedOf([ENTRY], 2)) == [POOL] by {
      assert [ENTRY][..0] == [];
    }
    assert POOL in Prefixes(ConsumedOf([ENTRY], 2));
    assert Routed([ENTRY], 2, FAR);
    ClientRoutesAreExact(CFG, T6, PEERS, TABLE, 2, ["z"], LIST, MEMBERS, [ENTRY], FAR);
    CarriedFlowArrives(CFG, T6, PEERS, TABLE, 2, FAR, 1, ["z"], LIST, MEMBERS, [ENTRY]);
    assert Announces(T6, 1, 1, FAR);
  }

  // ---------------------------------------------------------------- one overtaken announcement

  const PEERS5: Peers := map["k" := {Block(2, 32)}, "j" := {Block(3, 32)}]
  const TABLE5 := Table(map[1 := {2, 3}], map[1 := {}], [Established, SameZone(1), ZoneRoute(1)])

  const DETACHED := [ZoneDetachment(1, 1, 1, SYNTHETIC, true)]
  const STALE := Table(map[1 := {3}], map[1 := {RangeElements(SYNTHETIC)}], [Established, SameZone(1), ZoneRoute(1)])

  lemma InvariantAtFive()
    ensures Invariant(CFG, T5)
  {
    hide Next, Invariant, ConfigOk;
    ConfigurationIsAccepted();
    EmptyInvariant(CFG);
    EveryStep();
    NextKeepsInvariant(CFG, EMPTY, ADD);
    NextKeepsInvariant(CFG, T1, REGISTER);
    NextKeepsInvariant(CFG, T2, REGISTER_LAPTOP);
    NextKeepsInvariant(CFG, T3, CREATE);
    NextKeepsInvariant(CFG, T4, JOIN);
  }

  lemma PeersBeforehand()
    ensures PeersMatch(T5, PEERS5)
  {
    assert T5.anns.Keys == {} && T5.nodes.Keys == {1, 2};
    assert NodeRoutes(T5, 1) == {} && NodeRoutes(T5, 2) == {};
    assert PeerBlocks(T5, 1) == PEERS5["k"] && PeerBlocks(T5, 2) == PEERS5["j"];
    assert Keys(T5) == PEERS5.Keys by {
      assert 1 in T5.nodes && 2 in T5.nodes;
    }
  }

  lemma TableBeforehand()
    ensures TableMatches(T5, TABLE5)
  {
    assert Member(1, 1) in T5.members && Member(1, 2) in T5.members;
    assert MemberIPs(T5, 1) == {2, 3};
    assert ZoneRoutes(T5, 1) == {} && Ranges({}) == {};
    assert WellBuilt(TABLE5);
  }

  lemma SyncedBeforehand()
    ensures Synced(T5, PEERS5, TABLE5)
  {
    hide PeersMatch, TableMatches;
    PeersBeforehand();
    TableBeforehand();
  }

  lemma RouterAnnounces()
    ensures AnnouncedInto(T5, T6, Announced(1, ANN, true), 1, 1)
  {
    assert T5.links + {Link(1, 1)} == T6.links && T5.anns[1 := ANN] == T6.anns;
  }

  lemma RouterLeaves()
    ensures var mid := T6.(members := T6.members - {Member(1, 1)});
            Detachments(mid, Expelled(T6, 1, 1), NodeZoneLinks(mid, 1, 1), DETACHED)
  {
    var mid := T6.(members := T6.members - {Member(1, 1)});
    assert NodeZoneLinks(mid, 1, 1) == {Link(1, 1)};
    assert ANN.Synthetic() == SYNTHETIC && Store.Describes(mid, Link(1, 1), DETACHED[0]);
    assert 1 !in Expelled(T6, 1, 1).anns;
  }

  lemma StaleTable()
    ensures TableAfter(TABLE5, STALE, Expulsion(T6, 1, 1, DETACHED), 1, ANN.Synthetic())
  {
    hide RangeElements, MinusMembers, MinusRoutes;
    var x := Expulsion(T6, 1, 1, DETACHED);
    OnlyOne((1, SYNTHETIC));
    assert Pairs(1, DETACHED) == [(1, SYNTHETIC)];
    assert DETACHED[0] in DETACHED;
    assert x.mem == {} + {(1, 2 as uint32)} && x.rts == {} + {(1, SYNTHETIC)};
    MinusNothing(TABLE5.members, TABLE5.routes);
    MinusMembersOne(TABLE5.members, {}, (1, 2));
    MinusRoutesOne(TABLE5.routes, {}, (1, SYNTHETIC));
    assert TABLE5.members[1] - {2} == {3} && TABLE5.routes[1] - {RangeElements(SYNTHETIC)} == {};
    var members, routes := MinusMembers(TABLE5.members, x.mem), MinusRoutes(TABLE5.routes, x.rts);
    assert members == TABLE5.members[1 := TABLE5.members[1] - {2}];
    assert routes == TABLE5.routes[1 := TABLE5.routes[1] - {RangeElements(SYNTHETIC)}];
    assert members - x.zones == STALE.members && routes - x.zones == routes;
    assert routes[1] == {} && routes[1] + {RangeElements(SYNTHETIC)} == {RangeElements(SYNTHETIC)};
    assert routes.Keys == {1} && STALE.routes == routes[1 := {RangeElements(SYNTHETIC)}];
    assert ANN.Synthetic() == SYNTHETIC;
    assert WellBuilt(STALE);
  }

  /** The router leaves its zone between its announcement's transaction and that announcement's
      kernel steps: whenever it does, the zone's set keeps a block that nobody announces. */
  lemma LeftWhileAnnouncing(m: Moment)
    ensures Faithful(CFG, T5, PEERS5, TABLE5) && AnnouncedInto(T5, T6, Announced(1, ANN, true), 1, 1)
    ensures var u, x := Expelled(T6, 1, 1), Expulsion(T6, 1, 1, DETACHED);
            && Invariant(CFG, u) && TableAfter(TABLE5, STALE, x, 1, ANN.Synthetic())
            && (forall i :: 0 <= i < |x.again| ==> x.again[i] in u.nodes)
            && !Synced(u, PeersAfter(PEERS5, T6, u, 1, x, m), STALE)
  {
    hide Invariant, Synced, AnnouncedInto, Detachments, TableAfter, PeersAfter, Expelled, Accounts, Expulsion;
    InvariantAtFive();
    ServerInUse();
    SyncedBeforehand();
    RouterAnnounces();
    RouterLeaves();
    StaleTable();
    var u := Expelled(T6, 1, 1);
    ExpulsionAccounted(CFG, T6, u, 1, 1, DETACHED);
    LeaveOvertakesAnnounce(CFG, T5, T6, PEERS5, TABLE5, STALE, Announced(1, ANN, true), 1, 1, 1, 1, DETACHED, m);
  }
}
