/** The router's reconcile pass (cmd/lanweave-routerd/main.go): one fetch of the announcements
    drives both the translation table and the consumer routes. */
module Reconcile {
  import opened Cidr
  import opened Common
  import opened Ipam
  import opened Schema
  import opened Netfw
  import opened Wireguard
  import opened Upkeep
  import opened RouteSync
  import opened EndToEnd
  import opened Routes
  import opened Router
  import Tunnel

  /** The router's own record of itself, its engine, and its translation table in the kernel. */
  class Reconciler {
    const node: int
    const self: uint32
    const engine: Engine
    var table: seq<NatRule>

    constructor (node: int, self: uint32, engine: Engine)
      ensures this.node == node && this.self == self && this.engine == engine && table == []
    {
      this.node, this.self, this.engine, table := node, self, engine, [];
    }

    /** reconcileAll. Without a fetch, or when the table cannot be replaced, rules and routes stay as
        they are. Otherwise the table is replaced, and then the routes, which takes an interface
        unless there is nothing to route. */
    method ReconcileAll(zones: Option<seq<string>>, members: string -> Option<seq<uint32>>, list: Lister,
                        tableOk: bool, env: Surroundings)
      returns (ok: bool, ghost fetched: Option<seq<Entry>>)
      requires engine.Valid()
      modifies this, engine
      ensures engine.Valid() && engine.iface == old(engine.iface) && engine.sound == old(engine.sound)
      ensures fetched.Some? ==> zones.Some? && IsFetch(MemberZonesOf(zones.value, members, self), list, fetched.value)
      ensures zones.Some? ==>
                var mine := MemberZonesOf(zones.value, members, self);
                && (fetched.None? ==> Broken(mine, list))
                && (!AllAnswer(mine, list) ==> fetched.None?)
                && (Agreeing(mine, list) ==> (fetched.None? <==> Broken(mine, list)))
      ensures fetched.None? || !tableOk ==> !ok && table == old(table) && engine.State() == old(engine.State())
      ensures fetched.Some? && tableOk ==>
                var wanted := Wanted(fetched.value, node);
                && table == RulesFor(MineOf(fetched.value, node))
                && (ok <==> engine.iface || wanted == [])
                && (!engine.iface ==> engine.State() == old(engine.State()))
                && (engine.iface ==> engine.State() == Diffed(old(engine.State()), engine.network, wanted, env))
                && (engine.sound ==> engine.State() == Requested(old(engine.State()), engine.network, wanted, env))
    {
      hide IsFetch, Broken, CanonicalOf, Requested, Diffed, Coherent;
      if zones.None? {
        return false, None;
      }
      var memberOf := MemberZones(zones.value, members, self);
      var result := Fetch(memberOf, list);
      if result.None? {
        return false, None;
      }
      FetchAnswers(memberOf, list, result.value);
      var entries := result.value;
      var mine := Mine(entries, node);
      var rules: seq<NatRule> := [];
      for i := 0 to |mine|
        invariant |rules| == i && forall j :: 0 <= j < i ==> rules[j] == NatRule(mine[j].synthetic, mine[j].subnet)
      {
        rules := rules + [NatRule(mine[i].synthetic, mine[i].subnet)];
      }
      assert rules == RulesFor(mine);
      if !tableOk {
        return false, Some(entries);
      }
      table := rules;
      var consumed := Consumed(entries, node);
      var r := engine.SetRoutes(Prefixes(consumed), env);
      return r.Some?, Some(entries);
    }
  }

  ghost predicate Installed(routes: set<Block>, x: int) {
    exists b :: b in routes && b.Has(x)
  }

  /** A wanted block that a pass puts in the kernel: it was all applied before and the pass is
      skipped, or it does not clash and was routed already or is not refused. */
  predicate Placed(s: RouteState, desired: seq<Block>, env: Surroundings, b: Block) {
    b in desired && (Unchanged(s, desired) || (!env.clash(b) && (b in s.applied || !env.refuses(b))))
  }

  function Wanted(entries: seq<Entry>, n: int): seq<Block> {
    CanonicalOf(Prefixes(ConsumedOf(entries, n)))
  }

  /** In any surroundings, the kernel's routes after a pass are exactly the placed blocks. */
  lemma InstalledIsPlaced(s: RouteState, network: Block, desired: seq<Block>, env: Surroundings, b: Block)
    requires Coherent(s, network)
    ensures b in Requested(s, network, desired, env).routes <==> Placed(s, desired, env, b)
  {
    if Unchanged(s, desired) {
      SubsequenceLength(s.applied, s.wanted);
    }
  }

  lemma WantedIsRouted(entries: seq<Entry>, n: int, x: int)
    ensures Routed(entries, n, x) <==> exists b :: b in Wanted(entries, n) && b.Has(x)
  {
    var ps := Prefixes(ConsumedOf(entries, n));
    CanonicalExact(ps);
    if Routed(entries, n, x) {
      var q :| q in ps && BlockFromPrefix(q).Has(x);
      assert BlockFromPrefix(q) in MaskedSet(ps);
    }
    if b :| b in Wanted(entries, n) && b.Has(x) {
      assert b in Elems(CanonicalOf(ps));
      var q :| q in ps && BlockFromPrefix(q) == b;
    }
  }

  /** From the server's chain and peers to the router's kernel: after a pass, in any surroundings,
      an address of the synthetic pool has a route if and only if the server carries flows to it
      for this router and its block could be placed. There is never a black hole, and nothing is
      missing but what clashes or was refused. */
  lemma KernelRoutesAreExact(cfg: Config, t: Tables, p: Peers, f: Table, n: int, zones: seq<string>, list: Lister,
                             members: string -> Option<seq<uint32>>, entries: seq<Entry>,
                             s: RouteState, network: Block, env: Surroundings, x: uint32)
    requires Faithful(cfg, t, p, f) && n in t.nodes && Answers(t, t.nodes[n].user, zones, list, members)
    requires IsFetch(MemberZonesOf(zones, members, t.nodes[n].ip), list, entries)
    requires cfg.pool.Some? && BlockFromPrefix(cfg.pool.value).Has(x) && x != SPACE - 1
    requires Coherent(s, network)
    ensures Installed(Requested(s, network, Wanted(entries, n), env).routes, x)
       <==> Carried(t, p, f, n, x) && exists b :: Placed(s, Wanted(entries, n), env, b) && b.Has(x)
  {
    hide Faithful, Answers, IsFetch, Coherent, Requested, Carried, Routed, Wanted;
    ClientRoutesAreExact(cfg, t, p, f, n, zones, list, members, entries, x);
    WantedIsRouted(entries, n, x);
    forall b
      ensures b in Requested(s, network, Wanted(entries, n), env).routes <==> Placed(s, Wanted(entries, n), env, b) {
      InstalledIsPlaced(s, network, Wanted(entries, n), env, b);
    }
  }

  /** The id the client passes for itself: its node's, or 0 when it does not know it. The two make
      no difference to a node that has announced nothing. */
  lemma UnknownId(cfg: Config, t: Tables, n: int, zones: seq<string>, list: Lister,
                  members: string -> Option<seq<uint32>>, entries: seq<Entry>)
    requires Invariant(cfg, t) && n in t.nodes && Answers(t, t.nodes[n].user, zones, list, members)
    requires IsFetch(MemberZonesOf(zones, members, t.nodes[n].ip), list, entries)
    requires forall a :: a in t.anns ==> t.anns[a].node != n
    ensures ConsumedOf(entries, 0) == ConsumedOf(entries, n)
  {
    hide Answers, ConsumedOf;
    forall e | e in entries ensures e.node != 0 && e.node != n {
      var l := EntryIsLink(cfg, t, n, zones, list, members, e);
    }
    NobodysView(entries, 0, n);
  }

  /** One pass of the Windows client, over its tunnel. */
  function Synchronized(network: Block, w: Tunnel.World, entries: seq<Entry>, id: int, env: Surroundings)
    : Tunnel.World
  {
    Tunnel.Next(network, w, Tunnel.SetRoutes(Prefixes(ConsumedOf(entries, id)), env))
  }

  /** What the tunnel remembers, with its adapter in the kernel. */
  function State(w: Tunnel.World): RouteState
    requires Tunnel.Effective(w)
  {
    Tunnel.Memory(w.shared, w.adapters[w.shared.eng.value])
  }

  /** The same on the Windows client (internal/client/panel/panel.go): after any run of its tunnel's
      steps in which no request slipped into a teardown, whatever other threads did, a pass over a
      connected tunnel leaves routes for exactly the addresses the server carries for the node and
      whose block could be placed. */
  lemma ClientKernelRoutesAreExact(cfg: Config, t: Tables, p: Peers, f: Table, n: int, id: int, zones: seq<string>,
                                   list: Lister, members: string -> Option<seq<uint32>>, entries: seq<Entry>,
                                   network: Block, steps: seq<Tunnel.Step>, env: Surroundings, x: uint32)
    requires Faithful(cfg, t, p, f) && n in t.nodes && Answers(t, t.nodes[n].user, zones, list, members)
    requires IsFetch(MemberZonesOf(zones, members, t.nodes[n].ip), list, entries)
    requires id == n || (id == 0 && forall a :: a in t.anns ==> t.anns[a].node != n)
    requires cfg.pool.Some? && BlockFromPrefix(cfg.pool.value).Has(x) && x != SPACE - 1
    requires Tunnel.Possible(network, Tunnel.START, steps) && Tunnel.NeverSlips(network, Tunnel.START, steps)
    requires var w := Tunnel.After(network, Tunnel.START, steps); Tunnel.Linked(w.shared) && w.halfway == 0
    ensures var w := Tunnel.After(network, Tunnel.START, steps);
            var v := Synchronized(network, w, entries, id, env);
            && Tunnel.Effective(w) && Tunnel.Effective(v)
            && (Installed(State(v).routes, x) <==>
                Carried(t, p, f, n, x) && exists b :: Placed(State(w), Wanted(entries, id), env, b) && b.Has(x))
  {
    hide Faithful, Answers, IsFetch, Coherent, Requested, Diffed, Carried, Tunnel.Possible, Tunnel.NeverSlips;
    hide Tunnel.After, Tunnel.Safe, CanonicalOf, Canonical, ConsumedOf;
    var w := Tunnel.After(network, Tunnel.START, steps);
    Tunnel.StartIsSafe(network);
    Tunnel.RunsAreSafe(network, Tunnel.START, steps);
    Tunnel.LinkedIsEffective(w);
    Tunnel.StartedMemory(network, steps);
    if id != n {
      Basics(cfg, t, p, f);
      UnknownId(cfg, t, n, zones, list, members, entries);
    }
    var s := State(w);
    DiffIsReplace(s, network, Wanted(entries, n), env);
    KernelRoutesAreExact(cfg, t, p, f, n, zones, list, members, entries, s, network, env, x);
  }
}
