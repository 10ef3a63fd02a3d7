/** The server's WireGuard device (internal/server/wg/iface.go): each peer's public key with its
    AllowedIPs. The kernel keeps one table from prefixes to peers, so giving a prefix to one peer
    takes it from whichever peer had it. */
module Wireguard {
  import opened Cidr
  import opened Common

  type Peers = map<string, set<Block>>

  /** The kernel's ReplaceAllowedIPs on one peer. */
  function Configured(peers: Peers, key: string, allowed: set<Block>): Peers {
    map k | k in peers.Keys + {key} :: if k == key then allowed else peers[k] - allowed
  }

  /** The peer ends with exactly the given entries and shares none with any other; of the others,
      only those that had one of them lose anything. */
  lemma ConfiguredTakesOnly(peers: Peers, key: string, allowed: set<Block>)
    ensures var after := Configured(peers, key, allowed);
            && after.Keys == peers.Keys + {key} && after[key] == allowed
            && (forall k :: k in after && k != key ==> after[k] !! allowed && after[k] <= peers[k])
            && (forall k :: k in peers && k != key && peers[k] !! allowed ==> after[k] == peers[k])
  {}

  ghost predicate Covers(peers: Peers, key: string, a: int) {
    key in peers && exists b :: b in peers[key] && b.Has(a)
  }

  /** iface.go `peerConfig`: the node's own /32 and its announced blocks. (The stored blocks are
      aligned already, so masking them again changes nothing: Cidr.PrefixRoundTrip.) */
  function AllowedIPs(ip: uint32, routes: set<Block>): set<Block> {
    {Host(ip)} + routes
  }

  datatype PeerConfig = PeerConfig(key: string, ip: uint32, routes: seq<Block>)

  class Device {
    var peers: Peers

    constructor ()
      ensures peers == map[]
    {
      peers := map[];
    }

    method SetPeerRoutes(key: string, ip: uint32, routes: seq<Block>)
      modifies this
      ensures peers == Configured(old(peers), key, AllowedIPs(ip, Elems(routes)))
    {
      peers := Configured(peers, key, AllowedIPs(ip, Elems(routes)));
    }

    method RemovePeer(key: string)
      modifies this
      ensures peers == old(peers) - {key}
    {
      peers := peers - {key};
    }

    /** Start-up: the device ends with exactly these peers, whatever it had before. */
    method ReplacePeers(configs: seq<PeerConfig>)
      requires forall i, j :: 0 <= i < j < |configs| ==> Disjoint(configs[i], configs[j])
      modifies this
      ensures peers.Keys == set c | c in configs :: c.key
      ensures forall i :: 0 <= i < |configs| ==>
                peers[configs[i].key] == AllowedIPs(configs[i].ip, Elems(configs[i].routes))
    {
      peers := map[];
      for i := 0 to |configs|
        invariant Holds(peers, configs[..i])
      {
        HoldsOneMore(peers, configs[..i], configs[i]);
        SetPeerRoutes(configs[i].key, configs[i].ip, configs[i].routes);
        assert configs[..i + 1] == configs[..i] + [configs[i]];
      }
      assert configs[..|configs|] == configs;
    }
  }

  ghost predicate Disjoint(c: PeerConfig, d: PeerConfig) {
    c.key != d.key && AllowedIPs(c.ip, Elems(c.routes)) !! AllowedIPs(d.ip, Elems(d.routes))
  }

  ghost predicate Holds(peers: Peers, configs: seq<PeerConfig>) {
    && peers.Keys == (set c | c in configs :: c.key)
    && forall i :: 0 <= i < |configs| ==> peers[configs[i].key] == AllowedIPs(configs[i].ip, Elems(configs[i].routes))
  }

  lemma HoldsOneMore(peers: Peers, configs: seq<PeerConfig>, c: PeerConfig)
    requires Holds(peers, configs) && forall i :: 0 <= i < |configs| ==> Disjoint(configs[i], c)
    ensures Holds(Configured(peers, c.key, AllowedIPs(c.ip, Elems(c.routes))), configs + [c])
  {}
}
