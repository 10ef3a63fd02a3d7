/** The relay's nftables isolation table (internal/server/netfw/nftables.go): named sets of
    addresses and of address intervals, a default-drop forward chain whose rules look packets up
    in those sets, and the manager methods that edit both. A kernel call either takes effect or
    changes nothing. */
module Netfw {
  import opened Cidr
  import opened Common

  // ---------------------------------------------------------------- intervals

  /** One element of an interval set: an inclusive start and an exclusive end. */
  datatype Interval = Interval(start: uint32, end: uint32) {
    ghost predicate Has(a: int) {
      start <= a < end
    }
  }

  /** nftables.go `rangeElements`: the exclusive end of a block that reaches the top of the
      address space does not fit 32 bits and is clamped. */
  function RangeElements(b: Block): Interval {
    var endExclusive: uint64 := b.base + b.Size();
    if endExclusive > 0xFFFF_FFFF then Interval(b.base, 0xFFFF_FFFF)
    else Interval(b.base, endExclusive)
  }

  /** The interval covers the block's addresses except one: the clamp drops the last address of
      the address space, and nothing else is ever lost or added. */
  lemma RangeElementsExact(b: Block, a: int)
    requires b.End() <= SPACE
    ensures RangeElements(b).Has(a) <==> b.Has(a) && a != SPACE - 1
  {}

  // ---------------------------------------------------------------- set names

  datatype SetName = ZoneSet(zone: int) | RoutesSet(zone: int)

  function Digit(d: int): char
    requires 0 <= d < 10
  {
    "0123456789"[d]
  }

  /** `%d` of a row id (ids start at 1 and only grow). */
  function Decimal(n: nat): (s: string)
    ensures |s| > 0 && forall i :: 0 <= i < |s| ==> s[i] in "0123456789"
  {
    if n < 10 then [Digit(n)] else Decimal(n / 10) + [Digit(n % 10)]
  }

  function Render(name: SetName): string
    requires name.zone >= 0
  {
    match name
    case ZoneSet(z) => "zone_" + Decimal(z)
    case RoutesSet(z) => "zone_" + Decimal(z) + "_routes"
  }

  lemma DigitInjective(d: int, e: int)
    requires 0 <= d < 10 && 0 <= e < 10 && Digit(d) == Digit(e)
    ensures d == e
  {}

  /** The last digit, and what is before it. */
  lemma DecimalEnds(n: nat)
    ensures var s := Decimal(n);
            s[|s| - 1] == Digit(n % 10) && (if n < 10 then |s| == 1 else |s| > 1 && s[..|s| - 1] == Decimal(n / 10))
  {}

  lemma {:induction false} DecimalInjective(m: nat, n: nat)
    requires Decimal(m) == Decimal(n)
    ensures m == n
  {
    hide Decimal, Digit;
    DecimalEnds(m);
    DecimalEnds(n);
    DigitInjective(m % 10, n % 10);
    if m >= 10 && n >= 10 {
      DecimalInjective(m / 10, n / 10);
    }
  }

  /** No two zones, and no members set and routes set, ever share a name: deleting the sets and
      rules found under one zone's names cannot touch another zone's (zone_1 is neither zone_12
      nor zone_1_routes). */
  lemma NamesInjective(a: SetName, b: SetName)
    requires a.zone >= 0 && b.zone >= 0 && Render(a) == Render(b)
    ensures a == b
  {
    var s, t := Render(a), Render(b);
    var da, db := Decimal(a.zone), Decimal(b.zone);
    assert a.ZoneSet? ==> s[|s| - 1] == da[|da| - 1];
    assert b.ZoneSet? ==> t[|t| - 1] == db[|db| - 1];
    assert a.RoutesSet? ==> s[|s| - 1] == 's';
    assert b.RoutesSet? ==> t[|t| - 1] == 's';
    assert a.ZoneSet? <==> b.ZoneSet?;
    assert |da| == |db|;
    assert s[5..5 + |da|] == da && t[5..5 + |db|] == db;
    DecimalInjective(a.zone, b.zone);
  }

  // ---------------------------------------------------------------- rules and verdicts

  /** A packet as the chain sees it. */
  datatype Packet = Packet(established: bool, ipv4: bool, src: uint32, dst: uint32)

  /** `ct state established,related accept`, or `ip saddr @srcSet ip daddr @dstSet accept`. */
  datatype Rule = Established | Lookup(srcSet: SetName, dstSet: SetName)

  function SameZone(z: int): Rule {
    Lookup(ZoneSet(z), ZoneSet(z))
  }

  function ZoneRoute(z: int): Rule {
    Lookup(ZoneSet(z), RoutesSet(z))
  }

  /** The table's contents: members sets and routes sets by zone, and the chain in order. */
  datatype Table = Table(members: map<int, set<uint32>>, routes: map<int, set<Interval>>, chain: seq<Rule>)

  ghost predicate InSet(t: Table, name: SetName, a: uint32) {
    match name
    case ZoneSet(z) => z in t.members && a in t.members[z]
    case RoutesSet(z) => z in t.routes && exists e :: e in t.routes[z] && e.Has(a)
  }

  ghost predicate Matches(t: Table, r: Rule, p: Packet) {
    match r
    case Established => p.established
    case Lookup(src, dst) => p.ipv4 && InSet(t, src, p.src) && InSet(t, dst, p.dst)
  }

  /** The kernel walks the chain from `rules[0]`; the first match accepts, the policy drops. */
  ghost predicate Accepts(t: Table, rules: seq<Rule>, p: Packet) {
    if rules == [] then false
    else if Matches(t, rules[0], p) then true
    else Accepts(t, rules[1..], p)
  }

  ghost predicate Verdict(t: Table, p: Packet) {
    Accepts(t, t.chain, p)
  }

  ghost predicate Exists(t: Table, name: SetName) {
    match name
    case ZoneSet(z) => z in t.members
    case RoutesSet(z) => z in t.routes
  }

  /** What every history of edits keeps: each zone has both sets and both rules, and nothing
      in the chain belongs to a zone that is gone. */
  ghost predicate WellBuilt(t: Table) {
    && t.members.Keys == t.routes.Keys
    && Established in t.chain
    && (forall z :: z in t.members ==> z >= 1 && SameZone(z) in t.chain && ZoneRoute(z) in t.chain)
    && (forall r :: r in t.chain ==> OwnedRule(t, r))
  }

  ghost predicate OwnedRule(t: Table, r: Rule) {
    match r
    case Established => true
    case Lookup(src, dst) => src.zone in t.members && (r == SameZone(src.zone) || r == ZoneRoute(src.zone))
  }

  lemma NoRuleNamesAMissingSet(t: Table, r: Rule)
    requires WellBuilt(t) && r in t.chain && r.Lookup?
    ensures Exists(t, r.srcSet) && Exists(t, r.dstSet)
  {}

  /** The order of the rules does not matter. */
  lemma {:induction false} AcceptsIffSomeMatches(t: Table, rules: seq<Rule>, p: Packet)
    ensures Accepts(t, rules, p) <==> exists r :: r in rules && Matches(t, r, p)
  {
    if rules != [] {
      AcceptsIffSomeMatches(t, rules[1..], p);
      assert forall r :: r in rules <==> r == rules[0] || r in rules[1..];
    }
  }

  /** The isolation policy itself: replies, traffic between two members of a zone, and traffic
      from a member to one of its zone's routes. */
  ghost predicate Allowed(t: Table, p: Packet) {
    || p.established
    || (p.ipv4 && exists z :: SharesZone(t, z, p))
    || (p.ipv4 && exists z :: SendsToRoute(t, z, p))
  }

  ghost predicate SharesZone(t: Table, z: int, p: Packet) {
    InSet(t, ZoneSet(z), p.src) && InSet(t, ZoneSet(z), p.dst)
  }

  ghost predicate SendsToRoute(t: Table, z: int, p: Packet) {
    InSet(t, ZoneSet(z), p.src) && InSet(t, RoutesSet(z), p.dst)
  }

  /** The chain enforces exactly the policy, whatever history of edits built it. */
  lemma VerdictIsPolicy(t: Table, p: Packet)
    requires WellBuilt(t)
    ensures Verdict(t, p) <==> Allowed(t, p)
  {
    AcceptsIffSomeMatches(t, t.chain, p);
    if Verdict(t, p) {
      var r :| r in t.chain && Matches(t, r, p);
      if r != Established {
        assert OwnedRule(t, r);
        assert SharesZone(t, r.srcSet.zone, p) || SendsToRoute(t, r.srcSet.zone, p);
      }
    }
    if Allowed(t, p) {
      if p.established {
        assert Matches(t, Established, p);
      } else if z :| SharesZone(t, z, p) {
        assert Matches(t, SameZone(z), p);
      } else {
        var z :| SendsToRoute(t, z, p);
        assert Matches(t, ZoneRoute(z), p);
      }
    }
  }

  /** Two tables with the same sets give every packet the same verdict, in whatever order their
      zones were added and deleted: the edited chain is as good as the rebuilt one. */
  lemma VerdictIgnoresHistory(edited: Table, rebuilt: Table, p: Packet)
    requires WellBuilt(edited) && WellBuilt(rebuilt)
    requires edited.members == rebuilt.members && edited.routes == rebuilt.routes
    ensures Verdict(edited, p) == Verdict(rebuilt, p)
  {
    VerdictIsPolicy(edited, p);
    VerdictIsPolicy(rebuilt, p);
    assert forall n, a :: InSet(edited, n, a) == InSet(rebuilt, n, a);
    assert forall z :: SharesZone(edited, z, p) == SharesZone(rebuilt, z, p);
    assert forall z :: SendsToRoute(edited, z, p) == SendsToRoute(rebuilt, z, p);
  }

  // ---------------------------------------------------------------- the manager

  datatype ZoneState = ZoneState(id: int, memberIPs: seq<uint32>, routeCIDRs: seq<Block>)

  function LookupNames(r: Rule): seq<SetName> {
    if r.Established? then [] else [r.srcSet, r.dstSet]
  }

  /** nftables.go `ruleReferencesSet`: the comparison is between names as strings. */
  predicate RuleReferencesSet(r: Rule, setName: string)
    requires r.Lookup? ==> r.srcSet.zone >= 0 && r.dstSet.zone >= 0
  {
    exists n :: n in LookupNames(r) && Render(n) == setName
  }

  /** The chain without one zone's rules. */
  function Without(chain: seq<Rule>, zone: int): seq<Rule> {
    if chain == [] then []
    else if chain[0] == SameZone(zone) || chain[0] == ZoneRoute(zone) then Without(chain[1..], zone)
    else [chain[0]] + Without(chain[1..], zone)
  }

  lemma {:induction false} WithoutKeepsTheRest(chain: seq<Rule>, zone: int, r: Rule)
    ensures r in Without(chain, zone) <==> r in chain && r != SameZone(zone) && r != ZoneRoute(zone)
  {
    if chain != [] {
      WithoutKeepsTheRest(chain[1..], zone, r);
      assert r in chain <==> r == chain[0] || r in chain[1..];
    }
  }

  function Spared(r: Rule, zone: int): seq<Rule> {
    if r == SameZone(zone) || r == ZoneRoute(zone) then [] else [r]
  }

  lemma WithoutFirst(chain: seq<Rule>, zone: int)
    requires chain != []
    ensures Without(chain, zone) == Spared(chain[0], zone) + Without(chain[1..], zone)
  {}

  lemma WithoutNothing(zone: int)
    ensures Without([], zone) == []
  {}

  lemma {:induction false} WithoutAppend(a: seq<Rule>, b: seq<Rule>, zone: int)
    ensures Without(a + b, zone) == Without(a, zone) + Without(b, zone)
  {
    hide Without, Spared;
    if a == [] {
      assert a + b == b;
      WithoutNothing(zone);
    } else {
      WithoutAppend(a[1..], b, zone);
      assert (a + b)[0] == a[0] && (a + b)[1..] == a[1..] + b;
      WithoutFirst(a, zone);
      WithoutFirst(a + b, zone);
      assert Spared(a[0], zone) + (Without(a[1..], zone) + Without(b, zone)) ==
             (Spared(a[0], zone) + Without(a[1..], zone)) + Without(b, zone);
    }
  }

  /** The table holds exactly this zone's members and routes. */
  ghost predicate Reflects(t: Table, z: ZoneState) {
    && z.id in t.members && t.members[z.id] == Elems(z.memberIPs)
    && z.id in t.routes && t.routes[z.id] == Ranges(Elems(z.routeCIDRs))
  }

  ghost function Ranges(blocks: set<Block>): set<Interval> {
    set b | b in blocks :: RangeElements(b)
  }

  method RangesOf(blocks: seq<Block>) returns (ranges: set<Interval>)
    ensures ranges == Ranges(Elems(blocks))
  {
    ranges := {};
    for k := 0 to |blocks|
      invariant ranges == Ranges(Elems(blocks[..k]))
    {
      ranges := ranges + {RangeElements(blocks[k])};
      assert blocks[..k + 1] == blocks[..k] + [blocks[k]];
    }
    assert blocks[..|blocks|] == blocks;
  }

  class Manager {
    var table: Table

    ghost predicate Valid()
      reads this
    {
      WellBuilt(table)
    }

    constructor ()
      ensures table == Table(map[], map[], [Established]) && Valid()
    {
      table := Table(map[], map[], [Established]);
    }

    /** Replaces whatever table there was by the one the given zones describe. */
    method Rebuild(zones: seq<ZoneState>)
      requires forall i, j :: 0 <= i < j < |zones| ==> zones[i].id != zones[j].id
      requires forall i :: 0 <= i < |zones| ==> zones[i].id >= 1
      modifies this
      ensures Valid()
      ensures table.members.Keys == set z | z in zones :: z.id
      ensures forall i :: 0 <= i < |zones| ==> Reflects(table, zones[i])
    {
      table := Table(map[], map[], [Established]);
      for i := 0 to |zones|
        invariant Valid()
        invariant table.members.Keys == set z | z in zones[..i] :: z.id
        invariant forall j :: 0 <= j < i ==> Reflects(table, zones[j])
      {
        var z := zones[i];
        var ranges := RangesOf(z.routeCIDRs);
        ghost var before := table;
        Install(z.id, Elems(z.memberIPs), ranges);
        forall j | 0 <= j < i ensures Reflects(table, zones[j]) {
          assert Reflects(before, zones[j]);
        }
        assert zones[..i + 1] == zones[..i] + [z];
      }
      assert zones[..|zones|] == zones;
    }

    /** Adds a zone's two sets and two rules. */
    method Install(zone: int, ips: set<uint32>, ranges: set<Interval>)
      requires Valid() && zone >= 1 && zone !in table.members
      modifies this
      ensures Valid()
      ensures table == Table(old(table).members[zone := ips], old(table).routes[zone := ranges],
                             old(table).chain + [SameZone(zone), ZoneRoute(zone)])
    {
      ghost var before := table;
      table := Table(table.members[zone := ips], table.routes[zone := ranges],
                     table.chain + [SameZone(zone), ZoneRoute(zone)]);
      forall r | r in table.chain ensures OwnedRule(table, r) {
        assert r in before.chain ==> OwnedRule(before, r);
      }
    }

    /** AddZone; `ok` is false when the kernel refuses, and then nothing changed. */
    method AddZone(zone: int, ok: bool)
      requires Valid() && zone >= 1 && zone !in table.members
      modifies this
      ensures Valid()
      ensures !ok ==> table == old(table)
      ensures ok ==> table == Table(old(table).members[zone := {}], old(table).routes[zone := {}],
                                    old(table).chain + [SameZone(zone), ZoneRoute(zone)])
    {
      if ok {
        Install(zone, {}, {});
      }
    }

    method AddMember(zone: int, ip: uint32)
      requires Valid() && zone in table.members
      modifies this
      ensures Valid()
      ensures table == old(table).(members := old(table).members[zone := old(table).members[zone] + {ip}])
    {
      table := table.(members := table.members[zone := table.members[zone] + {ip}]);
    }

    /** Removing from a set that is not there is an error the callers log: nothing changes. */
    method RemoveMember(zone: int, ip: uint32)
      requires Valid()
      modifies this
      ensures Valid()
      ensures zone !in old(table).members ==> table == old(table)
      ensures zone in old(table).members ==>
        table == old(table).(members := old(table).members[zone := old(table).members[zone] - {ip}])
    {
      if zone in table.members {
        table := table.(members := table.members[zone := table.members[zone] - {ip}]);
      }
    }

    method AddZoneRoute(zone: int, b: Block)
      requires Valid() && zone in table.routes
      modifies this
      ensures Valid()
      ensures table == old(table).(routes := old(table).routes[zone := old(table).routes[zone] + {RangeElements(b)}])
    {
      table := table.(routes := table.routes[zone := table.routes[zone] + {RangeElements(b)}]);
    }

    method RemoveZoneRoute(zone: int, b: Block)
      requires Valid()
      modifies this
      ensures Valid()
      ensures zone !in old(table).routes ==> table == old(table)
      ensures zone in old(table).routes ==>
        table == old(table).(routes := old(table).routes[zone := old(table).routes[zone] - {RangeElements(b)}])
    {
      if zone in table.routes {
        table := table.(routes := table.routes[zone := table.routes[zone] - {RangeElements(b)}]);
      }
    }

    /** Deletes the rules found by set name, then the sets. Only this zone's are affected. */
    method DeleteZone(zone: int)
      requires Valid() && zone >= 1
      modifies this
      ensures Valid()
      ensures table == Table(old(table).members - {zone}, old(table).routes - {zone},
                             Without(old(table).chain, zone))
      ensures forall r :: r in old(table).chain && (r.Lookup? ==> r.srcSet.zone != zone) ==> r in table.chain
    {
      var setNames := [Render(ZoneSet(zone)), Render(RoutesSet(zone))];
      ghost var before := table;
      var rules := table.chain;
      var kept: seq<Rule> := [];
      var i := 0;
      while i < |rules|
        invariant 0 <= i <= |rules|
        invariant table == before
        invariant kept == Without(rules[..i], zone)
      {
        var rule := rules[i];
        ReferenceIsOwnership(table, rule, zone);
        var refers := RuleReferencesSet(rule, setNames[0]) || RuleReferencesSet(rule, setNames[1]);
        if !refers {
          kept := kept + [rule];
        }
        assert rules[..i + 1] == rules[..i] + [rule];
        WithoutAppend(rules[..i], [rule], zone);
        i := i + 1;
      }
      assert rules[..i] == rules;
      table := Table(table.members - {zone}, table.routes - {zone}, kept);
      DeletedWellBuilt(before, table, zone);
    }
  }

  lemma ReferenceIsOwnership(t: Table, rule: Rule, zone: int)
    requires WellBuilt(t) && rule in t.chain && zone >= 1
    ensures rule.Lookup? ==> rule.srcSet.zone >= 0 && rule.dstSet.zone >= 0
    ensures RuleReferencesSet(rule, Render(ZoneSet(zone))) || RuleReferencesSet(rule, Render(RoutesSet(zone)))
       <==> rule == SameZone(zone) || rule == ZoneRoute(zone)
  {
    assert OwnedRule(t, rule);
    if rule.Lookup? {
      ReferenceByName(rule, ZoneSet(zone));
      ReferenceByName(rule, RoutesSet(zone));
    }
  }

  lemma ReferenceByName(rule: Rule, name: SetName)
    requires rule.Lookup? && rule.srcSet.zone >= 0 && rule.dstSet.zone >= 0 && name.zone >= 0
    ensures RuleReferencesSet(rule, Render(name)) <==> rule.srcSet == name || rule.dstSet == name
  {
    assert LookupNames(rule) == [rule.srcSet, rule.dstSet];
    assert rule.srcSet in LookupNames(rule) && rule.dstSet in LookupNames(rule);
    if n :| n in LookupNames(rule) && Render(n) == Render(name) {
      NamesInjective(n, name);
    }
  }

  lemma DeletedWellBuilt(t: Table, d: Table, zone: int)
    requires WellBuilt(t)
    requires d == Table(t.members - {zone}, t.routes - {zone}, Without(t.chain, zone))
    ensures WellBuilt(d)
    ensures forall r :: r in t.chain && (r.Lookup? ==> r.srcSet.zone != zone) ==> r in d.chain
  {
    forall r ensures r in d.chain <==> r in t.chain && r != SameZone(zone) && r != ZoneRoute(zone) {
      WithoutKeepsTheRest(t.chain, zone, r);
    }
    forall r | r in d.chain ensures OwnedRule(d, r) {
      assert OwnedRule(t, r);
    }
  }
}
