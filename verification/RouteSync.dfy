/** The clients' view of the announcements (internal/client/routesync, internal/router/reconcile):
    the zones' lists aggregated into one entry per announcement, split into this node's own (which
    it translates) and everybody else's (which it routes). */
module RouteSync {
  import opened Cidr
  import opened Common
  import opened Sorting

  /** One row of a zone's list. A subnet the server sent that does not parse is None. */
  datatype Row = Row(id: int, subnet: Option<Prefix>, synthetic: Option<Prefix>, node: int, announcer: string)

  datatype Entry = Entry(id: int, subnet: Prefix, synthetic: Prefix, zones: seq<string>, node: int, announcer: string)

  /** What asking for one zone's list gives: its rows, or an error. */
  type Lister = string -> Option<seq<Row>>

  // ---------------------------------------------------------------- what Fetch is for

  predicate Malformed(r: Row) {
    r.subnet.None? || r.synthetic.None?
  }

  ghost predicate Listed(zones: seq<string>, list: Lister, r: Row) {
    exists z :: z in zones && list(z).Some? && r in list(z).value
  }

  ghost predicate AllAnswer(zones: seq<string>, list: Lister) {
    forall z :: z in zones ==> list(z).Some?
  }

  /** A request fails or a row does not parse. */
  ghost predicate Broken(zones: seq<string>, list: Lister) {
    !AllAnswer(zones, list) || exists r :: Listed(zones, list, r) && Malformed(r)
  }

  /** The same announcement reads the same in every zone that lists it. */
  ghost predicate Agreeing(zones: seq<string>, list: Lister) {
    forall q, r :: Listed(zones, list, q) && Listed(zones, list, r) && q.id == r.id ==> q == r
  }

  function Times(rows: seq<Row>, id: int): nat {
    if rows == [] then 0 else Times(rows[..|rows| - 1], id) + if rows[|rows| - 1].id == id then 1 else 0
  }

  function RowsOf(list: Lister, z: string): seq<Row> {
    if list(z).Some? then list(z).value else []
  }

  /** The zones listing an announcement, each as often as it does. */
  ghost function Listing(zones: seq<string>, list: Lister, id: int): multiset<string> {
    if zones == [] then multiset{}
    else var z := zones[|zones| - 1];
         Listing(zones[..|zones| - 1], list, id) + multiset{}[z := Times(RowsOf(list, z), id)]
  }

  ghost predicate Describes(r: Row, e: Entry) {
    && !Malformed(r)
    && r.id == e.id && r.subnet.value == e.subnet && r.synthetic.value == e.synthetic
    && r.node == e.node && r.announcer == e.announcer
  }

  ghost predicate IncreasingIds(entries: seq<Entry>) {
    forall i, j :: 0 <= i < j < |entries| ==> entries[i].id < entries[j].id
  }

  /** One entry per listed announcement, in increasing id order, reading as some zone lists it,
      with the sorted zones that list it. */
  ghost predicate IsFetch(zones: seq<string>, list: Lister, entries: seq<Entry>) {
    && AllAnswer(zones, list)
    && IncreasingIds(entries)
    && (forall r :: Listed(zones, list, r) ==> exists e :: e in entries && e.id == r.id)
    && (forall e :: e in entries ==> IsEntry(zones, list, e))
  }

  ghost predicate IsEntry(zones: seq<string>, list: Lister, e: Entry) {
    && (exists r :: Listed(zones, list, r) && Describes(r, e))
    && SortedBy(StringLe, e.zones) && multiset(e.zones) == Listing(zones, list, e.id)
  }

  // ---------------------------------------------------------------- order does not matter

  lemma {:induction false} ListingCounts(zones: seq<string>, list: Lister, id: int, z: string)
    ensures Listing(zones, list, id)[z] == multiset(zones)[z] * Times(RowsOf(list, z), id)
  {
    if zones != [] {
      var rest, last := zones[..|zones| - 1], zones[|zones| - 1];
      ListingCounts(rest, list, id, z);
      assert zones == rest + [last];
      if z == last {
        Distribute(multiset(rest)[z], 1, Times(RowsOf(list, z), id));
      }
    }
  }

  lemma ListingIgnoresOrder(zones: seq<string>, others: seq<string>, list: Lister, id: int)
    requires multiset(zones) == multiset(others)
    ensures Listing(zones, list, id) == Listing(others, list, id)
  {
    forall z ensures Listing(zones, list, id)[z] == Listing(others, list, id)[z] {
      ListingCounts(zones, list, id, z);
      ListingCounts(others, list, id, z);
    }
  }

  lemma SameZones(zones: seq<string>, others: seq<string>)
    requires multiset(zones) == multiset(others)
    ensures forall z :: z in zones <==> z in others
  {
    forall z ensures z in zones <==> z in others {
      assert z in zones <==> z in multiset(zones);
    }
  }

  predicate ById(d: Entry, e: Entry) {
    d.id <= e.id
  }

  /** However the zones are ordered, the result is the same. */
  lemma FetchIgnoresOrder(zones: seq<string>, others: seq<string>, list: Lister, d: seq<Entry>, e: seq<Entry>)
    requires multiset(zones) == multiset(others) && Agreeing(zones, list)
    requires IsFetch(zones, list, d) && IsFetch(others, list, e)
    ensures d == e
  {
    hide IsEntry, Agreeing, Listed;
    assert Agreeing(others, list) by {
      AgreeingIgnoresOrder(zones, others, list);
    }
    EntriesIncluded(zones, others, list, d, e);
    EntriesIncluded(others, zones, list, e, d);
    SameIncreasing(d, e);
  }

  lemma AgreeingIgnoresOrder(zones: seq<string>, others: seq<string>, list: Lister)
    requires multiset(zones) == multiset(others) && Agreeing(zones, list)
    ensures Agreeing(others, list)
  {
    SameZones(zones, others);
    assert forall r :: Listed(others, list, r) ==> Listed(zones, list, r);
  }

  /** And whether there is a result at all does not depend on the order either. */
  lemma BrokenIgnoresOrder(zones: seq<string>, others: seq<string>, list: Lister)
    requires multiset(zones) == multiset(others)
    ensures Broken(zones, list) <==> Broken(others, list)
  {
    SameZones(zones, others);
    forall r ensures Listed(zones, list, r) <==> Listed(others, list, r) {}
  }

  lemma EntriesIncluded(zones: seq<string>, others: seq<string>, list: Lister, d: seq<Entry>, e: seq<Entry>)
    requires multiset(zones) == multiset(others) && Agreeing(zones, list)
    requires IsFetch(zones, list, d) && IsFetch(others, list, e)
    ensures forall x :: x in d ==> x in e
  {
    SameZones(zones, others);
    StringLeTotal();
    forall x | x in d ensures x in e {
      assert IsEntry(zones, list, x);
      var r :| Listed(zones, list, r) && Describes(r, x);
      assert Listed(others, list, r);
      var y :| y in e && y.id == r.id;
      assert IsEntry(others, list, y);
      var q :| Listed(others, list, q) && Describes(q, y);
      assert Listed(zones, list, q);
      ListingIgnoresOrder(zones, others, list, x.id);
      SortedUnique(StringLe, x.zones, y.zones);
    }
  }

  /** Strictly increasing sequences with the same elements are the same. */
  lemma {:induction false} SameIncreasing(d: seq<Entry>, e: seq<Entry>)
    requires IncreasingIds(d) && IncreasingIds(e) && forall x :: x in d <==> x in e
    ensures d == e
  {
    assert e != [] ==> e[0] in d;
    if d != [] {
      assert d[0] in e;
      assert d[0] == e[0];
      forall x ensures x in d[1..] <==> x in e[1..] {
        assert x in d[1..] <==> x in d && x != d[0];
        assert x in e[1..] <==> x in e && x != e[0];
      }
      SameIncreasing(d[1..], e[1..]);
    }
  }

  /** With no zone named twice and no list repeating an id, the zones of an entry are exactly
      those listing it, each once. */
  lemma FetchZones(zones: seq<string>, list: Lister, e: Entry, z: string)
    requires IsEntry(zones, list, e)
    requires multiset(zones)[z] <= 1 && Times(RowsOf(list, z), e.id) <= 1
    ensures multiset(e.zones)[z] <= 1
    ensures z in e.zones <==> z in zones && Times(RowsOf(list, z), e.id) == 1
  {
    ListingCounts(zones, list, e.id, z);
    assert z in e.zones <==> z in multiset(e.zones);
    assert z in zones <==> z in multiset(zones);
    if multiset(zones)[z] == 0 || Times(RowsOf(list, z), e.id) == 0 {
      assert multiset(e.zones)[z] == 0;
    } else {
      assert multiset(e.zones)[z] == 1;
    }
  }

  // ---------------------------------------------------------------- Fetch

  /** The rows seen so far: all those of `zones`, then `rows` of zone z. */
  ghost predicate Seen(zones: seq<string>, list: Lister, rows: seq<Row>, r: Row) {
    Listed(zones, list, r) || r in rows
  }

  ghost function Tally(zones: seq<string>, list: Lister, z: string, rows: seq<Row>, id: int): multiset<string> {
    Listing(zones, list, id) + multiset{}[z := Times(rows, id)]
  }

  ghost predicate Slot(zones: seq<string>, list: Lister, z: string, rows: seq<Row>, id: int, e: Entry) {
    && e.id == id && multiset(e.zones) == Tally(zones, list, z, rows, id)
    && exists r :: Seen(zones, list, rows, r) && Describes(r, e)
  }

  /** The map after the rows seen so far. */
  ghost predicate Aggregated(zones: seq<string>, list: Lister, z: string, rows: seq<Row>, byID: map<int, Entry>) {
    && (forall id :: id in byID ==> Slot(zones, list, z, rows, id, byID[id]))
    && (forall id :: id !in byID ==> Tally(zones, list, z, rows, id) == multiset{})
    && (forall r :: Seen(zones, list, rows, r) ==> r.id in byID)
  }

  function WithRow(byID: map<int, Entry>, z: string, a: Row): map<int, Entry>
    requires a.id in byID || !Malformed(a)
  {
    if a.id in byID then byID[a.id := byID[a.id].(zones := byID[a.id].zones + [z])]
    else byID[a.id := Entry(a.id, a.subnet.value, a.synthetic.value, [z], a.node, a.announcer)]
  }

  lemma TallyMore(zones: seq<string>, list: Lister, z: string, rows: seq<Row>, a: Row, id: int)
    ensures Tally(zones, list, z, rows + [a], id) ==
            Tally(zones, list, z, rows, id) + if id == a.id then multiset{z} else multiset{}
  {}

  lemma SlotKept(zones: seq<string>, list: Lister, z: string, rows: seq<Row>, a: Row, id: int, e: Entry)
    requires Slot(zones, list, z, rows, id, e)
    ensures id != a.id ==> Slot(zones, list, z, rows + [a], id, e)
    ensures id == a.id ==> Slot(zones, list, z, rows + [a], id, e.(zones := e.zones + [z]))
  {
    TallyMore(zones, list, z, rows, a, id);
    var r :| Seen(zones, list, rows, r) && Describes(r, e);
    assert Seen(zones, list, rows + [a], r);
    assert Describes(r, e.(zones := e.zones + [z]));
  }

  lemma AggregatedRow(zones: seq<string>, list: Lister, z: string, rows: seq<Row>, byID: map<int, Entry>, a: Row)
    requires Aggregated(zones, list, z, rows, byID) && (a.id in byID || !Malformed(a))
    ensures Aggregated(zones, list, z, rows + [a], WithRow(byID, z, a))
  {
    hide Tally, Seen, Describes, Malformed, Slot;
    var after := WithRow(byID, z, a);
    forall id | id in after ensures Slot(zones, list, z, rows + [a], id, after[id]) {
      if id in byID {
        SlotKept(zones, list, z, rows, a, id, byID[id]);
      } else {
        FreshSlot(zones, list, z, rows, a);
      }
    }
    forall id | id !in after ensures Tally(zones, list, z, rows + [a], id) == multiset{} {
      TallyMore(zones, list, z, rows, a, id);
    }
    SeenMore(zones, list, rows, a);
  }

  lemma SeenMore(zones: seq<string>, list: Lister, rows: seq<Row>, a: Row)
    ensures forall r :: Seen(zones, list, rows + [a], r) <==> Seen(zones, list, rows, r) || r == a
  {}

  lemma FreshSlot(zones: seq<string>, list: Lister, z: string, rows: seq<Row>, a: Row)
    requires !Malformed(a) && Tally(zones, list, z, rows, a.id) == multiset{}
    ensures Slot(zones, list, z, rows + [a], a.id,
                 Entry(a.id, a.subnet.value, a.synthetic.value, [z], a.node, a.announcer))
  {
    TallyMore(zones, list, z, rows, a, a.id);
    assert Seen(zones, list, rows + [a], a);
    assert Describes(a, Entry(a.id, a.subnet.value, a.synthetic.value, [z], a.node, a.announcer));
  }

  lemma AggregatedZone(zones: seq<string>, list: Lister, z: string, byID: map<int, Entry>, next: string)
    requires list(z).Some? && Aggregated(zones, list, z, list(z).value, byID)
    ensures Aggregated(zones + [z], list, next, [], byID)
  {
    assert (zones + [z])[..|zones|] == zones;
    forall id ensures Tally(zones + [z], list, next, [], id) == Tally(zones, list, z, list(z).value, id) {}
    SeenZone(zones, list, z);
    forall id | id in byID ensures Slot(zones + [z], list, next, [], id, byID[id]) {
      assert Slot(zones, list, z, list(z).value, id, byID[id]);
    }
  }

  lemma SeenZone(zones: seq<string>, list: Lister, z: string)
    requires list(z).Some?
    ensures forall r :: Seen(zones + [z], list, [], r) <==> Seen(zones, list, list(z).value, r)
  {}

  /** routesync.go `Fetch`. The map is walked in an arbitrary order before the sort. */
  method Fetch(zones: seq<string>, list: Lister) returns (result: Option<seq<Entry>>)
    ensures result.Some? ==> IsFetch(zones, list, result.value)
    ensures result.None? ==> Broken(zones, list)
    ensures Agreeing(zones, list) ==> (result.None? <==> Broken(zones, list))
  {
    hide AllAnswer, Aggregated, IsFetch, Broken, Agreeing;
    var byID: map<int, Entry> := map[];
    AggregatedNothing(list);
    assert zones[..0] == [];
    for i := 0 to |zones|
      invariant AllAnswer(zones[..i], list)
      invariant forall z :: Aggregated(zones[..i], list, z, [], byID)
    {
      var z := zones[i];
      if list(z).None? {
        BrokenAt(zones, list, z);
        return None;
      }
      var rows := list(z).value;
      var scanned := Scan(zones[..i], z, rows, list, byID);
      if scanned.None? {
        BrokenAt(zones, list, z);
        return None;
      }
      byID := scanned.value;
      ghost var done := zones[..i + 1];
      assert done == zones[..i] + [z];
      AllAnswerMore(zones[..i], list, z);
      forall next ensures Aggregated(done, list, next, [], byID) {
        AggregatedZone(zones[..i], list, z, byID, next);
      }
    }
    assert zones[..|zones|] == zones;
    SlotIds(zones, list, byID);
    var entries := Collect(byID);
    result := Some(Sort(ById, entries));
    CollectedIsFetch(zones, list, byID, entries, result.value);
    FetchedIsWhole(zones, list, result.value);
  }

  lemma AggregatedNothing(list: Lister)
    ensures AllAnswer([], list) && forall z :: Aggregated([], list, z, [], map[])
  {}

  lemma AllAnswerMore(zones: seq<string>, list: Lister, z: string)
    requires AllAnswer(zones, list) && list(z).Some?
    ensures AllAnswer(zones + [z], list)
  {}

  lemma BrokenAt(zones: seq<string>, list: Lister, z: string)
    requires z in zones && (list(z).Some? ==> exists r :: r in list(z).value && Malformed(r))
    ensures Broken(zones, list)
  {}

  /** The inner loop of `Fetch`: one zone's rows. A row that repeats a known id is not parsed. */
  method Scan(ghost zones: seq<string>, z: string, rows: seq<Row>, ghost list: Lister, start: map<int, Entry>)
    returns (result: Option<map<int, Entry>>)
    requires Aggregated(zones, list, z, [], start)
    ensures result.Some? ==> Aggregated(zones, list, z, rows, result.value)
    ensures result.None? ==> exists r :: r in rows && Malformed(r)
  {
    hide Aggregated;
    var byID := start;
    assert rows[..0] == [];
    for j := 0 to |rows|
      invariant Aggregated(zones, list, z, rows[..j], byID)
    {
      var a := rows[j];
      assert rows[..j + 1] == rows[..j] + [a];
      if a.id !in byID && Malformed(a) {
        return None;
      }
      AggregatedRow(zones, list, z, rows[..j], byID, a);
      if a.id in byID {
        var e := byID[a.id];
        byID := byID[a.id := e.(zones := e.zones + [z])];
      } else {
        byID := byID[a.id := Entry(a.id, a.subnet.value, a.synthetic.value, [z], a.node, a.announcer)];
      }
    }
    assert rows[..|rows|] == rows;
    return Some(byID);
  }

  lemma SlotIds(zones: seq<string>, list: Lister, byID: map<int, Entry>)
    requires forall z :: Aggregated(zones, list, z, [], byID)
    ensures forall id :: id in byID ==> byID[id].id == id
  {
    assert Aggregated(zones, list, "", [], byID);
  }

  /** The entries of the map in whatever order it is walked, each with its zones sorted. */
  method Collect(byID: map<int, Entry>) returns (entries: seq<Entry>)
    requires forall id :: id in byID ==> byID[id].id == id
    ensures Collected(byID, entries)
  {
    entries := [];
    var ids := byID.Keys;
    while ids != {}
      invariant ids <= byID.Keys && CollectedFrom(byID, byID.Keys - ids, entries)
    {
      var id := PickOne(ids);
      CollectedMore(byID, byID.Keys - ids, entries, id);
      assert byID.Keys - (ids - {id}) == byID.Keys - ids + {id};
      ids := ids - {id};
      entries := entries + [Finished(byID[id])];
    }
    assert byID.Keys - {} == byID.Keys;
  }

  function Finished(e: Entry): Entry {
    e.(zones := Sort(StringLe, e.zones))
  }

  ghost predicate Collected(byID: map<int, Entry>, entries: seq<Entry>) {
    CollectedFrom(byID, byID.Keys, entries) && forall id :: id in byID ==> byID[id].id == id
  }

  ghost predicate CollectedFrom(byID: map<int, Entry>, done: set<int>, entries: seq<Entry>) {
    && done <= byID.Keys
    && (forall e :: e in entries ==> e.id in done && e == Finished(byID[e.id]))
    && (forall id :: id in done ==> Finished(byID[id]) in entries)
    && (forall i, j :: 0 <= i < j < |entries| ==> entries[i].id != entries[j].id)
  }

  lemma CollectedMore(byID: map<int, Entry>, done: set<int>, entries: seq<Entry>, id: int)
    requires CollectedFrom(byID, done, entries) && id in byID && id !in done && byID[id].id == id
    ensures CollectedFrom(byID, done + {id}, entries + [Finished(byID[id])])
  {}

  lemma CollectedIsFetch(zones: seq<string>, list: Lister, byID: map<int, Entry>, entries: seq<Entry>,
                         sorted: seq<Entry>)
    requires AllAnswer(zones, list) && (forall z :: Aggregated(zones, list, z, [], byID))
    requires Collected(byID, entries) && sorted == Sort(ById, entries)
    ensures IsFetch(zones, list, sorted)
  {
    hide Slot, Aggregated, Collected, IsEntry, Listed;
    SameElements(entries, sorted);
    DistinctIds(byID, entries);
    DistinctSorted(entries);
    forall e | e in sorted ensures IsEntry(zones, list, e) {
      CollectedEntry(zones, list, byID, entries, e);
    }
    forall r | Listed(zones, list, r) ensures exists e :: e in sorted && e.id == r.id {
      var e := CollectedRow(zones, list, byID, entries, r);
    }
  }

  lemma DistinctIds(byID: map<int, Entry>, entries: seq<Entry>)
    requires Collected(byID, entries)
    ensures forall i, j :: 0 <= i < j < |entries| ==> entries[i].id != entries[j].id
  {}

  lemma SameElements<T>(s: seq<T>, t: seq<T>)
    requires multiset(s) == multiset(t)
    ensures forall x :: x in s <==> x in t
  {
    forall x ensures x in s <==> x in t {
      assert x in s <==> x in multiset(s);
    }
  }

  lemma CollectedEntry(zones: seq<string>, list: Lister, byID: map<int, Entry>, entries: seq<Entry>, e: Entry)
    requires (forall z :: Aggregated(zones, list, z, [], byID)) && Collected(byID, entries) && e in entries
    ensures IsEntry(zones, list, e)
  {
    hide IsEntry, Slot;
    assert Aggregated(zones, list, "", [], byID);
    FinishedIsEntry(zones, list, byID[e.id]);
  }

  lemma CollectedRow(zones: seq<string>, list: Lister, byID: map<int, Entry>, entries: seq<Entry>,
                     r: Row) returns (e: Entry)
    requires (forall z :: Aggregated(zones, list, z, [], byID)) && Collected(byID, entries) && Listed(zones, list, r)
    ensures e in entries && e.id == r.id
  {
    hide Slot;
    assert Aggregated(zones, list, "", [], byID) && Seen(zones, list, [], r);
    e := Finished(byID[r.id]);
  }

  lemma FinishedIsEntry(zones: seq<string>, list: Lister, raw: Entry)
    requires Slot(zones, list, "", [], raw.id, raw)
    ensures IsEntry(zones, list, Finished(raw))
  {
    StringLeTotal();
    SortSorts(StringLe, raw.zones);
    var r :| Seen(zones, list, [], r) && Describes(r, raw);
    assert Describes(r, Finished(raw));
    assert Times([], raw.id) == 0;
  }

  lemma {:induction false} DistinctSorted(entries: seq<Entry>)
    requires forall i, j :: 0 <= i < j < |entries| ==> entries[i].id != entries[j].id
    ensures IncreasingIds(Sort(ById, entries))
  {
    if entries != [] {
      DistinctSorted(entries[1..]);
      SameElements(entries[1..], Sort(ById, entries[1..]));
      InsertIncreasing(entries[0], Sort(ById, entries[1..]));
    }
  }

  lemma {:induction false} InsertIncreasing(x: Entry, s: seq<Entry>)
    requires IncreasingIds(s) && forall e :: e in s ==> e.id != x.id
    ensures IncreasingIds(Insert(ById, x, s))
  {
    if s != [] && !ById(x, s[0]) {
      InsertIncreasing(x, s[1..]);
      var r := Insert(ById, x, s[1..]);
      forall k | 0 <= k < |r| ensures s[0].id < r[k].id {
        assert r[k] in multiset(r);
      }
    }
  }

  /** A result means every list was had. */
  lemma FetchAnswers(zones: seq<string>, list: Lister, entries: seq<Entry>)
    requires IsFetch(zones, list, entries)
    ensures AllAnswer(zones, list)
  {}

  /** Where the rows agree, a result means nothing was broken. */
  lemma FetchedIsWhole(zones: seq<string>, list: Lister, entries: seq<Entry>)
    requires IsFetch(zones, list, entries)
    ensures Agreeing(zones, list) ==> !Broken(zones, list)
  {}

  // ---------------------------------------------------------------- the two views

  function MineOf(entries: seq<Entry>, node: int): (r: seq<Entry>)
    ensures forall e :: e in r <==> e in entries && e.node == node
  {
    if entries == [] then []
    else
      var last := entries[|entries| - 1];
      assert entries == entries[..|entries| - 1] + [last];
      MineOf(entries[..|entries| - 1], node) + if last.node == node then [last] else []
  }

  function OthersOf(entries: seq<Entry>, node: int): (r: seq<Entry>)
    ensures forall e :: e in r <==> e in entries && e.node != node
  {
    if entries == [] then []
    else
      var last := entries[|entries| - 1];
      assert entries == entries[..|entries| - 1] + [last];
      OthersOf(entries[..|entries| - 1], node) + if last.node != node then [last] else []
  }

  /** The entries of other nodes, the first one for each synthetic block. */
  function ConsumedOf(entries: seq<Entry>, node: int): seq<Entry> {
    if entries == [] then []
    else
      var last, kept := entries[|entries| - 1], ConsumedOf(entries[..|entries| - 1], node);
      if last.node == node || last.synthetic in Prefixes(kept) then kept else kept + [last]
  }

  /** routesync.go `Prefixes`. */
  function Prefixes(entries: seq<Entry>): (r: seq<Prefix>)
    ensures |r| == |entries| && forall i :: 0 <= i < |r| ==> r[i] == entries[i].synthetic
  {
    seq(|entries|, i requires 0 <= i < |entries| => entries[i].synthetic)
  }

  method Mine(entries: seq<Entry>, node: int) returns (out: seq<Entry>)
    ensures out == MineOf(entries, node)
  {
    out := [];
    for i := 0 to |entries|
      invariant out == MineOf(entries[..i], node)
    {
      assert entries[..i + 1][..i] == entries[..i];
      if entries[i].node == node {
        out := out + [entries[i]];
      }
    }
    assert entries[..|entries|] == entries;
  }

  method Consumed(entries: seq<Entry>, node: int) returns (out: seq<Entry>)
    ensures out == ConsumedOf(entries, node)
  {
    var seen: set<Prefix> := {};
    out := [];
    for i := 0 to |entries|
      invariant out == ConsumedOf(entries[..i], node)
      invariant forall p :: p in seen <==> p in Prefixes(out)
    {
      assert entries[..i + 1][..i] == entries[..i];
      var e := entries[i];
      if e.node == node || e.synthetic in seen {
        continue;
      }
      seen := seen + {e.synthetic};
      assert Prefixes(out + [e]) == Prefixes(out) + [e.synthetic];
      out := out + [e];
    }
    assert entries[..|entries|] == entries;
  }

  lemma OneMore<T>(a: seq<T>, b: seq<T>, c: seq<T>, x: T)
    requires multiset(a) + multiset(b) == multiset(c)
    ensures multiset(a + [x]) + multiset(b) == multiset(c + [x]) == multiset(a) + multiset(b + [x])
  {}

  lemma ViewsOfLast(entries: seq<Entry>, node: int)
    requires entries != []
    ensures var rest, last := entries[..|entries| - 1], entries[|entries| - 1];
            if last.node == node
            then MineOf(entries, node) == MineOf(rest, node) + [last] && OthersOf(entries, node) == OthersOf(rest, node)
            else MineOf(entries, node) == MineOf(rest, node) && OthersOf(entries, node) == OthersOf(rest, node) + [last]
  {}

  /** This node's entries and the others' are all the entries. */
  lemma {:induction false} ViewsPartition(entries: seq<Entry>, node: int)
    ensures multiset(MineOf(entries, node)) + multiset(OthersOf(entries, node)) == multiset(entries)
  {
    if entries == [] {
    } else {
      hide MineOf, OthersOf;
      var rest, last := entries[..|entries| - 1], entries[|entries| - 1];
      ViewsPartition(rest, node);
      OneMore(MineOf(rest, node), OthersOf(rest, node), rest, last);
      ViewsOfLast(entries, node);
      assert entries == rest + [last];
    }
  }

  /** One entry for each synthetic block the others announce: none missing, none of this node's
      own, and (below) none twice and each the earliest of its block. */
  lemma {:induction false} ConsumedExact(entries: seq<Entry>, node: int)
    ensures forall e :: e in ConsumedOf(entries, node) ==> e in OthersOf(entries, node)
    ensures forall e :: e in OthersOf(entries, node) ==> e.synthetic in Prefixes(ConsumedOf(entries, node))
  {
    if entries != [] {
      var rest, last := entries[..|entries| - 1], entries[|entries| - 1];
      ConsumedExact(rest, node);
      var kept := ConsumedOf(rest, node);
      assert Prefixes(kept + [last]) == Prefixes(kept) + [last.synthetic];
    }
  }

  lemma {:induction false} ConsumedOnce(entries: seq<Entry>, node: int)
    ensures forall i, j :: 0 <= i < j < |ConsumedOf(entries, node)| ==>
              ConsumedOf(entries, node)[i].synthetic != ConsumedOf(entries, node)[j].synthetic
  {
    if entries != [] {
      ConsumedOnce(entries[..|entries| - 1], node);
      var kept := ConsumedOf(entries[..|entries| - 1], node);
      assert forall i :: 0 <= i < |kept| ==> Prefixes(kept)[i] in Prefixes(kept);
    }
  }

  lemma {:induction false} ConsumedIsEarliest(entries: seq<Entry>, node: int, i: int)
    requires 0 <= i < |entries| && entries[i].node != node
    requires forall j :: 0 <= j < i ==> entries[j].node == node || entries[j].synthetic != entries[i].synthetic
    ensures entries[i] in ConsumedOf(entries, node)
  {
    var rest := entries[..|entries| - 1];
    if i < |rest| {
      ConsumedIsEarliest(rest, node, i);
    } else {
      NotYetConsumed(rest, node, entries[i].synthetic);
    }
  }

  lemma ViewsEnd(entries: seq<Entry>, node: int)
    ensures entries == [] ==> ConsumedOf(entries, node) == [] && MineOf(entries, node) == []
    ensures entries != [] ==>
              var rest, last := entries[..|entries| - 1], entries[|entries| - 1];
              && ConsumedOf(entries, node) in {ConsumedOf(rest, node), ConsumedOf(rest, node) + [last]}
              && MineOf(entries, node) in {MineOf(rest, node), MineOf(rest, node) + [last]}
  {
    hide Prefixes;
    if entries != [] {
      ViewsOfLast(entries, node);
    }
  }

  lemma IdsBelowLast(rest: seq<Entry>, some: seq<Entry>, last: Entry)
    requires IncreasingIds(rest + [last]) && IncreasingIds(some) && forall e :: e in some ==> e in rest
    ensures IncreasingIds(some + [last])
  {
    forall e | e in some ensures e.id < last.id {
      var i :| 0 <= i < |rest| && rest[i] == e;
      assert (rest + [last])[i] == e && (rest + [last])[|rest|] == last;
    }
  }

  /** Both views keep the entries' order. */
  lemma {:induction false} ViewsInOrder(entries: seq<Entry>, node: int)
    requires IncreasingIds(entries)
    ensures IncreasingIds(ConsumedOf(entries, node)) && IncreasingIds(MineOf(entries, node))
  {
    hide ConsumedOf, MineOf, OthersOf, Prefixes;
    ViewsEnd(entries, node);
    if entries != [] {
      var rest, last := entries[..|entries| - 1], entries[|entries| - 1];
      assert entries == rest + [last];
      ViewsInOrder(rest, node);
      ConsumedExact(rest, node);
      IdsBelowLast(rest, ConsumedOf(rest, node), last);
      IdsBelowLast(rest, MineOf(rest, node), last);
    }
  }

  /** A node that announces nothing consumes the same whether or not it knows its own id. */
  lemma {:induction false} NobodysView(entries: seq<Entry>, m: int, n: int)
    requires forall e :: e in entries ==> e.node != m && e.node != n
    ensures ConsumedOf(entries, m) == ConsumedOf(entries, n)
  {
    if entries != [] {
      NobodysView(entries[..|entries| - 1], m, n);
    }
  }

  lemma NotYetConsumed(entries: seq<Entry>, node: int, p: Prefix)
    requires forall j :: 0 <= j < |entries| ==> entries[j].node == node || entries[j].synthetic != p
    ensures p !in Prefixes(ConsumedOf(entries, node))
  {
    hide ConsumedOf, OthersOf;
    ConsumedExact(entries, node);
    var kept := ConsumedOf(entries, node);
    forall k | 0 <= k < |kept| ensures kept[k].synthetic != p {
      assert kept[k] in OthersOf(entries, node);
      var j :| 0 <= j < |entries| && entries[j] == kept[k];
    }
  }

  // ---------------------------------------------------------------- member zones

  ghost predicate MemberOf(members: string -> Option<seq<uint32>>, self: uint32, z: string) {
    members(z).Some? && self in members(z).value
  }

  ghost function MemberZonesOf(zones: seq<string>, members: string -> Option<seq<uint32>>,
                               self: uint32): (r: seq<string>)
    ensures forall z :: z in r <==> z in zones && MemberOf(members, self, z)
  {
    if zones == [] then []
    else
      var last := zones[|zones| - 1];
      assert zones == zones[..|zones| - 1] + [last];
      MemberZonesOf(zones[..|zones| - 1], members, self) + if MemberOf(members, self, last) then [last] else []
  }

  /** routesync.go `MemberZones`: a zone whose members cannot be looked up is skipped. */
  method MemberZones(zones: seq<string>, members: string -> Option<seq<uint32>>,
                     self: uint32) returns (out: seq<string>)
    ensures out == MemberZonesOf(zones, members, self)
    ensures forall z :: z in out <==> z in zones && members(z).Some? && self in members(z).value
  {
    out := [];
    for i := 0 to |zones|
      invariant out == MemberZonesOf(zones[..i], members, self)
    {
      assert zones[..i + 1][..i] == zones[..i];
      var z := zones[i];
      if members(z).None? {
        continue;
      }
      var ips := members(z).value;
      for k := 0 to |ips|
        invariant out == MemberZonesOf(zones[..i], members, self)
        invariant self !in ips[..k]
      {
        if ips[k] == self {
          out := out + [z];
          break;
        }
      }
    }
    assert zones[..|zones|] == zones;
  }

  // ---------------------------------------------------------------- the announcer's rules

  datatype NatRule = NatRule(synthetic: Prefix, lan: Prefix)

  datatype OwnEntry = OwnEntry(id: int, subnet: Prefix, synthetic: Prefix, zones: seq<string>)

  function RulesFor(mine: seq<Entry>): seq<NatRule> {
    seq(|mine|, i requires 0 <= i < |mine| => NatRule(mine[i].synthetic, mine[i].subnet))
  }

  function OwnEntries(mine: seq<Entry>): seq<OwnEntry> {
    seq(|mine|, i requires 0 <= i < |mine| => OwnEntry(mine[i].id, mine[i].subnet, mine[i].synthetic, mine[i].zones))
  }

  /** Rules and display entries show the announcements, one by one. */
  predicate Shown(mine: seq<Entry>, rules: seq<NatRule>, entries: seq<OwnEntry>) {
    && |rules| == |entries| == |mine|
    && forall i :: 0 <= i < |mine| ==>
         && rules[i].synthetic == mine[i].synthetic && rules[i].lan == mine[i].subnet
         && entries[i].id == mine[i].id && entries[i].subnet == mine[i].subnet
         && entries[i].synthetic == mine[i].synthetic && entries[i].zones == mine[i].zones
  }

  /** reconcile.go `Desired`. */
  method Desired(zones: seq<string>, list: Lister, node: int) returns (rules: seq<NatRule>, entries: seq<OwnEntry>,
                 ok: bool)
    ensures ok ==>
            exists all ::
              IsFetch(zones, list, all) &&
              rules == RulesFor(MineOf(all, node)) && entries == OwnEntries(MineOf(all, node)) &&
              Shown(MineOf(all, node), rules, entries)
    ensures !ok ==> Broken(zones, list) && rules == [] && entries == []
  {
    hide IsFetch, Broken, Agreeing;
    rules, entries := [], [];
    var all := Fetch(zones, list);
    if all.None? {
      return rules, entries, false;
    }
    var mine := Mine(all.value, node);
    for i := 0 to |mine|
      invariant |rules| == |entries| == i
      invariant forall j :: 0 <= j < i ==> rules[j] == NatRule(mine[j].synthetic, mine[j].subnet)
      invariant forall j :: 0 <= j < i ==>
                  entries[j] == OwnEntry(mine[j].id, mine[j].subnet, mine[j].synthetic, mine[j].zones)
    {
      entries := entries + [OwnEntry(mine[i].id, mine[i].subnet, mine[i].synthetic, mine[i].zones)];
      rules := rules + [NatRule(mine[i].synthetic, mine[i].subnet)];
    }
    assert rules == RulesFor(mine) && entries == OwnEntries(mine);
    ok := true;
  }
}
