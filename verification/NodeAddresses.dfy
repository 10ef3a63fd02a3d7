/** Client address allocation (internal/server/store/nodes.go). */
module NodeAddresses {
  import opened Cidr
  import opened Common
  import opened Ipam

  ghost predicate FreeIn(used: set<uint32>, range: Range, a: int) {
    range.first <= a <= range.last && a !in used
  }

  ghost predicate LowestIn(used: set<uint32>, range: Range, a: int) {
    FreeIn(used, range, a) && forall c :: FreeIn(used, range, c) ==> a <= c
  }

  /** The smallest free address of the range, or none when it is full. */
  ghost function LowestAddress(used: set<uint32>, range: Range): Option<uint32> {
    if exists a: uint32 :: LowestIn(used, range, a) then
      var a: uint32 :| LowestIn(used, range, a);
      Some(a)
    else None
  }

  /** The query's candidates: the first address, and the successor of each used one. */
  function Candidates(used: set<uint32>, range: Range): set<int> {
    {range.first as int} + set u | u in used && range.first <= u < range.last :: u + 1
  }

  /** However far up a free address lies, some candidate below it is free: walking down from it
      one stays free until the address below is used, or is out of the range. */
  lemma {:induction false} CandidateBelow(used: set<uint32>, range: Range, a: int) returns (c: int)
    requires FreeIn(used, range, a)
    ensures c in Candidates(used, range) && FreeIn(used, range, c) && c <= a
    decreases a - range.first
  {
    if a == range.first || a - 1 in used {
      c := a;
    } else {
      c := CandidateBelow(used, range, a - 1);
    }
  }

  /** `ORDER BY c LIMIT 1`. */
  method Smallest(s: set<int>) returns (m: Option<int>)
    ensures m.None? <==> s == {}
    ensures m.Some? ==> m.value in s && forall x :: x in s ==> m.value <= x
  {
    if s == {} {
      return None;
    }
    var first := PickOne(s);
    var best, rest := first, s - {first};
    while rest != {}
      invariant rest <= s && best in s
      invariant forall x :: x in s ==> x in rest || best <= x
    {
      var x := PickOne(rest);
      rest := rest - {x};
      if x < best {
        best := x;
      }
    }
    return Some(best);
  }

  /** nodes.go `lowestFree`: looking at the candidates alone finds the true minimum of all free
      addresses in the range, and finds nothing exactly when the range is full. */
  method LowestFreeAddress(used: set<uint32>, range: Range) returns (r: Option<uint32>)
    requires range.first <= range.last
    ensures r.Some? ==> LowestIn(used, range, r.value)
    ensures r.None? <==> forall a :: range.first <= a <= range.last ==> a in used
    ensures r == LowestAddress(used, range)
  {
    var free := set c | c in Candidates(used, range) && c <= range.last && c !in used;
    var m := Smallest(free);
    forall a: int | FreeIn(used, range, a) ensures exists c :: c in free && c <= a {
      var c := CandidateBelow(used, range, a);
      assert c in free;
    }
    if m.None? {
      assert free == {};
      assert forall a :: !FreeIn(used, range, a);
      assert forall a :: range.first <= a <= range.last ==> a in used || FreeIn(used, range, a);
      return None;
    }
    assert LowestIn(used, range, m.value);
    return Some(m.value);
  }
}
