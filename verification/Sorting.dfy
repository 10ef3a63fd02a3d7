/** Sorting, as the Go library's sort.Strings and sort.Slice promise it, and the order on strings. */
module Sorting {

  ghost predicate TotalOrder<T(!new)>(le: (T, T) -> bool) {
    && (forall x, y :: le(x, y) || le(y, x))
    && (forall x, y, z :: le(x, y) && le(y, z) ==> le(x, z))
  }

  ghost predicate SortedBy<T>(le: (T, T) -> bool, s: seq<T>) {
    forall i, j :: 0 <= i < j < |s| ==> le(s[i], s[j])
  }

  function Insert<T>(le: (T, T) -> bool, x: T, s: seq<T>): (r: seq<T>)
    ensures multiset(r) == multiset(s) + multiset{x}
  {
    if s == [] then [x]
    else if le(x, s[0]) then [x] + s
    else
      assert s == [s[0]] + s[1..];
      [s[0]] + Insert(le, x, s[1..])
  }

  lemma {:induction false} InsertSorted<T(!new)>(le: (T, T) -> bool, x: T, s: seq<T>)
    requires TotalOrder(le) && SortedBy(le, s)
    ensures SortedBy(le, Insert(le, x, s))
  {
    if s != [] && !le(x, s[0]) {
      InsertSorted(le, x, s[1..]);
      var r := Insert(le, x, s[1..]);
      forall k | 0 <= k < |r| ensures le(s[0], r[k]) {
        assert r[k] in multiset(r);
        assert s == [s[0]] + s[1..];
      }
    }
  }

  function Sort<T>(le: (T, T) -> bool, s: seq<T>): (r: seq<T>)
    ensures multiset(r) == multiset(s)
  {
    if s == [] then []
    else
      assert s == [s[0]] + s[1..];
      Insert(le, s[0], Sort(le, s[1..]))
  }

  lemma {:induction false} SortSorts<T(!new)>(le: (T, T) -> bool, s: seq<T>)
    requires TotalOrder(le)
    ensures SortedBy(le, Sort(le, s))
  {
    if s != [] {
      SortSorts(le, s[1..]);
      InsertSorted(le, s[0], Sort(le, s[1..]));
    }
  }

  lemma SameTails<T>(s: seq<T>, t: seq<T>)
    requires multiset(s) == multiset(t) && s != [] && t != [] && s[0] == t[0]
    ensures multiset(s[1..]) == multiset(t[1..])
    ensures s == [s[0]] + s[1..] && t == [t[0]] + t[1..]
    ensures forall x :: x in s[1..] ==> x in s
  {
    assert s == [s[0]] + s[1..] && t == [t[0]] + t[1..];
    assert multiset(s[1..]) == multiset(s) - multiset{s[0]} == multiset(t[1..]);
  }

  /** Where the order tells the elements apart, sorting leaves nothing to choice. */
  lemma {:induction false} SortedUnique<T(!new)>(le: (T, T) -> bool, s: seq<T>, t: seq<T>)
    requires TotalOrder(le) && SortedBy(le, s) && SortedBy(le, t) && multiset(s) == multiset(t)
    requires forall x, y :: x in s && y in s && le(x, y) && le(y, x) ==> x == y
    ensures s == t
  {
    assert |s| == |multiset(s)| == |multiset(t)| == |t|;
    if s != [] {
      FirstIsLeast(le, s, t[0], t);
      FirstIsLeast(le, t, s[0], s);
      assert s[0] == t[0];
      SameTails(s, t);
      SortedUnique(le, s[1..], t[1..]);
    }
  }

  lemma FirstIsLeast<T(!new)>(le: (T, T) -> bool, s: seq<T>, x: T, t: seq<T>)
    requires TotalOrder(le) && SortedBy(le, s) && s != [] && multiset(s) == multiset(t) && x in t
    ensures x in s && le(s[0], x)
  {
    assert x in multiset(t);
    var j :| 0 <= j < |s| && s[j] == x;
    assert le(s[0], s[0]);
  }

  // ---------------------------------------------------------------- strings

  /** Lexicographic order, as Go compares strings. */
  predicate StringLe(a: string, b: string) {
    if a == [] then true
    else if b == [] then false
    else a[0] < b[0] || (a[0] == b[0] && StringLe(a[1..], b[1..]))
  }

  lemma SameStart(a: string, b: string, k: nat)
    requires 0 < k <= |a| && k <= |b| && a[..k] == b[..k]
    ensures a[0] == b[0]
  {
    assert a[..k][0] == a[0] && b[..k][0] == b[0];
  }

  /** What comes before decides at the first difference, and a string's beginnings come before it. */
  lemma {:induction false} StringLeMeans(a: string, b: string)
    ensures StringLe(a, b) <==>
            a <= b || exists k :: 0 <= k < |a| && k < |b| && a[..k] == b[..k] && a[k] < b[k]
  {
    if a != [] && b != [] && a[0] == b[0] {
      StringLeMeans(a[1..], b[1..]);
      assert a <= b <==> a[1..] <= b[1..] by {
        assert a == [a[0]] + a[1..] && b == [b[0]] + b[1..];
      }
      if k :| 0 <= k < |a[1..]| && k < |b[1..]| && a[1..][..k] == b[1..][..k] && a[1..][k] < b[1..][k] {
        assert a[..k + 1] == [a[0]] + a[1..][..k] && b[..k + 1] == [b[0]] + b[1..][..k];
        assert a[k + 1] < b[k + 1];
      }
      if k :| 0 <= k < |a| && k < |b| && a[..k] == b[..k] && a[k] < b[k] {
        assert k > 0;
        assert a[1..][..k - 1] == a[..k][1..] && b[1..][..k - 1] == b[..k][1..];
        assert a[1..][k - 1] < b[1..][k - 1];
      }
    } else if a != [] && b != [] {
      if a[0] < b[0] { assert a[..0] == b[..0]; }
      if k :| 0 <= k < |a| && k < |b| && a[..k] == b[..k] && a[k] < b[k] {
        if k > 0 { SameStart(a, b, k); }
      }
    }
  }

  lemma StringLeTotal()
    ensures TotalOrder(StringLe)
    ensures forall a, b :: StringLe(a, b) && StringLe(b, a) ==> a == b
  {
    forall a, b ensures StringLe(a, b) || StringLe(b, a) { Comparable(a, b); }
    forall a, b, c | StringLe(a, b) && StringLe(b, c) ensures StringLe(a, c) { Transitive(a, b, c); }
    forall a, b | StringLe(a, b) && StringLe(b, a) ensures a == b { Antisymmetric(a, b); }
  }

  lemma {:induction false} Comparable(a: string, b: string)
    ensures StringLe(a, b) || StringLe(b, a)
  {
    if a != [] && b != [] { Comparable(a[1..], b[1..]); }
  }

  lemma {:induction false} Transitive(a: string, b: string, c: string)
    requires StringLe(a, b) && StringLe(b, c)
    ensures StringLe(a, c)
  {
    if a != [] && b != [] && c != [] && a[0] == b[0] == c[0] { Transitive(a[1..], b[1..], c[1..]); }
  }

  lemma {:induction false} Antisymmetric(a: string, b: string)
    requires StringLe(a, b) && StringLe(b, a)
    ensures a == b
  {
    if a != [] && b != [] {
      Antisymmetric(a[1..], b[1..]);
      assert a == [a[0]] + a[1..] && b == [b[0]] + b[1..];
    }
  }
}
