/** Consumer routes on the two clients: the canonical form of a request (internal/netutil) and
    what a diffing applier is meant to leave behind, whichever order it works in
    (internal/router/engine/engine.go, internal/client/tunnel). */
module Routes {
  import opened Cidr
  import opened Common
  import opened Sorting

  // ---------------------------------------------------------------- canonical form

  /** By address, then prefix length. */
  predicate PrefixLe(a: Block, b: Block) {
    a.base < b.base || (a.base == b.base && a.prefixLen <= b.prefixLen)
  }

  ghost predicate Canonical(s: seq<Block>) {
    forall i, j :: 0 <= i < j < |s| ==> s[i] != s[j] && PrefixLe(s[i], s[j])
  }

  /** Canonical is ascending by address, and by length where addresses are equal. */
  lemma CanonicalAscends(s: seq<Block>)
    ensures Canonical(s) <==>
            forall i, j :: 0 <= i < j < |s| ==>
              s[i].base < s[j].base || (s[i].base == s[j].base && s[i].prefixLen < s[j].prefixLen)
  {}

  /** The masked prefixes, each where it first occurs. */
  function Distinct(input: seq<Prefix>): seq<Block> {
    if input == [] then []
    else var kept, m := Distinct(input[..|input| - 1]), BlockFromPrefix(input[|input| - 1]);
         if m in kept then kept else kept + [m]
  }

  function CanonicalOf(input: seq<Prefix>): seq<Block> {
    Sort(PrefixLe, Distinct(input))
  }

  function MaskedSet(input: seq<Prefix>): set<Block> {
    set p | p in input :: BlockFromPrefix(p)
  }

  lemma {:induction false} DistinctExact(input: seq<Prefix>)
    ensures Elems(Distinct(input)) == MaskedSet(input)
    ensures forall i, j :: 0 <= i < j < |Distinct(input)| ==> Distinct(input)[i] != Distinct(input)[j]
  {
    if input != [] {
      var rest, last := input[..|input| - 1], input[|input| - 1];
      DistinctExact(rest);
      assert input == rest + [last];
      assert MaskedSet(input) == MaskedSet(rest) + {BlockFromPrefix(last)};
    }
  }

  lemma PrefixLeTotal()
    ensures TotalOrder(PrefixLe)
    ensures forall a, b :: PrefixLe(a, b) && PrefixLe(b, a) ==> a == b
  {}

  /** Sorted, without duplicates, with exactly the masked prefixes asked for. */
  lemma CanonicalExact(input: seq<Prefix>)
    ensures Canonical(CanonicalOf(input))
    ensures Elems(CanonicalOf(input)) == MaskedSet(input)
  {
    DistinctExact(input);
    PrefixLeTotal();
    SortSorts(PrefixLe, Distinct(input));
    SortedDistinct(Distinct(input), CanonicalOf(input));
    forall b ensures b in CanonicalOf(input) <==> b in Distinct(input) {
      assert b in CanonicalOf(input) <==> b in multiset(CanonicalOf(input));
    }
  }

  lemma SortedDistinct(s: seq<Block>, t: seq<Block>)
    requires multiset(s) == multiset(t) && forall i, j :: 0 <= i < j < |s| ==> s[i] != s[j]
    ensures forall i, j :: 0 <= i < j < |t| ==> t[i] != t[j]
  {
    forall i, j | 0 <= i < j < |t| ensures t[i] != t[j] {
      OnceEach(s, t[i]);
      TwiceCounts(t, i, j);
    }
  }

  lemma TwiceCounts(t: seq<Block>, i: int, j: int)
    requires 0 <= i < j < |t|
    ensures t[i] == t[j] ==> multiset(t)[t[i]] >= 2
  {
    assert t == t[..i] + [t[i]] + t[i + 1..j] + [t[j]] + t[j + 1..];
  }

  lemma {:induction false} OnceEach(s: seq<Block>, b: Block)
    requires forall i, j :: 0 <= i < j < |s| ==> s[i] != s[j]
    ensures multiset(s)[b] <= 1
  {
    if s != [] {
      OnceEach(s[1..], b);
      assert s == [s[0]] + s[1..];
      if b == s[0] {
        assert b !in s[1..];
        assert multiset(s[1..])[b] == 0;
      }
    }
  }

  /** One set of prefixes has one canonical form: requests that differ in order, repetition or
      host bits are the same request. */
  lemma {:induction false} CanonicalUnique(s: seq<Block>, t: seq<Block>)
    requires Canonical(s) && Canonical(t) && forall b :: b in s <==> b in t
    ensures s == t
  {
    assert t != [] ==> t[0] in s;
    if s != [] {
      assert s[0] in t;
      PrefixLeTotal();
      assert s[0] == t[0];
      forall b ensures b in s[1..] <==> b in t[1..] {
        assert b in s[1..] <==> b in s && b != s[0];
        assert b in t[1..] <==> b in t && b != t[0];
      }
      CanonicalUnique(s[1..], t[1..]);
    }
  }

  lemma RequestsByMeaning(input: seq<Prefix>, other: seq<Prefix>)
    requires MaskedSet(input) == MaskedSet(other)
    ensures CanonicalOf(input) == CanonicalOf(other)
  {
    CanonicalExact(input);
    CanonicalExact(other);
    forall b ensures b in CanonicalOf(input) <==> b in CanonicalOf(other) {
      assert b in CanonicalOf(input) <==> b in Elems(CanonicalOf(input));
      assert b in CanonicalOf(other) <==> b in Elems(CanonicalOf(other));
    }
    CanonicalUnique(CanonicalOf(input), CanonicalOf(other));
  }

  /** prefix.go `CanonicalPrefixes`. */
  method CanonicalPrefixes(input: seq<Prefix>) returns (out: seq<Block>)
    ensures out == CanonicalOf(input) && Canonical(out)
  {
    var seen: set<Block> := {};
    out := [];
    for i := 0 to |input|
      invariant out == Distinct(input[..i]) && seen == Elems(out)
    {
      assert input[..i + 1][..i] == input[..i];
      var m := BlockFromPrefix(input[i]);
      if m !in seen {
        seen := seen + {m};
        out := out + [m];
      }
    }
    assert input[..|input|] == input;
    CanonicalExact(input);
    out := Sort(PrefixLe, out);
  }

  // ---------------------------------------------------------------- what an applier leaves

  /** The memory of the last request and the kernel's side of it. */
  datatype RouteState = RouteState(wanted: seq<Block>, applied: seq<Block>, routes: set<Block>, allowed: set<Block>)

  /** What the surroundings do to one call: the blocks that overlap a local network, and those
      whose route the kernel refuses. */
  datatype Surroundings = Surroundings(clash: Block -> bool, refuses: Block -> bool)

  function Filter(s: seq<Block>, keep: Block -> bool): (r: seq<Block>)
    ensures forall b :: b in r <==> b in s && keep(b)
  {
    if s == [] then []
    else
      var rest, last := s[..|s| - 1], s[|s| - 1];
      assert s == rest + [last];
      Filter(rest, keep) + if keep(last) then [last] else []
  }

  lemma FilterMore(s: seq<Block>, b: Block, keep: Block -> bool)
    ensures Filter(s + [b], keep) == Filter(s, keep) + if keep(b) then [b] else []
  {}

  lemma ElemsMore<T>(s: seq<T>, x: T)
    ensures Elems(s + [x]) == Elems(s) + {x}
  {}

  function Without(s: seq<Block>, drop: set<Block>): seq<Block> {
    Filter(s, b => b !in drop)
  }

  lemma WithoutMore(s: seq<Block>, b: Block, drop: set<Block>)
    ensures Without(s + [b], drop) == Without(s, drop) + if b !in drop then [b] else []
  {}

  lemma WithoutExact(s: seq<Block>, drop: set<Block>)
    ensures Elems(Without(s, drop)) == Elems(s) - drop && Subsequence(Without(s, drop), s)
  {
    FilterSubsequence(s, b => b !in drop);
  }

  function Free(desired: seq<Block>, env: Surroundings): seq<Block> {
    Filter(desired, b => !env.clash(b))
  }

  function Routable(free: seq<Block>, had: set<Block>, env: Surroundings): seq<Block> {
    Filter(free, b => b in had || !env.refuses(b))
  }

  lemma RoutableMore(free: seq<Block>, b: Block, had: set<Block>, env: Surroundings)
    ensures Routable(free + [b], had, env) == Routable(free, had, env) + if b in had || !env.refuses(b) then [b] else []
  {}

  /** The blocks of a request that get routed: no conflict, and either routed already or accepted. */
  function Kept(desired: seq<Block>, had: set<Block>, env: Surroundings): seq<Block> {
    Routable(Free(desired, env), had, env)
  }

  /** The conflict gate both appliers start with. */
  method Unclashed(desired: seq<Block>, env: Surroundings) returns (free: seq<Block>)
    ensures free == Free(desired, env)
  {
    free := [];
    for i := 0 to |desired|
      invariant free == Free(desired[..i], env)
    {
      assert desired[..i + 1] == desired[..i] + [desired[i]];
      FilterMore(desired[..i], desired[i], b => !env.clash(b));
      if !env.clash(desired[i]) {
        free := free + [desired[i]];
      }
    }
    assert desired[..|desired|] == desired;
  }

  /** The kernel's routes after a diff between what was applied and what is free to be. */
  function DiffRoutes(routes: set<Block>, had: set<Block>, free: seq<Block>, env: Surroundings): set<Block> {
    routes - (had - Elems(free)) + (Elems(Routable(free, had, env)) - had)
  }

  /** Whether it adds first or deletes first, an applier leaves the same routes: a block is never
      both new and gone. */
  lemma DiffOrder(routes: set<Block>, had: set<Block>, free: seq<Block>, env: Surroundings)
    ensures routes + (Elems(Routable(free, had, env)) - had) - (had - Elems(free)) == DiffRoutes(routes, had, free, env)
  {}

  predicate Unchanged(s: RouteState, desired: seq<Block>) {
    desired == s.wanted && |s.applied| == |s.wanted|
  }

  /** The state after a request. */
  function Requested(s: RouteState, network: Block, desired: seq<Block>, env: Surroundings): RouteState {
    if Unchanged(s, desired) then s
    else var kept := Kept(desired, Elems(s.applied), env);
         RouteState(desired, kept, Elems(kept), {network} + Elems(kept))
  }

  /** The state after a request, as a diffing applier computes it. */
  function Diffed(s: RouteState, network: Block, desired: seq<Block>, env: Surroundings): RouteState {
    if Unchanged(s, desired) then s
    else var kept := Kept(desired, Elems(s.applied), env);
         RouteState(desired, kept, DiffRoutes(s.routes, Elems(s.applied), Free(desired, env), env),
                   {network} + Elems(kept))
  }

  /** Diffing against the memory replaces the routes, as long as the memory is right. */
  lemma DiffIsReplace(s: RouteState, network: Block, desired: seq<Block>, env: Surroundings)
    requires Coherent(s, network)
    ensures Diffed(s, network, desired, env) == Requested(s, network, desired, env)
  {}

  predicate Subsequence(a: seq<Block>, w: seq<Block>) {
    if a == [] then true
    else if w == [] then false
    else if a[|a| - 1] == w[|w| - 1] then Subsequence(a[..|a| - 1], w[..|w| - 1])
    else Subsequence(a, w[..|w| - 1])
  }

  /** Memory and kernel agree: the routes are the applied blocks, the peer's AllowedIPs are those
      and the VPN network, and the applied blocks are some of the wanted ones, in their order. */
  ghost predicate Coherent(s: RouteState, network: Block) {
    && Canonical(s.wanted) && Subsequence(s.applied, s.wanted)
    && s.routes == Elems(s.applied) && s.allowed == {network} + Elems(s.applied)
  }

  lemma {:induction false} SubsequenceLength(a: seq<Block>, w: seq<Block>)
    requires Subsequence(a, w)
    ensures |a| <= |w| && (|a| == |w| ==> a == w)
  {
    if a != [] {
      if a[|a| - 1] == w[|w| - 1] {
        SubsequenceLength(a[..|a| - 1], w[..|w| - 1]);
        assert a == a[..|a| - 1] + [a[|a| - 1]] && w == w[..|w| - 1] + [w[|w| - 1]];
      } else {
        SubsequenceLength(a, w[..|w| - 1]);
      }
    }
  }

  lemma {:induction false} FilterSubsequence(s: seq<Block>, keep: Block -> bool)
    ensures Subsequence(Filter(s, keep), s)
  {
    if s != [] {
      var rest, last := s[..|s| - 1], s[|s| - 1];
      FilterSubsequence(rest, keep);
      var f := Filter(rest, keep);
      if keep(last) {
        assert (f + [last])[..|f|] == f;
      } else {
        SubsequenceSkips(f, s);
        assert Filter(s, keep) == f;
      }
    }
  }

  lemma {:induction false} SubsequenceSkips(a: seq<Block>, w: seq<Block>)
    requires w != [] && Subsequence(a, w[..|w| - 1])
    ensures Subsequence(a, w)
  {
    if a != [] && a[|a| - 1] == w[|w| - 1] {
      var v := w[..|w| - 1];
      if a[|a| - 1] == v[|v| - 1] {
        SubsequenceSkips(a[..|a| - 1], v);
      } else {
        SubsequenceTail(a, v);
      }
    }
  }

  lemma {:induction false} SubsequenceTail(a: seq<Block>, w: seq<Block>)
    requires a != [] && Subsequence(a, w)
    ensures Subsequence(a[..|a| - 1], w)
  {
    if a[|a| - 1] == w[|w| - 1] {
      SubsequenceSkips(a[..|a| - 1], w);
    } else {
      SubsequenceTail(a, w[..|w| - 1]);
      SubsequenceSkips(a[..|a| - 1], w);
    }
  }

  lemma {:induction false} SubsequenceTrans(a: seq<Block>, b: seq<Block>, c: seq<Block>)
    requires Subsequence(a, b) && Subsequence(b, c)
    ensures Subsequence(a, c)
    decreases |b| + |c|
  {
    if a != [] {
      if b[|b| - 1] == c[|c| - 1] {
        if a[|a| - 1] == b[|b| - 1] {
          SubsequenceTrans(a[..|a| - 1], b[..|b| - 1], c[..|c| - 1]);
        } else {
          SubsequenceTrans(a, b[..|b| - 1], c[..|c| - 1]);
        }
      } else {
        SubsequenceTrans(a, b, c[..|c| - 1]);
        SubsequenceSkips(a, c);
      }
    }
  }

  lemma KeptSubsequence(desired: seq<Block>, had: set<Block>, env: Surroundings)
    ensures Subsequence(Kept(desired, had, env), desired)
  {
    var free := Free(desired, env);
    FilterSubsequence(desired, b => !env.clash(b));
    FilterSubsequence(free, b => b in had || !env.refuses(b));
    SubsequenceTrans(Kept(desired, had, env), free, desired);
  }

  /** A request keeps memory and kernel in agreement. */
  lemma RequestKeepsCoherent(s: RouteState, network: Block, desired: seq<Block>, env: Surroundings)
    requires Coherent(s, network) && Canonical(desired)
    ensures Coherent(Requested(s, network, desired, env), network)
    ensures Diffed(s, network, desired, env) == Requested(s, network, desired, env)
  {
    DiffIsReplace(s, network, desired, env);
    KeptSubsequence(desired, Elems(s.applied), env);
  }

  /** The fast path is exact: comparing two lengths tells that the whole request was applied,
      and skipping the work is right exactly while none of its blocks conflicts. (A conflict that
      appears after a full success is not noticed by repeating the request.) */
  lemma FastPathIsExact(s: RouteState, network: Block, desired: seq<Block>, env: Surroundings)
    requires Coherent(s, network) && Unchanged(s, desired)
    ensures s.applied == desired
    ensures RouteState(desired, Kept(desired, Elems(s.applied), env), Elems(Kept(desired, Elems(s.applied), env)),
                       {network} + Elems(Kept(desired, Elems(s.applied), env))) == s
       <==> forall b :: b in desired ==> !env.clash(b)
  {
    SubsequenceLength(s.applied, s.wanted);
    var kept := Kept(desired, Elems(s.applied), env);
    if forall b :: b in desired ==> !env.clash(b) {
      FilterAll(desired, b => !env.clash(b));
      FilterAll(desired, b => b in Elems(s.applied) || !env.refuses(b));
    } else {
      var b :| b in desired && env.clash(b);
      assert b !in kept;
    }
  }

  lemma {:induction false} FilterAll(s: seq<Block>, keep: Block -> bool)
    requires forall b :: b in s ==> keep(b)
    ensures Filter(s, keep) == s
  {
    if s != [] {
      assert s == s[..|s| - 1] + [s[|s| - 1]];
      FilterAll(s[..|s| - 1], keep);
    }
  }

  lemma KeptAll(desired: seq<Block>, had: set<Block>, env: Surroundings)
    requires forall b :: b in desired ==> !env.clash(b) && !env.refuses(b)
    ensures Kept(desired, had, env) == desired
  {
    FilterAll(desired, b => !env.clash(b));
    FilterAll(desired, b => b in had || !env.refuses(b));
  }

  /** A request that was applied in full can be repeated in any surroundings without effect. */
  lemma RepeatIsNoOp(s: RouteState, network: Block, desired: seq<Block>, env: Surroundings, later: Surroundings)
    requires Coherent(s, network) && Canonical(desired)
    requires |Requested(s, network, desired, env).applied| == |desired|
    ensures var t := Requested(s, network, desired, env);
            t.applied == desired && t.routes == Elems(desired) && Requested(t, network, desired, later) == t
  {
    var t := Requested(s, network, desired, env);
    RequestKeepsCoherent(s, network, desired, env);
    SubsequenceLength(t.applied, t.wanted);
  }
}
