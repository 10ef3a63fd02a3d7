/** The Windows client's tunnel (internal/client/tunnel/tunnel.go): the fields its mutex guards,
    each lock-protected section as one step, and every interleaving of connecting, disconnecting
    and route-setting threads as a run of such steps. */
module Tunnel {
  import opened Cidr
  import opened Common
  import opened Routes

  datatype Status = Disconnected | Connecting | Connected

  /** The guarded fields. Engines are numbered in the order they are made; the interface name is
      represented by the engine whose adapter bears it. */
  datatype Shared = Shared(status: Status, eng: Option<int>, ifName: Option<int>,
                           wanted: seq<Block>, applied: seq<Block>)

  /** The kernel's side of one engine's adapter. */
  datatype Adapter = Adapter(routes: set<Block>, allowed: set<Block>)

  function Memory(s: Shared, a: Adapter): RouteState {
    RouteState(s.wanted, s.applied, a.routes, a.allowed)
  }

  // ---------------------------------------------------------------- the locked sections

  function Begun(s: Shared, a: int): Shared {
    if s.status.Disconnected? then s.(status := Connecting, eng := Some(a)) else s
  }

  function Named(s: Shared, a: int): Shared {
    s.(ifName := Some(a))
  }

  /** After the handshake: only the attempt whose engine is still installed may connect. */
  function Settled(s: Shared, a: int): Shared {
    if s.eng == Some(a) then s.(status := Connected) else s
  }

  function Cleared(s: Shared): Shared {
    s.(wanted := [], applied := [])
  }

  function Dropped(s: Shared): Shared {
    s.(eng := None, ifName := None, status := Disconnected)
  }

  predicate Linked(s: Shared) {
    s.status.Connected? && s.eng.Some?
  }

  lemma RoutableNothing(had: set<Block>, env: Surroundings)
    ensures Routable([], had, env) == []
  {}

  method DeleteRoutes(from: set<Block>, del: seq<Block>) returns (routes: set<Block>)
    ensures routes == from - Elems(del)
  {
    routes := from;
    assert Elems(del[..0]) == {};
    for i := 0 to |del|
      invariant routes == from - Elems(del[..i])
    {
      assert del[..i + 1] == del[..i] + [del[i]];
      ElemsMore(del[..i], del[i]);
      routes := routes - {del[i]};
    }
    assert del[..|del|] == del;
  }

  method AddRoutes(from: set<Block>, applied: seq<Block>, free: seq<Block>, add: seq<Block>, env: Surroundings)
    returns (routes: set<Block>, routed: seq<Block>)
    requires Elems(add) == Elems(free) - Elems(applied)
    ensures routed == Routable(free, Elems(applied), env)
    ensures routes == from + (Elems(routed) - Elems(applied))
  {
    hide Routable;
    var addSet := Elems(add);
    ghost var had := Elems(applied);
    routes, routed := from, [];
    RoutableNothing(had, env);
    assert free[..0] == [];
    for i := 0 to |free|
      invariant routed == Routable(free[..i], had, env)
      invariant routes == from + (Elems(routed) - had)
    {
      var p := free[i];
      assert p in free && free[..i + 1] == free[..i] + [p];
      RoutableMore(free[..i], p, had, env);
      ElemsMore(routed, p);
      if p in addSet {
        if env.refuses(p) {
          continue;
        }
        routes := routes + {p};
      }
      routed := routed + [p];
    }
    assert free[..|free|] == free;
  }

  /** profile.go `routeDiff`. */
  method RouteDiff(current: seq<Block>, desired: seq<Block>) returns (add: seq<Block>, del: seq<Block>)
    ensures Elems(add) == Elems(desired) - Elems(current)
    ensures Elems(del) == Elems(current) - Elems(desired)
    ensures Subsequence(add, desired) && Subsequence(del, current)
  {
    hide Subsequence;
    var cur := Elems(current);
    var want: set<Block> := {};
    add, del := [], [];
    assert desired[..0] == [] && current[..0] == [];
    for i := 0 to |desired|
      invariant want == Elems(desired[..i]) && add == Without(desired[..i], cur)
    {
      var p := desired[i];
      assert desired[..i + 1] == desired[..i] + [p];
      WithoutMore(desired[..i], p, cur);
      ElemsMore(desired[..i], p);
      want := want + {p};
      if p !in cur {
        add := add + [p];
      }
    }
    assert desired[..|desired|] == desired;
    for i := 0 to |current|
      invariant del == Without(current[..i], want)
    {
      var p := current[i];
      assert current[..i + 1] == current[..i] + [p];
      WithoutMore(current[..i], p, want);
      if p !in want {
        del := del + [p];
      }
    }
    assert current[..|current|] == current;
    WithoutExact(desired, cur);
    WithoutExact(current, want);
  }

  /** The work of SetExtraRoutes: delete what is gone, then add what is new, then replace the
      allowed addresses. The state it leaves is the router's applier's. */
  method Reapply(m: RouteState, network: Block, desired: seq<Block>, env: Surroundings) returns (r: RouteState)
    ensures r == Diffed(m, network, desired, env)
  {
    hide Free, Routable;
    if desired == m.wanted && |m.applied| == |m.wanted| {
      return m;
    }
    var free := Unclashed(desired, env);
    var add, del := RouteDiff(m.applied, free);
    var routes := DeleteRoutes(m.routes, del);
    var routed;
    routes, routed := AddRoutes(routes, m.applied, free, add, env);
    return RouteState(desired, routed, routes, {network} + Elems(routed));
  }

  // ---------------------------------------------------------------- interleavings

  /** Where an attempt is: bringing its engine up, about to record the name, waiting for the
      handshake, connected, or done without having connected. */
  datatype Phase = Raising | Raised | Waiting | Won | Over

  /** The guarded fields with everything the threads hold outside the lock: the next engine, each
      attempt's phase, how many teardowns are between their two sections, the engines taken but
      not yet closed, those closed, the devices that are up, and the adapters. */
  datatype World = World(
    shared: Shared,
    next: int,
    phase: map<int, Phase>,
    halfway: nat,
    closing: set<int>,
    closed: set<int>,
    up: set<int>,
    adapters: map<int, Adapter>)

  const START: World := World(Shared(Disconnected, None, None, [], []), 1, map[], 0, {}, {}, {}, map[])

  datatype Step =
    | Begin
    | Raise(a: int, ok: bool)
    | Name(a: int)
    | Handshake(a: int)
    | GiveUp(a: int)
    | Clear
    | Drop
    | Close(a: int)
    | SetRoutes(extra: seq<Prefix>, env: Surroundings)

  /** A disconnect, like a failed attempt's own teardown, is a Clear, a Drop and a Close; both can
      start at any time. */
  predicate Enabled(w: World, s: Step) {
    match s
    case Begin => true
    case Raise(a, _) => a in w.phase && w.phase[a].Raising?
    case Name(a) => a in w.phase && w.phase[a].Raised?
    case Handshake(a) => a in w.phase && w.phase[a].Waiting?
    case GiveUp(a) => a in w.phase && (w.phase[a].Raising? || w.phase[a].Waiting?)
    case Clear => true
    case Drop => w.halfway > 0
    case Close(a) => a in w.closing
    case SetRoutes(_, _) => true
  }

  function Next(network: Block, w: World, s: Step): World
    requires Enabled(w, s)
  {
    match s
    case Begin =>
      if w.shared.status.Disconnected? then
        w.(shared := Begun(w.shared, w.next), phase := w.phase[w.next := Raising], next := w.next + 1)
      else w
    case Raise(a, ok) =>
      if ok then
        w.(phase := w.phase[a := Raised], up := w.up + {a}, adapters := w.adapters[a := Adapter({}, {network})])
      else w.(phase := w.phase[a := Over])
    case Name(a) =>
      w.(shared := Named(w.shared, a), phase := w.phase[a := Waiting])
    case Handshake(a) =>
      w.(shared := Settled(w.shared, a), phase := w.phase[a := if w.shared.eng == Some(a) then Won else Over])
    case GiveUp(a) =>
      w.(phase := w.phase[a := Over])
    case Clear =>
      w.(shared := Cleared(w.shared), halfway := w.halfway + 1)
    case Drop =>
      w.(shared := Dropped(w.shared), halfway := w.halfway - 1,
         closing := w.closing + if w.shared.eng.Some? then {w.shared.eng.value} else {})
    case Close(a) =>
      w.(closing := w.closing - {a}, closed := w.closed + {a}, up := w.up - {a})
    case SetRoutes(extra, env) =>
      if !Effective(w) then w
      else
        var a := w.shared.eng.value;
        var m := Diffed(Memory(w.shared, w.adapters[a]), network, CanonicalOf(extra), env);
        w.(shared := w.shared.(wanted := m.wanted, applied := m.applied),
           adapters := w.adapters[a := Adapter(m.routes, m.allowed)])
  }

  predicate Effective(w: World) {
    Linked(w.shared) && w.shared.eng.value in w.adapters
  }

  ghost predicate Possible(network: Block, w: World, steps: seq<Step>)
    decreases |steps|
  {
    steps == [] || (Enabled(w, steps[0]) && Possible(network, Next(network, w, steps[0]), steps[1..]))
  }

  ghost function After(network: Block, w: World, steps: seq<Step>): World
    requires Possible(network, w, steps)
    decreases |steps|
  {
    if steps == [] then w else After(network, Next(network, w, steps[0]), steps[1..])
  }

  /** w becomes v by these steps. */
  ghost predicate Ran(network: Block, w: World, steps: seq<Step>, v: World) {
    Possible(network, w, steps) && After(network, w, steps) == v
  }

  lemma RanNothing(network: Block, w: World)
    ensures Ran(network, w, [], w)
  {}

  lemma {:induction false} RanMore(network: Block, w: World, steps: seq<Step>, v: World, s: Step)
    requires Ran(network, w, steps, v) && Enabled(v, s)
    ensures Ran(network, w, steps + [s], Next(network, v, s))
    decreases |steps|
  {
    if steps == [] {
      assert After(network, Next(network, v, s), []) == Next(network, v, s);
      assert ([] + [s])[1..] == [];
    } else {
      RanMore(network, Next(network, w, steps[0]), steps[1..], v, s);
      assert (steps + [s])[1..] == steps[1..] + [s];
    }
  }

  lemma {:induction false} RanOn(network: Block, w: World, steps: seq<Step>, v: World, more: seq<Step>, u: World)
    requires Ran(network, w, steps, v) && Ran(network, v, more, u)
    ensures Ran(network, w, steps + more, u)
    decreases |steps|
  {
    if steps == [] {
      assert [] + more == more;
    } else {
      RanOn(network, Next(network, w, steps[0]), steps[1..], v, more, u);
      assert (steps + more)[1..] == steps[1..] + more;
    }
  }

  // ---------------------------------------------------------------- what every run keeps

  function Installed(w: World): set<int> {
    if w.shared.eng.Some? then {w.shared.eng.value} else {}
  }

  /** Disconnected means no engine; Connected means the installed engine's own attempt connected;
      and every engine ever made is installed, being closed or closed, and only one of these. */
  ghost predicate Safe(w: World) {
    && (w.shared.status.Disconnected? <==> w.shared.eng.None?)
    && (w.shared.status.Connected? ==> w.shared.eng.value in w.phase && w.phase[w.shared.eng.value].Won?)
    && w.phase.Keys == Installed(w) + w.closing + w.closed
    && Installed(w) !! w.closing && Installed(w) !! w.closed && w.closing !! w.closed
    && (forall a :: a in w.phase ==> a < w.next)
    && (forall a :: a in w.phase && !w.phase[a].Raising? && !w.phase[a].Over? ==> a in w.adapters)
  }

  lemma StepKeepsSafe(network: Block, w: World, s: Step)
    requires Safe(w) && Enabled(w, s)
    ensures Safe(Next(network, w, s))
  {}

  /** A connected tunnel's adapter is always there to route over. */
  lemma LinkedIsEffective(w: World)
    requires Safe(w) && Linked(w.shared)
    ensures Effective(w)
  {
    var a := w.shared.eng.value;
    assert a in w.phase && w.phase[a].Won?;
    assert a in w.adapters;
  }

  /** Every interleaving, from the start. */
  lemma {:induction false} RunsAreSafe(network: Block, w: World, steps: seq<Step>)
    requires Safe(w) && Possible(network, w, steps)
    ensures Safe(After(network, w, steps))
    decreases |steps|
  {
    if steps != [] {
      StepKeepsSafe(network, w, steps[0]);
      RunsAreSafe(network, Next(network, w, steps[0]), steps[1..]);
    }
  }

  lemma StartIsSafe(network: Block)
    ensures Safe(START) && AdaptersKnown(START) && MemoryIsRight(network, START)
    ensures NameHasEngine(START) && NameIsCurrent(START) && NoDeviceLeaks(START)
  {}

  /** The status turns Connected only by the handshake of the attempt whose engine is installed. */
  lemma ConnectedOnlyByItsOwn(network: Block, w: World, s: Step)
    requires Safe(w) && Enabled(w, s)
    requires !w.shared.status.Connected? && Next(network, w, s).shared.status.Connected?
    ensures s.Handshake? && w.shared.eng == Some(s.a)
  {}

  /** An attempt whose engine was taken from it never gets it back, however long the run, and its
      handshake then changes nothing: a tunnel torn down meanwhile is not revived. */
  lemma {:induction false} OvertakenStaysOvertaken(network: Block, w: World, steps: seq<Step>, a: int)
    requires Safe(w) && Possible(network, w, steps) && a in w.phase && w.shared.eng != Some(a)
    ensures var v := After(network, w, steps);
            && a in v.phase && v.shared.eng != Some(a)
            && (Enabled(v, Handshake(a)) ==> Next(network, v, Handshake(a)).shared == v.shared)
    decreases |steps|
  {
    if steps != [] {
      StepKeepsSafe(network, w, steps[0]);
      OvertakenStaysOvertaken(network, Next(network, w, steps[0]), steps[1..], a);
    }
  }

  // ---------------------------------------------------------------- the tunnel

  /** What a running thread holds outside the lock: its attempt, whether it is between the two
      sections of a teardown, and the engine it has taken to close. */
  datatype Own = Own(attempt: Option<int>, halfway: nat, taken: Option<int>)

  /** A step some other thread can take. */
  predicate Foreign(w: World, s: Step, own: Own) {
    && Enabled(w, s)
    && (s.Raise? || s.Name? || s.Handshake? || s.GiveUp? ==> own.attempt != Some(s.a))
    && (s.Drop? ==> w.halfway > own.halfway)
    && (s.Close? ==> own.taken != Some(s.a))
  }

  /** What the thread holds is still there. */
  ghost predicate Holds(w: World, own: Own) {
    && w.halfway >= own.halfway
    && (own.taken.Some? ==> own.taken.value in w.closing)
    && (own.attempt.Some? ==> own.attempt.value in w.phase && own.attempt.value < w.next)
  }

  ghost predicate SamePhase(w: World, v: World, own: Own) {
    own.attempt.Some? && own.attempt.value in w.phase ==>
      own.attempt.value in v.phase && v.phase[own.attempt.value] == w.phase[own.attempt.value]
  }

  lemma ForeignStep(network: Block, w: World, v: World, s: Step, own: Own)
    requires Foreign(v, s, own) && Holds(v, own) && SamePhase(w, v, own)
    ensures Holds(Next(network, v, s), own) && SamePhase(w, Next(network, v, s), own)
  {}

  datatype ConnectResult = AlreadyActive | Up | Abandoned | NoSetup | AdapterFailed | Unreachable

  /** No other thread does anything. */
  ghost predicate Quiet(meanwhile: nat -> seq<Step>) {
    forall k :: meanwhile(k) == []
  }

  /** An undisturbed teardown. */
  function TornDown(network: Block, w: World): World {
    var v := Next(network, Next(network, w, Clear), Drop);
    if w.shared.eng.Some? then Next(network, v, Close(w.shared.eng.value)) else v
  }

  /** An undisturbed wait for the handshake. */
  function Awaited(network: Block, w: World, a: int, answered: bool): World
    requires a in w.phase && w.phase[a].Waiting?
  {
    if answered then Next(network, w, Handshake(a)) else TornDown(network, Next(network, w, GiveUp(a)))
  }

  /** The rest of an undisturbed attempt, once it has begun. */
  function Attempted(network: Block, w: World, a: int, parses: bool, raises: bool, answered: bool): World
    requires a in w.phase && w.phase[a].Raising?
  {
    if !parses then TornDown(network, Next(network, w, GiveUp(a)))
    else
      var v := Next(network, w, Raise(a, raises));
      if raises then Awaited(network, Next(network, v, Name(a)), a, answered) else TornDown(network, v)
  }

  /** An undisturbed connect, on a tunnel that is down. */
  function Undisturbed(network: Block, w: World, parses: bool, raises: bool, answered: bool): World
    requires w.shared.status.Disconnected?
  {
    Attempted(network, Next(network, w, Begin), w.next, parses, raises, answered)
  }

  /** It connects, or leaves the tunnel disconnected, with its engine closed and down, and no
      engine but its own is touched. */
  lemma UndisturbedEnds(network: Block, w: World, parses: bool, raises: bool, answered: bool)
    requires Safe(w) && w.shared.status.Disconnected?
    ensures var v, a := Undisturbed(network, w, parses, raises, answered), w.next;
            && (parses && raises && answered ==>
                  && v.shared == Shared(Connected, Some(a), Some(a), w.shared.wanted, w.shared.applied)
                  && v.closed == w.closed && v.up == w.up + {a})
            && (!(parses && raises && answered) ==>
                  && v.shared == Shared(Disconnected, None, None, [], [])
                  && v.closed == w.closed + {a} && v.up == w.up - {a})
            && v.closing == w.closing && v.halfway == w.halfway
  {
    hide TornDown;
    var b := Next(network, w, Begin);
    var u := Next(network, b, Raise(w.next, raises));
    TornDownEnds(network, Next(network, b, GiveUp(w.next)));
    if raises {
      TornDownEnds(network, Next(network, Next(network, u, Name(w.next)), GiveUp(w.next)));
    } else {
      TornDownEnds(network, u);
    }
  }

  lemma TornDownEnds(network: Block, w: World)
    requires w.shared.eng.Some? && w.shared.eng.value !in w.closing
    ensures var v := TornDown(network, w);
            && v.shared == Shared(Disconnected, None, None, [], [])
            && v.closing == w.closing && v.closed == w.closed + {w.shared.eng.value}
            && v.up == w.up - {w.shared.eng.value} && v.halfway == w.halfway
  {}

  predicate Failed(r: ConnectResult) {
    r.NoSetup? || r.AdapterFailed? || r.Unreachable?
  }

  class Tunnel {
    const network: Block

    // Guarded by the mutex.
    var status: Status
    var eng: Option<int>
    var ifName: Option<int>
    var extraWanted: seq<Block>
    var extraApplied: seq<Block>

    // Outside it: the number of the next engine, the devices that are up, their adapters.
    var next: int
    var up: set<int>
    var adapters: map<int, Adapter>

    // Where the threads are.
    var phase: map<int, Phase>
    var halfway: nat
    var closing: set<int>
    var closed: set<int>

    function Now(): World
      reads this
    {
      World(Shared(status, eng, ifName, extraWanted, extraApplied), next, phase, halfway, closing, closed, up, adapters)
    }

    constructor (network: Block)
      ensures Now() == START && this.network == network
    {
      this.network := network;
      status, eng, ifName, extraWanted, extraApplied := Disconnected, None, None, [], [];
      next, up, adapters := 1, {}, map[];
      phase, halfway, closing, closed := map[], 0, {}, {};
    }

    // -------------------------------------------------------------- sections, and what lies between

    /** Connect, first section: one tunnel only. */
    method TryBegin() returns (a: Option<int>)
      modifies this
      ensures Now() == Next(network, old(Now()), Begin)
      ensures a == if old(status).Disconnected? then Some(old(next)) else None
    {
      if status != Disconnected {
        return None;
      }
      status := Connecting;
      a := Some(next);
      eng := a;
      phase := phase[next := Raising];
      next := next + 1;
    }

    method BringUp(a: int, ok: bool)
      requires Enabled(Now(), Raise(a, ok))
      modifies this
      ensures Now() == Next(network, old(Now()), Raise(a, ok))
    {
      if ok {
        up := up + {a};
        adapters := adapters[a := Adapter({}, {network})];
      }
      phase := phase[a := if ok then Raised else Over];
    }

    method RecordName(a: int)
      requires Enabled(Now(), Name(a))
      modifies this
      ensures Now() == Next(network, old(Now()), Name(a))
    {
      ifName := Some(a);
      phase := phase[a := Waiting];
    }

    /** Connect, once the handshake is seen: only if the engine is still this attempt's. */
    method Settle(a: int) returns (mine: bool)
      requires Enabled(Now(), Handshake(a))
      modifies this
      ensures Now() == Next(network, old(Now()), Handshake(a)) && mine == (old(eng) == Some(a))
    {
      if eng != Some(a) {
        phase := phase[a := Over];
        return false;
      }
      status := Connected;
      phase := phase[a := Won];
      return true;
    }

    method Abandon(a: int)
      requires Enabled(Now(), GiveUp(a))
      modifies this`phase
      ensures Now() == Next(network, old(Now()), GiveUp(a))
    {
      phase := phase[a := Over];
    }

    /** teardown, first section. */
    method ClearRoutes()
      modifies this
      ensures Now() == Next(network, old(Now()), Clear)
    {
      extraWanted, extraApplied := [], [];
      halfway := halfway + 1;
    }

    /** teardown, second section; the engine it takes is closed outside the lock. */
    method DropEngine() returns (taken: Option<int>)
      requires Enabled(Now(), Drop)
      modifies this
      ensures Now() == Next(network, old(Now()), Drop) && taken == old(eng)
    {
      taken := eng;
      eng := None;
      ifName := None;
      status := Disconnected;
      halfway := halfway - 1;
      closing := closing + if taken.Some? then {taken.value} else {};
    }

    method CloseEngine(a: int)
      requires Enabled(Now(), Close(a))
      modifies this
      ensures Now() == Next(network, old(Now()), Close(a))
    {
      up := up - {a};
      closing, closed := closing - {a}, closed + {a};
    }

    /** SetExtraRoutes, one section. */
    method SetExtraRoutes(extra: seq<Prefix>, env: Surroundings) returns (r: seq<Block>)
      modifies this
      ensures Now() == Next(network, old(Now()), SetRoutes(extra, env))
      ensures r == if Effective(old(Now())) then extraApplied else []
    {
      hide Canonical, CanonicalOf, Diffed;
      if status != Connected || eng.None? || eng.value !in adapters {
        return [];
      }
      var a := eng.value;
      var desired := CanonicalPrefixes(extra);
      var m := Reapply(Memory(Now().shared, adapters[a]), network, desired, env);
      extraWanted, extraApplied := m.wanted, m.applied;
      adapters := adapters[a := Adapter(m.routes, m.allowed)];
      return extraApplied;
    }

    // -------------------------------------------------------------- threads

    method Do(s: Step)
      requires Enabled(Now(), s)
      modifies this
      ensures Now() == Next(network, old(Now()), s)
    {
      match s {
        case Begin => var a := TryBegin();
        case Raise(a, ok) => BringUp(a, ok);
        case Name(a) => RecordName(a);
        case Handshake(a) => var mine := Settle(a);
        case GiveUp(a) => Abandon(a);
        case Clear => ClearRoutes();
        case Drop => var taken := DropEngine();
        case Close(a) => CloseEngine(a);
        case SetRoutes(extra, env) => var r := SetExtraRoutes(extra, env);
      }
    }

    /** Other threads run: whichever of these steps they can take. */
    method Others(steps: seq<Step>, own: Own) returns (ghost trace: seq<Step>)
      requires Holds(Now(), own)
      modifies this
      ensures Ran(network, old(Now()), trace, Now())
      ensures Holds(Now(), own) && SamePhase(old(Now()), Now(), own)
      ensures steps == [] ==> Now() == old(Now())
    {
      hide Next, Enabled, Holds;
      trace := [];
      for i := 0 to |steps|
        invariant Ran(network, old(Now()), trace, Now())
        invariant Holds(Now(), own) && SamePhase(old(Now()), Now(), own)
        invariant i == 0 ==> Now() == old(Now())
      {
        if Foreign(Now(), steps[i], own) {
          ForeignStep(network, old(Now()), Now(), steps[i], own);
          RanMore(network, old(Now()), trace, Now(), steps[i]);
          Do(steps[i]);
          trace := trace + [steps[i]];
        }
      }
    }

    /** teardown, with what other threads do between its sections and before the close. When it
        lets go of the lock the tunnel is disconnected; undisturbed, its engine is closed too. */
    method Teardown(gap: seq<Step>, late: seq<Step>)
      returns (ghost before: seq<Step>, ghost mid: World, ghost after: seq<Step>)
      modifies this
      ensures Ran(network, old(Now()), before, mid) && Ran(network, mid, after, Now())
      ensures mid.shared.status.Disconnected? && mid.shared.eng.None?
      ensures gap == [] == late ==> Now() == TornDown(network, old(Now()))
    {
      hide Ran;
      ghost var w := Now();
      RanNothing(network, w);
      RanMore(network, w, [], w, Clear);
      ClearRoutes();
      ghost var more := Others(gap, Own(None, 1, None));
      RanOn(network, w, [] + [Clear], Next(network, w, Clear), more, Now());
      RanMore(network, w, [] + [Clear] + more, Now(), Drop);
      before := [] + [Clear] + more + [Drop];
      var taken := DropEngine();
      mid := Now();
      after := Others(late, Own(None, 0, taken));
      if taken.Some? {
        RanMore(network, mid, after, Now(), Close(taken.value));
        CloseEngine(taken.value);
        after := after + [Close(taken.value)];
      }
    }

    /** The attempt is where it says, after these steps. */
    ghost predicate Underway(w: World, trace: seq<Step>, a: int, at: Phase)
      reads this
    {
      && Safe(w) && a == w.next && Ran(network, w, trace, Now())
      && a in phase && phase[a] == at && a < next
    }

    /** Time outside the lock. */
    method Wait(steps: seq<Step>, ghost w: World, ghost trace: seq<Step>, a: int, ghost at: Phase)
      returns (ghost longer: seq<Step>)
      requires Underway(w, trace, a, at)
      modifies this
      ensures Underway(w, longer, a, at)
      ensures steps == [] ==> Now() == old(Now())
    {
      hide Ran, Safe;
      ghost var v := Now();
      ghost var more := Others(steps, Own(Some(a), 0, None));
      RanOn(network, w, trace, v, more, Now());
      longer := trace + more;
    }

    /** A failed attempt's own teardown. */
    method Fail(gap: seq<Step>, late: seq<Step>, ghost w: World, ghost trace: seq<Step>, a: int)
      returns (ghost before: seq<Step>, ghost mid: World, ghost after: seq<Step>)
      requires Underway(w, trace, a, Over)
      modifies this
      ensures Ran(network, w, before, mid) && Ran(network, mid, after, Now())
      ensures Safe(mid) && Safe(Now()) && mid.shared.status.Disconnected? && eng != Some(a)
      ensures gap == [] == late ==> Now() == TornDown(network, old(Now()))
    {
      hide Ran, Safe;
      ghost var v := Now();
      before, mid, after := Teardown(gap, late);
      AttemptLost(network, w, trace, v, before, mid, after, Now(), a);
      RanOn(network, w, trace, v, before, mid);
      before := trace + before;
    }

    /** The rest of Connect, once the engine is up. */
    method AwaitHandshake(polls: seq<bool>, meanwhile: nat -> seq<Step>, ghost w: World, ghost trace: seq<Step>, a: int)
      returns (r: ConnectResult, ghost before: seq<Step>, ghost mid: World, ghost after: seq<Step>)
      requires Underway(w, trace, a, Raised)
      modifies this
      ensures Ran(network, w, before, mid) && Ran(network, mid, after, Now()) && Safe(mid) && Safe(Now())
      ensures r.Up? || r.Abandoned? || r.Unreachable?
      ensures r.Unreachable? <==> true !in polls
      ensures Quiet(meanwhile) && old(eng) == Some(a) ==>
                !r.Abandoned? && Now() == Awaited(network, Next(network, old(Now()), Name(a)), a, true in polls)
      ensures r.Up? ==> mid == Now() && Linked(mid.shared) && eng == Some(a)
      ensures Failed(r) ==> mid.shared.status.Disconnected?
      ensures r.Abandoned? || Failed(r) ==> eng != Some(a)
    {
      hide Ran, Safe;
      before := Wait(meanwhile(3), w, trace, a, Raised);
      RanMore(network, w, before, Now(), Name(a));
      RecordName(a);
      before := before + [Name(a)];
      for i := 0 to |polls|
        invariant Underway(w, before, a, Waiting) && true !in polls[..i]
        invariant Quiet(meanwhile) ==> Now() == Next(network, old(Now()), Name(a))
      {
        before := Wait(meanwhile(4 + i), w, before, a, Waiting);
        if polls[i] {
          RanMore(network, w, before, Now(), Handshake(a));
          var mine := Settle(a);
          before := before + [Handshake(a)];
          mid, after := Now(), [];
          RanNothing(network, mid);
          RanSafe(network, w, before, mid);
          return if mine then Up else Abandoned, before, mid, after;
        }
      }
      RanMore(network, w, before, Now(), GiveUp(a));
      Abandon(a);
      before, mid, after := Fail(meanwhile(1), meanwhile(2), w, before + [GiveUp(a)], a);
      return Unreachable, before, mid, after;
    }

    /** The rest of Connect, once it has made its engine. */
    method Attempt(parses: bool, raises: bool, polls: seq<bool>, meanwhile: nat -> seq<Step>,
                   ghost w: World, ghost trace: seq<Step>, a: int)
      returns (r: ConnectResult, ghost before: seq<Step>, ghost mid: World, ghost after: seq<Step>)
      requires Underway(w, trace, a, Raising)
      modifies this
      ensures Ran(network, w, before, mid) && Ran(network, mid, after, Now()) && Safe(mid) && Safe(Now())
      ensures !r.AlreadyActive? && (r.NoSetup? <==> !parses) && (r.AdapterFailed? <==> parses && !raises)
      ensures r.Unreachable? <==> parses && raises && true !in polls
      ensures r.Up? ==> mid == Now() && Linked(mid.shared) && eng == Some(a)
      ensures Failed(r) ==> mid.shared.status.Disconnected?
      ensures r.Abandoned? || Failed(r) ==> eng != Some(a)
      ensures Quiet(meanwhile) && old(eng) == Some(a) ==>
                !r.Abandoned? && Now() == Attempted(network, old(Now()), a, parses, raises, true in polls)
    {
      hide Ran, Safe, TornDown, Awaited;
      before := Wait(meanwhile(0), w, trace, a, Raising);
      if !parses {
        RanMore(network, w, before, Now(), GiveUp(a));
        Abandon(a);
        before, mid, after := Fail(meanwhile(1), meanwhile(2), w, before + [GiveUp(a)], a);
        return NoSetup, before, mid, after;
      }
      RanMore(network, w, before, Now(), Raise(a, raises));
      BringUp(a, raises);
      before := before + [Raise(a, raises)];
      if !raises {
        before, mid, after := Fail(meanwhile(1), meanwhile(2), w, before, a);
        return AdapterFailed, before, mid, after;
      }
      r, before, mid, after := AwaitHandshake(polls, meanwhile, w, before, a);
    }

    /** Connect, with what other threads do whenever it is outside the lock: a run of the steps
        above, whatever they do. It reports success only with its own engine installed and
        connected; having lost its engine it gives up without a word; after a failure the tunnel
        was left disconnected and its engine is not the installed one. What it reports depends on
        the others only in whether it kept its engine; undisturbed, what it does is told in full. */
    method Connect(hasKey: bool, parses: bool, raises: bool, polls: seq<bool>, meanwhile: nat -> seq<Step>)
      returns (r: ConnectResult, ghost before: seq<Step>, ghost mid: World, ghost after: seq<Step>)
      requires Safe(Now())
      modifies this
      ensures Ran(network, old(Now()), before, mid) && Ran(network, mid, after, Now())
      ensures Safe(mid) && Safe(Now())
      ensures r.AlreadyActive? <==> !old(status).Disconnected?
      ensures r.NoSetup? <==> old(status).Disconnected? && (!hasKey || !parses)
      ensures r.AdapterFailed? <==> old(status).Disconnected? && hasKey && parses && !raises
      ensures r.Unreachable? <==> old(status).Disconnected? && hasKey && parses && raises && true !in polls
      ensures r.AlreadyActive? || !hasKey ==> Now() == old(Now())
      ensures r.Up? ==> mid == Now() && Linked(mid.shared) && eng == Some(old(next))
      ensures Failed(r) ==> mid.shared.status.Disconnected?
      ensures r.Abandoned? || Failed(r) ==> eng != Some(old(next))
      ensures Quiet(meanwhile) && old(status).Disconnected? && hasKey ==>
                && !r.Abandoned?
                && Now() == Undisturbed(network, old(Now()), parses, raises, true in polls)
    {
      hide Ran, Safe, Attempted;
      ghost var w := Now();
      RanNothing(network, w);
      if status != Disconnected {
        return AlreadyActive, [], w, [];
      }
      if !hasKey {
        NotYetInstalled(w);
        return NoSetup, [], w, [];
      }
      RanMore(network, w, [], w, Begin);
      var begun := TryBegin();
      r, before, mid, after := Attempt(parses, raises, polls, meanwhile, w, [] + [Begin], begun.value);
    }
  }

  lemma NotYetInstalled(w: World)
    requires Safe(w)
    ensures w.shared.eng != Some(w.next)
  {}

  lemma RanSafe(network: Block, w: World, steps: seq<Step>, v: World)
    requires Safe(w) && Ran(network, w, steps, v)
    ensures Safe(v)
  {
    RunsAreSafe(network, w, steps);
  }

  lemma {:induction false} PhasesGrow(network: Block, w: World, steps: seq<Step>)
    requires Possible(network, w, steps)
    ensures w.phase.Keys <= After(network, w, steps).phase.Keys
    decreases |steps|
  {
    if steps != [] {
      PhasesGrow(network, Next(network, w, steps[0]), steps[1..]);
    }
  }

  lemma AttemptLost(network: Block, w: World, trace: seq<Step>, v: World, before: seq<Step>, mid: World,
                    after: seq<Step>, u: World, a: int)
    requires Safe(w) && Ran(network, w, trace, v) && Ran(network, v, before, mid) && Ran(network, mid, after, u)
    requires a in v.phase && mid.shared.eng.None?
    ensures Safe(mid) && Safe(u) && u.shared.eng != Some(a)
  {
    RanSafe(network, w, trace, v);
    RanSafe(network, v, before, mid);
    RanSafe(network, mid, after, u);
    PhasesGrow(network, v, before);
    OvertakenStaysOvertaken(network, mid, after, a);
  }

  // ---------------------------------------------------------------- where the guard is missing

  /** The interface name is the installed engine's. */
  ghost predicate NameIsCurrent(w: World) {
    w.shared.ifName.Some? ==> w.shared.ifName == w.shared.eng
  }

  /** A name is shown only while some engine is installed. (The code asks for the same interface
      name every time, so this is what a caller of InterfaceName can tell.) */
  ghost predicate NameHasEngine(w: World) {
    w.shared.ifName.Some? ==> w.shared.eng.Some?
  }

  /** Connect records the name without the identity check it makes before connecting, so the name
      outlives its engine exactly when an overtaken attempt's engine comes up late. */
  lemma NameKeptIff(network: Block, w: World, s: Step)
    requires Safe(w) && Enabled(w, s)
    ensures NameHasEngine(w) ==> (NameHasEngine(Next(network, w, s)) <==> !(s.Name? && w.shared.eng.None?))
    ensures NameIsCurrent(w) ==> (NameIsCurrent(Next(network, w, s)) <==> !(s.Name? && w.shared.eng != Some(s.a)))
  {}

  /** Every attempt records its name, and brings its engine up, while it still has the engine. */
  ghost predicate OnTime(network: Block, w: World, steps: seq<Step>)
    requires Possible(network, w, steps)
    decreases |steps|
  {
    steps == [] ||
    (&& (steps[0].Name? ==> w.shared.eng == Some(steps[0].a))
     && (steps[0].Raise? && steps[0].ok ==> steps[0].a !in w.closed)
     && OnTime(network, Next(network, w, steps[0]), steps[1..]))
  }

  /** Over every run in which they do, the name is the installed engine's and no device leaks. */
  lemma {:induction false} RunsOnTime(network: Block, w: World, steps: seq<Step>)
    requires Safe(w) && NameIsCurrent(w) && NoDeviceLeaks(w)
    requires Possible(network, w, steps) && OnTime(network, w, steps)
    ensures NameIsCurrent(After(network, w, steps)) && NoDeviceLeaks(After(network, w, steps))
    decreases |steps|
  {
    if steps != [] {
      StepKeepsSafe(network, w, steps[0]);
      NameKeptIff(network, w, steps[0]);
      DevicesKeptIff(network, w, steps[0]);
      RunsOnTime(network, Next(network, w, steps[0]), steps[1..]);
    }
  }

  lemma StartedOnTime(network: Block, steps: seq<Step>)
    requires Possible(network, START, steps) && OnTime(network, START, steps)
    ensures var w := After(network, START, steps);
            Safe(w) && NameIsCurrent(w) && NoDeviceLeaks(w) && (w.shared.status.Disconnected? ==> w.shared.ifName.None?)
  {
    StartIsSafe(network);
    RunsAreSafe(network, START, steps);
    RunsOnTime(network, START, steps);
  }

  /** Every device that is up belongs to the installed engine or is about to be closed. */
  ghost predicate NoDeviceLeaks(w: World) {
    forall a :: a in w.up ==> a in Installed(w) || a in w.closing
  }

  /** A device leaks exactly when its engine comes up after it was closed. */
  lemma DevicesKeptIff(network: Block, w: World, s: Step)
    requires Safe(w) && Enabled(w, s) && NoDeviceLeaks(w)
    ensures NoDeviceLeaks(Next(network, w, s)) <==> !(s.Raise? && s.ok && s.a in w.closed)
  {}

  /** Both happen: a disconnect while the engine comes up leaves a named, running device behind a
      tunnel that says it is disconnected. */
  lemma LateEngineRun(network: Block)
    ensures var steps := [Begin, Clear, Drop, Close(1), Raise(1, true), Name(1)];
            && Possible(network, START, steps)
            && var w := After(network, START, steps);
               w.shared.status.Disconnected? && w.shared.ifName == Some(1) && w.up == {1} && w.closing == {}
  {}

  // ---------------------------------------------------------------- the route memory

  /** The memory is empty unless a tunnel is connected and no teardown is under way, and then it
      agrees with the kernel. */
  ghost predicate MemoryIsRight(network: Block, w: World) {
    && (w.halfway > 0 || !w.shared.status.Connected? ==> w.shared.wanted == [] && w.shared.applied == [])
    && (w.halfway == 0 && w.shared.eng.Some? && w.shared.eng.value in w.adapters ==>
          Coherent(Memory(w.shared, w.adapters[w.shared.eng.value]), network))
  }

  /** A request for some routes that gets in between the two sections of a teardown. */
  predicate SlipsIn(w: World, s: Step) {
    s.SetRoutes? && Linked(w.shared) && w.halfway > 0 && CanonicalOf(s.extra) != []
  }

  /** Adapters exist only for engines that have come up, so a new engine has none. */
  ghost predicate AdaptersKnown(w: World) {
    forall a :: a in w.adapters ==> a in w.phase && !w.phase[a].Raising?
  }

  lemma AdaptersStayKnown(network: Block, w: World, s: Step)
    requires Safe(w) && AdaptersKnown(w) && Enabled(w, s)
    ensures AdaptersKnown(Next(network, w, s))
  {}

  /** teardown clears the memory before it takes the engine, under two separate locks; the memory
      stays right exactly as long as no request slips in between. */
  lemma MemoryKeptIff(network: Block, w: World, s: Step)
    requires Safe(w) && AdaptersKnown(w) && Enabled(w, s) && MemoryIsRight(network, w)
    ensures MemoryIsRight(network, Next(network, w, s)) <==> !SlipsIn(w, s)
  {
    if s.SetRoutes? && Linked(w.shared) {
      var a := w.shared.eng.value;
      CanonicalExact(s.extra);
      if w.halfway == 0 {
        RequestKeepsCoherent(Memory(w.shared, w.adapters[a]), network, CanonicalOf(s.extra), s.env);
      }
    }
  }

  ghost predicate NeverSlips(network: Block, w: World, steps: seq<Step>)
    requires Possible(network, w, steps)
    decreases |steps|
  {
    steps == [] || (!SlipsIn(w, steps[0]) && NeverSlips(network, Next(network, w, steps[0]), steps[1..]))
  }

  lemma {:induction false} RunsKeepMemory(network: Block, w: World, steps: seq<Step>)
    requires Safe(w) && AdaptersKnown(w) && MemoryIsRight(network, w)
    requires Possible(network, w, steps) && NeverSlips(network, w, steps)
    ensures MemoryIsRight(network, After(network, w, steps))
    decreases |steps|
  {
    if steps != [] {
      StepKeepsSafe(network, w, steps[0]);
      AdaptersStayKnown(network, w, steps[0]);
      MemoryKeptIff(network, w, steps[0]);
      RunsKeepMemory(network, Next(network, w, steps[0]), steps[1..]);
    }
  }

  lemma StartedMemory(network: Block, steps: seq<Step>)
    requires Possible(network, START, steps) && NeverSlips(network, START, steps)
    ensures MemoryIsRight(network, After(network, START, steps))
  {
    StartIsSafe(network);
    RunsKeepMemory(network, START, steps);
  }

  lemma ReconnectedShape(network: Block, w: World)
    requires w.shared.status.Disconnected?
    ensures var v, a := Undisturbed(network, w, true, true, true), w.next;
            && v.shared == Shared(Connected, Some(a), Some(a), w.shared.wanted, w.shared.applied)
            && v.halfway == w.halfway && v.adapters == w.adapters[a := Adapter({}, {network})]
  {}

  lemma SlippedMemory(network: Block, w: World, extra: seq<Prefix>, env: Surroundings)
    requires Effective(w) && w.shared.wanted == [] == w.shared.applied && CanonicalOf(extra) != []
    requires forall b :: b in CanonicalOf(extra) ==> !env.clash(b) && !env.refuses(b)
    ensures var v := Next(network, w, SetRoutes(extra, env));
            v.halfway == w.halfway && v.shared == w.shared.(wanted := CanonicalOf(extra), applied := CanonicalOf(extra))
  {
    hide Kept, CanonicalOf, DiffRoutes;
    KeptAll(CanonicalOf(extra), Elems(w.shared.applied), env);
  }

  /** What a request that slipped in costs: its memory survives the teardown, and over the next
      connection the same request is taken to be applied already, with no route in the kernel. */
  lemma SlippedRequestMisleads(network: Block, w: World, extra: seq<Prefix>, env: Surroundings, later: Surroundings)
    requires Safe(w) && MemoryIsRight(network, w) && SlipsIn(w, SetRoutes(extra, env)) && w.halfway == 1
    requires forall b :: b in CanonicalOf(extra) ==> !env.clash(b) && !env.refuses(b)
    ensures var torn := Next(network, Next(network, w, SetRoutes(extra, env)), Drop);
            && torn.shared.status.Disconnected?
            && var again := Undisturbed(network, torn, true, true, true);
               && Linked(again.shared) && again.halfway == 0 && again.adapters[torn.next].routes == {}
               && Next(network, again, SetRoutes(extra, later)) == again
               && again.shared.applied == CanonicalOf(extra) != []
  {
    hide CanonicalOf, Kept, Undisturbed;
    LinkedIsEffective(w);
    SlippedMemory(network, w, extra, env);
    ReconnectedShape(network, Next(network, Next(network, w, SetRoutes(extra, env)), Drop));
  }

  const QUIET := Surroundings(b => false, b => false)

  /** A run into that state: a request for one prefix between the two sections of a disconnect. */
  lemma SlipRun(network: Block, p: Prefix)
    ensures var steps := [Begin, Raise(1, true), Name(1), Handshake(1), Clear];
            && Possible(network, START, steps)
            && var w := After(network, START, steps);
               && SlipsIn(w, SetRoutes([p], QUIET)) && w.halfway == 1
               && Safe(w) && MemoryIsRight(network, w)
               && !MemoryIsRight(network, Next(network, w, SetRoutes([p], QUIET)))
  {
    hide CanonicalOf, Diffed, Coherent;
    var steps := [Begin, Raise(1, true), Name(1), Handshake(1), Clear];
    OnePrefix(p);
    SlipSteps(network);
    StartIsSafe(network);
    RunsAreSafe(network, START, steps);
    RunsKeepKnown(network, START, steps);
    RunsKeepMemory(network, START, steps);
    MemoryKeptIff(network, After(network, START, steps), SetRoutes([p], QUIET));
  }

  lemma OnePrefix(p: Prefix)
    ensures CanonicalOf([p]) != []
  {
    CanonicalExact([p]);
    assert BlockFromPrefix(p) in MaskedSet([p]);
  }

  lemma {:induction false} RunsKeepKnown(network: Block, w: World, steps: seq<Step>)
    requires Safe(w) && AdaptersKnown(w) && Possible(network, w, steps)
    ensures AdaptersKnown(After(network, w, steps))
    decreases |steps|
  {
    if steps != [] {
      StepKeepsSafe(network, w, steps[0]);
      AdaptersStayKnown(network, w, steps[0]);
      RunsKeepKnown(network, Next(network, w, steps[0]), steps[1..]);
    }
  }

  lemma SlipSteps(network: Block)
    ensures var steps := [Begin, Raise(1, true), Name(1), Handshake(1), Clear];
            && Possible(network, START, steps) && NeverSlips(network, START, steps)
            && var w := After(network, START, steps); Linked(w.shared) && w.halfway == 1
  {}
}
