/** The router's tunnel: the engine that owns the kernel interface and its consumer routes
    (internal/router/engine/engine.go), and the daemon that keeps it up
    (internal/router/daemon/daemon.go). Each engine call is atomic; its late kernel failures are
    left out. */
module Router {
  import opened Cidr
  import opened Common
  import opened Routes

  /** How bringing an absent interface up goes: it works, it fails leaving nothing behind, or it
      fails and the half-built interface cannot be removed either. */
  datatype UpOutcome = Works | Fails | Wrecks

  datatype UpResult = UpDone | IfaceExists | UpFailed

  class Engine {
    const network: Block
    var wanted: seq<Block>
    var applied: seq<Block>

    // The kernel's side: the interface, its consumer routes, the peer's AllowedIPs.
    var iface: bool
    var routes: set<Block>
    var allowed: set<Block>

    // How often an interface was brought up, and whether the present one is the product of the
    // last bring-up, undamaged.
    ghost var ups: nat
    ghost var sound: bool

    ghost function State(): RouteState
      reads this
    {
      RouteState(wanted, applied, routes, allowed)
    }

    ghost predicate Valid()
      reads this
    {
      && (!iface ==> wanted == [] && applied == [] && routes == {} && !sound)
      && (sound ==> Coherent(State(), network))
    }

    /** A process starts with no memory, perhaps over an interface an earlier one left behind. */
    constructor (network: Block, leftover: bool)
      ensures Valid() && this.network == network && iface == leftover && ups == 0
    {
      this.network := network;
      wanted, applied, routes, allowed := [], [], {}, {};
      iface, ups, sound := leftover, 0, false;
    }

    method Up(outcome: UpOutcome) returns (r: UpResult)
      requires Valid()
      modifies this
      ensures Valid()
      ensures r.IfaceExists? <==> old(iface)
      ensures r.IfaceExists? ==> unchanged(this)
      ensures r.UpDone? <==> !old(iface) && outcome.Works?
      ensures r.UpDone? ==> iface && sound && wanted == [] && applied == [] && routes == {} && allowed == {network}
      ensures r.UpFailed? ==> iface == outcome.Wrecks? && !sound && wanted == [] && applied == [] && routes == {}
      ensures ups == old(ups) + if r.UpDone? then 1 else 0
    {
      if iface {
        return IfaceExists;
      }
      match outcome {
        case Works =>
          iface, routes, allowed := true, {}, {network};
          ups, sound := ups + 1, true;
          return UpDone;
        case Fails =>
          return UpFailed;
        case Wrecks =>
          wanted, applied := [], [];
          iface := true;
          return UpFailed;
      }
    }

    /** The memory goes first, whether or not the interface can then be deleted. */
    method Down(ok: bool) returns (gone: bool)
      requires Valid()
      modifies this
      ensures Valid() && wanted == [] && applied == [] && !sound && ups == old(ups)
      ensures gone <==> !old(iface) || ok
      ensures gone <==> !iface
      ensures gone ==> routes == {}
      ensures !gone ==> routes == old(routes) && allowed == old(allowed)
    {
      wanted, applied := [], [];
      sound := false;
      if !iface {
        return true;
      }
      if !ok {
        return false;
      }
      iface, routes, allowed := false, {}, {};
      return true;
    }

    /** SetRoutes: add what is new, then delete what is gone, then replace the AllowedIPs. */
    method SetRoutes(extra: seq<Prefix>, env: Surroundings) returns (r: Option<seq<Block>>)
      requires Valid()
      modifies this
      ensures Valid() && iface == old(iface) && sound == old(sound) && ups == old(ups)
      ensures r.Some? ==> r.value == applied
      ensures r.None? ==> !iface && unchanged(this)
      ensures !iface ==> unchanged(this) && (r.Some? <==> CanonicalOf(extra) == [])
      ensures iface ==> r.Some? && State() == Diffed(old(State()), network, CanonicalOf(extra), env)
      ensures sound ==> State() == Requested(old(State()), network, CanonicalOf(extra), env)
    {
      hide Coherent, Canonical, CanonicalOf, Free, Routable, DiffRoutes, Requested;
      var desired := CanonicalPrefixes(extra);
      if sound {
        RequestKeepsCoherent(State(), network, desired, env);
      }
      if desired == wanted && |applied| == |wanted| {
        return Some(applied);
      }
      if !iface {
        return None;
      }
      var free := Unclashed(desired, env);
      var routed := AddRoutes(free, env);
      DeleteRoutes(free);
      DiffOrder(old(routes), Elems(old(applied)), free, env);
      allowed := {network} + Elems(routed);
      wanted := desired;
      applied := routed;
      return Some(applied);
    }

    /** The kernel route diff's additions; a refused route is skipped. */
    method AddRoutes(free: seq<Block>, env: Surroundings) returns (routed: seq<Block>)
      modifies this`routes
      ensures routed == Routable(free, Elems(applied), env)
      ensures routes == old(routes) + (Elems(routed) - Elems(applied))
    {
      var cur := Elems(applied);
      routed := [];
      for i := 0 to |free|
        invariant routed == Routable(free[..i], cur, env)
        invariant routes == old(routes) + (Elems(routed) - cur)
      {
        var p := free[i];
        assert free[..i + 1] == free[..i] + [p];
        RoutableMore(free[..i], p, cur, env);
        ElemsMore(routed, p);
        if p !in cur {
          if env.refuses(p) {
            continue;
          }
          routes := routes + {p};
        }
        routed := routed + [p];
      }
      assert free[..|free|] == free;
    }

    method DeleteRoutes(free: seq<Block>)
      modifies this`routes
      ensures routes == old(routes) - (Elems(applied) - Elems(free))
    {
      var want := Elems(free);
      for i := 0 to |applied|
        invariant routes == old(routes) - (Elems(applied[..i]) - want)
      {
        assert applied[..i + 1] == applied[..i] + [applied[i]];
        ElemsMore(applied[..i], applied[i]);
        if applied[i] !in want {
          routes := routes - {applied[i]};
        }
      }
      assert applied[..|applied|] == applied;
    }
  }

  // ---------------------------------------------------------------- the daemon

  datatype Event =
    | Tick(first: UpOutcome, down: bool, second: UpOutcome, stale: bool)
    | Reconcile(extra: seq<Prefix>, env: Surroundings)
    | Cancel(down: bool)

  datatype Outcome = Running | Stopped | TeardownFailed

  predicate Healthy(e: Event) {
    e.Tick? && e.first.Works? && e.down && e.second.Works?
  }

  /** What the loop believes, and the engine under it. */
  datatype Moment = Moment(up: bool, iface: bool, sound: bool, ups: nat, state: RouteState)

  /** A tunnel just built. */
  ghost predicate Fresh(network: Block, v: Moment) {
    v.up && v.iface && v.sound && v.state == RouteState([], [], {}, {network})
  }

  predicate Forgotten(v: Moment) {
    !v.sound && v.state.wanted == [] && v.state.applied == []
  }

  /** What one event does. A check that finds the tunnel up and not stale does nothing. Otherwise
      the interface, if there is one, goes first, and if it cannot go nothing else happens; then
      a new one is brought up, by the first attempt unless that one ran into a leftover. */
  ghost predicate Follows(network: Block, s: Moment, e: Event, v: Moment) {
    match e
    case Reconcile(extra, env) =>
      v == s.(state := if s.iface then Diffed(s.state, network, CanonicalOf(extra), env) else s.state)
    case Cancel(down) =>
      && Forgotten(v) && v.up == s.up && v.ups == s.ups && (v.iface <==> s.iface && !down)
      && v.state.routes == if v.iface then s.state.routes else {}
    case Tick(first, down, second, stale) =>
      if s.up && !stale then v == s
      else if s.iface && !down then
        Forgotten(v) && v.up == s.up && v.iface && v.ups == s.ups && v.state.routes == s.state.routes
      else
        var outcome := if !s.up && s.iface then second else first;
        if outcome.Works? then Fresh(network, v) && v.ups == s.ups + 1
        else Forgotten(v) && !v.up && v.iface == outcome.Wrecks? && v.ups == s.ups && v.state.routes == {}
  }

  /** The events up to the first cancellation are the ones that happen. */
  predicate Uncancelled(events: seq<Event>) {
    forall i :: 0 <= i < |events| ==> !events[i].Cancel?
  }

  ghost predicate Unfolds(network: Block, history: seq<Moment>, events: seq<Event>) {
    && |history| == |events| + 1
    && forall i :: 0 <= i < |events| ==> Follows(network, history[i], events[i], history[i + 1])
  }

  lemma UnfoldsNothing(network: Block, v: Moment)
    ensures Unfolds(network, [v], [])
  {}

  lemma UnfoldsMore(network: Block, history: seq<Moment>, events: seq<Event>, e: Event, v: Moment)
    requires Unfolds(network, history, events) && Follows(network, history[|events|], e, v)
    ensures Unfolds(network, history + [v], events + [e])
  {
    hide Follows;
  }

  class Daemon {
    const engine: Engine
    // The route memory at each firing of OnUp.
    var fired: seq<seq<Block>>

    ghost predicate Valid()
      reads this, engine
    {
      engine.Valid() && |fired| == engine.ups && forall i :: 0 <= i < |fired| ==> fired[i] == []
    }

    constructor (engine: Engine)
      requires engine.Valid() && engine.ups == 0
      ensures Valid() && this.engine == engine && fired == []
    {
      this.engine := engine;
      fired := [];
    }

    ghost function Now(up: bool): Moment
      reads this, engine
    {
      Moment(up, engine.iface, engine.sound, engine.ups, engine.State())
    }

    /** tryUp: an interface in the way is a leftover, to be replaced. It is what a check does that
        finds no tunnel. */
    method TryUp(first: UpOutcome, down: bool, second: UpOutcome) returns (ok: bool)
      requires Valid()
      modifies this, engine
      ensures Valid()
      ensures ok ==> engine.iface && engine.sound && engine.ups == old(engine.ups) + 1
      ensures !ok ==> engine.ups == old(engine.ups)
      ensures ok <==> if old(engine.iface) then down && second.Works? else first.Works?
      ensures Follows(engine.network, old(Now(false)), Tick(first, down, second, false), Now(ok))
    {
      var r := engine.Up(first);
      if r.IfaceExists? {
        var gone := engine.Down(down);
        if !gone {
          return false;
        }
        r := engine.Up(second);
      }
      if !r.UpDone? {
        return false;
      }
      fired := fired + [engine.applied];
      return true;
    }

    /** One health check. If the engine's calls succeed, it ends with a tunnel up that this check
        found fresh or has just built. */
    method Check(up: bool, e: Event) returns (upNow: bool)
      requires Valid() && e.Tick? && (up ==> engine.iface)
      modifies this, engine
      ensures Valid() && (upNow ==> engine.iface)
      ensures Healthy(e) ==> upNow
      ensures Healthy(e) ==> engine.ups == old(engine.ups) + if up && !e.stale then 0 else 1
      ensures Follows(engine.network, old(Now(up)), e, Now(upNow))
    {
      if !up {
        upNow := TryUp(e.first, e.down, e.second);
        return;
      }
      if e.stale {
        var gone := engine.Down(e.down);
        if !gone {
          return true;
        }
        upNow := TryUp(e.first, e.down, e.second);
        return;
      }
      return true;
    }

    /** A reconcile that runs between two checks. */
    method Route(ghost up: bool, extra: seq<Prefix>, env: Surroundings)
      requires Valid() && (up ==> engine.iface)
      modifies engine
      ensures Valid() && (up ==> engine.iface)
      ensures Follows(engine.network, old(Now(up)), Reconcile(extra, env), Now(up))
    {
      var r := engine.SetRoutes(extra, env);
    }

    /** The teardown that ends a run. */
    method Quit(ghost up: bool, down: bool) returns (gone: bool)
      requires Valid()
      modifies engine
      ensures Valid() && Follows(engine.network, old(Now(up)), Cancel(down), Now(up))
      ensures Forgotten(Now(up)) && (gone <==> !engine.iface) && (gone <==> down || !old(engine.iface))
    {
      gone := engine.Down(down);
    }

    /** Run, over the events it would select; `up` is what its loop believes at the end, and the
        history has the moment after the first attempt and after each event until it returns. As
        every list of events has all its prefixes, this speaks of every moment of a run. */
    method Run(first: UpOutcome, down: bool, second: UpOutcome, events: seq<Event>)
      returns (outcome: Outcome, up: bool, ghost history: seq<Moment>)
      requires Valid()
      modifies this, engine
      ensures Valid()
      ensures outcome.Running? && up ==> engine.iface
      ensures outcome.Stopped? ==> !engine.iface
      ensures outcome.TeardownFailed? ==> engine.iface
      ensures outcome.Running? <==> Uncancelled(events)
      ensures outcome.Running? && events != [] && Healthy(events[|events| - 1]) ==> up && engine.iface
      ensures 1 <= |history| <= |events| + 1 && history[|history| - 1] == Now(up)
      ensures Follows(engine.network, old(Now(false)), Tick(first, down, second, false), history[0])
      ensures Unfolds(engine.network, history, events[..|history| - 1])
      ensures outcome.Running? ==> |history| == |events| + 1
      ensures !outcome.Running? ==>
                && |history| >= 2 && Uncancelled(events[..|history| - 2]) && events[|history| - 2].Cancel?
                && engine.wanted == [] && engine.applied == [] && !engine.sound
                && (outcome.Stopped? <==> events[|history| - 2].down || !history[|history| - 2].iface)
    {
      hide Follows, Unfolds;
      up := TryUp(first, down, second);
      history := [Now(up)];
      UnfoldsNothing(engine.network, history[0]);
      for i := 0 to |events|
        invariant Valid() && (up ==> engine.iface)
        invariant forall j :: 0 <= j < i ==> !events[j].Cancel?
        invariant i > 0 && Healthy(events[i - 1]) ==> up
        invariant |history| == i + 1 && history[i] == Now(up) && Unfolds(engine.network, history, events[..i])
        invariant Follows(engine.network, old(Now(false)), Tick(first, down, second, false), history[0])
      {
        assert events[..i + 1] == events[..i] + [events[i]];
        match events[i] {
          case Cancel(ok) =>
            var gone := Quit(up, ok);
            UnfoldsMore(engine.network, history, events[..i], events[i], Now(up));
            history := history + [Now(up)];
            return if gone then Stopped else TeardownFailed, up, history;
          case Reconcile(extra, env) =>
            Route(up, extra, env);
          case Tick(_, _, _, _) =>
            up := Check(up, events[i]);
        }
        UnfoldsMore(engine.network, history, events[..i], events[i], Now(up));
        history := history + [Now(up)];
      }
      return Running, up, history;
    }
  }

  /** What an event can do to the loop's belief and to the engine: faith is lost only after the
      tunnel was removed and could not be built again, and gained only with a fresh tunnel; only
      bring-ups are counted; without an interface nothing is remembered; and what is routed changes
      only by a reconcile, or with the interface. */
  lemma EventsMean(network: Block, s: Moment, e: Event, v: Moment)
    requires Follows(network, s, e, v) && (s.sound ==> s.iface)
    ensures s.up && !v.up ==> e.Tick? && e.stale && (e.down || !s.iface) && !e.first.Works?
    ensures !s.up && v.up ==> e.Tick? && Fresh(network, v) && v.ups == s.ups + 1
    ensures v.ups > s.ups ==> Fresh(network, v) && v.ups == s.ups + 1
    ensures v.ups >= s.ups
    ensures v.state.routes != s.state.routes ==> e.Reconcile? || v.ups > s.ups || !v.iface || !s.iface || !v.up
    ensures !e.Reconcile? && !v.sound && s.sound ==> v.state.wanted == [] && v.state.applied == []
    ensures e.Reconcile? && s.sound ==> v.state.wanted == CanonicalOf(e.extra)
  {
    hide CanonicalOf, Kept, DiffRoutes, Free;
    if e.Reconcile? && s.iface {
      assert v.state == Diffed(s.state, network, CanonicalOf(e.extra), e.env);
    }
  }

  /** A tunnel found up at a moment of any run has an interface under it, so the loop never takes
      a missing tunnel for one that is up. */
  lemma {:induction false} BelievedIsThere(network: Block, history: seq<Moment>, events: seq<Event>, i: nat)
    requires Unfolds(network, history, events) && Uncancelled(events) && i < |history|
    requires history[0].up ==> history[0].iface
    ensures history[i].up ==> history[i].iface
  {
    if i > 0 {
      BelievedIsThere(network, history, events, i - 1);
      assert Follows(network, history[i - 1], events[i - 1], history[i]);
    }
  }
}
