/** Registrations racing for addresses (internal/server/store/nodes.go `Create`): the lowest free
    address is read and the row inserted in two separate statements, and any other registration
    or handler may run in between. */
module Registration {
  import opened Cidr
  import opened Common
  import opened Ipam
  import opened Schema
  import opened NodeAddresses
  import opened Store
  import opened Control

  const MAX_ALLOC_RETRIES: nat := 100

  datatype Request = Request(user: int, name: string, key: string, platform: string, maxDevices: nat)

  datatype Stage =
    | Reading(tries: nat)
    | Inserting(ip: uint32, tries: nat)
    | Finished(result: NodeResult)
    | Contended

  datatype Attempt = Attempt(req: Request, stage: Stage)

  /** The database and the registrations under way. */
  datatype Race = Race(tables: Tables, attempts: seq<Attempt>)

  datatype Move = Arrive(req: Request) | Read(i: nat) | Insert(i: nat) | Elsewhere(op: Op)

  datatype InsertResult = Inserted(node: int) | OverCap | AddressTaken | KeyTaken | NameTaken | NoUser

  /** nodes.go `insertNode`: the count is checked by the same statement that inserts; the unique
      indexes are checked as it does. */
  ghost function InsertedNode(t: Tables, req: Request, ip: uint32): (Tables, InsertResult) {
    if req.maxDevices > 0 && |NodesOf(t, req.user)| >= req.maxDevices then (t, OverCap)
    else if ip in UsedIPs(t) then (t, AddressTaken)
    else if exists n :: n in t.nodes && t.nodes[n].pubKey == req.key then (t, KeyTaken)
    else if exists n :: n in t.nodes && t.nodes[n].user == req.user && t.nodes[n].name == req.name then (t, NameTaken)
    else if req.user !in t.users then (t, NoUser)
    else (InsertNode(t, NodeRow(req.user, req.name, req.key, ip, req.platform)), Inserted(t.next.node))
  }

  function StageAfter(r: InsertResult, tries: nat): Stage {
    match r
    case Inserted(n) => Finished(NodeCreated(n))
    case OverCap => Finished(DeviceLimit)
    case AddressTaken => if tries <= 1 then Contended else Reading(tries - 1)
    case KeyTaken => Finished(PubKeyTaken)
    case NameTaken => Finished(NodeNameTaken)
    case NoUser => Finished(NodeRefused)
  }

  ghost predicate Possible(r: Race, m: Move) {
    match m
    case Arrive(_) => true
    case Read(i) => i < |r.attempts| && r.attempts[i].stage.Reading?
    case Insert(i) => i < |r.attempts| && r.attempts[i].stage.Inserting?
    case Elsewhere(_) => true
  }

  ghost function AfterRead(cfg: Config, t: Tables, tries: nat): Stage
    requires PoolRange(cfg.network).Some?
  {
    match LowestAddress(UsedIPs(t), PoolRange(cfg.network).value)
    case None => Finished(PoolExhausted)
    case Some(ip) => Inserting(ip, tries)
  }

  ghost function Moved(cfg: Config, r: Race, m: Move): Race
    requires Possible(r, m) && PoolRange(cfg.network).Some?
  {
    match m
    case Arrive(req) => r.(attempts := r.attempts + [Attempt(req, Reading(MAX_ALLOC_RETRIES))])
    case Read(i) =>
      var a := r.attempts[i];
      r.(attempts := r.attempts[i := a.(stage := AfterRead(cfg, r.tables, a.stage.tries))])
    case Insert(i) =>
      var a := r.attempts[i];
      var (s, result) := InsertedNode(r.tables, a.req, a.stage.ip);
      Race(s, r.attempts[i := a.(stage := StageAfter(result, a.stage.tries))])
    case Elsewhere(op) => r.(tables := Next(cfg, r.tables, op).0)
  }

  /** Rows are proper, and every address read lies in the range, however stale it is. */
  ghost predicate RaceProper(cfg: Config, r: Race) {
    && ConfigOk(cfg) && RowsProper(cfg, r.tables) && PoolRange(cfg.network).Some?
    && forall i :: 0 <= i < |r.attempts| ==> InRange(PoolRange(cfg.network).value, r.attempts[i].stage)
  }

  predicate InRange(range: Range, s: Stage) {
    s.Inserting? ==> range.first <= s.ip <= range.last
  }

  /** Whatever other statements ran since its read, an insert keeps addresses distinct and in
      range, and a capped one never takes its user over the cap. */
  lemma InsertKeepsRows(cfg: Config, t: Tables, req: Request, ip: uint32)
    requires RowsProper(cfg, t)
    requires PoolRange(cfg.network).value.first <= ip <= PoolRange(cfg.network).value.last
    ensures var (s, r) := InsertedNode(t, req, ip);
            && RowsProper(cfg, s)
            && (r.Inserted? ==> r.node in s.nodes && s.nodes[r.node].ip == ip && r.node !in t.nodes)
            && (!r.Inserted? ==> s == t)
            && (r.Inserted? && req.maxDevices > 0 ==> |NodesOf(s, req.user)| <= req.maxDevices)
  {
    var (s, r) := InsertedNode(t, req, ip);
    if r.Inserted? {
      InsertNodeRows(cfg, t, NodeRow(req.user, req.name, req.key, ip, req.platform));
      assert NodesOf(s, req.user) == NodesOf(t, req.user) + {t.next.node};
    }
  }

  /** And where the rest of the invariant holds, it is kept as well. */
  lemma InsertKeeps(cfg: Config, t: Tables, req: Request, ip: uint32)
    requires Invariant(cfg, t)
    requires PoolRange(cfg.network).value.first <= ip <= PoolRange(cfg.network).value.last
    ensures Invariant(cfg, InsertedNode(t, req, ip).0)
  {
    if InsertedNode(t, req, ip).1.Inserted? {
      InsertNodeKeeps(cfg, t, NodeRow(req.user, req.name, req.key, ip, req.platform));
    }
  }

  lemma MoveKeepsProper(cfg: Config, r: Race, m: Move)
    requires RaceProper(cfg, r) && Possible(r, m)
    ensures RaceProper(cfg, Moved(cfg, r, m))
  {
    hide RowsProper, ConfigOk, InsertedNode;
    match m {
      case Arrive(_) =>
      case Read(i) =>
      case Insert(i) => InsertKeepsRows(cfg, r.tables, r.attempts[i].req, r.attempts[i].stage.ip);
      case Elsewhere(op) => NextKeepsRows(cfg, r.tables, op);
    }
  }

  lemma MoveKeepsInvariant(cfg: Config, r: Race, m: Move)
    requires RaceProper(cfg, r) && Possible(r, m) && Invariant(cfg, r.tables)
    requires m.Elsewhere? ==> !FailedRejoin(r.tables, m.op)
    ensures Invariant(cfg, Moved(cfg, r, m).tables)
  {
    hide Invariant, RowsProper, ConfigOk, InsertedNode;
    match m {
      case Arrive(_) =>
      case Read(i) =>
      case Insert(i) => InsertKeeps(cfg, r.tables, r.attempts[i].req, r.attempts[i].stage.ip);
      case Elsewhere(op) => NextKeepsInvariant(cfg, r.tables, op);
    }
  }

  ghost predicate Feasible(cfg: Config, r: Race, moves: seq<Move>)
    requires PoolRange(cfg.network).Some?
    decreases |moves|
  {
    moves == [] || (Possible(r, moves[0]) && Feasible(cfg, Moved(cfg, r, moves[0]), moves[1..]))
  }

  ghost function Raced(cfg: Config, r: Race, moves: seq<Move>): Race
    requires PoolRange(cfg.network).Some? && Feasible(cfg, r, moves)
    decreases |moves|
  {
    if moves == [] then r else Raced(cfg, Moved(cfg, r, moves[0]), moves[1..])
  }

  /** Every interleaving of any number of registrations with each other and with every other
      operation, failed re-joins included, keeps every node's address distinct and in range, and
      all that rows satisfy. */
  lemma {:induction false} RacesKeepRows(cfg: Config, r: Race, moves: seq<Move>)
    requires RaceProper(cfg, r) && Feasible(cfg, r, moves)
    ensures RaceProper(cfg, Raced(cfg, r, moves))
    decreases |moves|
  {
    if moves != [] {
      MoveKeepsProper(cfg, r, moves[0]);
      RacesKeepRows(cfg, Moved(cfg, r, moves[0]), moves[1..]);
    }
  }

  ghost predicate NoFailedRejoin(cfg: Config, r: Race, moves: seq<Move>)
    requires PoolRange(cfg.network).Some? && Feasible(cfg, r, moves)
    decreases |moves|
  {
    moves == [] || (&& (moves[0].Elsewhere? ==> !FailedRejoin(r.tables, moves[0].op))
                    && NoFailedRejoin(cfg, Moved(cfg, r, moves[0]), moves[1..]))
  }

  /** Without a failed re-join they keep the whole invariant. */
  lemma {:induction false} RacesKeepInvariant(cfg: Config, r: Race, moves: seq<Move>)
    requires RaceProper(cfg, r) && Invariant(cfg, r.tables) && Feasible(cfg, r, moves) && NoFailedRejoin(cfg, r, moves)
    ensures Invariant(cfg, Raced(cfg, r, moves).tables)
    decreases |moves|
  {
    hide Invariant, RowsProper;
    if moves != [] {
      MoveKeepsProper(cfg, r, moves[0]);
      MoveKeepsInvariant(cfg, r, moves[0]);
      RacesKeepInvariant(cfg, Moved(cfg, r, moves[0]), moves[1..]);
    }
  }

  /** In every state of proper rows no node has the network's, the server's or the broadcast
      address, or another node's. */
  lemma AddressesAreProper(cfg: Config, t: Tables, m: int, n: int)
    requires ConfigOk(cfg) && RowsProper(cfg, t) && m in t.nodes && n in t.nodes
    ensures var b, ip := BlockFromPrefix(cfg.network), t.nodes[n].ip;
            && b.Has(ip) && ip != b.base && ip != FirstUsableAddress(cfg.network).value && ip != b.End() - 1
    ensures t.nodes[m].ip == t.nodes[n].ip ==> m == n
  {
    ServerAddressGuardsTheRange(cfg.network);
  }

  /** A registration nobody disturbs between its read and its insert succeeds or fails at the
      first try, as `CreatedNode` says; in particular it is never sent back to retry. */
  lemma UndisturbedIsCreated(cfg: Config, r: Race, i: nat)
    requires PoolRange(cfg.network).Some? && Possible(r, Read(i))
    ensures var read := Moved(cfg, r, Read(i));
            var q, range := r.attempts[i].req, PoolRange(cfg.network).value;
            var (s, result) := CreatedNode(r.tables, q.user, q.name, q.key, q.platform, range, q.maxDevices);
            if read.attempts[i].stage.Finished?
            then read.attempts[i].stage.result == result && read.tables == s == r.tables
            else Possible(read, Insert(i)) &&
                 var done := Moved(cfg, read, Insert(i)); done.tables == s && done.attempts[i].stage == Finished(result)
  {
    var range := PoolRange(cfg.network).value;
    if LowestAddress(UsedIPs(r.tables), range).Some? {
      assert LowestIn(UsedIPs(r.tables), range, LowestAddress(UsedIPs(r.tables), range).value);
    }
  }

  // ---------------------------------------------------------------- retrying

  /** Attempt i is about to insert an address that some row has by now, its user below the cap. */
  ghost predicate Collides(r: Race, i: nat) {
    && i < |r.attempts| && r.attempts[i].stage.Inserting?
    && (exists n :: n in r.tables.nodes && r.tables.nodes[n].ip == r.attempts[i].stage.ip)
    && var req := r.attempts[i].req;
       req.maxDevices == 0 || |set n | n in r.tables.nodes && r.tables.nodes[n].user == req.user| < req.maxDevices
  }

  /** How many of the attempt's inserts collide in a run. */
  ghost function Collisions(cfg: Config, r: Race, moves: seq<Move>, i: nat): nat
    requires PoolRange(cfg.network).Some? && Feasible(cfg, r, moves)
    decreases |moves|
  {
    if moves == [] then 0
    else
      (if moves[0] == Insert(i) && Collides(r, i) then 1 else 0) +
      Collisions(cfg, Moved(cfg, r, moves[0]), moves[1..], i)
  }

  /** How many more inserts the attempt may make; None once it has its result. */
  function TriesLeft(r: Race, i: nat): Option<nat> {
    if i >= |r.attempts| then Some(100)
    else
      match r.attempts[i].stage
      case Reading(tries) => Some(tries)
      case Inserting(_, tries) => Some(tries)
      case Contended => Some(0)
      case Finished(_) => None
  }

  /** An attempt that is not done has a try left. */
  ghost predicate Trying(r: Race) {
    forall i :: 0 <= i < |r.attempts| && (r.attempts[i].stage.Reading? || r.attempts[i].stage.Inserting?) ==>
      r.attempts[i].stage.tries >= 1
  }

  lemma InsertCollides(r: Race, i: nat)
    requires i < |r.attempts| && r.attempts[i].stage.Inserting?
    ensures InsertedNode(r.tables, r.attempts[i].req, r.attempts[i].stage.ip).1.AddressTaken? <==> Collides(r, i)
  {
    assert r.attempts[i].stage.ip in UsedIPs(r.tables) <==>
           exists n :: n in r.tables.nodes && r.tables.nodes[n].ip == r.attempts[i].stage.ip;
    var user := r.attempts[i].req.user;
    assert NodesOf(r.tables, user) == set n | n in r.tables.nodes && r.tables.nodes[n].user == user;
  }

  lemma MoveCounts(cfg: Config, r: Race, m: Move, i: nat)
    requires PoolRange(cfg.network).Some? && Possible(r, m) && Trying(r)
    ensures var v := Moved(cfg, r, m);
            && Trying(v)
            && (TriesLeft(r, i).None? ==> TriesLeft(v, i).None?)
            && (TriesLeft(v, i).Some? && TriesLeft(r, i).Some? ==>
                  TriesLeft(v, i).value == TriesLeft(r, i).value - if m == Insert(i) && Collides(r, i) then 1 else 0)
  {
    hide InsertedNode, Collides, NodesOf;
    if m.Insert? {
      InsertCollides(r, m.i);
    }
  }

  lemma {:induction false} CollisionsCount(cfg: Config, r: Race, moves: seq<Move>, i: nat)
    requires PoolRange(cfg.network).Some? && Feasible(cfg, r, moves) && Trying(r)
    ensures var v := Raced(cfg, r, moves);
            && Trying(v)
            && (TriesLeft(r, i).None? ==> TriesLeft(v, i).None?)
            && (TriesLeft(r, i).Some? && TriesLeft(v, i).Some? ==>
                  TriesLeft(v, i).value == TriesLeft(r, i).value - Collisions(cfg, r, moves, i))
    decreases |moves|
  {
    hide Moved, Collides, TriesLeft, Trying;
    if moves != [] {
      MoveCounts(cfg, r, moves[0], i);
      CollisionsCount(cfg, Moved(cfg, r, moves[0]), moves[1..], i);
    }
  }

  /** Over every run in which all attempts arrive, an attempt gives up exactly after a hundred of
      its inserts met a taken address, and while it has no result it has met fewer. */
  lemma ContendedIff(cfg: Config, t: Tables, moves: seq<Move>, i: nat)
    requires PoolRange(cfg.network).Some? && Feasible(cfg, Race(t, []), moves)
    requires i < |Raced(cfg, Race(t, []), moves).attempts|
    ensures var stage := Raced(cfg, Race(t, []), moves).attempts[i].stage;
            !stage.Finished? ==> (stage.Contended? <==> Collisions(cfg, Race(t, []), moves, i) == 100)
  {
    CollisionsCount(cfg, Race(t, []), moves, i);
  }

  /** An insert that meets a taken address with tries left costs nothing but that try: left alone
      from there, the attempt ends as an undisturbed registration on the tables it then finds. */
  lemma RetryIsCreated(cfg: Config, r: Race, i: nat)
    requires PoolRange(cfg.network).Some? && Possible(r, Insert(i)) && Collides(r, i) && r.attempts[i].stage.tries > 1
    ensures var again := Moved(cfg, r, Insert(i));
            && again.tables == r.tables && Possible(again, Read(i)) && again.attempts[i].req == r.attempts[i].req
            && var read := Moved(cfg, again, Read(i));
               var q, range := r.attempts[i].req, PoolRange(cfg.network).value;
               var (s, result) := CreatedNode(r.tables, q.user, q.name, q.key, q.platform, range, q.maxDevices);
               if read.attempts[i].stage.Finished?
               then read.attempts[i].stage.result == result && read.tables == s == r.tables
               else
                 && Possible(read, Insert(i))
                 && var done := Moved(cfg, read, Insert(i));
                    done.tables == s && done.attempts[i].stage == Finished(result)
  {
    hide CreatedNode, InsertedNode, Collides, AfterRead;
    InsertCollides(r, i);
    InsertChangesNothing(r.tables, r.attempts[i].req, r.attempts[i].stage.ip);
    UndisturbedIsCreated(cfg, Moved(cfg, r, Insert(i)), i);
  }

  lemma InsertChangesNothing(t: Tables, req: Request, ip: uint32)
    ensures InsertedNode(t, req, ip).1.AddressTaken? ==> InsertedNode(t, req, ip).0 == t
  {}
}
