/** What the server's events, the frame and the user's actions do, in fields and log: which
    event of a queue decides each field, when the client spawns, asks for a class and sends,
    and what connecting, disconnecting and quitting leave. */
module SessionEvents {
  import opened Machine
  import opened Session
  import opened SessionEffects
  import opened SessionSafety
  import opened SessionTheorems

  // ---------------------------------------------------------------- the event that decides

  /** Event k is the last of its sort in the queue; -1 says there is none. */
  ghost predicate Last(queue: seq<NetEvent>, k: int, sort: Sort) {
    -1 <= k < |queue| && (k >= 0 ==> Is(queue[k], sort)) && forall j :: k < j < |queue| ==> !Is(queue[j], sort)
  }

  /** Either the last event of the queue is the one, or the one is the same without it. */
  lemma LastBefore(queue: seq<NetEvent>, k: int, sort: Sort)
    requires Last(queue, k, sort) && queue != []
    ensures var n := |queue| - 1;
      if Is(queue[n], sort) then k == n else k < n && Last(queue[..n], k, sort)
  {
  }

  /** Spectator mode is what the last toggle says. */
  lemma {:induction false} SpectatingAfter(b: Bridge, queue: seq<NetEvent>, k: int)
    requires Last(queue, k, Toggle)
    ensures DeliverAll(b, queue).spectating == if k < 0 then b.spectating else queue[k].on
  {
    if queue != [] {
      var n := |queue| - 1;
      LastBefore(queue, k, Toggle);
      Effects(DeliverAll(b, queue[..n]), queue[n]);
      if k < n {
        SpectatingAfter(b, queue[..n], k);
      }
    }
  }

  /** A dialog is open if the last dialog box does not close it. */
  lemma {:induction false} DialogAfter(b: Bridge, queue: seq<NetEvent>, k: int)
    requires Last(queue, k, Box)
    ensures DeliverAll(b, queue).dialog == if k < 0 then b.dialog else !queue[k].close
  {
    if queue != [] {
      var n := |queue| - 1;
      LastBefore(queue, k, Box);
      Effects(DeliverAll(b, queue[..n]), queue[n]);
      if k < n {
        DialogAfter(b, queue[..n], k);
      }
    }
  }

  /** The player id is that of the last accept or complete InitGame. */
  lemma {:induction false} PlayerIdAfter(b: Bridge, queue: seq<NetEvent>, k: int)
    requires Last(queue, k, NamesMe)
    ensures DeliverAll(b, queue).playerId == if k < 0 then b.playerId else queue[k].id
  {
    if queue != [] {
      var n := |queue| - 1;
      LastBefore(queue, k, NamesMe);
      Effects(DeliverAll(b, queue[..n]), queue[n]);
      if k < n {
        PlayerIdAfter(b, queue[..n], k);
      }
    }
  }

  /** A class reply is held if a positive one came after the last restart. */
  lemma {:induction false} SpawnInfoAfter(b: Bridge, queue: seq<NetEvent>, k: int)
    requires Last(queue, k, Settles)
    ensures DeliverAll(b, queue).spawnInfo == if k < 0 then b.spawnInfo else queue[k].ClassReply?
  {
    if queue != [] {
      var n := |queue| - 1;
      LastBefore(queue, k, Settles);
      Effects(DeliverAll(b, queue[..n]), queue[n]);
      if k < n {
        SpawnInfoAfter(b, queue[..n], k);
      }
    }
  }

  /** An accept connects, and nothing delivered disconnects. */
  lemma {:induction false} ConnectedAfter(b: Bridge, queue: seq<NetEvent>, k: int)
    requires Last(queue, k, Accept)
    ensures DeliverAll(b, queue).connected == (b.connected || k >= 0)
  {
    if queue != [] {
      var n := |queue| - 1;
      LastBefore(queue, k, Accept);
      Effects(DeliverAll(b, queue[..n]), queue[n]);
      if k < n {
        ConnectedAfter(b, queue[..n], k);
      }
    }
  }

  // ---------------------------------------------------------------- leaving spectator mode

  /** Event i finds the client spectating and ends it. */
  ghost predicate Leaves(b: Bridge, queue: seq<NetEvent>, i: nat)
    requires i < |queue|
  {
    queue[i] == ToggleSpectating(false) && DeliverAll(b, queue[..i]).spectating
  }

  /** The last event of a queue spawns exactly when it ends spectator mode for a client that
      is not spawned: then one spawn is logged and nothing else. No other event logs one. */
  lemma LeavingSpawns(b: Bridge, queue: seq<NetEvent>)
    requires queue != []
    ensures var n := |queue| - 1;
      var before, after := DeliverAll(b, queue[..n]), DeliverAll(b, queue);
      && (queue[n].ToggleSpectating? ==> after.spectating == queue[n].on)
      && (queue[n] == ToggleSpectating(false) && before.spectating && !before.spawned ==>
            after.spawned && !after.spectating && after.log == before.log + [Spawned(false)])
      && (!(queue[n] == ToggleSpectating(false) && before.spectating && !before.spawned) ==>
            Count(after.log, AnySpawn) == Count(before.log, AnySpawn))
      && (queue[n].ToggleSpectating? && !(before.spectating && !queue[n].on && !before.spawned) ==>
            after.spawned == before.spawned && after.log == before.log)
      && Count(after.log, AutoSpawn) == Count(before.log, AutoSpawn)
  {
    var n := |queue| - 1;
    var before := DeliverAll(b, queue[..n]);
    DeliverCount(before, queue[n], AutoSpawn);
    if queue[n].ToggleSpectating? {
      ToggleSpawns(before, queue[n].on);
    } else {
      OthersSpawnNobody(before, queue[n]);
    }
  }

  lemma ToggleSpawns(b: Bridge, on: bool)
    ensures var d := Deliver(b, ToggleSpectating(on));
      d.spectating == on &&
      if b.spectating && !on && !b.spawned
      then d.spawned && d.log == b.log + [Spawned(false)]
      else d.spawned == b.spawned && d.log == b.log
  {
    ToggleIs(b, on);
  }

  lemma OthersSpawnNobody(b: Bridge, e: NetEvent)
    requires !e.ToggleSpectating?
    ensures Count(Deliver(b, e).log, AnySpawn) == Count(b.log, AnySpawn)
  {
    match e {
      case GameModeRestart => CountOne(b.log, Restarted, AnySpawn);
      case ClassReply(outcome) => CountOne(b.log, ClassReplied(outcome != 0), AnySpawn);
      case _ =>
    }
  }

  /** The events of a queue that spawn. */
  ghost function Spawning(b: Bridge, queue: seq<NetEvent>): set<nat> {
    set i | 0 <= i < |queue| && Leaves(b, queue, i) && !DeliverAll(b, queue[..i]).spawned
  }

  lemma SpawningMore(b: Bridge, queue: seq<NetEvent>)
    requires queue != []
    ensures var n := |queue| - 1;
      n !in Spawning(b, queue[..n]) &&
      Spawning(b, queue) ==
      Spawning(b, queue[..n]) + if Leaves(b, queue, n) && !DeliverAll(b, queue[..n]).spawned then {n} else {}
  {
    var n := |queue| - 1;
    assert forall i :: 0 <= i < n ==> queue[..n][..i] == queue[..i];
  }

  /** Over any queue, one spawn is logged for each of those events and none by the FSM. */
  lemma {:induction false} SpawnsOfQueue(b: Bridge, queue: seq<NetEvent>)
    ensures Count(DeliverAll(b, queue).log, AnySpawn) == Count(b.log, AnySpawn) + |Spawning(b, queue)|
    ensures Count(DeliverAll(b, queue).log, AutoSpawn) == Count(b.log, AutoSpawn)
  {
    if queue != [] {
      var n := |queue| - 1;
      SpawnsOfQueue(b, queue[..n]);
      LeavingSpawns(b, queue);
      SpawningMore(b, queue);
      CountOne(DeliverAll(b, queue[..n]).log, Spawned(false), AnySpawn);
    }
  }

  /** Event i decides whether the client is spawned: a restart, or an end of spectator mode. */
  ghost predicate Decides(b: Bridge, queue: seq<NetEvent>, i: nat)
    requires i < |queue|
  {
    queue[i].GameModeRestart? || Leaves(b, queue, i)
  }

  lemma DecidesBefore(b: Bridge, queue: seq<NetEvent>, n: nat, j: nat)
    requires j < n <= |queue|
    ensures Decides(b, queue[..n], j) == Decides(b, queue, j)
  {
    assert queue[..n][..j] == queue[..j];
  }

  /** The client is spawned if the last deciding event, at k, is no restart. */
  lemma {:induction false} SpawnedAfter(b: Bridge, queue: seq<NetEvent>, k: int)
    requires -1 <= k < |queue| && (k >= 0 ==> Decides(b, queue, k))
    requires forall j :: k < j < |queue| ==> !Decides(b, queue, j)
    ensures DeliverAll(b, queue).spawned == if k < 0 then b.spawned else !queue[k].GameModeRestart?
  {
    if queue != [] {
      var n := |queue| - 1;
      Effects(DeliverAll(b, queue[..n]), queue[n]);
      assert Decides(b, queue, n) <==> k == n;
      if k < n {
        forall j: nat | j < n ensures Decides(b, queue[..n], j) == Decides(b, queue, j) {
          DecidesBefore(b, queue, n, j);
        }
        SpawnedAfter(b, queue[..n], k);
      }
    }
  }

  // ---------------------------------------------------------------- a frame of the FSM

  /** The FSM runs: joined, not spawned and in no dialog once the queue is delivered. */
  ghost predicate Free(b: Bridge, queue: seq<NetEvent>) {
    var d := DeliverAll(b, queue);
    d.connected && d.gameInited && !d.spawned && !d.dialog
  }

  lemma {:induction false} DeliveryKeeps(b: Bridge, queue: seq<NetEvent>)
    ensures var d := DeliverAll(b, queue);
      d.initialized == b.initialized && d.connectionRequested == b.connectionRequested && d.connectIssued == b.connectIssued &&
      d.stage == b.stage && d.stageMs == b.stageMs &&
      d.lastSync == b.lastSync && d.lastOnFoot == b.lastOnFoot && d.lastInCar == b.lastInCar
  {
    if queue != [] {
      var n := |queue| - 1;
      DeliveryKeeps(b, queue[..n]);
      Effects(DeliverAll(b, queue[..n]), queue[n]);
    }
  }

  /** What the pump leaves alone. */
  ghost predicate SameButPump(b: Bridge, r: Bridge) {
    r == b.(lastSync := r.lastSync, lastOnFoot := r.lastOnFoot, lastInCar := r.lastInCar, log := r.log)
  }

  lemma PumpLeaves(b: Bridge, t: nat, ped: Ped)
    ensures SameButPump(b, SyncPump(b, t, ped))
    ensures Count(SyncPump(b, t, ped).log, ClassRequest) == Count(b.log, ClassRequest)
    ensures Count(SyncPump(b, t, ped).log, AutoSpawn) == Count(b.log, AutoSpawn)
  {
    PumpCases(b, t, ped);
    PumpCounts(b, t, ped, ClassRequest);
    PumpCounts(b, t, ped, AutoSpawn);
  }

  /** A frame in which the FSM is held back: before the join, once spawned, or by a dialog, it
      asks for no class, spawns nobody and keeps its stage. */
  lemma {:induction false} FsmHeld(b: Bridge, t: nat, queue: seq<NetEvent>, ped: Ped)
    requires b.initialized && !Free(b, queue)
    ensures var r, d := BridgeTick(b, t, queue, ped), DeliverAll(b, queue);
      && r.stage == b.stage && r.stageMs == b.stageMs && r.spawnInfo == d.spawnInfo
      && r.spawned == d.spawned && r.spectating == d.spectating && r.dialog == d.dialog
      && Count(r.log, ClassRequest) == Count(b.log, ClassRequest)
      && Count(r.log, AutoSpawn) == Count(b.log, AutoSpawn)
  {
    var issued := IssueConnect(DeliverAll(b, queue));
    DeliveryKeeps(b, queue);
    DeliverCounts(b, queue, ClassRequest);
    DeliverCounts(b, queue, AutoSpawn);
    assert SpawnFsm(issued, t) == issued;
    PumpLeaves(issued, t, ped);
  }

  /** A frame in which it runs: at rest it asks for a class and forgets the last reply; with a
      reply it gets ready; ready, it spawns the client, which is then not spectating. */
  lemma {:induction false} FsmRuns(b: Bridge, t: nat, queue: seq<NetEvent>, ped: Ped)
    requires b.initialized && Free(b, queue)
    ensures var r, d := BridgeTick(b, t, queue, ped), DeliverAll(b, queue);
      && r.dialog == d.dialog && r.spawned == (b.stage == Ready)
      && r.spectating == (d.spectating && b.stage != Ready)
      && r.spawnInfo == (d.spawnInfo && b.stage != Idle)
      && r.stageMs == (if b.stage == Idle then GetTickCount(t) else b.stageMs)
      && r.stage == (match b.stage
                     case Idle => WaitingClass
                     case WaitingClass =>
                       if d.spawnInfo then Ready
                       else if Minus32(GetTickCount(t), b.stageMs) > 3000 then Idle else WaitingClass
                     case _ => Done)
      && Count(r.log, ClassRequest) == Count(b.log, ClassRequest) + (if b.stage == Idle then 1 else 0)
      && Count(r.log, AutoSpawn) == Count(b.log, AutoSpawn) + (if b.stage == Ready then 1 else 0)
  {
    var issued := IssueConnect(DeliverAll(b, queue));
    DeliveryKeeps(b, queue);
    DeliverCounts(b, queue, ClassRequest);
    DeliverCounts(b, queue, AutoSpawn);
    FsmStep(issued, t);
    PumpLeaves(SpawnFsm(issued, t), t, ped);
  }

  lemma FsmIs(d: Bridge, t: nat)
    requires d.connected && d.gameInited && !d.spawned && !d.dialog
    ensures SpawnFsm(d, t) ==
      match d.stage
      case Idle =>
        d.(spawnInfo := false, stage := WaitingClass, stageMs := GetTickCount(t), log := d.log + [ClassRequested(t)])
      case WaitingClass =>
        if d.spawnInfo then d.(stage := Ready)
        else if Minus32(GetTickCount(t), d.stageMs) > 3000 then d.(stage := Idle)
        else d
      case Ready => d.(spectating := false, spawned := true, stage := Done, log := d.log + [Spawned(true)])
      case Done => d
  {
  }

  lemma FsmStep(d: Bridge, t: nat)
    requires d.connected && d.gameInited && !d.spawned && !d.dialog
    ensures var f := SpawnFsm(d, t);
      && f.dialog == d.dialog && f.spawned == (d.stage == Ready) && f.spectating == (d.spectating && d.stage != Ready)
      && f.spawnInfo == (d.spawnInfo && d.stage != Idle)
      && f.stageMs == (if d.stage == Idle then GetTickCount(t) else d.stageMs)
      && f.stage == (match d.stage
                     case Idle => WaitingClass
                     case WaitingClass =>
                       if d.spawnInfo then Ready
                       else if Minus32(GetTickCount(t), d.stageMs) > 3000 then Idle else WaitingClass
                     case _ => Done)
      && Count(f.log, ClassRequest) == Count(d.log, ClassRequest) + (if d.stage == Idle then 1 else 0)
      && Count(f.log, AutoSpawn) == Count(d.log, AutoSpawn) + (if d.stage == Ready then 1 else 0)
  {
    FsmIs(d, t);
    match d.stage {
      case Idle =>
        CountOne(d.log, ClassRequested(t), ClassRequest);
        CountOne(d.log, ClassRequested(t), AutoSpawn);
      case Ready =>
        CountOne(d.log, Spawned(true), ClassRequest);
        CountOne(d.log, Spawned(true), AutoSpawn);
      case _ =>
    }
  }

  /** Leaving spectator mode, in any reachable state: the client that spectates unspawned is
      spawned by the frame that carries the toggle, once, and not by the FSM. */
  lemma {:induction false} SpectatorSpawns(boot: u32, start: nat, past: seq<Event>, t: nat, ped: Ped)
    requires LegalRun(Initial(boot), start, past) && Clock(start, past) <= t
    requires var c := Run(Initial(boot), past);
      c.state == Connected && c.bridge.spectating && !c.bridge.spawned
    ensures var c, frame := Run(Initial(boot), past), Frame(t, [ToggleSpectating(false)], ped);
      var r := Step(c, frame).bridge;
      && LegalStep(c, Clock(start, past), frame)
      && r.spawned && !r.spectating && r.stage == c.bridge.stage
      && Count(r.log, AnySpawn) == Count(c.bridge.log, AnySpawn) + 1
      && Count(r.log, AutoSpawn) == Count(c.bridge.log, AutoSpawn)
  {
    var c, queue := Run(Initial(boot), past), [ToggleSpectating(false)];
    RunKeeps(boot, start, past);
    Later(c.bridge, Clock(start, past), t);
    OneEvent(c.bridge, ToggleSpectating(false));
    ToggleIs(c.bridge, false);
    SpawnedFrame(c, t, queue, ped);
    CountOne(c.bridge.log, Spawned(false), AnySpawn);
    CountOne(c.bridge.log, Spawned(false), AutoSpawn);
  }

  /** In a frame whose deliveries leave the client spawned nothing else spawns it. */
  lemma {:induction false} SpawnedFrame(c: Client, t: nat, queue: seq<NetEvent>, ped: Ped)
    requires Inv(c, t) && c.state == Connected && AllDeliverable(c.bridge, queue) && DeliverAll(c.bridge, queue).spawned
    ensures var d, r := DeliverAll(c.bridge, queue), Tick(c, t, queue, ped).bridge;
      && r.spawned && r.spectating == d.spectating && r.stage == c.bridge.stage
      && Count(r.log, AnySpawn) == Count(d.log, AnySpawn) && Count(r.log, AutoSpawn) == Count(d.log, AutoSpawn)
  {
    var d := DeliverAll(c.bridge, queue);
    ConnectedTick(c, t, queue, ped);
    assert SpawnFsm(d, t) == d;
    PumpLeaves(d, t, ped);
    PumpSpawns(d, t, ped);
  }

  lemma PumpSpawns(b: Bridge, t: nat, ped: Ped)
    ensures Count(SyncPump(b, t, ped).log, AnySpawn) == Count(b.log, AnySpawn)
  {
    var added := PumpLog(b, t, ped);
    CountAdded(b.log, added, t, ped.driving, AnySpawn);
  }

  // ---------------------------------------------------------------- a frame of the pump

  /** The outer gate opens: the client is in the game, spawned and not spectating once the
      FSM has run, and 50 ms have passed. */
  ghost predicate Pumps(b: Bridge, r: Bridge, t: nat) {
    r.connected && r.gameInited && r.spawned && !r.spectating && Minus32(GetTickCount(t), b.lastSync) >= 50
  }

  ghost predicate SendsInCar(b: Bridge, r: Bridge, t: nat, ped: Ped) {
    Pumps(b, r, t) && ped.driving && ped.hasVehicle &&
    (b.lastInCar == 0 || b.lastInCar < Minus32(GetTickCount(t), 40))
  }

  ghost predicate SendsOnFoot(b: Bridge, r: Bridge, t: nat, ped: Ped) {
    Pumps(b, r, t) && !ped.driving && b.lastOnFoot != 0 && b.lastOnFoot < Minus32(GetTickCount(t), 50)
  }

  /** A frame sends a packet of one kind exactly under these conditions, on the state before
      it (b) and after it (r); a packet and an open gate take their stamps and nothing else does. */
  lemma {:induction false} FrameSendsExactly(b: Bridge, t: nat, queue: seq<NetEvent>, ped: Ped)
    requires b.initialized
    ensures var r := BridgeTick(b, t, queue, ped);
      && Count(r.log, Packet(true)) == Count(b.log, Packet(true)) + (if SendsInCar(b, r, t, ped) then 1 else 0)
      && Count(r.log, Packet(false)) == Count(b.log, Packet(false)) + (if SendsOnFoot(b, r, t, ped) then 1 else 0)
      && r.lastSync == (if Pumps(b, r, t) then GetTickCount(t) else b.lastSync)
      && r.lastInCar == (if SendsInCar(b, r, t, ped) then GetTickCount(t) else b.lastInCar)
      && r.lastOnFoot == (if SendsOnFoot(b, r, t, ped) then GetTickCount(t) else b.lastOnFoot)
  {
    var issued := IssueConnect(DeliverAll(b, queue));
    var f := SpawnFsm(issued, t);
    DeliveryKeeps(b, queue);
    FsmStamps(issued, t);
    DeliverCounts(b, queue, Packet(true));
    DeliverCounts(b, queue, Packet(false));
    FsmSendsNothing(issued, t, true);
    FsmSendsNothing(issued, t, false);
    PumpSends(f, t, ped, true);
    PumpSends(f, t, ped, false);
    PumpLeaves(f, t, ped);
  }

  lemma FsmStamps(b: Bridge, t: nat)
    ensures var f := SpawnFsm(b, t);
      f.lastSync == b.lastSync && f.lastOnFoot == b.lastOnFoot && f.lastInCar == b.lastInCar
  {
  }

  lemma FsmSendsNothing(b: Bridge, t: nat, inCar: bool)
    ensures Count(SpawnFsm(b, t).log, Packet(inCar)) == Count(b.log, Packet(inCar))
  {
    match b.stage {
      case Idle => CountOne(b.log, ClassRequested(t), Packet(inCar));
      case WaitingClass =>
      case Ready => CountOne(b.log, Spawned(true), Packet(inCar));
      case Done =>
    }
  }

  predicate PumpOpens(f: Bridge, t: nat) {
    f.connected && f.gameInited && f.spawned && !f.spectating && Minus32(GetTickCount(t), f.lastSync) >= 50
  }

  lemma PumpShut(f: Bridge, t: nat, ped: Ped)
    requires !PumpOpens(f, t)
    ensures SyncPump(f, t, ped) == f
  {
  }

  lemma PumpInCar(f: Bridge, t: nat, ped: Ped)
    requires PumpOpens(f, t) && ped.driving
    ensures var r, now, pumped := SyncPump(f, t, ped), GetTickCount(t), f.log + [Pumped(t)];
      if ped.hasVehicle && (f.lastInCar == 0 || f.lastInCar < Minus32(now, 40))
      then r == f.(lastSync := now, lastInCar := now, log := pumped + [BodySync(t, true)])
      else r == f.(lastSync := now, log := pumped)
  {
  }

  lemma PumpOnFoot(f: Bridge, t: nat, ped: Ped)
    requires PumpOpens(f, t) && !ped.driving
    ensures var r, now, pumped := SyncPump(f, t, ped), GetTickCount(t), f.log + [Pumped(t)];
      if f.lastOnFoot != 0 && f.lastOnFoot < Minus32(now, 50)
      then r == f.(lastSync := now, lastOnFoot := now, log := pumped + [BodySync(t, false)])
      else r == f.(lastSync := now, log := pumped)
  {
  }

  lemma PumpLogCounts(log: seq<Obs>, t: nat, kind: Kind)
    ensures Count(log + [Pumped(t)], kind) == Count(log, kind)
    ensures Count(log + [Pumped(t)] + [BodySync(t, true)], kind) == Count(log, kind) + if kind == Packet(true) then 1 else 0
    ensures Count(log + [Pumped(t)] + [BodySync(t, false)], kind) == Count(log, kind) + if kind == Packet(false) then 1 else 0
  {
    CountOne(log, Pumped(t), kind);
    CountOne(log + [Pumped(t)], BodySync(t, true), kind);
    CountOne(log + [Pumped(t)], BodySync(t, false), kind);
  }

  /** The pump took f to r: packets of one kind and the stamps. */
  ghost predicate PumpResult(f: Bridge, r: Bridge, t: nat, ped: Ped, inCar: bool) {
    var sends := if inCar then SendsInCar(f, r, t, ped) else SendsOnFoot(f, r, t, ped);
    && Count(r.log, Packet(inCar)) == Count(f.log, Packet(inCar)) + (if sends then 1 else 0)
    && r.lastSync == (if Pumps(f, r, t) then GetTickCount(t) else f.lastSync)
    && (if inCar then r.lastInCar == (if sends then GetTickCount(t) else f.lastInCar)
        else r.lastOnFoot == (if sends then GetTickCount(t) else f.lastOnFoot))
  }

  lemma DrivingResult(f: Bridge, t: nat, ped: Ped, inCar: bool)
    requires PumpOpens(f, t) && ped.driving
    ensures PumpResult(f, SyncPump(f, t, ped), t, ped, inCar)
  {
    PumpLogCounts(f.log, t, Packet(inCar));
    PumpInCar(f, t, ped);
  }

  lemma WalkingResult(f: Bridge, t: nat, ped: Ped, inCar: bool)
    requires PumpOpens(f, t) && !ped.driving
    ensures PumpResult(f, SyncPump(f, t, ped), t, ped, inCar)
  {
    PumpLogCounts(f.log, t, Packet(inCar));
    PumpOnFoot(f, t, ped);
  }

  lemma PumpSends(f: Bridge, t: nat, ped: Ped, inCar: bool)
    ensures PumpResult(f, SyncPump(f, t, ped), t, ped, inCar)
  {
    if !PumpOpens(f, t) {
      PumpShut(f, t, ped);
    } else if ped.driving {
      DrivingResult(f, t, ped, inCar);
    } else {
      WalkingResult(f, t, ped, inCar);
    }
  }
}
