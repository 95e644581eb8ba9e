/** The bridge's globals and CNetGame as the objects they are. Each method does to its fields
    what the step functions of Session say, so that a game played through any legal run keeps
    the invariant of SessionSafety and leaves a log of which SessionTheorems speaks. */
module NetGame {
  import opened Machine
  import S = Session
  import Safety = SessionSafety
  import T = SessionTheorems

  /** Nothing of a session left but the request for it. */
  function Cleared(b: S.Bridge): S.Bridge {
    b.(connected := false, connectIssued := false, gameInited := false, spawned := false)
  }

  class BridgeGlobals {
    var initialized: bool          // s_initialized
    var connectionRequested: bool  // s_connectionRequested
    var connectIssued: bool        // iConnectionRequested
    var connected: bool            // iAreWeConnected
    var gameInited: bool           // iGameInited
    var spawned: bool              // iSpawned
    var playerId: int              // g_myPlayerID
    var spawnInfo: bool            // g_spawnInfoReceived
    var stage: S.SpawnStage        // s_spawnStage
    var stageMs: u32               // s_spawnStageMs
    var spectating: bool           // bIsSpectating
    var dialog: bool               // Dialog::m_active
    var lastSync: u32              // s_lastSyncTick
    var lastOnFoot: u32            // dwLastOnFootDataSentTick
    var lastInCar: u32             // dwLastInVehicleDataSentTick
    ghost var log: seq<S.Obs>

    ghost function View(): S.Bridge
      reads this
    {
      S.Bridge(initialized, connectionRequested, connectIssued, connected, gameInited, spawned, playerId,
               spawnInfo, stage, stageMs, spectating, dialog, lastSync, lastOnFoot, lastInCar, log)
    }

    constructor (boot: u32)
      ensures View() == S.Initial(boot).bridge
    {
      initialized, connectionRequested, connectIssued, connected := false, false, false, false;
      gameInited, spawned, playerId, spawnInfo := false, false, -1, false;
      stage, stageMs, spectating, dialog := S.Idle, 0, false, false;
      lastSync, lastOnFoot, lastInCar := 0, boot, boot;
      log := [];
    }

    method Initialize(factoryOk: bool) returns (ok: bool)
      modifies this
      ensures ok == (old(initialized) || factoryOk)
      ensures View() == old(View()).(initialized := ok)
    {
      if initialized {
        return true;
      }
      if !factoryOk {
        return false;
      }
      initialized := true;
      return true;
    }

    /** The four assignments that Connect, Disconnect and Shutdown have in common. */
    method ClearProgress()
      modifies this`connected, this`connectIssued, this`gameInited, this`spawned
      ensures View() == Cleared(old(View()))
    {
      connected := false;
      connectIssued := false;
      gameInited := false;
      spawned := false;
    }

    method ResetSpawnFsm()
      modifies this`stage, this`spawnInfo
      ensures View() == old(View()).(stage := S.Idle, spawnInfo := false)
    {
      stage := S.Idle;
      spawnInfo := false;
    }

    method ForgetRequest()
      modifies this`connectionRequested, this`playerId
      ensures View() == old(View()).(connectionRequested := false, playerId := -1)
    {
      connectionRequested := false;
      playerId := -1;
    }

    method Shutdown()
      modifies this
      ensures View() == S.BridgeShutdown(old(View()))
    {
      if !initialized {
        return;
      }
      ClearProgress();
      ForgetRequest();
      initialized := false;
    }

    method Connect(factoryOk: bool) returns (ok: bool)
      modifies this
      ensures ok == (old(initialized) || factoryOk)
      ensures View() == if ok then S.BridgeConnect(old(View()).(initialized := true)) else old(View())
    {
      if !initialized {
        ok := Initialize(factoryOk);
        if !ok {
          return false;
        }
      }
      connectionRequested := true;
      ClearProgress();
      log := log + [S.Opened];
      return true;
    }

    method Disconnect()
      modifies this
      ensures View() == S.BridgeDisconnect(old(View()))
    {
      if !initialized {
        return;
      }
      ClearProgress();
      ForgetRequest();
      ResetSpawnFsm();
      dialog := false;
    }

    method SampSpawn(auto: bool)
      modifies this`spectating, this`log
      ensures View() == S.SampSpawn(old(View()), auto)
    {
      spectating := false;
      log := log + [S.Spawned(auto)];
    }

    method PacketConnectionSucceeded(id: u16)
      modifies this`playerId, this`connected
      ensures View() == S.Deliver(old(View()), S.Accepted(id))
    {
      playerId := id;
      connected := true;
    }

    method InitGame(complete: bool, id: u16)
      modifies this`playerId, this`gameInited
      ensures View() == S.Deliver(old(View()), S.InitGame(complete, id))
    {
      if !complete {
        return;
      }
      playerId := id;
      gameInited := true;
    }

    method RequestClass(outcome: u8)
      modifies this`spawnInfo, this`log
      ensures View() == S.Deliver(old(View()), S.ClassReply(outcome))
    {
      log := log + [S.ClassReplied(outcome != 0)];
      if outcome != 0 {
        spawnInfo := true;
      }
    }

    method GameModeRestart()
      modifies this`spawned, this`spawnInfo, this`log
      ensures View() == S.Deliver(old(View()), S.GameModeRestart)
    {
      spawned := false;
      spawnInfo := false;
      log := log + [S.Restarted];
    }

    method ScrTogglePlayerSpectating(on: bool)
      modifies this`spectating, this`spawned, this`log
      ensures View() == S.Deliver(old(View()), S.ToggleSpectating(on))
      ensures spectating == on
      ensures if old(spectating) && !on && !old(spawned) then spawned && log == old(log) + [S.Spawned(false)]
              else spawned == old(spawned) && log == old(log)
    {
      if spectating && !on && !spawned {
        SampSpawn(false);
        spawned := true;
      }
      spectating := on;
    }

    method Handle(e: S.NetEvent)
      modifies this
      ensures View() == S.Deliver(old(View()), e)
    {
      match e {
        case Accepted(id) => PacketConnectionSucceeded(id);
        case InitGame(complete, id) => InitGame(complete, id);
        case ClassReply(outcome) => RequestClass(outcome);
        case GameModeRestart => GameModeRestart();
        case ToggleSpectating(on) => ScrTogglePlayerSpectating(on);
        case DialogBox(close) => dialog := !close;
        case ConnectionLost =>
      }
    }

    /** Receives and dispatches until the queue is empty. */
    method UpdateNetwork(events: seq<S.NetEvent>)
      modifies this
      ensures View() == S.DeliverAll(old(View()), events)
    {
      var i := 0;
      while i < |events|
        invariant i <= |events|
        invariant View() == S.DeliverAll(old(View()), events[..i])
      {
        assert events[..i + 1][..i] == events[..i];
        Handle(events[i]);
        i := i + 1;
      }
      assert events[..i] == events;
    }

    method SampRequestClass(t: nat)
      modifies this`log
      ensures View() == old(View()).(log := old(log) + [S.ClassRequested(t)])
    {
      log := log + [S.ClassRequested(t)];
    }

    /** The branches of the spawn FSM. */
    method StepSpawnFsm(t: nat)
      requires connected && gameInited && !spawned && !dialog
      modifies this`spawnInfo, this`log, this`stage, this`stageMs, this`spectating, this`spawned
      ensures View() == S.SpawnFsm(old(View()), t)
    {
      var now := S.GetTickCount(t);
      match stage {
        case Idle =>
          spawnInfo := false;
          SampRequestClass(t);
          stage := S.WaitingClass;
          stageMs := now;
        case WaitingClass =>
          if spawnInfo {
            stage := S.Ready;
          } else if S.Minus32(now, stageMs) > 3000 {
            stage := S.Idle;
          }
        case Ready =>
          SampSpawn(true);
          spawned := true;
          stage := S.Done;
        case Done =>
      }
    }

    method RunSpawnFsm(t: nat)
      modifies this
      ensures View() == S.SpawnFsm(old(View()), t)
    {
      if connected && gameInited && !spawned && !dialog {
        StepSpawnFsm(t);
      }
    }

    method InCarUpdate(t: nat, hasVehicle: bool)
      modifies this`lastInCar, this`log
      ensures View() == if hasVehicle && S.InCarGate(old(lastInCar), S.GetTickCount(t))
              then old(View()).(lastInCar := S.GetTickCount(t), log := old(log) + [S.BodySync(t, true)])
              else old(View())
    {
      if !hasVehicle {
        return;
      }
      if lastInCar != 0 && lastInCar >= S.Minus32(S.GetTickCount(t), 40) {
        return;
      }
      log := log + [S.BodySync(t, true)];
      lastInCar := S.GetTickCount(t);
    }

    method SendOnFootFullSyncData(t: nat)
      modifies this`lastOnFoot, this`log
      ensures View() == if S.OnFootGate(old(lastOnFoot), S.GetTickCount(t))
              then old(View()).(lastOnFoot := S.GetTickCount(t), log := old(log) + [S.BodySync(t, false)])
              else old(View())
    {
      if lastOnFoot != 0 && lastOnFoot < S.Minus32(S.GetTickCount(t), 50) {
        log := log + [S.BodySync(t, false)];
        lastOnFoot := S.GetTickCount(t);
      }
    }

    method PumpBodySync(t: nat, ped: S.Ped)
      modifies this
      ensures View() == S.SyncPump(old(View()), t, ped)
    {
      if connected && gameInited && spawned && !spectating {
        var now := S.GetTickCount(t);
        if S.Minus32(now, lastSync) >= 50 {
          log := log + [S.Pumped(t)];
          if ped.driving {
            InCarUpdate(t, ped.hasVehicle);
          } else {
            SendOnFootFullSyncData(t);
          }
          lastSync := now;
        }
      }
    }

    method Tick(t: nat, events: seq<S.NetEvent>, ped: S.Ped)
      modifies this
      ensures View() == S.BridgeTick(old(View()), t, events, ped)
    {
      if !initialized {
        return;
      }
      UpdateNetwork(events);
      if connectionRequested && !connectIssued {
        connectIssued := true;
      }
      RunSpawnFsm(t);
      PumpBodySync(t, ped);
    }
  }

  class CNetGame {
    var state: S.NetState
    var stateEnterMs: u32
    var initialized: bool
    const bridge: BridgeGlobals

    ghost function View(): S.Client
      reads this, bridge
    {
      S.Client(state, stateEnterMs, initialized, bridge.View())
    }

    /** The invariant of every reachable state, at true time `clock`. */
    ghost predicate Valid(clock: nat)
      reads this, bridge
    {
      Safety.Inv(View(), clock)
    }

    constructor (boot: u32, ghost start: nat)
      ensures View() == S.Initial(boot) && Valid(start)
      ensures state == S.NetState.None && stateEnterMs == 0 && !initialized
      ensures bridge.stage == S.Idle && bridge.stageMs == 0 && !bridge.spectating && !bridge.dialog && bridge.playerId == -1
      ensures bridge.lastSync == 0 && bridge.lastOnFoot == boot && bridge.lastInCar == boot && bridge.log == []
      ensures fresh(bridge)
    {
      state, stateEnterMs, initialized := S.NetState.None, 0, false;
      bridge := new BridgeGlobals(boot);
      new;
      Safety.RunKeeps(boot, start, []);
    }

    method TransitionTo(s: S.NetState, t: nat)
      modifies this, bridge
      ensures View() == S.Transition(old(View()), s, t)
    {
      if s == state {
        return;
      }
      state := s;
      stateEnterMs := S.GetTickCount(t);
      bridge.log := bridge.log + [S.Entered(s, t)];
    }

    method Initialize(t: nat, factoryOk: bool)
      modifies this, bridge
      ensures View() == S.Initialize(old(View()), t, factoryOk)
    {
      if initialized {
        return;
      }
      var ok := bridge.Initialize(factoryOk);
      if !ok {
        return;
      }
      initialized := true;
      state := S.NetState.None;
      stateEnterMs := S.GetTickCount(t);
      bridge.log := bridge.log + [S.Entered(S.NetState.None, t)];
    }

    method Disconnect(t: nat)
      modifies this, bridge
      ensures View() == S.Disconnect(old(View()), t)
    {
      if state == S.NetState.None || state == S.Disconnected {
        return;
      }
      bridge.Disconnect();
      TransitionTo(S.Disconnected, t);
    }

    method Shutdown(t: nat)
      modifies this, bridge
      ensures View() == S.Shutdown(old(View()), t)
    {
      if !initialized {
        return;
      }
      if state != S.NetState.None && state != S.Disconnected {
        Disconnect(t);
      }
      bridge.Shutdown();
      initialized := false;
    }

    method Connect(t: nat, factoryOk: bool)
      modifies this, bridge
      ensures View() == S.Connect(old(View()), t, factoryOk)
    {
      if !initialized {
        Initialize(t, factoryOk);
      }
      if !initialized {
        return;
      }
      if state == S.Connecting || state == S.AwaitJoin || state == S.Connected || state == S.Restarting {
        bridge.Disconnect();
      }
      var ok := bridge.Connect(factoryOk);
      if !ok {
        TransitionTo(S.Disconnected, t);
        return;
      }
      TransitionTo(S.Connecting, t);
    }

    method TickConnecting(t: nat)
      requires state == S.Connecting
      modifies this, bridge
      ensures View() == S.TickState(old(View()), t)
    {
      if bridge.connected {
        TransitionTo(S.AwaitJoin, t);
      }
    }

    method TickAwaitJoin(t: nat)
      requires state == S.AwaitJoin
      modifies this, bridge
      ensures View() == S.TickState(old(View()), t)
    {
      if bridge.gameInited {
        TransitionTo(S.Connected, t);
        return;
      }
      if S.Minus32(S.GetTickCount(t), stateEnterMs) > 20_000 {
        bridge.log := bridge.log + [S.TimedOut(t)];
        Disconnect(t);
      }
    }

    method TickConnected(t: nat)
      requires state == S.Connected
      modifies this, bridge
      ensures View() == S.TickState(old(View()), t)
    {
      if !bridge.connected {
        TransitionTo(S.Disconnected, t);
      }
    }

    method Tick(t: nat, events: seq<S.NetEvent>, ped: S.Ped)
      modifies this, bridge
      ensures View() == S.Tick(old(View()), t, events, ped)
    {
      if !initialized {
        return;
      }
      bridge.Tick(t, events, ped);
      match state {
        case Connecting => TickConnecting(t);
        case AwaitJoin => TickAwaitJoin(t);
        case Connected => TickConnected(t);
        case _ =>
      }
    }

    /** The user answers the dialog, which hides it. */
    method AnswerDialog()
      modifies bridge
      ensures View() == old(View()).(bridge := old(View()).bridge.(dialog := false))
    {
      bridge.dialog := false;
    }

    /** One user action or frame. */
    method Perform(e: S.Event)
      modifies this, bridge
      ensures View() == S.Step(old(View()), e)
    {
      match e {
        case Init(t, ok) => Initialize(t, ok);
        case UserConnect(t, ok) => Connect(t, ok);
        case UserDisconnect(t) => Disconnect(t);
        case Quit(t) => Shutdown(t);
        case DialogAnswered(_) => AnswerDialog();
        case Frame(t, events, ped) => Tick(t, events, ped);
      }
    }

    /** Any legal run: the object ends where the run does, and its invariant holds there. */
    method Play(events: seq<S.Event>, ghost start: nat)
      requires Valid(start) && S.LegalRun(View(), start, events)
      modifies this, bridge
      ensures View() == S.Run(old(View()), events) && Valid(S.Clock(start, events))
    {
      ghost var c := View();
      for i := 0 to |events|
        invariant View() == S.Run(c, events[..i]) && Valid(S.Clock(start, events[..i]))
      {
        LegalPrefix(c, start, events, i);
        NextStep(c, start, events, i);
        Perform(events[i]);
      }
      assert events[..|events|] == events;
    }
  }

  lemma {:induction false} LegalPrefix(c: S.Client, start: nat, events: seq<S.Event>, i: nat)
    requires S.LegalRun(c, start, events) && i < |events|
    ensures S.LegalStep(S.Run(c, events[..i]), S.Clock(start, events[..i]), events[i])
  {
    var n := |events| - 1;
    if i < n {
      LegalPrefix(c, start, events[..n], i);
      assert events[..n][..i] == events[..i];
    }
  }

  lemma NextStep(c: S.Client, start: nat, events: seq<S.Event>, i: nat)
    requires i < |events| && Safety.Inv(S.Run(c, events[..i]), S.Clock(start, events[..i]))
    requires S.LegalStep(S.Run(c, events[..i]), S.Clock(start, events[..i]), events[i])
    ensures S.Run(c, events[..i + 1]) == S.Step(S.Run(c, events[..i]), events[i])
    ensures Safety.Inv(S.Run(c, events[..i + 1]), S.Clock(start, events[..i + 1]))
  {
    assert events[..i + 1][..i] == events[..i];
    Safety.StepKeeps(S.Run(c, events[..i]), S.Clock(start, events[..i]), events[i]);
  }

  /** A game started at tick count `boot` and played through any legal run is in a reachable
      state, and its log is one that every theorem about recorded logs speaks of. */
  method Live(boot: u32, ghost start: nat, events: seq<S.Event>) returns (game: CNetGame)
    requires S.LegalRun(S.Initial(boot), start, events)
    ensures fresh(game) && fresh(game.bridge)
    ensures game.View() == S.Run(S.Initial(boot), events) && game.Valid(S.Clock(start, events))
    ensures T.Recorded(game.bridge.log)
  {
    game := new CNetGame(boot, start);
    game.Play(events, start);
  }
}
