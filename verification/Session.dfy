/** What one call of the connection layer does to the client's state: the CNetGame state
    machine over the bridge's globals, as functions on values. `t` is true time in
    milliseconds since boot; the code only ever sees `GetTickCount(t)`. */
module Session {
  import opened Machine
  import opened Protocol

  const AWAIT_JOIN_TIMEOUT_MS: nat := 20_000
  const CLASS_REPLY_TIMEOUT_MS: nat := 3000
  const BODY_SYNC_MS: nat := 50
  const ONFOOT_SEND_RATE: nat := 50
  const INCAR_SEND_RATE: nat := 40

  function GetTickCount(t: nat): u32 {
    t % B32
  }

  /** Unsigned 32-bit subtraction. */
  function Minus32(a: u32, b: u32): u32 {
    (a - b) % B32
  }

  datatype NetState = None | Connecting | AwaitJoin | Connected | Disconnected | Restarting

  datatype SpawnStage = Idle | WaitingClass | Ready | Done

  /** What the client does and is told, as recorded in the order it happens. */
  datatype Obs =
    | Opened                              // a session was opened by the user
    | Entered(state: NetState, t: nat)    // m_state was assigned
    | TimedOut(t: nat)                    // the join timeout ended the session
    | ClassRequested(t: nat)              // RPC_RequestClass sent
    | ClassReplied(positive: bool)        // its answer arrived
    | Restarted                           // GameModeRestart arrived
    | Spawned(auto: bool)                 // sampSpawn called, by the FSM or on leaving spectator mode
    | Pumped(t: nat)                      // the 20 Hz gate opened
    | BodySync(t: nat, inCar: bool)       // an in-car or on-foot sync packet was sent

  datatype Bridge = Bridge(
    initialized: bool,
    connectionRequested: bool,
    connectIssued: bool,
    connected: bool,
    gameInited: bool,
    spawned: bool,
    playerId: int,
    spawnInfo: bool,
    stage: SpawnStage,
    stageMs: u32,
    spectating: bool,
    dialog: bool,
    lastSync: u32,
    lastOnFoot: u32,
    lastInCar: u32,
    log: seq<Obs>)

  datatype Client = Client(state: NetState, enterMs: u32, initialized: bool, bridge: Bridge)

  /** `lastOnFoot` and `lastInCar` start at the tick count of process start. */
  function Initial(boot: u32): Client {
    Client(None, 0, false,
           Bridge(false, false, false, false, false, false, -1, false, Idle, 0, false, false, 0, boot, boot, []))
  }

  // ---------------------------------------------------------------- server events

  datatype NetEvent =
    | Accepted(id: u16)
    | InitGame(complete: bool, id: u16)
    | ClassReply(outcome: u8)
    | GameModeRestart
    | ToggleSpectating(on: bool)
    | DialogBox(close: bool)
    | ConnectionLost

  /** The delivery assumption on RakNet and the server: an accept only while a connect has
      been issued, remote calls only after the accept, player ids below MAX_PLAYERS. */
  predicate Deliverable(b: Bridge, e: NetEvent) {
    match e
    case Accepted(id) => b.connectIssued && id < MAX_PLAYERS
    case InitGame(_, id) => b.connected && id < MAX_PLAYERS
    case ConnectionLost => b.connectIssued
    case _ => b.connected
  }

  function SampSpawn(b: Bridge, auto: bool): Bridge {
    b.(spectating := false, log := b.log + [Spawned(auto)])
  }

  function Deliver(b: Bridge, e: NetEvent): Bridge {
    match e
    case Accepted(id) => b.(playerId := id, connected := true)
    case InitGame(complete, id) => if complete then b.(playerId := id, gameInited := true) else b
    case ClassReply(outcome) =>
      b.(spawnInfo := b.spawnInfo || outcome != 0, log := b.log + [ClassReplied(outcome != 0)])
    case GameModeRestart => b.(spawned := false, spawnInfo := false, log := b.log + [Restarted])
    case ToggleSpectating(on) =>
      var b' := if b.spectating && !on && !b.spawned then SampSpawn(b, false).(spawned := true) else b;
      b'.(spectating := on)
    case DialogBox(close) => b.(dialog := !close)
    case ConnectionLost => b
  }

  function DeliverAll(b: Bridge, events: seq<NetEvent>): Bridge {
    if events == [] then b
    else Deliver(DeliverAll(b, events[..|events| - 1]), events[|events| - 1])
  }

  predicate AllDeliverable(b: Bridge, events: seq<NetEvent>) {
    events == [] ||
    (AllDeliverable(b, events[..|events| - 1]) &&
     Deliverable(DeliverAll(b, events[..|events| - 1]), events[|events| - 1]))
  }

  // ---------------------------------------------------------------- bridge

  function BridgeConnect(b: Bridge): Bridge {
    Bridge(b.initialized, true, false, false, false, false, b.playerId, b.spawnInfo,
           b.stage, b.stageMs, b.spectating, b.dialog,
           b.lastSync, b.lastOnFoot, b.lastInCar, b.log + [Opened])
  }

  function BridgeDisconnect(b: Bridge): Bridge {
    if !b.initialized then b
    else Bridge(true, false, false, false, false, false, -1, false,
                Idle, b.stageMs, b.spectating, false,
                b.lastSync, b.lastOnFoot, b.lastInCar, b.log)
  }

  /** The stage of the spawn FSM and the class reply are not reset here. */
  function BridgeShutdown(b: Bridge): Bridge {
    if !b.initialized then b
    else Bridge(false, false, false, false, false, false, -1, b.spawnInfo,
                b.stage, b.stageMs, b.spectating, b.dialog,
                b.lastSync, b.lastOnFoot, b.lastInCar, b.log)
  }

  function IssueConnect(b: Bridge): Bridge {
    if b.connectionRequested && !b.connectIssued then b.(connectIssued := true) else b
  }

  function SpawnFsm(b: Bridge, t: nat): Bridge {
    if b.connected && b.gameInited && !b.spawned && !b.dialog then
      match b.stage
      case Idle =>
        b.(spawnInfo := false, stage := WaitingClass, stageMs := GetTickCount(t), log := b.log + [ClassRequested(t)])
      case WaitingClass =>
        if b.spawnInfo then b.(stage := Ready)
        else if Minus32(GetTickCount(t), b.stageMs) > CLASS_REPLY_TIMEOUT_MS then b.(stage := Idle)
        else b
      case Ready => SampSpawn(b, true).(spawned := true, stage := Done)
      case Done => b
    else b
  }

  /** What the pump sees of the local ped this frame: `driving` when it drives a vehicle
      whose network id is known, `hasVehicle` when inCarUpdate finds vehicle and ped. */
  datatype Ped = Ped(driving: bool, hasVehicle: bool)

  /** The senders compare absolute tick counts. */
  predicate OnFootGate(last: u32, now: u32) {
    last != 0 && last < Minus32(now, ONFOOT_SEND_RATE)
  }

  predicate InCarGate(last: u32, now: u32) {
    !(last != 0 && last >= Minus32(now, INCAR_SEND_RATE))
  }

  function SyncPump(b: Bridge, t: nat, ped: Ped): Bridge {
    var now := GetTickCount(t);
    if b.connected && b.gameInited && b.spawned && !b.spectating && Minus32(now, b.lastSync) >= BODY_SYNC_MS then
      var p := b.(lastSync := now, log := b.log + [Pumped(t)]);
      if ped.driving then
        if ped.hasVehicle && InCarGate(b.lastInCar, now)
        then p.(lastInCar := now, log := p.log + [BodySync(t, true)]) else p
      else
        if OnFootGate(b.lastOnFoot, now)
        then p.(lastOnFoot := now, log := p.log + [BodySync(t, false)]) else p
    else b
  }

  function BridgeTick(b: Bridge, t: nat, events: seq<NetEvent>, ped: Ped): Bridge {
    if !b.initialized then b
    else SyncPump(SpawnFsm(IssueConnect(DeliverAll(b, events)), t), t, ped)
  }

  // ---------------------------------------------------------------- CNetGame

  function Transition(c: Client, s: NetState, t: nat): Client {
    if s == c.state then c
    else c.(state := s, enterMs := GetTickCount(t), bridge := c.bridge.(log := c.bridge.log + [Entered(s, t)]))
  }

  function Initialize(c: Client, t: nat, factoryOk: bool): Client {
    if c.initialized || !(c.bridge.initialized || factoryOk) then c
    else c.(initialized := true, state := None, enterMs := GetTickCount(t),
            bridge := c.bridge.(initialized := true, log := c.bridge.log + [Entered(None, t)]))
  }

  function Disconnect(c: Client, t: nat): Client {
    if c.state == None || c.state == Disconnected then c
    else Transition(c.(bridge := BridgeDisconnect(c.bridge)), Disconnected, t)
  }

  function Shutdown(c: Client, t: nat): Client {
    if !c.initialized then c
    else
      var d := if c.state != None && c.state != Disconnected then Disconnect(c, t) else c;
      d.(bridge := BridgeShutdown(d.bridge), initialized := false)
  }

  function Connect(c: Client, t: nat, factoryOk: bool): Client {
    var c0 := if !c.initialized then Initialize(c, t, factoryOk) else c;
    if !c0.initialized then c0
    else
      var b := if c0.state == Connecting || c0.state == AwaitJoin || c0.state == Connected || c0.state == Restarting
               then BridgeDisconnect(c0.bridge) else c0.bridge;
      if !b.initialized && !factoryOk then Transition(c0.(bridge := b), Disconnected, t)
      else Transition(c0.(bridge := BridgeConnect(b.(initialized := true))), Connecting, t)
  }

  function TickAwaitJoin(d: Client, t: nat): Client {
    if d.bridge.gameInited then Transition(d, Connected, t)
    else if Minus32(GetTickCount(t), d.enterMs) > AWAIT_JOIN_TIMEOUT_MS
    then Disconnect(d.(bridge := d.bridge.(log := d.bridge.log + [TimedOut(t)])), t)
    else d
  }

  /** The per-state half of a frame, after the bridge has ticked. */
  function TickState(d: Client, t: nat): Client {
    match d.state
    case Connecting => if d.bridge.connected then Transition(d, AwaitJoin, t) else d
    case AwaitJoin => TickAwaitJoin(d, t)
    case Connected => if !d.bridge.connected then Transition(d, Disconnected, t) else d
    case _ => d
  }

  function Tick(c: Client, t: nat, events: seq<NetEvent>, ped: Ped): Client {
    if !c.initialized then c else TickState(c.(bridge := BridgeTick(c.bridge, t, events, ped)), t)
  }

  // ---------------------------------------------------------------- runs

  datatype Event =
    | Init(t: nat, factoryOk: bool)
    | UserConnect(t: nat, factoryOk: bool)
    | UserDisconnect(t: nat)
    | Quit(t: nat)
    | DialogAnswered(t: nat)
    | Frame(t: nat, events: seq<NetEvent>, ped: Ped)

  function Step(c: Client, e: Event): Client {
    match e
    case Init(t, ok) => Initialize(c, t, ok)
    case UserConnect(t, ok) => Connect(c, t, ok)
    case UserDisconnect(t) => Disconnect(c, t)
    case Quit(t) => Shutdown(c, t)
    case DialogAnswered(_) => c.(bridge := c.bridge.(dialog := false))
    case Frame(t, events, ped) => Tick(c, t, events, ped)
  }

  function Run(c: Client, events: seq<Event>): Client {
    if events == [] then c else Step(Run(c, events[..|events| - 1]), events[|events| - 1])
  }

  function Clock(start: nat, events: seq<Event>): nat {
    if events == [] then start else events[|events| - 1].t
  }

  predicate LegalStep(c: Client, clock: nat, e: Event) {
    clock <= e.t && (e.Frame? && c.initialized ==> AllDeliverable(c.bridge, e.events))
  }

  /** Time does not run backwards and every frame receives only deliverable events. */
  predicate LegalRun(c: Client, start: nat, events: seq<Event>) {
    events == [] ||
    (LegalRun(c, start, events[..|events| - 1]) &&
     LegalStep(Run(c, events[..|events| - 1]), Clock(start, events[..|events| - 1]), events[|events| - 1]))
  }
}
