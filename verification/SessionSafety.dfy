/** What holds in every reachable state and over every run of the connection layer. */
module SessionSafety {
  import opened Machine
  import opened Protocol
  import Options
  import opened Session

  // ---------------------------------------------------------------- the log, summarised

  /** What the log says so far; the last six fields restart with every session. */
  datatype Summary = Summary(
    state: NetState, since: nat,
    pumped: Options.Option<nat>, synced: Options.Option<nat>, onFoot: Options.Option<nat>,
    request: Options.Option<nat>, replied: bool, autos: nat, spawns: nat, restarts: nat)

  function Start(): Summary {
    Summary(None, 0, Options.None, Options.None, Options.None, Options.None, false, 0, 0, 0)
  }

  function Note(m: Summary, o: Obs): Summary {
    match o
    case Opened => m.(request := Options.None, replied := false, autos := 0, spawns := 0, restarts := 0)
    case Entered(s, t) => m.(state := s, since := t)
    case TimedOut(_) => m
    case ClassRequested(t) => m.(request := Options.Some(t), replied := false)
    case ClassReplied(positive) => m.(replied := m.replied || positive)
    case Restarted => m.(restarts := m.restarts + 1)
    case Spawned(auto) => m.(spawns := m.spawns + 1, autos := m.autos + if auto then 1 else 0)
    case Pumped(t) => m.(pumped := Options.Some(t))
    case BodySync(t, inCar) => m.(synced := Options.Some(t), onFoot := if inCar then m.onFoot else Options.Some(t))
  }

  function Summarise(log: seq<Obs>): Summary {
    if log == [] then Start() else Note(Summarise(log[..|log| - 1]), log[|log| - 1])
  }

  ghost predicate After(since: Options.Option<nat>, t: nat, gap: nat) {
    since.Some? ==> since.value + gap <= t
  }

  /** What may be recorded next, after a log summarised by `m`. */
  ghost predicate Allowed(m: Summary, o: Obs) {
    match o
    case TimedOut(t) => m.state == AwaitJoin && m.since + AWAIT_JOIN_TIMEOUT_MS < t
    case ClassRequested(t) => After(m.request, t, CLASS_REPLY_TIMEOUT_MS + 1) && m.autos == 0
    case Spawned(auto) =>
      m.spawns <= m.restarts && (auto ==> m.state == Connected && m.replied && m.request.Some? && m.autos == 0)
    case Pumped(t) => After(m.pumped, t, BODY_SYNC_MS)
    case BodySync(t, inCar) =>
      m.pumped == Options.Some(t) && After(m.synced, t, BODY_SYNC_MS) &&
      (!inCar && m.onFoot.Some? ==> OnFootGate(GetTickCount(m.onFoot.value), GetTickCount(t)))
    case _ => true
  }

  ghost predicate Safe(log: seq<Obs>) {
    log == [] || (Safe(log[..|log| - 1]) && Allowed(Summarise(log[..|log| - 1]), log[|log| - 1]))
  }

  lemma Record(log: seq<Obs>, o: Obs)
    requires Safe(log) && Allowed(Summarise(log), o)
    ensures Safe(log + [o]) && Summarise(log + [o]) == Note(Summarise(log), o)
  {
    assert (log + [o])[..|log|] == log;
  }

  /** Every entry was allowed by what came before it. */
  lemma {:induction false} SafeAt(log: seq<Obs>, i: nat)
    requires Safe(log) && i < |log|
    ensures Safe(log[..i]) && Allowed(Summarise(log[..i]), log[i])
  {
    var n := |log| - 1;
    if i < n {
      SafeAt(log[..n], i);
      assert log[..n][..i] == log[..i];
    }
  }

  // ---------------------------------------------------------------- invariant of the bridge

  /** The flags are ordered: nothing holds before the step of the handshake it needs. */
  ghost predicate Ordered(b: Bridge) {
    && -1 <= b.playerId < MAX_PLAYERS
    && (b.connected ==> b.connectIssued && b.playerId >= 0)
    && (b.connectIssued ==> b.connectionRequested)
    && (b.gameInited ==> b.connected)
    && (b.spawned ==> b.connected)
    && (b.stage != Idle ==> b.gameInited)
    && (b.spawnInfo ==> b.connected)
    && (!b.connectIssued ==> b.playerId == -1)
  }

  /** The last request of the session, where the stage remembers its 32-bit time. */
  ghost predicate RequestKnown(b: Bridge, m: Summary, clock: nat) {
    match b.stage
    case Idle => After(m.request, clock, CLASS_REPLY_TIMEOUT_MS + 1)
    case WaitingClass =>
      m.request.Some? && m.request.value <= clock && GetTickCount(m.request.value) == b.stageMs && (b.spawnInfo ==> m.replied)
    case Ready => m.request.Some? && m.replied
    case Done => true
  }

  ghost predicate StampKnown(since: Options.Option<nat>, stamp: u32, clock: nat) {
    since.Some? ==> since.value <= clock && GetTickCount(since.value) == stamp
  }

  ghost predicate BridgeInv(b: Bridge, clock: nat) {
    var m := Summarise(b.log);
    && Safe(b.log) && Ordered(b)
    && (b.connectionRequested ==> RequestKnown(b, m, clock))
    && (b.connectionRequested && b.stage != Done ==> m.autos == 0)
    && (b.connectionRequested ==> m.spawns <= m.restarts + if b.spawned then 1 else 0)
    && StampKnown(m.pumped, b.lastSync, clock)
    && StampKnown(m.onFoot, b.lastOnFoot, clock)
    && (m.synced.Some? ==> m.pumped.Some? && m.synced.value <= m.pumped.value)
  }

  /** Nothing requested, connected or joined, and the spawn FSM at rest. */
  ghost predicate Quiet(b: Bridge) {
    && !b.connectionRequested && !b.connectIssued && !b.connected && !b.gameInited && !b.spawned
    && b.playerId == -1 && !b.spawnInfo && b.stage == Idle
  }

  /** How the two state machines are coupled between calls. */
  ghost predicate Coupled(c: Client) {
    var b := c.bridge;
    && c.initialized == b.initialized
    && (c.state == None || c.state == Disconnected ==> Quiet(b))
    && (c.state == Connecting ==> c.initialized && b.connectionRequested && !b.connected)
    && (c.state == AwaitJoin ==> c.initialized && b.connected && (b.stage == Idle || b.stage == WaitingClass))
    && (c.state == Connected ==> c.initialized && b.connected && b.gameInited)
    && c.state != Restarting
  }

  ghost predicate Inv(c: Client, clock: nat) {
    var m := Summarise(c.bridge.log);
    && BridgeInv(c.bridge, clock) && Coupled(c)
    && m.state == c.state
    && (c.state == AwaitJoin ==> m.since <= clock && GetTickCount(m.since) == c.enterMs)
  }

  lemma Later(b: Bridge, clock: nat, t: nat)
    requires BridgeInv(b, clock) && clock <= t
    ensures BridgeInv(b, t)
  {
  }

  // ---------------------------------------------------------------- the bridge keeps it

  /** Nothing in a frame of the bridge ends the session or moves CNetGame. */
  ghost predicate SameSession(b: Bridge, b': Bridge) {
    && b'.initialized == b.initialized && b'.connectionRequested == b.connectionRequested
    && (b.connected ==> b'.connected) && (b.gameInited ==> b'.gameInited)
    && Summarise(b'.log).state == Summarise(b.log).state && Summarise(b'.log).since == Summarise(b.log).since
  }

  lemma ToggleKeeps(b: Bridge, on: bool, t: nat)
    requires BridgeInv(b, t) && b.connected
    ensures BridgeInv(Deliver(b, ToggleSpectating(on)), t)
    ensures Deliver(b, ToggleSpectating(on)).stage == b.stage && SameSession(b, Deliver(b, ToggleSpectating(on)))
  {
    if b.spectating && !on && !b.spawned {
      Record(b.log, Spawned(false));
    }
  }

  lemma RestartKeeps(b: Bridge, t: nat)
    requires BridgeInv(b, t) && b.connected
    ensures BridgeInv(Deliver(b, GameModeRestart), t) && SameSession(b, Deliver(b, GameModeRestart))
  {
    Record(b.log, Restarted);
  }

  lemma ReplyKeeps(b: Bridge, outcome: u8, t: nat)
    requires BridgeInv(b, t) && b.connected
    ensures BridgeInv(Deliver(b, ClassReply(outcome)), t) && SameSession(b, Deliver(b, ClassReply(outcome)))
  {
    Record(b.log, ClassReplied(outcome != 0));
  }

  lemma DeliverKeeps(b: Bridge, e: NetEvent, t: nat)
    requires BridgeInv(b, t) && Deliverable(b, e)
    ensures BridgeInv(Deliver(b, e), t)
    ensures Deliver(b, e).stage == b.stage && SameSession(b, Deliver(b, e))
  {
    match e {
      case ClassReply(outcome) => ReplyKeeps(b, outcome, t);
      case GameModeRestart => RestartKeeps(b, t);
      case ToggleSpectating(on) => ToggleKeeps(b, on, t);
      case _ =>
    }
  }

  lemma {:induction false} DeliverAllKeeps(b: Bridge, events: seq<NetEvent>, t: nat)
    requires BridgeInv(b, t) && AllDeliverable(b, events)
    ensures BridgeInv(DeliverAll(b, events), t)
    ensures DeliverAll(b, events).stage == b.stage && SameSession(b, DeliverAll(b, events))
  {
    if events != [] {
      var n := |events| - 1;
      DeliverAllKeeps(b, events[..n], t);
      DeliverKeeps(DeliverAll(b, events[..n]), events[n], t);
    }
  }

  /** A wrapping difference is the true one modulo 2^32, and never exceeds it. */
  lemma ElapsedAtMost(since: nat, now: nat)
    requires since <= now
    ensures Minus32(GetTickCount(now), GetTickCount(since)) == (now - since) % B32 <= now - since
  {
    var d := now - since;
    assert now == B32 * (now / B32) + now % B32 && since == B32 * (since / B32) + since % B32;
    var k := now / B32 - since / B32;
    assert now % B32 as int - since % B32 as int == d - B32 * k;
    assert (d - B32 * k) % B32 == d % B32;
  }

  lemma SpawnFsmKeeps(b: Bridge, t: nat)
    requires BridgeInv(b, t)
    requires b.stage == Ready ==> Summarise(b.log).state == Connected
    ensures BridgeInv(SpawnFsm(b, t), t)
    ensures SameSession(b, SpawnFsm(b, t))
  {
    if b.connected && b.gameInited && !b.spawned && !b.dialog {
      match b.stage {
        case Idle => Record(b.log, ClassRequested(t));
        case WaitingClass => ElapsedAtMost(Summarise(b.log).request.value, t);
        case Ready => Record(b.log, Spawned(true));
        case Done =>
      }
    }
  }

  lemma PumpedKeeps(b: Bridge, t: nat)
    requires BridgeInv(b, t) && Minus32(GetTickCount(t), b.lastSync) >= BODY_SYNC_MS
    ensures var p := b.(lastSync := GetTickCount(t), log := b.log + [Pumped(t)]);
      BridgeInv(p, t) && SameSession(b, p) &&
      Summarise(p.log).pumped == Options.Some(t) && After(Summarise(p.log).synced, t, BODY_SYNC_MS)
  {
    var m := Summarise(b.log);
    if m.pumped.Some? {
      ElapsedAtMost(m.pumped.value, t);
    }
    Record(b.log, Pumped(t));
  }

  lemma SentKeeps(p: Bridge, t: nat, inCar: bool)
    requires BridgeInv(p, t)
    requires Summarise(p.log).pumped == Options.Some(t) && After(Summarise(p.log).synced, t, BODY_SYNC_MS)
    requires !inCar ==> OnFootGate(p.lastOnFoot, GetTickCount(t))
    ensures var q := p.(log := p.log + [BodySync(t, inCar)]);
      var q' := if inCar then q.(lastInCar := GetTickCount(t)) else q.(lastOnFoot := GetTickCount(t));
      BridgeInv(q', t) && SameSession(p, q')
  {
    Record(p.log, BodySync(t, inCar));
  }

  /** The pump does nothing, takes its stamp, or takes its stamp and sends. */
  lemma PumpCases(b: Bridge, t: nat, ped: Ped)
    ensures var p := b.(lastSync := GetTickCount(t), log := b.log + [Pumped(t)]);
      var q := p.(log := p.log + [BodySync(t, ped.driving)]);
      var r := SyncPump(b, t, ped);
      || r == b
      || (Minus32(GetTickCount(t), b.lastSync) >= BODY_SYNC_MS && r == p)
      || (Minus32(GetTickCount(t), b.lastSync) >= BODY_SYNC_MS && ped.driving && r == q.(lastInCar := GetTickCount(t)))
      || (Minus32(GetTickCount(t), b.lastSync) >= BODY_SYNC_MS && !ped.driving && OnFootGate(b.lastOnFoot, GetTickCount(t)) &&
          r == q.(lastOnFoot := GetTickCount(t)))
  {
  }

  lemma SyncPumpKeeps(b: Bridge, t: nat, ped: Ped)
    requires BridgeInv(b, t)
    ensures BridgeInv(SyncPump(b, t, ped), t)
    ensures SameSession(b, SyncPump(b, t, ped)) && SyncPump(b, t, ped).stage == b.stage
  {
    PumpCases(b, t, ped);
    if SyncPump(b, t, ped) != b {
      PumpedKeeps(b, t);
      if SyncPump(b, t, ped).log != b.log + [Pumped(t)] {
        SentKeeps(b.(lastSync := GetTickCount(t), log := b.log + [Pumped(t)]), t, ped.driving);
      }
    }
  }

  lemma BridgeTickKeeps(b: Bridge, t: nat, events: seq<NetEvent>, ped: Ped)
    requires BridgeInv(b, t) && AllDeliverable(b, events)
    requires b.stage == Ready ==> Summarise(b.log).state == Connected
    ensures BridgeInv(BridgeTick(b, t, events, ped), t)
    ensures var b' := BridgeTick(b, t, events, ped);
      SameSession(b, b') && (b.stage == Idle ==> b'.stage == Idle || b'.stage == WaitingClass)
  {
    if b.initialized {
      DeliverAllKeeps(b, events, t);
      SpawnFsmKeeps(IssueConnect(DeliverAll(b, events)), t);
      SyncPumpKeeps(SpawnFsm(IssueConnect(DeliverAll(b, events)), t), t, ped);
    }
  }

  /** With nothing requested nothing can be delivered, and a frame changes nothing. */
  lemma QuietTick(b: Bridge, t: nat, events: seq<NetEvent>, ped: Ped)
    requires Quiet(b) && AllDeliverable(b, events)
    ensures BridgeTick(b, t, events, ped) == b
  {
    QuietDelivery(b, events);
  }

  lemma {:induction false} QuietDelivery(b: Bridge, events: seq<NetEvent>)
    requires Quiet(b) && AllDeliverable(b, events)
    ensures events == []
  {
    if events != [] {
      QuietDelivery(b, events[..|events| - 1]);
    }
  }

  // ---------------------------------------------------------------- the client keeps it

  lemma TransitionKeeps(c: Client, s: NetState, t: nat)
    requires BridgeInv(c.bridge, t) && Summarise(c.bridge.log).state == c.state
    ensures var d := Transition(c, s, t);
      BridgeInv(d.bridge, t) && Summarise(d.bridge.log).state == d.state == s &&
      d.initialized == c.initialized && d.bridge == c.bridge.(log := d.bridge.log) &&
      (s != c.state ==> Summarise(d.bridge.log).since == t && d.enterMs == GetTickCount(t)) &&
      (s == c.state ==> d == c)
  {
    if s != c.state {
      Record(c.bridge.log, Entered(s, t));
    }
  }

  lemma BridgeDisconnectKeeps(b: Bridge, t: nat)
    requires BridgeInv(b, t) && b.initialized
    ensures BridgeInv(BridgeDisconnect(b), t) && Quiet(BridgeDisconnect(b))
  {
  }

  lemma BridgeConnectKeeps(b: Bridge, t: nat)
    requires BridgeInv(b, t) && Quiet(b)
    ensures BridgeInv(BridgeConnect(b), t) && Summarise(BridgeConnect(b).log).state == Summarise(b.log).state
  {
    Record(b.log, Opened);
  }

  lemma EndKeeps(c: Client, t: nat)
    requires BridgeInv(c.bridge, t) && Summarise(c.bridge.log).state == c.state
    requires c.initialized && c.bridge.initialized && c.state != None && c.state != Disconnected
    ensures Inv(Disconnect(c, t), t) && Disconnect(c, t).state == Disconnected
  {
    BridgeDisconnectKeeps(c.bridge, t);
    TransitionKeeps(c.(bridge := BridgeDisconnect(c.bridge)), Disconnected, t);
  }

  lemma DisconnectKeeps(c: Client, t: nat)
    requires Inv(c, t)
    ensures Inv(Disconnect(c, t), t)
    ensures Disconnect(c, t).state == None || Disconnect(c, t).state == Disconnected
  {
    if c.state != None && c.state != Disconnected {
      EndKeeps(c, t);
    }
  }

  lemma InitializeKeeps(c: Client, t: nat, ok: bool)
    requires Inv(c, t)
    ensures Inv(Initialize(c, t, ok), t)
  {
    if !c.initialized && (c.bridge.initialized || ok) {
      Record(c.bridge.log, Entered(None, t));
    }
  }

  lemma ConnectKeeps(c: Client, t: nat, ok: bool)
    requires Inv(c, t)
    ensures Inv(Connect(c, t, ok), t)
  {
    InitializeKeeps(c, t, ok);
    var c0 := if !c.initialized then Initialize(c, t, ok) else c;
    if c0.initialized {
      var b := if c0.state == Connecting || c0.state == AwaitJoin || c0.state == Connected
               then BridgeDisconnect(c0.bridge) else c0.bridge;
      if c0.state != None && c0.state != Disconnected {
        BridgeDisconnectKeeps(c0.bridge, t);
      }
      BridgeConnectKeeps(b, t);
      TransitionKeeps(c0.(bridge := BridgeConnect(b)), Connecting, t);
    }
  }

  lemma TimedOutKeeps(b: Bridge, enterMs: u32, t: nat)
    requires BridgeInv(b, t) && Summarise(b.log).state == AwaitJoin
    requires Summarise(b.log).since <= t && GetTickCount(Summarise(b.log).since) == enterMs
    requires Minus32(GetTickCount(t), enterMs) > AWAIT_JOIN_TIMEOUT_MS
    ensures var b' := b.(log := b.log + [TimedOut(t)]);
      BridgeInv(b', t) && SameSession(b, b')
  {
    ElapsedAtMost(Summarise(b.log).since, t);
    Record(b.log, TimedOut(t));
  }

  lemma AwaitJoinKeeps(d: Client, t: nat)
    requires BridgeInv(d.bridge, t) && Summarise(d.bridge.log).state == d.state == AwaitJoin
    requires d.initialized && d.bridge.initialized && d.bridge.connected
    requires d.bridge.stage == Idle || d.bridge.gameInited
    requires Summarise(d.bridge.log).since <= t && GetTickCount(Summarise(d.bridge.log).since) == d.enterMs
    ensures Inv(TickAwaitJoin(d, t), t)
  {
    if d.bridge.gameInited {
      TransitionKeeps(d, Connected, t);
    } else if Minus32(GetTickCount(t), d.enterMs) > AWAIT_JOIN_TIMEOUT_MS {
      TimedOutKeeps(d.bridge, d.enterMs, t);
      EndKeeps(d.(bridge := d.bridge.(log := d.bridge.log + [TimedOut(t)])), t);
    }
  }

  lemma ConnectingKeeps(d: Client, t: nat)
    requires BridgeInv(d.bridge, t) && Summarise(d.bridge.log).state == d.state == Connecting
    requires d.initialized && d.bridge.initialized && d.bridge.connectionRequested
    requires d.bridge.stage == Idle || d.bridge.stage == WaitingClass
    ensures Inv(if d.bridge.connected then Transition(d, AwaitJoin, t) else d, t)
  {
    TransitionKeeps(d, AwaitJoin, t);
  }

  /** The coupling as it stands after the bridge has ticked and before CNetGame looks. */
  ghost predicate MidFrame(d: Client, t: nat) {
    var b, m := d.bridge, Summarise(d.bridge.log);
    && BridgeInv(b, t) && m.state == d.state && d.initialized && b.initialized
    && (d.state == None || d.state == Disconnected ==> Quiet(b))
    && (d.state == Connecting ==> b.connectionRequested && (b.stage == Idle || b.stage == WaitingClass))
    && (d.state == AwaitJoin ==> b.connected && (b.stage == Idle || b.gameInited) &&
                                 m.since <= t && GetTickCount(m.since) == d.enterMs)
    && (d.state == Connected ==> b.connected && b.gameInited)
    && d.state != Restarting
  }

  lemma TickStateKeeps(d: Client, t: nat)
    requires MidFrame(d, t)
    ensures Inv(TickState(d, t), t)
    ensures d.state == Connected ==> TickState(d, t).state == Connected
  {
    match d.state {
      case Connecting => ConnectingKeeps(d, t);
      case AwaitJoin => AwaitJoinKeeps(d, t);
      case _ =>
    }
  }

  lemma BridgeTickMidFrame(c: Client, t: nat, events: seq<NetEvent>, ped: Ped)
    requires Inv(c, t) && c.initialized && AllDeliverable(c.bridge, events)
    ensures MidFrame(c.(bridge := BridgeTick(c.bridge, t, events, ped)), t)
  {
    BridgeTickKeeps(c.bridge, t, events, ped);
    if c.state == None || c.state == Disconnected {
      QuietTick(c.bridge, t, events, ped);
    }
  }

  /** No frame takes the client out of Connected: only the user, or a shutdown, does. */
  lemma TickKeeps(c: Client, t: nat, events: seq<NetEvent>, ped: Ped)
    requires Inv(c, t) && (c.initialized ==> AllDeliverable(c.bridge, events))
    ensures Inv(Tick(c, t, events, ped), t)
    ensures c.state == Connected ==> Tick(c, t, events, ped).state == Connected
  {
    if c.initialized {
      BridgeTickMidFrame(c, t, events, ped);
      TickStateKeeps(c.(bridge := BridgeTick(c.bridge, t, events, ped)), t);
    }
  }

  lemma StepKeeps(c: Client, clock: nat, e: Event)
    requires Inv(c, clock) && LegalStep(c, clock, e)
    ensures Inv(Step(c, e), e.t)
  {
    Later(c.bridge, clock, e.t);
    match e {
      case Init(t, ok) => InitializeKeeps(c, t, ok);
      case UserConnect(t, ok) => ConnectKeeps(c, t, ok);
      case UserDisconnect(t) => DisconnectKeeps(c, t);
      case Quit(t) => DisconnectKeeps(c, t);
      case DialogAnswered(_) =>
      case Frame(t, events, ped) => TickKeeps(c, t, events, ped);
    }
  }

  /** Every reachable state, at any boot time and after any legal run, keeps the invariant. */
  lemma {:induction false} RunKeeps(boot: u32, start: nat, events: seq<Event>)
    requires LegalRun(Initial(boot), start, events)
    ensures Inv(Run(Initial(boot), events), Clock(start, events))
  {
    if events != [] {
      var n := |events| - 1;
      RunKeeps(boot, start, events[..n]);
      StepKeeps(Run(Initial(boot), events[..n]), Clock(start, events[..n]), events[n]);
    }
  }
}
