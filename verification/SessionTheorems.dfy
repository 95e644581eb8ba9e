/** The promises of the connection layer, read off the log of any legal run. */
module SessionTheorems {
  import opened Machine
  import opened Protocol
  import Options
  import opened Session
  import opened SessionSafety
  import opened SessionEffects

  /** A log that some legal run produces. */
  ghost predicate Recorded(log: seq<Obs>) {
    exists boot: u32, start: nat, events: seq<Event> ::
      LegalRun(Initial(boot), start, events) && log == Run(Initial(boot), events).bridge.log
  }

  lemma RecordedIsSafe(log: seq<Obs>)
    requires Recorded(log)
    ensures Safe(log)
  {
    var boot: u32, start: nat, events: seq<Event> :|
      LegalRun(Initial(boot), start, events) && log == Run(Initial(boot), events).bridge.log;
    RunKeeps(boot, start, events);
  }

  /** How CNetGame's state and the bridge's globals are coupled in every reachable state. */
  lemma StatesCoupled(boot: u32, start: nat, events: seq<Event>)
    requires LegalRun(Initial(boot), start, events)
    ensures var c := Run(Initial(boot), events);
      var b := c.bridge;
      && (c.state == None || c.state == Disconnected ==>
            !b.connectionRequested && !b.connectIssued && !b.connected && !b.gameInited && !b.spawned &&
            b.playerId == -1 && b.stage == Idle)
      && (c.state == Connected ==> b.connected && b.gameInited && 0 <= b.playerId < MAX_PLAYERS)
      && (b.stage == WaitingClass ==> c.state == AwaitJoin || c.state == Connected)
      && (b.stage == Ready ==> c.state == Connected)
      && (b.spawned ==> c.state == AwaitJoin || c.state == Connected)
      && c.state != Restarting
  {
    RunKeeps(boot, start, events);
  }

  ghost predicate SameSessionAt(log: seq<Obs>, i: int, j: int) {
    forall k :: i < k < j && 0 <= k < |log| ==> !log[k].Opened?
  }

  lemma SummaryStep(log: seq<Obs>, j: nat)
    requires j < |log|
    ensures Summarise(log[..j + 1]) == Note(Summarise(log[..j]), log[j])
  {
    assert log[..j + 1][..j] == log[..j];
  }

  // ---------------------------------------------------------------- timeouts

  lemma {:induction false} RequestRemembered(log: seq<Obs>, i: nat, j: nat)
    requires Safe(log) && i < j <= |log| && log[i].ClassRequested? && SameSessionAt(log, i, j)
    ensures var r := Summarise(log[..j]).request; r.Some? && log[i].t <= r.value
  {
    SummaryStep(log, j - 1);
    if i < j - 1 {
      RequestRemembered(log, i, j - 1);
      SafeAt(log, j - 1);
    }
  }

  /** Two class requests of one session are more than 3000 ms of true time apart. */
  lemma RequestsSpaced(log: seq<Obs>, i: nat, j: nat)
    requires Recorded(log) && i < j < |log| && SameSessionAt(log, i, j)
    requires log[i].ClassRequested? && log[j].ClassRequested?
    ensures log[j].t - log[i].t > 3000
  {
    RecordedIsSafe(log);
    RequestRemembered(log, i, j);
    SafeAt(log, j);
  }

  lemma {:induction false} FindEntered(log: seq<Obs>, j: nat) returns (k: nat)
    requires j <= |log| && Summarise(log[..j]).state != None
    ensures k < j && log[k] == Entered(Summarise(log[..j]).state, Summarise(log[..j]).since)
    ensures forall l :: k < l < j ==> !log[l].Entered?
  {
    assert log[..0] == [];
    SummaryStep(log, j - 1);
    if log[j - 1].Entered? {
      k := j - 1;
    } else {
      k := FindEntered(log, j - 1);
    }
  }

  /** A join timeout comes only after more than 20000 ms of true time in AwaitJoin. */
  lemma TimeoutsAreDue(log: seq<Obs>, j: nat) returns (k: nat)
    requires Recorded(log) && j < |log| && log[j].TimedOut?
    ensures k < j && log[k].Entered? && log[k].state == AwaitJoin && log[j].t - log[k].t > 20_000
    ensures forall l :: k < l < j ==> !log[l].Entered?
  {
    RecordedIsSafe(log);
    SafeAt(log, j);
    k := FindEntered(log, j);
  }

  // ---------------------------------------------------------------- spawning

  datatype Kind = AnySpawn | AutoSpawn | Restart | ClassRequest | Packet(inCar: bool)

  predicate Matches(o: Obs, kind: Kind) {
    match kind
    case AnySpawn => o.Spawned?
    case AutoSpawn => o.Spawned? && o.auto
    case Restart => o.Restarted?
    case ClassRequest => o.ClassRequested?
    case Packet(inCar) => o.BodySync? && o.inCar == inCar
  }

  function Count(log: seq<Obs>, kind: Kind): nat {
    if log == [] then 0 else Count(log[..|log| - 1], kind) + if Matches(log[|log| - 1], kind) then 1 else 0
  }

  lemma CountOne(log: seq<Obs>, o: Obs, kind: Kind)
    ensures Count(log + [o], kind) == Count(log, kind) + if Matches(o, kind) then 1 else 0
  {
    assert (log + [o])[..|log|] == log;
  }

  /** The summary's tally of spawns and restarts since the session was opened. */
  function Tally(m: Summary, kind: Kind): nat
    requires kind == AnySpawn || kind == AutoSpawn || kind == Restart
  {
    match kind
    case AnySpawn => m.spawns
    case AutoSpawn => m.autos
    case _ => m.restarts
  }

  lemma TallyStep(m: Summary, o: Obs, kind: Kind)
    requires (kind == AnySpawn || kind == AutoSpawn || kind == Restart) && !o.Opened?
    ensures Tally(Note(m, o), kind) == Tally(m, kind) + if Matches(o, kind) then 1 else 0
  {
  }

  lemma {:induction false} SessionCounts(log: seq<Obs>, i: nat, j: nat, kind: Kind)
    requires kind == AnySpawn || kind == AutoSpawn || kind == Restart
    requires i < j <= |log| && log[i].Opened? && SameSessionAt(log, i, j)
    ensures Tally(Summarise(log[..j]), kind) == Count(log[i..j], kind)
  {
    var o, before := log[j - 1], log[i..j - 1];
    SummaryStep(log, j - 1);
    CountOne(before, o, kind);
    assert log[i..j] == before + [o];
    if i < j - 1 {
      SessionCounts(log, i, j - 1, kind);
      TallyStep(Summarise(log[..j - 1]), o, kind);
    } else {
      assert before == [];
    }
  }

  lemma {:induction false} SummaryBounded(log: seq<Obs>)
    requires Safe(log)
    ensures Summarise(log).spawns <= 1 + Summarise(log).restarts && Summarise(log).autos <= 1
  {
    if log != [] {
      SummaryBounded(log[..|log| - 1]);
    }
  }

  lemma {:induction false} SafePrefix(log: seq<Obs>, j: nat)
    requires Safe(log) && j <= |log|
    ensures Safe(log[..j])
  {
    if j == |log| {
      assert log[..j] == log;
    } else {
      SafeAt(log, j);
    }
  }

  /** In one session sampSpawn is called at most once more than the gamemode restarts,
      and the FSM calls it at most once however many restarts there are. */
  lemma SpawnsBounded(log: seq<Obs>, i: nat, j: nat)
    requires Recorded(log) && i < j <= |log| && log[i].Opened? && SameSessionAt(log, i, j)
    ensures Count(log[i..j], AnySpawn) <= 1 + Count(log[i..j], Restart)
    ensures Count(log[i..j], AutoSpawn) <= 1
  {
    RecordedIsSafe(log);
    SafePrefix(log, j);
    SummaryBounded(log[..j]);
    SessionCounts(log, i, j, AnySpawn);
    SessionCounts(log, i, j, AutoSpawn);
    SessionCounts(log, i, j, Restart);
  }

  lemma {:induction false} FindReply(log: seq<Obs>, j: nat) returns (k: nat, r: nat)
    requires j <= |log| && Summarise(log[..j]).request.Some? && Summarise(log[..j]).replied
    ensures k < r < j && log[k].ClassRequested? && log[r] == ClassReplied(true)
    ensures SameSessionAt(log, k, j) && forall l :: k < l < j ==> !log[l].ClassRequested?
  {
    assert log[..0] == [];
    SummaryStep(log, j - 1);
    if log[j - 1] == ClassReplied(true) {
      k := FindRequest(log, j - 1);
      r := j - 1;
    } else {
      k, r := FindReply(log, j - 1);
    }
  }

  lemma {:induction false} FindRequest(log: seq<Obs>, j: nat) returns (k: nat)
    requires j <= |log| && Summarise(log[..j]).request.Some?
    ensures k < j && log[k].ClassRequested?
    ensures SameSessionAt(log, k, j) && forall l :: k < l < j ==> !log[l].ClassRequested?
  {
    assert log[..0] == [];
    SummaryStep(log, j - 1);
    if log[j - 1].ClassRequested? {
      k := j - 1;
    } else {
      k := FindRequest(log, j - 1);
    }
  }

  /** Every spawn by the FSM happens in Connected (entered at n), after a positive reply (r)
      that itself came after the latest class request (k) of the same session. */
  lemma AutoSpawnsJustified(log: seq<Obs>, j: nat) returns (n: nat, k: nat, r: nat)
    requires Recorded(log) && j < |log| && log[j] == Spawned(true)
    ensures n < j && log[n].Entered? && log[n].state == Connected && forall l :: n < l < j ==> !log[l].Entered?
    ensures k < r < j && log[k].ClassRequested? && log[r] == ClassReplied(true)
    ensures SameSessionAt(log, k, j) && forall l :: k < l < j ==> !log[l].ClassRequested?
  {
    RecordedIsSafe(log);
    SafeAt(log, j);
    n := FindEntered(log, j);
    k, r := FindReply(log, j);
  }

  // ---------------------------------------------------------------- body sync pacing

  function PacketTimes(log: seq<Obs>): seq<nat> {
    if log == [] then []
    else PacketTimes(log[..|log| - 1]) + if log[|log| - 1].BodySync? then [log[|log| - 1].t] else []
  }

  lemma {:induction false} PacketsSpaced(log: seq<Obs>, i: nat, j: nat)
    requires Safe(log) && i <= j < |PacketTimes(log)|
    ensures PacketTimes(log)[i] + 50 * (j - i) <= PacketTimes(log)[j]
  {
    if log != [] {
      var n := |log| - 1;
      SafeAt(log, n);
      LastPacket(log[..n]);
      if j < |PacketTimes(log[..n])| {
        PacketsSpaced(log[..n], i, j);
      } else if i < j {
        PacketsSpaced(log[..n], i, j - 1);
      }
    }
  }

  lemma {:induction false} LastPacket(log: seq<Obs>)
    ensures var p := PacketTimes(log);
      Summarise(log).synced == if p == [] then Options.None else Options.Some(p[|p| - 1])
  {
    if log != [] {
      LastPacket(log[..|log| - 1]);
    }
  }

  /** However the frames fall and the 32-bit clock wraps, packets i to j that fit in a window
      of `window` ms are at most window / 50 + 1 packets. */
  lemma PacketsPerWindow(log: seq<Obs>, i: nat, j: nat, window: nat)
    requires Recorded(log) && i <= j < |PacketTimes(log)|
    requires PacketTimes(log)[j] - PacketTimes(log)[i] <= window
    ensures j - i + 1 <= window / 50 + 1
  {
    RecordedIsSafe(log);
    PacketsSpaced(log, i, j);
  }

  lemma {:induction false} OnFootRemembered(log: seq<Obs>, i: nat, j: nat)
    requires Safe(log) && i < j <= |log| && log[i].BodySync? && !log[i].inCar
    ensures var m := Summarise(log[..j]);
      m.onFoot.Some? && m.synced.Some? && log[i].t <= m.onFoot.value <= m.synced.value
  {
    SummaryStep(log, j - 1);
    if i < j - 1 {
      OnFootRemembered(log, i, j - 1);
      SafeAt(log, j - 1);
    }
  }

  /** Two on-foot packets are more than 50 ms apart, across any number of clock wraps:
      the outer gate gives 50, and at exactly 50 the inner one is shut. */
  lemma OnFootPacketsSpaced(log: seq<Obs>, i: nat, j: nat)
    requires Recorded(log) && i < j < |log|
    requires log[i].BodySync? && !log[i].inCar && log[j].BodySync? && !log[j].inCar
    ensures log[j].t - log[i].t > 50
  {
    RecordedIsSafe(log);
    OnFootRemembered(log, i, j);
    SafeAt(log, j);
    var last := Summarise(log[..j]).onFoot.value;
    if log[j].t == last + 50 {
      GateShutAtRate(last);
    }
  }

  lemma GateShutAtRate(t: nat)
    ensures !OnFootGate(GetTickCount(t), GetTickCount(t + 50))
  {
    var q, r := t / B32, t % B32;
    assert t + 50 == B32 * q + (r + 50);
    assert (t + 50) % B32 == if r + 50 < B32 then r + 50 else r + 50 - B32;
  }

  // ---------------------------------------------------------------- GameModeRestart

  /** The events of one session in which the user does nothing but answer dialogs. */
  ghost predicate Undisturbed(events: seq<Event>) {
    forall i :: 0 <= i < |events| ==> events[i].Frame? || events[i].DialogAnswered?
  }

  lemma DeliverCount(b: Bridge, e: NetEvent, kind: Kind)
    requires kind != AnySpawn && kind != Restart
    ensures Count(Deliver(b, e).log, kind) == Count(b.log, kind)
  {
    Effects(b, e);
    NotedCount(b.log, Noted(b, e), kind);
  }

  lemma NotedCount(log: seq<Obs>, noted: seq<Obs>, kind: Kind)
    requires noted == [] || noted == [Restarted] || noted == [Spawned(false)] || (|noted| == 1 && noted[0].ClassReplied?)
    requires kind != AnySpawn && kind != Restart
    ensures Count(log + noted, kind) == Count(log, kind)
  {
    if noted == [] {
      assert log + noted == log;
    } else {
      CountOne(log, noted[0], kind);
      assert noted == [noted[0]];
    }
  }

  lemma {:induction false} DeliverCounts(b: Bridge, events: seq<NetEvent>, kind: Kind)
    requires kind != AnySpawn && kind != Restart
    ensures Count(DeliverAll(b, events).log, kind) == Count(b.log, kind)
  {
    if events != [] {
      var n := |events| - 1;
      DeliverCounts(b, events[..n], kind);
      DeliverCount(DeliverAll(b, events[..n]), events[n], kind);
    }
  }

  /** In Connected a frame is delivery, spawn FSM and sync pump, and nothing else. */
  lemma ConnectedTick(c: Client, t: nat, events: seq<NetEvent>, ped: Ped)
    requires Inv(c, t) && c.state == Connected && AllDeliverable(c.bridge, events)
    ensures var d := DeliverAll(c.bridge, events);
      d.connected && d.gameInited && d.stage == c.bridge.stage &&
      Tick(c, t, events, ped) == c.(bridge := SyncPump(SpawnFsm(d, t), t, ped))
  {
    DeliverAllKeeps(c.bridge, events, t);
    BridgeTickKeeps(c.bridge, t, events, ped);
  }

  /** What the pump adds to the log. */
  lemma PumpLog(b: Bridge, t: nat, ped: Ped) returns (added: seq<Obs>)
    ensures SyncPump(b, t, ped).log == b.log + added
    ensures added == [] || added == [Pumped(t)] || added == [Pumped(t), BodySync(t, ped.driving)]
  {
    added := SyncPump(b, t, ped).log[|b.log|..];
  }

  lemma CountAdded(log: seq<Obs>, added: seq<Obs>, t: nat, inCar: bool, kind: Kind)
    requires added == [] || added == [Pumped(t)] || added == [Pumped(t), BodySync(t, inCar)]
    requires kind != Packet(inCar)
    ensures Count(log + added, kind) == Count(log, kind)
  {
    CountOne(log, Pumped(t), kind);
    CountOne(log + [Pumped(t)], BodySync(t, inCar), kind);
    assert log + [] == log;
    assert log + [Pumped(t), BodySync(t, inCar)] == log + [Pumped(t)] + [BodySync(t, inCar)];
  }

  lemma PumpCounts(b: Bridge, t: nat, ped: Ped, kind: Kind)
    requires kind == AutoSpawn || kind == ClassRequest
    ensures Count(SyncPump(b, t, ped).log, kind) == Count(b.log, kind)
    ensures SyncPump(b, t, ped).stage == b.stage && SyncPump(b, t, ped).spawned == b.spawned
  {
    var added := PumpLog(b, t, ped);
    CountAdded(b.log, added, t, ped.driving, kind);
  }

  lemma DoneFrame(c: Client, t: nat, events: seq<NetEvent>, ped: Ped, kind: Kind)
    requires Inv(c, t) && c.state == Connected && AllDeliverable(c.bridge, events)
    requires c.bridge.stage == Done && (kind == AutoSpawn || kind == ClassRequest)
    ensures Tick(c, t, events, ped).bridge.stage == Done
    ensures Count(Tick(c, t, events, ped).bridge.log, kind) == Count(c.bridge.log, kind)
  {
    ConnectedTick(c, t, events, ped);
    DeliverCounts(c.bridge, events, kind);
    var b := DeliverAll(c.bridge, events);
    assert SpawnFsm(b, t) == b;
    PumpCounts(b, t, ped, kind);
  }

  /** Stage Done is absorbing: for the rest of the session no restart, reply or dialog makes
      the client request a class or spawn by itself again. */
  lemma {:induction false} DoneAbsorbs(c: Client, start: nat, events: seq<Event>, kind: Kind)
    requires Inv(c, start) && c.state == Connected && c.bridge.stage == Done
    requires LegalRun(c, start, events) && Undisturbed(events)
    requires kind == AutoSpawn || kind == ClassRequest
    ensures var d := Run(c, events);
      d.state == Connected && d.bridge.stage == Done && Inv(d, Clock(start, events)) &&
      Count(d.bridge.log, kind) == Count(c.bridge.log, kind)
  {
    if events != [] {
      var n := |events| - 1;
      DoneAbsorbs(c, start, events[..n], kind);
      var d, e := Run(c, events[..n]), events[n];
      StepKeeps(d, Clock(start, events[..n]), e);
      if e.Frame? {
        Later(d.bridge, Clock(start, events[..n]), e.t);
        TickKeeps(d, e.t, e.events, e.ped);
        DoneFrame(d, e.t, e.events, e.ped, kind);
      }
    }
  }

  /** A continuation exists that starts with a restart at `t` and has the FSM spawn again. */
  ghost predicate RestartCanRespawn(c: Client, start: nat, t: nat, ped: Ped) {
    exists events: seq<Event> ::
      |events| > 0 && events[0] == Frame(t, [GameModeRestart], ped) && Undisturbed(events) &&
      LegalRun(c, start, events) &&
      Count(Run(c, events).bridge.log, AutoSpawn) > Count(c.bridge.log, AutoSpawn)
  }

  function Rank(stage: SpawnStage): nat {
    match stage
    case Idle => 3
    case WaitingClass => 2
    case Ready => 1
    case Done => 0
  }

  /** A frame that closes the dialog and carries a positive class reply. */
  function HelpfulFrame(t: nat): Event {
    Frame(t, [DialogBox(true), ClassReply(1)], Ped(false, false))
  }

  /** One step of the FSM that has what it waits for. */
  lemma FsmMoves(b: Bridge, t: nat)
    requires b.connected && b.gameInited && !b.spawned && !b.dialog && b.stage != Done
    requires b.stage == WaitingClass ==> b.spawnInfo
    ensures var d := SpawnFsm(b, t);
      Rank(d.stage) == Rank(b.stage) - 1 && d.spawned == (b.stage == Ready) &&
      d.log == b.log + match b.stage case Idle => [ClassRequested(t)] case Ready => [Spawned(true)] case _ => []
  {
    assert b.log + [] == b.log;
  }

  /** One frame of the FSM, seen by its stage and its spawns only. */
  lemma FsmAdvances(b: Bridge, t: nat, ped: Ped)
    requires b.connected && b.gameInited && !b.spawned && !b.dialog && b.stage != Done
    requires b.stage == WaitingClass ==> b.spawnInfo
    ensures var b' := SyncPump(SpawnFsm(b, t), t, ped);
      Rank(b'.stage) == Rank(b.stage) - 1 && b'.spawned == (b.stage == Ready) &&
      Count(b'.log, AutoSpawn) == Count(b.log, AutoSpawn) + if b.stage == Ready then 1 else 0
  {
    FsmMoves(b, t);
    PumpCounts(SpawnFsm(b, t), t, ped, AutoSpawn);
    assert b.log + [] == b.log;
    CountOne(b.log, Spawned(true), AutoSpawn);
    CountOne(b.log, ClassRequested(t), AutoSpawn);
  }

  lemma HelpfulDelivery(b: Bridge)
    requires b.connected
    ensures AllDeliverable(b, [DialogBox(true), ClassReply(1)])
    ensures DeliverAll(b, [DialogBox(true), ClassReply(1)]) ==
            b.(dialog := false, spawnInfo := true, log := b.log + [ClassReplied(true)])
  {
    var es := [DialogBox(true), ClassReply(1)];
    assert es[..1] == [DialogBox(true)] && es[..1][..0] == [];
    assert AllDeliverable(b, es[..1][..0]) && DeliverAll(b, es[..1][..0]) == b;
    assert DeliverAll(b, es[..1]) == Deliver(b, DialogBox(true));
    assert AllDeliverable(b, es[..1]);
  }

  lemma HelpfulStep(d: Client, t: nat)
    requires Inv(d, t) && d.state == Connected && !d.bridge.spawned && d.bridge.stage != Done
    ensures LegalStep(d, t, HelpfulFrame(t)) && Inv(Step(d, HelpfulFrame(t)), t)
    ensures var b, d' := d.bridge, Step(d, HelpfulFrame(t));
      d'.state == Connected && Rank(d'.bridge.stage) == Rank(b.stage) - 1 && d'.bridge.spawned == (b.stage == Ready) &&
      Count(d'.bridge.log, AutoSpawn) == Count(b.log, AutoSpawn) + if b.stage == Ready then 1 else 0
  {
    var f := HelpfulFrame(t);
    HelpfulDelivery(d.bridge);
    StepKeeps(d, t, f);
    ConnectedTick(d, t, f.events, f.ped);
    CountOne(d.bridge.log, ClassReplied(true), AutoSpawn);
    FsmAdvances(DeliverAll(d.bridge, f.events), t, f.ped);
  }

  lemma {:induction false} KeepAdvancing(c: Client, start: nat, events: seq<Event>) returns (more: seq<Event>)
    requires |events| > 0 && LegalRun(c, start, events) && Undisturbed(events)
    requires var d := Run(c, events);
      Inv(d, Clock(start, events)) && d.state == Connected && !d.bridge.spawned && d.bridge.stage != Done
    ensures |more| > 0 && more[0] == events[0] && LegalRun(c, start, more) && Undisturbed(more)
    ensures Count(Run(c, more).bridge.log, AutoSpawn) > Count(Run(c, events).bridge.log, AutoSpawn)
    decreases Rank(Run(c, events).bridge.stage)
  {
    var d, t := Run(c, events), Clock(start, events);
    more := events + [HelpfulFrame(t)];
    assert more[..|events|] == events;
    HelpfulStep(d, t);
    if d.bridge.stage != Ready {
      more := KeepAdvancing(c, start, more);
    }
  }

  lemma RestartDelivery(b: Bridge)
    requires b.connected
    ensures AllDeliverable(b, [GameModeRestart])
    ensures DeliverAll(b, [GameModeRestart]) == b.(spawned := false, spawnInfo := false, log := b.log + [Restarted])
  {
    var es := [GameModeRestart];
    assert es[..0] == [] && AllDeliverable(b, es[..0]) && DeliverAll(b, es[..0]) == b;
  }

  lemma FsmAfterRestart(b: Bridge, t: nat, ped: Ped)
    requires b.connected && b.gameInited && !b.spawned && b.stage != Done
    ensures var b' := SyncPump(SpawnFsm(b, t), t, ped);
      Count(b'.log, AutoSpawn) > Count(b.log, AutoSpawn) ||
      (Count(b'.log, AutoSpawn) == Count(b.log, AutoSpawn) && !b'.spawned && b'.stage != Done)
  {
    PumpCounts(SpawnFsm(b, t), t, ped, AutoSpawn);
    CountOne(b.log, Spawned(true), AutoSpawn);
    CountOne(b.log, ClassRequested(t), AutoSpawn);
  }

  lemma RestartFrame(c: Client, t: nat, ped: Ped)
    requires Inv(c, t) && c.state == Connected && c.bridge.stage != Done
    ensures AllDeliverable(c.bridge, [GameModeRestart])
    ensures var b, b' := c.bridge, Tick(c, t, [GameModeRestart], ped).bridge;
      Count(b'.log, AutoSpawn) > Count(b.log, AutoSpawn) ||
      (Count(b'.log, AutoSpawn) == Count(b.log, AutoSpawn) && !b'.spawned && b'.stage != Done)
  {
    RestartDelivery(c.bridge);
    ConnectedTick(c, t, [GameModeRestart], ped);
    CountOne(c.bridge.log, Restarted, AutoSpawn);
    FsmAfterRestart(DeliverAll(c.bridge, [GameModeRestart]), t, ped);
  }

  /** GameModeRestart is meant to make the spawn FSM run again. It can, in every reachable
      state of a joined client, exactly when the FSM has not yet reached Done. */
  lemma RestartRespawnsUnlessDone(boot: u32, start: nat, past: seq<Event>, t: nat, ped: Ped)
    requires LegalRun(Initial(boot), start, past) && Clock(start, past) <= t
    requires Run(Initial(boot), past).state == Connected
    ensures var c := Run(Initial(boot), past);
      RestartCanRespawn(c, Clock(start, past), t, ped) <==> c.bridge.stage != Done
  {
    RunKeeps(boot, start, past);
    var c, now := Run(Initial(boot), past), Clock(start, past);
    if c.bridge.stage == Done {
      forall events: seq<Event> | |events| > 0 && Undisturbed(events) && LegalRun(c, now, events)
        ensures Count(Run(c, events).bridge.log, AutoSpawn) == Count(c.bridge.log, AutoSpawn)
      {
        DoneAbsorbs(c, now, events, AutoSpawn);
      }
    } else {
      var events := RespawnRun(c, now, t, ped);
    }
  }

  lemma RespawnRun(c: Client, now: nat, t: nat, ped: Ped) returns (events: seq<Event>)
    requires Inv(c, now) && now <= t && c.state == Connected && c.bridge.stage != Done
    ensures |events| > 0 && events[0] == Frame(t, [GameModeRestart], ped)
    ensures Undisturbed(events) && LegalRun(c, now, events)
    ensures Count(Run(c, events).bridge.log, AutoSpawn) > Count(c.bridge.log, AutoSpawn)
  {
    events := [Frame(t, [GameModeRestart], ped)];
    assert events[..0] == [] && LegalRun(c, now, events[..0]);
    Later(c.bridge, now, t);
    RestartFrame(c, t, ped);
    StepKeeps(c, now, events[0]);
    TickKeeps(c, t, [GameModeRestart], ped);
    var d := Tick(c, t, [GameModeRestart], ped);
    assert Run(c, events) == d;
    if Count(d.bridge.log, AutoSpawn) == Count(c.bridge.log, AutoSpawn) {
      events := KeepAdvancing(c, now, events);
    }
  }

  lemma Extend(c: Client, start: nat, events: seq<Event>, e: Event)
    requires LegalRun(c, start, events) && LegalStep(Run(c, events), Clock(start, events), e)
    ensures LegalRun(c, start, events + [e]) && Run(c, events + [e]) == Step(Run(c, events), e)
  {
    assert (events + [e])[..|events|] == events;
  }

  lemma OneEvent(b: Bridge, e: NetEvent)
    requires Deliverable(b, e)
    ensures AllDeliverable(b, [e]) && DeliverAll(b, [e]) == Deliver(b, e)
  {
    assert [e][..0] == [] && AllDeliverable(b, [e][..0]);
  }

  /** A spawned client that has sent no body sync yet. */
  ghost predicate Fresh(b: Bridge) {
    b.lastOnFoot == 1 && b.lastInCar == 1 && b.lastSync == 0
  }

  lemma Accepts(past: seq<Event>) returns (more: seq<Event>)
    requires past == [UserConnect(0, true), Frame(0, [], Ped(false, false))]
    ensures LegalRun(Initial(1), 0, more) && Clock(0, more) == 0
    ensures var c := Run(Initial(1), more);
      c.initialized && c.state == AwaitJoin && c.bridge.connected && c.enterMs == 0 && Fresh(c.bridge)
    ensures var b := Run(Initial(1), more).bridge; b.stage == Idle && !b.spawned && !b.dialog && !b.gameInited && b.initialized
  {
    var ped := Ped(false, false);
    assert past[..1] == [UserConnect(0, true)] && past[..1][..0] == [];
    assert LegalRun(Initial(1), 0, past[..1][..0]) && Run(Initial(1), past[..1][..0]) == Initial(1);
    var c1 := Run(Initial(1), past[..1]);
    assert c1 == Connect(Initial(1), 0, true);
    assert c1.state == Connecting && c1.bridge.connectionRequested;
    assert Run(Initial(1), past) == Tick(c1, 0, [], ped);
    OneEvent(Run(Initial(1), past).bridge, Accepted(7));
    Extend(Initial(1), 0, past, Frame(0, [Accepted(7)], ped));
    more := past + [Frame(0, [Accepted(7)], ped)];
  }

  lemma Joins(past: seq<Event>) returns (more: seq<Event>)
    requires LegalRun(Initial(1), 0, past) && Clock(0, past) == 0
    requires var c := Run(Initial(1), past);
      c.initialized && c.state == AwaitJoin && c.bridge.connected && Fresh(c.bridge)
    requires var b := Run(Initial(1), past).bridge; b.stage == Idle && !b.spawned && !b.dialog && b.initialized
    ensures LegalRun(Initial(1), 0, more) && Clock(0, more) == 0
    ensures var c := Run(Initial(1), more);
      c.state == Connected && c.bridge.stage == WaitingClass && !c.bridge.spawned && Fresh(c.bridge)
  {
    var c := Run(Initial(1), past);
    OneEvent(c.bridge, InitGame(true, 7));
    Extend(Initial(1), 0, past, Frame(0, [InitGame(true, 7)], Ped(false, false)));
    more := past + [Frame(0, [InitGame(true, 7)], Ped(false, false))];
  }

  /** While the outer gate is shut no stamp moves. */
  lemma HelpfulStamps(d: Client, t: nat)
    requires Inv(d, t) && d.state == Connected && Minus32(GetTickCount(t), d.bridge.lastSync) < BODY_SYNC_MS
    ensures var b, b' := d.bridge, Step(d, HelpfulFrame(t)).bridge;
      b'.lastSync == b.lastSync && b'.lastOnFoot == b.lastOnFoot && b'.lastInCar == b.lastInCar
  {
    var f := HelpfulFrame(t);
    HelpfulDelivery(d.bridge);
    ConnectedTick(d, t, f.events, f.ped);
  }

  /** An ordinary session: connect, accept, join, class reply, spawn. */
  lemma OrdinarySession() returns (past: seq<Event>)
    ensures LegalRun(Initial(1), 0, past) && Clock(0, past) == 0
    ensures var c := Run(Initial(1), past);
      Inv(c, 0) && c.state == Connected && c.bridge.stage == Done && c.bridge.spawned && Fresh(c.bridge)
  {
    past := Accepts([UserConnect(0, true), Frame(0, [], Ped(false, false))]);
    past := Joins(past);
    for i := 0 to 2
      invariant LegalRun(Initial(1), 0, past) && Clock(0, past) == 0
      invariant var c := Run(Initial(1), past);
        c.state == Connected && Rank(c.bridge.stage) == 2 - i && c.bridge.spawned == (i == 2) && Fresh(c.bridge)
    {
      RunKeeps(1, 0, past);
      HelpfulStep(Run(Initial(1), past), 0);
      HelpfulStamps(Run(Initial(1), past), 0);
      Extend(Initial(1), 0, past, HelpfulFrame(0));
      past := past + [HelpfulFrame(0)];
    }
    RunKeeps(1, 0, past);
  }

  /** A gamemode restart received after an ordinary session never makes the client spawn again. */
  lemma RestartFailsAfterSpawn(t: nat, ped: Ped) returns (past: seq<Event>)
    ensures LegalRun(Initial(1), 0, past) && Clock(0, past) == 0 && Run(Initial(1), past).state == Connected
    ensures !RestartCanRespawn(Run(Initial(1), past), 0, t, ped)
  {
    past := OrdinarySession();
    var c := Run(Initial(1), past);
    forall events: seq<Event> | |events| > 0 && Undisturbed(events) && LegalRun(c, 0, events)
      ensures Count(Run(c, events).bridge.log, AutoSpawn) == Count(c.bridge.log, AutoSpawn)
    {
      DoneAbsorbs(c, 0, events, AutoSpawn);
    }
  }
}
