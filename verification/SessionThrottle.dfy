/** What the inner send throttles do to whole runs: they compare absolute tick counts, so a
    clock wrap can silence a sender for weeks, or for good. */
module SessionThrottle {
  import opened Machine
  import opened Session
  import opened SessionSafety
  import opened SessionTheorems
  import Events = SessionEvents

  // ---------------------------------------------------------------- one gate

  function Stamp(b: Bridge, inCar: bool): u32 {
    if inCar then b.lastInCar else b.lastOnFoot
  }

  function Rate(inCar: bool): (ms: nat)
    ensures ms == if inCar then 40 else 50
  {
    if inCar then INCAR_SEND_RATE else ONFOOT_SEND_RATE
  }

  predicate GateOpen(inCar: bool, last: u32, now: u32) {
    if inCar then InCarGate(last, now) else OnFootGate(last, now)
  }

  /** Stamps from which the gate never opens. */
  predicate Dead(inCar: bool, last: u32) {
    last == 0xFFFF_FFFF || (!inCar && last == 0)
  }

  /** For a nonzero stamp a gate agrees with the wrap-safe elapsed time exactly when both or
      neither of the two differences wrap; a zero stamp shuts the on-foot gate and opens the other. */
  lemma GatesExact(inCar: bool, last: u32, now: u32)
    ensures last != 0 ==>
      ((GateOpen(inCar, last, now) <==> Minus32(now, last) > Rate(inCar)) <==> (Rate(inCar) <= now) == (last <= now))
    ensures last == 0 ==> GateOpen(inCar, last, now) == inCar
  {
    var rate := Rate(inCar);
    assert Minus32(now, last) == if last <= now then now - last else now + B32 - last;
    assert Minus32(now, rate) == if rate <= now then now - rate else now + B32 - rate;
  }

  /** At the tick just below its rate a gate is open for every stamp that is not dead. */
  lemma OpenBelowRate(inCar: bool, last: u32)
    ensures GateOpen(inCar, last, Rate(inCar) - 1) <==> !Dead(inCar, last)
  {
    assert Minus32(Rate(inCar) - 1, Rate(inCar)) == 0xFFFF_FFFF;
  }

  /** In the `last` ms that start one rate after a wrap at w, the gate is shut. */
  lemma ShutAfterWrap(inCar: bool, last: u32, w: nat, t: nat)
    requires last != 0 && w % B32 == 0 && w + Rate(inCar) <= t <= w + Rate(inCar) + last
    ensures !GateOpen(inCar, last, GetTickCount(t))
  {
    var d: nat := t - w - Rate(inCar);
    assert t == B32 * (w / B32) + (d + Rate(inCar));
    assert t % B32 == if d + Rate(inCar) < B32 then d + Rate(inCar) else d + Rate(inCar) - B32;
    assert Minus32(GetTickCount(t), Rate(inCar)) == d;
  }

  // ---------------------------------------------------------------- a shut gate over any events

  ghost predicate Untouched(b: Bridge, b': Bridge, inCar: bool) {
    Stamp(b', inCar) == Stamp(b, inCar) && Count(b'.log, Packet(inCar)) == Count(b.log, Packet(inCar))
  }

  lemma {:induction false} DeliveryUntouched(b: Bridge, events: seq<NetEvent>, inCar: bool)
    ensures Untouched(b, DeliverAll(b, events), inCar)
  {
    DeliverCounts(b, events, Packet(inCar));
    Events.DeliveryKeeps(b, events);
  }

  lemma FsmUntouched(b: Bridge, t: nat, inCar: bool)
    ensures Untouched(b, SpawnFsm(b, t), inCar)
  {
    Events.FsmStamps(b, t);
    Events.FsmSendsNothing(b, t, inCar);
  }

  /** With its gate shut a sender adds nothing to the log. */
  lemma ShutPumpLog(b: Bridge, t: nat, ped: Ped, inCar: bool)
    requires !GateOpen(inCar, Stamp(b, inCar), GetTickCount(t))
    ensures var p := SyncPump(b, t, ped);
      Stamp(p, inCar) == Stamp(b, inCar) &&
      (p.log == b.log || p.log == b.log + [Pumped(t)] || p.log == b.log + [Pumped(t)] + [BodySync(t, !inCar)])
  {
  }

  lemma PumpUntouched(b: Bridge, t: nat, ped: Ped, inCar: bool)
    requires !GateOpen(inCar, Stamp(b, inCar), GetTickCount(t))
    ensures Untouched(b, SyncPump(b, t, ped), inCar)
  {
    ShutPumpLog(b, t, ped, inCar);
    CountOne(b.log, Pumped(t), Packet(inCar));
    CountOne(b.log + [Pumped(t)], BodySync(t, !inCar), Packet(inCar));
  }

  lemma BridgeTickUntouched(b: Bridge, t: nat, events: seq<NetEvent>, ped: Ped, inCar: bool)
    requires !GateOpen(inCar, Stamp(b, inCar), GetTickCount(t))
    ensures Untouched(b, BridgeTick(b, t, events, ped), inCar)
  {
    var d := IssueConnect(DeliverAll(b, events));
    DeliveryUntouched(b, events, inCar);
    FsmUntouched(d, t, inCar);
    PumpUntouched(SpawnFsm(d, t), t, ped, inCar);
  }

  lemma TransitionUntouched(c: Client, s: NetState, t: nat, inCar: bool)
    ensures Untouched(c.bridge, Transition(c, s, t).bridge, inCar)
  {
    CountOne(c.bridge.log, Entered(s, t), Packet(inCar));
  }

  lemma DisconnectUntouched(c: Client, t: nat, inCar: bool)
    ensures Untouched(c.bridge, Disconnect(c, t).bridge, inCar)
  {
    TransitionUntouched(c.(bridge := BridgeDisconnect(c.bridge)), Disconnected, t, inCar);
  }

  lemma InitializeUntouched(c: Client, t: nat, ok: bool, inCar: bool)
    ensures Untouched(c.bridge, Initialize(c, t, ok).bridge, inCar)
  {
    CountOne(c.bridge.log, Entered(NetState.None, t), Packet(inCar));
  }

  lemma OpenUntouched(b: Bridge, inCar: bool)
    ensures Untouched(b, BridgeConnect(b), inCar)
  {
    CountOne(b.log, Opened, Packet(inCar));
  }

  lemma ConnectUntouched(c: Client, t: nat, ok: bool, inCar: bool)
    ensures Untouched(c.bridge, Connect(c, t, ok).bridge, inCar)
  {
    InitializeUntouched(c, t, ok, inCar);
    var c0 := if !c.initialized then Initialize(c, t, ok) else c;
    var b := if c0.state == Connecting || c0.state == AwaitJoin || c0.state == Connected || c0.state == Restarting
             then BridgeDisconnect(c0.bridge) else c0.bridge;
    assert Untouched(c0.bridge, b, inCar);
    OpenUntouched(b.(initialized := true), inCar);
    TransitionUntouched(c0.(bridge := b), Disconnected, t, inCar);
    TransitionUntouched(c0.(bridge := BridgeConnect(b.(initialized := true))), Connecting, t, inCar);
  }

  lemma AwaitJoinUntouched(d: Client, t: nat, inCar: bool)
    ensures Untouched(d.bridge, TickAwaitJoin(d, t).bridge, inCar)
  {
    CountOne(d.bridge.log, TimedOut(t), Packet(inCar));
    DisconnectUntouched(d.(bridge := d.bridge.(log := d.bridge.log + [TimedOut(t)])), t, inCar);
    TransitionUntouched(d, Connected, t, inCar);
  }

  lemma TickStateUntouched(d: Client, t: nat, inCar: bool)
    ensures Untouched(d.bridge, TickState(d, t).bridge, inCar)
  {
    match d.state {
      case Connecting => TransitionUntouched(d, AwaitJoin, t, inCar);
      case AwaitJoin => AwaitJoinUntouched(d, t, inCar);
      case Connected => TransitionUntouched(d, Disconnected, t, inCar);
      case _ =>
    }
  }

  lemma StepUntouched(c: Client, e: Event, inCar: bool)
    requires e.Frame? ==> !GateOpen(inCar, Stamp(c.bridge, inCar), GetTickCount(e.t))
    ensures Untouched(c.bridge, Step(c, e).bridge, inCar)
  {
    match e {
      case Init(t, ok) => InitializeUntouched(c, t, ok, inCar);
      case UserConnect(t, ok) => ConnectUntouched(c, t, ok, inCar);
      case UserDisconnect(t) => DisconnectUntouched(c, t, inCar);
      case Quit(t) => DisconnectUntouched(c, t, inCar);
      case DialogAnswered(_) =>
      case Frame(t, events, ped) =>
        BridgeTickUntouched(c.bridge, t, events, ped, inCar);
        TickStateUntouched(c.(bridge := BridgeTick(c.bridge, t, events, ped)), t, inCar);
    }
  }

  /** Whatever happens, over any number of sessions, while every frame falls on a tick at
      which the gate is shut no packet is sent and the stamp stays. */
  lemma {:induction false} SilentWhileShut(c: Client, events: seq<Event>, inCar: bool)
    requires forall i :: 0 <= i < |events| && events[i].Frame? ==>
      !GateOpen(inCar, Stamp(c.bridge, inCar), GetTickCount(events[i].t))
    ensures Untouched(c.bridge, Run(c, events).bridge, inCar)
  {
    if events != [] {
      var n := |events| - 1;
      SilentWhileShut(c, events[..n], inCar);
      StepUntouched(Run(c, events[..n]), events[n], inCar);
    }
  }

  /** From a dead stamp no events at all make the client send again: not in this session and
      not in any later one. */
  lemma DeadForGood(c: Client, events: seq<Event>, inCar: bool)
    requires Dead(inCar, Stamp(c.bridge, inCar))
    ensures Untouched(c.bridge, Run(c, events).bridge, inCar)
  {
    SilentWhileShut(c, events, inCar);
  }

  /** After a packet at tick s, if none follows until one rate after the clock has wrapped,
      none follows for another s ms, however the frames fall and whatever else happens. */
  lemma SilentAfterWrap(c: Client, events: seq<Event>, inCar: bool, w: nat)
    requires Stamp(c.bridge, inCar) != 0 && w % B32 == 0
    requires forall i :: 0 <= i < |events| && events[i].Frame? ==>
      w + Rate(inCar) <= events[i].t <= w + Rate(inCar) + Stamp(c.bridge, inCar)
    ensures Untouched(c.bridge, Run(c, events).bridge, inCar)
  {
    forall i | 0 <= i < |events| && events[i].Frame?
      ensures !GateOpen(inCar, Stamp(c.bridge, inCar), GetTickCount(events[i].t))
    {
      ShutAfterWrap(inCar, Stamp(c.bridge, inCar), w, events[i].t);
    }
    SilentWhileShut(c, events, inCar);
  }

  // ---------------------------------------------------------------- a live stamp

  /** A frame in which the server, if need be, ends spectator mode. */
  function PumpFrame(t: nat, ped: Ped): Event {
    Frame(t, [ToggleSpectating(false)], ped)
  }

  lemma SpawnedFrame(c: Client, clock: nat, t: nat, ped: Ped)
    requires Inv(c, clock) && clock <= t && c.state == Connected && c.bridge.spawned
    ensures LegalStep(c, clock, PumpFrame(t, ped)) && Inv(Step(c, PumpFrame(t, ped)), t)
    ensures Step(c, PumpFrame(t, ped)) == c.(bridge := SyncPump(c.bridge.(spectating := false), t, ped))
  {
    Later(c.bridge, clock, t);
    OneEvent(c.bridge, ToggleSpectating(false));
    StepKeeps(c, clock, PumpFrame(t, ped));
    ConnectedTick(c, t, [ToggleSpectating(false)], ped);
  }

  /** The first instant from `clock` on, at the latest in the next cycle, with this tick count. */
  function NextTick(clock: nat, tick: u32): (t: nat)
    ensures clock <= t && GetTickCount(t) == tick
  {
    var t := (clock / B32 + 1) * B32 + tick;
    assert t == B32 * (clock / B32 + 1) + tick;
    t
  }

  /** A driver without a vehicle sends nothing, but lets the outer gate take its stamp. */
  lemma IdlePump(b: Bridge, t: nat, inCar: bool)
    requires b.connected && b.gameInited && b.spawned && !b.spectating
    ensures var p, now := SyncPump(b, t, Ped(true, false)), GetTickCount(t);
      p.lastSync == (if Minus32(now, b.lastSync) >= BODY_SYNC_MS then now else b.lastSync) && Untouched(b, p, inCar)
  {
    CountOne(b.log, Pumped(t), Packet(inCar));
  }

  lemma OutOfTheWay(inCar: bool, before: u32, after: u32)
    requires after == if Minus32(1000, before) >= BODY_SYNC_MS then 1000 else before
    ensures Minus32(Rate(inCar) - 1, after) >= BODY_SYNC_MS
  {
    assert Minus32(1000, before) == if before <= 1000 then 1000 - before else 1000 + B32 - before;
    assert after > 950;
    assert Minus32(Rate(inCar) - 1, after) == Rate(inCar) - 1 + B32 - after;
  }

  lemma MoveOuterGate(c: Client, clock: nat, inCar: bool) returns (t: nat)
    requires Inv(c, clock) && c.state == Connected && c.bridge.spawned
    ensures var f := PumpFrame(t, Ped(true, false));
      var d := Step(c, f);
      LegalStep(c, clock, f) && Inv(d, t) && d.state == Connected && d.bridge.spawned &&
      Untouched(c.bridge, d.bridge, inCar) && Minus32(Rate(inCar) - 1, d.bridge.lastSync) >= BODY_SYNC_MS
  {
    t := NextTick(clock, 1000);
    var b := c.bridge.(spectating := false);
    SpawnedFrame(c, clock, t, Ped(true, false));
    IdlePump(b, t, inCar);
    OutOfTheWay(inCar, b.lastSync, SyncPump(b, t, Ped(true, false)).lastSync);
  }

  lemma BusyPump(b: Bridge, t: nat, inCar: bool)
    requires b.connected && b.gameInited && b.spawned && !b.spectating
    requires Minus32(GetTickCount(t), b.lastSync) >= BODY_SYNC_MS && GateOpen(inCar, Stamp(b, inCar), GetTickCount(t))
    ensures var p := SyncPump(b, t, Ped(inCar, true));
      Stamp(p, inCar) == p.lastSync == GetTickCount(t) &&
      Count(p.log, Packet(inCar)) == Count(b.log, Packet(inCar)) + 1
  {
    CountOne(b.log, Pumped(t), Packet(inCar));
    CountOne(b.log + [Pumped(t)], BodySync(t, inCar), Packet(inCar));
  }

  lemma SendNow(c: Client, clock: nat, t: nat, inCar: bool)
    requires Inv(c, clock) && clock <= t && c.state == Connected && c.bridge.spawned
    requires Minus32(GetTickCount(t), c.bridge.lastSync) >= BODY_SYNC_MS
    requires GateOpen(inCar, Stamp(c.bridge, inCar), GetTickCount(t))
    ensures var f := PumpFrame(t, Ped(inCar, true));
      var d := Step(c, f);
      LegalStep(c, clock, f) && Inv(d, t) && d.state == Connected && d.bridge.spawned &&
      Stamp(d.bridge, inCar) == d.bridge.lastSync == GetTickCount(t) &&
      Count(d.bridge.log, Packet(inCar)) == Count(c.bridge.log, Packet(inCar)) + 1
  {
    SpawnedFrame(c, clock, t, Ped(inCar, true));
    BusyPump(c.bridge.(spectating := false), t, inCar);
  }

  /** A run so far, and where it has led: a spawned client, in Connected. */
  ghost predicate Leads(c: Client, start: nat, events: seq<Event>, d: Client, clock: nat) {
    Undisturbed(events) && LegalRun(c, start, events) && Run(c, events) == d && Clock(start, events) == clock &&
    Inv(d, clock) && d.state == Connected && d.bridge.spawned
  }

  lemma OneMore(c: Client, start: nat, events: seq<Event>, d: Client, clock: nat, t: nat, ped: Ped)
    requires Leads(c, start, events, d, clock) && LegalStep(d, clock, PumpFrame(t, ped))
    requires var e := Step(d, PumpFrame(t, ped)); Inv(e, t) && e.state == Connected && e.bridge.spawned
    ensures Leads(c, start, events + [PumpFrame(t, ped)], Step(d, PumpFrame(t, ped)), t)
  {
    Extend(c, start, events, PumpFrame(t, ped));
  }

  lemma FirstMove(c: Client, clock: nat, inCar: bool) returns (events: seq<Event>, d: Client, t: nat)
    requires Inv(c, clock) && c.state == Connected && c.bridge.spawned
    ensures Leads(c, clock, events, d, t)
    ensures Untouched(c.bridge, d.bridge, inCar) && Minus32(Rate(inCar) - 1, d.bridge.lastSync) >= BODY_SYNC_MS
  {
    assert Leads(c, clock, [], c, clock);
    t := MoveOuterGate(c, clock, inCar);
    OneMore(c, clock, [], c, clock, t, Ped(true, false));
    events, d := [] + [PumpFrame(t, Ped(true, false))], Step(c, PumpFrame(t, Ped(true, false)));
  }

  /** One more packet, at the next instant with the given tick count. */
  lemma SendAt(c: Client, start: nat, past: seq<Event>, d: Client, clock: nat, inCar: bool, tick: u32)
    returns (events: seq<Event>, e: Client, t: nat)
    requires Leads(c, start, past, d, clock)
    requires Minus32(tick, d.bridge.lastSync) >= BODY_SYNC_MS && GateOpen(inCar, Stamp(d.bridge, inCar), tick)
    ensures Leads(c, start, events, e, t) && Stamp(e.bridge, inCar) == e.bridge.lastSync == tick
    ensures Count(e.bridge.log, Packet(inCar)) == Count(d.bridge.log, Packet(inCar)) + 1
  {
    t := NextTick(clock, tick);
    SendNow(d, clock, t, inCar);
    OneMore(c, start, past, d, clock, t, Ped(inCar, true));
    events, e := past + [PumpFrame(t, Ped(inCar, true))], Step(d, PumpFrame(t, Ped(inCar, true)));
  }

  lemma FirstSend(c: Client, clock: nat, inCar: bool) returns (events: seq<Event>, d: Client, t: nat)
    requires Inv(c, clock) && c.state == Connected && c.bridge.spawned && !Dead(inCar, Stamp(c.bridge, inCar))
    ensures Leads(c, clock, events, d, t) && Stamp(d.bridge, inCar) == d.bridge.lastSync == Rate(inCar) - 1
    ensures Count(d.bridge.log, Packet(inCar)) == Count(c.bridge.log, Packet(inCar)) + 1
  {
    var e1, d1, t1 := FirstMove(c, clock, inCar);
    OpenBelowRate(inCar, Stamp(d1.bridge, inCar));
    events, d, t := SendAt(c, clock, e1, d1, t1, inCar, Rate(inCar) - 1);
  }

  lemma OpenLater(inCar: bool, s: u32)
    requires s >= 100
    ensures GateOpen(inCar, Rate(inCar) - 1, s) && Minus32(s, Rate(inCar) - 1) >= BODY_SYNC_MS
  {
  }

  /** From every live stamp three frames make the client send twice and leave any stamp
      from 100 on, the dead one included. */
  lemma ReachStamp(c: Client, clock: nat, inCar: bool, s: u32) returns (events: seq<Event>, d: Client, t: nat)
    requires Inv(c, clock) && c.state == Connected && c.bridge.spawned && !Dead(inCar, Stamp(c.bridge, inCar)) && s >= 100
    ensures Leads(c, clock, events, d, t) && Stamp(d.bridge, inCar) == s
    ensures Count(d.bridge.log, Packet(inCar)) == Count(c.bridge.log, Packet(inCar)) + 2
  {
    var past, d1, t1 := FirstSend(c, clock, inCar);
    OpenLater(inCar, s);
    events, d, t := SendAt(c, clock, past, d1, t1, inCar, s);
  }

  // ---------------------------------------------------------------- the promises

  /** Some continuation in which the user does nothing but answer dialogs sends a packet. */
  ghost predicate CanSend(c: Client, start: nat, inCar: bool) {
    exists events: seq<Event> ::
      Undisturbed(events) && LegalRun(c, start, events) &&
      Count(Run(c, events).bridge.log, Packet(inCar)) > Count(c.bridge.log, Packet(inCar))
  }

  /** In every reachable state of a spawned client a sender can ever send again exactly when
      its stamp is not dead. */
  lemma SendsUnlessDead(boot: u32, start: nat, past: seq<Event>, inCar: bool)
    requires LegalRun(Initial(boot), start, past)
    requires Run(Initial(boot), past).state == Connected && Run(Initial(boot), past).bridge.spawned
    ensures var c := Run(Initial(boot), past);
      CanSend(c, Clock(start, past), inCar) <==> !Dead(inCar, Stamp(c.bridge, inCar))
  {
    RunKeeps(boot, start, past);
    var c, now := Run(Initial(boot), past), Clock(start, past);
    if Dead(inCar, Stamp(c.bridge, inCar)) {
      forall events: seq<Event>
        ensures Count(Run(c, events).bridge.log, Packet(inCar)) == Count(c.bridge.log, Packet(inCar))
      {
        DeadForGood(c, events, inCar);
      }
    } else {
      var events, d, t := ReachStamp(c, now, inCar, 100);
    }
  }

  lemma {:induction false} Continue(c: Client, start: nat, past: seq<Event>, events: seq<Event>)
    requires LegalRun(c, start, past) && LegalRun(Run(c, past), Clock(start, past), events)
    ensures LegalRun(c, start, past + events) && Run(c, past + events) == Run(Run(c, past), events)
    ensures Clock(start, past + events) == Clock(Clock(start, past), events)
  {
    if events == [] {
      assert past + [] == past;
    } else {
      var n := |events| - 1;
      var front, e := past + events[..n], events[n];
      Continue(c, start, past, events[..n]);
      assert past + events == front + [e];
      Extend(c, start, front, e);
    }
  }

  /** For every tick from 100 on there is a legal run, an ordinary session first, that ends
      with a spawned client whose last packet was sent at that tick. */
  lemma StampReachable(inCar: bool, s: u32) returns (past: seq<Event>)
    requires s >= 100
    ensures LegalRun(Initial(1), 0, past)
    ensures var c := Run(Initial(1), past);
      c.state == Connected && c.bridge.spawned && Stamp(c.bridge, inCar) == s
  {
    var session := OrdinarySession();
    var more, d, t := ReachStamp(Run(Initial(1), session), 0, inCar, s);
    Continue(Initial(1), 0, session, more);
    past := session + more;
  }

  /** A legal run that ends with a spawned, connected client which never sends again,
      whatever happens afterwards. */
  lemma SilencedForGood(inCar: bool) returns (past: seq<Event>)
    ensures LegalRun(Initial(1), 0, past)
    ensures Run(Initial(1), past).state == Connected && Run(Initial(1), past).bridge.spawned
    ensures forall events: seq<Event> ::
      Count(Run(Run(Initial(1), past), events).bridge.log, Packet(inCar)) ==
      Count(Run(Initial(1), past).bridge.log, Packet(inCar))
  {
    past := StampReachable(inCar, 0xFFFF_FFFF);
    var c := Run(Initial(1), past);
    forall events: seq<Event>
      ensures Count(Run(c, events).bridge.log, Packet(inCar)) == Count(c.bridge.log, Packet(inCar))
    {
      DeadForGood(c, events, inCar);
    }
  }

  /** A legal run and a wrap w still to come such that, after it, no frame in the first s ms
      from one rate past w on sends a packet; with s near 2^32 that is more than 49 days. */
  lemma SilencedAfterWrap(inCar: bool, s: u32) returns (past: seq<Event>, w: nat)
    requires s >= 100
    ensures LegalRun(Initial(1), 0, past) && Clock(0, past) < w && w % B32 == 0
    ensures Run(Initial(1), past).state == Connected && Run(Initial(1), past).bridge.spawned
    ensures forall events: seq<Event> ::
      (forall i :: 0 <= i < |events| && events[i].Frame? ==> w + Rate(inCar) <= events[i].t <= w + Rate(inCar) + s) ==>
      Count(Run(Run(Initial(1), past), events).bridge.log, Packet(inCar)) ==
      Count(Run(Initial(1), past).bridge.log, Packet(inCar))
  {
    past := StampReachable(inCar, s);
    w := NextTick(Clock(0, past) + 1, 0);
    assert w % B32 == 0;
    var c := Run(Initial(1), past);
    forall events: seq<Event> |
      forall i :: 0 <= i < |events| && events[i].Frame? ==> w + Rate(inCar) <= events[i].t <= w + Rate(inCar) + s
      ensures Count(Run(c, events).bridge.log, Packet(inCar)) == Count(c.bridge.log, Packet(inCar))
    {
      SilentAfterWrap(c, events, inCar, w);
    }
  }

  /** A client started at tick count 0 never sends an on-foot packet. */
  lemma SilentFromBootZero(events: seq<Event>)
    ensures Count(Run(Initial(0), events).bridge.log, Packet(false)) == 0
  {
    DeadForGood(Initial(0), events, false);
  }
}
