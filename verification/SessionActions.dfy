/** What the user's actions do in every reachable state, and what a dialog holds back over
    whole runs. */
module SessionActions {
  import opened Machine
  import opened Session
  import opened SessionEffects
  import opened SessionSafety
  import opened SessionTheorems
  import opened SessionEvents

  // ---------------------------------------------------------------- connecting

  /** Nothing of a session: as at the start, and after every end of one. */
  ghost predicate NoSession(b: Bridge) {
    && !b.connectIssued && !b.connected && !b.gameInited && !b.spawned
    && b.playerId == -1 && !b.spawnInfo && b.stage == Idle
  }

  /** The client is in a session, at whatever stage. */
  ghost predicate InSession(c: Client) {
    c.state == Connecting || c.state == AwaitJoin || c.state == Connected
  }

  /** In any reachable state a connect, unless the factory it needs fails, opens a new session
      of which nothing has happened; an old session's dialog is closed, its stamps are kept. */
  lemma {:induction false} ConnectOpens(boot: u32, start: nat, past: seq<Event>, t: nat, ok: bool)
    requires LegalRun(Initial(boot), start, past)
    ensures var c := Run(Initial(boot), past);
      var d := Step(c, UserConnect(t, ok));
      if !c.initialized && !ok then d == c
      else
        && d.state == Connecting && d.initialized && d.bridge.initialized
        && d.bridge.connectionRequested && NoSession(d.bridge)
        && d.bridge.dialog == (c.bridge.dialog && !InSession(c)) && d.bridge.spectating == c.bridge.spectating
        && d.bridge.lastSync == c.bridge.lastSync && d.bridge.lastOnFoot == c.bridge.lastOnFoot
        && d.bridge.lastInCar == c.bridge.lastInCar
        && d.enterMs == (if c.state == Connecting then c.enterMs else GetTickCount(t))
        && d.bridge.log == c.bridge.log + (if c.initialized then [] else [Entered(None, t)]) + [Opened] +
                           (if c.state == Connecting then [] else [Entered(Connecting, t)])
  {
    var c := Run(Initial(boot), past);
    RunKeeps(boot, start, past);
    assert c.bridge.log + [] == c.bridge.log && c.bridge.log + [Opened] + [] == c.bridge.log + [Opened];
  }

  /** Initialising does nothing twice, and nothing when the factory fails; otherwise the
      client starts over in None, with everything else as it was. */
  lemma {:induction false} InitialiseOnce(boot: u32, start: nat, past: seq<Event>, t: nat, ok: bool)
    requires LegalRun(Initial(boot), start, past)
    ensures var c := Run(Initial(boot), past);
      var d := Step(c, Init(t, ok));
      if c.initialized || !ok then d == c
      else d == Client(None, GetTickCount(t), true, c.bridge.(initialized := true, log := c.bridge.log + [Entered(None, t)]))
  {
    RunKeeps(boot, start, past);
  }

  /** Any frame of a connecting client: it waits to join once an accept is in the queue. */
  lemma {:induction false} ConnectingMoves(boot: u32, start: nat, past: seq<Event>, t: nat, queue: seq<NetEvent>, ped: Ped, k: int)
    requires LegalRun(Initial(boot), start, past) && Run(Initial(boot), past).state == Connecting
    requires LegalStep(Run(Initial(boot), past), Clock(start, past), Frame(t, queue, ped)) && Last(queue, k, Accept)
    ensures var c := Run(Initial(boot), past);
      var d := Step(c, Frame(t, queue, ped));
      && d.bridge.connectIssued
      && d.state == (if k >= 0 then AwaitJoin else Connecting)
      && d.enterMs == (if k >= 0 then GetTickCount(t) else c.enterMs)
      && (k >= 0 ==> |d.bridge.log| > 0 && d.bridge.log[|d.bridge.log| - 1] == Entered(AwaitJoin, t))
  {
    var c := Run(Initial(boot), past);
    RunKeeps(boot, start, past);
    ConnectedAfter(c.bridge, queue, k);
    var d := DeliverAll(c.bridge, queue);
    DeliveryKeeps(c.bridge, queue);
    FsmLinks(IssueConnect(d), t);
    PumpLeaves(SpawnFsm(IssueConnect(d), t), t, ped);
  }

  lemma FsmLinks(b: Bridge, t: nat)
    ensures SpawnFsm(b, t).connected == b.connected && SpawnFsm(b, t).connectIssued == b.connectIssued
  {
  }

  /** Where the bridge has been shut down behind the client's back, a connect whose factory fails
      ends in Disconnected; no run gets there. */
  lemma ConnectFails(c: Client, t: nat)
    requires c.initialized && !c.bridge.initialized
    ensures Step(c, UserConnect(t, false)) ==
      if c.state == Disconnected then c
      else c.(state := Disconnected, enterMs := GetTickCount(t),
              bridge := c.bridge.(log := c.bridge.log + [Entered(Disconnected, t)]))
  {
  }

  /** A client in Connected that finds the bridge unconnected is disconnected; no run gets
      there either. */
  lemma LostConnection(d: Client, t: nat)
    requires d.state == Connected
    ensures TickState(d, t) ==
      if d.bridge.connected then d
      else d.(state := Disconnected, enterMs := GetTickCount(t),
              bridge := d.bridge.(log := d.bridge.log + [Entered(Disconnected, t)]))
  {
  }

  // ---------------------------------------------------------------- ending a session

  /** In any reachable state a disconnect ends a session and closes its dialog, and does
      nothing when there is none. */
  lemma {:induction false} DisconnectEnds(boot: u32, start: nat, past: seq<Event>, t: nat)
    requires LegalRun(Initial(boot), start, past)
    ensures var c := Run(Initial(boot), past);
      var d := Step(c, UserDisconnect(t));
      if !InSession(c) then d == c
      else
        && d.state == Disconnected && d.enterMs == GetTickCount(t) && d.initialized
        && !d.bridge.connectionRequested && NoSession(d.bridge) && !d.bridge.dialog
        && d.bridge.log == c.bridge.log + [Entered(Disconnected, t)]
        && d.bridge.spectating == c.bridge.spectating && d.bridge.lastSync == c.bridge.lastSync
        && d.bridge.lastOnFoot == c.bridge.lastOnFoot && d.bridge.lastInCar == c.bridge.lastInCar
  {
    RunKeeps(boot, start, past);
  }

  /** Quitting does the same, and leaves client and bridge uninitialised. */
  lemma {:induction false} QuitEnds(boot: u32, start: nat, past: seq<Event>, t: nat)
    requires LegalRun(Initial(boot), start, past)
    ensures var c := Run(Initial(boot), past);
      var d := Step(c, Quit(t));
      && !d.initialized && !d.bridge.initialized
      && !d.bridge.connectionRequested && NoSession(d.bridge)
      && d.state == (if InSession(c) then Disconnected else c.state)
      && d.bridge.dialog == (c.bridge.dialog && !InSession(c))
      && d.bridge.log == (if InSession(c) then c.bridge.log + [Entered(Disconnected, t)] else c.bridge.log)
      && d.bridge.spectating == c.bridge.spectating && d.bridge.lastSync == c.bridge.lastSync
      && d.bridge.lastOnFoot == c.bridge.lastOnFoot && d.bridge.lastInCar == c.bridge.lastInCar
  {
    RunKeeps(boot, start, past);
  }

  /** Once quit, the client does nothing whatever is delivered to it, until the user
      initialises it or connects again. */
  lemma {:induction false} QuitIsSilent(c: Client, more: seq<Event>)
    requires !c.initialized && (c.state == None || c.state == Disconnected)
    requires forall i :: 0 <= i < |more| ==> !more[i].Init? && !more[i].UserConnect?
    ensures var d := Run(c, more);
      !d.initialized && d.state == c.state && d.bridge.log == c.bridge.log
  {
    if more != [] {
      QuitIsSilent(c, more[..|more| - 1]);
    }
  }

  // ---------------------------------------------------------------- dialogs

  /** No dialog is answered, and none is closed by the server. */
  ghost predicate Unanswered(events: seq<Event>) {
    forall i :: 0 <= i < |events| ==>
      events[i].Frame? && forall j :: 0 <= j < |events[i].events| ==> events[i].events[j] != DialogBox(true)
  }

  lemma {:induction false} StaysOpen(b: Bridge, queue: seq<NetEvent>)
    requires b.dialog && forall j :: 0 <= j < |queue| ==> queue[j] != DialogBox(true)
    ensures DeliverAll(b, queue).dialog
  {
    if queue != [] {
      var n := |queue| - 1;
      StaysOpen(b, queue[..n]);
      Effects(DeliverAll(b, queue[..n]), queue[n]);
    }
  }

  lemma {:induction false} HeldFrame(c: Client, t: nat, queue: seq<NetEvent>, ped: Ped)
    requires Inv(c, t) && c.state == Connected && AllDeliverable(c.bridge, queue) && c.bridge.dialog
    requires forall j :: 0 <= j < |queue| ==> queue[j] != DialogBox(true)
    ensures var d := Tick(c, t, queue, ped);
      && d.state == Connected && d.bridge.dialog && d.bridge.stage == c.bridge.stage
      && Count(d.bridge.log, ClassRequest) == Count(c.bridge.log, ClassRequest)
      && Count(d.bridge.log, AutoSpawn) == Count(c.bridge.log, AutoSpawn)
  {
    TickKeeps(c, t, queue, ped);
    ConnectedTick(c, t, queue, ped);
    StaysOpen(c.bridge, queue);
    FsmHeld(c.bridge, t, queue, ped);
    BridgeTickKeeps(c.bridge, t, queue, ped);
  }

  /** While a dialog stays open the FSM does nothing, over any number of frames and whatever
      else the server sends: no class request, no spawn, the stage as it was. */
  lemma {:induction false} DialogHolds(c: Client, start: nat, events: seq<Event>)
    requires Inv(c, start) && c.state == Connected && c.bridge.dialog
    requires LegalRun(c, start, events) && Unanswered(events)
    ensures var d := Run(c, events);
      && Inv(d, Clock(start, events)) && d.state == Connected && d.bridge.dialog && d.bridge.stage == c.bridge.stage
      && Count(d.bridge.log, ClassRequest) == Count(c.bridge.log, ClassRequest)
      && Count(d.bridge.log, AutoSpawn) == Count(c.bridge.log, AutoSpawn)
  {
    if events != [] {
      var n := |events| - 1;
      DialogHolds(c, start, events[..n]);
      var d, e := Run(c, events[..n]), events[n];
      StepKeeps(d, Clock(start, events[..n]), e);
      Later(d.bridge, Clock(start, events[..n]), e.t);
      HeldFrame(d, e.t, e.events, e.ped);
    }
  }

  /** An answer changes nothing but that the dialog is closed; the next frame of a client that
      rests unspawned then asks for a class, and of one that is ready spawns it. */
  lemma {:induction false} AnswerReleases(c: Client, clock: nat, s: nat, t: nat, ped: Ped)
    requires Inv(c, clock) && clock <= s <= t && c.state == Connected && !c.bridge.spawned
    ensures Step(c, DialogAnswered(s)) == c.(bridge := c.bridge.(dialog := false))
    ensures var d := Step(Step(c, DialogAnswered(s)), Frame(t, [], ped));
      && Count(d.bridge.log, ClassRequest) == Count(c.bridge.log, ClassRequest) + (if c.bridge.stage == Idle then 1 else 0)
      && Count(d.bridge.log, AutoSpawn) == Count(c.bridge.log, AutoSpawn) + (if c.bridge.stage == Ready then 1 else 0)
      && d.bridge.spawned == (c.bridge.stage == Ready)
  {
    var a := Step(c, DialogAnswered(s));
    StepKeeps(c, clock, DialogAnswered(s));
    Later(a.bridge, s, t);
    ConnectedTick(a, t, [], ped);
    FsmRuns(a.bridge, t, [], ped);
    BridgeTickKeeps(a.bridge, t, [], ped);
  }
}
