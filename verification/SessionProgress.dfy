/** The other half of the timeouts: what a frame must do once they are due. */
module SessionProgress {
  import opened Machine
  import opened Session
  import opened SessionSafety
  import opened SessionEffects
  import opened SessionTheorems
  import Events = SessionEvents

  // ---------------------------------------------------------------- the join timeout

  predicate JoinsBy(e: NetEvent) {
    e.InitGame? && e.complete
  }

  /** InitGame had arrived, or arrives complete in this queue. */
  ghost predicate Joined(b: Bridge, queue: seq<NetEvent>) {
    b.gameInited || exists i :: 0 <= i < |queue| && JoinsBy(queue[i])
  }

  lemma JoinedMore(b: Bridge, queue: seq<NetEvent>, e: NetEvent)
    ensures Joined(b, queue + [e]) <==> Joined(b, queue) || JoinsBy(e)
  {
    var all := queue + [e];
    if Joined(b, queue) && !b.gameInited {
      var i :| 0 <= i < |queue| && JoinsBy(queue[i]);
      assert all[i] == queue[i];
    }
    assert all[|queue|] == e;
  }

  lemma {:induction false} DeliverJoins(b: Bridge, queue: seq<NetEvent>)
    ensures DeliverAll(b, queue).gameInited == Joined(b, queue)
  {
    if queue != [] {
      var n := |queue| - 1;
      DeliverJoins(b, queue[..n]);
      Effects(DeliverAll(b, queue[..n]), queue[n]);
      JoinedMore(b, queue[..n], queue[n]);
      assert queue == queue[..n] + [queue[n]];
    }
  }

  lemma FsmJoins(b: Bridge, t: nat)
    ensures SpawnFsm(b, t).gameInited == b.gameInited
  {
  }

  lemma PumpJoins(b: Bridge, t: nat, ped: Ped)
    ensures SyncPump(b, t, ped).gameInited == b.gameInited
  {
    PumpCases(b, t, ped);
  }

  /** Nothing but what is delivered raises the join flag in a frame. */
  lemma FrameJoins(b: Bridge, t: nat, queue: seq<NetEvent>, ped: Ped)
    requires b.initialized
    ensures BridgeTick(b, t, queue, ped).gameInited == Joined(b, queue)
  {
    DeliverJoins(b, queue);
    var issued := IssueConnect(DeliverAll(b, queue));
    FsmJoins(issued, t);
    PumpJoins(SpawnFsm(issued, t), t, ped);
  }

  lemma WaitEnds(c: Client, t: nat, queue: seq<NetEvent>, ped: Ped)
    requires c.initialized && c.bridge.initialized && c.state == AwaitJoin
    ensures Tick(c, t, queue, ped).state ==
      if Joined(c.bridge, queue) then Connected
      else if Minus32(GetTickCount(t), c.enterMs) > AWAIT_JOIN_TIMEOUT_MS then Disconnected
      else AwaitJoin
  {
    FrameJoins(c.bridge, t, queue, ped);
  }

  /** Entry k of the log is the latest state change. */
  ghost predicate LatestEntry(log: seq<Obs>, k: nat) {
    k < |log| && log[k].Entered? && forall l :: k < l < |log| ==> !log[l].Entered?
  }

  lemma EntryKnown(log: seq<Obs>, k: nat)
    requires LatestEntry(log, k) && Summarise(log).state != None
    ensures log[k] == Entered(Summarise(log).state, Summarise(log).since)
  {
    assert log[..|log|] == log;
    var found := FindEntered(log, |log|);
    assert !(found < k) && !(k < found);
  }

  lemma EntryStamped(c: Client, k: nat, t: nat)
    requires Inv(c, t) && c.state == AwaitJoin && LatestEntry(c.bridge.log, k)
    ensures var entered := c.bridge.log[k];
      entered.state == AwaitJoin && entered.t <= t && GetTickCount(entered.t) == c.enterMs
  {
    EntryKnown(c.bridge.log, k);
  }

  /** A frame that leaves AwaitJoin says so last in the log, after the timeout if it was one. */
  ghost predicate FrameEnds(d: Client, t: nat) {
    var n := |d.bridge.log|;
    && (d.state == Connected ==> n > 0 && d.bridge.log[n - 1] == Entered(Connected, t) && d.enterMs == GetTickCount(t))
    && (d.state == Disconnected ==>
          n > 1 && d.bridge.log[n - 2] == TimedOut(t) && d.bridge.log[n - 1] == Entered(Disconnected, t) &&
          d.enterMs == GetTickCount(t))
  }

  lemma WaitRecorded(c: Client, t: nat, queue: seq<NetEvent>, ped: Ped)
    requires c.initialized && c.bridge.initialized && c.state == AwaitJoin
    ensures FrameEnds(Tick(c, t, queue, ped), t)
  {
    var d := c.(bridge := BridgeTick(c.bridge, t, queue, ped));
    assert Tick(c, t, queue, ped) == TickAwaitJoin(d, t);
    AwaitJoinRecorded(d, t);
  }

  lemma AwaitJoinRecorded(d: Client, t: nat)
    requires d.state == AwaitJoin
    ensures FrameEnds(TickAwaitJoin(d, t), t)
  {
  }

  /** In every reachable state that waits to join, any frame at all does this: it connects if
      the client has joined, otherwise gives up exactly when the wrapping elapsed time is over
      20000 ms; in particular whenever the true time is, for 49.7 days. */
  lemma {:induction false} JoinEndsExactly(boot: u32, start: nat, past: seq<Event>, k: nat, t: nat, queue: seq<NetEvent>, ped: Ped)
    requires LegalRun(Initial(boot), start, past) && Run(Initial(boot), past).state == AwaitJoin
    requires LegalStep(Run(Initial(boot), past), Clock(start, past), Frame(t, queue, ped))
    requires LatestEntry(Run(Initial(boot), past).bridge.log, k)
    ensures var c := Run(Initial(boot), past);
      var entered := c.bridge.log[k];
      && entered.state == AwaitJoin && entered.t <= t
      && Step(c, Frame(t, queue, ped)).state ==
           (if Joined(c.bridge, queue) then Connected
            else if (t - entered.t) % B32 > 20_000 then Disconnected else AwaitJoin)
      && (20_000 < t - entered.t < B32 ==> Step(c, Frame(t, queue, ped)).state != AwaitJoin)
  {
    var c := Run(Initial(boot), past);
    WaitingIsInitialised(boot, start, past);
    WaitingSince(boot, start, past, k);
    WaitEnds(c, t, queue, ped);
    ElapsedAtMost(c.bridge.log[k].t, t);
  }

  /** In every reachable state that waits to join, the frame that ends the wait says so last in
      the log, after the timeout if it was one, and takes its time as the new state's. */
  lemma {:induction false} JoinEndIsRecorded(boot: u32, start: nat, past: seq<Event>, t: nat, queue: seq<NetEvent>, ped: Ped)
    requires LegalRun(Initial(boot), start, past) && Run(Initial(boot), past).state == AwaitJoin
    ensures FrameEnds(Step(Run(Initial(boot), past), Frame(t, queue, ped)), t)
  {
    WaitingIsInitialised(boot, start, past);
    WaitRecorded(Run(Initial(boot), past), t, queue, ped);
  }

  lemma {:induction false} WaitingSince(boot: u32, start: nat, past: seq<Event>, k: nat)
    requires LegalRun(Initial(boot), start, past) && Run(Initial(boot), past).state == AwaitJoin
    requires LatestEntry(Run(Initial(boot), past).bridge.log, k)
    ensures var c := Run(Initial(boot), past);
      var entered := c.bridge.log[k];
      entered.state == AwaitJoin && entered.t <= Clock(start, past) && GetTickCount(entered.t) == c.enterMs
  {
    RunKeeps(boot, start, past);
    EntryStamped(Run(Initial(boot), past), k, Clock(start, past));
  }

  lemma {:induction false} WaitingIsInitialised(boot: u32, start: nat, past: seq<Event>)
    requires LegalRun(Initial(boot), start, past) && Run(Initial(boot), past).state == AwaitJoin
    ensures Run(Initial(boot), past).initialized && Run(Initial(boot), past).bridge.initialized
  {
    RunKeeps(boot, start, past);
  }

  // ---------------------------------------------------------------- the class reply timeout

  /** Entry k of the log is the latest class request. */
  ghost predicate LatestRequest(log: seq<Obs>, k: nat) {
    k < |log| && log[k].ClassRequested? && forall l :: k < l < |log| ==> !log[l].ClassRequested?
  }

  lemma RequestIs(log: seq<Obs>, k: nat)
    requires LatestRequest(log, k) && Summarise(log).request.Some?
    ensures log[k].t == Summarise(log).request.value
  {
    assert log[..|log|] == log;
    RequestHeld(log, k, |log|);
  }

  lemma {:induction false} RequestHeld(log: seq<Obs>, k: nat, j: nat)
    requires k < j <= |log| && log[k].ClassRequested? && forall l :: k < l < j ==> !log[l].ClassRequested?
    ensures Summarise(log[..j]).request.Some? ==> Summarise(log[..j]).request.value == log[k].t
  {
    SummaryStep(log, j - 1);
    if k < j - 1 {
      RequestHeld(log, k, j - 1);
    }
  }

  /** Neither spawned nor in a dialog once the queue is delivered. */
  predicate Waiting(b: Bridge, queue: seq<NetEvent>) {
    !DeliverAll(b, queue).spawned && !DeliverAll(b, queue).dialog
  }

  /** A frame of a client in the game, up to what the pump does. */
  lemma FsmFrame(c: Client, t: nat, queue: seq<NetEvent>, ped: Ped)
    requires Inv(c, t) && AllDeliverable(c.bridge, queue)
    requires c.bridge.stage == WaitingClass || c.state == Connected
    ensures var d, c' := DeliverAll(c.bridge, queue), Tick(c, t, queue, ped);
      && d.connected && d.gameInited && d.stage == c.bridge.stage
      && c'.state == Connected && c'.bridge.stage == SpawnFsm(d, t).stage
      && Count(c'.bridge.log, ClassRequest) == Count(SpawnFsm(d, t).log, ClassRequest)
  {
    var d := DeliverAll(c.bridge, queue);
    DeliverAllKeeps(c.bridge, queue, t);
    PumpCounts(SpawnFsm(d, t), t, ped, ClassRequest);
    BridgeTickKeeps(c.bridge, t, queue, ped);
    CountOne(SyncPump(SpawnFsm(d, t), t, ped).log, Entered(Connected, t), ClassRequest);
  }

  lemma RequestStamped(c: Client, k: nat, t: nat)
    requires Inv(c, t) && c.bridge.stage == WaitingClass && LatestRequest(c.bridge.log, k)
    ensures c.bridge.log[k].t <= t && GetTickCount(c.bridge.log[k].t) == c.bridge.stageMs
  {
    RequestIs(c.bridge.log, k);
  }

  /** The frame that finds no answer: the FSM rests again exactly when the time is up. */
  lemma FirstFrame(c: Client, k: nat, t: nat, queue: seq<NetEvent>, ped: Ped)
    requires Inv(c, t) && AllDeliverable(c.bridge, queue) && LatestRequest(c.bridge.log, k)
    requires c.bridge.stage == WaitingClass && Waiting(c.bridge, queue) && !DeliverAll(c.bridge, queue).spawnInfo
    ensures c.bridge.log[k].t <= t
    ensures var c' := Tick(c, t, queue, ped);
      && c'.state == Connected && Count(c'.bridge.log, ClassRequest) == Count(c.bridge.log, ClassRequest)
      && c'.bridge.stage == if (t - c.bridge.log[k].t) % B32 > 3000 then Idle else WaitingClass
  {
    RequestStamped(c, k, t);
    FsmFrame(c, t, queue, ped);
    DeliverCounts(c.bridge, queue, ClassRequest);
    Events.DeliveryKeeps(c.bridge, queue);
    FsmWaits(DeliverAll(c.bridge, queue), c.bridge.log[k].t, t);
  }

  lemma FsmWaits(d: Bridge, sent: nat, t: nat)
    requires d.connected && d.gameInited && !d.spawned && !d.dialog && d.stage == WaitingClass && !d.spawnInfo
    requires sent <= t && d.stageMs == GetTickCount(sent)
    ensures SpawnFsm(d, t).log == d.log
    ensures SpawnFsm(d, t).stage == if (t - sent) % B32 > 3000 then Idle else WaitingClass
  {
    ElapsedAtMost(sent, t);
  }

  /** The frame after it: a class is requested exactly when the FSM is at rest. */
  lemma SecondFrame(c: Client, t: nat, queue: seq<NetEvent>, ped: Ped)
    requires Inv(c, t) && AllDeliverable(c.bridge, queue) && c.state == Connected
    requires Waiting(c.bridge, queue) && (c.bridge.stage == Idle || c.bridge.stage == WaitingClass)
    ensures Count(Tick(c, t, queue, ped).bridge.log, ClassRequest) ==
            Count(c.bridge.log, ClassRequest) + if c.bridge.stage == Idle then 1 else 0
  {
    FsmFrame(c, t, queue, ped);
    DeliverCounts(c.bridge, queue, ClassRequest);
    CountOne(DeliverAll(c.bridge, queue).log, ClassRequested(t), ClassRequest);
  }

  /** In every reachable state that waits for a class reply, two frames without one, a spawn
      or a dialog repeat the request exactly when the wrapping time since the latest request
      is over 3000 ms at the first of them. */
  lemma {:induction false} RequestRepeatedExactly(boot: u32, start: nat, past: seq<Event>, k: nat, e: Event, f: Event)
    requires LegalRun(Initial(boot), start, past) && e.Frame? && f.Frame?
    requires var c := Run(Initial(boot), past);
      && c.bridge.stage == WaitingClass && LatestRequest(c.bridge.log, k)
      && LegalStep(c, Clock(start, past), e) && LegalStep(Step(c, e), e.t, f)
      && Waiting(c.bridge, e.events) && !DeliverAll(c.bridge, e.events).spawnInfo && Waiting(Step(c, e).bridge, f.events)
    ensures var c := Run(Initial(boot), past);
      && c.bridge.log[k].t <= e.t
      && Count(Step(Step(c, e), f).bridge.log, ClassRequest) ==
         Count(c.bridge.log, ClassRequest) + if (e.t - c.bridge.log[k].t) % B32 > 3000 then 1 else 0
  {
    var c := Run(Initial(boot), past);
    RunKeeps(boot, start, past);
    StepKeeps(c, Clock(start, past), e);
    Later(c.bridge, Clock(start, past), e.t);
    FirstFrame(c, k, e.t, e.events, e.ped);
    Later(Step(c, e).bridge, e.t, f.t);
    SecondFrame(Step(c, e), f.t, f.events, f.ped);
  }
}
