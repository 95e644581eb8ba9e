/** What each event of the server does to the bridge. */
module SessionEffects {
  import opened Machine
  import opened Session

  datatype Sort = Toggle | Box | NamesMe | Settles | Accept

  predicate Is(e: NetEvent, sort: Sort) {
    match sort
    case Toggle => e.ToggleSpectating?
    case Box => e.DialogBox?
    case NamesMe => e.Accepted? || (e.InitGame? && e.complete)
    case Settles => e.GameModeRestart? || (e.ClassReply? && e.outcome != 0)
    case Accept => e.Accepted?
  }

  /** What an event records: a class reply, a restart, or the spawn of a client that stops
      spectating unspawned. */
  function Noted(b: Bridge, e: NetEvent): seq<Obs> {
    match e
    case ClassReply(outcome) => [ClassReplied(outcome != 0)]
    case GameModeRestart => [Restarted]
    case ToggleSpectating(on) => if b.spectating && !on && !b.spawned then [Spawned(false)] else []
    case _ => []
  }

  /** What an event does to each field, and what it records. */
  ghost predicate Effect(b: Bridge, e: NetEvent, d: Bridge) {
    && d.spectating == (if Is(e, Toggle) then e.on else b.spectating)
    && d.spawned == ((b.spawned && !e.GameModeRestart?) || (e == ToggleSpectating(false) && b.spectating))
    && d.playerId == (if Is(e, NamesMe) then e.id else b.playerId)
    && d.connected == (b.connected || Is(e, Accept))
    && d.gameInited == (b.gameInited || (e.InitGame? && e.complete))
    && d.dialog == (if Is(e, Box) then !e.close else b.dialog)
    && d.spawnInfo == (if Is(e, Settles) then e.ClassReply? else b.spawnInfo)
    && d == Bridge(b.initialized, b.connectionRequested, b.connectIssued, d.connected, d.gameInited, d.spawned, d.playerId,
                   d.spawnInfo, b.stage, b.stageMs, d.spectating, d.dialog, b.lastSync, b.lastOnFoot, b.lastInCar, b.log + Noted(b, e))
  }

  lemma ToggleIs(b: Bridge, on: bool)
    ensures Deliver(b, ToggleSpectating(on)) ==
      if b.spectating && !on && !b.spawned
      then b.(spectating := false, spawned := true, log := b.log + [Spawned(false)])
      else b.(spectating := on)
  {
  }

  lemma ToggleEffect(b: Bridge, on: bool)
    ensures Effect(b, ToggleSpectating(on), Deliver(b, ToggleSpectating(on)))
  {
    ToggleIs(b, on);
    if !(b.spectating && !on && !b.spawned) {
      assert b.log + [] == b.log;
    }
  }

  lemma AcceptedEffect(b: Bridge, id: u16)
    ensures Effect(b, Accepted(id), Deliver(b, Accepted(id)))
  {
    assert b.log + [] == b.log;
  }

  lemma InitGameEffect(b: Bridge, complete: bool, id: u16)
    ensures Effect(b, InitGame(complete, id), Deliver(b, InitGame(complete, id)))
  {
    assert b.log + [] == b.log;
  }

  lemma ClassReplyEffect(b: Bridge, outcome: u8)
    ensures Effect(b, ClassReply(outcome), Deliver(b, ClassReply(outcome)))
  {
  }

  lemma RestartEffect(b: Bridge)
    ensures Effect(b, GameModeRestart, Deliver(b, GameModeRestart))
  {
  }

  lemma DialogBoxEffect(b: Bridge, close: bool)
    ensures Effect(b, DialogBox(close), Deliver(b, DialogBox(close)))
  {
    assert b.log + [] == b.log;
  }

  lemma ConnectionLostEffect(b: Bridge)
    ensures Effect(b, ConnectionLost, Deliver(b, ConnectionLost))
  {
    assert b.log + [] == b.log;
  }

  lemma Effects(b: Bridge, e: NetEvent)
    ensures Effect(b, e, Deliver(b, e))
  {
    if e.Accepted? {
      AcceptedEffect(b, e.id);
    } else if e.InitGame? {
      InitGameEffect(b, e.complete, e.id);
    } else if e.ClassReply? {
      ClassReplyEffect(b, e.outcome);
    } else if e.ToggleSpectating? {
      ToggleEffect(b, e.on);
    } else if e.DialogBox? {
      DialogBoxEffect(b, e.close);
    } else if e.GameModeRestart? {
      RestartEffect(b);
    } else {
      ConnectionLostEffect(b);
    }
  }
}
