/** The table of remote players: who is connected, and the handlers that change it. */
module Players {
  import opened Machine
  import opened Protocol
  import opened Geometry

  datatype Keys = Keys(lrAnalog: u16, udAnalog: u16, keys: u16)

  /** Position words are the raw 32-bit floats. */
  datatype Motion = Motion(rotation: Quat, pos: (u32, u32, u32), speed: Vec3)

  /** Car health is a float that holds the integer received. */
  datatype Vitals = Vitals(carHealth: u16, health: u8, armour: u8, weapon: u8)

  datatype Extras = Extras(siren: bool, gear: bool, trailer: u16, trainSpeed: u16)

  /** The last in-car sync of a player, in the order of the packet. */
  datatype InCar = InCar(keys: Keys, motion: Motion, vitals: Vitals, extras: Extras)

  const NO_IN_CAR: InCar :=
    InCar(Keys(0, 0, 0),
          Motion(Quat(0.0, 0.0, 0.0, 0.0), (0, 0, 0), Vec3(0.0, 0.0, 0.0)),
          Vitals(0, 0, 0, 0),
          Extras(false, false, 0, 0))

  datatype Player = Player(
    connected: bool, gotMarker: bool, markerPos: (int, int, int), score: int, ping: u32, inCar: InCar)

  const BLANK: Player := Player(false, false, (0, 0, 0), 0, 0, NO_IN_CAR)

  function ConnectedIds(players: seq<Player>): set<nat> {
    set i | 0 <= i < |players| && players[i].connected
  }

  /** `memset(playerInfo, 0, sizeof(stPlayerInfo))` clears one entry. */
  method ResetPools(players: array<Player>)
    requires players.Length == MAX_PLAYERS
    modifies players
    ensures players[..] == old(players[..])[0 :=
      Player(false, false, (0, 0, 0), 0, 0,
             InCar(Keys(0, 0, 0), Motion(Quat(0.0, 0.0, 0.0, 0.0), (0, 0, 0), Vec3(0.0, 0.0, 0.0)),
                   Vitals(0, 0, 0, 0), Extras(false, false, 0, 0)))]
  {
    players[0] := BLANK;
  }

  /** A reset empties the table exactly when nobody but player 0 was connected. */
  lemma ResetClearsOnlyFirst(players: seq<Player>)
    requires |players| == MAX_PLAYERS
    ensures ConnectedIds(players[0 := BLANK]) == ConnectedIds(players) - {0}
    ensures ConnectedIds(players[0 := BLANK]) == {} <==> ConnectedIds(players) <= {0}
  {
    var reset := players[0 := BLANK];
    forall i ensures i in ConnectedIds(reset) <==> i in ConnectedIds(players) - {0} {
    }
    if ConnectedIds(players) <= {0} {
      assert ConnectedIds(players) - {0} == {};
    }
    if ConnectedIds(reset) == {} {
      assert forall i :: i in ConnectedIds(players) && i != 0 ==> i in ConnectedIds(reset);
    }
  }

  /** A table on which the reset fails: with players 0 and 1 connected, 1 stays connected. */
  lemma ResetLeavesStale() returns (players: seq<Player>)
    ensures |players| == MAX_PLAYERS && ConnectedIds(players) == {0, 1} && ConnectedIds(players[0 := BLANK]) == {1}
  {
    var on := BLANK.(connected := true);
    players := seq(MAX_PLAYERS, i => if i < 2 then on else BLANK);
    assert forall i :: i in ConnectedIds(players) <==> i in {0, 1};
    ResetClearsOnlyFirst(players);
  }

  /** `Closed` is the end of a session or the opening of another, which clear iGameInited;
      `Reset` is a call of resetPools, on initialisation and after a rejected nickname. */
  datatype TableEvent =
    | Accept(id: u16)
    | InitGame
    | Join(id: u16, nameLen: u8)
    | Quit(id: u16)
    | Closed
    | Reset

  method ConnectionSucceeded(players: array<Player>, id: u16)
    requires players.Length == 1000 && id < 1000
    modifies players
    ensures players[..] == old(players[..])[id := old(players[id]).(connected := true)]
  {
    players[id] := players[id].(connected := true);
  }

  method ServerJoin(players: array<Player>, gameInited: bool, id: u16, nameLen: u8)
    requires players.Length == MAX_PLAYERS
    modifies players
    ensures players[..] == if gameInited && nameLen <= 20 && id < 1000
                           then old(players[..])[id := old(players[..])[id].(connected := true)]
                           else old(players[..])
  {
    if !gameInited {
      return;
    }
    if nameLen > 20 {
      return;
    }
    if id >= MAX_PLAYERS {
      return;
    }
    players[id] := players[id].(connected := true);
  }

  method ServerQuit(players: array<Player>, gameInited: bool, id: u16)
    requires players.Length == MAX_PLAYERS
    modifies players
    ensures players[..] == if gameInited && id < 1000
                           then old(players[..])[id := old(players[..])[id].(connected := false)]
                           else old(players[..])
  {
    if !gameInited {
      return;
    }
    if id >= MAX_PLAYERS {
      return;
    }
    players[id] := players[id].(connected := false);
  }

  /** Counts the connected entries; the 16-bit counter cannot overflow. */
  method GetPlayerCount(players: array<Player>) returns (count: u16)
    requires players.Length == MAX_PLAYERS
    ensures count == |ConnectedIds(players[..])|
  {
    count := 0;
    for i := 0 to MAX_PLAYERS
      invariant count <= i
      invariant count == |ConnectedIds(players[..i])|
    {
      NextConnected(players[..i], players[i]);
      assert players[..i + 1] == players[..i] + [players[i]];
      if players[i].connected {
        count := count + 1;
      }
    }
    assert players[..MAX_PLAYERS] == players[..];
  }

  lemma NextConnected(players: seq<Player>, p: Player)
    ensures ConnectedIds(players + [p]) == ConnectedIds(players) + if p.connected then {|players|} else {}
    ensures |players| !in ConnectedIds(players)
  {
  }

  // ---------------------------------------------------------------- whole histories

  function Inited(inited: bool, events: seq<TableEvent>): bool {
    if events == [] then inited
    else
      match events[|events| - 1]
      case InitGame => true
      case Closed => false
      case _ => Inited(inited, events[..|events| - 1])
  }

  /** The event is acted on for player `id`: ids in range, names short enough, joins and
      quits only after InitGame; a reset concerns player 0. */
  predicate Concerns(inited: bool, e: TableEvent, id: nat) {
    match e
    case Accept(i) => i == id && id < MAX_PLAYERS
    case Join(i, nameLen) => i == id && inited && nameLen <= 20 && id < MAX_PLAYERS
    case Quit(i) => i == id && inited && id < MAX_PLAYERS
    case Reset => id == 0
    case _ => false
  }

  predicate Removes(e: TableEvent) {
    e.Quit? || e.Reset?
  }

  /** The connected ids after one event. */
  function After(before: set<nat>, inited: bool, e: TableEvent): set<nat> {
    match e
    case Accept(id) => if Concerns(inited, e, id) then before + {id} else before
    case Join(id, _) => if Concerns(inited, e, id) then before + {id} else before
    case Quit(id) => if Concerns(inited, e, id) then before - {id} else before
    case Reset => before - {0}
    case _ => before
  }

  /** Players connected after a history, starting from those connected before it. */
  function Members(start: set<nat>, inited: bool, events: seq<TableEvent>): set<nat> {
    if events == [] then start
    else
      var n := |events| - 1;
      After(Members(start, inited, events[..n]), Inited(inited, events[..n]), events[n])
  }

  lemma UpdateConnected(players: seq<Player>, id: nat, on: bool)
    requires id < |players|
    ensures ConnectedIds(players[id := players[id].(connected := on)]) ==
            if on then ConnectedIds(players) + {id} else ConnectedIds(players) - {id}
  {
    var after := players[id := players[id].(connected := on)];
    forall i ensures i in ConnectedIds(after) <==>
      i in if on then ConnectedIds(players) + {id} else ConnectedIds(players) - {id}
    {
    }
  }

  /** Dispatches one event. */
  method Handle(players: array<Player>, inited0: bool, e: TableEvent) returns (inited: bool)
    requires players.Length == MAX_PLAYERS && (e.Accept? ==> e.id < MAX_PLAYERS)
    modifies players
    ensures inited == match e case InitGame => true case Closed => false case _ => inited0
    ensures ConnectedIds(players[..]) == After(ConnectedIds(old(players[..])), inited0, e)
  {
    ghost var before := players[..];
    inited := inited0;
    match e {
      case Accept(id) =>
        ConnectionSucceeded(players, id);
        UpdateConnected(before, id, true);
      case InitGame =>
        inited := true;
      case Join(id, nameLen) =>
        ServerJoin(players, inited, id, nameLen);
        if id < MAX_PLAYERS {
          UpdateConnected(before, id, true);
        }
      case Quit(id) =>
        ServerQuit(players, inited, id);
        if id < MAX_PLAYERS {
          UpdateConnected(before, id, false);
        }
      case Closed =>
        inited := false;
      case Reset =>
        ResetPools(players);
        ResetClearsOnlyFirst(before);
    }
  }

  /** Dispatches a history of events and counts the players at the end of it. */
  method PlayHistory(players: array<Player>, inited0: bool, events: seq<TableEvent>)
    returns (inited: bool, count: u16)
    requires players.Length == MAX_PLAYERS
    requires forall i :: 0 <= i < |events| && events[i].Accept? ==> events[i].id < MAX_PLAYERS
    modifies players
    ensures inited == Inited(inited0, events)
    ensures ConnectedIds(players[..]) == Members(ConnectedIds(old(players[..])), inited0, events)
    ensures count == |Members(ConnectedIds(old(players[..])), inited0, events)|
  {
    ghost var start := ConnectedIds(players[..]);
    inited := inited0;
    for i := 0 to |events|
      invariant inited == Inited(inited0, events[..i])
      invariant ConnectedIds(players[..]) == Members(start, inited0, events[..i])
    {
      assert events[..i + 1][..i] == events[..i];
      inited := Handle(players, inited, events[i]);
    }
    assert events[..|events|] == events;
    count := GetPlayerCount(players);
  }

  /** Event j of the history was acted on, for player `id`. */
  ghost predicate ActsOn(inited: bool, events: seq<TableEvent>, j: nat, id: nat)
    requires j < |events|
  {
    Concerns(Inited(inited, events[..j]), events[j], id)
  }

  lemma AfterIs(before: set<nat>, inited: bool, e: TableEvent, id: nat)
    ensures id in After(before, inited, e) <==> if Concerns(inited, e, id) then !Removes(e) else id in before
  {
  }

  lemma ActsOnPrefix(inited: bool, events: seq<TableEvent>, j: nat, n: nat, id: nat)
    requires j < n <= |events|
    ensures ActsOn(inited, events[..n], j, id) == ActsOn(inited, events, j, id)
  {
    assert events[..n][..j] == events[..j];
  }

  /** A player is connected exactly when the last event acted on for it, at k, was neither a
      quit nor a reset. */
  lemma {:induction false} MembersByLastEvent(start: set<nat>, inited: bool, events: seq<TableEvent>, id: nat, k: nat)
    requires k < |events| && ActsOn(inited, events, k, id)
    requires forall j :: k < j < |events| ==> !ActsOn(inited, events, j, id)
    ensures id in Members(start, inited, events) <==> !Removes(events[k])
  {
    var n := |events| - 1;
    AfterIs(Members(start, inited, events[..n]), Inited(inited, events[..n]), events[n], id);
    assert ActsOn(inited, events, n, id) <==> k == n;
    if k < n {
      forall j | k <= j < n ensures ActsOn(inited, events[..n], j, id) == ActsOn(inited, events, j, id) {
        ActsOnPrefix(inited, events, j, n, id);
      }
      MembersByLastEvent(start, inited, events[..n], id, k);
    }
  }

  /** With no event acted on for it, it is connected exactly when it was to begin with. */
  lemma {:induction false} MembersUntouched(start: set<nat>, inited: bool, events: seq<TableEvent>, id: nat)
    requires forall j :: 0 <= j < |events| ==> !ActsOn(inited, events, j, id)
    ensures id in Members(start, inited, events) <==> id in start
  {
    if events != [] {
      var n := |events| - 1;
      AfterIs(Members(start, inited, events[..n]), Inited(inited, events[..n]), events[n], id);
      assert !ActsOn(inited, events, n, id);
      forall j | 0 <= j < n ensures !ActsOn(inited, events[..n], j, id) {
        ActsOnPrefix(inited, events, j, n, id);
      }
      MembersUntouched(start, inited, events[..n], id);
    }
  }

  // ---------------------------------------------------------------- reconnecting

  /** A history, then its session closed and another opened, with or without a reset of the
      pools between the two. */
  function Reconnected(events: seq<TableEvent>, reset: bool, id: u16): seq<TableEvent> {
    var closed := events + [Closed];
    (if reset then closed + [Reset] else closed) + [Accept(id)] + [InitGame]
  }

  lemma MembersMore(start: set<nat>, inited: bool, events: seq<TableEvent>, e: TableEvent)
    ensures Members(start, inited, events + [e]) ==
            After(Members(start, inited, events), Inited(inited, events), e)
  {
    assert (events + [e])[..|events|] == events;
  }

  lemma ReconnectMembers(start: set<nat>, inited: bool, events: seq<TableEvent>, reset: bool, id: u16)
    requires id < MAX_PLAYERS
    ensures Members(start, inited, Reconnected(events, reset, id)) ==
            (Members(start, inited, events) - if reset then {0} else {}) + {id}
  {
    var closed := events + [Closed];
    MembersMore(start, inited, events, Closed);
    if reset {
      MembersMore(start, inited, closed, Reset);
      Joined(start, inited, closed + [Reset], id);
    } else {
      Joined(start, inited, closed, id);
    }
  }

  lemma Joined(start: set<nat>, inited: bool, events: seq<TableEvent>, id: u16)
    requires id < MAX_PLAYERS
    ensures Members(start, inited, events + [Accept(id)] + [InitGame]) == Members(start, inited, events) + {id}
  {
    MembersMore(start, inited, events, Accept(id));
    MembersMore(start, inited, events + [Accept(id)], InitGame);
  }

  /** Everyone connected in the old session stays counted in the new one, player 0 excepted
      after a reset; the count starts at one exactly when nobody else was left. */
  lemma ReconnectKeepsStale(start: set<nat>, inited: bool, events: seq<TableEvent>, reset: bool, id: u16)
    requires id < MAX_PLAYERS
    ensures var stale := Members(start, inited, events) - if reset then {0} else {};
      var now := Members(start, inited, Reconnected(events, reset, id));
      now == stale + {id} && (|now| == 1 <==> stale <= {id})
  {
    ReconnectMembers(start, inited, events, reset, id);
    var stale := Members(start, inited, events) - if reset then {0} else {};
    OnlyMember(stale, id);
  }

  lemma OnlyMember(s: set<nat>, id: nat)
    ensures |s + {id}| == 1 <==> s <= {id}
  {
    var all := s + {id};
    if s <= {id} {
      assert all == {id};
    } else {
      var x :| x in s && x != id;
      assert all == {id, x} + (all - {id, x});
    }
  }
}
