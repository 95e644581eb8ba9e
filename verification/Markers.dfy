/** Packet_MarkersSync: variable-length entries with a one-bit flag in the middle, so that
    every entry after the first may start at any bit. */
module Markers {
  import opened Machine
  import opened Protocol
  import opened Wire
  import opened Players

  datatype Marker = Marker(id: u16, active: bool, x: u16, y: u16, z: u16)

  /** Two's complement: the number of this range that is congruent to the word. */
  function Signed16(v: u16): (s: int)
    ensures -0x8000 <= s < 0x8000 && s % 0x1_0000 == v
  {
    if v < 0x8000 then v else v - B16
  }

  function Apply(players: seq<Player>, m: Marker): seq<Player>
    requires m.id < |players|
  {
    var p := players[m.id];
    players[m.id := if !m.active then p.(gotMarker := false)
                    else p.(gotMarker := true, markerPos := (Signed16(m.x), Signed16(m.y), Signed16(m.z)))]
  }

  /** Applies the entries up to the first whose id is out of range. */
  function ApplyGood(players: seq<Player>, ms: seq<Marker>): (r: seq<Player>)
    requires |players| == MAX_PLAYERS
    ensures |r| == MAX_PLAYERS
    decreases ms
  {
    if ms == [] || ms[0].id >= MAX_PLAYERS then players else ApplyGood(Apply(players, ms[0]), ms[1..])
  }

  function EncodeMarker(m: Marker): Bits {
    LEBits(m.id, 2) +
    ([m.active] + if m.active then PositionBits(m) else [])
  }

  /** Which bits are which; an inactive entry ends after the flag. */
  lemma MarkerLayout(m: Marker)
    ensures var b := EncodeMarker(m);
      && |b| == (if m.active then 65 else 17)
      && HasAt(b, 0, LEBits(m.id, 2)) && b[16] == m.active
      && (m.active ==> HasAt(b, 17, LEBits(m.x, 2)) && HasAt(b, 33, LEBits(m.y, 2)) && HasAt(b, 49, LEBits(m.z, 2)))
  {
    var b := EncodeMarker(m);
    var pos := if m.active then PositionBits(m) else [];
    assert HasAt(b, 0, b);
    HasSplit(b, 0, LEBits(m.id, 2), [m.active] + pos);
    FlagThen(b, 16, m.active, pos);
    if m.active {
      HasSplit(b, 17, LEBits(m.x, 2), LEBits(m.y, 2) + LEBits(m.z, 2));
      HasSplit(b, 33, LEBits(m.y, 2), LEBits(m.z, 2));
    }
  }

  function Encode(ms: seq<Marker>): Bits {
    if ms == [] then [] else EncodeMarker(ms[0]) + Encode(ms[1..])
  }

  /** The whole packet: identifier byte, 32-bit count, entries. */
  function EncodePacket(packetId: u8, ms: seq<Marker>): Bits {
    LEBits(packetId, 1) + (LEBits(|ms|, 4) + Encode(ms))
  }

  /** One turn of the loop on locals that keep their value when a read is short: the new
      locals and offset, and whether the handler goes on. */
  function ReadMarker(data: Bits, at: nat, dest: Marker): (Marker, nat, bool) {
    var (id, at1) := Into(U16(data, at), dest.id);
    if id >= MAX_PLAYERS then (dest.(id := id), at1, false)
    else
      var (active, at2) := Into(Flag(data, at1), dest.active);
      if !active then (dest.(id := id, active := false), at2, true)
      else
        var (x, at3) := Into(U16(data, at2), dest.x);
        var (y, at4) := Into(U16(data, at3), dest.y);
        var (z, at5) := Into(U16(data, at4), dest.z);
        (Marker(id, true, x, y, z), at5, true)
  }

  function Turns(players: seq<Player>, data: Bits, at: nat, last: Marker, k: nat): (r: seq<Player>)
    requires |players| == MAX_PLAYERS
    ensures |r| == MAX_PLAYERS
    decreases k
  {
    if k == 0 then players
    else
      var (m, next, go) := ReadMarker(data, at, last);
      if !go then players else Turns(Apply(players, m), data, next, m, k - 1)
  }

  /** `junk` and `junkCount` are what the uninitialised locals hold. */
  method PacketMarkersSync(players: array<Player>, data: Bits, junk: Marker, junkCount: u32)
    requires players.Length == MAX_PLAYERS
    modifies players
    ensures var count := if 40 <= |data| then LEValue(data[8..40]) else junkCount;
      players[..] == if count <= 1000
                     then Turns(old(players[..]), data, if 40 <= |data| then 40 else 8, junk, count)
                     else old(players[..])
  {
    ghost var given := players[..];
    var bs := new BitStream(data);
    bs.IgnoreBits(8);
    var _, rawCount := bs.ReadU32(junkCount);
    var count := Signed32(rawCount);
    if count < 0 || count > MAX_PLAYERS {
      return;
    }
    var m := junk;
    var i := 0;
    ghost var at0 := bs.offset;
    while i < count
      invariant 0 <= i <= count
      invariant bs.data == data
      invariant Turns(given, data, at0, junk, count) == Turns(players[..], data, bs.offset, m, count - i)
    {
      ghost var before, at, last := players[..], bs.offset, m;
      var _, id := bs.ReadU16(m.id);
      m := m.(id := id);
      if m.id >= MAX_PLAYERS {
        return;
      }
      var _, active := bs.ReadFlag(m.active);
      m := m.(active := active);
      i := i + 1;
      if !m.active {
        assert ReadMarker(data, at, last) == (m, bs.offset, true);
        players[m.id] := players[m.id].(gotMarker := false);
        assert players[..] == Apply(before, m);
        continue;
      }
      var _, x := bs.ReadU16(m.x);
      var _, y := bs.ReadU16(m.y);
      var _, z := bs.ReadU16(m.z);
      m := m.(x := x, y := y, z := z);
      assert ReadMarker(data, at, last) == (m, bs.offset, true);
      players[m.id] := players[m.id].(gotMarker := true, markerPos := (Signed16(x), Signed16(y), Signed16(z)));
      assert players[..] == Apply(before, m);
    }
  }

  function PositionBits(m: Marker): Bits {
    LEBits(m.x, 2) + (LEBits(m.y, 2) + LEBits(m.z, 2))
  }

  lemma PositionBack(data: Bits, at: nat, m: Marker)
    requires HasAt(data, at, PositionBits(m))
    ensures U16(data, at) == Got.Got(m.x, at + 16)
    ensures U16(data, at + 16) == Got.Got(m.y, at + 32) && U16(data, at + 32) == Got.Got(m.z, at + 48)
  {
    U16Then(data, at, m.x, LEBits(m.y, 2) + LEBits(m.z, 2));
    U16Then(data, at + 16, m.y, LEBits(m.z, 2));
    U16Back(data, at + 32, m.z);
  }

  /** Reading an entry gives the entry, except that an inactive one keeps the old position. */
  lemma ReadBack(data: Bits, at: nat, m: Marker, last: Marker)
    requires HasAt(data, at, EncodeMarker(m))
    ensures ReadMarker(data, at, last) ==
      if m.id >= MAX_PLAYERS then (last.(id := m.id), at + 16, false)
      else if m.active then (m, at + |EncodeMarker(m)|, true)
      else (last.(id := m.id, active := false), at + |EncodeMarker(m)|, true)
  {
    var pos := if m.active then PositionBits(m) else [];
    U16Then(data, at, m.id, [m.active] + pos);
    FlagThen(data, at + 16, m.active, pos);
    if m.active {
      PositionBack(data, at + 17, m);
    }
  }

  lemma TurnStep(players: seq<Player>, data: Bits, at: nat, last: Marker, m: Marker, k: nat) returns (m': Marker)
    requires |players| == MAX_PLAYERS && HasAt(data, at, EncodeMarker(m)) && m.id < MAX_PLAYERS
    ensures Turns(players, data, at, last, k + 1) == Turns(Apply(players, m), data, at + |EncodeMarker(m)|, m', k)
  {
    ReadBack(data, at, m, last);
    m' := ReadMarker(data, at, last).0;
  }

  lemma {:induction false} TurnsApply(players: seq<Player>, data: Bits, at: nat, last: Marker, ms: seq<Marker>)
    requires |players| == MAX_PLAYERS && HasAt(data, at, Encode(ms))
    ensures Turns(players, data, at, last, |ms|) == ApplyGood(players, ms)
    decreases ms
  {
    if ms != [] {
      HasSplit(data, at, EncodeMarker(ms[0]), Encode(ms[1..]));
      if ms[0].id < MAX_PLAYERS {
        var m := TurnStep(players, data, at, last, ms[0], |ms| - 1);
        TurnsApply(Apply(players, ms[0]), data, at + |EncodeMarker(ms[0])|, m, ms[1..]);
      } else {
        ReadBack(data, at, ms[0], last);
      }
    }
  }

  /** Decoding any encoded packet, whatever bits pad it and whatever the uninitialised
      locals hold, applies exactly the entries before the first out-of-range id. */
  lemma MarkersDecode(players: seq<Player>, packetId: u8, ms: seq<Marker>, pad: Bits, junk: Marker)
    requires |players| == MAX_PLAYERS && |ms| <= MAX_PLAYERS
    ensures var data := EncodePacket(packetId, ms) + pad;
      |data| >= 40 && LEValue(data[8..40]) == |ms| &&
      Turns(players, data, 40, junk, |ms|) == ApplyGood(players, ms)
  {
    var packet := EncodePacket(packetId, ms);
    var data := packet + pad;
    assert data[0..|packet|] == packet;
    HasSplit(data, 0, LEBits(packetId, 1), LEBits(|ms|, 4) + Encode(ms));
    U32Then(data, 8, |ms|, Encode(ms));
    TurnsApply(players, data, 40, junk, ms);
  }

  /** The first index with an out-of-range id, or the number of entries. */
  function GoodPrefix(ms: seq<Marker>): (k: nat)
    ensures k <= |ms|
  {
    if ms == [] || ms[0].id >= MAX_PLAYERS then 0 else 1 + GoodPrefix(ms[1..])
  }

  ghost predicate LastMention(ms: seq<Marker>, id: nat, k: nat, n: nat) {
    k < n <= |ms| && ms[k].id == id && forall i :: k < i < n ==> ms[i].id != id
  }

  ghost predicate LastActive(ms: seq<Marker>, id: nat, k: nat, n: nat) {
    k < n <= |ms| && ms[k].id == id && ms[k].active && forall i :: k < i < n ==> ms[i].id != id || !ms[i].active
  }

  /** Only marker fields change, and only those of players mentioned before the bad entry. */
  lemma {:induction false} MarkersFrame(players: seq<Player>, ms: seq<Marker>, id: nat)
    requires |players| == MAX_PLAYERS && id < MAX_PLAYERS
    ensures var after := ApplyGood(players, ms)[id];
      after == players[id].(gotMarker := after.gotMarker, markerPos := after.markerPos)
    ensures (forall i :: 0 <= i < GoodPrefix(ms) ==> ms[i].id != id) ==> ApplyGood(players, ms)[id] == players[id]
    decreases ms
  {
    if ms != [] && ms[0].id < MAX_PLAYERS {
      MarkersFrame(Apply(players, ms[0]), ms[1..], id);
      if forall i :: 0 <= i < GoodPrefix(ms) ==> ms[i].id != id {
        assert ms[0].id != id;
        assert forall i :: 0 <= i < GoodPrefix(ms[1..]) ==> ms[1..][i].id == ms[i + 1].id;
      }
    }
  }

  /** A player's activity is that of the last entry, at k, that mentions it. */
  lemma {:induction false} LastMentionWins(players: seq<Player>, ms: seq<Marker>, id: nat, k: nat)
    requires |players| == MAX_PLAYERS && id < MAX_PLAYERS && LastMention(ms, id, k, GoodPrefix(ms))
    ensures ApplyGood(players, ms)[id].gotMarker == ms[k].active
    decreases ms
  {
    var rest := ms[1..];
    assert forall i :: 0 <= i < |rest| ==> rest[i] == ms[i + 1];
    if k > 0 {
      LastMentionWins(Apply(players, ms[0]), rest, id, k - 1);
    } else {
      MarkersFrame(Apply(players, ms[0]), rest, id);
    }
  }

  lemma {:induction false} PositionKept(players: seq<Player>, ms: seq<Marker>, id: nat)
    requires |players| == MAX_PLAYERS && id < MAX_PLAYERS
    requires forall i :: 0 <= i < GoodPrefix(ms) ==> ms[i].id != id || !ms[i].active
    ensures ApplyGood(players, ms)[id].markerPos == players[id].markerPos
    decreases ms
  {
    if ms != [] && ms[0].id < MAX_PLAYERS {
      assert ms[0].id != id || !ms[0].active;
      assert forall i :: 0 <= i < GoodPrefix(ms[1..]) ==> ms[1..][i] == ms[i + 1];
      PositionKept(Apply(players, ms[0]), ms[1..], id);
    }
  }

  /** A coordinate is the signed number its 16-bit word is congruent to. */
  ghost predicate IsCoordinate(word: u16, c: int) {
    -0x8000 <= c <= 0x7FFF && c % 0x1_0000 == word
  }

  /** A player's position is that of the last active entry, at k, that mentions it. */
  lemma LastActiveWins(players: seq<Player>, ms: seq<Marker>, id: nat, k: nat)
    requires |players| == MAX_PLAYERS && id < MAX_PLAYERS && LastActive(ms, id, k, GoodPrefix(ms))
    ensures var (x, y, z) := ApplyGood(players, ms)[id].markerPos;
      IsCoordinate(ms[k].x, x) && IsCoordinate(ms[k].y, y) && IsCoordinate(ms[k].z, z)
  {
    LastActivePosition(players, ms, id, k);
  }

  /** What a server writes for a player at a signed position. */
  function Sight(id: u16, x: int, y: int, z: int): Marker {
    Marker(id, true, x % 0x1_0000, y % 0x1_0000, z % 0x1_0000)
  }

  /** Coordinates of either sign come back as they are, whatever packet carries them. */
  lemma CoordinatesComeBack(players: seq<Player>, ms: seq<Marker>, id: u16, k: nat, x: int, y: int, z: int)
    requires |players| == MAX_PLAYERS && id < MAX_PLAYERS && LastActive(ms, id, k, GoodPrefix(ms))
    requires -0x8000 <= x <= 0x7FFF && -0x8000 <= y <= 0x7FFF && -0x8000 <= z <= 0x7FFF
    requires ms[k] == Sight(id, x, y, z)
    ensures ApplyGood(players, ms)[id].markerPos == (x, y, z)
  {
    LastActiveWins(players, ms, id, k);
    var (x', y', z') := ApplyGood(players, ms)[id].markerPos;
    SameCoordinate(x, x');
    SameCoordinate(y, y');
    SameCoordinate(z, z');
  }

  lemma SameCoordinate(a: int, b: int)
    requires -0x8000 <= a <= 0x7FFF && -0x8000 <= b <= 0x7FFF && a % 0x1_0000 == b % 0x1_0000
    ensures a == b
  {
  }

  lemma {:induction false} LastActivePosition(players: seq<Player>, ms: seq<Marker>, id: nat, k: nat)
    requires |players| == MAX_PLAYERS && id < MAX_PLAYERS && LastActive(ms, id, k, GoodPrefix(ms))
    ensures ApplyGood(players, ms)[id].markerPos == (Signed16(ms[k].x), Signed16(ms[k].y), Signed16(ms[k].z))
    decreases ms
  {
    var rest := ms[1..];
    assert forall i :: 0 <= i < |rest| ==> rest[i] == ms[i + 1];
    if k > 0 {
      LastActivePosition(Apply(players, ms[0]), rest, id, k - 1);
    } else {
      PositionKept(Apply(players, ms[0]), rest, id);
    }
  }
}
