/** UpdateScoresPingsIPs: ten-byte entries read by a loop bounded by bytes / 9. */
module Scores {
  import opened Machine
  import opened Protocol
  import opened Wire
  import opened Players

  datatype Entry = Entry(id: u16, score: u32, ping: u32)

  function Apply(players: seq<Player>, e: Entry): seq<Player> {
    if e.id >= MAX_PLAYERS || e.id >= |players| then players
    else players[e.id := players[e.id].(score := Signed32(e.score), ping := e.ping)]
  }

  function ApplyAll(players: seq<Player>, es: seq<Entry>): seq<Player> {
    if es == [] then players else Apply(ApplyAll(players, es[..|es| - 1]), es[|es| - 1])
  }

  function EncodeEntry(e: Entry): (b: Bits)
    ensures |b| == 80
  {
    LEBits(e.id, 2) + (LEBits(e.score, 4) + LEBits(e.ping, 4))
  }

  /** Which bits are which. */
  lemma EntryLayout(e: Entry)
    ensures var b := EncodeEntry(e);
      HasAt(b, 0, LEBits(e.id, 2)) && HasAt(b, 16, LEBits(e.score, 4)) && HasAt(b, 48, LEBits(e.ping, 4))
  {
    var b := EncodeEntry(e);
    assert HasAt(b, 0, b);
    HasSplit(b, 0, LEBits(e.id, 2), LEBits(e.score, 4) + LEBits(e.ping, 4));
    HasSplit(b, 16, LEBits(e.score, 4), LEBits(e.ping, 4));
  }

  function Encode(es: seq<Entry>): (b: Bits)
    ensures |b| == 80 * |es|
  {
    if es == [] then [] else EncodeEntry(es[0]) + Encode(es[1..])
  }

  // ---------------------------------------------------------------- the loop

  /** Three reads, each of which keeps the old value when the stream is too short. */
  function ReadEntry(data: Bits, at: nat, dest: Entry): (Entry, nat) {
    var (id, at1) := Into(U16(data, at), dest.id);
    var (score, at2) := Into(U32(data, at1), dest.score);
    var (ping, at3) := Into(U32(data, at2), dest.ping);
    (Entry(id, score, ping), at3)
  }

  /** What the locals hold after k turns, and the offset reached; they start as `junk`. */
  function Locals(data: Bits, junk: Entry, k: nat): (Entry, nat) {
    if k == 0 then (junk, 0)
    else
      var (e, at) := Locals(data, junk, k - 1);
      ReadEntry(data, at, e)
  }

  /** The table after k turns. */
  function Turns(players: seq<Player>, data: Bits, junk: Entry, k: nat): seq<Player> {
    if k == 0 then players else Apply(Turns(players, data, junk, k - 1), Locals(data, junk, k).0)
  }

  method ReadFields(bs: BitStream, id0: u16, score0: u32, ping0: u32) returns (id: u16, score: u32, ping: u32)
    modifies bs
    ensures (Entry(id, score, ping), bs.offset) == ReadEntry(bs.data, old(bs.offset), Entry(id0, score0, ping0))
  {
    var ok: bool;
    ok, id := bs.ReadU16(id0);
    ok, score := bs.ReadU32(score0);
    ok, ping := bs.ReadU32(ping0);
  }

  /** `data` is the payload plus one byte, as the stream is built; `junk` is what the
      uninitialised locals hold. The 16-bit counter must be able to reach the bound. */
  method UpdateScoresPingsIPs(players: array<Player>, gameInited: bool, data: Bits, bitLength: nat, junk: Entry)
    requires players.Length == MAX_PLAYERS
    requires |data| == 8 * (bitLength / 8 + 1) && bitLength / 8 / 9 < B16
    modifies players
    ensures players[..] == if gameInited
                           then ApplyAll(old(players[..]), Entries(data, bitLength / 8 / 9))
                           else old(players[..])
  {
    if !gameInited {
      return;
    }
    ghost var given := players[..];
    var bs := new BitStream(data);
    var playerId: u16, score: u32, ping: u32 := junk.id, junk.score, junk.ping;
    var i: u16 := 0;
    var bound := bitLength / 8 / 9;
    while i < bound
      invariant i <= bound
      invariant bs.data == data && (Entry(playerId, score, ping), bs.offset) == Locals(data, junk, i)
      invariant players[..] == Turns(given, data, junk, i)
    {
      ghost var before := players[..];
      playerId, score, ping := ReadFields(bs, playerId, score, ping);
      i := i + 1;
      if playerId >= MAX_PLAYERS {
        continue;
      }
      players[playerId] := players[playerId].(score := Signed32(score), ping := ping);
      assert players[..] == Apply(before, Entry(playerId, score, ping));
    }
    TurnsOfPayload(given, data, junk, bound);
  }

  /** Past the last entry every read is short, so that every further turn applies the last
      entry again and changes nothing. */
  lemma {:induction false} SurplusTurns(players: seq<Player>, data: Bits, junk: Entry, k: nat, more: nat)
    requires k > 0 && Locals(data, junk, k).1 + 16 > |data|
    ensures Locals(data, junk, k + more) == Locals(data, junk, k)
    ensures Turns(players, data, junk, k + more) == Turns(players, data, junk, k)
  {
    if more > 0 {
      SurplusTurns(players, data, junk, k, more - 1);
    }
  }

  // ---------------------------------------------------------------- payloads of any length

  /** The ten-byte entry at a bit offset. */
  function EntryAt(data: Bits, at: nat): Entry
    requires at + 80 <= |data|
  {
    Entry(U16(data, at).value, U32(data, at + 16).value, U32(data, at + 48).value)
  }

  /** The first n entries of a stream that holds them whole. */
  function Whole(data: Bits, n: nat): (es: seq<Entry>)
    requires 80 * n <= |data|
    ensures |es| == n
  {
    seq(n, i requires 0 <= i < n => EntryAt(data, 80 * i))
  }

  /** A cut-off entry: the id if two bytes of it are there, the score if six are, the rest
      from the entry before. */
  function Cut(data: Bits, at: nat, before: Entry): Entry {
    Entry(if at + 16 <= |data| then U16(data, at).value else before.id,
          if at + 48 <= |data| then U32(data, at + 16).value else before.score, before.ping)
  }

  /** Two bytes left over by a cut-off entry are taken for the id of one more. */
  function Leftover(data: Bits, at: nat, cut: Entry): Entry {
    if at + 64 <= |data| then cut.(id := U16(data, at + 48).value)
    else if at + 32 <= |data| < at + 48 then cut.(id := U16(data, at + 16).value)
    else cut
  }

  /** What up to two turns past n whole entries read. */
  function Rest(data: Bits, n: nat, more: nat): seq<Entry>
    requires 0 < n && 80 * n <= |data|
  {
    var cut := Cut(data, 80 * n, EntryAt(data, 80 * (n - 1)));
    if more == 0 then [] else if more == 1 then [cut] else [cut, Leftover(data, 80 * n, cut)]
  }

  /** The entries a stream is applied as: those it holds whole and, where the loop has turns
      left, the cut-off one and then what that one leaves over. */
  function Entries(data: Bits, turns: nat): seq<Entry>
    requires |data| < 80 ==> turns == 0
  {
    var n := |data| / 80;
    if 80 * turns <= |data| then Whole(data, turns) else Whole(data, n) + Rest(data, n, turns - n)
  }

  lemma {:induction false} LocalsWhole(data: Bits, junk: Entry, k: nat)
    requires 80 * k <= |data|
    ensures Locals(data, junk, k) == (if k == 0 then junk else EntryAt(data, 80 * (k - 1)), 80 * k)
  {
    if k > 0 {
      LocalsWhole(data, junk, k - 1);
    }
  }

  lemma {:induction false} ApplyMore(players: seq<Player>, es: seq<Entry>, e: Entry)
    ensures ApplyAll(players, es + [e]) == Apply(ApplyAll(players, es), e)
  {
    assert (es + [e])[..|es|] == es;
  }

  lemma {:induction false} TurnsWhole(players: seq<Player>, data: Bits, junk: Entry, k: nat)
    requires 80 * k <= |data|
    ensures Turns(players, data, junk, k) == ApplyAll(players, Whole(data, k))
  {
    if k > 0 {
      TurnsWhole(players, data, junk, k - 1);
      LocalsWhole(data, junk, k);
      assert Whole(data, k)[..k - 1] == Whole(data, k - 1);
    }
  }

  /** The two turns after the last whole entry; then nothing is left to read. */
  lemma {:induction false} LocalsCut(data: Bits, junk: Entry, n: nat, more: nat)
    requires 0 < n && 80 * n <= |data| < 80 * n + 80 && more > 0
    ensures var cut, left := Locals(data, junk, n + 1).0, Locals(data, junk, n + 2).0;
      Rest(data, n, more) == if more == 1 then [cut] else [cut, left]
    ensures Locals(data, junk, n + 2).1 + 16 > |data|
  {
    LocalsWhole(data, junk, n);
    var (cut, at) := Locals(data, junk, n + 1);
    assert (cut, at) == ReadEntry(data, 80 * n, EntryAt(data, 80 * (n - 1)));
  }

  lemma {:induction false} ApplyTwoMore(players: seq<Player>, es: seq<Entry>, e: Entry, f: Entry)
    ensures ApplyAll(players, es + [e]) == Apply(ApplyAll(players, es), e)
    ensures ApplyAll(players, es + [e, f]) == Apply(Apply(ApplyAll(players, es), e), f)
  {
    ApplyMore(players, es, e);
    assert es + [e, f] == es + [e] + [f];
    ApplyMore(players, es + [e], f);
  }

  lemma {:induction false} TwoTurns(players: seq<Player>, data: Bits, junk: Entry, n: nat, turns: nat)
    requires n < turns && Locals(data, junk, n + 2).1 + 16 > |data|
    ensures var cut := Apply(Turns(players, data, junk, n), Locals(data, junk, n + 1).0);
      Turns(players, data, junk, turns) == if turns == n + 1 then cut else Apply(cut, Locals(data, junk, n + 2).0)
  {
    if turns > n + 1 {
      SurplusTurns(players, data, junk, n + 2, turns - n - 2);
    }
  }

  lemma {:induction false} TurnsPast(players: seq<Player>, data: Bits, junk: Entry, n: nat, turns: nat, es: seq<Entry>)
    requires 0 < n < turns && 80 * n <= |data| < 80 * n + 80
    requires Turns(players, data, junk, n) == ApplyAll(players, es)
    ensures Turns(players, data, junk, turns) == ApplyAll(players, es + Rest(data, n, turns - n))
  {
    LocalsCut(data, junk, n, turns - n);
    TwoTurns(players, data, junk, n, turns);
    ApplyTwoMore(players, es, Locals(data, junk, n + 1).0, Locals(data, junk, n + 2).0);
  }

  /** Any payload at all, whatever the uninitialised locals hold, leaves the table that
      applying the entries it is taken for leaves. */
  lemma {:induction false} TurnsOfPayload(players: seq<Player>, data: Bits, junk: Entry, turns: nat)
    requires |data| < 80 ==> turns == 0
    ensures Turns(players, data, junk, turns) == ApplyAll(players, Entries(data, turns))
  {
    if 80 * turns <= |data| {
      TurnsWhole(players, data, junk, turns);
    } else {
      var n := |data| / 80;
      TurnsWhole(players, data, junk, n);
      TurnsPast(players, data, junk, n, turns, Whole(data, n));
    }
  }

  /** How many entries a payload of `bytes` bytes is taken for: the whole ones of the stream,
      which has one byte more, and one or two others where turns are left for them. */
  lemma EntryCount(data: Bits, bytes: nat)
    requires |data| == 8 * (bytes + 1)
    ensures |data| < 80 ==> bytes / 9 == 0
    ensures var n, r := (bytes + 1) / 10, (bytes + 1) % 10;
      |Entries(data, bytes / 9)| == n + if n + r < 10 then 0 else if n + r < 19 then 1 else 2
  {
    var n, r := (bytes + 1) / 10, (bytes + 1) % 10;
    assert bytes / 9 == n + (n + r - 1) / 9;
  }

  // ---------------------------------------------------------------- payloads of whole entries

  lemma ReadBack(data: Bits, at: nat, e: Entry)
    requires HasAt(data, at, EncodeEntry(e))
    ensures EntryAt(data, at) == e
  {
    U16Then(data, at, e.id, LEBits(e.score, 4) + LEBits(e.ping, 4));
    U32Then(data, at + 16, e.score, LEBits(e.ping, 4));
    U32Back(data, at + 48, e.ping);
  }

  lemma {:induction false} EncodedEntry(data: Bits, at: nat, es: seq<Entry>, i: nat)
    requires HasAt(data, at, Encode(es)) && i < |es|
    ensures at + 80 * i + 80 <= |data| && EntryAt(data, at + 80 * i) == es[i]
    decreases i
  {
    HasSplit(data, at, EncodeEntry(es[0]), Encode(es[1..]));
    if i == 0 {
      ReadBack(data, at, es[0]);
    } else {
      EncodedEntry(data, at + 80, es[1..], i - 1);
    }
  }

  lemma {:induction false} WholeOfEncoded(data: Bits, es: seq<Entry>)
    requires 80 * |es| <= |data| && forall i :: 0 <= i < |es| ==> EntryAt(data, 80 * i) == es[i]
    ensures Whole(data, |es|) == es
  {
  }

  /** For every list of ten-byte entries, whatever the stray last byte and the uninitialised
      locals hold, the loop leaves the table that applying exactly those entries leaves. */
  lemma {:induction false} ScoresRefineFold(players: seq<Player>, es: seq<Entry>, stray: Bits, junk: Entry)
    requires |stray| == 8
    ensures Turns(players, Encode(es) + stray, junk, 80 * |es| / 8 / 9) == ApplyAll(players, es)
  {
    var data, n := Encode(es) + stray, |es|;
    assert data[0..80 * n] == Encode(es);
    forall i | 0 <= i < n ensures EntryAt(data, 80 * i) == es[i] {
      EncodedEntry(data, 0, es, i);
    }
    WholeOfEncoded(data, es);
    TurnsWhole(players, data, junk, n);
    LocalsWhole(data, junk, n);
    assert 80 * n / 8 / 9 == n + n / 9;
    if n > 0 {
      SurplusTurns(players, data, junk, n, n / 9);
    }
  }

  lemma {:induction false} SameSize(players: seq<Player>, es: seq<Entry>)
    ensures |ApplyAll(players, es)| == |players|
  {
    if es != [] {
      SameSize(players, es[..|es| - 1]);
    }
  }

  lemma {:induction false} Unnamed(players: seq<Player>, es: seq<Entry>, k: nat, id: nat)
    requires k <= |es| && id < |players| && forall i :: k <= i < |es| ==> es[i].id != id
    ensures |ApplyAll(players, es)| == |ApplyAll(players, es[..k])| == |players|
    ensures ApplyAll(players, es)[id] == ApplyAll(players, es[..k])[id]
  {
    SameSize(players, es[..k]);
    if k == |es| {
      assert es[..k] == es;
    } else {
      var n := |es| - 1;
      Unnamed(players, es[..n], k, id);
      assert es[..n][..k] == es[..k];
    }
  }

  /** What the fold leaves: each player has the figures of the last entry that names it. */
  lemma {:induction false} LastEntryWins(players: seq<Player>, es: seq<Entry>, k: nat, id: nat)
    requires id < MAX_PLAYERS && |players| == MAX_PLAYERS
    requires k < |es| && es[k].id == id && forall i :: k < i < |es| ==> es[i].id != id
    ensures |ApplyAll(players, es)| == MAX_PLAYERS
    ensures ApplyAll(players, es)[id].score == Signed32(es[k].score) && ApplyAll(players, es)[id].ping == es[k].ping
  {
    Unnamed(players, es, k + 1, id);
    SameSize(players, es[..k]);
    assert es[..k + 1][..k] == es[..k];
  }

  /** Nothing but figures changes, and those of no player that is not named. */
  lemma {:induction false} OnlyFigures(players: seq<Player>, es: seq<Entry>, id: nat)
    requires id < |players|
    ensures |ApplyAll(players, es)| == |players|
    ensures var p := ApplyAll(players, es)[id];
      && p == players[id].(score := p.score, ping := p.ping)
      && ((forall i :: 0 <= i < |es| ==> es[i].id != id) ==> p == players[id])
  {
    if es != [] {
      OnlyFigures(players, es[..|es| - 1], id);
    }
  }
}
