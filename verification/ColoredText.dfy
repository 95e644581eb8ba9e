/** SAMP-style {RRGGBB} text: the tag reader, the two renderers and the line splitter, as
    loops over NUL-terminated memory, against a recursive meaning on character strings. */
module ColoredText {
  import opened Machine
  import opened Text

  const NUL: char := '\0'

  datatype Vec4 = Vec4(x: real, y: real, z: real, w: real)

  /** A colour given by the caller, or set by a tag: the packed tag and the alpha factor. */
  datatype Colour = Given(v: Vec4) | Tagged(rgba: u32, alphaMul: real)

  datatype Run = Run(text: seq<char>, colour: Colour)

  // ---------------------------------------------------------------- tags

  /** Value of a hexadecimal digit of either case, -1 for any other character. */
  function HexOf(c: char): int {
    if '0' <= c <= '9' then c as int - '0' as int
    else if 'a' <= c <= 'f' then 10 + (c as int - 'a' as int)
    else if 'A' <= c <= 'F' then 10 + (c as int - 'A' as int)
    else -1
  }

  /** An opening brace, six hexadecimal digits and a closing brace. */
  predicate IsTag(e: seq<char>) {
    |e| == 8 && e[0] == '{' && e[7] == '}' && forall i :: 0 < i < 7 ==> HexOf(e[i]) >= 0
  }

  /** Hexadecimal digits are these characters and no other. */
  predicate IsHexChar(c: char) {
    '0' <= c <= '9' || 'a' <= c <= 'f' || 'A' <= c <= 'F'
  }

  lemma HexOfIs(c: char)
    ensures HexOf(c) >= 0 <==> IsHexChar(c)
    ensures HexOf(c) < 16
  {
  }

  /** Which eight characters are a tag. */
  lemma TagCharacters(e: seq<char>)
    ensures IsTag(e) <==>
      |e| == 8 && e[0] == '{' && e[7] == '}' &&
      forall i :: 0 < i < 7 ==> '0' <= e[i] <= '9' || 'a' <= e[i] <= 'f' || 'A' <= e[i] <= 'F'
  {
    if |e| == 8 {
      forall i | 0 < i < 7 ensures HexOf(e[i]) >= 0 <==> IsHexChar(e[i]) {
        HexOfIs(e[i]);
      }
    }
  }

  /** A whole tag stands at s. */
  predicate TagAt(mem: seq<char>, s: nat) {
    s + 8 <= |mem| && IsTag(mem[s..s + 8])
  }

  function Rgba(r: u8, g: u8, b: u8): u32 {
    r * 0x100_0000 + g * 0x1_0000 + b * 0x100 + 0xFF
  }

  function HexByte(hi: char, lo: char): u8
    requires HexOf(hi) >= 0 && HexOf(lo) >= 0
  {
    HexOf(hi) * 16 + HexOf(lo)
  }

  /** Hexadecimal digits as a number. */
  function HexNumber(digits: seq<char>): (v: nat)
    ensures v < Pow16(|digits|)
  {
    if digits == [] then 0
    else
      var n := |digits| - 1;
      HexNumber(digits[..n]) * 16 + if HexOf(digits[n]) >= 0 then HexOf(digits[n]) else 0
  }

  /** The six digits, and full opacity. */
  function TagRgba(mem: seq<char>, s: nat): u32
    requires TagAt(mem, s)
  {
    Pow16Of6();
    HexNumber(mem[s..s + 8][1..7]) * 0x100 + 0xFF
  }

  lemma Pow16Of6()
    ensures Pow16(6) == 0x100_0000
  {
    assert Pow16(3) == 0x1000;
    assert Pow16(6) == 16 * (16 * (16 * Pow16(3)));
  }

  lemma TwoDigits(front: seq<char>, hi: char, lo: char)
    requires HexOf(hi) >= 0 && HexOf(lo) >= 0
    ensures HexNumber(front + [hi, lo]) == HexNumber(front) * 256 + HexByte(hi, lo)
  {
    assert (front + [hi, lo])[..|front| + 1] == front + [hi];
    assert (front + [hi])[..|front|] == front;
  }

  lemma SixDigits(e: seq<char>)
    requires IsTag(e)
    ensures HexNumber(e[1..7]) * 0x100 + 0xFF == Rgba(HexByte(e[1], e[2]), HexByte(e[3], e[4]), HexByte(e[5], e[6]))
  {
    assert e[1..7] == [] + [e[1], e[2]] + [e[3], e[4]] + [e[5], e[6]];
    TwoDigits([], e[1], e[2]);
    TwoDigits([] + [e[1], e[2]], e[3], e[4]);
    TwoDigits([] + [e[1], e[2]] + [e[3], e[4]], e[5], e[6]);
  }

  /** The four floats a colour stands for. */
  function Channels(c: Colour): Vec4 {
    match c
    case Given(v) => v
    case Tagged(rgba, alphaMul) =>
      Vec4((rgba / 0x100_0000) as real / 255.0, (rgba / 0x1_0000 % 256) as real / 255.0,
           (rgba / 0x100 % 256) as real / 255.0, (rgba % 256) as real / 255.0 * alphaMul)
  }

  function TagColour(mem: seq<char>, s: nat, alphaMul: real): Colour
    requires TagAt(mem, s)
  {
    Tagged(TagRgba(mem, s), alphaMul)
  }

  lemma BytesOfTag(mem: seq<char>, s: nat, alphaMul: real)
    requires TagAt(mem, s)
    ensures var e := mem[s..s + 8];
      Channels(TagColour(mem, s, alphaMul)) ==
      Vec4(HexByte(e[1], e[2]) as real / 255.0, HexByte(e[3], e[4]) as real / 255.0,
           HexByte(e[5], e[6]) as real / 255.0, alphaMul)
  {
    var e := mem[s..s + 8];
    SixDigits(e);
    RgbaBytes(HexByte(e[1], e[2]), HexByte(e[3], e[4]), HexByte(e[5], e[6]));
  }

  lemma RgbaBytes(r: u8, g: u8, b: u8)
    ensures var v := Rgba(r, g, b);
      v / 0x100_0000 == r && v / 0x1_0000 % 256 == g && v / 0x100 % 256 == b && v % 256 == 255
  {
    var v := Rgba(r, g, b);
    assert v / 0x100 == r as nat * 0x1_0000 + g as nat * 0x100 + b as nat;
    assert v / 0x1_0000 == r as nat * 0x100 + g as nat;
  }

  /** Memory that ends in a NUL, as every C string the renderers are given lies in. */
  predicate Terminated(mem: seq<char>) {
    |mem| > 0 && mem[|mem| - 1] == NUL
  }

  /** Never reads past the terminator, although it knows no end of the view. */
  method ParseHexTag(mem: seq<char>, s: nat) returns (ok: bool, rgba: u32, len: nat)
    requires Terminated(mem) && s < |mem|
    ensures ok <==> TagAt(mem, s)
    ensures ok ==> rgba == TagRgba(mem, s) && len == 8
  {
    ok, rgba, len := false, 0, 0;
    if mem[s] != '{' {
      return;
    }
    for i := 1 to 7
      invariant s + i < |mem|
    {
      if mem[s + i] == NUL {
        return;
      }
    }
    if mem[s + 7] != '}' {
      return;
    }
    var n := [HexOf(mem[s + 1]), HexOf(mem[s + 2]), HexOf(mem[s + 3]),
              HexOf(mem[s + 4]), HexOf(mem[s + 5]), HexOf(mem[s + 6])];
    for i := 0 to 6
      invariant forall k :: 0 <= k < i ==> n[k] >= 0
    {
      if n[i] < 0 {
        return;
      }
    }
    ghost var e := mem[s..s + 8];
    assert forall i :: 0 < i < 7 ==> HexOf(e[i]) == n[i - 1];
    SixDigits(e);
    rgba := Rgba(n[0] * 16 + n[1], n[2] * 16 + n[3], n[4] * 16 + n[5]);
    len := 8;
    ok := true;
  }

  // ---------------------------------------------------------------- the meaning of a text

  type Painted = seq<(char, Colour)>

  /** Coloured characters of a text: the leftmost valid tag is removed and changes the
      colour, any other character, lone braces included, is text. */
  function Paint(text: seq<char>, cur: Colour, alphaMul: real): Painted {
    if text == [] then []
    else if TagAt(text, 0) then Paint(text[8..], TagColour(text, 0, alphaMul), alphaMul)
    else [(text[0], cur)] + Paint(text[1..], cur, alphaMul)
  }

  /** The colour that sticks after a text. */
  function Sticky(text: seq<char>, cur: Colour, alphaMul: real): Colour {
    if text == [] then cur
    else if TagAt(text, 0) then Sticky(text[8..], TagColour(text, 0, alphaMul), alphaMul)
    else Sticky(text[1..], cur, alphaMul)
  }

  /** Positions of the characters painted, and of the tags removed, from p on. */
  function PaintedAt(text: seq<char>, p: nat): seq<nat>
    decreases |text| - p
  {
    if p >= |text| then []
    else if TagAt(text, p) then PaintedAt(text, p + 8)
    else [p] + PaintedAt(text, p + 1)
  }

  function TagsAt(text: seq<char>, p: nat): seq<nat>
    decreases |text| - p
  {
    if p >= |text| then []
    else if TagAt(text, p) then [p] + TagsAt(text, p + 8)
    else TagsAt(text, p + 1)
  }

  /** Position i is one of the eight of a removed tag. */
  ghost predicate InTag(text: seq<char>, p: nat, i: nat) {
    exists s :: s in TagsAt(text, p) && s <= i < s + 8
  }

  /** Positions from p on, in order, at least `gap` apart. */
  predicate Ascending(at: seq<nat>, p: nat, gap: nat) {
    (forall k :: 0 <= k < |at| ==> p <= at[k]) && forall k, l :: 0 <= k < l < |at| ==> at[k] + gap <= at[l]
  }

  lemma {:induction false} TagsInOrder(text: seq<char>, p: nat)
    ensures Ascending(TagsAt(text, p), p, 8)
    ensures forall s :: s in TagsAt(text, p) ==> TagAt(text, s)
    decreases |text| - p
  {
    if p < |text| {
      TagsInOrder(text, if TagAt(text, p) then p + 8 else p + 1);
    }
  }

  lemma {:induction false} PaintedInOrder(text: seq<char>, p: nat)
    ensures Ascending(PaintedAt(text, p), p, 1)
    decreases |text| - p
  {
    if p < |text| {
      PaintedInOrder(text, if TagAt(text, p) then p + 8 else p + 1);
    }
  }

  lemma InTagNext(text: seq<char>, p: nat, i: nat)
    requires p < |text|
    ensures InTag(text, p, i) <==>
            if TagAt(text, p) then p <= i < p + 8 || InTag(text, p + 8, i) else InTag(text, p + 1, i)
  {
    var here := TagsAt(text, p);
    if TagAt(text, p) {
      var later := TagsAt(text, p + 8);
      assert here == [p] + later && p in here;
      assert forall s :: s in here <==> s == p || s in later;
      if InTag(text, p + 8, i) {
        var s :| s in later && s <= i < s + 8;
        assert s in here;
      }
    } else {
      assert here == TagsAt(text, p + 1);
    }
  }

  /** A position is painted exactly when it is in no removed tag. */
  lemma {:induction false} PaintedOrTag(text: seq<char>, p: nat, i: nat)
    requires p <= i < |text|
    ensures i in PaintedAt(text, p) <==> !InTag(text, p, i)
    decreases |text| - p
  {
    InTagNext(text, p, i);
    var next := if TagAt(text, p) then p + 8 else p + 1;
    PaintedInOrder(text, next);
    TagsInOrder(text, next);
    if next <= i {
      PaintedOrTag(text, next, i);
    }
  }

  /** The k-th painted character is the one at the k-th painted position. */
  lemma {:induction false} PaintedCharacters(text: seq<char>, p: nat, cur: Colour, alphaMul: real)
    requires p <= |text|
    ensures var at, painted := PaintedAt(text, p), Paint(text[p..], cur, alphaMul);
      |painted| == |at| && forall k :: 0 <= k < |at| ==> at[k] < |text| && painted[k].0 == text[at[k]]
    decreases |text| - p
  {
    if p < |text| {
      var rest := text[p..];
      if p + 8 <= |text| {
        assert rest[0..8] == text[p..p + 8];
      }
      if TagAt(text, p) {
        assert rest[8..] == text[p + 8..];
        PaintedCharacters(text, p + 8, TagColour(rest, 0, alphaMul), alphaMul);
      } else {
        assert rest[1..] == text[p + 1..];
        PaintedCharacters(text, p + 1, cur, alphaMul);
      }
    }
  }

  /** Each character of a text is either painted, once and in order, or part of exactly one
      removed tag. */
  lemma EachByteOnce(text: seq<char>, cur: Colour, alphaMul: real, i: nat)
    requires i < |text|
    ensures i in PaintedAt(text, 0) <==> !InTag(text, 0, i)
    ensures Ascending(PaintedAt(text, 0), 0, 1) && Ascending(TagsAt(text, 0), 0, 8)
    ensures forall s :: s in TagsAt(text, 0) ==> TagAt(text, s)
    ensures |Paint(text, cur, alphaMul)| == |PaintedAt(text, 0)|
    ensures forall k :: 0 <= k < |PaintedAt(text, 0)| ==>
      PaintedAt(text, 0)[k] < |text| && Paint(text, cur, alphaMul)[k].0 == text[PaintedAt(text, 0)[k]]
  {
    PaintedOrTag(text, 0, i);
    PaintedInOrder(text, 0);
    TagsInOrder(text, 0);
    PaintedCharacters(text, 0, cur, alphaMul);
    assert text[0..] == text;
  }

  function Plain(text: seq<char>, colour: Colour): Painted {
    seq(|text|, i requires 0 <= i < |text| => (text[i], colour))
  }

  function Flatten(runs: seq<Run>): Painted {
    if runs == [] then [] else Plain(runs[0].text, runs[0].colour) + Flatten(runs[1..])
  }

  /** A stretch without an opening brace is painted as it stands. */
  lemma {:induction false} PaintPlain(s: seq<char>, t: seq<char>, cur: Colour, alphaMul: real)
    requires '{' !in s
    ensures Paint(s + t, cur, alphaMul) == Plain(s, cur) + Paint(t, cur, alphaMul)
    ensures Sticky(s + t, cur, alphaMul) == Sticky(t, cur, alphaMul)
  {
    if s == [] {
      assert s + t == t;
    } else {
      assert (s + t)[1..] == s[1..] + t && (s + t)[0] == s[0];
      PaintPlain(s[1..], t, cur, alphaMul);
      assert Plain(s, cur) == [(s[0], cur)] + Plain(s[1..], cur);
    }
  }

  // ---------------------------------------------------------------- what the renderers emit

  function NextBrace(mem: seq<char>, p: nat, end: nat): (q: nat)
    requires p <= end <= |mem|
    ensures p <= q <= end && forall i :: p <= i < q ==> mem[i] != '{'
    ensures q < end ==> mem[q] == '{'
    decreases end - p
  {
    if p == end || mem[p] == '{' then p
    else NextBrace(mem, p + 1, end)
  }

  /** Chunks emitted for the view [p, end) of `mem`, and the colour afterwards. */
  function LineRuns(mem: seq<char>, p: nat, end: nat, cur: Colour, alphaMul: real): (seq<Run>, Colour)
    requires end <= |mem|
    decreases |mem| - p
  {
    if p >= end then ([], cur)
    else if TagAt(mem, p) then LineRuns(mem, p + 8, end, TagColour(mem, p, alphaMul), alphaMul)
    else
      var q := if mem[p] == '{' then p + 1 else NextBrace(mem, p, end);
      var (rest, last) := LineRuns(mem, q, end, cur, alphaMul);
      ([Run(mem[p..q], cur)] + rest, last)
  }

  method ScanToBrace(mem: seq<char>, p: nat, end: nat) returns (nextBrace: nat)
    requires p <= end <= |mem|
    ensures nextBrace == NextBrace(mem, p, end)
  {
    nextBrace := p;
    while nextBrace < end && mem[nextBrace] != '{'
      invariant p <= nextBrace <= end
      invariant NextBrace(mem, p, end) == NextBrace(mem, nextBrace, end)
    {
      nextBrace := nextBrace + 1;
    }
  }

  /** The chunks of a view are those already emitted and those still to come at p. */
  ghost predicate Pending(mem: seq<char>, p: nat, end: nat, cur: Colour, alphaMul: real,
                          emitted: seq<Run>, all: (seq<Run>, Colour)) {
    end <= |mem| && all.0 == emitted + LineRuns(mem, p, end, cur, alphaMul).0 &&
    all.1 == LineRuns(mem, p, end, cur, alphaMul).1
  }

  lemma PendingTag(mem: seq<char>, p: nat, end: nat, cur: Colour, alphaMul: real,
                   emitted: seq<Run>, all: (seq<Run>, Colour))
    requires Pending(mem, p, end, cur, alphaMul, emitted, all) && p < end && TagAt(mem, p)
    ensures Pending(mem, p + 8, end, TagColour(mem, p, alphaMul), alphaMul, emitted, all)
  {
  }

  lemma PendingBrace(mem: seq<char>, p: nat, end: nat, cur: Colour, alphaMul: real,
                     emitted: seq<Run>, all: (seq<Run>, Colour))
    requires Pending(mem, p, end, cur, alphaMul, emitted, all) && p < end && !TagAt(mem, p) && mem[p] == '{'
    ensures Pending(mem, p + 1, end, cur, alphaMul, emitted + [Run(mem[p..p + 1], cur)], all)
  {
    PendingChunk(mem, p, p + 1, end, cur, alphaMul, emitted, all);
  }

  lemma PendingChunk(mem: seq<char>, p: nat, q: nat, end: nat, cur: Colour, alphaMul: real,
                     emitted: seq<Run>, all: (seq<Run>, Colour))
    requires Pending(mem, p, end, cur, alphaMul, emitted, all) && p < end && !TagAt(mem, p)
    requires q == if mem[p] == '{' then p + 1 else NextBrace(mem, p, end)
    ensures Pending(mem, q, end, cur, alphaMul, emitted + [Run(mem[p..q], cur)], all)
  {
    var rest := LineRuns(mem, q, end, cur, alphaMul).0;
    assert emitted + ([Run(mem[p..q], cur)] + rest) == emitted + [Run(mem[p..q], cur)] + rest;
  }

  /** A tag at p, if there is one, and the colour it sets. */
  method TakeTag(mem: seq<char>, p: nat, alphaMul: real) returns (ok: bool, colour: Colour, len: nat)
    requires Terminated(mem) && p < |mem|
    ensures ok <==> TagAt(mem, p)
    ensures ok ==> colour == TagColour(mem, p, alphaMul) && len == 8
  {
    ok, colour, len := false, Tagged(0, alphaMul), 0;
    if mem[p] == '{' {
      var rgba: u32;
      ok, rgba, len := ParseHexTag(mem, p);
      colour := Tagged(rgba, alphaMul);
    }
  }

  /** `detail::DrawLine`: the row's chunks; `blank` says an empty row was drawn instead. */
  method DrawLine(mem: seq<char>, start: nat, end: nat, base: Colour, alphaMul: real)
    returns (row: seq<Run>, cur: Colour, blank: bool)
    requires Terminated(mem) && start <= end < |mem|
    ensures row == LineRuns(mem, start, end, base, alphaMul).0
    ensures cur == LineRuns(mem, start, end, base, alphaMul).1
    ensures blank <==> row == []
  {
    ghost var all := LineRuns(mem, start, end, base, alphaMul);
    var p := start;
    var first := true;
    row, cur := [], base;
    while p < end
      invariant first <==> row == []
      invariant Pending(mem, p, end, cur, alphaMul, row, all)
      decreases |mem| - p
    {
      var ok, colour, tagLen := TakeTag(mem, p, alphaMul);
      if ok {
        PendingTag(mem, p, end, cur, alphaMul, row, all);
        cur := colour;
        p := p + tagLen;
        continue;
      }
      var nextBrace := ScanToBrace(mem, p, end);
      if nextBrace == p && mem[p] == '{' {
        PendingBrace(mem, p, end, cur, alphaMul, row, all);
        row := row + [Run(mem[p..p + 1], cur)];
        first := false;
        p := p + 1;
        continue;
      }
      if nextBrace > p {
        PendingChunk(mem, p, nextBrace, end, cur, alphaMul, row, all);
        row := row + [Run(mem[p..nextBrace], cur)];
        first := false;
        p := nextBrace;
      }
    }
    blank := first;
  }

  function Faded(base: Vec4, alphaMul: real): Colour {
    Given(base.(w := base.w * alphaMul))
  }

  datatype Placed = Placed(run: Run, x: real)

  /** Chunks side by side from x on. */
  function PlaceRuns(runs: seq<Run>, x: real, width: seq<char> -> real): seq<Placed> {
    if runs == [] then [] else [Placed(runs[0], x)] + PlaceRuns(runs[1..], x + width(runs[0].text), width)
  }

  function Advance(runs: seq<Run>, x: real, width: seq<char> -> real): real {
    if runs == [] then x else Advance(runs[1..], x + width(runs[0].text), width)
  }

  lemma {:induction false} PlaceNext(runs: seq<Run>, r: Run, x: real, width: seq<char> -> real)
    ensures PlaceRuns(runs + [r], x, width) == PlaceRuns(runs, x, width) + [Placed(r, Advance(runs, x, width))]
    ensures Advance(runs + [r], x, width) == Advance(runs, x, width) + width(r.text)
  {
    if runs == [] {
      assert [r][1..] == [];
    } else {
      PlaceNext(runs[1..], r, x + width(runs[0].text), width);
      assert (runs + [r])[1..] == runs[1..] + [r];
    }
  }

  /** The first chunk stands at x, and each further one where the one before it ends. */
  lemma {:induction false} PlacedSideBySide(runs: seq<Run>, x: real, width: seq<char> -> real, k: nat)
    requires k < |runs|
    ensures var placed := PlaceRuns(runs, x, width);
      && |placed| == |runs| && placed[k].run == runs[k]
      && placed[k].x == if k == 0 then x else placed[k - 1].x + width(runs[k - 1].text)
  {
    if k > 0 {
      PlacedSideBySide(runs[1..], x + width(runs[0].text), width, k - 1);
    } else if |runs| > 1 {
      PlacedSideBySide(runs[1..], x + width(runs[0].text), width, 0);
    }
  }

  /** `DrawColoredTextOnDrawList`: the same chunks as DrawLine, placed one after another. */
  method DrawColoredTextOnDrawList(hasList: bool, x0: real, mem: seq<char>, start: nat, end: nat,
                                   base: Vec4, alphaMul: real, width: seq<char> -> real)
    returns (drawn: seq<Placed>)
    requires Terminated(mem) && start <= end < |mem|
    ensures drawn == if hasList
                     then PlaceRuns(LineRuns(mem, start, end, Faded(base, alphaMul), alphaMul).0, x0, width)
                     else []
  {
    drawn := [];
    if !hasList || start == end {
      return;
    }
    drawn := DrawChunks(x0, mem, start, end, Faded(base, alphaMul), alphaMul, width);
  }

  /** The loop of `DrawColoredTextOnDrawList`. */
  method DrawChunks(x0: real, mem: seq<char>, start: nat, end: nat, faded: Colour, alphaMul: real, width: seq<char> -> real)
    returns (drawn: seq<Placed>)
    requires Terminated(mem) && start < end < |mem|
    ensures drawn == PlaceRuns(LineRuns(mem, start, end, faded, alphaMul).0, x0, width)
  {
    drawn := [];
    var cur := faded;
    ghost var all := LineRuns(mem, start, end, cur, alphaMul);
    var p, x := start, x0;
    ghost var runs: seq<Run> := [];
    while p < end
      invariant Pending(mem, p, end, cur, alphaMul, runs, all)
      invariant drawn == PlaceRuns(runs, x0, width) && x == Advance(runs, x0, width)
      decreases |mem| - p
    {
      var ok, colour, tagLen := TakeTag(mem, p, alphaMul);
      if ok {
        PendingTag(mem, p, end, cur, alphaMul, runs, all);
        cur := colour;
        p := p + tagLen;
        continue;
      }
      var nextBrace := ScanToBrace(mem, p, end);
      if nextBrace == p && mem[p] == '{' {
        PendingBrace(mem, p, end, cur, alphaMul, runs, all);
        drawn, x, runs := AddText(drawn, x, Run(mem[p..p + 1], cur), width, runs, x0);
        p := p + 1;
        continue;
      }
      if nextBrace > p {
        PendingChunk(mem, p, nextBrace, end, cur, alphaMul, runs, all);
        drawn, x, runs := AddText(drawn, x, Run(mem[p..nextBrace], cur), width, runs, x0);
        p := nextBrace;
      }
    }
    assert runs == all.0;
  }

  /** The renderer's emit: draw at x, then move right by the width of the chunk. */
  method AddText(drawn: seq<Placed>, x: real, run: Run, width: seq<char> -> real, ghost runs: seq<Run>, ghost x0: real)
    returns (drawn': seq<Placed>, x': real, ghost runs': seq<Run>)
    requires drawn == PlaceRuns(runs, x0, width) && x == Advance(runs, x0, width)
    ensures runs' == runs + [run]
    ensures drawn' == PlaceRuns(runs', x0, width) && x' == Advance(runs', x0, width)
  {
    PlaceNext(runs, run, x0, width);
    drawn' := drawn + [Placed(run, x)];
    x' := x + width(run.text);
    runs' := runs + [run];
  }

  function LineEnd(mem: seq<char>, p: nat, end: nat): (q: nat)
    requires p <= end <= |mem|
    ensures p <= q <= end && forall i :: p <= i < q ==> mem[i] != NEWLINE
    ensures q < end ==> mem[q] == NEWLINE
    decreases end - p
  {
    if p == end || mem[p] == NEWLINE then p
    else LineEnd(mem, p + 1, end)
  }

  method ScanToNewline(mem: seq<char>, p: nat, end: nat) returns (lineEnd: nat)
    requires p <= end <= |mem|
    ensures lineEnd == LineEnd(mem, p, end)
  {
    lineEnd := p;
    while lineEnd < end && mem[lineEnd] != NEWLINE
      invariant p <= lineEnd <= end
      invariant LineEnd(mem, p, end) == LineEnd(mem, lineEnd, end)
    {
      lineEnd := lineEnd + 1;
    }
  }

  /** A drawn row with the colour it hands on to the next one. */
  datatype Row = Row(runs: seq<Run>, last: Colour)

  function FirstRow(mem: seq<char>, p: nat, q: nat, cur: Colour, alphaMul: real): Row
    requires q <= |mem|
  {
    var runs := LineRuns(mem, p, q, cur, alphaMul);
    Row(runs.0, runs.1)
  }

  function TextRows(mem: seq<char>, p: nat, end: nat, cur: Colour, alphaMul: real): seq<Row>
    requires p <= end <= |mem|
    decreases end - p
  {
    var q := LineEnd(mem, p, end);
    var row := FirstRow(mem, p, q, cur, alphaMul);
    if q < end then [row] + TextRows(mem, q + 1, end, row.last, alphaMul) else [row]
  }

  /** The rows of a text are those drawn and those still to come at p. */
  ghost predicate RowsLeft(mem: seq<char>, p: nat, end: nat, cur: Colour, alphaMul: real, rows: seq<Row>, all: seq<Row>) {
    p <= end <= |mem| && all == rows + TextRows(mem, p, end, cur, alphaMul)
  }

  lemma RowDone(mem: seq<char>, p: nat, end: nat, cur: Colour, alphaMul: real, rows: seq<Row>, all: seq<Row>)
    requires RowsLeft(mem, p, end, cur, alphaMul, rows, all)
    ensures var q := LineEnd(mem, p, end);
      var row := FirstRow(mem, p, q, cur, alphaMul);
      if q < end then RowsLeft(mem, q + 1, end, row.last, alphaMul, rows + [row], all) else all == rows + [row]
  {
    var q := LineEnd(mem, p, end);
    var row := FirstRow(mem, p, q, cur, alphaMul);
    if q < end {
      var later := TextRows(mem, q + 1, end, row.last, alphaMul);
      assert rows + ([row] + later) == rows + [row] + later;
    }
  }

  /** One turn of the loop: the line at p is drawn in the current colour. */
  method DrawNextLine(mem: seq<char>, p: nat, end: nat, cur: Colour, alphaMul: real, ghost rows: seq<Row>, ghost all: seq<Row>)
    returns (lineEnd: nat, row: Row)
    requires Terminated(mem) && p <= end < |mem| && RowsLeft(mem, p, end, cur, alphaMul, rows, all)
    ensures p <= lineEnd <= end && (lineEnd < end ==> mem[lineEnd] == NEWLINE)
    ensures if lineEnd < end then RowsLeft(mem, lineEnd + 1, end, row.last, alphaMul, rows + [row], all)
            else all == rows + [row]
  {
    lineEnd := ScanToNewline(mem, p, end);
    var runs, last, _ := DrawLine(mem, p, lineEnd, cur, alphaMul);
    row := Row(runs, last);
    RowDone(mem, p, end, cur, alphaMul, rows, all);
  }

  /** `DrawColoredText`: row after row, the colour carried over. */
  method DrawColoredText(mem: seq<char>, start: nat, end: nat, base: Vec4, alphaMul: real)
    returns (rows: seq<Row>)
    requires Terminated(mem) && start <= end < |mem|
    ensures rows == TextRows(mem, start, end, Faded(base, alphaMul), alphaMul)
  {
    var cur := Faded(base, alphaMul);
    ghost var all := TextRows(mem, start, end, cur, alphaMul);
    rows := [];
    var p := start;
    while p <= end
      invariant RowsLeft(mem, p, end, cur, alphaMul, rows, all)
      decreases end - p
    {
      var lineEnd, row := DrawNextLine(mem, p, end, cur, alphaMul, rows, all);
      rows := rows + [row];
      cur := row.last;
      if lineEnd < end && mem[lineEnd] == NEWLINE {
        p := lineEnd + 1;
      } else {
        break;
      }
    }
  }

  // ---------------------------------------------------------------- theorems

  /** A tag found inside a view that a newline or NUL follows ends inside the view. */
  lemma TagStaysInside(mem: seq<char>, p: nat, end: nat)
    requires p < end < |mem| && (mem[end] == NEWLINE || mem[end] == NUL)
    ensures TagAt(mem, p) <==> TagAt(mem[p..end], 0)
    ensures TagAt(mem, p) ==> p + 8 <= end
    ensures TagAt(mem, p) ==> TagRgba(mem, p) == TagRgba(mem[p..end], 0)
  {
    if p + 8 <= end {
      assert mem[p..end][0..8] == mem[p..p + 8];
    } else if p + 8 <= |mem| {
      assert mem[p..p + 8][end - p] == mem[end];
    }
  }

  /** The chunks of such a view, put together, are its coloured characters. */
  lemma {:induction false} LineMeaning(mem: seq<char>, p: nat, end: nat, cur: Colour, alphaMul: real)
    requires p <= end < |mem| && (mem[end] == NEWLINE || mem[end] == NUL)
    ensures Flatten(LineRuns(mem, p, end, cur, alphaMul).0) == Paint(mem[p..end], cur, alphaMul)
    ensures LineRuns(mem, p, end, cur, alphaMul).1 == Sticky(mem[p..end], cur, alphaMul)
    decreases end - p
  {
    var s := mem[p..end];
    if p < end {
      TagStaysInside(mem, p, end);
      if TagAt(mem, p) {
        LineMeaning(mem, p + 8, end, TagColour(mem, p, alphaMul), alphaMul);
        assert s[8..] == mem[p + 8..end];
      } else {
        var q := if mem[p] == '{' then p + 1 else NextBrace(mem, p, end);
        LineMeaning(mem, q, end, cur, alphaMul);
        var runs := [Run(mem[p..q], cur)] + LineRuns(mem, q, end, cur, alphaMul).0;
        assert runs[1..] == LineRuns(mem, q, end, cur, alphaMul).0;
        assert s == mem[p..q] + mem[q..end];
        if mem[p] == '{' {
          assert s[1..] == mem[q..end] && Plain(mem[p..q], cur) == [(s[0], cur)];
        } else {
          PaintPlain(mem[p..q], mem[q..end], cur, alphaMul);
        }
      }
    }
  }

  lemma TagBeforeNewline(s: seq<char>, t: seq<char>)
    requires NEWLINE !in s && s != []
    ensures var whole := s + [NEWLINE] + t;
      (TagAt(whole, 0) <==> TagAt(s, 0)) && (TagAt(s, 0) ==> TagRgba(whole, 0) == TagRgba(s, 0))
  {
    var whole := s + [NEWLINE] + t;
    if 8 <= |s| {
      assert whole[0..8] == s[0..8];
    } else if 8 <= |whole| {
      assert whole[0..8][|s|] == NEWLINE;
    }
  }

  /** Tokenising line by line with the carried colour is tokenising the whole text. */
  lemma {:induction false} PaintAcrossNewline(s: seq<char>, t: seq<char>, cur: Colour, alphaMul: real)
    requires NEWLINE !in s
    ensures var last := Sticky(s, cur, alphaMul);
      Paint(s + [NEWLINE] + t, cur, alphaMul) ==
        Paint(s, cur, alphaMul) + [(NEWLINE, last)] + Paint(t, last, alphaMul) &&
      Sticky(s + [NEWLINE] + t, cur, alphaMul) == Sticky(t, last, alphaMul)
  {
    var whole := s + [NEWLINE] + t;
    if s == [] {
      assert whole[1..] == t && !TagAt(whole, 0);
    } else {
      assert whole[|s|] == NEWLINE;
      TagBeforeNewline(s, t);
      if TagAt(s, 0) {
        assert whole[8..] == s[8..] + [NEWLINE] + t;
        PaintAcrossNewline(s[8..], t, TagColour(s, 0, alphaMul), alphaMul);
      } else {
        assert whole[1..] == s[1..] + [NEWLINE] + t;
        PaintAcrossNewline(s[1..], t, cur, alphaMul);
      }
    }
  }

  /** Rows joined by line breaks in the colour each row ends with. */
  function JoinRows(rows: seq<Row>): Painted {
    if rows == [] then []
    else if |rows| == 1 then Flatten(rows[0].runs)
    else Flatten(rows[0].runs) + [(NEWLINE, rows[0].last)] + JoinRows(rows[1..])
  }

  /** A line, its newline and what follows. */
  lemma SplitAt(mem: seq<char>, p: nat, q: nat, end: nat)
    requires p <= q < end <= |mem| && mem[q] == NEWLINE
    ensures mem[p..end] == mem[p..q] + [NEWLINE] + mem[q + 1..end]
  {
  }

  /** One row is split off; if its line ends in a newline, the others follow. */
  lemma RowsNext(mem: seq<char>, p: nat, end: nat, cur: Colour, alphaMul: real)
    requires p <= end <= |mem|
    ensures var q := LineEnd(mem, p, end);
      var row := FirstRow(mem, p, q, cur, alphaMul);
      TextRows(mem, p, end, cur, alphaMul) ==
      [row] + if q < end then TextRows(mem, q + 1, end, row.last, alphaMul) else []
  {
  }

  lemma LineIsClean(mem: seq<char>, p: nat, end: nat)
    requires p <= end <= |mem|
    ensures NEWLINE !in mem[p..LineEnd(mem, p, end)]
  {
  }

  /** A text has one row more than it has newlines. */
  lemma {:induction false} RowCount(mem: seq<char>, p: nat, end: nat, cur: Colour, alphaMul: real)
    requires p <= end < |mem|
    ensures |TextRows(mem, p, end, cur, alphaMul)| == 1 + Newlines(mem[p..end])
    decreases end - p
  {
    var q := LineEnd(mem, p, end);
    RowsNext(mem, p, end, cur, alphaMul);
    LineIsClean(mem, p, end);
    if q < end {
      RowCount(mem, q + 1, end, FirstRow(mem, p, q, cur, alphaMul).last, alphaMul);
      SplitAt(mem, p, q, end);
      NewlinesOfLine(mem[p..q], mem[q + 1..end]);
    } else {
      NoNewlines(mem[p..q]);
    }
  }

  /** The rows of a text carry exactly its coloured characters and line breaks. */
  lemma {:induction false} RowsMeaning(mem: seq<char>, p: nat, end: nat, cur: Colour, alphaMul: real)
    requires p <= end < |mem| && (mem[end] == NEWLINE || mem[end] == NUL)
    ensures JoinRows(TextRows(mem, p, end, cur, alphaMul)) == Paint(mem[p..end], cur, alphaMul)
    decreases end - p
  {
    var q := LineEnd(mem, p, end);
    if q < end {
      RowsMeaning(mem, q + 1, end, FirstRow(mem, p, q, cur, alphaMul).last, alphaMul);
      FurtherRows(mem, p, end, cur, alphaMul);
    } else {
      LastRow(mem, p, end, cur, alphaMul);
    }
  }

  lemma FurtherRows(mem: seq<char>, p: nat, end: nat, cur: Colour, alphaMul: real)
    requires p <= end < |mem| && LineEnd(mem, p, end) < end
    requires var q := LineEnd(mem, p, end);
      var last := FirstRow(mem, p, q, cur, alphaMul).last;
      JoinRows(TextRows(mem, q + 1, end, last, alphaMul)) == Paint(mem[q + 1..end], last, alphaMul)
    ensures JoinRows(TextRows(mem, p, end, cur, alphaMul)) == Paint(mem[p..end], cur, alphaMul)
  {
    var q := LineEnd(mem, p, end);
    var row := FirstRow(mem, p, q, cur, alphaMul);
    var later := TextRows(mem, q + 1, end, row.last, alphaMul);
    assert TextRows(mem, p, end, cur, alphaMul) == [row] + later by {
      RowsNext(mem, p, end, cur, alphaMul);
    }
    LineIsClean(mem, p, end);
    NextRow(mem, p, q, end, cur, alphaMul, row, later);
  }

  lemma LastRow(mem: seq<char>, p: nat, end: nat, cur: Colour, alphaMul: real)
    requires p <= end < |mem| && (mem[end] == NEWLINE || mem[end] == NUL) && LineEnd(mem, p, end) == end
    ensures JoinRows(TextRows(mem, p, end, cur, alphaMul)) == Paint(mem[p..end], cur, alphaMul)
  {
    RowMeaning(mem, p, end, cur, alphaMul);
  }

  lemma NextRow(mem: seq<char>, p: nat, q: nat, end: nat, cur: Colour, alphaMul: real, row: Row, later: seq<Row>)
    requires p <= q < end < |mem| && mem[q] == NEWLINE && NEWLINE !in mem[p..q] && later != []
    requires row == FirstRow(mem, p, q, cur, alphaMul)
    requires JoinRows(later) == Paint(mem[q + 1..end], row.last, alphaMul)
    ensures JoinRows([row] + later) == Paint(mem[p..end], cur, alphaMul)
  {
    RowMeaning(mem, p, q, cur, alphaMul);
    JoinMeaning(mem[p..q], mem[q + 1..end], cur, alphaMul, row, later);
    SplitAt(mem, p, q, end);
  }

  lemma RowMeaning(mem: seq<char>, p: nat, end: nat, cur: Colour, alphaMul: real)
    requires p <= end < |mem| && (mem[end] == NEWLINE || mem[end] == NUL)
    ensures var row := FirstRow(mem, p, end, cur, alphaMul);
      Flatten(row.runs) == Paint(mem[p..end], cur, alphaMul) && row.last == Sticky(mem[p..end], cur, alphaMul)
  {
    LineMeaning(mem, p, end, cur, alphaMul);
  }

  lemma JoinMeaning(s: seq<char>, t: seq<char>, cur: Colour, alphaMul: real, row: Row, later: seq<Row>)
    requires NEWLINE !in s && later != []
    requires Flatten(row.runs) == Paint(s, cur, alphaMul) && row.last == Sticky(s, cur, alphaMul)
    requires JoinRows(later) == Paint(t, row.last, alphaMul)
    ensures JoinRows([row] + later) == Paint(s + [NEWLINE] + t, cur, alphaMul)
  {
    PaintAcrossNewline(s, t, cur, alphaMul);
    JoinCons(row, later);
  }

  lemma JoinCons(row: Row, later: seq<Row>)
    requires later != []
    ensures JoinRows([row] + later) == Flatten(row.runs) + [(NEWLINE, row.last)] + JoinRows(later)
  {
    assert ([row] + later)[1..] == later;
  }

  // ---------------------------------------------------------------- printing and parsing back

  /** A digit as a server may write it, in the case it likes. */
  function Cased(d: nat, upper: bool): char
    requires d < 16
  {
    if upper || d < 10 then HexDigit(d) else (d + 87) as char
  }

  lemma CasedIs(d: nat, upper: bool)
    requires d < 16
    ensures Cased(d, upper) == if upper then "0123456789ABCDEF"[d] else "0123456789abcdef"[d]
  {
    HexDigitIs(d);
  }

  /** The case of the six digits of a tag. */
  datatype Case = Case(r1: bool, r2: bool, g1: bool, g2: bool, b1: bool, b2: bool)

  function PrintTag(r: u8, g: u8, b: u8, c: Case): (e: seq<char>)
    ensures |e| == 8
  {
    ['{', Cased(r / 16, c.r1), Cased(r % 16, c.r2), Cased(g / 16, c.g1), Cased(g % 16, c.g2),
     Cased(b / 16, c.b1), Cased(b % 16, c.b2), '}']
  }

  datatype Segment = Segment(r: u8, g: u8, b: u8, letters: Case, text: seq<char>)

  function PrintSegment(s: Segment): seq<char> {
    PrintTag(s.r, s.g, s.b, s.letters) + s.text
  }

  function Print(segs: seq<Segment>): seq<char> {
    if segs == [] then [] else PrintSegment(segs[0]) + Print(segs[1..])
  }

  function Shown(segs: seq<Segment>, alphaMul: real): Painted {
    if segs == [] then []
    else Plain(segs[0].text, Tagged(Rgba(segs[0].r, segs[0].g, segs[0].b), alphaMul)) + Shown(segs[1..], alphaMul)
  }

  lemma HexOfCased(d: nat, upper: bool)
    requires d < 16
    ensures HexOf(Cased(d, upper)) == d
  {
  }

  /** Every hexadecimal character is a digit in one case or the other. */
  lemma CasedOfHex(c: char) returns (upper: bool)
    requires HexOf(c) >= 0
    ensures HexOf(c) < 16 && c == Cased(HexOf(c), upper)
  {
    upper := c <= 'F';
  }

  lemma HexByteOfPrint(v: u8, first: bool, second: bool)
    ensures HexOf(Cased(v / 16, first)) >= 0 && HexOf(Cased(v % 16, second)) >= 0
    ensures HexByte(Cased(v / 16, first), Cased(v % 16, second)) == v
  {
    HexOfCased(v / 16, first);
    HexOfCased(v % 16, second);
  }

  lemma PrintedIsTag(r: u8, g: u8, b: u8, c: Case)
    ensures var e := PrintTag(r, g, b, c);
      IsTag(e) && HexByte(e[1], e[2]) == r && HexByte(e[3], e[4]) == g && HexByte(e[5], e[6]) == b
  {
    HexByteOfPrint(r, c.r1, c.r2);
    HexByteOfPrint(g, c.g1, c.g2);
    HexByteOfPrint(b, c.b1, c.b2);
  }

  lemma Nibbles(hi: nat, lo: nat)
    requires hi < 16 && lo < 16
    ensures (hi * 16 + lo) / 16 == hi && (hi * 16 + lo) % 16 == lo
  {
  }

  /** Two hexadecimal characters are a printed byte. */
  lemma PrintedByte(hi: char, lo: char) returns (first: bool, second: bool)
    requires HexOf(hi) >= 0 && HexOf(lo) >= 0
    ensures var v := HexByte(hi, lo); hi == Cased(v / 16, first) && lo == Cased(v % 16, second)
  {
    first := CasedOfHex(hi);
    second := CasedOfHex(lo);
    Nibbles(HexOf(hi), HexOf(lo));
  }

  /** Every tag is three printed bytes, its digits in any mix of cases, and gives red, green
      and blue in 255ths of them and no transparency of its own. */
  lemma TagChannels(mem: seq<char>, s: nat, alphaMul: real) returns (r: u8, g: u8, b: u8, c: Case)
    requires TagAt(mem, s)
    ensures mem[s..s + 8] == PrintTag(r, g, b, c)
    ensures Channels(TagColour(mem, s, alphaMul)) ==
            Vec4(r as real / 255.0, g as real / 255.0, b as real / 255.0, alphaMul)
  {
    var e := mem[s..s + 8];
    var r1, r2, g1, g2, b1, b2;
    r, g, b := HexByte(e[1], e[2]), HexByte(e[3], e[4]), HexByte(e[5], e[6]);
    r1, r2 := PrintedByte(e[1], e[2]);
    g1, g2 := PrintedByte(e[3], e[4]);
    b1, b2 := PrintedByte(e[5], e[6]);
    c := Case(r1, r2, g1, g2, b1, b2);
    BytesOfTag(mem, s, alphaMul);
  }

  lemma PrintedTag(s: Segment, rest: seq<char>)
    ensures var whole := PrintSegment(s) + rest;
      TagAt(whole, 0) && TagRgba(whole, 0) == Rgba(s.r, s.g, s.b) && whole[8..] == s.text + rest
  {
    var e := PrintTag(s.r, s.g, s.b, s.letters);
    var whole := PrintSegment(s) + rest;
    PrintedIsTag(s.r, s.g, s.b, s.letters);
    SixDigits(e);
    assert whole == e + (s.text + rest);
    TagInFront(e, s.text + rest);
  }

  lemma TagInFront(e: seq<char>, t: seq<char>)
    requires IsTag(e)
    ensures TagAt(e + t, 0) && TagRgba(e + t, 0) == HexNumber(e[1..7]) * 0x100 + 0xFF && (e + t)[8..] == t
  {
    assert (e + t)[0..8] == e;
  }

  /** Segments whose text has no opening brace come back in their colours, whatever mix of
      upper and lower case their tags are written in. */
  lemma {:induction false} PrintedSegmentsComeBack(segs: seq<Segment>, cur: Colour, alphaMul: real)
    requires forall i :: 0 <= i < |segs| ==> '{' !in segs[i].text
    ensures Paint(Print(segs), cur, alphaMul) == Shown(segs, alphaMul)
  {
    if segs != [] {
      var s, rest := segs[0], Print(segs[1..]);
      var colour := Tagged(Rgba(s.r, s.g, s.b), alphaMul);
      PrintedTag(s, rest);
      PrintedSegmentsComeBack(segs[1..], colour, alphaMul);
      PaintPlain(s.text, rest, colour, alphaMul);
    }
  }

  /** The colour of a segment in channels. */
  lemma SegmentChannels(s: Segment, alphaMul: real)
    ensures Channels(Tagged(Rgba(s.r, s.g, s.b), alphaMul)) ==
            Vec4(s.r as real / 255.0, s.g as real / 255.0, s.b as real / 255.0, alphaMul)
  {
    RgbaBytes(s.r, s.g, s.b);
  }

  /** Text before any tag has the caller's colour, its alpha faded. */
  lemma BaseColour(s: seq<char>, t: seq<char>, base: Vec4, alphaMul: real, k: nat)
    requires '{' !in s && k < |s|
    ensures var painted := Paint(s + t, Faded(base, alphaMul), alphaMul);
      k < |painted| && painted[k].0 == s[k] &&
      Channels(painted[k].1) == Vec4(base.x, base.y, base.z, base.w * alphaMul)
  {
    PaintPlain(s, t, Faded(base, alphaMul), alphaMul);
  }
}
