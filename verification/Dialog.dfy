/** The server dialog: splitting a list body into items, and the reply sent back. */
module Dialog {
  import opened Machine
  import opened Text
  import Options

  const RETURN: char := '\r'

  // ---------------------------------------------------------------- splitting

  /** The first newline, or the length. */
  function Find(s: string): (end: nat)
    ensures end <= |s| && NEWLINE !in s[..end]
    ensures end < |s| ==> s[end] == NEWLINE
  {
    if s == [] || s[0] == NEWLINE then 0
    else
      assert s[..1 + Find(s[1..])] == [s[0]] + s[1..][..Find(s[1..])];
      1 + Find(s[1..])
  }

  function TrimReturn(line: string): string {
    if line != [] && line[|line| - 1] == RETURN then line[..|line| - 1] else line
  }

  function Trimmed(lines: seq<string>): (r: seq<string>)
    ensures |r| == |lines|
  {
    if lines == [] then [] else [TrimReturn(lines[0])] + Trimmed(lines[1..])
  }

  /** The stretches between newlines. */
  function Pieces(s: string): (r: seq<string>)
    ensures r != []
  {
    var end := Find(s);
    if end < |s| then [s[..end]] + Pieces(s[end + 1..]) else [s]
  }

  function DropEmptyLast(lines: seq<string>): seq<string> {
    if lines != [] && lines[|lines| - 1] == [] then lines[..|lines| - 1] else lines
  }

  /** The items of a body: its lines without a final carriage return, one empty last line dropped. */
  function Items(s: string): seq<string> {
    DropEmptyLast(Trimmed(Pieces(s)))
  }

  method SplitLines(s: string) returns (out: seq<string>)
    ensures out == Items(s)
  {
    out := [];
    var start := 0;
    ghost var all := Trimmed(Pieces(s));
    LinesFirst(s);
    while start <= |s|
      invariant LinesLeft(s, start, out, all)
      decreases |s| - start
    {
      var end: nat;
      out, end := AddLine(s, start, out, all);
      if end == |s| {
        break;
      }
      start := end + 1;
    }
    if out != [] && out[|out| - 1] == [] {
      out := out[..|out| - 1];
    }
  }

  method AddLine(s: string, start: nat, out0: seq<string>, ghost all: seq<string>) returns (out: seq<string>, end: nat)
    requires LinesLeft(s, start, out0, all)
    ensures start <= end <= |s|
    ensures if end < |s| then LinesLeft(s, end + 1, out, all) else all == out
  {
    end := IndexOfNewline(s, start);
    var line := TrimLine(s[start..end]);
    LineDone(s, start, end, out0, all);
    out := out0 + [line];
  }

  lemma LinesFirst(s: string)
    ensures LinesLeft(s, 0, [], Trimmed(Pieces(s)))
  {
    assert s[0..] == s;
  }

  /** The trimmed lines are those found and those still to come at `start`. */
  ghost predicate LinesLeft(s: string, start: nat, out: seq<string>, all: seq<string>) {
    start <= |s| && all == out + Trimmed(Pieces(s[start..]))
  }

  lemma LineDone(s: string, start: nat, end: nat, out: seq<string>, all: seq<string>)
    requires LinesLeft(s, start, out, all) && end == start + Find(s[start..])
    ensures var line := TrimReturn(s[start..end]);
      if end < |s| then LinesLeft(s, end + 1, out + [line], all) else all == out + [line]
  {
    var rest := s[start..];
    TrimmedPieces(rest);
    assert rest[..end - start] == s[start..end];
    if end < |s| {
      assert rest[end - start + 1..] == s[end + 1..];
      Snoc(out, TrimReturn(s[start..end]), Trimmed(Pieces(s[end + 1..])));
    }
  }

  lemma Snoc(out: seq<string>, line: string, later: seq<string>)
    ensures out + ([line] + later) == (out + [line]) + later
  {
  }

  method TrimLine(line: string) returns (trimmed: string)
    ensures trimmed == TrimReturn(line)
  {
    trimmed := line;
    if trimmed != [] && trimmed[|trimmed| - 1] == RETURN {
      trimmed := trimmed[..|trimmed| - 1];
    }
  }

  lemma TrimmedPieces(s: string)
    ensures var end := Find(s);
      Trimmed(Pieces(s)) ==
      [TrimReturn(s[..end])] + if end < |s| then Trimmed(Pieces(s[end + 1..])) else []
  {
    var end := Find(s);
    if end < |s| {
      var later := Pieces(s[end + 1..]);
      assert ([s[..end]] + later)[1..] == later;
    } else {
      assert s[..end] == s && [s][1..] == [];
    }
  }

  method IndexOfNewline(s: string, start: nat) returns (end: nat)
    requires start <= |s|
    ensures end == start + Find(s[start..])
  {
    end := start;
    while end < |s| && s[end] != NEWLINE
      invariant start <= end <= |s| && start + Find(s[start..]) == end + Find(s[end..])
    {
      assert s[end..][1..] == s[end + 1..];
      end := end + 1;
    }
  }

  // ---------------------------------------------------------------- splitting undoes joining

  function Separator(crlf: bool): string {
    if crlf then [RETURN, NEWLINE] else [NEWLINE]
  }

  /** Items joined by LF or CRLF, with or without a final separator. */
  function Body(items: seq<string>, crlf: bool, final: bool): string
    requires items != []
  {
    if |items| == 1 then items[0] + if final then Separator(crlf) else []
    else items[0] + Separator(crlf) + Body(items[1..], crlf, final)
  }

  /** What stands between the newlines of such a body. */
  function RawPieces(items: seq<string>, crlf: bool, final: bool): seq<string>
    requires items != []
  {
    var cr := if crlf then [RETURN] else [];
    if |items| == 1 then (if final then [items[0] + cr, []] else [items[0]])
    else [items[0] + cr] + RawPieces(items[1..], crlf, final)
  }

  lemma {:induction false} FindFirst(line: string, rest: string)
    requires NEWLINE !in line && (rest == [] || rest[0] == NEWLINE)
    ensures Find(line + rest) == |line|
  {
    if line == [] {
      assert line + rest == rest;
    } else {
      assert (line + rest)[1..] == line[1..] + rest;
      FindFirst(line[1..], rest);
    }
  }

  lemma PiecesCons(line: string, rest: string)
    requires NEWLINE !in line
    ensures Pieces(line + [NEWLINE] + rest) == [line] + Pieces(rest)
    ensures Pieces(line) == [line]
  {
    var s := line + [NEWLINE] + rest;
    assert s == line + ([NEWLINE] + rest);
    FindFirst(line, [NEWLINE] + rest);
    assert s[..|line|] == line && s[|line| + 1..] == rest;
    FindFirst(line, []);
    assert line + [] == line;
  }

  lemma {:induction false} PiecesOfBody(items: seq<string>, crlf: bool, final: bool)
    requires items != [] && forall i :: 0 <= i < |items| ==> NEWLINE !in items[i]
    ensures Pieces(Body(items, crlf, final)) == RawPieces(items, crlf, final)
  {
    var cr := if crlf then [RETURN] else [];
    var line := items[0] + cr;
    assert items[0] + Separator(crlf) == line + [NEWLINE];
    if |items| == 1 {
      PiecesCons(line, []);
      assert line + [NEWLINE] + [] == line + [NEWLINE];
      PiecesCons([], []);
      PiecesCons(items[0], []);
      assert items[0] + [] == items[0];
    } else {
      PiecesOfBody(items[1..], crlf, final);
      PiecesCons(line, Body(items[1..], crlf, final));
    }
  }

  predicate EndsInReturn(line: string) {
    line != [] && line[|line| - 1] == RETURN
  }

  /** When a list survives being joined and split. */
  predicate Recoverable(items: seq<string>, crlf: bool, final: bool)
    requires items != []
  {
    var last := items[|items| - 1];
    (!crlf ==> forall i :: 0 <= i < |items| - 1 ==> !EndsInReturn(items[i])) &&
    ((final && crlf) || !EndsInReturn(last)) && (final || last != [])
  }

  /** The items as they come back. */
  function Back(items: seq<string>, crlf: bool, final: bool): seq<string>
    requires items != []
  {
    var first := if crlf && (final || |items| > 1) then items[0] else TrimReturn(items[0]);
    if |items| > 1 then [first] + Back(items[1..], crlf, final)
    else if final || first != [] then [first]
    else []
  }

  lemma TrimAdded(item: string)
    ensures TrimReturn(item + [RETURN]) == item
  {
  }

  lemma {:induction false} BackIsItems(items: seq<string>, crlf: bool, final: bool)
    requires items != []
    ensures DropEmptyLast(Trimmed(RawPieces(items, crlf, final))) == Back(items, crlf, final)
  {
    var raw := RawPieces(items, crlf, final);
    TrimAdded(items[0]);
    assert items[0] + [] == items[0];
    if |items| > 1 {
      var rest := RawPieces(items[1..], crlf, final);
      BackIsItems(items[1..], crlf, final);
      assert raw[1..] == rest;
      DropCons(TrimReturn(raw[0]), Trimmed(rest));
    } else if final {
      assert raw[1..] == [[]] && raw[1..][1..] == [];
      assert Trimmed(raw[1..]) == [[]];
      DropCons(TrimReturn(raw[0]), [[]]);
    } else {
      assert raw[1..] == [];
    }
  }

  lemma DropCons(line: string, rest: seq<string>)
    requires rest != []
    ensures DropEmptyLast([line] + rest) == [line] + DropEmptyLast(rest)
  {
  }

  lemma {:induction false} BackRecovers(items: seq<string>, crlf: bool, final: bool)
    requires items != []
    ensures Back(items, crlf, final) == items <==> Recoverable(items, crlf, final)
  {
    if |items| > 1 {
      var rest := items[1..];
      BackRecovers(rest, crlf, final);
      RecoverableRest(items, crlf, final);
      BackRest(items, crlf, final);
    }
  }

  lemma RecoverableRest(items: seq<string>, crlf: bool, final: bool)
    requires |items| > 1
    ensures Recoverable(items, crlf, final) <==>
            Recoverable(items[1..], crlf, final) && (crlf || !EndsInReturn(items[0]))
  {
    var rest := items[1..];
    assert rest[|rest| - 1] == items[|items| - 1];
    assert forall i :: 0 <= i < |rest| ==> rest[i] == items[i + 1];
    if Recoverable(rest, crlf, final) && !crlf && !EndsInReturn(items[0]) {
      forall i | 0 <= i < |items| - 1 ensures !EndsInReturn(items[i]) {
        assert i > 0 ==> items[i] == rest[i - 1];
      }
    }
  }

  lemma BackRest(items: seq<string>, crlf: bool, final: bool)
    requires |items| > 1
    ensures Back(items, crlf, final) == items <==>
            Back(items[1..], crlf, final) == items[1..] && (crlf || !EndsInReturn(items[0]))
  {
    var back := Back(items, crlf, final);
    assert back[1..] == Back(items[1..], crlf, final);
    assert items == [items[0]] + items[1..];
  }

  /** Splitting undoes joining exactly for the recoverable lists: with LF no item may end in
      a carriage return, without a final separator the last item may neither end in one nor
      be empty. */
  lemma SplitUndoesJoin(items: seq<string>, crlf: bool, final: bool)
    requires items != [] && forall i :: 0 <= i < |items| ==> NEWLINE !in items[i]
    ensures Items(Body(items, crlf, final)) == items <==> Recoverable(items, crlf, final)
  {
    PiecesOfBody(items, crlf, final);
    BackIsItems(items, crlf, final);
    BackRecovers(items, crlf, final);
  }

  /** A list that does not survive: the carriage return of its first item is lost. */
  lemma ReturnLost(final: bool)
    ensures Items(Body(["a\r", "b"], false, final)) == ["a", "b"] != ["a\r", "b"]
  {
    var items := ["a\r", "b"];
    assert items[0] == "a\r" && items[1..] == ["b"];
    PiecesOfBody(items, false, final);
    BackIsItems(items, false, final);
    assert TrimReturn("a\r") == "a" && TrimReturn("b") == "b";
    assert Back(["b"], false, final) == ["b"];
    assert Back(items, false, final) == ["a"] + Back(items[1..], false, final);
  }

  lemma {:induction false} PieceCount(s: string)
    ensures |Pieces(s)| == 1 + Newlines(s)
  {
    var end := Find(s);
    if end < |s| {
      PieceCount(s[end + 1..]);
      NewlinesOfLine(s[..end], s[end + 1..]);
      assert s == s[..end] + [NEWLINE] + s[end + 1..];
    } else {
      assert s == s[..end];
      NoNewlines(s);
    }
  }

  lemma ItemCount(s: string)
    ensures |Items(s)| <= 1 + Newlines(s)
  {
    PieceCount(s);
  }

  // ---------------------------------------------------------------- the dialog object

  datatype Style = MsgBox | Input | List | Password | TabList | TabListHeaders

  datatype Reply = Reply(id: u16, button: u8, listItem: u16, text: string)

  predicate IsList(style: Style)
    ensures IsList(style) <==> style != MsgBox && style != Input && style != Password
  {
    style == List || style == TabList || style == TabListHeaders
  }

  /** A C string; nothing for a null pointer. */
  type CString = Options.Option<string>

  function OrEmpty(s: CString): (text: string)
    ensures s.None? ==> text == ""
    ensures s.Some? ==> text == s.value
  {
    if s.Some? then s.value else ""
  }

  class DialogBox {
    var active: bool
    var id: u16
    var style: Style
    var title: string
    var btn1: string
    var btn2: string
    var info: string
    var items: seq<string>
    var selected: int
    var input: string
    var wantFocus: bool

    /** The selection is an item of the body shown, if there is one. */
    ghost predicate Valid()
      reads this
    {
      (items == [] || items == Items(info)) && -1 <= selected < |items| &&
      (style == List && Items(info) != [] ==> items != [] && selected >= 0)
    }

    constructor ()
      ensures Valid() && !active
    {
      active, id, style := false, 0, MsgBox;
      title, btn1, btn2, info := "", "", "", "";
      items, selected, input, wantFocus := [], -1, "", false;
    }

    method SetTexts(title: CString, btn1: CString, btn2: CString, info: CString)
      modifies this`title, this`btn1, this`btn2, this`info
      ensures this.title == OrEmpty(title) && this.btn1 == OrEmpty(btn1) && this.btn2 == OrEmpty(btn2)
      ensures this.info == OrEmpty(info)
    {
      this.title := OrEmpty(title);
      this.btn1 := OrEmpty(btn1);
      this.btn2 := OrEmpty(btn2);
      this.info := OrEmpty(info);
    }

    /** The rows of a list, the first of them selected. */
    method ShowItems()
      modifies this`items, this`selected
      ensures Valid() && items == if IsList(style) then Items(info) else []
      ensures selected == if items == [] then -1 else 0
    {
      items := [];
      selected := -1;
      if IsList(style) {
        items := SplitLines(info);
        if items != [] {
          selected := 0;
        }
      }
    }

    /** An empty input line, focused if the style has one. */
    method Activate()
      modifies this`input, this`wantFocus, this`active
      ensures active && input == "" && (wantFocus <==> style == Input || style == Password)
    {
      input := "";
      wantFocus := style == Input || style == Password;
      active := true;
    }

    method Show(id: u16, style: Style, title: CString, btn1: CString, btn2: CString, info: CString)
      modifies this
      ensures Valid() && active && this.id == id && this.style == style && input == ""
      ensures this.title == OrEmpty(title) && this.btn1 == OrEmpty(btn1) && this.btn2 == OrEmpty(btn2)
      ensures this.info == OrEmpty(info) && (wantFocus <==> style == Input || style == Password)
      ensures items == if IsList(style) then Items(this.info) else []
      ensures selected == if items == [] then -1 else 0
    {
      this.id, this.style := id, style;
      SetTexts(title, btn1, btn2, info);
      ShowItems();
      Activate();
    }

    method Hide()
      modifies this`active
      ensures !active
    {
      active := false;
    }

    /** A click on row i of the list; the first row of TabListHeaders is not clickable. */
    method Select(i: int)
      requires Valid() && (if style == TabListHeaders then 1 else 0) <= i < |items|
      modifies this`selected
      ensures Valid() && selected == i
    {
      selected := i;
    }

    /** The index sent is the selection cut to 16 bits; the text is that of the item. */
    method Respond(button: u8) returns (reply: Reply)
      requires Valid()
      modifies this`active
      ensures !active && reply.id == id && reply.button == button
      ensures style == List && Items(info) != [] ==>
        selected >= 0 && reply.text == Items(info)[selected] && reply.listItem == selected % B16
      ensures style == List && Items(info) != [] && Newlines(info) < 0xFFFF ==>
        reply.listItem == selected && reply.listItem != 0xFFFF && reply.text == Items(info)[reply.listItem]
      ensures style == Input || style == Password ==> reply.listItem == 0xFFFF && reply.text == input
      ensures style == MsgBox || style == TabList || style == TabListHeaders || (style == List && Items(info) == []) ==>
        reply.listItem == 0xFFFF && reply.text == ""
    {
      var listItem: u16 := 0xFFFF;
      var text := "";
      match style {
        case List =>
          if selected >= 0 {
            listItem := selected % B16;
            text := items[selected];
          }
        case Input => text := input;
        case Password => text := input;
        case _ =>
      }
      ItemCount(info);
      reply := Reply(id, button, listItem, text);
      Hide();
    }
  }
}
