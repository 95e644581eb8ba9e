/** Fixed-width unsigned integers of the modelled C++ code, as ranges of `nat`. */
module Machine {

  const B8: nat := 0x100
  const B16: nat := 0x1_0000
  const B32: nat := 0x1_0000_0000
  const B64: nat := 0x1_0000_0000_0000_0000

  type u8 = n: nat | n < B8
  type u16 = n: nat | n < B16
  type u32 = n: nat | n < B32
  type u64 = n: nat | n < B64
  type i32 = v: int | -0x8000_0000 <= v < 0x8000_0000

  /** Two's complement: the number of this range that is congruent to the word. */
  function Signed32(w: u32): (v: i32)
    ensures v % 0x1_0000_0000 == w
  {
    if w < 0x8000_0000 then w else w - B32
  }

  function Unsigned32(v: i32): (w: u32)
    ensures Signed32(w) == v
  {
    if v < 0 then v + B32 else v
  }

  /** Value of a byte string, most significant byte first. */
  function BigEndian(s: seq<u8>): nat {
    if s == [] then 0 else BigEndian(s[..|s| - 1]) * 256 + s[|s| - 1]
  }

  /** Value of a byte string, least significant byte first. */
  function LittleEndian(s: seq<u8>): nat {
    if s == [] then 0 else s[0] + 256 * LittleEndian(s[1..])
  }

  lemma {:induction false} ReversedBytes(r: seq<u8>, s: seq<u8>)
    requires |r| == |s|
    requires forall k :: 0 <= k < |s| ==> r[k] == s[|s| - 1 - k]
    ensures BigEndian(r) == LittleEndian(s)
  {
    if s != [] {
      ReversedBytes(r[..|r| - 1], s[1..]);
    }
  }

  /** A word from its bytes, least significant first. */
  function Word(b0: nat, b1: nat, b2: nat, b3: nat): nat {
    b0 + 0x100 * b1 + 0x1_0000 * b2 + 0x100_0000 * b3
  }

  /** The little-endian bytes of a 32-bit word. */
  function LE4(w: u32): (s: seq<u8>)
    ensures |s| == 4
  {
    [w % 256, w / 0x100 % 256, w / 0x1_0000 % 256, w / 0x100_0000 % 256]
  }

  lemma FourLittle(s: seq<u8>)
    requires |s| == 4
    ensures LittleEndian(s) == Word(s[0], s[1], s[2], s[3])
  {
    assert s[1..][1..] == s[2..] && s[2..][1..] == s[3..] && s[3..][1..] == [];
    assert LittleEndian(s[3..]) == s[3];
    assert LittleEndian(s[2..]) == s[2] as nat + 256 * s[3] as nat;
  }

  lemma LE4Back(w: u32)
    ensures LittleEndian(LE4(w)) == w
  {
    FourLittle(LE4(w));
    ByteByByte(w);
  }

  lemma ByteByByte(w: u32)
    ensures w == Word(w % 256, w / 0x100 % 256, w / 0x1_0000 % 256, w / 0x100_0000 % 256)
  {
    assert w / 0x1_0000 == w / 0x100 / 256;
    assert w / 0x100_0000 == w / 0x1_0000 / 256 < 256;
  }

  /** The value of eight bytes from the values of their halves. */
  lemma LittleEndianAppend(a: seq<u8>, b: seq<u8>)
    requires |a| == 4
    ensures LittleEndian(a + b) == LittleEndian(a) + B32 * LittleEndian(b)
  {
    FourLittle(a);
    var s := a + b;
    assert s[4..] == b;
    assert s[3..][1..] == s[4..] && s[2..][1..] == s[3..] && s[1..][1..] == s[2..];
    assert LittleEndian(s[3..]) == a[3] as nat + 256 * LittleEndian(b);
    assert LittleEndian(s[2..]) == a[2] as nat + 256 * LittleEndian(s[3..]);
    assert LittleEndian(s[1..]) == a[1] as nat + 256 * LittleEndian(s[2..]);
  }
}

/** A value that may be missing. */
module Options {
  datatype Option<+T> = None | Some(value: T)
}

/** Limits of the network protocol. */
module Protocol {
  const MAX_PLAYERS: nat := 1000
  const MAX_VEHICLES: nat := 2000
}

/** Lines and hexadecimal digits. */
module Text {
  const NEWLINE: char := '\n'

  function Newlines(text: seq<char>): (n: nat)
    ensures n <= |text|
  {
    if text == [] then 0 else (if text[0] == NEWLINE then 1 else 0) + Newlines(text[1..])
  }

  lemma {:induction false} NewlinesConcat(s: seq<char>, t: seq<char>)
    ensures Newlines(s + t) == Newlines(s) + Newlines(t)
  {
    if s == [] {
      assert s + t == t;
    } else {
      assert (s + t)[1..] == s[1..] + t;
      NewlinesConcat(s[1..], t);
    }
  }

  lemma {:induction false} NoNewlines(s: seq<char>)
    requires NEWLINE !in s
    ensures Newlines(s) == 0
  {
    if s != [] {
      NoNewlines(s[1..]);
    }
  }

  lemma NewlinesOfLine(line: seq<char>, rest: seq<char>)
    requires NEWLINE !in line
    ensures Newlines(line + [NEWLINE] + rest) == 1 + Newlines(rest)
  {
    NewlinesConcat(line + [NEWLINE], rest);
    NewlinesConcat(line, [NEWLINE]);
    NoNewlines(line);
    assert [NEWLINE][1..] == [];
  }

  function HexDigit(d: nat): (c: char)
    requires d < 16
  {
    if d > 9 then (d + 55) as char else (d + 48) as char
  }

  lemma HexDigitIs(d: nat)
    requires d < 16
    ensures HexDigit(d) == "0123456789ABCDEF"[d]
  {
  }

  function Pow16(k: nat): nat {
    if k == 0 then 1 else 16 * Pow16(k - 1)
  }
}
