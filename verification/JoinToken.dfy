/** The join token sent with ClientJoin: a 160-bit by 32-bit multiplication done in
    32-bit limbs, and the hexadecimal printer that follows it. */
module JoinToken {
  import opened Machine
  import opened Text

  // ---------------------------------------------------------------- limbs

  /** Value of 32-bit limbs, least significant limb first. */
  function Limbs(ws: seq<u32>): nat {
    if ws == [] then 0 else ws[0] + B32 * Limbs(ws[1..])
  }

  /** Shifts and masks by whole bytes, written as division, remainder and sum. */
  function Bswap32(v: u32): u32 {
    Word(v / 0x100_0000, v / 0x1_0000 % 256, v / 0x100 % 256, v % 256)
  }

  /** Swapping exchanges the bytes end for end, and twice is the identity. */
  lemma Bswap32Swaps(b0: u8, b1: u8, b2: u8, b3: u8)
    ensures Word(b0, b1, b2, b3) < B32
    ensures Bswap32(Word(b0, b1, b2, b3)) == Word(b3, b2, b1, b0)
  {
    WordBytes(b0, b1, b2, b3);
  }

  lemma WordBytes(b0: u8, b1: u8, b2: u8, b3: u8)
    ensures var v := Word(b0, b1, b2, b3);
      v < B32 && v % 256 == b0 && v / 0x100 % 256 == b1 && v / 0x1_0000 % 256 == b2 && v / 0x100_0000 == b3
  {
    var v := Word(b0, b1, b2, b3);
    assert v / 0x100 == b1 as nat + 0x100 * (b2 as nat) + 0x1_0000 * (b3 as nat);
    assert v / 0x1_0000 == b2 as nat + 0x100 * (b3 as nat);
  }

  lemma FourBytes(b: seq<u8>)
    requires |b| == 4
    ensures LittleEndian(b) == Word(b[0], b[1], b[2], b[3])
    ensures BigEndian(b) == Word(b[3], b[2], b[1], b[0])
  {
    FourLittle(b);
    assert b[..3][..2] == b[..2] && b[..2][..1] == b[..1];
    assert BigEndian(b[..1]) == b[0];
    assert BigEndian(b[..2]) == BigEndian(b[..1]) * 256 + b[1];
    assert BigEndian(b[..3]) == BigEndian(b[..2]) * 256 + b[2];
  }

  lemma {:induction false} BigEndianConcat(a: seq<u8>, b: seq<u8>)
    requires |b| == 4
    ensures BigEndian(a + b) == BigEndian(a) * B32 + BigEndian(b)
  {
    FourBytes(b);
    var s := a + b;
    var n := |s|;
    assert s[..n - 1][..n - 2] == s[..n - 2] && s[..n - 2][..n - 3] == s[..n - 3] && s[..n - 3][..n - 4] == a;
    assert BigEndian(s[..n - 3]) == BigEndian(a) * 256 + b[0];
    assert BigEndian(s[..n - 2]) == BigEndian(s[..n - 3]) * 256 + b[1];
    assert BigEndian(s[..n - 1]) == BigEndian(s[..n - 2]) * 256 + b[2];
  }

  /** Big-endian words taken from the back of a byte string are its limbs. */
  lemma {:induction false} LimbsOfBytes(s: seq<u8>, ws: seq<u32>)
    requires |s| == 4 * |ws|
    requires forall i :: 0 <= i < |ws| ==> ws[i] == BigEndian(s[|s| - 4 * i - 4..|s| - 4 * i])
    ensures BigEndian(s) == Limbs(ws)
  {
    if ws != [] {
      var n := |s|;
      var front, last := s[..n - 4], s[n - 4..];
      assert s == front + last;
      BigEndianConcat(front, last);
      assert s[n - 4 * 0 - 4..n - 4 * 0] == last;
      forall i | 0 <= i < |ws| - 1
        ensures ws[1..][i] == BigEndian(front[n - 4 - 4 * i - 4..n - 4 - 4 * i])
      {
        assert front[n - 4 - 4 * i - 4..n - 4 - 4 * i] == s[n - 4 * (i + 1) - 4..n - 4 * (i + 1)];
      }
      assert ws[0] == BigEndian(last);
      LimbsOfBytes(front, ws[1..]);
    }
  }

  /** Limbs stored little-endian, one after another, form a little-endian byte string. */
  lemma {:induction false} BytesOfLimbs(s: seq<u8>, ws: seq<u32>)
    requires |s| == 4 * |ws|
    requires forall i :: 0 <= i < |ws| ==> ws[i] == LittleEndian(s[4 * i..4 * i + 4])
    ensures LittleEndian(s) == Limbs(ws)
  {
    if ws != [] {
      var head, tail := s[..4], s[4..];
      FourBytes(head);
      assert s[1..][1..] == s[2..] && s[2..][1..] == s[3..] && s[3..][1..] == tail;
      assert LittleEndian(s[3..]) == s[3] + 256 * LittleEndian(tail);
      assert LittleEndian(s[2..]) == s[2] + 256 * LittleEndian(s[3..]);
      assert LittleEndian(s[1..]) == s[1] + 256 * LittleEndian(s[2..]);
      forall i | 0 <= i < |ws| - 1
        ensures ws[1..][i] == LittleEndian(tail[4 * i..4 * i + 4])
      {
        assert tail[4 * i..4 * i + 4] == s[4 * (i + 1)..4 * (i + 1) + 4];
      }
      assert ws[0] == LittleEndian(s[4 * 0..4 * 0 + 4]);
      assert s[4 * 0..4 * 0 + 4] == head;
      BytesOfLimbs(tail, ws[1..]);
    }
  }

  lemma MulMonotone(a: nat, b: nat, f: nat)
    requires a <= b
    ensures a * f <= b * f
  {
    assert b * f == a * f + (b - a) * f;
  }

  /** One limb product plus the incoming carry fits in 64 bits. */
  lemma LimbProductFits(a: u32, f: u32, carry: u32)
    ensures 0 <= a as nat * f as nat + carry as nat < B64
  {
    MulMonotone(a, 0xFFFF_FFFF, f);
  }

  /** One limb product: `o` is kept, `cOut` is carried. */
  ghost predicate LimbStep(s: nat, f: nat, cIn: nat, o: nat, cOut: nat) {
    s * f + cIn == o + B32 * cOut
  }

  lemma CarryStep(s: nat, sHigh: nat, f: nat, cIn: nat, o: nat, oHigh: nat, cOut: nat)
    requires LimbStep(s, f, cIn, o, cOut)
    requires oHigh == sHigh * f + cOut
    ensures (s + B32 * sHigh) * f + cIn == o + B32 * oHigh
  {
    assert (s + B32 * sHigh) * f == s * f + B32 * (sHigh * f);
  }

  /** Schoolbook carries: the equations left by the limb products add up to the product. */
  lemma {:induction false} CarryChain(src: seq<u32>, out: seq<u32>, c: seq<u32>, f: u32, cIn: nat)
    requires |out| == |src| + 1 && |c| == |src|
    requires forall i {:trigger src[i]} :: 0 <= i < |src| ==>
      LimbStep(src[i], f, if i == 0 then cIn else c[i - 1], out[i], c[i])
    requires out[|src|] == if src == [] then cIn else c[|src| - 1]
    ensures Limbs(out) == Limbs(src) * f + cIn
  {
    if src == [] {
      assert out[1..] == [];
    } else {
      CarryChain(src[1..], out[1..], c[1..], f, c[0]);
      CarryStep(src[0], Limbs(src[1..]), f, cIn, out[0], Limbs(out[1..]), c[0]);
    }
  }

  // ---------------------------------------------------------------- the multiplication

  /** The output buffer, read big-endian, is the first 20 input bytes read big-endian
      times the factor. The two buffers may be the same one. */
  method BigNumMulSafe(inBytes: array<u8>, outBytes: array<u8>, factor: u32)
    requires inBytes.Length == 24 && outBytes.Length == 24
    modifies outBytes
    ensures BigEndian(outBytes[..]) == BigEndian(old(inBytes[..20])) * factor
  {
    var inWords := ReadWords(inBytes);
    var src := SwapWords(inWords, inBytes[..20]);
    LimbsOfBytes(inBytes[..20], src[..]);
    var outWords := MulLimbs(src, factor);
    StoreWords(outWords, outBytes);
    ReverseBytes(outBytes);
  }

  /** Little-endian load of the first five words. */
  method ReadWords(inBytes: array<u8>) returns (inWords: array<u32>)
    requires inBytes.Length == 24
    ensures fresh(inWords) && inWords.Length == 5
    ensures forall k :: 0 <= k < 5 ==> inWords[k] == LittleEndian(inBytes[..20][4 * k..4 * k + 4])
  {
    ghost var given := inBytes[..20];
    inWords := new u32[5];
    for i := 0 to 5
      invariant inBytes[..20] == given
      invariant forall k :: 0 <= k < i ==> inWords[k] == LittleEndian(given[4 * k..4 * k + 4])
    {
      var o := i * 4;
      FourBytes(given[o..o + 4]);
      WordBytes(inBytes[o], inBytes[o + 1], inBytes[o + 2], inBytes[o + 3]);
      inWords[i] := Word(inBytes[o], inBytes[o + 1], inBytes[o + 2], inBytes[o + 3]);
    }
  }

  lemma SwappedReading(b: seq<u8>, w: u32)
    requires |b| == 4 && w == LittleEndian(b)
    ensures Bswap32(w) == BigEndian(b)
  {
    FourBytes(b);
    Bswap32Swaps(b[0], b[1], b[2], b[3]);
  }

  /** The words in reverse order, each byte-swapped: the limbs, least significant first. */
  method SwapWords(inWords: array<u32>, ghost given: seq<u8>) returns (src: array<u32>)
    requires inWords.Length == 5 && |given| == 20
    requires forall k :: 0 <= k < 5 ==> inWords[k] == LittleEndian(given[4 * k..4 * k + 4])
    ensures fresh(src) && src.Length == 5
    ensures forall k :: 0 <= k < 5 ==> src[k] == BigEndian(given[16 - 4 * k..20 - 4 * k])
  {
    src := new u32[5];
    for i := 0 to 5
      invariant forall k :: 0 <= k < i ==> src[k] == Bswap32(inWords[4 - k])
    {
      src[i] := Bswap32(inWords[4 - i]);
    }
    forall k | 0 <= k < 5 ensures src[k] == BigEndian(given[16 - 4 * k..20 - 4 * k]) {
      SwappedReading(given[4 * (4 - k)..4 * (4 - k) + 4], inWords[4 - k]);
    }
  }

  /** The five unrolled limb products. `tmp` is a 64-bit unsigned value throughout. */
  method MulLimbs(src: array<u32>, factor: u32) returns (outWords: array<u32>)
    requires src.Length == 5
    ensures fresh(outWords) && outWords.Length == 6
    ensures Limbs(outWords[..]) == Limbs(src[..]) * factor
  {
    outWords := new u32[6];
    var tmp: u64 := 0;
    ghost var c: seq<u32> := [];

    LimbProductFits(src[0], factor, 0);
    tmp := src[0] * factor;
    outWords[0] := tmp % B32;
    outWords[1] := tmp / B32;
    c := c + [outWords[1]];

    LimbProductFits(src[1], factor, outWords[1]);
    tmp := src[1] * factor + outWords[1];
    outWords[1] := tmp % B32;
    outWords[2] := tmp / B32;
    c := c + [outWords[2]];

    LimbProductFits(src[2], factor, outWords[2]);
    tmp := src[2] * factor + outWords[2];
    outWords[2] := tmp % B32;
    outWords[3] := tmp / B32;
    c := c + [outWords[3]];

    LimbProductFits(src[3], factor, outWords[3]);
    tmp := src[3] * factor + outWords[3];
    outWords[3] := tmp % B32;
    outWords[4] := tmp / B32;
    c := c + [outWords[4]];

    LimbProductFits(src[4], factor, outWords[4]);
    tmp := src[4] * factor + outWords[4];
    outWords[4] := tmp % B32;
    outWords[5] := tmp / B32;
    c := c + [outWords[5]];

    CarryChain(src[..], outWords[..], c, factor, 0);
  }

  method StoreWord(w: u32, outBytes: array<u8>, o: nat)
    requires o + 4 <= outBytes.Length
    modifies outBytes
    ensures LittleEndian(outBytes[..][o..o + 4]) == w
    ensures forall k :: 0 <= k < outBytes.Length && !(o <= k < o + 4) ==> outBytes[k] == old(outBytes[k])
  {
    outBytes[o] := w % 256;
    outBytes[o + 1] := w / 0x100 % 256;
    outBytes[o + 2] := w / 0x1_0000 % 256;
    outBytes[o + 3] := w / 0x100_0000 % 256;
    assert outBytes[..][o..o + 4] == LE4(w);
    LE4Back(w);
  }

  /** Little-endian store of six words. */
  method StoreWords(outWords: array<u32>, outBytes: array<u8>)
    requires outWords.Length == 6 && outBytes.Length == 24
    modifies outBytes
    ensures LittleEndian(outBytes[..]) == Limbs(outWords[..])
  {
    for i := 0 to 6
      invariant forall k :: 0 <= k < i ==> outWords[k] == LittleEndian(outBytes[..][4 * k..4 * k + 4])
    {
      ghost var before := outBytes[..];
      StoreWord(outWords[i], outBytes, i * 4);
      forall k | 0 <= k < i ensures outBytes[..][4 * k..4 * k + 4] == before[4 * k..4 * k + 4] {
      }
    }
    BytesOfLimbs(outBytes[..], outWords[..]);
  }

  /** The in-place reversal of all 24 bytes. */
  method ReverseBytes(outBytes: array<u8>)
    requires outBytes.Length == 24
    modifies outBytes
    ensures BigEndian(outBytes[..]) == LittleEndian(old(outBytes[..]))
  {
    for i := 0 to 12
      invariant forall k :: 0 <= k < i ==> outBytes[k] == old(outBytes[23 - k]) && outBytes[23 - k] == old(outBytes[k])
      invariant forall k :: i <= k < 24 - i ==> outBytes[k] == old(outBytes[k])
    {
      outBytes[i], outBytes[23 - i] := outBytes[23 - i], outBytes[i];
    }
    ReversedBytes(outBytes[..], old(outBytes[..]));
  }

  // ---------------------------------------------------------------- the hexadecimal printer

  predicate IsHex(c: char) {
    '0' <= c <= '9' || 'A' <= c <= 'F'
  }

  function HexValue(c: char): (d: nat)
    requires IsHex(c)
  {
    if c >= 'A' then c as nat - 55 else c as nat - 48
  }

  /** The upper-case hexadecimal numeral of n. */
  function HexNumeral(n: nat): seq<char> {
    if n < 16 then [HexDigit(n)] else HexNumeral(n / 16) + [HexDigit(n % 16)]
  }

  function ParseHex(s: seq<char>): nat
    requires forall i :: 0 <= i < |s| ==> IsHex(s[i])
  {
    if s == [] then 0 else ParseHex(s[..|s| - 1]) * 16 + HexValue(s[|s| - 1])
  }

  /** Appending one digit, with leading zeros suppressed, is what the printer does. */
  lemma HexAppend(v: nat, d: nat)
    requires d < 16
    ensures HexNumeral(v * 16 + d) == if v == 0 then [HexDigit(d)] else HexNumeral(v) + [HexDigit(d)]
  {
    assert (v * 16 + d) / 16 == v && (v * 16 + d) % 16 == d;
  }

  /** The first `pos` characters are the numeral of v, or nothing when v is still zero. */
  ghost predicate Printed(text: seq<char>, pos: nat, notzero: bool, v: nat) {
    pos <= |text| && (notzero <==> v != 0) && text[..pos] == if v == 0 then [] else HexNumeral(v)
  }

  /** One of the two identical digit branches of the printing loop. */
  method PrintDigit(buf: array<char>, pos: nat, notzero: bool, d: nat, ghost v: nat) returns (pos': nat, notzero': bool)
    requires d < 16 && pos < buf.Length && Printed(buf[..], pos, notzero, v)
    modifies buf
    ensures pos <= pos' <= pos + 1 && Printed(buf[..], pos', notzero', v * 16 + d)
  {
    HexAppend(v, d);
    pos', notzero' := pos, notzero;
    if notzero || d != 0 {
      buf[pos] := HexDigit(d);
      assert buf[..][..pos + 1] == old(buf[..][..pos]) + [HexDigit(d)];
      pos', notzero' := pos + 1, true;
    }
  }

  /** The printing loop over the 24 product bytes, leading zero digits suppressed. */
  method PrintHex(mulOut: array<u8>, buf: array<char>) returns (len: nat)
    requires mulOut.Length == 24 && buf.Length == 64
    modifies buf
    ensures len <= 48 && buf[len] == '\0' && buf[..len] == HexNumeral(BigEndian(mulOut[..]))
  {
    var pos := 0;
    var notzero := false;
    for i := 0 to 24
      invariant pos <= 2 * i && Printed(buf[..], pos, notzero, BigEndian(mulOut[..i]))
    {
      ghost var v := BigEndian(mulOut[..i]);
      assert mulOut[..i + 1][..i] == mulOut[..i];
      var tmp := mulOut[i] / 16;
      var tmp2 := mulOut[i] % 16;
      pos, notzero := PrintDigit(buf, pos, notzero, tmp, v);
      pos, notzero := PrintDigit(buf, pos, notzero, tmp2, v * 16 + tmp);
      assert pos < 63;
      if pos >= 63 {
        break;
      }
    }
    assert mulOut[..24] == mulOut[..];
    if !notzero {
      buf[0] := '0';
      buf[1] := '\0';
      return 1;
    }
    buf[pos] := '\0';
    assert buf[..pos] == buf[..][..pos];
    return pos;
  }

  /** `gen_gpci`: prints the product of the random bytes and the factor as the canonical
      upper-case hexadecimal numeral, terminated at the returned length. */
  method GenGpci(buf: array?<char>, factor: u32, random: seq<u8>) returns (len: nat)
    requires buf != null ==> buf.Length == 64
    requires |random| == 24
    modifies if buf == null then {} else {buf}
    ensures buf == null ==> len == 0
    ensures buf != null ==> len <= 48 && buf[len] == '\0'
    ensures buf != null ==> buf[..len] == HexNumeral(BigEndian(random[..20]) * factor)
  {
    if buf == null {
      return 0;
    }
    buf[0] := '0';
    buf[1] := '\0';
    if factor == 0 {
      assert BigEndian(random[..20]) * factor == 0;
      assert HexDigit(0) == '0';
      return 1;
    }
    var raw := new u8[24](i requires 0 <= i < 24 => random[i]);
    assert raw[..20] == random[..20];
    var mulOut := new u8[24];
    BigNumMulSafe(raw, mulOut, factor);
    len := PrintHex(mulOut, buf);
  }

  // ---------------------------------------------------------------- what the token means

  lemma {:induction false} HexNumeralParses(n: nat)
    ensures forall i :: 0 <= i < |HexNumeral(n)| ==> IsHex(HexNumeral(n)[i])
    ensures ParseHex(HexNumeral(n)) == n
  {
    var s := HexNumeral(n);
    if n < 16 {
      assert s[..0] == [];
    } else {
      HexNumeralParses(n / 16);
      assert s[..|s| - 1] == HexNumeral(n / 16);
    }
  }

  /** The printed numerals are exactly the non-empty digit strings without a leading zero. */
  lemma {:induction false} HexNumeralCanonical(s: seq<char>)
    requires forall i :: 0 <= i < |s| ==> IsHex(s[i])
    ensures s != [] && (s[0] == '0' ==> |s| == 1) <==> s == HexNumeral(ParseHex(s))
  {
    if s == [] {
    } else if |s| == 1 {
      assert s[..0] == [];
    } else {
      var front := s[..|s| - 1];
      HexNumeralCanonical(front);
      HexAppend(ParseHex(front), HexValue(s[|s| - 1]));
      assert s == front + [s[|s| - 1]];
      if s[0] == '0' {
        NoLeadingZero(ParseHex(s));
      } else {
        assert front == HexNumeral(ParseHex(front));
        if ParseHex(front) == 0 {
          assert false;
        }
      }
    }
  }

  lemma {:induction false} NoLeadingZero(n: nat)
    ensures HexNumeral(n) != [] && (HexNumeral(n)[0] == '0' ==> n == 0 && |HexNumeral(n)| == 1)
  {
    if n >= 16 {
      NoLeadingZero(n / 16);
    }
  }

  lemma LastDigit(x: nat, p: u8, y: nat, q: u8)
    requires x * 256 + p == y * 256 + q
    ensures x == y && p == q
  {
  }

  lemma {:induction false} BigEndianInjective(a: seq<u8>, b: seq<u8>)
    requires |a| == |b| && BigEndian(a) == BigEndian(b)
    ensures a == b
  {
    if a != [] {
      var n := |a| - 1;
      LastDigit(BigEndian(a[..n]), a[n], BigEndian(b[..n]), b[n]);
      BigEndianInjective(a[..n], b[..n]);
      assert a == a[..n] + [a[n]] && b == b[..n] + [b[n]];
    }
  }

  /** The token gives back the first twenty random bytes; the other four never matter. */
  lemma TokenRecoversBytes(random: seq<u8>, other: seq<u8>, factor: u32)
    requires |random| == 24 && |other| == 24 && factor != 0
    ensures var token := HexNumeral(BigEndian(random[..20]) * factor);
      (forall i :: 0 <= i < |token| ==> IsHex(token[i])) &&
      ParseHex(token) / factor == BigEndian(random[..20]) &&
      (token == HexNumeral(BigEndian(other[..20]) * factor) <==> random[..20] == other[..20])
  {
    var a, b := BigEndian(random[..20]), BigEndian(other[..20]);
    HexNumeralParses(a * factor);
    HexNumeralParses(b * factor);
    MulDiv(a, factor);
    MulDiv(b, factor);
    if a == b {
      BigEndianInjective(random[..20], other[..20]);
    }
  }

  lemma MulDiv(a: nat, f: nat)
    requires f != 0
    ensures a * f / f == a
  {
    var q, r := a * f / f, a * f % f;
    assert (a - q) * f == r;
    if a > q {
      MulMonotone(1, a - q, f);
    }
  }

  // ---------------------------------------------------------------- the length of the token

  lemma {:induction false} HexLength(n: nat, k: nat)
    requires k > 0 && Pow16(k - 1) <= n < Pow16(k)
    ensures |HexNumeral(n)| == k
  {
    if k == 1 {
      assert Pow16(1) == 16 * Pow16(0);
    } else {
      assert Pow16(k) == 16 * Pow16(k - 1) && Pow16(k - 1) == 16 * Pow16(k - 2);
      Pow16Positive(k - 2);
      HexLength(n / 16, k - 1);
    }
  }

  lemma {:induction false} Pow16Positive(k: nat)
    ensures Pow16(k) > 0
  {
    if k > 0 {
      Pow16Positive(k - 1);
    }
  }

  /** The leading bytes bound a big-endian number on both sides. */
  lemma {:induction false} LeadingBytes(s: seq<u8>, k: nat)
    requires k <= |s|
    ensures BigEndian(s[..k]) * Pow16(2 * (|s| - k)) <= BigEndian(s)
    ensures BigEndian(s) < (BigEndian(s[..k]) + 1) * Pow16(2 * (|s| - k))
    decreases |s|
  {
    var n := |s| - k;
    if n == 0 {
      assert s[..k] == s;
    } else {
      var front := s[..|s| - 1];
      assert front[..k] == s[..k];
      LeadingBytes(front, k);
      assert Pow16(2 * n) == 16 * Pow16(2 * n - 1) && Pow16(2 * n - 1) == 16 * Pow16(2 * n - 2);
      ScaleBy256(BigEndian(s[..k]), Pow16(2 * n - 2));
      ScaleBy256(BigEndian(s[..k]) + 1, Pow16(2 * n - 2));
    }
  }

  lemma ScaleBy256(a: nat, p: nat)
    ensures a * (256 * p) == 256 * (a * p)
  {
  }

  lemma Pow16Add4(k: nat)
    ensures Pow16(k + 4) == 0x1_0000 * Pow16(k)
  {
    assert Pow16(k + 1) == 16 * Pow16(k) && Pow16(k + 2) == 16 * Pow16(k + 1);
    assert Pow16(k + 3) == 16 * Pow16(k + 2) && Pow16(k + 4) == 16 * Pow16(k + 3);
  }

  predicate Alphanumeric(b: u8) {
    0x30 <= b <= 0x39 || 0x41 <= b <= 0x5A
  }

  lemma PowersFrom36()
    ensures var p := Pow16(36);
      p > 0 && Pow16(41) == 0x10_0000 * p && Pow16(42) == 0x100_0000 * p && Pow16(43) == 0x1000_0000 * p
  {
    Pow16Positive(36);
    Pow16Add4(36);
    assert Pow16(41) == 16 * Pow16(40) && Pow16(42) == 16 * Pow16(41) && Pow16(43) == 16 * Pow16(42);
  }

  /** Bounds on the leading bytes are bounds on the product. */
  lemma ScaledBounds(v: nat, lead: nat, low: nat, high: nat, p: nat)
    requires lead * p <= v < (lead + 1) * p && low <= lead <= high
    ensures low * p * 0x3e9 <= v * 0x3e9 < (high + 1) * p * 0x3e9
  {
    MulMonotone(low, lead, p);
    MulMonotone(lead + 1, high + 1, p);
  }

  lemma LeadingWord(s: seq<u8>)
    requires |s| == 20
    ensures var lead := s[0] as nat * 256 + s[1] as nat;
      lead * Pow16(36) <= BigEndian(s) < (lead + 1) * Pow16(36)
  {
    assert s[..2][..1] == s[..1];
    assert BigEndian(s[..1]) == s[0];
    LeadingBytes(s, 2);
  }

  lemma ProductRange(v: nat, lead: nat, p: nat, high: bool)
    requires p > 0 && lead * p <= v < (lead + 1) * p
    requires if high then 0x4200 <= lead <= 0xFFFF else 0x3000 <= lead <= 0x415A
    ensures if high then 0x100_0000 * p <= v * 0x3e9 < 0x1000_0000 * p
            else 0x10_0000 * p <= v * 0x3e9 < 0x100_0000 * p
  {
    if high {
      ScaledBounds(v, lead, 0x4200, 0xFFFF, p);
    } else {
      ScaledBounds(v, lead, 0x3000, 0x415A, p);
    }
  }

  lemma TokenRange(s: seq<u8>)
    requires |s| == 20 && Alphanumeric(s[0]) && Alphanumeric(s[1])
    ensures var v := BigEndian(s) * 0x3e9;
      if s[0] >= 0x42 then Pow16(42) <= v < Pow16(43) else Pow16(41) <= v < Pow16(42)
  {
    LeadingWord(s);
    PowersFrom36();
    ProductRange(BigEndian(s), s[0] as nat * 256 + s[1] as nat, Pow16(36), s[0] >= 0x42);
  }

  /** With the factor the client uses, the token has 43 digits exactly when the first
      random character is one of B to Z, and 42 otherwise. */
  lemma TokenLength(random: seq<u8>)
    requires |random| == 24
    requires forall i :: 0 <= i < 24 ==> Alphanumeric(random[i])
    ensures |HexNumeral(BigEndian(random[..20]) * 0x3e9)| == if random[0] >= 0x42 then 43 else 42
  {
    TokenRange(random[..20]);
    HexLength(BigEndian(random[..20]) * 0x3e9, if random[0] >= 0x42 then 43 else 42);
  }
}
