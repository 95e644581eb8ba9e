/** RakNet bit streams: little-endian integers, each byte most significant bit first, read
    at a bit offset. A short read reports failure, moves nothing and leaves its target alone. */
module Wire {
  import opened Machine

  type Bits = seq<bool>

  // ---------------------------------------------------------------- integers as bits

  function BitsOf(v: nat, n: nat): (b: Bits)
    ensures |b| == n
  {
    if n == 0 then [] else BitsOf(v / 2, n - 1) + [v % 2 == 1]
  }

  function ValueOf(b: Bits): nat {
    if b == [] then 0 else 2 * ValueOf(b[..|b| - 1]) + if b[|b| - 1] then 1 else 0
  }

  function Bytes(v: nat, k: nat): (b: Bits)
    ensures |b| == 8 * k
  {
    if k == 0 then [] else BitsOf(v % 256, 8) + Bytes(v / 256, k - 1)
  }

  /** k bytes, least significant byte first. Given bit by bit, so that a packet layout can
      mention a field without computing its digits. */
  function LEBits(v: nat, k: nat): (b: Bits)
    ensures |b| == 8 * k
  {
    seq(8 * k, i requires 0 <= i < 8 * k => Bytes(v, k)[i])
  }

  /** The weight of a bit. */
  function Worth(bit: bool, weight: nat): nat {
    if bit then weight else 0
  }

  lemma {:induction false} ValueStep(b: Bits, n: nat)
    requires n < |b|
    ensures ValueOf(b[..n + 1]) == 2 * ValueOf(b[..n]) + Worth(b[n], 1)
  {
    assert b[..n + 1][..n] == b[..n];
  }

  lemma {:induction false} FourBits(b: Bits, n: nat)
    requires n + 4 <= |b|
    ensures ValueOf(b[..n + 4]) ==
      16 * ValueOf(b[..n]) + Worth(b[n], 8) + Worth(b[n + 1], 4) + Worth(b[n + 2], 2) + Worth(b[n + 3], 1)
  {
    ValueStep(b, n);
    ValueStep(b, n + 1);
    ValueStep(b, n + 2);
    ValueStep(b, n + 3);
  }

  /** Of a byte the most significant bit stands first. */
  lemma {:induction false} ByteBits(v: u8)
    ensures var b := LEBits(v, 1);
      v == Worth(b[0], 128) + Worth(b[1], 64) + Worth(b[2], 32) + Worth(b[3], 16) +
           Worth(b[4], 8) + Worth(b[5], 4) + Worth(b[6], 2) + Worth(b[7], 1)
  {
    var b := LEBits(v, 1);
    Pow256s();
    LEBack(v, 1);
    assert b[..8] == b && b[8..] == [] && b[..0] == [];
    assert LEValue(b) == ValueOf(b[..8]);
    FourBits(b, 0);
    FourBits(b, 4);
  }

  /** Of a field of several bytes the least significant byte stands first. */
  lemma {:induction false} FieldBytes(v: nat, k: nat)
    requires k > 0
    ensures LEBits(v, k)[..8] == LEBits(v % 256, 1) && LEBits(v, k)[8..] == LEBits(v / 256, k - 1)
  {
    var low, high := BitsOf(v % 256, 8), Bytes(v / 256, k - 1);
    assert Bytes(v, k) == low + high;
    assert LEBits(v, k) == low + high && LEBits(v / 256, k - 1) == high;
    OneByte(v % 256);
  }

  lemma {:induction false} OneByte(v: u8)
    ensures LEBits(v, 1) == BitsOf(v, 8)
  {
    assert Bytes(v, 1) == BitsOf(v, 8) + [];
  }

  function LEValue(b: Bits): nat {
    if |b| < 8 then 0 else ValueOf(b[..8]) + 256 * LEValue(b[8..])
  }

  function Pow2(n: nat): nat {
    if n == 0 then 1 else 2 * Pow2(n - 1)
  }

  function Pow256(k: nat): nat {
    if k == 0 then 1 else 256 * Pow256(k - 1)
  }

  lemma {:induction false} BitsBack(v: nat, n: nat)
    requires v < Pow2(n)
    ensures ValueOf(BitsOf(v, n)) == v
  {
    if n > 0 {
      BitsBack(v / 2, n - 1);
      assert BitsOf(v, n)[..n - 1] == BitsOf(v / 2, n - 1);
    }
  }

  lemma {:induction false} ValueBound(b: Bits)
    ensures ValueOf(b) < Pow2(|b|)
  {
    if b != [] {
      ValueBound(b[..|b| - 1]);
    }
  }

  lemma Pow2Of8()
    ensures Pow2(8) == 256
  {
    assert Pow2(4) == 16;
    assert Pow2(8) == 2 * (2 * (2 * (2 * Pow2(4))));
  }

  lemma {:induction false} BytesBack(v: nat, k: nat)
    requires v < Pow256(k)
    ensures LEValue(Bytes(v, k)) == v
  {
    if k > 0 {
      FirstByte(v, k);
      Pow2Of8();
      BitsBack(v % 256, 8);
      BytesBack(v / 256, k - 1);
    }
  }

  lemma FirstByte(v: nat, k: nat)
    requires k > 0
    ensures LEValue(Bytes(v, k)) == ValueOf(BitsOf(v % 256, 8)) + 256 * LEValue(Bytes(v / 256, k - 1))
  {
    var b := Bytes(v, k);
    assert b[..8] == BitsOf(v % 256, 8) && b[8..] == Bytes(v / 256, k - 1);
  }

  lemma LEBack(v: nat, k: nat)
    requires v < Pow256(k)
    ensures LEValue(LEBits(v, k)) == v
  {
    assert LEBits(v, k) == Bytes(v, k);
    BytesBack(v, k);
  }

  lemma {:induction false} LEBound(b: Bits, k: nat)
    requires |b| == 8 * k
    ensures LEValue(b) < Pow256(k)
  {
    if k > 0 {
      Pow2Of8();
      ValueBound(b[..8]);
      LEBound(b[8..], k - 1);
    }
  }

  lemma Pow256s()
    ensures Pow256(1) == B8 && Pow256(2) == B16 && Pow256(4) == B32
  {
    assert Pow256(4) == 256 * (256 * Pow256(2));
  }

  // ---------------------------------------------------------------- reads

  /** A read: the value, or nothing when the stream is too short, and the offset after it. */
  datatype Got<+T> = Short(at: nat) | Got(value: T, at: nat)

  function U8(data: Bits, at: nat): Got<u8> {
    Pow256s();
    if at + 8 > |data| then Short(at)
    else
      LEBound(data[at..at + 8], 1);
      Got.Got(LEValue(data[at..at + 8]), at + 8)
  }

  function U16(data: Bits, at: nat): Got<u16> {
    Pow256s();
    if at + 16 > |data| then Short(at)
    else
      LEBound(data[at..at + 16], 2);
      Got.Got(LEValue(data[at..at + 16]), at + 16)
  }

  function U32(data: Bits, at: nat): Got<u32> {
    Pow256s();
    if at + 32 > |data| then Short(at)
    else
      LEBound(data[at..at + 32], 4);
      Got.Got(LEValue(data[at..at + 32]), at + 32)
  }

  /** What a read leaves in a variable that held `dest`, and where the next one starts. */
  function Into<T>(r: Got<T>, dest: T): (T, nat) {
    (if r.Got? then r.value else dest, r.at)
  }

  /** ReadCompressed of a bool reads one bit. */
  function Flag(data: Bits, at: nat): Got<bool> {
    if at < |data| then Got.Got(data[at], at + 1) else Short(at)
  }

  /** The bits b stand at offset `at`. */
  predicate HasAt(data: Bits, at: nat, b: Bits) {
    at + |b| <= |data| && data[at..at + |b|] == b
  }

  lemma HasSplit(data: Bits, at: nat, a: Bits, b: Bits)
    requires HasAt(data, at, a + b)
    ensures HasAt(data, at, a) && HasAt(data, at + |a|, b)
  {
    var s := data[at..at + |a + b|];
    assert s[..|a|] == a && s[|a|..] == b;
  }

  lemma U8Back(data: Bits, at: nat, v: u8)
    requires HasAt(data, at, LEBits(v, 1))
    ensures U8(data, at) == Got.Got(v, at + 8)
  {
    Pow256s();
    LEBack(v, 1);
  }

  lemma U16Back(data: Bits, at: nat, v: u16)
    requires HasAt(data, at, LEBits(v, 2))
    ensures U16(data, at) == Got.Got(v, at + 16)
  {
    Pow256s();
    LEBack(v, 2);
  }

  lemma U32Back(data: Bits, at: nat, v: u32)
    requires HasAt(data, at, LEBits(v, 4))
    ensures U32(data, at) == Got.Got(v, at + 32)
  {
    Pow256s();
    LEBack(v, 4);
  }

  lemma FlagBack(data: Bits, at: nat, b: bool)
    requires HasAt(data, at, [b])
    ensures Flag(data, at) == Got.Got(b, at + 1)
  {
    assert data[at..at + 1][0] == b;
  }

  lemma U8Then(data: Bits, at: nat, v: u8, rest: Bits)
    requires HasAt(data, at, LEBits(v, 1) + rest)
    ensures U8(data, at) == Got.Got(v, at + 8) && HasAt(data, at + 8, rest)
  {
    HasSplit(data, at, LEBits(v, 1), rest);
    U8Back(data, at, v);
  }

  lemma U16Then(data: Bits, at: nat, v: u16, rest: Bits)
    requires HasAt(data, at, LEBits(v, 2) + rest)
    ensures U16(data, at) == Got.Got(v, at + 16) && HasAt(data, at + 16, rest)
  {
    HasSplit(data, at, LEBits(v, 2), rest);
    U16Back(data, at, v);
  }

  lemma U32Then(data: Bits, at: nat, v: u32, rest: Bits)
    requires HasAt(data, at, LEBits(v, 4) + rest)
    ensures U32(data, at) == Got.Got(v, at + 32) && HasAt(data, at + 32, rest)
  {
    HasSplit(data, at, LEBits(v, 4), rest);
    U32Back(data, at, v);
  }

  lemma FlagThen(data: Bits, at: nat, b: bool, rest: Bits)
    requires HasAt(data, at, [b] + rest)
    ensures Flag(data, at) == Got.Got(b, at + 1) && HasAt(data, at + 1, rest)
  {
    HasSplit(data, at, [b], rest);
    FlagBack(data, at, b);
  }

  // ---------------------------------------------------------------- lossy codecs

  /** A lossy codec of several fields. A read that fails part of the way has consumed the
      fields before the missing one. */
  datatype Codec<!T> = Codec(enc: T -> Bits, dec: (Bits, nat) -> Got<T>, norm: T -> T)

  /** What the codec writes for v it reads back normalised at any offset of any stream,
      consuming exactly the bits written. */
  ghost predicate Lawful<T(!new)>(c: Codec<T>, v: T) {
    forall data: Bits, at: nat :: HasAt(data, at, c.enc(v)) ==> c.dec(data, at) == Got.Got(c.norm(v), at + |c.enc(v)|)
  }

  lemma CodedThen<T(!new)>(data: Bits, at: nat, v: T, c: Codec<T>, rest: Bits)
    requires Lawful(c, v) && HasAt(data, at, c.enc(v) + rest)
    ensures c.dec(data, at) == Got.Got(c.norm(v), at + |c.enc(v)|) && HasAt(data, at + |c.enc(v)|, rest)
  {
    HasSplit(data, at, c.enc(v), rest);
  }

  // ---------------------------------------------------------------- the stream object

  class BitStream {
    const data: Bits
    var offset: nat

    constructor (data: Bits)
      ensures this.data == data && offset == 0
    {
      this.data := data;
      offset := 0;
    }

    method IgnoreBits(n: nat)
      modifies this
      ensures offset == old(offset) + n
    {
      offset := offset + n;
    }

    method ReadU8(dest: u8) returns (ok: bool, v: u8)
      modifies this
      ensures (v, offset) == Into(U8(data, old(offset)), dest)
      ensures ok <==> U8(data, old(offset)).Got?
    {
      if offset + 8 > |data| {
        return false, dest;
      }
      v := U8(data, offset).value;
      offset := offset + 8;
      ok := true;
    }

    method ReadU16(dest: u16) returns (ok: bool, v: u16)
      modifies this
      ensures (v, offset) == Into(U16(data, old(offset)), dest)
      ensures ok <==> U16(data, old(offset)).Got?
    {
      if offset + 16 > |data| {
        return false, dest;
      }
      v := U16(data, offset).value;
      offset := offset + 16;
      ok := true;
    }

    method ReadU32(dest: u32) returns (ok: bool, v: u32)
      modifies this
      ensures (v, offset) == Into(U32(data, old(offset)), dest)
      ensures ok <==> U32(data, old(offset)).Got?
    {
      if offset + 32 > |data| {
        return false, dest;
      }
      v := U32(data, offset).value;
      offset := offset + 32;
      ok := true;
    }

    method ReadFlag(dest: bool) returns (ok: bool, v: bool)
      modifies this
      ensures (v, offset) == Into(Flag(data, old(offset)), dest)
      ensures ok <==> Flag(data, old(offset)).Got?
    {
      if offset >= |data| {
        return false, dest;
      }
      v := data[offset];
      offset := offset + 1;
      ok := true;
    }
  }
}
