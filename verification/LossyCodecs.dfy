/** RakNet's lossy codecs for a quaternion and a vector, field by field: what is written, what
    a read gives back, and how far a read gets that runs out of bits. */
module LossyCodecs {
  import opened Machine
  import opened Wire
  import opened Geometry

  /** Signs and 16-bit magnitudes; the first component's magnitude is not sent. */
  datatype QuatWords = QuatWords(wNeg: bool, xNeg: bool, yNeg: bool, zNeg: bool, x: u16, y: u16, z: u16)

  /** The raw float magnitude and the direction, which is sent only for a positive magnitude. */
  datatype VectorWords = VectorWords(magnitude: u32, x: u16, y: u16, z: u16)

  /** The float arithmetic of the codecs, rounding included. */
  datatype Floats = Floats(
    quantise: Quat -> QuatWords, restore: QuatWords -> Quat,
    pack: Vec3 -> VectorWords, unpack: VectorWords -> Vec3)

  /** `> 0.0` of the float with these bits; false for NaN. */
  predicate Positive(bits: u32) {
    0 < bits <= 0x7F80_0000
  }

  /** `!= 0.0` of the float with these bits; true for NaN. */
  predicate NonZero(bits: u32) {
    bits % 0x8000_0000 != 0
  }

  /** The two agree on every float but NaN and the negative ones; the square root of a sum of
      squares is never negative. */
  lemma TestsAgree(bits: u32)
    ensures (Positive(bits) <==> NonZero(bits)) <==> (bits <= 0x7F80_0000 || bits == 0x8000_0000)
  {
  }

  // ---------------------------------------------------------------- quaternion

  function QuatBits(w: QuatWords): Bits {
    [w.wNeg] + ([w.xNeg] + ([w.yNeg] + ([w.zNeg] + (LEBits(w.x, 2) + (LEBits(w.y, 2) + LEBits(w.z, 2))))))
  }

  /** Which bits are which. */
  lemma QuatLayout(w: QuatWords)
    ensures var b := QuatBits(w);
      && |b| == 52 && b[0] == w.wNeg && b[1] == w.xNeg && b[2] == w.yNeg && b[3] == w.zNeg
      && HasAt(b, 4, LEBits(w.x, 2)) && HasAt(b, 20, LEBits(w.y, 2)) && HasAt(b, 36, LEBits(w.z, 2))
  {
    var b := QuatBits(w);
    assert b[4..20] == LEBits(w.x, 2) && b[20..36] == LEBits(w.y, 2) && b[36..52] == LEBits(w.z, 2);
  }

  /** Only the last of the seven reads is checked; `junk` is what the locals hold. */
  function QuatAt(data: Bits, at: nat, junk: QuatWords): Got<QuatWords> {
    var (wNeg, a1) := Into(Flag(data, at), junk.wNeg);
    var (xNeg, a2) := Into(Flag(data, a1), junk.xNeg);
    var (yNeg, a3) := Into(Flag(data, a2), junk.yNeg);
    var (zNeg, a4) := Into(Flag(data, a3), junk.zNeg);
    var (x, a5) := Into(U16(data, a4), junk.x);
    var (y, a6) := Into(U16(data, a5), junk.y);
    match U16(data, a6)
    case Short(end) => Short(end)
    case Got(z, end) => Got.Got(QuatWords(wNeg, xNeg, yNeg, zNeg, x, y, z), end)
  }

  const ZERO_QUAT: QuatWords := QuatWords(false, false, false, false, 0, 0, 0)

  function NormQuat(fl: Floats): Codec<Quat> {
    Codec(q => QuatBits(fl.quantise(q)),
          (data, at) => match QuatAt(data, at, ZERO_QUAT) case Short(end) => Short(end) case Got(w, end) => Got.Got(fl.restore(w), end),
          q => fl.restore(fl.quantise(q)))
  }

  /** The whole fields that fit are consumed; success needs all 52 bits and then nothing
      depends on what the locals held. */
  lemma QuatConsumes(data: Bits, at: nat, junk: QuatWords)
    ensures var left := if at <= |data| then |data| - at else 0;
      var r := QuatAt(data, at, junk);
      && (r.Got? <==> left >= 52)
      && r.at == at + (if left >= 52 then 52 else if left >= 36 then 36 else if left >= 20 then 20
                       else if left >= 4 then 4 else left)
      && r == QuatAt(data, at, ZERO_QUAT)
  {
  }

  lemma QuatBack(data: Bits, at: nat, w: QuatWords, junk: QuatWords)
    requires HasAt(data, at, QuatBits(w))
    ensures QuatAt(data, at, junk) == Got.Got(w, at + 52)
  {
    var words := LEBits(w.x, 2) + (LEBits(w.y, 2) + LEBits(w.z, 2));
    FlagThen(data, at, w.wNeg, [w.xNeg] + ([w.yNeg] + ([w.zNeg] + words)));
    FlagThen(data, at + 1, w.xNeg, [w.yNeg] + ([w.zNeg] + words));
    FlagThen(data, at + 2, w.yNeg, [w.zNeg] + words);
    FlagThen(data, at + 3, w.zNeg, words);
    U16Then(data, at + 4, w.x, LEBits(w.y, 2) + LEBits(w.z, 2));
    U16Then(data, at + 20, w.y, LEBits(w.z, 2));
    U16Back(data, at + 36, w.z);
  }

  /** Any quaternion written is read back restored, whatever the float arithmetic does. */
  lemma QuatLawful(fl: Floats, q: Quat)
    ensures Lawful(NormQuat(fl), q) && NormQuat(fl).norm(q) == fl.restore(fl.quantise(q))
  {
    var c := NormQuat(fl);
    forall data: Bits, at: nat | HasAt(data, at, c.enc(q))
      ensures c.dec(data, at) == Got.Got(c.norm(q), at + |c.enc(q)|)
    {
      QuatBack(data, at, fl.quantise(q), ZERO_QUAT);
    }
  }

  // ---------------------------------------------------------------- vector

  function VectorBits(w: VectorWords): Bits {
    LEBits(w.magnitude, 4) + if Positive(w.magnitude) then LEBits(w.x, 2) + (LEBits(w.y, 2) + LEBits(w.z, 2)) else []
  }

  /** The direction is written exactly for a positive magnitude, that of a NaN excluded. */
  lemma VectorLayout(w: VectorWords)
    ensures var b := VectorBits(w);
      && |b| == (if 0 < w.magnitude <= 0x7F80_0000 then 80 else 32)
      && HasAt(b, 0, LEBits(w.magnitude, 4))
      && (0 < w.magnitude <= 0x7F80_0000 ==>
            HasAt(b, 32, LEBits(w.x, 2)) && HasAt(b, 48, LEBits(w.y, 2)) && HasAt(b, 64, LEBits(w.z, 2)))
  {
    var b := VectorBits(w);
    assert b[0..32] == LEBits(w.magnitude, 4);
    if 0 < w.magnitude <= 0x7F80_0000 {
      assert b[32..48] == LEBits(w.x, 2) && b[48..64] == LEBits(w.y, 2) && b[64..80] == LEBits(w.z, 2);
    }
  }

  function VectorAt(data: Bits, at: nat, junk: VectorWords): Got<VectorWords> {
    match U32(data, at)
    case Short(end) => Short(end)
    case Got(magnitude, a1) =>
      if !NonZero(magnitude) then Got.Got(VectorWords(magnitude, 0, 0, 0), a1)
      else
        var (x, a2) := Into(U16(data, a1), junk.x);
        var (y, a3) := Into(U16(data, a2), junk.y);
        match U16(data, a3)
        case Short(end) => Short(end)
        case Got(z, end) => Got.Got(VectorWords(magnitude, x, y, z), end)
  }

  const ZERO_VECTOR: VectorWords := VectorWords(0, 0, 0, 0)

  function Unpack(fl: Floats, w: VectorWords): Vec3 {
    if NonZero(w.magnitude) then fl.unpack(w) else Vec3(0.0, 0.0, 0.0)
  }

  function Vector(fl: Floats): Codec<Vec3> {
    Codec(v => VectorBits(fl.pack(v)),
          (data, at) => match VectorAt(data, at, ZERO_VECTOR) case Short(end) => Short(end) case Got(w, end) => Got.Got(Unpack(fl, w), end),
          v => Unpack(fl, fl.pack(v)))
  }

  /** The magnitude alone decides whether the direction follows; a read that fails has
      consumed the whole fields before the missing one. */
  lemma VectorConsumes(data: Bits, at: nat, junk: VectorWords)
    ensures var left := if at <= |data| then |data| - at else 0;
      var r := VectorAt(data, at, junk);
      && (r.Got? <==> left >= 32 && (U32(data, at).value % 0x8000_0000 != 0 ==> left >= 80))
      && r.at == at + (if left < 32 then 0 else if U32(data, at).value % 0x8000_0000 == 0 then 32 else if left >= 80 then 80
                       else if left >= 64 then 64 else if left >= 48 then 48 else 32)
      && r == VectorAt(data, at, ZERO_VECTOR)
  {
  }

  lemma VectorBack(data: Bits, at: nat, w: VectorWords, junk: VectorWords)
    requires HasAt(data, at, VectorBits(w)) && (w.magnitude <= 0x7F80_0000 || w.magnitude == 0x8000_0000)
    ensures var r := VectorAt(data, at, junk);
      r.Got? && r.at == at + |VectorBits(w)| && r.value.magnitude == w.magnitude &&
      (w.magnitude % 0x8000_0000 != 0 ==> r.value == w)
  {
    TestsAgree(w.magnitude);
    var direction := LEBits(w.x, 2) + (LEBits(w.y, 2) + LEBits(w.z, 2));
    U32Then(data, at, w.magnitude, if Positive(w.magnitude) then direction else []);
    if Positive(w.magnitude) {
      U16Then(data, at + 32, w.x, LEBits(w.y, 2) + LEBits(w.z, 2));
      U16Then(data, at + 48, w.y, LEBits(w.z, 2));
      U16Back(data, at + 64, w.z);
    }
  }

  /** The writer asks for a positive magnitude and the reader for a nonzero one. The codec
      is self-delimiting exactly for magnitudes on which the two agree: all but NaN and
      negative ones, and a square root is never negative. */
  lemma VectorLawfulExactly(fl: Floats, v: Vec3)
    ensures Lawful(Vector(fl), v) <==> fl.pack(v).magnitude <= 0x7F80_0000 || fl.pack(v).magnitude == 0x8000_0000
    ensures Vector(fl).norm(v) ==
            if fl.pack(v).magnitude % 0x8000_0000 == 0 then Vec3(0.0, 0.0, 0.0) else fl.unpack(fl.pack(v))
  {
    var c, w := Vector(fl), fl.pack(v);
    TestsAgree(w.magnitude);
    if w.magnitude <= 0x7F80_0000 || w.magnitude == 0x8000_0000 {
      forall data: Bits, at: nat | HasAt(data, at, c.enc(v))
        ensures c.dec(data, at) == Got.Got(c.norm(v), at + |c.enc(v)|)
      {
        VectorBack(data, at, w, ZERO_VECTOR);
      }
    } else {
      MagnitudeAlone(fl, v);
      assert HasAt(c.enc(v), 0, c.enc(v));
    }
  }

  /** Where the tests disagree the 32 bits written are read back as a short vector. */
  lemma MagnitudeAlone(fl: Floats, v: Vec3)
    requires 0x7F80_0000 < fl.pack(v).magnitude && fl.pack(v).magnitude != 0x8000_0000
    ensures Vector(fl).dec(Vector(fl).enc(v), 0) == Short(32)
  {
    var data, m := Vector(fl).enc(v), fl.pack(v).magnitude;
    assert data == LEBits(m, 4);
    U32Back(data, 0, m);
  }

  /** A NaN speed that is read as missing from the very bits it was written to. */
  lemma NaNReadsShort() returns (fl: Floats, v: Vec3)
    ensures fl.pack(v).magnitude == 0x7FC0_0000
    ensures Vector(fl).dec(Vector(fl).enc(v), 0) == Short(32) && !Lawful(Vector(fl), v)
  {
    fl, v := Packing(0x7FC0_0000), Vec3(0.0, 0.0, 0.0);
    VectorLawfulExactly(fl, v);
    MagnitudeAlone(fl, v);
  }

  /** Float arithmetic that packs every vector to this magnitude. */
  function Packing(magnitude: u32): Floats {
    Floats(_ => ZERO_QUAT, _ => Quat(0.0, 0.0, 0.0, 0.0),
           _ => VectorWords(magnitude, 0, 0, 0), _ => Vec3(0.0, 0.0, 0.0))
  }

  // ---------------------------------------------------------------- the readers

  /** `ReadNormQuat` writes its arguments only when the last read succeeds. */
  method ReadNormQuat(bs: BitStream, fl: Floats, dest: Quat, junk: QuatWords) returns (ok: bool, q: Quat)
    modifies bs
    ensures (q, bs.offset) == Into(NormQuat(fl).dec(bs.data, old(bs.offset)), dest)
    ensures ok <==> NormQuat(fl).dec(bs.data, old(bs.offset)).Got?
  {
    QuatConsumes(bs.data, bs.offset, junk);
    var w := junk;
    var _, wNeg := bs.ReadFlag(w.wNeg);
    var _, xNeg := bs.ReadFlag(w.xNeg);
    var _, yNeg := bs.ReadFlag(w.yNeg);
    var _, zNeg := bs.ReadFlag(w.zNeg);
    var _, x := bs.ReadU16(w.x);
    var _, y := bs.ReadU16(w.y);
    var got, z := bs.ReadU16(w.z);
    if !got {
      return false, dest;
    }
    return true, fl.restore(QuatWords(wNeg, xNeg, yNeg, zNeg, x, y, z));
  }

  /** `ReadVector`. */
  method ReadVector(bs: BitStream, fl: Floats, dest: Vec3, junk: VectorWords) returns (ok: bool, v: Vec3)
    modifies bs
    ensures (v, bs.offset) == Into(Vector(fl).dec(bs.data, old(bs.offset)), dest)
    ensures ok <==> Vector(fl).dec(bs.data, old(bs.offset)).Got?
  {
    VectorConsumes(bs.data, bs.offset, junk);
    var got, magnitude := bs.ReadU32(junk.magnitude);
    if !got {
      return false, dest;
    }
    if !NonZero(magnitude) {
      return true, Vec3(0.0, 0.0, 0.0);
    }
    var _, x := bs.ReadU16(junk.x);
    var _, y := bs.ReadU16(junk.y);
    var all, z := bs.ReadU16(junk.z);
    if !all {
      return false, dest;
    }
    return true, fl.unpack(VectorWords(magnitude, x, y, z));
  }
}
