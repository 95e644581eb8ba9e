/** The driver's in-car sync packet: inCarUpdate writes it, the server puts the player id
    after the identifier byte, Packet_VehicleSync reads it. */
module VehicleSync {
  import opened Machine
  import opened Protocol
  import opened Wire
  import opened Geometry
  import opened Players
  import opened LossyCodecs

  datatype Codecs = Codecs(quat: Codec<Quat>, vector: Codec<Vec3>)

  /** Vehicle and driver as the game holds them; position words are raw 32-bit floats. */
  datatype Vehicle = Vehicle(
    rotation: Quat, pos: (u32, u32, u32), velocity: Vec3, health: real, pedHealth: real, pedArmour: real)

  function RakNet(fl: Floats): Codecs {
    Codecs(NormQuat(fl), Vector(fl))
  }

  ghost predicate Codable(v: Vehicle, cs: Codecs) {
    Lawful(cs.quat, v.rotation) && Lawful(cs.vector, v.velocity)
  }

  /** Conversion of a float to an integer drops the fraction. */
  function Trunc(r: real): int {
    if r >= 0.0 then r.Floor else -((-r).Floor)
  }

  // ---------------------------------------------------------------- health nibbles

  /** The `encode4` lambda. */
  function Encode4(v: int): (n: u8)
    ensures n < 16
  {
    if v >= 100 then 0xF else if v <= 0 then 0 else v / 7
  }

  function Decode4(n: u8): u8
    requires n < 16
  {
    if n == 0xF then 100 else if n == 0 then 0 else n * 7
  }

  function Max(a: int, b: int): int {
    if a < b then b else a
  }

  /** Rounding is toward zero. */
  lemma TruncMeans(r: real)
    ensures r >= 0.0 ==> Trunc(r) as real <= r < Trunc(r) as real + 1.0
    ensures r <= 0.0 ==> Trunc(r) as real - 1.0 < r <= Trunc(r) as real
  {
  }

  /** 100 and above come back as 100; anything else comes back at most 6 too low, and what
      comes back is sent as the same nibble again. */
  lemma NibbleLoss(v: int)
    ensures v >= 100 ==> Decode4(Encode4(v)) == 100
    ensures v < 100 ==> Max(v, 0) - 6 <= Decode4(Encode4(v)) <= Max(v, 0)
    ensures Encode4(Decode4(Encode4(v))) == Encode4(v)
    ensures Encode4(v) == if v <= 0 then 0 else if v < 100 then v / 7 else 15
  {
  }

  function HealthArmour(health: int, armour: int): u8 {
    Encode4(health) * 16 + Encode4(armour)
  }

  // ---------------------------------------------------------------- writing

  /** The vehicle's health is converted to an unsigned 16-bit word, which the language
      defines for these values only. */
  predicate Sendable(v: Vehicle) {
    0 <= Trunc(v.health) < B16
  }

  /** What the packet says of the driver's controls; `trainSpeed` is there only for trains. */
  datatype Controls = Controls(
    keys: Keys, weapon: u8, siren: bool, gear: bool, hydra: bool, trailing: bool,
    trailer: u32, train: bool, trainSpeed: u16)

  /** The client always sends these. */
  const NEUTRAL: Controls := Controls(Keys(0, 0, 0), 0, false, false, false, false, 0, false, 0)

  function TrainBits(c: Controls): Bits {
    [c.train] + if c.train then LEBits(c.trainSpeed, 2) else []
  }

  /** Siren, landing gear, hydra and trailer flags, the trailer word, the train. */
  function FlagBits(c: Controls): Bits {
    [c.siren] + ([c.gear] + ([c.hydra] + ([c.trailing] + (LEBits(c.trailer, 4) + TrainBits(c)))))
  }

  /** Health word, health/armour byte, weapon; then the flags. */
  function StatusBits(v: Vehicle, c: Controls): Bits
    requires Sendable(v)
  {
    LEBits(Trunc(v.health), 2) +
    (LEBits(HealthArmour(Trunc(v.pedHealth), Trunc(v.pedArmour)), 1) + (LEBits(c.weapon, 1) + FlagBits(c)))
  }

  function PosBits(pos: (u32, u32, u32), rest: Bits): Bits {
    LEBits(pos.0, 4) + (LEBits(pos.1, 4) + (LEBits(pos.2, 4) + rest))
  }

  function MotionBits(v: Vehicle, cs: Codecs, status: Bits): Bits {
    cs.quat.enc(v.rotation) + PosBits(v.pos, cs.vector.enc(v.velocity) + status)
  }

  function KeysBits(k: Keys, rest: Bits): Bits {
    LEBits(k.lrAnalog, 2) + (LEBits(k.udAnalog, 2) + (LEBits(k.keys, 2) + rest))
  }

  function BodyBits(v: Vehicle, c: Controls, cs: Codecs): Bits
    requires Sendable(v)
  {
    KeysBits(c.keys, MotionBits(v, cs, StatusBits(v, c)))
  }

  /** The packet as it leaves a client. */
  function Packet(packetId: u8, vehicleId: u16, v: Vehicle, c: Controls, cs: Codecs): Bits
    requires Sendable(v)
  {
    LEBits(packetId, 1) + (LEBits(vehicleId, 2) + BodyBits(v, c, cs))
  }

  method Write(bits: Bits, field: Bits, ghost rest: Bits) returns (bits': Bits)
    ensures bits' == bits + field
    ensures bits' + rest == bits + (field + rest)
  {
    bits' := bits + field;
    assert bits + field + rest == bits + (field + rest);
  }

  method WriteStatus(bits0: Bits, v: Vehicle) returns (bits: Bits)
    requires Sendable(v)
    ensures bits == bits0 + StatusBits(v, NEUTRAL)
  {
    var health := Trunc(v.health);
    var healthArmour := Encode4(Trunc(v.pedHealth)) * 16 + Encode4(Trunc(v.pedArmour));
    bits := Write(bits0, LEBits(health, 2), LEBits(healthArmour, 1) + (LEBits(0, 1) + FlagBits(NEUTRAL)));
    bits := Write(bits, LEBits(healthArmour, 1), LEBits(0, 1) + FlagBits(NEUTRAL));
    bits := Write(bits, LEBits(0, 1), FlagBits(NEUTRAL));
    bits := WriteFlags(bits);
  }

  method WriteFlags(bits0: Bits) returns (bits: Bits)
    ensures bits == bits0 + FlagBits(NEUTRAL)
  {
    ghost var trailer := LEBits(0, 4) + [false];
    bits := Write(bits0, [false], [false] + ([false] + ([false] + trailer)));
    bits := Write(bits, [false], [false] + ([false] + trailer));
    bits := Write(bits, [false], [false] + trailer);
    bits := Write(bits, [false], trailer);
    bits := Write(bits, LEBits(0, 4), [false]);
    bits := Write(bits, [false], []);
  }

  /** The guards and the writes of `inCarUpdate`; the throttle is that of Session.InCarGate. */
  method InCarUpdate(vehicleId: u16, hasVehicle: bool, gateOpen: bool, packetId: u8, v: Vehicle, fl: Floats)
    returns (sent: bool, bits: Bits)
    requires vehicleId < 2000 && hasVehicle && gateOpen ==> Sendable(v)
    ensures sent <==> vehicleId < 2000 && hasVehicle && gateOpen
    ensures sent ==>
      bits == Packet(packetId, vehicleId, v, Controls(Keys(0, 0, 0), 0, false, false, false, false, 0, false, 0), RakNet(fl))
  {
    sent, bits := false, [];
    if vehicleId >= MAX_VEHICLES {
      return;
    }
    if !hasVehicle {
      return;
    }
    if !gateOpen {
      return;
    }
    ghost var cs := RakNet(fl);
    ghost var status := StatusBits(v, NEUTRAL);
    ghost var velocity := cs.vector.enc(v.velocity) + status;
    ghost var z := LEBits(v.pos.2, 4) + velocity;
    ghost var y := LEBits(v.pos.1, 4) + z;
    ghost var x := LEBits(v.pos.0, 4) + y;
    ghost var rotation := cs.quat.enc(v.rotation) + x;
    ghost var keys := LEBits(0, 2) + rotation;
    ghost var ud := LEBits(0, 2) + keys;
    ghost var lr := LEBits(0, 2) + ud;
    bits := Write(bits, LEBits(packetId, 1), LEBits(vehicleId, 2) + lr);
    bits := Write(bits, LEBits(vehicleId, 2), lr);
    bits := Write(bits, LEBits(0, 2), ud);
    bits := Write(bits, LEBits(0, 2), keys);
    bits := Write(bits, LEBits(0, 2), rotation);
    bits := Write(bits, QuatBits(fl.quantise(v.rotation)), x);
    bits := Write(bits, LEBits(v.pos.0, 4), y);
    bits := Write(bits, LEBits(v.pos.1, 4), z);
    bits := Write(bits, LEBits(v.pos.2, 4), velocity);
    bits := Write(bits, VectorBits(fl.pack(v.velocity)), status);
    bits := WriteStatus(bits, v);
    sent := true;
  }

  /** The server inserts the sender's id after the identifier byte. */
  function Relay(packet: Bits, playerId: u16): Bits
    requires |packet| >= 8
  {
    packet[..8] + LEBits(playerId, 2) + packet[8..]
  }

  // ---------------------------------------------------------------- reading

  /** What the handler's uninitialised locals hold; a short read leaves them so. */
  datatype Junk = Junk(
    playerId: u16, vehicleId: u16, carHealth: u16, healthArmour: u8,
    siren: bool, gear: bool, trailer: u32, train: bool, trainSpeed: u16, quat: QuatWords, vector: VectorWords)

  /** Identifier byte skipped, then sender and vehicle. */
  function DecodeHead(data: Bits, junk: Junk): (u16, u16, nat) {
    var (playerId, a1) := Into(U16(data, 8), junk.playerId);
    var (vehicleId, a2) := Into(U16(data, a1), junk.vehicleId);
    (playerId, vehicleId, a2)
  }

  function DecodeKeys(data: Bits, at: nat): (Keys, nat) {
    var (lr, a1) := Into(U16(data, at), 0);
    var (ud, a2) := Into(U16(data, a1), 0);
    var (keys, a3) := Into(U16(data, a2), 0);
    (Keys(lr, ud, keys), a3)
  }

  function DecodePos(data: Bits, at: nat): ((u32, u32, u32), nat) {
    var (x, a1) := Into(U32(data, at), 0);
    var (y, a2) := Into(U32(data, a1), 0);
    var (z, a3) := Into(U32(data, a2), 0);
    ((x, y, z), a3)
  }

  function DecodeMotion(data: Bits, at: nat, cs: Codecs): (Motion, nat) {
    var (rotation, a1) := Into(cs.quat.dec(data, at), NO_IN_CAR.motion.rotation);
    var (pos, a2) := DecodePos(data, a1);
    var (speed, a3) := Into(cs.vector.dec(data, a2), NO_IN_CAR.motion.speed);
    (Motion(rotation, pos, speed), a3)
  }

  function DecodeVitals(data: Bits, at: nat, junk: Junk): (Vitals, nat) {
    var (health, a1) := Into(U16(data, at), junk.carHealth);
    var (ha, a2) := Into(U8(data, a1), junk.healthArmour);
    var (weapon, a3) := Into(U8(data, a2), 0);
    (Vitals(health, Decode4(ha / 16), Decode4(ha % 16), weapon), a3)
  }

  /** Siren, landing gear, hydra and trailer flags; the last two are skipped. */
  function DecodeSwitches(data: Bits, at: nat, junk: Junk): ((bool, bool), nat) {
    var (siren, a1) := Into(Flag(data, at), junk.siren);
    var (gear, a2) := Into(Flag(data, a1), junk.gear);
    var (_, a3) := Into(Flag(data, a2), false);
    var (_, a4) := Into(Flag(data, a3), false);
    ((siren, gear), a4)
  }

  function DecodeExtras(data: Bits, at: nat, junk: Junk): (Extras, nat) {
    var ((siren, gear), a1) := DecodeSwitches(data, at, junk);
    var (trailer, a2) := Into(U32(data, a1), junk.trailer);
    var (train, a3) := Into(Flag(data, a2), junk.train);
    var (speed, a4) := if train then Into(U16(data, a3), junk.trainSpeed) else (0, a3);
    (Extras(siren, gear, trailer % B16, speed), a4)
  }

  /** The in-car data the rest of a packet leaves in a cleared entry. */
  function DecodeBody(data: Bits, at: nat, junk: Junk, cs: Codecs): (InCar, nat) {
    var (keys, a1) := DecodeKeys(data, at);
    var (motion, a2) := DecodeMotion(data, a1, cs);
    var (vitals, a3) := DecodeVitals(data, a2, junk);
    var (extras, a4) := DecodeExtras(data, a3, junk);
    (InCar(keys, motion, vitals, extras), a4)
  }

  method ReadHead(bs: BitStream, junk: Junk) returns (playerId: u16, vehicleId: u16)
    requires bs.offset == 0
    modifies bs
    ensures (playerId, vehicleId, bs.offset) == DecodeHead(bs.data, junk)
  {
    var ok: bool;
    bs.IgnoreBits(8);
    ok, playerId := bs.ReadU16(junk.playerId);
    ok, vehicleId := bs.ReadU16(junk.vehicleId);
  }

  method ReadKeys(bs: BitStream) returns (keys: Keys)
    modifies bs
    ensures (keys, bs.offset) == DecodeKeys(bs.data, old(bs.offset))
  {
    var _, lr := bs.ReadU16(0);
    var _, ud := bs.ReadU16(0);
    var _, k := bs.ReadU16(0);
    keys := Keys(lr, ud, k);
  }

  method ReadPos(bs: BitStream) returns (pos: (u32, u32, u32))
    modifies bs
    ensures (pos, bs.offset) == DecodePos(bs.data, old(bs.offset))
  {
    var _, x := bs.ReadU32(0);
    var _, y := bs.ReadU32(0);
    var _, z := bs.ReadU32(0);
    pos := (x, y, z);
  }

  method ReadMotion(bs: BitStream, fl: Floats, junk: Junk) returns (motion: Motion)
    modifies bs
    ensures (motion, bs.offset) == DecodeMotion(bs.data, old(bs.offset), RakNet(fl))
  {
    var _, rotation := ReadNormQuat(bs, fl, NO_IN_CAR.motion.rotation, junk.quat);
    var pos := ReadPos(bs);
    var _, speed := ReadVector(bs, fl, NO_IN_CAR.motion.speed, junk.vector);
    motion := Motion(rotation, pos, speed);
  }

  method ReadVitals(bs: BitStream, junk: Junk) returns (vitals: Vitals)
    modifies bs
    ensures (vitals, bs.offset) == DecodeVitals(bs.data, old(bs.offset), junk)
  {
    var _, health := bs.ReadU16(junk.carHealth);
    var _, ha := bs.ReadU8(junk.healthArmour);
    var armTemp := ha % 16;
    var hlTemp := ha / 16;
    var armour := if armTemp == 0xF then 100 else if armTemp == 0 then 0 else armTemp * 7;
    var playerHealth := if hlTemp == 0xF then 100 else if hlTemp == 0 then 0 else hlTemp * 7;
    var _, weapon := bs.ReadU8(0);
    vitals := Vitals(health, playerHealth, armour, weapon);
  }

  method ReadSwitches(bs: BitStream, junk: Junk) returns (siren: bool, gear: bool)
    modifies bs
    ensures ((siren, gear), bs.offset) == DecodeSwitches(bs.data, old(bs.offset), junk)
  {
    var ok: bool;
    ok, siren := bs.ReadFlag(junk.siren);
    ok, gear := bs.ReadFlag(junk.gear);
    var _, hydra := bs.ReadFlag(false);
    var _, trailing := bs.ReadFlag(false);
  }

  method ReadExtras(bs: BitStream, junk: Junk) returns (extras: Extras)
    modifies bs
    ensures (extras, bs.offset) == DecodeExtras(bs.data, old(bs.offset), junk)
  {
    extras := NO_IN_CAR.extras;
    var siren, gear := ReadSwitches(bs, junk);
    if siren {
      extras := extras.(siren := true);
    }
    if gear {
      extras := extras.(gear := true);
    }
    var _, trailer := bs.ReadU32(junk.trailer);
    extras := extras.(trailer := trailer % B16);
    var _, train := bs.ReadFlag(junk.train);
    if train {
      var _, speed := bs.ReadU16(junk.trainSpeed);
      extras := extras.(trainSpeed := speed);
    }
  }

  method ReadBody(bs: BitStream, fl: Floats, junk: Junk) returns (inCar: InCar)
    modifies bs
    ensures (inCar, bs.offset) == DecodeBody(bs.data, old(bs.offset), junk, RakNet(fl))
  {
    var keys := ReadKeys(bs);
    var motion := ReadMotion(bs, fl, junk);
    var vitals := ReadVitals(bs, junk);
    var extras := ReadExtras(bs, junk);
    inCar := InCar(keys, motion, vitals, extras);
  }

  /** Any packet, complete or short, replaces the sender's in-car data by what its bits leave
      in a cleared entry, unless an id is out of range; nothing else changes. */
  method PacketVehicleSync(players: array<Player>, data: Bits, junk: Junk, fl: Floats)
    requires players.Length == MAX_PLAYERS
    modifies players
    ensures var (id, vehicle, at) := DecodeHead(data, junk);
      players[..] == if id < 1000 && vehicle < 2000
                     then old(players[..])[id := old(players[..])[id].(inCar := DecodeBody(data, at, junk, RakNet(fl)).0)]
                     else old(players[..])
  {
    var bs := new BitStream(data);
    var playerId, vehicleId := ReadHead(bs, junk);
    if playerId >= MAX_PLAYERS {
      return;
    }
    if vehicleId >= MAX_VEHICLES {
      return;
    }
    var inCar := ReadBody(bs, fl, junk);
    players[playerId] := players[playerId].(inCar := inCar);
  }

  /** A packet that ends after the vehicle id leaves zeros, and what the locals held. */
  lemma CutAfterHead(data: Bits, junk: Junk, fl: Floats)
    ensures DecodeBody(data, |data|, junk, RakNet(fl)) ==
      (InCar(Keys(0, 0, 0),
             Motion(Quat(0.0, 0.0, 0.0, 0.0), (0, 0, 0), Vec3(0.0, 0.0, 0.0)),
             Vitals(junk.carHealth, Decode4(junk.healthArmour / 16), Decode4(junk.healthArmour % 16), 0),
             Extras(junk.siren, junk.gear, junk.trailer % 0x1_0000, if junk.train then junk.trainSpeed else 0)),
       |data|)
  {
    QuatConsumes(data, |data|, ZERO_QUAT);
    VectorConsumes(data, |data|, ZERO_VECTOR);
  }

  // ---------------------------------------------------------------- the layout of the packet

  /** Where the fields of the status stand in it. */
  lemma StatusLayout(v: Vehicle, c: Controls)
    requires Sendable(v)
    ensures var b := StatusBits(v, c);
      && |b| == (if c.train then 85 else 69)
      && HasAt(b, 0, LEBits(Trunc(v.health), 2))
      && HasAt(b, 16, LEBits(16 * Encode4(Trunc(v.pedHealth)) + Encode4(Trunc(v.pedArmour)), 1))
      && HasAt(b, 24, LEBits(c.weapon, 1))
      && b[32] == c.siren && b[33] == c.gear && b[34] == c.hydra && b[35] == c.trailing
      && HasAt(b, 36, LEBits(c.trailer, 4)) && b[68] == c.train && (c.train ==> HasAt(b, 69, LEBits(c.trainSpeed, 2)))
  {
    var b := StatusBits(v, c);
    VitalsLayout(b, Trunc(v.health), HealthArmour(Trunc(v.pedHealth), Trunc(v.pedArmour)), c.weapon, FlagBits(c));
    FlagsLayout(b, c);
  }

  lemma VitalsLayout(b: Bits, health: u16, ha: u8, weapon: u8, rest: Bits)
    requires b == LEBits(health, 2) + (LEBits(ha, 1) + (LEBits(weapon, 1) + rest))
    ensures HasAt(b, 0, LEBits(health, 2)) && HasAt(b, 16, LEBits(ha, 1))
    ensures HasAt(b, 24, LEBits(weapon, 1)) && HasAt(b, 32, rest)
  {
    assert HasAt(b, 0, b);
    HasSplit(b, 0, LEBits(health, 2), LEBits(ha, 1) + (LEBits(weapon, 1) + rest));
    HasSplit(b, 16, LEBits(ha, 1), LEBits(weapon, 1) + rest);
    HasSplit(b, 24, LEBits(weapon, 1), rest);
  }

  lemma FlagsLayout(b: Bits, c: Controls)
    requires HasAt(b, 32, FlagBits(c))
    ensures |b| >= 69 && b[32] == c.siren && b[33] == c.gear && b[34] == c.hydra && b[35] == c.trailing
    ensures HasAt(b, 36, LEBits(c.trailer, 4)) && b[68] == c.train && (c.train ==> HasAt(b, 69, LEBits(c.trainSpeed, 2)))
  {
    var rest := LEBits(c.trailer, 4) + TrainBits(c);
    FlagThen(b, 32, c.siren, [c.gear] + ([c.hydra] + ([c.trailing] + rest)));
    FlagThen(b, 33, c.gear, [c.hydra] + ([c.trailing] + rest));
    FlagThen(b, 34, c.hydra, [c.trailing] + rest);
    FlagThen(b, 35, c.trailing, rest);
    HasSplit(b, 36, LEBits(c.trailer, 4), TrainBits(c));
    FlagThen(b, 68, c.train, if c.train then LEBits(c.trainSpeed, 2) else []);
  }

  lemma KeysLayout(p: Bits, at: nat, k: Keys, rest: Bits)
    requires HasAt(p, at, KeysBits(k, rest))
    ensures HasAt(p, at, LEBits(k.lrAnalog, 2)) && HasAt(p, at + 16, LEBits(k.udAnalog, 2))
    ensures HasAt(p, at + 32, LEBits(k.keys, 2)) && HasAt(p, at + 48, rest)
  {
    HasSplit(p, at, LEBits(k.lrAnalog, 2), LEBits(k.udAnalog, 2) + (LEBits(k.keys, 2) + rest));
    HasSplit(p, at + 16, LEBits(k.udAnalog, 2), LEBits(k.keys, 2) + rest);
    HasSplit(p, at + 32, LEBits(k.keys, 2), rest);
  }

  lemma PosLayout(p: Bits, at: nat, pos: (u32, u32, u32), rest: Bits)
    requires HasAt(p, at, PosBits(pos, rest))
    ensures HasAt(p, at, LEBits(pos.0, 4)) && HasAt(p, at + 32, LEBits(pos.1, 4))
    ensures HasAt(p, at + 64, LEBits(pos.2, 4)) && HasAt(p, at + 96, rest)
  {
    HasSplit(p, at, LEBits(pos.0, 4), LEBits(pos.1, 4) + (LEBits(pos.2, 4) + rest));
    HasSplit(p, at + 32, LEBits(pos.1, 4), LEBits(pos.2, 4) + rest);
    HasSplit(p, at + 64, LEBits(pos.2, 4), rest);
  }

  lemma HeadLayout(p: Bits, packetId: u8, vehicleId: u16, rest: Bits)
    requires p == LEBits(packetId, 1) + (LEBits(vehicleId, 2) + rest)
    ensures HasAt(p, 0, LEBits(packetId, 1)) && HasAt(p, 8, LEBits(vehicleId, 2)) && HasAt(p, 24, rest)
  {
    assert HasAt(p, 0, p);
    HasSplit(p, 0, LEBits(packetId, 1), LEBits(vehicleId, 2) + rest);
    HasSplit(p, 8, LEBits(vehicleId, 2), rest);
  }

  lemma MotionLayout(p: Bits, v: Vehicle, fl: Floats, status: Bits)
    requires HasAt(p, 72, MotionBits(v, RakNet(fl), status))
    ensures HasAt(p, 72, QuatBits(fl.quantise(v.rotation)))
    ensures HasAt(p, 124, LEBits(v.pos.0, 4)) && HasAt(p, 156, LEBits(v.pos.1, 4)) && HasAt(p, 188, LEBits(v.pos.2, 4))
    ensures HasAt(p, 220, VectorBits(fl.pack(v.velocity)))
    ensures HasAt(p, if 0 < fl.pack(v.velocity).magnitude <= 0x7F80_0000 then 300 else 252, status)
  {
    var velocity := VectorBits(fl.pack(v.velocity));
    QuatLayout(fl.quantise(v.rotation));
    HasSplit(p, 72, QuatBits(fl.quantise(v.rotation)), PosBits(v.pos, velocity + status));
    PosLayout(p, 124, v.pos, velocity + status);
    VectorLayout(fl.pack(v.velocity));
    HasSplit(p, 220, velocity, status);
  }

  /** The packet field by field; the status stands after the direction, if one is sent. */
  lemma PacketLayout(packetId: u8, vehicleId: u16, v: Vehicle, c: Controls, fl: Floats, p: Bits)
    requires Sendable(v) && p == Packet(packetId, vehicleId, v, c, RakNet(fl))
    ensures HasAt(p, 0, LEBits(packetId, 1)) && HasAt(p, 8, LEBits(vehicleId, 2))
    ensures HasAt(p, 24, LEBits(c.keys.lrAnalog, 2)) && HasAt(p, 40, LEBits(c.keys.udAnalog, 2))
    ensures HasAt(p, 56, LEBits(c.keys.keys, 2)) && HasAt(p, 72, QuatBits(fl.quantise(v.rotation)))
    ensures HasAt(p, 124, LEBits(v.pos.0, 4)) && HasAt(p, 156, LEBits(v.pos.1, 4)) && HasAt(p, 188, LEBits(v.pos.2, 4))
    ensures HasAt(p, 220, VectorBits(fl.pack(v.velocity)))
    ensures HasAt(p, if 0 < fl.pack(v.velocity).magnitude <= 0x7F80_0000 then 300 else 252, StatusBits(v, c))
  {
    var motion := MotionBits(v, RakNet(fl), StatusBits(v, c));
    HeadLayout(p, packetId, vehicleId, KeysBits(c.keys, motion));
    KeysLayout(p, 24, c.keys, motion);
    MotionLayout(p, v, fl, StatusBits(v, c));
  }

  // ---------------------------------------------------------------- round trip

  function ReceivedMotion(v: Vehicle, cs: Codecs): Motion {
    Motion(cs.quat.norm(v.rotation), v.pos, cs.vector.norm(v.velocity))
  }

  function ReceivedVitals(v: Vehicle, c: Controls): Vitals
    requires Sendable(v)
  {
    Vitals(Trunc(v.health), Decode4(Encode4(Trunc(v.pedHealth))), Decode4(Encode4(Trunc(v.pedArmour))), c.weapon)
  }

  function ReceivedExtras(c: Controls): Extras {
    Extras(c.siren, c.gear, c.trailer % B16, if c.train then c.trainSpeed else 0)
  }

  function Received(v: Vehicle, c: Controls, cs: Codecs): InCar
    requires Sendable(v)
  {
    InCar(c.keys, ReceivedMotion(v, cs), ReceivedVitals(v, c), ReceivedExtras(c))
  }

  /** What the receiver shows of the health: the car's without its fraction, the driver's at
      most 7 too low, never too high unless it was negative, and 100 for everything above. */
  lemma HealthReceived(v: Vehicle, c: Controls, cs: Codecs)
    requires Sendable(v)
    ensures var r := Received(v, c, cs).vitals;
      && (v.health >= 0.0 ==> r.carHealth as real <= v.health < r.carHealth as real + 1.0)
      && (v.health < 0.0 ==> r.carHealth == 0)
      && (v.pedHealth < 0.0 ==> r.health == 0) && (v.pedArmour < 0.0 ==> r.armour == 0)
      && (0.0 <= v.pedHealth < 100.0 ==> v.pedHealth - 7.0 < r.health as real <= v.pedHealth)
      && (0.0 <= v.pedArmour < 100.0 ==> v.pedArmour - 7.0 < r.armour as real <= v.pedArmour)
      && (v.pedHealth >= 100.0 ==> r.health == 100) && (v.pedArmour >= 100.0 ==> r.armour == 100)
  {
    TruncMeans(v.health);
    HealthShown(v.pedHealth);
    HealthShown(v.pedArmour);
  }

  /** The rest of what the receiver shows: controls, weapon and position as sent, the rotation
      restored, no speed at all where the magnitude is zero, the trailer cut to 16 bits. */
  lemma StateReceived(v: Vehicle, c: Controls, fl: Floats)
    requires Sendable(v)
    ensures var r := Received(v, c, RakNet(fl));
      && r.keys == c.keys && r.motion.pos == v.pos && r.vitals.weapon == c.weapon
      && r.motion.rotation == fl.restore(fl.quantise(v.rotation))
      && r.motion.speed == (if fl.pack(v.velocity).magnitude % 0x8000_0000 == 0 then Vec3(0.0, 0.0, 0.0)
                            else fl.unpack(fl.pack(v.velocity)))
      && r.extras == Extras(c.siren, c.gear, c.trailer % 0x1_0000, if c.train then c.trainSpeed else 0)
  {
    VectorLawfulExactly(fl, v.velocity);
  }

  lemma HealthShown(h: real)
    ensures var r := Decode4(Encode4(Trunc(h)));
      && (h < 0.0 ==> r == 0) && (h >= 100.0 ==> r == 100)
      && (0.0 <= h < 100.0 ==> h - 7.0 < r as real <= h)
  {
    TruncMeans(h);
    NibbleLoss(Trunc(h));
  }

  lemma KeysBack(data: Bits, at: nat, k: Keys, rest: Bits)
    requires HasAt(data, at, KeysBits(k, rest))
    ensures DecodeKeys(data, at) == (k, at + 48) && HasAt(data, at + 48, rest)
  {
    U16Then(data, at, k.lrAnalog, LEBits(k.udAnalog, 2) + (LEBits(k.keys, 2) + rest));
    U16Then(data, at + 16, k.udAnalog, LEBits(k.keys, 2) + rest);
    U16Then(data, at + 32, k.keys, rest);
  }

  lemma PosBack(data: Bits, at: nat, pos: (u32, u32, u32), rest: Bits)
    requires HasAt(data, at, PosBits(pos, rest))
    ensures DecodePos(data, at) == (pos, at + 96) && HasAt(data, at + 96, rest)
  {
    U32Then(data, at, pos.0, LEBits(pos.1, 4) + (LEBits(pos.2, 4) + rest));
    U32Then(data, at + 32, pos.1, LEBits(pos.2, 4) + rest);
    U32Then(data, at + 64, pos.2, rest);
  }

  /** Where what follows the motion starts, in what MotionBits writes from `at` on. */
  function MotionEnd(at: nat, v: Vehicle, cs: Codecs): nat {
    at + |cs.quat.enc(v.rotation)| + 96 + |cs.vector.enc(v.velocity)|
  }

  lemma MotionBack(data: Bits, at: nat, v: Vehicle, cs: Codecs, rest: Bits)
    requires Codable(v, cs) && HasAt(data, at, MotionBits(v, cs, rest))
    ensures DecodeMotion(data, at, cs) == (ReceivedMotion(v, cs), MotionEnd(at, v, cs))
    ensures HasAt(data, MotionEnd(at, v, cs), rest)
  {
    var velocity := cs.vector.enc(v.velocity);
    var a := at + |cs.quat.enc(v.rotation)|;
    CodedThen(data, at, v.rotation, cs.quat, PosBits(v.pos, velocity + rest));
    PosBack(data, a, v.pos, velocity + rest);
    CodedThen(data, a + 96, v.velocity, cs.vector, rest);
  }

  lemma VitalsBack(data: Bits, at: nat, v: Vehicle, c: Controls, junk: Junk)
    requires Sendable(v) && HasAt(data, at, StatusBits(v, c))
    ensures DecodeVitals(data, at, junk) == (ReceivedVitals(v, c), at + 32) && HasAt(data, at + 32, FlagBits(c))
  {
    var ha := HealthArmour(Trunc(v.pedHealth), Trunc(v.pedArmour));
    U16Then(data, at, Trunc(v.health), LEBits(ha, 1) + (LEBits(c.weapon, 1) + FlagBits(c)));
    U8Then(data, at + 16, ha, LEBits(c.weapon, 1) + FlagBits(c));
    U8Then(data, at + 24, c.weapon, FlagBits(c));
    assert ha / 16 == Encode4(Trunc(v.pedHealth)) && ha % 16 == Encode4(Trunc(v.pedArmour));
  }

  lemma SwitchesBack(data: Bits, at: nat, c: Controls, rest: Bits, junk: Junk)
    requires HasAt(data, at, [c.siren] + ([c.gear] + ([c.hydra] + ([c.trailing] + rest))))
    ensures DecodeSwitches(data, at, junk) == ((c.siren, c.gear), at + 4) && HasAt(data, at + 4, rest)
  {
    FlagThen(data, at, c.siren, [c.gear] + ([c.hydra] + ([c.trailing] + rest)));
    FlagThen(data, at + 1, c.gear, [c.hydra] + ([c.trailing] + rest));
    FlagThen(data, at + 2, c.hydra, [c.trailing] + rest);
    FlagThen(data, at + 3, c.trailing, rest);
  }

  lemma ExtrasBack(data: Bits, at: nat, c: Controls, junk: Junk)
    requires HasAt(data, at, FlagBits(c))
    ensures DecodeExtras(data, at, junk) == (ReceivedExtras(c), at + |FlagBits(c)|)
  {
    SwitchesBack(data, at, c, LEBits(c.trailer, 4) + TrainBits(c), junk);
    U32Then(data, at + 4, c.trailer, TrainBits(c));
    FlagThen(data, at + 36, c.train, if c.train then LEBits(c.trainSpeed, 2) else []);
    if c.train {
      U16Back(data, at + 37, c.trainSpeed);
    }
  }

  lemma FrontBack(data: Bits, at: nat, k: Keys, v: Vehicle, cs: Codecs, rest: Bits)
    requires Codable(v, cs) && HasAt(data, at, KeysBits(k, MotionBits(v, cs, rest)))
    ensures DecodeKeys(data, at) == (k, at + 48)
    ensures DecodeMotion(data, at + 48, cs) == (ReceivedMotion(v, cs), MotionEnd(at + 48, v, cs))
    ensures HasAt(data, MotionEnd(at + 48, v, cs), rest)
  {
    KeysBack(data, at, k, MotionBits(v, cs, rest));
    MotionBack(data, at + 48, v, cs, rest);
  }

  lemma StatusBack(data: Bits, at: nat, v: Vehicle, c: Controls, junk: Junk)
    requires Sendable(v) && HasAt(data, at, StatusBits(v, c))
    ensures DecodeVitals(data, at, junk) == (ReceivedVitals(v, c), at + 32)
    ensures DecodeExtras(data, at + 32, junk) == (ReceivedExtras(c), at + |StatusBits(v, c)|)
  {
    VitalsBack(data, at, v, c, junk);
    ExtrasBack(data, at + 32, c, junk);
  }

  lemma BodyFrom(data: Bits, at: nat, junk: Junk, cs: Codecs, keys: Keys, motion: Motion, vitals: Vitals, extras: Extras,
                 a1: nat, a2: nat, a3: nat, end: nat)
    requires DecodeKeys(data, at) == (keys, a1) && DecodeMotion(data, a1, cs) == (motion, a2)
    requires DecodeVitals(data, a2, junk) == (vitals, a3) && DecodeExtras(data, a3, junk) == (extras, end)
    ensures DecodeBody(data, at, junk, cs) == (InCar(keys, motion, vitals, extras), end)
  {
  }

  lemma PiecesBack(data: Bits, at: nat, v: Vehicle, c: Controls, junk: Junk, cs: Codecs, status: Bits)
    requires Sendable(v) && Codable(v, cs) && status == StatusBits(v, c)
    requires HasAt(data, at, KeysBits(c.keys, MotionBits(v, cs, status)))
    ensures DecodeBody(data, at, junk, cs) == (Received(v, c, cs), MotionEnd(at + 48, v, cs) + |status|)
  {
    var a := MotionEnd(at + 48, v, cs);
    FrontBack(data, at, c.keys, v, cs, status);
    StatusBack(data, a, v, c, junk);
    BodyFrom(data, at, junk, cs, c.keys, ReceivedMotion(v, cs), ReceivedVitals(v, c), ReceivedExtras(c),
             at + 48, a, a + 32, a + |status|);
  }

  lemma BodyLength(at: nat, v: Vehicle, c: Controls, cs: Codecs)
    requires Sendable(v)
    ensures MotionEnd(at + 48, v, cs) + |StatusBits(v, c)| == at + |BodyBits(v, c, cs)|
  {
  }

  lemma BodyBack(data: Bits, at: nat, v: Vehicle, c: Controls, junk: Junk, cs: Codecs)
    requires Sendable(v) && Codable(v, cs) && HasAt(data, at, BodyBits(v, c, cs))
    ensures DecodeBody(data, at, junk, cs).0 == Received(v, c, cs)
    ensures DecodeBody(data, at, junk, cs).1 == at + |BodyBits(v, c, cs)|
  {
    PiecesBack(data, at, v, c, junk, cs, StatusBits(v, c));
    BodyLength(at, v, c, cs);
  }

  /** What one client sends in its car another client, after the relay and whatever bits pad
      the last byte, records for that sender, and every bit is consumed. The controls may be
      any, not only the neutral ones this client sends; the speed must not be NaN. */
  lemma InCarRoundTrip(packetId: u8, vehicleId: u16, playerId: u16, v: Vehicle, c: Controls, junk: Junk, fl: Floats,
                       pad: Bits)
    requires Sendable(v)
    requires fl.pack(v.velocity).magnitude <= 0x7F80_0000 || fl.pack(v.velocity).magnitude == 0x8000_0000
    ensures DecodeHead(Relay(Packet(packetId, vehicleId, v, c, RakNet(fl)), playerId) + pad, junk) ==
            (playerId, vehicleId, 40)
    ensures var relayed := Relay(Packet(packetId, vehicleId, v, c, RakNet(fl)), playerId);
      DecodeBody(relayed + pad, 40, junk, RakNet(fl)) == (Received(v, c, RakNet(fl)), |relayed|)
  {
    QuatLawful(fl, v.rotation);
    VectorLawfulExactly(fl, v.velocity);
    CodedRoundTrip(packetId, vehicleId, playerId, v, c, junk, RakNet(fl), pad);
  }

  // ---------------------------------------------------------------- a speed that is NaN

  /** NaN, or negative: nothing follows what is written, and the reader expects a direction. */
  predicate Misjudged(magnitude: u32) {
    0x7F80_0000 < magnitude && magnitude != 0x8000_0000
  }

  /** The reader takes the 48 bits after the magnitude for a direction. */
  lemma DirectionTaken(data: Bits, at: nat, velocity: Vec3, fl: Floats)
    requires Misjudged(fl.pack(velocity).magnitude)
    requires HasAt(data, at, Vector(fl).enc(velocity)) && at + 80 <= |data|
    ensures Vector(fl).dec(data, at).at == at + 80
  {
    VectorLayout(fl.pack(velocity));
    U32Back(data, at, fl.pack(velocity).magnitude);
    VectorConsumes(data, at, ZERO_VECTOR);
  }

  /** With 16 to 47 bits left for health word and trailer, the trailer's is short. */
  lemma TrailerShort(data: Bits, at: nat, junk: Junk)
    requires at + 16 <= |data| < at + 48
    ensures DecodeExtras(data, DecodeVitals(data, at, junk).1, junk).0.trailer == junk.trailer % B16
  {
    var (_, a1) := DecodeVitals(data, at, junk);
    assert at + 16 <= a1;
    var (_, a2) := DecodeSwitches(data, a1, junk);
    assert a1 <= a2;
  }

  lemma MotionMisread(data: Bits, at: nat, v: Vehicle, fl: Floats, status: Bits)
    requires Misjudged(fl.pack(v.velocity).magnitude)
    requires HasAt(data, at, MotionBits(v, RakNet(fl), status)) && |status| >= 48
    ensures DecodeMotion(data, at, RakNet(fl)).1 == at + 228
  {
    var velocity := Vector(fl).enc(v.velocity) + status;
    QuatLawful(fl, v.rotation);
    CodedThen(data, at, v.rotation, NormQuat(fl), PosBits(v.pos, velocity));
    PosBack(data, at + 52, v.pos, velocity);
    HasSplit(data, at + 148, Vector(fl).enc(v.velocity), status);
    DirectionTaken(data, at + 148, v.velocity, fl);
  }

  lemma BodyMisread(data: Bits, at: nat, v: Vehicle, c: Controls, junk: Junk, fl: Floats)
    requires Sendable(v) && Misjudged(fl.pack(v.velocity).magnitude)
    requires HasAt(data, at, BodyBits(v, c, RakNet(fl))) && |data| < at + |BodyBits(v, c, RakNet(fl))| + 8
    ensures DecodeBody(data, at, junk, RakNet(fl)).0.extras.trailer == junk.trailer % B16
  {
    var status := StatusBits(v, c);
    KeysBack(data, at, c.keys, MotionBits(v, RakNet(fl), status));
    MotionMisread(data, at + 48, v, fl, status);
    BodyLength(at, v, c, RakNet(fl));
    TrailerShort(data, at + 276, junk);
  }

  /** What the receiver makes of the relayed packet, whatever its locals held. */
  ghost predicate ComesBack(relayed: Bits, pad: Bits, junk: Junk, v: Vehicle, c: Controls, cs: Codecs)
    requires Sendable(v)
  {
    DecodeBody(relayed + pad, 40, junk, cs).0 == Received(v, c, cs)
  }

  /** A packet whose speed is NaN leaves the receiver the trailer its local happened to hold,
      whatever the controls and however the last byte is padded. */
  lemma NaNSpeedMisread(packetId: u8, vehicleId: u16, playerId: u16, v: Vehicle, c: Controls, junk: Junk, fl: Floats,
                        relayed: Bits, pad: Bits)
    requires Sendable(v) && relayed == Relay(Packet(packetId, vehicleId, v, c, RakNet(fl)), playerId) && |pad| < 8
    requires Misjudged(fl.pack(v.velocity).magnitude)
    ensures DecodeBody(relayed + pad, 40, junk, RakNet(fl)).0.extras.trailer == junk.trailer % B16
  {
    RelayedPacket(packetId, vehicleId, playerId, BodyBits(v, c, RakNet(fl)), relayed, pad);
    BodyMisread(relayed + pad, 40, v, c, junk, fl);
  }

  lemma OtherTrailer(trailer: u32) returns (junk: Junk)
    ensures junk.trailer % B16 != trailer % B16
  {
    junk := Junk(0, 0, 0, 0, false, false, if trailer % B16 == 0 then 1 else 0, false, 0, ZERO_QUAT, ZERO_VECTOR);
  }

  lemma SpeedComesBack(packetId: u8, vehicleId: u16, playerId: u16, v: Vehicle, c: Controls, junk: Junk, fl: Floats,
                       relayed: Bits, pad: Bits)
    requires Sendable(v) && relayed == Relay(Packet(packetId, vehicleId, v, c, RakNet(fl)), playerId)
    requires fl.pack(v.velocity).magnitude <= 0x7F80_0000 || fl.pack(v.velocity).magnitude == 0x8000_0000
    ensures ComesBack(relayed, pad, junk, v, c, RakNet(fl))
  {
    InCarRoundTrip(packetId, vehicleId, playerId, v, c, junk, fl, pad);
  }

  /** The local that shows the failure. */
  lemma SpeedIsLost(packetId: u8, vehicleId: u16, playerId: u16, v: Vehicle, c: Controls, fl: Floats,
                    relayed: Bits, pad: Bits) returns (junk: Junk)
    requires Sendable(v) && relayed == Relay(Packet(packetId, vehicleId, v, c, RakNet(fl)), playerId) && |pad| < 8
    requires Misjudged(fl.pack(v.velocity).magnitude)
    ensures !ComesBack(relayed, pad, junk, v, c, RakNet(fl))
  {
    junk := OtherTrailer(c.trailer);
    NaNSpeedMisread(packetId, vehicleId, playerId, v, c, junk, fl, relayed, pad);
    TrailerDiffers(relayed, pad, junk, v, c, RakNet(fl));
  }

  lemma TrailerDiffers(relayed: Bits, pad: Bits, junk: Junk, v: Vehicle, c: Controls, cs: Codecs)
    requires Sendable(v) && DecodeBody(relayed + pad, 40, junk, cs).0.extras.trailer != c.trailer % B16
    ensures !ComesBack(relayed, pad, junk, v, c, cs)
  {
  }

  /** The reader is the inverse of the writer, whatever its locals hold, exactly when the two
      agree on whether a direction follows the speed: not for NaN or a negative magnitude. */
  lemma InCarComesBackExactly(packetId: u8, vehicleId: u16, playerId: u16, v: Vehicle, c: Controls, fl: Floats,
                              relayed: Bits, pad: Bits)
    requires Sendable(v) && relayed == Relay(Packet(packetId, vehicleId, v, c, RakNet(fl)), playerId) && |pad| < 8
    ensures (forall junk: Junk :: ComesBack(relayed, pad, junk, v, c, RakNet(fl))) <==>
            fl.pack(v.velocity).magnitude <= 0x7F80_0000 || fl.pack(v.velocity).magnitude == 0x8000_0000
  {
    if fl.pack(v.velocity).magnitude <= 0x7F80_0000 || fl.pack(v.velocity).magnitude == 0x8000_0000 {
      forall junk: Junk ensures ComesBack(relayed, pad, junk, v, c, RakNet(fl)) {
        SpeedComesBack(packetId, vehicleId, playerId, v, c, junk, fl, relayed, pad);
      }
    } else {
      var junk := SpeedIsLost(packetId, vehicleId, playerId, v, c, fl, relayed, pad);
    }
  }

  /** A vehicle whose packet, padded to whole bytes, is misread: its speed packs to a NaN. */
  lemma NaNSpeedFails(packetId: u8, vehicleId: u16, playerId: u16) returns (v: Vehicle, fl: Floats, junk: Junk)
    ensures Sendable(v) && fl.pack(v.velocity).magnitude == 0x7FC0_0000
    ensures !ComesBack(Relay(Packet(packetId, vehicleId, v, NEUTRAL, RakNet(fl)), playerId), seq(7, _ => false), junk,
                       v, NEUTRAL, RakNet(fl))
  {
    v := Vehicle(Quat(1.0, 0.0, 0.0, 0.0), (0, 0, 0), Vec3(0.0, 0.0, 0.0), 1000.0, 100.0, 0.0);
    fl := Packing(0x7FC0_0000);
    var relayed := Relay(Packet(packetId, vehicleId, v, NEUTRAL, RakNet(fl)), playerId);
    junk := SpeedIsLost(packetId, vehicleId, playerId, v, NEUTRAL, fl, relayed, seq(7, _ => false));
  }

  // ---------------------------------------------------------------- the relayed packet

  lemma CodedRoundTrip(packetId: u8, vehicleId: u16, playerId: u16, v: Vehicle, c: Controls, junk: Junk, cs: Codecs,
                       pad: Bits)
    requires Sendable(v) && Codable(v, cs)
    ensures DecodeHead(Relay(Packet(packetId, vehicleId, v, c, cs), playerId) + pad, junk) == (playerId, vehicleId, 40)
    ensures var relayed := Relay(Packet(packetId, vehicleId, v, c, cs), playerId);
      DecodeBody(relayed + pad, 40, junk, cs) == (Received(v, c, cs), |relayed|)
  {
    RelayedRoundTrip(packetId, vehicleId, playerId, v, c, junk, cs,
                     Relay(Packet(packetId, vehicleId, v, c, cs), playerId), pad);
  }

  lemma RelayedRoundTrip(packetId: u8, vehicleId: u16, playerId: u16, v: Vehicle, c: Controls, junk: Junk, cs: Codecs,
                       relayed: Bits, pad: Bits)
    requires Sendable(v) && Codable(v, cs) && relayed == Relay(Packet(packetId, vehicleId, v, c, cs), playerId)
    ensures DecodeHead(relayed + pad, junk) == (playerId, vehicleId, 40)
    ensures DecodeBody(relayed + pad, 40, junk, cs) == (Received(v, c, cs), |relayed|)
  {
    var body := BodyBits(v, c, cs);
    RelayedPacket(packetId, vehicleId, playerId, body, relayed, pad);
    RelayedBack(relayed + pad, vehicleId, playerId, body, v, c, junk, cs);
  }

  lemma RelayedBack(data: Bits, vehicleId: u16, playerId: u16, body: Bits, v: Vehicle, c: Controls, junk: Junk, cs: Codecs)
    requires Sendable(v) && Codable(v, cs) && body == BodyBits(v, c, cs)
    requires HasAt(data, 8, LEBits(playerId, 2)) && HasAt(data, 24, LEBits(vehicleId, 2)) && HasAt(data, 40, body)
    ensures DecodeHead(data, junk) == (playerId, vehicleId, 40)
    ensures DecodeBody(data, 40, junk, cs) == (Received(v, c, cs), 40 + |body|)
  {
    HeadBack(data, playerId, vehicleId, junk);
    BodyBack(data, 40, v, c, junk, cs);
  }

  lemma HeadBack(data: Bits, playerId: u16, vehicleId: u16, junk: Junk)
    requires HasAt(data, 8, LEBits(playerId, 2)) && HasAt(data, 24, LEBits(vehicleId, 2))
    ensures DecodeHead(data, junk) == (playerId, vehicleId, 40)
  {
    U16Back(data, 8, playerId);
    U16Back(data, 24, vehicleId);
  }

  lemma RelayedPacket(packetId: u8, vehicleId: u16, playerId: u16, body: Bits, relayed: Bits, pad: Bits)
    requires relayed == Relay(LEBits(packetId, 1) + (LEBits(vehicleId, 2) + body), playerId)
    ensures HasAt(relayed + pad, 8, LEBits(playerId, 2)) && HasAt(relayed + pad, 24, LEBits(vehicleId, 2))
    ensures HasAt(relayed + pad, 40, body) && |relayed| == 40 + |body|
  {
    RelayParts(LEBits(packetId, 1), LEBits(vehicleId, 2) + body, playerId, pad);
    HasSplit(relayed + pad, 24, LEBits(vehicleId, 2), body);
  }

  lemma RelayParts(id: Bits, body: Bits, playerId: u16, pad: Bits)
    requires |id| == 8
    ensures var data := Relay(id + body, playerId) + pad;
      HasAt(data, 8, LEBits(playerId, 2)) && HasAt(data, 24, body) && |Relay(id + body, playerId)| == 24 + |body|
  {
    var packet := id + body;
    assert packet[..8] == id && packet[8..] == body;
    var data := Relay(packet, playerId) + pad;
    assert data[8..24] == LEBits(playerId, 2) && data[24..24 + |body|] == body;
  }
}
