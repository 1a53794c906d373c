/** DecodeHexString: the fixed-schema projection of the decoded field maps onto
    ZwiftOutgoingUdpDataPacket, with the exceptions its dictionary lookups and
    checked conversions throw. */
module Packet {
  import opened Common
  import opened Varint
  import opened Hex
  import opened Scanner
  import opened WireEncoding

  const TwoTo31: int := 0x8000_0000

  /** A C# int. */
  type Int32 = x: int | -TwoTo31 <= x < TwoTo31

  /** The record the telemetry view consumes; ints and longs as in the class. */
  datatype ZwiftOutgoingUdpDataPacket = ZwiftOutgoingUdpDataPacket(
    connectionStatusId: Int32,
    zwiftUserId: Int32,
    zwiftWorldUnixTimestamp: Int64,
    distance: Int64,
    speed: Int32,
    cadence: Int32,
    heartRate: Int32,
    power: Int32,
    elevationGain: Int64)

  /** The player state: `fields[7] as Dictionary<int, object>`, null when the
      value under 7 is a long. */
  datatype PlayerState = Null | Dictionary(fields: map<int, Int64>)

  /** The dictionary indexer: KeyNotFoundException for an absent key. */
  function Lookup<V>(m: map<int, V>, key: int): (r: Result<V>)
    ensures r.Ok? <==> key in m
    ensures r.Ok? ==> r.value == m[key]
    ensures r.Err? ==> r.error == KeyNotFound(key)
  {
    if key in m then Ok(m[key]) else Err(KeyNotFound(key))
  }

  /** Convert.ToInt32(long): checked, OverflowException outside the int range. */
  function NarrowToInt32(x: Int64): (r: Result<Int32>)
    ensures r.Ok? <==> -TwoTo31 <= x < TwoTo31
    ensures r.Ok? ==> r.value == x
    ensures r.Err? ==> r.error == OverflowError
  {
    if -TwoTo31 <= x < TwoTo31 then Ok(x) else Err(OverflowError)
  }

  /** Convert.ToInt32(object) on a top-level value: a boxed long is narrowed;
      a dictionary is not IConvertible, so InvalidCastException. */
  function ValueToInt32(v: Value): (r: Result<Int32>)
    ensures r.Ok? <==> v.Int? && -TwoTo31 <= v.n < TwoTo31
    ensures r.Ok? ==> r.value == v.n
    ensures r.Err? ==> r.error == (if v.Int? then OverflowError else InvalidCast)
  {
    match v
    case Int(n) => NarrowToInt32(n)
    case Nested(_) => Err(InvalidCast)
  }

  /** Convert.ToInt64(object) on a top-level value. */
  function ValueToInt64(v: Value): (r: Result<Int64>)
    ensures r.Ok? <==> v.Int?
    ensures r.Ok? ==> r.value == v.n
    ensures r.Err? ==> r.error == InvalidCast
  {
    match v
    case Int(n) => Ok(n)
    case Nested(_) => Err(InvalidCast)
  }

  /** `playerState[key]`: NullReferenceException on a null player state. */
  function PlayerField(p: PlayerState, key: int): (r: Result<Int64>)
    ensures r.Ok? <==> p.Dictionary? && key in p.fields
    ensures r.Ok? ==> r.value == p.fields[key]
    ensures r.Err? ==> r.error == (if p.Null? then NullReference else KeyNotFound(key))
  {
    match p
    case Null => Err(NullReference)
    case Dictionary(fields) => Lookup(fields, key)
  }

  // The shape a decoded map must have for the projection to succeed.

  predicate FitsInt32(x: int) {
    -TwoTo31 <= x < TwoTo31
  }

  predicate IntField(fields: map<int, Value>, key: int) {
    key in fields && fields[key].Int?
  }

  predicate Int32Field(fields: map<int, Value>, key: int) {
    IntField(fields, key) && FitsInt32(fields[key].n)
  }

  /** Top-level fields 1 and 2 hold ints, field 3 a long. */
  predicate HeaderHolds(fields: map<int, Value>) {
    Int32Field(fields, 1) && Int32Field(fields, 2) && IntField(fields, 3)
  }

  /** A player-state entry that Convert.ToInt32 accepts. */
  predicate Int32Entry(ps: map<int, Int64>, key: int) {
    key in ps && FitsInt32(ps[key])
  }

  /** Player-state fields 3 and 15 are present, 6, 9, 11 and 12 hold ints. */
  predicate PlayerStateHolds(ps: map<int, Int64>) {
    3 in ps && 15 in ps &&
    Int32Entry(ps, 6) && Int32Entry(ps, 9) && Int32Entry(ps, 11) && Int32Entry(ps, 12)
  }

  predicate SchemaHolds(fields: map<int, Value>) {
    7 in fields && fields[7].Nested? && HeaderHolds(fields) && PlayerStateHolds(fields[7].fields)
  }

  /** The body of DecodeHexString after GetFieldValues, lookups and conversions
      in the order the statement and the object initializer evaluate them. */
  function ToPacket(fields: map<int, Value>): (r: Result<ZwiftOutgoingUdpDataPacket>)
    ensures r.Ok? <==> SchemaHolds(fields)
    ensures r.Ok? ==>
      var ps := fields[7].fields;
      r.value == ZwiftOutgoingUdpDataPacket(fields[1].n, fields[2].n, fields[3].n,
        ps[3], ps[6], ps[9], ps[11], ps[12], ps[15])
    ensures 7 !in fields ==> r == Err(KeyNotFound(7))
    ensures 7 in fields && 1 !in fields ==> r == Err(KeyNotFound(1))
    ensures 7 in fields && 1 in fields && fields[1].Nested? ==> r == Err(InvalidCast)
    ensures 7 in fields && IntField(fields, 1) && !FitsInt32(fields[1].n) ==> r == Err(OverflowError)
    ensures 7 in fields && Int32Field(fields, 1) && 2 !in fields ==> r == Err(KeyNotFound(2))
    ensures 7 in fields && Int32Field(fields, 1) && 2 in fields && fields[2].Nested? ==> r == Err(InvalidCast)
    ensures 7 in fields && Int32Field(fields, 1) && IntField(fields, 2) && !FitsInt32(fields[2].n) ==>
      r == Err(OverflowError)
    ensures 7 in fields && Int32Field(fields, 1) && Int32Field(fields, 2) && 3 !in fields ==>
      r == Err(KeyNotFound(3))
    ensures 7 in fields && Int32Field(fields, 1) && Int32Field(fields, 2) && 3 in fields && fields[3].Nested? ==>
      r == Err(InvalidCast)
    ensures 7 in fields && HeaderHolds(fields) && fields[7].Int? ==> r == Err(NullReference)
    ensures 7 in fields && HeaderHolds(fields) && fields[7].Nested? ==>
      var ps := fields[7].fields;
      (3 !in ps ==> r == Err(KeyNotFound(3))) &&
      (3 in ps && 6 !in ps ==> r == Err(KeyNotFound(6))) &&
      (3 in ps && 6 in ps && !FitsInt32(ps[6]) ==> r == Err(OverflowError)) &&
      (3 in ps && Int32Entry(ps, 6) && 9 !in ps ==> r == Err(KeyNotFound(9))) &&
      (3 in ps && Int32Entry(ps, 6) && 9 in ps && !FitsInt32(ps[9]) ==> r == Err(OverflowError)) &&
      (3 in ps && Int32Entry(ps, 6) && Int32Entry(ps, 9) && 11 !in ps ==> r == Err(KeyNotFound(11))) &&
      (3 in ps && Int32Entry(ps, 6) && Int32Entry(ps, 9) && 11 in ps && !FitsInt32(ps[11]) ==>
        r == Err(OverflowError)) &&
      (3 in ps && Int32Entry(ps, 6) && Int32Entry(ps, 9) && Int32Entry(ps, 11) && 12 !in ps ==>
        r == Err(KeyNotFound(12))) &&
      (3 in ps && Int32Entry(ps, 6) && Int32Entry(ps, 9) && Int32Entry(ps, 11) && 12 in ps && !FitsInt32(ps[12]) ==>
        r == Err(OverflowError)) &&
      (3 in ps && Int32Entry(ps, 6) && Int32Entry(ps, 9) && Int32Entry(ps, 11) && Int32Entry(ps, 12) && 15 !in ps ==>
        r == Err(KeyNotFound(15)))
  {
    var seven :- Lookup(fields, 7);
    var playerState := if seven.Nested? then Dictionary(seven.fields) else Null;
    var connectionStatus :- Lookup(fields, 1);
    var connectionStatusId :- ValueToInt32(connectionStatus);
    var user :- Lookup(fields, 2);
    var zwiftUserId :- ValueToInt32(user);
    var timestamp :- Lookup(fields, 3);
    var zwiftWorldUnixTimestamp :- ValueToInt64(timestamp);
    var distance :- PlayerField(playerState, 3);
    var rawSpeed :- PlayerField(playerState, 6);
    var speed :- NarrowToInt32(rawSpeed);
    var rawCadence :- PlayerField(playerState, 9);
    var cadence :- NarrowToInt32(rawCadence);
    var rawHeartRate :- PlayerField(playerState, 11);
    var heartRate :- NarrowToInt32(rawHeartRate);
    var rawPower :- PlayerField(playerState, 12);
    var power :- NarrowToInt32(rawPower);
    var elevationGain :- PlayerField(playerState, 15);
    Ok(ZwiftOutgoingUdpDataPacket(connectionStatusId, zwiftUserId, zwiftWorldUnixTimestamp,
      distance, speed, cadence, heartRate, power, elevationGain))
  }

  /** What DecodeHexString returns for a hex payload, or the exception it throws. */
  function Decode(hexString: string): (r: Result<ZwiftOutgoingUdpDataPacket>)
    ensures r.Ok? <==> FieldValues(hexString).Ok? && SchemaHolds(FieldValues(hexString).value)
    ensures FieldValues(hexString).Err? ==> r == Err(FieldValues(hexString).error)
  {
    var fields :- FieldValues(hexString);
    ToPacket(fields)
  }

  method DecodeHexString(hexString: string) returns (r: Result<ZwiftOutgoingUdpDataPacket>)
    ensures r == Decode(hexString)
  {
    var fields :- GetFieldValues(hexString);
    r := ToPacket(fields);
  }

  // ----------------------------------------------------------------------
  // End to end: a payload written by a sender that follows the schema.

  /** The 64-bit pattern of a long, as a varint carries it. */
  function Bits64(x: Int64): (r: nat)
    ensures r < TwoTo64 && AsSigned(r) == x
  {
    if x >= 0 then x else x + TwoTo64
  }

  function PlayerStateMessage(p: ZwiftOutgoingUdpDataPacket): seq<VarintField> {
    [VarintField(3, 0, Bits64(p.distance)), VarintField(6, 0, Bits64(p.speed)),
     VarintField(9, 0, Bits64(p.cadence)), VarintField(11, 0, Bits64(p.heartRate)),
     VarintField(12, 0, Bits64(p.power)), VarintField(15, 0, Bits64(p.elevationGain))]
  }

  /** The fields a sender writes for a packet: 1, 2, optionally 3, then 7. */
  function PacketMessage(p: ZwiftOutgoingUdpDataPacket, withTimestamp: bool): seq<TopField> {
    [Scalar(1, 0, Bits64(p.connectionStatusId)), Scalar(2, 0, Bits64(p.zwiftUserId))] +
    (if withTimestamp then [Scalar(3, 0, Bits64(p.zwiftWorldUnixTimestamp))] else []) +
    [Message(7, PlayerStateMessage(p))]
  }

  lemma {:induction false} EncodeFieldsLength(fs: seq<VarintField>)
    requires ValidFields(fs)
    decreases |fs|
    ensures |EncodeFields(fs)| <= 11 * |fs|
  {
    if fs != [] {
      assert TwoTo64 <= Pow128(10);
      EncodeVarintLength(fs[0].value, 10);
      EncodeFieldsLength(fs[1..]);
    }
  }

  lemma PacketMessageValid(p: ZwiftOutgoingUdpDataPacket, withTimestamp: bool)
    ensures ValidTopField(Message(7, PlayerStateMessage(p)))
    ensures ValidTopFields(PacketMessage(p, withTimestamp))
  {
    var body := PlayerStateMessage(p);
    assert ValidFields(body);
    EncodeFieldsLength(body);
  }

  /** The player-state map a receiver builds: the six values, each once. */
  function PlayerStateMap(p: ZwiftOutgoingUdpDataPacket): map<int, Int64> {
    map[3 := p.distance, 6 := p.speed as Int64, 9 := p.cadence as Int64,
      11 := p.heartRate as Int64, 12 := p.power as Int64, 15 := p.elevationGain]
  }

  lemma PlayerStateCollected(p: ZwiftOutgoingUdpDataPacket)
    ensures ValidFields(PlayerStateMessage(p))
    ensures CollectFields(map[], PlayerStateMessage(p)) == PlayerStateMap(p)
  {
    var f := PlayerStateMessage(p);
    var t3 := f[3..];
    PlayerStateTailCollected(p, map[3 := p.distance, 6 := p.speed as Int64, 9 := p.cadence as Int64]);
    var t2 := [f[2]] + t3;
    var t1 := [f[1]] + t2;
    assert f == [f[0]] + t1;
    var m1 := map[3 := p.distance];
    var m2 := m1[6 := p.speed as Int64];
    calc {
      CollectFields(map[], f);
      { CollectFieldsCons(map[], f[0], t1); }
      CollectFields(m1, t1);
      { CollectFieldsCons(m1, f[1], t2); }
      CollectFields(m2, t2);
      { CollectFieldsCons(m2, f[2], t3); }
      CollectFields(m2[9 := p.cadence as Int64], t3);
    }
  }

  /** The last three player-state fields, collected into a map without them. */
  lemma PlayerStateTailCollected(p: ZwiftOutgoingUdpDataPacket, m: map<int, Int64>)
    requires 11 !in m && 12 !in m && 15 !in m
    ensures ValidFields(PlayerStateMessage(p)[3..])
    ensures CollectFields(m, PlayerStateMessage(p)[3..]) ==
      m[11 := p.heartRate as Int64][12 := p.power as Int64][15 := p.elevationGain]
  {
    var f := PlayerStateMessage(p);
    var t5: seq<VarintField> := [f[5]];
    var t4 := [f[4]] + t5;
    assert f[3..] == [f[3]] + t4;
    assert t5 == [f[5]] + [];
    var m4 := m[11 := p.heartRate as Int64];
    var m5 := m4[12 := p.power as Int64];
    calc {
      CollectFields(m, f[3..]);
      { CollectFieldsCons(m, f[3], t4); }
      CollectFields(m4, t4);
      { CollectFieldsCons(m4, f[4], t5); }
      CollectFields(m5, t5);
      { CollectFieldsCons(m5, f[5], []); }
      m5[15 := p.elevationGain];
    }
  }

  /** The top-level map a receiver builds for a packet. */
  function PacketMap(p: ZwiftOutgoingUdpDataPacket, withTimestamp: bool): map<int, Value> {
    var header := map[1 := Int(p.connectionStatusId as Int64), 2 := Int(p.zwiftUserId as Int64)];
    (if withTimestamp then header[3 := Int(p.zwiftWorldUnixTimestamp)] else header)[7 := Nested(PlayerStateMap(p))]
  }

  lemma PacketCollected(p: ZwiftOutgoingUdpDataPacket, withTimestamp: bool)
    ensures ValidTopFields(PacketMessage(p, withTimestamp))
    ensures CollectMessage(map[], PacketMessage(p, withTimestamp)) == PacketMap(p, withTimestamp)
  {
    PacketMessageValid(p, withTimestamp);
    PlayerStateCollected(p);
    var ts := PacketMessage(p, withTimestamp);
    var one := Scalar(1, 0, Bits64(p.connectionStatusId));
    var two := Scalar(2, 0, Bits64(p.zwiftUserId));
    var seven := Message(7, PlayerStateMessage(p));
    var m1 := map[1 := Int(p.connectionStatusId as Int64)];
    var m2 := m1[2 := Int(p.zwiftUserId as Int64)];
    var last: seq<TopField> := [seven];
    assert last == [seven] + [];
    if withTimestamp {
      var three := Scalar(3, 0, Bits64(p.zwiftWorldUnixTimestamp));
      var m3 := m2[3 := Int(p.zwiftWorldUnixTimestamp)];
      assert ts == [one] + ([two] + ([three] + last));
      CollectMessageCons(m3, seven, []);
      CollectMessageCons(m2, three, last);
      CollectMessageCons(m1, two, [three] + last);
      CollectMessageCons(map[], one, [two] + ([three] + last));
    } else {
      assert ts == [one] + ([two] + last);
      CollectMessageCons(m2, seven, []);
      CollectMessageCons(m1, two, last);
      CollectMessageCons(map[], one, [two] + last);
    }
  }

  /** The projection of a packet's map is the packet. */
  lemma PacketProjected(p: ZwiftOutgoingUdpDataPacket)
    ensures ToPacket(PacketMap(p, true)) == Ok(p)
  {
    var fields := PacketMap(p, true);
    assert HeaderHolds(fields);
    assert PlayerStateHolds(fields[7].fields);
  }

  /** Every packet survives being written and decoded. */
  lemma PacketRoundTrip(p: ZwiftOutgoingUdpDataPacket, upper: bool)
    ensures ValidTopFields(PacketMessage(p, true))
    ensures Decode(ToHex(EncodeMessage(PacketMessage(p, true)), upper)) == Ok(p)
  {
    PacketCollected(p, true);
    HexMessageRoundTrip(PacketMessage(p, true), upper);
    PacketProjected(p);
  }

  /** The timestamp is not optional: without top-level field 3 the lookup
      throws, whatever the other fields hold. */
  lemma MissingTimestampThrows(p: ZwiftOutgoingUdpDataPacket, upper: bool)
    ensures ValidTopFields(PacketMessage(p, false))
    ensures Decode(ToHex(EncodeMessage(PacketMessage(p, false)), upper)) == Err(KeyNotFound(3))
  {
    PacketCollected(p, false);
    HexMessageRoundTrip(PacketMessage(p, false), upper);
    TimestampMissingProjected(p);
  }

  /** Mapping the fields of a packet without a timestamp fails at the lookup
      of field 3, after fields 7, 1 and 2 were read. */
  lemma TimestampMissingProjected(p: ZwiftOutgoingUdpDataPacket)
    ensures ToPacket(PacketMap(p, false)) == Err(KeyNotFound(3))
  {
    var fields := PacketMap(p, false);
    assert 7 in fields && Int32Field(fields, 1) && Int32Field(fields, 2) && 3 !in fields;
  }

  /** The sample payload with fields 1, 2 and 7 but no world timestamp. */
  lemma SamplePayloadWithoutTimestamp(upper: bool)
    ensures var p := ZwiftOutgoingUdpDataPacket(2, 12345, 0, 1000, 30, 90, 145, 220, 50);
      ValidTopFields(PacketMessage(p, false)) &&
      Decode(ToHex(EncodeMessage(PacketMessage(p, false)), upper)) == Err(KeyNotFound(3))
  {
    MissingTimestampThrows(ZwiftOutgoingUdpDataPacket(2, 12345, 0, 1000, 30, 90, 145, 220, 50), upper);
  }
}
