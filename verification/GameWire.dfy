/** The LNGP formats: records of fixed-width fields, and the packets, inputs, snapshots, events and texts of them. */
module GameWire {
  import opened Bytes

  const MAGIC: nat := 0x4C4E4750
  const VERSION: nat := 1
  const HEADER_SIZE: nat := 24

  type u8 = x: nat | x < 0x100
  type u16 = x: nat | x < 0x1_0000
  type u32 = x: nat | x < 0x1_0000_0000
  type i8 = x: int | -0x80 <= x < 0x80
  type i16 = x: int | -0x8000 <= x < 0x8000
  type i32 = x: int | -0x8000_0000 <= x < 0x8000_0000
  type Float = u32    // a 32-bit float, as its bit pattern

  // ---------- records of fields ----------

  /** The fields one after the other, the i-th in widths[i] bytes. */
  function Pack(fields: seq<nat>, widths: seq<nat>): (b: seq<byte>)
    requires |fields| == |widths|
  {
    if fields == [] then [] else LE(fields[0], widths[0]) + Pack(fields[1..], widths[1..])
  }

  datatype Unpacked = Unpacked(fields: seq<nat>, rest: seq<byte>)

  /** Read one field after the other; None as soon as one is not all there. */
  function Unpack(b: seq<byte>, widths: seq<nat>): (r: Option<Unpacked>)
    ensures r.Some? ==> |r.value.fields| == |widths|
    ensures r.Some? ==> forall i :: 0 <= i < |widths| ==> r.value.fields[i] < Pow256(widths[i])
    decreases |widths|
  {
    if widths == [] then Some(Unpacked([], b))
    else if |b| < widths[0] then None
    else
      LoadBound(b[..widths[0]]);
      match Unpack(b[widths[0]..], widths[1..])
      case None => None
      case Some(u) => Some(Unpacked([FromLE(b[..widths[0]])] + u.fields, u.rest))
  }

  function Sum(widths: seq<nat>): nat {
    if widths == [] then 0 else widths[0] + Sum(widths[1..])
  }

  predicate InWidths(fields: seq<nat>, widths: seq<nat>) {
    |fields| == |widths| && forall i :: 0 <= i < |fields| ==> fields[i] < Pow256(widths[i])
  }

  lemma {:induction false} UnpackPacked(fields: seq<nat>, widths: seq<nat>, rest: seq<byte>)
    requires InWidths(fields, widths)
    ensures Unpack(Pack(fields, widths) + rest, widths) == Some(Unpacked(fields, rest))
    decreases |fields|
  {
    var b := Pack(fields, widths) + rest;
    if fields == [] {
      assert b == rest;
    } else {
      var first := LE(fields[0], widths[0]);
      assert b[..widths[0]] == first && b[widths[0]..] == Pack(fields[1..], widths[1..]) + rest;
      LoadField(fields[0], widths[0]);
      UnpackPacked(fields[1..], widths[1..], rest);
      assert [fields[0]] + fields[1..] == fields;
    }
  }

  /** Reading succeeds exactly on input that is long enough, and leaves the remaining bytes. */
  lemma {:induction false} UnpackNeeds(b: seq<byte>, widths: seq<nat>)
    ensures Unpack(b, widths).Some? <==> |b| >= Sum(widths)
    ensures Unpack(b, widths).Some? ==> Unpack(b, widths).value.rest == b[Sum(widths)..]
    decreases |widths|
  {
    if widths != [] && |b| >= widths[0] {
      UnpackNeeds(b[widths[0]..], widths[1..]);
    }
  }

  lemma {:induction false} PackLength(fields: seq<nat>, widths: seq<nat>)
    requires |fields| == |widths|
    ensures |Pack(fields, widths)| == Sum(widths)
  {
    if fields != [] {
      PackLength(fields[1..], widths[1..]);
    }
  }

  // ---------- two's complement ----------

  function Unsigned(v: int, width: nat): (u: nat)
    requires 0 - Pow256(width) <= v
  {
    if v < 0 then v + Pow256(width) else v
  }

  function Signed(u: nat, width: nat): int {
    if 2 * u >= Pow256(width) then u - Pow256(width) else u
  }

  /** A signed value is carried through its unsigned bit pattern exactly when it is in range. */
  lemma TwosComplement(v: int, width: nat)
    requires 0 - Pow256(width) <= v < Pow256(width)
    ensures Unsigned(v, width) < Pow256(width)
    ensures Signed(Unsigned(v, width), width) == v <==> 0 - Pow256(width) <= 2 * v < Pow256(width)
  {
  }

  // ---------- packets ----------

  datatype GamePacket = GamePacket(
    version: u8, msgType: u8, flags: u16, roomId: u32, playerId: u32, seqNo: u32, tick: u32,
    payloadLen: u16, reserved: u16, payload: seq<byte>)

  const PACKET_WIDTHS: seq<nat> := [4, 1, 1, 2, 4, 4, 4, 4, 2, 2]

  function PacketFields(p: GamePacket): seq<nat> {
    [MAGIC, p.version, p.msgType, p.flags, p.roomId, p.playerId, p.seqNo, p.tick, |p.payload| % 0x1_0000, p.reserved]
  }

  /** The length field is taken from the payload, cut to 16 bits; the payload follows in full. */
  function EncodePacket(p: GamePacket): seq<byte> {
    Pack(PacketFields(p), PACKET_WIDTHS) + p.payload
  }

  function PacketOf(f: seq<nat>, payload: seq<byte>): Option<GamePacket>
    requires InWidths(f, PACKET_WIDTHS)
  {
    Powers();
    assert forall i :: 0 <= i < |PACKET_WIDTHS| ==> f[i] < Pow256(PACKET_WIDTHS[i]);
    if f[0] != MAGIC || f[1] != VERSION then None
    else Some(GamePacket(f[1], f[2], f[3], f[4], f[5], f[6], f[7], f[8], f[9], payload))
  }

  function DecodePacket(b: seq<byte>): Option<GamePacket> {
    if |b| < HEADER_SIZE then None
    else
      match Unpack(b, PACKET_WIDTHS)
      case None => None
      case Some(u) => if |u.rest| < u.fields[8] then None else PacketOf(u.fields, u.rest[..u.fields[8]])
  }

  /** Decoding a datagram gives back the packet, whatever trails it, exactly for version 1 and 16-bit payloads. */
  lemma PacketRoundTrip(p: GamePacket, trailing: seq<byte>)
    ensures DecodePacket(EncodePacket(p) + trailing) == Some(p.(payloadLen := |p.payload| % 0x1_0000)) <==>
            p.version == VERSION && |p.payload| < 0x1_0000
  {
    hide Pack, Unpack;
    var f, b := PacketFields(p), EncodePacket(p) + trailing;
    assert b == Pack(f, PACKET_WIDTHS) + (p.payload + trailing);
    UnpackPacked(f, PACKET_WIDTHS, p.payload + trailing);
    PacketHeaderLength(b);
  }

  lemma PacketFieldsFit(p: GamePacket)
    ensures InWidths(PacketFields(p), PACKET_WIDTHS)
  {
  }

  /** The fixed part takes 28 bytes: what passes the 24-byte test with less is still refused. */
  lemma PacketHeaderLength(b: seq<byte>)
    ensures Unpack(b, PACKET_WIDTHS).Some? <==> |b| >= 28
    ensures DecodePacket(b).Some? ==> |b| >= 28
  {
    UnpackNeeds(b, PACKET_WIDTHS);
  }

  lemma SumPacketWidths()
    ensures Sum(PACKET_WIDTHS) == 28
  {
  }

  // ---------- inputs ----------

  datatype Input = Input(
    inputSeq: u32, clientTick: u32, moveX: i8, moveY: i8, yaw: i16, pitch: i16, buttons: u16,
    posX: Float, posY: Float, posZ: Float, hasPos: u8)

  const INPUT_WIDTHS: seq<nat> := [4, 4, 1, 1, 2, 2, 2]
  const POSITION_WIDTHS: seq<nat> := [4, 4, 4, 1, 1, 1, 1]

  function InputFields(i: Input): seq<nat> {
    Powers();
    [i.inputSeq, i.clientTick, Unsigned(i.moveX, 1), Unsigned(i.moveY, 1), Unsigned(i.yaw, 2), Unsigned(i.pitch, 2),
     i.buttons]
  }

  function PositionFields(i: Input): seq<nat> {
    [i.posX, i.posY, i.posZ, i.hasPos, 0, 0, 0]
  }

  function EncodeInput(i: Input): seq<byte> {
    Pack(InputFields(i), INPUT_WIDTHS) + Pack(PositionFields(i), POSITION_WIDTHS)
  }

  /** The base fields, no position: the position fields of the output stay as they were. */
  function BaseInput(f: seq<nat>, out: Input): Input
    requires InWidths(f, INPUT_WIDTHS)
  {
    Powers();
    assert forall i :: 0 <= i < |INPUT_WIDTHS| ==> f[i] < Pow256(INPUT_WIDTHS[i]);
    Input(f[0], f[1], Signed(f[2], 1), Signed(f[3], 1), Signed(f[4], 2), Signed(f[5], 2), f[6],
          out.posX, out.posY, out.posZ, 0)
  }

  function WithPosition(i: Input, f: seq<nat>): Input
    requires InWidths(f, POSITION_WIDTHS)
  {
    Powers();
    assert forall k :: 0 <= k < |POSITION_WIDTHS| ==> f[k] < Pow256(POSITION_WIDTHS[k]);
    i.(posX := f[0], posY := f[1], posZ := f[2], hasPos := f[3])
  }

  function DecodeInput(b: seq<byte>, out: Input): Option<Input> {
    match Unpack(b, INPUT_WIDTHS)
    case None => None
    case Some(u) =>
      var base := BaseInput(u.fields, out);
      match Unpack(u.rest, POSITION_WIDTHS)
      case None => Some(base)
      case Some(v) => Some(WithPosition(base, v.fields))
  }

  lemma InputFieldsFit(i: Input)
    ensures InWidths(InputFields(i), INPUT_WIDTHS) && InWidths(PositionFields(i), POSITION_WIDTHS)
  {
  }

  lemma InputSums()
    ensures Sum(INPUT_WIDTHS) == 16 && Sum(POSITION_WIDTHS) == 16
  {
  }

  lemma BaseInputOf(i: Input, out: Input)
    ensures InWidths(InputFields(i), INPUT_WIDTHS)
    ensures BaseInput(InputFields(i), out) == i.(posX := out.posX, posY := out.posY, posZ := out.posZ, hasPos := 0)
  {
  }

  /** An input decodes as it was encoded, whatever follows it. */
  lemma InputRoundTrip(i: Input, out: Input, trailing: seq<byte>)
    ensures DecodeInput(EncodeInput(i) + trailing, out) == Some(i)
  {
    hide Pack, Unpack, BaseInput;
    var f, g := InputFields(i), PositionFields(i);
    BaseInputOf(i, out);
    var tail := Pack(g, POSITION_WIDTHS) + trailing;
    assert EncodeInput(i) + trailing == Pack(f, INPUT_WIDTHS) + tail;
    UnpackPacked(f, INPUT_WIDTHS, tail);
    UnpackPacked(g, POSITION_WIDTHS, trailing);
  }

  /** Any payload of 16 to 31 bytes is an old-style input: its base fields, and no position. */
  lemma OldStyleInput(b: seq<byte>, out: Input)
    ensures DecodeInput(b, out).Some? <==> |b| >= 16
    ensures 16 <= |b| < 32 ==>
              Unpack(b, INPUT_WIDTHS).Some?
              && DecodeInput(b, out) == Some(BaseInput(Unpack(b, INPUT_WIDTHS).value.fields, out))
              && DecodeInput(b, out).value.hasPos == 0
  {
    UnpackNeeds(b, INPUT_WIDTHS);
    if |b| >= 16 {
      UnpackNeeds(b[16..], POSITION_WIDTHS);
    }
  }

  // ---------- snapshots ----------

  datatype PlayerSnapshot = PlayerSnapshot(
    playerId: u32, x: Float, y: Float, z: Float, yaw: i16, pitch: i16, hp: u16, stateFlags: u16, lastInputSeq: u32,
    weaponId: u8, pad0: u8, kills: u16, deaths: u16)

  datatype Snapshot = Snapshot(serverTick: u32, players: seq<PlayerSnapshot>)

  const SNAPSHOT_WIDTHS: seq<nat> := [4, 1, 1, 1, 1]
  const PLAYER_WIDTHS: seq<nat> := [4, 4, 4, 4, 2, 2, 2, 2, 4, 1, 1, 2, 2]

  function PlayerFields(p: PlayerSnapshot): seq<nat> {
    Powers();
    [p.playerId, p.x, p.y, p.z, Unsigned(p.yaw, 2), Unsigned(p.pitch, 2), p.hp, p.stateFlags, p.lastInputSeq,
     p.weaponId, p.pad0, p.kills, p.deaths]
  }

  function PlayerOf(f: seq<nat>): PlayerSnapshot
    requires InWidths(f, PLAYER_WIDTHS)
  {
    Powers();
    assert forall i :: 0 <= i < |PLAYER_WIDTHS| ==> f[i] < Pow256(PLAYER_WIDTHS[i]);
    PlayerSnapshot(
      f[0], f[1], f[2], f[3], Signed(f[4], 2), Signed(f[5], 2), f[6], f[7], f[8], f[9], f[10], f[11], f[12])
  }

  lemma PlayerOfFields(p: PlayerSnapshot)
    ensures InWidths(PlayerFields(p), PLAYER_WIDTHS) && PlayerOf(PlayerFields(p)) == p
  {
  }

  function EncodePlayers(ps: seq<PlayerSnapshot>): seq<byte> {
    if ps == [] then [] else Pack(PlayerFields(ps[0]), PLAYER_WIDTHS) + EncodePlayers(ps[1..])
  }

  function SnapshotFields(s: Snapshot): seq<nat> {
    [s.serverTick, |s.players| % 0x100, 0, 0, 0]
  }

  /** The player count is cut to one byte; all players follow. */
  function EncodeSnapshot(s: Snapshot): seq<byte> {
    Pack(SnapshotFields(s), SNAPSHOT_WIDTHS) + EncodePlayers(s.players)
  }

  function DecodePlayers(b: seq<byte>, count: nat): (r: Option<seq<PlayerSnapshot>>)
    ensures r.Some? ==> |r.value| == count
    decreases count
  {
    if count == 0 then Some([])
    else
      match Unpack(b, PLAYER_WIDTHS)
      case None => None
      case Some(u) =>
        match DecodePlayers(u.rest, count - 1)
        case None => None
        case Some(ps) => Some([PlayerOf(u.fields)] + ps)
  }

  function DecodeSnapshot(b: seq<byte>): Option<Snapshot> {
    match Unpack(b, SNAPSHOT_WIDTHS)
    case None => None
    case Some(u) =>
      Powers();
      match DecodePlayers(u.rest, u.fields[1])
      case None => None
      case Some(ps) =>
        assert u.fields[0] < Pow256(SNAPSHOT_WIDTHS[0]);
        Some(Snapshot(u.fields[0], ps))
  }

  lemma {:induction false} PlayersRoundTrip(ps: seq<PlayerSnapshot>, trailing: seq<byte>)
    ensures DecodePlayers(EncodePlayers(ps) + trailing, |ps|) == Some(ps)
    decreases |ps|
  {
    hide Pack, Unpack, PlayerOf, PlayerFields;
    if ps != [] {
      var more := EncodePlayers(ps[1..]) + trailing;
      PlayerOfFields(ps[0]);
      assert EncodePlayers(ps) + trailing == Pack(PlayerFields(ps[0]), PLAYER_WIDTHS) + more;
      UnpackPacked(PlayerFields(ps[0]), PLAYER_WIDTHS, more);
      PlayersRoundTrip(ps[1..], trailing);
      assert [ps[0]] + ps[1..] == ps;
    }
  }

  lemma SnapshotFieldsFit(s: Snapshot)
    ensures InWidths(SnapshotFields(s), SNAPSHOT_WIDTHS)
  {
  }

  /** A snapshot decodes as it was encoded exactly when its player count fits the one-byte field. */
  lemma SnapshotRoundTrip(s: Snapshot, trailing: seq<byte>)
    ensures DecodeSnapshot(EncodeSnapshot(s) + trailing) == Some(s) <==> |s.players| <= 255
  {
    hide Pack, Unpack, EncodePlayers, DecodePlayers;
    var tail := EncodePlayers(s.players) + trailing;
    assert EncodeSnapshot(s) + trailing == Pack(SnapshotFields(s), SNAPSHOT_WIDTHS) + tail;
    UnpackPacked(SnapshotFields(s), SNAPSHOT_WIDTHS, tail);
    PlayersRoundTrip(s.players, trailing);
  }

  lemma {:induction false} PlayersLength(ps: seq<PlayerSnapshot>)
    ensures |EncodePlayers(ps)| == 34 * |ps|
    decreases |ps|
  {
    hide Pack, PlayerFields;
    if ps != [] {
      PlayerOfFields(ps[0]);
      PackLength(PlayerFields(ps[0]), PLAYER_WIDTHS);
      PlayerWidthsSum();
      PlayersLength(ps[1..]);
    }
  }

  lemma PlayerWidthsSum()
    ensures Sum(PLAYER_WIDTHS) == 34 && Sum(SNAPSHOT_WIDTHS) == 8
  {
  }

  /** What a client reads out of the bytes: the packet, and then the snapshot in it. */
  function ReadSnapshot(b: seq<byte>): Option<Snapshot> {
    match DecodePacket(b)
    case None => None
    case Some(p) => DecodeSnapshot(p.payload)
  }

  /** A version-1 packet that carries a snapshot brings it over exactly when it has at most 255 players. */
  lemma SnapshotPacketRoundTrip(p: GamePacket, s: Snapshot, trailing: seq<byte>)
    requires p.version == VERSION && p.payload == EncodeSnapshot(s)
    ensures ReadSnapshot(EncodePacket(p) + trailing) == Some(s) <==> |s.players| <= 255
  {
    hide DecodePacket, EncodePacket, EncodeSnapshot, DecodeSnapshot;
    if |s.players| <= 255 {
      SnapshotLength(s);
      PacketRoundTrip(p, trailing);
      SnapshotRoundTrip(s, []);
      assert p.payload + [] == p.payload;
    } else if ReadSnapshot(EncodePacket(p) + trailing).Some? {
      SnapshotBound(DecodePacket(EncodePacket(p) + trailing).value.payload);
    }
  }

  lemma SnapshotLength(s: Snapshot)
    ensures |EncodeSnapshot(s)| == 8 + 34 * |s.players|
  {
    hide Pack, EncodePlayers;
    PackLength(SnapshotFields(s), SNAPSHOT_WIDTHS);
    PlayerWidthsSum();
    PlayersLength(s.players);
  }

  lemma SnapshotBound(b: seq<byte>)
    requires DecodeSnapshot(b).Some?
    ensures |DecodeSnapshot(b).value.players| <= 255
  {
    hide DecodePlayers;
    Powers();
    assert SNAPSHOT_WIDTHS[1] == 1;
  }

  // ---------- events ----------

  datatype GameEvent = GameEvent(kind: u8, targetId: u32, value: i32, extra: u32)

  const EVENT_WIDTHS: seq<nat> := [1, 1, 1, 1, 4, 4, 4]

  function EventFields(e: GameEvent): seq<nat> {
    Powers();
    [e.kind, 0, 0, 0, e.targetId, Unsigned(e.value, 4), e.extra]
  }

  function EncodeEvent(e: GameEvent): seq<byte> {
    Pack(EventFields(e), EVENT_WIDTHS)
  }

  function EventOf(f: seq<nat>): GameEvent
    requires InWidths(f, EVENT_WIDTHS)
  {
    Powers();
    assert forall i :: 0 <= i < |EVENT_WIDTHS| ==> f[i] < Pow256(EVENT_WIDTHS[i]);
    GameEvent(f[0], f[4], Signed(f[5], 4), f[6])
  }

  function DecodeEvent(b: seq<byte>): Option<GameEvent> {
    match Unpack(b, EVENT_WIDTHS)
    case None => None
    case Some(u) => Some(EventOf(u.fields))
  }

  lemma EventOfFields(e: GameEvent)
    ensures InWidths(EventFields(e), EVENT_WIDTHS) && EventOf(EventFields(e)) == e
  {
  }

  /** Events keep their value, negative ones included. */
  lemma EventRoundTrip(e: GameEvent, trailing: seq<byte>)
    ensures DecodeEvent(EncodeEvent(e) + trailing) == Some(e)
  {
    EventOfFields(e);
    UnpackPacked(EventFields(e), EVENT_WIDTHS, trailing);
  }

  // ---------- chat and profile: texts cut to a limit ----------

  const CHAT_LIMIT: nat := 200
  const NAME_LIMIT: nat := 32

  datatype Chat = Chat(senderId: u32, text: seq<byte>)

  function Truncated(text: seq<byte>, limit: nat): seq<byte> {
    if |text| <= limit then text else text[..limit]
  }

  function EncodeChat(c: Chat): seq<byte> {
    var t := Truncated(c.text, CHAT_LIMIT);
    Pack([c.senderId, |t|], [4, 2]) + t
  }

  function EncodeProfile(name: seq<byte>): seq<byte> {
    var t := Truncated(name, NAME_LIMIT);
    Pack([|t|], [2]) + t
  }

  function DecodeChat(b: seq<byte>): Option<Chat> {
    match Unpack(b, [4, 2])
    case None => None
    case Some(u) =>
      Powers();
      if |u.rest| < u.fields[1] then None
      else
        assert u.fields[0] < Pow256([4, 2][0]);
        Some(Chat(u.fields[0], u.rest[..u.fields[1]]))
  }

  function DecodeProfile(b: seq<byte>): Option<seq<byte>> {
    match Unpack(b, [2])
    case None => None
    case Some(u) => if |u.rest| < u.fields[0] then None else Some(u.rest[..u.fields[0]])
  }

  /** A chat arrives as its first 200 bytes, so unchanged exactly when it has no more. */
  lemma ChatRoundTrip(c: Chat, trailing: seq<byte>)
    ensures DecodeChat(EncodeChat(c) + trailing) == Some(c.(text := Truncated(c.text, CHAT_LIMIT)))
    ensures DecodeChat(EncodeChat(c) + trailing) == Some(c) <==> |c.text| <= CHAT_LIMIT
  {
    var t := Truncated(c.text, CHAT_LIMIT);
    var f := [c.senderId, |t|];
    assert EncodeChat(c) + trailing == Pack(f, [4, 2]) + (t + trailing);
    UnpackPacked(f, [4, 2], t + trailing);
  }

  /** A name arrives as its first 32 bytes. */
  lemma ProfileRoundTrip(name: seq<byte>, trailing: seq<byte>)
    ensures DecodeProfile(EncodeProfile(name) + trailing) == Some(Truncated(name, NAME_LIMIT))
    ensures DecodeProfile(EncodeProfile(name) + trailing) == Some(name) <==> |name| <= NAME_LIMIT
  {
    var t := Truncated(name, NAME_LIMIT);
    assert EncodeProfile(name) + trailing == Pack([|t|], [2]) + (t + trailing);
    UnpackPacked([|t|], [2], t + trailing);
  }
}
