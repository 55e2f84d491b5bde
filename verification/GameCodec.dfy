/** The game codec as it runs: bytes pushed onto a vector, and a cursor advanced over received bytes. */
module GameCodecs {
  import opened Bytes
  import opened Buffers
  import opened GameWire

  /** The output vector of the encoders. */
  class ByteVector {
    var bytes: seq<byte>

    constructor ()
      ensures bytes == []
    {
      bytes := [];
    }

    method AppendU8(v: u8)
      modifies this
      ensures bytes == old(bytes) + LE(v, 1)
    {
      bytes := bytes + [v % 0x100];
      assert LE(v, 1) == [v % 0x100];
    }

    method AppendU16(v: u16)
      modifies this
      ensures bytes == old(bytes) + LE(v, 2)
    {
      bytes := bytes + [v % 0x100];
      bytes := bytes + [(v / 0x100) % 0x100];
      assert LE(v, 2) == [v % 0x100, (v / 0x100) % 0x100];
    }

    method AppendU32(v: u32)
      modifies this
      ensures bytes == old(bytes) + LE(v, 4)
    {
      for i := 0 to 4
        invariant bytes == old(bytes) + LE(v, 4)[..i]
      {
        bytes := bytes + [(v / Pow256(i)) % 256];
        ByteOf(v, 4, i);
      }
    }

    /** A field of one of the widths the formats use. */
    method AppendField(v: nat, width: nat)
      requires width in {1, 2, 4} && v < Pow256(width)
      modifies this
      ensures bytes == old(bytes) + LE(v, width)
    {
      Powers();
      if width == 1 {
        AppendU8(v);
      } else if width == 2 {
        AppendU16(v);
      } else {
        AppendU32(v);
      }
    }

    method AppendRecord(fields: seq<nat>, widths: seq<nat>)
      requires InWidths(fields, widths) && forall i :: 0 <= i < |widths| ==> widths[i] in {1, 2, 4}
      modifies this
      ensures bytes == old(bytes) + Pack(fields, widths)
    {
      hide LE;
      assert fields[0..] == fields && widths[0..] == widths;
      for i := 0 to |fields|
        invariant bytes + Pack(fields[i..], widths[i..]) == old(bytes) + Pack(fields, widths)
      {
        assert fields[i..][1..] == fields[i + 1..] && widths[i..][1..] == widths[i + 1..];
        AppendField(fields[i], widths[i]);
      }
    }

    /** The bytes of a text, one by one. */
    method AppendText(text: seq<byte>, n: nat)
      requires n <= |text|
      modifies this
      ensures bytes == old(bytes) + text[..n]
    {
      for i := 0 to n
        invariant bytes == old(bytes) + text[..i]
      {
        bytes := bytes + [text[i]];
      }
    }
  }

  /** The read position p of a decoder, and the end it is checked against. */
  class Cursor {
    const data: seq<byte>
    var pos: nat

    ghost predicate Valid()
      reads this
    {
      pos <= |data|
    }

    function Rest(): seq<byte>
      reads this
      requires Valid()
    {
      data[pos..]
    }

    constructor (data: seq<byte>)
      ensures Valid() && Rest() == data && this.data == data && pos == 0
    {
      this.data := data;
      pos := 0;
    }

    method ReadU8() returns (ok: bool, v: u8)
      requires Valid()
      modifies this
      ensures Valid() && ok == (|old(Rest())| >= 1)
      ensures ok ==> v == FromLE(old(Rest())[..1]) && Rest() == old(Rest())[1..]
    {
      if pos + 1 > |data| {
        return false, 0;
      }
      ghost var r := Rest();
      ok, v := true, data[pos];
      pos := pos + 1;
      assert r[..1][1..] == [];
    }

    method ReadU16() returns (ok: bool, v: u16)
      requires Valid()
      modifies this
      ensures Valid() && ok == (|old(Rest())| >= 2)
      ensures ok ==> v == FromLE(old(Rest())[..2]) && Rest() == old(Rest())[2..]
    {
      if pos + 2 > |data| {
        return false, 0;
      }
      Load2(Rest());
      ok, v := true, data[pos] as nat + data[pos + 1] as nat * 0x100;
      pos := pos + 2;
    }

    method ReadU32() returns (ok: bool, v: u32)
      requires Valid()
      modifies this
      ensures Valid() && ok == (|old(Rest())| >= 4)
      ensures ok ==> v == FromLE(old(Rest())[..4]) && Rest() == old(Rest())[4..]
    {
      if pos + 4 > |data| {
        return false, 0;
      }
      Load2(Rest());
      Load4(Rest());
      ok := true;
      v := data[pos] as nat + data[pos + 1] as nat * 0x100
           + data[pos + 2] as nat * 0x1_0000 + data[pos + 3] as nat * 0x100_0000;
      pos := pos + 4;
    }

    method ReadField(width: nat) returns (ok: bool, v: nat)
      requires Valid() && width in {1, 2, 4}
      modifies this
      ensures Valid() && ok == (|old(Rest())| >= width)
      ensures ok ==> v == FromLE(old(Rest())[..width]) && Rest() == old(Rest())[width..]
    {
      if width == 1 {
        ok, v := ReadU8();
      } else if width == 2 {
        ok, v := ReadU16();
      } else {
        ok, v := ReadU32();
      }
    }

    /** Read field after field, giving up at the first that is not all there. */
    method ReadRecord(widths: seq<nat>) returns (fields: Option<seq<nat>>)
      requires Valid() && forall i :: 0 <= i < |widths| ==> widths[i] in {1, 2, 4}
      modifies this
      ensures Valid()
      ensures match Unpack(old(Rest()), widths)
              case None => fields.None?
              case Some(u) => fields == Some(u.fields) && Rest() == u.rest
    {
      hide FromLE, Pow256;
      var read := [];
      assert widths[0..] == widths;
      ghost var whole := Unpack(Rest(), widths);
      assert whole.Some? ==> read + whole.value.fields == whole.value.fields;
      for i := 0 to |widths|
        invariant Valid()
        invariant match Unpack(Rest(), widths[i..])
                  case None => whole.None?
                  case Some(u) => whole == Some(Unpacked(read + u.fields, u.rest))
      {
        assert widths[i..][1..] == widths[i + 1..];
        ghost var before := read;
        ghost var now := Unpack(Rest(), widths[i..]);
        var ok, v := ReadField(widths[i]);
        if !ok {
          return None;
        }
        read := read + [v];
        if now.Some? {
          assert read + now.value.fields[1..] == before + now.value.fields;
        }
      }
      assert read + [] == read;
      return Some(read);
    }
  }

  lemma Load2(b: seq<byte>)
    requires |b| >= 2
    ensures FromLE(b[..2]) == b[0] as nat + b[1] as nat * 0x100
  {
    assert b[..2][1..] == [b[1]] && [b[1]][1..] == [];
    assert FromLE([b[1]]) == b[1];
  }

  lemma Load4(b: seq<byte>)
    requires |b| >= 4
    ensures FromLE(b[..4]) == b[0] as nat + b[1] as nat * 0x100 + b[2] as nat * 0x1_0000 + b[3] as nat * 0x100_0000
  {
    assert b[..4][1..][1..] == b[2..][..2];
    Load2(b[2..]);
  }

  // ---------- packets ----------

  method EncodeHeader(p: GamePacket) returns (header: seq<byte>)
    ensures header == Pack(PacketFields(p), PACKET_WIDTHS) && |header| == 28
  {
    PacketFieldsFit(p);
    PackLength(PacketFields(p), PACKET_WIDTHS);
    SumPacketWidths();
    hide Pack, PacketFields, Sum, InWidths;
    var v := new ByteVector();
    v.AppendRecord(PacketFields(p), PACKET_WIDTHS);
    header := v.bytes;
  }

  method EncodePacketBuffer(p: GamePacket) returns (buf: Buffer)
    requires CHEAP_PREPEND + 28 + |p.payload| <= MAX_CAPACITY
    ensures fresh(buf) && fresh(buf.data) && buf.Valid() && buf.Contents() == EncodePacket(p)
  {
    hide Pack, PacketFields;
    buf := new Buffer();
    buf.EnsureWritable(HEADER_SIZE + |p.payload|);
    var header := EncodeHeader(p);
    buf.Append(header);
    assert buf.Contents() == header && header + [] == header;
    if p.payload != [] {
      buf.Append(p.payload);
    }
  }

  method DecodePacketBytes(data: seq<byte>) returns (r: Option<GamePacket>)
    ensures r == DecodePacket(data)
  {
    hide Unpack, FromLE, LE;
    if |data| < HEADER_SIZE {
      return None;
    }
    var p := new Cursor(data);
    var fields := p.ReadRecord(PACKET_WIDTHS);
    if fields.None? {
      return None;
    }
    var f := fields.value;
    if f[0] != MAGIC || f[1] != VERSION || p.pos + f[8] > |data| {
      return None;
    }
    assert data[p.pos..p.pos + f[8]] == p.Rest()[..f[8]];
    r := PacketOf(f, data[p.pos..p.pos + f[8]]);
  }

  // ---------- inputs and events ----------

  method EncodeInputBytes(i: Input) returns (out: seq<byte>)
    ensures out == EncodeInput(i)
  {
    hide Pack;
    InputFieldsFit(i);
    var v := new ByteVector();
    v.AppendRecord(InputFields(i), INPUT_WIDTHS);
    v.AppendRecord(PositionFields(i), POSITION_WIDTHS);
    out := v.bytes;
  }

  /** A payload without the position part is an old client's input. */
  method DecodeInputBytes(payload: seq<byte>, out: Input) returns (r: Option<Input>)
    ensures r == DecodeInput(payload, out)
  {
    hide Pack, Unpack, BaseInput, WithPosition, Pow256, Sum;
    var p := new Cursor(payload);
    var base := p.ReadRecord(INPUT_WIDTHS);
    if base.None? {
      return None;
    }
    var input := BaseInput(base.value, out);
    UnpackNeeds(p.Rest(), POSITION_WIDTHS);
    InputSums();
    if p.pos + 16 <= |payload| {
      var position := p.ReadRecord(POSITION_WIDTHS);
      input := WithPosition(input, position.value);
    }
    r := Some(input);
  }

  method EncodeEventBytes(e: GameEvent) returns (out: seq<byte>)
    ensures out == EncodeEvent(e)
  {
    hide Pack;
    EventOfFields(e);
    var v := new ByteVector();
    v.AppendRecord(EventFields(e), EVENT_WIDTHS);
    out := v.bytes;
  }

  method DecodeEventBytes(payload: seq<byte>) returns (r: Option<GameEvent>)
    ensures r == DecodeEvent(payload)
  {
    hide Pack, Unpack;
    var p := new Cursor(payload);
    var f := p.ReadRecord(EVENT_WIDTHS);
    if f.None? {
      return None;
    }
    return Some(EventOf(f.value));
  }

  // ---------- snapshots ----------

  method EncodeSnapshotBytes(s: Snapshot) returns (out: seq<byte>)
    ensures out == EncodeSnapshot(s)
  {
    hide Pack, PlayerFields, PlayerOf;
    SnapshotFieldsFit(s);
    var v := new ByteVector();
    v.AppendRecord(SnapshotFields(s), SNAPSHOT_WIDTHS);
    ghost var head := v.bytes;
    assert s.players[0..] == s.players;
    for i := 0 to |s.players|
      invariant v.bytes + EncodePlayers(s.players[i..]) == head + EncodePlayers(s.players)
    {
      assert s.players[i..][1..] == s.players[i + 1..];
      PlayerOfFields(s.players[i]);
      v.AppendRecord(PlayerFields(s.players[i]), PLAYER_WIDTHS);
    }
    assert s.players[|s.players|..] == [] && v.bytes + [] == v.bytes;
    out := v.bytes;
  }

  method ReadPlayers(p: Cursor, count: nat) returns (r: Option<seq<PlayerSnapshot>>)
    requires p.Valid()
    modifies p
    ensures r == DecodePlayers(old(p.Rest()), count)
  {
    hide Unpack, PlayerOf;
    var players := [];
    ghost var whole := DecodePlayers(p.Rest(), count);
    assert whole.Some? ==> players + whole.value == whole.value;
    for i := 0 to count
      invariant p.Valid()
      invariant match DecodePlayers(p.Rest(), count - i)
                case None => whole.None?
                case Some(ps) => whole == Some(players + ps)
    {
      ghost var now := DecodePlayers(p.Rest(), count - i);
      ghost var before := players;
      var f := p.ReadRecord(PLAYER_WIDTHS);
      if f.None? {
        return None;
      }
      players := players + [PlayerOf(f.value)];
      if now.Some? {
        assert players + now.value[1..] == before + now.value;
      }
    }
    assert players + [] == players;
    return Some(players);
  }

  method DecodeSnapshotBytes(payload: seq<byte>) returns (r: Option<Snapshot>)
    ensures r == DecodeSnapshot(payload)
  {
    hide Unpack, DecodePlayers;
    Powers();
    var p := new Cursor(payload);
    var head := p.ReadRecord(SNAPSHOT_WIDTHS);
    if head.None? {
      return None;
    }
    var players := ReadPlayers(p, head.value[1]);
    if players.None? {
      return None;
    }
    return Some(Snapshot(head.value[0], players.value));
  }

  // ---------- chat and profile ----------

  method EncodeChatBytes(c: Chat) returns (out: seq<byte>)
    ensures out == EncodeChat(c)
  {
    hide Pack;
    Powers();
    var n := if |c.text| < CHAT_LIMIT then |c.text| else CHAT_LIMIT;
    var v := new ByteVector();
    v.AppendRecord([c.senderId, n], [4, 2]);
    v.AppendText(c.text, n);
    assert c.text[..n] == Truncated(c.text, CHAT_LIMIT);
    out := v.bytes;
  }

  method DecodeChatBytes(payload: seq<byte>) returns (r: Option<Chat>)
    ensures r == DecodeChat(payload)
  {
    hide Pack, Unpack;
    Powers();
    var p := new Cursor(payload);
    var f := p.ReadRecord([4, 2]);
    if f.None? || p.pos + f.value[1] > |payload| {
      return None;
    }
    var rest := payload[p.pos..];
    return Some(Chat(f.value[0], rest[..f.value[1]]));
  }

  method EncodeProfileBytes(name: seq<byte>) returns (out: seq<byte>)
    ensures out == EncodeProfile(name)
  {
    hide Pack;
    Powers();
    var n := if |name| < NAME_LIMIT then |name| else NAME_LIMIT;
    var v := new ByteVector();
    v.AppendRecord([n], [2]);
    v.AppendText(name, n);
    assert name[..n] == Truncated(name, NAME_LIMIT);
    out := v.bytes;
  }

  method DecodeProfileBytes(payload: seq<byte>) returns (r: Option<seq<byte>>)
    ensures r == DecodeProfile(payload)
  {
    hide Pack, Unpack;
    var p := new Cursor(payload);
    var f := p.ReadRecord([2]);
    if f.None? || p.pos + f.value[0] > |payload| {
      return None;
    }
    var rest := payload[p.pos..];
    return Some(rest[..f.value[0]]);
  }
}
