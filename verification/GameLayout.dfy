/** Where each field of the LNGP formats stands, byte by byte, and what the decoders accept. */
module GameLayout {
  import opened Bytes
  import opened GameWire

  function Offset(widths: seq<nat>, i: nat): nat
    requires i <= |widths|
  {
    if i == 0 then 0 else Offset(widths, i - 1) + widths[i - 1]
  }

  lemma {:induction false} OffsetShifts(widths: seq<nat>, i: nat)
    requires 0 < i <= |widths|
    ensures Offset(widths, i) == widths[0] + Offset(widths[1..], i - 1)
  {
    if i > 1 {
      OffsetShifts(widths, i - 1);
    }
  }

  /** The i-th field of a record stands at its offset. */
  lemma {:induction false} FieldAt(fields: seq<nat>, widths: seq<nat>, rest: seq<byte>, i: nat)
    requires InWidths(fields, widths) && i < |fields|
    ensures var b, from := Pack(fields, widths) + rest, Offset(widths, i);
            from + widths[i] <= |b| && Field(b, from, widths[i]) == fields[i]
    decreases |fields|
  {
    var first, b := LE(fields[0], widths[0]), Pack(fields, widths) + rest;
    var tail := Pack(fields[1..], widths[1..]) + rest;
    assert b == first + tail;
    if i == 0 {
      LoadField(fields[0], widths[0]);
      assert b[0..widths[0]] == first;
    } else {
      OffsetShifts(widths, i);
      FieldAt(fields[1..], widths[1..], rest, i - 1);
      var from := Offset(widths[1..], i - 1);
      assert b[widths[0] + from..widths[0] + from + widths[i]] == tail[from..from + widths[i]];
    }
  }

  lemma FieldsAt(fields: seq<nat>, widths: seq<nat>, rest: seq<byte>)
    requires InWidths(fields, widths)
    ensures |Pack(fields, widths)| == Sum(widths)
    ensures forall i :: 0 <= i < |fields| ==>
              var b, from := Pack(fields, widths) + rest, Offset(widths, i);
              from + widths[i] <= |b| && Field(b, from, widths[i]) == fields[i]
  {
    PackLength(fields, widths);
    forall i | 0 <= i < |fields|
      ensures var b, from := Pack(fields, widths) + rest, Offset(widths, i);
              from + widths[i] <= |b| && Field(b, from, widths[i]) == fields[i]
    {
      FieldAt(fields, widths, rest, i);
    }
  }

  /** Two's complement is reduction modulo the width. */
  lemma SignedFields(v: int)
    ensures -0x80 <= v < 0x80 ==> Pow256(1) == 0x100 && Unsigned(v, 1) == v % 0x100
    ensures -0x8000 <= v < 0x8000 ==> Pow256(2) == 0x1_0000 && Unsigned(v, 2) == v % 0x1_0000
  {
    Powers();
  }

  lemma SignedRead(u: nat)
    ensures u < 0x100 ==> Signed(u, 1) % 0x100 == u
    ensures u < 0x1_0000 ==> Signed(u, 2) % 0x1_0000 == u
  {
    Powers();
  }

  // ---------- packets ----------

  lemma PacketLayout(p: GamePacket)
    ensures var b := EncodePacket(p);
            && |b| == 28 + |p.payload| && b[28..] == p.payload
            && Field(b, 0, 4) == 0x4C4E4750 && Field(b, 4, 1) == p.version && Field(b, 5, 1) == p.msgType
            && Field(b, 6, 2) == p.flags && Field(b, 8, 4) == p.roomId && Field(b, 12, 4) == p.playerId
            && Field(b, 16, 4) == p.seqNo && Field(b, 20, 4) == p.tick
            && Field(b, 24, 2) == |p.payload| % 0x1_0000 && Field(b, 26, 2) == p.reserved
  {
    PacketFieldsFit(p);
    FieldsAt(PacketFields(p), PACKET_WIDTHS, p.payload);
    PacketOffsets();
    hide Pack, Field, Offset, FromLE, Sum;
  }

  lemma PacketOffsets()
    ensures Sum(PACKET_WIDTHS) == 28
    ensures Offset(PACKET_WIDTHS, 0) == 0 && Offset(PACKET_WIDTHS, 1) == 4 && Offset(PACKET_WIDTHS, 2) == 5
    ensures Offset(PACKET_WIDTHS, 3) == 6 && Offset(PACKET_WIDTHS, 4) == 8 && Offset(PACKET_WIDTHS, 5) == 12
    ensures Offset(PACKET_WIDTHS, 6) == 16 && Offset(PACKET_WIDTHS, 7) == 20 && Offset(PACKET_WIDTHS, 8) == 24
    ensures Offset(PACKET_WIDTHS, 9) == 26
  {
  }

  // ---------- inputs ----------

  lemma InputLayout(i: Input)
    ensures var b := EncodeInput(i);
            && |b| == 32
            && Field(b, 0, 4) == i.inputSeq && Field(b, 4, 4) == i.clientTick
            && Field(b, 8, 1) == i.moveX % 0x100 && Field(b, 9, 1) == i.moveY % 0x100
            && Field(b, 10, 2) == i.yaw % 0x1_0000 && Field(b, 12, 2) == i.pitch % 0x1_0000
            && Field(b, 14, 2) == i.buttons
            && Field(b, 16, 4) == i.posX && Field(b, 20, 4) == i.posY && Field(b, 24, 4) == i.posZ
            && Field(b, 28, 1) == i.hasPos && Field(b, 29, 1) == 0 && Field(b, 30, 1) == 0 && Field(b, 31, 1) == 0
  {
    hide Pack, Field, Offset, FromLE, Sum, Pow256, InWidths, Unsigned;
    var base, position := Pack(InputFields(i), INPUT_WIDTHS), Pack(PositionFields(i), POSITION_WIDTHS);
    BaseLayout(i, position);
    PositionLayout(i);
    Shift(base, position);
  }

  lemma BaseLayout(i: Input, rest: seq<byte>)
    ensures var b := Pack(InputFields(i), INPUT_WIDTHS) + rest;
            && |b| == 16 + |rest|
            && Field(b, 0, 4) == i.inputSeq && Field(b, 4, 4) == i.clientTick
            && Field(b, 8, 1) == i.moveX % 0x100 && Field(b, 9, 1) == i.moveY % 0x100
            && Field(b, 10, 2) == i.yaw % 0x1_0000 && Field(b, 12, 2) == i.pitch % 0x1_0000
            && Field(b, 14, 2) == i.buttons
  {
    InputFieldsFit(i);
    FieldsAt(InputFields(i), INPUT_WIDTHS, rest);
    InputOffsets();
    SignedFields(i.moveX);
    SignedFields(i.moveY);
    SignedFields(i.yaw);
    SignedFields(i.pitch);
    hide Pack, Field, Offset, FromLE, Sum, Pow256, InWidths, Unsigned;
  }

  lemma PositionLayout(i: Input)
    ensures var b := Pack(PositionFields(i), POSITION_WIDTHS);
            && |b| == 16
            && Field(b, 0, 4) == i.posX && Field(b, 4, 4) == i.posY && Field(b, 8, 4) == i.posZ
            && Field(b, 12, 1) == i.hasPos && Field(b, 13, 1) == 0 && Field(b, 14, 1) == 0 && Field(b, 15, 1) == 0
  {
    InputFieldsFit(i);
    FieldsAt(PositionFields(i), POSITION_WIDTHS, []);
    PositionOffsets();
    assert Pack(PositionFields(i), POSITION_WIDTHS) + [] == Pack(PositionFields(i), POSITION_WIDTHS);
    hide Pack, Field, Offset, FromLE, Sum, Pow256, InWidths;
  }

  /** A field of what follows stands as much further on. */
  lemma Shift(a: seq<byte>, b: seq<byte>)
    ensures forall from: nat, size: nat :: from + size <= |b| ==>
              Field(a + b, |a| + from, size) == Field(b, from, size)
  {
    forall from: nat, size: nat | from + size <= |b|
      ensures Field(a + b, |a| + from, size) == Field(b, from, size)
    {
      assert (a + b)[|a| + from..|a| + from + size] == b[from..from + size];
    }
  }

  lemma InputOffsets()
    ensures Sum(INPUT_WIDTHS) == 16
    ensures Offset(INPUT_WIDTHS, 0) == 0 && Offset(INPUT_WIDTHS, 1) == 4 && Offset(INPUT_WIDTHS, 2) == 8
    ensures Offset(INPUT_WIDTHS, 3) == 9 && Offset(INPUT_WIDTHS, 4) == 10 && Offset(INPUT_WIDTHS, 5) == 12
    ensures Offset(INPUT_WIDTHS, 6) == 14
  {
  }

  lemma PositionOffsets()
    ensures Sum(POSITION_WIDTHS) == 16
    ensures Offset(POSITION_WIDTHS, 0) == 0 && Offset(POSITION_WIDTHS, 1) == 4 && Offset(POSITION_WIDTHS, 2) == 8
    ensures Offset(POSITION_WIDTHS, 3) == 12 && Offset(POSITION_WIDTHS, 4) == 13 && Offset(POSITION_WIDTHS, 5) == 14
    ensures Offset(POSITION_WIDTHS, 6) == 15
  {
  }

  // ---------- snapshots ----------

  lemma SnapshotLayout(s: Snapshot)
    ensures var b := EncodeSnapshot(s);
            && |b| == 8 + 34 * |s.players|
            && Field(b, 0, 4) == s.serverTick && Field(b, 4, 1) == |s.players| % 0x100
            && Field(b, 5, 1) == 0 && Field(b, 6, 1) == 0 && Field(b, 7, 1) == 0
            && forall k :: 0 <= k < |s.players| ==> b[8 + 34 * k..8 + 34 * k + 34] == EncodePlayers([s.players[k]])
  {
    SnapshotFieldsFit(s);
    SnapshotLength(s);
    FieldsAt(SnapshotFields(s), SNAPSHOT_WIDTHS, EncodePlayers(s.players));
    SnapshotOffsets();
    var b, ps := EncodeSnapshot(s), EncodePlayers(s.players);
    forall k | 0 <= k < |s.players|
      ensures b[8 + 34 * k..8 + 34 * k + 34] == EncodePlayers([s.players[k]])
    {
      PlayersLength(s.players);
      PlayerAt(s.players, k);
      assert b[8..] == ps && b[8 + 34 * k..8 + 34 * k + 34] == ps[34 * k..34 * k + 34];
    }
    hide Pack, Field, Offset, FromLE, Sum, EncodePlayers, Pow256;
  }

  lemma {:induction false} PlayerAt(ps: seq<PlayerSnapshot>, k: nat)
    requires k < |ps|
    ensures 34 * k + 34 <= |EncodePlayers(ps)|
    ensures EncodePlayers(ps)[34 * k..34 * k + 34] == EncodePlayers([ps[k]])
    decreases |ps|
  {
    hide Pack, PlayerFields;
    PlayersLength(ps);
    PlayersLength([ps[0]]);
    var first, more := EncodePlayers([ps[0]]), EncodePlayers(ps[1..]);
    assert [ps[0]][1..] == [] && EncodePlayers(ps) == first + more;
    if k > 0 {
      PlayerAt(ps[1..], k - 1);
      assert (first + more)[34 * k..34 * k + 34] == more[34 * (k - 1)..34 * (k - 1) + 34];
    }
  }

  lemma PlayerLayout(p: PlayerSnapshot)
    ensures var b := EncodePlayers([p]);
            && |b| == 34
            && Field(b, 0, 4) == p.playerId && Field(b, 4, 4) == p.x && Field(b, 8, 4) == p.y && Field(b, 12, 4) == p.z
            && Field(b, 16, 2) == p.yaw % 0x1_0000 && Field(b, 18, 2) == p.pitch % 0x1_0000
            && Field(b, 20, 2) == p.hp && Field(b, 22, 2) == p.stateFlags && Field(b, 24, 4) == p.lastInputSeq
            && Field(b, 28, 1) == p.weaponId && Field(b, 29, 1) == p.pad0
            && Field(b, 30, 2) == p.kills && Field(b, 32, 2) == p.deaths
  {
    PlayerOfFields(p);
    SignedFields(p.yaw);
    SignedFields(p.pitch);
    PlayerRecord(PlayerFields(p));
    assert EncodePlayers([p]) == Pack(PlayerFields(p), PLAYER_WIDTHS) + EncodePlayers([]);
    hide Pack, Field, PlayerOf, Pow256, InWidths, Unsigned;
  }

  lemma PlayerRecord(f: seq<nat>)
    requires InWidths(f, PLAYER_WIDTHS)
    ensures var b := Pack(f, PLAYER_WIDTHS) + [];
            && |b| == 34
            && Field(b, 0, 4) == f[0] && Field(b, 4, 4) == f[1] && Field(b, 8, 4) == f[2] && Field(b, 12, 4) == f[3]
            && Field(b, 16, 2) == f[4] && Field(b, 18, 2) == f[5] && Field(b, 20, 2) == f[6] && Field(b, 22, 2) == f[7]
            && Field(b, 24, 4) == f[8] && Field(b, 28, 1) == f[9] && Field(b, 29, 1) == f[10]
            && Field(b, 30, 2) == f[11] && Field(b, 32, 2) == f[12]
  {
    FieldsAt(f, PLAYER_WIDTHS, []);
    PlayerOffsets(PLAYER_WIDTHS);
    hide Pack, Field, Offset, FromLE, Sum, Pow256, InWidths;
  }

  lemma SnapshotOffsets()
    ensures Sum(SNAPSHOT_WIDTHS) == 8
    ensures Offset(SNAPSHOT_WIDTHS, 0) == 0 && Offset(SNAPSHOT_WIDTHS, 1) == 4 && Offset(SNAPSHOT_WIDTHS, 2) == 5
    ensures Offset(SNAPSHOT_WIDTHS, 3) == 6 && Offset(SNAPSHOT_WIDTHS, 4) == 7
  {
  }

  lemma PlayerOffsets(w: seq<nat>)
    requires w == PLAYER_WIDTHS
    ensures Sum(w) == 34
    ensures Offset(w, 0) == 0 && Offset(w, 1) == 4 && Offset(w, 2) == 8 && Offset(w, 3) == 12
    ensures Offset(w, 4) == 16 && Offset(w, 5) == 18 && Offset(w, 6) == 20 && Offset(w, 7) == 22
    ensures Offset(w, 8) == 24 && Offset(w, 9) == 28 && Offset(w, 10) == 29 && Offset(w, 11) == 30
    ensures Offset(w, 12) == 32
  {
    PlayerWidthsSum();
    hide Sum;
    assert Offset(w, 0) == 0 && Offset(w, 1) == 4 && Offset(w, 2) == 8 && Offset(w, 3) == 12;
    assert Offset(w, 4) == 16 && Offset(w, 5) == 18 && Offset(w, 6) == 20 && Offset(w, 7) == 22;
    assert Offset(w, 8) == 24 && Offset(w, 9) == 28 && Offset(w, 10) == 29 && Offset(w, 11) == 30;
    assert Offset(w, 12) == 32;
  }

  // ---------- events, chats, profiles ----------

  lemma EventLayout(e: GameEvent)
    ensures var b := EncodeEvent(e);
            && |b| == 16
            && Field(b, 0, 1) == e.kind && Field(b, 1, 1) == 0 && Field(b, 2, 1) == 0 && Field(b, 3, 1) == 0
            && Field(b, 4, 4) == e.targetId && Field(b, 8, 4) == e.value % 0x1_0000_0000 && Field(b, 12, 4) == e.extra
  {
    EventOfFields(e);
    Powers();
    FieldsAt(EventFields(e), EVENT_WIDTHS, []);
    EventOffsets();
    assert EncodeEvent(e) == Pack(EventFields(e), EVENT_WIDTHS) + [];
    hide Pack, Field, Offset, FromLE, Sum, EventOf, Pow256;
  }

  lemma EventOffsets()
    ensures Sum(EVENT_WIDTHS) == 16
    ensures Offset(EVENT_WIDTHS, 0) == 0 && Offset(EVENT_WIDTHS, 1) == 1 && Offset(EVENT_WIDTHS, 2) == 2
    ensures Offset(EVENT_WIDTHS, 3) == 3 && Offset(EVENT_WIDTHS, 4) == 4 && Offset(EVENT_WIDTHS, 5) == 8
    ensures Offset(EVENT_WIDTHS, 6) == 12
  {
  }

  lemma ChatLayout(c: Chat)
    ensures var b, n := EncodeChat(c), if |c.text| < 200 then |c.text| else 200;
            |b| == 6 + n && Field(b, 0, 4) == c.senderId && Field(b, 4, 2) == n && b[6..] == c.text[..n]
  {
    Powers();
    var t := Truncated(c.text, CHAT_LIMIT);
    FieldsAt([c.senderId, |t|], [4, 2], t);
    assert Sum([4, 2]) == 6 && Offset([4, 2], 0) == 0 && Offset([4, 2], 1) == 4;
    hide Pack, Field, FromLE;
  }

  lemma ProfileLayout(name: seq<byte>)
    ensures var b, n := EncodeProfile(name), if |name| < 32 then |name| else 32;
            |b| == 2 + n && Field(b, 0, 2) == n && b[2..] == name[..n]
  {
    Powers();
    var t := Truncated(name, NAME_LIMIT);
    FieldsAt([|t|], [2], t);
    assert Sum([2]) == 2 && Offset([2], 0) == 0;
    hide Pack, Field, FromLE;
  }

  // ---------- what is accepted ----------

  lemma {:induction false} FieldRead(b: seq<byte>, widths: seq<nat>, i: nat)
    requires Unpack(b, widths).Some? && i < |widths|
    ensures var from := Offset(widths, i);
            from + widths[i] <= |b| && Unpack(b, widths).value.fields[i] == Field(b, from, widths[i])
    decreases |widths|
  {
    hide FromLE, Unpack, Sum;
    UnpackFirst(b, widths);
    if i == 0 {
      assert b[..widths[0]] == b[0..widths[0]] && Offset(widths, 0) == 0;
    } else {
      hide Offset;
      FieldRead(b[widths[0]..], widths[1..], i - 1);
      OffsetShifts(widths, i);
      SliceShifts(b, widths[0], Offset(widths[1..], i - 1), widths[i]);
    }
  }

  lemma SliceShifts(b: seq<byte>, skip: nat, from: nat, size: nat)
    requires skip + from + size <= |b|
    ensures b[skip + from..skip + from + size] == b[skip..][from..from + size]
  {
  }

  lemma UnpackFirst(b: seq<byte>, widths: seq<nat>)
    requires Unpack(b, widths).Some? && widths != []
    ensures |b| >= widths[0] && Unpack(b[widths[0]..], widths[1..]).Some?
    ensures Unpack(b, widths).value.fields ==
            [FromLE(b[..widths[0]])] + Unpack(b[widths[0]..], widths[1..]).value.fields
  {
    hide FromLE, Pow256;
  }

  /** A datagram is a packet exactly if the fixed part is all there with the right magic number and version, and the
      payload it announces is there as well; the type, and what is reserved, are not looked at. */
  lemma PacketAccepted(b: seq<byte>)
    ensures DecodePacket(b).Some? <==>
            |b| >= 28 && Field(b, 0, 4) == 0x4C4E4750 && Field(b, 4, 1) == 1 && |b| >= 28 + Field(b, 24, 2)
  {
    UnpackNeeds(b, PACKET_WIDTHS);
    PacketOffsets();
    if |b| >= 28 {
      FieldRead(b, PACKET_WIDTHS, 0);
      FieldRead(b, PACKET_WIDTHS, 1);
      FieldRead(b, PACKET_WIDTHS, 8);
    }
    hide Unpack, Field, Offset, Sum, FromLE, InWidths;
  }

  /** An input of any sender: its base fields from the first 16 bytes, a position only from a whole second part. */
  lemma InputRead(b: seq<byte>, out: Input)
    ensures DecodeInput(b, out).Some? <==> |b| >= 16
    ensures |b| >= 16 ==>
              var i := DecodeInput(b, out).value;
              && i.inputSeq == Field(b, 0, 4) && i.clientTick == Field(b, 4, 4)
              && i.moveX % 0x100 == Field(b, 8, 1) && i.moveY % 0x100 == Field(b, 9, 1)
              && i.yaw % 0x1_0000 == Field(b, 10, 2) && i.pitch % 0x1_0000 == Field(b, 12, 2)
              && i.buttons == Field(b, 14, 2)
    ensures 16 <= |b| < 32 ==>
              DecodeInput(b, out).value ==
              DecodeInput(b, out).value.(posX := out.posX, posY := out.posY, posZ := out.posZ, hasPos := 0)
  {
    OldStyleInput(b, out);
    if |b| >= 16 {
      BaseRead(b, out);
      PositionAlone(BaseInput(Unpack(b, INPUT_WIDTHS).value.fields, out));
    }
    hide Unpack, Field, FromLE, BaseInput, Signed;
  }

  lemma PositionAlone(i: Input)
    ensures forall f :: InWidths(f, POSITION_WIDTHS) ==>
              WithPosition(i, f) == i.(posX := WithPosition(i, f).posX, posY := WithPosition(i, f).posY,
                                       posZ := WithPosition(i, f).posZ, hasPos := WithPosition(i, f).hasPos)
  {
  }

  lemma BaseRead(b: seq<byte>, out: Input)
    requires |b| >= 16
    ensures Unpack(b, INPUT_WIDTHS).Some?
    ensures var i := BaseInput(Unpack(b, INPUT_WIDTHS).value.fields, out);
            && i.inputSeq == Field(b, 0, 4) && i.clientTick == Field(b, 4, 4)
            && i.moveX % 0x100 == Field(b, 8, 1) && i.moveY % 0x100 == Field(b, 9, 1)
            && i.yaw % 0x1_0000 == Field(b, 10, 2) && i.pitch % 0x1_0000 == Field(b, 12, 2)
            && i.buttons == Field(b, 14, 2)
            && i.posX == out.posX && i.posY == out.posY && i.posZ == out.posZ && i.hasPos == 0
  {
    UnpackNeeds(b, INPUT_WIDTHS);
    InputOffsets();
    Powers();
    var f := Unpack(b, INPUT_WIDTHS).value.fields;
    forall k | 0 <= k < |INPUT_WIDTHS|
      ensures var from := Offset(INPUT_WIDTHS, k);
              from + INPUT_WIDTHS[k] <= |b| && f[k] == Field(b, from, INPUT_WIDTHS[k])
    {
      FieldRead(b, INPUT_WIDTHS, k);
    }
    assert forall k :: 0 <= k < |INPUT_WIDTHS| ==> f[k] < Pow256(INPUT_WIDTHS[k]);
    SignedRead(f[2]);
    SignedRead(f[3]);
    SignedRead(f[4]);
    SignedRead(f[5]);
    hide Unpack, Field, Offset, Sum, FromLE, Pow256, Signed;
  }

  lemma EventAccepted(b: seq<byte>)
    ensures DecodeEvent(b).Some? <==> |b| >= 16
  {
    EventOffsets();
    UnpackNeeds(b, EVENT_WIDTHS);
    hide Unpack, Sum, EventOf;
  }

  lemma ChatAccepted(b: seq<byte>)
    ensures DecodeChat(b).Some? <==> |b| >= 6 && |b| >= 6 + Field(b, 4, 2)
  {
    UnpackNeeds(b, [4, 2]);
    assert Sum([4, 2]) == 6 && Offset([4, 2], 1) == 4;
    if |b| >= 6 {
      FieldRead(b, [4, 2], 1);
    }
    hide Unpack, Field, Offset, Sum, FromLE;
  }

  lemma ProfileAccepted(b: seq<byte>)
    ensures DecodeProfile(b).Some? <==> |b| >= 2 && |b| >= 2 + Field(b, 0, 2)
  {
    UnpackNeeds(b, [2]);
    assert Sum([2]) == 2 && Offset([2], 0) == 0;
    if |b| >= 2 {
      FieldRead(b, [2], 0);
    }
    hide Unpack, Field, Offset, Sum, FromLE;
  }

  lemma SnapshotAccepted(b: seq<byte>)
    ensures DecodeSnapshot(b).Some? <==> |b| >= 8 && |b| >= 8 + 34 * Field(b, 4, 1)
  {
    SnapshotOffsets();
    UnpackNeeds(b, SNAPSHOT_WIDTHS);
    if |b| >= 8 {
      FieldRead(b, SNAPSHOT_WIDTHS, 1);
      PlayersNeed(b[8..], Field(b, 4, 1));
    }
    hide Unpack, Field, Offset, Sum, FromLE, DecodePlayers;
  }

  lemma {:induction false} PlayersNeed(b: seq<byte>, count: nat)
    ensures DecodePlayers(b, count).Some? <==> |b| >= 34 * count
    decreases count
  {
    hide Unpack, PlayerOf, Sum;
    if count > 0 {
      UnpackNeeds(b, PLAYER_WIDTHS);
      PlayerWidthsSum();
      if |b| >= 34 {
        PlayersNeed(b[34..], count - 1);
      }
    }
  }
}
