/** The packet decoder: turns a framed 5-byte packet back into a message. */
module Decoder {
  import opened Common
  import Encoder

  /** Reads address, command and data from positions 1, 2 and 3. The ID is
      built from the address and the command name; the channel metadata is
      left unset. A command byte missing from the table is `UnknownCommand`
      (so is a packet too short to hold one). */
  function Decode(t: CommandTable, p: seq<Byte>): (r: Result<Message>)
    ensures r.Err? <==> |p| < 3 || p[2] !in t.toName
    ensures r.Err? ==> r.error == UnknownCommand
    ensures r.Ok? ==>
      && r.value.id == CommandId(p[1], t.toName[p[2]])
      && r.value.meta.address == Some(p[1])
      && r.value.meta.commandName == Some(t.toName[p[2]])
      && r.value.meta.channel.None?
      && !r.value.meta.query
    ensures r.Ok? && |p| > 3 ==> r.value.payload == Some(p[3])
  {
    if |p| < 3 || p[2] !in t.toName then Err(UnknownCommand)
    else
      var address := p[1];
      var commandName := t.toName[p[2]];
      var payload := if |p| > 3 then Some(p[3] as int) else None;
      Ok(Message(CommandId(address, commandName), payload,
                 FreshMetadata.(address := Some(address), commandName := Some(commandName))))
  }

  /** `ProtocolDecoderPipeline.receive`: decode, then stamp the time given by
      the injected clock (`now`). */
  function Receive(t: CommandTable, p: seq<Byte>, now: int): (r: Result<Message>)
    ensures r.Ok? <==> Decode(t, p).Ok?
    ensures r.Ok? ==> r.value.meta.timestamp == Some(now) && r.value.id == Decode(t, p).value.id
    ensures r.Ok? ==> r.value.payload == Decode(t, p).value.payload
    ensures r.Ok? ==> r.value.meta == Decode(t, p).value.meta.(timestamp := Some(now))
  {
    match Decode(t, p)
    case Ok(m) => Ok(m.(meta := m.meta.(timestamp := Some(now))))
    case Err(e) => Err(e)
  }

  /** Message round trip: decoding the encoding of a message whose address
      and payload are bytes returns its address, command name and payload
      (null reads back as 0x00). */
  lemma DecodeEncode(t: CommandTable, m: Message)
    requires t.Valid()
    requires m.meta.commandName.Some? && m.meta.commandName.value in t.toByte
    requires m.meta.address.Some? && 0 <= m.meta.address.value < 256
    requires m.payload.None? || 0 <= m.payload.value < 256
    ensures Encoder.Encode(t, m).Ok?
    ensures var d := Decode(t, Encoder.Encode(t, m).value);
      && d.Ok?
      && d.value.meta.address == m.meta.address
      && d.value.meta.commandName == m.meta.commandName
      && d.value.payload == Some(m.payload.GetOr(0x00))
      && d.value.id == CommandId(m.meta.address.value, m.meta.commandName.value)
  {
  }

  /** Packet round trip: re-encoding a decoded packet reproduces it. */
  lemma EncodeDecode(t: CommandTable, p: seq<Byte>)
    requires t.Valid()
    requires |p| == 5 && p[0] == FramingStart && p[4] == FramingEnd
    requires p[2] in t.toName
    ensures Decode(t, p).Ok? && Encoder.Encode(t, Decode(t, p).value) == Ok(p)
  {
    var m := Decode(t, p).value;
    assert Encoder.AddressByte(m) == p[1] && Encoder.DataByte(m) == p[3];
    assert t.toByte[t.toName[p[2]]] == p[2];
    assert p == [p[0], p[1], p[2], p[3], p[4]];
  }

  /** The clock only stamps the time: a received packet re-encodes to the
      same bytes, and two receptions of one packet differ in the timestamp
      alone. */
  lemma ReceiveOnlyStamps(t: CommandTable, p: seq<Byte>, now: int, later: int)
    requires t.Valid()
    requires |p| == 5 && p[0] == FramingStart && p[4] == FramingEnd
    requires p[2] in t.toName
    ensures Receive(t, p, now).Ok? && Encoder.Encode(t, Receive(t, p, now).value) == Ok(p)
    ensures Receive(t, p, later).value
         == Receive(t, p, now).value.(meta := Receive(t, p, now).value.meta.(timestamp := Some(later)))
  {
    EncodeDecode(t, p);
    Encoder.EncodeIgnoresIdAndFlags(t, Decode(t, p).value, Decode(t, p).value.id, None, false, Some(now));
  }

  /** Golden case: `[0xFE, 0x02, 0x53, 0x88, 0xFD]` when 0x53 is the byte of
      the read-bottom-intensity command. */
  lemma GoldenPacket(t: CommandTable)
    requires 0x53 in t.toName && t.toName[0x53] == PulseAmpBRd
    ensures var d := Decode(t, [0xFE, 0x02, 0x53, 0x88, 0xFD]);
      && d.Ok?
      && d.value.meta.address == Some(0x02)
      && d.value.payload == Some(0x88)
      && d.value.meta.commandName == Some(PulseAmpBRd)
      && d.value.id == CommandId(0x02, PulseAmpBRd)
  {
  }

  /** A command byte outside the table yields no message. */
  lemma UnknownByteRejected(t: CommandTable, p: seq<Byte>)
    requires |p| == 5 && p[2] !in t.toName
    ensures Decode(t, p) == Err(UnknownCommand)
    ensures forall now :: Receive(t, p, now) == Err(UnknownCommand)
  {
  }
}
