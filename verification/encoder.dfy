/** The packet encoder: turns a message into its 5-byte wire packet. */
module Encoder {
  import opened Common

  /** The address byte: the metadata address, truncated to eight bits by
      `Buffer.from`; an unset address becomes 0x00. */
  function AddressByte(m: Message): Byte
  {
    ToByte(m.meta.address.GetOr(0))
  }

  /** The data byte: a null payload is sent as 0x00. */
  function DataByte(m: Message): Byte
  {
    ToByte(m.payload.GetOr(0x00))
  }

  /** `[START, address, command byte, data, END]`, or `UnknownCommand` when
      the command name is unset or missing from the table. */
  function Encode(t: CommandTable, m: Message): (r: Result<seq<Byte>>)
    ensures r.Err? <==> m.meta.commandName.None? || m.meta.commandName.value !in t.toByte
    ensures r.Err? ==> r.error == UnknownCommand
    ensures r.Ok? ==> |r.value| == 5 && r.value[0] == FramingStart && r.value[4] == FramingEnd
    ensures r.Ok? ==> r.value[2] in t.toByte.Values
    ensures r.Ok? ==>
      && (r.value[1] - m.meta.address.GetOr(0)) % 256 == 0
      && r.value[2] == t.toByte[m.meta.commandName.value]
      && (r.value[3] - m.payload.GetOr(0x00)) % 256 == 0
  {
    match m.meta.commandName
    case None => Err(UnknownCommand)
    case Some(c) =>
      if c !in t.toByte then Err(UnknownCommand)
      else Ok([FramingStart, AddressByte(m), t.toByte[c], DataByte(m), FramingEnd])
  }

  /** `ProtocolEncoderPipeline.receive`: the packets pushed downstream for
      one message. */
  function Receive(t: CommandTable, m: Message): (r: Result<seq<seq<Byte>>>)
    ensures r.Ok? ==> |r.value| == 1 && |r.value[0]| == 5
    ensures r.Err? <==> Encode(t, m).Err?
  {
    match Encode(t, m)
    case Ok(p) => Ok([p])
    case Err(e) => Err(e)
  }

  /** A null payload is encoded exactly as payload 0x00. */
  lemma NullPayloadIsZero(t: CommandTable, m: Message)
    ensures Encode(t, m.(payload := None)) == Encode(t, m.(payload := Some(0x00)))
    ensures Encode(t, m.(payload := None)).Ok? ==> Encode(t, m.(payload := None)).value[3] == 0x00
  {
  }

  /** Encoding reads only the address, command name and payload: the message
      ID, channel, query flag and timestamp do not reach the wire. */
  lemma EncodeIgnoresIdAndFlags(t: CommandTable, m: Message, id: MessageId, ch: Option<Channel>, q: bool, ts: Option<int>)
    ensures Encode(t, m.(id := id, meta := m.meta.(channel := ch, query := q, timestamp := ts))) == Encode(t, m)
  {
  }

  /** Golden case: address 0x02, the set-bottom-intensity command and
      payload 0x88. */
  lemma GoldenPacket(t: CommandTable)
    requires PulseAmpBSet in t.toByte
    ensures var m := Message(ChannelId(0x02, PulseIntensityBottomIr), Some(0x88),
                             Metadata(Some(0x02), Some(PulseAmpBSet), Some(PulseIntensityBottomIr), false, None));
      Encode(t, m) == Ok([0xFE, 0x02, t.toByte[PulseAmpBSet], 0x88, 0xFD])
      && Receive(t, m) == Ok([[0xFE, 0x02, t.toByte[PulseAmpBSet], 0x88, 0xFD]])
  {
  }

  /** Numbers are stored modulo 256: address 0x102 goes on the wire as
      0x02, and payload -1 as 0xFF. */
  lemma WideValuesTruncated(t: CommandTable)
    requires PulseAmpBSet in t.toByte
    ensures var m := Message(ChannelId(0x102, PulseIntensityBottomIr), Some(-1),
                             FreshMetadata.(address := Some(0x102), commandName := Some(PulseAmpBSet)));
      Encode(t, m).Ok? && Encode(t, m).value[1] == 0x02 && Encode(t, m).value[3] == 0xFF
  {
  }
}
