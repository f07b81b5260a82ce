/** Shared vocabulary of the lamp-bus protocol: bytes, the framing constants,
    the command and channel names, the command byte table, message IDs and
    messages, and the small failure-carrying datatypes every layer returns. */
module Common {

  type Byte = x: int | 0 <= x < 256

  /** First and last byte of every wire packet. */
  const FramingStart: Byte := 0xFE
  const FramingEnd: Byte := 0xFD

  /** Address 0xFF reaches every lamp on the bus; 0x00 is the master controller. */
  const Broadcast: int := 0xFF
  const Master: int := 0x00

  /** `Buffer.from` keeps the low eight bits of each integer entry (`x & 0xFF`),
      which for integers is the non-negative remainder modulo 256. */
  function ToByte(x: int): (b: Byte)
    ensures (b - x) % 256 == 0
    ensures 0 <= x < 256 ==> b == x
  {
    x % 256
  }

  datatype Option<T> = None | Some(value: T)
  {
    /** The JavaScript `??` operator: the carried value, or `default` for null/undefined. */
    function GetOr(default: T): T
    {
      match this
      case Some(v) => v
      case None => default
    }
  }

  datatype Error =
    | UnknownCommand   // a command name or byte missing from the table
    | OutOfRange       // a value outside the range a channel declares
    | UnexpectedReply  // an inbound message that does not answer the pending query

  datatype Result<T> = Ok(value: T) | Err(error: Error)

  /** The 22 command names of the bus protocol. */
  datatype Command =
    | PulseAmpRd | PulseAmpSet
    | PulseAmpBRd | PulseAmpBSet
    | PulseAmpTRd | PulseAmpTSet
    | PulseAmpTbRd
    | StrbPwRd | StrbPwSet
    | StrbDelayRd | StrbDelaySet
    | RdMode | SetMode
    | RdVersion
    | ReadErrors
    | TriggerNow
    | JmpBoot | JmpApp
    | OffsetRd | ScaleRd | EngrRd
    | SetAddress

  /** The 14 application-level channels. */
  datatype Channel =
    | LampAddress
    | PulseIntensityBottomIr
    | PulseIntensityTopWhite
    | StrobePulseWidth
    | StrobePulseDelay
    | HealthStatus
    | TriggerStrobe
    | LampFirmwareVersion
    | JumpToBootloader
    | JumpToApplication
    | CalibrationOffset
    | CalibrationScale
    | EngineeringData
    | Options

  /** The command byte table: the forward map from names to bytes and the
      reverse map from bytes to names, as two lookup tables. */
  datatype CommandTable = CommandTable(toByte: map<Command, Byte>, toName: map<Byte, Command>)
  {
    /** The two maps are each other's inverse, so both are injective. */
    ghost predicate Valid()
    {
      && (forall c :: c in toByte ==> toByte[c] in toName && toName[toByte[c]] == c)
      && (forall b :: b in toName ==> toName[b] in toByte && toByte[toName[b]] == b)
    }
  }

  /** A message ID names either an (address, channel) pair, as the application
      layers use, or an (address, command) pair, as the packet decoder builds. */
  datatype MessageId =
    | ChannelId(address: int, channel: Channel)
    | CommandId(address: int, command: Command)

  /** Message metadata; `None` stands for a field that was never set. */
  datatype Metadata = Metadata(
    address: Option<int>,
    commandName: Option<Command>,
    channel: Option<Channel>,
    query: bool,
    timestamp: Option<int>)

  /** Metadata of a freshly constructed message. */
  const FreshMetadata := Metadata(None, None, None, false, None)

  datatype Message = Message(id: MessageId, payload: Option<int>, meta: Metadata)

  /** A well-formed wire packet: `[0xFE, ADDRESS, COMMAND, DATA, 0xFD]` where
      ADDRESS and COMMAND are neither delimiter; DATA is unconstrained. */
  predicate IsPacket(p: seq<Byte>)
  {
    && |p| == 5
    && p[0] == FramingStart
    && p[1] != FramingStart && p[1] != FramingEnd
    && p[2] != FramingStart && p[2] != FramingEnd
    && p[4] == FramingEnd
  }

  /** The documented sample packet: set slave #2 light intensity to 53%. */
  const SamplePacket: seq<Byte> := [0xFE, 0x02, 0x83, 0x88, 0xFD]

  lemma DelimitersDistinct()
    ensures FramingStart == 0xFE && FramingEnd == 0xFD
    ensures FramingStart != FramingEnd
  {
  }

  /** The sample packet sets lamp 2's intensity to 53%: data 0x88 is 53% of
      0xFF to the nearest percent. */
  lemma SamplePacketWellFormed()
    ensures IsPacket(SamplePacket)
    ensures SamplePacket[1] == 0x02
    ensures 52 * 0xFF * 2 + 0xFF <= 100 * (SamplePacket[3] as int) * 2 < 53 * 0xFF * 2 + 0xFF
  {
  }

  /** Only positions 0, 1, 2 and 4 are constrained: the data byte may be
      either delimiter and the packet stays well-formed. */
  lemma DataByteUnconstrained(p: seq<Byte>, d: Byte)
    requires IsPacket(p)
    ensures IsPacket(p[3 := d])
    ensures IsPacket(p[3 := FramingStart]) && IsPacket(p[3 := FramingEnd])
  {
  }
}
