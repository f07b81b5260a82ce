/** The channel abstraction: application channels become bus commands, one
    command for reads (queries) and one for writes, and every write to a
    single lamp is followed by a read-back query. */
module Abstraction {
  import opened Common

  /** `commandChannelToReadCommand`; `None` is a channel that cannot be read. */
  function ReadCommand(ch: Channel): (c: Option<Command>)
    ensures c.Some? ==> Serves(c.value) == Some((ch, true))
  {
    match ch
    case LampAddress => None
    case PulseIntensityBottomIr => Some(PulseAmpBRd)
    case PulseIntensityTopWhite => Some(PulseAmpTRd)
    case StrobePulseWidth => Some(StrbPwRd)
    case StrobePulseDelay => Some(StrbDelayRd)
    case HealthStatus => Some(ReadErrors)
    case TriggerStrobe => None
    case LampFirmwareVersion => Some(RdVersion)
    case JumpToBootloader => None
    case JumpToApplication => None
    case CalibrationOffset => Some(OffsetRd)
    case CalibrationScale => Some(ScaleRd)
    case EngineeringData => Some(EngrRd)
    case Options => None
  }

  /** `commandChannelToWriteCommand`; `None` is a channel that cannot be written. */
  function WriteCommand(ch: Channel): (c: Option<Command>)
    ensures c.Some? ==> Serves(c.value) == Some((ch, false))
  {
    match ch
    case LampAddress => Some(SetAddress)
    case PulseIntensityBottomIr => Some(PulseAmpBSet)
    case PulseIntensityTopWhite => Some(PulseAmpTSet)
    case StrobePulseWidth => Some(StrbPwSet)
    case StrobePulseDelay => Some(StrbDelaySet)
    case HealthStatus => None
    case TriggerStrobe => Some(TriggerNow)
    case LampFirmwareVersion => None
    case JumpToBootloader => Some(JmpBoot)
    case JumpToApplication => Some(JmpApp)
    case CalibrationOffset => None
    case CalibrationScale => None
    case EngineeringData => None
    case Options => Some(SetMode)
  }

  /** The table a message consults: reads for queries, writes otherwise. */
  function CommandFor(ch: Channel, query: bool): Option<Command>
  {
    if query then ReadCommand(ch) else WriteCommand(ch)
  }

  /** Reverse reading of the two tables, written independently of them: the
      channel and direction each command serves. Commands that appear in
      neither table serve none. */
  function Serves(c: Command): Option<(Channel, bool)>
  {
    match c
    case PulseAmpBRd => Some((PulseIntensityBottomIr, true))
    case PulseAmpTRd => Some((PulseIntensityTopWhite, true))
    case StrbPwRd => Some((StrobePulseWidth, true))
    case StrbDelayRd => Some((StrobePulseDelay, true))
    case ReadErrors => Some((HealthStatus, true))
    case RdVersion => Some((LampFirmwareVersion, true))
    case OffsetRd => Some((CalibrationOffset, true))
    case ScaleRd => Some((CalibrationScale, true))
    case EngrRd => Some((EngineeringData, true))
    case SetAddress => Some((LampAddress, false))
    case PulseAmpBSet => Some((PulseIntensityBottomIr, false))
    case PulseAmpTSet => Some((PulseIntensityTopWhite, false))
    case StrbPwSet => Some((StrobePulseWidth, false))
    case StrbDelaySet => Some((StrobePulseDelay, false))
    case TriggerNow => Some((TriggerStrobe, false))
    case JmpBoot => Some((JumpToBootloader, false))
    case JmpApp => Some((JumpToApplication, false))
    case SetMode => Some((Options, false))
    case _ => None
  }

  /** The tables are injective and disjoint: a command found for a channel
      and direction serves exactly that channel and direction, and a command
      serving one is the one the tables give for it. */
  lemma TablesInvert(ch: Channel, query: bool, c: Command)
    ensures CommandFor(ch, query) == Some(c) <==> Serves(c) == Some((ch, query))
  {
  }

  /** Every channel can be read, written or both. */
  lemma EveryChannelReachable(ch: Channel)
    ensures ReadCommand(ch).Some? || WriteCommand(ch).Some?
    ensures ReadCommand(ch).None? ==> ch in {LampAddress, TriggerStrobe, JumpToBootloader, JumpToApplication, Options}
    ensures WriteCommand(ch).None? ==>
      ch in {HealthStatus, LampFirmwareVersion, CalibrationOffset, CalibrationScale, EngineeringData}
  {
  }

  /** `sendDownstream`: look up the command for the message's direction; with
      none, nothing is forwarded (and no error is raised); otherwise forward
      the message stamped with the address and channel of its ID and the
      command found. */
  function SendDownstream(m: Message): (r: Option<Message>)
    requires m.id.ChannelId?
    ensures r.None? <==> CommandFor(m.id.channel, m.meta.query).None?
    ensures r.Some? ==>
      && r.value.id == m.id
      && r.value.payload == m.payload
      && r.value.meta.address == Some(m.id.address)
      && r.value.meta.channel == Some(m.id.channel)
      && r.value.meta.commandName.Some?
      && Serves(r.value.meta.commandName.value) == Some((m.id.channel, m.meta.query))
      && r.value.meta.query == m.meta.query
      && r.value.meta.timestamp == m.meta.timestamp
  {
    var ch := m.id.channel;
    match CommandFor(ch, m.meta.query)
    case None => None
    case Some(c) =>
      TablesInvert(ch, m.meta.query, c);
      Some(m.(meta := m.meta.(address := Some(m.id.address), commandName := Some(c), channel := Some(ch))))
  }

  /** The read-back query built after a write: same ID, payload 0x00, fresh
      metadata with the query flag set. */
  function ReadBack(m: Message): (q: Message)
    ensures q.id == m.id && q.payload == Some(0x00)
    ensures q.meta.query && q.meta.address.None? && q.meta.channel.None? && q.meta.commandName.None?
  {
    Message(m.id, Some(0x00), FreshMetadata.(query := true))
  }

  function ToSeq(o: Option<Message>): (s: seq<Message>)
    ensures |s| <= 1 && (o.None? <==> s == []) && (o.Some? ==> s == [o.value])
  {
    match o
    case None => []
    case Some(x) => [x]
  }

  /** `AbstractionEncoderPipeline.receive`: the messages forwarded downstream
      for one application message, in order. Queries and writes to the
      broadcast address are forwarded once; any other write is forwarded and
      then followed by its read-back query. */
  function Receive(m: Message): (r: seq<Message>)
    requires m.id.ChannelId?
    ensures m.meta.query || m.id.address == Broadcast ==> r == ToSeq(SendDownstream(m))
    ensures !m.meta.query && m.id.address != Broadcast ==>
      r == ToSeq(SendDownstream(m)) + ToSeq(SendDownstream(ReadBack(m)))
    ensures |r| <= 2
    ensures forall i :: 0 <= i < |r| ==> r[i].id == m.id && r[i].meta.commandName.Some?
  {
    if m.meta.query then ToSeq(SendDownstream(m))
    else if m.id.address == Broadcast then ToSeq(SendDownstream(m))
    else ToSeq(SendDownstream(m)) + ToSeq(SendDownstream(ReadBack(m)))
  }

  /** A write to one lamp on a channel that is both readable and writable
      forwards the write command and then the read command with payload
      0x00. */
  lemma WriteIsReadBack(m: Message)
    requires m.id.ChannelId? && !m.meta.query && m.id.address != Broadcast
    requires ReadCommand(m.id.channel).Some? && WriteCommand(m.id.channel).Some?
    ensures var r := Receive(m);
      && |r| == 2
      && r[0].meta.commandName == WriteCommand(m.id.channel) && r[0].payload == m.payload && !r[0].meta.query
      && r[1].meta.commandName == ReadCommand(m.id.channel) && r[1].payload == Some(0x00) && r[1].meta.query
      && r[0].meta.address == r[1].meta.address == Some(m.id.address)
  {
  }

  /** The broadcast address is the only one whose writes are not read back:
      a write yields two messages exactly when the address is not 0xFF and
      the channel has both commands. */
  lemma OnlyBroadcastSkipsReadBack(m: Message)
    requires m.id.ChannelId? && !m.meta.query
    ensures |Receive(m)| == 2 <==>
      m.id.address != Broadcast && ReadCommand(m.id.channel).Some? && WriteCommand(m.id.channel).Some?
  {
  }

  /** Writing to a read-only channel of one lamp forwards nothing but the
      read-back query; e.g. a write to the health status sends a read of
      the error flags. */
  lemma ReadOnlyWriteOnlyQueries(m: Message)
    requires m.id.ChannelId? && !m.meta.query && m.id.address != Broadcast
    requires WriteCommand(m.id.channel).None?
    ensures |Receive(m)| == 1 && Receive(m)[0].meta.query
    ensures m.id.channel == HealthStatus ==> Receive(m)[0].meta.commandName == Some(ReadErrors)
  {
  }

  /** A query forwards at most one message, and none for an unreadable
      channel. */
  lemma QueryAtMostOnce(m: Message)
    requires m.id.ChannelId? && m.meta.query
    ensures |Receive(m)| == if ReadCommand(m.id.channel).Some? then 1 else 0
  {
  }

  /** `AbstractionDecoderPipeline.receive`: inbound messages pass unchanged. */
  function Ascend(m: Message): (r: Message)
    ensures r == m
  {
    m
  }
}
