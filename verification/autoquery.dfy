/** The auto-query layer: classifies command names as queries and stamps the
    query flag, address and command name onto outgoing messages. */
module AutoQuery {
  import opened Common
  import Abstraction

  /** `isQueryCommand`: the eleven read commands of the protocol. */
  predicate IsQueryCommand(c: Command)
  {
    c in {PulseAmpRd, PulseAmpBRd, PulseAmpTRd, PulseAmpTbRd, StrbPwRd, StrbDelayRd,
          RdMode, RdVersion, OffsetRd, ScaleRd, EngrRd}
  }

  /** Every command, listed once. */
  const AllCommands: seq<Command> :=
    [PulseAmpRd, PulseAmpSet, PulseAmpBRd, PulseAmpBSet, PulseAmpTRd, PulseAmpTSet, PulseAmpTbRd,
     StrbPwRd, StrbPwSet, StrbDelayRd, StrbDelaySet, RdMode, SetMode, RdVersion, ReadErrors,
     TriggerNow, JmpBoot, JmpApp, OffsetRd, ScaleRd, EngrRd, SetAddress]

  /** The number of entries of `cs` from position `i` on that
      `IsQueryCommand` accepts. */
  function CountQueries(cs: seq<Command>, i: nat): (n: nat)
    requires i <= |cs|
    ensures n <= |cs| - i
    decreases |cs| - i
  {
    if i == |cs| then 0
    else (if IsQueryCommand(cs[i]) then 1 else 0) + CountQueries(cs, i + 1)
  }

  /** The list holds each of the 22 command names. */
  lemma AllCommandsComplete()
    ensures |AllCommands| == 22 && forall c: Command :: c in AllCommands
  {
    forall c: Command ensures c in AllCommands {
      match c
      case PulseAmpRd => assert AllCommands[0] == c;
      case PulseAmpSet => assert AllCommands[1] == c;
      case PulseAmpBRd => assert AllCommands[2] == c;
      case PulseAmpBSet => assert AllCommands[3] == c;
      case PulseAmpTRd => assert AllCommands[4] == c;
      case PulseAmpTSet => assert AllCommands[5] == c;
      case PulseAmpTbRd => assert AllCommands[6] == c;
      case StrbPwRd => assert AllCommands[7] == c;
      case StrbPwSet => assert AllCommands[8] == c;
      case StrbDelayRd => assert AllCommands[9] == c;
      case StrbDelaySet => assert AllCommands[10] == c;
      case RdMode => assert AllCommands[11] == c;
      case SetMode => assert AllCommands[12] == c;
      case RdVersion => assert AllCommands[13] == c;
      case ReadErrors => assert AllCommands[14] == c;
      case TriggerNow => assert AllCommands[15] == c;
      case JmpBoot => assert AllCommands[16] == c;
      case JmpApp => assert AllCommands[17] == c;
      case OffsetRd => assert AllCommands[18] == c;
      case ScaleRd => assert AllCommands[19] == c;
      case EngrRd => assert AllCommands[20] == c;
      case SetAddress => assert AllCommands[21] == c;
    }
  }

  /** Exactly eleven of the 22 command names are queries. */
  lemma ElevenQueries()
    ensures CountQueries(AllCommands, 0) == 11
  {
    assert CountQueries(AllCommands, 21) == 0;
    assert CountQueries(AllCommands, 20) == 1;
    assert CountQueries(AllCommands, 19) == 2;
    assert CountQueries(AllCommands, 18) == 3;
    assert CountQueries(AllCommands, 17) == 3;
    assert CountQueries(AllCommands, 16) == 3;
    assert CountQueries(AllCommands, 15) == 3;
    assert CountQueries(AllCommands, 14) == 3;
    assert CountQueries(AllCommands, 13) == 4;
    assert CountQueries(AllCommands, 12) == 4;
    assert CountQueries(AllCommands, 11) == 5;
    assert CountQueries(AllCommands, 10) == 5;
    assert CountQueries(AllCommands, 9) == 6;
    assert CountQueries(AllCommands, 8) == 6;
    assert CountQueries(AllCommands, 7) == 7;
    assert CountQueries(AllCommands, 6) == 8;
    assert CountQueries(AllCommands, 5) == 8;
    assert CountQueries(AllCommands, 4) == 9;
    assert CountQueries(AllCommands, 3) == 9;
    assert CountQueries(AllCommands, 2) == 10;
    assert CountQueries(AllCommands, 1) == 10;
    assert CountQueries(AllCommands, 0) == 11;
  }

  /** Cross-check with the channel tables: no write command is a query, and
      every read command is one except the error-flag read of the health
      status channel. */
  lemma AgreesWithChannelTables(ch: Channel)
    ensures Abstraction.WriteCommand(ch).Some? ==> !IsQueryCommand(Abstraction.WriteCommand(ch).value)
    ensures Abstraction.ReadCommand(ch).Some? ==>
      (IsQueryCommand(Abstraction.ReadCommand(ch).value) <==> ch != HealthStatus)
  {
  }

  /** `AutoQueryEncoderPipeline.receive` on a message whose ID names a
      command: the query flag becomes the classification of that command, a
      query's payload becomes 0x00, and the ID's address and command are
      copied into the metadata. */
  function Encode(m: Message): (r: Message)
    requires m.id.CommandId?
    ensures r.id == m.id
    ensures r.meta.query <==> IsQueryCommand(m.id.command)
    ensures r.payload == if r.meta.query then Some(0x00) else m.payload
    ensures r.meta.address == Some(m.id.address) && r.meta.commandName == Some(m.id.command)
    ensures r.meta.channel == m.meta.channel && r.meta.timestamp == m.meta.timestamp
  {
    var q := IsQueryCommand(m.id.command);
    var m1 := m.(meta := m.meta.(query := q));
    var m2 := if q then m1.(payload := Some(0x00)) else m1;
    m2.(meta := m2.meta.(address := Some(m.id.address), commandName := Some(m.id.command)))
  }

  /** Stamping is idempotent: a second pass changes nothing. */
  lemma EncodeIdempotent(m: Message)
    requires m.id.CommandId?
    ensures Encode(Encode(m)) == Encode(m)
  {
  }

  /** The result depends on the ID and, for writes, the payload only: the
      incoming flag, address and command name are overwritten. */
  lemma EncodeIgnoresIncomingFlags(m: Message, q: bool, a: Option<int>, c: Option<Command>)
    requires m.id.CommandId?
    ensures Encode(m.(meta := m.meta.(query := q, address := a, commandName := c))) == Encode(m)
  {
  }
}
