/** The layers composed in the order the serial connection stacks them:
    framing, packet encoder/decoder, request/response correlator, value
    codec, channel abstraction (outermost last). Messages from the
    application go down through abstraction, codec, correlator, encoder and
    framer; bytes from the bus come up through framer, decoder, correlator,
    codec and abstraction. */
module Stack {
  import opened Common
  import Framing
  import Encoder
  import Decoder
  import Codecs
  import Abstraction
  import ReqRes
  import HintValidator

  /** The framer accepts a packet from the encoder exactly when its address
      and command bytes avoid both delimiters. */
  predicate Frameable(t: CommandTable, m: Message)
    requires Encoder.Encode(t, m).Ok?
  {
    var a := Encoder.AddressByte(m);
    var c := t.toByte[m.meta.commandName.value];
    a != FramingStart && a != FramingEnd && c != FramingStart && c != FramingEnd
  }

  /** An encoded packet, sent through the framer and scanned on the other
      side, comes out whole exactly when it is frameable; otherwise the scan
      drops its first byte and emits nothing. */
  lemma FramedWhole(t: CommandTable, m: Message)
    requires Encoder.Encode(t, m).Ok?
    ensures var p := Framing.Send(Encoder.Encode(t, m).value);
      && (Framing.Scan(p).packets == [p] <==> Frameable(t, m))
      && (!Frameable(t, m) ==> Framing.Scan(p).packets == [] && Framing.Scan(p).discarded == 1)
  {
    var p := Encoder.Encode(t, m).value;
    if Frameable(t, m) {
      assert IsPacket(p);
      Framing.SinglePacket(p);
    } else {
      assert !IsPacket(p);
      assert !Framing.PacketAt(p, 0);
      assert Framing.ScanAt(p, 1).packets == [];
    }
  }

  /** Two of the 254 addresses the discovery sweep probes are the
      delimiters, 0xFD and 0xFE: their packets are never frameable, so
      those lamps cannot be reached. With a command byte that avoids the
      delimiters, every other swept address is frameable. */
  lemma DelimiterProbesUnframeable(t: CommandTable, a: int)
    requires RdVersion in t.toByte
    requires HintValidator.FirstAddress <= a <= HintValidator.LastAddress
    ensures HintValidator.FirstAddress <= FramingEnd < FramingStart == HintValidator.LastAddress
    ensures Encoder.Encode(t, HintValidator.Probe(a)).Ok?
    ensures Encoder.Encode(t, HintValidator.Probe(a)).value[1] == a
    ensures a == FramingEnd || a == FramingStart ==> !Frameable(t, HintValidator.Probe(a))
    ensures t.toByte[RdVersion] != FramingStart && t.toByte[RdVersion] != FramingEnd ==>
      (Frameable(t, HintValidator.Probe(a)) <==> a != FramingStart && a != FramingEnd)
  {
  }

  /** The decoder never sets the channel, so in this stack a packet that
      arrives while the correlator holds the lock is never taken as the
      reply: it raises the unexpected-reply error, nothing is delivered and
      the lock stays held. */
  lemma DecodedReplyRejected(t: CommandTable, p: seq<Byte>, now: int, s: ReqRes.Slot)
    requires ReqRes.Valid(s) && s.locked
    requires Decoder.Receive(t, p, now).Ok?
    ensures ReqRes.Step(s, ReqRes.Inbound(Decoder.Receive(t, p, now).value))
         == (s, ReqRes.Output([], [], [], Some(UnexpectedReply)))
  {
    ReqRes.ForeignReplyRejected(s, Decoder.Receive(t, p, now).value);
  }

  /** What the abstraction forwards, once through the codec, meets the
      correlator's demand: a message that takes the lock carries the address
      and channel the lock records. */
  lemma AbstractionStampsLock(m: Message, i: nat)
    requires m.id.ChannelId? && i < |Abstraction.Receive(m)|
    ensures var x := Abstraction.Receive(m)[i];
      && ReqRes.Stamped(x)
      && x.meta.address == Some(m.id.address)
      && x.meta.channel == Some(m.id.channel)
      && (Codecs.EncodeMessage(x).Ok? ==> ReqRes.EventOk(ReqRes.Submit(i, Codecs.EncodeMessage(x).value, false)))
  {
    var d := Abstraction.SendDownstream(m);
    if m.meta.query || m.id.address == Broadcast {
      assert Abstraction.Receive(m) == Abstraction.ToSeq(d);
    } else {
      var b := Abstraction.SendDownstream(Abstraction.ReadBack(m));
      assert Abstraction.Receive(m) == Abstraction.ToSeq(d) + Abstraction.ToSeq(b);
      if d.None? {
        assert Abstraction.Receive(m)[i] == b.value;
      } else if i == 1 {
        assert Abstraction.Receive(m)[i] == b.value;
      }
    }
  }

  /** The send path for one message below the abstraction: codec, then
      correlator, then encoder, then framer. The codec turns the payload into
      its wire value, the encoder builds the packet and the framer passes it
      on. The correlator is left out of the composition because it forwards
      the message itself unchanged, at once or when it takes the lock
      (`ReqRes.BypassLeavesSlot`, `ReqRes.Admit`). */
  function SendPath(t: CommandTable, x: Message): (r: Result<seq<Byte>>)
    ensures r.Err? <==> Codecs.EncodeMessage(x).Err? || Encoder.Encode(t, x).Err?
    ensures r.Ok? ==> |r.value| == 5 && r.value[0] == FramingStart && r.value[4] == FramingEnd
  {
    match Codecs.EncodeMessage(x)
    case Err(e) => Err(e)
    case Ok(w) =>
      Encoder.EncodeIgnoresIdAndFlags(t, w, x.id, w.meta.channel, w.meta.query, w.meta.timestamp);
      assert w.(payload := x.payload) == x;
      match Encoder.Encode(t, w)
      case Err(e) => Err(e)
      case Ok(p) => Ok(Framing.Send(p))
  }

  /** The receiving end of the send path: the lamp's decoder reads back the
      address byte, the command and the codec's wire value, which is the
      encoded payload for a write and 0x00 for a query. */
  lemma SendPathDecodes(t: CommandTable, x: Message)
    requires t.Valid()
    requires x.meta.commandName.Some? && x.meta.commandName.value in t.toByte
    requires x.meta.address.Some? && 0 <= x.meta.address.value < 256
    requires Codecs.EncodeMessage(x).Ok?
    ensures SendPath(t, x).Ok?
    ensures var d := Decoder.Decode(t, SendPath(t, x).value);
      && d.Ok?
      && d.value.meta.address == x.meta.address
      && d.value.meta.commandName == x.meta.commandName
      && d.value.payload == Codecs.EncodeMessage(x).value.payload
      && (x.meta.query ==> d.value.payload == Some(0x00))
      && (!x.meta.query ==> d.value.payload == Some(Codecs.EncodeData(x.meta.channel, x.payload.GetOr(0x00)).value))
  {
    var w := Codecs.EncodeMessage(x).value;
    Decoder.DecodeEncode(t, w);
  }

  /** The abstraction awaits each push before making the next one. So the
      messages it forwards go through the codec in order, and the first one
      the codec rejects ends the call: nothing after it is pushed. The
      result is the encoded messages pushed and the error that stopped the
      call, if any. */
  function Forward(ms: seq<Message>): (r: (seq<Message>, Option<Error>))
    ensures |r.0| <= |ms|
    ensures forall i :: 0 <= i < |r.0| ==> Codecs.EncodeMessage(ms[i]) == Ok(r.0[i])
    ensures r.1.None? <==> |r.0| == |ms|
    ensures r.1.Some? ==> Codecs.EncodeMessage(ms[|r.0|]) == Err(r.1.value)
  {
    if ms == [] then ([], None)
    else
      match Codecs.EncodeMessage(ms[0])
      case Err(e) => ([], Some(e))
      case Ok(w) =>
        var rest := Forward(ms[1..]);
        ([w] + rest.0, rest.1)
  }

  /** A write to one lamp whose value the codec rejects pushes nothing: the
      write fails and its read-back query is never sent. */
  lemma RejectedWriteNotReadBack(m: Message)
    requires m.id.ChannelId? && !m.meta.query && m.id.address != Broadcast
    requires Abstraction.WriteCommand(m.id.channel).Some?
    requires Codecs.EncodeData(Some(m.id.channel), m.payload.GetOr(0x00)).Err?
    ensures Forward(Abstraction.Receive(m)) == ([], Some(OutOfRange))
  {
    var d := Abstraction.SendDownstream(m);
    assert Abstraction.CommandFor(m.id.channel, false).Some?;
    assert Abstraction.Receive(m)[0] == d.value;
    assert Codecs.EncodeMessage(d.value).Err?;
  }

  /** A write to one lamp on a read/write channel that the codec accepts
      pushes the encoded write and then the read-back query with payload
      0x00. */
  lemma AcceptedWriteReadBack(m: Message)
    requires m.id.ChannelId? && !m.meta.query && m.id.address != Broadcast
    requires Abstraction.ReadCommand(m.id.channel).Some? && Abstraction.WriteCommand(m.id.channel).Some?
    requires Codecs.EncodeData(Some(m.id.channel), m.payload.GetOr(0x00)).Ok?
    ensures var r := Forward(Abstraction.Receive(m));
      && r.1.None? && |r.0| == 2
      && r.0[0].payload == Some(Codecs.EncodeData(Some(m.id.channel), m.payload.GetOr(0x00)).value)
      && !r.0[0].meta.query
      && r.0[1].meta.query && r.0[1].payload == Some(0x00)
  {
    Abstraction.WriteIsReadBack(m);
    var fwd := Abstraction.Receive(m);
    assert Codecs.EncodeMessage(fwd[0]).Ok?;
    assert Codecs.EncodeMessage(fwd[1]).Ok?;
  }

  /** Setting lamp 2's address to 0 is out of range: nothing is pushed. */
  lemma AddressZeroRejected()
    ensures Forward(Abstraction.Receive(Message(ChannelId(2, LampAddress), Some(0), FreshMetadata)))
         == ([], Some(OutOfRange))
  {
    Codecs.AddressOutOfRange();
    RejectedWriteNotReadBack(Message(ChannelId(2, LampAddress), Some(0), FreshMetadata));
  }

  /** The application's write used in the end-to-end trace below. */
  const DelayWrite := Message(ChannelId(2, StrobePulseDelay), Some(512), FreshMetadata)

  /** The metadata the abstraction stamps on both forwarded messages. */
  function DelayMeta(c: Command, query: bool): Metadata
  {
    FreshMetadata.(address := Some(2), commandName := Some(c), channel := Some(StrobePulseDelay), query := query)
  }

  /** A write of 512 to the strobe delay of lamp 2, from the application
      down to the wire: the abstraction forwards the write and its read-back
      query, the correlator sends the write at once and admits the query
      when the lock is free, and the two packets carry wire values 2 and 0
      under the set and read commands of that channel. */
  lemma StrobeDelayWrite(t: CommandTable)
    requires StrbDelaySet in t.toByte && StrbDelayRd in t.toByte
    ensures var fwd := Abstraction.Receive(DelayWrite);
      && |fwd| == 2
      && SendPath(t, fwd[0]) == Ok([FramingStart, 2, t.toByte[StrbDelaySet], 2, FramingEnd])
      && SendPath(t, fwd[1]) == Ok([FramingStart, 2, t.toByte[StrbDelayRd], 0, FramingEnd])
      && var w := Codecs.EncodeMessage(fwd[0]).value;
         var q := Codecs.EncodeMessage(fwd[1]).value;
         && ReqRes.Step(ReqRes.InitialSlot, ReqRes.Submit(0, w, false)).1.sent == [w]
         && ReqRes.Step(ReqRes.InitialSlot, ReqRes.Submit(1, q, false)).1.sent == [q]
         && ReqRes.Step(ReqRes.InitialSlot, ReqRes.Submit(1, q, false)).0.locked
  {
    DelayForwarded();
    WriteLeg(t);
    ReadLeg(t);
  }

  lemma DelayForwarded()
    ensures Abstraction.Receive(DelayWrite)
         == [Message(DelayWrite.id, Some(512), DelayMeta(StrbDelaySet, false)),
             Message(DelayWrite.id, Some(0x00), DelayMeta(StrbDelayRd, true))]
  {
    Abstraction.WriteIsReadBack(DelayWrite);
  }

  /** The write leg: wire value 2, forwarded without the lock. */
  lemma WriteLeg(t: CommandTable)
    requires StrbDelaySet in t.toByte
    ensures var x := Message(DelayWrite.id, Some(512), DelayMeta(StrbDelaySet, false));
      && Codecs.EncodeMessage(x) == Ok(x.(payload := Some(2)))
      && SendPath(t, x) == Ok([FramingStart, 2, t.toByte[StrbDelaySet], 2, FramingEnd])
      && ReqRes.Step(ReqRes.InitialSlot, ReqRes.Submit(0, x.(payload := Some(2)), false)).1.sent == [x.(payload := Some(2))]
  {
    Codecs.StrobeDelayGolden();
  }

  /** The read-back leg: payload 0x00, and it takes the free lock. */
  lemma ReadLeg(t: CommandTable)
    requires StrbDelayRd in t.toByte
    ensures var x := Message(DelayWrite.id, Some(0x00), DelayMeta(StrbDelayRd, true));
      && Codecs.EncodeMessage(x) == Ok(x)
      && SendPath(t, x) == Ok([FramingStart, 2, t.toByte[StrbDelayRd], 0, FramingEnd])
      && ReqRes.Step(ReqRes.InitialSlot, ReqRes.Submit(1, x, false)).1.sent == [x]
      && ReqRes.Step(ReqRes.InitialSlot, ReqRes.Submit(1, x, false)).0.locked
  {
    var x := Message(DelayWrite.id, Some(0x00), DelayMeta(StrbDelayRd, true));
    ReqRes.SubmitWhenFree(ReqRes.InitialSlot, 1, x);
  }
}
