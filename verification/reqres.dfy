/** The request/response correlator: queries to a single lamp run one at a
    time, and the reply that arrives while one is outstanding is annotated
    with the address and channel the query was sent to.

    The mutex with its metadata is an explicit slot: a lock flag, the
    request holding it, the channel and address recorded for it, and the
    first-in first-out line of requests waiting for it. Each request is
    named by a request number `rid`, standing for its promise and its
    cancellation token. */
module ReqRes {
  import opened Common

  /** A query waiting for the lock; `cancelled` records that its token fired
      while it waited. */
  datatype Waiting = Waiting(rid: nat, msg: Message, cancelled: bool)

  datatype Slot = Slot(locked: bool, holder: nat, channel: Channel, address: int, queue: seq<Waiting>)

  /** The slot before any traffic: unlocked, firmware-version channel,
      broadcast address. */
  const InitialSlot := Slot(false, 0, LampFirmwareVersion, Broadcast, [])

  /** How a request's promise settles. */
  datatype Outcome =
    | Sent       // forwarded without the lock; settles with the downstream push
    | Answered   // held the lock and was answered
    | Cancelled  // its token fired while it held, or before it took, the lock
    | Failed     // held the lock and its downstream push rejected; settles with that error
    | Closed     // still waiting when the connection went down

  datatype Done = Done(rid: nat, outcome: Outcome)

  /** What one event causes: messages pushed towards the hardware, messages
      pushed towards the application, settled requests, and a raised error. */
  datatype Output = Output(sent: seq<Message>, delivered: seq<Message>, done: seq<Done>, error: Option<Error>)

  const Quiet := Output([], [], [], None)

  datatype Event =
    | Submit(rid: nat, msg: Message, cancelled: bool)  // the encoder side receives a message
    | Inbound(msg: Message)                             // the decoder side receives a message
    | Cancel(rid: nat)                                  // a request's token fires
    | PushFailed(rid: nat)                              // a request's downstream push rejects
    | Disconnect                                        // `onDisconnecting`

  /** Queries to anything but the broadcast address take the lock. */
  predicate TakesLock(m: Message)
  {
    m.meta.query && m.meta.address != Some(Broadcast)
  }

  /** The channel and address the lock records are present. */
  predicate Stamped(m: Message)
  {
    m.meta.address.Some? && m.meta.channel.Some?
  }

  predicate EventOk(e: Event)
  {
    e.Submit? && TakesLock(e.msg) ==> Stamped(e.msg)
  }

  predicate AllStamped(q: seq<Waiting>)
  {
    forall i :: 0 <= i < |q| ==> Stamped(q[i].msg)
  }

  /** The slot invariant: nobody waits while the lock is free. */
  predicate Valid(s: Slot)
  {
    (!s.locked ==> s.queue == []) && AllStamped(s.queue)
  }

  /** Position of the first waiting request whose token has not fired. */
  function FirstLive(q: seq<Waiting>): (k: nat)
    ensures k <= |q|
    ensures forall j :: 0 <= j < k ==> q[j].cancelled
    ensures k < |q| ==> !q[k].cancelled
  {
    if q == [] || !q[0].cancelled then 0 else 1 + FirstLive(q[1..])
  }

  /** Hands a free lock to the line: requests whose token already fired are
      settled as cancelled without being sent and without touching the
      recorded channel and address; the first other one takes the lock,
      records its channel and address, and is sent. */
  function Admit(s: Slot): (r: (Slot, Output))
    requires !s.locked && AllStamped(s.queue)
    ensures var k := FirstLive(s.queue);
      && |r.1.done| == k
      && (forall j :: 0 <= j < k ==> r.1.done[j] == Done(s.queue[j].rid, Cancelled))
      && r.1.delivered == [] && r.1.error.None?
      && (k == |s.queue| ==> r.0 == s.(queue := []) && r.1.sent == [])
      && (k < |s.queue| ==>
            && r.0.locked && r.0.holder == s.queue[k].rid
            && r.0.channel == s.queue[k].msg.meta.channel.value
            && r.0.address == s.queue[k].msg.meta.address.value
            && r.0.queue == s.queue[k + 1..]
            && r.1.sent == [s.queue[k].msg])
    ensures Valid(r.0)
    decreases |s.queue|
  {
    if s.queue == [] then (s, Quiet)
    else
      var w := s.queue[0];
      if w.cancelled then
        var r := Admit(s.(queue := s.queue[1..]));
        (r.0, r.1.(done := [Done(w.rid, Cancelled)] + r.1.done))
      else
        (Slot(true, w.rid, w.msg.meta.channel.value, w.msg.meta.address.value, s.queue[1..]),
         Output([w.msg], [], [], None))
  }

  /** Marks every waiting request numbered `rid` as cancelled. */
  function MarkCancelled(q: seq<Waiting>, rid: nat): (r: seq<Waiting>)
    ensures |r| == |q|
    ensures forall i :: 0 <= i < |q| ==>
      r[i].rid == q[i].rid && r[i].msg == q[i].msg && r[i].cancelled == (q[i].cancelled || q[i].rid == rid)
  {
    if q == [] then []
    else [q[0].(cancelled := q[0].cancelled || q[0].rid == rid)] + MarkCancelled(q[1..], rid)
  }

  /** Settles every waiting request as closed. */
  function CloseAll(q: seq<Waiting>): (r: seq<Done>)
    ensures |r| == |q| && forall i :: 0 <= i < |q| ==> r[i] == Done(q[i].rid, Closed)
  {
    if q == [] then [] else [Done(q[0].rid, Closed)] + CloseAll(q[1..])
  }

  /** Releases the lock held by the current holder, settling it with `o`,
      and hands it to the line. */
  function Release(s: Slot, o: Outcome): (r: (Slot, Output))
    requires s.locked && AllStamped(s.queue)
    ensures |r.1.done| >= 1 && r.1.done[0] == Done(s.holder, o)
    ensures r.1.delivered == [] && r.1.error.None? && |r.1.sent| <= 1
    ensures Valid(r.0)
  {
    var a := Admit(s.(locked := false));
    (a.0, a.1.(done := [Done(s.holder, o)] + a.1.done))
  }

  /** The encoder side receives a message: anything that does not take the
      lock is forwarded at once; a query joins the line, and is admitted
      straight away when the lock is free. */
  function OnSubmit(s: Slot, rid: nat, m: Message, cancelled: bool): (r: (Slot, Output))
    requires Valid(s) && (TakesLock(m) ==> Stamped(m))
    ensures Valid(r.0)
  {
    if !TakesLock(m) then (s, Output([m], [], [Done(rid, Sent)], None))
    else
      var s1 := s.(queue := s.queue + [Waiting(rid, m, cancelled)]);
      assert AllStamped(s1.queue);
      if s.locked then (s1, Quiet) else Admit(s1)
  }

  /** The decoder side receives a message: with the lock free it passes
      unchanged; with the lock held, a message on the recorded channel is
      annotated and answers the holder, and any other is an error. */
  function OnInbound(s: Slot, m: Message): (r: (Slot, Output))
    requires Valid(s)
    ensures Valid(r.0)
  {
    if !s.locked then (s, Output([], [m], [], None))
    else if m.meta.channel == Some(s.channel) then
      var reply := m.(id := ChannelId(s.address, s.channel), meta := m.meta.(address := Some(s.address)));
      var r := Release(s, Answered);
      (r.0, r.1.(delivered := [reply]))
    else (s, Quiet.(error := Some(UnexpectedReply)))
  }

  /** A request's token fires: the holder gives up the lock; a waiting
      request is marked and settled when its turn comes. */
  function OnCancel(s: Slot, rid: nat): (r: (Slot, Output))
    requires Valid(s)
    ensures Valid(r.0)
  {
    if s.locked && rid == s.holder then Release(s, Cancelled)
    else (s.(queue := MarkCancelled(s.queue, rid)), Quiet)
  }

  /** A request's downstream push rejects, because the encoder refuses its
      command or the transport write fails. For the holder, `Promise.all`
      rejects at once: the lock is released and the request settles with
      the push's error. Any other request is not affected. */
  function OnPushFailed(s: Slot, rid: nat): (r: (Slot, Output))
    requires Valid(s)
    ensures Valid(r.0)
  {
    if s.locked && rid == s.holder then Release(s, Failed) else (s, Quiet)
  }

  /** One event applied to the slot. */
  function Step(s: Slot, e: Event): (r: (Slot, Output))
    requires Valid(s) && EventOk(e)
    ensures Valid(r.0)
  {
    match e
    case Submit(rid, m, cancelled) => OnSubmit(s, rid, m, cancelled)
    case Inbound(m) => OnInbound(s, m)
    case Cancel(rid) => OnCancel(s, rid)
    case PushFailed(rid) => OnPushFailed(s, rid)
    case Disconnect => (s.(queue := []), Quiet.(done := CloseAll(s.queue)))
  }

  /** The order in which requests hold the lock: the holder, then the line. */
  function Line(s: Slot): seq<nat>
  {
    (if s.locked then [s.holder] else []) + Rids(s.queue)
  }

  function Rids(q: seq<Waiting>): (r: seq<nat>)
    ensures |r| == |q| && forall i :: 0 <= i < |q| ==> r[i] == q[i].rid
  {
    if q == [] then [] else [q[0].rid] + Rids(q[1..])
  }

  predicate IsSuffix(a: seq<nat>, b: seq<nat>)
  {
    |a| <= |b| && a == b[|b| - |a|..]
  }

  /** Requests newly joining the line. */
  function Joining(e: Event): seq<nat>
  {
    if e.Submit? && TakesLock(e.msg) then [e.rid] else []
  }

  /** First in, first out: every event but a disconnect leaves the line a
      suffix of the old line followed by the request it adds, so requests
      take the lock in the order they were submitted and nobody overtakes;
      a disconnect cuts the line back to its holder. */
  lemma StepKeepsOrder(s: Slot, e: Event)
    requires Valid(s) && EventOk(e)
    ensures !e.Disconnect? ==> IsSuffix(Line(Step(s, e).0), Line(s) + Joining(e))
    ensures e.Disconnect? ==> Line(Step(s, e).0) == Line(s)[..if s.locked then 1 else 0]
  {
    match e
    case Submit(rid, m, c) =>
      SubmitKeepsOrder(s, rid, m, c);
    case Inbound(m) =>
      InboundKeepsOrder(s, m);
      assert Line(s) + Joining(e) == Line(s);
    case Cancel(rid) =>
      CancelKeepsOrder(s, rid);
      assert Line(s) + Joining(e) == Line(s);
    case PushFailed(rid) =>
      if s.locked && rid == s.holder {
        ReleaseKeepsOrder(s, Failed);
      }
      assert Line(s) + Joining(e) == Line(s);
    case Disconnect =>
  }

  lemma InboundKeepsOrder(s: Slot, m: Message)
    requires Valid(s)
    ensures IsSuffix(Line(OnInbound(s, m).0), Line(s))
  {
    if s.locked && m.meta.channel == Some(s.channel) {
      ReleaseKeepsOrder(s, Answered);
    }
  }

  lemma CancelKeepsOrder(s: Slot, rid: nat)
    requires Valid(s)
    ensures IsSuffix(Line(OnCancel(s, rid).0), Line(s))
  {
    if s.locked && rid == s.holder {
      ReleaseKeepsOrder(s, Cancelled);
    } else {
      assert Rids(MarkCancelled(s.queue, rid)) == Rids(s.queue);
    }
  }

  lemma SubmitKeepsOrder(s: Slot, rid: nat, m: Message, c: bool)
    requires Valid(s) && (TakesLock(m) ==> Stamped(m))
    ensures IsSuffix(Line(OnSubmit(s, rid, m, c).0), Line(s) + (if TakesLock(m) then [rid] else []))
  {
    if TakesLock(m) {
      var q1 := s.queue + [Waiting(rid, m, c)];
      assert Rids(q1) == Rids(s.queue) + [rid];
      if !s.locked {
        assert AllStamped(q1);
        AdmitLine(s.(queue := q1));
      } else {
        assert Line(OnSubmit(s, rid, m, c).0) == Line(s) + [rid];
      }
    } else {
      assert Line(s) + [] == Line(s);
    }
  }

  lemma ReleaseKeepsOrder(s: Slot, o: Outcome)
    requires Valid(s) && s.locked
    ensures IsSuffix(Line(Release(s, o).0), Line(s))
  {
    AdmitLine(s.(locked := false));
    assert IsSuffix(Rids(s.queue), Line(s));
    SuffixTrans(Line(Release(s, o).0), Rids(s.queue), Line(s));
  }

  lemma {:induction false} AdmitLine(s: Slot)
    requires !s.locked && AllStamped(s.queue)
    ensures IsSuffix(Line(Admit(s).0), Rids(s.queue))
    decreases |s.queue|
  {
    if s.queue != [] {
      var t := s.(queue := s.queue[1..]);
      assert Rids(s.queue) == [s.queue[0].rid] + Rids(t.queue);
      if s.queue[0].cancelled {
        AdmitLine(t);
        SuffixTrans(Line(Admit(s).0), Rids(t.queue), Rids(s.queue));
      }
    }
  }

  lemma SuffixTrans(a: seq<nat>, b: seq<nat>, c: seq<nat>)
    requires IsSuffix(a, b) && IsSuffix(b, c)
    ensures IsSuffix(a, c)
  {
    assert c[|c| - |b|..][|b| - |a|..] == c[|c| - |a|..];
  }

  /** One query at a time: an event sends a query that takes the lock only
      once the previous holder has been answered or cancelled, and the
      query sent is then the holder with its channel and address recorded. */
  lemma SingleFlight(s: Slot, e: Event)
    requires Valid(s) && EventOk(e)
    ensures var r := Step(s, e);
      forall i :: 0 <= i < |r.1.sent| && TakesLock(r.1.sent[i]) ==>
        && i == |r.1.sent| - 1
        && r.0.locked
        && Some(r.0.channel) == r.1.sent[i].meta.channel
        && Some(r.0.address) == r.1.sent[i].meta.address
        && (s.locked ==> Done(s.holder, Answered) in r.1.done || Done(s.holder, Cancelled) in r.1.done
                         || Done(s.holder, Failed) in r.1.done)
  {
    var r := Step(s, e);
    match e
    case Submit(rid, m, c) =>
      if TakesLock(m) && !s.locked {
        var q1 := s.queue + [Waiting(rid, m, c)];
        assert FirstLive(q1) < |q1| ==> q1[FirstLive(q1)].msg.meta.query;
      }
    case Inbound(m) =>
    case Cancel(rid) =>
    case PushFailed(rid) =>
    case Disconnect =>
  }

  /** Messages that are not queries, and queries to the broadcast address,
      are forwarded at once and leave the slot untouched. */
  lemma BypassLeavesSlot(s: Slot, rid: nat, m: Message, c: bool)
    requires Valid(s) && !TakesLock(m)
    ensures Step(s, Submit(rid, m, c)) == (s, Output([m], [], [Done(rid, Sent)], None))
    ensures m.meta.query ==> m.meta.address == Some(Broadcast)
  {
  }

  /** A query whose token has already fired is settled as cancelled when its
      turn comes, is never sent, and leaves the recorded channel and address
      as they were. */
  lemma CancelledQueryNotSent(s: Slot, rid: nat, m: Message)
    requires Valid(s) && !s.locked && TakesLock(m) && Stamped(m)
    ensures var r := Step(s, Submit(rid, m, true));
      && r.1.sent == [] && r.1.done == [Done(rid, Cancelled)]
      && !r.0.locked && r.0.channel == s.channel && r.0.address == s.address
  {
    var q1 := [Waiting(rid, m, true)];
    assert s.queue + [Waiting(rid, m, true)] == q1;
    assert FirstLive(q1) == 1;
  }

  /** While a query is outstanding, a message on its channel is taken as the
      reply: it is delivered carrying the recorded address and an ID built
      from the recorded address and channel, whatever address and ID it
      came with, and the outstanding query is answered. */
  lemma ReplyIsAnnotated(s: Slot, m: Message, id: MessageId, a: Option<int>)
    requires Valid(s) && s.locked && m.meta.channel == Some(s.channel)
    ensures var r := Step(s, Inbound(m));
      && r.1.delivered == [m.(id := ChannelId(s.address, s.channel), meta := m.meta.(address := Some(s.address)))]
      && r.1.done[0] == Done(s.holder, Answered)
      && r.1.error.None?
    ensures Step(s, Inbound(m.(id := id, meta := m.meta.(address := a)))) == Step(s, Inbound(m))
  {
  }

  /** While a query is outstanding, a message on another channel is an
      error: nothing is delivered and the slot is unchanged. */
  lemma ForeignReplyRejected(s: Slot, m: Message)
    requires Valid(s) && s.locked && m.meta.channel != Some(s.channel)
    ensures Step(s, Inbound(m)) == (s, Output([], [], [], Some(UnexpectedReply)))
  {
  }

  /** With no query outstanding, inbound messages pass unchanged. */
  lemma UnlockedPassThrough(s: Slot, m: Message)
    requires Valid(s) && !s.locked
    ensures Step(s, Inbound(m)) == (s, Output([], [m], [], None))
  {
  }

  /** Going down settles every waiting request as closed, in line order;
      the current holder keeps the lock. */
  lemma DisconnectClosesLine(s: Slot)
    requires Valid(s)
    ensures var r := Step(s, Disconnect);
      && r.0.queue == [] && r.0.locked == s.locked && r.0.holder == s.holder
      && |r.1.done| == |s.queue|
      && (forall i :: 0 <= i < |s.queue| ==> r.1.done[i] == Done(s.queue[i].rid, Closed))
      && r.1.sent == [] && r.1.delivered == []
  {
  }

  /** Applies events in order, concatenating what they cause. */
  function Run(s: Slot, es: seq<Event>): (r: (Slot, Output))
    requires Valid(s) && forall i :: 0 <= i < |es| ==> EventOk(es[i])
    ensures Valid(r.0)
    decreases |es|
  {
    if es == [] then (s, Quiet)
    else
      var a := Step(s, es[0]);
      var b := Run(a.0, es[1..]);
      (b.0, Then(a.1, b.1))
  }

  /** What two events in a row cause; the first error raised is kept. */
  function Then(a: Output, b: Output): Output
  {
    Output(a.sent + b.sent, a.delivered + b.delivered, a.done + b.done,
           if a.error.Some? then a.error else b.error)
  }

  /** A firmware-version query to lamp 0x01, as the application sends it. */
  const VersionQuery := Message(ChannelId(0x01, LampFirmwareVersion), Some(0x00),
                                Metadata(Some(0x01), Some(RdVersion), Some(LampFirmwareVersion), true, None))

  /** The hardware's reply: it comes from the master address 0x00. */
  function VersionReply(payload: int): Message
  {
    Message(ChannelId(0x00, LampFirmwareVersion), Some(payload),
            Metadata(Some(0x00), Some(RdVersion), Some(LampFirmwareVersion), false, None))
  }

  /** A query that times out releases the lock, and a later query is sent
      and answered: two sent, one delivered, annotated with address 0x01. */
  lemma TimeoutThenRetry()
    ensures var r := Run(InitialSlot, [Submit(1, VersionQuery, false), Cancel(1),
                                       Submit(2, VersionQuery, false), Inbound(VersionReply(0))]);
      && |r.1.sent| == 2 && |r.1.delivered| == 1
      && r.1.delivered[0].meta.address == Some(0x01)
      && r.1.done == [Done(1, Cancelled), Done(2, Answered)]
      && !r.0.locked
  {
    var e1, e2, e3, e4 := Submit(1, VersionQuery, false), Cancel(1), Submit(2, VersionQuery, false), Inbound(VersionReply(0));
    var h1 := Slot(true, 1, LampFirmwareVersion, 0x01, []);
    var h2 := h1.(holder := 2);
    RunFour(InitialSlot, e1, e2, e3, e4);
    SubmitWhenFree(InitialSlot, 1, VersionQuery);
    CancelHolder(h1);
    SubmitWhenFree(h1.(locked := false), 2, VersionQuery);
    AnswerStep(h2, 0);
  }

  /** Running four events is stepping through them one at a time. */
  lemma RunFour(s: Slot, e1: Event, e2: Event, e3: Event, e4: Event)
    requires Valid(s) && EventOk(e1) && EventOk(e2) && EventOk(e3) && EventOk(e4)
    ensures var a := Step(s, e1);
      var b := Step(a.0, e2);
      var c := Step(b.0, e3);
      var d := Step(c.0, e4);
      Run(s, [e1, e2, e3, e4]) == (d.0, Then(a.1, Then(b.1, Then(c.1, Then(d.1, Quiet)))))
  {
    var a := Step(s, e1);
    var b := Step(a.0, e2);
    RunTwo(b.0, e3, e4);
    var cd := Run(b.0, [e3, e4]);
    assert [e2, e3, e4][1..] == [e3, e4];
    assert Run(a.0, [e2, e3, e4]) == (cd.0, Then(b.1, cd.1));
    assert [e1, e2, e3, e4][1..] == [e2, e3, e4];
  }

  lemma RunTwo(s: Slot, e1: Event, e2: Event)
    requires Valid(s) && EventOk(e1) && EventOk(e2)
    ensures var a := Step(s, e1);
      var b := Step(a.0, e2);
      Run(s, [e1, e2]) == (b.0, Then(a.1, Then(b.1, Quiet)))
  {
    var a := Step(s, e1);
    var b := Step(a.0, e2);
    assert [e2][1..] == [];
    assert Run(b.0, []) == (b.0, Quiet);
    assert Run(a.0, [e2]) == (b.0, Then(b.1, Quiet));
    assert [e1, e2][1..] == [e2];
  }

  /** Three queries submitted together are sent one after another, each
      once the previous one is answered; the replies reach the application
      in order, each annotated with address 0x01. */
  lemma ThreeConcurrentQueries()
    ensures var r := Run(InitialSlot, [Submit(1, VersionQuery, false), Submit(2, VersionQuery, false),
                                       Submit(3, VersionQuery, false), Inbound(VersionReply(0)),
                                       Inbound(VersionReply(1)), Inbound(VersionReply(2))]);
      && r.1.sent == [VersionQuery, VersionQuery, VersionQuery]
      && r.1.delivered == [Annotated(0), Annotated(1), Annotated(2)]
      && r.1.done == [Done(1, Answered), Done(2, Answered), Done(3, Answered)]
  {
    ConcurrentQueries(InitialSlot, 1, 2, 3);
  }

  /** Three queries submitted together to a free lock, then three replies:
      the queries go out one at a time and are answered in submission
      order. */
  lemma ConcurrentQueries(s: Slot, a: nat, b: nat, c: nat)
    requires Valid(s) && !s.locked
    ensures var r := Run(s, [Submit(a, VersionQuery, false), Submit(b, VersionQuery, false),
                             Submit(c, VersionQuery, false), Inbound(VersionReply(0)),
                             Inbound(VersionReply(1)), Inbound(VersionReply(2))]);
      && r.1.sent == [VersionQuery, VersionQuery, VersionQuery]
      && r.1.delivered == [Annotated(0), Annotated(1), Annotated(2)]
      && r.1.done == [Done(a, Answered), Done(b, Answered), Done(c, Answered)]
      && !r.0.locked
  {
    var submits := [Submit(a, VersionQuery, false), Submit(b, VersionQuery, false), Submit(c, VersionQuery, false)];
    var held := Slot(true, a, LampFirmwareVersion, 0x01, [Waiting(b, VersionQuery, false), Waiting(c, VersionQuery, false)]);
    ThreeSubmits(s, a, b, c);
    DrainThree(held, a, b, c);
    var rb := Run(held, Replies(0, 3));
    RunAppend(s, submits, Replies(0, 3));
    assert submits + Replies(0, 3)
        == [Submit(a, VersionQuery, false), Submit(b, VersionQuery, false), Submit(c, VersionQuery, false),
            Inbound(VersionReply(0)), Inbound(VersionReply(1)), Inbound(VersionReply(2))];
    assert [VersionQuery] + rb.1.sent == [VersionQuery, VersionQuery, VersionQuery];
  }

  /** The three replies of `ConcurrentQueries`, from the lock held by the
      first query with the other two waiting. */
  lemma DrainThree(held: Slot, a: nat, b: nat, c: nat)
    requires held == Slot(true, a, LampFirmwareVersion, 0x01, [Waiting(b, VersionQuery, false), Waiting(c, VersionQuery, false)])
    ensures var r := Run(held, Replies(0, 3));
      && r.1.sent == [VersionQuery, VersionQuery]
      && r.1.delivered == [Annotated(0), Annotated(1), Annotated(2)]
      && r.1.done == [Done(a, Answered), Done(b, Answered), Done(c, Answered)]
      && r.1.error.None? && !r.0.locked
  {
    assert Line(held) == [a, b, c];
    RepliesDrainLine(held, 0);
    assert Copies(VersionQuery, 2) == [VersionQuery, VersionQuery];
  }

  /** Three queries to lamp 0x01 submitted while the lock is free: the first
      is sent and holds the lock, the other two wait in submission order. */
  lemma ThreeSubmits(s: Slot, a: nat, b: nat, c: nat)
    requires Valid(s) && !s.locked
    ensures Run(s, [Submit(a, VersionQuery, false), Submit(b, VersionQuery, false), Submit(c, VersionQuery, false)])
         == (Slot(true, a, LampFirmwareVersion, 0x01, [Waiting(b, VersionQuery, false), Waiting(c, VersionQuery, false)]),
             Output([VersionQuery], [], [], None))
  {
    var es := [Submit(a, VersionQuery, false), Submit(b, VersionQuery, false), Submit(c, VersionQuery, false)];
    var h := Slot(true, a, LampFirmwareVersion, 0x01, []);
    var wb := Waiting(b, VersionQuery, false);
    SubmitWhenFree(s, a, VersionQuery);
    SubmitWhenBusy(h, b, VersionQuery, false);
    SubmitWhenBusy(h.(queue := [wb]), c, VersionQuery, false);
    assert [] + [wb] == [wb];
    assert [wb] + [Waiting(c, VersionQuery, false)] == [wb, Waiting(c, VersionQuery, false)];
    RunCons(s, es);
    assert es[1..] == [es[1], es[2]];
    RunTwo(h, es[1], es[2]);
    assert Then(Quiet, Then(Quiet, Quiet)) == Quiet;
    assert Then(Output([VersionQuery], [], [], None), Quiet) == Output([VersionQuery], [], [], None);
  }

  /** Running two sequences of events one after the other is running their
      concatenation. */
  lemma {:induction false} RunAppend(s: Slot, a: seq<Event>, b: seq<Event>)
    requires Valid(s)
    requires forall i :: 0 <= i < |a| ==> EventOk(a[i])
    requires forall i :: 0 <= i < |b| ==> EventOk(b[i])
    ensures var ra := Run(s, a);
      var rb := Run(ra.0, b);
      Run(s, a + b) == (rb.0, Then(ra.1, rb.1))
    decreases |a|
  {
    if a == [] {
      assert a + b == b;
      assert Then(Quiet, Run(s, b).1) == Run(s, b).1;
    } else {
      var e := Step(s, a[0]);
      RunCons(s, a + b);
      assert (a + b)[1..] == a[1..] + b;
      RunAppend(e.0, a[1..], b);
      RunCons(s, a);
      ThenAssoc(e.1, Run(e.0, a[1..]).1, Run(Run(e.0, a[1..]).0, b).1);
    }
  }

  lemma ThenAssoc(x: Output, y: Output, z: Output)
    ensures Then(Then(x, y), z) == Then(x, Then(y, z))
  {
    assert (x.sent + y.sent) + z.sent == x.sent + (y.sent + z.sent);
    assert (x.delivered + y.delivered) + z.delivered == x.delivered + (y.delivered + z.delivered);
    assert (x.done + y.done) + z.done == x.done + (y.done + z.done);
  }

  /** Reply `i` as the correlator delivers it to the application. */
  function Annotated(i: int): (m: Message)
    ensures m.payload == Some(i) && m.meta.address == Some(0x01)
  {
    VersionReply(i).(id := ChannelId(0x01, LampFirmwareVersion), meta := VersionReply(i).meta.(address := Some(0x01)))
  }

  /** `n` copies of `m`. */
  function Copies(m: Message, n: nat): (r: seq<Message>)
    ensures |r| == n && forall i :: 0 <= i < n ==> r[i] == m
  {
    if n == 0 then [] else [m] + Copies(m, n - 1)
  }

  /** Replies `k`, `k + 1`, ... from the lamp, `n` of them. */
  function Replies(k: int, n: nat): (r: seq<Event>)
    ensures |r| == n && forall i :: 0 <= i < n ==> r[i] == Inbound(VersionReply(k + i))
    decreases n
  {
    if n == 0 then [] else [Inbound(VersionReply(k))] + Replies(k + 1, n - 1)
  }

  /** The same replies as the application receives them. */
  function AnnotatedFrom(k: int, n: nat): (r: seq<Message>)
    ensures |r| == n && forall i :: 0 <= i < n ==> r[i] == Annotated(k + i)
    decreases n
  {
    if n == 0 then [] else [Annotated(k)] + AnnotatedFrom(k + 1, n - 1)
  }

  /** Every request of `rids` answered, in that order. */
  function AllAnswered(rids: seq<nat>): (r: seq<Done>)
    ensures |r| == |rids| && forall i :: 0 <= i < |rids| ==> r[i] == Done(rids[i], Answered)
  {
    if rids == [] then [] else [Done(rids[0], Answered)] + AllAnswered(rids[1..])
  }

  /** A lamp that answers every firmware-version query drains the line:
      one reply per request in the line answers the requests in line order,
      each waiting query is sent as its turn comes, every reply reaches the
      application annotated with the lamp's address, and the lock ends free. */
  lemma {:induction false} RepliesDrainLine(s: Slot, k: int)
    requires Valid(s) && s.locked && s.channel == LampFirmwareVersion && s.address == 0x01
    requires forall j :: 0 <= j < |s.queue| ==> s.queue[j] == Waiting(s.queue[j].rid, VersionQuery, false)
    ensures var r := Run(s, Replies(k, |Line(s)|));
      && r.1.sent == Copies(VersionQuery, |s.queue|)
      && r.1.delivered == AnnotatedFrom(k, |Line(s)|)
      && r.1.done == AllAnswered(Line(s))
      && r.1.error.None?
      && !r.0.locked
    decreases |s.queue|
  {
    var n := |Line(s)|;
    var es := Replies(k, n);
    AnswerStep(s, k);
    RunCons(s, es);
    var a := Step(s, es[0]);
    assert es[1..] == Replies(k + 1, n - 1);
    assert Line(s) == [s.holder] + Rids(s.queue);
    if s.queue == [] {
      assert Run(a.0, es[1..]) == (a.0, Quiet);
    } else {
      var s' := a.0;
      assert Line(s') == Rids(s.queue) by {
        assert Rids(s.queue) == [s.queue[0].rid] + Rids(s.queue[1..]);
      }
      RepliesDrainLine(s', k + 1);
      assert Copies(VersionQuery, |s.queue|) == [VersionQuery] + Copies(VersionQuery, |s'.queue|);
    }
  }

  lemma RunCons(s: Slot, es: seq<Event>)
    requires Valid(s) && es != [] && forall i :: 0 <= i < |es| ==> EventOk(es[i])
    ensures var a := Step(s, es[0]);
      Run(s, es) == (Run(a.0, es[1..]).0, Then(a.1, Run(a.0, es[1..]).1))
  {
  }

  /** A query to one lamp submitted while the lock is free is sent at once
      and takes the lock. */
  lemma SubmitWhenFree(s: Slot, rid: nat, m: Message)
    requires Valid(s) && !s.locked && TakesLock(m) && Stamped(m)
    ensures Step(s, Submit(rid, m, false))
         == (Slot(true, rid, m.meta.channel.value, m.meta.address.value, []), Output([m], [], [], None))
  {
    assert FirstLive([Waiting(rid, m, false)]) == 0;
  }

  /** A query to one lamp submitted while the lock is held joins the line. */
  lemma SubmitWhenBusy(s: Slot, rid: nat, m: Message, c: bool)
    requires Valid(s) && s.locked && TakesLock(m) && Stamped(m)
    ensures Step(s, Submit(rid, m, c)) == (s.(queue := s.queue + [Waiting(rid, m, c)]), Quiet)
  {
  }

  /** The holder's token fires with nobody waiting: the lock is freed. */
  lemma CancelHolder(s: Slot)
    requires Valid(s) && s.locked && s.queue == []
    ensures Step(s, Cancel(s.holder)) == (s.(locked := false), Output([], [], [Done(s.holder, Cancelled)], None))
  {
    assert Admit(s.(locked := false)) == (s.(locked := false), Quiet);
    assert [Done(s.holder, Cancelled)] + Quiet.done == [Done(s.holder, Cancelled)];
    assert Release(s, Cancelled) == (s.(locked := false), Output([], [], [Done(s.holder, Cancelled)], None));
  }

  /** The holder's push rejects: the holder settles as failed at once,
      before anyone else, and the lock passes to the next request whose
      token has not fired, whose query is sent; nothing is delivered and
      no error is raised by the correlator itself. A failure reported for
      any other request changes nothing. */
  lemma PushFailureReleases(s: Slot, rid: nat)
    requires Valid(s)
    ensures var r := Step(s, PushFailed(rid));
      && (s.locked && rid == s.holder ==>
            && r.1.done[..1] == [Done(s.holder, Failed)]
            && r.1.delivered == [] && r.1.error.None?
            && var k := FirstLive(s.queue);
               && (k == |s.queue| ==> !r.0.locked && r.1.sent == [])
               && (k < |s.queue| ==> r.0.locked && r.0.holder == s.queue[k].rid && r.1.sent == [s.queue[k].msg]))
      && (!(s.locked && rid == s.holder) ==> r == (s, Quiet))
  {
    if s.locked && rid == s.holder {
      var a := Admit(s.(locked := false));
      assert Release(s, Failed).1.done[..1] == [Done(s.holder, Failed)];
    }
  }

  /** The holder of a lock on lamp 0x01's firmware-version channel receives
      reply `i`: it is delivered with address 0x01 and the next in line is
      sent. */
  lemma AnswerStep(s: Slot, i: int)
    requires Valid(s) && s.locked && s.channel == LampFirmwareVersion && s.address == 0x01
    requires forall j :: 0 <= j < |s.queue| ==> s.queue[j] == Waiting(s.queue[j].rid, VersionQuery, false)
    ensures var r := Step(s, Inbound(VersionReply(i)));
      && r.1.delivered == [Annotated(i)]
      && r.1.done == [Done(s.holder, Answered)] && r.1.error.None?
      && (s.queue == [] ==> r.0 == s.(locked := false) && r.1.sent == [])
      && (s.queue != [] ==> r.0 == s.(holder := s.queue[0].rid, queue := s.queue[1..]) && r.1.sent == [VersionQuery])
  {
    if s.queue != [] {
      assert FirstLive(s.(locked := false).queue) == 0;
    }
  }

}
