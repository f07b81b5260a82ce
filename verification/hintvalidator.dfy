/** The discovery probe: a firmware-version query is swept over every lamp
    address, three times over, until some lamp answers; the first answer
    becomes the device candidate. */
module HintValidator {
  import opened Common

  /** Sweeps, and the addresses each sweep covers (0x01..0xFE inclusive). */
  const Attempts: nat := 3
  const FirstAddress: int := 0x01
  const LastAddress: int := 0xFE
  const PerSweep: nat := 254
  const MaxProbes: nat := 762

  /** The default per-address wait, in milliseconds. */
  const DefaultPerAddressTimeout: nat := 10

  /** Whatever the replies, the cancellation point and the digest, the
      probes sent are a prefix of the three sweeps over 0x01..0xFE, so there
      are at most 3 * 254 of them. */
  lemma ProbeCounts(o: Oracle, cancelAt: Option<nat>, digest: string)
    ensures PerSweep == LastAddress - FirstAddress + 1
    ensures MaxProbes == Attempts * PerSweep
    ensures var sent := Sweep(o, cancelAt, digest).sent;
      && |sent| <= Attempts * (LastAddress - FirstAddress + 1)
      && forall i :: 0 <= i < |sent| ==> sent[i] == Probe(AddressOf(i))
  {
    SweepClosedForm(o, cancelAt, digest);
  }

  /** Probe number `k` goes out in sweep `k / 254` to address `k % 254 + 1`. */
  function AttemptOf(k: nat): nat
  {
    k / PerSweep
  }

  function AddressOf(k: nat): (a: int)
    ensures FirstAddress <= a <= LastAddress
  {
    k % PerSweep + FirstAddress
  }

  /** The ID a reply from address `a` must carry. */
  function ProbeId(a: int): MessageId
  {
    CommandId(a, RdVersion)
  }

  /** `sendRequest`'s request: a firmware-version query, data 0x00, with the
      address and command name stamped in the metadata. */
  function Probe(a: int): (m: Message)
    ensures m.id == ProbeId(a) && m.payload == Some(0x00)
    ensures m.meta.query && m.meta.address == Some(a) && m.meta.commandName == Some(RdVersion)
  {
    Message(ProbeId(a), Some(0x00), FreshMetadata.(query := true, address := Some(a), commandName := Some(RdVersion)))
  }

  /** `waitForReply`'s filter: the first message, among those arriving while
      the probe to `a` waits, whose ID is the probe's ID. */
  function FirstMatch(replies: seq<Message>, a: int): (r: Option<Message>)
    ensures r.None? <==> forall i :: 0 <= i < |replies| ==> replies[i].id != ProbeId(a)
    ensures r.Some? ==> exists i :: 0 <= i < |replies| && replies[i] == r.value && r.value.id == ProbeId(a) &&
                                    forall j :: 0 <= j < i ==> replies[j].id != ProbeId(a)
  {
    var i := MatchIndex(replies, a);
    if i < |replies| then Some(replies[i]) else None
  }

  function MatchIndex(replies: seq<Message>, a: int): (i: nat)
    ensures i <= |replies| && forall j :: 0 <= j < i ==> replies[j].id != ProbeId(a)
    ensures i < |replies| ==> replies[i].id == ProbeId(a)
  {
    if replies == [] || replies[0].id == ProbeId(a) then 0 else 1 + MatchIndex(replies[1..], a)
  }

  /** The decimal digit characters. */
  function DigitChar(d: nat): char
    requires d < 10
  {
    "0123456789"[d]
  }

  predicate IsDigit(c: char)
  {
    '0' <= c <= '9'
  }

  /** `String(n)` for a non-negative integer: its decimal digits. */
  function Digits(n: nat): (s: string)
    ensures |s| >= 1 && forall i :: 0 <= i < |s| ==> IsDigit(s[i])
    decreases n
  {
    if n < 10 then [DigitChar(n)] else Digits(n / 10) + [DigitChar(n % 10)]
  }

  /** Reads a string of decimal digits back as a number. */
  function ParseDigits(s: string): nat
    requires forall i :: 0 <= i < |s| ==> IsDigit(s[i])
  {
    if s == [] then 0
    else
      assert IsDigit(s[|s| - 1]);
      10 * ParseDigits(s[..|s| - 1]) + (s[|s| - 1] as int - '0' as int)
  }

  lemma {:induction false} DigitsRoundTrip(n: nat)
    ensures ParseDigits(Digits(n)) == n
    decreases n
  {
    if n >= 10 {
      var s := Digits(n);
      assert s[..|s| - 1] == Digits(n / 10);
      DigitsRoundTrip(n / 10);
    }
  }

  /** `String(firmwareVersion)`: a missing payload prints as `undefined`. */
  function VersionText(v: Option<int>): string
  {
    match v
    case None => "undefined"
    case Some(n) => if n < 0 then "-" + Digits(-n) else Digits(n)
  }

  /** A version prints as its decimal digits, with a leading minus sign
      when negative, and those digits read back as the version. */
  lemma VersionTextDecimal(v: int)
    ensures var s := VersionText(Some(v));
      && (v >= 0 ==> (forall i :: 0 <= i < |s| ==> IsDigit(s[i])) && ParseDigits(s) == v)
      && (v < 0 ==> |s| >= 2 && s[0] == '-' && (forall i :: 1 <= i < |s| ==> IsDigit(s[i]))
                    && ParseDigits(s[1..]) == -v)
  {
    var n: nat := if v < 0 then -v else v;
    var d := Digits(n);
    DigitsRoundTrip(n);
    if v < 0 {
      var s := "-" + d;
      assert s[1..] == d;
      assert VersionText(Some(v)) == s;
    } else {
      assert VersionText(Some(v)) == d;
    }
  }

  /** The device ID: the firmware version and the connection digest joined
      by a dash. The digest is the hexadecimal MD5 of the connection hash,
      computed outside the model. */
  function DeviceId(version: Option<int>, digest: string): string
  {
    VersionText(version) + "-" + digest
  }

  /** Position of the first dash, or the length when there is none. */
  function FirstDash(s: string): (i: nat)
    ensures i <= |s| && (i < |s| ==> s[i] == '-')
    ensures forall j :: 0 <= j < i ==> s[j] != '-'
  {
    if s == [] || s[0] == '-' then 0 else 1 + FirstDash(s[1..])
  }

  /** Splits a device ID into version and digest: the digits before the
      first dash and everything after it. */
  function ParseDeviceId(s: string): (r: Option<(nat, string)>)
    ensures r.Some? ==> FirstDash(s) < |s|
  {
    var i := FirstDash(s);
    if i == |s| || i == 0 || exists j :: 0 <= j < i && !IsDigit(s[j]) then None
    else Some((ParseDigits(s[..i]), s[i + 1..]))
  }

  /** The device ID of a non-negative version gives back the version and
      the digest, whatever the digest holds (dashes included). */
  lemma DeviceIdRoundTrip(v: nat, digest: string)
    ensures ParseDeviceId(DeviceId(Some(v), digest)) == Some((v, digest))
  {
    var s := DeviceId(Some(v), digest);
    var ds := Digits(v);
    assert s == ds + "-" + digest;
    assert forall j :: 0 <= j < |ds| ==> s[j] == ds[j] && s[j] != '-';
    FirstDashAt(s, |ds|);
    assert s[..|ds|] == ds && s[|ds| + 1..] == digest;
    DigitsRoundTrip(v);
  }

  lemma FirstDashAt(s: string, i: nat)
    requires i < |s| && s[i] == '-' && forall j :: 0 <= j < i ==> s[j] != '-'
    ensures FirstDash(s) == i
  {
  }

  /** The validator's own state: whether a version has been received and
      the candidates it has pushed. */
  datatype Validator = Validator(received: bool, candidates: seq<string>)

  const FreshValidator := Validator(false, [])

  /** `receivedResponse`: only the first response counts; it pushes the
      candidate built from its version and the digest. */
  function Received(s: Validator, version: Option<int>, digest: string): (r: Validator)
    ensures r.received
    ensures s.received ==> r == s
    ensures !s.received ==> r.candidates == s.candidates + [DeviceId(version, digest)]
  {
    if s.received then s
    else Validator(true, s.candidates + [DeviceId(version, digest)])
  }

  /** A fresh validator pushes at most one candidate, however many
      responses arrive: exactly one once anything was received. */
  predicate AtMostOne(s: Validator)
  {
    (s.received <==> |s.candidates| == 1) && |s.candidates| <= 1
  }

  lemma ReceivedKeepsOne(s: Validator, version: Option<int>, digest: string)
    requires AtMostOne(s)
    ensures AtMostOne(Received(s, version, digest))
    ensures s.received ==> Received(s, version, digest).candidates == s.candidates
  {
  }

  /** The replies arriving while the probe of a sweep to an address waits. */
  type Oracle = (nat, int) -> seq<Message>

  /** What the reply to probe `k` is, if any. */
  function Answer(o: Oracle, k: nat): Option<Message>
  {
    FirstMatch(o(AttemptOf(k), AddressOf(k)), AddressOf(k))
  }

  /** How validation ends: the validator's state, the probes sent in order,
      and whether the root token halted it (`startValidation` rejects). */
  datatype Outcome = Outcome(state: Validator, sent: seq<Message>, halted: bool)

  /** `startValidation` from probe `k` on. Before each probe: halt when the
      root token is cancelled (`cancelAt` is the number of probes sent
      before it fired), then stop when a version has been received;
      otherwise send the probe and take in its reply, if any. */
  function SweepFrom(o: Oracle, cancelAt: Option<nat>, digest: string, k: nat, s: Validator, sent: seq<Message>): (r: Outcome)
    requires k <= MaxProbes
    decreases MaxProbes - k
  {
    if k == MaxProbes then Outcome(s, sent, false)
    else if cancelAt.Some? && cancelAt.value <= k then Outcome(s, sent, true)
    else if s.received then Outcome(s, sent, false)
    else
      var sent' := sent + [Probe(AddressOf(k))];
      match Answer(o, k)
      case None => SweepFrom(o, cancelAt, digest, k + 1, s, sent')
      case Some(reply) => SweepFrom(o, cancelAt, digest, k + 1, Received(s, reply.payload, digest), sent')
  }

  function Sweep(o: Oracle, cancelAt: Option<nat>, digest: string): Outcome
  {
    SweepFrom(o, cancelAt, digest, 0, FreshValidator, [])
  }

  /** The probes before `k`, as the sweep sends them. */
  function Probes(k: nat): (ps: seq<Message>)
    ensures |ps| == k && forall i :: 0 <= i < k ==> ps[i] == Probe(AddressOf(i))
  {
    if k == 0 then [] else Probes(k - 1) + [Probe(AddressOf(k - 1))]
  }

  /** Index of the first probe that is answered, or `MaxProbes`. */
  function FirstAnswered(o: Oracle, k: nat): (f: nat)
    requires k <= MaxProbes
    ensures k <= f <= MaxProbes
    ensures forall j :: k <= j < f ==> Answer(o, j).None?
    ensures f < MaxProbes ==> Answer(o, f).Some?
    decreases MaxProbes - k
  {
    if k == MaxProbes || Answer(o, k).Some? then k else FirstAnswered(o, k + 1)
  }

  /** The sweep's result in closed form. With `f` the first answered probe
      and `c` the cancellation point: the probes sent are the first
      min(f + 1, c, 762), in sweep order; a candidate is pushed exactly when
      probe `f` went out, and it carries that reply's version; the sweep
      halts exactly when the cancellation comes before it would stop. */
  function Expected(o: Oracle, cancelAt: Option<nat>, digest: string): Outcome
  {
    var f := FirstAnswered(o, 0);
    var stop := if f < MaxProbes then f + 1 else MaxProbes;
    var c := if cancelAt.Some? then cancelAt.value else MaxProbes;
    var state := if f < MaxProbes && f < c then Validator(true, [DeviceId(Answer(o, f).value.payload, digest)])
                 else FreshValidator;
    Outcome(state, Probes(if c < stop then c else stop), c < stop || (c == stop && stop < MaxProbes))
  }

  lemma SweepClosedForm(o: Oracle, cancelAt: Option<nat>, digest: string)
    ensures Sweep(o, cancelAt, digest) == Expected(o, cancelAt, digest)
    ensures |Sweep(o, cancelAt, digest).sent| <= MaxProbes
    ensures AtMostOne(Sweep(o, cancelAt, digest).state)
  {
    SweepFromClosedForm(o, cancelAt, digest, 0);
  }

  lemma {:induction false} SweepFromClosedForm(o: Oracle, cancelAt: Option<nat>, digest: string, k: nat)
    requires k <= FirstAnswered(o, 0) && k <= MaxProbes
    requires cancelAt.None? || k <= cancelAt.value
    ensures SweepFrom(o, cancelAt, digest, k, FreshValidator, Probes(k)) == Expected(o, cancelAt, digest)
    decreases MaxProbes - k
  {
    if k == MaxProbes || (cancelAt.Some? && cancelAt.value <= k) {
      StoppedAt(o, cancelAt, digest, k);
    } else if k < FirstAnswered(o, 0) {
      UnansweredAt(o, cancelAt, digest, k);
      SweepFromClosedForm(o, cancelAt, digest, k + 1);
    } else {
      AnsweredAt(o, cancelAt, digest, k);
    }
  }

  /** The sweep stops before probe `k`, unanswered so far, when it has
      sent all probes or the cancellation fires there. */
  lemma StoppedAt(o: Oracle, cancelAt: Option<nat>, digest: string, k: nat)
    requires k <= FirstAnswered(o, 0) && k <= MaxProbes
    requires cancelAt.None? || k <= cancelAt.value
    requires k == MaxProbes || (cancelAt.Some? && cancelAt.value <= k)
    ensures SweepFrom(o, cancelAt, digest, k, FreshValidator, Probes(k)) == Expected(o, cancelAt, digest)
  {
    var f := FirstAnswered(o, 0);
    var c := if cancelAt.Some? then cancelAt.value else MaxProbes;
    if k == MaxProbes {
      assert f == MaxProbes && c >= MaxProbes;
    } else {
      assert c == k && k <= f;
    }
  }

  /** An unanswered probe `k` goes out and the sweep moves on unchanged. */
  lemma UnansweredAt(o: Oracle, cancelAt: Option<nat>, digest: string, k: nat)
    requires k < FirstAnswered(o, 0) && k < MaxProbes
    requires cancelAt.None? || k < cancelAt.value
    ensures SweepFrom(o, cancelAt, digest, k, FreshValidator, Probes(k))
         == SweepFrom(o, cancelAt, digest, k + 1, FreshValidator, Probes(k + 1))
  {
    assert Answer(o, k).None?;
    assert Probes(k + 1) == Probes(k) + [Probe(AddressOf(k))];
  }

  /** The step at the first answered probe `k`: the sweep sends it, takes in
      the reply, and stops before the next probe. */
  lemma AnsweredAt(o: Oracle, cancelAt: Option<nat>, digest: string, k: nat)
    requires k == FirstAnswered(o, 0) && k < MaxProbes
    requires cancelAt.None? || k < cancelAt.value
    ensures SweepFrom(o, cancelAt, digest, k, FreshValidator, Probes(k)) == Expected(o, cancelAt, digest)
  {
    var reply := Answer(o, k).value;
    var s := Received(FreshValidator, reply.payload, digest);
    assert SweepFrom(o, cancelAt, digest, k, FreshValidator, Probes(k))
        == SweepFrom(o, cancelAt, digest, k + 1, s, Probes(k + 1));
  }

  /** A lamp that never answers leaves every probe unanswered. */
  lemma Silent(o: Oracle, k: nat)
    requires forall t: nat, a: int :: o(t, a) == []
    ensures Answer(o, k).None?
  {
    assert o(AttemptOf(k), AddressOf(k)) == [];
  }

  /** With no replies and no cancellation, all 762 probes go out and
      validation completes without a candidate. */
  lemma Exhausted(o: Oracle, digest: string)
    requires forall t: nat, a: int :: o(t, a) == []
    ensures var r := Sweep(o, None, digest);
      |r.sent| == MaxProbes && r.state.candidates == [] && !r.halted
  {
    SweepClosedForm(o, None, digest);
    Silent(o, FirstAnswered(o, 0));
  }

  /** Sweep order: the probes of one sweep visit the addresses upward from
      0x01 to 0xFE, and the next sweep starts again at 0x01. */
  lemma SweepOrder(k: nat)
    requires k + 1 < MaxProbes
    ensures AttemptOf(k) < Attempts
    ensures AttemptOf(k + 1) == AttemptOf(k) ==> AddressOf(k + 1) == AddressOf(k) + 1
    ensures AttemptOf(k + 1) != AttemptOf(k) ==>
      AttemptOf(k + 1) == AttemptOf(k) + 1 && AddressOf(k) == LastAddress && AddressOf(k + 1) == FirstAddress
  {
  }

  /** Attempt `t` at address `a` is probe number `t * 254 + a - 1`. */
  lemma ProbeIndex(t: nat, a: int, k: nat)
    requires t < Attempts && FirstAddress <= a <= LastAddress
    requires k == t * 254 + (a - FirstAddress)
    ensures k < MaxProbes && AttemptOf(k) == t && AddressOf(k) == a
  {
  }

  /** One probe of the sweep, when neither stop condition holds: it goes
      out and its reply, if any, is taken in. */
  lemma SweepStep(o: Oracle, cancelAt: Option<nat>, digest: string, k: nat, s: Validator, sent: seq<Message>,
                  answer: Option<Message>, s': Validator)
    requires k < MaxProbes && !(cancelAt.Some? && cancelAt.value <= k) && !s.received
    requires answer == Answer(o, k)
    requires s' == if answer.Some? then Received(s, answer.value.payload, digest) else s
    ensures SweepFrom(o, cancelAt, digest, k, s, sent)
         == SweepFrom(o, cancelAt, digest, k + 1, s', sent + [Probe(AddressOf(k))])
  {
  }

  /** `startValidation` as loops: sweeps over attempts 0..2, addresses
      0x01..0xFE, computing what `Sweep` describes. */
  method Validate(o: Oracle, cancelAt: Option<nat>, digest: string) returns (r: Outcome)
    ensures r == Sweep(o, cancelAt, digest)
  {
    var s := FreshValidator;
    var sent: seq<Message> := [];
    var attempt: nat := 0;
    while attempt < Attempts
      invariant attempt <= Attempts && |sent| == attempt * 254
      invariant Sweep(o, cancelAt, digest) == SweepFrom(o, cancelAt, digest, |sent|, s, sent)
    {
      var stop;
      stop, s, sent := SweepAddresses(o, cancelAt, digest, attempt, s, sent);
      if stop.Some? {
        return stop.value;
      }
      attempt := attempt + 1;
    }
    return Outcome(s, sent, false);
  }

  /** The inner loop of `startValidation`: one sweep over addresses
      0x01..0xFE. It either ends validation, with the outcome the sweep
      describes, or hands on a state from which the rest of the sweep goes
      the same way. */
  method SweepAddresses(o: Oracle, cancelAt: Option<nat>, digest: string, attempt: nat, s0: Validator, sent0: seq<Message>)
    returns (stop: Option<Outcome>, s: Validator, sent: seq<Message>)
    requires attempt < Attempts && |sent0| == attempt * 254
    ensures stop.Some? ==> stop.value == SweepFrom(o, cancelAt, digest, |sent0|, s0, sent0)
    ensures stop.None? ==> (|sent| == |sent0| + PerSweep &&
      SweepFrom(o, cancelAt, digest, |sent|, s, sent) == SweepFrom(o, cancelAt, digest, |sent0|, s0, sent0))
  {
    s, sent := s0, sent0;
    ghost var k: nat := |sent0|;
    var address := FirstAddress;
    while address <= LastAddress
      invariant FirstAddress <= address <= LastAddress + 1
      invariant k == attempt * 254 + (address - FirstAddress) && |sent| == k
      invariant SweepFrom(o, cancelAt, digest, |sent0|, s0, sent0) == SweepFrom(o, cancelAt, digest, k, s, sent)
    {
      ProbeIndex(attempt, address, k);
      if cancelAt.Some? && cancelAt.value <= |sent| {
        return Some(Outcome(s, sent, true)), s, sent;
      }
      if s.received {
        return Some(Outcome(s, sent, false)), s, sent;
      }
      ghost var (s1, sent1) := (s, sent);
      sent := sent + [Probe(address)];
      var replies := o(attempt, address);
      var answer := FirstMatch(replies, address);
      if answer.Some? {
        s := Received(s, answer.value.payload, digest);
      }
      SweepStep(o, cancelAt, digest, k, s1, sent1, answer, s);
      address := address + 1;
      k := k + 1;
    }
    return None, s, sent;
  }
}
