/** The value codec: per-channel linear rescaling between application values
    and the wire data byte, with range checks and rounding to the nearest
    integer (halves upward, as `Math.round` does). */
module Codecs {
  import opened Common

  /** Declared input range and output range of one rescaling. */
  datatype Range = Range(inMin: int, inMax: int, outMin: int, outMax: int)
  {
    predicate WellFormed()
    {
      inMin < inMax && outMin <= outMax
    }

    /** The same rescaling in the opposite direction. */
    function Inverse(): Range
    {
      Range(outMin, outMax, inMin, inMax)
    }
  }

  /** `r` is the integer nearest to `num / den`, halves rounding upward. */
  predicate Nearest(r: int, num: int, den: int)
  {
    -den < 2 * (r * den - num) <= den
  }

  /** `Math.round(num / den)` for integers, computed exactly. */
  function RoundDiv(num: int, den: int): (r: int)
    requires den > 0
    ensures Nearest(r, num, den)
  {
    var r := (2 * num + den) / (2 * den);
    DivBounds(2 * num + den, 2 * den);
    r
  }

  lemma DivBounds(n: int, d: int)
    requires d > 0
    ensures d * (n / d) <= n < d * (n / d) + d
  {
  }

  /** Floor division is determined by its bounds. */
  lemma DivUnique(n: int, d: int, q: int)
    requires d > 0 && d * q <= n < d * q + d
    ensures n / d == q
  {
    DivBounds(n, d);
    var p := n / d;
    if p < q {
      MulMono(d, p + 1, q);
    } else if p > q {
      MulMono(d, q + 1, p);
    }
  }

  lemma MulMono(d: int, a: int, b: int)
    requires d >= 0 && a <= b
    ensures d * a <= d * b
  {
  }

  /** The integer nearest to `num / den` for a multiple of `den` is exact. */
  lemma RoundDivExact(k: int, den: int)
    requires den > 0
    ensures RoundDiv(k * den, den) == k
  {
    assert 2 * den * k <= 2 * (k * den) + den < 2 * den * k + 2 * den;
    DivUnique(2 * (k * den) + den, 2 * den, k);
  }

  lemma RoundDivRange(num: int, den: int, k: int)
    requires den > 0 && k >= 0 && 0 <= num <= k * den
    ensures 0 <= RoundDiv(num, den) <= k
  {
    var r := RoundDiv(num, den);
    if r < 0 {
      MulMono(den, r, -1);
      assert false;
    }
    if r > k {
      MulMono(den, k + 1, r);
      assert false;
    }
  }

  lemma RoundDivMono(a: int, b: int, den: int)
    requires den > 0 && a <= b
    ensures RoundDiv(a, den) <= RoundDiv(b, den)
  {
    var ra := RoundDiv(a, den);
    var rb := RoundDiv(b, den);
    if ra > rb {
      MulMono(den, rb + 1, ra);
      assert false;
    }
  }

  /** The linear map of `map(x, inMin, inMax, outMin, outMax)`: an error when
      `x` lies outside the input range, otherwise the integer nearest to the
      exact image of `x` in the output range. */
  function Map(x: int, rg: Range): (r: Result<int>)
    requires rg.WellFormed()
    ensures r.Err? <==> x < rg.inMin || x > rg.inMax
    ensures r.Err? ==> r.error == OutOfRange
    ensures r.Ok? ==> rg.outMin <= r.value <= rg.outMax
    ensures r.Ok? ==> Nearest(r.value - rg.outMin, (x - rg.inMin) * (rg.outMax - rg.outMin), rg.inMax - rg.inMin)
    ensures x == rg.inMin ==> r == Ok(rg.outMin)
    ensures x == rg.inMax ==> r == Ok(rg.outMax)
  {
    if x < rg.inMin || x > rg.inMax then Err(OutOfRange)
    else
      var den := rg.inMax - rg.inMin;
      var k := rg.outMax - rg.outMin;
      var num := (x - rg.inMin) * k;
      MapStep(x, rg);
      Ok(RoundDiv(num, den) + rg.outMin)
  }

  lemma MapStep(x: int, rg: Range)
    requires rg.WellFormed() && rg.inMin <= x <= rg.inMax
    ensures var den := rg.inMax - rg.inMin;
      var k := rg.outMax - rg.outMin;
      && 0 <= RoundDiv((x - rg.inMin) * k, den) <= k
      && (x == rg.inMin ==> RoundDiv((x - rg.inMin) * k, den) == 0)
      && (x == rg.inMax ==> RoundDiv((x - rg.inMin) * k, den) == k)
  {
    var den := rg.inMax - rg.inMin;
    var k := rg.outMax - rg.outMin;
    var num := (x - rg.inMin) * k;
    MulMono(k, 0, x - rg.inMin);
    MulMono(k, x - rg.inMin, den);
    assert 0 <= num <= k * den;
    RoundDivRange(num, den, k);
    if x == rg.inMin {
      assert num == 0 * den;
      RoundDivExact(0, den);
    }
    if x == rg.inMax {
      assert num == k * den;
      RoundDivExact(k, den);
    }
  }

  /** In-range inputs map monotonically. */
  lemma MapMonotone(x: int, y: int, rg: Range)
    requires rg.WellFormed() && rg.inMin <= x <= y <= rg.inMax
    ensures Map(x, rg).value <= Map(y, rg).value
  {
    var k := rg.outMax - rg.outMin;
    MulMono(k, x - rg.inMin, y - rg.inMin);
    RoundDivMono((x - rg.inMin) * k, (y - rg.inMin) * k, rg.inMax - rg.inMin);
  }

  /** A range mapped onto itself is the identity. */
  lemma MapIdentity(x: int, rg: Range)
    requires rg.WellFormed() && rg.inMin == rg.outMin && rg.inMax == rg.outMax
    requires rg.inMin <= x <= rg.inMax
    ensures Map(x, rg) == Ok(x)
  {
    var den := rg.inMax - rg.inMin;
    assert (x - rg.inMin) * den == (x - rg.inMin) * den;
    RoundDivExact(x - rg.inMin, den);
  }

  /** Rescaling into a range at least as wide and back returns the input:
      the rounding error of the first step is too small to survive the
      second. */
  lemma ExpandThenBack(x: int, rg: Range)
    requires rg.WellFormed() && rg.outMin < rg.outMax
    requires rg.inMax - rg.inMin <= rg.outMax - rg.outMin
    requires rg.inMin <= x <= rg.inMax
    ensures Map(Map(x, rg).value, rg.Inverse()) == Ok(x)
  {
    var a := rg.inMax - rg.inMin;
    var b := rg.outMax - rg.outMin;
    var y := Map(x, rg).value - rg.outMin;
    NearestBack(a, b, x - rg.inMin, y);
  }

  /** The arithmetic core of `ExpandThenBack`: when `y` is nearest to
      `d * b / a` and `a <= b`, then `d` is nearest to `y * a / b`. */
  lemma NearestBack(a: int, b: int, d: int, y: int)
    requires 0 < a <= b && Nearest(y, d * b, a)
    ensures RoundDiv(y * a, b) == d
  {
    if a == b {
      SameScale(a, d, y);
      RoundDivExact(d, b);
    } else {
      assert 2 * b * d <= 2 * (y * a) + b < 2 * b * d + 2 * b;
      DivUnique(2 * (y * a) + b, 2 * b, d);
    }
  }

  lemma SameScale(a: int, d: int, y: int)
    requires 0 < a && Nearest(y, d * a, a)
    ensures y == d && y * a == d * a
  {
    assert y * a - d * a == (y - d) * a;
    if y > d {
      MulMono(a, 1, y - d);
    } else if y < d {
      MulMono(a, 1, d - y);
    }
  }

  /** Encode-direction range of each channel; channels without a case, and an
      unset channel, use the identity on 0x00..0xFF. */
  function EncodeRange(ch: Option<Channel>): (rg: Range)
    ensures rg.WellFormed() && rg.outMin < rg.outMax
  {
    match ch
    case Some(LampAddress) => Range(1, 252, 0x01, 0xFC)
    case Some(PulseIntensityBottomIr) => Range(0, 100, 0x00, 0xFF)
    case Some(PulseIntensityTopWhite) => Range(0, 100, 0x00, 0x1F)
    case Some(StrobePulseWidth) => Range(100, 500, 0x32, 0xFA)
    case Some(StrobePulseDelay) => Range(0, 65280, 0x00, 0xFF)
    case Some(Options) => Range(0x00, 0x26, 0x00, 0x26)
    case _ => Range(0x00, 0xFF, 0x00, 0xFF)
  }

  /** Decode-direction range of each channel; the address and options
      channels have no case of their own and use the identity on 0x00..0xFF. */
  function DecodeRange(ch: Option<Channel>): (rg: Range)
    ensures rg.WellFormed() && rg.outMin < rg.outMax
  {
    match ch
    case Some(PulseIntensityBottomIr) => Range(0x00, 0xFF, 0, 100)
    case Some(PulseIntensityTopWhite) => Range(0x00, 0x1F, 0, 100)
    case Some(StrobePulseWidth) => Range(0x32, 0xFA, 100, 500)
    case Some(StrobePulseDelay) => Range(0x00, 0xFF, 0, 65280)
    case _ => Range(0x00, 0xFF, 0x00, 0xFF)
  }

  /** `encodeData`: application value to wire value. */
  function EncodeData(ch: Option<Channel>, v: int): (r: Result<int>)
    ensures r.Err? <==> v < EncodeRange(ch).inMin || v > EncodeRange(ch).inMax
    ensures r.Ok? ==> 0 <= r.value < 256
  {
    Map(v, EncodeRange(ch))
  }

  /** `decodeData`: wire value to application value. */
  function DecodeData(ch: Option<Channel>, w: int): (r: Result<int>)
    ensures r.Err? <==> w < DecodeRange(ch).inMin || w > DecodeRange(ch).inMax
    ensures r.Ok? ==> DecodeRange(ch).outMin <= r.value <= DecodeRange(ch).outMax
  {
    Map(w, DecodeRange(ch))
  }

  /** The address channel encodes 1..252 unchanged, the options channel
      0x00..0x26, and channels without a case 0x00..0xFF. */
  lemma EncodeIdentityRanges(ch: Option<Channel>, v: int)
    ensures ch == Some(LampAddress) && 1 <= v <= 252 ==> EncodeData(ch, v) == Ok(v)
    ensures ch == Some(Options) && 0 <= v <= 0x26 ==> EncodeData(ch, v) == Ok(v)
    ensures (ch !in {Some(LampAddress), Some(PulseIntensityBottomIr), Some(PulseIntensityTopWhite),
                     Some(StrobePulseWidth), Some(StrobePulseDelay), Some(Options)}
             && 0 <= v <= 0xFF) ==> EncodeData(ch, v) == Ok(v)
  {
    var rg := EncodeRange(ch);
    if rg.inMin == rg.outMin && rg.inMax == rg.outMax && rg.inMin <= v <= rg.inMax {
      MapIdentity(v, rg);
    }
  }

  /** Values outside the address range are rejected. */
  lemma AddressOutOfRange()
    ensures EncodeData(Some(LampAddress), -100) == Err(OutOfRange)
    ensures EncodeData(Some(LampAddress), 0x00) == Err(OutOfRange)
    ensures EncodeData(Some(LampAddress), 0xFFFF) == Err(OutOfRange)
  {
  }

  /** Wire values outside a channel's wire range are rejected. */
  lemma WireOutOfRange()
    ensures DecodeData(Some(StrobePulseWidth), 0x00) == Err(OutOfRange)
    ensures DecodeData(Some(PulseIntensityBottomIr), -100) == Err(OutOfRange)
    ensures DecodeData(Some(PulseIntensityBottomIr), 0xFFFF) == Err(OutOfRange)
  {
    WidthWireTooLow();
    IntensityWireOutside();
  }

  /** The strobe width's wire range starts at 0x32. */
  lemma WidthWireTooLow()
    ensures DecodeData(Some(StrobePulseWidth), 0x00) == Err(OutOfRange)
  {
    assert DecodeRange(Some(StrobePulseWidth)).inMin == 0x32;
    Rejected(Some(StrobePulseWidth), 0x00);
  }

  /** The bottom intensity's wire range is 0x00..0xFF. */
  lemma IntensityWireOutside()
    ensures DecodeData(Some(PulseIntensityBottomIr), -100) == Err(OutOfRange)
    ensures DecodeData(Some(PulseIntensityBottomIr), 0xFFFF) == Err(OutOfRange)
  {
    assert DecodeRange(Some(PulseIntensityBottomIr)) == Range(0x00, 0xFF, 0, 100);
    Rejected(Some(PulseIntensityBottomIr), -100);
    Rejected(Some(PulseIntensityBottomIr), 0xFFFF);
  }

  lemma Rejected(ch: Option<Channel>, w: int)
    requires w < DecodeRange(ch).inMin || w > DecodeRange(ch).inMax
    ensures DecodeData(ch, w) == Err(OutOfRange)
  {
  }

  /** The strobe delay scale: one wire step is 256 microseconds, and 515
      rounds down to the same step as 512. */
  lemma StrobeDelayGolden()
    ensures EncodeData(Some(StrobePulseDelay), 512) == Ok(2)
    ensures EncodeData(Some(StrobePulseDelay), 515) == Ok(2)
    ensures EncodeData(Some(StrobePulseDelay), 1024) == Ok(4)
    ensures DecodeData(Some(StrobePulseDelay), 0) == Ok(0)
    ensures DecodeData(Some(StrobePulseDelay), 1) == Ok(256)
    ensures DecodeData(Some(StrobePulseDelay), 2) == Ok(512)
    ensures DecodeData(Some(StrobePulseDelay), 4) == Ok(1024)
  {
    var e := EncodeRange(Some(StrobePulseDelay));
    var d := DecodeRange(Some(StrobePulseDelay));
    assert e == Range(0, 65280, 0x00, 0xFF) && d == e.Inverse();
    assert Map(512, e) == Ok(RoundDiv(512 * 255, 65280));
    assert RoundDiv(512 * 255, 65280) == 2;
    assert Map(515, e) == Ok(RoundDiv(515 * 255, 65280));
    assert RoundDiv(515 * 255, 65280) == 2;
    assert Map(1024, e) == Ok(RoundDiv(1024 * 255, 65280));
    assert RoundDiv(1024 * 255, 65280) == 4;
    assert Map(1, d) == Ok(RoundDiv(65280, 255));
    assert RoundDiv(65280, 255) == 256;
    assert Map(2, d) == Ok(RoundDiv(2 * 65280, 255));
    assert RoundDiv(2 * 65280, 255) == 512;
    assert Map(4, d) == Ok(RoundDiv(4 * 65280, 255));
    assert RoundDiv(4 * 65280, 255) == 1024;
  }

  /** Quantisation is stable: a wire value obtained by encoding decodes to
      an application value that encodes back to the same wire value. */
  lemma WirePointsStable(ch: Option<Channel>, v: int)
    requires EncodeData(ch, v).Ok?
    ensures var w := EncodeData(ch, v).value;
      DecodeData(ch, w).Ok? && EncodeData(ch, DecodeData(ch, w).value) == Ok(w)
  {
    var w := EncodeData(ch, v).value;
    var e := EncodeRange(ch);
    var d := DecodeRange(ch);
    if ch == Some(PulseIntensityBottomIr) {
      assert d == e.Inverse();
      ExpandThenBack(v, e);
    } else if ch in {Some(PulseIntensityTopWhite), Some(StrobePulseWidth), Some(StrobePulseDelay)} {
      assert e == d.Inverse() && d.Inverse().Inverse() == d;
      ExpandThenBack(w, d);
    } else {
      EncodeIdentityRanges(ch, v);
      MapIdentity(w, d);
      EncodeIdentityRanges(ch, w);
    }
  }

  /** `CodecEncoderPipeline.receive`: a query's payload becomes 0x00 without
      any range check; otherwise the payload (null read as 0x00) is encoded
      for the message's channel. */
  function EncodeMessage(m: Message): (r: Result<Message>)
    ensures m.meta.query ==> r == Ok(m.(payload := Some(0x00)))
    ensures r.Ok? ==> r.value.id == m.id && r.value.meta == m.meta && r.value.payload.Some?
    ensures r.Ok? ==> 0 <= r.value.payload.value < 256
    ensures r.Err? <==> !m.meta.query && EncodeData(m.meta.channel, m.payload.GetOr(0x00)).Err?
    ensures !m.meta.query && r.Ok? ==> r.value.payload == Some(EncodeData(m.meta.channel, m.payload.GetOr(0x00)).value)
  {
    if m.meta.query then Ok(m.(payload := Some(0x00)))
    else
      match EncodeData(m.meta.channel, m.payload.GetOr(0x00))
      case Ok(w) => Ok(m.(payload := Some(w)))
      case Err(e) => Err(e)
  }

  /** `CodecDecoderPipeline.receive`: the payload (null read as 0x00) is
      decoded for the message's channel. */
  function DecodeMessage(m: Message): (r: Result<Message>)
    ensures r.Ok? ==> r.value.id == m.id && r.value.meta == m.meta
    ensures r.Ok? ==> (DecodeData(m.meta.channel, m.payload.GetOr(0x00)).Ok?
      && r.value.payload == Some(DecodeData(m.meta.channel, m.payload.GetOr(0x00)).value))
    ensures r.Err? <==> DecodeData(m.meta.channel, m.payload.GetOr(0x00)).Err?
  {
    match DecodeData(m.meta.channel, m.payload.GetOr(0x00))
    case Ok(v) => Ok(m.(payload := Some(v)))
    case Err(e) => Err(e)
  }

  /** The two codec directions agree on messages: an accepted write decodes
      back to an application value that the encoder maps to the same wire
      payload. */
  lemma MessageRoundTrip(m: Message)
    requires !m.meta.query && EncodeMessage(m).Ok?
    ensures var w := EncodeMessage(m).value;
      && DecodeMessage(w).Ok?
      && DecodeMessage(w).value.id == m.id && DecodeMessage(w).value.meta == m.meta
      && EncodeMessage(DecodeMessage(w).value) == Ok(w)
  {
    WirePointsStable(m.meta.channel, m.payload.GetOr(0x00));
  }

  /** A null payload is handled exactly as payload 0x00 in both directions. */
  lemma NullPayloadIsZero(m: Message)
    ensures EncodeMessage(m.(payload := None)) == EncodeMessage(m.(payload := Some(0x00)))
    ensures DecodeMessage(m.(payload := None)) == DecodeMessage(m.(payload := Some(0x00)))
  {
  }
}
