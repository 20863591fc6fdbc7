/** One notification from the ESP32 unit and its decoding into a sensor
    sample. A frame is 44 little-endian bytes: version, message type, payload
    length, a 32-bit unsigned millisecond timestamp and nine IEEE 754
    binary32 values (latitude, longitude, altitude, three accelerometer axes,
    three gyroscope axes). Floats are kept as their 32-bit patterns. */
module BlePacket {
  import opened Common
  import BleConfig

  /** An unsigned octet. */
  type byte = x: int | 0 <= x < 0x100

  /** A received notification: its bytes and the phone's receipt time. */
  datatype Packet = Packet(data: seq<byte>, timestamp: Int64)

  /** `BlePacket.equals`: same content and same receipt time. */
  predicate PacketEquals(a: Packet, b: Packet) {
    |a.data| == |b.data|
    && (forall i :: 0 <= i < |a.data| ==> a.data[i] == b.data[i])
    && a.timestamp == b.timestamp
  }

  /** Content equality on packets is exactly value equality of the model. */
  lemma PacketEqualsIsEquality(a: Packet, b: Packet)
    ensures PacketEquals(a, b) <==> a == b
  {
    if PacketEquals(a, b) {
      assert a.data == b.data;
    }
  }

  /** A decoded frame. `timestampMs` is the unit's clock, widened unsigned. */
  datatype SensorSample = SensorSample(
    timestampMs: Int64,
    latitude: Float32, longitude: Float32, altitude: Float32,
    ax: Float32, ay: Float32, az: Float32,
    gx: Float32, gy: Float32, gz: Float32)

  /** The nine floats of a sample, in frame order. */
  function Words(s: SensorSample): (ws: seq<Float32>)
    ensures |ws| == BleConfig.FLOAT_FIELD_COUNT
  {
    [s.latitude, s.longitude, s.altitude, s.ax, s.ay, s.az, s.gx, s.gy, s.gz]
  }

  /** The k-th float of a sample. */
  function Field(s: SensorSample, k: nat): Float32
    requires k < BleConfig.FLOAT_FIELD_COUNT
  {
    Words(s)[k]
  }

  /** Samples with the same timestamp and the same nine floats are equal. */
  lemma SampleDeterminedByFields(s: SensorSample, t: SensorSample)
    requires s.timestampMs == t.timestampMs
    requires forall k :: 0 <= k < BleConfig.FLOAT_FIELD_COUNT ==> Field(s, k) == Field(t, k)
    ensures s == t
  {
    forall k | 0 <= k < BleConfig.FLOAT_FIELD_COUNT
      ensures Words(s)[k] == Words(t)[k]
    {
      assert Field(s, k) == Field(t, k);
    }
    assert Words(s) == Words(t);
  }

  // ---------------------------------------------------------------------
  // Little-endian integers
  // ---------------------------------------------------------------------

  /** The unsigned little-endian value of `b[off..off + 2]`. */
  function U16At(b: seq<byte>, off: nat): (v: nat)
    requires off + 2 <= |b|
    ensures v < 0x1_0000
  {
    b[off] as int + 0x100 * b[off + 1] as int
  }

  /** The unsigned little-endian value of `b[off..off + 4]`. */
  function U32At(b: seq<byte>, off: nat): (v: nat)
    requires off + 4 <= |b|
    ensures v < 0x1_0000_0000
  {
    b[off] as int + 0x100 * (b[off + 1] as int + 0x100 * (b[off + 2] as int + 0x100 * b[off + 3] as int))
  }

  /** The four little-endian bytes of a 32-bit value. */
  function U32Bytes(v: nat): (b: seq<byte>)
    requires v < 0x1_0000_0000
    ensures |b| == 4
  {
    var v1 := v / 0x100;
    var v2 := v1 / 0x100;
    [v % 0x100, v1 % 0x100, v2 % 0x100, v2 / 0x100]
  }

  lemma U32RoundTrip(v: nat)
    requires v < 0x1_0000_0000
    ensures U32At(U32Bytes(v), 0) == v
  {
  }

  /** Splitting off the low byte of `a + 256 * y`. */
  lemma LowByte(a: int, y: int)
    requires 0 <= a < 0x100 && y >= 0
    ensures (a + 0x100 * y) % 0x100 == a && (a + 0x100 * y) / 0x100 == y
  {
  }

  lemma {:induction false} U32BytesOfValue(b: seq<byte>, off: nat)
    requires off + 4 <= |b|
    ensures U32Bytes(U32At(b, off)) == b[off..off + 4]
  {
    var y2 := b[off + 2] as int + 0x100 * b[off + 3] as int;
    var y1 := b[off + 1] as int + 0x100 * y2;
    LowByte(b[off], y1);
    LowByte(b[off + 1], y2);
    LowByte(b[off + 2], b[off + 3]);
  }

  // ---------------------------------------------------------------------
  // Frames
  // ---------------------------------------------------------------------

  /** The three header fields, which the decoder reads and then discards. */
  datatype FrameHeader = FrameHeader(version: byte, msgType: byte, payloadLen: nat)

  function ParseHeader(value: seq<byte>): (h: FrameHeader)
    requires |value| >= 4
    ensures h.payloadLen < 0x1_0000
  {
    FrameHeader(value[0], value[1], U16At(value, 2))
  }

  /** `SensorSample.parseSamples`: a frame shorter than 44 bytes yields no
      sample; otherwise exactly one, from the first 44 bytes. */
  function ParseSamples(value: seq<byte>): (r: seq<SensorSample>)
    ensures |value| < BleConfig.EXPECTED_PACKET_SIZE <==> r == []
    ensures r != [] ==> |r| == 1 && 0 <= r[0].timestampMs < 0x1_0000_0000
    ensures r != [] ==> r[0].timestampMs == U32At(value, BleConfig.VERSION_SIZE + BleConfig.MESSAGE_TYPE_SIZE + BleConfig.PAYLOAD_LENGTH_SIZE)
    ensures r != [] ==>
      forall k :: 0 <= k < BleConfig.FLOAT_FIELD_COUNT ==> Field(r[0], k) == U32At(value, 8 + 4 * k)
  {
    if |value| < BleConfig.EXPECTED_PACKET_SIZE then []
    else
      var _ := ParseHeader(value);
      var ts := U32At(value, 4);
      [SensorSample(ts,
        U32At(value, 8), U32At(value, 12), U32At(value, 16),
        U32At(value, 20), U32At(value, 24), U32At(value, 28),
        U32At(value, 32), U32At(value, 36), U32At(value, 40))]
  }

  /** A sequence of 32-bit values, each as four little-endian bytes. */
  function EncodeWords(ws: seq<Float32>): (b: seq<byte>)
    ensures |b| == 4 * |ws|
  {
    if ws == [] then [] else U32Bytes(ws[0]) + EncodeWords(ws[1..])
  }

  /** The little-endian 32-bit values of a byte string, four bytes at a time. */
  function DecodeWords(b: seq<byte>): (ws: seq<Float32>)
    requires |b| % 4 == 0
    ensures |ws| * 4 == |b|
    decreases |b|
  {
    if b == [] then [] else [U32At(b, 0)] + DecodeWords(b[4..])
  }

  lemma {:induction false} EncodeWordsChunk(ws: seq<Float32>, k: nat)
    requires k < |ws|
    ensures EncodeWords(ws)[4 * k..4 * k + 4] == U32Bytes(ws[k])
  {
    if k > 0 {
      EncodeWordsChunk(ws[1..], k - 1);
      var e := EncodeWords(ws);
      assert e == U32Bytes(ws[0]) + EncodeWords(ws[1..]);
      assert e[4 * k..4 * k + 4] == EncodeWords(ws[1..])[4 * (k - 1)..4 * (k - 1) + 4];
    }
  }

  lemma {:induction false} DecodeWordsIndex(b: seq<byte>, k: nat)
    requires |b| % 4 == 0 && 4 * k + 4 <= |b|
    ensures DecodeWords(b)[k] == U32At(b, 4 * k)
    decreases |b|
  {
    if k > 0 {
      DecodeWordsIndex(b[4..], k - 1);
    }
  }

  /** Decoding then encoding a word string gives the bytes back. */
  lemma {:induction false} EncodeDecodeWords(b: seq<byte>)
    requires |b| % 4 == 0
    ensures EncodeWords(DecodeWords(b)) == b
    decreases |b|
  {
    if b != [] {
      EncodeDecodeWords(b[4..]);
      U32BytesOfValue(b, 0);
      assert DecodeWords(b)[1..] == DecodeWords(b[4..]);
      assert b == b[0..4] + b[4..];
    }
  }

  /** What the unit transmits: the header, the timestamp, then the nine floats. */
  function EncodeFrame(h: FrameHeader, s: SensorSample): (f: seq<byte>)
    requires h.payloadLen < 0x1_0000
    requires 0 <= s.timestampMs < 0x1_0000_0000
    ensures |f| == BleConfig.EXPECTED_PACKET_SIZE
  {
    [h.version, h.msgType, h.payloadLen % 0x100, h.payloadLen / 0x100]
    + U32Bytes(s.timestampMs)
    + EncodeWords(Words(s))
  }

  /** A 32-bit value read inside a slice is the value read at the shifted offset. */
  lemma U32AtSlice(b: seq<byte>, lo: nat, hi: nat, off: nat)
    requires lo <= hi <= |b| && off + 4 <= hi - lo
    ensures U32At(b[lo..hi], off) == U32At(b, lo + off)
  {
  }

  /** Decoding an encoded frame gives back the sample. */
  lemma {:induction false} ParseEncode(h: FrameHeader, s: SensorSample)
    requires h.payloadLen < 0x1_0000
    requires 0 <= s.timestampMs < 0x1_0000_0000
    ensures ParseSamples(EncodeFrame(h, s)) == [s]
    ensures ParseHeader(EncodeFrame(h, s)) == h
  {
    var f := EncodeFrame(h, s);
    var r := ParseSamples(f);
    var e := EncodeWords(Words(s));
    assert f[4..8] == U32Bytes(s.timestampMs);
    U32RoundTrip(s.timestampMs);
    U32AtSlice(f, 4, 8, 0);
    assert f[8..44] == e;
    forall k | 0 <= k < BleConfig.FLOAT_FIELD_COUNT
      ensures Field(r[0], k) == Field(s, k)
    {
      EncodeWordsChunk(Words(s), k);
      U32RoundTrip(Field(s, k));
      U32AtSlice(f, 8, 44, 4 * k);
      U32AtSlice(e, 4 * k, 4 * k + 4, 0);
    }
    SampleDeterminedByFields(r[0], s);
  }

  /** Re-encoding a decoded frame reproduces its first 44 bytes. */
  lemma {:induction false} EncodeParse(value: seq<byte>)
    requires |value| >= BleConfig.EXPECTED_PACKET_SIZE
    ensures EncodeFrame(ParseHeader(value), ParseSamples(value)[0]) == value[..BleConfig.EXPECTED_PACKET_SIZE]
  {
    var body := value[8..44];
    SampleWords(value);
    EncodeDecodeWords(body);
    U32BytesOfValue(value, 4);
    assert value[..44] == value[..4] + value[4..8] + body;
  }

  /** The sample's nine words are the payload's words. */
  lemma SampleWords(value: seq<byte>)
    requires |value| >= BleConfig.EXPECTED_PACKET_SIZE
    ensures Words(ParseSamples(value)[0]) == DecodeWords(value[8..44])
  {
    var s := ParseSamples(value)[0];
    var body := value[8..44];
    forall k | 0 <= k < BleConfig.FLOAT_FIELD_COUNT
      ensures Words(s)[k] == DecodeWords(body)[k]
    {
      DecodeWordsIndex(body, k);
      U32AtSlice(value, 8, 44, 4 * k);
    }
  }

  /** The header and any bytes past the 44th do not influence the sample. */
  lemma ParseOnlyReadsPayload(a: seq<byte>, b: seq<byte>)
    requires |a| >= BleConfig.EXPECTED_PACKET_SIZE && |b| >= BleConfig.EXPECTED_PACKET_SIZE
    requires a[4..BleConfig.EXPECTED_PACKET_SIZE] == b[4..BleConfig.EXPECTED_PACKET_SIZE]
    ensures ParseSamples(a) == ParseSamples(b)
  {
    forall i | 4 <= i < BleConfig.EXPECTED_PACKET_SIZE
      ensures a[i] == b[i]
    {
      assert a[4..BleConfig.EXPECTED_PACKET_SIZE][i - 4] == b[4..BleConfig.EXPECTED_PACKET_SIZE][i - 4];
    }
  }

  // ---------------------------------------------------------------------
  // GNSS validity on binary32 bit patterns
  // ---------------------------------------------------------------------

  datatype FloatClass = Zero | Subnormal | Normal | Infinite | NaN

  /** Bits 23..30: the biased exponent. */
  function BiasedExponent(w: Float32): nat {
    w / 0x80_0000 % 0x100
  }

  /** Bits 0..22: the fraction. */
  function Fraction(w: Float32): nat {
    w % 0x80_0000
  }

  /** The IEEE 754 class of a binary32 pattern (section 3.4 of IEEE 754-2019). */
  function Classify(w: Float32): FloatClass {
    if BiasedExponent(w) == 0xFF then (if Fraction(w) == 0 then Infinite else NaN)
    else if BiasedExponent(w) == 0 then (if Fraction(w) == 0 then Zero else Subnormal)
    else Normal
  }

  /** Kotlin's `Float.isFinite()`: the exponent field is not all ones. */
  predicate IsFinite(w: Float32) {
    w % 0x8000_0000 < 0x7F80_0000
  }

  /** Kotlin's `f == 0.0f`: true for +0 and -0 (sign bit ignored), false for NaN. */
  predicate EqualsZero(w: Float32) {
    w % 0x8000_0000 == 0
  }

  /** `SensorSample.hasValidGnss`. */
  predicate HasValidGnss(s: SensorSample) {
    IsFinite(s.latitude) && IsFinite(s.longitude)
    && !(EqualsZero(s.latitude) && EqualsZero(s.longitude))
  }

  /** The bit tests agree with the IEEE 754 classes. */
  lemma BitTestsMatchClasses(w: Float32)
    ensures IsFinite(w) <==> Classify(w) in {Zero, Subnormal, Normal}
    ensures EqualsZero(w) <==> Classify(w) == Zero
  {
  }

  /** Valid GNSS means: both coordinates finite and not both zero. */
  lemma ValidGnssByClass(s: SensorSample)
    ensures HasValidGnss(s) <==>
      && Classify(s.latitude) !in {Infinite, NaN}
      && Classify(s.longitude) !in {Infinite, NaN}
      && !(Classify(s.latitude) == Zero && Classify(s.longitude) == Zero)
  {
    BitTestsMatchClasses(s.latitude);
    BitTestsMatchClasses(s.longitude);
  }

  function WithPosition(lat: Float32, lon: Float32): SensorSample {
    SensorSample(0, lat, lon, 0, 0, 0, 0, 0, 0, 0)
  }

  /** 13.75f is 0x415C0000 and 100.5f is 0x42C90000: a real fix is valid;
      (0, 0), (-0, +0), a NaN and an infinity are not; one zero coordinate is. */
  lemma GnssExamples()
    ensures HasValidGnss(WithPosition(0x415C_0000, 0x42C9_0000))
    ensures !HasValidGnss(WithPosition(0, 0))
    ensures !HasValidGnss(WithPosition(0x8000_0000, 0))
    ensures !HasValidGnss(WithPosition(0x7FC0_0000, 0x42C9_0000))
    ensures !HasValidGnss(WithPosition(0x415C_0000, 0xFF80_0000))
    ensures HasValidGnss(WithPosition(0, 0x42C9_0000))
  {
  }
}
