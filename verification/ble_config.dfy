/** Fixed parameters of the link to the ESP32 sensor unit: its advertised
    name, the service/characteristic/descriptor UUIDs, the requested ATT MTU,
    the scan and reconnect timings, and the size of one sensor frame. */
module BleConfig {

  const ESP32_DEVICE_NAME: string := "ESP32-SENSOR-FUSION"
  const ESP32_SERVICE_UUID: string := "4fafc201-1fb5-459e-8fcc-c5c9c331914b"
  const ESP32_CHARACTERISTIC_UUID: string := "beb5483e-36e1-4688-b7f5-ea07361b26a8"
  /** Client Characteristic Configuration Descriptor. */
  const CCCD_UUID: string := "00002902-0000-1000-8000-00805f9b34fb"

  const MTU_SIZE: nat := 100
  const SCAN_TIMEOUT_MS: nat := 60000
  const RECONNECT_DELAY_MS: nat := 3000
  const EXPECTED_PACKET_SIZE: nat := 44

  /** The frame layout: version, message type, payload length, timestamp,
      then nine 32-bit floats. */
  const VERSION_SIZE: nat := 1
  const MESSAGE_TYPE_SIZE: nat := 1
  const PAYLOAD_LENGTH_SIZE: nat := 2
  const TIMESTAMP_SIZE: nat := 4
  const FLOAT_FIELD_COUNT: nat := 9
  const FLOAT_SIZE: nat := 4

  /** A notification carries at most ATT_MTU - 3 bytes of attribute value
      (section 3.4.7.1 of the Bluetooth Core Specification, Vol 3 Part F). */
  const ATT_NOTIFICATION_HEADER: nat := 3

  /** The Bluetooth Base UUID with its 16-bit slot zeroed (section 2.5.1 of
      the Bluetooth Core Specification, Vol 3 Part B): `0000xxxx-0000-1000-8000-00805f9b34fb`. */
  const BASE_UUID_PREFIX: string := "0000"
  const BASE_UUID_SUFFIX: string := "-0000-1000-8000-00805f9b34fb"

  lemma PacketSizeMatchesLayout()
    ensures EXPECTED_PACKET_SIZE
         == VERSION_SIZE + MESSAGE_TYPE_SIZE + PAYLOAD_LENGTH_SIZE + TIMESTAMP_SIZE
            + FLOAT_FIELD_COUNT * FLOAT_SIZE
  {
  }

  /** The requested MTU leaves room for one whole frame in one notification. */
  lemma FrameFitsOneNotification()
    ensures EXPECTED_PACKET_SIZE <= MTU_SIZE - ATT_NOTIFICATION_HEADER
  {
  }

  predicate IsLowerHex(c: char) {
    '0' <= c <= '9' || 'a' <= c <= 'f'
  }

  function HexDigit(d: nat): (c: char)
    requires d < 16
    ensures IsLowerHex(c)
  {
    if d < 10 then ('0' as int + d) as char else ('a' as int + d - 10) as char
  }

  function HexValue(c: char): (d: nat)
    requires IsLowerHex(c)
    ensures d < 16
  {
    if c <= '9' then c as int - '0' as int else c as int - 'a' as int + 10
  }

  lemma HexDigitValue(d: nat)
    requires d < 16
    ensures HexValue(HexDigit(d)) == d
  {
  }

  /** Four lower-case hex digits, most significant first. */
  function Hex4(u: nat): (r: string)
    requires u < 0x1_0000
    ensures |r| == 4
    ensures forall i :: 0 <= i < 4 ==> IsLowerHex(r[i])
  {
    var q1 := u / 16;
    var q2 := q1 / 16;
    [HexDigit(q2 / 16), HexDigit(q2 % 16), HexDigit(q1 % 16), HexDigit(u % 16)]
  }

  /** Reads back four hex digits. */
  function ParseHex4(s: string): nat
    requires |s| == 4 && forall i :: 0 <= i < 4 ==> IsLowerHex(s[i])
  {
    ((HexValue(s[0]) * 16 + HexValue(s[1])) * 16 + HexValue(s[2])) * 16 + HexValue(s[3])
  }

  /** The textual form `8-4-4-4-12` of a UUID, in lower-case hex. */
  predicate IsUuidText(s: string) {
    && |s| == 36
    && (forall i :: 0 <= i < 36 && i != 8 && i != 13 && i != 18 && i != 23 ==> IsLowerHex(s[i]))
    && s[8] == '-' && s[13] == '-' && s[18] == '-' && s[23] == '-'
  }

  /** Reading the digits back gives the number. */
  lemma Hex4RoundTrip(u: nat)
    requires u < 0x1_0000
    ensures ParseHex4(Hex4(u)) == u
  {
    var q1 := u / 16;
    var q2 := q1 / 16;
    HexDigitValue(q2 / 16);
    HexDigitValue(q2 % 16);
    HexDigitValue(q1 % 16);
    HexDigitValue(u % 16);
  }

  /** Four hex digits between the Base UUID's prefix and suffix make a
      well-formed UUID text. */
  lemma ExpandedIsUuid(h: string)
    requires |h| == 4 && forall i :: 0 <= i < 4 ==> IsLowerHex(h[i])
    ensures IsUuidText(BASE_UUID_PREFIX + h + BASE_UUID_SUFFIX)
  {
    var r := BASE_UUID_PREFIX + h + BASE_UUID_SUFFIX;
    assert forall i :: 0 <= i < 4 ==> r[i] == '0';
    assert forall i :: 4 <= i < 8 ==> r[i] == h[i - 4];
    assert forall i :: 8 <= i < 36 ==> r[i] == BASE_UUID_SUFFIX[i - 8];
  }

  /** A 16-bit SIG-assigned UUID expanded with the Bluetooth Base UUID. */
  function ExpandUuid16(u: nat): (r: string)
    requires u < 0x1_0000
    ensures IsUuidText(r)
    ensures ParseHex4(r[4..8]) == u
  {
    var h := Hex4(u);
    var r := BASE_UUID_PREFIX + h + BASE_UUID_SUFFIX;
    assert r[4..8] == h;
    Hex4RoundTrip(u);
    ExpandedIsUuid(h);
    r
  }

  /** The descriptor written to enable notifications is the standard 0x2902. */
  lemma CccdIsStandardDescriptor()
    ensures CCCD_UUID == ExpandUuid16(0x2902)
  {
    var h := Hex4(0x2902);
    assert h[0] == '2' && h[1] == '9' && h[2] == '0' && h[3] == '2';
    assert h == "2902";
    StandardUuidText();
  }

  lemma StandardUuidText()
    ensures BASE_UUID_PREFIX + "2902" + BASE_UUID_SUFFIX == CCCD_UUID
  {
  }

  lemma ConfiguredUuidsWellFormed()
    ensures IsUuidText(ESP32_SERVICE_UUID)
    ensures IsUuidText(ESP32_CHARACTERISTIC_UUID)
    ensures IsUuidText(CCCD_UUID)
  {
    ServiceUuidWellFormed();
    CharacteristicUuidWellFormed();
    CccdIsStandardDescriptor();
  }

  lemma ServiceUuidWellFormed()
    ensures IsUuidText(ESP32_SERVICE_UUID)
  {
  }

  lemma CharacteristicUuidWellFormed()
    ensures IsUuidText(ESP32_CHARACTERISTIC_UUID)
  {
  }
}
