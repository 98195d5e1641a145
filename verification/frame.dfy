/** The 7-byte measurement frame read at the end of `read_data`:
    byte 0 status, bytes 1..5 two packed 20-bit raw fields, byte 6 CRC.
    Humidity takes bytes 1, 2 and the high nibble of byte 3; temperature
    takes the low nibble of byte 3 and bytes 4, 5. */
module Frame {
  import opened Bits
  import opened Crc

  const FrameLength: nat := 7

  /** Both raw fields are 20 bits wide; 2^20 is also the scale of the
      conversion to physical units. */
  const FieldRange: nat := 0x10_0000

  datatype Option<T> = None | Some(value: T)

  /** A decoded measurement: the two raw fields. */
  datatype Reading = Reading(rawHumidity: nat, rawTemperature: nat) {

    predicate Valid() {
      rawHumidity < FieldRange && rawTemperature < FieldRange
    }
  }

  /** `float_humid`, over the reals: `raw / 2^20 * 100`. */
  function Humidity(reading: Reading): (percent: real)
    ensures reading.rawHumidity < FieldRange ==> 0.0 <= percent < 100.0
  {
    (reading.rawHumidity as real / 1048576.0) * 100.0
  }

  /** `float_temp`, over the reals: `raw / 2^20 * 200 - 50`. */
  function Temperature(reading: Reading): (celsius: real)
    ensures reading.rawTemperature < FieldRange ==> -50.0 <= celsius < 150.0
  {
    (reading.rawTemperature as real / 1048576.0) * 200.0 - 50.0
  }

  /** The humidity field as `read_data` assembles it: byte 1, shifted in
      byte 2, shifted in the high nibble of byte 3. */
  function RawHumidity(rx: seq<byte>): (h: nat)
    requires |rx| == FrameLength
    ensures h == rx[1] as int * 4096 + rx[2] as int * 16 + rx[3] as int / 16
    ensures h < FieldRange
  {
    ShiftsByConstants(ShiftLeft(rx[1], 8) + rx[2]);
    ShiftsByConstants(rx[1]);
    ShiftsByConstants(rx[3]);
    ShiftLeft(ShiftLeft(rx[1], 8) + rx[2], 4) + ShiftRight(rx[3], 4)
  }

  /** The temperature field as `read_data` assembles it: the low nibble of
      byte 3, shifted in byte 4, shifted in byte 5. */
  function RawTemperature(rx: seq<byte>): (t: nat)
    requires |rx| == FrameLength
    ensures t == (rx[3] as int % 16) * 65536 + rx[4] as int * 256 + rx[5]
    ensures t < FieldRange
  {
    LowNibble(rx[3]);
    ShiftsByConstants(ShiftLeft(And(rx[3], 0x0F), 8) + rx[4]);
    ShiftsByConstants(And(rx[3], 0x0F));
    ShiftLeft(ShiftLeft(And(rx[3], 0x0F), 8) + rx[4], 8) + rx[5]
  }

  lemma LowNibble(x: nat)
    ensures And(x, 0x0F) == x % 16
  {
    AndMask(x, 4);
    Pow2Values();
  }

  /** The CRC gate and field extraction of `read_data`: a reading only
      when byte 6 is the CRC of bytes 0..5, which is the same as the CRC
      of the whole frame being zero. */
  function Decode(rx: seq<byte>): (r: Option<Reading>)
    requires |rx| == FrameLength
    ensures r.Some? <==> Checksum(rx) == 0
    ensures r.Some? ==> r.value.Valid()
  {
    ChecksumResidue(rx);
    assert rx[..|rx| - 1] == rx[..6];
    if rx[6] == Checksum(rx[..6]) then Some(Reading(RawHumidity(rx), RawTemperature(rx)))
    else None
  }

  /** The frame the sensor sends for a reading: the two fields packed into
      bytes 1..5 behind the status byte, followed by their CRC. */
  function Encode(status: byte, reading: Reading): (rx: seq<byte>)
    requires reading.Valid()
    ensures |rx| == FrameLength && rx[0] == status
  {
    var h := reading.rawHumidity;
    var t := reading.rawTemperature;
    var body: seq<byte> := [status, h / 4096, (h / 16) % 256, (h % 16) * 16 + t / 65536, (t / 256) % 256, t % 256];
    body + [Checksum(body)]
  }

  /** Every valid reading survives the trip through a frame. */
  lemma DecodeEncode(status: byte, reading: Reading)
    requires reading.Valid()
    ensures Decode(Encode(status, reading)) == Some(reading)
  {
    var rx := Encode(status, reading);
    assert rx[..6] + [rx[6]] == rx;
    EncodeFields(status, reading);
  }

  /** Both fields read back from an encoded frame are the ones packed into it. */
  lemma EncodeFields(status: byte, reading: Reading)
    requires reading.Valid()
    ensures RawHumidity(Encode(status, reading)) == reading.rawHumidity
    ensures RawTemperature(Encode(status, reading)) == reading.rawTemperature
  {
    var rx := Encode(status, reading);
    var h := reading.rawHumidity;
    var t := reading.rawTemperature;
    assert rx[1] == h / 4096 && rx[2] == (h / 16) % 256 && rx[3] == (h % 16) * 16 + t / 65536;
    assert rx[4] == (t / 256) % 256 && rx[5] == t % 256;
    HumidityBytes(h, t / 65536);
    TemperatureBytes(t, h % 16);
  }

  /** The frame the sensor sends always passes the CRC gate. */
  lemma EncodedFrameChecks(status: byte, reading: Reading)
    requires reading.Valid()
    ensures Checksum(Encode(status, reading)) == 0
  {
    DecodeEncode(status, reading);
  }

  /** Splitting a 20-bit humidity value into bytes 1, 2 and the high nibble
      of byte 3 and joining them again gives it back, whatever sits in the
      low nibble of byte 3. */
  lemma HumidityBytes(h: nat, low: nat)
    requires h < FieldRange && low < 16
    ensures (h / 4096) * 4096 + ((h / 16) % 256) * 16 + ((h % 16) * 16 + low) / 16 == h
  {
    assert ((h % 16) * 16 + low) / 16 == h % 16;
    assert h / 16 == (h / 4096) * 256 + (h / 16) % 256;
  }

  /** The same for a 20-bit temperature in the low nibble of byte 3 and
      bytes 4 and 5, whatever sits in the high nibble of byte 3. */
  lemma TemperatureBytes(t: nat, high: nat)
    requires t < FieldRange && high < 16
    ensures ((high * 16 + t / 65536) % 16) * 65536 + ((t / 256) % 256) * 256 + t % 256 == t
  {
    assert (high * 16 + t / 65536) % 16 == t / 65536;
    assert t / 256 == (t / 65536) * 256 + (t / 256) % 256;
  }

  /** Every frame that passes the gate is the encoding of what it decodes
      to: each bit of bytes 1..5 lands in exactly one of the two fields. */
  lemma EncodeDecode(rx: seq<byte>)
    requires |rx| == FrameLength
    ensures Decode(rx).Some? ==> Encode(rx[0], Decode(rx).value) == rx
  {
    if Decode(rx).None? {
      return;
    }
    var h := RawHumidity(rx);
    var t := RawTemperature(rx);
    FieldBytes(rx[1], rx[2], rx[3], rx[4], rx[5], h, t);
    var body: seq<byte> := [rx[0], rx[1], rx[2], rx[3], rx[4], rx[5]];
    assert body == rx[..6];
    assert body + [rx[6]] == rx;
  }

  lemma FieldBytes(b1: byte, b2: byte, b3: byte, b4: byte, b5: byte, h: nat, t: nat)
    requires h == b1 as int * 4096 + b2 as int * 16 + b3 as int / 16
    requires t == (b3 as int % 16) * 65536 + b4 as int * 256 + b5
    ensures h / 4096 == b1 && (h / 16) % 256 == b2
    ensures (h % 16) * 16 + t / 65536 == b3
    ensures (t / 256) % 256 == b4 && t % 256 == b5
  {
    assert h / 16 == b1 as int * 256 + b2 && h % 16 == b3 / 16;
    assert t / 256 == (b3 as int % 16) * 256 + b4 && t / 65536 == b3 % 16;
  }

  /** A frame whose check byte was changed after a successful gate is refused. */
  lemma CorruptedCheckByte(rx: seq<byte>, b: byte)
    requires |rx| == FrameLength && Decode(rx).Some? && b != rx[6]
    ensures Decode(rx[6 := b]).None?
  {
    assert rx[6 := b][..6] == rx[..6];
  }

  /** The conversion end points: raw 0 is 0 %RH and -50 degrees, raw 2^18
      is 0 degrees, and the full scale 2^20 would be 100 %RH and 150 degrees. */
  lemma ConversionPoints()
    ensures Humidity(Reading(0, 0)) == 0.0 && Temperature(Reading(0, 0)) == -50.0
    ensures Temperature(Reading(0, 262144)) == 0.0
    ensures Humidity(Reading(FieldRange, FieldRange)) == 100.0
    ensures Temperature(Reading(FieldRange, FieldRange)) == 150.0
  {
  }
}
