/** The sensor's CRC-8: polynomial x^8 + x^5 + x^4 + 1 (0x31), initial
    value 0xFF, no reflection and no final XOR (`DHT20.__crc8`).

    `Checksum` is the reference: the usual 8-bit shift register, truncated
    after every step.  `Crc8` is the driver's loop as written, whose `int`
    accumulator keeps growing by one bit per shift and is only masked with
    0xFF at the very end; it is proved to compute the same value. */
module Crc {
  import opened Bits

  const Polynomial: byte := 0x31
  const Initial: byte := 0xFF

  /** One step of the 8-bit register: shift left, dropping bit 7, and
      subtract (XOR) the polynomial when the dropped bit was set. */
  function Shift(t: byte): byte {
    var doubled := (2 * t) % 256;
    if t >= 128 then XorByte(doubled, Polynomial) else doubled
  }

  /** `q` steps of the register. */
  function Shifts(t: byte, q: nat): byte {
    if q == 0 then t else Shift(Shifts(t, q - 1))
  }

  /** The register after one more input byte. */
  function Feed(t: byte, b: byte): byte {
    Shifts(XorByte(t, b), 8)
  }

  /** CRC-8 of `data`, fed first byte first. */
  function Checksum(data: seq<byte>): byte {
    if |data| == 0 then Initial
    else Feed(Checksum(data[..|data| - 1]), data[|data| - 1])
  }

  lemma ChecksumSnoc(data: seq<byte>, b: byte)
    ensures Checksum(data + [b]) == Feed(Checksum(data), b)
  {
    assert (data + [b])[..|data|] == data;
  }

  /** The inner loop's step on the unbounded accumulator agrees, in its low
      eight bits, with one step of the 8-bit register. */
  lemma StepLowByte(v: nat)
    ensures (if And(v, 0x80) != 0 then Xor(ShiftLeft(v, 1), 0x31) else ShiftLeft(v, 1)) % 256
            == Shift(v % 256)
  {
    Pow2Values();
    var t := v % 256;
    AndPow2(v, 7);
    BitMod(v, 8, 7);
    TopBit(t, 7);
    assert (2 * v) % 256 == (2 * t) % 256 by {
      DivModUnique(2 * v, 256, 2 * (v / 256) + (2 * t) / 256, (2 * t) % 256);
    }
    XorMod(2 * v, 0x31, 8);
  }

  /** `DHT20.__crc8(buffer, num)` as written: the accumulator is a Python
      `int` that is never truncated inside the loops. */
  method Crc8(buffer: seq<byte>, num: nat) returns (r: nat)
    requires num <= |buffer|
    ensures r == Checksum(buffer[..num])
    ensures r < 256
    ensures num == 0 ==> r == 0xFF
  {
    Pow2Values();
    var crc: nat := 0xFF;
    for i := 0 to num
      invariant crc % 256 == Checksum(buffer[..i])
    {
      FeedLowByte(crc, buffer[i]);
      crc := Xor(crc, buffer[i]);
      crc := ShiftByte(crc);
      ChecksumStep(buffer, i);
    }
    AndMask(crc, 8);
    r := And(crc, 0xFF);
  }

  lemma FeedLowByte(v: nat, b: byte)
    ensures Xor(v, b) % 256 == Xor(v % 256, b)
  {
    XorLowByte(v, b);
    XorOfByte(v % 256, b);
  }

  lemma XorOfByte(a: nat, b: byte)
    ensures Xor(a, b % 256) == Xor(a, b)
  {
  }

  lemma XorLowByte(v: nat, b: byte)
    ensures Xor(v, b) % 256 == Xor(v % 256, b % 256)
  {
    XorMod(v, b, 8);
    Pow2Values();
  }

  /** The inner `for q in range(8)` loop of `__crc8`. */
  method ShiftByte(start: nat) returns (crc: nat)
    ensures crc % 256 == Shifts(start % 256, 8)
  {
    crc := start;
    for q := 0 to 8
      invariant crc % 256 == Shifts(start % 256, q)
    {
      StepLowByte(crc);
      if And(crc, 0x80) != 0 {
        crc := Xor(ShiftLeft(crc, 1), 0x31);
      } else {
        crc := ShiftLeft(crc, 1);
      }
    }
  }

  lemma ChecksumStep(buffer: seq<byte>, i: nat)
    requires i < |buffer|
    ensures Checksum(buffer[..i + 1]) == Feed(Checksum(buffer[..i]), buffer[i])
  {
    assert buffer[..i + 1] == buffer[..i] + [buffer[i]];
    ChecksumSnoc(buffer[..i], buffer[i]);
  }

  // ---------------------------------------------------------------------
  // The check byte
  // ---------------------------------------------------------------------

  /** A register step loses no information about zero: only 0 shifts to 0. */
  lemma ShiftZero(t: byte)
    ensures Shift(t) == 0 <==> t == 0
  {
    var doubled := (2 * t) % 256;
    if t >= 128 {
      XorZero(doubled, Polynomial);
    }
  }

  lemma {:induction false} ShiftsZero(t: byte, q: nat)
    ensures Shifts(t, q) == 0 <==> t == 0
  {
    if q > 0 {
      ShiftsZero(t, q - 1);
      ShiftZero(Shifts(t, q - 1));
    }
  }

  /** Appending the CRC of a message makes the CRC of the whole frame zero,
      and a zero frame CRC happens only when the last byte is the CRC of the
      bytes before it. */
  lemma {:induction false} ChecksumResidue(frame: seq<byte>)
    requires |frame| >= 1
    ensures Checksum(frame) == 0 <==> frame[|frame| - 1] == Checksum(frame[..|frame| - 1])
  {
    var c := Checksum(frame[..|frame| - 1]);
    var last := frame[|frame| - 1];
    ShiftsZero(XorByte(c, last), 8);
    XorZero(c, last);
  }

  /** A buffer of zero bytes, of any length, never has CRC 0x00: the
      register starts at 0xFF, and feeding a zero byte to a non-zero
      register leaves it non-zero. */
  lemma {:induction false} ZerosChecksum(data: seq<byte>)
    requires forall i | 0 <= i < |data| :: data[i] == 0
    ensures Checksum(data) != 0
  {
    if |data| > 0 {
      var prefix := data[..|data| - 1];
      ZerosChecksum(prefix);
      var c := Checksum(prefix);
      XorZero(c, 0);
      ShiftsZero(XorByte(c, 0), 8);
    }
  }
}
