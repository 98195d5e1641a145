/** The byte strings the driver writes to the sensor. */
module Commands {
  import opened Bits

  /** Register read by `__status`. */
  const StatusRegister: byte := 0x71

  /** The registers `__reset_sensor` re-initialises, in the order it does so. */
  const CalibrationRegisters: seq<byte> := [0x1B, 0x1C, 0x1E]

  /** Prefix OR-ed onto the register number in the write-back of `__reset_registers`. */
  const WriteBackPrefix: byte := 0xB0

  /** The status request written by `__status` before reading one byte:
      the single register number 0x71. */
  function StatusCommand(): (c: seq<byte>)
    ensures c == [StatusRegister] && StatusRegister == 0x71
  {
    [StatusRegister]
  }

  /** The measurement trigger written at the start of `read_data`: command
      0xAC with parameters 0x33 and 0x00. */
  function TriggerCommand(): (c: seq<byte>)
    ensures |c| == 3 && c[0] == 0xAC && c[1..] == [0x33, 0x00]
  {
    [0xAC, 0x33, 0x00]
  }

  /** The first write of `__reset_registers(reg)`: the register number
      followed by two zero bytes. */
  function ResetCommand(reg: byte): (c: seq<byte>)
    ensures |c| == 3 && c[0] == reg && c[1..] == [0x00, 0x00]
  {
    [reg, 0x00, 0x00]
  }

  /** The second write of `__reset_registers(reg)`: `0xB0 | reg`, then the
      last two of the three bytes read back; the first read-back byte is
      dropped. */
  function WriteBackCommand(reg: byte, values: seq<byte>): (c: seq<byte>)
    requires |values| == 3
    ensures |c| == 3 && c[1..] == values[1..]
    ensures c[0] % 16 == reg % 16 && c[0] >= WriteBackPrefix
    ensures c[0] / 16 == Or(WriteBackPrefix / 16, reg / 16)
    ensures reg / 16 == 1 ==> c[0] == WriteBackPrefix + reg % 16
  {
    WriteBackHead(reg);
    [OrByte(WriteBackPrefix, reg), values[1], values[2]]
  }

  /** `0xB0 | reg` keeps the low nibble of `reg`, ORs 0xB into its high
      nibble, and never clears a bit of 0xB0; for a register in 0x10..0x1F, as all three calibration registers are,
      it is 0xB0 plus the low nibble (0xBB, 0xBC, 0xBE). */
  lemma WriteBackHead(reg: byte)
    ensures Or(WriteBackPrefix, reg) % 16 == reg % 16
    ensures Or(WriteBackPrefix, reg) >= WriteBackPrefix
    ensures Or(WriteBackPrefix, reg) / 16 == Or(WriteBackPrefix / 16, reg / 16)
    ensures reg / 16 == 1 ==> Or(WriteBackPrefix, reg) == WriteBackPrefix + reg % 16
  {
    Pow2Values();
    var x := Or(WriteBackPrefix, reg);
    OrMod(WriteBackPrefix, reg, 4);
    OrZero(reg % 16);
    assert x % 16 == reg % 16;
    OrShiftRight(WriteBackPrefix, reg, 4);
    ShiftsByConstants(x);
    ShiftsByConstants(WriteBackPrefix);
    ShiftsByConstants(reg);
    var high := Or(0xB, reg / 16);
    assert x / 16 == high;
    OrLowerBound(0xB, reg / 16);
    assert x == 16 * high + x % 16;
    if reg / 16 == 1 {
      assert high == 0xB;
    }
  }

  lemma {:induction false} OrLowerBound(a: nat, b: nat)
    ensures Or(a, b) >= a
    decreases a + b
  {
    if !(a == 0 && b == 0) {
      OrLowerBound(a / 2, b / 2);
    }
  }

}
