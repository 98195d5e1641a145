# DHT20 driver model

A Dafny model of the `DHT20` class in `dht20.py`, a CircuitPython driver for
the DHT20 I2C temperature and humidity sensor, with proofs about it.

The model has five modules for what the driver does, plus two support
modules:

- **`Crc`**: the sensor's CRC-8, with polynomial 0x31, initial value 0xFF, no
  reflection and no final XOR. The driver's `__crc8` keeps its accumulator in
  an unbounded Python `int` and masks it with 0xFF only at the end. `Crc.Crc8`
  models that loop as written. It is proved equal to `Crc.Checksum`, the
  usual 8-bit shift register that truncates after every step.
- **`Status`**: the three tests applied to the status byte:
  - the busy flag is bit 7;
  - calibrated means `(status & 0x68) == 0x08`;
  - the reset loop waits for the whole byte to equal 0x18.
- **`Commands` and `Frame`**: the bytes written and the 7-byte frame read:
  - the trigger `[0xAC, 0x33, 0x00]`;
  - the register reset `[reg, 0, 0]` and the write-back `[0xB0 | reg, b1, b2]`;
  - the frame's two packed 20-bit fields and its CRC gate.
- **`Driver`**: `__status`, `__is_calibrated`, `__reset_registers`,
  `__reset_sensor` and `read_data`, as conversations over the bus.
- **`Bits`** (support): Python's `^`, `&`, `|`, `<<` and `>>` on
  non-negative integers, with their bit-level laws.
- **`Bus`** (support): the I2C bus, described below.

The bus is a `Bus.Session`. It holds a script of device replies, one for each
transaction in the order the driver issues them. It also holds a log of the
transactions issued. Every driver operation, whatever its outcome, returns the
session with the replies it used taken from the front of the script and the
same number of transactions added to the end of the log (`Bus.Consumed`). A reply either completes the transaction with the number
of bytes it asks for, or makes the bus library raise.

Each driver operation returns one of four outcomes:

- `Done`, with the operation's value;
- `Raised`, for an exception the driver does not catch;
- `Spinning`, for a wait that can never end;
- `OutOfScript`, when the script runs out first.

Three consequences of the code shape the model:

- **The busy wait does not re-read the status.** The loop in `read_data`
  (`dht20.py:140-142`) tests `self.status_byte[0]`, and its body only yields
  and sleeps. So when the one status byte read has bit 7 set, `read_data`
  never leaves the loop. This is the `Spinning` outcome.
- **A checksum mismatch raises.** `float_humid` and `float_temp` are
  assigned only inside the `if` at `dht20.py:149`. When the check byte
  differs from the computed CRC, the `return` at `dht20.py:164` reads
  unassigned locals and raises `UnboundLocalError`. This is
  `Raised(ChecksumMismatch, ...)`.
- **A buffer of zero bytes has a nonzero CRC.** The CRC-8 of
  `dht20.py:105-119` starts from 0xFF, and for a buffer of zero bytes of any
  length the result is never 0x00 (`Crc.ZerosChecksum`). So a frame of seven
  zero bytes fails the gate.

## Model

| member | source | states |
|---|---|---|
| Crc.Crc8 | dht20.py:105-119 | The driver's loop, with its accumulator never truncated, returns the 8-bit register CRC-8 of exactly the first `num` bytes. So the result is below 256, is 0xFF for `num` = 0, and does not depend on later bytes. |
| Crc.ShiftByte | dht20.py:112-118 | The inner eight-step loop on the unbounded accumulator agrees in its low eight bits with eight steps of the 8-bit register. |
| Crc.StepLowByte | dht20.py:113-118 | One conditional shift-and-XOR on the unbounded accumulator, taken modulo 256, is one step of the 8-bit register. |
| Crc.ChecksumResidue | dht20.py:147-149 | The CRC of a whole frame is zero exactly when its last byte equals the CRC of the bytes before it. This holds in both directions. |
| Crc.ShiftsZero | dht20.py:112-118 | Eight register steps map a byte to zero only when the byte is zero. So a wrong check byte can never be cancelled out. |
| Crc.ZerosChecksum | dht20.py:109-119 | A buffer of zero bytes, of any length, never has CRC 0x00. |
| Status.IsCalibrated | dht20.py:57 | `(status & 0x68) == 0x08` holds exactly when bit 3 is set and bits 5 and 6 are clear. |
| Status.IsBusy | dht20.py:140 | The busy test holds exactly when bit 7 is set, that is, when the byte is at least 128. |
| Status.IsReady | dht20.py:95 | The reset loop stops exactly on the byte 0x18, and that byte is calibrated and not busy. |
| Status.CalibrationBits | dht20.py:51-57 | The calibration test holds exactly when bit 3 is set and bits 5 and 6 are clear. Every other masked value is rejected. |
| Status.BusyBit | dht20.py:140 | `(status >> 7) != 0` holds exactly when bit 7 is set, that is, when the byte is at least 128. |
| Status.ReadyVersusCalibrated | dht20.py:95 | 0x18, the reset loop's exit value, is calibrated and not busy. 0x08 is calibrated but still keeps the reset loop running. |
| Commands.StatusCommand | dht20.py:47 | The status command is the single byte 0x71. |
| Commands.TriggerCommand | dht20.py:126-129 | The measurement trigger is the three bytes 0xAC, 0x33, 0x00. |
| Commands.ResetCommand | dht20.py:63-66 | The register reset is the register number followed by two zero bytes. |
| Commands.WriteBackCommand | dht20.py:74-76 | The write-back keeps the register's low nibble under a head of at least 0xB0, whose high nibble is 0xB OR-ed with the register's high nibble. For registers 0x10 to 0x1F the head is exactly 0xB0 plus the low nibble. It carries read-back bytes 1 and 2 unchanged and drops byte 0. |
| Commands.WriteBackHead | dht20.py:74 | OR-ing 0xB0 into `reg` keeps the low nibble of `reg`, gives as high nibble 0xB OR-ed with the high nibble of `reg`, and never clears a bit of 0xB0. For registers 0x10 to 0x1F it equals 0xB0 plus the low nibble (0xBB, 0xBC, 0xBE). |
| Frame.RawHumidity | dht20.py:150-154 | The shift-and-add chain yields byte 1 times 4096, plus byte 2 times 16, plus the high nibble of byte 3. The result is below 2^20. |
| Frame.RawTemperature | dht20.py:157-161 | The mask-shift-and-add chain yields the low nibble of byte 3 times 65536, plus byte 4 times 256, plus byte 5. The result is below 2^20. |
| Frame.Humidity | dht20.py:155 | A valid raw humidity converts to a percentage in [0, 100). |
| Frame.Temperature | dht20.py:162 | A valid raw temperature converts to degrees in [-50, 150). |
| Frame.Decode | dht20.py:147-161 | A frame yields a reading exactly when its whole-frame CRC is zero. Every reading it yields has both fields below 2^20. |
| Frame.DecodeEncode | dht20.py:147-161 | Every pair of 20-bit fields, packed behind any status byte with its CRC appended, decodes back to the same pair. |
| Frame.EncodeFields | dht20.py:150-161 | The field extraction recovers both 20-bit fields from a frame they were packed into. |
| Frame.EncodeDecode | dht20.py:147-161 | Every frame that passes the gate is re-encoded byte for byte from its status byte and decoded fields. Each bit of bytes 1 to 5 lands in exactly one field. |
| Frame.EncodedFrameChecks | dht20.py:147-149 | A frame packed as the sensor sends it always passes the CRC gate. |
| Frame.CorruptedCheckByte | dht20.py:147-149 | Changing the check byte of an accepted frame makes the gate refuse it. |
| Frame.ConversionPoints | dht20.py:155-162 | Raw 0 is 0 %RH and -50 degrees. Raw 2^18 is 0 degrees. The full scale 2^20 would be 100 %RH and 150 degrees. |
| Driver.StatusQuery | dht20.py:47 | The status query writes 0x71 and reads back exactly one byte. |
| Driver.ReadStatus | dht20.py:41-49 | The status read returns the single byte of an acknowledged write-0x71-then-read-1 transaction, and logs that transaction. It raises a bus error exactly when the script's next reply does not acknowledge that transaction. It runs out of script exactly when no reply is left, and then returns the session unchanged. |
| Driver.QueryCalibrated | dht20.py:51-57 | Exactly one status read is made, and the session is the one that read leaves, whatever the outcome. The answer is true exactly when that byte has bit 3 set and bits 5 and 6 clear. A refused status read raises a bus error, the check never spins, and it runs out of script exactly when no reply is left. |
| Driver.ResetRegisters | dht20.py:59-85 | It completes exactly when the reset write and the 3-byte read-back are acknowledged. It then logs `[reg,0,0]`, a read of 3, and the write-back built from the read-back. It returns true exactly when the write-back is acknowledged. It raises a bus error exactly when the reset write, or the read-back after an acknowledged write, is not acknowledged. Running out of script leaves no reply, and every outcome consumes replies from the front of the script. |
| Driver.ResetPass | dht20.py:95-100 | A pass completes exactly when all ten replies are there and the three reset writes, their three read-backs and the final status read are acknowledged; the three write-back replies may fail. It raises a bus error exactly when one of those checked replies that the script holds is refused. It runs out of script exactly when every checked reply there is acknowledged but fewer than ten are there, and then no reply is left. A completed pass resets 0x1B, 0x1C and 0x1E in that order, then reads the status, uses ten replies, logs ten transactions, and returns the final status byte. |
| Driver.ResetSensor | dht20.py:87-102 | When the script answers `n` passes whose preceding status reads are not 0x18, and then the status 0x18, the reset returns `n`. It raises exactly when the first status read is refused, or when the script answers some `n` passes in that way and pass `n`, after a status other than 0x18, meets a refused checked reply; the error is then a bus error. Whenever it returns `n`, the status replies at positions 0, 10, ... 10(n-1) were read and none was 0x18; the one at position 10n is exactly 0x18; each pass made the exchanges of a reset pass; and the log holds exactly the first status read and the `n` passes. It never spins, running out of script leaves no reply, and every outcome consumes replies from the front of the script. |
| Driver.StartMeasurement | dht20.py:133-142 | It finishes with the status byte exactly when the trigger write and the one status read are both acknowledged and that byte has bit 7 clear; it spins exactly when they are acknowledged and bit 7 is set. In both cases it consumes exactly those two replies. It raises a bus error exactly when the trigger write is refused, or the status read after an acknowledged trigger is refused. |
| Driver.GateFrame | dht20.py:147-149 | Comparing byte 6 with the driver's own CRC loop over bytes 0..5 accepts exactly the frames `Frame.Decode` accepts, and yields the same reading. |
| Driver.ReadFrame | dht20.py:144-164 | With a first reply that acknowledges a 7-byte read, it returns a reading when that frame's whole CRC is zero and a checksum mismatch otherwise; in both cases it consumes exactly that reply. A refused read raises a bus error, and it runs out of script exactly when no reply is left, with the session unchanged. It never spins. |
| Driver.ReadData | dht20.py:122-164 | It spins exactly when the trigger is acknowledged and the one status byte read has bit 7 set; the frame is then never read. It returns a reading exactly when the 7-byte frame read next has a zero whole-frame CRC, and that reading is the frame's `Frame.Decode`. It raises a checksum mismatch exactly when the frame is read and fails the gate. It raises a bus error exactly when the trigger write is not acknowledged, or the status read after it is not, or the frame read after an acknowledged status byte with bit 7 clear is not. It runs out of script only when no reply is left. Every outcome consumes replies from the front of the script. |

## Left out

- The bus library (`I2CDevice`, `busio.I2C`, the device address 0x38 and the `with` blocks) is not part of this model. The bus is a script of replies (`Bus.Session`). A read that returns a different number of bytes than requested is treated as a failed transaction.
- `time.sleep`, `os.sched_yield` and the `print` calls (`dht20.py:56`, `dht20.py:101-102`) have no effect on any value, so they are left out.
- `DHT20.__init__` allocates buffers and calls `__reset_sensor`. It is covered by `Driver.ResetSensor`. The buffers and the `self.*` attributes are not modelled as mutable state; their values are passed along instead.
- The floating-point conversions are modelled over the reals (`Frame.Humidity`, `Frame.Temperature`), not as IEEE doubles.
- Driver.ReadData: returns the two raw fields as a `Frame.Reading`, not the list of two floats; the conversion is `Frame.Humidity` and `Frame.Temperature`.
- Driver.ResetSensor, Driver.ResetPass: for a run that raises, the contract says which pass and which reply cause it, and that the returned session consumed replies from the front of the script, but not how many it consumed.
- Termination: the reset loop and the busy wait have no bound in the code. The reset loop is modelled as running for as long as the script lasts. The busy wait is the `Spinning` outcome.
- No concrete CRC values are proved. Evaluating the bit-level operators on literals is too costly for the verifier, so the reference CRC is characterised through `Crc.Checksum` and the residue property instead.
- `code.py`, the example script, is not part of this model.
