/** The three tests the driver applies to the status byte (register 0x71).
    Bit 7 is the busy flag; bits 3, 5 and 6 (mask 0x68) carry the
    calibration state.  The reset loop does not use the calibration test
    but waits for the whole byte to read 0x18. */
module Status {
  import opened Bits

  const CalibrationMask: byte := 0x68
  const CalibratedBits: byte := 0x08
  const Ready: byte := 0x18

  /** `DHT20.__is_calibrated`: `(status & 0x68) == 0x08`, which holds
      exactly when bit 3 is set and bits 5 and 6 are clear. */
  predicate IsCalibrated(status: byte): (calibrated: bool)
    ensures calibrated <==> Bit(status, 3) && !Bit(status, 5) && !Bit(status, 6)
  {
    CalibrationBits(status);
    And(status, CalibrationMask) == CalibratedBits
  }

  /** `read_data`'s poll condition: `(status >> 7) != 0`, which is bit 7,
      the upper half of the byte range. */
  predicate IsBusy(status: byte): (busy: bool)
    ensures busy <==> Bit(status, 7)
    ensures busy <==> status >= 128
  {
    BusyBit(status);
    ShiftRight(status, 7) != 0
  }

  /** `__reset_sensor`'s loop exit: the byte is exactly 0x18, a status that
      is calibrated and not busy. */
  predicate IsReady(status: byte): (ready: bool)
    ensures ready <==> status == Ready
    ensures ready ==> IsCalibrated(status) && !IsBusy(status)
  {
    ReadyVersusCalibrated();
    status == Ready
  }

  /** The calibration test accepts exactly the bytes with bit 3 set and
      bits 5 and 6 clear; so of the eight values `status & 0x68` can take,
      0x00, 0x20, 0x28, 0x40, 0x48, 0x60 and 0x68 are all rejected. */
  lemma CalibrationBits(status: byte)
    ensures And(status, CalibrationMask) == CalibratedBits <==> Bit(status, 3) && !Bit(status, 5) && !Bit(status, 6)
  {
    var masked := And(status, CalibrationMask);
    MaskBits();
    forall k | 0 <= k < 8
      ensures Bit(masked, k) <==> Bit(status, k) && Bit(CalibrationMask, k)
    {
      AndBit(status, CalibrationMask, k);
    }
    if Bit(status, 3) && !Bit(status, 5) && !Bit(status, 6) {
      AndBound(status, CalibrationMask);
      Pow2Values();
      BitsDetermine(masked, CalibratedBits, 8);
    }
  }

  /** The bits of the two constants of the calibration test. */
  lemma MaskBits()
    ensures forall k | 0 <= k < 8 :: Bit(CalibrationMask, k) <==> k == 3 || k == 5 || k == 6
    ensures forall k | 0 <= k < 8 :: Bit(CalibratedBits, k) <==> k == 3
  {
    assert !Bit(0x68, 0) && !Bit(0x68, 1) && !Bit(0x68, 2) && Bit(0x68, 3);
    assert !Bit(0x68, 4) && Bit(0x68, 5) && Bit(0x68, 6) && !Bit(0x68, 7);
    assert !Bit(0x08, 0) && !Bit(0x08, 1) && !Bit(0x08, 2) && Bit(0x08, 3);
    assert !Bit(0x08, 4) && !Bit(0x08, 5) && !Bit(0x08, 6) && !Bit(0x08, 7);
  }

  /** The busy test is bit 7, i.e. the upper half of the byte range. */
  lemma BusyBit(status: byte)
    ensures ShiftRight(status, 7) != 0 <==> Bit(status, 7)
    ensures ShiftRight(status, 7) != 0 <==> status >= 128
  {
    Pow2Values();
    ShiftsByConstants(status);
    TopBit(status, 7);
  }

  /** The reset loop's exit status passes the calibration test and is not
      busy, but the converse fails: 0x08 passes the calibration test and
      still keeps the reset loop running. */
  lemma ReadyVersusCalibrated()
    ensures IsCalibrated(Ready) && !IsBusy(Ready)
    ensures IsCalibrated(0x08) && 0x08 != Ready
  {
    assert Bit(0x18, 3) && !Bit(0x18, 5) && !Bit(0x18, 6);
    assert Bit(0x08, 3) && !Bit(0x08, 5) && !Bit(0x08, 6);
  }
}
