/** The `DHT20` class: its bus conversations over a scripted session.

    Each operation consumes replies from the session's script in the order
    the driver issues its transactions and appends those transactions to
    the log.  A bus error the driver does not catch surfaces as `Raised`;
    an operation that would wait forever is `Spinning`; a script that runs
    out before the operation finishes is `OutOfScript`. */
module Driver {
  import opened Bits
  import opened Bus
  import opened Status
  import opened Commands
  import opened Crc
  import opened Frame

  datatype Error =
    | BusError          // raised by the bus library and not caught
    | ChecksumMismatch  // `read_data` returns fields it never assigned

  datatype Outcome<T> =
    | Done(value: T, session: Session)
    | Raised(error: Error, session: Session)
    | Spinning(session: Session)
    | OutOfScript(session: Session)
  {
    /** An outcome that is not `Done`, carried over to another result type. */
    function Stopped<U>(): (r: Outcome<U>)
      requires !Done?
      ensures !r.Done? && r.session == session
      ensures Raised? <==> r.Raised?
      ensures Spinning? <==> r.Spinning?
      ensures Raised? ==> r.error == error
    {
      match this
      case Raised(e, s) => Raised(e, s)
      case Spinning(s) => Spinning(s)
      case OutOfScript(s) => OutOfScript(s)
    }
  }

  // ---------------------------------------------------------------------
  // Status register
  // ---------------------------------------------------------------------

  /** The transaction `__status` issues. */
  function StatusQuery(): (t: Transfer)
    ensures t.WriteThenRead? && t.command == [0x71] && ReplyLength(t) == 1
  {
    WriteThenRead(StatusCommand(), 1)
  }

  /** `DHT20.__status`: write 0x71, read one byte, return it. */
  function ReadStatus(s: Session): (r: Outcome<byte>)
    ensures r.Done? <==> |s.script| > 0 && Acknowledges(s.script[0], StatusQuery())
    ensures r.Done? ==> s.script[0] == Completed([r.value]) && r.session == Advance(s, [StatusQuery()])
    ensures r.Raised? <==> |s.script| > 0 && !Acknowledges(s.script[0], StatusQuery())
    ensures r.Raised? ==> r.error == BusError && r.session == Advance(s, [StatusQuery()])
    ensures r.OutOfScript? <==> |s.script| == 0
    ensures r.OutOfScript? ==> r.session == s
    ensures !r.Spinning?
    ensures Consumed(s, r.session)
  {
    match Transact(s, StatusQuery())
    case Unscripted => ConsumedNothing(s); OutOfScript(s)
    case Failed(next) => Raised(BusError, next)
    case Answered(data, next) =>
      assert data == [data[0]];
      Done(data[0], next)
  }

  /** `DHT20.__is_calibrated`: one status read, then bit 3 set and bits 5
      and 6 clear. */
  function QueryCalibrated(s: Session): (r: Outcome<bool>)
    ensures r.Done? <==> ReadStatus(s).Done?
    ensures r.session == ReadStatus(s).session
    ensures r.Done? ==> var status := s.script[0].data[0];
                        (r.value <==> Bit(status, 3) && !Bit(status, 5) && !Bit(status, 6))
    ensures r.Raised? <==> |s.script| > 0 && !Acknowledges(s.script[0], StatusQuery())
    ensures r.Raised? ==> r.error == BusError
    ensures r.OutOfScript? <==> |s.script| == 0
    ensures !r.Spinning?
  {
    var status := ReadStatus(s);
    if status.Done? then
      Done(IsCalibrated(status.value), status.session)
    else status.Stopped()
  }

  // ---------------------------------------------------------------------
  // Reset
  // ---------------------------------------------------------------------

  /** The transactions of one `__reset_registers(reg)` that read back `values`. */
  function RegisterTransfers(reg: byte, values: seq<byte>): seq<Transfer>
    requires |values| == 3
  {
    [Write(ResetCommand(reg)), ReadInto(3), Write(WriteBackCommand(reg, values))]
  }

  /** `replies` and `transfers` are a run of `__reset_registers(reg)` that
      returned, with or without the write-back acknowledged. */
  predicate RegisterExchanged(reg: byte, replies: seq<Reply>, transfers: seq<Transfer>) {
    |replies| == 3
    && Acknowledges(replies[0], Write(ResetCommand(reg)))
    && Acknowledges(replies[1], ReadInto(3))
    && transfers == RegisterTransfers(reg, replies[1].data)
  }

  /** The reset write and the read-back of `__reset_registers(reg)` are
      acknowledged, and a reply for the write-back is there. */
  predicate RegisterAnswered(reg: byte, replies: seq<Reply>) {
    |replies| >= 3
    && Acknowledges(replies[0], Write(ResetCommand(reg)))
    && Acknowledges(replies[1], ReadInto(3))
  }

  /** The reset write of `__reset_registers(reg)` is refused, or it is
      acknowledged and the read-back after it is refused. */
  predicate RegisterRefused(reg: byte, replies: seq<Reply>) {
    || (|replies| > 0 && !Acknowledges(replies[0], Write(ResetCommand(reg))))
    || (|replies| > 1 && Acknowledges(replies[0], Write(ResetCommand(reg)))
        && !Acknowledges(replies[1], ReadInto(3)))
  }

  /** `DHT20.__reset_registers(reg)`: write `[reg, 0, 0]`, read three bytes,
      write `[0xB0 | reg, b1, b2]`.  Only the write-back is inside the
      `try`: its failure returns false, a failure before it propagates. */
  method ResetRegisters(reg: byte, s: Session) returns (r: Outcome<bool>)
    ensures r.Done? <==> RegisterAnswered(reg, s.script)
    ensures r.Done? ==> r.session == Advance(s, RegisterTransfers(reg, s.script[1].data))
                        && RegisterExchanged(reg, s.script[..3], r.session.log[|s.log|..])
    ensures r.Done? ==> (r.value <==> s.script[2] == Completed([]))
    ensures r.Raised? <==> RegisterRefused(reg, s.script)
    ensures r.Raised? ==> r.error == BusError
    ensures r.OutOfScript? ==> |r.session.script| == 0
    ensures !r.Spinning?
    ensures Consumed(s, r.session)
  {
    var write := Transact(s, Write(ResetCommand(reg)));
    if write.Unscripted? {
      ConsumedNothing(s);
      return OutOfScript(s);
    } else if write.Failed? {
      return Raised(BusError, write.next);
    }
    var s1 := write.next;
    var read := Transact(s1, ReadInto(3));
    if read.Unscripted? {
      return OutOfScript(s1);
    } else if read.Failed? {
      ConsumedTrans(s, s1, read.next);
      return Raised(BusError, read.next);
    }
    var s2 := read.next;
    var writeBack := Transact(s2, Write(WriteBackCommand(reg, read.data)));
    if writeBack.Unscripted? {
      ConsumedTrans(s, s1, s2);
      return OutOfScript(s2);
    }
    assert s.script[..3] == [s.script[0], s.script[1], s.script[2]];
    return Done(writeBack.Answered?, writeBack.next);
  }

  /** One pass of the loop in `__reset_sensor` that got as far as the
      status read: registers 0x1B, 0x1C and 0x1E in that order, then one
      status read; ten replies and ten transactions in all. */
  predicate PassExchanged(replies: seq<Reply>, transfers: seq<Transfer>) {
    |replies| == 10 && |transfers| == 10
    && RegisterExchanged(CalibrationRegisters[0], replies[0..3], transfers[0..3])
    && RegisterExchanged(CalibrationRegisters[1], replies[3..6], transfers[3..6])
    && RegisterExchanged(CalibrationRegisters[2], replies[6..9], transfers[6..9])
    && Acknowledges(replies[9], StatusQuery()) && transfers[9] == StatusQuery()
  }

  /** `s` was answered for one whole pass of the reset loop, ending in
      the status byte `status` and leaving `next`. */
  predicate PassCompleted(s: Session, status: byte, next: Session) {
    |s.script| >= 10 && next.script == s.script[10..]
    && |next.log| == |s.log| + 10 && next.log[..|s.log|] == s.log
    && PassExchanged(s.script[..10], next.log[|s.log|..])
    && s.script[9] == Completed([status])
  }

  /** Slot `i` of a pass holds a reply the pass checks: a reset write or
      read-back (slots 0, 1, 3, 4, 6 and 7) or the status read (slot 9).
      The write-back slots 2, 5 and 8 are not checked, since
      `__reset_registers` catches their failure. */
  predicate CheckedSlot(i: nat) {
    i < 10 && i % 3 != 2
  }

  /** The transaction a pass issues at checked slot `i`. */
  function SlotTransfer(i: nat): Transfer
    requires CheckedSlot(i)
  {
    if i == 9 then StatusQuery()
    else if i % 3 == 0 then Write(ResetCommand(CalibrationRegisters[i / 3]))
    else ReadInto(3)
  }

  /** Every checked reply below slot `k` that `replies` holds acknowledges
      its transaction. */
  predicate AcknowledgedBelow(replies: seq<Reply>, k: nat) {
    forall i | 0 <= i < k && i < |replies| && CheckedSlot(i) :: Acknowledges(replies[i], SlotTransfer(i))
  }

  /** No checked reply of a pass that `replies` holds is refused. */
  predicate PassAcknowledged(replies: seq<Reply>) {
    AcknowledgedBelow(replies, 10)
  }

  /** The replies a pass of the reset loop needs to complete: all ten are
      there and every checked one is acknowledged. */
  predicate PassAnswered(replies: seq<Reply>) {
    |replies| >= 10 && PassAcknowledged(replies)
  }

  /** The body of the loop in `__reset_sensor`; the results of
      `__reset_registers` are discarded.  A pass stops at the first checked
      reply that is refused, raising, and runs out of script when every
      checked reply there is acknowledged but fewer than ten are there. */
  method ResetPass(s: Session) returns (r: Outcome<byte>)
    ensures r.Done? <==> PassAnswered(s.script)
    ensures r.Done? ==> PassCompleted(s, r.value, r.session)
    ensures r.Raised? <==> !PassAcknowledged(s.script)
    ensures r.Raised? ==> r.error == BusError
    ensures r.OutOfScript? <==> |s.script| < 10 && PassAcknowledged(s.script)
    ensures r.OutOfScript? ==> |r.session.script| == 0
    ensures !r.Spinning?
    ensures Consumed(s, r.session)
  {
    var current := s;
    ConsumedNothing(s);
    for k := 0 to 3
      invariant Consumed(s, current) && |s.script| - |current.script| == 3 * k
      invariant AcknowledgedBelow(s.script, 3 * k)
      invariant RegistersLogged(s, current.log, k)
    {
      var step := ResetRegisters(CalibrationRegisters[k], current);
      ConsumedTrans(s, current, step.session);
      if !step.Done? {
        RegisterStops(s.script, k);
        return step.Stopped();
      }
      RegisterSlots(s.script, k);
      RegisterLogged(s, current, k, step.session);
      current := step.session;
    }
    r := ReadStatus(current);
    StatusSlot(s.script);
    ConsumedTrans(s, current, r.session);
    if r.Done? {
      PassAssembled(s, current, r.value, r.session);
    }
  }

  /** The first `k` registers of a pass made their exchanges, with the
      replies read from the start of `s` and the transfers logged in order
      in `log` after `s.log`. */
  predicate RegistersLogged(s: Session, log: seq<Transfer>, k: nat) {
    k <= 3 && |s.script| >= 3 * k && |log| >= |s.log| + 3 * k
    && forall j | 0 <= j < k ::
         RegisterExchanged(CalibrationRegisters[j], s.script[3 * j .. 3 * j + 3],
                           log[|s.log| + 3 * j .. |s.log| + 3 * j + 3])
  }

  /** Register `k` of a pass, once it completes, joins the exchanges logged. */
  lemma RegisterLogged(s: Session, current: Session, k: nat, next: Session)
    requires k < 3 && |s.script| >= 3 * k && current.script == s.script[3 * k..]
    requires |current.log| == |s.log| + 3 * k
    requires RegistersLogged(s, current.log, k)
    requires |current.script| >= 3
    requires |next.log| == |current.log| + 3 && next.log[..|current.log|] == current.log
    requires RegisterExchanged(CalibrationRegisters[k], current.script[..3], next.log[|current.log|..])
    ensures RegistersLogged(s, next.log, k + 1)
  {
    EarlierRegisters(s, current.log, next.log, k);
    NewRegister(s.script, current.script, |s.log|, next.log, k);
  }

  /** Extending the log keeps the registers already in it. */
  lemma EarlierRegisters(s: Session, before: seq<Transfer>, after: seq<Transfer>, k: nat)
    requires RegistersLogged(s, before, k)
    requires |before| <= |after| && after[..|before|] == before
    ensures forall j | 0 <= j < k ::
              RegisterExchanged(CalibrationRegisters[j], s.script[3 * j .. 3 * j + 3],
                                after[|s.log| + 3 * j .. |s.log| + 3 * j + 3])
  {
    forall j | 0 <= j < k
      ensures RegisterExchanged(CalibrationRegisters[j], s.script[3 * j .. 3 * j + 3],
                                after[|s.log| + 3 * j .. |s.log| + 3 * j + 3])
    {
      var lo := |s.log| + 3 * j;
      assert RegisterExchanged(CalibrationRegisters[j], s.script[3 * j .. 3 * j + 3], before[lo .. lo + 3]);
      SliceInPrefix(before, after, lo, lo + 3);
    }
  }

  /** The register just reset sits at slot `k` of the pass. */
  lemma NewRegister(script: seq<Reply>, rest: seq<Reply>, n: nat, log: seq<Transfer>, k: nat)
    requires k < 3 && |script| >= 3 * k && rest == script[3 * k..] && |rest| >= 3
    requires |log| == n + 3 * k + 3
    requires RegisterExchanged(CalibrationRegisters[k], rest[..3], log[n + 3 * k..])
    ensures RegisterExchanged(CalibrationRegisters[k], script[3 * k .. 3 * k + 3], log[n + 3 * k .. n + 3 * k + 3])
  {
    assert script[3 * k .. 3 * k + 3] == rest[..3];
    assert log[n + 3 * k .. n + 3 * k + 3] == log[n + 3 * k..];
  }

  /** A slice that lies within a prefix `after` shares with `before` is the
      same slice of `before`. */
  lemma SliceInPrefix<T>(before: seq<T>, after: seq<T>, lo: nat, hi: nat)
    requires lo <= hi <= |before| <= |after| && after[..|before|] == before
    ensures after[lo..hi] == before[lo..hi]
  {
    assert forall i | 0 <= i < hi - lo :: after[lo..hi][i] == before[lo..hi][i];
  }

  /** Three registers logged and an answered status read make a whole pass. */
  lemma PassAssembled(s: Session, current: Session, status: byte, next: Session)
    requires Consumed(s, current) && |s.script| - |current.script| == 9
    requires RegistersLogged(s, current.log, 3)
    requires |current.script| >= 1 && current.script[0] == Completed([status])
    requires next == Advance(current, [StatusQuery()])
    ensures PassCompleted(s, status, next)
  {
    var n := |s.log|;
    var replies := s.script[..10];
    var transfers := next.log[n..];
    assert current.script == s.script[9..];
    assert next.log[..|current.log|] == current.log;
    assert RegisterExchanged(CalibrationRegisters[0], s.script[0..3], current.log[n..n + 3]);
    assert RegisterExchanged(CalibrationRegisters[1], s.script[3..6], current.log[n + 3..n + 6]);
    assert RegisterExchanged(CalibrationRegisters[2], s.script[6..9], current.log[n + 6..n + 9]);
    SliceInPrefix(replies, s.script, 0, 3);
    SliceInPrefix(replies, s.script, 3, 6);
    SliceInPrefix(replies, s.script, 6, 9);
    SliceInPrefix(current.log, next.log, n, n + 3);
    SliceInPrefix(current.log, next.log, n + 3, n + 6);
    SliceInPrefix(current.log, next.log, n + 6, n + 9);
    assert transfers[0..3] == next.log[n..n + 3];
    assert transfers[3..6] == next.log[n + 3..n + 6];
    assert transfers[6..9] == next.log[n + 6..n + 9];
    assert transfers[9] == StatusQuery();
  }

  /** Register `k` of a pass, with the checked replies before it
      acknowledged, completes only with its own checked slots acknowledged. */
  lemma RegisterSlots(replies: seq<Reply>, k: nat)
    requires k < 3 && |replies| >= 3 * k
    requires AcknowledgedBelow(replies, 3 * k)
    ensures RegisterAnswered(CalibrationRegisters[k], replies[3 * k..]) ==> AcknowledgedBelow(replies, 3 * k + 3)
  {
    var rest := replies[3 * k..];
    if RegisterAnswered(CalibrationRegisters[k], rest) {
      RegisterSlotTransfers(k);
      assert rest[0] == replies[3 * k] && rest[1] == replies[3 * k + 1];
    }
  }

  /** When register `k` of a pass stops, with the checked replies before it
      acknowledged, it raises exactly when the pass has a refused checked
      reply, and otherwise fewer than ten replies are there. */
  lemma RegisterStops(replies: seq<Reply>, k: nat)
    requires k < 3 && |replies| >= 3 * k
    requires AcknowledgedBelow(replies, 3 * k)
    requires !RegisterAnswered(CalibrationRegisters[k], replies[3 * k..])
    ensures RegisterRefused(CalibrationRegisters[k], replies[3 * k..]) <==> !PassAcknowledged(replies)
    ensures !RegisterRefused(CalibrationRegisters[k], replies[3 * k..]) ==> |replies| < 10
  {
    var rest := replies[3 * k..];
    RegisterSlotTransfers(k);
    assert |rest| > 0 ==> rest[0] == replies[3 * k];
    assert |rest| > 1 ==> rest[1] == replies[3 * k + 1];
  }

  /** The checked slots of register `k` within a pass. */
  lemma RegisterSlotTransfers(k: nat)
    requires k < 3
    ensures CheckedSlot(3 * k) && SlotTransfer(3 * k) == Write(ResetCommand(CalibrationRegisters[k]))
    ensures CheckedSlot(3 * k + 1) && SlotTransfer(3 * k + 1) == ReadInto(3)
    ensures !CheckedSlot(3 * k + 2)
  {
    assert (3 * k) / 3 == k;
  }

  /** The status read that ends a pass, with the checked replies before
      it acknowledged. */
  lemma StatusSlot(replies: seq<Reply>)
    requires |replies| >= 9 && AcknowledgedBelow(replies, 9)
    ensures PassAnswered(replies) <==> |replies| > 9 && Acknowledges(replies[9], StatusQuery())
    ensures PassAcknowledged(replies) <==> |replies| == 9 || Acknowledges(replies[9], StatusQuery())
  {
    assert CheckedSlot(9) && SlotTransfer(9) == StatusQuery();
  }

  /** The status read before pass `p` of the reset loop (before the loop
      for `p` = 0) completed and was not 0x18.  Status replies sit at
      positions 0, 10, 20, ... of the script. */
  predicate NotReadyAt(script: seq<Reply>, p: nat) {
    10 * p < |script| && Acknowledges(script[10 * p], StatusQuery())
    && !IsReady(script[10 * p].data[0])
  }

  /** Pass `p` of the reset loop made the exchanges of `PassExchanged`,
      with `transfers` counted from the start of `__reset_sensor`. */
  predicate PassAt(script: seq<Reply>, transfers: seq<Transfer>, p: nat) {
    11 + 10 * p <= |script| && 11 + 10 * p <= |transfers|
    && PassExchanged(script[1 + 10 * p .. 11 + 10 * p], transfers[1 + 10 * p .. 11 + 10 * p])
  }

  /** `DHT20.__reset_sensor`: read the status, then repeat resets of
      0x1B, 0x1C and 0x1E followed by a status read until the status byte
      is exactly 0x18; the result is the number of passes (`self.counter`).
      The loop has no bound of its own: it runs as long as the device
      answers with other bytes, and this model as long as the script lasts. */
  method ResetSensor(s: Session) returns (r: Outcome<nat>)
    ensures r.Done? ==> ResetProgress(s, r.session, Ready, r.value)
    ensures forall n :: ReadyAfter(s.script, n) ==> r.Done? && r.value == n
    ensures r.Raised? <==> (|s.script| > 0 && !Acknowledges(s.script[0], StatusQuery()))
                           || exists n :: RaisesInPass(s.script, n)
    ensures r.Raised? ==> r.error == BusError
    ensures r.OutOfScript? ==> |r.session.script| == 0
    ensures !r.Spinning?
    ensures Consumed(s, r.session)
  {
    var first := ReadStatus(s);
    if !first.Done? {
      NeverReadyUnanswered(s.script);
      NeverRaisesUnanswered(s.script);
      return first.Stopped();
    }
    var status := first.value;
    var current := first.session;
    var counter: nat := 0;
    while !IsReady(status)
      invariant ResetProgress(s, current, status, counter)
      decreases |current.script|
    {
      var pass := ResetPass(current);
      if !pass.Done? {
        NeverReadyFailedPass(s, current, status, counter);
        RaisesAtPass(s, current, status, counter);
        ConsumedTrans(s, current, pass.session);
        return pass.Stopped();
      }
      PassStep(s, current, status, counter, pass.value, pass.session);
      status := pass.value;
      current := pass.session;
      counter := counter + 1;
    }
    ReadyAfterExits(s, current, status, counter);
    NeverRaisesReady(s, current, status, counter);
    return Done(counter, current);
  }

  /** A script on which the reset loop returns after exactly `n` passes:
      the status reads before passes 0 .. n-1 answer something other than
      0x18, each of those passes is answered, and the status read after
      pass n-1 (the first one, for `n` = 0) answers 0x18. */
  predicate ReadyAfter(script: seq<Reply>, n: nat) {
    10 * n < |script| && script[10 * n] == Completed([Ready]) && PassesAnswered(script, n)
  }

  /** The first `n` passes of the reset loop are answered: the status read
      before each is not 0x18 and the pass gets every reply it checks. */
  predicate PassesAnswered(script: seq<Reply>, n: nat) {
    forall p | 0 <= p < n :: NotReadyAt(script, p) && PassAnswered(script[1 + 10 * p..])
  }

  /** A script on which the reset loop raises in pass `n`: the passes
      before it are answered, the status read before it is not 0x18, and
      the pass meets a refused checked reply. */
  predicate RaisesInPass(script: seq<Reply>, n: nat) {
    PassesAnswered(script, n) && NotReadyAt(script, n) && !PassAcknowledged(script[1 + 10 * n..])
  }

  lemma RaisesInPassFirst(script: seq<Reply>, n: nat)
    requires RaisesInPass(script, n)
    ensures |script| > 0 && Acknowledges(script[0], StatusQuery())
  {
    if n > 0 {
      assert NotReadyAt(script, 0);
    }
  }

  /** A script whose first status read fails never raises in a pass. */
  lemma NeverRaisesUnanswered(script: seq<Reply>)
    requires |script| == 0 || !Acknowledges(script[0], StatusQuery())
    ensures forall n :: !RaisesInPass(script, n)
  {
    forall n | RaisesInPass(script, n)
      ensures false
    {
      RaisesInPassFirst(script, n);
    }
  }

  /** A pass the script raises in lies at or after the loop's current
      pass `c`; it is pass `c` itself exactly when pass `c` meets a refused
      reply, and a later one needs pass `c` answered. */
  lemma RaisedPassFollows(s: Session, current: Session, status: byte, c: nat, n: nat)
    requires ResetProgress(s, current, status, c)
    requires RaisesInPass(s.script, n)
    ensures c <= n && !IsReady(status)
    ensures c == n ==> !PassAcknowledged(current.script)
    ensures c < n ==> PassAnswered(current.script)
  {
    ProgressAnswered(s, current, status, c);
    assert n < c ==> NotReadyAt(s.script, n);
    assert c < n ==> NotReadyAt(s.script, c) && PassAnswered(s.script[1 + 10 * c..]);
  }

  /** When pass `c` of the loop stops, the script raises in some pass
      exactly when pass `c` meets a refused reply. */
  lemma RaisesAtPass(s: Session, current: Session, status: byte, c: nat)
    requires ResetProgress(s, current, status, c) && !IsReady(status)
    requires !PassAnswered(current.script)
    ensures (exists n :: RaisesInPass(s.script, n)) <==> !PassAcknowledged(current.script)
  {
    ProgressAnswered(s, current, status, c);
    assert NotReadyAt(s.script, c);
    if !PassAcknowledged(current.script) {
      assert RaisesInPass(s.script, c);
    }
    forall n | RaisesInPass(s.script, n)
      ensures !PassAcknowledged(current.script)
    {
      RaisedPassFollows(s, current, status, c, n);
    }
  }

  /** When the loop exits, the script raises in no pass. */
  lemma NeverRaisesReady(s: Session, current: Session, status: byte, c: nat)
    requires ResetProgress(s, current, status, c) && IsReady(status)
    ensures forall n :: !RaisesInPass(s.script, n)
  {
    forall n | RaisesInPass(s.script, n)
      ensures false
    {
      RaisedPassFollows(s, current, status, c, n);
    }
  }

  /** The passes the loop has made were answered. */
  lemma ProgressAnswered(s: Session, current: Session, status: byte, c: nat)
    requires ResetProgress(s, current, status, c)
    ensures PassesAnswered(s.script, c)
  {
    forall p | 0 <= p < c
      ensures PassAnswered(s.script[1 + 10 * p..])
    {
      assert PassAt(s.script, current.log[|s.log|..], p);
      ExchangedAnswered(s.script[1 + 10 * p .. 11 + 10 * p], s.script[1 + 10 * p..],
                        current.log[|s.log|..][1 + 10 * p .. 11 + 10 * p]);
    }
  }

  /** A pass that made the exchanges of `PassExchanged` got every reply it checks. */
  lemma ExchangedAnswered(pass: seq<Reply>, rest: seq<Reply>, transfers: seq<Transfer>)
    requires PassExchanged(pass, transfers)
    requires |rest| >= 10 && rest[..10] == pass
    ensures PassAnswered(rest)
  {
    forall i | 0 <= i < 10 && CheckedSlot(i)
      ensures Acknowledges(rest[i], SlotTransfer(i))
    {
      assert rest[i] == pass[i];
      if i < 3 {
        assert pass[0..3][i] == pass[i];
      } else if i < 6 {
        assert pass[3..6][i - 3] == pass[i];
      } else if i < 9 {
        assert pass[6..9][i - 6] == pass[i];
      }
    }
  }

  lemma ReadyAfterFirst(script: seq<Reply>, n: nat)
    requires ReadyAfter(script, n)
    ensures |script| > 0 && Acknowledges(script[0], StatusQuery())
  {
    if n > 0 {
      assert NotReadyAt(script, 0);
    }
  }

  /** A script whose first status read fails never ends the reset. */
  lemma NeverReadyUnanswered(script: seq<Reply>)
    requires |script| == 0 || !Acknowledges(script[0], StatusQuery())
    ensures forall n :: !ReadyAfter(script, n)
  {
    forall n | ReadyAfter(script, n)
      ensures false
    {
      ReadyAfterFirst(script, n);
    }
  }

  /** A script whose next pass fails while the loop runs never ends the reset. */
  lemma NeverReadyFailedPass(s: Session, current: Session, status: byte, c: nat)
    requires ResetProgress(s, current, status, c) && !IsReady(status)
    requires !PassAnswered(current.script)
    ensures forall n :: !ReadyAfter(s.script, n)
  {
    forall n | ReadyAfter(s.script, n)
      ensures false
    {
      ReadyAfterPass(s, current, status, c, n);
    }
  }

  /** When the loop exits after `c` passes, `c` is the only count a
      script can end the reset with. */
  lemma ReadyAfterExits(s: Session, current: Session, status: byte, c: nat)
    requires ResetProgress(s, current, status, c) && IsReady(status)
    ensures forall n :: ReadyAfter(s.script, n) ==> n == c
  {
    forall n | ReadyAfter(s.script, n)
      ensures n == c
    {
      ReadyAfterExit(s, current, status, c, n);
    }
  }

  /** While the loop runs, a script that ends the reset after `n` passes
      has more passes to go, and answers the next one. */
  lemma ReadyAfterPass(s: Session, current: Session, status: byte, c: nat, n: nat)
    requires ResetProgress(s, current, status, c) && !IsReady(status)
    requires ReadyAfter(s.script, n)
    ensures c < n && PassAnswered(current.script)
  {
    assert n < c ==> NotReadyAt(s.script, n);
    assert NotReadyAt(s.script, c) && PassAnswered(s.script[1 + 10 * c..]);
  }

  /** When the loop exits, it has made exactly the passes such a script asks for. */
  lemma ReadyAfterExit(s: Session, current: Session, status: byte, c: nat, n: nat)
    requires ResetProgress(s, current, status, c) && IsReady(status)
    requires ReadyAfter(s.script, n)
    ensures c == n
  {
    assert n < c ==> NotReadyAt(s.script, n);
    assert c < n ==> NotReadyAt(s.script, c);
  }

  /** The reset loop after `c` passes: the session has consumed and logged
      the first status read and `c` passes, `status` is the last status
      read, every earlier status read was not 0x18, and pass `p` made the
      exchanges of a reset pass at slot `p`.  With `status` = 0x18 it
      describes a finished reset. */
  predicate ResetProgress(s: Session, current: Session, status: byte, c: nat) {
    |s.script| >= 1 + 10 * c && current.script == s.script[1 + 10 * c..]
    && |current.log| == |s.log| + 1 + 10 * c && current.log[..|s.log|] == s.log
    && current.log[|s.log|] == StatusQuery()
    && s.script[10 * c] == Completed([status])
    && forall p | 0 <= p < c :: NotReadyAt(s.script, p) && PassAt(s.script, current.log[|s.log|..], p)
  }

  /** One more pass keeps the reset loop's invariant: the earlier passes
      are untouched and the new one sits at the next slot. */
  lemma PassStep(s: Session, current: Session, status: byte, c: nat, value: byte, next: Session)
    requires ResetProgress(s, current, status, c) && !IsReady(status)
    requires PassCompleted(current, value, next)
    ensures |next.script| < |current.script|
    ensures ResetProgress(s, next, value, c + 1)
  {
    assert NotReadyAt(s.script, c);
    var before := current.log[|s.log|..];
    var after := next.log[|s.log|..];
    PassSlots(s, current, next, c);
    EarlierPasses(s.script, before, after, c);
    NewPass(s, current, next, c);
  }

  /** Where a pass's session sits within the whole reset. */
  lemma PassSlots(s: Session, current: Session, next: Session, c: nat)
    requires |s.script| >= 1 + 10 * c && current.script == s.script[1 + 10 * c..]
    requires |current.log| == |s.log| + 1 + 10 * c && current.log[..|s.log|] == s.log
    requires |current.script| >= 10 && next.script == current.script[10..]
    requires |next.log| == |current.log| + 10 && next.log[..|current.log|] == current.log
    ensures |s.script| >= 1 + 10 * (c + 1) && next.script == s.script[1 + 10 * (c + 1)..]
    ensures |next.log| == |s.log| + 1 + 10 * (c + 1) && next.log[..|s.log|] == s.log
    ensures next.log[|s.log|] == current.log[|s.log|]
    ensures s.script[10 * (c + 1)] == current.script[9]
    ensures next.log[|s.log|..][..|current.log| - |s.log|] == current.log[|s.log|..]
  {
    assert next.log[|s.log|] == next.log[..|current.log|][|s.log|];
  }

  /** Extending the log keeps the passes already in it. */
  lemma EarlierPasses(script: seq<Reply>, before: seq<Transfer>, after: seq<Transfer>, c: nat)
    requires |before| <= |after| && after[..|before|] == before
    requires forall p | 0 <= p < c :: PassAt(script, before, p)
    ensures forall p | 0 <= p < c :: PassAt(script, after, p)
  {
    forall p | 0 <= p < c
      ensures PassAt(script, after, p)
    {
      assert PassAt(script, before, p);
      assert after[1 + 10 * p .. 11 + 10 * p] == before[1 + 10 * p .. 11 + 10 * p];
    }
  }

  /** The pass just made sits at slot `c`. */
  lemma NewPass(s: Session, current: Session, next: Session, c: nat)
    requires |s.script| >= 1 + 10 * c && current.script == s.script[1 + 10 * c..]
    requires |current.log| == |s.log| + 1 + 10 * c
    requires |current.script| >= 10
    requires |next.log| == |current.log| + 10 && next.log[..|current.log|] == current.log
    requires PassExchanged(current.script[..10], next.log[|current.log|..])
    ensures PassAt(s.script, next.log[|s.log|..], c)
  {
    assert s.script[1 + 10 * c .. 11 + 10 * c] == current.script[..10];
    assert next.log[|s.log|..][1 + 10 * c .. 11 + 10 * c] == next.log[|current.log|..];
  }

  // ---------------------------------------------------------------------
  // Measurement
  // ---------------------------------------------------------------------

  /** The transactions of `read_data` up to the busy test: the trigger
      write and the one-byte status read. */
  function TriggerTransfers(): seq<Transfer> {
    [Write(TriggerCommand()), ReadInto(1)]
  }

  /** The trigger was acknowledged and the status byte read back. */
  predicate Triggered(s: Session) {
    |s.script| >= 2
    && Acknowledges(s.script[0], Write(TriggerCommand()))
    && Acknowledges(s.script[1], ReadInto(1))
  }

  /** The status read was not busy and the 7-byte frame was read back. */
  predicate FrameReceived(s: Session) {
    Triggered(s) && !IsBusy(s.script[1].data[0])
    && |s.script| >= 3 && Acknowledges(s.script[2], ReadInto(FrameLength))
  }

  /** The gate at the end of `read_data`: the driver's own CRC loop over
      bytes 0..5, compared with byte 6, accepts exactly the frames the
      reference decoder accepts and extracts the same fields. */
  method GateFrame(rx: seq<byte>) returns (r: Option<Reading>)
    requires |rx| == FrameLength
    ensures r == Decode(rx)
    ensures r.Some? <==> rx[6] == Checksum(rx[..6])
  {
    var crc := Crc8(rx, 6);
    if rx[6] as int == crc {
      return Some(Reading(RawHumidity(rx), RawTemperature(rx)));
    }
    return None;
  }

  /** The last part of `read_data`: read the 7-byte frame and pass it
      through the CRC gate. */
  method ReadFrame(s: Session) returns (r: Outcome<Reading>)
    ensures r.Done? <==>
              |s.script| > 0 && Acknowledges(s.script[0], ReadInto(FrameLength))
              && Checksum(s.script[0].data) == 0
    ensures r.Raised? && r.error == ChecksumMismatch <==>
              |s.script| > 0 && Acknowledges(s.script[0], ReadInto(FrameLength))
              && Checksum(s.script[0].data) != 0
    ensures r.Done? ==> Decode(s.script[0].data) == Some(r.value)
    ensures r.Raised? && r.error == BusError <==>
              |s.script| > 0 && !Acknowledges(s.script[0], ReadInto(FrameLength))
    ensures r.OutOfScript? <==> |s.script| == 0
    ensures r.OutOfScript? ==> r.session == s
    ensures !r.Spinning?
    ensures r.Done? || (r.Raised? && r.error == ChecksumMismatch) ==>
              r.session == Advance(s, [ReadInto(FrameLength)])
    ensures Consumed(s, r.session)
  {
    var measure := Transact(s, ReadInto(FrameLength));
    if measure.Unscripted? {
      ConsumedNothing(s);
      return OutOfScript(s);
    } else if measure.Failed? {
      return Raised(BusError, measure.next);
    }
    var reading := GateFrame(measure.data);
    if reading.Some? {
      return Done(reading.value, measure.next);
    }
    return Raised(ChecksumMismatch, measure.next);
  }

  /** The first part of `read_data`: write the trigger, read one status
      byte, and wait while its bit 7 is set.  The wait never reads the
      status again, so a busy byte keeps it spinning forever. */
  method StartMeasurement(s: Session) returns (r: Outcome<byte>)
    ensures r.Done? <==> Triggered(s) && !IsBusy(s.script[1].data[0])
    ensures r.Spinning? <==> Triggered(s) && IsBusy(s.script[1].data[0])
    ensures r.Done? ==> r.value == s.script[1].data[0]
    ensures r.Done? || r.Spinning? ==> r.session == Advance(s, TriggerTransfers())
    ensures r.Raised? <==>
              (|s.script| > 0 && !Acknowledges(s.script[0], Write(TriggerCommand())))
              || (|s.script| > 1 && Acknowledges(s.script[0], Write(TriggerCommand()))
                  && !Acknowledges(s.script[1], ReadInto(1)))
    ensures r.Raised? ==> r.error == BusError
    ensures r.OutOfScript? ==> |r.session.script| == 0
    ensures Consumed(s, r.session)
  {
    var trigger := Transact(s, Write(TriggerCommand()));
    if trigger.Unscripted? {
      ConsumedNothing(s);
      return OutOfScript(s);
    } else if trigger.Failed? {
      return Raised(BusError, trigger.next);
    }
    var poll := Transact(trigger.next, ReadInto(1));
    if poll.Unscripted? {
      return OutOfScript(trigger.next);
    }
    ConsumedTrans(s, trigger.next, poll.next);
    if poll.Failed? {
      return Raised(BusError, poll.next);
    }
    assert s.script[1] == trigger.next.script[0];
    if IsBusy(poll.data[0]) {
      return Spinning(poll.next);
    }
    return Done(poll.data[0], poll.next);
  }

  /** `DHT20.read_data`: trigger a measurement, read one status byte, wait
      while its bit 7 is set, read the 7-byte frame and return its two
      fields when byte 6 is the CRC of bytes 0..5.

      The wait loop never reads the status again, so a busy first status
      byte keeps it spinning forever.  On a CRC mismatch the fields are
      never assigned and the `return` raises (`ChecksumMismatch`). */
  method ReadData(s: Session) returns (r: Outcome<Reading>)
    ensures r.Spinning? <==> Triggered(s) && IsBusy(s.script[1].data[0])
    ensures r.Spinning? ==> r.session == Advance(s, TriggerTransfers())
    ensures r.Done? <==> FrameReceived(s) && Checksum(s.script[2].data) == 0
    ensures r.Raised? && r.error == ChecksumMismatch <==> FrameReceived(s) && Checksum(s.script[2].data) != 0
    ensures r.Done? ==> Decode(s.script[2].data) == Some(r.value)
    ensures r.Raised? && r.error == BusError <==>
              (|s.script| > 0 && !Acknowledges(s.script[0], Write(TriggerCommand())))
              || (|s.script| > 1 && Acknowledges(s.script[0], Write(TriggerCommand()))
                  && !Acknowledges(s.script[1], ReadInto(1)))
              || (Triggered(s) && !IsBusy(s.script[1].data[0])
                  && |s.script| > 2 && !Acknowledges(s.script[2], ReadInto(FrameLength)))
    ensures r.OutOfScript? ==> |r.session.script| == 0
    ensures r.Done? || (r.Raised? && r.error == ChecksumMismatch) ==>
              FrameReceived(s) && r.session == Advance(s, TriggerTransfers() + [ReadInto(FrameLength)])
    ensures Consumed(s, r.session)
  {
    var started := StartMeasurement(s);
    if !started.Done? {
      return started.Stopped();
    }
    assert started.session.script == s.script[2..];
    r := ReadFrame(started.session);
    ConsumedTrans(s, started.session, r.session);
    if r.Done? || (r.Raised? && r.error == ChecksumMismatch) {
      AdvanceTwice(s, TriggerTransfers(), [ReadInto(FrameLength)]);
    }
  }

}
