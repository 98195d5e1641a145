/** The I2C bus as the driver sees it.  The bus library (`I2CDevice` and
    its `write`, `readinto` and `write_then_readinto`) is not part of this
    model; in its place the device is a script of replies, one per
    transaction in the order the driver issues them, and the session
    records the transactions issued. */
module Bus {
  import opened Bits

  /** One transaction, as the driver issues it. */
  datatype Transfer =
    | Write(data: seq<byte>)                        // i2c.write(buf)
    | ReadInto(count: nat)                          // i2c.readinto(buf, end=count)
    | WriteThenRead(command: seq<byte>, count: nat) // i2c.write_then_readinto(cmd, buf, in_end=count)

  /** The number of bytes a transaction reads back. */
  function ReplyLength(t: Transfer): nat {
    match t
    case Write(_) => 0
    case ReadInto(n) => n
    case WriteThenRead(_, n) => n
  }

  /** What the device does with one transaction: it completes, with the
      bytes read (none for a write), or the bus library raises. */
  datatype Reply = Completed(data: seq<byte>) | Raises

  /** A reply that completes `t` with the number of bytes `t` asks for; any
      other reply makes the transaction fail. */
  predicate Acknowledges(r: Reply, t: Transfer) {
    r.Completed? && |r.data| == ReplyLength(t)
  }

  /** The replies still to come and the transactions issued so far. */
  datatype Session = Session(script: seq<Reply>, log: seq<Transfer>)

  /** `next` is `s` after some transactions: the script has lost as many
      replies from its front as the log has gained transfers at its end. */
  predicate Consumed(s: Session, next: Session) {
    |next.script| <= |s.script| && next.script == s.script[|s.script| - |next.script|..]
    && |next.log| == |s.log| + (|s.script| - |next.script|) && next.log[..|s.log|] == s.log
  }

  /** The session after `ts` have been issued and answered in turn. */
  function Advance(s: Session, ts: seq<Transfer>): (next: Session)
    requires |ts| <= |s.script|
    ensures Consumed(s, next) && |next.script| == |s.script| - |ts|
  {
    Session(s.script[|ts|..], s.log + ts)
  }

  lemma ConsumedNothing(s: Session)
    ensures Consumed(s, s)
  {
    assert s.script[0..] == s.script;
  }

  /** Two advances in a row are one advance by both groups of transfers. */
  lemma AdvanceTwice(s: Session, first: seq<Transfer>, second: seq<Transfer>)
    requires |first| + |second| <= |s.script|
    ensures Advance(Advance(s, first), second) == Advance(s, first + second)
  {
    assert s.script[|first|..][|second|..] == s.script[|first + second|..];
    assert s.log + first + second == s.log + (first + second);
  }

  lemma ConsumedTrans(a: Session, b: Session, c: Session)
    requires Consumed(a, b) && Consumed(b, c)
    ensures Consumed(a, c)
  {
    var k := |a.script| - |b.script|;
    assert c.script == a.script[k..][|b.script| - |c.script|..];
    assert c.log[..|a.log|] == c.log[..|b.log|][..|a.log|];
  }

  /** The result of one transaction: the bytes read, a raised bus error, or
      no reply left in the script. */
  datatype Exchange =
    | Answered(data: seq<byte>, next: Session)
    | Failed(next: Session)
    | Unscripted

  /** Issues `t` and consumes one reply. */
  function Transact(s: Session, t: Transfer): (e: Exchange)
    ensures e.Unscripted? <==> |s.script| == 0
    ensures e.Answered? <==> |s.script| > 0 && Acknowledges(s.script[0], t)
    ensures e.Answered? ==> s.script[0] == Completed(e.data) && |e.data| == ReplyLength(t)
    ensures !e.Unscripted? ==> e.next == Advance(s, [t])
  {
    if |s.script| == 0 then Unscripted
    else
      var next := Advance(s, [t]);
      if Acknowledges(s.script[0], t) then Answered(s.script[0].data, next) else Failed(next)
  }
}
