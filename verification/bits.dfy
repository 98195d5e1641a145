/** Bit-level arithmetic on non-negative integers, as Python's `&`, `|`, `^`,
    `<<` and `>>` compute it on its unbounded `int`.  The driver stores bytes
    in `bytearray`s, but its checksum accumulator is a plain `int` that is
    never truncated inside the loop, so the operators are defined here on
    `nat` and their 8-bit behaviour is proved rather than assumed. */
module Bits {

  /** One element of a Python `bytearray`. */
  type byte = x: int | 0 <= x < 256

  function Pow2(k: nat): (r: nat)
    ensures r >= 1
  {
    if k == 0 then 1 else 2 * Pow2(k - 1)
  }

  /** Bit `k` of `a`; bit 0 is the least significant. */
  predicate Bit(a: nat, k: nat) {
    if k == 0 then a % 2 == 1 else Bit(a / 2, k - 1)
  }

  /** Python's `a ^ b`. */
  function Xor(a: nat, b: nat): nat
    decreases a + b
  {
    if a == 0 && b == 0 then 0
    else 2 * Xor(a / 2, b / 2) + (if a % 2 == b % 2 then 0 else 1)
  }

  /** Python's `a & b`. */
  function And(a: nat, b: nat): nat
    decreases a + b
  {
    if a == 0 || b == 0 then 0
    else 2 * And(a / 2, b / 2) + (if a % 2 == 1 && b % 2 == 1 then 1 else 0)
  }

  /** Python's `a | b`. */
  function Or(a: nat, b: nat): nat
    decreases a + b
  {
    if a == 0 && b == 0 then 0
    else 2 * Or(a / 2, b / 2) + (if a % 2 == 1 || b % 2 == 1 then 1 else 0)
  }

  /** Python's `a << k` on a non-negative `int`: nothing is ever shifted out. */
  function ShiftLeft(a: nat, k: nat): nat {
    a * Pow2(k)
  }

  /** Python's `a >> k` on a non-negative `int`: k halvings, rounding down. */
  function ShiftRight(a: nat, k: nat): nat {
    if k == 0 then a else ShiftRight(a / 2, k - 1)
  }

  /** `a ^ b` on two bytes is again a byte. */
  function XorByte(a: byte, b: byte): (r: byte)
    ensures r == Xor(a, b)
  {
    Pow2Values();
    XorBound(a, b, 8);
    Xor(a, b)
  }

  /** `a | b` on two bytes is again a byte, as a `bytearray` store requires. */
  function OrByte(a: byte, b: byte): (r: byte)
    ensures r == Or(a, b)
  {
    Pow2Values();
    OrBound(a, b, 8);
    Or(a, b)
  }

  lemma Pow2Values()
    ensures Pow2(4) == 16 && Pow2(7) == 128 && Pow2(8) == 256
    ensures Pow2(12) == 4096 && Pow2(16) == 65536 && Pow2(20) == 1048576
  {
  }

  /** The shifts the driver uses, as plain arithmetic. */
  lemma ShiftsByConstants(x: nat)
    ensures ShiftLeft(x, 4) == x * 16 && ShiftLeft(x, 8) == x * 256
    ensures ShiftRight(x, 4) == x / 16 && ShiftRight(x, 7) == x / 128
  {
    Pow2Values();
    ShiftRightDivides(x, 4);
    ShiftRightDivides(x, 7);
  }

  /** `a >> k` is division by 2^k. */
  lemma {:induction false} ShiftRightDivides(a: nat, k: nat)
    ensures ShiftRight(a, k) == a / Pow2(k)
  {
    if k > 0 {
      ShiftRightDivides(a / 2, k - 1);
      ModHalf(a, Pow2(k - 1));
    }
  }

  // ---------------------------------------------------------------------
  // Splitting a number into its lowest bit and the rest
  // ---------------------------------------------------------------------

  lemma ModHalf(a: nat, m: nat)
    requires m > 0
    ensures a % (2 * m) == 2 * ((a / 2) % m) + a % 2
    ensures (a % (2 * m)) / 2 == (a / 2) % m
    ensures (a % (2 * m)) % 2 == a % 2
    ensures a / (2 * m) == (a / 2) / m
  {
    var q := (a / 2) / m;
    var r := (a / 2) % m;
    assert a / 2 == q * m + r;
    assert a == q * (2 * m) + (2 * r + a % 2);
    DivModUnique(a, 2 * m, q, 2 * r + a % 2);
  }

  lemma DivModUnique(a: int, d: int, q: int, r: int)
    requires d > 0 && 0 <= r < d && a == q * d + r
    ensures a / d == q && a % d == r
  {
    var q' := a / d;
    var r' := a % d;
    assert q * d - q' * d == r' - r;
    if q > q' {
      assert (q - q') * d == q * d - q' * d;
      MulAtLeast(q - q', d);
    } else if q < q' {
      assert (q' - q) * d == q' * d - q * d;
      MulAtLeast(q' - q, d);
    }
  }

  lemma MulAtLeast(k: int, d: int)
    requires k >= 1 && d > 0
    ensures k * d >= d
  {
  }



  // ---------------------------------------------------------------------
  // Bits of the operators
  // ---------------------------------------------------------------------

  lemma {:induction false} ZeroBits(k: nat)
    ensures !Bit(0, k)
  {
    if k > 0 {
      ZeroBits(k - 1);
    }
  }

  /** For a number below 2^(k+1), bit k is set exactly when it is at least 2^k. */
  lemma {:induction false} TopBit(a: nat, k: nat)
    requires a < Pow2(k + 1)
    ensures Bit(a, k) <==> a >= Pow2(k)
  {
    if k > 0 {
      TopBit(a / 2, k - 1);
    }
  }

  /** Two numbers below 2^n with the same n low bits are equal. */
  lemma {:induction false} BitsDetermine(a: nat, b: nat, n: nat)
    requires a < Pow2(n) && b < Pow2(n)
    requires forall k | 0 <= k < n :: Bit(a, k) == Bit(b, k)
    ensures a == b
  {
    if n > 0 {
      assert Bit(a, 0) == Bit(b, 0);
      forall k | 0 <= k < n - 1
        ensures Bit(a / 2, k) == Bit(b / 2, k)
      {
        assert Bit(a, k + 1) == Bit(b, k + 1);
      }
      BitsDetermine(a / 2, b / 2, n - 1);
    }
  }

  lemma {:induction false} XorBit(a: nat, b: nat, k: nat)
    ensures Bit(Xor(a, b), k) <==> Bit(a, k) != Bit(b, k)
    decreases k
  {
    if a == 0 && b == 0 {
      ZeroBits(k);
    } else if k > 0 {
      XorBit(a / 2, b / 2, k - 1);
    }
  }

  lemma {:induction false} AndBit(a: nat, b: nat, k: nat)
    ensures Bit(And(a, b), k) <==> Bit(a, k) && Bit(b, k)
    decreases k
  {
    if a == 0 || b == 0 {
      ZeroBits(k);
    } else if k > 0 {
      AndBit(a / 2, b / 2, k - 1);
    }
  }

  lemma {:induction false} OrBit(a: nat, b: nat, k: nat)
    ensures Bit(Or(a, b), k) <==> Bit(a, k) || Bit(b, k)
    decreases k
  {
    if a == 0 && b == 0 {
      ZeroBits(k);
    } else if k > 0 {
      OrBit(a / 2, b / 2, k - 1);
    }
  }

  // ---------------------------------------------------------------------
  // Widths: the operators never carry a bit above the inputs' width
  // ---------------------------------------------------------------------

  lemma {:induction false} XorBound(a: nat, b: nat, n: nat)
    requires a < Pow2(n) && b < Pow2(n)
    ensures Xor(a, b) < Pow2(n)
  {
    if n > 0 && !(a == 0 && b == 0) {
      XorBound(a / 2, b / 2, n - 1);
    }
  }

  lemma {:induction false} OrBound(a: nat, b: nat, n: nat)
    requires a < Pow2(n) && b < Pow2(n)
    ensures Or(a, b) < Pow2(n)
  {
    if n > 0 && !(a == 0 && b == 0) {
      OrBound(a / 2, b / 2, n - 1);
    }
  }

  lemma {:induction false} AndBound(a: nat, b: nat)
    ensures And(a, b) <= a && And(a, b) <= b
    decreases a + b
  {
    if a != 0 && b != 0 {
      AndBound(a / 2, b / 2);
    }
  }


  /** The low n bits of `a ^ b` depend only on the low n bits of `a` and `b`. */
  lemma XorMod(a: nat, b: nat, n: nat)
    ensures Xor(a, b) % Pow2(n) == Xor(a % Pow2(n), b % Pow2(n))
  {
    var p := Pow2(n);
    var low := Xor(a, b) % p;
    var xored := Xor(a % p, b % p);
    XorBound(a % p, b % p, n);
    forall k | 0 <= k < n
      ensures Bit(low, k) == Bit(xored, k)
    {
      BitMod(Xor(a, b), n, k);
      XorBit(a, b, k);
      XorBit(a % p, b % p, k);
      BitMod(a, n, k);
      BitMod(b, n, k);
    }
    BitsDetermine(low, xored, n);
  }

  /** The low n bits of `a | b` depend only on the low n bits of `a` and `b`. */
  lemma OrMod(a: nat, b: nat, n: nat)
    ensures Or(a, b) % Pow2(n) == Or(a % Pow2(n), b % Pow2(n))
  {
    var p := Pow2(n);
    var low := Or(a, b) % p;
    var ored := Or(a % p, b % p);
    OrBound(a % p, b % p, n);
    forall k | 0 <= k < n
      ensures Bit(low, k) == Bit(ored, k)
    {
      BitMod(Or(a, b), n, k);
      OrBit(a, b, k);
      OrBit(a % p, b % p, k);
      BitMod(a, n, k);
      BitMod(b, n, k);
    }
    BitsDetermine(low, ored, n);
  }

  /** Masking with 2^n - 1 keeps exactly the low n bits. */
  lemma AndMask(a: nat, n: nat)
    ensures And(a, Pow2(n) - 1) == a % Pow2(n)
  {
    var p := Pow2(n);
    var masked := And(a, p - 1);
    AndBound(a, p - 1);
    forall k | 0 <= k < n
      ensures Bit(masked, k) == Bit(a % p, k)
    {
      AndBit(a, p - 1, k);
      OnesBits(n, k);
      BitMod(a, n, k);
    }
    BitsDetermine(masked, a % p, n);
  }

  /** 2^n - 1 has all of its n low bits set. */
  lemma {:induction false} OnesBits(n: nat, k: nat)
    requires k < n
    ensures Bit(Pow2(n) - 1, k)
  {
    var ones := Pow2(n) - 1;
    assert ones == 2 * (Pow2(n - 1) - 1) + 1;
    if k > 0 {
      assert ones / 2 == Pow2(n - 1) - 1;
      OnesBits(n - 1, k - 1);
    }
  }

  /** Masking with the single bit 2^k tests bit k. */
  lemma {:induction false} AndPow2(a: nat, k: nat)
    ensures And(a, Pow2(k)) == if Bit(a, k) then Pow2(k) else 0
  {
    if a == 0 {
      ZeroBits(k);
    } else if k > 0 {
      AndPow2(a / 2, k - 1);
    }
  }

  /** The low bits of a number are the bits of its remainder modulo 2^n. */
  lemma {:induction false} BitMod(a: nat, n: nat, k: nat)
    requires k < n
    ensures Bit(a % Pow2(n), k) == Bit(a, k)
  {
    ModHalf(a, Pow2(n - 1));
    if k > 0 {
      BitMod(a / 2, n - 1, k - 1);
    }
  }

  /** The bits of `a | b` from position n up are those of the operands. */
  lemma {:induction false} OrShiftRight(a: nat, b: nat, n: nat)
    ensures ShiftRight(Or(a, b), n) == Or(ShiftRight(a, n), ShiftRight(b, n))
  {
    if n > 0 {
      var x := Or(a, b);
      if a == 0 && b == 0 {
        assert x == 0;
      }
      assert x / 2 == Or(a / 2, b / 2);
      OrShiftRight(a / 2, b / 2, n - 1);
    }
  }

  lemma {:induction false} OrZero(a: nat)
    ensures Or(0, a) == a
  {
    if a != 0 {
      OrZero(a / 2);
    }
  }

  /** `a ^ b` is zero exactly when `a` and `b` are equal. */
  lemma {:induction false} XorZero(a: nat, b: nat)
    ensures Xor(a, b) == 0 <==> a == b
    decreases a + b
  {
    if !(a == 0 && b == 0) {
      XorZero(a / 2, b / 2);
    }
  }
}
