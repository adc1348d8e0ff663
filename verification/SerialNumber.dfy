/** Sixteen-bit sequence numbers and the order the UDP session puts on them
    (ClientNetworkCore/Session.h). */
module SerialNumber {

  const MODULUS: int := 65536

  type u16 = x: int | 0 <= x < 65536

  /** Conversion of any integer to `uint16`. */
  function Wrap(x: int): u16 {
    x % MODULUS
  }

  /** `static_cast<int16>(x)` */
  function ToInt16(x: int): int {
    if x % MODULUS < 32768 then x % MODULUS else x % MODULUS - MODULUS
  }

  /** `IsSeqGreater(a, b)` of the session. */
  predicate IsSeqGreater(a: u16, b: u16) {
    ToInt16(a - b) > 0
  }

  /** Congruent integers have the same wire image. */
  lemma WrapCongruent(x: int, y: int, q: int)
    requires x == y + MODULUS * q
    ensures Wrap(x) == Wrap(y)
  {
  }

  lemma WrapSmall(x: int)
    requires 0 <= x < MODULUS
    ensures Wrap(x) == x
  {
  }

  /** `seq++` on a `uint16` keeps step with an unbounded counter. */
  lemma WrapSuccessor(x: int)
    ensures Wrap(Wrap(x) + 1) == Wrap(x + 1)
  {
    WrapCongruent(x + 1, Wrap(x) + 1, x / MODULUS);
  }

  lemma WrapDifference(m: int, n: int)
    ensures Wrap(Wrap(m) - n) == Wrap(m - n)
    ensures Wrap(Wrap(m) - Wrap(n)) == Wrap(m - n)
  {
    WrapCongruent(m - n, Wrap(m) - n, m / MODULUS);
    WrapCongruent(Wrap(m) - n, Wrap(m) - Wrap(n), -(n / MODULUS));
  }

  lemma ToInt16OfSmall(d: int)
    requires -MODULUS < d < MODULUS
    ensures ToInt16(d) > 0 <==> 0 < d < 32768 || d < -32768
  {
    WrapCongruent(d + MODULUS, d, 1);
  }

  lemma ToInt16OfSigned(d: int)
    requires -32768 <= d <= 32767
    ensures ToInt16(d) == d
  {
    WrapCongruent(d + MODULUS, d, 1);
  }

  lemma ToInt16OfWrap(x: int)
    ensures ToInt16(Wrap(x)) == ToInt16(x)
  {
  }

  /** The session's comparison is the serial number comparison of section 3.2 of RFC 1982 with
      SERIAL_BITS = 16, and answers "no" both ways exactly for equal numbers and for the pairs that
      the RFC leaves undefined. */
  lemma GreaterIsRfc1982(a: u16, b: u16)
    ensures IsSeqGreater(a, b) <==> (a < b && b - a > 32768) || (a > b && a - b < 32768)
    ensures !IsSeqGreater(a, b) && !IsSeqGreater(b, a) <==> a == b || a - b == 32768 || b - a == 32768
  {
    ToInt16OfSmall(a - b);
    ToInt16OfSmall(b - a);
  }

  /** On the wire images of unbounded numbers the comparison is the true order precisely while the
      two numbers are within the signed sixteen-bit range of each other. */
  lemma GreaterIsTrueOrder(m: int, n: int)
    requires -32768 <= m - n <= 32767
    ensures IsSeqGreater(Wrap(m), Wrap(n)) <==> m > n
  {
    WrapDifference(m, n);
    ToInt16OfWrap(Wrap(m) - Wrap(n));
    ToInt16OfWrap(m - n);
    ToInt16OfSigned(m - n);
  }
}
