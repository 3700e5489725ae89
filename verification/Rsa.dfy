// RSA key checks: the exponent's trial division on 32-bit words, and the modulus size bound of RFC 8230.
module Rsa {
  import opened Base

  newtype uint32 = x: int | 0 <= x < 0x1_0000_0000

  // ----- Exponents -----

  ghost predicate Divides(d: int, n: int)
    requires d > 0
  {
    n % d == 0
  }

  ghost predicate OddPrime(n: int) {
    n >= 3 && n % 2 == 1 && forall d :: 2 <= d < n ==> !Divides(d, n)
  }

  lemma ProductMonotone(a: int, b: int, k: int)
    requires a <= b && k >= 0
    ensures a * k <= b * k
  {}

  lemma Cofactor(n: int, d: int) returns (c: int)
    requires n > 0 && d > 0 && n % d == 0
    ensures n == d * c && c > 0
  {
    c := n / d;
    assert n == d * (n / d) + n % d;
    if c <= 0 { ProductMonotone(c, 0, d); }
  }

  lemma EvenProduct(d: int, c: int)
    requires d % 2 == 0
    ensures (d * c) % 2 == 0
  {
    var h := d / 2;
    assert d * c == 2 * (h * c);
  }

  lemma OddFactors(n: int, d: int, c: int)
    requires n == d * c && n % 2 == 1
    ensures d % 2 == 1 && c % 2 == 1
  {
    if d % 2 == 0 { EvenProduct(d, c); }
    if c % 2 == 0 { EvenProduct(c, d); }
  }

  lemma SmallerFactor(n: int, d: int, c: int, bound: int)
    requires n == d * c && n < bound * bound && d > 0 && c > 0 && bound > 0
    ensures d < bound || c < bound
  {
    if d >= bound && c >= bound {
      ProductMonotone(bound, d, c);
      ProductMonotone(bound, c, bound);
    }
  }

  lemma ModuloOfProduct(n: int, d: int, c: int)
    requires d > 0 && n == d * c
    ensures n % d == 0
  {
    var q, r := n / d, n % d;
    assert n == d * q + r && 0 <= r < d;
    assert (c - q) * d == r;
    if c - q >= 1 { ProductMonotone(1, c - q, d); }
    if c - q <= -1 { ProductMonotone(c - q, -1, d); }
  }

  /** An odd number with a divisor has an odd one below any bound whose square exceeds it. */
  lemma SmallDivisor(n: int, d: int, bound: int) returns (small: int)
    requires n % 2 == 1 && 2 <= d < n && Divides(d, n) && bound > 0 && n < bound * bound
    ensures 3 <= small < bound && small % 2 == 1 && Divides(small, n)
  {
    var c := Cofactor(n, d);
    OddFactors(n, d, c);
    SmallerFactor(n, d, c, bound);
    ModuloOfProduct(n, c, d);
    small := if d < bound then d else c;
  }

  /** No odd divisor up to the square root means no divisor at all. */
  lemma NoSmallDivisors(n: int, bound: int)
    requires n >= 3 && n % 2 == 1 && bound >= 3 && n < bound * bound
    requires forall d :: 3 <= d < bound && d % 2 == 1 ==> !Divides(d, n)
    ensures OddPrime(n)
  {
    forall d | 2 <= d < n ensures !Divides(d, n) {
      if Divides(d, n) { var small := SmallDivisor(n, d, bound); }
    }
  }

  lemma QuotientBound(n: int, d: int)
    requires n >= 0 && d > 0
    ensures d <= n / d ==> d * d <= n
    ensures d > n / d ==> n < d * d
  {
    var q, r := n / d, n % d;
    assert n == d * q + r && 0 <= r < d;
    if d <= q { ProductMonotone(d, q, d); } else { ProductMonotone(q, d - 1, d); }
  }

  lemma SquareFits(d: int)
    requires d > 0 && d * d < 0x1_0000_0000
    ensures d < 0x1_0000
  {
    if d >= 0x1_0000 {
      ProductMonotone(0x1_0000, d, d);
      ProductMonotone(0x1_0000, d, 0x1_0000);
    }
  }

  function Quotient(n: uint32, d: uint32): uint32
    requires d != 0
  {
    n / d
  }

  function Remainder(n: uint32, d: uint32): uint32
    requires d != 0
  {
    n % d
  }

  /** A loop turn works with a divisor well below 2^16 and below the exponent, and tries it. */
  lemma LoopTurn(n: uint32, d: uint32)
    requires 3 <= d && d <= Quotient(n, d)
    ensures d < 0x1_0000
    ensures Remainder(n, d) == 0 <==> Divides(d as int, n as int)
    ensures Remainder(n, d) == 0 ==> !OddPrime(n as int)
  {
    var ni, di := n as int, d as int;
    QuotientBound(ni, di);
    SquareFits(di);
    ProductMonotone(3, di, di);
  }

  lemma LoopDone(n: uint32, d: uint32)
    requires n >= 3 && n % 2 == 1 && d >= 3 && d > Quotient(n, d)
    requires forall k :: 3 <= k < d as int && k % 2 == 1 ==> !Divides(k, n as int)
    ensures OddPrime(n as int)
  {
    hide OddPrime, Divides;
    QuotientBound(n as int, d as int);
    NoSmallDivisors(n as int, d as int);
  }

  lemma NotOddPrime(n: uint32)
    ensures n < 3 || n % 2 == 0 ==> !OddPrime(n as int)
  {}

  /** Trial division accepts exactly the odd primes; no word overflows. */
  method ValidExponent(exponent: uint32) returns (ok: bool)
    ensures ok <==> OddPrime(exponent as int)
  {
    hide Divides, OddPrime, Quotient, Remainder;
    NotOddPrime(exponent);
    if exponent < 3 || exponent % 2 == 0 {
      return false;
    }
    var divisor: uint32 := 3;
    while divisor <= Quotient(exponent, divisor)
      invariant 3 <= divisor <= 0x1_0001 && divisor % 2 == 1
      invariant forall k :: 3 <= k < divisor as int && k % 2 == 1 ==> !Divides(k, exponent as int)
      decreases 0x1_0001 - divisor as int
    {
      LoopTurn(exponent, divisor);
      if Remainder(exponent, divisor) == 0 {
        return false;
      }
      divisor := divisor + 2;
    }
    LoopDone(exponent, divisor);
    return true;
  }

  // ----- Moduli -----

  const MIN_MODULUS_BITS := 2048
  const MAX_MODULUS_BITS := 16384

  function Pow2(n: nat): nat {
    if n == 0 then 1 else 2 * Pow2(n - 1)
  }

  /** The number of bits of an octet without its leading zeros. */
  function BitLength(n: nat): nat {
    if n == 0 then 0 else 1 + BitLength(n / 2)
  }

  datatype Material = Material(modulus: seq<byte>, exponent: nat)

  predicate ValidMaterial(m: Material) {
    && |m.modulus| != 0 && m.modulus[0] != 0 && m.modulus[|m.modulus| - 1] % 2 != 0
    && m.exponent >= 3 && m.exponent % 2 != 0
    && MIN_MODULUS_BITS <= (|m.modulus| - 1) * 8 + BitLength(m.modulus[0]) <= MAX_MODULUS_BITS
  }

  lemma {:induction false} Pow2Monotone(a: nat, b: nat)
    requires a <= b
    ensures 0 < Pow2(a) <= Pow2(b)
    decreases b
  {
    if a < b { Pow2Monotone(a, b - 1); } else if a > 0 { Pow2Monotone(a - 1, b - 1); }
  }

  lemma Regroup(a: int, b: int, c: int)
    ensures a * (b * c) == (a * b) * c
  {}

  lemma {:induction false} Pow2Sum(a: nat, b: nat)
    ensures Pow2(a + b) == Pow2(a) * Pow2(b)
  {
    if a > 0 {
      assert Pow2(a + b) == 2 * Pow2(a - 1 + b) && Pow2(a) == 2 * Pow2(a - 1);
      Pow2Sum(a - 1, b);
      Regroup(2, Pow2(a - 1), Pow2(b));
    }
  }

  lemma {:induction false} Pow256IsPow2(width: nat)
    ensures Pow256(width) == Pow2(8 * width)
  {
    if width > 0 {
      Pow256IsPow2(width - 1);
      Pow2Sum(8, 8 * (width - 1));
      assert Pow2(8) == 256 by { assert Pow2(4) == 16; }
    }
  }

  lemma {:induction false} BitLengthBounds(n: nat)
    requires n > 0
    ensures BitLength(n) > 0 && Pow2(BitLength(n) - 1) <= n < Pow2(BitLength(n))
  {
    if n > 1 { BitLengthBounds(n / 2); }
  }

  lemma Swap(a: int, b: int, c: int)
    ensures a * (b * c) == b * (a * c)
  {}

  /** The first octet gives the leading digits of the number. */
  lemma {:induction false} LeadingOctet(octets: seq<byte>, first: int)
    requires octets != [] && first == octets[0]
    ensures first * Pow256(|octets| - 1) <= ReadBE(octets) < (first + 1) * Pow256(|octets| - 1)
  {
    var front := octets[..|octets| - 1];
    if |octets| > 1 {
      LeadingOctet(front, first);
      Swap(first, 256, Pow256(|front| - 1));
      Swap(first + 1, 256, Pow256(|front| - 1));
    } else {
      assert front == [];
    }
  }

  /** The bit count computed from the first octet is the bit length of the whole number. */
  lemma ModulusBits(octets: seq<byte>)
    requires octets != [] && octets[0] != 0
    ensures var bits := (|octets| - 1) * 8 + BitLength(octets[0]);
            bits > 0 && Pow2(bits - 1) <= ReadBE(octets) < Pow2(bits)
  {
    hide Pow2, ReadBE, BitLength;
    var low, high, first: int := 8 * (|octets| - 1), BitLength(octets[0]), octets[0];
    BitLengthBounds(octets[0]);
    LeadingOctet(octets, first);
    Pow256IsPow2(|octets| - 1);
    Pow2Sum(high - 1, low);
    Pow2Sum(high, low);
    Pow2Monotone(0, low);
    ProductMonotone(Pow2(high - 1), first, Pow2(low));
    ProductMonotone(first + 1, Pow2(high), Pow2(low));
  }

  lemma OddByLastOctet(octets: seq<byte>)
    requires octets != []
    ensures ReadBE(octets) % 2 == octets[|octets| - 1] % 2
  {
    var high := ReadBE(octets[..|octets| - 1]);
    assert 256 * high + octets[|octets| - 1] == 2 * (128 * high) + octets[|octets| - 1];
  }

  /** Key material is valid exactly when its modulus is a minimally encoded odd number of 2048 to 16384 bits and its
      exponent is odd and at least 3. */
  lemma ValidMaterialExactly(m: Material)
    ensures ValidMaterial(m) <==>
              (&& m.modulus != [] && m.modulus[0] != 0
               && ReadBE(m.modulus) % 2 == 1
               && Pow2(2047) <= ReadBE(m.modulus) < Pow2(16384)
               && m.exponent >= 3 && m.exponent % 2 == 1)
  {
    hide Pow2, BitLength, ReadBE;
    if m.modulus != [] && m.modulus[0] != 0 {
      ModulusBits(m.modulus);
      OddByLastOctet(m.modulus);
      var bits := (|m.modulus| - 1) * 8 + BitLength(m.modulus[0]);
      if bits >= 2048 { Pow2Monotone(2047, bits - 1); } else { Pow2Monotone(bits, 2047); }
      if bits <= 16384 { Pow2Monotone(bits, 16384); } else { Pow2Monotone(16384, bits - 1); }
    }
  }
}
