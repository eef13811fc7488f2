/** The proof-of-work test of an adaptive challenge: the server counts the leading zero bits
    of a digest, the browser compares bytes against a shrinking bit budget.  Both are proved
    to be the same test, and to be a bound on the digest read as a big-endian integer.
    A bit test on a byte is written as division by a power of two. */
module ProofOfWork {
  import opened Arithmetic

  type Byte = n: int | 0 <= n < 256

  /** The digest as a big-endian integer. */
  function Value(b: seq<Byte>): nat {
    if b == [] then 0 else b[0] * Pow2(8 * (|b| - 1)) + Value(b[1..])
  }

  /** The number of leading zero bits of a byte. */
  function ByteZeros(x: Byte): (k: nat)
    ensures k <= 8
  {
    if x >= 128 then 0
    else if x >= 64 then 1
    else if x >= 32 then 2
    else if x >= 16 then 3
    else if x >= 8 then 4
    else if x >= 4 then 5
    else if x >= 2 then 6
    else if x >= 1 then 7
    else 8
  }

  function ZeroBits(b: seq<Byte>): (bits: nat)
    ensures bits <= 8 * |b|
  {
    if b == [] then 0
    else if b[0] == 0 then 8 + ZeroBits(b[1..])
    else ByteZeros(b[0])
  }

  /** A byte has at least d leading zeros exactly when it is below 2^(8-d). */
  lemma ByteZerosBound(x: Byte, d: nat)
    requires d <= 8
    ensures ByteZeros(x) >= d <==> x < Pow2(8 - d)
    ensures Pow2(8 - d) <= 256
  {
    assert Pow2(0) == 1 && Pow2(1) == 2 && Pow2(2) == 4 && Pow2(3) == 8 && Pow2(4) == 16;
    assert Pow2(5) == 32 && Pow2(6) == 64 && Pow2(7) == 128 && Pow2(8) == 256;
  }

  lemma ShiftedOut(x: nat, m: nat)
    requires m >= 1
    ensures x / m == 0 <==> x < m
    ensures x < 2 * m ==> x / m <= 1
  {
    var q := x / m;
    assert x == q * m + x % m;
    SameOrder(q, 2, m);
    SameOrder(q, 1, m);
    assert x < m ==> q * m < 1 * m;
    assert x < 2 * m ==> q * m < 2 * m;
  }

  /** The bits of the first byte that is not zero: a mask walks down to the highest set bit. */
  method CountInByte(byte: Byte) returns (bits: nat)
    requires byte != 0
    ensures bits == ByteZeros(byte)
  {
    bits := 0;
    var mask := 0x80;
    ShiftedOut(byte, mask);
    while mask > 0 && byte / mask % 2 == 0
      invariant bits <= 7 && mask == Pow2(7 - bits) && byte < 2 * mask
      invariant byte / mask % 2 == 0 <==> byte < mask
      decreases mask
    {
      assert bits == 7 ==> mask == 1;
      mask := mask / 2;
      bits := bits + 1;
      ShiftedOut(byte, mask);
    }
    ByteZerosBound(byte, bits);
    ByteZerosBound(byte, bits + 1);
  }

  /** The server's count. */
  method LeadingZeroBits(buffer: seq<Byte>) returns (bits: nat)
    ensures bits == ZeroBits(buffer)
  {
    bits := 0;
    var i := 0;
    while i < |buffer|
      invariant 0 <= i <= |buffer|
      invariant ZeroBits(buffer) == bits + ZeroBits(buffer[i..])
    {
      var byte := buffer[i];
      assert buffer[i..][1..] == buffer[i + 1..];
      if byte == 0 {
        bits := bits + 8;
        i := i + 1;
        continue;
      }
      var inByte := CountInByte(byte);
      return bits + inByte;
    }
    assert buffer[i..] == [];
  }

  /** The browser's test. */
  method HasLeadingZeroBits(bytes: seq<Byte>, bits: int) returns (ok: bool)
    ensures ok <==> ZeroBits(bytes) >= bits
  {
    var remaining := bits;
    var i := 0;
    while i < |bytes|
      invariant 0 <= i <= |bytes|
      invariant ZeroBits(bytes) >= bits <==> ZeroBits(bytes[i..]) >= remaining
    {
      var byte := bytes[i];
      assert bytes[i..][1..] == bytes[i + 1..];
      if remaining <= 0 {
        return true;
      }
      if remaining >= 8 {
        if byte != 0 {
          return false;
        }
        remaining := remaining - 8;
        i := i + 1;
        continue;
      }
      ByteZerosBound(byte, remaining);
      ShiftedOut(byte, Pow2(8 - remaining));
      return byte / Pow2(8 - remaining) == 0;
    }
    return remaining <= 0;
  }

  lemma DigitBound(x: nat, q: nat, p: nat, v: nat)
    requires v < p
    ensures x * p + v < q * p <==> x < q
  {
    if x < q {
      assert (x + 1) * p <= q * p;
    } else {
      assert x * p >= q * p;
    }
  }

  /** Comparing a number with 2^(8n-d), when d falls into its first byte, looks at that byte
      alone. */
  lemma FirstByteDecides(b: seq<Byte>, d: nat)
    requires b != [] && d <= 8
    requires Value(b[1..]) < Pow2(8 * |b| - 8)
    ensures Value(b) < Pow2(8 * |b| - d) <==> b[0] < Pow2(8 - d)
  {
    var m := 8 * |b| - 8;
    Pow2Adds(8 - d, m);
    DigitBound(b[0], Pow2(8 - d), Pow2(m), Value(b[1..]));
    assert 8 - d + m == 8 * |b| - d;
  }

  lemma {:induction false} ValueFits(b: seq<Byte>)
    ensures Value(b) < Pow2(8 * |b|)
  {
    if b != [] {
      ValueFits(b[1..]);
      FirstByteDecides(b, 0);
      ByteZerosBound(b[0], 0);
    }
  }

  lemma LargeFirstByte(b: seq<Byte>, d: nat)
    requires b != [] && b[0] > 0 && 8 <= d <= 8 * |b|
    ensures Value(b) >= Pow2(8 * |b| - d)
  {
    var m, n := 8 * |b| - 8, 8 * |b| - d;
    Pow2Adds(d - 8, n);
    assert d - 8 + n == m;
    assert Pow2(m) >= Pow2(n) by { AtLeastFactor(Pow2(d - 8), Pow2(n)); }
    assert b[0] * Pow2(m) >= Pow2(m) by { AtLeastFactor(b[0], Pow2(m)); }
  }

  lemma AtLeastFactor(x: nat, y: nat)
    requires x >= 1
    ensures x * y >= y
  {}

  /** The test is a bound on the digest: at least d leading zero bits means a value below
      2^(8n-d). */
  lemma {:induction false} ZeroBitsBoundValue(b: seq<Byte>, d: nat)
    requires d <= 8 * |b|
    ensures ZeroBits(b) >= d <==> Value(b) < Pow2(8 * |b| - d)
  {
    if b == [] {
    } else if d <= 8 {
      ValueFits(b[1..]);
      FirstByteDecides(b, d);
      ByteZerosBound(b[0], d);
    } else if b[0] == 0 {
      ZeroBitsBoundValue(b[1..], d - 8);
      assert 8 * |b| - d == 8 * |b[1..]| - (d - 8);
      assert Value(b) == Value(b[1..]);
    } else {
      LargeFirstByte(b, d);
      ByteZerosBound(b[0], 8);
    }
  }
}
